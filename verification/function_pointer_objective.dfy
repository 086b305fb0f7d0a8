/** FunctionPointerObjective (src/FastMPCFunctionPointerObjective.cpp,
    include/FastMPCFunctionPointerObjective.h): an objective whose value,
    derivatives and constraints are computed by C function pointers set one
    by one. The model keeps which function each slot holds and the shapes
    of the buffers the accessors fill; what the functions compute is
    foreign floating-point code. */
module FunctionPointerObjectives {
  import opened Wrappers
  import FastMPC

  /** A function pointer slot: null, the class's do-nothing default, or a
      function the user supplied (named by its symbol). */
  datatype FunctionPointer = Null | DoNothing | Supplied(name: string)

  /** The eight slots, in the order `validate` checks them. */
  datatype PointerTable = PointerTable(
    value: FunctionPointer,
    gradient: FunctionPointer,
    hessian: FunctionPointer,
    equalityMatrix: FunctionPointer,
    equalityVector: FunctionPointer,
    inequalityValue: FunctionPointer,
    inequalityGradient: FunctionPointer,
    inequalityHessian: FunctionPointer)

  /** The slots as a sequence, in checking order. */
  function Slots(t: PointerTable): (s: seq<FunctionPointer>)
    ensures |s| == 8
  {
    [t.value, t.gradient, t.hessian, t.equalityMatrix, t.equalityVector,
     t.inequalityValue, t.inequalityGradient, t.inequalityHessian]
  }

  /** A new objective: no value, gradient or Hessian function yet, and the
      do-nothing defaults for the constraint functions. */
  const InitialTable :=
    PointerTable(Null, Null, Null, DoNothing, DoNothing, DoNothing, DoNothing, DoNothing)

  const NullMessages: seq<string> := [
    "Value function pointer is null",
    "Gradient function pointer is null",
    "Hessian function pointer is null",
    "Equality matrix function pointer is null",
    "Equality vector function pointer is null",
    "Inequality value function pointer is null",
    "Inequality gradient function pointer is null",
    "Inequality hessian function pointer is null"]

  const ParametersMessage :=
    "Number of parameters does not match the parameters vector size, or the vector has not been set"

  /** The pointer checks of `validate`: the message of the first null slot
      in checking order, or none. */
  function FirstNull(t: PointerTable): (r: Option<string>)
    ensures r.None? <==> forall k :: 0 <= k < 8 ==> Slots(t)[k] != Null
    ensures r.Some? ==> exists k :: 0 <= k < 8 && Slots(t)[k] == Null && r.value == NullMessages[k] &&
                                   forall j :: 0 <= j < k ==> Slots(t)[j] != Null
  {
    var s := Slots(t);
    assert s[0] == t.value && s[1] == t.gradient && s[2] == t.hessian && s[3] == t.equalityMatrix;
    assert s[4] == t.equalityVector && s[5] == t.inequalityValue && s[6] == t.inequalityGradient;
    assert s[7] == t.inequalityHessian;
    if t.value == Null then Some(NullMessages[0])
    else if t.gradient == Null then Some(NullMessages[1])
    else if t.hessian == Null then Some(NullMessages[2])
    else if t.equalityMatrix == Null then Some(NullMessages[3])
    else if t.equalityVector == Null then Some(NullMessages[4])
    else if t.inequalityValue == Null then Some(NullMessages[5])
    else if t.inequalityGradient == Null then Some(NullMessages[6])
    else if t.inequalityHessian == Null then Some(NullMessages[7])
    else None
  }

  /** A new objective is reported for its missing value function first. */
  lemma InitialTableReportsValue()
    ensures FirstNull(InitialTable) == Some(NullMessages[0])
    ensures forall k :: 3 <= k < 8 ==> Slots(InitialTable)[k] != Null
  {
  }

  // ---------------------------------------------------------------------
  // The parameter guard

  /** The parameter guard as written, `numParameters() > 0 && !_parameters
      && _parameters->rows() == numParameters()`, evaluated left to right:
      `None` where the third operand dereferences the empty optional
      (undefined behaviour). */
  function ParameterGuardAsWritten(numParameters: int, parameters: Option<seq<real>>): (r: Option<bool>)
    ensures r.None? <==> numParameters > 0 && parameters.None?
  {
    if !(numParameters > 0) then Some(false)
    else if !parameters.None? then Some(false)
    else None
  }

  /** As written the guard never holds: wherever it is defined it is false,
      so a parameter vector of the wrong length goes unreported. */
  lemma GuardAsWrittenNeverFires(numParameters: int, parameters: Option<seq<real>>)
    ensures ParameterGuardAsWritten(numParameters, parameters) != Some(true)
    ensures ParameterGuardAsWritten(2, Some([0.0])) == Some(false)
    ensures ParameterGuard(2, Some([0.0]))
  {
  }

  /** The guard as its comment and message describe it: parameters are
      expected, and the vector is missing or of another length. */
  function ParameterGuard(numParameters: int, parameters: Option<seq<real>>): (r: bool)
    ensures !r && numParameters > 0 ==> parameters.Some? && |parameters.value| == numParameters
    ensures numParameters <= 0 ==> !r
  {
    numParameters > 0 && (parameters.None? || |parameters.value| != numParameters)
  }

  // ---------------------------------------------------------------------
  // What the accessors produce

  /** How an accessor fills its result: by calling a slot's function into a
      `rows` by `cols` buffer, or with the `Objective` default of zeros of
      that shape. */
  datatype Evaluation = Call(pointer: FunctionPointer, rows: int, cols: int) | Zeros(rows: int, cols: int)
  {
    function Shape(): FastMPC.Dims {
      FastMPC.Dims(rows, cols)
    }
  }

  class FunctionPointerObjective {
    var numVariables: int
    var numInequalityConstraints: int
    var numEqualityConstraints: int
    var numParameters: int
    var parameters: Option<seq<real>>

    var valueFunction: FunctionPointer
    var gradientFunction: FunctionPointer
    var hessianFunction: FunctionPointer
    var equalityMatrixFunction: FunctionPointer
    var equalityVectorFunction: FunctionPointer
    var inequalityValueFunction: FunctionPointer
    var inequalityGradientFunction: FunctionPointer
    var inequalityHessianFunction: FunctionPointer

    function Table(): PointerTable
      reads this
    {
      PointerTable(valueFunction, gradientFunction, hessianFunction, equalityMatrixFunction,
                   equalityVectorFunction, inequalityValueFunction, inequalityGradientFunction,
                   inequalityHessianFunction)
    }

    /** The four counts given at construction. */
    function Counts(): (int, int, int, int)
      reads this
    {
      (numVariables, numInequalityConstraints, numEqualityConstraints, numParameters)
    }

    constructor(numVariables: int, numInequalityConstraints: int, numEqualityConstraints: int,
                numParameters: int)
      ensures Counts() == (numVariables, numInequalityConstraints, numEqualityConstraints, numParameters)
      ensures Table() == InitialTable
      ensures parameters.None?
    {
      this.numVariables := numVariables;
      this.numInequalityConstraints := numInequalityConstraints;
      this.numEqualityConstraints := numEqualityConstraints;
      this.numParameters := numParameters;
      parameters := None;
      valueFunction := Null;
      gradientFunction := Null;
      hessianFunction := Null;
      equalityMatrixFunction := DoNothing;
      equalityVectorFunction := DoNothing;
      inequalityValueFunction := DoNothing;
      inequalityGradientFunction := DoNothing;
      inequalityHessianFunction := DoNothing;
    }

    method SetParameters(p: seq<real>)
      modifies this
      ensures parameters == Some(p)
      ensures Table() == old(Table()) && Counts() == old(Counts())
    {
      parameters := Some(p);
    }

    method SetValueFunction(f: FunctionPointer)
      modifies this
      ensures Table() == old(Table()).(value := f)
      ensures Counts() == old(Counts()) && parameters == old(parameters)
    {
      valueFunction := f;
    }

    method SetGradientFunction(f: FunctionPointer)
      modifies this
      ensures Table() == old(Table()).(gradient := f)
      ensures Counts() == old(Counts()) && parameters == old(parameters)
    {
      gradientFunction := f;
    }

    method SetHessianFunction(f: FunctionPointer)
      modifies this
      ensures Table() == old(Table()).(hessian := f)
      ensures Counts() == old(Counts()) && parameters == old(parameters)
    {
      hessianFunction := f;
    }

    method SetEqualityMatrixFunction(f: FunctionPointer)
      modifies this
      ensures Table() == old(Table()).(equalityMatrix := f)
      ensures Counts() == old(Counts()) && parameters == old(parameters)
    {
      equalityMatrixFunction := f;
    }

    method SetEqualityVectorFunction(f: FunctionPointer)
      modifies this
      ensures Table() == old(Table()).(equalityVector := f)
      ensures Counts() == old(Counts()) && parameters == old(parameters)
    {
      equalityVectorFunction := f;
    }

    method SetInequalityValueFunction(f: FunctionPointer)
      modifies this
      ensures Table() == old(Table()).(inequalityValue := f)
      ensures Counts() == old(Counts()) && parameters == old(parameters)
    {
      inequalityValueFunction := f;
    }

    method SetInequalityGradientFunction(f: FunctionPointer)
      modifies this
      ensures Table() == old(Table()).(inequalityGradient := f)
      ensures Counts() == old(Counts()) && parameters == old(parameters)
    {
      inequalityGradientFunction := f;
    }

    method SetInequalityHessianFunction(f: FunctionPointer)
      modifies this
      ensures Table() == old(Table()).(inequalityHessian := f)
      ensures Counts() == old(Counts()) && parameters == old(parameters)
    {
      inequalityHessianFunction := f;
    }

    /** `value`, `gradient` and `hessian` always call their slot: a scalar,
        a vector with a row per variable, a square matrix. */
    function Value(): (e: Evaluation)
      reads this
      ensures e.Call? && e.pointer == valueFunction
      ensures e.Shape() == FastMPC.Dims(1, 1)
    {
      Call(valueFunction, 1, 1)
    }

    function Gradient(): (e: Evaluation)
      reads this
      ensures e.Call? && e.pointer == gradientFunction
      ensures e.Shape() == FastMPC.Dims(numVariables, 1)
    {
      Call(gradientFunction, numVariables, 1)
    }

    function Hessian(): (e: Evaluation)
      reads this
      ensures e.Call? && e.pointer == hessianFunction
      ensures e.Shape() == FastMPC.Dims(numVariables, numVariables)
    {
      Call(hessianFunction, numVariables, numVariables)
    }

    /** `equalityConstraintMatrix()`: absent without equality constraints,
        otherwise one row per constraint and one column per variable. */
    function EqualityConstraintMatrix(): (r: Option<Evaluation>)
      reads this
      ensures r.Some? <==> numEqualityConstraints > 0
      ensures r.Some? ==> r.value.Call? && r.value.pointer == equalityMatrixFunction &&
                          r.value.Shape() == FastMPC.Dims(numEqualityConstraints, numVariables)
    {
      if numEqualityConstraints > 0 then Some(Call(equalityMatrixFunction, numEqualityConstraints, numVariables))
      else None
    }

    /** `equalityConstraintVector()`: absent without equality constraints,
        otherwise one row per constraint. */
    function EqualityConstraintVector(): (r: Option<Evaluation>)
      reads this
      ensures r.Some? <==> numEqualityConstraints > 0
      ensures r.Some? ==> r.value.Call? && r.value.pointer == equalityVectorFunction &&
                          r.value.Shape() == FastMPC.Dims(numEqualityConstraints, 1)
    {
      if numEqualityConstraints > 0 then Some(Call(equalityVectorFunction, numEqualityConstraints, 1))
      else None
    }

    /** The inequality accessors call their slot only when there are
        inequality constraints, and otherwise give `Objective`'s zeros. */
    function InequalityConstraintsValue(): (e: Evaluation)
      reads this
      ensures e.Call? <==> numInequalityConstraints > 0
      ensures e.Call? ==> e.pointer == inequalityValueFunction
      ensures e.Shape() == FastMPC.Dims(1, 1)
    {
      if numInequalityConstraints > 0 then Call(inequalityValueFunction, 1, 1) else Zeros(1, 1)
    }

    function InequalityConstraintsGradient(): (e: Evaluation)
      reads this
      ensures e.Call? <==> numInequalityConstraints > 0
      ensures e.Call? ==> e.pointer == inequalityGradientFunction
      ensures e.Shape() == FastMPC.Dims(numVariables, 1)
    {
      if numInequalityConstraints > 0 then Call(inequalityGradientFunction, numVariables, 1)
      else Zeros(numVariables, 1)
    }

    function InequalityConstraintsHessian(): (e: Evaluation)
      reads this
      ensures e.Call? <==> numInequalityConstraints > 0
      ensures e.Call? ==> e.pointer == inequalityHessianFunction
      ensures e.Shape() == FastMPC.Dims(numVariables, numVariables)
    {
      if numInequalityConstraints > 0 then Call(inequalityHessianFunction, numVariables, numVariables)
      else Zeros(numVariables, numVariables)
    }

    /** What `Objective::validate` sees of this objective. */
    function View(): FastMPC.ObjectiveView
      reads this
    {
      var m := EqualityConstraintMatrix();
      var v := EqualityConstraintVector();
      FastMPC.ObjectiveView(numVariables, numEqualityConstraints,
                            if m.Some? then Some(m.value.Shape()) else None,
                            if v.Some? then Some(v.value.rows) else None)
    }

    /** `validate()`: the first null slot, then the parameter guard, then
        `Objective::validate`. The guard is the corrected one (see
        `ParameterGuardAsWritten`). */
    function Validate(): (r: Option<string>)
      reads this
      ensures FirstNull(Table()).Some? ==> r == FirstNull(Table())
      ensures FirstNull(Table()).None? ==>
                r == (if ParameterGuard(numParameters, parameters) then Some(ParametersMessage)
                      else FastMPC.Validate(View()))
    {
      if valueFunction == Null then Some(NullMessages[0])
      else if gradientFunction == Null then Some(NullMessages[1])
      else if hessianFunction == Null then Some(NullMessages[2])
      else if equalityMatrixFunction == Null then Some(NullMessages[3])
      else if equalityVectorFunction == Null then Some(NullMessages[4])
      else if inequalityValueFunction == Null then Some(NullMessages[5])
      else if inequalityGradientFunction == Null then Some(NullMessages[6])
      else if inequalityHessianFunction == Null then Some(NullMessages[7])
      else if ParameterGuard(numParameters, parameters) then Some(ParametersMessage)
      else FastMPC.Validate(View())
    }

    /** `validate()` with the parameter guard as written: the guard is only
        reached once every slot is set, and there it is undefined when
        parameters are expected but none are set; wherever it is defined it
        is false, so `Objective::validate` follows. */
    function ValidateAsWritten(): (r: Option<string>)
      reads this
      requires FirstNull(Table()).Some? || ParameterGuardAsWritten(numParameters, parameters).Some?
      ensures FirstNull(Table()).Some? ==> r == FirstNull(Table())
      ensures FirstNull(Table()).None? ==>
                r == (if ParameterGuardAsWritten(numParameters, parameters) == Some(true)
                      then Some(ParametersMessage)
                      else FastMPC.Validate(View()))
    {
      var nullSlot := FirstNull(Table());
      var guard := ParameterGuardAsWritten(numParameters, parameters);
      if nullSlot.Some? then nullSlot
      else if guard == Some(true) then Some(ParametersMessage)
      else FastMPC.Validate(View())
    }
  }

  /** The accessors' shapes always agree with the counts, so the
      `Objective` checks never fail for this class. */
  lemma ObjectiveChecksPass(o: FunctionPointerObjective)
    ensures FastMPC.Consistent(o.View())
    ensures FastMPC.Validate(o.View()) == None
  {
  }

  /** With the corrected guard, `validate` reports nothing exactly when
      every slot is set and the parameter vector is present with the
      declared length (or none is
      expected); any message is a null-slot or the parameter message. */
  lemma ValidateMeaning(o: FunctionPointerObjective)
    ensures o.Validate().None? <==>
              (forall k :: 0 <= k < 8 ==> Slots(o.Table())[k] != Null) &&
              (o.numParameters > 0 ==> o.parameters.Some? && |o.parameters.value| == o.numParameters)
    ensures o.Validate().Some? ==> o.Validate().value in NullMessages + [ParametersMessage]
  {
    ObjectiveChecksPass(o);
    var t := o.Table();
    if FirstNull(t).Some? {
      var k :| 0 <= k < 8 && Slots(t)[k] == Null && FirstNull(t).value == NullMessages[k];
      assert (NullMessages + [ParametersMessage])[k] == NullMessages[k];
    } else {
      assert (NullMessages + [ParametersMessage])[8] == ParametersMessage;
    }
  }

  /** With the corrected guard and validation compiled in, a `Solver`
      accepts the objective exactly when every slot is set and the
      parameters fit. */
  lemma SolverAccepts(o: FunctionPointerObjective)
    ensures FastMPC.NewSolver(o.View(), o.Validate(), true).Ok? <==>
              (forall k :: 0 <= k < 8 ==> Slots(o.Table())[k] != Null) &&
              (o.numParameters > 0 ==> o.parameters.Some? && |o.parameters.value| == o.numParameters)
  {
    ValidateMeaning(o);
  }

  /** As written, `validate` reports nothing exactly when every slot is set,
      whatever the parameters; any message is a null-slot message. */
  lemma ValidateAsWrittenMeaning(o: FunctionPointerObjective)
    requires FirstNull(o.Table()).Some? || ParameterGuardAsWritten(o.numParameters, o.parameters).Some?
    ensures o.ValidateAsWritten().None? <==> forall k :: 0 <= k < 8 ==> Slots(o.Table())[k] != Null
    ensures o.ValidateAsWritten().Some? ==> o.ValidateAsWritten().value in NullMessages
  {
    ObjectiveChecksPass(o);
    GuardAsWrittenNeverFires(o.numParameters, o.parameters);
    var t := o.Table();
    if FirstNull(t).Some? {
      var k :| 0 <= k < 8 && Slots(t)[k] == Null && FirstNull(t).value == NullMessages[k];
    }
  }

  /** As written, a `Solver` with validation compiled in accepts the
      objective exactly when every slot is set: a parameter vector of the
      wrong length does not stop it. */
  lemma SolverAcceptsAsWritten(o: FunctionPointerObjective)
    requires FirstNull(o.Table()).Some? || ParameterGuardAsWritten(o.numParameters, o.parameters).Some?
    ensures FastMPC.NewSolver(o.View(), o.ValidateAsWritten(), true).Ok? <==>
              forall k :: 0 <= k < 8 ==> Slots(o.Table())[k] != Null
  {
    ValidateAsWrittenMeaning(o);
  }

  /** Where the two guards part: with every slot set and a parameter vector
      of the wrong length, the program as written reports nothing while the
      corrected guard reports the parameters. */
  lemma GuardsDisagree(o: FunctionPointerObjective)
    requires forall k :: 0 <= k < 8 ==> Slots(o.Table())[k] != Null
    requires o.numParameters > 0 && o.parameters.Some? && |o.parameters.value| != o.numParameters
    ensures o.ValidateAsWritten() == None
    ensures o.Validate() == Some(ParametersMessage)
  {
    ValidateAsWrittenMeaning(o);
  }

  /** A freshly constructed objective is refused for its value function
      until one is set, whatever its counts. */
  method FreshObjectiveRefused(numVariables: int, numInequalityConstraints: int,
                               numEqualityConstraints: int, numParameters: int)
    returns (message: Option<string>)
    ensures message == Some(NullMessages[0])
  {
    var o := new FunctionPointerObjective(numVariables, numInequalityConstraints,
                                          numEqualityConstraints, numParameters);
    message := o.Validate();
  }
}
