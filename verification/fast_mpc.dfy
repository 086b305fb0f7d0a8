/** The integer checks of the FastMPC solver (cppmpc/FastMPC.cpp):
    `Objective::validate`, the `Solver` constructor that refuses an
    objective `validate` complains about, and the dimensions of the start
    vectors of `minimize`. The Newton iterations themselves are floating
    point and are not part of this model. */
module FastMPC {
  import opened Wrappers
  import opened Decimal

  /** The dimensions Eigen reports for a matrix (`rows()`, `cols()`). */
  datatype Dims = Dims(rows: int, cols: int)

  /** What `Objective::validate` reads of an objective: its counts and the
      shapes of the equality-constraint matrix and vector it returns, if
      it returns them. */
  datatype ObjectiveView = ObjectiveView(
    numVariables: int,
    numEqualityConstraints: int,
    equalityMatrix: Option<Dims>,
    equalityVector: Option<int>)

  const MissingMatrixMessage :=
    "No equality constraint matrix returned even when the number of constraints is > 0."
  const MissingVectorMessage :=
    "No equality constraint vector returned even when the number of constraints is > 0."
  const ColumnsMessage :=
    "Equality constraint matrix has a different number of columns than the objective has variables"
  const RowsMessage :=
    "Equality constraint matrix and vector have different number of rows."

  /** An objective whose equality constraints fit together: with at least
      one constraint there is a matrix with a column per variable and a
      vector with a row per matrix row. */
  predicate Consistent(o: ObjectiveView) {
    o.numEqualityConstraints > 0 ==>
      o.equalityMatrix.Some? && o.equalityVector.Some? &&
      o.equalityMatrix.value.cols == o.numVariables &&
      o.equalityMatrix.value.rows == o.equalityVector.value
  }

  /** `Objective::validate()`: the message of the first failing check, in
      the order missing matrix, missing vector, column count, row count. */
  function Validate(o: ObjectiveView): (r: Option<string>)
    ensures r.None? <==> Consistent(o)
    ensures o.numEqualityConstraints <= 0 ==> r.None?
    ensures r == Some(MissingMatrixMessage) <==>
              o.numEqualityConstraints > 0 && o.equalityMatrix.None?
    ensures r == Some(MissingVectorMessage) <==>
              o.numEqualityConstraints > 0 && o.equalityMatrix.Some? && o.equalityVector.None?
    ensures r == Some(ColumnsMessage) <==>
              o.numEqualityConstraints > 0 && o.equalityMatrix.Some? && o.equalityVector.Some? &&
              o.equalityMatrix.value.cols != o.numVariables
    ensures r == Some(RowsMessage) <==>
              o.numEqualityConstraints > 0 && o.equalityMatrix.Some? && o.equalityVector.Some? &&
              o.equalityMatrix.value.cols == o.numVariables &&
              o.equalityMatrix.value.rows != o.equalityVector.value
  {
    if o.numEqualityConstraints <= 0 then None
    else if o.equalityMatrix.None? then Some(MissingMatrixMessage)
    else if o.equalityVector.None? then Some(MissingVectorMessage)
    else if o.equalityMatrix.value.cols != o.numVariables then Some(ColumnsMessage)
    else if o.equalityMatrix.value.rows != o.equalityVector.value then Some(RowsMessage)
    else None
  }

  /** A solver holds the objective it was built over. */
  datatype Solver = Solver(objective: ObjectiveView)

  /** `Solver(objective)`: with validation compiled in (`validating`, i.e.
      `NO_VALIDATE_OBJECTIVE` undefined) the message of the objective's
      `validate` (`message`; `validate` is virtual) is thrown as a
      runtime_error; otherwise every objective is accepted. */
  function NewSolver(o: ObjectiveView, message: Option<string>, validating: bool): (r: Result<Solver>)
    ensures r.Ok? <==> !validating || message.None?
    ensures r.Ok? ==> r.value.objective == o
    ensures r.Err? ==> r.error == RuntimeError(message.value)
  {
    if validating && message.Some? then Err(RuntimeError(message.value))
    else Ok(Solver(o))
  }

  /** For an objective that keeps `Objective::validate`, the solver is built
      exactly when the equality constraints fit together, and otherwise
      carries the first failing check's message. */
  lemma SolverNeedsConsistency(o: ObjectiveView)
    ensures NewSolver(o, Validate(o), true).Ok? <==> Consistent(o)
    ensures o.numEqualityConstraints > 0 && o.equalityMatrix.None? ==>
              NewSolver(o, Validate(o), true) == Err(RuntimeError(MissingMatrixMessage))
  {
  }

  // ---------------------------------------------------------------------
  // Start vectors of `minimize`

  const PrimalStartPrefix := "Primal start "
  const PrimalStartMiddle := " does not have the same number of variables as the objective ("
  const DualStartPrefix := "Dual start "
  const DualStartMiddle :=
    " does not have the same number of variables as equality constraints in the objective ("

  /** The message for a mismatched start vector; `formatted` is the vector
      as Eigen prints it. */
  function StartMessage(prefix: string, formatted: string, middle: string, expected: nat): string
  {
    prefix + formatted + middle + NatToString(expected) + ")"
  }

  function Constant(n: nat, x: real): (v: seq<real>)
    ensures |v| == n && forall i :: 0 <= i < n ==> v[i] == x
  {
    seq(n, _ => x)
  }

  /** The primal and dual `minimize` starts from: the given vectors, or
      zeros of length `numVariables()` and ones of length
      `numEqualityConstraints()`. Only without validation
      (`NO_VALIDATE_OBJECTIVE` defined) are their lengths checked, and then
      the dual only when there are equality constraints. `format` stands for
      Eigen's vector printing. */
  function StartVectors(o: ObjectiveView, validating: bool,
                        primalStart: Option<seq<real>>, dualStart: Option<seq<real>>,
                        format: seq<real> -> string)
    : (r: Result<(seq<real>, seq<real>)>)
    requires o.numVariables >= 0 && o.numEqualityConstraints >= 0
    ensures validating ==> r.Ok?
    ensures !validating ==>
              (r.Ok? <==> (primalStart.Some? ==> |primalStart.value| == o.numVariables) &&
                          (dualStart.Some? && o.numEqualityConstraints > 0 ==>
                             |dualStart.value| == o.numEqualityConstraints))
    ensures r.Ok? ==> r.value.0 == (if primalStart.Some? then primalStart.value else Constant(o.numVariables, 0.0))
    ensures r.Ok? ==> r.value.1 == (if dualStart.Some? then dualStart.value else Constant(o.numEqualityConstraints, 1.0))
    ensures r.Err? && primalStart.Some? && |primalStart.value| != o.numVariables ==>
              r.error == RuntimeError(StartMessage(PrimalStartPrefix, format(primalStart.value),
                                                   PrimalStartMiddle, o.numVariables))
    ensures r.Err? && !(primalStart.Some? && |primalStart.value| != o.numVariables) ==>
              dualStart.Some? &&
              r.error == RuntimeError(StartMessage(DualStartPrefix, format(dualStart.value),
                                                   DualStartMiddle, o.numEqualityConstraints))
  {
    var primal := if primalStart.Some? then primalStart.value else Constant(o.numVariables, 0.0);
    var dual := if dualStart.Some? then dualStart.value else Constant(o.numEqualityConstraints, 1.0);
    if !validating && |primal| != o.numVariables then
      Err(RuntimeError(StartMessage(PrimalStartPrefix, format(primal), PrimalStartMiddle, o.numVariables)))
    else if !validating && o.numEqualityConstraints > 0 && |dual| != o.numEqualityConstraints then
      Err(RuntimeError(StartMessage(DualStartPrefix, format(dual), DualStartMiddle, o.numEqualityConstraints)))
    else Ok((primal, dual))
  }
}
