/** The function generators of `CodeGenerator` (cppmpc/CodeGenerator.cpp)
    and the older `generateSymbolicEqualityCode` (src/CodeGenerator.cpp):
    each names the variables and parameters by their positions in the
    orderings and emits one C function per matrix. */
module CodeGenerator {
  import opened Wrappers
  import opened Expressions
  import opened Matrices
  import opened OrderedSets
  import opened ConstraintLists
  import opened SymEngineUtilities
  import opened LinearExtraction
  import opened SymbolicEquality
  import opened SymbolicInequality
  import opened DenseCode
  import opened CodeText

  const MissingOrderingMessage := "Not all paramaters have a representations"

  /** The three functions (value, gradient, Hessian) over the state and the
      parameters, the first failure winning. */
  function ThreeFunctions(alg: Algebra, value: Matrix, gradient: Matrix, hessian: Matrix,
                          variableRepr: map<Symbol, string>, parameterRepr: map<Symbol, string>,
                          valueName: string, gradientName: string, hessianName: string)
    : Result<(string, string, string)>
    requires value.Shaped() && gradient.Shaped() && hessian.Shaped()
  {
    match FunctionText(StateSignature(valueName), DenseMatrixCode(alg, value, variableRepr, parameterRepr, "out"))
    case Err(e) => Err(e)
    case Ok(v) =>
      match FunctionText(StateSignature(gradientName), DenseMatrixCode(alg, gradient, variableRepr, parameterRepr, "out"))
      case Err(e) => Err(e)
      case Ok(g) =>
        match FunctionText(StateSignature(hessianName), DenseMatrixCode(alg, hessian, variableRepr, parameterRepr, "out"))
        case Err(e) => Err(e)
        case Ok(h) => Ok((v, g, h))
  }

  /** The one-by-one matrix holding `e`. */
  function Single(e: Expr): (m: Matrix)
    ensures m.Shaped() && m.nrows == 1 && m.ncols == 1 && m.Get(0, 0) == e
  {
    Matrix(1, 1, [[e]])
  }

  /** What `generateObjectiveFunctions` returns. */
  function ObjectiveFunctionsOf(alg: Algebra, objective: Expr, gradient: Matrix, hessian: Matrix,
                                variableOrdering: seq<Symbol>, parameterOrdering: seq<Symbol>,
                                valueName: string, gradientName: string, hessianName: string)
    : Result<(string, string, string)>
    requires gradient.Shaped() && hessian.Shaped()
  {
    match Representations(ParametersOf(objective), parameterOrdering, ParamBuffer)
    case Err(e) => Err(e)
    case Ok(parameterRepr) =>
      match Representations(VariablesOf(objective), variableOrdering, StateBuffer)
      case Err(e) => Err(e)
      case Ok(variableRepr) =>
        ThreeFunctions(alg, Single(objective), gradient, hessian, variableRepr, parameterRepr,
                       valueName, gradientName, hessianName)
  }

  method GenerateThree(alg: Algebra, value: Matrix, gradient: Matrix, hessian: Matrix,
                       variableRepr: map<Symbol, string>, parameterRepr: map<Symbol, string>,
                       valueName: string, gradientName: string, hessianName: string)
    returns (r: Result<(string, string, string)>)
    requires value.Shaped() && gradient.Shaped() && hessian.Shaped()
    ensures r == ThreeFunctions(alg, value, gradient, hessian, variableRepr, parameterRepr,
                                valueName, gradientName, hessianName)
  {
    var ssValue := GenerateFunction(alg, StateSignature(valueName), value, variableRepr, parameterRepr);
    if ssValue.Err? {
      return Err(ssValue.error);
    }
    var ssGrad := GenerateFunction(alg, StateSignature(gradientName), gradient, variableRepr, parameterRepr);
    if ssGrad.Err? {
      return Err(ssGrad.error);
    }
    var ssHess := GenerateFunction(alg, StateSignature(hessianName), hessian, variableRepr, parameterRepr);
    if ssHess.Err? {
      return Err(ssHess.error);
    }
    return Ok((ssValue.value, ssGrad.value, ssHess.value));
  }

  /** `generateObjectiveFunctions(objective, gradient, hessian, ...)`. */
  method GenerateObjectiveFunctions(alg: Algebra, objective: Expr, gradient: Matrix, hessian: Matrix,
                                    variableOrdering: OrderedSet, parameterOrdering: OrderedSet,
                                    valueName: string, gradientName: string, hessianName: string)
    returns (r: Result<(string, string, string)>)
    requires variableOrdering.Valid() && parameterOrdering.Valid()
    requires gradient.Shaped() && hessian.Shaped()
    ensures r == ObjectiveFunctionsOf(alg, objective, gradient, hessian, variableOrdering.elems,
                                      parameterOrdering.elems, valueName, gradientName, hessianName)
  {
    var parameters := GetParameters(objective);
    var variables := GetVariables(objective);
    var parameterRepr := BuildRepresentations(parameters, parameterOrdering, ParamBuffer);
    if parameterRepr.Err? {
      return Err(parameterRepr.error);
    }
    var variableRepr := BuildRepresentations(variables, variableOrdering, StateBuffer);
    if variableRepr.Err? {
      return Err(variableRepr.error);
    }
    var valueMat := Single(objective);
    r := GenerateThree(alg, valueMat, gradient, hessian, variableRepr.value, parameterRepr.value,
                       valueName, gradientName, hessianName);
  }

  // ---------------------------------------------------------------------
  // Equality constraints

  /** The two equality functions (matrix, vector) over the parameters. */
  function TwoFunctions(alg: Algebra, sys: LinearSystem, variableRepr: map<Symbol, string>,
                        parameterRepr: map<Symbol, string>, matrixName: string, vectorName: string)
    : Result<(string, string)>
    requires sys.matrix.Shaped() && sys.vector.Shaped()
  {
    match FunctionText(ParamSignature(matrixName), DenseMatrixCode(alg, sys.matrix, variableRepr, parameterRepr, "out"))
    case Err(e) => Err(e)
    case Ok(m) =>
      match FunctionText(ParamSignature(vectorName), DenseMatrixCode(alg, sys.vector, variableRepr, parameterRepr, "out"))
      case Err(e) => Err(e)
      case Ok(v) => Ok((m, v))
  }

  /** What `generateSymbolicEqualityFunctions` returns: the conversion's
      error, then the parameter check, then the naming and the two
      functions. */
  function EqualityFunctionsOf(alg: Algebra, cs: seq<Expr>, variableOrdering: seq<Symbol>,
                               parameterOrdering: seq<Symbol>, gens: seq<Symbol>,
                               matrixName: string, vectorName: string)
    : Result<(string, string)>
    requires Generators(variableOrdering, gens) && PolysWellShaped(alg, cs, gens)
  {
    match LinearSystemOf(alg, cs, variableOrdering, gens)
    case Err(e) => Err(e)
    case Ok(sys) =>
      if !(UnionOver(cs, Parameters) <= Elements(parameterOrdering)) then Err(RuntimeError(MissingOrderingMessage))
      else
        match Representations(UnionOver(cs, Parameters), parameterOrdering, ParamBuffer)
        case Err(e) => Err(e)
        case Ok(parameterRepr) =>
          match Representations(UnionOver(cs, Variables), variableOrdering, StateBuffer)
          case Err(e) => Err(e)
          case Ok(variableRepr) =>
            ConversionShape(alg, cs, variableOrdering, gens);
            TwoFunctions(alg, sys, variableRepr, parameterRepr, matrixName, vectorName)
  }

  /** Once the conversion succeeds, a parameter missing from the parameter
      ordering is reported; with every parameter present, naming cannot
      fail (the conversion already checked the variables), so any error is
      the representation check of a generated matrix. */
  lemma EqualityErrors(alg: Algebra, cs: seq<Expr>, variableOrdering: seq<Symbol>,
                       parameterOrdering: seq<Symbol>, gens: seq<Symbol>, matrixName: string, vectorName: string)
    requires Generators(variableOrdering, gens) && PolysWellShaped(alg, cs, gens)
    requires LinearSystemOf(alg, cs, variableOrdering, gens).Ok?
    ensures !(UnionOver(cs, Parameters) <= Elements(parameterOrdering)) ==>
              EqualityFunctionsOf(alg, cs, variableOrdering, parameterOrdering, gens, matrixName, vectorName)
              == Err(RuntimeError(MissingOrderingMessage))
    ensures UnionOver(cs, Parameters) <= Elements(parameterOrdering) &&
            EqualityFunctionsOf(alg, cs, variableOrdering, parameterOrdering, gens, matrixName, vectorName).Err? ==>
              EqualityFunctionsOf(alg, cs, variableOrdering, parameterOrdering, gens, matrixName, vectorName).error
              in {RuntimeError(MissingVariableMessage), RuntimeError(MissingParameterMessage)}
  {
    ConversionFails(alg, cs, variableOrdering, gens);
    assert UnionOver(cs, Variables) <= Elements(variableOrdering);
    ConversionShape(alg, cs, variableOrdering, gens);
    var sys := LinearSystemOf(alg, cs, variableOrdering, gens).value;
    if UnionOver(cs, Parameters) <= Elements(parameterOrdering) {
      var parameterRepr := Representations(UnionOver(cs, Parameters), parameterOrdering, ParamBuffer).value;
      var variableRepr := Representations(UnionOver(cs, Variables), variableOrdering, StateBuffer).value;
      CheckMeaning(sys.matrix, variableRepr, parameterRepr, sys.matrix.nrows);
      CheckMeaning(sys.vector, variableRepr, parameterRepr, sys.vector.nrows);
    }
  }

  method GenerateTwo(alg: Algebra, sys: LinearSystem, variableRepr: map<Symbol, string>,
                     parameterRepr: map<Symbol, string>, matrixName: string, vectorName: string)
    returns (r: Result<(string, string)>)
    requires sys.matrix.Shaped() && sys.vector.Shaped()
    ensures r == TwoFunctions(alg, sys, variableRepr, parameterRepr, matrixName, vectorName)
  {
    var ssMat := GenerateFunction(alg, ParamSignature(matrixName), sys.matrix, variableRepr, parameterRepr);
    if ssMat.Err? {
      return Err(ssMat.error);
    }
    var ssVec := GenerateFunction(alg, ParamSignature(vectorName), sys.vector, variableRepr, parameterRepr);
    if ssVec.Err? {
      return Err(ssVec.error);
    }
    return Ok((ssMat.value, ssVec.value));
  }

  /** `generateSymbolicEqualityFunctions(constraints, variableOrdering,
      parameterOrdering, ...)`. */
  method GenerateSymbolicEqualityFunctions(alg: Algebra, constraints: SymbolicEqualityConstraints,
                                           variableOrdering: OrderedSet, parameterOrdering: OrderedSet,
                                           gens: seq<Symbol>, matrixName: string, vectorName: string)
    returns (r: Result<(string, string)>)
    requires variableOrdering.Valid() && parameterOrdering.Valid()
    requires Generators(variableOrdering.elems, gens)
    requires PolysWellShaped(alg, constraints.constraints, gens)
    ensures r == EqualityFunctionsOf(alg, constraints.constraints, variableOrdering.elems,
                                     parameterOrdering.elems, gens, matrixName, vectorName)
  {
    var system := constraints.ConvertToLinearSystem(alg, variableOrdering, gens);
    if system.Err? {
      return Err(system.error);
    }
    var parameters := constraints.GetParameters();
    var variables := constraints.GetVariables();
    var present := ContainsAll(parameterOrdering, parameters);
    if !present {
      return Err(RuntimeError(MissingOrderingMessage));
    }
    // every parameter is in the ordering, so naming them cannot fail
    var parameterRepr := BuildRepresentations(parameters, parameterOrdering, ParamBuffer);
    var variableRepr := BuildRepresentations(variables, variableOrdering, StateBuffer);
    if variableRepr.Err? {
      return Err(variableRepr.error);
    }
    ConversionShape(alg, constraints.constraints, variableOrdering.elems, gens);
    r := GenerateTwo(alg, system.value, variableRepr.value, parameterRepr.value, matrixName, vectorName);
  }

  // ---------------------------------------------------------------------
  // Inequality constraints

  /** What `generateSymbolicInequalityFunctions` returns: the parameter
      check, the naming, then the barrier's value, gradient and Hessian. */
  function InequalityFunctionsOf(alg: Algebra, cs: seq<Expr>, variableOrdering: seq<Symbol>,
                                 parameterOrdering: seq<Symbol>,
                                 valueName: string, gradientName: string, hessianName: string)
    : Result<(string, string, string)>
  {
    if !(UnionOver(cs, Parameters) <= Elements(parameterOrdering)) then Err(RuntimeError(MissingOrderingMessage))
    else
      match Representations(UnionOver(cs, Parameters), parameterOrdering, ParamBuffer)
      case Err(e) => Err(e)
      case Ok(parameterRepr) =>
        match Representations(UnionOver(cs, Variables), variableOrdering, StateBuffer)
        case Err(e) => Err(e)
        case Ok(variableRepr) =>
          var barrier := BarrierOf(alg, cs);
          ThreeFunctions(alg, Single(barrier), GradientOf(alg, barrier, variableOrdering),
                         HessianOf(alg, barrier, variableOrdering), variableRepr, parameterRepr,
                         valueName, gradientName, hessianName)
  }

  /** Nothing checks the constraints' variables against the variable
      ordering before they are named: with every parameter present, a
      variable missing from the ordering surfaces as out_of_range. */
  lemma InequalityUnorderedVariable(alg: Algebra, cs: seq<Expr>, variableOrdering: seq<Symbol>,
                                    parameterOrdering: seq<Symbol>,
                                    valueName: string, gradientName: string, hessianName: string)
    requires UnionOver(cs, Parameters) <= Elements(parameterOrdering)
    ensures !(UnionOver(cs, Variables) <= Elements(variableOrdering)) <==>
              InequalityFunctionsOf(alg, cs, variableOrdering, parameterOrdering,
                                    valueName, gradientName, hessianName) == Err(OutOfRange)
  {
    var parameterRepr := Representations(UnionOver(cs, Parameters), parameterOrdering, ParamBuffer).value;
    if UnionOver(cs, Variables) <= Elements(variableOrdering) {
      var variableRepr := Representations(UnionOver(cs, Variables), variableOrdering, StateBuffer).value;
      var barrier := BarrierOf(alg, cs);
      var g, h := GradientOf(alg, barrier, variableOrdering), HessianOf(alg, barrier, variableOrdering);
      CheckMeaning(Single(barrier), variableRepr, parameterRepr, 1);
      CheckMeaning(g, variableRepr, parameterRepr, g.nrows);
      CheckMeaning(h, variableRepr, parameterRepr, h.nrows);
    }
  }

  /** `generateSymbolicInequalityFunctions(constraints, variableOrdering,
      parameterOrdering, ...)`. */
  method GenerateSymbolicInequalityFunctions(alg: Algebra, constraints: SymbolicInequalityConstraints,
                                             variableOrdering: OrderedSet, parameterOrdering: OrderedSet,
                                             valueName: string, gradientName: string, hessianName: string)
    returns (r: Result<(string, string, string)>)
    requires variableOrdering.Valid() && parameterOrdering.Valid()
    ensures r == InequalityFunctionsOf(alg, constraints.constraints, variableOrdering.elems,
                                       parameterOrdering.elems, valueName, gradientName, hessianName)
  {
    var parameters := constraints.GetParameters();
    var variables := constraints.GetVariables();
    var present := ContainsAll(parameterOrdering, parameters);
    if !present {
      return Err(RuntimeError(MissingOrderingMessage));
    }
    // every parameter is in the ordering, so naming them cannot fail
    var parameterRepr := BuildRepresentations(parameters, parameterOrdering, ParamBuffer);
    var variableRepr := BuildRepresentations(variables, variableOrdering, StateBuffer);
    if variableRepr.Err? {
      return Err(variableRepr.error);
    }
    var barrierValue := constraints.SymbolicBarrierValue(alg);
    var barrierValueMat := Single(barrierValue);
    var barrierGradientMat := constraints.SymbolicBarrierGradient(alg, variableOrdering);
    var barrierHessianMat := constraints.SymbolicBarrierHessian(alg, variableOrdering);
    r := GenerateThree(alg, barrierValueMat, barrierGradientMat, barrierHessianMat,
                       variableRepr.value, parameterRepr.value, valueName, gradientName, hessianName);
  }

  // ---------------------------------------------------------------------
  // The older equality generator

  /** What src/CodeGenerator.cpp's `generateSymbolicEqualityCode` returns.
      Its statements come from `generateCCode`, which is not part of this
      model and is a parameter here. */
  function LegacyEqualityCodeOf(alg: Algebra, cs: seq<Expr>, variableOrdering: seq<Symbol>,
                                parameterOrdering: seq<Symbol>, gens: seq<Symbol>,
                                generateCCode: (Matrix, map<Symbol, string>, map<Symbol, string>, string) -> string,
                                matrixName: string, vectorName: string)
    : Result<(string, string)>
    requires Generators(variableOrdering, gens) && PolysWellShaped(alg, cs, gens)
  {
    match LinearSystemOf(alg, cs, variableOrdering, gens)
    case Err(e) => Err(e)
    case Ok(sys) =>
      if !(UnionOver(cs, Parameters) <= Elements(parameterOrdering)) then Err(RuntimeError(MissingOrderingMessage))
      else
        match Representations(UnionOver(cs, Parameters), parameterOrdering, ParamBuffer)
        case Err(e) => Err(e)
        case Ok(parameterRepr) =>
          match Representations(UnionOver(cs, Variables), variableOrdering, StateBuffer)
          case Err(e) => Err(e)
          case Ok(variableRepr) =>
            Ok((ParamSignature(matrixName) + generateCCode(sys.matrix, variableRepr, parameterRepr, "out") + "}\n",
                ParamSignature(vectorName) + generateCCode(sys.vector, variableRepr, parameterRepr, "out") + "}\n"))
  }

  /** In the older generator the only failures are the conversion's and the
      parameter check's: naming never fails once the conversion succeeded. */
  lemma LegacyEqualityErrors(alg: Algebra, cs: seq<Expr>, variableOrdering: seq<Symbol>,
                             parameterOrdering: seq<Symbol>, gens: seq<Symbol>,
                             generateCCode: (Matrix, map<Symbol, string>, map<Symbol, string>, string) -> string,
                             matrixName: string, vectorName: string)
    requires Generators(variableOrdering, gens) && PolysWellShaped(alg, cs, gens)
    ensures LegacyEqualityCodeOf(alg, cs, variableOrdering, parameterOrdering, gens, generateCCode,
                                 matrixName, vectorName).Ok?
            <==> LinearSystemOf(alg, cs, variableOrdering, gens).Ok? &&
                 UnionOver(cs, Parameters) <= Elements(parameterOrdering)
  {
    ConversionFails(alg, cs, variableOrdering, gens);
    if LinearSystemOf(alg, cs, variableOrdering, gens).Ok? {
      assert UnionOver(cs, Variables) <= Elements(variableOrdering);
    }
  }

  /** `generateSymbolicEqualityCode(constraints, variableOrdering,
      parameterOrdering, ...)` of src/CodeGenerator.cpp. */
  method GenerateSymbolicEqualityCode(alg: Algebra, constraints: SymbolicEqualityConstraints,
                                      variableOrdering: OrderedSet, parameterOrdering: OrderedSet,
                                      gens: seq<Symbol>,
                                      generateCCode: (Matrix, map<Symbol, string>, map<Symbol, string>, string) -> string,
                                      matrixName: string, vectorName: string)
    returns (r: Result<(string, string)>)
    requires variableOrdering.Valid() && parameterOrdering.Valid()
    requires Generators(variableOrdering.elems, gens)
    requires PolysWellShaped(alg, constraints.constraints, gens)
    ensures r == LegacyEqualityCodeOf(alg, constraints.constraints, variableOrdering.elems,
                                      parameterOrdering.elems, gens, generateCCode, matrixName, vectorName)
  {
    var system := constraints.ConvertToLinearSystem(alg, variableOrdering, gens);
    if system.Err? {
      return Err(system.error);
    }
    var parameters := constraints.GetParameters();
    var variables := constraints.GetVariables();
    var present := ContainsAll(parameterOrdering, parameters);
    if !present {
      return Err(RuntimeError(MissingOrderingMessage));
    }
    // every parameter is in the ordering, so naming them cannot fail
    var parameterRepr := BuildRepresentations(parameters, parameterOrdering, ParamBuffer);
    var variableRepr := BuildRepresentations(variables, variableOrdering, StateBuffer);
    if variableRepr.Err? {
      return Err(variableRepr.error);
    }
    var ssMat := ParamSignature(matrixName);
    ssMat := ssMat + generateCCode(system.value.matrix, variableRepr.value, parameterRepr.value, "out");
    ssMat := ssMat + "}\n";
    var ssVec := ParamSignature(vectorName);
    ssVec := ssVec + generateCCode(system.value.vector, variableRepr.value, parameterRepr.value, "out");
    ssVec := ssVec + "}\n";
    return Ok((ssMat, ssVec));
  }
}
