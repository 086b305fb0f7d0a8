/** SymbolicEqualityConstraints (src/SymbolicEquality.cpp): a list of
    equality constraints, each an expression set equal to zero or an
    Equality node, and its conversion to a linear system `A x = b` over a
    variable ordering. */
module SymbolicEquality {
  import opened Wrappers
  import opened Expressions
  import opened Matrices
  import opened OrderedSets
  import opened ConstraintLists
  import opened LinearExtraction

  /** `getSymEngineSet(variables)`: the ordering's symbols as a set. */
  method GetSymEngineSet(variables: OrderedSet) returns (sb: set<Symbol>)
    ensures sb == Elements(variables.elems)
  {
    sb := {};
    var i := 0;
    while i < |variables.elems|
      invariant i <= |variables.elems|
      invariant sb == Elements(variables.elems[..i])
    {
      assert variables.elems[..i + 1] == variables.elems[..i] + [variables.elems[i]];
      sb := sb + {variables.elems[i]};
      i := i + 1;
    }
    assert variables.elems[..i] == variables.elems;
  }

  /** The loop over the generators for one term: `non_zero` counts the
      non-zero exponents, `cursim` remembers the generator of the last one,
      and a second non-zero exponent or one other than 1 throws (here:
      `linear` is false). */
  method ScanExponents(exps: seq<int>, gens: seq<Symbol>) returns (linear: bool, nonZero: nat, cursim: Option<Symbol>)
    requires |exps| == |gens|
    ensures !linear <==> Classify(exps) == NonLinearTerm
    ensures linear && nonZero == 0 <==> Classify(exps) == ConstantTerm
    ensures linear && nonZero != 0 ==>
              Classify(exps).LinearTerm? && cursim == Some(gens[Classify(exps).position])
  {
    var whichvar := 0;
    nonZero := 0;
    cursim := None;
    while whichvar < |gens|
      invariant whichvar <= |gens|
      invariant nonZero == NonZeroCount(exps[..whichvar]) && nonZero <= 1
      invariant NonZeroAreOne(exps[..whichvar])
      invariant nonZero == 1 ==> cursim == Some(gens[FirstNonZero(exps[..whichvar])])
    {
      assert exps[..whichvar + 1][..whichvar] == exps[..whichvar];
      if exps[whichvar] != 0 {
        nonZero := nonZero + 1;
        cursim := Some(gens[whichvar]);
        if exps[whichvar] != 1 || nonZero == 2 {
          NonLinearWitness(exps, whichvar);
          return false, nonZero, cursim;
        }
      }
      whichvar := whichvar + 1;
    }
    assert exps[..whichvar] == exps;
    linear := true;
  }

  /** The loop over one residual's terms, writing row `row` of `matrix`:
      a constant term becomes the remainder, a linear term sets the column
      `index_of_sym` gives its generator. `ok` is false where the source
      throws. */
  method FillRow(terms: seq<Term>, ordering: seq<Symbol>, gens: seq<Symbol>, indexOfSym: map<Symbol, nat>,
                 matrix: Matrix, row: nat)
    returns (ok: bool, filled: Matrix, rem: Expr)
    requires Generators(ordering, gens) && WellShaped(terms, gens)
    requires forall k :: 0 <= k < |ordering| ==> ordering[k] in indexOfSym && indexOfSym[ordering[k]] == k
    requires matrix.Shaped() && row < matrix.nrows && matrix.ncols == |ordering|
    requires forall j :: 0 <= j < matrix.ncols ==> matrix.Get(row, j) == Zero
    ensures !ok <==> RowOf(terms, ordering, gens).Err?
    ensures ok ==> filled.Shaped() && filled.nrows == matrix.nrows && filled.ncols == matrix.ncols
    ensures ok ==> forall k :: 0 <= k < matrix.nrows && k != row ==> filled.cells[k] == matrix.cells[k]
    ensures ok ==> RowOf(terms, ordering, gens) == Ok(Row(filled.cells[row], rem))
  {
    filled := matrix;
    rem := Zero;
    assert filled.cells[row] == RowOf(terms[..0], ordering, gens).value.coeffs by {
      assert terms[..0] == [];
      assert forall j :: 0 <= j < matrix.ncols ==> matrix.cells[row][j] == matrix.Get(row, j);
    }
    var t := 0;
    while t < |terms|
      invariant t <= |terms|
      invariant filled.Shaped() && filled.nrows == matrix.nrows && filled.ncols == matrix.ncols
      invariant forall k :: 0 <= k < matrix.nrows && k != row ==> filled.cells[k] == matrix.cells[k]
      invariant WellShaped(terms[..t], gens)
      invariant RowOf(terms[..t], ordering, gens) == Ok(Row(filled.cells[row], rem))
    {
      var term := terms[t];
      var linear, nonZero, cursim := ScanExponents(term.exponents, gens);
      assert terms[..t + 1][..t] == terms[..t];
      PrefixWellShaped(terms, gens, t + 1);
      if !linear {
        RowFails(terms, ordering, gens);
        return false, filled, rem;
      }
      if nonZero == 0 {
        rem := term.coeff;
      } else {
        ghost var c := Column(ordering, gens, Classify(term.exponents).position);
        assert indexOfSym[ordering[c]] == c;
        filled := filled.Set(row, indexOfSym[cursim.value], term.coeff);
      }
      t := t + 1;
    }
    assert terms[..t] == terms;
    ok := true;
  }

  /** `index_of_sym`: each ordering symbol mapped to its position. */
  method IndexOfSymbols(ordering: OrderedSet) returns (indexOfSym: map<Symbol, nat>)
    requires ordering.Valid()
    ensures forall k :: 0 <= k < |ordering.elems| ==>
              ordering.elems[k] in indexOfSym && indexOfSym[ordering.elems[k]] == k
  {
    ConsistentMeansDistinct(ordering.elems, ordering.index);
    indexOfSym := map[];
    var i := 0;
    while i < ordering.Size()
      invariant i <= |ordering.elems|
      invariant forall k :: 0 <= k < i ==>
                  ordering.elems[k] in indexOfSym && indexOfSym[ordering.elems[k]] == k
    {
      indexOfSym := indexOfSym[ordering.elems[i] := i];
      i := i + 1;
    }
  }

  /** The superset check: every variable must be `contains`-ed by the
      ordering. */
  method ContainsAll(ordering: OrderedSet, variables: set<Symbol>) returns (ok: bool)
    requires ordering.Valid()
    ensures ok <==> variables <= Elements(ordering.elems)
  {
    var rest := variables;
    while rest != {}
      invariant rest <= variables
      invariant forall v :: v in variables - rest ==> v in ordering.elems
      decreases |rest|
    {
      var v :| v in rest;
      if !ordering.Contains(v) {
        assert v !in Elements(ordering.elems);
        return false;
      }
      rest := rest - {v};
    }
    assert variables - rest == variables;
    return true;
  }

  /** One pass of the row loop of `convertToLinearSystem`: an Equality node
      becomes `arg2 - arg1`, its polynomial fills row `row` of the matrix, and
      the negated constant goes to the vector. */
  method ConvertRow(alg: Algebra, cs: seq<Expr>, ordering: seq<Symbol>, gens: seq<Symbol>,
                    indexOfSym: map<Symbol, nat>, matrix: Matrix, vector: Matrix, row: nat)
    returns (ok: bool, matrix': Matrix, vector': Matrix)
    requires Generators(ordering, gens) && PolysWellShaped(alg, cs, gens)
    requires forall k :: 0 <= k < |ordering| ==> ordering[k] in indexOfSym && indexOfSym[ordering[k]] == k
    requires row < |cs| && RowsAgree(alg, cs, ordering, gens, matrix, vector, row)
    requires forall k, j :: row <= k < |cs| && 0 <= j < |ordering| ==> matrix.Get(k, j) == Zero
    ensures !ok <==> RowOf(TermsOf(alg, cs[row], gens), ordering, gens).Err?
    ensures ok ==> RowsAgree(alg, cs, ordering, gens, matrix', vector', row + 1)
    ensures ok ==> forall k, j :: row + 1 <= k < |cs| && 0 <= j < |ordering| ==> matrix'.Get(k, j) == Zero
  {
    var equality := cs[row];
    var constraint := equality;
    if equality.Eq? {
      constraint := alg.sub(equality.rhs, equality.lhs);
    }
    var terms := alg.toPoly(constraint, gens);
    assert terms == TermsOf(alg, cs[row], gens);
    var filled, rem;
    ok, filled, rem := FillRow(terms, ordering, gens, indexOfSym, matrix, row);
    matrix', vector' := matrix, vector;
    if ok {
      assert forall k, j :: row < k < |cs| && 0 <= j < |ordering| ==>
               filled.Get(k, j) == matrix.Get(k, j);
      matrix' := filled;
      vector' := vector.Set(row, 0, alg.neg(rem));
    }
  }

  class SymbolicEqualityConstraints {
    var constraints: seq<Expr>

    constructor()
      ensures constraints == []
    {
      constraints := [];
    }

    /** `insertConstraint(index, b)`. Inserting past the end is undefined
        behaviour of `vector::insert`, so the index must be in range. */
    method InsertConstraint(index: nat, b: Expr)
      requires index <= |constraints|
      modifies this
      ensures constraints == InsertAt(old(constraints), index, b)
    {
      constraints := InsertAt(constraints, index, b);
    }

    /** `insertConstraint(index, left, right)`: stores `left - right`. */
    method InsertDifference(alg: Algebra, index: nat, left: Expr, right: Expr)
      requires index <= |constraints|
      modifies this
      ensures constraints == InsertAt(old(constraints), index, alg.sub(left, right))
    {
      InsertConstraint(index, alg.sub(left, right));
    }

    /** `appendConstraint(b)`: `b` as the last constraint, the others
        untouched. */
    method AppendConstraint(b: Expr)
      modifies this
      ensures constraints == old(constraints) + [b]
    {
      InsertConstraint(|constraints|, b);
      assert old(constraints)[|old(constraints)|..] == [];
    }

    /** `appendConstraint(left, right)`: `left - right` as the last
        constraint. */
    method AppendDifference(alg: Algebra, left: Expr, right: Expr)
      modifies this
      ensures constraints == old(constraints) + [alg.sub(left, right)]
    {
      InsertDifference(alg, |constraints|, left, right);
      assert old(constraints)[|old(constraints)|..] == [];
    }

    /** `removeConstraint(index)`: `vector::erase` of an index past the end
        is undefined behaviour, so the index must be in range. */
    method RemoveConstraint(index: nat)
      requires index < |constraints|
      modifies this
      ensures constraints == RemoveAt(old(constraints), index)
    {
      constraints := RemoveAt(constraints, index);
    }

    /** `getConstraint(index)`: `vector::at`, out_of_range past the end. */
    function GetConstraint(index: nat): (r: Result<Expr>)
      reads this
      ensures r.Ok? <==> index < |constraints|
      ensures r.Ok? ==> r.value == constraints[index]
      ensures r.Err? ==> r.error == OutOfRange
    {
      if index < |constraints| then Ok(constraints[index]) else Err(OutOfRange)
    }

    /** `getSymbols()`: the symbols of every constraint. */
    method GetSymbols() returns (r: set<Symbol>)
      ensures r == UnionOver(constraints, Symbols)
    {
      r := CollectOver(constraints, Symbols);
    }

    /** `getVariables()`: the variables of every constraint. */
    method GetVariables() returns (r: set<Symbol>)
      ensures r == UnionOver(constraints, Variables)
    {
      r := CollectOver(constraints, Variables);
    }

    /** `getParameters()`: the parameters of every constraint. */
    method GetParameters() returns (r: set<Symbol>)
      ensures r == UnionOver(constraints, Parameters)
    {
      r := CollectOver(constraints, Parameters);
    }

    /** `convertToLinearSystem(variableOrdering)`. `gens` is the set built
        by `getSymEngineSet` in the library's iteration order; the
        polynomial's exponent vectors follow that order. */
    method ConvertToLinearSystem(alg: Algebra, ordering: OrderedSet, gens: seq<Symbol>)
      returns (r: Result<LinearSystem>)
      requires ordering.Valid()
      requires Generators(ordering.elems, gens)
      requires PolysWellShaped(alg, constraints, gens)
      ensures r == LinearSystemOf(alg, constraints, ordering.elems, gens)
    {
      var unorderedVariables := GetVariables();
      var superset := ContainsAll(ordering, unorderedVariables);
      if !superset {
        return Err(RuntimeError(NotSupersetMessage));
      }

      var numConstraints := |constraints|;
      var numVariables := ordering.Size();
      var matrix := Zeros(numConstraints, numVariables);
      var vector := Zeros(numConstraints, 1);
      var gensSet := GetSymEngineSet(ordering);
      var indexOfSym := IndexOfSymbols(ordering);

      var row := 0;
      while row < numConstraints
        invariant RowsAgree(alg, constraints, ordering.elems, gens, matrix, vector, row)
        invariant forall k, j :: row <= k < numConstraints && 0 <= j < numVariables ==> matrix.Get(k, j) == Zero
      {
        var ok;
        ok, matrix, vector := ConvertRow(alg, constraints, ordering.elems, gens, indexOfSym, matrix, vector, row);
        if !ok {
          FailsAtRow(alg, constraints, ordering.elems, gens, row);
          return Err(RuntimeError(NotLinearMessage));
        }
        row := row + 1;
      }
      AssembleSystem(alg, constraints, ordering.elems, gens, matrix, vector);
      r := Ok(LinearSystem(matrix, vector));
    }
  }
}
