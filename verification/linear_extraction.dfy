/** What `convertToLinearSystem` computes, stated on values: each
    constraint's residual is viewed as a polynomial in the generators, each
    term is classified as constant, linear in one generator, or nonlinear,
    and the linear coefficients and the constant fill one row of the
    system. */
module LinearExtraction {
  import opened Wrappers
  import opened Expressions
  import opened Matrices
  import opened OrderedSets
  import opened ConstraintLists

  const NotLinearMessage: string := "Expected a linear equation."
  const NotSupersetMessage: string :=
    "Variable ordering is not a super set of the variables in the equality constraints."

  /** The expression that is set equal to zero: `arg2 - arg1` for an
      Equality node, the stored expression itself otherwise. */
  function Residual(alg: Algebra, e: Expr): Expr
  {
    match e
    case Eq(arg1, arg2) => alg.sub(arg2, arg1)
    case _ => e
  }

  /** The terms of a constraint's residual as a polynomial in `gens`. */
  function TermsOf(alg: Algebra, e: Expr, gens: seq<Symbol>): seq<Term>
  {
    alg.toPoly(Residual(alg, e), gens)
  }

  // Counting non-zero exponents

  function NonZeroCount(s: seq<int>): nat
    decreases |s|
  {
    if s == [] then 0 else NonZeroCount(s[..|s| - 1]) + (if s[|s| - 1] != 0 then 1 else 0)
  }

  lemma {:induction false} NonZeroCountConcat(a: seq<int>, b: seq<int>)
    ensures NonZeroCount(a + b) == NonZeroCount(a) + NonZeroCount(b)
    decreases |b|
  {
    if b == [] {
      assert a + b == a;
    } else {
      assert (a + b)[..|a + b| - 1] == a + b[..|b| - 1];
      assert (a + b)[|a + b| - 1] == b[|b| - 1];
      NonZeroCountConcat(a, b[..|b| - 1]);
    }
  }

  lemma {:induction false} NoNonZero(s: seq<int>)
    ensures NonZeroCount(s) == 0 <==> forall k :: 0 <= k < |s| ==> s[k] == 0
    decreases |s|
  {
    if s != [] {
      NoNonZero(s[..|s| - 1]);
      assert forall k :: 0 <= k < |s| - 1 ==> s[..|s| - 1][k] == s[k];
    }
  }

  /** Splits the count at position `p`. */
  lemma CountAround(s: seq<int>, p: nat)
    requires p < |s|
    ensures NonZeroCount(s) == NonZeroCount(s[..p]) + (if s[p] != 0 then 1 else 0) + NonZeroCount(s[p + 1..])
  {
    var a, x, b := s[..p], [s[p]], s[p + 1..];
    assert s == (a + x) + b;
    NonZeroCountConcat(a + x, b);
    NonZeroCountConcat(a, x);
    assert x[..0] == [];
  }

  /** The position of the first non-zero exponent. */
  function FirstNonZero(s: seq<int>): (k: nat)
    requires NonZeroCount(s) >= 1
    ensures k < |s| && s[k] != 0
    ensures forall j :: 0 <= j < k ==> s[j] == 0
    decreases |s|
  {
    var init := s[..|s| - 1];
    if NonZeroCount(init) >= 1 then
      var k := FirstNonZero(init);
      assert forall j :: 0 <= j <= k ==> init[j] == s[j];
      k
    else
      NoNonZero(init);
      assert forall j :: 0 <= j < |s| - 1 ==> init[j] == s[j];
      |s| - 1
  }

  /** Every non-zero exponent is 1. */
  predicate NonZeroAreOne(s: seq<int>)
  {
    forall k :: 0 <= k < |s| && s[k] != 0 ==> s[k] == 1
  }

  // Classifying a term

  datatype TermKind = ConstantTerm | LinearTerm(position: nat) | NonLinearTerm

  /** The kind of a term with the given exponent vector. */
  function Classify(exps: seq<int>): (kind: TermKind)
    ensures kind.LinearTerm? ==> kind.position < |exps|
  {
    var n := NonZeroCount(exps);
    if n == 0 then ConstantTerm
    else if n == 1 && NonZeroAreOne(exps) then LinearTerm(FirstNonZero(exps))
    else NonLinearTerm
  }

  /** A term is constant iff every exponent is zero, and linear in position
      `p` iff its exponent vector is the unit vector at `p`. */
  lemma ClassifyMeaning(exps: seq<int>, p: nat)
    ensures Classify(exps) == ConstantTerm <==> forall k :: 0 <= k < |exps| ==> exps[k] == 0
    ensures Classify(exps) == LinearTerm(p) <==>
              p < |exps| && exps[p] == 1 && forall k :: 0 <= k < |exps| && k != p ==> exps[k] == 0
  {
    NoNonZero(exps);
    if p < |exps| {
      CountAround(exps, p);
      NoNonZero(exps[..p]);
      NoNonZero(exps[p + 1..]);
      assert forall k :: 0 <= k < p ==> exps[..p][k] == exps[k];
      assert forall k :: p < k < |exps| ==> exps[p + 1..][k - p - 1] == exps[k];
      if Classify(exps) == LinearTerm(p) {
        assert NonZeroCount(exps[..p]) == 0;
        assert NonZeroCount(exps[p + 1..]) == 0;
      }
    }
  }

  /** A non-zero exponent other than 1, or a second non-zero exponent,
      makes the term nonlinear. */
  lemma NonLinearWitness(exps: seq<int>, w: nat)
    requires w < |exps| && exps[w] != 0
    requires exps[w] != 1 || NonZeroCount(exps[..w]) >= 1
    ensures Classify(exps) == NonLinearTerm
  {
    CountAround(exps, w);
  }

  // One row

  datatype Row = Row(coeffs: seq<Expr>, rem: Expr)

  /** The generators are the ordering's symbols, each once, in the order in
      which the library's symbol set iterates them. */
  predicate Generators(ordering: seq<Symbol>, gens: seq<Symbol>)
  {
    Distinct(gens) && Elements(gens) == Elements(ordering)
  }

  /** Every exponent vector has one entry per generator. */
  predicate WellShaped(terms: seq<Term>, gens: seq<Symbol>)
  {
    forall k :: 0 <= k < |terms| ==> |terms[k].exponents| == |gens|
  }

  /** The column that generator position `p` writes: `index_of_sym` of the
      generator, its position in the ordering. */
  function Column(ordering: seq<Symbol>, gens: seq<Symbol>, p: nat): (c: nat)
    requires Generators(ordering, gens) && p < |gens|
    ensures c < |ordering| && ordering[c] == gens[p]
  {
    assert gens[p] in Elements(gens);
    FirstIndex(ordering, gens[p])
  }

  /** The column a term writes, if it is linear. */
  function TermColumn(t: Term, ordering: seq<Symbol>, gens: seq<Symbol>): Option<nat>
    requires Generators(ordering, gens) && |t.exponents| == |gens|
  {
    match Classify(t.exponents)
    case LinearTerm(p) => Some(Column(ordering, gens, p))
    case _ => None
  }

  /** One row, term by term in the dictionary's order: a constant term
      becomes the remainder, a linear term sets its column, a nonlinear
      term fails the conversion. */
  function RowOf(terms: seq<Term>, ordering: seq<Symbol>, gens: seq<Symbol>): (r: Result<Row>)
    requires Generators(ordering, gens) && WellShaped(terms, gens)
    ensures r.Ok? ==> |r.value.coeffs| == |ordering|
    decreases |terms|
  {
    if terms == [] then Ok(Row(seq(|ordering|, _ => Zero), Zero))
    else
      var init := terms[..|terms| - 1];
      var last := terms[|terms| - 1];
      assert WellShaped(init, gens) by {
        assert forall k :: 0 <= k < |init| ==> init[k] == terms[k];
      }
      match RowOf(init, ordering, gens)
      case Err(e) => Err(e)
      case Ok(row) =>
        match Classify(last.exponents)
        case ConstantTerm => Ok(Row(row.coeffs, last.coeff))
        case LinearTerm(p) => Ok(Row(row.coeffs[Column(ordering, gens, p) := last.coeff], row.rem))
        case NonLinearTerm => Err(RuntimeError(NotLinearMessage))
  }

  lemma PrefixWellShaped(terms: seq<Term>, gens: seq<Symbol>, t: nat)
    requires WellShaped(terms, gens) && t <= |terms|
    ensures WellShaped(terms[..t], gens)
  {
    assert forall k :: 0 <= k < t ==> terms[..t][k] == terms[k];
  }

  /** A row fails iff one of its terms is nonlinear, and then with the
      linearity message. */
  lemma {:induction false} RowFails(terms: seq<Term>, ordering: seq<Symbol>, gens: seq<Symbol>)
    requires Generators(ordering, gens) && WellShaped(terms, gens)
    ensures RowOf(terms, ordering, gens).Err? <==>
              exists k :: 0 <= k < |terms| && Classify(terms[k].exponents) == NonLinearTerm
    ensures RowOf(terms, ordering, gens).Err? ==>
              RowOf(terms, ordering, gens).error == RuntimeError(NotLinearMessage)
    decreases |terms|
  {
    if terms != [] {
      var init := terms[..|terms| - 1];
      assert forall k :: 0 <= k < |init| ==> init[k] == terms[k];
      RowFails(init, ordering, gens);
    }
  }

  /** With distinct monomials, column `c` holds the coefficient of the one
      term linear in the generator at `c`, or zero when there is none. */
  lemma RowCoefficient(terms: seq<Term>, ordering: seq<Symbol>, gens: seq<Symbol>, c: nat)
    requires Generators(ordering, gens) && WellShaped(terms, gens)
    requires forall i, j :: 0 <= i < j < |terms| ==> terms[i].exponents != terms[j].exponents
    requires RowOf(terms, ordering, gens).Ok? && c < |ordering|
    ensures forall k :: 0 <= k < |terms| && TermColumn(terms[k], ordering, gens) == Some(c) ==>
              RowOf(terms, ordering, gens).value.coeffs[c] == terms[k].coeff
    ensures (forall k :: 0 <= k < |terms| ==> TermColumn(terms[k], ordering, gens) != Some(c)) ==>
              RowOf(terms, ordering, gens).value.coeffs[c] == Zero
  {
    forall k | 0 <= k < |terms| && TermColumn(terms[k], ordering, gens) == Some(c)
      ensures RowOf(terms, ordering, gens).value.coeffs[c] == terms[k].coeff
    {
      WrittenColumn(terms, ordering, gens, c, k);
    }
    if forall k :: 0 <= k < |terms| ==> TermColumn(terms[k], ordering, gens) != Some(c) {
      UnwrittenColumnIsZero(terms, ordering, gens, c);
    }
  }

  /** The term that writes column `c` leaves its coefficient there: no other
      term writes the same column. */
  lemma {:induction false} WrittenColumn(terms: seq<Term>, ordering: seq<Symbol>, gens: seq<Symbol>, c: nat, k: nat)
    requires Generators(ordering, gens) && WellShaped(terms, gens)
    requires forall i, j :: 0 <= i < j < |terms| ==> terms[i].exponents != terms[j].exponents
    requires RowOf(terms, ordering, gens).Ok? && c < |ordering|
    requires k < |terms| && TermColumn(terms[k], ordering, gens) == Some(c)
    ensures RowOf(terms, ordering, gens).value.coeffs[c] == terms[k].coeff
    decreases |terms|
  {
    var init := terms[..|terms| - 1];
    var last := terms[|terms| - 1];
    assert forall j :: 0 <= j < |init| ==> init[j] == terms[j];
    assert WellShaped(init, gens);
    var row := RowOf(init, ordering, gens).value;
    var r := RowOf(terms, ordering, gens).value;
    if k == |terms| - 1 {
      var p := Classify(last.exponents).position;
      assert r.coeffs == row.coeffs[Column(ordering, gens, p) := last.coeff];
    } else {
      WrittenColumn(init, ordering, gens, c, k);
      if TermColumn(last, ordering, gens) == Some(c) {
        SameColumnSameMonomial(terms[k], last, ordering, gens);
        assert false;
      }
      match Classify(last.exponents)
      case ConstantTerm =>
        assert r.coeffs == row.coeffs;
      case LinearTerm(p) =>
        assert r.coeffs == row.coeffs[Column(ordering, gens, p) := last.coeff];
      case NonLinearTerm =>
    }
  }

  /** A column no term writes keeps the zero it started with. */
  lemma {:induction false} UnwrittenColumnIsZero(terms: seq<Term>, ordering: seq<Symbol>, gens: seq<Symbol>, c: nat)
    requires Generators(ordering, gens) && WellShaped(terms, gens)
    requires RowOf(terms, ordering, gens).Ok? && c < |ordering|
    requires forall k :: 0 <= k < |terms| ==> TermColumn(terms[k], ordering, gens) != Some(c)
    ensures RowOf(terms, ordering, gens).value.coeffs[c] == Zero
    decreases |terms|
  {
    if terms != [] {
      var init := terms[..|terms| - 1];
      var last := terms[|terms| - 1];
      assert forall j :: 0 <= j < |init| ==> init[j] == terms[j];
      assert WellShaped(init, gens);
      UnwrittenColumnIsZero(init, ordering, gens, c);
      var row := RowOf(init, ordering, gens).value;
      var r := RowOf(terms, ordering, gens).value;
      match Classify(last.exponents)
      case ConstantTerm =>
        assert r.coeffs == row.coeffs;
      case LinearTerm(p) =>
        assert r.coeffs == row.coeffs[Column(ordering, gens, p) := last.coeff];
      case NonLinearTerm =>
    }
  }

  /** With distinct monomials, the remainder is the constant term's
      coefficient, or zero when there is none. */
  lemma {:induction false} RowRemainder(terms: seq<Term>, ordering: seq<Symbol>, gens: seq<Symbol>)
    requires Generators(ordering, gens) && WellShaped(terms, gens)
    requires forall i, j :: 0 <= i < j < |terms| ==> terms[i].exponents != terms[j].exponents
    requires RowOf(terms, ordering, gens).Ok?
    ensures forall k :: 0 <= k < |terms| && Classify(terms[k].exponents) == ConstantTerm ==>
              RowOf(terms, ordering, gens).value.rem == terms[k].coeff
    ensures (forall k :: 0 <= k < |terms| ==> Classify(terms[k].exponents) != ConstantTerm) ==>
              RowOf(terms, ordering, gens).value.rem == Zero
    decreases |terms|
  {
    if terms != [] {
      var init := terms[..|terms| - 1];
      var last := terms[|terms| - 1];
      assert forall k :: 0 <= k < |init| ==> init[k] == terms[k];
      assert WellShaped(init, gens);
      RowRemainder(init, ordering, gens);
      if Classify(last.exponents) == ConstantTerm {
        forall k | 0 <= k < |init|
          ensures Classify(init[k].exponents) != ConstantTerm
        {
          if Classify(init[k].exponents) == ConstantTerm {
            ClassifyMeaning(init[k].exponents, 0);
            ClassifyMeaning(last.exponents, 0);
          }
        }
      }
    }
  }

  /** Two linear terms writing the same column have the same monomial. */
  lemma SameColumnSameMonomial(a: Term, b: Term, ordering: seq<Symbol>, gens: seq<Symbol>)
    requires Generators(ordering, gens) && |a.exponents| == |gens| && |b.exponents| == |gens|
    requires TermColumn(a, ordering, gens).Some?
    requires TermColumn(a, ordering, gens) == TermColumn(b, ordering, gens)
    ensures a.exponents == b.exponents
  {
    var p, q := Classify(a.exponents).position, Classify(b.exponents).position;
    assert gens[p] == gens[q];
    ClassifyMeaning(a.exponents, p);
    ClassifyMeaning(b.exponents, q);
  }

  // All rows

  /** The residual polynomials of all constraints have well-shaped terms. */
  predicate PolysWellShaped(alg: Algebra, cs: seq<Expr>, gens: seq<Symbol>)
  {
    forall k :: 0 <= k < |cs| ==> WellShaped(TermsOf(alg, cs[k], gens), gens)
  }

  /** The rows of all constraints, in constraint order; the first failing
      row fails the whole. */
  function RowsOf(alg: Algebra, cs: seq<Expr>, ordering: seq<Symbol>, gens: seq<Symbol>): Result<seq<Row>>
    requires Generators(ordering, gens) && PolysWellShaped(alg, cs, gens)
    decreases |cs|
  {
    if cs == [] then Ok([])
    else
      var init := cs[..|cs| - 1];
      assert PolysWellShaped(alg, init, gens) by {
        assert forall k :: 0 <= k < |init| ==> init[k] == cs[k];
      }
      match RowsOf(alg, init, ordering, gens)
      case Err(e) => Err(e)
      case Ok(rows) =>
        match RowOf(TermsOf(alg, cs[|cs| - 1], gens), ordering, gens)
        case Err(e) => Err(e)
        case Ok(row) => Ok(rows + [row])
  }

  /** All rows succeed iff each constraint's row does; row `r` is then the
      row of constraint `r`. Otherwise the conversion fails with the
      linearity message. */
  lemma {:induction false} RowsMeaning(alg: Algebra, cs: seq<Expr>, ordering: seq<Symbol>, gens: seq<Symbol>)
    requires Generators(ordering, gens) && PolysWellShaped(alg, cs, gens)
    ensures RowsOf(alg, cs, ordering, gens).Ok? <==>
              forall k :: 0 <= k < |cs| ==> RowOf(TermsOf(alg, cs[k], gens), ordering, gens).Ok?
    ensures RowsOf(alg, cs, ordering, gens).Ok? ==>
              |RowsOf(alg, cs, ordering, gens).value| == |cs| &&
              forall k :: 0 <= k < |cs| ==>
                RowsOf(alg, cs, ordering, gens).value[k] == RowOf(TermsOf(alg, cs[k], gens), ordering, gens).value
    ensures RowsOf(alg, cs, ordering, gens).Err? ==>
              RowsOf(alg, cs, ordering, gens).error == RuntimeError(NotLinearMessage)
    decreases |cs|
  {
    if cs != [] {
      var init := cs[..|cs| - 1];
      assert forall k :: 0 <= k < |init| ==> init[k] == cs[k];
      assert PolysWellShaped(alg, init, gens);
      RowsMeaning(alg, init, ordering, gens);
      var last := RowOf(TermsOf(alg, cs[|cs| - 1], gens), ordering, gens);
      RowFails(TermsOf(alg, cs[|cs| - 1], gens), ordering, gens);
      var before := RowsOf(alg, init, ordering, gens);
      if before.Err? {
        var k :| 0 <= k < |init| && RowOf(TermsOf(alg, init[k], gens), ordering, gens).Err?;
        assert RowOf(TermsOf(alg, cs[k], gens), ordering, gens).Err?;
      } else if last.Ok? {
        var rows := before.value + [last.value];
        assert RowsOf(alg, cs, ordering, gens) == Ok(rows);
        forall k | 0 <= k < |cs|
          ensures RowOf(TermsOf(alg, cs[k], gens), ordering, gens).Ok?
          ensures rows[k] == RowOf(TermsOf(alg, cs[k], gens), ordering, gens).value
        {
          if k < |init| {
            assert cs[k] == init[k];
          }
        }
      }
    }
  }

  // The linear system

  datatype LinearSystem = LinearSystem(matrix: Matrix, vector: Matrix)

  /** `convertToLinearSystem` as a value: the superset check first, then the
      rows; the matrix holds the linear coefficients and the vector the
      negated remainders. */
  function LinearSystemOf(alg: Algebra, cs: seq<Expr>, ordering: seq<Symbol>, gens: seq<Symbol>): Result<LinearSystem>
    requires Generators(ordering, gens) && PolysWellShaped(alg, cs, gens)
  {
    if !(UnionOver(cs, Variables) <= Elements(ordering)) then Err(RuntimeError(NotSupersetMessage))
    else
      match RowsOf(alg, cs, ordering, gens)
      case Err(e) => Err(e)
      case Ok(rows) =>
        Ok(LinearSystem(
          Matrix(|rows|, |ordering|, seq(|rows|, i requires 0 <= i < |rows| => rows[i].coeffs)),
          Matrix(|rows|, 1, seq(|rows|, i requires 0 <= i < |rows| => [alg.neg(rows[i].rem)]))))
  }

  /** The conversion fails with the superset message iff some variable of
      the constraints is missing from the ordering; otherwise it fails with
      the linearity message iff some term of some residual is nonlinear. */
  lemma ConversionFails(alg: Algebra, cs: seq<Expr>, ordering: seq<Symbol>, gens: seq<Symbol>)
    requires Generators(ordering, gens) && PolysWellShaped(alg, cs, gens)
    ensures LinearSystemOf(alg, cs, ordering, gens) == Err(RuntimeError(NotSupersetMessage)) <==>
              exists v :: v in UnionOver(cs, Variables) && v !in ordering
    ensures (forall v :: v in UnionOver(cs, Variables) ==> v in ordering) ==>
              (LinearSystemOf(alg, cs, ordering, gens).Err? <==>
                 exists k, j :: 0 <= k < |cs| && 0 <= j < |TermsOf(alg, cs[k], gens)| &&
                                Classify(TermsOf(alg, cs[k], gens)[j].exponents) == NonLinearTerm)
  {
    RowsMeaning(alg, cs, ordering, gens);
    if forall v :: v in UnionOver(cs, Variables) ==> v in ordering {
      assert UnionOver(cs, Variables) <= Elements(ordering);
      if LinearSystemOf(alg, cs, ordering, gens).Err? {
        var k :| 0 <= k < |cs| && !RowOf(TermsOf(alg, cs[k], gens), ordering, gens).Ok?;
        RowFails(TermsOf(alg, cs[k], gens), ordering, gens);
      }
      if exists k, j :: 0 <= k < |cs| && 0 <= j < |TermsOf(alg, cs[k], gens)| &&
                        Classify(TermsOf(alg, cs[k], gens)[j].exponents) == NonLinearTerm {
        var k, j :| 0 <= k < |cs| && 0 <= j < |TermsOf(alg, cs[k], gens)| &&
                    Classify(TermsOf(alg, cs[k], gens)[j].exponents) == NonLinearTerm;
        RowFails(TermsOf(alg, cs[k], gens), ordering, gens);
      }
    } else {
      var v :| v in UnionOver(cs, Variables) && v !in ordering;
      assert v !in Elements(ordering);
    }
  }

  /** A successful conversion has one row per constraint and one column per
      ordering symbol; row `r` holds constraint `r`'s coefficients and the
      negation of its remainder. */
  lemma ConversionShape(alg: Algebra, cs: seq<Expr>, ordering: seq<Symbol>, gens: seq<Symbol>)
    requires Generators(ordering, gens) && PolysWellShaped(alg, cs, gens)
    requires LinearSystemOf(alg, cs, ordering, gens).Ok?
    ensures var sys := LinearSystemOf(alg, cs, ordering, gens).value;
            sys.matrix.Shaped() && sys.matrix.nrows == |cs| && sys.matrix.ncols == |ordering| &&
            sys.vector.Shaped() && sys.vector.nrows == |cs| && sys.vector.ncols == 1 &&
            forall r :: 0 <= r < |cs| ==>
              RowOf(TermsOf(alg, cs[r], gens), ordering, gens).Ok? &&
              sys.matrix.cells[r] == RowOf(TermsOf(alg, cs[r], gens), ordering, gens).value.coeffs &&
              sys.vector.Get(r, 0) == alg.neg(RowOf(TermsOf(alg, cs[r], gens), ordering, gens).value.rem)
  {
    RowsMeaning(alg, cs, ordering, gens);
  }

  /** A failing row fails the whole conversion, once the superset check
      has passed. */
  lemma FailsAtRow(alg: Algebra, cs: seq<Expr>, ordering: seq<Symbol>, gens: seq<Symbol>, k: nat)
    requires Generators(ordering, gens) && PolysWellShaped(alg, cs, gens)
    requires UnionOver(cs, Variables) <= Elements(ordering)
    requires k < |cs| && RowOf(TermsOf(alg, cs[k], gens), ordering, gens).Err?
    ensures LinearSystemOf(alg, cs, ordering, gens) == Err(RuntimeError(NotLinearMessage))
  {
    RowsMeaning(alg, cs, ordering, gens);
  }

  /** Rows `0..row` of `matrix` and `vector` hold what the conversion puts
      there. */
  ghost predicate RowsAgree(alg: Algebra, cs: seq<Expr>, ordering: seq<Symbol>, gens: seq<Symbol>,
                            matrix: Matrix, vector: Matrix, row: nat)
    requires Generators(ordering, gens) && PolysWellShaped(alg, cs, gens)
  {
    && row <= |cs|
    && matrix.Shaped() && matrix.nrows == |cs| && matrix.ncols == |ordering|
    && vector.Shaped() && vector.nrows == |cs| && vector.ncols == 1
    && forall k :: 0 <= k < row ==>
         && RowOf(TermsOf(alg, cs[k], gens), ordering, gens).Ok?
         && matrix.cells[k] == RowOf(TermsOf(alg, cs[k], gens), ordering, gens).value.coeffs
         && vector.Get(k, 0) == alg.neg(RowOf(TermsOf(alg, cs[k], gens), ordering, gens).value.rem)
  }

  /** Once every row agrees and the superset check has passed, the matrices
      are the conversion's result. */
  lemma AssembleSystem(alg: Algebra, cs: seq<Expr>, ordering: seq<Symbol>, gens: seq<Symbol>,
                       matrix: Matrix, vector: Matrix)
    requires Generators(ordering, gens) && PolysWellShaped(alg, cs, gens)
    requires UnionOver(cs, Variables) <= Elements(ordering)
    requires RowsAgree(alg, cs, ordering, gens, matrix, vector, |cs|)
    ensures LinearSystemOf(alg, cs, ordering, gens) == Ok(LinearSystem(matrix, vector))
  {
    RowsMeaning(alg, cs, ordering, gens);
    var sys := LinearSystemOf(alg, cs, ordering, gens).value;
    AssembleRows(alg, cs, ordering, gens, matrix, vector, sys);
  }

  lemma AssembleRows(alg: Algebra, cs: seq<Expr>, ordering: seq<Symbol>, gens: seq<Symbol>,
                     matrix: Matrix, vector: Matrix, sys: LinearSystem)
    requires Generators(ordering, gens) && PolysWellShaped(alg, cs, gens)
    requires RowsAgree(alg, cs, ordering, gens, matrix, vector, |cs|)
    requires RowsOf(alg, cs, ordering, gens).Ok?
    requires |RowsOf(alg, cs, ordering, gens).value| == |cs|
    requires forall k :: 0 <= k < |cs| ==>
               RowsOf(alg, cs, ordering, gens).value[k] == RowOf(TermsOf(alg, cs[k], gens), ordering, gens).value
    requires sys.matrix.nrows == |cs| && sys.matrix.ncols == |ordering| && sys.vector.nrows == |cs| && sys.vector.ncols == 1
    requires sys.matrix.cells == seq(|cs|, i requires 0 <= i < |cs| => RowsOf(alg, cs, ordering, gens).value[i].coeffs)
    requires sys.vector.cells == seq(|cs|, i requires 0 <= i < |cs| => [alg.neg(RowsOf(alg, cs, ordering, gens).value[i].rem)])
    ensures sys == LinearSystem(matrix, vector)
  {
    var rows := RowsOf(alg, cs, ordering, gens).value;
    forall k | 0 <= k < |cs|
      ensures matrix.cells[k] == sys.matrix.cells[k] && vector.cells[k] == sys.vector.cells[k]
    {
      assert vector.Get(k, 0) == vector.cells[k][0];
    }
    assert matrix.cells == sys.matrix.cells;
    assert vector.cells == sys.vector.cells;
  }
}
