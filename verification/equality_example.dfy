/** The worked linearisation example of the equality constraints: two
    constraints over the variables x, y, z and the parameter a, converted
    against the ordering [z, y, x]. */
module EqualityExample {
  import opened Wrappers
  import opened Expressions
  import opened Matrices
  import opened OrderedSets
  import opened ConstraintLists
  import opened LinearExtraction
  import opened SymbolCollection
  import opened SymEngineUtilities

  /** The residual the library returns for `x - (3y + 4)`. */
  function ExampleRow1(): Expr
  {
    Node("Add", [Num(-4.0), Sym(Variable("x")), Node("Mul", [Num(-3.0), Sym(Variable("y"))])])
  }

  /** The residual the library returns for `(z + a)/2 - 7`. */
  function ExampleRow2(): Expr
  {
    Node("Add", [Num(-7.0), Node("Mul", [Num(0.5), Sym(Parameter("a"))]),
                 Node("Mul", [Num(0.5), Sym(Variable("z"))])])
  }

  /** The generators of the example as the algebra library iterates them. */
  function ExampleGens(): seq<Symbol>
  {
    [Variable("x"), Variable("y"), Variable("z")]
  }

  /** The ordering of the example: z, then y, then x. */
  function ExampleOrdering(): seq<Symbol>
  {
    [Variable("z"), Variable("y"), Variable("x")]
  }

  lemma ExampleGenerators()
    ensures Generators(ExampleOrdering(), ExampleGens())
    ensures Column(ExampleOrdering(), ExampleGens(), 0) == 2
    ensures Column(ExampleOrdering(), ExampleGens(), 1) == 1
    ensures Column(ExampleOrdering(), ExampleGens(), 2) == 0
  {
    var x, y, z := Variable("x"), Variable("y"), Variable("z");
    assert x != y && y != z && x != z by {
      assert x.name[3..] == "x" && y.name[3..] == "y" && z.name[3..] == "z";
    }
    assert Elements(ExampleGens()) == Elements(ExampleOrdering());
  }

  /** Every variable of the example constraints is in the ordering; the
      parameter `a` is not a variable. */
  lemma ExampleSuperset()
    ensures UnionOver([ExampleRow1(), ExampleRow2()], Variables) <= Elements(ExampleOrdering())
  {
    var x, y, z, a := Variable("x"), Variable("y"), Variable("z"), Parameter("a");
    var cs := [ExampleRow1(), ExampleRow2()];
    assert SymbolsOf(cs[0]) <= {x, y} by {
      assert forall i :: 0 <= i < 3 ==> SymbolsOf(ExampleRow1().args[i]) <= {x, y};
    }
    assert SymbolsOf(cs[1]) <= {a, z} by {
      assert forall i :: 0 <= i < 3 ==> SymbolsOf(ExampleRow2().args[i]) <= {a, z};
    }
    assert VariablesOf(cs[1]) <= {z};
    assert cs[..1] == [cs[0]] && [cs[0]][..0] == [];
  }

  /** `x - 3y - 4` gives the row [0, -3, 1] and the constant -4. */
  lemma ExampleFirstRow(t: seq<Term>)
    requires t == [Term([1, 0, 0], Num(1.0)), Term([0, 1, 0], Num(-3.0)), Term([0, 0, 0], Num(-4.0))]
    ensures Generators(ExampleOrdering(), ExampleGens()) && WellShaped(t, ExampleGens())
    ensures RowOf(t, ExampleOrdering(), ExampleGens()) == Ok(Row([Zero, Num(-3.0), Num(1.0)], Num(-4.0)))
  {
    var ordering, gens := ExampleOrdering(), ExampleGens();
    ExampleGenerators();
    ClassifyMeaning([1, 0, 0], 0);
    ClassifyMeaning([0, 1, 0], 1);
    ClassifyMeaning([0, 0, 0], 0);
    var zeros := seq(3, _ => Zero);
    assert t[..2][..1][..0] == [] && t[..2][..1] == t[..1];
    assert RowOf(t[..1], ordering, gens) == Ok(Row(zeros[2 := Num(1.0)], Zero));
    assert RowOf(t[..2], ordering, gens) == Ok(Row(zeros[2 := Num(1.0)][1 := Num(-3.0)], Zero));
    assert zeros[2 := Num(1.0)][1 := Num(-3.0)] == [Zero, Num(-3.0), Num(1.0)];
  }

  /** `z/2 + k` gives the row [1/2, 0, 0] and the constant `k`. */
  lemma ExampleSecondRow(t: seq<Term>, k: Expr)
    requires t == [Term([0, 0, 1], Num(0.5)), Term([0, 0, 0], k)]
    ensures Generators(ExampleOrdering(), ExampleGens()) && WellShaped(t, ExampleGens())
    ensures RowOf(t, ExampleOrdering(), ExampleGens()) == Ok(Row([Num(0.5), Zero, Zero], k))
  {
    var ordering, gens := ExampleOrdering(), ExampleGens();
    ExampleGenerators();
    ClassifyMeaning([0, 0, 1], 2);
    ClassifyMeaning([0, 0, 0], 0);
    var zeros := seq(3, _ => Zero);
    assert t[..1][..0] == [];
    assert RowOf(t[..1], ordering, gens) == Ok(Row(zeros[0 := Num(0.5)], Zero));
    assert zeros[0 := Num(0.5)] == [Num(0.5), Zero, Zero];
  }

  /** The linearisation example: with ordering [z, y, x], `x = 3y + 4` and
      `(z + a)/2 = 7` give the rows [0, -3, 1] and [1/2, 0, 0], and the
      constants 4 and the negated constant term `k` of the second residual.
      The polynomial terms are what the algebra library supplies. */
  lemma BasicLinearization(alg: Algebra, k: Expr)
    requires alg.toPoly(ExampleRow1(), ExampleGens()) ==
               [Term([1, 0, 0], Num(1.0)), Term([0, 1, 0], Num(-3.0)), Term([0, 0, 0], Num(-4.0))]
    requires alg.toPoly(ExampleRow2(), ExampleGens()) == [Term([0, 0, 1], Num(0.5)), Term([0, 0, 0], k)]
    requires alg.neg(Num(-4.0)) == Num(4.0)
    ensures Generators(ExampleOrdering(), ExampleGens())
    ensures PolysWellShaped(alg, [ExampleRow1(), ExampleRow2()], ExampleGens())
    ensures LinearSystemOf(alg, [ExampleRow1(), ExampleRow2()], ExampleOrdering(), ExampleGens())
            == Ok(LinearSystem(
                 Matrix(2, 3, [[Zero, Num(-3.0), Num(1.0)], [Num(0.5), Zero, Zero]]),
                 Matrix(2, 1, [[Num(4.0)], [alg.neg(k)]])))
  {
    var ordering, gens := ExampleOrdering(), ExampleGens();
    var cs := [ExampleRow1(), ExampleRow2()];
    var t1, t2 := TermsOf(alg, cs[0], gens), TermsOf(alg, cs[1], gens);
    ExampleFirstRow(t1);
    ExampleSecondRow(t2, k);
    ExampleSuperset();
    assert PolysWellShaped(alg, cs, gens);
    assert PolysWellShaped(alg, cs[..1], gens);
    assert cs[..1][..0] == [];
    var r1, r2 := Row([Zero, Num(-3.0), Num(1.0)], Num(-4.0)), Row([Num(0.5), Zero, Zero], k);
    assert RowOf(t1, ordering, gens) == Ok(r1);
    assert RowOf(t2, ordering, gens) == Ok(r2);
    assert cs[..1][0] == cs[0];
    assert RowsOf(alg, cs[..1][..0], ordering, gens) == Ok([]);
    assert TermsOf(alg, cs[..1][|cs[..1]| - 1], gens) == t1;
    assert [] + [r1] == [r1];
    assert RowsOf(alg, cs[..1], ordering, gens) == Ok([r1]);
    assert cs[..|cs| - 1] == cs[..1];
    assert TermsOf(alg, cs[|cs| - 1], gens) == t2;
    assert [r1] + [r2] == [r1, r2];
    assert RowsOf(alg, cs, ordering, gens) == Ok([r1, r2]);
    ExampleAssembly(alg, [r1, r2], k);
  }

  /** The matrices the two example rows assemble into. */
  lemma ExampleAssembly(alg: Algebra, rows: seq<Row>, k: Expr)
    requires rows == [Row([Zero, Num(-3.0), Num(1.0)], Num(-4.0)), Row([Num(0.5), Zero, Zero], k)]
    requires alg.neg(Num(-4.0)) == Num(4.0)
    ensures seq(|rows|, i requires 0 <= i < |rows| => rows[i].coeffs)
            == [[Zero, Num(-3.0), Num(1.0)], [Num(0.5), Zero, Zero]]
    ensures seq(|rows|, i requires 0 <= i < |rows| => [alg.neg(rows[i].rem)])
            == [[Num(4.0)], [alg.neg(k)]]
  {
  }
}
