/** SymbolicInequalityConstraints (cppmpc/SymbolicInequality.cpp, and its
    older copy src/SymbolicInequality.cpp): a list of inequality
    constraints in normal form `c(x) <= 0`, and the logarithmic barrier
    built from them. */
module SymbolicInequality {
  import opened Wrappers
  import opened Expressions
  import opened Matrices
  import opened OrderedSets
  import opened ConstraintLists
  import opened SymEngineUtilities

  /** The barrier of one normal-form constraint `c <= 0`: `-log(-c)`. */
  function BarrierTerm(alg: Algebra, c: Expr): Expr
  {
    alg.neg(alg.log(alg.neg(c)))
  }

  /** The running sum continued from `acc` over `cs`, left to right. */
  function BarrierFrom(alg: Algebra, acc: Expr, cs: seq<Expr>): Expr
    decreases |cs|
  {
    if cs == [] then acc else alg.add(BarrierFrom(alg, acc, cs[..|cs| - 1]), BarrierTerm(alg, cs[|cs| - 1]))
  }

  /** The barrier value of a constraint list: the running sum from zero. */
  function BarrierOf(alg: Algebra, cs: seq<Expr>): Expr
  {
    BarrierFrom(alg, Zero, cs)
  }

  /** The fold splits at any point: the barrier of `a + b` is the fold over
      `b` started from the barrier of `a`. So appending a constraint adds its
      term to the barrier, and the empty list has barrier zero. */
  lemma {:induction false} BarrierSplits(alg: Algebra, acc: Expr, a: seq<Expr>, b: seq<Expr>)
    ensures BarrierFrom(alg, acc, a + b) == BarrierFrom(alg, BarrierFrom(alg, acc, a), b)
    decreases |b|
  {
    if b == [] {
      assert a + b == a;
    } else {
      assert (a + b)[..|a + b| - 1] == a + b[..|b| - 1];
      assert (a + b)[|a + b| - 1] == b[|b| - 1];
      BarrierSplits(alg, acc, a, b[..|b| - 1]);
    }
  }

  lemma BarrierOfAppend(alg: Algebra, cs: seq<Expr>, c: Expr)
    ensures BarrierOf(alg, []) == Zero
    ensures BarrierOf(alg, cs + [c]) == alg.add(BarrierOf(alg, cs), BarrierTerm(alg, c))
  {
    BarrierSplits(alg, Zero, cs, [c]);
    assert [c][..0] == [];
  }

  /** `insertLessThan(index, left, right)` stores `left - right <= 0`,
      `insertGreaterThan(index, left, right)` stores `right - left <= 0`:
      `left > right` is `right < left`. */
  function LessThan(alg: Algebra, left: Expr, right: Expr): Expr
  {
    alg.sub(left, right)
  }

  function GreaterThan(alg: Algebra, left: Expr, right: Expr): (c: Expr)
    ensures c == LessThan(alg, right, left)
  {
    alg.sub(right, left)
  }

  class SymbolicInequalityConstraints {
    var constraints: seq<Expr>

    constructor()
      ensures constraints == []
    {
      constraints := [];
    }

    function NumConstraints(): (n: nat)
      reads this
      ensures n == |constraints|
    {
      |constraints|
    }

    /** `insertNormalConstraint(index, b)`; inserting past the end is
        undefined behaviour of `vector::insert`. */
    method InsertNormalConstraint(index: nat, b: Expr)
      requires index <= |constraints|
      modifies this
      ensures constraints == InsertAt(old(constraints), index, b)
    {
      constraints := InsertAt(constraints, index, b);
    }

    method InsertLessThan(alg: Algebra, index: nat, left: Expr, right: Expr)
      requires index <= |constraints|
      modifies this
      ensures constraints == InsertAt(old(constraints), index, LessThan(alg, left, right))
    {
      InsertNormalConstraint(index, alg.sub(left, right));
    }

    method InsertGreaterThan(alg: Algebra, index: nat, left: Expr, right: Expr)
      requires index <= |constraints|
      modifies this
      ensures constraints == InsertAt(old(constraints), index, GreaterThan(alg, left, right))
    {
      InsertNormalConstraint(index, alg.sub(right, left));
    }

    /** `appendNormalConstraint(b)`: `b` unchanged at the end, the others
        untouched. */
    method AppendNormalConstraint(b: Expr)
      modifies this
      ensures constraints == old(constraints) + [b]
    {
      InsertNormalConstraint(|constraints|, b);
      assert old(constraints)[|old(constraints)|..] == [];
    }

    method AppendLessThan(alg: Algebra, left: Expr, right: Expr)
      modifies this
      ensures constraints == old(constraints) + [LessThan(alg, left, right)]
    {
      InsertLessThan(alg, |constraints|, left, right);
      assert old(constraints)[|old(constraints)|..] == [];
    }

    method AppendGreaterThan(alg: Algebra, left: Expr, right: Expr)
      modifies this
      ensures constraints == old(constraints) + [GreaterThan(alg, left, right)]
    {
      InsertGreaterThan(alg, |constraints|, left, right);
      assert old(constraints)[|old(constraints)|..] == [];
    }

    /** `removeConstraint(index)`: `vector::erase` past the end is undefined
        behaviour, so the index must be in range. */
    method RemoveConstraint(index: nat)
      requires index < |constraints|
      modifies this
      ensures constraints == RemoveAt(old(constraints), index)
    {
      constraints := RemoveAt(constraints, index);
    }

    /** `getConstraint(index)`: `vector::at`, out_of_range past the end. */
    function GetConstraint(index: nat): (r: Result<Expr>)
      reads this
      ensures r.Ok? <==> index < |constraints|
      ensures r.Ok? ==> r.value == constraints[index]
      ensures r.Err? ==> r.error == OutOfRange
    {
      if index < |constraints| then Ok(constraints[index]) else Err(OutOfRange)
    }

    method GetSymbols() returns (r: set<Symbol>)
      ensures r == UnionOver(constraints, Symbols)
    {
      r := CollectOver(constraints, Symbols);
    }

    method GetVariables() returns (r: set<Symbol>)
      ensures r == UnionOver(constraints, Variables)
    {
      r := CollectOver(constraints, Variables);
    }

    method GetParameters() returns (r: set<Symbol>)
      ensures r == UnionOver(constraints, Parameters)
    {
      r := CollectOver(constraints, Parameters);
    }

    /** `symbolicBarrierValue()`: the running sum, from zero, of the barrier
        term of each constraint in order. */
    method SymbolicBarrierValue(alg: Algebra) returns (runningSum: Expr)
      ensures runningSum == BarrierOf(alg, constraints)
    {
      runningSum := Zero;
      var i := 0;
      while i < |constraints|
        invariant i <= |constraints|
        invariant runningSum == BarrierOf(alg, constraints[..i])
      {
        var c := GetConstraint(i);
        var withBarrier := alg.neg(alg.log(alg.neg(c.value)));
        assert constraints[..i + 1][..i] == constraints[..i];
        runningSum := alg.add(runningSum, withBarrier);
        i := i + 1;
      }
      assert constraints[..i] == constraints;
    }

    /** `symbolicBarrierGradient(ordering)`: the gradient of the barrier
        value. */
    method SymbolicBarrierGradient(alg: Algebra, ordering: OrderedSet) returns (g: Matrix)
      ensures g == GradientOf(alg, BarrierOf(alg, constraints), ordering.elems)
    {
      var value := SymbolicBarrierValue(alg);
      g := Gradient(alg, value, ordering);
    }

    /** `symbolicBarrierHessian(ordering)`: the Hessian of the barrier
        value. */
    method SymbolicBarrierHessian(alg: Algebra, ordering: OrderedSet) returns (h: Matrix)
      ensures h == HessianOf(alg, BarrierOf(alg, constraints), ordering.elems)
    {
      var value := SymbolicBarrierValue(alg);
      h := Hessian(alg, value, ordering);
    }
  }
}
