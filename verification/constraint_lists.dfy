/** The symbol queries shared by the equality and the inequality
    constraint lists: `getSymbols`, `getVariables` and `getParameters`
    each `util_union` the query of every stored constraint. */
module ConstraintLists {
  import opened Expressions
  import opened SymbolCollection
  import opened SymEngineUtilities

  datatype Query = Symbols | Variables | Parameters

  /** The query on one expression. */
  function QueryOf(q: Query, e: Expr): set<Symbol>
  {
    match q
    case Symbols => SymbolsOf(e)
    case Variables => VariablesOf(e)
    case Parameters => ParametersOf(e)
  }

  /** The query accumulated over a list of constraints, in list order. */
  function UnionOver(cs: seq<Expr>, q: Query): set<Symbol>
    decreases |cs|
  {
    if cs == [] then {} else UnionOver(cs[..|cs| - 1], q) + QueryOf(q, cs[|cs| - 1])
  }

  /** A symbol is in the union iff some constraint's query holds it. */
  lemma {:induction false} InUnionOver(cs: seq<Expr>, q: Query, s: Symbol)
    ensures s in UnionOver(cs, q) <==> exists k :: 0 <= k < |cs| && s in QueryOf(q, cs[k])
    decreases |cs|
  {
    if cs != [] {
      var init := cs[..|cs| - 1];
      InUnionOver(init, q, s);
      if s in UnionOver(init, q) {
        var k :| 0 <= k < |init| && s in QueryOf(q, init[k]);
        assert cs[k] == init[k];
      }
      if exists k :: 0 <= k < |cs| && s in QueryOf(q, cs[k]) {
        var k :| 0 <= k < |cs| && s in QueryOf(q, cs[k]);
        if k < |init| {
          assert init[k] == cs[k];
        }
      }
    }
  }

  /** The variables of a list are exactly its symbols carrying the variable
      prefix, and likewise for parameters. */
  lemma {:induction false} UnionOfTagged(cs: seq<Expr>)
    ensures UnionOver(cs, Variables) == WithTag(UnionOver(cs, Symbols), VariablePrefix)
    ensures UnionOver(cs, Parameters) == WithTag(UnionOver(cs, Symbols), ParameterPrefix)
    decreases |cs|
  {
    if cs != [] {
      UnionOfTagged(cs[..|cs| - 1]);
    }
  }

  method RunQuery(e: Expr, q: Query) returns (r: set<Symbol>)
    ensures r == QueryOf(q, e)
  {
    match q
    case Symbols => r := GetSymbols(e);
    case Variables => r := GetVariables(e);
    case Parameters => r := GetParameters(e);
  }

  /** The loop of the list queries: start empty and union in each
      constraint's query. */
  method CollectOver(cs: seq<Expr>, q: Query) returns (r: set<Symbol>)
    ensures r == UnionOver(cs, q)
  {
    r := {};
    var i := 0;
    while i < |cs|
      invariant i <= |cs|
      invariant r == UnionOver(cs[..i], q)
    {
      var part := RunQuery(cs[i], q);
      r := UtilUnion(r, part);
      assert cs[..i + 1][..i] == cs[..i];
      i := i + 1;
    }
    assert cs[..|cs|] == cs;
  }

  // The list operations

  /** `vector::insert` at position `i`: `b` lands at `i` and the
      constraints from `i` on move one place right. */
  function InsertAt(cs: seq<Expr>, i: nat, b: Expr): (r: seq<Expr>)
    requires i <= |cs|
    ensures |r| == |cs| + 1 && r[i] == b
    ensures forall k :: 0 <= k < i ==> r[k] == cs[k]
    ensures forall k :: i <= k < |cs| ==> r[k + 1] == cs[k]
  {
    cs[..i] + [b] + cs[i..]
  }

  /** `vector::erase` at position `i`: the constraints after `i` move one
      place left. */
  function RemoveAt(cs: seq<Expr>, i: nat): (r: seq<Expr>)
    requires i < |cs|
    ensures |r| == |cs| - 1
    ensures forall k :: 0 <= k < i ==> r[k] == cs[k]
    ensures forall k :: i <= k < |r| ==> r[k] == cs[k + 1]
  {
    cs[..i] + cs[i + 1..]
  }

  /** Removing what was just inserted restores the list, and re-inserting
      what was just removed does too. */
  lemma InsertRemoveInverse(cs: seq<Expr>, i: nat, b: Expr)
    requires i <= |cs|
    ensures RemoveAt(InsertAt(cs, i, b), i) == cs
    ensures i < |cs| ==> InsertAt(RemoveAt(cs, i), i, cs[i]) == cs
  {
    var r := RemoveAt(InsertAt(cs, i, b), i);
    assert forall k :: 0 <= k < |cs| ==> r[k] == cs[k];
    if i < |cs| {
      var t := InsertAt(RemoveAt(cs, i), i, cs[i]);
      assert forall k :: 0 <= k < |cs| ==> t[k] == cs[k];
    }
  }
}
