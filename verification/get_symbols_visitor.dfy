/** Collection of the symbol leaves of an expression
    (GetSymbolsVisitor and `getSymbols`). */
module SymbolCollection {
  import opened Wrappers
  import opened Expressions

  /** The symbols of an expression: a symbol contributes itself, every other
      node the union of its arguments' symbols; numbers have no arguments. */
  function SymbolsOf(e: Expr): set<Symbol>
  {
    match e
    case Sym(s) => {s}
    case Num(_) => {}
    case Eq(l, r) => SymbolsOf(l) + SymbolsOf(r)
    case Node(_, args) => set i, s | 0 <= i < |args| && s in SymbolsOf(args[i]) :: s
  }

  /** The subexpression reached by following argument positions from the root. */
  function At(e: Expr, path: seq<nat>): Option<Expr>
    decreases |path|
  {
    if path == [] then Some(e)
    else match e
      case Eq(l, r) =>
        if path[0] == 0 then At(l, path[1..])
        else if path[0] == 1 then At(r, path[1..])
        else None
      case Node(_, args) =>
        if path[0] < |args| then At(args[path[0]], path[1..]) else None
      case _ => None
  }

  /** `s` is a symbol leaf somewhere in `e`. */
  ghost predicate Occurs(s: Symbol, e: Expr)
  {
    exists path: seq<nat> :: At(e, path) == Some(Sym(s))
  }

  lemma {:induction false} OccurrenceIsCollected(e: Expr, path: seq<nat>, s: Symbol)
    requires At(e, path) == Some(Sym(s))
    ensures s in SymbolsOf(e)
    decreases |path|
  {
    if path == [] {
    } else {
      match e
      case Eq(l, r) =>
        if path[0] == 0 { OccurrenceIsCollected(l, path[1..], s); }
        else { OccurrenceIsCollected(r, path[1..], s); }
      case Node(_, args) =>
        OccurrenceIsCollected(args[path[0]], path[1..], s);
        assert s in SymbolsOf(args[path[0]]);
    }
  }

  lemma {:induction false} CollectedOccurs(e: Expr, s: Symbol) returns (path: seq<nat>)
    requires s in SymbolsOf(e)
    ensures At(e, path) == Some(Sym(s))
  {
    match e
    case Sym(_) =>
      path := [];
    case Eq(l, r) =>
      if s in SymbolsOf(l) {
        var p := CollectedOccurs(l, s);
        path := [0] + p;
        assert path[1..] == p;
      } else {
        var p := CollectedOccurs(r, s);
        path := [1] + p;
        assert path[1..] == p;
      }
    case Node(_, args) =>
      var i :| 0 <= i < |args| && s in SymbolsOf(args[i]);
      var p := CollectedOccurs(args[i], s);
      path := [i] + p;
      assert path[1..] == p;
  }

  /** The visitor collects exactly the symbol leaves of the expression:
      no symbol is missed and nothing else is added. */
  lemma SymbolsAreLeaves(e: Expr, s: Symbol)
    ensures s in SymbolsOf(e) <==> Occurs(s, e)
  {
    if s in SymbolsOf(e) {
      var p := CollectedOccurs(e, s);
    }
    if Occurs(s, e) {
      var p :| At(e, p) == Some(Sym(s));
      OccurrenceIsCollected(e, p, s);
    }
  }

  /** The union of the symbols of `args[..k]`. */
  function SymbolsOfPrefix(args: seq<Expr>, k: nat): set<Symbol>
    requires k <= |args|
  {
    set i, s | 0 <= i < k && s in SymbolsOf(args[i]) :: s
  }

  class GetSymbolsVisitor {
    var symbols: set<Symbol>

    constructor()
      ensures symbols == {}
    {
      symbols := {};
    }

    /** `accept`: a symbol is inserted, any other node visits its
        arguments in order. */
    method Visit(e: Expr)
      modifies this
      ensures symbols == old(symbols) + SymbolsOf(e)
      decreases e, 1
    {
      match e
      case Sym(s) =>
        symbols := symbols + {Symbol(s.name)};
      case Num(_) =>
      case Eq(l, r) =>
        VisitArgs(e, [l, r]);
        assert SymbolsOfPrefix([l, r], 2) == SymbolsOf(l) + SymbolsOf(r) by {
          forall s | s in SymbolsOf(l) ensures s in SymbolsOfPrefix([l, r], 2) {
            assert [l, r][0] == l;
          }
          forall s | s in SymbolsOf(r) ensures s in SymbolsOfPrefix([l, r], 2) {
            assert [l, r][1] == r;
          }
        }
      case Node(_, args) =>
        VisitArgs(e, args);
    }

    method VisitArgs(ghost parent: Expr, args: seq<Expr>)
      requires forall i :: 0 <= i < |args| ==> args[i] < parent
      modifies this
      ensures symbols == old(symbols) + SymbolsOfPrefix(args, |args|)
      decreases parent, 0
    {
      var i := 0;
      while i < |args|
        invariant 0 <= i <= |args|
        invariant symbols == old(symbols) + SymbolsOfPrefix(args, i)
      {
        Visit(args[i]);
        assert SymbolsOfPrefix(args, i + 1) == SymbolsOfPrefix(args, i) + SymbolsOf(args[i]);
        i := i + 1;
      }
    }

    method Apply(e: Expr) returns (r: set<Symbol>)
      modifies this
      ensures r == symbols == old(symbols) + SymbolsOf(e)
    {
      Visit(e);
      r := symbols;
    }
  }

  /** `getSymbols`: a fresh visitor applied to the expression. */
  method GetSymbols(e: Expr) returns (r: set<Symbol>)
    ensures forall s :: s in r <==> Occurs(s, e)
    ensures r == SymbolsOf(e)
  {
    var visitor := new GetSymbolsVisitor();
    r := visitor.Apply(e);
    forall s ensures s in r <==> Occurs(s, e) {
      SymbolsAreLeaves(e, s);
    }
  }

  /** GetSymbolsVisitorTest: a symbol has itself as its only symbol;
      `x*y` has two symbols and `x*y + z` contains x, y and z. */
  lemma SymbolExamples(x: Symbol, y: Symbol, z: Symbol)
    requires x != y
    ensures SymbolsOf(Sym(x)) == {x}
    ensures |SymbolsOf(Node("Mul", [Sym(x), Sym(y)]))| == 2
    ensures {x, y, z} <= SymbolsOf(Node("Add", [Node("Mul", [Sym(x), Sym(y)]), Sym(z)]))
  {
    var xy := Node("Mul", [Sym(x), Sym(y)]);
    assert SymbolsOf(xy) == {x, y} by {
      assert x in SymbolsOf(xy.args[0]);
      assert y in SymbolsOf(xy.args[1]);
    }
    var sum := Node("Add", [xy, Sym(z)]);
    assert x in SymbolsOf(sum.args[0]);
    assert y in SymbolsOf(sum.args[0]);
    assert z in SymbolsOf(sum.args[1]);
  }
}
