/** The symbolic-expression values the core consumes, and the operations of
    the algebra library (SymEngine) it calls, which are not reimplemented:
    they are supplied as the function values of an `Algebra` record. */
module Expressions {

  /** A SymEngine symbol; two symbols are the same when their names are. */
  datatype Symbol = Symbol(name: string)

  /** An expression tree as the symbol visitor sees it: symbol leaves, number
      leaves, SymEngine's Equality node (`Eq(arg1, arg2)`), and every other
      node (sums, products, powers, functions, constants) with its
      arguments in `get_args` order. */
  datatype Expr =
    | Sym(symbol: Symbol)
    | Num(value: real)
    | Eq(lhs: Expr, rhs: Expr)
    | Node(head: string, args: seq<Expr>)

  /** SymEngine::zero. */
  const Zero: Expr := Num(0.0)

  /** One entry of a multivariate polynomial's dictionary: the exponent of
      each generator (by position) and the coefficient, itself an
      expression in the symbols that are not generators. */
  datatype Term = Term(exponents: seq<int>, coeff: Expr)

  /** The algebra library's operations used by the core. Each is an
      uninterpreted total function of its arguments. `toPoly(e, gens)` is
      `from_basic<MExprPoly>(e, gens)`: the terms of `e` viewed as a
      polynomial in `gens`, in the iteration order of its dictionary. */
  datatype Algebra = Algebra(
    add: (Expr, Expr) -> Expr,
    sub: (Expr, Expr) -> Expr,
    neg: Expr -> Expr,
    log: Expr -> Expr,
    diff: (Expr, Symbol) -> Expr,
    expand: Expr -> Expr,
    xreplace: (Expr, map<Symbol, Expr>) -> Expr,
    ccode: Expr -> string,
    toPoly: (Expr, seq<Symbol>) -> seq<Term>)
}
