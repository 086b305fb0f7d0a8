/** The SymEngine helpers of cppmpc/SymEngineUtilities.cpp: symbol naming,
    symbol vectors, factorial, the `$v_`/`$p_` classification filters, and
    the derivative matrices over an ordering. */
module SymEngineUtilities {
  import opened Expressions
  import opened Matrices
  import opened SymbolCollection
  import opened OrderedSets
  import opened Decimal

  const VariablePrefix: string := "$v_"
  const ParameterPrefix: string := "$p_"

  /** `size_t` arithmetic is modulo 2^64. */
  const SizeModulus: nat := 0x1_0000_0000_0000_0000

  // Naming

  /** `std::string::substr(pos, len)` for an in-range `pos`: at most `len`
      characters, fewer when the string ends first. */
  function Substr(s: string, pos: nat, len: nat): string
    requires pos <= |s|
  {
    if pos + len <= |s| then s[pos..pos + len] else s[pos..]
  }

  /** The test `name.substr(0, 3) == tag` used to classify symbols. */
  predicate HasTag(s: Symbol, tag: string)
  {
    Substr(s.name, 0, 3) == tag
  }

  predicate IsVariable(s: Symbol) { HasTag(s, VariablePrefix) }

  predicate IsParameter(s: Symbol) { HasTag(s, ParameterPrefix) }

  /** The three-character test is a prefix test, and no symbol is both a
      variable and a parameter. */
  lemma ClassificationIsPrefix(s: Symbol)
    ensures IsVariable(s) <==> |s.name| >= 3 && s.name[..3] == VariablePrefix
    ensures IsParameter(s) <==> |s.name| >= 3 && s.name[..3] == ParameterPrefix
    ensures !(IsVariable(s) && IsParameter(s))
  {
    if |s.name| < 3 {
      assert |Substr(s.name, 0, 3)| < 3;
    } else {
      assert Substr(s.name, 0, 3) == s.name[..3];
    }
  }

  /** `variable(name)`: the name gets the variable prefix, and stripping it
      gives the name back. */
  function Variable(name: string): (s: Symbol)
    ensures IsVariable(s) && !IsParameter(s)
    ensures s.name[|VariablePrefix|..] == name
  {
    var s := Symbol(VariablePrefix + name);
    ClassificationIsPrefix(s);
    assert s.name[..3] == VariablePrefix;
    s
  }

  /** `parameter(name)`: the name gets the parameter prefix, and stripping
      it gives the name back. */
  function Parameter(name: string): (s: Symbol)
    ensures IsParameter(s) && !IsVariable(s)
    ensures s.name[|ParameterPrefix|..] == name
  {
    var s := Symbol(ParameterPrefix + name);
    ClassificationIsPrefix(s);
    assert s.name[..3] == ParameterPrefix;
    s
  }

  /** The name of entry `i` of a symbol vector: `base[i]`. */
  function IndexedName(base: string, i: nat): string
  {
    base + "[" + NatToString(i) + "]"
  }

  lemma IndexedNamesDiffer(base: string, i: nat, j: nat)
    requires i != j
    ensures IndexedName(base, i) != IndexedName(base, j)
  {
    if IndexedName(base, i) == IndexedName(base, j) {
      var a, b := NatToString(i) + "]", NatToString(j) + "]";
      assert IndexedName(base, i) == (base + "[") + a;
      assert IndexedName(base, j) == (base + "[") + b;
      assert a == IndexedName(base, i)[|base| + 1..];
      assert a == b;
      assert NatToString(i) == a[..|a| - 1];
      PrintingIsInjective(i, j);
    }
  }

  /** `variableVector(base, num)`: `num` distinct variables named `base[i]`. */
  method VariableVector(base: string, num: nat) returns (vec: seq<Symbol>)
    ensures |vec| == num
    ensures forall i :: 0 <= i < num ==> vec[i] == Variable(IndexedName(base, i))
    ensures Distinct(vec)
  {
    vec := [];
    var i := 0;
    while i < num
      invariant i <= num && |vec| == i
      invariant forall k :: 0 <= k < i ==> vec[k] == Variable(IndexedName(base, k))
    {
      vec := vec + [Variable(IndexedName(base, i))];
      i := i + 1;
    }
    forall j, k | 0 <= j < k < num
      ensures vec[j] != vec[k]
    {
      IndexedNamesDiffer(base, j, k);
      assert vec[j].name[3..] != vec[k].name[3..];
    }
  }

  /** `parameterVector(base, num)`: `num` distinct parameters named `base[i]`. */
  method ParameterVector(base: string, num: nat) returns (vec: seq<Symbol>)
    ensures |vec| == num
    ensures forall i :: 0 <= i < num ==> vec[i] == Parameter(IndexedName(base, i))
    ensures Distinct(vec)
  {
    vec := [];
    var i := 0;
    while i < num
      invariant i <= num && |vec| == i
      invariant forall k :: 0 <= k < i ==> vec[k] == Parameter(IndexedName(base, k))
    {
      vec := vec + [Parameter(IndexedName(base, i))];
      i := i + 1;
    }
    forall j, k | 0 <= j < k < num
      ensures vec[j] != vec[k]
    {
      IndexedNamesDiffer(base, j, k);
      assert vec[j].name[3..] != vec[k].name[3..];
    }
  }

  // Factorial

  /** The mathematical factorial, 1 * 2 * ... * n. */
  function Fact(n: nat): nat
  {
    if n == 0 then 1 else n * Fact(n - 1)
  }

  lemma {:induction false} AddMultipleMod(q: nat, y: nat)
    ensures (q * SizeModulus + y) % SizeModulus == y % SizeModulus
    decreases q
  {
    if q > 0 {
      assert q * SizeModulus + y == ((q - 1) * SizeModulus + y) + SizeModulus;
      AddMultipleMod(q - 1, y);
    }
  }

  lemma MulMod(a: nat, b: nat)
    ensures (a % SizeModulus * b) % SizeModulus == (a * b) % SizeModulus
  {
    var q := a / SizeModulus;
    assert a == q * SizeModulus + a % SizeModulus;
    assert a * b == (q * b) * SizeModulus + (a % SizeModulus) * b;
    AddMultipleMod(q * b, (a % SizeModulus) * b);
  }

  /** `factorial(start)`: the running product from `start` down to 1, in
      `size_t`, so the factorial modulo 2^64. */
  method Factorial(start: nat) returns (run: nat)
    requires start < SizeModulus
    ensures run == Fact(start) % SizeModulus
  {
    run := 1;
    ghost var exact: nat := 1;
    var i: nat := start;
    while i != 0
      invariant i <= start
      invariant run == exact % SizeModulus
      invariant exact * Fact(i) == Fact(start)
      decreases i
    {
      MulMod(exact, i);
      assert exact * Fact(i) == (exact * i) * Fact(i - 1);
      run := (run * i) % SizeModulus;
      exact := exact * i;
      i := i - 1;
    }
  }

  lemma {:induction false} FactGrows(m: nat, n: nat)
    requires m <= n
    ensures Fact(m) <= Fact(n)
    decreases n
  {
    if m < n {
      FactGrows(m, n - 1);
    }
  }

  /** Up to 20 the product fits in `size_t`; 21! already wraps. */
  lemma SmallFactorialsAreExact(n: nat)
    ensures n <= 20 ==> Fact(n) % SizeModulus == Fact(n)
    ensures Fact(21) % SizeModulus != Fact(21)
  {
    assert Fact(5) == 120;
    assert Fact(10) == 3628800;
    assert Fact(15) == 1307674368000;
    assert Fact(20) == 2432902008176640000;
    assert Fact(21) == 51090942171709440000;
    if n <= 20 {
      FactGrows(n, 20);
    }
  }

  // Classification filters

  /** The symbols of `all` whose name carries `tag`. */
  function WithTag(all: set<Symbol>, tag: string): (r: set<Symbol>)
    ensures r <= all
    ensures forall s :: s in all ==> (s in r <==> HasTag(s, tag))
  {
    set s | s in all && HasTag(s, tag)
  }

  /** `getVariables(basic)` as a value. */
  function VariablesOf(e: Expr): set<Symbol>
  {
    WithTag(SymbolsOf(e), VariablePrefix)
  }

  /** `getParameters(basic)` as a value. */
  function ParametersOf(e: Expr): set<Symbol>
  {
    WithTag(SymbolsOf(e), ParameterPrefix)
  }

  /** A symbol is a variable of `e` iff it is a leaf of `e` named with the
      variable prefix; likewise for parameters; and the two never meet. */
  lemma VariablesAndParameters(e: Expr, s: Symbol)
    ensures s in VariablesOf(e) <==> Occurs(s, e) && |s.name| >= 3 && s.name[..3] == VariablePrefix
    ensures s in ParametersOf(e) <==> Occurs(s, e) && |s.name| >= 3 && s.name[..3] == ParameterPrefix
    ensures !(s in VariablesOf(e) && s in ParametersOf(e))
  {
    SymbolsAreLeaves(e, s);
    ClassificationIsPrefix(s);
  }

  /** The loop of `getVariables`/`getParameters`: walk the symbol set and
      keep those carrying `tag`. */
  method KeepTagged(all: set<Symbol>, tag: string) returns (r: set<Symbol>)
    ensures r == WithTag(all, tag)
  {
    r := {};
    var rest := all;
    while rest != {}
      invariant rest <= all
      invariant r == WithTag(all - rest, tag)
      decreases |rest|
    {
      var s :| s in rest;
      if HasTag(s, tag) {
        r := r + {s};
      }
      rest := rest - {s};
    }
    assert all - rest == all;
  }

  /** `getVariables(basic)`. */
  method GetVariables(e: Expr) returns (r: set<Symbol>)
    ensures r == VariablesOf(e)
  {
    var all := GetSymbols(e);
    r := KeepTagged(all, VariablePrefix);
  }

  /** `getParameters(basic)`. */
  method GetParameters(e: Expr) returns (r: set<Symbol>)
    ensures r == ParametersOf(e)
  {
    var all := GetSymbols(e);
    r := KeepTagged(all, ParameterPrefix);
  }

  /** The tagged symbols of the entries visited before cell (row, col) in
      row-major order. */
  function TaggedBefore(m: Matrix, tag: string, row: nat, col: nat): set<Symbol>
    requires m.Shaped()
  {
    set i, j, s | 0 <= i < m.nrows && 0 <= j < m.ncols && (i < row || (i == row && j < col))
                  && s in WithTag(SymbolsOf(m.cells[i][j]), tag) :: s
  }

  /** The union over every entry of the entry's symbols carrying `tag`. */
  function TaggedInMatrix(m: Matrix, tag: string): set<Symbol>
    requires m.Shaped()
  {
    TaggedBefore(m, tag, m.nrows, 0)
  }

  lemma TaggedStep(m: Matrix, tag: string, row: nat, col: nat)
    requires m.Shaped() && row < m.nrows && col < m.ncols
    ensures TaggedBefore(m, tag, row, col + 1)
            == TaggedBefore(m, tag, row, col) + WithTag(SymbolsOf(m.Get(row, col)), tag)
  {
  }

  lemma TaggedNextRow(m: Matrix, tag: string, row: nat)
    requires m.Shaped() && row < m.nrows
    ensures TaggedBefore(m, tag, row, m.ncols) == TaggedBefore(m, tag, row + 1, 0)
  {
  }

  /** The nested loop of the matrix overloads: the union, entry by entry,
      of the tagged symbols. */
  method CollectTagged(m: Matrix, tag: string) returns (r: set<Symbol>)
    requires m.Shaped()
    ensures forall s :: s in r <==>
              exists i, j :: 0 <= i < m.nrows && 0 <= j < m.ncols &&
                             s in WithTag(SymbolsOf(m.Get(i, j)), tag)
  {
    r := {};
    var row := 0;
    while row < m.nrows
      invariant row <= m.nrows
      invariant r == TaggedBefore(m, tag, row, 0)
    {
      var col := 0;
      while col < m.ncols
        invariant col <= m.ncols
        invariant r == TaggedBefore(m, tag, row, col)
      {
        var entry := GetSymbols(m.Get(row, col));
        var tagged := KeepTagged(entry, tag);
        TaggedStep(m, tag, row, col);
        r := r + tagged;
        col := col + 1;
      }
      TaggedNextRow(m, tag, row);
      row := row + 1;
    }
    forall s | s in r
      ensures exists i, j :: 0 <= i < m.nrows && 0 <= j < m.ncols &&
                             s in WithTag(SymbolsOf(m.Get(i, j)), tag)
    {
      var i, j :| 0 <= i < m.nrows && 0 <= j < m.ncols && s in WithTag(SymbolsOf(m.cells[i][j]), tag);
      assert m.Get(i, j) == m.cells[i][j];
    }
  }

  /** `getVariables(matrix)`: every variable of every entry. */
  method GetVariablesOfMatrix(m: Matrix) returns (r: set<Symbol>)
    requires m.Shaped()
    ensures forall s :: s in r <==>
              exists i, j :: 0 <= i < m.nrows && 0 <= j < m.ncols && s in VariablesOf(m.Get(i, j))
  {
    r := CollectTagged(m, VariablePrefix);
  }

  /** `getParameters(matrix)`: every parameter of every entry. */
  method GetParametersOfMatrix(m: Matrix) returns (r: set<Symbol>)
    requires m.Shaped()
    ensures forall s :: s in r <==>
              exists i, j :: 0 <= i < m.nrows && 0 <= j < m.ncols && s in ParametersOf(m.Get(i, j))
  {
    r := CollectTagged(m, ParameterPrefix);
  }

  /** `util_union(base, other)`: `base` gains every symbol of `other`. */
  method UtilUnion(base: set<Symbol>, other: set<Symbol>) returns (r: set<Symbol>)
    ensures r == base + other
  {
    r := base;
    var rest := other;
    while rest != {}
      invariant rest <= other
      invariant r == base + (other - rest)
      decreases |rest|
    {
      var el :| el in rest;
      r := r + {el};
      rest := rest - {el};
    }
  }

  // Derivative matrices

  /** The n x 1 gradient of `f` over `vars`. */
  function GradientOf(alg: Algebra, f: Expr, vars: seq<Symbol>): (g: Matrix)
    ensures g.Shaped() && g.nrows == |vars| && g.ncols == 1
    ensures forall i :: 0 <= i < |vars| ==> g.Get(i, 0) == alg.diff(f, vars[i])
  {
    Matrix(|vars|, 1, seq(|vars|, i requires 0 <= i < |vars| => [alg.diff(f, vars[i])]))
  }

  /** The n x n Jacobian of the column `f` over `vars`. */
  function JacobianOf(alg: Algebra, f: Matrix, vars: seq<Symbol>): (j: Matrix)
    requires f.Shaped() && f.nrows >= |vars| && f.ncols >= 1
    ensures j.Shaped() && j.nrows == |vars| && j.ncols == |vars|
    ensures forall r, c :: 0 <= r < |vars| && 0 <= c < |vars| ==>
              j.Get(r, c) == alg.diff(f.Get(r, 0), vars[c])
  {
    Matrix(|vars|, |vars|, seq(|vars|, r requires 0 <= r < |vars| =>
      seq(|vars|, c requires 0 <= c < |vars| => alg.diff(f.Get(r, 0), vars[c]))))
  }

  /** The n x n Hessian of `f` over `vars`. */
  function HessianOf(alg: Algebra, f: Expr, vars: seq<Symbol>): (h: Matrix)
    ensures h.Shaped() && h.nrows == |vars| && h.ncols == |vars|
    ensures forall r, c :: 0 <= r < |vars| && 0 <= c < |vars| ==>
              h.Get(r, c) == alg.diff(alg.diff(f, vars[r]), vars[c])
  {
    Matrix(|vars|, |vars|, seq(|vars|, r requires 0 <= r < |vars| =>
      seq(|vars|, c requires 0 <= c < |vars| => alg.diff(alg.diff(f, vars[r]), vars[c]))))
  }

  /** The Hessian is the Jacobian of the gradient over the same ordering. */
  lemma HessianIsJacobianOfGradient(alg: Algebra, f: Expr, vars: seq<Symbol>)
    ensures HessianOf(alg, f, vars) == JacobianOf(alg, GradientOf(alg, f, vars), vars)
  {
    SameEntries(HessianOf(alg, f, vars), JacobianOf(alg, GradientOf(alg, f, vars), vars));
  }

  /** `gradient(basic, ordering)`: fills a fresh column entry by entry. */
  method Gradient(alg: Algebra, f: Expr, ordering: OrderedSet) returns (g: Matrix)
    ensures g == GradientOf(alg, f, ordering.elems)
  {
    var n := |ordering.elems|;
    g := Zeros(n, 1);
    var i := 0;
    while i < n
      invariant i <= n
      invariant g.Shaped() && g.nrows == n && g.ncols == 1
      invariant forall k :: 0 <= k < i ==> g.Get(k, 0) == alg.diff(f, ordering.elems[k])
    {
      g := g.Set(i, 0, alg.diff(f, ordering.elems[i]));
      i := i + 1;
    }
    SameEntries(g, GradientOf(alg, f, ordering.elems));
  }

  /** `jacobian(f, ordering)`: rows first, then columns. The source reads
      `f(row, 0)` for every row below the ordering's size, so `f` must have
      at least that many rows. */
  method Jacobian(alg: Algebra, f: Matrix, ordering: OrderedSet) returns (jac: Matrix)
    requires f.Shaped() && f.nrows >= |ordering.elems| && f.ncols >= 1
    ensures jac == JacobianOf(alg, f, ordering.elems)
  {
    var n := |ordering.elems|;
    jac := Zeros(n, n);
    var row := 0;
    while row < n
      invariant row <= n
      invariant jac.Shaped() && jac.nrows == n && jac.ncols == n
      invariant forall r, c :: 0 <= r < row && 0 <= c < n ==>
                  jac.Get(r, c) == alg.diff(f.Get(r, 0), ordering.elems[c])
    {
      var col := 0;
      while col < n
        invariant col <= n
        invariant jac.Shaped() && jac.nrows == n && jac.ncols == n
        invariant forall r, c :: 0 <= r < row && 0 <= c < n ==>
                    jac.Get(r, c) == alg.diff(f.Get(r, 0), ordering.elems[c])
        invariant forall c :: 0 <= c < col ==>
                    jac.Get(row, c) == alg.diff(f.Get(row, 0), ordering.elems[c])
      {
        jac := jac.Set(row, col, alg.diff(f.Get(row, 0), ordering.elems[col]));
        col := col + 1;
      }
      row := row + 1;
    }
    SameEntries(jac, JacobianOf(alg, f, ordering.elems));
  }

  /** `hessian(basic, ordering)`: entry (row, col) differentiates by the
      row symbol, then by the column symbol. */
  method Hessian(alg: Algebra, f: Expr, ordering: OrderedSet) returns (hess: Matrix)
    ensures hess == HessianOf(alg, f, ordering.elems)
  {
    var n := |ordering.elems|;
    hess := Zeros(n, n);
    var row := 0;
    while row < n
      invariant row <= n
      invariant hess.Shaped() && hess.nrows == n && hess.ncols == n
      invariant forall r, c :: 0 <= r < row && 0 <= c < n ==>
                  hess.Get(r, c) == alg.diff(alg.diff(f, ordering.elems[r]), ordering.elems[c])
    {
      var col := 0;
      while col < n
        invariant col <= n
        invariant hess.Shaped() && hess.nrows == n && hess.ncols == n
        invariant forall r, c :: 0 <= r < row && 0 <= c < n ==>
                    hess.Get(r, c) == alg.diff(alg.diff(f, ordering.elems[r]), ordering.elems[c])
        invariant forall c :: 0 <= c < col ==>
                    hess.Get(row, c) == alg.diff(alg.diff(f, ordering.elems[row]), ordering.elems[c])
      {
        var dRow := alg.diff(f, ordering.elems[row]);
        var dRowCol := alg.diff(dRow, ordering.elems[col]);
        hess := hess.Set(row, col, dRowCol);
        col := col + 1;
      }
      row := row + 1;
    }
    SameEntries(hess, HessianOf(alg, f, ordering.elems));
  }

  /** `expandAll(mat)`: every entry replaced by its expansion. The matrix
      is passed by reference in the source; here the updated matrix is
      returned. */
  method ExpandAll(alg: Algebra, mat: Matrix) returns (r: Matrix)
    requires mat.Shaped()
    ensures r.Shaped() && r.nrows == mat.nrows && r.ncols == mat.ncols
    ensures forall i, j :: 0 <= i < mat.nrows && 0 <= j < mat.ncols ==>
              r.Get(i, j) == alg.expand(mat.Get(i, j))
  {
    r := mat;
    var row := 0;
    while row < mat.nrows
      invariant row <= mat.nrows
      invariant r.Shaped() && r.nrows == mat.nrows && r.ncols == mat.ncols
      invariant forall i, j :: 0 <= i < mat.nrows && 0 <= j < mat.ncols ==>
                  r.Get(i, j) == if i < row then alg.expand(mat.Get(i, j)) else mat.Get(i, j)
    {
      var col := 0;
      while col < mat.ncols
        invariant col <= mat.ncols
        invariant r.Shaped() && r.nrows == mat.nrows && r.ncols == mat.ncols
        invariant forall i, j :: 0 <= i < mat.nrows && 0 <= j < mat.ncols ==>
                    r.Get(i, j) == if i < row || (i == row && j < col)
                                   then alg.expand(mat.Get(i, j)) else mat.Get(i, j)
      {
        r := r.Set(row, col, alg.expand(r.Get(row, col)));
        col := col + 1;
      }
      row := row + 1;
    }
  }
}
