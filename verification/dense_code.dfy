/** `CodeGenerator::generateDenseMatrixCode` (cppmpc/CodeGenerator.cpp): the
    C statements that fill an output buffer with the entries of a symbolic
    matrix, after checking that every variable and parameter in the matrix
    has a representation. */
module DenseCode {
  import opened Wrappers
  import opened Expressions
  import opened Matrices
  import opened Decimal
  import opened SymEngineUtilities

  const MissingVariableMessage := "A representation for a variable was not found"
  const MissingParameterMessage := "A representation for a parameter was not found"

  // ---------------------------------------------------------------------
  // The representation check

  /** The check of one entry: a variable without a representation is
      reported before a parameter without one. */
  function EntryMessage(e: Expr, variableRepr: map<Symbol, string>, parameterRepr: map<Symbol, string>)
    : Option<string>
  {
    if !(VariablesOf(e) <= variableRepr.Keys) then Some(MissingVariableMessage)
    else if !(ParametersOf(e) <= parameterRepr.Keys) then Some(MissingParameterMessage)
    else None
  }

  /** The first failing entry among columns `0 .. j-1` of row `i`. */
  function RowMessage(mat: Matrix, variableRepr: map<Symbol, string>, parameterRepr: map<Symbol, string>,
                      i: nat, j: nat): Option<string>
    requires mat.Shaped() && i < mat.nrows && j <= mat.ncols
  {
    if j == 0 then None
    else
      match RowMessage(mat, variableRepr, parameterRepr, i, j - 1)
      case Some(m) => Some(m)
      case None => EntryMessage(mat.Get(i, j - 1), variableRepr, parameterRepr)
  }

  /** The first failing entry, in row-major order, among rows `0 .. i-1`. */
  function CheckMessage(mat: Matrix, variableRepr: map<Symbol, string>, parameterRepr: map<Symbol, string>,
                        i: nat): Option<string>
    requires mat.Shaped() && i <= mat.nrows
  {
    if i == 0 then None
    else
      match CheckMessage(mat, variableRepr, parameterRepr, i - 1)
      case Some(m) => Some(m)
      case None => RowMessage(mat, variableRepr, parameterRepr, i - 1, mat.ncols)
  }

  /** Every symbol of the entries is represented. */
  ghost predicate Represented(mat: Matrix, variableRepr: map<Symbol, string>, parameterRepr: map<Symbol, string>,
                              i: nat, j: nat)
    requires mat.Shaped() && i < mat.nrows && j < mat.ncols
  {
    VariablesOf(mat.Get(i, j)) <= variableRepr.Keys && ParametersOf(mat.Get(i, j)) <= parameterRepr.Keys
  }

  lemma {:induction false} RowMessageMeaning(mat: Matrix, variableRepr: map<Symbol, string>,
                                             parameterRepr: map<Symbol, string>, i: nat, j: nat)
    requires mat.Shaped() && i < mat.nrows && j <= mat.ncols
    ensures RowMessage(mat, variableRepr, parameterRepr, i, j) == None <==>
              forall c :: 0 <= c < j ==> Represented(mat, variableRepr, parameterRepr, i, c)
    ensures RowMessage(mat, variableRepr, parameterRepr, i, j) in {None, Some(MissingVariableMessage), Some(MissingParameterMessage)}
  {
    if j > 0 {
      RowMessageMeaning(mat, variableRepr, parameterRepr, i, j - 1);
      assert EntryMessage(mat.Get(i, j - 1), variableRepr, parameterRepr) == None <==>
             Represented(mat, variableRepr, parameterRepr, i, j - 1);
    }
  }

  /** The check passes exactly when every variable and every parameter of
      every entry has a representation, and otherwise it reports one of the
      two messages. */
  lemma {:induction false} CheckMeaning(mat: Matrix, variableRepr: map<Symbol, string>,
                                        parameterRepr: map<Symbol, string>, i: nat)
    requires mat.Shaped() && i <= mat.nrows
    ensures CheckMessage(mat, variableRepr, parameterRepr, i) == None <==>
              forall r, c :: 0 <= r < i && 0 <= c < mat.ncols ==> Represented(mat, variableRepr, parameterRepr, r, c)
    ensures CheckMessage(mat, variableRepr, parameterRepr, i) in {None, Some(MissingVariableMessage), Some(MissingParameterMessage)}
  {
    if i > 0 {
      CheckMeaning(mat, variableRepr, parameterRepr, i - 1);
      RowMessageMeaning(mat, variableRepr, parameterRepr, i - 1, mat.ncols);
    }
  }

  /** Once an entry fails, the rest of the scan keeps its message. */
  lemma {:induction false} RowKeepsFirst(mat: Matrix, variableRepr: map<Symbol, string>,
                                         parameterRepr: map<Symbol, string>, i: nat, j: nat, k: nat)
    requires mat.Shaped() && i < mat.nrows && j <= k <= mat.ncols
    requires RowMessage(mat, variableRepr, parameterRepr, i, j).Some?
    ensures RowMessage(mat, variableRepr, parameterRepr, i, k) == RowMessage(mat, variableRepr, parameterRepr, i, j)
    decreases k
  {
    if k > j {
      RowKeepsFirst(mat, variableRepr, parameterRepr, i, j, k - 1);
    }
  }

  lemma {:induction false} CheckKeepsFirst(mat: Matrix, variableRepr: map<Symbol, string>,
                                           parameterRepr: map<Symbol, string>, i: nat, k: nat)
    requires mat.Shaped() && i <= k <= mat.nrows
    requires CheckMessage(mat, variableRepr, parameterRepr, i).Some?
    ensures CheckMessage(mat, variableRepr, parameterRepr, k) == CheckMessage(mat, variableRepr, parameterRepr, i)
    decreases k
  {
    if k > i {
      CheckKeepsFirst(mat, variableRepr, parameterRepr, i, k - 1);
    }
  }

  /** The loop over one entry's symbol sets. */
  method CheckEntry(e: Expr, variableRepr: map<Symbol, string>, parameterRepr: map<Symbol, string>)
    returns (message: Option<string>)
    ensures message == EntryMessage(e, variableRepr, parameterRepr)
  {
    var variables := GetVariables(e);
    var parameters := GetParameters(e);
    var rest := variables;
    while rest != {}
      invariant rest <= variables
      invariant variables - rest <= variableRepr.Keys
      decreases rest
    {
      var variable :| variable in rest;
      if variable !in variableRepr {
        return Some(MissingVariableMessage);
      }
      rest := rest - {variable};
    }
    rest := parameters;
    while rest != {}
      invariant rest <= parameters
      invariant parameters - rest <= parameterRepr.Keys
      decreases rest
    {
      var parameter :| parameter in rest;
      if parameter !in parameterRepr {
        return Some(MissingParameterMessage);
      }
      rest := rest - {parameter};
    }
    return None;
  }

  /** The nested loop over rows and columns that runs before any text is
      produced. */
  method CheckRepresentations(mat: Matrix, variableRepr: map<Symbol, string>, parameterRepr: map<Symbol, string>)
    returns (message: Option<string>)
    requires mat.Shaped()
    ensures message == CheckMessage(mat, variableRepr, parameterRepr, mat.nrows)
  {
    var i := 0;
    while i < mat.nrows
      invariant i <= mat.nrows
      invariant CheckMessage(mat, variableRepr, parameterRepr, i) == None
    {
      var j := 0;
      while j < mat.ncols
        invariant j <= mat.ncols
        invariant RowMessage(mat, variableRepr, parameterRepr, i, j) == None
      {
        message := CheckEntry(mat.Get(i, j), variableRepr, parameterRepr);
        if message.Some? {
          assert RowMessage(mat, variableRepr, parameterRepr, i, j + 1) == message;
          RowKeepsFirst(mat, variableRepr, parameterRepr, i, j + 1, mat.ncols);
          assert CheckMessage(mat, variableRepr, parameterRepr, i + 1) == message;
          CheckKeepsFirst(mat, variableRepr, parameterRepr, i + 1, mat.nrows);
          return;
        }
        j := j + 1;
      }
      i := i + 1;
    }
    return None;
  }

  // ---------------------------------------------------------------------
  // The replacement map

  /** `symbolsMap.insert(first, last)`: `std::map::insert` adds only the keys
      not yet present, so an existing entry is never overwritten. */
  method InsertAbsent(target: map<Symbol, string>, source: map<Symbol, string>) returns (r: map<Symbol, string>)
    ensures r.Keys == target.Keys + source.Keys
    ensures forall s :: s in target ==> r[s] == target[s]
    ensures forall s :: s in source && s !in target ==> r[s] == source[s]
  {
    r := target;
    var rest := source.Keys;
    while rest != {}
      invariant rest <= source.Keys
      invariant forall s :: s in r <==> s in target || (s in source && s !in rest)
      invariant forall s :: s in target ==> r[s] == target[s]
      invariant forall s :: s in source && s !in target && s !in rest ==> r[s] == source[s]
      decreases rest
    {
      var s :| s in rest;
      if s !in r {
        r := r[s := source[s]];
      }
      rest := rest - {s};
    }
    assert r.Keys == target.Keys + source.Keys;
  }

  /** The replacement map: each represented symbol becomes the symbol named
      by its representation, a variable's representation winning over a
      parameter's for the same symbol. */
  function ReplacementMap(variableRepr: map<Symbol, string>, parameterRepr: map<Symbol, string>)
    : (m: map<Symbol, Expr>)
    ensures m.Keys == variableRepr.Keys + parameterRepr.Keys
    ensures forall s :: s in variableRepr ==> m[s] == Sym(Symbol(variableRepr[s]))
    ensures forall s :: s in parameterRepr && s !in variableRepr ==> m[s] == Sym(Symbol(parameterRepr[s]))
  {
    map s | s in variableRepr.Keys + parameterRepr.Keys ::
      Sym(Symbol(if s in variableRepr then variableRepr[s] else parameterRepr[s]))
  }

  /** The merge of the two representation maps and the loop that turns
      every representation into a symbol. */
  method BuildReplacementMap(variableRepr: map<Symbol, string>, parameterRepr: map<Symbol, string>)
    returns (symbolsRepMap: map<Symbol, Expr>)
    ensures symbolsRepMap == ReplacementMap(variableRepr, parameterRepr)
  {
    var symbolsMap := InsertAbsent(map[], variableRepr);
    symbolsMap := InsertAbsent(symbolsMap, parameterRepr);
    symbolsRepMap := map[];
    var rest := symbolsMap.Keys;
    while rest != {}
      invariant rest <= symbolsMap.Keys
      invariant symbolsRepMap.Keys == symbolsMap.Keys - rest
      invariant forall s :: s in symbolsRepMap ==> symbolsRepMap[s] == Sym(Symbol(symbolsMap[s]))
      decreases rest
    {
      var s :| s in rest;
      symbolsRepMap := symbolsRepMap[s := Sym(Symbol(symbolsMap[s]))];
      rest := rest - {s};
    }
    ReplacementMapIs(variableRepr, parameterRepr, symbolsMap, symbolsRepMap);
  }

  /** A map that renames every key of the merged representations is the
      replacement map. */
  lemma ReplacementMapIs(variableRepr: map<Symbol, string>, parameterRepr: map<Symbol, string>,
                         symbolsMap: map<Symbol, string>, repMap: map<Symbol, Expr>)
    requires symbolsMap.Keys == variableRepr.Keys + parameterRepr.Keys
    requires forall s :: s in variableRepr ==> symbolsMap[s] == variableRepr[s]
    requires forall s :: s in parameterRepr && s !in variableRepr ==> symbolsMap[s] == parameterRepr[s]
    requires repMap.Keys == symbolsMap.Keys
    requires forall s :: s in repMap ==> repMap[s] == Sym(Symbol(symbolsMap[s]))
    ensures repMap == ReplacementMap(variableRepr, parameterRepr)
  {
  }

  // ---------------------------------------------------------------------
  // The emitted text

  /** The printed form of one entry: its symbols replaced, expanded and
      printed as C. */
  function EntryCode(alg: Algebra, e: Expr, repMap: map<Symbol, Expr>): string
  {
    alg.ccode(alg.expand(alg.xreplace(e, repMap)))
  }

  /** One emitted statement: `name[k] = code;` and a newline. */
  function Line(name: string, k: nat, code: string): string
  {
    name + "[" + NatToString(k) + "] = " + code + ";\n"
  }

  lemma MulSucc(n: nat, a: nat)
    ensures n * (a + 1) == n * a + n
  {
  }

  /** Multiplication by a natural number is monotonic. */
  lemma {:induction false} MulLe(n: nat, a: nat, b: nat)
    ensures a <= b ==> n * a <= n * b
    decreases if a < b then b - a else 0
  {
    if a < b {
      MulLe(n, a + 1, b);
      MulSucc(n, a);
    }
  }

  /** Division by the row count recovers the column and row of a
      column-major index. */
  lemma ColumnMajorIndex(col: nat, row: nat, nrows: nat)
    requires row < nrows
    ensures (col * nrows + row) / nrows == col && (col * nrows + row) % nrows == row
  {
    var k := col * nrows + row;
    var q := k / nrows;
    assert k == nrows * q + k % nrows;
    assert col * nrows == nrows * col;
    MulLe(nrows, col + 1, q);
    MulSucc(nrows, col);
    MulLe(nrows, q + 1, col);
    MulSucc(nrows, q);
  }

  lemma ColumnMajorBound(k: nat, nrows: nat, ncols: nat)
    requires k < nrows * ncols
    ensures nrows > 0 && k % nrows < nrows && k / nrows < ncols
  {
    assert nrows == 0 ==> nrows * ncols == 0;
    assert k == nrows * (k / nrows) + k % nrows;
    MulLe(nrows, ncols, k / nrows);
  }

  /** The statements in emission order: statement `k` fills entry
      `(k % nrows, k / nrows)`. */
  function CodeLines(alg: Algebra, mat: Matrix, name: string, repMap: map<Symbol, Expr>): (lines: seq<string>)
    requires mat.Shaped()
    ensures |lines| == mat.nrows * mat.ncols
  {
    seq(mat.nrows * mat.ncols, k requires 0 <= k < mat.nrows * mat.ncols =>
      ColumnMajorBound(k, mat.nrows, mat.ncols);
      Line(name, k, EntryCode(alg, mat.Get(k % mat.nrows, k / mat.nrows), repMap)))
  }

  /** Column-major numbering: entry `(row, col)` is written by the
      statement numbered `col * nrows + row`, and there is exactly one
      statement per entry. */
  lemma ColumnMajorNumbering(alg: Algebra, mat: Matrix, name: string, repMap: map<Symbol, Expr>, row: nat, col: nat)
    requires mat.Shaped() && row < mat.nrows && col < mat.ncols
    ensures col * mat.nrows + row < |CodeLines(alg, mat, name, repMap)|
    ensures CodeLines(alg, mat, name, repMap)[col * mat.nrows + row]
            == Line(name, col * mat.nrows + row, EntryCode(alg, mat.Get(row, col), repMap))
  {
    ColumnMajorIndex(col, row, mat.nrows);
    MulLe(mat.nrows, col + 1, mat.ncols);
    MulSucc(mat.nrows, col);
    assert col * mat.nrows == mat.nrows * col && mat.nrows * mat.ncols == mat.ncols * mat.nrows;
  }

  /** The concatenation of a list of strings. */
  function Join(lines: seq<string>): string
    decreases |lines|
  {
    if lines == [] then "" else Join(lines[..|lines| - 1]) + lines[|lines| - 1]
  }

  lemma JoinPrefix(lines: seq<string>, k: nat)
    requires k < |lines|
    ensures Join(lines[..k + 1]) == Join(lines[..k]) + lines[k]
  {
    assert lines[..k + 1][..k] == lines[..k];
  }

  /** What `generateDenseMatrixCode` returns: the representation check's
      message, or the statements for every entry in column-major order. */
  function DenseMatrixCode(alg: Algebra, mat: Matrix, variableRepr: map<Symbol, string>,
                           parameterRepr: map<Symbol, string>, name: string): Result<string>
    requires mat.Shaped()
  {
    match CheckMessage(mat, variableRepr, parameterRepr, mat.nrows)
    case Some(m) => Err(RuntimeError(m))
    case None => Ok(Join(CodeLines(alg, mat, name, ReplacementMap(variableRepr, parameterRepr))))
  }

  /** The inner loop over the rows of one column: one statement per entry,
      numbered by the running count. */
  method EmitColumn(alg: Algebra, mat: Matrix, name: string, symbolsRepMap: map<Symbol, Expr>, col: nat,
                    ss: string, count: nat)
    returns (ss': string, count': nat)
    requires mat.Shaped() && col < mat.ncols && count == mat.nrows * col
    requires ss == Join(CodeLines(alg, mat, name, symbolsRepMap)[..count])
    ensures count' == count + mat.nrows && count' <= mat.nrows * mat.ncols
    ensures ss' == Join(CodeLines(alg, mat, name, symbolsRepMap)[..count'])
  {
    ghost var lines := CodeLines(alg, mat, name, symbolsRepMap);
    MulLe(mat.nrows, col + 1, mat.ncols);
    MulSucc(mat.nrows, col);
    ss', count' := ss, count;
    var row := 0;
    while row < mat.nrows
      invariant row <= mat.nrows && count' == mat.nrows * col + row
      invariant ss' == Join(lines[..count'])
    {
      var replaced := alg.expand(alg.xreplace(mat.Get(row, col), symbolsRepMap));
      ColumnMajorNumbering(alg, mat, name, symbolsRepMap, row, col);
      assert col * mat.nrows == mat.nrows * col;
      JoinPrefix(lines, count');
      ss' := ss' + (name + "[" + NatToString(count') + "] = " + alg.ccode(replaced) + ";\n");
      count' := count' + 1;
      row := row + 1;
    }
  }

  /** The outer loop over the columns: every entry's statement, in
      column-major order. */
  method EmitColumns(alg: Algebra, mat: Matrix, name: string, symbolsRepMap: map<Symbol, Expr>)
    returns (ss: string)
    requires mat.Shaped()
    ensures ss == Join(CodeLines(alg, mat, name, symbolsRepMap))
  {
    ghost var lines := CodeLines(alg, mat, name, symbolsRepMap);
    ss := "";
    var count := 0;
    var col := 0;
    while col < mat.ncols
      invariant col <= mat.ncols && count == mat.nrows * col
      invariant count <= |lines|
      invariant ss == Join(lines[..count])
    {
      ss, count := EmitColumn(alg, mat, name, symbolsRepMap, col, ss, count);
      MulSucc(mat.nrows, col);
      col := col + 1;
    }
    assert count == |lines|;
    assert lines[..count] == lines;
  }

  /** `generateDenseMatrixCode(mat, variableRepr, parameterRepr, name)`. */
  method GenerateDenseMatrixCode(alg: Algebra, mat: Matrix, variableRepr: map<Symbol, string>,
                                 parameterRepr: map<Symbol, string>, name: string)
    returns (r: Result<string>)
    requires mat.Shaped()
    ensures r == DenseMatrixCode(alg, mat, variableRepr, parameterRepr, name)
  {
    var message := CheckRepresentations(mat, variableRepr, parameterRepr);
    if message.Some? {
      return Err(RuntimeError(message.value));
    }
    var symbolsRepMap := BuildReplacementMap(variableRepr, parameterRepr);
    var ss := EmitColumns(alg, mat, name, symbolsRepMap);
    return Ok(ss);
  }
}
