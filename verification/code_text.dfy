/** The textual pieces of the code generator (cppmpc/CodeGenerator.cpp and
    src/CodeGenerator.cpp): the names that stand for variables and
    parameters in generated C, the function signatures, and the layout of
    the generated source file. */
module CodeText {
  import opened Wrappers
  import opened Expressions
  import opened Matrices
  import opened OrderedSets
  import opened Decimal
  import opened DenseCode

  // ---------------------------------------------------------------------
  // Representation names

  /** The C expression for entry `k` of the buffer `tag`: `tag[k]`. */
  function ReprName(tag: string, k: nat): string
  {
    tag + "[" + NatToString(k) + "]"
  }

  const StateBuffer := "state"
  const ParamBuffer := "param"

  /** Different indices into one buffer print differently, and a state
      name is never a parameter name. */
  lemma ReprNamesDiffer(tag: string, i: nat, tag': string, j: nat)
    requires tag == tag' ==> i != j
    requires |tag| == |tag'|
    ensures ReprName(tag, i) != ReprName(tag', j)
  {
    if ReprName(tag, i) == ReprName(tag', j) {
      assert tag == ReprName(tag, i)[..|tag|];
      assert tag' == ReprName(tag', j)[..|tag'|];
      var a, b := NatToString(i), NatToString(j);
      var n := ReprName(tag, i);
      assert n[|tag| + 1..|n| - 1] == a;
      assert n[|tag| + 1..|n| - 1] == b;
      PrintingIsInjective(i, j);
    }
  }

  /** The representation map built for a set of symbols: every symbol named
      after its position in the ordering. `indexOf` of a symbol missing from
      the ordering fails with out_of_range (a `std::map::at` lookup). */
  function Representations(syms: set<Symbol>, ordering: seq<Symbol>, tag: string)
    : (r: Result<map<Symbol, string>>)
    ensures r.Ok? <==> syms <= Elements(ordering)
    ensures r.Err? ==> r.error == OutOfRange
    ensures r.Ok? ==> r.value.Keys == syms
    ensures r.Ok? ==> forall s :: s in syms ==>
              exists k :: 0 <= k < |ordering| && ordering[k] == s && r.value[s] == ReprName(tag, k)
  {
    if syms <= Elements(ordering) then
      var m := map s | s in syms && s in ordering :: ReprName(tag, FirstIndex(ordering, s));
      assert forall s :: s in syms ==> s in ordering;
      Ok(m)
    else Err(OutOfRange)
  }

  /** Over a duplicate-free ordering, no two symbols share a representation. */
  lemma RepresentationsInjective(syms: set<Symbol>, ordering: seq<Symbol>, tag: string, s: Symbol, t: Symbol)
    requires Distinct(ordering)
    requires Representations(syms, ordering, tag).Ok?
    requires s in syms && t in syms && s != t
    ensures Representations(syms, ordering, tag).value[s] != Representations(syms, ordering, tag).value[t]
  {
    var r := Representations(syms, ordering, tag).value;
    var i :| 0 <= i < |ordering| && ordering[i] == s && r[s] == ReprName(tag, i);
    var j :| 0 <= j < |ordering| && ordering[j] == t && r[t] == ReprName(tag, j);
    ReprNamesDiffer(tag, i, tag, j);
  }

  /** The loop that fills a representation map with `tag[indexOf(s)]`. */
  method BuildRepresentations(syms: set<Symbol>, ordering: OrderedSet, tag: string)
    returns (r: Result<map<Symbol, string>>)
    requires ordering.Valid()
    ensures r == Representations(syms, ordering.elems, tag)
  {
    ConsistentMeansDistinct(ordering.elems, ordering.index);
    var repr: map<Symbol, string> := map[];
    var rest := syms;
    while rest != {}
      invariant rest <= syms
      invariant repr.Keys == syms - rest
      invariant forall s :: s in repr ==>
                  s in ordering.elems && repr[s] == ReprName(tag, FirstIndex(ordering.elems, s))
      decreases rest
    {
      var s :| s in rest;
      var k := ordering.IndexOf(s);
      if k.Err? {
        assert s !in Elements(ordering.elems);
        return Err(OutOfRange);
      }
      assert k.value == FirstIndex(ordering.elems, s);
      repr := repr[s := ReprName(tag, k.value)];
      rest := rest - {s};
    }
    RepresentationsAre(syms, ordering.elems, tag, repr);
    r := Ok(repr);
  }

  lemma RepresentationsAre(syms: set<Symbol>, ordering: seq<Symbol>, tag: string, repr: map<Symbol, string>)
    requires repr.Keys == syms
    requires forall s :: s in repr ==> s in ordering && repr[s] == ReprName(tag, FirstIndex(ordering, s))
    ensures Representations(syms, ordering, tag) == Ok(repr)
  {
    assert syms <= Elements(ordering);
    var m := map s | s in syms && s in ordering :: ReprName(tag, FirstIndex(ordering, s));
    assert m == repr;
  }

  // ---------------------------------------------------------------------
  // Function text

  /** The signature of a generated objective or barrier function, which reads
      the state and the parameters. */
  function StateSignature(name: string): string
  {
    "void " + name + "(const double* state, const double* param, double* out) {\n"
  }

  /** The signature of a generated equality-constraint function, which reads
      only the parameters. */
  function ParamSignature(name: string): string
  {
    "void " + name + "(const double* param, double* out) {\n"
  }

  /** A generated function: the signature, the statements and a closing
      brace; an error of the statements is the error of the function. */
  function FunctionText(signature: string, code: Result<string>): (r: Result<string>)
    ensures r.Err? <==> code.Err?
    ensures r.Err? ==> r.error == code.error
    ensures r.Ok? ==> |r.value| >= |signature| + 2
    ensures r.Ok? ==> r.value[..|signature|] == signature && r.value[|r.value| - 2..] == "}\n"
    ensures r.Ok? ==> r.value[|signature|..|r.value| - 2] == code.value
  {
    match code
    case Err(e) => Err(e)
    case Ok(body) => Ok(signature + body + "}\n")
  }

  /** One generated function: the signature, then the matrix statements,
      then the closing brace. */
  method GenerateFunction(alg: Algebra, signature: string, mat: Matrix, variableRepr: map<Symbol, string>,
                          parameterRepr: map<Symbol, string>)
    returns (r: Result<string>)
    requires mat.Shaped()
    ensures r == FunctionText(signature, DenseMatrixCode(alg, mat, variableRepr, parameterRepr, "out"))
  {
    var ss := signature;
    var code := GenerateDenseMatrixCode(alg, mat, variableRepr, parameterRepr, "out");
    if code.Err? {
      return Err(code.error);
    }
    ss := ss + code.value;
    ss := ss + "}\n";
    return Ok(ss);
  }

  // ---------------------------------------------------------------------
  // The generated file

  const IncludeLine := "#include \"math.h\"\n"
  const GuardLine := "#ifdef __cplusplus\n"
  const ExternOpenLine := "extern \"C\" {\n"
  const ExternCloseLine := "}\n"
  const EndGuardLine := "#endif\n"

  /** The include, then `extern "C" {` between the C++ guards, then a blank
      line. */
  const FileHeader := IncludeLine + GuardLine + ExternOpenLine + EndGuardLine + "\n"
  /** The closing brace between the C++ guards. */
  const FileFooter := GuardLine + ExternCloseLine + EndGuardLine

  /** Every function followed by two newlines, in order. */
  function FunctionBlocks(functions: seq<string>): string
    decreases |functions|
  {
    if functions == [] then ""
    else FunctionBlocks(functions[..|functions| - 1]) + functions[|functions| - 1] + "\n\n"
  }

  /** The text of the file: the include, the opening of the `extern "C"`
      block, the functions, and the closing of the block. */
  function FileText(functions: seq<string>): (text: string)
    ensures |text| == |FileHeader| + |FunctionBlocks(functions)| + |FileFooter|
    ensures text[..|FileHeader|] == FileHeader
    ensures text[|text| - |FileFooter|..] == FileFooter
    ensures text[|FileHeader|..|text| - |FileFooter|] == FunctionBlocks(functions)
  {
    FileHeader + FunctionBlocks(functions) + FileFooter
  }

  /** The blocks of two lists of functions are the blocks of each, one
      after the other. */
  lemma {:induction false} BlocksAppend(a: seq<string>, b: seq<string>)
    ensures FunctionBlocks(a + b) == FunctionBlocks(a) + FunctionBlocks(b)
    decreases |b|
  {
    if b == [] {
      assert a + b == a;
    } else {
      assert (a + b)[..|a + b| - 1] == a + b[..|b| - 1];
      BlocksAppend(a, b[..|b| - 1]);
    }
  }

  /** The opening lines: the include and the start of the `extern "C"`
      block, then a blank line. */
  method OpenFileText() returns (ss: string)
    ensures ss == FileHeader
  {
    ss := IncludeLine;
    ss := ss + GuardLine;
    ss := ss + ExternOpenLine;
    ss := ss + EndGuardLine + "\n";
  }

  /** The closing lines of the `extern "C"` block. */
  method CloseFileText(ss: string) returns (ss': string)
    ensures ss' == ss + FileFooter
  {
    ss' := ss + GuardLine;
    ss' := ss' + ExternCloseLine;
    ss' := ss' + EndGuardLine;
  }

  /** The text `writeFunctionsToFile` builds before writing it out. */
  method FunctionsFileText(functionStrings: seq<string>) returns (ss: string)
    ensures ss == FileText(functionStrings)
  {
    ss := OpenFileText();
    var i := 0;
    while i < |functionStrings|
      invariant i <= |functionStrings|
      invariant ss == FileHeader + FunctionBlocks(functionStrings[..i])
    {
      assert functionStrings[..i + 1][..i] == functionStrings[..i];
      ghost var blocks := FunctionBlocks(functionStrings[..i]);
      assert FunctionBlocks(functionStrings[..i + 1]) == blocks + functionStrings[i] + "\n\n";
      assert FileHeader + (blocks + functionStrings[i] + "\n\n") == ss + functionStrings[i] + "\n\n";
      ss := ss + functionStrings[i] + "\n\n";
      i := i + 1;
    }
    assert functionStrings[..i] == functionStrings;
    ss := CloseFileText(ss);
  }
}
