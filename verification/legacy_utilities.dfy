/** The older symbol-vector builders of src/SymEngineUtilities.cpp. They
    size the vector with `vec(num)`, which already holds `num` null
    pointers, and then `push_back` the `num` symbols after them. A null
    `RCP` is `None` here. The remaining helpers of that file (naming, prefix
    filters, gradient, Hessian, expandAll, util_union) are the ones of
    module SymEngineUtilities. */
module LegacyUtilities {
  import opened Wrappers
  import opened Expressions
  import opened Decimal
  import opened SymEngineUtilities

  /** The legacy name of entry `i`: the index appended without brackets. */
  function LegacyName(base: string, i: nat): string
  {
    base + NatToString(i)
  }

  lemma LegacyNamesDiffer(base: string, i: nat, j: nat)
    requires i != j
    ensures LegacyName(base, i) != LegacyName(base, j)
  {
    if LegacyName(base, i) == LegacyName(base, j) {
      assert NatToString(i) == LegacyName(base, i)[|base|..];
      assert NatToString(j) == LegacyName(base, j)[|base|..];
      PrintingIsInjective(i, j);
    }
  }

  function Named(base: string, i: nat, variables: bool): Symbol
  {
    if variables then Variable(LegacyName(base, i)) else Parameter(LegacyName(base, i))
  }

  /** What the as-written builders return: `num` null entries followed by
      the `num` named symbols. */
  function AsWrittenVector(base: string, num: nat, variables: bool): seq<Option<Symbol>>
  {
    seq(num, _ => None) + seq(num, i requires 0 <= i < num => Some(Named(base, i, variables)))
  }

  /** The shared loop: start from `num` null entries and push one symbol
      per index after them. */
  method PushAfterNulls(base: string, num: nat, variables: bool) returns (vec: seq<Option<Symbol>>)
    ensures vec == AsWrittenVector(base, num, variables)
  {
    vec := seq(num, _ => None);
    var i := 0;
    while i < num
      invariant i <= num && |vec| == num + i
      invariant forall k :: 0 <= k < num ==> vec[k] == None
      invariant forall k :: 0 <= k < i ==> vec[num + k] == Some(Named(base, k, variables))
    {
      vec := vec + [Some(Named(base, i, variables))];
      i := i + 1;
    }
  }

  /** `variableVector(base, num)` as written. */
  method LegacyVariableVector(base: string, num: nat) returns (vec: seq<Option<Symbol>>)
    ensures |vec| == 2 * num
    ensures forall i :: 0 <= i < num ==> vec[i] == None
    ensures forall i :: 0 <= i < num ==> vec[num + i] == Some(Variable(LegacyName(base, i)))
  {
    vec := PushAfterNulls(base, num, true);
  }

  /** `parameterVector(base, num)` as written. */
  method LegacyParameterVector(base: string, num: nat) returns (vec: seq<Option<Symbol>>)
    ensures |vec| == 2 * num
    ensures forall i :: 0 <= i < num ==> vec[i] == None
    ensures forall i :: 0 <= i < num ==> vec[num + i] == Some(Parameter(LegacyName(base, i)))
  {
    vec := PushAfterNulls(base, num, false);
  }

  /** Whenever at least one entry is requested, the as-written builders
      return twice as many, and the first is null. */
  lemma AsWrittenHasNulls(base: string, num: nat, variables: bool)
    requires num >= 1
    ensures |AsWrittenVector(base, num, variables)| != num
    ensures AsWrittenVector(base, num, variables)[0] == None
  {
  }

  /** The evidently intended builder (reserve, then push): exactly `num`
      distinct symbols, entry `i` named `base` followed by `i`. */
  method IntendedLegacyVector(base: string, num: nat, variables: bool) returns (vec: seq<Symbol>)
    ensures |vec| == num
    ensures forall i :: 0 <= i < num ==>
              vec[i] == Named(base, i, variables)
    ensures forall i, j :: 0 <= i < j < num ==> vec[i] != vec[j]
  {
    vec := [];
    var i := 0;
    while i < num
      invariant i <= num && |vec| == i
      invariant forall k :: 0 <= k < i ==>
                  vec[k] == Named(base, k, variables)
    {
      vec := vec + [Named(base, i, variables)];
      i := i + 1;
    }
    forall j, k | 0 <= j < k < num
      ensures vec[j] != vec[k]
    {
      LegacyNamesDiffer(base, j, k);
      if variables {
        assert vec[j].name[3..] != vec[k].name[3..];
      } else {
        assert vec[j].name[3..] != vec[k].name[3..];
      }
    }
  }
}
