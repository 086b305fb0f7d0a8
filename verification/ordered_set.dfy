/** OrderedSet: an insertion-ordered, duplicate-free sequence of symbols,
    kept as a vector and a symbol-to-position map updated in lockstep. */
module OrderedSets {
  import opened Wrappers
  import opened Expressions

  predicate Distinct<T(==)>(s: seq<T>)
  {
    forall i, j :: 0 <= i < j < |s| ==> s[i] != s[j]
  }

  function Elements<T>(s: seq<T>): set<T>
  {
    set x | x in s
  }

  /** What `isConsistent` checks: the map has as many entries as the vector,
      and maps the element at each position back to that position. */
  predicate Consistent(elems: seq<Symbol>, index: map<Symbol, nat>)
  {
    && |index| == |elems|
    && forall i :: 0 <= i < |elems| ==> elems[i] in index && index[elems[i]] == i
  }

  // ---------------------------------------------------------------------
  // The operations on the element sequence, as values

  /** `append`: a no-op for a symbol already present. */
  function AppendValue(s: seq<Symbol>, x: Symbol): seq<Symbol>
  {
    if x in s then s else s + [x]
  }

  /** `insert(i, x)`: a no-op for a symbol already present, otherwise `x`
      lands at position `i` and the elements from `i` on move right. */
  function InsertValue(s: seq<Symbol>, i: nat, x: Symbol): seq<Symbol>
    requires x in s || i <= |s|
  {
    if x in s then s else s[..i] + [x] + s[i..]
  }

  /** `remove(i)`: the element at `i` goes, later elements move left. */
  function RemoveValue(s: seq<Symbol>, i: nat): seq<Symbol>
    requires i < |s|
  {
    s[..i] + s[i + 1..]
  }

  /** `unionWith(t)`: `t`'s elements appended one by one, in `t`'s order. */
  function UnionValue(s: seq<Symbol>, t: seq<Symbol>): seq<Symbol>
    decreases |t|
  {
    if t == [] then s else AppendValue(UnionValue(s, t[..|t| - 1]), t[|t| - 1])
  }

  /** `a.isSubset(b)`: every element of the argument `b` is in `a`. */
  predicate SubsetValue(a: seq<Symbol>, b: seq<Symbol>)
  {
    forall k :: 0 <= k < |b| ==> b[k] in a
  }

  /** The position at which `x` first appears in `xs`. */
  function FirstIndex(xs: seq<Symbol>, x: Symbol): (k: nat)
    requires x in xs
    ensures k < |xs| && xs[k] == x && x !in xs[..k]
    decreases |xs|
  {
    if x in xs[..|xs| - 1] then FirstIndex(xs[..|xs| - 1], x) else |xs| - 1
  }

  // ---------------------------------------------------------------------
  // Facts about the representation

  lemma {:induction false} DistinctCardinality<T>(s: seq<T>)
    requires Distinct(s)
    ensures |Elements(s)| == |s|
    decreases |s|
  {
    if s != [] {
      var init := s[..|s| - 1];
      assert Distinct(init);
      DistinctCardinality(init);
      assert Elements(s) == Elements(init) + {s[|s| - 1]};
      assert s[|s| - 1] !in Elements(init);
    }
  }

  lemma SubsetOfEqualSize<T>(a: set<T>, b: set<T>)
    requires a <= b && |a| == |b|
    ensures a == b
  {
    var d := b - a;
    assert b == a + d && a * d == {};
    assert |d| == 0;
  }

  /** A consistent pair has no duplicate symbol, and the map's keys are
      exactly the vector's elements. */
  lemma ConsistentMeansDistinct(elems: seq<Symbol>, index: map<Symbol, nat>)
    requires Consistent(elems, index)
    ensures Distinct(elems)
    ensures index.Keys == Elements(elems)
  {
    forall i, j | 0 <= i < j < |elems| ensures elems[i] != elems[j] {
      assert index[elems[i]] == i && index[elems[j]] == j;
    }
    DistinctCardinality(elems);
    assert Elements(elems) <= index.Keys;
    SubsetOfEqualSize(Elements(elems), index.Keys);
  }

  /** A duplicate-free vector and a map that agrees with it on every
      position and has no other key are consistent. */
  lemma DistinctIsConsistent(elems: seq<Symbol>, index: map<Symbol, nat>)
    requires Distinct(elems) && index.Keys == Elements(elems)
    requires forall i :: 0 <= i < |elems| ==> index[elems[i]] == i
    ensures Consistent(elems, index)
  {
    DistinctCardinality(elems);
    assert |index.Keys| == |index|;
  }

  // ---------------------------------------------------------------------
  // Facts about the value-level operations

  lemma {:induction false} UnionKeepsPresent(s: seq<Symbol>, t: seq<Symbol>)
    requires forall x :: x in t ==> x in s
    ensures UnionValue(s, t) == s
    decreases |t|
  {
    if t != [] {
      UnionKeepsPresent(s, t[..|t| - 1]);
    }
  }

  lemma AppendFacts(s: seq<Symbol>, x: Symbol)
    requires Distinct(s)
    ensures Distinct(AppendValue(s, x))
    ensures Elements(AppendValue(s, x)) == Elements(s) + {x}
    ensures |s| <= |AppendValue(s, x)| && AppendValue(s, x)[..|s|] == s
  {
  }

  /** `unionWith` keeps the receiver's elements in front, stays free of
      duplicates and ends with the union of both element sets. */
  lemma {:induction false} UnionFacts(s: seq<Symbol>, t: seq<Symbol>)
    requires Distinct(s)
    ensures Distinct(UnionValue(s, t))
    ensures Elements(UnionValue(s, t)) == Elements(s) + Elements(t)
    ensures |s| <= |UnionValue(s, t)| && UnionValue(s, t)[..|s|] == s
    decreases |t|
  {
    if t != [] {
      var init := t[..|t| - 1];
      var u := UnionValue(s, init);
      UnionFacts(s, init);
      AppendFacts(u, t[|t| - 1]);
      assert Elements(t) == Elements(init) + {t[|t| - 1]};
      assert UnionValue(s, t)[..|u|] == u;
      assert u[..|s|] == s;
    }
  }

  /** A second identical `unionWith` changes nothing. */
  lemma UnionIdempotent(s: seq<Symbol>, t: seq<Symbol>)
    ensures UnionValue(UnionValue(s, t), t) == UnionValue(s, t)
  {
    UnionMember(s, t);
    UnionKeepsPresent(UnionValue(s, t), t);
  }

  lemma {:induction false} UnionMember(s: seq<Symbol>, t: seq<Symbol>)
    ensures forall x :: x in t ==> x in UnionValue(s, t)
    ensures forall x :: x in s ==> x in UnionValue(s, t)
    decreases |t|
  {
    if t != [] {
      var init := t[..|t| - 1];
      UnionMember(s, init);
      forall x | x in t ensures x in UnionValue(s, t) {
        if x != t[|t| - 1] {
          var k :| 0 <= k < |t| && t[k] == x;
          assert init[k] == x;
        }
      }
    }
  }

  /** After `unionWith` the size is that of the union of the two sets. */
  lemma UnionSize(s: seq<Symbol>, t: seq<Symbol>)
    requires Distinct(s)
    ensures |UnionValue(s, t)| == |Elements(s) + Elements(t)|
  {
    UnionFacts(s, t);
    DistinctCardinality(UnionValue(s, t));
  }

  /** Appending a sequence of symbols to an empty set keeps each distinct
      symbol once, in the order of its first appearance. */
  lemma {:induction false} AppendsKeepFirstAppearance(xs: seq<Symbol>)
    ensures Distinct(UnionValue([], xs))
    ensures Elements(UnionValue([], xs)) == Elements(xs)
    ensures forall i, j :: 0 <= i < j < |UnionValue([], xs)| ==>
              && UnionValue([], xs)[i] in xs && UnionValue([], xs)[j] in xs
              && FirstIndex(xs, UnionValue([], xs)[i]) < FirstIndex(xs, UnionValue([], xs)[j])
    decreases |xs|
  {
    UnionFacts([], xs);
    if xs != [] {
      var ys := xs[..|xs| - 1];
      var x := xs[|xs| - 1];
      var r' := UnionValue([], ys);
      AppendsKeepFirstAppearance(ys);
      assert Elements(xs) == Elements(ys) + {x};
      forall y | y in ys ensures FirstIndex(xs, y) == FirstIndex(ys, y) {
      }
      forall i | 0 <= i < |r'| ensures r'[i] in ys {
        assert r'[i] in Elements(r');
      }
      if x !in r' {
        assert x !in ys;
        assert FirstIndex(xs, x) == |ys|;
      }
    }
  }

  /** `remove(i)` of a duplicate-free sequence: the removed symbol is gone,
      earlier elements stay, later ones move down one place. */
  lemma RemoveFacts(s: seq<Symbol>, i: nat)
    requires Distinct(s) && i < |s|
    ensures |RemoveValue(s, i)| == |s| - 1
    ensures s[i] !in RemoveValue(s, i)
    ensures forall j :: 0 <= j < i ==> RemoveValue(s, i)[j] == s[j]
    ensures forall j :: i <= j < |s| - 1 ==> RemoveValue(s, i)[j] == s[j + 1]
    ensures Distinct(RemoveValue(s, i))
  {
  }

  /** `insert(i, x)` of a new symbol puts it at `i` and shifts the rest. */
  lemma InsertFacts(s: seq<Symbol>, i: nat, x: Symbol)
    requires Distinct(s) && x !in s && i <= |s|
    ensures |InsertValue(s, i, x)| == |s| + 1
    ensures InsertValue(s, i, x)[i] == x
    ensures forall j :: 0 <= j < i ==> InsertValue(s, i, x)[j] == s[j]
    ensures forall j :: i <= j < |s| ==> InsertValue(s, i, x)[j + 1] == s[j]
    ensures Distinct(InsertValue(s, i, x))
  {
  }

  /** isSubset is reflexive, and two sets each containing the other have
      the same elements. */
  lemma SubsetOrder(a: seq<Symbol>, b: seq<Symbol>)
    ensures SubsetValue(a, a)
    ensures SubsetValue(a, b) && SubsetValue(b, a) ==> Elements(a) == Elements(b)
  {
  }

  /** One step of the re-indexing loops of `insert` and `remove`. */
  lemma ReindexStep(v: seq<Symbol>, m: map<Symbol, nat>, k: nat)
    requires Distinct(v) && k < |v|
    requires m.Keys == Elements(v)
    requires forall j :: 0 <= j < k ==> v[j] in m && m[v[j]] == j
    ensures m[v[k] := k].Keys == Elements(v)
    ensures forall j :: 0 <= j < k + 1 ==> v[j] in m[v[k] := k] && m[v[k] := k][v[j]] == j
  {
  }

  lemma InsertElements(s: seq<Symbol>, i: nat, el: Symbol)
    requires el !in s && i <= |s|
    ensures Elements(InsertValue(s, i, el)) == Elements(s) + {el}
  {
    var v := InsertValue(s, i, el);
    assert v == s[..i] + [el] + s[i..];
    assert s == s[..i] + s[i..];
  }

  /** Before re-indexing in `insert`, the positions in front of the new
      symbol are already right. */
  lemma InsertStart(elems: seq<Symbol>, index: map<Symbol, nat>, i: nat, el: Symbol)
    requires Consistent(elems, index) && el !in elems && i <= |elems|
    ensures Distinct(InsertValue(elems, i, el))
    ensures index[el := i].Keys == Elements(InsertValue(elems, i, el))
    ensures forall j :: 0 <= j < i ==>
              InsertValue(elems, i, el)[j] in index[el := i] &&
              index[el := i][InsertValue(elems, i, el)[j]] == j
  {
    ConsistentMeansDistinct(elems, index);
    InsertFacts(elems, i, el);
    InsertKeys(elems, index, i, el);
    InsertKeepsPrefix(elems, index, i, el);
  }

  lemma InsertKeys(elems: seq<Symbol>, index: map<Symbol, nat>, i: nat, el: Symbol)
    requires Consistent(elems, index) && el !in elems && i <= |elems|
    ensures index[el := i].Keys == Elements(InsertValue(elems, i, el))
  {
    ConsistentMeansDistinct(elems, index);
    InsertElements(elems, i, el);
  }

  lemma InsertKeepsPrefix(elems: seq<Symbol>, index: map<Symbol, nat>, i: nat, el: Symbol)
    requires Consistent(elems, index) && el !in elems && i <= |elems|
    ensures forall j :: 0 <= j < i ==>
              InsertValue(elems, i, el)[j] in index[el := i] &&
              index[el := i][InsertValue(elems, i, el)[j]] == j
  {
    var v := InsertValue(elems, i, el);
    assert v == elems[..i] + [el] + elems[i..];
    forall j | 0 <= j < i ensures v[j] in index[el := i] && index[el := i][v[j]] == j {
      assert v[j] == elems[j] && elems[j] != el;
    }
  }

  /** Before re-indexing in `remove`, the positions in front of the removed
      symbol are already right. */
  lemma RemoveStart(elems: seq<Symbol>, index: map<Symbol, nat>, i: nat)
    requires Consistent(elems, index) && i < |elems|
    ensures Distinct(RemoveValue(elems, i))
    ensures (index - {elems[i]}).Keys == Elements(RemoveValue(elems, i))
    ensures forall j :: 0 <= j < i ==>
              RemoveValue(elems, i)[j] in index - {elems[i]} &&
              (index - {elems[i]})[RemoveValue(elems, i)[j]] == j
  {
    ConsistentMeansDistinct(elems, index);
    RemoveFacts(elems, i);
    var v := RemoveValue(elems, i);
    assert Elements(v) == Elements(elems) - {elems[i]} by {
      assert elems == elems[..i] + [elems[i]] + elems[i + 1..];
    }
  }

  /** The re-indexing loop of `insert` and `remove`: from `start` on, every
      element's entry is set to its position; the entries in front of
      `start` are already right. */
  method Reindex(v: seq<Symbol>, m: map<Symbol, nat>, start: nat) returns (m': map<Symbol, nat>)
    requires Distinct(v) && start <= |v| && m.Keys == Elements(v)
    requires forall j :: 0 <= j < start ==> v[j] in m && m[v[j]] == j
    ensures Consistent(v, m')
  {
    m' := m;
    var k := start;
    while k < |v|
      invariant start <= k <= |v|
      invariant m'.Keys == Elements(v)
      invariant forall j :: 0 <= j < k ==> v[j] in m' && m'[v[j]] == j
    {
      ReindexStep(v, m', k);
      m' := m'[v[k] := k];
      k := k + 1;
    }
    DistinctIsConsistent(v, m');
  }

  // ---------------------------------------------------------------------
  // The class

  class OrderedSet {
    var elems: seq<Symbol>       // elements_vector
    var index: map<Symbol, nat>  // elements_map

    ghost predicate Valid()
      reads this
    {
      Consistent(elems, index)
    }

    constructor()
      ensures Valid() && elems == []
    {
      elems := [];
      index := map[];
    }

    function Size(): nat
      reads this
    {
      |elems|
    }

    /** `contains` looks the symbol up in the map; it answers whether the
        symbol is in the vector. */
    function Contains(el: Symbol): (b: bool)
      reads this
      requires Valid()
      ensures b <==> el in elems
    {
      ConsistentMeansDistinct(elems, index);
      el in index
    }

    /** `at(i)`: `vector::at` throws out_of_range past the end. */
    function At(i: nat): (r: Result<Symbol>)
      reads this
      ensures r.Ok? <==> i < |elems|
      ensures r.Ok? ==> r.value == elems[i]
      ensures r.Err? ==> r.error == OutOfRange
    {
      if i < |elems| then Ok(elems[i]) else Err(OutOfRange)
    }

    /** `indexOf(el)`: the map lookup, throwing out_of_range (`map::at`)
        for a symbol that is not present. */
    function IndexOf(el: Symbol): (r: Result<nat>)
      reads this
      requires Valid()
      ensures r.Ok? <==> el in elems
      ensures r.Ok? ==> r.value < |elems| && elems[r.value] == el
      ensures r.Err? ==> r.error == OutOfRange
    {
      ConsistentMeansDistinct(elems, index);
      if el in index then
        var k := index[el];
        assert exists j :: 0 <= j < |elems| && elems[j] == el && index[elems[j]] == j;
        Ok(k)
      else Err(OutOfRange)
    }

    method Insert(i: nat, el: Symbol)
      requires Valid()
      requires el in elems || i <= |elems|
      modifies this
      ensures Valid()
      ensures elems == InsertValue(old(elems), i, el)
    {
      if Contains(el) {
        return;
      }
      var v: seq<Symbol>;
      if i == |elems| {
        v := elems + [el];
      } else {
        v := elems[..i] + [el] + elems[i..];
      }
      assert v == InsertValue(elems, i, el);
      InsertStart(elems, index, i, el);
      // Re-index every element from the insertion point on.
      var m := Reindex(v, index[el := i], i);
      elems, index := v, m;
    }

    method Append(el: Symbol)
      requires Valid()
      modifies this
      ensures Valid()
      ensures elems == AppendValue(old(elems), el)
    {
      Insert(|elems|, el);
    }

    method Remove(i: nat) returns (o: Outcome)
      requires Valid()
      modifies this
      ensures Valid()
      ensures o == if i < old(|elems|) then Done else Failed(OutOfRange)
      ensures i < old(|elems|) ==> elems == RemoveValue(old(elems), i)
      ensures i >= old(|elems|) ==> elems == old(elems) && index == old(index)
    {
      if i >= |elems| {
        return Failed(OutOfRange);
      }
      RemoveStart(elems, index, i);
      var v := elems[..i] + elems[i + 1..];
      // Re-index every element after the removed one.
      var m := Reindex(v, index - {elems[i]}, i);
      elems, index := v, m;
      o := Done;
    }

    /** `a.isSubset(b)`: every element of the argument is in the receiver. */
    method IsSubset(other: OrderedSet) returns (b: bool)
      requires Valid()
      ensures b <==> SubsetValue(elems, other.elems)
    {
      var k := 0;
      while k < other.Size()
        invariant 0 <= k <= |other.elems|
        invariant forall j :: 0 <= j < k ==> other.elems[j] in elems
      {
        if !Contains(other.elems[k]) {
          return false;
        }
        k := k + 1;
      }
      return true;
    }

    method UnionWith(other: OrderedSet)
      requires Valid()
      modifies this
      ensures Valid()
      ensures elems == UnionValue(old(elems), old(other.elems))
    {
      ghost var t := other.elems;
      var k := 0;
      while k < other.Size()
        invariant Valid()
        invariant other.elems == t
        invariant 0 <= k <= |t|
        invariant elems == UnionValue(old(elems), t[..k])
      {
        assert t[..k + 1][..k] == t[..k];
        Append(other.elems[k]);
        if other == this {
          UnionKeepsPresent(t, t[..k + 1]);
        }
        k := k + 1;
      }
      assert t[..k] == t;
    }

    /** `isConsistent`: the size check, then for each position the map
        lookup (`map::at`, which throws out_of_range for a missing symbol
        while no earlier check has failed). */
    method IsConsistent() returns (r: Result<bool>)
      ensures r.Ok? ==> r.value == Consistent(elems, index)
      ensures r.Err? <==> exists k :: 0 <= k < |elems| && LookupThrowsAt(elems, index, k)
      ensures r.Err? ==> r.error == OutOfRange
      ensures Consistent(elems, index) ==> r == Ok(true)
    {
      var good := |elems| == |index|;
      var i := 0;
      while i < |elems|
        invariant 0 <= i <= |elems|
        invariant good == (|elems| == |index| &&
                           forall j :: 0 <= j < i ==> elems[j] in index && index[elems[j]] == j)
        invariant forall k :: 0 <= k < i ==> !LookupThrowsAt(elems, index, k)
      {
        var el := elems[i];
        if good {
          if el !in index {
            assert LookupThrowsAt(elems, index, i);
            return Err(OutOfRange);
          }
          good := index[el] == i;
        }
        i := i + 1;
      }
      return Ok(good);
    }
  }

  /** The lookup at position `k` of `isConsistent` throws: the checks before
      it all passed and the element is missing from the map. */
  ghost predicate LookupThrowsAt(elems: seq<Symbol>, index: map<Symbol, nat>, k: nat)
    requires k < |elems|
  {
    && |elems| == |index|
    && (forall j :: 0 <= j < k ==> elems[j] in index && index[elems[j]] == j)
    && elems[k] !in index
  }

  /** OrderedSetTest: a new set is consistent; after appending x, y, z
      it holds them at 0, 1, 2 and has size 3; after remove(0) it is still
      consistent and holds y, z. */
  method OrderedSetExample(x: Symbol, y: Symbol, z: Symbol)
    returns (appended: seq<Result<Symbol>>, size: nat, remaining: seq<Result<Symbol>>,
             sizeAfter: nat, consistent: seq<Result<bool>>)
    requires x != y && y != z && x != z
    ensures appended == [Ok(x), Ok(y), Ok(z)] && size == 3
    ensures remaining == [Ok(y), Ok(z)] && sizeAfter == 2
    ensures consistent == [Ok(true), Ok(true), Ok(true), Ok(true)]
  {
    var s := new OrderedSet();
    var c0 := s.IsConsistent();
    s.Append(x);
    var c1 := s.IsConsistent();
    s.Append(y);
    var c2 := s.IsConsistent();
    s.Append(z);
    assert s.elems == [x, y, z];
    appended := [s.At(0), s.At(1), s.At(2)];
    size := s.Size();
    var o := s.Remove(0);
    assert s.elems == [y, z];
    var c3 := s.IsConsistent();
    remaining := [s.At(0), s.At(1)];
    sizeAfter := s.Size();
    consistent := [c0, c1, c2, c3];
  }
}
