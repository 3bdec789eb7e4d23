/**
 * The few JavaScript array primitives the stores are built from, as pure
 * functions over sequences: `filter`, `findIndex`, `find`, `indexOf` and
 * `splice(i, 1)`.
 */
module Seqs {
  import opened Options

  /** `i` is the position `findIndex(p)` reports: the first element satisfying `p`. */
  predicate IsFirst<T>(s: seq<T>, i: int, p: T -> bool) {
    0 <= i < |s| && p(s[i]) && forall j :: 0 <= j < i ==> !p(s[j])
  }

  /** `Array.prototype.filter`: the elements satisfying `p`, in their original order. */
  function Filter<T>(s: seq<T>, p: T -> bool): (r: seq<T>)
    ensures |r| <= |s|
    ensures forall i :: 0 <= i < |r| ==> r[i] in s && p(r[i])
    ensures forall i :: 0 <= i < |s| && p(s[i]) ==> s[i] in r
    ensures multiset(r) <= multiset(s)
    decreases |s|
  {
    if |s| == 0 then []
    else
      assert s == [s[0]] + s[1..];
      (if p(s[0]) then [s[0]] else []) + Filter(s[1..], p)
  }

  /** `filter` keeps every element satisfying `p` as often as it occurs, and no other. */
  lemma {:induction false} FilterMultiplicity<T>(s: seq<T>, p: T -> bool)
    ensures forall x :: multiset(Filter(s, p))[x] == if p(x) then multiset(s)[x] else 0
    decreases |s|
  {
    if |s| > 0 {
      FilterMultiplicity(s[1..], p);
      assert s == [s[0]] + s[1..];
    }
  }

  /** The positions of `s` that hold an element satisfying `p`. */
  function Indices<T>(s: seq<T>, p: T -> bool): set<int> {
    set i | 0 <= i < |s| && p(s[i])
  }

  /** How many positions of `s` hold an element satisfying `p`. */
  function Count<T>(s: seq<T>, p: T -> bool): nat {
    |Indices(s, p)|
  }

  /** Appending one element adds its position exactly when it satisfies `p`. */
  lemma IndicesSnoc<T>(init: seq<T>, last: T, p: T -> bool)
    ensures Indices(init + [last], p) == Indices(init, p) + (if p(last) then {|init|} else {})
    ensures |init| !in Indices(init, p)
  {
    var s := init + [last];
    forall i | 0 <= i < |init|
      ensures s[i] == init[i]
    {
    }
  }

  /** `filter(p).length` counts the positions satisfying `p`. */
  lemma {:induction false} FilterLength<T>(s: seq<T>, p: T -> bool)
    ensures |Filter(s, p)| == Count(s, p)
    decreases |s|
  {
    if |s| == 0 {
      assert Indices(s, p) == {};
    } else {
      var init, last := s[..|s| - 1], s[|s| - 1];
      assert s == init + [last];
      FilterAppend(init, [last], p);
      FilterLength(init, p);
      assert [last][1..] == [];
      assert |Filter([last], p)| == if p(last) then 1 else 0;
      IndicesSnoc(init, last, p);
    }
  }

  /** `Array.prototype.findIndex`, with `None` for the JavaScript result -1. */
  function FirstIndex<T>(s: seq<T>, p: T -> bool): (r: Option<nat>)
    ensures r.Some? ==> IsFirst(s, r.value, p)
    ensures r.None? <==> forall j :: 0 <= j < |s| ==> !p(s[j])
    ensures forall i :: IsFirst(s, i, p) ==> r == Some(i)
    decreases |s|
  {
    if |s| == 0 then None
    else if p(s[0]) then Some(0)
    else match FirstIndex(s[1..], p)
      case None => None
      case Some(i) => Some(i + 1)
  }

  /** `Array.prototype.find`: the first element satisfying `p`. */
  function Find<T>(s: seq<T>, p: T -> bool): (r: Option<T>)
    ensures r.None? <==> forall j :: 0 <= j < |s| ==> !p(s[j])
    ensures forall i :: IsFirst(s, i, p) ==> r == Some(s[i])
  {
    match FirstIndex(s, p)
    case None => None
    case Some(i) => Some(s[i])
  }

  /** `Array.prototype.indexOf`: the position of the first occurrence of `v`. */
  function IndexOf<T(==)>(s: seq<T>, v: T): (r: Option<nat>)
    ensures r.None? <==> v !in s
    ensures r.Some? ==> r.value < |s| && s[r.value] == v && v !in s[..r.value]
  {
    FirstIndex(s, x => x == v)
  }

  /** `splice(i, 1)`: the sequence without its element at position `i`. */
  function RemoveAt<T>(s: seq<T>, i: nat): (r: seq<T>)
    requires i < |s|
    ensures |r| == |s| - 1
    ensures forall j :: 0 <= j < i ==> r[j] == s[j]
    ensures forall j :: i <= j < |r| ==> r[j] == s[j + 1]
    ensures multiset(r) == multiset(s) - multiset{s[i]}
  {
    assert s == s[..i] + [s[i]] + s[i + 1..];
    s[..i] + s[i + 1..]
  }

  /** No value occurs twice. */
  predicate NoDuplicates<T(==)>(s: seq<T>) {
    forall i, j :: 0 <= i < j < |s| ==> s[i] != s[j]
  }

  /** Removing one element keeps a duplicate-free sequence duplicate-free. */
  lemma RemoveAtKeepsDistinct<T>(s: seq<T>, i: nat)
    requires i < |s|
    ensures NoDuplicates(s) ==> NoDuplicates(RemoveAt(s, i))
  {
    var r := RemoveAt(s, i);
    if NoDuplicates(s) {
      forall a, b | 0 <= a < b < |r|
        ensures r[a] != r[b]
      {
        var a', b' := if a < i then a else a + 1, if b < i then b else b + 1;
        assert r[a] == s[a'] && r[b] == s[b'] && a' < b';
      }
    }
  }

  /** Filtering distributes over concatenation, so it keeps the original relative order. */
  lemma {:induction false} FilterAppend<T>(a: seq<T>, b: seq<T>, p: T -> bool)
    ensures Filter(a + b, p) == Filter(a, p) + Filter(b, p)
    decreases |a|
  {
    if |a| == 0 {
      assert a + b == b;
    } else {
      assert (a + b)[0] == a[0];
      assert (a + b)[1..] == a[1..] + b;
      FilterAppend(a[1..], b, p);
    }
  }

  /** Filtering by a predicate every element satisfies changes nothing. */
  lemma {:induction false} FilterKeepsAll<T>(s: seq<T>, p: T -> bool)
    requires forall i :: 0 <= i < |s| ==> p(s[i])
    ensures Filter(s, p) == s
    decreases |s|
  {
    if |s| > 0 {
      FilterKeepsAll(s[1..], p);
      assert [s[0]] + s[1..] == s;
    }
  }

  /** Filtering by a predicate no element satisfies leaves nothing. */
  lemma {:induction false} FilterDropsAll<T>(s: seq<T>, p: T -> bool)
    requires forall i :: 0 <= i < |s| ==> !p(s[i])
    ensures Filter(s, p) == []
    decreases |s|
  {
    if |s| > 0 {
      FilterDropsAll(s[1..], p);
    }
  }

  /**
   * The first element of a filtered sequence is the element `findIndex`
   * reports: `filter(p)[0]` and `find(p)` agree.
   */
  lemma {:induction false} FilterHead<T>(s: seq<T>, p: T -> bool)
    ensures |Filter(s, p)| > 0 <==> FirstIndex(s, p).Some?
    ensures FirstIndex(s, p).Some? ==> Filter(s, p)[0] == s[FirstIndex(s, p).value]
    decreases |s|
  {
    if |s| > 0 && !p(s[0]) {
      FilterHead(s[1..], p);
    }
  }

  /**
   * Filtering by a predicate and by its complement splits the sequence:
   * the two results together hold every element exactly once.
   */
  lemma {:induction false} FilterSplit<T>(s: seq<T>, p: T -> bool, q: T -> bool)
    requires forall i :: 0 <= i < |s| ==> q(s[i]) == !p(s[i])
    ensures |Filter(s, p)| + |Filter(s, q)| == |s|
    ensures multiset(Filter(s, p)) + multiset(Filter(s, q)) == multiset(s)
    decreases |s|
  {
    if |s| > 0 {
      FilterSplit(s[1..], p, q);
      assert s == [s[0]] + s[1..];
    }
  }

  /**
   * `findIndex` only looks at which elements satisfy the predicate: two
   * sequences that agree on that report the same position.
   */
  lemma {:induction false} FirstIndexSameMatches<T>(s: seq<T>, t: seq<T>, p: T -> bool)
    requires |s| == |t|
    requires forall i :: 0 <= i < |s| ==> p(s[i]) == p(t[i])
    ensures FirstIndex(s, p) == FirstIndex(t, p)
    decreases |s|
  {
    if |s| > 0 && !p(s[0]) {
      FirstIndexSameMatches(s[1..], t[1..], p);
    }
  }

  /**
   * Replacing one element changes a filter's size by what the old and the
   * new element contribute.
   */
  lemma {:induction false} FilterCountUpdate<T>(s: seq<T>, i: nat, x: T, p: T -> bool)
    requires i < |s|
    ensures |Filter(s[i := x], p)| + (if p(s[i]) then 1 else 0)
         == |Filter(s, p)| + (if p(x) then 1 else 0)
    decreases |s|
  {
    if i > 0 {
      FilterCountUpdate(s[1..], i - 1, x, p);
      assert s[i := x][1..] == s[1..][i - 1 := x];
    } else {
      assert s[i := x][1..] == s[1..];
    }
  }
}
