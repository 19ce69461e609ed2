/** The Kotlin collection operations the core relies on (`map`, `filter`, `take`, `distinct`,
    `maxBy`, `count`, `joinToString`), as functions on sequences with their defining properties. */
module Seqs {

  function Min(a: int, b: int): int { if a <= b then a else b }

  /** Kotlin's `map`. */
  function Map<T, U>(s: seq<T>, f: T -> U): (r: seq<U>)
    ensures |r| == |s|
    ensures forall i :: 0 <= i < |s| ==> r[i] == f(s[i])
    decreases |s|
  {
    if s == [] then [] else [f(s[0])] + Map(s[1..], f)
  }

  /** Kotlin's `filter`: the elements of `s` satisfying `p`, in their order in `s`. */
  function Filter<T>(s: seq<T>, p: T -> bool): (r: seq<T>)
    ensures |r| <= |s|
    ensures forall i :: 0 <= i < |r| ==> p(r[i])
    decreases |s|
  {
    if s == [] then []
    else if p(s[0]) then [s[0]] + Filter(s[1..], p)
    else Filter(s[1..], p)
  }

  /** An element is kept exactly when it occurs in `s` and passes `p`. */
  lemma {:induction false} FilterMembership<T>(s: seq<T>, p: T -> bool, x: T)
    ensures x in Filter(s, p) <==> x in s && p(x)
    decreases |s|
  {
    if s != [] {
      FilterMembership(s[1..], p, x);
      assert s == [s[0]] + s[1..];
    }
  }

  /** Kotlin's `count(p)`. */
  function Count<T>(s: seq<T>, p: T -> bool): nat {
    |Filter(s, p)|
  }

  ghost predicate Increasing(idx: seq<nat>) {
    forall i, j :: 0 <= i < j < |idx| ==> idx[i] < idx[j]
  }

  /** `idx` lists, in increasing order, exactly the positions of `s` where `p` holds, and
      `Filter(s, p)` picks the elements at those positions. */
  ghost predicate FilterPositions<T>(s: seq<T>, p: T -> bool, idx: seq<nat>) {
    && |idx| == |Filter(s, p)|
    && Increasing(idx)
    && (forall k :: 0 <= k < |idx| ==> idx[k] < |s| && Filter(s, p)[k] == s[idx[k]])
    && (forall i :: 0 <= i < |s| ==> (p(s[i]) <==> i in idx))
  }

  /** `Filter(s, p)` is the order-preserving subsequence of `s` made of exactly the positions
      where `p` holds: `idx` lists those positions in increasing order. */
  lemma {:induction false} FilterIndices<T>(s: seq<T>, p: T -> bool) returns (idx: seq<nat>)
    ensures |idx| == |Filter(s, p)|
    ensures Increasing(idx)
    ensures forall k :: 0 <= k < |idx| ==> idx[k] < |s| && Filter(s, p)[k] == s[idx[k]]
    ensures forall i :: 0 <= i < |s| ==> (p(s[i]) <==> i in idx)
    decreases |s|
  {
    if s == [] {
      idx := [];
    } else {
      var rest := FilterIndices(s[1..], p);
      idx := FilterPositionsCons(s, p, rest);
    }
  }

  /** One step of `FilterIndices`: from the positions in the tail to the positions in `s`. */
  lemma FilterPositionsCons<T>(s: seq<T>, p: T -> bool, rest: seq<nat>) returns (idx: seq<nat>)
    requires s != [] && FilterPositions(s[1..], p, rest)
    ensures FilterPositions(s, p, idx)
  {
    var shifted := Shift(rest);
    if p(s[0]) {
      idx := [0] + shifted;
      PositionsKeep(s, p, rest, shifted);
      ConsIncreasing(shifted);
    } else {
      idx := shifted;
      PositionsSkip(s, p, rest, shifted);
    }
    PositionsMembers(s, p, rest, shifted, idx);
  }

  /** Position 0 in front of positive increasing positions keeps them increasing. */
  lemma ConsIncreasing(shifted: seq<nat>)
    requires Increasing(shifted) && forall k :: 0 <= k < |shifted| ==> shifted[k] >= 1
    ensures Increasing([0] + shifted)
  {
    var idx := [0] + shifted;
    forall i, j | 0 <= i < j < |idx| ensures idx[i] < idx[j] {
      assert idx[j] == shifted[j - 1];
      if i > 0 {
        assert idx[i] == shifted[i - 1];
      }
    }
  }

  /** A position passes exactly when it is listed, given the same for the tail. */
  lemma PositionsMembers<T>(s: seq<T>, p: T -> bool, rest: seq<nat>, shifted: seq<nat>, idx: seq<nat>)
    requires s != []
    requires forall i :: 0 <= i < |s[1..]| ==> (p(s[1..][i]) <==> i in rest)
    requires forall i: nat :: i in shifted <==> 1 <= i && i - 1 in rest
    requires idx == if p(s[0]) then [0] + shifted else shifted
    ensures forall i :: 0 <= i < |s| ==> (p(s[i]) <==> i in idx)
  {
    forall i | 0 <= i < |s| ensures p(s[i]) <==> i in idx {
      if i > 0 {
        assert s[i] == s[1..][i - 1];
        assert i in shifted <==> i - 1 in rest;
        assert i in idx <==> i in shifted;
      } else {
        assert 0 !in shifted;
      }
    }
  }

  /** When the head passes, its position 0 comes first. */
  lemma PositionsKeep<T>(s: seq<T>, p: T -> bool, rest: seq<nat>, shifted: seq<nat>)
    requires s != [] && p(s[0])
    requires |rest| == |Filter(s[1..], p)|
    requires forall k :: 0 <= k < |rest| ==> rest[k] < |s| - 1 && Filter(s[1..], p)[k] == s[1..][rest[k]]
    requires |shifted| == |rest| && forall k :: 0 <= k < |rest| ==> shifted[k] == rest[k] + 1
    ensures |[0] + shifted| == |Filter(s, p)|
    ensures forall k :: 0 <= k < |[0] + shifted| ==> ([0] + shifted)[k] < |s| && Filter(s, p)[k] == s[([0] + shifted)[k]]
  {
    var idx := [0] + shifted;
    var ft := Filter(s[1..], p);
    assert Filter(s, p) == [s[0]] + ft;
    forall k | 0 <= k < |idx| ensures idx[k] < |s| && Filter(s, p)[k] == s[idx[k]] {
      if k > 0 {
        assert idx[k] == rest[k - 1] + 1;
        assert Filter(s, p)[k] == ft[k - 1];
      }
    }
  }

  /** When the head fails, the positions are the tail's, moved right by one. */
  lemma PositionsSkip<T>(s: seq<T>, p: T -> bool, rest: seq<nat>, shifted: seq<nat>)
    requires s != [] && !p(s[0])
    requires |rest| == |Filter(s[1..], p)|
    requires forall k :: 0 <= k < |rest| ==> rest[k] < |s| - 1 && Filter(s[1..], p)[k] == s[1..][rest[k]]
    requires |shifted| == |rest| && forall k :: 0 <= k < |rest| ==> shifted[k] == rest[k] + 1
    ensures |shifted| == |Filter(s, p)|
    ensures forall k :: 0 <= k < |shifted| ==> shifted[k] < |s| && Filter(s, p)[k] == s[shifted[k]]
  {
    assert Filter(s, p) == Filter(s[1..], p);
  }

  /** Every index moved one position right. */
  lemma Shift(rest: seq<nat>) returns (shifted: seq<nat>)
    ensures |shifted| == |rest|
    ensures forall k :: 0 <= k < |rest| ==> shifted[k] == rest[k] + 1
    ensures Increasing(rest) ==> Increasing(shifted)
    ensures forall i: nat :: i in shifted <==> 1 <= i && i - 1 in rest
  {
    shifted := seq(|rest|, k requires 0 <= k < |rest| => rest[k] + 1);
    forall i: nat ensures i in shifted <==> 1 <= i && i - 1 in rest {
      if i in shifted {
        var k :| 0 <= k < |shifted| && shifted[k] == i;
        assert rest[k] == i - 1;
      }
      if 1 <= i && i - 1 in rest {
        var k :| 0 <= k < |rest| && rest[k] == i - 1;
        assert shifted[k] == i;
      }
    }
  }

  /** `FilterMembership` for every element at once. */
  lemma FilterMembershipAll<T>(s: seq<T>, p: T -> bool)
    ensures forall x :: x in Filter(s, p) <==> x in s && p(x)
  {
    forall x ensures x in Filter(s, p) <==> x in s && p(x) {
      FilterMembership(s, p, x);
    }
  }

  /** Filtering distributes over concatenation. */
  lemma {:induction false} FilterAppend<T>(a: seq<T>, b: seq<T>, p: T -> bool)
    ensures Filter(a + b, p) == Filter(a, p) + Filter(b, p)
    decreases |a|
  {
    if a == [] {
      assert a + b == b;
    } else {
      assert (a + b)[1..] == a[1..] + b;
      FilterAppend(a[1..], b, p);
    }
  }

  /** Nothing passes: the filter is empty. */
  lemma FilterNone<T>(s: seq<T>, p: T -> bool)
    requires forall i :: 0 <= i < |s| ==> !p(s[i])
    ensures Filter(s, p) == []
  {
  }

  /** Two predicates that agree everywhere filter alike. */
  lemma {:induction false} FilterExtensional<T>(s: seq<T>, p: T -> bool, q: T -> bool)
    requires forall x :: p(x) == q(x)
    ensures Filter(s, p) == Filter(s, q)
    decreases |s|
  {
    if s != [] {
      FilterExtensional(s[1..], p, q);
    }
  }

  /** Two filters in a row keep what satisfies both. */
  lemma {:induction false} FilterFilter<T>(s: seq<T>, p: T -> bool, q: T -> bool, both: T -> bool)
    requires forall x :: both(x) == (p(x) && q(x))
    ensures Filter(Filter(s, p), q) == Filter(s, both)
    decreases |s|
  {
    if s != [] {
      FilterFilter(s[1..], p, q, both);
    }
  }

  /** Mapping then filtering is filtering on the mapped value, then mapping. */
  lemma {:induction false} FilterMap<T, U>(s: seq<T>, f: T -> U, p: U -> bool, pf: T -> bool)
    requires forall x :: pf(x) == p(f(x))
    ensures Filter(Map(s, f), p) == Map(Filter(s, pf), f)
    decreases |s|
  {
    if s != [] {
      assert Map(s, f)[1..] == Map(s[1..], f);
      FilterMap(s[1..], f, p, pf);
    }
  }

  ghost predicate NoDuplicates<T>(s: seq<T>) {
    forall i, j :: 0 <= i < j < |s| ==> s[i] != s[j]
  }

  /** The index of the first element satisfying `p`, or `|s|` when there is none (the index a
      `for` loop that stops at the first match ends on). */
  function FirstIndex<T>(s: seq<T>, p: T -> bool): (k: nat)
    ensures k <= |s|
    ensures k < |s| ==> p(s[k])
    ensures forall j :: 0 <= j < k ==> !p(s[j])
    decreases |s|
  {
    if s == [] then 0
    else if p(s[0]) then 0
    else 1 + FirstIndex(s[1..], p)
  }

  /** Searching the elements that pass `q` for one that passes `p` finds the same element as
      searching everything for one that passes both. */
  lemma {:induction false} FirstIndexFilter<T>(s: seq<T>, q: T -> bool, p: T -> bool, both: T -> bool)
    requires forall x :: both(x) == (q(x) && p(x))
    ensures (FirstIndex(Filter(s, q), p) < |Filter(s, q)|) <==> (FirstIndex(s, both) < |s|)
    ensures FirstIndex(s, both) < |s| ==> Filter(s, q)[FirstIndex(Filter(s, q), p)] == s[FirstIndex(s, both)]
    decreases |s|
  {
    if s != [] {
      FirstIndexFilter(s[1..], q, p, both);
      if q(s[0]) {
        assert Filter(s, q) == [s[0]] + Filter(s[1..], q);
        assert Filter(s, q)[1..] == Filter(s[1..], q);
      }
    }
  }

  /** Position of the first occurrence of `x` in `s`. */
  function IndexOf<T(==)>(s: seq<T>, x: T): (k: nat)
    requires x in s
    ensures k < |s| && s[k] == x
    ensures forall i :: 0 <= i < k ==> s[i] != x
  {
    if s[0] == x then 0 else 1 + IndexOf(s[1..], x)
  }

  /** Kotlin's `distinct`: the first occurrence of every element, in order. */
  function Distinct<T(==)>(s: seq<T>): (r: seq<T>)
    ensures |r| <= |s|
    ensures forall i :: 0 <= i < |r| ==> r[i] in s
    ensures forall i :: 0 <= i < |s| ==> s[i] in r
    ensures NoDuplicates(r)
    decreases |s|
  {
    if s == [] then []
    else
      var d := Distinct(s[..|s| - 1]);
      if s[|s| - 1] in d then d else d + [s[|s| - 1]]
  }

  /** `Distinct` keeps elements in the order of their first occurrence; together with its
      contract this determines it. */
  lemma {:induction false} DistinctFirstOccurrenceOrder<T>(s: seq<T>)
    ensures forall i, j :: 0 <= i < j < |Distinct(s)| ==>
      IndexOf(s, Distinct(s)[i]) < IndexOf(s, Distinct(s)[j])
    decreases |s|
  {
    if s != [] {
      var init := s[..|s| - 1];
      DistinctFirstOccurrenceOrder(init);
      assert init + [s[|s| - 1]] == s;
      DistinctOrderStep(init, s[|s| - 1]);
    }
  }

  /** Appending one element keeps `Distinct` in first-occurrence order. */
  lemma DistinctOrderStep<T>(init: seq<T>, last: T)
    requires forall i, j :: 0 <= i < j < |Distinct(init)| ==>
      IndexOf(init, Distinct(init)[i]) < IndexOf(init, Distinct(init)[j])
    ensures forall i, j :: 0 <= i < j < |Distinct(init + [last])| ==>
      IndexOf(init + [last], Distinct(init + [last])[i]) < IndexOf(init + [last], Distinct(init + [last])[j])
  {
    var s := init + [last];
    var d := Distinct(init);
    assert s[..|s| - 1] == init;
    PrefixIndexOfAll(init, last);
    if last !in d {
      assert last !in init;
      assert IndexOf(s, last) == |s| - 1;
    }
  }

  /** Positions in a prefix do not change when an element is appended. */
  lemma PrefixIndexOfAll<T>(init: seq<T>, last: T)
    ensures forall x :: x in init ==> IndexOf(init + [last], x) == IndexOf(init, x)
  {
    forall x | x in init ensures IndexOf(init + [last], x) == IndexOf(init, x) {
      PrefixIndexOf(init, last, x);
    }
  }

  lemma PrefixIndexOf<T>(init: seq<T>, last: T, x: T)
    requires x in init
    ensures IndexOf(init + [last], x) == IndexOf(init, x)
  {
    var s := init + [last];
    var k := IndexOf(init, x);
    assert s[k] == x;
    assert forall i :: 0 <= i < k ==> s[i] == init[i];
    IndexOfUnique(s, x, k);
  }

  lemma IndexOfUnique<T>(s: seq<T>, x: T, k: nat)
    requires k < |s| && s[k] == x
    requires forall i :: 0 <= i < k ==> s[i] != x
    ensures IndexOf(s, x) == k
  {
  }

  /** Kotlin's `maxBy`: the position of the first element whose key is maximal. */
  function MaxByIndex<T>(s: seq<T>, key: T -> int): (k: nat)
    requires |s| > 0
    ensures k < |s|
    ensures forall i :: 0 <= i < |s| ==> key(s[i]) <= key(s[k])
    ensures forall i :: 0 <= i < k ==> key(s[i]) < key(s[k])
    decreases |s|
  {
    if |s| == 1 then 0
    else
      var k := MaxByIndex(s[..|s| - 1], key);
      if key(s[k]) < key(s[|s| - 1]) then |s| - 1 else k
  }

  /** Kotlin's `joinToString(sep)`. */
  function Join(parts: seq<string>, sep: string): (r: string)
    decreases |parts|
  {
    if parts == [] then ""
    else if |parts| == 1 then parts[0]
    else parts[0] + sep + Join(parts[1..], sep)
  }

  /** Kotlin's `startsWith` and `endsWith`. */
  predicate StartsWith(s: string, prefix: string) {
    |prefix| <= |s| && s[..|prefix|] == prefix
  }

  predicate EndsWith(s: string, suffix: string) {
    |suffix| <= |s| && s[|s| - |suffix|..] == suffix
  }
}
