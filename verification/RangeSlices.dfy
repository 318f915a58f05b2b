/** RangeSlice of utils/slice.go: removes the elements at the listed indices, one after the other and in
    place, so that every removal shifts the ones that follow. */
module RangeSlices {
  import opened Slices

  ghost predicate Ascending(s: seq<int>) {
    forall i, j :: 0 <= i < j < |s| ==> s[i] <= s[j]
  }

  /** The elements whose index is not listed, in order. */
  function Without<T>(src: seq<T>, listed: multiset<int>): (r: seq<T>)
    ensures |r| <= |src|
    decreases |src|
  {
    if src == [] then [] else
    var n := |src| - 1;
    var front := Without(src[..n], listed);
    if n in listed then front else front + [src[n]]
  }

  /** No index that counts is listed twice, unless every index below it is listed as well. */
  ghost predicate Harmless(listed: multiset<int>, n: nat) {
    forall v :: 0 <= v < n && listed[v] > 1 ==> Covered(listed, v)
  }

  ghost predicate Covered(listed: multiset<int>, v: nat) {
    forall i :: 0 <= i < v ==> i in listed
  }

  // ---------------------------------------------------------------- what is kept

  lemma {:induction false} WithoutNothing<T>(src: seq<T>, listed: multiset<int>)
    requires forall i :: 0 <= i < |src| ==> i !in listed
    ensures Without(src, listed) == src
    decreases |src|
  {
    if src != [] {
      WithoutNothing(src[..|src| - 1], listed);
    }
  }

  lemma {:induction false} WithoutSame<T>(src: seq<T>, listed: multiset<int>, other: multiset<int>)
    requires forall i :: 0 <= i < |src| ==> (i in listed <==> i in other)
    ensures Without(src, listed) == Without(src, other)
    decreases |src|
  {
    if src != [] {
      WithoutSame(src[..|src| - 1], listed, other);
    }
  }

  /** Beyond the largest listed index everything is kept. */
  lemma {:induction false} WithoutTail<T>(src: seq<T>, listed: multiset<int>, at: nat)
    requires at <= |src| && forall i :: at <= i < |src| ==> i !in listed
    ensures Without(src, listed) == Without(src[..at], listed) + src[at..]
    decreases |src|
  {
    if at == |src| {
      assert src[..at] == src;
    } else {
      var n := |src| - 1;
      WithoutTail(src[..n], listed, at);
      assert src[..n][..at] == src[..at] && src[at..] == src[..n][at..] + [src[n]];
    }
  }

  lemma {:induction false} WithoutAll<T>(src: seq<T>, listed: multiset<int>)
    ensures Without(src, listed) == [] <==> Covered(listed, |src|)
    decreases |src|
  {
    if src != [] {
      WithoutAll(src[..|src| - 1], listed);
    }
  }

  // ---------------------------------------------------------------- the removals

  /** One round of the loop, on a source that had n elements at first. */
  function RemoveOne<T>(src: seq<T>, n: nat, idx: int): (r: seq<T>)
    requires |src| <= n
    ensures |r| <= n
  {
    var trim := idx - (n - |src|);
    if 0 <= trim < |src| then src[..trim] + src[trim + 1..] else src
  }

  function RemoveAll<T>(src: seq<T>, order: seq<int>): (r: seq<T>)
    ensures |r| <= |src|
    decreases |order|
  {
    if order == [] then src else
    RemoveOne(RemoveAll(src, order[..|order| - 1]), |src|, order[|order| - 1])
  }

  /** What the loop has made of the source with the indices listed so far, the last of them `last`: it
      has removed too much exactly when they are not harmless, and never more than `last` allows. */
  ghost predicate SoFar<T>(src: seq<T>, now: seq<T>, listed: multiset<int>, last: int) {
    var want := Without(src, listed);
    && |now| <= |want|
    && (Harmless(listed, |src|) <==> |now| == |want|)
    && (|now| == |want| ==> now == want)
    && |src| - |now| <= if last < 0 then 0 else last + 1
  }

  ghost predicate AtMost(listed: multiset<int>, last: int) {
    forall i :: i in listed ==> i <= last
  }

  /** A negative index, or one past the end, removes nothing. */
  lemma OutOfRange<T>(src: seq<T>, now: seq<T>, listed: multiset<int>, last: int, idx: int)
    requires SoFar(src, now, listed, last) && last <= idx && !(0 <= idx < |src|)
    ensures SoFar(src, RemoveOne(now, |src|, idx), listed + multiset{idx}, idx)
  {
    WithoutSame(src, listed, listed + multiset{idx});
  }

  /** The first time an index comes up, all removals so far were below it. */
  lemma FirstTime<T>(src: seq<T>, now: seq<T>, listed: multiset<int>, last: int, idx: int)
    requires SoFar(src, now, listed, last) && AtMost(listed, last) && last < idx && 0 <= idx < |src|
    ensures SoFar(src, RemoveOne(now, |src|, idx), listed + multiset{idx}, idx)
  {
    FirstTimeWithout(src, listed, last, idx);
    FirstTimeHarmless(listed, last, idx, |src|);
  }

  lemma FirstTimeWithout<T>(src: seq<T>, listed: multiset<int>, last: int, idx: int)
    requires AtMost(listed, last) && last < idx && 0 <= idx < |src|
    ensures Without(src, listed) == Without(src[..idx], listed) + src[idx..]
    ensures Without(src, listed + multiset{idx}) == Without(src[..idx], listed) + src[idx + 1..]
  {
    var more := listed + multiset{idx};
    WithoutTail(src, listed, idx);
    WithoutTail(src, more, idx + 1);
    WithoutSame(src[..idx], listed, more);
    assert src[..idx + 1][..idx] == src[..idx];
  }

  lemma FirstTimeHarmless(listed: multiset<int>, last: int, idx: int, n: nat)
    requires AtMost(listed, last) && last < idx && 0 <= idx < n
    ensures Harmless(listed + multiset{idx}, n) <==> Harmless(listed, n)
  {
    var more := listed + multiset{idx};
    forall v | 0 <= v < n ensures (listed[v] > 1 <==> more[v] > 1) && (listed[v] > 1 ==> (Covered(listed, v) <==> Covered(more, v))) {
      assert listed[idx] == 0;
      assert listed[v] > 1 ==> v < idx;
      assert forall i :: i != idx ==> (i in listed <==> i in more);
    }
  }

  /** Listed again, it removes an element that should stay, unless nothing is left below it. */
  lemma Again<T>(src: seq<T>, now: seq<T>, listed: multiset<int>, idx: int)
    requires SoFar(src, now, listed, idx) && AtMost(listed, idx) && 0 <= idx < |src| && idx in listed
    ensures SoFar(src, RemoveOne(now, |src|, idx), listed + multiset{idx}, idx)
  {
    WithoutSame(src, listed, listed + multiset{idx});
    WithoutTail(src, listed, idx + 1);
    WithoutAll(src[..idx + 1], listed);
    AgainHarmless(listed, idx, |src|);
  }

  lemma AgainHarmless(listed: multiset<int>, idx: int, n: nat)
    requires 0 <= idx < n && idx in listed
    ensures Harmless(listed + multiset{idx}, n) <==> Harmless(listed, n) && Covered(listed, idx + 1)
  {
    var more := listed + multiset{idx};
    assert forall i :: i in listed <==> i in more;
    assert forall v :: 0 <= v ==> (Covered(listed, v) <==> Covered(more, v));
    assert more[idx] > 1;
    assert Covered(listed, idx + 1) <==> Covered(listed, idx);
    assert forall v :: v != idx ==> more[v] == listed[v];
  }

  lemma {:induction false} RemovesSoFar<T>(src: seq<T>, order: seq<int>)
    requires Ascending(order)
    ensures SoFar(src, RemoveAll(src, order), multiset(order), if order == [] then -1 else order[|order| - 1])
    ensures order != [] ==> AtMost(multiset(order), order[|order| - 1])
    decreases |order|
  {
    if order == [] {
      WithoutNothing(src, multiset(order));
    } else {
      var front, idx := order[..|order| - 1], order[|order| - 1];
      assert order == front + [idx];
      RemovesSoFar(src, front);
      RemovesOneMore(src, RemoveAll(src, front), front, idx);
      LargestLast(order);
    }
  }

  lemma LargestLast(order: seq<int>)
    requires Ascending(order) && order != []
    ensures multiset(order) == multiset(order[..|order| - 1]) + multiset{order[|order| - 1]}
    ensures AtMost(multiset(order), order[|order| - 1])
  {
    assert order == order[..|order| - 1] + [order[|order| - 1]];
    forall i | i in multiset(order) ensures i <= order[|order| - 1] {
      assert i in order;
    }
  }

  lemma RemovesOneMore<T>(src: seq<T>, now: seq<T>, front: seq<int>, idx: int)
    requires front != [] ==> AtMost(multiset(front), front[|front| - 1]) && front[|front| - 1] <= idx
    requires SoFar(src, now, multiset(front), if front == [] then -1 else front[|front| - 1])
    ensures SoFar(src, RemoveOne(now, |src|, idx), multiset(front) + multiset{idx}, idx)
  {
    var last := if front == [] then -1 else front[|front| - 1];
    if !(0 <= idx < |src|) {
      if front == [] && idx < -1 {
        OutOfRange(src, now, multiset(front), idx, idx);
      } else {
        OutOfRange(src, now, multiset(front), last, idx);
      }
    } else if last < idx {
      FirstTime(src, now, multiset(front), last, idx);
    } else {
      assert front[|front| - 1] in multiset(front);
      Again(src, now, multiset(front), idx);
    }
  }

  /** Removing in place at the ascending indices, with the source's offsets, keeps exactly the elements
      whose index is not listed, if and only if no index is harmfully listed twice. */
  lemma RemoveAllIff<T>(src: seq<T>, order: seq<int>)
    requires Ascending(order)
    ensures RemoveAll(src, order) == Without(src, multiset(order)) <==> Harmless(multiset(order), |src|)
  {
    RemovesSoFar(src, order);
  }

  /** Distinct indices are harmless, negative ones and ones past the end included. */
  lemma DistinctHarmless(sliced: seq<int>, n: nat)
    requires forall i, j :: 0 <= i < j < |sliced| ==> sliced[i] != sliced[j]
    ensures Harmless(multiset(sliced), n)
  {
    forall v ensures multiset(sliced)[v] <= 1 {
      AtMostOnce(sliced, v);
    }
  }

  /** So with distinct indices, in any order, the result is what it should be. */
  lemma DistinctExact<T>(src: seq<T>, sliced: seq<int>, order: seq<int>)
    requires forall i, j :: 0 <= i < j < |sliced| ==> sliced[i] != sliced[j]
    requires Ascending(order) && multiset(order) == multiset(sliced)
    ensures RemoveAll(src, order) == Without(src, multiset(sliced))
  {
    DistinctHarmless(sliced, |src|);
    RemoveAllIff(src, order);
  }

  lemma {:induction false} AtMostOnce(sliced: seq<int>, v: int)
    requires forall i, j :: 0 <= i < j < |sliced| ==> sliced[i] != sliced[j]
    ensures multiset(sliced)[v] <= 1
    decreases |sliced|
  {
    if sliced != [] {
      var front, last := sliced[..|sliced| - 1], sliced[|sliced| - 1];
      assert sliced == front + [last];
      AtMostOnce(front, v);
      assert last !in front;
    }
  }

  /** The smallest harmful list: the second 1 removes the element at index 0. */
  lemma HarmfulTwice<T>(x: T, y: T)
    ensures RemoveAll([x, y], [1, 1]) == [] && Without([x, y], multiset([1, 1])) == [x]
    ensures !Harmless(multiset([1, 1]), 2)
  {
    assert [1, 1][..1] == [1] && [1][..0] == [];
    assert RemoveAll([x, y], [1]) == [x];
    assert [x, y][..1] == [x] && Without([x], multiset([1, 1])) == [x] by { assert [x][..0] == []; }
    assert multiset([1, 1])[1] > 1 && 0 !in multiset([1, 1]);
  }

  // ---------------------------------------------------------------- in place

  function SortedIn(s: seq<int>, x: int): (r: seq<int>)
    ensures multiset(r) == multiset(s) + multiset{x}
    decreases |s|
  {
    if s == [] || s[|s| - 1] <= x then s + [x] else
    assert s == s[..|s| - 1] + [s[|s| - 1]];
    SortedIn(s[..|s| - 1], x) + [s[|s| - 1]]
  }

  lemma {:induction false} SortedInAscending(s: seq<int>, x: int)
    requires Ascending(s)
    ensures Ascending(SortedIn(s, x))
    decreases |s|
  {
    if s != [] && s[|s| - 1] > x {
      var front, last := s[..|s| - 1], s[|s| - 1];
      SortedInAscending(front, x);
      var r := SortedIn(front, x);
      forall k | 0 <= k < |r| ensures r[k] <= last {
        assert r[k] in multiset(r) && (r[k] in multiset(front) || r[k] == x);
      }
    }
  }

  function SortInts(s: seq<int>): (r: seq<int>)
    ensures Ascending(r) && multiset(r) == multiset(s)
    decreases |s|
  {
    if s == [] then [] else
    assert s == s[..|s| - 1] + [s[|s| - 1]];
    SortedInAscending(SortInts(s[..|s| - 1]), s[|s| - 1]);
    SortedIn(SortInts(s[..|s| - 1]), s[|s| - 1])
  }

  /** sort.Sort, by its result. */
  method Sort(s: Slice<int>)
    requires s.Valid()
    modifies s.arr
    ensures Ascending(s.Elems()) && multiset(s.Elems()) == multiset(old(s.Elems()))
  {
    var r := SortInts(s.Elems());
    SameLength(r, s.Elems());
    forall k | 0 <= k < s.len {
      s.arr[s.off + k] := r[k];
    }
    assert s.Elems() == r;
  }

  lemma SameLength(s: seq<int>, t: seq<int>)
    requires multiset(s) == multiset(t)
    ensures |s| == |t|
  {
    assert |multiset(s)| == |multiset(t)|;
  }

  /** append(s[:at], s[at+1:]...): the rest moves down by one, in place. */
  method RemoveInPlace<T>(s: Slice<T>, at: nat) returns (r: Slice<T>)
    requires s.Valid() && at < s.len
    modifies s.arr
    ensures r == Slice(s.arr, s.off, s.len - 1)
    ensures r.Elems() == old(s.Elems())[..at] + old(s.Elems())[at + 1..]
  {
    forall k | at <= k < s.len - 1 {
      s.arr[s.off + k] := s.arr[s.off + k + 1];
    }
    r := Slice(s.arr, s.off, s.len - 1);
  }

  /** An index past the end ends the loop: the indices after it are past the end as well. */
  lemma {:induction false} RestPastEnd<T>(src: seq<T>, order: seq<int>, k: nat)
    requires Ascending(order) && k < |order| && order[k] >= |src|
    ensures RemoveAll(src, order) == RemoveAll(src, order[..k])
    decreases |order|
  {
    if k < |order| - 1 {
      RestPastEnd(src, order[..|order| - 1], k);
      assert order[..|order| - 1][..k] == order[..k];
    }
  }

  lemma RemoveNext<T>(src: seq<T>, order: seq<int>, k: nat)
    requires k < |order|
    ensures RemoveAll(src, order[..k + 1]) == RemoveOne(RemoveAll(src, order[..k]), |src|, order[k])
  {
    assert order[..k + 1][..k] == order[..k];
  }

  /** The loop of RangeSlice, over indices in ascending order. */
  method TrimAll<T>(src: Slice<T>, sliced: Slice<int>) returns (r: Slice<T>)
    requires src.Valid() && sliced.Valid() && (src.arr as object) != sliced.arr && Ascending(sliced.Elems())
    modifies src.arr
    ensures r.Valid() && r.arr == src.arr && r.off == src.off
    ensures r.Elems() == RemoveAll(old(src.Elems()), sliced.Elems())
  {
    ghost var was, order := src.Elems(), sliced.Elems();
    r := src;
    var count, invalid := 0, 0;
    while count < sliced.len
      invariant 0 <= count <= sliced.len && sliced.Elems() == order
      invariant r.Valid() && r.arr == src.arr && r.off == src.off && r.len <= src.len
      invariant r.Elems() == RemoveAll(was, order[..count])
      invariant count - invalid == src.len - r.len
    {
      RemoveNext(was, order, count);
      var idx := sliced.arr[sliced.off + count];
      assert idx == order[count];
      var trim := idx - count + invalid;
      ghost var now := r.Elems();
      assert RemoveAll(was, order[..count + 1]) == RemoveOne(now, |was|, idx);
      if trim < 0 {
        invalid := invalid + 1;
      } else if trim >= r.len {
        RestPastEnd(was, order, count);
        return;
      } else {
        r := RemoveInPlace(r, trim);
        assert r.Elems() == RemoveOne(now, |was|, idx);
      }
      count := count + 1;
    }
    assert order[..count] == order;
  }

  method RangeSlice<T>(src: Slice<T>, sliced: Slice<int>) returns (r: Slice<T>)
    requires src.Valid() && sliced.Valid() && (src.arr as object) != sliced.arr
    modifies src.arr, sliced.arr
    ensures r.Valid() && r.arr == src.arr && r.off == src.off
    ensures Ascending(sliced.Elems()) && multiset(sliced.Elems()) == multiset(old(sliced.Elems()))
    ensures r.Elems() == RemoveAll(old(src.Elems()), sliced.Elems())
    ensures r.Elems() == Without(old(src.Elems()), multiset(old(sliced.Elems())))
      <==> Harmless(multiset(old(sliced.Elems())), src.len)
  {
    r := src;
    ghost var was := src.Elems();
    if sliced.len > 0 {
      Sort(sliced);
      r := TrimAll(src, sliced);
    }
    RemoveAllIff(was, sliced.Elems());
  }
}
