/** Go slices, as far as the price lists need them: a window on a backing array that other
    slices may share.  `append` writes into the backing array whenever its capacity allows,
    so code that appends to a prefix of a slice overwrites the rest of that slice. */
module Slices {

  datatype Slice<T> = Slice(arr: array<T>, off: nat, len: nat) {

    /** The window lies inside the backing array, whose end is also the end of the capacity. */
    ghost predicate Valid() {
      off + len <= arr.Length
    }

    function Elems(): (s: seq<T>)
      requires Valid()
      reads arr
      ensures |s| == len
    {
      arr[off..off + len]
    }

    /** The Go expression s[lo:hi]. */
    function Cut(lo: nat, hi: nat): (r: Slice<T>)
      requires Valid() && lo <= hi <= len
      ensures r.Valid()
    {
      Slice(arr, off + lo, hi - lo)
    }
  }

  /** Two windows that meet make one window. */
  lemma WindowsJoin<T>(s: Slice<T>, t: Slice<T>, r: Slice<T>)
    requires s.Valid() && t.Valid() && s.arr == t.arr && t.off == s.off + s.len
    requires r == Slice(s.arr, s.off, s.len + t.len)
    ensures r.Valid() && r.Elems() == s.Elems() + t.Elems()
  {
  }

  method Empty<T(0)>() returns (r: Slice<T>)
    ensures r.Valid() && fresh(r.arr) && r.Elems() == []
  {
    var a := new T[0];
    r := Slice(a, 0, 0);
  }

  /** The Go statement append(s, x): in place when there is capacity, else in a new array. */
  method Append<T(0)>(s: Slice<T>, x: T) returns (r: Slice<T>)
    requires s.Valid()
    modifies s.arr
    ensures r.Valid() && r.Elems() == old(s.Elems()) + [x]
    ensures r.arr == s.arr || fresh(r.arr)
    ensures s.off + s.len < s.arr.Length ==> r.arr == s.arr && r.off == s.off
    ensures forall k :: 0 <= k < s.arr.Length && k != s.off + s.len ==> s.arr[k] == old(s.arr[k])
  {
    if s.off + s.len < s.arr.Length {
      s.arr[s.off + s.len] := x;
      r := Slice(s.arr, s.off, s.len + 1);
    } else {
      var capacity: nat :| s.len < capacity;
      var a := new T[capacity];
      forall k | 0 <= k < s.len {
        a[k] := s.arr[s.off + k];
      }
      a[s.len] := x;
      r := Slice(a, 0, s.len + 1);
    }
  }

  /** The Go statement copy(dst, src) for slices of one length and distinct backing arrays. */
  method Copy<T>(dst: Slice<T>, src: Slice<T>)
    requires dst.Valid() && src.Valid() && dst.len == src.len && dst.arr != src.arr
    modifies dst.arr
    ensures dst.Elems() == old(src.Elems())
    ensures forall k :: 0 <= k < dst.arr.Length && !(dst.off <= k < dst.off + dst.len) ==> dst.arr[k] == old(dst.arr[k])
  {
    forall k | 0 <= k < dst.len {
      dst.arr[dst.off + k] := src.arr[src.off + k];
    }
  }

  /** The Go statement append(s, t...), for two slices that do not share a backing array. */
  method AppendAll<T(0)>(s: Slice<T>, t: Slice<T>) returns (r: Slice<T>)
    requires s.Valid() && t.Valid() && s.arr != t.arr
    modifies s.arr
    ensures r.Valid() && r.Elems() == old(s.Elems()) + old(t.Elems())
    ensures r.arr == s.arr || fresh(r.arr)
    ensures t.Elems() == old(t.Elems())
    ensures forall k :: 0 <= k < s.arr.Length && !(s.off + s.len <= k < s.off + s.len + t.len) ==> s.arr[k] == old(s.arr[k])
  {
    ghost var front := s.Elems();
    if s.off + s.len + t.len <= s.arr.Length {
      Copy(Slice(s.arr, s.off + s.len, t.len), t);
      r := Slice(s.arr, s.off, s.len + t.len);
    } else {
      var capacity: nat :| s.len + t.len <= capacity;
      var a := new T[capacity];
      Copy(Slice(a, 0, s.len), s);
      Copy(Slice(a, s.len, t.len), t);
      r := Slice(a, 0, s.len + t.len);
    }
    ghost var low, high := Slice(r.arr, r.off, s.len), Slice(r.arr, r.off + s.len, t.len);
    assert low.Elems() == front;
    WindowsJoin(low, high, r);
  }

  /** append([]T{}, s...): a copy in a new array. */
  method Clone<T(0)>(s: Slice<T>) returns (r: Slice<T>)
    requires s.Valid()
    ensures r.Valid() && fresh(r.arr) && r.Elems() == s.Elems()
  {
    var e := Empty();
    r := AppendAll(e, s);
  }

  function Reversed<T>(s: seq<T>): (r: seq<T>)
    ensures |r| == |s|
  {
    if s == [] then [] else Reversed(s[1..]) + [s[0]]
  }

  lemma {:induction false} ReversedAt<T>(s: seq<T>, k: nat)
    requires k < |s|
    ensures Reversed(s)[k] == s[|s| - 1 - k]
  {
    if k < |s| - 1 {
      ReversedAt(s[1..], k);
    }
  }

  lemma {:induction false} ReversedTwice<T>(s: seq<T>)
    ensures Reversed(Reversed(s)) == s
  {
    forall k | 0 <= k < |s|
      ensures Reversed(Reversed(s))[k] == s[k]
    {
      ReversedAt(Reversed(s), k);
      ReversedAt(s, |s| - 1 - k);
    }
  }

  method SwapEnds<T>(s: Slice<T>, i: nat, j: nat)
    requires s.Valid() && i < j < s.len
    modifies s.arr
    ensures s.Elems() == old(s.Elems())[i := old(s.Elems())[j]][j := old(s.Elems())[i]]
    ensures forall k :: 0 <= k < s.arr.Length && !(s.off <= k < s.off + s.len) ==> s.arr[k] == old(s.arr[k])
  {
    s.arr[s.off + i], s.arr[s.off + j] := s.arr[s.off + j], s.arr[s.off + i];
  }

  /** ReverseFloat64Slice: swaps from both ends towards the middle, inside the window only. */
  method Reverse<T>(s: Slice<T>)
    requires s.Valid()
    modifies s.arr
    ensures s.Elems() == Reversed(old(s.Elems()))
    ensures forall k :: 0 <= k < s.arr.Length && !(s.off <= k < s.off + s.len) ==> s.arr[k] == old(s.arr[k])
  {
    ghost var was := s.Elems();
    ghost var now := was;
    var i, j := 0, s.len - 1;
    while i < j
      invariant 0 <= i <= s.len && j == s.len - 1 - i && i <= j + 1
      invariant forall k :: 0 <= k < s.arr.Length && !(s.off <= k < s.off + s.len) ==> s.arr[k] == old(s.arr[k])
      invariant |now| == s.len && now == s.Elems()
      invariant forall k :: i <= k <= j ==> now[k] == was[k]
      invariant forall k :: 0 <= k < s.len && !(i <= k <= j) ==> now[k] == was[s.len - 1 - k]
    {
      SwapEnds(s, i, j);
      now := now[i := was[j]][j := was[i]];
      i, j := i + 1, j - 1;
    }
    forall k | 0 <= k < s.len
      ensures s.Elems()[k] == Reversed(was)[k]
    {
      ReversedAt(was, k);
    }
  }
}
