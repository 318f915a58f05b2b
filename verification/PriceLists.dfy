/** The price lists of utils/common.go: strictly sorted, the best price last.  Asks are kept in
    descending order (`reverse`), bids in ascending order. */
module PriceLists {
  import opened Slices

  type Price = real

  function Elements(l: seq<Price>): set<Price> {
    set p | p in l
  }

  /** p stands before q in a list of the given direction. */
  predicate Before(reverse: bool, p: Price, q: Price) {
    if reverse then p > q else p < q
  }

  ghost predicate Sorted(l: seq<Price>, reverse: bool) {
    forall i, j :: 0 <= i < j < |l| ==> Before(reverse, l[i], l[j])
  }

  /** sort.Search as used here: the first index whose price does not stand before `price`. */
  function Position(l: seq<Price>, price: Price, reverse: bool): (idx: nat)
    ensures idx <= |l|
    ensures forall i :: 0 <= i < idx ==> Before(reverse, l[i], price)
    ensures idx < |l| ==> !Before(reverse, l[idx], price)
  {
    if l == [] || !Before(reverse, l[0], price) then 0 else 1 + Position(l[1..], price, reverse)
  }

  /** UniPriceSearch: the index of the price, or -1. */
  function UniPriceSearch(l: seq<Price>, price: Price, reverse: bool): (idx: int)
    ensures -1 <= idx < |l|
    ensures idx >= 0 ==> l[idx] == price
    ensures Sorted(l, reverse) ==> (idx == -1 <==> price !in l)
  {
    var idx := Position(l, price, reverse);
    if idx >= |l| || l[idx] != price then -1 else idx
  }

  function Inserted(l: seq<Price>, price: Price, reverse: bool): (r: seq<Price>)
    ensures |r| == |l| + 1
  {
    var idx := Position(l, price, reverse);
    l[..idx] + [price] + l[idx..]
  }

  function Removed(l: seq<Price>, price: Price, reverse: bool): seq<Price> {
    var idx := UniPriceSearch(l, price, reverse);
    if idx < 0 then l else l[..idx] + l[idx + 1..]
  }

  /** A position is determined by what stands on either side of it. */
  lemma PositionUnique(l: seq<Price>, price: Price, reverse: bool, idx: nat)
    requires idx <= |l|
    requires forall i :: 0 <= i < idx ==> Before(reverse, l[i], price)
    requires idx < |l| ==> !Before(reverse, l[idx], price)
    ensures idx == Position(l, price, reverse)
  {
  }

  lemma PositionOf(l: seq<Price>, reverse: bool, k: nat)
    requires Sorted(l, reverse) && k < |l|
    ensures Position(l, l[k], reverse) == k && UniPriceSearch(l, l[k], reverse) == k
  {
    PositionUnique(l, l[k], reverse, k);
  }

  lemma AfterPosition(l: seq<Price>, price: Price, reverse: bool)
    requires Sorted(l, reverse) && price !in l
    ensures forall i :: Position(l, price, reverse) <= i < |l| ==> Before(reverse, price, l[i])
  {
    var idx := Position(l, price, reverse);
    if idx < |l| {
      assert l[idx] in l;
    }
  }

  lemma InsertedSorted(l: seq<Price>, price: Price, reverse: bool)
    requires Sorted(l, reverse) && price !in l
    ensures Sorted(Inserted(l, price, reverse), reverse)
  {
    AfterPosition(l, price, reverse);
    var idx, r := Position(l, price, reverse), Inserted(l, price, reverse);
    forall i, j | 0 <= i < j < |r| ensures Before(reverse, r[i], r[j]) {
      if i != idx && j != idx {
        var i', j' := if i < idx then i else i - 1, if j < idx then j else j - 1;
        assert r[i] == l[i'] && r[j] == l[j'];
      }
    }
  }

  lemma InsertedPrices(l: seq<Price>, price: Price, reverse: bool)
    ensures forall p :: p in Inserted(l, price, reverse) <==> p in l || p == price
  {
    var idx := Position(l, price, reverse);
    assert l == l[..idx] + l[idx..];
  }

  lemma RemovedSorted(l: seq<Price>, price: Price, reverse: bool)
    requires Sorted(l, reverse)
    ensures Sorted(Removed(l, price, reverse), reverse)
  {
  }

  lemma RemovedPrices(l: seq<Price>, price: Price, reverse: bool)
    requires Sorted(l, reverse)
    ensures forall p :: p in Removed(l, price, reverse) <==> p in l && p != price
  {
    var idx := UniPriceSearch(l, price, reverse);
    if idx >= 0 {
      var r := l[..idx] + l[idx + 1..];
      assert l == l[..idx] + [price] + l[idx + 1..];
      assert price !in l[..idx] && price !in l[idx + 1..];
    }
  }

  /** Removing the price just added restores the list, at the index it was added. */
  lemma RemoveAfterAdd(l: seq<Price>, price: Price, reverse: bool)
    requires Sorted(l, reverse) && price !in l
    ensures Removed(Inserted(l, price, reverse), price, reverse) == l
    ensures UniPriceSearch(Inserted(l, price, reverse), price, reverse) == Position(l, price, reverse)
  {
    var idx, r := Position(l, price, reverse), Inserted(l, price, reverse);
    InsertedSorted(l, price, reverse);
    PositionOf(r, reverse, idx);
    DropMiddle(l[..idx], price, l[idx..]);
    assert l == l[..idx] + l[idx..];
  }

  lemma DropMiddle(left: seq<Price>, price: Price, right: seq<Price>)
    ensures var r := left + [price] + right; r[..|left|] + r[|left| + 1..] == left + right
  {
  }

  /** Adding back the price just removed restores the list, at the index it was removed from. */
  lemma AddAfterRemove(l: seq<Price>, price: Price, reverse: bool)
    requires Sorted(l, reverse) && price in l
    ensures Inserted(Removed(l, price, reverse), price, reverse) == l
    ensures Position(Removed(l, price, reverse), price, reverse) == UniPriceSearch(l, price, reverse)
  {
    var idx, r := UniPriceSearch(l, price, reverse), Removed(l, price, reverse);
    PositionUnique(r, price, reverse, idx);
    assert l == l[..idx] + [price] + l[idx + 1..];
  }

  /** The prices strictly better than p. */
  ghost function Better(l: seq<Price>, p: Price, reverse: bool): set<Price> {
    set q | q in l && Before(reverse, p, q)
  }

  /** The distance from the end of the list is the rank: one plus the number of better prices. */
  lemma {:induction false} RankCountsBetter(l: seq<Price>, reverse: bool, k: nat)
    requires Sorted(l, reverse) && k < |l|
    ensures |l| - k == 1 + |Better(l, l[k], reverse)|
    decreases |l| - k
  {
    if k == |l| - 1 {
      assert Better(l, l[k], reverse) == {} by {
        forall q | q in l ensures !Before(reverse, l[k], q) {
          var i :| 0 <= i < |l| && l[i] == q;
        }
      }
    } else {
      RankCountsBetter(l, reverse, k + 1);
      assert Better(l, l[k], reverse) == Better(l, l[k + 1], reverse) + {l[k + 1]} by {
        forall q | q in l ensures Before(reverse, l[k], q) <==> Before(reverse, l[k + 1], q) || q == l[k + 1] {
          var i :| 0 <= i < |l| && l[i] == q;
        }
      }
    }
  }

  /** Two strictly sorted lists of the same prices are the same list. */
  lemma {:induction false} SortedUnique(l: seq<Price>, m: seq<Price>, reverse: bool)
    requires Sorted(l, reverse) && Sorted(m, reverse)
    requires forall p :: p in l <==> p in m
    ensures l == m
  {
    assert l != [] ==> l[0] in l && l[0] in m;
    assert m != [] ==> m[0] in m && m[0] in l;
    if l != [] {
      assert l[0] == m[0];
      forall p ensures p in l[1..] <==> p in m[1..] {
        TailPrices(l, p, reverse);
        TailPrices(m, p, reverse);
      }
      SortedUnique(l[1..], m[1..], reverse);
    }
  }

  lemma TailPrices(l: seq<Price>, p: Price, reverse: bool)
    requires Sorted(l, reverse) && l != []
    ensures p in l[1..] <==> p in l && p != l[0]
  {
    assert l == [l[0]] + l[1..];
  }

  lemma SlotIsPosition(l: seq<Price>, price: Price, reverse: bool, at: nat)
    requires Sorted(l, reverse) && at <= |l|
    requires at > 0 ==> Before(reverse, l[at - 1], price)
    requires at < |l| ==> Before(reverse, price, l[at])
    ensures at == Position(l, price, reverse)
  {
    PositionUnique(l, price, reverse, at);
  }

  /** The insertions of UniPriceAdd.  In the middle, the tail is copied out first, since appending
      the price to the head overwrites the first price of the tail in the shared backing array. */
  method InsertAt(s: Slice<Price>, at: nat, price: Price) returns (r: Slice<Price>)
    requires s.Valid() && at <= s.len
    modifies s.arr
    ensures r.Valid() && (r.arr == s.arr || fresh(r.arr))
    ensures r.Elems() == old(s.Elems())[..at] + [price] + old(s.Elems())[at..]
  {
    ghost var was := s.Elems();
    if at == 0 {
      var head := Empty();
      head := Append(head, price);
      r := AppendAll(head, s);
    } else if at == s.len {
      r := Append(s, price);
    } else {
      var head, tail := s.Cut(0, at), s.Cut(at, s.len);
      assert head.Elems() == was[..at] && tail.Elems() == was[at..];
      var right := Clone(tail);
      assert head.Elems() == was[..at];
      var left := Append(head, price);
      r := AppendAll(left, right);
    }
  }

  /** The removals of UniPriceRemove: in the middle, the tail is shifted down in place. */
  method RemoveAt(s: Slice<Price>, at: nat) returns (r: Slice<Price>)
    requires s.Valid() && at < s.len
    modifies s.arr
    ensures r.Valid() && r.arr == s.arr
    ensures r.Elems() == old(s.Elems())[..at] + old(s.Elems())[at + 1..]
  {
    ghost var was := s.Elems();
    var lastIdx := s.len - 1;
    if at == 0 {
      r := s.Cut(1, s.len);
    } else if at == lastIdx {
      r := s.Cut(0, at);
    } else {
      var left, hole, tail := s.Cut(0, at), s.Cut(at, lastIdx), s.Cut(at + 1, s.len);
      assert left.Elems() == was[..at] && tail.Elems() == was[at + 1..];
      var right := Clone(tail);
      Copy(hole, right);
      assert left.Elems() == was[..at];
      r := s.Cut(0, lastIdx);
      WindowsJoin(left, hole, r);
    }
  }

  /** The bisection of UniPriceAdd, for a price between the two ends of the list. */
  method FindSlot(s: Slice<Price>, price: Price, reverse: bool) returns (idx: nat)
    requires s.Valid() && s.len > 1 && Sorted(s.Elems(), reverse)
    requires Before(reverse, s.Elems()[0], price) && Before(reverse, price, s.Elems()[s.len - 1])
    requires price !in s.Elems()
    ensures 0 < idx < s.len && idx == Position(s.Elems(), price, reverse)
  {
    ghost var l := s.Elems();
    var start, end := 0, s.len - 1;
    while true
      invariant 0 <= start < end < s.len
      invariant Before(reverse, l[start], price) && Before(reverse, price, l[end])
      decreases end - start
    {
      if end - start <= 1 {
        SlotIsPosition(l, price, reverse, start + 1);
        return start + 1;
      }
      var mid := (end - start) / 2 + start;
      assert l[mid] in l && l[mid - 1] in l && l[mid + 1] in l;
      if Before(reverse, s.arr[s.off + mid], price) {
        if Before(reverse, price, s.arr[s.off + mid + 1]) {
          SlotIsPosition(l, price, reverse, mid + 1);
          return mid + 1;
        }
        start := mid;
      } else {
        if Before(reverse, s.arr[s.off + mid - 1], price) {
          SlotIsPosition(l, price, reverse, mid);
          return mid;
        }
        end := mid;
      }
    }
  }

  /** UniPriceAdd.  The source writes the search twice, once for each direction; `Before` covers
      both.  The list must be sorted and must not hold the price, as its comment demands. */
  method UniPriceAdd(s: Slice<Price>, price: Price, reverse: bool) returns (idx: nat, r: Slice<Price>)
    requires s.Valid() && Sorted(s.Elems(), reverse) && price !in s.Elems()
    modifies s.arr
    ensures r.Valid() && (r.arr == s.arr || fresh(r.arr))
    ensures idx == Position(old(s.Elems()), price, reverse)
    ensures r.Elems() == Inserted(old(s.Elems()), price, reverse)
  {
    if s.len < 1 {
      idx := 0;
    } else if Before(reverse, price, s.Elems()[0]) {
      idx := 0;
      SlotIsPosition(s.Elems(), price, reverse, idx);
    } else if Before(reverse, s.Elems()[s.len - 1], price) {
      idx := s.len;
      SlotIsPosition(s.Elems(), price, reverse, idx);
    } else {
      assert s.Elems()[0] in s.Elems() && s.Elems()[s.len - 1] in s.Elems();
      idx := FindSlot(s, price, reverse);
    }
    r := InsertAt(s, idx, price);
  }

  method UniPriceRemove(s: Slice<Price>, price: Price, reverse: bool) returns (idx: int, r: Slice<Price>)
    requires s.Valid()
    modifies s.arr
    ensures r.Valid() && r.arr == s.arr
    ensures idx == UniPriceSearch(old(s.Elems()), price, reverse)
    ensures r.Elems() == Removed(old(s.Elems()), price, reverse)
  {
    idx := UniPriceSearch(s.Elems(), price, reverse);
    if idx < 0 {
      r := s;
    } else {
      r := RemoveAt(s, idx);
    }
  }
}
