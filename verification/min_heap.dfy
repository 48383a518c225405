/**
 The two `heapq` min-heaps of the engine, modelled abstractly. An entry is a pair
 `(key, tag)` compared as a Python tuple: by key, then by tag. For the slot heap the key is
 the time the slot becomes available and the tag is the slot id; for the event heap the key
 is the exit time and the tag identifies the person. A heap is kept as a sequence sorted
 under that order, so the heap's minimum is the first element; `heapq`'s array layout is not
 modelled.
 */
module MinHeap {

  datatype Entry = Entry(key: int, tag: nat)

  /** Python's tuple order on `(key, tag)`. */
  predicate Below(a: Entry, b: Entry)
  {
    a.key < b.key || (a.key == b.key && a.tag <= b.tag)
  }

  predicate Sorted(h: seq<Entry>)
  {
    forall i, j :: 0 <= i < j < |h| ==> Below(h[i], h[j])
  }

  /** `heappush`: the entry joins the heap and the heap stays ordered. */
  function Push(h: seq<Entry>, e: Entry): (r: seq<Entry>)
    ensures multiset(r) == multiset(h) + multiset{e}
    ensures |r| == |h| + 1
    ensures Sorted(h) ==> Sorted(r)
  {
    if h == [] || Below(e, h[0]) then
      [e] + h
    else
      var rest := Push(h[1..], e);
      assert h == [h[0]] + h[1..];
      PushStep(h, e, rest);
      [h[0]] + rest
  }

  lemma PushStep(h: seq<Entry>, e: Entry, rest: seq<Entry>)
    requires h != [] && !Below(e, h[0])
    requires multiset(rest) == multiset(h[1..]) + multiset{e}
    requires Sorted(h[1..]) ==> Sorted(rest)
    ensures Sorted(h) ==> Sorted([h[0]] + rest)
  {
    if Sorted(h) {
      forall y | y in multiset(rest)
        ensures Below(h[0], y)
      {
        if y != e {
          assert y in multiset(h[1..]);
          var k :| 0 <= k < |h[1..]| && h[1..][k] == y;
          assert h[k + 1] == y;
        }
      }
      ConsSorted(h[0], rest);
    }
  }

  /** Putting an entry in front of an ordered sequence whose entries are all above it keeps
      it ordered. */
  lemma ConsSorted(x: Entry, s: seq<Entry>)
    requires Sorted(s)
    requires forall y :: y in multiset(s) ==> Below(x, y)
    ensures Sorted([x] + s)
  {
    forall j | 0 < j < |[x] + s|
      ensures Below(x, ([x] + s)[j])
    {
      assert ([x] + s)[j] == s[j - 1];
      assert s[j - 1] in multiset(s);
    }
  }

  /** The first entry of an ordered heap is what `heappop` returns: it is below every entry. */
  lemma HeadIsMinimum(h: seq<Entry>)
    requires Sorted(h) && h != []
    ensures forall x :: x in h ==> Below(h[0], x)
  {
  }

  /** The order is total and antisymmetric, so an ordered heap is determined by its entries:
      any two ordered sequences holding the same multiset of entries are equal. The choice of
      representation therefore fixes nothing that `heapq` leaves open. */
  lemma {:induction false} SortedUnique(a: seq<Entry>, b: seq<Entry>)
    requires Sorted(a) && Sorted(b) && multiset(a) == multiset(b)
    ensures a == b
    decreases |a|
  {
    if a != [] {
      assert |b| == |multiset(b)| == |a|;
      assert a[0] in multiset(b) && b[0] in multiset(a);
      assert Below(a[0], b[0]) && Below(b[0], a[0]);
      assert a == [a[0]] + a[1..] && b == [b[0]] + b[1..];
      assert multiset(a[1..]) == multiset(a) - multiset{a[0]};
      assert multiset(b[1..]) == multiset(b) - multiset{b[0]};
      SortedUnique(a[1..], b[1..]);
    }
  }
}
