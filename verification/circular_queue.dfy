/**
 The fixed-capacity ring buffer that holds the waiting line (river-dipping.py, class
 `CircularQueue`). The backing store is a sequence of `size` cells that start out empty;
 `front` and `rear` index the oldest and newest items and are both -1 while the queue is
 empty. The functions below follow the source's index arithmetic, and `Contents` is the
 abstraction that reads the items back in arrival order.
 */
module CircularQueue {
  import opened Wrappers

  datatype Queue<T> = Queue(cells: seq<Option<T>>, front: int, rear: int, size: nat)

  /** The shape every queue keeps: `front` and `rear` are -1 together, and otherwise both
      are indices into the store. */
  predicate Indices<T>(q: Queue<T>)
  {
    && q.size >= 1
    && |q.cells| == q.size
    && (q.front == -1 <==> q.rear == -1)
    && (q.front != -1 ==> 0 <= q.front < q.size && 0 <= q.rear < q.size)
  }

  /** Number of items held, read off the two indices. */
  function Count<T>(q: Queue<T>): nat
    requires Indices(q)
  {
    if q.front == -1 then 0
    else if q.front <= q.rear then q.rear - q.front + 1
    else q.rear + q.size - q.front + 1
  }

  /** Index in the store of the `i`-th oldest item. */
  function Pos<T>(q: Queue<T>, i: nat): nat
    requires Indices(q)
  {
    (q.front + i) % q.size
  }

  /** A well-formed queue: the cells between `front` and `rear` (wrapping around) are filled. */
  predicate Valid<T>(q: Queue<T>)
  {
    && Indices(q)
    && forall i :: 0 <= i < Count(q) ==> q.cells[Pos(q, i)].Some?
  }

  /** The items of the queue, oldest first. */
  function Contents<T>(q: Queue<T>): (items: seq<T>)
    requires Valid(q)
    ensures |items| == Count(q)
  {
    seq(Count(q), i requires 0 <= i < Count(q) => q.cells[Pos(q, i)].value)
  }

  /** `CircularQueue(size)`: every cell empty, both indices -1. */
  function New<T>(size: nat): (q: Queue<T>)
    requires size >= 1
    ensures Valid(q) && q.size == size
    ensures Contents(q) == []
    ensures q.front == -1 && q.rear == -1
  {
    Queue(seq(size, _ => None), -1, -1, size)
  }

  /** `is_empty`. */
  function IsEmpty<T>(q: Queue<T>): (empty: bool)
    requires Valid(q)
    ensures empty <==> Contents(q) == []
    ensures empty <==> q.rear == -1
  {
    q.front == -1
  }

  lemma ModSmall(k: int, m: int)
    requires 0 <= k < m
    ensures k % m == k
  {
  }

  lemma ModWrap(k: int, m: int)
    requires 0 < m <= k < 2 * m
    ensures k % m == k - m
  {
  }

  /** The source's full test, `(rear + 1) % size == front`, holds exactly when all
      `size` cells are taken. */
  lemma FullTest<T>(q: Queue<T>)
    requires Indices(q)
    ensures ((q.rear + 1) % q.size == q.front) <==> Count(q) == q.size
  {
    if q.rear + 1 < q.size {
      ModSmall(q.rear + 1, q.size);
    } else {
      ModWrap(q.rear + 1, q.size);
    }
  }

  /** `enqueue`: on a full queue it answers `false` and leaves the queue as it was;
      otherwise the item joins the back of the line. */
  function Enqueue<T>(q: Queue<T>, item: T): (r: (bool, Queue<T>))
    requires Valid(q)
    ensures Valid(r.1) && r.1.size == q.size
    ensures !r.0 <==> |Contents(q)| == q.size
    ensures !r.0 ==> r.1 == q
    ensures r.0 ==> Contents(r.1) == Contents(q) + [item]
  {
    FullTest(q);
    if (q.rear + 1) % q.size == q.front then
      (false, q)
    else
      var front := if q.front == -1 then 0 else q.front;
      var rear := (q.rear + 1) % q.size;
      var q' := Queue(q.cells[rear := Some(item)], front, rear, q.size);
      EnqueueShifts(q, item, q');
      (true, q')
  }

  lemma EnqueueShifts<T>(q: Queue<T>, item: T, q': Queue<T>)
    requires Valid(q) && Count(q) < q.size
    requires q'.size == q.size && q'.front == (if q.front == -1 then 0 else q.front)
    requires q'.rear == (q.rear + 1) % q.size
    requires q'.cells == q.cells[q'.rear := Some(item)]
    ensures Valid(q') && Contents(q') == Contents(q) + [item]
  {
    var n := Count(q);
    if q.rear + 1 < q.size { ModSmall(q.rear + 1, q.size); } else { ModWrap(q.rear + 1, q.size); }
    assert Indices(q');
    assert Count(q') == n + 1;
    forall i | 0 <= i < n + 1
      ensures Pos(q', i) == (if i < n then Pos(q, i) else q'.rear)
      ensures i < n ==> Pos(q, i) != q'.rear
    {
      if q.front == -1 {
      } else if q.front + i < q.size {
        ModSmall(q.front + i, q.size);
      } else {
        ModWrap(q.front + i, q.size);
      }
    }
    assert Valid(q');
  }

  /** `dequeue`: on an empty queue it answers `None` and changes nothing; otherwise it
      hands back the oldest item, and taking the last one resets both indices to -1. */
  function Dequeue<T>(q: Queue<T>): (r: (Option<T>, Queue<T>))
    requires Valid(q)
    ensures Valid(r.1) && r.1.size == q.size
    ensures Contents(q) == [] ==> r.0 == None && r.1 == q
    ensures Contents(q) != [] ==> r.0 == Some(Contents(q)[0]) && Contents(r.1) == Contents(q)[1..]
    ensures |Contents(q)| == 1 ==> r.1.front == -1 && r.1.rear == -1
  {
    if q.front == -1 then
      (None, q)
    else
      var item := q.cells[q.front];
      FrontIsOldest(q);
      if q.front == q.rear then
        (item, q.(front := -1, rear := -1))
      else
        var q' := q.(front := (q.front + 1) % q.size);
        DequeueShifts(q, q');
        (item, q')
  }

  /** The cell at `front` holds the oldest item, and `front == rear` exactly when it is the
      only one. */
  lemma FrontIsOldest<T>(q: Queue<T>)
    requires Valid(q) && q.front != -1
    ensures Pos(q, 0) == q.front
    ensures q.cells[q.front] == Some(Contents(q)[0])
    ensures (q.front == q.rear) <==> Count(q) == 1
  {
    ModSmall(q.front, q.size);
  }

  lemma DequeueShifts<T>(q: Queue<T>, q': Queue<T>)
    requires Valid(q) && q.front != -1 && q.front != q.rear
    requires q' == q.(front := (q.front + 1) % q.size)
    ensures Valid(q') && Contents(q') == Contents(q)[1..]
  {
    var n := Count(q);
    if q.front + 1 < q.size { ModSmall(q.front + 1, q.size); } else { ModWrap(q.front + 1, q.size); }
    assert Indices(q');
    assert Count(q') == n - 1;
    forall i | 0 <= i < n - 1
      ensures Pos(q', i) == Pos(q, i + 1)
    {
      if q.front + 1 + i < q.size {
        ModSmall(q.front + 1 + i, q.size);
        if q'.front + i < q.size { ModSmall(q'.front + i, q.size); } else { ModWrap(q'.front + i, q.size); }
      } else {
        ModWrap(q.front + 1 + i, q.size);
        if q'.front + i < q.size { ModSmall(q'.front + i, q.size); } else { ModWrap(q'.front + i, q.size); }
      }
    }
    assert Valid(q');
  }

  /** Offers each item of `xs` in turn, ignoring the answers, as the engine does. */
  function EnqueueAll<T>(q: Queue<T>, xs: seq<T>): (r: Queue<T>)
    requires Valid(q)
    ensures Valid(r) && r.size == q.size
    decreases |xs|
  {
    if xs == [] then q else EnqueueAll(Enqueue(q, xs[0]).1, xs[1..])
  }

  /** Dequeues until the queue reports empty, collecting what comes out. */
  function DrainAll<T>(q: Queue<T>): seq<T>
    requires Valid(q)
    decreases Count(q)
  {
    if IsEmpty(q) then []
    else
      var (item, q') := Dequeue(q);
      [item.value] + DrainAll(q')
  }

  /** Dequeuing everything yields the contents, oldest first. */
  lemma {:induction false} DrainYieldsContents<T>(q: Queue<T>)
    requires Valid(q)
    ensures DrainAll(q) == Contents(q)
    decreases Count(q)
  {
    if !IsEmpty(q) {
      DrainYieldsContents(Dequeue(q).1);
    }
  }

  /** Items that fit are appended in the order they are offered. */
  lemma {:induction false} EnqueueAllAppends<T>(q: Queue<T>, xs: seq<T>)
    requires Valid(q) && |Contents(q)| + |xs| <= q.size
    ensures Contents(EnqueueAll(q, xs)) == Contents(q) + xs
    decreases |xs|
  {
    if xs != [] {
      var q' := Enqueue(q, xs[0]).1;
      EnqueueAllAppends(q', xs[1..]);
      assert Contents(q) + [xs[0]] + xs[1..] == Contents(q) + xs;
    }
  }

  /** FIFO order: whatever fits into a fresh queue comes out in the order it went in. */
  lemma FifoOrder<T>(size: nat, xs: seq<T>)
    requires size >= 1 && |xs| <= size
    ensures DrainAll(EnqueueAll(New(size), xs)) == xs
  {
    EnqueueAllAppends(New<T>(size), xs);
    DrainYieldsContents(EnqueueAll(New<T>(size), xs));
  }

  /** Exactly `size` items fit: after `size` offers to a fresh queue every offer succeeded,
      and the next one is refused. */
  lemma CapacityIsExact<T>(size: nat, xs: seq<T>, extra: T)
    requires size >= 1 && |xs| == size
    ensures Contents(EnqueueAll(New(size), xs)) == xs
    ensures !Enqueue(EnqueueAll(New(size), xs), extra).0
  {
    EnqueueAllAppends(New<T>(size), xs);
  }
}
