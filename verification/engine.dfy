/**
 The scheduling engine of river-dipping.py (class `RiverDipping`) as an immutable state with
 one pure function per method. The slot heap and the event heap are ordered sequences of
 `MinHeap.Entry`; the waiting line is a `CircularQueue.Queue` of person handles. Python's
 person objects live in `people`, and a handle is an index into it, standing for the object
 reference the source passes around.

 A transition either yields the next state or stops the way the source stops:
 `NoneDereference` when `assign_slot` is handed the `None` that fills an unused batch
 position (the `AttributeError` of `person.status = ...`), and `ExitTimeTie` when an exit
 event is pushed next to one with the same exit time, where `heapq` would compare two
 `Person` objects (the `TypeError` of `<`).
 */
module RiverDipping {
  import opened Wrappers
  import opened MinHeap
  import CQ = CircularQueue

  datatype Status = Waiting | Dipping | Exiting

  /** `Person`: its slot and exit time are unset (`None`) until it is assigned. */
  datatype Person = Person(id: int, arrivalTime: int, status: Status, slot: Option<nat>, exitTime: Option<int>)

  datatype Crash = NoneDereference | ExitTimeTie

  /** `RiverDipping`: slot count, dip duration, slot heap of (available time, slot id),
      waiting line, event heap of (exit time, person), clock, and the person objects. */
  datatype Engine = Engine(
    n: nat,
    dipTime: int,
    slots: seq<Entry>,
    waiting: CQ.Queue<nat>,
    events: seq<Entry>,
    time: int,
    people: seq<Person>)

  /** The hard-coded upper bound on the batch size. */
  const MaxBatch: nat := 10

  function Min(a: int, b: int): int { if a <= b then a else b }

  function Max(a: int, b: int): int { if a >= b then a else b }

  /** `min(self.n, 10)`. */
  function BatchSize(n: nat): nat { Min(n, MaxBatch) }

  function NewPerson(id: int, arrivalTime: int): Person
  {
    Person(id, arrivalTime, Waiting, None, None)
  }

  /** Shape facts every state keeps: the heaps are ordered, the waiting line is a ring
      buffer, every handle names a person, and every person with a pending exit has a slot. */
  predicate WellFormed(s: Engine)
  {
    && s.n >= 1
    && Sorted(s.slots)
    && Sorted(s.events)
    && CQ.Valid(s.waiting)
    && (forall i :: 0 <= i < |CQ.Contents(s.waiting)| ==> CQ.Contents(s.waiting)[i] < |s.people|)
    && (forall i :: 0 <= i < |s.events| ==> s.events[i].tag < |s.people|)
    && (forall i :: 0 <= i < |s.events| ==> s.people[s.events[i].tag].slot.Some?)
  }

  /** `process_queue` has nothing to do: nobody waits, or fewer slot entries than a batch. */
  predicate GateClosed(s: Engine)
    requires CQ.Valid(s.waiting)
  {
    CQ.IsEmpty(s.waiting) || |s.slots| < BatchSize(s.n)
  }

  /** Some pending exit event is due: the loop of `process_events` would pop. */
  predicate EventDue(s: Engine)
  {
    |s.events| > 0 && s.events[0].key <= s.time
  }

  /** Who stays who: every person keeps its id and arrival time, and nobody disappears. */
  predicate SamePeople(s: Engine, t: Engine)
  {
    && |s.people| <= |t.people|
    && forall i :: 0 <= i < |s.people| ==>
         t.people[i].id == s.people[i].id && t.people[i].arrivalTime == s.people[i].arrivalTime
  }

  /** Parameters a transition never touches. */
  predicate SameSetup(s: Engine, t: Engine)
  {
    t.n == s.n && t.dipTime == s.dipTime && t.waiting.size == s.waiting.size
  }

  /** A later state of the same run: well-formed, same parameters, same people, and a clock
      that has not gone back. */
  predicate Evolves(s: Engine, t: Engine)
  {
    WellFormed(t) && SameSetup(s, t) && SamePeople(s, t) && t.time >= s.time
  }

  lemma EvolvesTrans(s: Engine, t: Engine, u: Engine)
    requires Evolves(s, t) && Evolves(t, u)
    ensures Evolves(s, u)
  {
  }

  /** With ordered events, the first one not being due means none is. */
  lemma NothingDue(s: Engine)
    requires WellFormed(s) && !EventDue(s)
    ensures forall i :: 0 <= i < |s.events| ==> s.events[i].key > s.time
  {
    if s.events != [] {
      HeadIsMinimum(s.events);
      forall i | 0 < i < |s.events|
        ensures s.events[i].key > s.time
      {
        assert s.events[i] in s.events;
      }
    }
  }

  /** Popping the first event keeps the state well-formed. */
  lemma PopKeepsShape(s: Engine)
    requires WellFormed(s) && |s.events| > 0
    ensures WellFormed(s.(events := s.events[1..]))
  {
    var t := s.(events := s.events[1..]);
    assert forall i :: 0 <= i < |t.events| ==> t.events[i] == s.events[i + 1];
  }

  /** `RiverDipping.__init__`, with the waiting line's capacity as a parameter: slots
      0 .. n-1 all available at time 0, nobody waiting, no events, clock at 0. */
  function Init(n: nat, dipTime: int, capacity: nat): (s: Engine)
    requires n >= 1 && capacity >= 1
    ensures WellFormed(s) && s.n == n && s.dipTime == dipTime && s.waiting.size == capacity
    ensures |s.slots| == n && forall i :: 0 <= i < n ==> s.slots[i].tag == i && s.slots[i].key == 0
    ensures CQ.Contents(s.waiting) == [] && s.events == [] && s.time == 0 && s.people == []
  {
    Engine(n, dipTime, seq(n, i requires 0 <= i < n => Entry(0, i)), CQ.New(capacity), [], 0, [])
  }

  /** One position of a batch: the dequeued person (or `None`), the slot, and the time the
      slot became available. */
  datatype Pairing = Pairing(person: Option<nat>, slot: nat, available: int)

  /** Position `i` of `batch` pairs the `i`-th smallest slot entry with the `i`-th person of
      the line `c`, or with `None` past the end of the line. */
  predicate Paired(slots: seq<Entry>, c: seq<nat>, batch: seq<Pairing>)
  {
    && |batch| <= |slots|
    && (forall i :: 0 <= i < |batch| ==> batch[i].slot == slots[i].tag && batch[i].available == slots[i].key)
    && (forall i :: 0 <= i < |batch| ==> batch[i].person == (if i < |c| then Some(c[i]) else None))
  }

  /** One pass of the inner `for` loop: `k` times, pop the smallest slot entry and dequeue a
      person, who is `None` once the line is empty. */
  function TakeRound(slots: seq<Entry>, waiting: CQ.Queue<nat>, k: nat): (r: (seq<Pairing>, seq<Entry>, CQ.Queue<nat>))
    requires |slots| >= k && CQ.Valid(waiting)
    ensures CQ.Valid(r.2) && r.2.size == waiting.size
    ensures |r.0| == k && r.1 == slots[k..]
    ensures Paired(slots, CQ.Contents(waiting), r.0)
    ensures CQ.Contents(r.2) == CQ.Contents(waiting)[Min(k, |CQ.Contents(waiting)|)..]
    decreases k
  {
    if k == 0 then
      ([], slots, waiting)
    else
      var slot := slots[0];
      var (person, waiting') := CQ.Dequeue(waiting);
      var (rest, slots', waiting'') := TakeRound(slots[1..], waiting', k - 1);
      var round := [Pairing(person, slot.tag, slot.key)] + rest;
      assert Paired(slots, CQ.Contents(waiting), round) by {
        var c := CQ.Contents(waiting);
        forall i | 1 <= i < k
          ensures round[i].person == (if i < |c| then Some(c[i]) else None)
        {
          assert round[i] == rest[i - 1];
          if |c| == 0 {
          } else {
            assert i - 1 < |CQ.Contents(waiting')| <==> i < |c|;
            if i < |c| { assert CQ.Contents(waiting')[i - 1] == c[i]; }
          }
        }
      }
      (round, slots', waiting'')
  }

  /** `len` is a whole number of rounds of `size`. */
  predicate WholeRounds(len: nat, size: nat)
    requires size >= 1
    decreases len
  {
    len == 0 || (len >= size && WholeRounds(len - size, size))
  }

  /** What the `while` loop of `process_queue` leaves: a batch of whole rounds pairing the
      smallest slot entries with the people at the head of the line, the remaining slot
      entries and the shortened line; it stopped because the line is empty or fewer than
      `size` slot entries are left, and it did not start a round past the end of the line. */
  predicate Collected(slots: seq<Entry>, waiting: CQ.Queue<nat>, size: nat, r: (seq<Pairing>, seq<Entry>, CQ.Queue<nat>))
    requires size >= 1 && CQ.Valid(waiting)
  {
    var c := CQ.Contents(waiting);
    && CQ.Valid(r.2) && r.2.size == waiting.size
    && Paired(slots, c, r.0)
    && r.1 == slots[|r.0|..]
    && WholeRounds(|r.0|, size)
    && CQ.Contents(r.2) == c[Min(|r.0|, |c|)..]
    && (CQ.IsEmpty(r.2) || |r.1| < size)
    && (|r.0| > 0 ==> |r.0| - size < |c|)
  }

  /** The `while` loop of `process_queue`: whole rounds of `size` slots while somebody waits
      and the slot heap holds at least `size` entries. */
  function CollectBatch(slots: seq<Entry>, waiting: CQ.Queue<nat>, size: nat): (r: (seq<Pairing>, seq<Entry>, CQ.Queue<nat>))
    requires size >= 1 && CQ.Valid(waiting)
    ensures Collected(slots, waiting, size, r)
    decreases |CQ.Contents(waiting)|
  {
    if CQ.IsEmpty(waiting) || |slots| < size then
      ([], slots, waiting)
    else
      var (round, slots', waiting') := TakeRound(slots, waiting, size);
      var (rest, slots'', waiting'') := CollectBatch(slots', waiting', size);
      CollectJoin(slots, waiting, size, round, slots', waiting', (rest, slots'', waiting''));
      (round + rest, slots'', waiting'')
  }

  /** One round followed by whatever the loop collects after it is what the loop collects. */
  lemma CollectJoin(slots: seq<Entry>, waiting: CQ.Queue<nat>, size: nat, round: seq<Pairing>, slots': seq<Entry>,
                    waiting': CQ.Queue<nat>, r: (seq<Pairing>, seq<Entry>, CQ.Queue<nat>))
    requires size >= 1 && CQ.Valid(waiting) && !CQ.IsEmpty(waiting) && |slots| >= size
    requires TakeRound(slots, waiting, size) == (round, slots', waiting')
    requires Collected(slots', waiting', size, r)
    ensures Collected(slots, waiting, size, (round + r.0, r.1, r.2))
  {
    JoinRounds(slots, CQ.Contents(waiting), size, round, CQ.Contents(waiting'), r.0, r.1, CQ.Contents(r.2));
  }

  /** The sequence facts behind `CollectJoin`, with the line as its contents. */
  lemma JoinRounds(slots: seq<Entry>, c: seq<nat>, size: nat, round: seq<Pairing>, c': seq<nat>,
                   rest: seq<Pairing>, slotsAfter: seq<Entry>, cAfter: seq<nat>)
    requires size >= 1 && |slots| >= size && |c| > 0 && |round| == size
    requires Paired(slots, c, round) && c' == c[Min(size, |c|)..]
    requires Paired(slots[size..], c', rest) && slotsAfter == slots[size..][|rest|..]
    requires WholeRounds(|rest|, size) && cAfter == c'[Min(|rest|, |c'|)..]
    requires |rest| > 0 ==> |rest| - size < |c'|
    ensures Paired(slots, c, round + rest) && slotsAfter == slots[|round + rest|..]
    ensures WholeRounds(|round + rest|, size) && cAfter == c[Min(|round + rest|, |c|)..]
    ensures |round + rest| - size < |c|
  {
    PairedJoin(slots, c, size, round, c', rest);
    SuffixJoin(c, size, |rest|);
    assert WholeRounds(size + |rest|, size);
  }

  /** Dropping `a` items, then `b` more, drops `a + b`. */
  lemma SuffixJoin(c: seq<nat>, a: nat, b: nat)
    ensures c[Min(a, |c|)..][Min(b, |c[Min(a, |c|)..]|)..] == c[Min(a + b, |c|)..]
  {
  }

  /** One round followed by the remaining rounds is paired like the whole batch. */
  lemma PairedJoin(slots: seq<Entry>, c: seq<nat>, size: nat, round: seq<Pairing>, c': seq<nat>, rest: seq<Pairing>)
    requires |slots| >= size && |c| > 0 && |round| == size
    requires Paired(slots, c, round)
    requires c' == c[Min(size, |c|)..]
    requires Paired(slots[size..], c', rest)
    ensures Paired(slots, c, round + rest)
  {
    var b := round + rest;
    forall i | size <= i < |b|
      ensures b[i].slot == slots[i].tag && b[i].available == slots[i].key
      ensures b[i].person == (if i < |c| then Some(c[i]) else None)
    {
      assert b[i] == rest[i - size];
      assert slots[size..][i - size] == slots[i];
      if |c| <= size {
        assert |c'| == 0;
      } else {
        assert i - size < |c'| <==> i < |c|;
        if i < |c| { assert c'[i - size] == c[i]; }
      }
    }
  }

  /** A handle to a person, or `None`, named by each position of a batch. */
  predicate HandlesIn(batch: seq<Pairing>, people: nat)
  {
    forall i :: 0 <= i < |batch| && batch[i].person.Some? ==> batch[i].person.value < people
  }

  /** Whether a pending exit event already carries this exit time. */
  predicate HasKey(h: seq<Entry>, key: int)
  {
    exists i :: 0 <= i < |h| && h[i].key == key
  }

  /** `t` is `s` after the person of `p` took the slot of `p`: the clock moved to
      `max(time, available)`, that person is dipping in the slot and leaves `dipTime` later,
      one exit event for them was added, and nothing else changed. */
  predicate Seated(s: Engine, p: Pairing, t: Engine)
  {
    && p.person.Some? && p.person.value < |s.people|
    && t == s.(time := t.time, people := t.people, events := t.events)
    && t.time == Max(s.time, p.available)
    && t.people == s.people[p.person.value := Assigned(s.people[p.person.value], p.slot, t.time + s.dipTime)]
    && multiset(t.events) == multiset(s.events) + multiset{Entry(t.time + s.dipTime, p.person.value)}
  }

  /** `assign_slot`: the clock moves to `max(time, available)`, the person starts dipping in
      the slot, and an exit event at `time + dip_time` is pushed. */
  function AssignSlot(s: Engine, p: Pairing): (r: Result<Engine, Crash>)
    requires WellFormed(s)
    requires p.person.Some? ==> p.person.value < |s.people|
    ensures r.Err? <==> p.person.None? || HasKey(s.events, Max(s.time, p.available) + s.dipTime)
    ensures r.Err? ==> r.error == (if p.person.None? then NoneDereference else ExitTimeTie)
    ensures r.Ok? ==> Evolves(s, r.value) && Seated(s, p, r.value)
  {
    var time := Max(s.time, p.available);
    match p.person
    case None => Err(NoneDereference)
    case Some(h) =>
      var exit := time + s.dipTime;
      var person := Assigned(s.people[h], p.slot, exit);
      if HasKey(s.events, exit) then
        Err(ExitTimeTie)
      else
        var t := s.(time := time, people := s.people[h := person], events := Push(s.events, Entry(exit, h)));
        AssignKeepsShape(s, p, t, h, exit);
        Ok(t)
  }

  lemma AssignKeepsShape(s: Engine, p: Pairing, t: Engine, h: nat, exit: int)
    requires WellFormed(s) && p.person == Some(h) && h < |s.people|
    requires exit == Max(s.time, p.available) + s.dipTime
    requires t == s.(time := Max(s.time, p.available), events := Push(s.events, Entry(exit, h)),
                     people := s.people[h := Assigned(s.people[h], p.slot, exit)])
    ensures Evolves(s, t) && Seated(s, p, t)
  {
    forall i | 0 <= i < |t.events|
      ensures t.events[i].tag < |t.people| && t.people[t.events[i].tag].slot.Some?
    {
      assert t.events[i] in multiset(t.events);
      if t.events[i] != Entry(exit, h) {
        assert t.events[i] in multiset(s.events);
        var k :| 0 <= k < |s.events| && s.events[k] == t.events[i];
      }
    }
  }

  /** A person's record once assigned: dipping in `slot`, leaving at `exit`. */
  function Assigned(p: Person, slot: nat, exit: int): Person
  {
    p.(status := Dipping, slot := Some(slot), exitTime := Some(exit))
  }

  /** The clock after the first `k` positions of a batch are assigned, starting from `time`:
      each assignment moves it to `max(time, available)`. */
  function ClockAfter(time: int, batch: seq<Pairing>, k: nat): int
    requires k <= |batch|
    decreases k
  {
    if k == 0 then time else ClockAfter(Max(time, batch[0].available), batch[1..], k - 1)
  }

  /** Every position of the batch names a known person. */
  predicate AllNamed(batch: seq<Pairing>, people: nat)
  {
    forall i :: 0 <= i < |batch| ==> batch[i].person.Some? && batch[i].person.value < people
  }

  /** The exit events assigning `batch` from clock `time` pushes, one per position, in order:
      each leaves `dipTime` after the clock of its own assignment. */
  function ExitsOf(time: int, dipTime: int, batch: seq<Pairing>): (es: seq<Entry>)
    requires forall i :: 0 <= i < |batch| ==> batch[i].person.Some?
    ensures |es| == |batch|
    decreases |batch|
  {
    if batch == [] then []
    else
      var time1 := Max(time, batch[0].available);
      [Entry(time1 + dipTime, batch[0].person.value)] + ExitsOf(time1, dipTime, batch[1..])
  }

  /** No later position of the batch names the person of position `i`, so position `i`
      decides that person's final record. */
  predicate LastNaming(batch: seq<Pairing>, i: nat)
    requires i < |batch|
  {
    forall j :: i < j < |batch| ==> batch[j].person != batch[i].person
  }

  /** No position of the batch names person `h`. */
  predicate Unnamed(batch: seq<Pairing>, h: nat)
  {
    forall i :: 0 <= i < |batch| ==> batch[i].person != Some(h)
  }

  /** The people after every position of `batch` was assigned in turn from clock `time`:
      every position named a known person; the person of each position that names them
      for the last time is dipping in its slot and leaves `dipTime` after the clock of that
      assignment; nobody the batch does not name changed. */
  predicate BatchRecords(before: seq<Person>, batch: seq<Pairing>, time: int, dipTime: int, after: seq<Person>)
  {
    && AllNamed(batch, |before|) && |after| == |before|
    && (forall i {:trigger LastNaming(batch, i)} :: 0 <= i < |batch| && LastNaming(batch, i) ==>
          after[batch[i].person.value] ==
            Assigned(before[batch[i].person.value], batch[i].slot, ClockAfter(time, batch, i + 1) + dipTime))
    && (forall h {:trigger Unnamed(batch, h)} :: 0 <= h < |before| && Unnamed(batch, h) ==> after[h] == before[h])
  }

  /** `t` is `s` after every position of `batch` was assigned in turn: the people as
      `BatchRecords` says, the clock moved past every slot's available time, the event heap
      gained exactly one exit per position, and nothing else changed. */
  predicate SeatedAll(s: Engine, batch: seq<Pairing>, t: Engine)
  {
    && BatchRecords(s.people, batch, s.time, s.dipTime, t.people)
    && t == s.(time := t.time, people := t.people, events := t.events)
    && t.time == ClockAfter(s.time, batch, |batch|)
    && multiset(t.events) == multiset(s.events) + multiset(ExitsOf(s.time, s.dipTime, batch))
  }

  /** The second loop of `process_queue`: assign each batch position in order, stopping at
      the first failure. */
  function AssignAll(s: Engine, batch: seq<Pairing>): (r: Result<Engine, Crash>)
    requires WellFormed(s) && HandlesIn(batch, |s.people|)
    ensures r.Ok? ==> Evolves(s, r.value) && SeatedAll(s, batch, r.value)
    ensures r.Ok? ==> |r.value.events| == |s.events| + |batch| && r.value.time >= s.time
    decreases |batch|
  {
    if batch == [] then
      assert ExitsOf(s.time, s.dipTime, batch) == [];
      Ok(s)
    else
      match AssignSlot(s, batch[0])
      case Err(c) => Err(c)
      case Ok(s') =>
        var r := AssignAll(s', batch[1..]);
        if r.Ok? then
          EvolvesTrans(s, s', r.value);
          SeatedAllStep(s, batch, s', r.value);
          SeatedAllCount(s, batch, r.value);
          r
        else
          r
  }

  /** Assigning the first position, then the rest, assigns the whole batch. */
  lemma SeatedAllStep(s: Engine, batch: seq<Pairing>, s1: Engine, t: Engine)
    requires batch != [] && Seated(s, batch[0], s1) && SeatedAll(s1, batch[1..], t)
    ensures SeatedAll(s, batch, t)
  {
    SeatedAllRecords(s, batch, s1, t);
    SeatedAllClock(s, batch, s1, t);
    SeatedAllExits(s, batch, s1, t);
  }

  lemma SeatedAllRecords(s: Engine, batch: seq<Pairing>, s1: Engine, t: Engine)
    requires batch != [] && Seated(s, batch[0], s1) && SeatedAll(s1, batch[1..], t)
    ensures BatchRecords(s.people, batch, s.time, s.dipTime, t.people)
  {
    BatchRecordsStep(s.people, s1.people, t.people, batch, s.time, s1.time, s.dipTime);
  }

  lemma SeatedAllClock(s: Engine, batch: seq<Pairing>, s1: Engine, t: Engine)
    requires batch != [] && Seated(s, batch[0], s1) && SeatedAll(s1, batch[1..], t)
    ensures t == s.(time := t.time, people := t.people, events := t.events)
    ensures t.time == ClockAfter(s.time, batch, |batch|)
  {
    ClockShift(s.time, batch, |batch| - 1);
  }

  lemma SeatedAllExits(s: Engine, batch: seq<Pairing>, s1: Engine, t: Engine)
    requires batch != [] && Seated(s, batch[0], s1) && SeatedAll(s1, batch[1..], t)
    requires AllNamed(batch, |s.people|)
    ensures multiset(t.events) == multiset(s.events) + multiset(ExitsOf(s.time, s.dipTime, batch))
  {
    ExitsStep(s.events, s1.events, t.events, batch, s.time, s1.time, s.dipTime);
  }

  /** Every position added one exit event. */
  lemma SeatedAllCount(s: Engine, batch: seq<Pairing>, t: Engine)
    requires SeatedAll(s, batch, t)
    ensures |t.events| == |s.events| + |batch|
  {
    assert |multiset(t.events)| == |multiset(s.events)| + |multiset(ExitsOf(s.time, s.dipTime, batch))|;
  }

  /** The exit events after the first position, then the rest, are those of the whole batch. */
  lemma ExitsStep(before: seq<Entry>, mid: seq<Entry>, after: seq<Entry>, batch: seq<Pairing>,
                  time: int, time1: int, dipTime: int)
    requires batch != [] && forall i :: 0 <= i < |batch| ==> batch[i].person.Some?
    requires time1 == Max(time, batch[0].available)
    requires multiset(mid) == multiset(before) + multiset{Entry(time1 + dipTime, batch[0].person.value)}
    requires multiset(after) == multiset(mid) + multiset(ExitsOf(time1, dipTime, batch[1..]))
    ensures multiset(after) == multiset(before) + multiset(ExitsOf(time, dipTime, batch))
  {
    var e := Entry(time1 + dipTime, batch[0].person.value);
    var rest := ExitsOf(time1, dipTime, batch[1..]);
    assert ExitsOf(time, dipTime, batch) == [e] + rest;
    assert multiset([e] + rest) == multiset{e} + multiset(rest);
  }

  /** The records after the first position, then the rest, are the records after the whole
      batch. */
  lemma BatchRecordsStep(before: seq<Person>, mid: seq<Person>, after: seq<Person>, batch: seq<Pairing>,
                         time: int, time1: int, dipTime: int)
    requires batch != [] && batch[0].person.Some? && batch[0].person.value < |before|
    requires time1 == Max(time, batch[0].available)
    requires mid == before[batch[0].person.value := Assigned(before[batch[0].person.value], batch[0].slot, time1 + dipTime)]
    requires BatchRecords(mid, batch[1..], time1, dipTime, after)
    ensures BatchRecords(before, batch, time, dipTime, after)
  {
    var rest := batch[1..];
    AllNamedCons(batch, |before|);
    forall i | 0 <= i < |batch| && LastNaming(batch, i)
      ensures after[batch[i].person.value] ==
                Assigned(before[batch[i].person.value], batch[i].slot, ClockAfter(time, batch, i + 1) + dipTime)
    {
      RecordedAt(before, mid, after, batch, time, time1, dipTime, i);
    }
    forall h | 0 <= h < |before| && Unnamed(batch, h)
      ensures after[h] == before[h]
    {
      UnnamedRest(batch, h);
    }
  }

  /** One position of `BatchRecordsStep`: the last naming of a person is recorded in `after`. */
  lemma RecordedAt(before: seq<Person>, mid: seq<Person>, after: seq<Person>, batch: seq<Pairing>,
                   time: int, time1: int, dipTime: int, i: nat)
    requires batch != [] && batch[0].person.Some? && batch[0].person.value < |before|
    requires time1 == Max(time, batch[0].available)
    requires mid == before[batch[0].person.value := Assigned(before[batch[0].person.value], batch[0].slot, time1 + dipTime)]
    requires BatchRecords(mid, batch[1..], time1, dipTime, after)
    requires i < |batch| && LastNaming(batch, i) && batch[i].person.Some? && batch[i].person.value < |before|
    ensures after[batch[i].person.value] ==
              Assigned(before[batch[i].person.value], batch[i].slot, ClockAfter(time, batch, i + 1) + dipTime)
  {
    ClockShift(time, batch, i);
    var h := batch[i].person.value;
    if i == 0 {
      LastNamingFirst(batch);
      assert after[h] == mid[h];
    } else {
      LastNamingRest(batch, i);
      var rest, j := batch[1..], i - 1;
      assert 0 <= j < |rest| && LastNaming(rest, j) && rest[j] == batch[i];
      var exit := ClockAfter(time1, rest, j + 1) + dipTime;
      assert after[rest[j].person.value] == Assigned(mid[rest[j].person.value], rest[j].slot, exit);
      assert Assigned(mid[h], batch[i].slot, exit) == Assigned(before[h], batch[i].slot, exit);
    }
  }

  lemma AllNamedCons(batch: seq<Pairing>, people: nat)
    requires batch != [] && batch[0].person.Some? && batch[0].person.value < people
    requires AllNamed(batch[1..], people)
    ensures AllNamed(batch, people)
  {
    forall i | 0 < i < |batch|
      ensures batch[i].person.Some? && batch[i].person.value < people
    {
      assert batch[i] == batch[1..][i - 1];
    }
  }

  /** A person the first position names for the last time is not named again. */
  lemma LastNamingFirst(batch: seq<Pairing>)
    requires batch != [] && batch[0].person.Some? && LastNaming(batch, 0)
    ensures Unnamed(batch[1..], batch[0].person.value)
  {
    forall j | 0 <= j < |batch| - 1
      ensures batch[1..][j].person != batch[0].person
    {
      assert batch[1..][j] == batch[j + 1];
    }
  }

  lemma LastNamingRest(batch: seq<Pairing>, i: nat)
    requires 0 < i < |batch| && LastNaming(batch, i)
    ensures batch[1..][i - 1] == batch[i] && LastNaming(batch[1..], i - 1)
  {
    forall j | i - 1 < j < |batch| - 1
      ensures batch[1..][j].person != batch[i].person
    {
      assert batch[1..][j] == batch[j + 1];
    }
  }

  lemma UnnamedRest(batch: seq<Pairing>, h: nat)
    requires batch != [] && Unnamed(batch, h)
    ensures batch[0].person != Some(h) && Unnamed(batch[1..], h)
  {
    forall j | 0 <= j < |batch| - 1
      ensures batch[1..][j].person != Some(h)
    {
      assert batch[1..][j] == batch[j + 1];
    }
  }

  /** Assigning the first position moves the clock to `max(time, available)`; the rest of
      the batch continues from there. */
  lemma ClockShift(time: int, batch: seq<Pairing>, i: nat)
    requires i < |batch|
    ensures ClockAfter(time, batch, i + 1) == ClockAfter(Max(time, batch[0].available), batch[1..], i)
  {
  }

  /** `process_queue`. */
  function ProcessQueue(s: Engine): (r: Result<Engine, Crash>)
    requires WellFormed(s)
    ensures GateClosed(s) ==> r == Ok(s)
    ensures r.Ok? ==>
              var t := r.value;
              && Evolves(s, t) && |t.people| == |s.people|
              && GateClosed(t)
              && t.time >= s.time
              && |CQ.Contents(t.waiting)| + |t.events| == |CQ.Contents(s.waiting)| + |s.events|
    ensures !GateClosed(s) && r.Ok? ==> |CQ.Contents(r.value.waiting)| < |CQ.Contents(s.waiting)|
    ensures r.Ok? ==> Served(s, r.value)
  {
    var (batch, slots, waiting) := CollectBatch(s.slots, s.waiting, BatchSize(s.n));
    var s' := s.(slots := slots, waiting := waiting);
    BatchKeepsShape(s, batch, s');
    var r := AssignAll(s', batch);
    AssignedBatchWasFull(CQ.Contents(s.waiting), batch, r.Ok?);
    if r.Ok? then
      BatchServes(s, batch, s', r.value);
      r
    else
      r
  }

  /** The batch of the first `k` people of line `c` with the `k` smallest slot entries:
      position `i` pairs `c[i]` with `slots[i]`. */
  function Pairings(slots: seq<Entry>, c: seq<nat>, k: nat): (batch: seq<Pairing>)
    requires k <= |slots| && k <= |c|
    ensures |batch| == k
  {
    seq(k, i requires 0 <= i < k => Pairing(Some(c[i]), slots[i].tag, slots[i].key))
  }

  /** `t` is `s` after `process_queue` served some number `k` of people: the first `k` of
      the line left it, the `k` smallest slot entries left the slot heap, and the batch
      pairing them was assigned in order (`SeatedAll`): each served person is dipping in
      the slot paired with it and has its exit event pushed; nobody else changed. */
  predicate Served(s: Engine, t: Engine)
    requires CQ.Valid(s.waiting) && CQ.Valid(t.waiting)
  {
    var c := CQ.Contents(s.waiting);
    var k := |c| - |CQ.Contents(t.waiting)|;
    && 0 <= k <= |s.slots|
    && CQ.Contents(t.waiting) == c[k..]
    && t.slots == s.slots[k..]
    && SeatedAll(s.(slots := t.slots, waiting := t.waiting), Pairings(s.slots, c, k), t)
  }

  /** A collected batch that was assigned in full served the people it names. */
  lemma BatchServes(s: Engine, batch: seq<Pairing>, s': Engine, t: Engine)
    requires WellFormed(s) && CQ.Valid(s'.waiting) && CQ.Valid(t.waiting)
    requires Paired(s.slots, CQ.Contents(s.waiting), batch) && |batch| <= |CQ.Contents(s.waiting)|
    requires s'.slots == s.slots[|batch|..]
    requires CQ.Contents(s'.waiting) == CQ.Contents(s.waiting)[Min(|batch|, |CQ.Contents(s.waiting)|)..]
    requires s' == s.(slots := s'.slots, waiting := s'.waiting)
    requires SeatedAll(s', batch, t)
    ensures Served(s, t)
  {
    var c := CQ.Contents(s.waiting);
    PairedFull(s.slots, c, batch);
  }

  /** Serving the line changes nobody who was not in it. */
  lemma ServedKeeps(s: Engine, t: Engine, h: nat)
    requires CQ.Valid(s.waiting) && CQ.Valid(t.waiting) && Served(s, t)
    requires h < |s.people|
    ensures h !in CQ.Contents(s.waiting) ==> t.people[h] == s.people[h]
  {
    var c := CQ.Contents(s.waiting);
    var k := |c| - |CQ.Contents(t.waiting)|;
    var batch := Pairings(s.slots, c, k);
    if h !in c {
      assert Unnamed(batch, h) by {
        forall i | 0 <= i < k
          ensures batch[i].person != Some(h)
        {
          assert c[i] in c;
        }
      }
    }
  }

  /** A paired batch no longer than the line is exactly `Pairings`. */
  lemma PairedFull(slots: seq<Entry>, c: seq<nat>, batch: seq<Pairing>)
    requires Paired(slots, c, batch) && |batch| <= |c|
    ensures batch == Pairings(slots, c, |batch|)
  {
  }

  /** Taking a batch off the heap and the line leaves a well-formed state, and every person a
      batch position names is a known person. */
  lemma BatchKeepsShape(s: Engine, batch: seq<Pairing>, s': Engine)
    requires WellFormed(s) && CQ.Valid(s'.waiting)
    requires Paired(s.slots, CQ.Contents(s.waiting), batch)
    requires s'.slots == s.slots[|batch|..]
    requires CQ.Contents(s'.waiting) == CQ.Contents(s.waiting)[Min(|batch|, |CQ.Contents(s.waiting)|)..]
    requires s' == s.(slots := s'.slots, waiting := s'.waiting)
    ensures WellFormed(s') && HandlesIn(batch, |s.people|)
  {
    var c := CQ.Contents(s.waiting);
    forall k | 0 <= k < |CQ.Contents(s'.waiting)|
      ensures CQ.Contents(s'.waiting)[k] < |s.people|
    {
      assert CQ.Contents(s'.waiting)[k] == c[k + Min(|batch|, |c|)];
    }
    assert Sorted(s'.slots) by {
      forall i, j | 0 <= i < j < |s'.slots|
        ensures Below(s'.slots[i], s'.slots[j])
      {
        assert s'.slots[i] == s.slots[i + |batch|] && s'.slots[j] == s.slots[j + |batch|];
      }
    }
  }

  /** A batch that was assigned without failure named a person at every position, so it was
      no longer than the line it was taken from. */
  lemma AssignedBatchWasFull(c: seq<nat>, batch: seq<Pairing>, ok: bool)
    requires forall i :: 0 <= i < |batch| ==> batch[i].person == (if i < |c| then Some(c[i]) else None)
    requires ok ==> forall i :: 0 <= i < |batch| ==> batch[i].person.Some?
    ensures ok ==> |batch| <= |c|
  {
    if ok && |batch| > 0 {
      assert batch[|batch| - 1].person.Some?;
    }
  }

  /** The first half of `free_slot`: the person's status becomes `Exiting` and `(time, slot)`
      is pushed onto the slot heap; nothing else changes. */
  function ReleaseSlot(s: Engine, h: nat): (t: Engine)
    requires WellFormed(s) && h < |s.people| && s.people[h].slot.Some?
    ensures Evolves(s, t) && |t.people| == |s.people|
    ensures t.people[h].status == Exiting
    ensures t.people[h].slot == s.people[h].slot && t.people[h].exitTime == s.people[h].exitTime
    ensures forall i :: 0 <= i < |s.people| && i != h ==> t.people[i] == s.people[i]
    ensures multiset(t.slots) == multiset(s.slots) + multiset{Entry(s.time, s.people[h].slot.value)}
    ensures t.events == s.events && t.waiting == s.waiting && t.time == s.time
  {
    var person := s.people[h].(status := Exiting);
    s.(people := s.people[h := person], slots := Push(s.slots, Entry(s.time, person.slot.value)))
  }

  /** `free_slot`: release the slot, then offer the waiting line slots again. */
  function FreeSlot(s: Engine, h: nat): (r: Result<Engine, Crash>)
    requires WellFormed(s) && h < |s.people| && s.people[h].slot.Some?
    ensures r.Ok? ==>
              var t := r.value;
              && Evolves(s, t) && |t.people| == |s.people|
              && |CQ.Contents(t.waiting)| + |t.events| == |CQ.Contents(s.waiting)| + |s.events|
    ensures r.Ok? ==> Served(ReleaseSlot(s, h), r.value)
    ensures r.Ok? && h !in CQ.Contents(s.waiting) ==>
              r.value.people[h] == s.people[h].(status := Exiting)
  {
    var s' := ReleaseSlot(s, h);
    var r := ProcessQueue(s');
    if r.Ok? then
      EvolvesTrans(s, s', r.value);
      ServedKeeps(s', r.value, h);
      r
    else
      r
  }

  /** `process_events`: pop and free every exit event that is due. It returns only once no
      pending exit time is at or before the clock. Each round removes one event, and the
      reassignment it triggers turns waiting people into events one for one, so the number
      of people waiting plus the number of events falls by one per round. */
  function ProcessEvents(s: Engine): (r: Result<Engine, Crash>)
    requires WellFormed(s)
    ensures !EventDue(s) ==> r == Ok(s)
    ensures r.Ok? ==>
              var t := r.value;
              && Evolves(s, t) && |t.people| == |s.people|
              && t.time >= s.time
              && forall i :: 0 <= i < |t.events| ==> t.events[i].key > t.time
    decreases |CQ.Contents(s.waiting)| + |s.events|
  {
    if !EventDue(s) then
      NothingDue(s);
      Ok(s)
    else
      var e := s.events[0];
      var popped := s.(events := s.events[1..]);
      PopKeepsShape(s);
      match FreeSlot(popped, e.tag)
      case Err(c) => Err(c)
      case Ok(s') =>
        var r := ProcessEvents(s');
        if r.Ok? then EvolvesTrans(s, s', r.value); r else r
  }

  /** The first half of `person_arrives`: the person is recorded under the next handle and
      joins the back of the line when it has room; `enqueue` refuses a full line and the
      refusal is ignored, so then the line stays as it was. Nothing else changes. */
  function Join(s: Engine, p: Person): (t: Engine)
    requires WellFormed(s)
    ensures Evolves(s, t) && t.people == s.people + [p]
    ensures |CQ.Contents(s.waiting)| < s.waiting.size ==> CQ.Contents(t.waiting) == CQ.Contents<nat>(s.waiting) + [|s.people|]
    ensures |CQ.Contents(s.waiting)| == s.waiting.size ==> t.waiting == s.waiting
    ensures t.slots == s.slots && t.events == s.events && t.time == s.time
  {
    var t := s.(people := s.people + [p], waiting := CQ.Enqueue(s.waiting, |s.people|).1);
    JoinKeepsShape(s, p, t);
    t
  }

  /** `person_arrives`: the person joins the line (or, when the line is full, is dropped),
      then the line is offered slots. */
  function PersonArrives(s: Engine, p: Person): (r: Result<Engine, Crash>)
    requires WellFormed(s)
    ensures r.Ok? ==>
              var t := r.value;
              && Evolves(s, t) && |t.people| == |s.people| + 1
              && t.people[|s.people|].id == p.id && t.people[|s.people|].arrivalTime == p.arrivalTime
              && t.time >= s.time
    ensures r.Ok? ==> Served(Join(s, p), r.value)
  {
    var s' := Join(s, p);
    var r := ProcessQueue(s');
    if r.Ok? then EvolvesTrans(s, s', r.value); r else r
  }

  /** Recording one more person, who may join the back of the line, keeps the shape. */
  lemma JoinKeepsShape(s: Engine, p: Person, s': Engine)
    requires WellFormed(s)
    requires s' == s.(people := s.people + [p], waiting := CQ.Enqueue(s.waiting, |s.people|).1)
    ensures Evolves(s, s') && |s'.people| == |s.people| + 1
    ensures s'.people[|s.people|] == p
  {
    var c, c' := CQ.Contents(s.waiting), CQ.Contents(s'.waiting);
    assert c' == c || c' == c + [|s.people|];
    forall i | 0 <= i < |c'|
      ensures c'[i] < |s'.people|
    {
      if i < |c| { assert c'[i] == c[i]; }
    }
  }

  /** The people of `t` past those of `s` are the arrivals, numbered from `next + 1`. */
  predicate Admitted(s: Engine, t: Engine, arrivals: seq<int>, next: nat)
  {
    && |t.people| == |s.people| + |arrivals|
    && forall j :: |s.people| <= j < |t.people| ==>
         t.people[j].id == next + (j - |s.people|) + 1 && t.people[j].arrivalTime == arrivals[j - |s.people|]
  }

  /** The `for` loop of `simulate`: the `i`-th arrival (counting from `next`) becomes person
      `next + i + 1`, arrives, and due events are processed. */
  function RunArrivals(s: Engine, arrivals: seq<int>, next: nat): (r: Result<Engine, Crash>)
    requires WellFormed(s)
    ensures r.Ok? ==> Evolves(s, r.value) && Admitted(s, r.value, arrivals, next)
    decreases |arrivals|
  {
    if arrivals == [] then
      Ok(s)
    else
      var p := NewPerson(next + 1, arrivals[0]);
      match PersonArrives(s, p)
      case Err(c) => Err(c)
      case Ok(s1) =>
        match ProcessEvents(s1)
        case Err(c) => Err(c)
        case Ok(s2) =>
          var r := RunArrivals(s2, arrivals[1..], next + 1);
          if r.Ok? then
            RoundAdmits(s, s1, s2, r.value, arrivals, next);
            r
          else
            r
  }

  /** One round of the arrival loop followed by the rest of the loop admits the round's
      person first, then the rest in order. */
  lemma RoundAdmits(s: Engine, s1: Engine, s2: Engine, t: Engine, arrivals: seq<int>, next: nat)
    requires arrivals != []
    requires Evolves(s, s1) && |s1.people| == |s.people| + 1
    requires s1.people[|s.people|].id == next + 1 && s1.people[|s.people|].arrivalTime == arrivals[0]
    requires Evolves(s1, s2) && |s2.people| == |s1.people|
    requires Evolves(s2, t) && Admitted(s2, t, arrivals[1..], next + 1)
    ensures Evolves(s, t) && Admitted(s, t, arrivals, next)
  {
    EvolvesTrans(s1, s2, t);
    EvolvesTrans(s, s1, t);
    AdmittedStep(s, s2, t, arrivals, next);
  }

  lemma AdmittedStep(s: Engine, s2: Engine, t: Engine, arrivals: seq<int>, next: nat)
    requires arrivals != []
    requires |s2.people| == |s.people| + 1
    requires s2.people[|s.people|].id == next + 1 && s2.people[|s.people|].arrivalTime == arrivals[0]
    requires SamePeople(s2, t)
    requires Admitted(s2, t, arrivals[1..], next + 1)
    ensures Admitted(s, t, arrivals, next)
  {
    assert |s.people| < |s2.people|;
    assert t.people[|s.people|].id == s2.people[|s.people|].id;
    assert t.people[|s.people|].arrivalTime == s2.people[|s.people|].arrivalTime;
    forall j | |s.people| < j < |t.people|
      ensures t.people[j].id == next + (j - |s.people|) + 1
      ensures t.people[j].arrivalTime == arrivals[j - |s.people|]
    {
      assert arrivals[1..][j - |s2.people|] == arrivals[j - |s.people|];
    }
  }

  lemma AdmittedKept(s0: Engine, s: Engine, t: Engine, arrivals: seq<int>)
    requires Admitted(s0, s, arrivals, 0) && SamePeople(s, t) && |t.people| == |s.people|
    ensures Admitted(s0, t, arrivals, 0)
  {
    forall j | |s0.people| <= j < |t.people|
      ensures t.people[j].id == j - |s0.people| + 1 && t.people[j].arrivalTime == arrivals[j - |s0.people|]
    {
      assert t.people[j].id == s.people[j].id;
    }
  }

  /** `simulate`, with the arrival times given instead of drawn at random: people 1, 2, ...
      arrive in order, and a final `process_events` follows the last arrival. */
  function Simulate(n: nat, dipTime: int, capacity: nat, arrivals: seq<int>): (r: Result<Engine, Crash>)
    requires n >= 1 && capacity >= 1
    ensures r.Ok? ==>
              var t := r.value;
              && WellFormed(t) && t.n == n && t.dipTime == dipTime && t.time >= 0
              && Admitted(Init(n, dipTime, capacity), t, arrivals, 0)
              && forall i :: 0 <= i < |t.events| ==> t.events[i].key > t.time
  {
    var s0 := Init(n, dipTime, capacity);
    var run := RunArrivals(s0, arrivals, 0);
    if run.Err? then
      Err(run.error)
    else
      var r := ProcessEvents(run.value);
      if r.Ok? then
        EvolvesTrans(s0, run.value, r.value);
        AdmittedKept(s0, run.value, r.value, arrivals);
        r
      else
        r
  }
}
