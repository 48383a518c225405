/**
 Invariants of the river-dipping engine and what they imply about a run.

 Every state the engine rests in between calls satisfies `Inv`. From it follow the
 properties of the source's design: each slot id is either in the slot heap or held by the
 person of a pending exit event, exactly once; statuses only move forward; the clock never
 changes, because every slot entry becomes available at or before the current time; and,
 because the clock does not move, every pending exit is at `time + dipTime`. The last fact
 decides how a run ends: with two or more slots the first batch pairs a slot with `None` or
 pushes two equal exit times; with one slot and a positive dip time nobody ever leaves; and
 with one slot and a dip time of zero or less everybody leaves the moment they are seated.
 */
module RiverDippingProperties {
  import opened Wrappers
  import opened MinHeap
  import CQ = CircularQueue
  import opened RiverDipping

  /** The slot ids of the entries of a slot heap, in order. */
  function Tags(h: seq<Entry>): (ids: seq<nat>)
    ensures |ids| == |h|
    ensures forall i :: 0 <= i < |h| ==> ids[i] == h[i].tag
  {
    seq(|h|, i requires 0 <= i < |h| => h[i].tag)
  }

  /** The slots held by the people of the pending exit events. */
  function HeldSlots(events: seq<Entry>, people: seq<Person>): (ids: seq<nat>)
    requires forall i :: 0 <= i < |events| ==> events[i].tag < |people| && people[events[i].tag].slot.Some?
    ensures |ids| == |events|
  {
    seq(|events|, i requires 0 <= i < |events| && events[i].tag < |people| && people[events[i].tag].slot.Some? =>
      people[events[i].tag].slot.value)
  }

  /** The slot ids 0 .. n-1. */
  function Range(n: nat): seq<nat>
  {
    seq(n, i requires 0 <= i < n => i)
  }

  /** Slot conservation: the free slots and the occupied slots together are 0 .. n-1, each
      exactly once. */
  predicate SlotsConserved(s: Engine)
    requires WellFormed(s)
  {
    multiset(Tags(s.slots)) + multiset(HeldSlots(s.events, s.people)) == multiset(Range(s.n))
  }

  /** Every free slot became available at or before the current time. */
  predicate ClockAhead(s: Engine)
  {
    forall i :: 0 <= i < |s.slots| ==> s.slots[i].key <= s.time
  }

  /** Every pending exit is `dipTime` after the current time, and there is at most one. */
  predicate ExitsPending(s: Engine)
  {
    && |s.events| <= 1
    && forall i :: 0 <= i < |s.events| ==> s.events[i].key == s.time + s.dipTime
  }

  /** Everybody in line is a distinct person who is still waiting. */
  predicate LineWaiting(s: Engine)
    requires WellFormed(s)
  {
    var c := CQ.Contents(s.waiting);
    && (forall i, j :: 0 <= i < j < |c| ==> c[i] != c[j])
    && (forall i :: 0 <= i < |c| ==> s.people[c[i]].status == Waiting)
  }

  /** The person of each pending exit event is dipping and leaves at the event's time. */
  predicate EventsDipping(s: Engine)
    requires WellFormed(s)
  {
    forall i :: 0 <= i < |s.events| ==>
      s.people[s.events[i].tag].status == Dipping && s.people[s.events[i].tag].exitTime == Some(s.events[i].key)
  }

  /** A waiting person has no slot and no exit time; anybody else has a slot below `n` and
      leaves at `time + dipTime`. */
  predicate Records(s: Engine)
  {
    forall i :: 0 <= i < |s.people| ==>
      if s.people[i].status == Waiting then s.people[i].slot == None && s.people[i].exitTime == None
      else s.people[i].slot.Some? && s.people[i].slot.value < s.n && s.people[i].exitTime == Some(s.time + s.dipTime)
  }

  /** The invariant inside a call, where the line may still be offered slots. */
  predicate Core(s: Engine)
  {
    && WellFormed(s)
    && SlotsConserved(s)
    && ClockAhead(s)
    && ExitsPending(s)
    && LineWaiting(s)
    && EventsDipping(s)
    && Records(s)
  }

  /** The invariant of every state the engine rests in between calls. */
  predicate Inv(s: Engine)
  {
    Core(s) && GateClosed(s)
  }

  function Rank(st: Status): nat
  {
    match st
    case Waiting => 0
    case Dipping => 1
    case Exiting => 2
  }

  /** Status progression: nobody goes back from Dipping to Waiting or from Exiting, and the
      slot and exit time, once set, stay. */
  predicate Progress(s: Engine, t: Engine)
  {
    && |s.people| <= |t.people|
    && forall i :: 0 <= i < |s.people| ==>
         && Rank(s.people[i].status) <= Rank(t.people[i].status)
         && (s.people[i].status != Waiting ==>
               t.people[i].slot == s.people[i].slot && t.people[i].exitTime == s.people[i].exitTime)
  }

  lemma ProgressTrans(s: Engine, t: Engine, u: Engine)
    requires Progress(s, t) && Progress(t, u)
    ensures Progress(s, u)
  {
  }

  /** Conservation counts: the free and the held slots number `n` together. */
  lemma ConservedCount(s: Engine)
    requires WellFormed(s) && SlotsConserved(s)
    ensures |s.slots| + |s.events| == s.n
  {
    assert |multiset(Tags(s.slots))| + |multiset(HeldSlots(s.events, s.people))| == |multiset(Range(s.n))|;
  }

  /** The engine `__init__` builds satisfies the invariant. */
  lemma InitInv(n: nat, dipTime: int, capacity: nat)
    requires n >= 1 && capacity >= 1
    ensures Inv(Init(n, dipTime, capacity))
  {
    var s := Init(n, dipTime, capacity);
    assert Tags(s.slots) == Range(n);
  }

  /** A batch of two or more positions, taken while the clock is ahead of both slots, cannot
      be assigned: the first person's exit time equals any pending one, and otherwise the
      second position is either `None` or a second person with the same exit time. */
  lemma WideBatchFails(s: Engine, batch: seq<Pairing>)
    requires WellFormed(s) && ExitsPending(s) && HandlesIn(batch, |s.people|)
    requires |batch| >= 2 && batch[0].person.Some?
    requires batch[0].available <= s.time && batch[1].available <= s.time
    ensures AssignAll(s, batch) == Err(if s.events == [] && batch[1].person.None? then NoneDereference else ExitTimeTie)
  {
    var exit := s.time + s.dipTime;
    assert Max(s.time, batch[0].available) + s.dipTime == exit;
    if s.events != [] {
      assert s.events[0].key == exit;
      assert HasKey(s.events, exit);
    } else {
      SecondPositionFails(s, batch);
    }
  }

  /** With no exit pending, the first position is seated and the second one fails. */
  lemma SecondPositionFails(s: Engine, batch: seq<Pairing>)
    requires WellFormed(s) && s.events == [] && HandlesIn(batch, |s.people|)
    requires |batch| >= 2 && batch[0].person.Some?
    requires batch[0].available <= s.time && batch[1].available <= s.time
    ensures AssignAll(s, batch) == Err(if batch[1].person.None? then NoneDereference else ExitTimeTie)
  {
    var s1 := FirstSeated(s, batch[0]);
    AssignAllCons(s, batch, s1);
    assert batch[1..][0] == batch[1];
    FirstPositionFails(s1, batch[1..]);
  }

  /** Seating a person with no exit pending succeeds and pushes that person's exit time. */
  lemma FirstSeated(s: Engine, p: Pairing) returns (s1: Engine)
    requires WellFormed(s) && s.events == [] && p.person.Some? && p.person.value < |s.people|
    ensures AssignSlot(s, p) == Ok(s1) && WellFormed(s1) && |s1.people| == |s.people|
    ensures s1.time == Max(s.time, p.available) && s1.dipTime == s.dipTime
    ensures s1.events == [Entry(s1.time + s1.dipTime, p.person.value)]
    ensures s1 == s.(time := s1.time, events := s1.events,
                     people := s.people[p.person.value := Assigned(s.people[p.person.value], p.slot, s1.time + s.dipTime)])
    ensures HasKey(s1.events, s1.time + s1.dipTime)
  {
    s1 := AssignSlot(s, p).value;
    SingleEntry(s1.events, Entry(s1.time + s.dipTime, p.person.value));
  }

  /** When its first position is seated, a batch goes on from the state that left. */
  lemma AssignAllCons(s: Engine, batch: seq<Pairing>, s1: Engine)
    requires WellFormed(s) && HandlesIn(batch, |s.people|) && batch != []
    requires AssignSlot(s, batch[0]) == Ok(s1)
    ensures HandlesIn(batch[1..], |s1.people|)
    ensures AssignAll(s, batch) == AssignAll(s1, batch[1..])
  {
    assert HandlesIn(batch[1..], |s1.people|) by {
      forall i | 0 <= i < |batch| - 1 && batch[1..][i].person.Some?
        ensures batch[1..][i].person.value < |s1.people|
      {
        assert batch[1..][i] == batch[i + 1];
      }
    }
  }

  /** An entry of the heap makes its key present. */
  lemma KeyOfMember(events: seq<Entry>, e: Entry)
    requires e in multiset(events)
    ensures HasKey(events, e.key)
  {
    var k :| 0 <= k < |events| && events[k] == e;
  }

  /** A batch whose first position is empty or would tie an exit time already pending
      stops there, with the crash that position causes. */
  lemma FirstPositionFails(s: Engine, batch: seq<Pairing>)
    requires WellFormed(s) && HandlesIn(batch, |s.people|) && batch != []
    requires batch[0].person.None? || HasKey(s.events, Max(s.time, batch[0].available) + s.dipTime)
    ensures AssignAll(s, batch) == Err(if batch[0].person.None? then NoneDereference else ExitTimeTie)
  {
  }

  /** The batch `process_queue` collects once its gate is open: at least one whole round,
      the first position naming the first person in line, and every slot available at or
      before the current time. */
  lemma OpenGateBatch(s: Engine, batch: seq<Pairing>, slots': seq<Entry>, waiting': CQ.Queue<nat>)
    requires WellFormed(s) && ClockAhead(s) && !GateClosed(s)
    requires Collected(s.slots, s.waiting, BatchSize(s.n), (batch, slots', waiting'))
    ensures |batch| >= BatchSize(s.n)
    ensures batch[0].person == Some(CQ.Contents(s.waiting)[0])
    ensures forall i :: 0 <= i < |batch| ==> batch[i].available <= s.time
    ensures |batch| >= 2 ==> batch[1].person == (if |CQ.Contents(s.waiting)| >= 2 then Some(CQ.Contents(s.waiting)[1]) else None)
  {
    var c := CQ.Contents(s.waiting);
    assert |batch| > 0;
    assert WholeRounds(|batch|, BatchSize(s.n));
    assert |batch| >= BatchSize(s.n);
    assert batch[0].person == Some(c[0]);
  }

  /** With one slot, an open gate means the slot is free and nobody is dipping; the batch is
      that slot and the first person in line, and assigning it keeps the invariant. */
  lemma SingleSlotAssign(s: Engine) returns (t: Engine)
    requires Core(s) && !GateClosed(s) && s.n == 1
    ensures ProcessQueue(s) == Ok(t)
    ensures Inv(t) && t.time == s.time && Progress(s, t)
  {
    var c := CQ.Contents(s.waiting);
    var s' := SingleSlotBatch(s);
    var p := Pairing(Some(c[0]), s.slots[0].tag, s.slots[0].key);
    t := FirstSeated(s', p);
    assert AssignAll(s', [p]) == Ok(t) by {
      assert [p][1..] == [];
    }
    SeatedAfterBatch(s, s', t, c[0], p.slot);
    AssignedSingleSlot(s, t, c[0], s.slots[0].tag);
  }

  /** The seat taken right after the batch was taken off, stated against the state before. */
  lemma SeatedAfterBatch(s: Engine, s': Engine, t: Engine, h: nat, slot: nat)
    requires s' == s.(slots := [], waiting := s'.waiting) && h < |s.people|
    requires t == s'.(time := t.time, events := t.events,
                      people := s'.people[h := Assigned(s'.people[h], slot, t.time + s'.dipTime)])
    requires t.time == s.time && t.events == [Entry(t.time + t.dipTime, h)]
    ensures t == s.(slots := [], waiting := t.waiting, events := [Entry(s.time + s.dipTime, h)],
                    people := s.people[h := Assigned(s.people[h], slot, s.time + s.dipTime)])
  {
  }

  /** The one-slot batch: the only slot entry paired with the first person in line, who
      leaves the line. */
  lemma SingleSlotBatch(s: Engine) returns (s': Engine)
    requires Core(s) && !GateClosed(s) && s.n == 1
    ensures |s.slots| == 1 && s.events == [] && s.slots[0].key <= s.time
    ensures WellFormed(s') && s' == s.(slots := [], waiting := s'.waiting)
    ensures CQ.Contents(s.waiting) != [] && CQ.Contents(s'.waiting) == CQ.Contents(s.waiting)[1..]
    ensures ProcessQueue(s) == AssignAll(s', [Pairing(Some(CQ.Contents(s.waiting)[0]), s.slots[0].tag, s.slots[0].key)])
  {
    ConservedCount(s);
    var (batch, slots', waiting') := CollectBatch(s.slots, s.waiting, BatchSize(s.n));
    OpenGateBatch(s, batch, slots', waiting');
    assert |batch| == 1;
    s' := s.(slots := slots', waiting := waiting');
    BatchKeepsShape(s, batch, s');
    assert ProcessQueue(s) == AssignAll(s', batch);
  }

  /** The state after the one-slot assignment, checked field by field. */
  lemma AssignedSingleSlot(s: Engine, t: Engine, h: nat, slot: nat)
    requires Core(s) && s.n == 1 && s.events == [] && |s.slots| == 1 && s.slots[0].tag == slot
    requires CQ.Contents(s.waiting) != [] && CQ.Contents(s.waiting)[0] == h
    requires WellFormed(t) && CQ.Contents(t.waiting) == CQ.Contents(s.waiting)[1..]
    requires t == s.(slots := [], waiting := t.waiting, events := [Entry(s.time + s.dipTime, h)],
                     people := s.people[h := Assigned(s.people[h], slot, s.time + s.dipTime)])
    ensures Inv(t) && Progress(s, t)
  {
    var c := CQ.Contents(s.waiting);
    assert multiset(Tags(s.slots)) == multiset{slot};
    assert multiset(Range(1)) == multiset{0};
    assert slot == 0;
    assert HeldSlots(t.events, t.people) == [slot];
    assert SlotsConserved(t);
    assert s.people[h].status == Waiting;
    forall i | 0 <= i < |c| - 1
      ensures t.people[CQ.Contents(t.waiting)[i]].status == Waiting
    {
      assert CQ.Contents(t.waiting)[i] == c[i + 1] != h;
    }
    assert LineWaiting(t);
    assert Records(t);
  }

  /** `process_queue` from any state inside a call. It fails exactly when its gate is open
      and there are two or more slots: with nobody dipping and one person in line, the
      second batch position is `None`; otherwise two exit times tie. When it succeeds the
      state satisfies the invariant again, the clock has not moved, and statuses only moved
      forward. */
  lemma ProcessQueueCore(s: Engine)
    requires Core(s)
    ensures ProcessQueue(s).Err? <==> !GateClosed(s) && s.n >= 2
    ensures ProcessQueue(s).Err? ==>
              ProcessQueue(s).error ==
                (if s.events == [] && |CQ.Contents(s.waiting)| == 1 then NoneDereference else ExitTimeTie)
    ensures ProcessQueue(s).Ok? ==>
              Inv(ProcessQueue(s).value) && ProcessQueue(s).value.time == s.time && Progress(s, ProcessQueue(s).value)
  {
    if GateClosed(s) {
      ClosedGateKeeps(s);
    } else if s.n == 1 {
      var t := SingleSlotAssign(s);
    } else {
      WideGateFails(s);
    }
  }

  /** With its gate closed, `process_queue` leaves the state as it is. */
  lemma ClosedGateKeeps(s: Engine)
    requires Core(s) && GateClosed(s)
    ensures ProcessQueue(s) == Ok(s)
    ensures Inv(s) && Progress(s, s)
  {
  }

  /** With two or more slots and its gate open, `process_queue` crashes on the batch. */
  lemma WideGateFails(s: Engine)
    requires WellFormed(s) && ClockAhead(s) && ExitsPending(s) && !GateClosed(s) && s.n >= 2
    ensures ProcessQueue(s) ==
              Err(if s.events == [] && |CQ.Contents(s.waiting)| == 1 then NoneDereference else ExitTimeTie)
  {
    var s', batch := OpenBatch(s);
    WideBatch(s, s', batch);
    WideBatchFails(s', batch);
  }

  /** The batch of an open gate with two or more slots, as `WideBatchFails` needs it. */
  lemma WideBatch(s: Engine, s': Engine, batch: seq<Pairing>)
    requires WellFormed(s) && ClockAhead(s) && ExitsPending(s) && !GateClosed(s) && s.n >= 2
    requires WellFormed(s') && s' == s.(slots := s'.slots, waiting := s'.waiting)
    requires Collected(s.slots, s.waiting, BatchSize(s.n), (batch, s'.slots, s'.waiting))
    ensures ExitsPending(s') && |batch| >= 2 && batch[0].person.Some?
    ensures batch[0].available <= s'.time && batch[1].available <= s'.time
    ensures (s'.events == [] && batch[1].person.None?) == (s.events == [] && |CQ.Contents(s.waiting)| == 1)
  {
    OpenGateBatch(s, batch, s'.slots, s'.waiting);
  }

  /** The batch `process_queue` collects once its gate is open, and the state it assigns
      the batch in: the slot heap and the line shortened, everything else as before. */
  lemma OpenBatch(s: Engine) returns (s': Engine, batch: seq<Pairing>)
    requires WellFormed(s) && !GateClosed(s)
    ensures WellFormed(s') && HandlesIn(batch, |s'.people|)
    ensures s' == s.(slots := s'.slots, waiting := s'.waiting)
    ensures Collected(s.slots, s.waiting, BatchSize(s.n), (batch, s'.slots, s'.waiting))
    ensures ProcessQueue(s) == AssignAll(s', batch)
  {
    var (b, slots', waiting') := CollectBatch(s.slots, s.waiting, BatchSize(s.n));
    batch := b;
    s' := s.(slots := slots', waiting := waiting');
    BatchKeepsShape(s, batch, s');
  }

  lemma TagsCons(x: Entry, h: seq<Entry>)
    ensures Tags([x] + h) == [x.tag] + Tags(h)
  {
  }

  /** Pushing an entry onto the slot heap adds exactly its slot id to the free ids. */
  lemma {:induction false} TagsPush(h: seq<Entry>, e: Entry)
    ensures multiset(Tags(Push(h, e))) == multiset(Tags(h)) + multiset{e.tag}
    decreases |h|
  {
    if h == [] || Below(e, h[0]) {
      TagsCons(e, h);
    } else {
      assert h == [h[0]] + h[1..];
      TagsCons(h[0], h[1..]);
      TagsCons(h[0], Push(h[1..], e));
      TagsPush(h[1..], e);
    }
  }

  /** Popping the due exit event and releasing its slot, the first half of one round of
      `process_events`, restores the invariant inside a call: the slot moves from the
      person back to the slot heap, at the current time. */
  lemma ReleaseCore(s: Engine)
    requires Inv(s) && EventDue(s)
    ensures WellFormed(s.(events := s.events[1..]))
    ensures s.people[s.events[0].tag].slot.Some?
    ensures var t := ReleaseSlot(s.(events := s.events[1..]), s.events[0].tag);
            Core(t) && t.time == s.time && Progress(s, t)
  {
    PopKeepsShape(s);
    ReleaseConserves(s);
    ReleaseClockAhead(s);
    ReleaseRecords(s);
  }

  /** Releasing the slot of the due exit moves its id from the held slots to the free ones. */
  lemma ReleaseConserves(s: Engine)
    requires Inv(s) && EventDue(s) && WellFormed(s.(events := s.events[1..]))
    ensures SlotsConserved(ReleaseSlot(s.(events := s.events[1..]), s.events[0].tag))
  {
    var h := s.events[0].tag;
    var slot := s.people[h].slot.value;
    var t := ReleaseSlot(s.(events := s.events[1..]), h);
    assert t.events == [];
    assert t.slots == Push(s.slots, Entry(s.time, slot));
    TagsPush(s.slots, Entry(s.time, slot));
    assert HeldSlots(s.events, s.people) == [slot];
  }

  /** The released slot is available at the current time, so the clock stays ahead. */
  lemma ReleaseClockAhead(s: Engine)
    requires Inv(s) && EventDue(s) && WellFormed(s.(events := s.events[1..]))
    ensures ClockAhead(ReleaseSlot(s.(events := s.events[1..]), s.events[0].tag))
  {
    var h := s.events[0].tag;
    var e := Entry(s.time, s.people[h].slot.value);
    var t := ReleaseSlot(s.(events := s.events[1..]), h);
    forall i | 0 <= i < |t.slots|
      ensures t.slots[i].key <= t.time
    {
      assert t.slots[i] in multiset(t.slots);
      if t.slots[i] != e {
        assert t.slots[i] in multiset(s.slots);
        var k :| 0 <= k < |s.slots| && s.slots[k] == t.slots[i];
      }
    }
  }

  /** Only the leaving person's record changes, and that person is not in line. */
  lemma ReleaseRecords(s: Engine)
    requires Inv(s) && EventDue(s) && WellFormed(s.(events := s.events[1..]))
    ensures var t := ReleaseSlot(s.(events := s.events[1..]), s.events[0].tag);
            ExitsPending(t) && LineWaiting(t) && EventsDipping(t) && Records(t) && Progress(s, t)
  {
    var h := s.events[0].tag;
    var t := ReleaseSlot(s.(events := s.events[1..]), h);
    assert t.events == [];
    var c := CQ.Contents(s.waiting);
    forall i | 0 <= i < |c|
      ensures c[i] != h
    {
      assert s.people[c[i]].status == Waiting;
    }
  }

  /** `process_events` from a resting state keeps the invariant and the clock, and statuses
      only move forward. With a positive dip time no exit is ever due, so it changes nothing;
      with one slot it never fails. */
  lemma {:induction false} ProcessEventsInv(s: Engine)
    requires Inv(s)
    ensures s.dipTime > 0 ==> ProcessEvents(s) == Ok(s)
    ensures s.n == 1 ==> ProcessEvents(s).Ok?
    ensures ProcessEvents(s).Ok? ==>
              Inv(ProcessEvents(s).value) && ProcessEvents(s).value.time == s.time && Progress(s, ProcessEvents(s).value)
    decreases |CQ.Contents(s.waiting)| + |s.events|
  {
    if EventDue(s) {
      DueRound(s);
      var r := FreeSlot(s.(events := s.events[1..]), s.events[0].tag);
      if r.Ok? {
        ProcessEventsInv(r.value);
        if ProcessEvents(r.value).Ok? {
          ProgressTrans(s, r.value, ProcessEvents(r.value).value);
        }
      }
    }
  }

  /** One round of the `process_events` loop from a resting state: `free_slot` on the due
      event keeps the invariant and the clock, never fails with one slot, and shortens the
      line plus the pending events by one. */
  lemma DueRound(s: Engine)
    requires Inv(s) && EventDue(s)
    ensures WellFormed(s.(events := s.events[1..]))
    ensures s.people[s.events[0].tag].slot.Some?
    ensures var r := FreeSlot(s.(events := s.events[1..]), s.events[0].tag);
            && (r.Err? ==> ProcessEvents(s) == r)
            && (r.Ok? ==> ProcessEvents(s) == ProcessEvents(r.value))
            && (s.n == 1 ==> r.Ok?)
            && (r.Ok? ==> Inv(r.value) && r.value.time == s.time && Progress(s, r.value))
            && (r.Ok? ==> |CQ.Contents(r.value.waiting)| + |r.value.events| < |CQ.Contents(s.waiting)| + |s.events|)
  {
    var popped := s.(events := s.events[1..]);
    ReleaseCore(s);
    var released := ReleaseSlot(popped, s.events[0].tag);
    assert FreeSlot(popped, s.events[0].tag) == ProcessQueue(released);
    ProcessQueueCore(released);
    if ProcessQueue(released).Ok? {
      ProgressTrans(s, released, ProcessQueue(released).value);
    }
  }

  /** The state `person_arrives` hands to `process_queue`: the new person is recorded and,
      if the line has room, joins its back. It satisfies the invariant inside a call. */
  lemma JoinCore(s: Engine, p: Person)
    requires Inv(s) && p == NewPerson(p.id, p.arrivalTime)
    ensures var w := CQ.Enqueue(s.waiting, |s.people|).1;
            var s' := s.(people := s.people + [p], waiting := w);
            Core(s') && Progress(s, s')
  {
    var h := |s.people|;
    var w := CQ.Enqueue(s.waiting, h).1;
    var s' := s.(people := s.people + [p], waiting := w);
    var c, c' := CQ.Contents(s.waiting), CQ.Contents(w);
    assert c' == c || c' == c + [h];
    JoinLine(c, c', s.people, p);
    assert WellFormed(s');
    assert HeldSlots(s'.events, s'.people) == HeldSlots(s.events, s.people);
  }

  /** The line after one more person, the last handle, may have joined it: still distinct
      handles of people who are all waiting. */
  lemma JoinLine(c: seq<nat>, c': seq<nat>, people: seq<Person>, p: Person)
    requires c' == c || c' == c + [|people|]
    requires p.status == Waiting
    requires forall i :: 0 <= i < |c| ==> c[i] < |people| && people[c[i]].status == Waiting
    requires forall i, j :: 0 <= i < j < |c| ==> c[i] != c[j]
    ensures forall i :: 0 <= i < |c'| ==> c'[i] < |people + [p]| && (people + [p])[c'[i]].status == Waiting
    ensures forall i, j :: 0 <= i < j < |c'| ==> c'[i] != c'[j]
  {
    var h := |people|;
    forall i | 0 <= i < |c'|
      ensures c'[i] < |people + [p]| && (people + [p])[c'[i]].status == Waiting
    {
      if i < |c| {
        assert c'[i] == c[i] && c[i] < h;
      }
    }
    forall i, j | 0 <= i < j < |c'|
      ensures c'[i] != c'[j]
    {
      if j < |c| {
      } else {
        assert c'[i] == c[i] && c[i] < h;
      }
    }
  }

  /** `person_arrives` from a resting state. When the line is full the person is dropped:
      recorded, but in line nowhere, and nothing else changes. Otherwise it fails exactly when
      the new person opens the gate of a two-or-more-slot engine, with `None` in the batch
      if nobody is dipping; and when it succeeds the invariant and the clock are kept. */
  lemma PersonArrivesInv(s: Engine, p: Person)
    requires Inv(s) && p == NewPerson(p.id, p.arrivalTime)
    ensures |CQ.Contents(s.waiting)| == s.waiting.size ==> PersonArrives(s, p) == Ok(s.(people := s.people + [p]))
    ensures PersonArrives(s, p).Err? <==>
              |CQ.Contents(s.waiting)| < s.waiting.size && s.n >= 2 && |s.slots| >= BatchSize(s.n)
    ensures PersonArrives(s, p).Err? ==>
              PersonArrives(s, p).error == (if s.events == [] then NoneDereference else ExitTimeTie)
    ensures PersonArrives(s, p).Ok? ==>
              Inv(PersonArrives(s, p).value) && PersonArrives(s, p).value.time == s.time
              && Progress(s, PersonArrives(s, p).value)
  {
    var h := |s.people|;
    var w := CQ.Enqueue(s.waiting, h).1;
    var s' := s.(people := s.people + [p], waiting := w);
    JoinCore(s, p);
    assert PersonArrives(s, p) == ProcessQueue(s');
    ProcessQueueCore(s');
    if ProcessQueue(s').Ok? {
      ProgressTrans(s, s', ProcessQueue(s').value);
    }
  }

  /** The arrival loop of `simulate` from a resting state keeps the invariant and the clock;
      with one slot it never fails. */
  lemma {:induction false} RunArrivalsInv(s: Engine, arrivals: seq<int>, next: nat)
    requires Inv(s)
    ensures s.n == 1 ==> RunArrivals(s, arrivals, next).Ok?
    ensures RunArrivals(s, arrivals, next).Ok? ==>
              var t := RunArrivals(s, arrivals, next).value;
              Inv(t) && t.time == s.time && Progress(s, t)
    decreases |arrivals|
  {
    if arrivals != [] {
      var p := NewPerson(next + 1, arrivals[0]);
      PersonArrivesInv(s, p);
      if PersonArrives(s, p).Ok? {
        var s1 := PersonArrives(s, p).value;
        ProcessEventsInv(s1);
        if ProcessEvents(s1).Ok? {
          var s2 := ProcessEvents(s1).value;
          assert RunArrivals(s, arrivals, next) == RunArrivals(s2, arrivals[1..], next + 1);
          RunArrivalsInv(s2, arrivals[1..], next + 1);
          if RunArrivals(s2, arrivals[1..], next + 1).Ok? {
            ProgressTrans(s, s1, s2);
            ProgressTrans(s, s2, RunArrivals(s2, arrivals[1..], next + 1).value);
          }
        }
      }
    }
  }

  /** How `simulate` ends. It succeeds exactly when there is one slot or nobody arrives: with
      two or more slots the first arrival alone opens a batch of `min(n, 10)` slots, whose
      second position is `None`. When it succeeds the clock is still at 0 and the invariant
      holds. */
  lemma SimulateOutcome(n: nat, dipTime: int, capacity: nat, arrivals: seq<int>)
    requires n >= 1 && capacity >= 1
    ensures Simulate(n, dipTime, capacity, arrivals).Ok? <==> n == 1 || arrivals == []
    ensures n >= 2 && arrivals != [] ==> Simulate(n, dipTime, capacity, arrivals) == Err(NoneDereference)
    ensures Simulate(n, dipTime, capacity, arrivals).Ok? ==>
              Inv(Simulate(n, dipTime, capacity, arrivals).value) && Simulate(n, dipTime, capacity, arrivals).value.time == 0
  {
    if n >= 2 && arrivals != [] {
      WideFirstArrivalFails(n, dipTime, capacity, arrivals);
    } else {
      NarrowRunSucceeds(n, dipTime, capacity, arrivals);
    }
  }

  /** With one slot, or with nobody arriving, `simulate` succeeds, keeps the invariant and
      leaves the clock at 0. */
  lemma NarrowRunSucceeds(n: nat, dipTime: int, capacity: nat, arrivals: seq<int>)
    requires n >= 1 && capacity >= 1 && (n == 1 || arrivals == [])
    ensures Simulate(n, dipTime, capacity, arrivals).Ok?
    ensures Inv(Simulate(n, dipTime, capacity, arrivals).value) && Simulate(n, dipTime, capacity, arrivals).value.time == 0
  {
    var s0 := Init(n, dipTime, capacity);
    InitInv(n, dipTime, capacity);
    RunArrivalsInv(s0, arrivals, 0);
    if arrivals == [] {
      assert RunArrivals(s0, arrivals, 0) == Ok(s0);
    }
    ProcessEventsInv(RunArrivals(s0, arrivals, 0).value);
  }

  /** With two or more slots the first arrival crashes `simulate`: the batch pairs it with
      the smallest slot and pairs the next slot with `None`. */
  lemma WideFirstArrivalFails(n: nat, dipTime: int, capacity: nat, arrivals: seq<int>)
    requires n >= 2 && capacity >= 1 && arrivals != []
    ensures Simulate(n, dipTime, capacity, arrivals) == Err(NoneDereference)
  {
    var s0 := Init(n, dipTime, capacity);
    InitInv(n, dipTime, capacity);
    var p := NewPerson(1, arrivals[0]);
    PersonArrivesInv(s0, p);
    assert PersonArrives(s0, p) == Err(NoneDereference);
    assert RunArrivals(s0, arrivals, 0) == Err(NoneDereference);
  }

  /** A second `process_events` straight after a successful one changes nothing. */
  lemma ProcessEventsIdempotent(s: Engine)
    requires WellFormed(s) && ProcessEvents(s).Ok?
    ensures ProcessEvents(ProcessEvents(s).value) == ProcessEvents(s)
  {
    var t := ProcessEvents(s).value;
    assert |t.events| > 0 ==> t.events[0].key > t.time;
  }

  /** The line holds the handles 1, 2, ..., m: persons 2 .. m+1 of the run. */
  predicate LineIs(c: seq<nat>, m: nat)
  {
    |c| == m && forall i :: 0 <= i < m ==> c[i] == i + 1
  }

  /** A one-slot engine with a positive dip time after its first arrival: person 1 dips in
      slot 0 until `dipTime`, the clock stays at 0, and everybody else waits in line in
      arrival order, as far as the line's capacity allows. */
  predicate Stalled(s: Engine)
  {
    && WellFormed(s)
    && s.n == 1 && s.dipTime > 0 && s.time == 0
    && |s.people| >= 1
    && s.slots == [] && s.events == [Entry(s.dipTime, 0)]
    && s.people[0].status == Dipping
    && (forall i :: 1 <= i < |s.people| ==> s.people[i].status == Waiting)
    && LineIs(CQ.Contents(s.waiting), Min(|s.people| - 1, s.waiting.size))
  }

  /** Once stalled, every further arrival just joins the line (or is dropped when the line
      is full) and no event is ever due. */
  lemma {:induction false} RunStalled(s: Engine, arrivals: seq<int>, next: nat)
    requires Stalled(s)
    ensures RunArrivals(s, arrivals, next).Ok?
    ensures Stalled(RunArrivals(s, arrivals, next).value)
    ensures |RunArrivals(s, arrivals, next).value.people| == |s.people| + |arrivals|
    ensures RunArrivals(s, arrivals, next).value.waiting.size == s.waiting.size
    decreases |arrivals|
  {
    if arrivals != [] {
      var s1 := StalledStep(s, arrivals, next);
      RunStalled(s1, arrivals[1..], next + 1);
    }
  }

  /** The first round of the arrival loop at a stalled engine leaves it stalled. */
  lemma StalledStep(s: Engine, arrivals: seq<int>, next: nat) returns (s1: Engine)
    requires Stalled(s) && arrivals != []
    ensures Stalled(s1) && |s1.people| == |s.people| + 1 && s1.waiting.size == s.waiting.size
    ensures RunArrivals(s, arrivals, next) == RunArrivals(s1, arrivals[1..], next + 1)
  {
    var p := NewPerson(next + 1, arrivals[0]);
    StalledArrival(s, p);
    s1 := PersonArrives(s, p).value;
  }

  /** One arrival at a stalled engine: the person joins the back of the line if it has room,
      and the gate stays closed because the only slot is taken. */
  lemma StalledArrival(s: Engine, p: Person)
    requires Stalled(s) && p == NewPerson(p.id, p.arrivalTime)
    ensures PersonArrives(s, p).Ok?
    ensures Stalled(PersonArrives(s, p).value)
    ensures |PersonArrives(s, p).value.people| == |s.people| + 1
    ensures PersonArrives(s, p).value.waiting.size == s.waiting.size
    ensures ProcessEvents(PersonArrives(s, p).value) == PersonArrives(s, p)
  {
    var s1 := s.(people := s.people + [p], waiting := CQ.Enqueue(s.waiting, |s.people|).1);
    StalledJoin(s, p);
    assert PersonArrives(s, p) == ProcessQueue(s1);
    assert GateClosed(s1);
  }

  /** A stalled engine with one more person, who joins the line if it has room, is stalled. */
  lemma StalledJoin(s: Engine, p: Person)
    requires Stalled(s) && p == NewPerson(p.id, p.arrivalTime)
    ensures Stalled(s.(people := s.people + [p], waiting := CQ.Enqueue(s.waiting, |s.people|).1))
  {
    var h := |s.people|;
    var r := CQ.Enqueue(s.waiting, h);
    var s1 := s.(people := s.people + [p], waiting := r.1);
    var c := CQ.Contents(s.waiting);
    var c' := CQ.Contents(r.1);
    assert LineIs(c', Min(|s1.people| - 1, s1.waiting.size)) by {
      if |c| < s.waiting.size {
        assert c' == c + [h];
      } else {
        assert c' == c;
      }
    }
    assert forall i :: 0 <= i < |c'| ==> c'[i] < |s1.people|;
    assert WellFormed(s1);
  }

  /** With one slot and a positive dip time nobody ever leaves: `simulate` ends with person 1
      dipping, the clock at 0, its exit still pending, and the others waiting in line in
      arrival order up to the line's capacity. */
  lemma SingleSlotStalls(dipTime: int, capacity: nat, arrivals: seq<int>)
    requires dipTime > 0 && capacity >= 1 && arrivals != []
    ensures Simulate(1, dipTime, capacity, arrivals).Ok?
    ensures Stalled(Simulate(1, dipTime, capacity, arrivals).value)
    ensures |Simulate(1, dipTime, capacity, arrivals).value.people| == |arrivals|
    ensures Simulate(1, dipTime, capacity, arrivals).value.waiting.size == capacity
  {
    var s0 := Init(1, dipTime, capacity);
    var t := RunFromFresh(dipTime, capacity, arrivals);
    assert Simulate(1, dipTime, capacity, arrivals) == ProcessEvents(t);
    assert ProcessEvents(t) == Ok(t);
  }

  /** The arrival loop of a fresh one-slot engine with a positive dip time ends stalled. */
  lemma RunFromFresh(dipTime: int, capacity: nat, arrivals: seq<int>) returns (t: Engine)
    requires dipTime > 0 && capacity >= 1 && arrivals != []
    ensures RunArrivals(Init(1, dipTime, capacity), arrivals, 0) == Ok(t)
    ensures Stalled(t) && |t.people| == |arrivals| && t.waiting.size == capacity
  {
    var s0 := Init(1, dipTime, capacity);
    var p := NewPerson(1, arrivals[0]);
    InitInv(1, dipTime, capacity);
    var s1 := FirstArrivalStalls(s0, p);
    assert ProcessEvents(s1) == Ok(s1);
    assert RunArrivals(s0, arrivals, 0) == RunArrivals(s1, arrivals[1..], 1);
    RunStalled(s1, arrivals[1..], 1);
    t := RunArrivals(s1, arrivals[1..], 1).value;
  }

  /** The first arrival at a fresh one-slot engine is assigned at once and stalls it. */
  lemma FirstArrivalStalls(s0: Engine, p: Person) returns (s1: Engine)
    requires Inv(s0) && s0.n == 1 && s0.dipTime > 0 && s0.time == 0
    requires s0.people == [] && CQ.Contents(s0.waiting) == [] && s0.events == []
    requires p == NewPerson(p.id, p.arrivalTime)
    ensures PersonArrives(s0, p) == Ok(s1)
    ensures Stalled(s1) && |s1.people| == 1 && s1.waiting.size == s0.waiting.size
  {
    var s' := FirstJoins(s0, p);
    s1 := SingleSlotAssign(s');
    assert CQ.Contents(s1.waiting) == [] && |s1.events| == 1;
    InvToStalled(s1);
  }

  /** The first arrival at a fresh one-slot engine joins the empty line and opens the gate. */
  lemma FirstJoins(s0: Engine, p: Person) returns (s': Engine)
    requires Inv(s0) && s0.n == 1 && s0.time == 0
    requires s0.people == [] && CQ.Contents(s0.waiting) == [] && s0.events == []
    requires p == NewPerson(p.id, p.arrivalTime)
    ensures Core(s') && !GateClosed(s') && PersonArrives(s0, p) == ProcessQueue(s')
    ensures s'.n == 1 && s'.dipTime == s0.dipTime && s'.time == 0 && |s'.people| == 1
    ensures s'.waiting.size == s0.waiting.size && CQ.Contents(s'.waiting) == [0] && s'.events == []
  {
    var r := CQ.Enqueue(s0.waiting, 0);
    s' := s0.(people := s0.people + [p], waiting := r.1);
    assert PersonArrives(s0, p) == ProcessQueue(s');
    assert r.0 && CQ.Contents(r.1) == [0];
    JoinCore(s0, p);
    ConservedCount(s0);
    assert |s'.slots| == 1 && !CQ.IsEmpty(r.1);
  }

  /** A resting one-slot state with a positive dip time, one person, nobody in line and an
      exit pending is stalled. */
  lemma InvToStalled(s: Engine)
    requires Inv(s) && s.n == 1 && s.dipTime > 0 && s.time == 0 && |s.people| == 1
    requires CQ.Contents(s.waiting) == [] && |s.events| == 1
    ensures Stalled(s)
  {
    ConservedCount(s);
    assert s.events[0].tag == 0;
  }

  /** A one-slot engine with a dip time of zero or less between arrivals: every person who
      arrived has dipped in slot 0 and is exiting, the only slot is free again at time 0,
      nobody waits and no exit is pending. */
  predicate Drained(s: Engine)
  {
    && WellFormed(s)
    && s.n == 1 && s.dipTime <= 0 && s.time == 0
    && s.slots == [Entry(0, 0)] && s.events == [] && CQ.Contents(s.waiting) == []
    && forall i :: 0 <= i < |s.people| ==>
         s.people[i].status == Exiting && s.people[i].slot == Some(0) && s.people[i].exitTime == Some(s.dipTime)
  }

  /** A drained engine rests: it satisfies the invariant. */
  lemma DrainedInv(s: Engine)
    requires Drained(s)
    ensures Inv(s)
  {
    assert Tags(s.slots) == Range(1);
  }

  /** An arrival at a drained engine is assigned the free slot at once: it is dipping in
      slot 0 until `dipTime`, its exit is the only pending event, and nobody else changed. */
  lemma DrainedArrival(s: Engine, p: Person) returns (s1: Engine)
    requires Drained(s) && p == NewPerson(p.id, p.arrivalTime)
    ensures PersonArrives(s, p) == Ok(s1)
    ensures s1 == s.(slots := [], waiting := s1.waiting, events := [Entry(s.dipTime, |s.people|)],
                     people := s.people + [Assigned(p, 0, s.dipTime)])
    ensures CQ.Contents(s1.waiting) == [] && s1.waiting.size == s.waiting.size
  {
    var h := |s.people|;
    var j := Join(s, p);
    DrainedArrives(s, p);
    s1 := PersonArrives(s, p).value;
    ServedFirst(j, s1);
    SingleEntry(s1.events, Entry(s.dipTime, h));
  }

  /** The arrival at a drained engine joins the empty line and is served at once, without
      a crash. */
  lemma DrainedArrives(s: Engine, p: Person)
    requires Drained(s) && p == NewPerson(p.id, p.arrivalTime)
    ensures PersonArrives(s, p).Ok?
    ensures CQ.Contents(Join(s, p).waiting) == [|s.people|]
    ensures CQ.Contents(PersonArrives(s, p).value.waiting) == []
    ensures Served(Join(s, p), PersonArrives(s, p).value)
  {
    DrainedInv(s);
    PersonArrivesInv(s, p);
    assert PersonArrives(s, p) == ProcessQueue(Join(s, p));
  }

  /** `process_queue` serving exactly one person is one `assign_slot`: the first person in
      line takes the smallest slot entry, the clock moves to when that slot became
      available, and the person's exit is pushed. */
  lemma ServedFirst(j: Engine, t: Engine)
    requires WellFormed(j) && CQ.Valid(t.waiting) && Served(j, t)
    requires CQ.Contents(j.waiting) != [] && |CQ.Contents(t.waiting)| == |CQ.Contents(j.waiting)| - 1
    ensures var h, e := CQ.Contents(j.waiting)[0], j.slots[0];
            var time := Max(j.time, e.key);
            && t == j.(slots := j.slots[1..], waiting := t.waiting, time := time, events := t.events,
                       people := j.people[h := Assigned(j.people[h], e.tag, time + j.dipTime)])
            && multiset(t.events) == multiset(j.events) + multiset{Entry(time + j.dipTime, h)}
  {
    var c := CQ.Contents(j.waiting);
    var batch := Pairings(j.slots, c, 1);
    var h, e := c[0], j.slots[0];
    assert batch == [Pairing(Some(h), e.tag, e.key)];
    assert LastNaming(batch, 0);
    var time := Max(j.time, e.key);
    assert ClockAfter(j.time, batch, 1) == time;
    assert ExitsOf(j.time, j.dipTime, batch) == [Entry(time + j.dipTime, h)];
    forall i | 0 <= i < |j.people| && i != h
      ensures t.people[i] == j.people[i]
    {
      assert Unnamed(batch, i);
    }
  }

  /** The exit of the person just seated at a drained engine is due at once (its exit time
      `dipTime` is not after the clock at 0): `process_events` frees the slot, the person is
      exiting, and the engine is drained again. */
  lemma DrainedExit(s: Engine, s1: Engine, q: Person) returns (s2: Engine)
    requires Drained(s) && WellFormed(s1)
    requires s1 == s.(slots := [], waiting := s1.waiting, events := [Entry(s.dipTime, |s.people|)],
                      people := s.people + [Assigned(q, 0, s.dipTime)])
    requires CQ.Contents(s1.waiting) == []
    ensures ProcessEvents(s1) == Ok(s2)
    ensures Drained(s2) && s2 == s1.(slots := s.slots, events := [], people := s2.people)
    ensures s2.people == s.people + [Assigned(q, 0, s.dipTime).(status := Exiting)]
  {
    var h := |s.people|;
    var popped := s1.(events := []);
    PopKeepsShape(s1);
    s2 := ReleaseSlot(popped, h);
    assert GateClosed(s2);
    assert FreeSlot(popped, h) == Ok(s2);
    assert ProcessEvents(s1) == ProcessEvents(s2);
    assert s2.people == s.people + [Assigned(q, 0, s.dipTime).(status := Exiting)];
    SingleEntry(s2.slots, Entry(0, 0));
  }

  /** One round of the arrival loop at a drained engine leaves it drained, one person more. */
  lemma DrainedStep(s: Engine, arrivals: seq<int>, next: nat) returns (s2: Engine)
    requires Drained(s) && arrivals != []
    ensures Drained(s2) && |s2.people| == |s.people| + 1 && s2.waiting.size == s.waiting.size
    ensures RunArrivals(s, arrivals, next) == RunArrivals(s2, arrivals[1..], next + 1)
  {
    var p := NewPerson(next + 1, arrivals[0]);
    var s1 := DrainedArrival(s, p);
    s2 := DrainedExit(s, s1, p);
  }

  /** From a drained engine the arrival loop never fails and ends drained, with every
      arrival recorded. */
  lemma {:induction false} RunDrained(s: Engine, arrivals: seq<int>, next: nat)
    requires Drained(s)
    ensures RunArrivals(s, arrivals, next).Ok?
    ensures Drained(RunArrivals(s, arrivals, next).value)
    ensures |RunArrivals(s, arrivals, next).value.people| == |s.people| + |arrivals|
    decreases |arrivals|
  {
    if arrivals != [] {
      var s2 := DrainedStep(s, arrivals, next);
      RunDrained(s2, arrivals[1..], next + 1);
    }
  }

  /** With one slot and a dip time of zero or less, every exit is due the moment it is
      scheduled: `simulate` succeeds and ends with every arrival recorded and exiting, the
      slot free, nobody in line and no exit pending. */
  lemma SingleSlotDrains(dipTime: int, capacity: nat, arrivals: seq<int>)
    requires dipTime <= 0 && capacity >= 1
    ensures Simulate(1, dipTime, capacity, arrivals).Ok?
    ensures Drained(Simulate(1, dipTime, capacity, arrivals).value)
    ensures |Simulate(1, dipTime, capacity, arrivals).value.people| == |arrivals|
  {
    var s0 := Init(1, dipTime, capacity);
    assert Drained(s0);
    RunDrained(s0, arrivals, 0);
    var t := RunArrivals(s0, arrivals, 0).value;
    assert ProcessEvents(t) == Ok(t);
  }

  /** A heap holding exactly one entry is that entry. */
  lemma SingleEntry(h: seq<Entry>, e: Entry)
    requires multiset(h) == multiset{e}
    ensures h == [e]
  {
    assert |h| == 1;
    assert h[0] in multiset(h);
  }
}
