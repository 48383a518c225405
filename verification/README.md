# River dipping, modelled in Dafny

`river-dipping.py` simulates people taking turns in `n` dipping slots of a river. A
person arrives and joins a fixed-capacity ring-buffer line (`CircularQueue`). The
engine (`RiverDipping`) keeps two `heapq` min-heaps:

- the slot heap holds `(time available, slot id)`;
- the event heap holds `(exit time, person)`.

`process_queue` pops whole rounds of `min(n, 10)` slots while somebody waits, pairing
each slot with the next person dequeued. `assign_slot` puts each pair to work and
schedules the person's exit `dip_time` later. `process_events` pops the exits that are
due, and `free_slot` returns each exiting person's slot to the heap and offers the line
slots again. `simulate` runs one arrival at a time, processing events after each one.

The model is four modules:

- `CircularQueue` (`circular_queue.dfy`): the ring buffer as an immutable datatype that
  keeps the source's `front`/`rear` index arithmetic, with an abstraction `Contents`
  giving the items oldest first.
- `MinHeap` (`min_heap.dfy`): a heap is an ordered sequence of `(key, tag)` entries under
  Python's tuple order.
- `RiverDipping` (`engine.dfy`): one pure function per method of the engine. Its state
  holds the person objects in `people`, and queues and heaps refer to people by index.
  A transition returns `Ok(next state)` or stops with `Err(NoneDereference)` or
  `Err(ExitTimeTie)`:
  - `NoneDereference` is the `AttributeError` when `assign_slot` receives the `None` that
    `dequeue` returns on an empty line.
  - `ExitTimeTie` is the `TypeError` when `heapq` has to compare two `Person` objects
    because their exit times are equal.
- `RiverDippingProperties` (`engine_properties.dfy`): the invariant of the engine and what
  it implies about whole runs.

The invariant (`Inv`) states:

- slot conservation: every slot id is either free in the slot heap or held by the person
  of a pending exit event, exactly once;
- everybody in line is a distinct waiting person;
- statuses only move forward;
- every free slot became available at or before the current time.

The last fact means `assign_slot` never moves the clock, so the clock stays at 0 for the
whole run. It also means every pending exit is at `time + dip_time`. From there the model
proves how `simulate` ends:

- with two or more slots, the first arrival crashes the run: the first batch has at
  least two positions and only one person, so the second position is `None`;
- with one slot, the run always succeeds. If `dip_time > 0`, person 1 dips forever. The
  next arrivals wait in line in arrival order until the line is full, and any later
  arrival is recorded but dropped, because `enqueue`'s refusal is ignored. If
  `dip_time <= 0`, every exit is due the moment it is scheduled. Each person is seated
  and leaves at once, and the run ends with everybody exiting, the slot free, nobody in
  line and no exit pending.

The source's comments ("Global clock", "Stagger arrivals", "Immediately assign the next
waiting person") describe a clock that advances with arrivals and exits. The code never
advances it, and the model follows the code.

## Model

| member | source | states |
|---|---|---|
| CircularQueue.New | river-dipping.py:7-10 | a fresh queue of the given capacity is well formed and holds nothing; both indices are -1 |
| CircularQueue.IsEmpty | river-dipping.py:31-32 | the answer is true exactly when the queue holds no items, which is exactly when the indices are reset to -1 |
| CircularQueue.FullTest | river-dipping.py:13 | the full test `(rear + 1) % size == front` holds exactly when all `size` cells are taken |
| CircularQueue.Enqueue | river-dipping.py:12-19 | the item is refused (answer false, queue unchanged) exactly when the queue is full; otherwise it joins the back of the line; the queue stays well formed |
| CircularQueue.Dequeue | river-dipping.py:21-29 | an empty queue gives `None` and stays unchanged; otherwise the oldest item comes out and the rest keep their order; taking the last item resets both indices to -1 |
| CircularQueue.FrontIsOldest | river-dipping.py:24-25 | the cell at `front` holds the oldest item, and `front == rear` exactly when it is the only one |
| CircularQueue.DrainYieldsContents | river-dipping.py:21-32 | dequeuing until `is_empty` yields exactly the items held, oldest first |
| CircularQueue.EnqueueAllAppends | river-dipping.py:12-19 | items that fit are appended in the order they are offered |
| CircularQueue.FifoOrder | river-dipping.py:12-29 | round trip: up to `size` items offered to a fresh queue come back out in the same order |
| CircularQueue.CapacityIsExact | river-dipping.py:7-19 | exactly `size` items fit in a fresh queue, and the next offer is refused |
| MinHeap.Push | river-dipping.py:80 | `heappush`: the heap gains exactly the new entry and an ordered heap stays ordered |
| MinHeap.HeadIsMinimum | river-dipping.py:65 | the entry `heappop` takes is below every entry of the heap in tuple order |
| MinHeap.SortedUnique | river-dipping.py:46-47 | two ordered heaps with the same entries are equal, so the ordered-sequence representation fixes nothing `heapq` leaves open |
| RiverDipping.Init | river-dipping.py:43-50 | `n` and `dip_time` as given; slots 0 .. n-1 all available at time 0; an empty line of the given capacity; no events; clock at 0; no people yet |
| RiverDipping.TakeRound | river-dipping.py:64-67 | one pass of the `for` loop pairs the k smallest slot entries, in order, with the first k people in line, or `None` past the end of the line; the line loses exactly those people |
| RiverDipping.CollectBatch | river-dipping.py:63-67 | the `while` loop collects whole rounds, paired as above. It stops only when the line is empty or fewer than a round of slots is left, and it never starts a round after the line has run out |
| RiverDipping.AssignSlot | river-dipping.py:72-80 | fails exactly when the person is `None` (NoneDereference) or a pending exit has the same exit time (ExitTimeTie); otherwise the clock becomes `max(time, available)`, the person is dipping in the slot and leaves `dip_time` later, one exit event is added, and nothing else changes |
| RiverDipping.AssignAll | river-dipping.py:69-80 | when every assignment succeeds, every batch position named a person. The clock is the running maximum of the positions' available times. Each person, as of the last position naming them, is dipping in that position's slot and leaves `dip_time` after the clock at that point. Exactly one exit event per position was pushed, carrying that exit time. Nobody else changed, and the slots and line are untouched |
| RiverDipping.ProcessQueue | river-dipping.py:58-70 | with its loop guard false the state is unchanged. On success the guard is false afterwards, and the line plus pending exits keep their total. The line is strictly shorter if the loop ran. On success (`Served`), for some `k`, the first `k` people in line left it and the `k` smallest slot entries left the slot heap. The i-th of those people is dipping in the i-th slot, with their exit pushed, as `AssignAll` states for that batch. Nobody else changed |
| RiverDipping.NothingDue | river-dipping.py:84 | with ordered events, the first event not being due means no event is due |
| RiverDipping.ReleaseSlot | river-dipping.py:90-93 | the person is `Exiting` with slot and exit time kept, the slot heap gains `(time, slot)`, and nothing else changes |
| RiverDipping.FreeSlot | river-dipping.py:88-94 | on success the people, parameters and the total of line plus pending exits are kept. The line was then served from the released state, as `ProcessQueue` states. The freed person, when not in line, ends `Exiting`, keeping their slot and exit time |
| RiverDipping.ProcessEvents | river-dipping.py:82-86 | with nothing due the state is unchanged; on success no pending exit is due any more |
| RiverDipping.Join | river-dipping.py:52-55 | the new person is recorded under the next index. When the line has room, they join its back; when it is full, the line is unchanged, because the refusal is ignored. Slots, events and clock are untouched |
| RiverDipping.PersonArrives | river-dipping.py:52-56 | on success exactly one person is recorded, with the given id and arrival time, and the people before are kept. The line, after the newcomer joined its back when there was room (`Join`), was then served as `ProcessQueue` states |
| RiverDipping.ServedKeeps | river-dipping.py:58-70 | serving the line changes nobody who was not in it |
| RiverDipping.JoinKeepsShape | river-dipping.py:55 | recording the new person and offering them to the line keeps the state well formed, with the new person last |
| RiverDipping.RunArrivals | river-dipping.py:98-102 | on success the i-th arrival is recorded as person `i + 1` with its arrival time, in order |
| RiverDipping.Simulate | river-dipping.py:96-104 | on success the people are the arrivals numbered from 1 in order, and no pending exit is due |
| RiverDippingProperties.InitInv | river-dipping.py:43-50 | `__init__` establishes the invariant |
| RiverDippingProperties.ConservedCount | river-dipping.py:46 | under slot conservation, free slots and pending exits together number `n` |
| RiverDippingProperties.TagsPush | river-dipping.py:93 | pushing a slot entry adds exactly its slot id to the free slot ids |
| RiverDippingProperties.OpenGateBatch | river-dipping.py:60-67 | when the loop runs, the batch holds at least `min(n, 10)` positions, the first is the first person in line, the second is the second person or `None`, and every slot in it is already available |
| RiverDippingProperties.WideBatchFails | river-dipping.py:69-80 | a batch of two or more positions whose slots are already available cannot be assigned: it fails with NoneDereference when nobody is dipping and the second position is `None`, and with ExitTimeTie otherwise (two equal exit times) |
| RiverDippingProperties.SecondPositionFails | river-dipping.py:69-80 | with no exit pending, the first position of such a batch is seated, and the second fails with NoneDereference if it is `None` and with ExitTimeTie otherwise |
| RiverDippingProperties.FirstSeated | river-dipping.py:72-80 | with no exit pending, seating a person succeeds. The clock moves to `max(time, available)`, the person is dipping in the slot, and their exit is the only event |
| RiverDippingProperties.FirstPositionFails | river-dipping.py:69-80 | a batch whose first position is `None`, or ties a pending exit time, stops there with that position's crash |
| RiverDippingProperties.ProcessQueueCore | river-dipping.py:58-80 | `process_queue` fails exactly when its loop runs with two or more slots, with NoneDereference exactly when nobody is dipping and one person waits; on success the invariant holds, the clock has not moved and statuses only moved forward |
| RiverDippingProperties.ClosedGateKeeps | river-dipping.py:63 | with the loop guard false, `process_queue` returns the state unchanged |
| RiverDippingProperties.WideGateFails | river-dipping.py:58-80 | with two or more slots, once the loop runs, `process_queue` fails with the error named above |
| RiverDippingProperties.SingleSlotAssign | river-dipping.py:58-80 | with one slot, once the loop runs, `process_queue` succeeds, keeps the invariant and the clock, and statuses only move forward |
| RiverDippingProperties.ServedFirst | river-dipping.py:63-80 | when `process_queue` serves exactly one person, it does what one `assign_slot` does. The first person in line takes the smallest slot entry, and the clock moves to that slot's available time. The person is dipping until `dip_time` later, and their exit is pushed |
| RiverDippingProperties.ReleaseCore | river-dipping.py:84-93 | popping the due exit and releasing its slot keeps every part of the invariant except the loop guard of `process_queue`, and keeps the clock |
| RiverDippingProperties.DueRound | river-dipping.py:84-94 | one round of the `process_events` loop keeps the invariant and the clock, never fails with one slot, and shortens line plus pending exits |
| RiverDippingProperties.ProcessEventsInv | river-dipping.py:82-94 | `process_events` keeps the invariant and the clock; with a positive dip time it changes nothing, and with one slot it never fails |
| RiverDippingProperties.ProcessEventsIdempotent | river-dipping.py:82-86 | a second `process_events` straight after a successful one changes nothing |
| RiverDippingProperties.JoinCore | river-dipping.py:52-55 | the state `person_arrives` hands to `process_queue` satisfies the invariant apart from the loop guard |
| RiverDippingProperties.PersonArrivesInv | river-dipping.py:52-56 | a person who finds the line full is dropped and nothing else changes; otherwise `person_arrives` fails exactly when the new person opens a batch of two or more slots, and on success it keeps the invariant and the clock |
| RiverDippingProperties.RunArrivalsInv | river-dipping.py:98-102 | the arrival loop keeps the invariant and the clock, and never fails with one slot |
| RiverDippingProperties.SimulateOutcome | river-dipping.py:96-104 | `simulate` succeeds exactly when there is one slot or nobody arrives; with two or more slots and an arrival it fails with NoneDereference; on success the invariant holds and the clock is still 0 |
| RiverDippingProperties.WideFirstArrivalFails | river-dipping.py:98-101 | with two or more slots the first arrival crashes `simulate` with NoneDereference |
| RiverDippingProperties.NarrowRunSucceeds | river-dipping.py:96-104 | with one slot or no arrivals `simulate` succeeds, keeps the invariant and leaves the clock at 0; how such a run ends is stated by `SingleSlotStalls` for `dip_time > 0` and by `SingleSlotDrains` for `dip_time <= 0` |
| RiverDippingProperties.StalledArrival | river-dipping.py:52-56 | at a stalled one-slot engine an arrival joins the back of the line if there is room, and nobody moves |
| RiverDippingProperties.RunStalled | river-dipping.py:98-102 | once stalled, the rest of the arrival loop only lengthens the line, and no exit ever becomes due |
| RiverDippingProperties.SingleSlotStalls | river-dipping.py:96-104 | with one slot and a positive dip time `simulate` ends with person 1 dipping, the clock at 0, its exit still pending, and the others waiting in arrival order up to the line's capacity |
| RiverDippingProperties.DrainedInv | river-dipping.py:42-50 | a drained one-slot engine (slot free, nobody in line, no exit pending, everybody exiting) satisfies the invariant |
| RiverDippingProperties.DrainedArrival | river-dipping.py:52-80 | an arrival at a drained engine is seated at once. They dip in slot 0 until `dip_time`, their exit is the only pending event, and nobody else changes |
| RiverDippingProperties.DrainedExit | river-dipping.py:82-94 | with `dip_time <= 0` that exit is already due. `process_events` frees the slot, the person ends `Exiting`, and the engine is drained again |
| RiverDippingProperties.RunDrained | river-dipping.py:98-102 | from a drained engine, the arrival loop never fails, records every arrival, and ends drained |
| RiverDippingProperties.SingleSlotDrains | river-dipping.py:96-104 | with one slot and `dip_time <= 0`, `simulate` succeeds. It ends with every arrival recorded and exiting from slot 0, the slot free at time 0, nobody in line and no exit pending |

## Left out

- Printing (lines 54, 79 and 91): the trace has no effect on the state.
- Random arrival times (line 99): `simulate` takes the drawn arrival times as a sequence,
  one per person, instead of `num_people` and `interval`. The engine never reads a
  person's arrival time.
- The module-level run (lines 107-108). `RiverDippingProperties.SimulateOutcome` covers
  it: with 10 slots, the first arrival ends the run with NoneDereference.
- The unused `deque` import and the `Moving` status, which is named in a comment but
  never set.
- The line's hard-coded capacity of 1000000 (line 48) is a parameter. A capacity of 0
  would divide by zero in `enqueue`, so it must be at least 1.
- `heapq`'s array layout: a heap is its ordered sequence of entries.
  `MinHeap.SortedUnique` shows this loses nothing outside the tie rule admitted below,
  under `RiverDipping.AssignSlot`.
- Non-integer times: the clock, `dip_time` and the arrival times are modelled as `int`.
  The source accepts any number (`dip_time=2.5` is legal at line 43), and floating-point
  arithmetic is not modelled.
- What happens after a crash: an `Err` result ends the run, and the partly updated
  state is not modelled.
- RiverDipping.Init: requires `n >= 1`, because with no slots `min(n, 10)` is 0 and the
  `while` loop of `process_queue` never ends once somebody waits.
- RiverDipping.AssignSlot: reports ExitTimeTie whenever any pending exit has the same
  exit time. `heappush` compares only along the path it sifts. In reachable states at
  most one exit is pending (`ExitsPending`), and `heappush` compares with it, so the
  rule is exact there.
- RiverDippingProperties.ProcessQueueCore, ReleaseCore, JoinCore: these are about
  states that satisfy the invariant, which `InitInv` and the preservation lemmas show
  every reachable state does. They say nothing about arbitrary states.
