/** The trace ring of src/context/context.c: 256 slots that refine an unbounded log. */
module TraceLog {
  import opened Limits

  const MAX_EVENTS: nat := 256
  const EVENT_TYPE_COUNT: nat := 7
  const FIRST_TYPE: nat := 1 // RINGL_TRACE_CALL_SUMMARY
  const LAST_TYPE: nat := 7  // RINGL_TRACE_CONTEXT_LOSS

  datatype Event = Event(kind: nat, status: int, sequence: nat, value0: nat, value1: nat)

  /** How many events of a kind a log holds. */
  function CountKind(log: seq<Event>, kind: nat): nat {
    if log == [] then 0
    else CountKind(log[..|log| - 1], kind) + if log[|log| - 1].kind == kind then 1 else 0
  }

  function Sum(counts: seq<nat>): nat {
    if counts == [] then 0 else Sum(counts[..|counts| - 1]) + counts[|counts| - 1]
  }

  function Retained(log: seq<Event>): nat { if |log| < MAX_EVENTS then |log| else MAX_EVENTS }

  /** The sequence number of the oldest event still in the ring; one past the
      newest when the log is empty. */
  function Oldest(log: seq<Event>): nat { |log| + 1 - Retained(log) }

  // The values ringl_trace_runtime_read returns.
  const DONE := 0
  const INVALID := -1
  const OVERRUN := -2
  const MORE := -3
  const NO_ROOM := -4

  datatype ReadResult = ReadResult(status: int, events: seq<Event>, next: nat)

  /** What a read must deliver, in terms of the unbounded log. */
  function ReadSpec(log: seq<Event>, cursor: nat, capacity: nat): ReadResult {
    var from := if cursor == 0 then Oldest(log) else cursor;
    var available := |log| + 1 - from;
    if from < Oldest(log) || from > |log| + 1 then ReadResult(OVERRUN, [], Oldest(log))
    else if available == 0 then ReadResult(DONE, [], from)
    else if capacity == 0 then ReadResult(NO_ROOM, [], cursor)
    else if available > capacity then ReadResult(MORE, log[from - 1..from - 1 + capacity], from + capacity)
    else ReadResult(DONE, log[from - 1..], |log| + 1)
  }

  ghost predicate CountsMatch(counts: seq<nat>, log: seq<Event>) {
    |counts| == EVENT_TYPE_COUNT && forall t :: 0 <= t < EVENT_TYPE_COUNT ==> counts[t] == CountKind(log, t + 1)
  }

  /** The ring holds the newest events, each in the slot its number selects. */
  ghost predicate RingHolds(ring: seq<Event>, log: seq<Event>)
    requires |ring| == MAX_EVENTS
  {
    forall i :: |log| - Retained(log) <= i < |log| ==> ring[Slot(i)] == log[i]
  }

  function Slot(i: nat): (slot: nat)
    ensures slot < MAX_EVENTS
  {
    i % MAX_EVENTS
  }

  lemma SlotsDiffer(i: nat, n: nat)
    requires n < i + MAX_EVENTS && i < n
    ensures Slot(i) != Slot(n)
  {
  }

  lemma CountsAppend(counts: seq<nat>, log: seq<Event>, e: Event)
    requires CountsMatch(counts, log) && FIRST_TYPE <= e.kind <= LAST_TYPE
    ensures CountsMatch(counts[e.kind - 1 := counts[e.kind - 1] + 1], log + [e])
  {
    assert (log + [e])[..|log|] == log;
  }

  lemma RingAppend(ring: seq<Event>, log: seq<Event>, e: Event)
    requires |ring| == MAX_EVENTS && RingHolds(ring, log)
    ensures RingHolds(ring[Slot(|log|) := e], log + [e])
  {
    var log' := log + [e];
    forall i | |log'| - Retained(log') <= i < |log'|
      ensures ring[Slot(|log|) := e][Slot(i)] == log'[i]
    {
      if i < |log| {
        SlotsDiffer(i, |log|);
      }
    }
  }

  /** The outcomes of a read, by where its cursor lies. */
  lemma ReadCases(log: seq<Event>, cursor: nat, capacity: nat)
    ensures var r, from := ReadSpec(log, cursor, capacity), if cursor == 0 then Oldest(log) else cursor;
            if from < Oldest(log) || |log| + 1 < from then r == ReadResult(OVERRUN, [], Oldest(log))
            else if from == |log| + 1 then r == ReadResult(DONE, [], from)
            else if capacity == 0 then r == ReadResult(NO_ROOM, [], cursor)
            else
              var count := if |log| + 1 - from > capacity then capacity else |log| + 1 - from;
              && r.status == (if |log| + 1 - from > capacity then MORE else DONE) && r.next == from + count
              && 0 < from && from - 1 + count <= |log| && r.events == log[from - 1..from - 1 + count]
  {
  }

  class TraceRuntime {
    var initialized: bool // the magic number
    var nextSequence: nat
    var droppedCount: nat
    var eventCount: nat
    var eventCounts: seq<nat>
    var events: array<Event>
    ghost var log: seq<Event> // every event ever recorded

    ghost predicate Valid()
      reads this, events
    {
      && initialized
      && nextSequence == |log| + 1 <= UINT64_MAX
      && (forall i :: 0 <= i < |log| ==> log[i].sequence == i + 1 && FIRST_TYPE <= log[i].kind <= LAST_TYPE)
      && eventCount == Retained(log)
      && droppedCount == |log| - eventCount
      && CountsMatch(eventCounts, log)
      && events.Length == MAX_EVENTS
      && RingHolds(events[..], log)
    }

    constructor ()
      ensures Valid() && log == [] && fresh(events)
    {
      initialized := true;
      nextSequence := 1;
      droppedCount, eventCount := 0, 0;
      eventCounts := [0, 0, 0, 0, 0, 0, 0];
      events := new Event[MAX_EVENTS](_ => Event(0, 0, 0, 0, 0));
      log := [];
    }

    method Record(kind: nat, status: int, value0: nat, value1: nat) returns (result: int)
      requires Valid()
      modifies this, events
      ensures Valid() && events == old(events)
      ensures result == if kind < FIRST_TYPE || kind > LAST_TYPE then -1
                        else if |old(log)| + 1 == UINT64_MAX then -2 else 0
      ensures log == if result == 0 then old(log) + [Event(kind, status, |old(log)| + 1, value0, value1)] else old(log)
    {
      hide CountKind, RingHolds, Slot;
      if !initialized || kind < FIRST_TYPE || kind > LAST_TYPE {
        return -1;
      }
      if nextSequence == UINT64_MAX {
        return -2;
      }
      var index := Slot(nextSequence - 1);
      if eventCount == MAX_EVENTS {
        droppedCount := droppedCount + 1;
      } else {
        eventCount := eventCount + 1;
      }
      var event := Event(kind, status, nextSequence, value0, value1);
      RingAppend(events[..], log, event);
      CountsAppend(eventCounts, log, event);
      events[index] := event;
      assert events[..] == old(events[..])[index := event];
      nextSequence := nextSequence + 1;
      eventCounts := eventCounts[kind - 1 := eventCounts[kind - 1] + 1];
      log := log + [event];
      result := 0;
    }

    /** The copy loop of a read. */
    method CopyOut(from: nat, count: nat, eventsOut: array<Event>)
      requires Valid() && Oldest(log) <= from && from - 1 + count <= |log|
      requires eventsOut != events && count <= eventsOut.Length
      modifies eventsOut
      ensures eventsOut[..count] == log[from - 1..from - 1 + count]
      ensures eventsOut[count..] == old(eventsOut[count..])
    {
      var index := 0;
      while index < count
        invariant index <= count
        invariant eventsOut[..index] == log[from - 1..from - 1 + index]
        invariant eventsOut[count..] == old(eventsOut[count..])
      {
        var sequence := from + index;
        eventsOut[index] := events[Slot(sequence - 1)];
        index := index + 1;
      }
    }

    /** Reads never change the ring; a refused read leaves the caller's events alone.
        `usable` says that both result pointers are set and that the caller's events
        lie outside the runtime. */
    method Read(cursor: nat, capacity: nat, eventsOut: array?<Event>, usable: bool)
      returns (result: int, count: nat, next: nat)
      requires initialized ==> Valid()
      requires eventsOut != null ==> eventsOut != events && capacity <= eventsOut.Length
      modifies eventsOut
      ensures (initialized ==> Valid()) && log == old(log)
      ensures if !initialized || !usable || (capacity != 0 && eventsOut == null) then result == INVALID && count == 0 && next == cursor
              else var spec := ReadSpec(log, cursor, capacity);
                   && result == spec.status && count == |spec.events| && next == spec.next
                   && (count != 0 ==> eventsOut != null && eventsOut[..count] == spec.events)
      ensures eventsOut != null ==> count <= eventsOut.Length && eventsOut[count..] == old(eventsOut[count..])
    {
      hide CountsMatch, RingHolds, Slot, ReadSpec;
      ReadCases(log, cursor, capacity);
      count, next := 0, cursor;
      if !initialized || !usable || (capacity != 0 && eventsOut == null) {
        return INVALID, 0, cursor;
      }
      var oldest := nextSequence - eventCount;
      assert oldest == Oldest(log);
      var from := if cursor == 0 then oldest else cursor;
      if from < oldest || from > nextSequence {
        return OVERRUN, 0, oldest;
      }
      var available := nextSequence - from;
      if available == 0 {
        return DONE, 0, from;
      }
      if capacity == 0 {
        return NO_ROOM, 0, cursor;
      }
      count := if available > capacity then capacity else available;
      CopyOut(from, count, eventsOut);
      next := from + count;
      result := if available > capacity then MORE else DONE;
    }
  }

  // ------------------------------------------------------------- the totals

  lemma {:induction false} CountsOfKinds(log: seq<Event>, counts: seq<nat>)
    requires CountsMatch(counts, log)
    requires forall i :: 0 <= i < |log| ==> FIRST_TYPE <= log[i].kind <= LAST_TYPE
    ensures Sum(counts) == |log|
  {
    SumOfSeven(counts);
    if log != [] {
      var before := log[..|log| - 1];
      var fewer := seq(EVENT_TYPE_COUNT, t requires 0 <= t < EVENT_TYPE_COUNT => CountKind(before, t + 1));
      CountsOfKinds(before, fewer);
      SumOfSeven(fewer);
    }
  }

  lemma SumOfSeven(counts: seq<nat>)
    requires |counts| == 7
    ensures Sum(counts) == counts[0] + counts[1] + counts[2] + counts[3] + counts[4] + counts[5] + counts[6]
  {
    var c6, c5, c4 := counts[..6], counts[..5], counts[..4];
    var c3, c2, c1 := counts[..3], counts[..2], counts[..1];
    assert c6[..5] == c5 && c5[..4] == c4 && c4[..3] == c3 && c3[..2] == c2 && c2[..1] == c1 && c1[..0] == [];
    assert Sum(c1) == counts[0];
    assert Sum(c2) == Sum(c1) + counts[1];
    assert Sum(c3) == Sum(c2) + counts[2];
    assert Sum(c4) == Sum(c3) + counts[3];
    assert Sum(c5) == Sum(c4) + counts[4];
    assert Sum(c6) == Sum(c5) + counts[5];
  }

  /** Retained plus dropped is the total ever recorded, and so is the sum of the
      per-type counts. */
  lemma TotalsAgree(trace: TraceRuntime)
    requires trace.Valid()
    ensures trace.eventCount + trace.droppedCount == |trace.log| == Sum(trace.eventCounts)
  {
    CountsOfKinds(trace.log, trace.eventCounts);
  }

  // ------------------------------------------------------------- a consumer

  /** What happens between a consumer's first read and its last: records by the
      program, and reads that follow the cursor the previous read returned. */
  datatype Action = Rec(event: Event) | Rd(capacity: nat)

  datatype Session = Session(log: seq<Event>, cursor: nat, delivered: seq<Event>, overrun: bool)

  function Act(s: Session, a: Action): Session {
    match a
    case Rec(event) => s.(log := s.log + [event])
    case Rd(capacity) =>
      var r := ReadSpec(s.log, s.cursor, capacity);
      Session(s.log, r.next, s.delivered + r.events, s.overrun || r.status == OVERRUN)
  }

  function Play(s: Session, actions: seq<Action>): Session {
    if actions == [] then s else Act(Play(s, actions[..|actions| - 1]), actions[|actions| - 1])
  }

  /** A read that does not overrun delivers the slice up to its next cursor. */
  lemma ReadIsTheNextSlice(log: seq<Event>, cursor: nat, capacity: nat)
    requires 1 <= cursor <= |log| + 1
    ensures var r := ReadSpec(log, cursor, capacity);
            r.status != OVERRUN ==> cursor <= r.next <= |log| + 1 && r.events == log[cursor - 1..r.next - 1]
  {
  }

  lemma SlicesJoin<T>(s: seq<T>, a: nat, b: nat, c: nat)
    requires a <= b <= c <= |s|
    ensures s[a..c] == s[a..b] + s[b..c]
  {
  }

  /** The first event a consumer wants: its cursor says so, and with cursor zero it is
      the oldest event retained when the first read that has room is made. Zero
      while there has been no such read. */
  function First(log: seq<Event>, cursor: nat, actions: seq<Action>): nat {
    if cursor != 0 then cursor
    else if actions == [] then 0
    else
      var before, last := actions[..|actions| - 1], actions[|actions| - 1];
      var first, s := First(log, cursor, before), Play(Session(log, cursor, [], false), before);
      if first != 0 then first else if Act(s, last).cursor != 0 then Oldest(s.log) else 0
  }

  /** What the reads so far have delivered, from event `first` on; a cursor may start
      past the end of the log and wait for records. */
  ghost predicate Delivered(s: Session, first: nat) {
    if s.cursor == 0 then first == 0 && s.delivered == [] && !s.overrun
    else
      0 < first
      && (!s.overrun ==>
            first <= s.cursor
            && if s.cursor <= |s.log| + 1 then s.delivered == s.log[first - 1..s.cursor - 1]
               else first == s.cursor && s.delivered == [])
  }

  /** A read with cursor zero either stays there or starts with the oldest event. */
  lemma ReadFromZero(log: seq<Event>, capacity: nat)
    ensures var r := ReadSpec(log, 0, capacity);
            && r.status != OVERRUN && 0 < Oldest(log)
            && if r.next == 0 then r.events == []
               else Oldest(log) <= r.next <= |log| + 1 && r.events == log[Oldest(log) - 1..r.next - 1]
  {
  }

  /** A cursor past the end of the log overruns. */
  lemma ReadPastTheEnd(log: seq<Event>, cursor: nat, capacity: nat)
    requires |log| + 1 < cursor
    ensures ReadSpec(log, cursor, capacity).status == OVERRUN
    ensures 0 < ReadSpec(log, cursor, capacity).next
  {
  }

  lemma NextIsNamed(log: seq<Event>, cursor: nat, capacity: nat)
    ensures 0 < cursor ==> 0 < ReadSpec(log, cursor, capacity).next
  {
  }

  lemma ActDelivers(s: Session, first: nat, a: Action)
    requires Delivered(s, first)
    ensures s.log <= Act(s, a).log
    ensures Delivered(Act(s, a), if first != 0 then first else if Act(s, a).cursor != 0 then Oldest(s.log) else 0)
  {
    hide ReadSpec, Oldest;
    var after := Act(s, a);
    match a
    case Rec(event) =>
      if 0 < first <= s.cursor <= |s.log| + 1 {
        assert after.log[first - 1..after.cursor - 1] == s.log[first - 1..s.cursor - 1];
      }
    case Rd(capacity) =>
      NextIsNamed(s.log, s.cursor, capacity);
      if s.cursor == 0 {
        ReadFromZero(s.log, capacity);
      } else if |s.log| + 1 < s.cursor {
        ReadPastTheEnd(s.log, s.cursor, capacity);
      } else {
        ReadIsTheNextSlice(s.log, s.cursor, capacity);
        if !after.overrun {
          SlicesJoin(s.log, first - 1, s.cursor - 1, after.cursor - 1);
        }
      }
  }

  /** Until an overrun is reported, the reads together deliver exactly the log
      from the first event wanted up to the current cursor: nothing missing, nothing
      twice, in order, whatever is recorded in between. */
  lemma {:induction false} ReadsDeliverTheLog(log: seq<Event>, start: nat, actions: seq<Action>)
    ensures var s := Play(Session(log, start, [], false), actions);
            log <= s.log && Delivered(s, First(log, start, actions))
  {
    hide Act;
    if actions == [] {
      assert start <= |log| + 1 ==> start == 0 || log[start - 1..start - 1] == [];
    } else {
      ReadsDeliverTheLog(log, start, actions[..|actions| - 1]);
      ActDelivers(Play(Session(log, start, [], false), actions[..|actions| - 1]), First(log, start, actions[..|actions| - 1]),
                  actions[|actions| - 1]);
    }
  }

  /** For every cursor: an overrun is reported exactly when more than 256 events were
      recorded at or after it, or when it lies past the end of the log. */
  lemma OverrunExactly(log: seq<Event>, cursor: nat, capacity: nat)
    ensures ReadSpec(log, cursor, capacity).status == OVERRUN
            <==> cursor != 0 && (cursor + MAX_EVENTS < |log| + 1 || |log| + 1 < cursor)
  {
  }

  /** A cursor of zero starts at the oldest retained event and never overruns. */
  lemma ZeroStartsAtTheOldest(log: seq<Event>, capacity: nat)
    requires capacity > 0
    ensures ReadSpec(log, 0, capacity) == ReadSpec(log, Oldest(log), capacity)
    ensures ReadSpec(log, 0, capacity).status != OVERRUN
  {
  }

  function Reads(capacity: nat, n: nat): seq<Action> {
    seq(n, i requires 0 <= i < n => Rd(capacity))
  }

  /** With no new records and room for at least one event per read, ceiling of
      available over capacity reads drain the ring; one fewer still reports more. */
  lemma {:induction false} DrainingTerminates(log: seq<Event>, start: nat, capacity: nat, n: nat)
    requires Oldest(log) <= start <= |log| + 1 && capacity > 0
    ensures var s := Play(Session(log, start, [], false), Reads(capacity, n));
            && !s.overrun && s.log == log
            && s.cursor == if n * capacity >= |log| + 1 - start then |log| + 1 else start + n * capacity
  {
    if n > 0 {
      assert Reads(capacity, n)[..n - 1] == Reads(capacity, n - 1);
      DrainingTerminates(log, start, capacity, n - 1);
      assert n * capacity == (n - 1) * capacity + capacity;
    }
  }
}
