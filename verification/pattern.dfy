/** modo's Pattern<N>: N note patterns stepped together on every call. The events they emit go,
    in lane order, into a queue of capacity N, and each call releases at most one queued event,
    the oldest. */
module Patterns {
  import opened Midi
  import NotePatterns
  import Queues
  import Rings
  import Arith

  datatype Pattern = Pattern(lanes: seq<NotePatterns.NotePattern>, queue: Queues.Queue<Event>)

  predicate LanesValid(lanes: seq<NotePatterns.NotePattern>) {
    forall k :: 0 <= k < |lanes| ==> NotePatterns.Valid(lanes[k])
  }

  /** At least one lane, every lane valid, and a queue of one slot per lane. */
  predicate Valid(p: Pattern) {
    && |p.lanes| > 0 && LanesValid(p.lanes)
    && Queues.Valid(p.queue) && Queues.Capacity(p.queue) == |p.lanes|
  }

  function New(lanes: seq<NotePatterns.NotePattern>): (p: Pattern)
    requires |lanes| > 0 && LanesValid(lanes)
    ensures Valid(p) && p.lanes == lanes
    ensures Queues.Fits(p.queue) && Queues.Contents(p.queue) == []
  {
    Pattern(lanes, Queues.New(|lanes|, Default))
  }

  /** The events that count as events (`if (event)`), in their original order. */
  function Keep(events: seq<Event>): (kept: seq<Event>)
    ensures |kept| <= |events|
    ensures forall k :: 0 <= k < |kept| ==> IsEvent(kept[k])
    ensures (forall k :: 0 <= k < |events| ==> !IsEvent(events[k])) ==> kept == []
  {
    if events == [] then []
    else (if IsEvent(events[0]) then [events[0]] else []) + Keep(events[1..])
  }

  /** What each lane emits on this call, in lane order. */
  function Emitted(lanes: seq<NotePatterns.NotePattern>, clock: Event): (es: seq<Event>)
    requires LanesValid(lanes)
    ensures |es| == |lanes|
  {
    seq(|lanes|, k requires 0 <= k < |lanes| => NotePatterns.Process(lanes[k], clock).1)
  }

  /** Step every lane once, in array order: every lane advances independently, and the events
      to enqueue are the lanes' real events in lane order. */
  function FireLanes(lanes: seq<NotePatterns.NotePattern>, clock: Event): (r: (seq<NotePatterns.NotePattern>, seq<Event>))
    requires LanesValid(lanes)
    ensures |r.0| == |lanes| && LanesValid(r.0)
    ensures forall k :: 0 <= k < |lanes| ==> r.0[k] == NotePatterns.Process(lanes[k], clock).0
    ensures r.1 == Keep(Emitted(lanes, clock))
    decreases |lanes|
  {
    if lanes == [] then ([], [])
    else
      var (lane, e) := NotePatterns.Process(lanes[0], clock);
      var (rest, fired) := FireLanes(lanes[1..], clock);
      EmittedCons(lanes, clock);
      ([lane] + rest, (if IsEvent(e) then [e] else []) + fired)
  }

  lemma EmittedCons(lanes: seq<NotePatterns.NotePattern>, clock: Event)
    requires LanesValid(lanes) && lanes != []
    ensures Emitted(lanes, clock) == [NotePatterns.Process(lanes[0], clock).1] + Emitted(lanes[1..], clock)
  {
  }

  /** `process`: the lanes step, their events are queued, and the oldest queued event (or the
      default event) comes out. */
  function Process(p: Pattern, clock: Event): (r: (Pattern, Event))
    requires Valid(p)
    ensures Valid(r.0) && r.0.lanes == FireLanes(p.lanes, clock).0
    ensures var pending := p.queue.size + |FireLanes(p.lanes, clock).1|;
      && (pending == 0 ==> r.1 == Default && r.0.queue.size == 0)
      && (pending > 0 ==> r.0.queue.size == pending - 1)
  {
    var (lanes', fired) := FireLanes(p.lanes, clock);
    var q := Queues.PutAll(p.queue, fired);
    if !Queues.IsEmpty(q) then
      var (q', e) := Queues.Take(q);
      (Pattern(lanes', q'), e)
    else
      (Pattern(lanes', q), Default)
  }

  /** While the queue has room for this call's events, a call behaves as an unbounded first-in
      first-out list: every lane steps once, the lanes' events join the pending list in lane
      order, and the oldest pending event comes out (the default event when none is pending). */
  lemma ProcessIsFifo(p: Pattern, clock: Event)
    requires Valid(p) && Queues.Fits(p.queue)
    requires p.queue.size + |FireLanes(p.lanes, clock).1| <= |p.lanes|
    ensures Process(p, clock).0.lanes == FireLanes(p.lanes, clock).0
    ensures var pending := Queues.Contents(p.queue) + FireLanes(p.lanes, clock).1;
      && Queues.Fits(Process(p, clock).0.queue)
      && (pending == [] ==> Process(p, clock).1 == Default && Queues.Contents(Process(p, clock).0.queue) == [])
      && (pending != [] ==> Process(p, clock).1 == pending[0] && Queues.Contents(Process(p, clock).0.queue) == pending[1..])
  {
    var (lanes', fired) := FireLanes(p.lanes, clock);
    Queues.PutAllAppends(p.queue, fired);
  }

  /** No lane emits anything on a call that is not a timing clock. */
  lemma QuietLanes(lanes: seq<NotePatterns.NotePattern>, clock: Event)
    requires LanesValid(lanes) && clock.status != ClockStatus
    ensures FireLanes(lanes, clock) == (lanes, [])
  {
    var r := FireLanes(lanes, clock);
    assert r.0 == lanes;
    assert forall k :: 0 <= k < |lanes| ==> !IsEvent(Emitted(lanes, clock)[k]);
  }

  /** Starting from an empty queue a call never overflows: at most one event per lane. */
  lemma EmptyQueueHasRoom(p: Pattern, clock: Event)
    requires Valid(p) && p.queue.size == 0
    ensures Queues.Fits(p.queue)
    ensures p.queue.size + |FireLanes(p.lanes, clock).1| <= |p.lanes|
  {
  }

  /** Run the pattern over a stream of inputs, one call each. */
  function Run(p: Pattern, inputs: seq<Event>): (r: (Pattern, seq<Event>))
    requires Valid(p)
    ensures Valid(r.0) && |r.1| == |inputs|
    decreases |inputs|
  {
    if inputs == [] then (p, [])
    else
      var (p1, e) := Process(p, inputs[0]);
      var (p2, es) := Run(p1, inputs[1..]);
      (p2, [e] + es)
  }

  /** n calls without a clock. */
  function Quiet(n: nat): seq<Event> {
    seq(n, _ => Default)
  }

  /** Calls without a clock release the queued events one per call, oldest first, then the
      default event; the lanes do not move. */
  lemma QuietCallsDrain(p: Pattern, n: nat)
    requires Valid(p) && Queues.Fits(p.queue) && p.queue.size <= n
    ensures Run(p, Quiet(n)).0.lanes == p.lanes
    ensures Run(p, Quiet(n)).1 == Queues.Contents(p.queue) + Quiet(n - p.queue.size)
  {
    DrainIsQuietRun(p, n);
    DrainKeepsLanes(p, n);
    DrainReleases(p, n);
  }

  /** n calls without a clock, each made on the pattern the previous one left. */
  function Drain(p: Pattern, n: nat): (r: (Pattern, seq<Event>))
    requires Valid(p)
    ensures Valid(r.0) && |r.1| == n
    decreases n
  {
    if n == 0 then (p, [])
    else
      var (p1, e) := Process(p, Default);
      var (p2, es) := Drain(p1, n - 1);
      (p2, [e] + es)
  }

  lemma {:induction false} DrainIsQuietRun(p: Pattern, n: nat)
    requires Valid(p)
    ensures Drain(p, n) == Run(p, Quiet(n))
    decreases n
  {
    if n > 0 {
      QuietRunCons(p, n);
      DrainIsQuietRun(Process(p, Default).0, n - 1);
    }
  }

  lemma {:induction false} DrainKeepsLanes(p: Pattern, n: nat)
    requires Valid(p) && Queues.Fits(p.queue)
    ensures Drain(p, n).0.lanes == p.lanes
    decreases n
  {
    if n > 0 {
      QuietCall(p);
      DrainKeepsLanes(Process(p, Default).0, n - 1);
    }
  }

  lemma {:induction false} DrainReleases(p: Pattern, n: nat)
    requires Valid(p) && Queues.Fits(p.queue) && p.queue.size <= n
    ensures Drain(p, n).1 == Queues.Contents(p.queue) + Quiet(n - p.queue.size)
    decreases n
  {
    if n > 0 {
      var (p1, e) := Process(p, Default);
      QuietCall(p);
      DrainReleases(p1, n - 1);
      ReleaseOne(Queues.Contents(p.queue), Queues.Contents(p1.queue), e, Drain(p, n).1, Drain(p1, n - 1).1,
                 p.queue.size, p1.queue.size, n);
    }
  }

  /** The sequence step of the drain: the event released now, followed by what the remaining
      calls release, is the queue's contents followed by default events. */
  lemma ReleaseOne(c: seq<Event>, c1: seq<Event>, e: Event, whole: seq<Event>, rest: seq<Event>,
                   size: nat, size1: nat, n: nat)
    requires size <= n && n > 0 && size == |c|
    requires c == [] ==> e == Default && size1 == 0 && c1 == []
    requires c != [] ==> e == c[0] && c1 == c[1..] && size1 == size - 1
    requires whole == [e] + rest
    requires rest == c1 + Quiet(n - 1 - size1)
    ensures whole == c + Quiet(n - size)
  {
    if c == [] {
      QuietCons(n);
    } else {
      HeadThenRest(c, Quiet(n - size));
    }
  }

  /** A run of n quiet calls is one quiet call followed by a run of n - 1. */
  lemma QuietRunCons(p: Pattern, n: nat)
    requires Valid(p) && n > 0
    ensures var (p1, e) := Process(p, Default);
      var rest := Run(p1, Quiet(n - 1));
      Run(p, Quiet(n)) == (rest.0, [e] + rest.1)
  {
    assert Quiet(n)[1..] == Quiet(n - 1);
  }

  lemma HeadThenRest<T>(c: seq<T>, tail: seq<T>)
    requires c != []
    ensures [c[0]] + (c[1..] + tail) == c + tail
  {
    assert c == [c[0]] + c[1..];
  }

  lemma QuietCons(n: nat)
    requires n > 0
    ensures [Default] + Quiet(n - 1) == Quiet(n)
  {
  }

  /** One call without a clock: the lanes stay, and the oldest queued event, if any, comes out. */
  lemma QuietCall(p: Pattern)
    requires Valid(p) && Queues.Fits(p.queue)
    ensures var (p1, e) := Process(p, Default);
      var c := Queues.Contents(p.queue);
      && p1.lanes == p.lanes && Queues.Fits(p1.queue)
      && (c == [] ==> e == Default && p1.queue.size == 0)
      && (c != [] ==> e == c[0] && Queues.Contents(p1.queue) == c[1..] && p1.queue.size == p.queue.size - 1)
  {
    QuietLanes(p.lanes, Default);
    ProcessIsFifo(p, Default);
  }


  // ---- Back-to-back clocks ----

  /** Putting into a full queue overwrites the oldest pending element: the next take returns
      the element just put. */
  lemma PutIntoFullQueueOverwritesOldest<T>(q: Queues.Queue<T>, e: T)
    requires Queues.Fits(q) && q.size == Queues.Capacity(q)
    ensures Queues.Take(Queues.Put(q, e)).1 == e
  {
    var n := Queues.Capacity(q);
    Arith.DivModUnique(q.size, 1, 0, n);
    assert Rings.Slot(q.buffer, q.size) == Rings.Slot(q.buffer, 0) by {
      Arith.ModShift(q.buffer.start, 1, n);
    }
  }

  const LaneA: NotePatterns.NotePattern := NotePatterns.NotePattern(36, "8", 5)
  const LaneB: NotePatterns.NotePattern := NotePatterns.NotePattern(38, "8", 5)

  /** Two lanes that both end a note on one clock and both start one on the very next clock:
      the second clock puts two events into the two-slot queue while one is still pending, so the
      second of them overwrites the pending one. */
  lemma BackToBackClocksOverflow()
    ensures var p1 := Process(New([LaneA, LaneB]), Clock).0;
      && p1.queue.size == 1
      && p1.queue.size + |FireLanes(p1.lanes, Clock).1| == 3 > Queues.Capacity(p1.queue)
  {
    FirstClock();
    SecondClock(Process(New([LaneA, LaneB]), Clock).0);
  }

  lemma FirstClock()
    ensures Process(New([LaneA, LaneB]), Clock).0.lanes == [LaneA.(t := 0), LaneB.(t := 0)]
    ensures Process(New([LaneA, LaneB]), Clock).0.queue.size == 1
  {
    var a, b := LaneA, LaneB;
    var off36, off38 := NoteOff(36, 127, 0), NoteOff(38, 127, 0);
    assert NotePatterns.Process(a, Clock) == (a.(t := 0), off36);
    assert NotePatterns.Process(b, Clock) == (b.(t := 0), off38);
    TwoLanes(a, b, Clock, a.(t := 0), b.(t := 0), off36, off38);
  }

  lemma SecondClock(p: Pattern)
    requires Valid(p) && p.lanes == [LaneA.(t := 0), LaneB.(t := 0)] && p.queue.size == 1
    ensures |FireLanes(p.lanes, Clock).1| == 2
  {
    var a0, b0 := LaneA.(t := 0), LaneB.(t := 0);
    var on36, on38 := NoteOn(36, 120, 0), NoteOn(38, 120, 0);
    assert NotePatterns.Process(a0, Clock) == (a0.(t := 1), on36);
    assert NotePatterns.Process(b0, Clock) == (b0.(t := 1), on38);
    TwoLanes(a0, b0, Clock, a0.(t := 1), b0.(t := 1), on36, on38);
  }

  lemma TwoLanes(a: NotePatterns.NotePattern, b: NotePatterns.NotePattern, clock: Event,
                 a': NotePatterns.NotePattern, b': NotePatterns.NotePattern, ea: Event, eb: Event)
    requires NotePatterns.Valid(a) && NotePatterns.Valid(b) && IsEvent(ea) && IsEvent(eb)
    requires NotePatterns.Process(a, clock) == (a', ea) && NotePatterns.Process(b, clock) == (b', eb)
    ensures FireLanes([a, b], clock) == ([a', b'], [ea, eb])
  {
    assert [a, b][1..] == [b];
    assert [b][1..] == [];
    assert FireLanes([], clock) == ([], []);
    assert [b'] + [] == [b'] && [eb] + [] == [eb];
    assert FireLanes([b], clock) == ([b'], [eb]);
    assert [a'] + [b'] == [a', b'] && [ea] + [eb] == [ea, eb];
    assert FireLanes([a, b], clock) == ([a'] + [b'], [ea] + [eb]);
  }
}
