/** modo's NotePattern: a one-note step sequencer driven by MIDI timing clocks. Each character
    of the pattern is one step of six clocks (a sixteenth note at 24 clocks per quarter): a digit
    '0'..'8' starts the note with velocity digit·15, and the step's last clock ends it unless the
    step is a rest (' ') or the following step ties over ('-'). */
module NotePatterns {
  import opened Midi
  import opened CStrings
  import opened Arith

  /** Clocks per pattern step. */
  const StepClocks: nat := 6

  /** `t` counts clocks within one pass over the pattern. */
  datatype NotePattern = NotePattern(note: bv8, pattern: string, t: int)

  /** A pattern the sequencer can walk: at least one step and no NUL inside. */
  predicate WellFormed(pattern: string) {
    |pattern| > 0 && NoNul(pattern)
  }

  /** Clocks in one pass over the pattern. */
  function Cycle(pattern: string): nat {
    StepClocks * |pattern|
  }

  predicate Valid(np: NotePattern) {
    WellFormed(np.pattern) && 0 <= np.t < Cycle(np.pattern)
  }

  function New(note: bv8, pattern: string): (np: NotePattern)
    requires WellFormed(pattern)
    ensures Valid(np) && np.t == 0
  {
    NotePattern(note, pattern, 0)
  }

  /** The characters that start a note. */
  predicate IsVelocityDigit(c: char) {
    '0' <= c <= '8'
  }

  /** `(c - '0') * 15`: a velocity from 0 to 120 in steps of 15. */
  function VelocityOf(c: char): (v: bv8)
    requires IsVelocityDigit(c)
    ensures v as int == (c as int - '0' as int) * 15 && v <= 120
  {
    match c
    case '0' => 0
    case '1' => 15
    case '2' => 30
    case '3' => 45
    case '4' => 60
    case '5' => 75
    case '6' => 90
    case '7' => 105
    case _ => 120
  }

  // ---- The pattern read as a score ----

  /** The clock at position t of the cycle starts a note. */
  predicate StartsNote(pattern: string, t: nat)
    requires t < Cycle(pattern)
  {
    t % StepClocks == 0 && IsVelocityDigit(pattern[t / StepClocks])
  }

  /** The clock at position t of the cycle ends a note: the last clock of a step that is not a
      rest and is not followed (cyclically) by a tie. */
  predicate EndsNote(pattern: string, t: nat)
    requires t < Cycle(pattern)
  {
    && t % StepClocks == StepClocks - 1
    && pattern[t / StepClocks] != ' '
    && pattern[(t / StepClocks + 1) % |pattern|] != '-'
  }

  /** `process`: anything but a timing clock is ignored; a clock advances `t` around the cycle
      and may emit one note-on or note-off on channel 0. */
  function Process(np: NotePattern, clock: Event): (r: (NotePattern, Event))
    requires Valid(np)
    ensures Valid(r.0) && r.0.note == np.note && r.0.pattern == np.pattern
    ensures clock.status != ClockStatus ==> r == (np, Default)
    ensures clock.status == ClockStatus ==>
      r.0.t == if np.t + 1 == Cycle(np.pattern) then 0 else np.t + 1
  {
    if clock.status == ClockStatus then
      var p := np.pattern;
      var t := np.t;
      if t % StepClocks == 0 then
        var c := p[t / StepClocks];
        var event := if IsVelocityDigit(c) then NoteOn(np.note, VelocityOf(c), 0) else Default;
        NextIsSuccessor(t, Cycle(p));
        (np.(t := t + 1), event)
      else if t % StepClocks == StepClocks - 1 then
        var prev := p[t / StepClocks];
        var t1 := t + 1;
        var t2 := if CharAt(p, t1 / StepClocks) == Nul then 0 else t1;
        var next := CharAt(p, t2 / StepClocks);
        var event := if prev != ' ' && next != '-' then NoteOff(np.note, 127, 0) else Default;
        if t1 == Cycle(p) then
          DivModUnique(t1, 1, 0, Cycle(p));
          (np.(t := t2), event)
        else
          NextIsSuccessor(t, Cycle(p));
          (np.(t := t2), event)
      else
        NextIsSuccessor(t, Cycle(p));
        (np.(t := t + 1), Default)
    else
      (np, Default)
  }

  /** A clock moves `t` one position round the cycle. */
  lemma ClockAdvances(np: NotePattern)
    requires Valid(np)
    ensures Process(np, Clock).0 == np.(t := (np.t + 1) % Cycle(np.pattern))
  {
    var c := Cycle(np.pattern);
    if np.t + 1 == c {
      DivModUnique(np.t + 1, 1, 0, c);
    } else {
      NextIsSuccessor(np.t, c);
    }
  }

  lemma NextIsSuccessor(t: int, n: int)
    requires 0 <= t && t + 1 < n
    ensures (t + 1) % n == t + 1
  {
    DivModUnique(t + 1, 0, t + 1, n);
  }

  /** A clock emits a note-on exactly where the score starts a note, with the step's velocity. */
  lemma NoteOnFollowsScore(np: NotePattern, clock: Event)
    requires Valid(np)
    ensures IsNoteOn(Process(np, clock).1)
        <==> clock.status == ClockStatus && StartsNote(np.pattern, np.t)
    ensures IsNoteOn(Process(np, clock).1) ==>
      Process(np, clock).1 == NoteOn(np.note, VelocityOf(np.pattern[np.t / StepClocks]), 0)
  {
  }

  /** A clock emits a note-off exactly where the score ends a note, at full release velocity. */
  lemma NoteOffFollowsScore(np: NotePattern, clock: Event)
    requires Valid(np)
    ensures IsNoteOff(Process(np, clock).1)
        <==> clock.status == ClockStatus && EndsNote(np.pattern, np.t)
    ensures IsNoteOff(Process(np, clock).1) ==> Process(np, clock).1 == NoteOff(np.note, 127, 0)
  {
    var p := np.pattern;
    var t := np.t;
    if clock.status == ClockStatus && t % StepClocks == StepClocks - 1 {
      var t1 := t + 1;
      var k := t / StepClocks;
      assert t1 / StepClocks == k + 1;
      if k + 1 == |p| {
        assert CharAt(p, t1 / StepClocks) == Nul;
        assert (k + 1) % |p| == 0 by {
          DivModUnique(k + 1, 1, 0, |p|);
        }
      } else {
        assert CharAt(p, t1 / StepClocks) != Nul;
        assert (k + 1) % |p| == k + 1 by {
          DivModUnique(k + 1, 0, k + 1, |p|);
        }
      }
    }
  }

  /** Every event a pattern emits is a note-on or a note-off; anything else is the default event. */
  lemma OnlyNoteEvents(np: NotePattern, clock: Event)
    requires Valid(np)
    ensures IsEvent(Process(np, clock).1) <==> IsNoteOn(Process(np, clock).1) || IsNoteOff(Process(np, clock).1)
    ensures !IsEvent(Process(np, clock).1) ==> Process(np, clock).1 == Default
  {
  }

  // ---- Runs of clocks ----

  /** Feed `n` timing clocks; collect the events. */
  function Ticks(np: NotePattern, n: nat): (r: (NotePattern, seq<Event>))
    requires Valid(np)
    ensures Valid(r.0) && r.0.pattern == np.pattern && r.0.note == np.note
    ensures |r.1| == n
    decreases n
  {
    if n == 0 then (np, [])
    else
      var (np1, e) := Process(np, Clock);
      var (np2, es) := Ticks(np1, n - 1);
      (np2, [e] + es)
  }

  /** After n clocks the pattern stands n positions further round its cycle, and the k-th event
      is what a single clock emits at position t + k of the cycle. */
  lemma TicksAdvance(np: NotePattern, n: nat)
    requires Valid(np)
    ensures Ticks(np, n).0 == np.(t := (np.t + n) % Cycle(np.pattern))
    ensures forall k :: 0 <= k < n ==>
      Ticks(np, n).1[k] == Process(np.(t := (np.t + k) % Cycle(np.pattern)), Clock).1
  {
    TicksLand(np, n);
    forall k | 0 <= k < n
      ensures Ticks(np, n).1[k] == Process(np.(t := (np.t + k) % Cycle(np.pattern)), Clock).1
    {
      TickEvent(np, n, k);
    }
  }

  lemma {:induction false} TicksLand(np: NotePattern, n: nat)
    requires Valid(np)
    ensures Ticks(np, n).0 == np.(t := (np.t + n) % Cycle(np.pattern))
    decreases n
  {
    var c := Cycle(np.pattern);
    if n == 0 {
      DivModUnique(np.t, 0, np.t, c);
    } else {
      var np1 := Process(np, Clock).0;
      ClockAdvances(np);
      TicksLand(np1, n - 1);
      ModAddLeft(np.t + 1, n - 1, c);
    }
  }

  lemma {:induction false} TickEvent(np: NotePattern, n: nat, k: nat)
    requires Valid(np) && k < n
    ensures Ticks(np, n).1[k] == Process(np.(t := (np.t + k) % Cycle(np.pattern)), Clock).1
    decreases k
  {
    var c := Cycle(np.pattern);
    if k == 0 {
      TickFirst(np, n);
    } else {
      var np1 := Process(np, Clock).0;
      var at := np.(t := (np.t + k) % c);
      ClockAdvances(np);
      TickShift(np, n, k);
      TickEvent(np1, n - 1, k - 1);
      OneAhead(np, np1, k);
      assert Ticks(np1, n - 1).1[k - 1] == Process(at, Clock).1;
    }
  }

  /** The first event of a run is what the first clock emits. */
  lemma TickFirst(np: NotePattern, n: nat)
    requires Valid(np) && 0 < n
    ensures Ticks(np, n).1[0] == Process(np.(t := (np.t + 0) % Cycle(np.pattern)), Clock).1
  {
    DivModUnique(np.t, 0, np.t, Cycle(np.pattern));
    assert np.(t := (np.t + 0) % Cycle(np.pattern)) == np;
  }

  /** The k-th event of a run is the (k-1)-th of the run that starts one clock later. */
  lemma TickShift(np: NotePattern, n: nat, k: nat)
    requires Valid(np) && 0 < k < n
    ensures Ticks(np, n).1[k] == Ticks(Process(np, Clock).0, n - 1).1[k - 1]
  {
  }

  /** Counting k - 1 on from one clock later is counting k on from here. */
  lemma OneAhead(np: NotePattern, np1: NotePattern, k: nat)
    requires Cycle(np.pattern) > 0 && k > 0
    requires np1 == np.(t := (np.t + 1) % Cycle(np.pattern))
    ensures np1.(t := (np1.t + (k - 1)) % Cycle(np.pattern)) == np.(t := (np.t + k) % Cycle(np.pattern))
  {
    ModAddLeft(np.t + 1, k - 1, Cycle(np.pattern));
  }

  /** Over any run of clocks, the k-th event is a note-on exactly where the score starts a note
      at position t + k of the cycle, and a note-off exactly where it ends one. */
  lemma TicksFollowScore(np: NotePattern, n: nat)
    requires Valid(np)
    ensures forall k :: 0 <= k < n ==>
      (IsNoteOn(Ticks(np, n).1[k]) <==> StartsNote(np.pattern, (np.t + k) % Cycle(np.pattern)))
    ensures forall k :: 0 <= k < n ==>
      (IsNoteOff(Ticks(np, n).1[k]) <==> EndsNote(np.pattern, (np.t + k) % Cycle(np.pattern)))
  {
    var c := Cycle(np.pattern);
    TicksAdvance(np, n);
    forall k | 0 <= k < n
      ensures IsNoteOn(Ticks(np, n).1[k]) <==> StartsNote(np.pattern, (np.t + k) % c)
      ensures IsNoteOff(Ticks(np, n).1[k]) <==> EndsNote(np.pattern, (np.t + k) % c)
    {
      var at := np.(t := (np.t + k) % c);
      NoteOnFollowsScore(at, Clock);
      NoteOffFollowsScore(at, Clock);
    }
  }

  /** After a whole cycle of clocks the pattern is back where it started. */
  lemma CycleReturns(np: NotePattern)
    requires Valid(np)
    ensures Ticks(np, Cycle(np.pattern)).0 == np
  {
    var c := Cycle(np.pattern);
    TicksAdvance(np, c);
    ModShift(np.t, 1, c);
    DivModUnique(np.t, 0, np.t, c);
  }

  /** "0-- -": one note-on at clock 0 and note-offs at clocks 17 and 29 of the 30-clock cycle.
      The note-off at 29 comes from the trailing tie: a '-' step is not a rest, and the step after
      it, the wrapped-around '0', is not a tie. */
  lemma TiedPatternScore()
    ensures Cycle("0-- -") == 30
    ensures forall t :: 0 <= t < 30 ==> (StartsNote("0-- -", t) <==> t == 0)
    ensures forall t :: 0 <= t < 30 ==> (EndsNote("0-- -", t) <==> t == 17 || t == 29)
  {
    var p := "0-- -";
    forall t | 0 <= t < 30
      ensures StartsNote(p, t) <==> t == 0
      ensures EndsNote(p, t) <==> t == 17 || t == 29
    {
      var k := t / StepClocks;
      assert 0 <= k < 5;
      assert (k + 1) % 5 == if k == 4 then 0 else k + 1;
    }
  }
}
