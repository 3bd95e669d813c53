/** modo's note-driven control signals: Frequency, the pitch of the held note with portamento
    between held notes, and Velocity, the velocity of the last note-on. */
module Control {
  import opened Midi
  import opened Arith

  /** Frequency's state. Portamento multiplies the frequency by `factor` on every sample until it
      passes the target, where it is clamped. modo leaves `frequency` and `target`
      uninitialised; here they start at 0. */
  datatype Glide = Glide(frequency: real, target: real, factor: real, note: bv8)

  const Resting: Glide := Glide(0.0, 0.0, 1.0, 0)

  /** The frequency never lies beyond the target in the direction it is moving. */
  predicate NoOvershoot(g: Glide) {
    && (g.factor > 1.0 ==> g.frequency <= g.target)
    && (g.factor < 1.0 ==> g.frequency >= g.target)
  }

  /** Frequency `process`. `pitch` is the equal-tempered frequency of the event's note,
      `440 * pow(2, (note - 69) / 12)`, and `glide` is the per-sample factor
      `pow(pitch / frequency, DT / 0.05)` that covers the interval in 50 ms; both involve `pow`,
      so the caller supplies them and they are used only on a note-on. */
  function Slide(g: Glide, event: Event, pitch: real, glide: real): (r: (Glide, real))
    ensures r.1 == r.0.frequency
    ensures NoOvershoot(r.0)
    ensures IsNoteOn(event) ==> r.0.note == event.data1 && r.0.target == pitch
    ensures IsNoteOn(event) && g.note == 0 ==> r.0.frequency == pitch && r.0.factor == 1.0
    ensures !IsNoteOn(event) ==> r.0.target == g.target
    ensures !IsNoteOn(event) && IsNoteOff(event) && event.data1 == g.note ==> r.0.note == 0
    ensures !IsNoteOn(event) && !(IsNoteOff(event) && event.data1 == g.note) ==> r.0.note == g.note
  {
    var g1 :=
      if IsNoteOn(event) then
        var slide := g.note != 0;
        if slide then g.(note := event.data1, target := pitch, factor := glide)
        else g.(note := event.data1, target := pitch, frequency := pitch, factor := 1.0)
      else if IsNoteOff(event) && event.data1 == g.note then g.(note := 0)
      else g;
    var g2 := g1.(frequency := g1.frequency * g1.factor);
    var g3 :=
      if (g2.factor > 1.0 && g2.frequency > g2.target) || (g2.factor < 1.0 && g2.frequency < g2.target)
      then g2.(frequency := g2.target, factor := 1.0)
      else g2;
    (g3, g3.frequency)
  }

  /** The distance still to glide. */
  function Gap(g: Glide): real {
    if g.frequency <= g.target then g.target - g.frequency else g.frequency - g.target
  }

  /** Between note-ons a positive frequency never moves away from its target: every sample brings
      it closer or leaves it where it is, and it never crosses the target. */
  lemma GlideApproaches(g: Glide, event: Event, pitch: real, glide: real)
    requires NoOvershoot(g) && g.frequency > 0.0 && g.factor > 0.0 && !IsNoteOn(event)
    ensures Gap(Slide(g, event, pitch, glide).0) <= Gap(g)
    ensures g.frequency <= g.target ==> Slide(g, event, pitch, glide).0.frequency <= g.target
    ensures g.frequency >= g.target ==> Slide(g, event, pitch, glide).0.frequency >= g.target
  {
    var f, t := g.frequency, g.target;
    var moved := f * g.factor;
    var r := Slide(g, event, pitch, glide).0;
    assert r.target == t;
    assert r.frequency == t || r.frequency == moved;
    if g.factor > 1.0 {
      assert moved - f == f * (g.factor - 1.0);
      MulPositive(f, g.factor - 1.0);
      assert moved > t ==> r.frequency == t;
      assert f <= r.frequency <= t;
    } else if g.factor < 1.0 {
      assert f - moved == f * (1.0 - g.factor);
      MulPositive(f, 1.0 - g.factor);
      assert moved < t ==> r.frequency == t;
      assert t <= r.frequency <= f;
    } else {
      assert r.frequency == f;
    }
  }

  /** Once the glide arrives it stays: a frequency on its target with factor 1 is held until the
      next note-on. */
  lemma ArrivedStays(g: Glide, event: Event, pitch: real, glide: real)
    requires g.frequency == g.target && g.factor == 1.0 && !IsNoteOn(event)
    ensures Slide(g, event, pitch, glide).0.frequency == g.target
    ensures Slide(g, event, pitch, glide).0.factor == 1.0
  {
  }

  /** A glide upwards with a positive frequency reaches its target as soon as the accumulated
      factor covers the interval: after `n` quiet samples with `frequency * factor^n >= target`
      the frequency is exactly the target. */
  lemma {:induction false} GlideArrives(g: Glide, n: nat)
    requires NoOvershoot(g) && g.frequency > 0.0 && g.factor > 1.0
    requires g.frequency * Power(g.factor, n) >= g.target
    ensures Coast(g, n).frequency == g.target
    decreases n
  {
    if n == 0 {
      assert Power(g.factor, 0) == 1.0;
    } else {
      var g1 := Slide(g, Default, 0.0, 1.0).0;
      if g1.factor == 1.0 {
        assert g1.frequency == g1.target;
        HeldStays(g1, n - 1);
      } else {
        assert g1 == g.(frequency := g.frequency * g.factor);
        assert g1.frequency * Power(g.factor, n - 1) == g.frequency * Power(g.factor, n) by {
          MulAssoc(g.frequency, g.factor, Power(g.factor, n - 1));
        }
        assert g.frequency * g.factor > 0.0 by {
          MulPositive(g.frequency, g.factor);
        }
        GlideArrives(g1, n - 1);
      }
    }
  }

  /** The mirror for a glide downwards: with 0 < factor < 1, after `n` quiet samples with
      `frequency * factor^n <= target` the frequency is exactly the target. */
  lemma {:induction false} GlideArrivesDown(g: Glide, n: nat)
    requires NoOvershoot(g) && g.frequency > 0.0 && 0.0 < g.factor < 1.0
    requires g.frequency * Power(g.factor, n) <= g.target
    ensures Coast(g, n).frequency == g.target
    decreases n
  {
    if n == 0 {
      assert Power(g.factor, 0) == 1.0;
    } else {
      var g1 := Slide(g, Default, 0.0, 1.0).0;
      if g1.factor == 1.0 {
        assert g1.frequency == g1.target;
        HeldStays(g1, n - 1);
      } else {
        assert g1 == g.(frequency := g.frequency * g.factor);
        assert g1.frequency * Power(g.factor, n - 1) == g.frequency * Power(g.factor, n) by {
          MulAssoc(g.frequency, g.factor, Power(g.factor, n - 1));
        }
        assert g.frequency * g.factor > 0.0 by {
          MulPositive(g.frequency, g.factor);
        }
        GlideArrivesDown(g1, n - 1);
      }
    }
  }

  lemma {:induction false} HeldStays(g: Glide, n: nat)
    requires g.frequency == g.target && g.factor == 1.0
    ensures Coast(g, n) == g
    decreases n
  {
    if n > 0 {
      assert Slide(g, Default, 0.0, 1.0).0 == g;
      HeldStays(g, n - 1);
    }
  }

  /** `n` samples without events. */
  function Coast(g: Glide, n: nat): Glide
    decreases n
  {
    if n == 0 then g else Coast(Slide(g, Default, 0.0, 1.0).0, n - 1)
  }

  // ---- Velocity ----

  /** Velocity's state: the last note-on's velocity scaled to [0, 1]. modo leaves it
      uninitialised; here it starts at 0. */
  datatype Velocity = Velocity(level: real)

  const Silent: Velocity := Velocity(0.0)

  /** A MIDI data byte has its top bit clear. */
  predicate SevenBit(e: Event) {
    e.data1 < 0x80 && e.data2 < 0x80
  }

  /** Velocity `process`: a note-on (of any velocity, 0 included) sets the level to
      `data2 / 127`; every other event keeps it. The level stays in [0, 1] as long as the
      velocity bytes are proper seven-bit data bytes. */
  function Strike(v: Velocity, event: Event): (r: (Velocity, real))
    ensures r.1 == r.0.level
    ensures 0.0 <= v.level ==> 0.0 <= r.1
    ensures v.level <= 1.0 && SevenBit(event) ==> r.1 <= 1.0
  {
    var v' := if IsNoteOn(event) then Velocity(event.data2 as real / 127.0) else v;
    (v', v'.level)
  }

  /** Feed a stream of events; collect the levels. */
  function Strikes(v: Velocity, events: seq<Event>): (r: (Velocity, seq<real>))
    ensures |r.1| == |events|
    decreases |events|
  {
    if events == [] then (v, [])
    else
      var (v1, out) := Strike(v, events[0]);
      var (v2, outs) := Strikes(v1, events[1..]);
      (v2, [out] + outs)
  }

  /** The level a stream of events leaves behind, read from its end: the velocity byte of the
      last note-on over 127, or the starting level when there was none. */
  function LastStruck(start: real, events: seq<Event>): real
    decreases |events|
  {
    if events == [] then start
    else if IsNoteOn(events[|events| - 1]) then events[|events| - 1].data2 as real / 127.0
    else LastStruck(start, events[..|events| - 1])
  }

  /** After any stream of events the level is that of the last note-on, and every level output
      stays in [0, 1] while the data bytes are seven-bit. */
  lemma {:induction false} StrikesRememberLastNoteOn(v: Velocity, events: seq<Event>)
    ensures Strikes(v, events).0.level == LastStruck(v.level, events)
    ensures 0.0 <= v.level <= 1.0 && (forall j :: 0 <= j < |events| ==> SevenBit(events[j])) ==>
      forall j :: 0 <= j < |events| ==> 0.0 <= Strikes(v, events).1[j] <= 1.0
    decreases |events|
  {
    if events != [] {
      var v1 := Strike(v, events[0]).0;
      StrikesRememberLastNoteOn(v1, events[1..]);
      LastStruckOfCons(v.level, events);
    }
  }

  /** Reading from the end agrees with reading from the front. */
  lemma {:induction false} LastStruckOfCons(start: real, events: seq<Event>)
    requires events != []
    ensures LastStruck(start, events) == LastStruck(Strike(Velocity(start), events[0]).0.level, events[1..])
    decreases |events|
  {
    var n := |events|;
    if n > 1 && !IsNoteOn(events[n - 1]) {
      LastStruckOfCons(start, events[..n - 1]);
      assert events[..n - 1][1..] == events[1..][..n - 2];
      assert events[..n - 1][0] == events[0];
    }
  }
}
