/** modo's ADSR envelope: a four-stage state machine driven by note-on and note-off events. The
    level rises linearly during the attack, falls geometrically towards the sustain level during
    the decay, holds while sustaining and falls linearly to zero during the release. A note-on
    while a note is held slides: it changes the held note without restarting the envelope. */
module Envelope {
  import opened Midi
  import opened Signals
  import opened Arith

  datatype Stage = Attack | Decay | Sustain | Release

  /** The envelope starts in Sustain at level 0 with no note held (note 0). */
  datatype Env = Env(stage: Stage, level: real, note: bv8)

  const Initial: Env := Env(Sustain, 0.0, 0)

  /** The knobs of one call: attack and release times in milliseconds, the sustain level and the
      per-sample decay factor, which modo computes as `pow(0.01, DT * 1000 / decay)` for a
      decay time in milliseconds. */
  datatype Knobs = Knobs(attack: real, decayFactor: real, sustain: real, release: real)

  /** Knobs a patch would use: non-negative times, a sustain level and a decay factor in [0, 1]. */
  predicate Sane(k: Knobs) {
    && k.attack >= 0.0 && k.release >= 0.0
    && 0.0 <= k.sustain <= 1.0
    && 0.0 <= k.decayFactor <= 1.0
  }

  predicate InRange(env: Env) {
    0.0 <= env.level <= 1.0
  }

  /** The level added per sample during the attack, for a non-zero attack time. */
  function Rise(attack: real): real
    requires attack != 0.0
  {
    1000.0 / attack * DT
  }

  /** The level removed per sample during the release, for a non-zero release time. */
  function Fall(release: real): real
    requires release != 0.0
  {
    1000.0 / release * DT
  }

  lemma RatePositive(ms: real)
    requires ms > 0.0
    ensures Rise(ms) > 0.0 && Fall(ms) > 0.0
  {
  }

  /** The event half of `process`: a note-on records its note and, unless a note was already held,
      restarts the attack; a note-off for the held note releases it. */
  function Trigger(env: Env, event: Event): (r: Env)
    ensures r.level == env.level
    ensures !IsNoteOn(event) && !(IsNoteOff(event) && event.data1 == env.note) ==> r == env
  {
    if IsNoteOn(event) then
      var slide := env.note != 0;
      var env' := env.(note := event.data1);
      if !slide then env'.(stage := Attack) else env'
    else if IsNoteOff(event) && event.data1 == env.note then
      env.(note := 0, stage := Release)
    else
      env
  }

  /** The stage half of `process`: one sample of the current stage. A zero attack or release time
      divides by zero in modo, which in float arithmetic is an infinite step: the stage ends
      on that very sample. */
  function Advance(env: Env, k: Knobs): (r: Env)
    ensures r.note == env.note
    ensures env.stage == Attack ==> r.stage in {Attack, Decay}
    ensures env.stage == Decay ==> r.stage == Decay
    ensures env.stage == Sustain ==> r == env
    ensures env.stage == Release ==> r.stage in {Release, Sustain}
    ensures Sane(k) && InRange(env) ==> InRange(r)
    // The attack rises by one step until the level would reach 1; it is then capped at 1 in Decay.
    ensures env.stage == Attack && r.stage == Decay ==> r.level == 1.0
    ensures env.stage == Attack && k.attack != 0.0 && env.level + Rise(k.attack) < 1.0 ==>
      r == env.(level := env.level + Rise(k.attack))
    // The decay closes the distance to the sustain level by the decay factor.
    ensures env.stage == Decay ==> r.level - k.sustain == (env.level - k.sustain) * k.decayFactor
    // The release falls by one step until the level would reach 0; it then rests at 0 in Sustain.
    ensures env.stage == Release && r.stage == Sustain ==> r.level == 0.0
    ensures env.stage == Release && k.release != 0.0 && env.level - Fall(k.release) > 0.0 ==>
      r == env.(level := env.level - Fall(k.release))
  {
    match env.stage
    case Attack =>
      if k.attack == 0.0 then env.(level := 1.0, stage := Decay)
      else
        var v := env.level + Rise(k.attack);
        if v >= 1.0 then env.(level := 1.0, stage := Decay) else env.(level := v)
    case Decay =>
      var v := k.sustain + (env.level - k.sustain) * k.decayFactor;
      assert Sane(k) && InRange(env) ==> 0.0 <= v <= 1.0 by {
        if Sane(k) && InRange(env) {
          ConvexStaysInUnit(env.level, k.sustain, k.decayFactor);
        }
      }
      env.(level := v)
    case Sustain => env
    case Release =>
      if k.release == 0.0 then env.(level := 0.0, stage := Sustain)
      else
        var v := env.level - Fall(k.release);
        if v <= 0.0 then env.(level := 0.0, stage := Sustain) else env.(level := v)
  }

  /** `s + (v - s) * f` lies between s and v, so it stays in [0, 1] with them. */
  lemma ConvexStaysInUnit(v: real, s: real, f: real)
    requires 0.0 <= v <= 1.0 && 0.0 <= s <= 1.0 && 0.0 <= f <= 1.0
    ensures 0.0 <= s + (v - s) * f <= 1.0
  {
    var d := v - s;
    assert s + (v - s) * f == s + d * f;
    if d >= 0.0 {
      MulNonNegative(d, f);
      MulNonNegative(d, 1.0 - f);
      assert d * (1.0 - f) == d - d * f;
      assert s <= s + d * f <= s + d == v;
    } else {
      MulNonNegative(-d, f);
      MulNonNegative(-d, 1.0 - f);
      assert (-d) * f == -(d * f);
      assert (-d) * (1.0 - f) == d * f - d;
      assert v == s + d <= s + d * f <= s;
    }
  }

  /** `process`: handle the event, then run one sample of the stage; the result is the level. */
  function Process(env: Env, event: Event, k: Knobs): (r: (Env, real))
    ensures r.1 == r.0.level
    ensures Sane(k) && InRange(env) ==> InRange(r.0) && 0.0 <= r.1 <= 1.0
  {
    var env' := Advance(Trigger(env, event), k);
    (env', env'.level)
  }

  // ---- Events ----

  /** From rest (no note held) a note-on restarts the attack from the current level; the level
      is not reset, so a note struck during a release rises from where the release had got to. */
  lemma NoteOnFromRestAttacks(env: Env, event: Event, k: Knobs)
    requires IsNoteOn(event) && env.note == 0
    ensures Trigger(env, event) == Env(Attack, env.level, event.data1)
    ensures Process(env, event, k).0.note == event.data1
    ensures k.attack > 0.0 && env.level + Rise(k.attack) < 1.0 ==>
      Process(env, event, k).0 == Env(Attack, env.level + Rise(k.attack), event.data1)
  {
  }

  /** A note-on while a note is held slides: the envelope carries on in its stage as if the
      event had not come, apart from the held note. */
  lemma NoteOnWhileHeldSlides(env: Env, event: Event, k: Knobs)
    requires IsNoteOn(event) && env.note != 0
    ensures Process(env, event, k).0 == Advance(env, k).(note := event.data1)
  {
  }

  /** A note-off for the held note starts the release; one for any other note is ignored. */
  lemma NoteOffReleasesOnlyHeldNote(env: Env, event: Event, k: Knobs)
    requires IsNoteOff(event)
    ensures event.data1 == env.note ==> Trigger(env, event) == Env(Release, env.level, 0)
    ensures event.data1 != env.note ==> Process(env, event, k).0 == Advance(env, k)
  {
  }

  /** Note number 0 doubles as "no note held": a note-on for note 0 leaves the envelope at rest,
      so a second one restarts the attack instead of sliding, and a note-off for note 0 releases
      an envelope that holds no note. */
  lemma NoteZeroIsRest(env: Env, k: Knobs)
    requires env.note == 0
    ensures var on := NoteOn(0, 100, 0);
      Trigger(Trigger(env, on), on) == Env(Attack, env.level, 0)
    ensures Trigger(env, NoteOff(0, 127, 0)) == Env(Release, env.level, 0)
  {
  }

  // ---- Runs ----

  /** Run the envelope over a stream of events with fixed knobs; collect the levels. */
  function Run(env: Env, events: seq<Event>, k: Knobs): (r: (Env, seq<real>))
    ensures |r.1| == |events|
    decreases |events|
  {
    if events == [] then (env, [])
    else
      var (env1, out) := Process(env, events[0], k);
      var (env2, outs) := Run(env1, events[1..], k);
      (env2, [out] + outs)
  }

  /** With sane knobs every level the envelope ever outputs lies in [0, 1]. */
  lemma {:induction false} RunStaysInRange(env: Env, events: seq<Event>, k: Knobs)
    requires Sane(k) && InRange(env)
    ensures InRange(Run(env, events, k).0)
    ensures forall j :: 0 <= j < |events| ==> 0.0 <= Run(env, events, k).1[j] <= 1.0
    decreases |events|
  {
    if events != [] {
      var (env1, out) := Process(env, events[0], k);
      RunStaysInRange(env1, events[1..], k);
    }
  }

  /** An event that is neither a note-on nor a note-off. */
  predicate Quiet(e: Event) {
    !IsNoteOn(e) && !IsNoteOff(e)
  }

  /** `n` samples of the current stage with no events. */
  function Coast(env: Env, k: Knobs, n: nat): (r: Env)
    ensures r.note == env.note
    decreases n
  {
    if n == 0 then env else Coast(Advance(env, k), k, n - 1)
  }

  /** A run of quiet events only advances the stages. */
  lemma {:induction false} QuietRunCoasts(env: Env, events: seq<Event>, k: Knobs)
    requires forall j :: 0 <= j < |events| ==> Quiet(events[j])
    ensures Run(env, events, k).0 == Coast(env, k, |events|)
    decreases |events|
  {
    if events != [] {
      QuietRunCoasts(Advance(env, k), events[1..], k);
    }
  }

  /** Once in Decay the envelope stays there, and after n samples its distance from the sustain
      level has shrunk by the decay factor n times over. */
  lemma {:induction false} DecayIsGeometric(env: Env, k: Knobs, n: nat)
    requires env.stage == Decay
    ensures Coast(env, k, n).stage == Decay
    ensures Coast(env, k, n).level - k.sustain == (env.level - k.sustain) * Power(k.decayFactor, n)
    decreases n
  {
    if n > 0 {
      var env1 := Advance(env, k);
      assert env1.stage == Decay && env1.level - k.sustain == (env.level - k.sustain) * k.decayFactor;
      assert Coast(env, k, n) == Coast(env1, k, n - 1);
      DecayIsGeometric(env1, k, n - 1);
      MulAssoc(env.level - k.sustain, k.decayFactor, Power(k.decayFactor, n - 1));
    }
  }

  /** With a positive attack time the attack ends within n samples once n rises cover the
      distance to the peak: at some sample m <= n the level reaches exactly 1 as the envelope
      enters Decay, where it still is after n samples. */
  lemma {:induction false} AttackEnds(env: Env, k: Knobs, n: nat)
    requires env.stage == Attack && k.attack > 0.0 && n > 0
    requires env.level + n as real * Rise(k.attack) >= 1.0
    ensures exists m :: 0 < m <= n && Coast(env, k, m) == Env(Decay, 1.0, env.note)
    ensures Coast(env, k, n).stage == Decay
    decreases n
  {
    var env1 := Advance(env, k);
    if env1.stage == Decay {
      assert Coast(env, k, 1) == Env(Decay, 1.0, env.note) by {
        assert Coast(env, k, 1) == Coast(env1, k, 0);
      }
      DecayIsGeometric(env1, k, n - 1);
    } else {
      assert env1.level == env.level + Rise(k.attack);
      assert env1.level + (n - 1) as real * Rise(k.attack) == env.level + n as real * Rise(k.attack);
      AttackEnds(env1, k, n - 1);
      var m :| 0 < m <= n - 1 && Coast(env1, k, m) == Env(Decay, 1.0, env1.note);
      assert Coast(env, k, m + 1) == Coast(env1, k, m);
    }
  }

  /** With a positive release time the release ends within n samples once n falls cover the
      level: the envelope is then at rest in Sustain at level 0. */
  lemma {:induction false} ReleaseEnds(env: Env, k: Knobs, n: nat)
    requires env.stage == Release && k.release > 0.0 && n > 0
    requires env.level - n as real * Fall(k.release) <= 0.0
    ensures Coast(env, k, n) == Env(Sustain, 0.0, env.note)
    decreases n
  {
    var env1 := Advance(env, k);
    if env1.stage == Sustain {
      SustainHolds(env1, k, n - 1);
    } else {
      assert env1.level == env.level - Fall(k.release);
      assert env1.level - (n - 1) as real * Fall(k.release) == env.level - n as real * Fall(k.release);
      ReleaseEnds(env1, k, n - 1);
    }
  }

  /** Sustain is a hold: without events nothing changes. */
  lemma {:induction false} SustainHolds(env: Env, k: Knobs, n: nat)
    requires env.stage == Sustain
    ensures Coast(env, k, n) == env
    decreases n
  {
    if n > 0 {
      SustainHolds(env, k, n - 1);
    }
  }
}
