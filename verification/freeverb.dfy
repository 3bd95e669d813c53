/** modo's Freeverb (Jezar's algorithm): per channel, eight comb filters in parallel on the same
    attenuated input, then four all-pass filters in series; the second channel's delay lengths are
    longer by a fixed spread. Every filter is a fixed-length delay line (DelayLines.Tick). */
module Freeverb {
  import Rings
  import DelayLines
  import opened Signals

  /** Comb lengths of the first channel, in processing order. */
  const CombTuning: seq<nat> := [1116, 1188, 1277, 1356, 1422, 1491, 1557, 1617]
  /** All-pass lengths of the first channel, in processing order. */
  const AllPassTuning: seq<nat> := [556, 441, 341, 225]
  /** Extra length of every filter of the second channel. */
  const StereoSpread: nat := 23
  /** The all-pass feedback coefficient. */
  const AllPassFeedback: real := 0.5

  /** A comb: its delay line (position = the ring's start) and the low-pass memory. */
  datatype Comb = Comb(line: Rings.Ring<real>, previous: real)
  datatype AllPass = AllPass(line: Rings.Ring<real>)
  datatype Channel = Channel(combs: seq<Comb>, allPasses: seq<AllPass>)
  datatype Reverb = Reverb(left: Channel, right: Channel)

  // ---- Comb ----

  function NewComb(n: nat): (c: Comb)
    requires 0 < n
    ensures Rings.Valid(c.line) && Rings.Capacity(c.line) == n
  {
    Comb(Rings.New(n, 0.0), 0.0)
  }

  /** The comb's one-pole low-pass on the feedback path: a convex mix of the value read and
      the previous filtered value when 0 <= damp <= 1. */
  function LowPass(output: real, previous: real, damp: real): (f: real)
    ensures 0.0 <= damp <= 1.0 && output <= previous ==> output <= f <= previous
    ensures 0.0 <= damp <= 1.0 && previous <= output ==> previous <= f <= output
    ensures damp == 0.0 ==> f == output
  {
    var f := output * (1.0 - damp) + previous * damp;
    var x := previous - output;
    var xd := x * damp;
    assert f == output + xd;
    if 0.0 <= damp <= 1.0 then
      MulBetween(x, damp);
      f
    else
      f
  }

  lemma MulBetween(x: real, d: real)
    requires 0.0 <= d <= 1.0
    ensures 0.0 <= x ==> 0.0 <= x * d <= x
    ensures x <= 0.0 ==> x <= x * d <= 0.0
  {
  }

  /** One comb step: returns the value written N steps earlier (the read is not filtered) and
      writes input + filtered·feedback into the same slot. */
  function CombProcess(c: Comb, input: real, feedback: real, damp: real): (r: (Comb, real))
    requires Rings.Valid(c.line)
    ensures Rings.Valid(r.0.line) && Rings.Capacity(r.0.line) == Rings.Capacity(c.line)
    ensures r.0.line.start < Rings.Capacity(r.0.line)
    ensures r.1 == Rings.Contents(c.line)[0]
    ensures r.0.previous == LowPass(r.1, c.previous, damp)
    ensures Rings.Contents(r.0.line) == Rings.Contents(c.line)[1..] + [CombWrite(c, input, feedback, damp)]
  {
    var output := Rings.Get(c.line, 0);
    var filtered := LowPass(output, c.previous, damp);
    var w := CombWrite(c, input, feedback, damp);
    assert w == input + filtered * feedback;
    var (line', _) := DelayLines.Tick(c.line, w);
    (Comb(line', filtered), output)
  }

  /** The value a comb step writes. */
  function CombWrite(c: Comb, input: real, feedback: real, damp: real): real
    requires Rings.Valid(c.line)
  {
    input + LowPass(Rings.Get(c.line, 0), c.previous, damp) * feedback
  }

  /** A comb run over an input stream: the comb, its outputs and the values it wrote. */
  function CombRun(c: Comb, inputs: seq<real>, feedback: real, damp: real): (r: (Comb, seq<real>, seq<real>))
    requires Rings.Valid(c.line)
    ensures Rings.Valid(r.0.line) && Rings.Capacity(r.0.line) == Rings.Capacity(c.line)
    ensures |r.1| == |inputs| && |r.2| == |inputs|
    decreases |inputs|
  {
    if inputs == [] then (c, [], [])
    else
      var w := CombWrite(c, inputs[0], feedback, damp);
      var (c1, out) := CombProcess(c, inputs[0], feedback, damp);
      var (c2, outs, ws) := CombRun(c1, inputs[1..], feedback, damp);
      (c2, [out] + outs, [w] + ws)
  }

  /** A comb is a delay line driven by the values it writes. */
  lemma {:induction false} CombIsDelayLine(c: Comb, inputs: seq<real>, feedback: real, damp: real)
    requires Rings.Valid(c.line)
    ensures DelayLines.Feed(c.line, CombRun(c, inputs, feedback, damp).2)
         == (CombRun(c, inputs, feedback, damp).0.line, CombRun(c, inputs, feedback, damp).1)
    decreases |inputs|
  {
    if inputs != [] {
      var (c1, out) := CombProcess(c, inputs[0], feedback, damp);
      CombIsDelayLine(c1, inputs[1..], feedback, damp);
      var ws := CombRun(c, inputs, feedback, damp).2;
      assert ws[1..] == CombRun(c1, inputs[1..], feedback, damp).2;
    }
  }

  /** A fresh comb of length n outputs 0 for its first n steps and afterwards exactly the
      value it wrote n steps earlier. */
  lemma FreshCombLags(n: nat, inputs: seq<real>, feedback: real, damp: real)
    requires 0 < n
    ensures forall k :: 0 <= k < |inputs| ==>
      CombRun(NewComb(n), inputs, feedback, damp).1[k]
        == (if k < n then 0.0 else CombRun(NewComb(n), inputs, feedback, damp).2[k - n])
  {
    var c := NewComb(n);
    CombIsDelayLine(c, inputs, feedback, damp);
    DelayLines.FreshLineLags(n, CombRun(c, inputs, feedback, damp).2);
  }

  // ---- AllPass ----

  function NewAllPass(n: nat): (a: AllPass)
    requires 0 < n
    ensures Rings.Valid(a.line) && Rings.Capacity(a.line) == n
  {
    AllPass(Rings.New(n, 0.0))
  }

  /** One Schroeder all-pass step: writes input + read·0.5, returns read − input. */
  function AllPassProcess(a: AllPass, input: real): (r: (AllPass, real))
    requires Rings.Valid(a.line)
    ensures Rings.Valid(r.0.line) && Rings.Capacity(r.0.line) == Rings.Capacity(a.line)
    ensures r.0.line.start < Rings.Capacity(r.0.line)
    ensures r.1 + input == Rings.Contents(a.line)[0]
    ensures Rings.Contents(r.0.line)
         == Rings.Contents(a.line)[1..] + [input + Rings.Contents(a.line)[0] * AllPassFeedback]
  {
    var output := Rings.Get(a.line, 0);
    var (line', _) := DelayLines.Tick(a.line, input + output * AllPassFeedback);
    (AllPass(line'), output - input)
  }

  /** The value an all-pass step writes. */
  function AllPassWrite(a: AllPass, input: real): real
    requires Rings.Valid(a.line)
  {
    input + Rings.Get(a.line, 0) * AllPassFeedback
  }

  /** An all-pass run over an input stream: the filter, its outputs and the values it wrote. */
  function AllPassRun(a: AllPass, inputs: seq<real>): (r: (AllPass, seq<real>, seq<real>))
    requires Rings.Valid(a.line)
    ensures Rings.Valid(r.0.line) && Rings.Capacity(r.0.line) == Rings.Capacity(a.line)
    ensures |r.1| == |inputs| && |r.2| == |inputs|
    decreases |inputs|
  {
    if inputs == [] then (a, [], [])
    else
      var w := AllPassWrite(a, inputs[0]);
      var (a1, out) := AllPassProcess(a, inputs[0]);
      var (a2, outs, ws) := AllPassRun(a1, inputs[1..]);
      (a2, [out] + outs, [w] + ws)
  }

  /** An all-pass filter is a delay line driven by the values it writes, whose output is the
      value read minus the input. */
  lemma AllPassIsDelayLine(a: AllPass, inputs: seq<real>)
    requires Rings.Valid(a.line)
    ensures var (a', outs, ws) := AllPassRun(a, inputs);
      && DelayLines.Feed(a.line, ws).0 == a'.line
      && forall k :: 0 <= k < |inputs| ==> outs[k] + inputs[k] == DelayLines.Feed(a.line, ws).1[k]
  {
    AllPassLine(a, inputs);
    AllPassReads(a, inputs);
  }

  lemma {:induction false} AllPassLine(a: AllPass, inputs: seq<real>)
    requires Rings.Valid(a.line)
    ensures DelayLines.Feed(a.line, AllPassRun(a, inputs).2).0 == AllPassRun(a, inputs).0.line
    decreases |inputs|
  {
    if inputs != [] {
      var a1 := AllPassStep(a, inputs);
      AllPassLine(a1, inputs[1..]);
    }
  }

  lemma {:induction false} AllPassReads(a: AllPass, inputs: seq<real>)
    requires Rings.Valid(a.line)
    ensures forall k :: 0 <= k < |inputs| ==>
      AllPassRun(a, inputs).1[k] + inputs[k] == DelayLines.Feed(a.line, AllPassRun(a, inputs).2).1[k]
    decreases |inputs|
  {
    if inputs != [] {
      var a1 := AllPassStep(a, inputs);
      AllPassReads(a1, inputs[1..]);
    }
  }

  /** A run is one step followed by the run of the rest, for the filter and for the line. */
  lemma AllPassStep(a: AllPass, inputs: seq<real>) returns (a1: AllPass)
    requires Rings.Valid(a.line) && inputs != []
    ensures Rings.Valid(a1.line) && a1 == AllPassProcess(a, inputs[0]).0
    ensures var ws := AllPassRun(a, inputs).2;
      && ws == [AllPassWrite(a, inputs[0])] + AllPassRun(a1, inputs[1..]).2
      && DelayLines.Tick(a.line, ws[0]).0 == a1.line
      && DelayLines.Feed(a.line, ws).0 == DelayLines.Feed(a1.line, ws[1..]).0
      && DelayLines.Feed(a.line, ws).1 == [Rings.Contents(a.line)[0]] + DelayLines.Feed(a1.line, ws[1..]).1
    ensures AllPassRun(a, inputs).0 == AllPassRun(a1, inputs[1..]).0
    ensures AllPassRun(a, inputs).1 == [AllPassProcess(a, inputs[0]).1] + AllPassRun(a1, inputs[1..]).1
  {
    a1 := AllPassProcess(a, inputs[0]).0;
  }

  /** A fresh all-pass filter of length n outputs the negated input for its first n steps and
      afterwards the value it wrote n steps earlier minus the input. */
  lemma FreshAllPassLags(n: nat, inputs: seq<real>)
    requires 0 < n
    ensures var (_, outs, ws) := AllPassRun(NewAllPass(n), inputs);
      forall k :: 0 <= k < |inputs| ==> outs[k] == (if k < n then 0.0 else ws[k - n]) - inputs[k]
  {
    var a := NewAllPass(n);
    AllPassIsDelayLine(a, inputs);
    DelayLines.FreshLineLags(n, AllPassRun(a, inputs).2);
  }

  // ---- Channel ----

  predicate CombsValid(combs: seq<Comb>) {
    forall k :: 0 <= k < |combs| ==> Rings.Valid(combs[k].line)
  }

  predicate AllPassesValid(aps: seq<AllPass>) {
    forall k :: 0 <= k < |aps| ==> Rings.Valid(aps[k].line)
  }

  /** The sum of what every comb reads this step. */
  function HeadSum(combs: seq<Comb>): real
    requires CombsValid(combs)
  {
    if combs == [] then 0.0 else Rings.Get(combs[0].line, 0) + HeadSum(combs[1..])
  }

  /** The combs in parallel: every comb sees the same input; the result is the sum of the
      values they read, and every comb keeps its length. */
  function CombBank(combs: seq<Comb>, input: real, feedback: real, damp: real): (r: (seq<Comb>, real))
    requires CombsValid(combs)
    ensures |r.0| == |combs| && CombsValid(r.0)
    ensures forall k :: 0 <= k < |combs| ==> Rings.Capacity(r.0[k].line) == Rings.Capacity(combs[k].line)
    ensures forall k :: 0 <= k < |combs| ==> r.0[k] == CombProcess(combs[k], input, feedback, damp).0
    ensures r.1 == HeadSum(combs)
    decreases |combs|
  {
    if combs == [] then ([], 0.0)
    else
      var (c, out) := CombProcess(combs[0], input, feedback, damp);
      var (rest, sum) := CombBank(combs[1..], input, feedback, damp);
      ([c] + rest, out + sum)
  }

  /** The all-pass filters in series, each fed the previous one's output. */
  function AllPassChain(aps: seq<AllPass>, input: real): (r: (seq<AllPass>, real))
    requires AllPassesValid(aps)
    ensures |r.0| == |aps| && AllPassesValid(r.0)
    ensures forall k :: 0 <= k < |aps| ==> Rings.Capacity(r.0[k].line) == Rings.Capacity(aps[k].line)
    ensures aps == [] ==> r.1 == input
    decreases |aps|
  {
    if aps == [] then ([], input)
    else
      var (a, out) := AllPassProcess(aps[0], input);
      var (rest, y) := AllPassChain(aps[1..], out);
      ([a] + rest, y)
  }

  /** What all-pass k of a series is fed: the input for the first one, and for every later one
      the output of all-pass k - 1, which is what its line reads less what it was fed. For
      k = |aps| it is the output of the whole series. */
  function SeriesInput(aps: seq<AllPass>, input: real, k: nat): real
    requires AllPassesValid(aps) && k <= |aps|
    decreases k
  {
    if k == 0 then input else Rings.Get(aps[k - 1].line, 0) - SeriesInput(aps, input, k - 1)
  }

  /** The chain runs the all-passes in series: each is stepped on the output of the one before
      it, and the chain outputs what the last one outputs. */
  lemma AllPassChainInSeries(aps: seq<AllPass>, input: real)
    requires AllPassesValid(aps)
    ensures AllPassChain(aps, input).1 == SeriesInput(aps, input, |aps|)
    ensures forall k :: 0 <= k < |aps| ==>
      AllPassChain(aps, input).0[k] == AllPassProcess(aps[k], SeriesInput(aps, input, k)).0
  {
    ChainOutputInSeries(aps, input);
    ChainStatesInSeries(aps, input);
  }

  lemma {:induction false} ChainOutputInSeries(aps: seq<AllPass>, input: real)
    requires AllPassesValid(aps)
    ensures AllPassChain(aps, input).1 == SeriesInput(aps, input, |aps|)
    decreases |aps|
  {
    if aps != [] {
      var out := AllPassProcess(aps[0], input).1;
      ChainOutputInSeries(aps[1..], out);
      assert AllPassChain(aps, input).1 == AllPassChain(aps[1..], out).1;
      SeriesShift(aps, input, |aps| - 1);
    }
  }

  lemma ChainStatesInSeries(aps: seq<AllPass>, input: real)
    requires AllPassesValid(aps)
    ensures forall k :: 0 <= k < |aps| ==>
      AllPassChain(aps, input).0[k] == AllPassProcess(aps[k], SeriesInput(aps, input, k)).0
  {
    forall k | 0 <= k < |aps|
      ensures AllPassChain(aps, input).0[k] == AllPassProcess(aps[k], SeriesInput(aps, input, k)).0
    {
      ChainStateAt(aps, input, k);
    }
  }

  /** All-pass k of the chain is stepped on what the series feeds it. */
  lemma {:induction false} ChainStateAt(aps: seq<AllPass>, input: real, k: nat)
    requires AllPassesValid(aps) && k < |aps|
    ensures AllPassChain(aps, input).0[k] == AllPassProcess(aps[k], SeriesInput(aps, input, k)).0
    decreases k
  {
    var out := AllPassProcess(aps[0], input).1;
    var rest := AllPassChain(aps[1..], out);
    assert AllPassChain(aps, input).0 == [AllPassProcess(aps[0], input).0] + rest.0;
    if k > 0 {
      ChainStateAt(aps[1..], out, k - 1);
      SeriesShift(aps, input, k - 1);
      assert aps[k] == aps[1..][k - 1];
    }
  }

  /** Feeding a series is feeding its first all-pass and then the rest. */
  lemma {:induction false} SeriesShift(aps: seq<AllPass>, input: real, k: nat)
    requires AllPassesValid(aps) && aps != [] && k < |aps|
    ensures SeriesInput(aps, input, k + 1) == SeriesInput(aps[1..], AllPassProcess(aps[0], input).1, k)
    decreases k
  {
    if k > 0 {
      SeriesShift(aps, input, k - 1);
      assert aps[k] == aps[1..][k - 1];
    }
  }

  /** A channel has eight combs and four all-passes whose lengths are the tuning plus `spread`. */
  predicate ChannelValid(ch: Channel, spread: nat) {
    && |ch.combs| == |CombTuning| && CombsValid(ch.combs)
    && (forall k :: 0 <= k < |CombTuning| ==> Rings.Capacity(ch.combs[k].line) == CombTuning[k] + spread)
    && |ch.allPasses| == |AllPassTuning| && AllPassesValid(ch.allPasses)
    && (forall k :: 0 <= k < |AllPassTuning| ==> Rings.Capacity(ch.allPasses[k].line) == AllPassTuning[k] + spread)
  }

  function NewChannel(spread: nat): (ch: Channel)
    ensures ChannelValid(ch, spread)
  {
    Channel(seq(|CombTuning|, k requires 0 <= k < |CombTuning| => NewComb(CombTuning[k] + spread)),
            seq(|AllPassTuning|, k requires 0 <= k < |AllPassTuning| => NewAllPass(AllPassTuning[k] + spread)))
  }

  /** One channel step; the channel keeps its shape. */
  function ChannelProcess(ch: Channel, spread: nat, input: real, feedback: real, damp: real): (r: (Channel, real))
    requires ChannelValid(ch, spread)
    ensures ChannelValid(r.0, spread)
  {
    var (combs', sum) := CombBank(ch.combs, input, feedback, damp);
    var (aps', out) := AllPassChain(ch.allPasses, sum);
    (Channel(combs', aps'), out)
  }

  /** What a channel step computes: every comb steps on the input, the all-passes run in series
      on the sum of what the combs read, and the channel outputs what the last all-pass outputs. */
  lemma ChannelInSeries(ch: Channel, spread: nat, input: real, feedback: real, damp: real)
    requires ChannelValid(ch, spread)
    ensures var r := ChannelProcess(ch, spread, input, feedback, damp);
      && (forall k :: 0 <= k < |ch.combs| ==> r.0.combs[k] == CombProcess(ch.combs[k], input, feedback, damp).0)
      && (forall k :: 0 <= k < |ch.allPasses| ==>
            r.0.allPasses[k] == AllPassProcess(ch.allPasses[k], SeriesInput(ch.allPasses, HeadSum(ch.combs), k)).0)
      && r.1 == SeriesInput(ch.allPasses, HeadSum(ch.combs), |ch.allPasses|)
  {
    AllPassChainInSeries(ch.allPasses, CombBank(ch.combs, input, feedback, damp).1);
  }

  // ---- Reverb ----

  predicate Valid(fv: Reverb) {
    ChannelValid(fv.left, 0) && ChannelValid(fv.right, StereoSpread)
  }

  function New(): (fv: Reverb)
    ensures Valid(fv)
  {
    Reverb(NewChannel(0), NewChannel(StereoSpread))
  }

  /** room_size in [0, 1] maps affinely and increasingly onto a comb feedback in [0.7, 0.98]. */
  function RoomFeedback(roomSize: real): (f: real)
    ensures 0.0 <= roomSize <= 1.0 ==> 0.7 <= f <= 0.98
    ensures roomSize == 0.0 ==> f == 0.7
    ensures roomSize == 1.0 ==> f == 0.98
  {
    roomSize * 0.28 + 0.7
  }

  /** The damp parameter in [0, 1] becomes a low-pass coefficient in [0, 0.4]. */
  function Damping(damp: real): (d: real)
    ensures 0.0 <= damp <= 1.0 ==> 0.0 <= d <= 0.4
  {
    damp * 0.4
  }

  lemma RoomFeedbackIncreasing(a: real, b: real)
    requires a < b
    ensures RoomFeedback(a) < RoomFeedback(b)
  {
  }

  /** `process`: both channels step on the input scaled by 0.03, with the comb feedback and
      damping derived from room_size and damp; the two channel outputs form the wet pair, which
      goes through Width at 3·wet, and the dry input is added at 2·dry. With wet 0 only the dry
      input remains. */
  function Process(fv: Reverb, input: real, roomSize: real, damp: real, wet: real, dry: real, width: real): (r: (Reverb, Sample))
    requires Valid(fv)
    ensures Valid(r.0)
    ensures r.0.left == ChannelProcess(fv.left, 0, input * 0.03, RoomFeedback(roomSize), Damping(damp)).0
    ensures r.0.right == ChannelProcess(fv.right, StereoSpread, input * 0.03, RoomFeedback(roomSize), Damping(damp)).0
    ensures r.1 == WetDry(Sample(ChannelProcess(fv.left, 0, input * 0.03, RoomFeedback(roomSize), Damping(damp)).1,
                                 ChannelProcess(fv.right, StereoSpread, input * 0.03, RoomFeedback(roomSize), Damping(damp)).1),
                          width, wet * 3.0, dry * 2.0, input)
    ensures wet == 0.0 ==> r.1 == Scale(Splat(input), dry * 2.0)
  {
    var feedback, d := RoomFeedback(roomSize), Damping(damp);
    var (left', out1) := ChannelProcess(fv.left, 0, input * 0.03, feedback, d);
    var (right', out2) := ChannelProcess(fv.right, StereoSpread, input * 0.03, feedback, d);
    (Reverb(left', right'), WetDry(Sample(out1, out2), width, wet * 3.0, dry * 2.0, input))
  }

  // ---- Silence is a fixed point ----

  /** Every slot of the line holds 0. */
  predicate LineSilent(line: Rings.Ring<real>) {
    forall j :: 0 <= j < |line.data| ==> line.data[j] == 0.0
  }

  predicate ChannelSilent(ch: Channel) {
    && (forall k :: 0 <= k < |ch.combs| ==> LineSilent(ch.combs[k].line) && ch.combs[k].previous == 0.0)
    && (forall k :: 0 <= k < |ch.allPasses| ==> LineSilent(ch.allPasses[k].line))
  }

  predicate Silent(fv: Reverb) {
    ChannelSilent(fv.left) && ChannelSilent(fv.right)
  }

  lemma SilentLineReadsZero(line: Rings.Ring<real>)
    requires Rings.Valid(line) && LineSilent(line)
    ensures Rings.Contents(line)[0] == 0.0
  {
    assert Rings.Contents(line)[0] == line.data[Rings.Slot(line, 0)];
  }

  lemma SilentLineStaysSilent(line: Rings.Ring<real>)
    requires Rings.Valid(line) && LineSilent(line)
    ensures LineSilent(DelayLines.Tick(line, 0.0).0)
  {
  }

  lemma NewIsSilent()
    ensures Silent(New())
  {
  }

  lemma SilentComb(c: Comb, feedback: real, damp: real)
    requires Rings.Valid(c.line) && LineSilent(c.line) && c.previous == 0.0
    ensures CombProcess(c, 0.0, feedback, damp).1 == 0.0
    ensures CombProcess(c, 0.0, feedback, damp).0.previous == 0.0
    ensures LineSilent(CombProcess(c, 0.0, feedback, damp).0.line)
  {
    SilentLineReadsZero(c.line);
    assert Rings.Get(c.line, 0) == 0.0;
    assert LowPass(0.0, 0.0, damp) == 0.0 by {
      assert 0.0 * (1.0 - damp) == 0.0 && 0.0 * damp == 0.0;
    }
    assert CombWrite(c, 0.0, feedback, damp) == 0.0 by {
      assert 0.0 * feedback == 0.0;
    }
    assert CombProcess(c, 0.0, feedback, damp).0.line == DelayLines.Tick(c.line, 0.0).0;
    SilentLineStaysSilent(c.line);
  }

  lemma SilentAllPass(a: AllPass)
    requires Rings.Valid(a.line) && LineSilent(a.line)
    ensures AllPassProcess(a, 0.0).1 == 0.0
    ensures LineSilent(AllPassProcess(a, 0.0).0.line)
  {
    SilentLineReadsZero(a.line);
    assert Rings.Get(a.line, 0) == 0.0;
    assert 0.0 + 0.0 * AllPassFeedback == 0.0;
    assert AllPassProcess(a, 0.0).0.line == DelayLines.Tick(a.line, 0.0).0;
    SilentLineStaysSilent(a.line);
  }

  lemma {:induction false} SilentCombBank(combs: seq<Comb>, feedback: real, damp: real)
    requires CombsValid(combs)
    requires forall k :: 0 <= k < |combs| ==> LineSilent(combs[k].line) && combs[k].previous == 0.0
    ensures CombBank(combs, 0.0, feedback, damp).1 == 0.0
    ensures forall k :: 0 <= k < |combs| ==>
      LineSilent(CombBank(combs, 0.0, feedback, damp).0[k].line) && CombBank(combs, 0.0, feedback, damp).0[k].previous == 0.0
    decreases |combs|
  {
    if combs != [] {
      SilentComb(combs[0], feedback, damp);
      SilentCombBank(combs[1..], feedback, damp);
      var r := CombBank(combs, 0.0, feedback, damp);
      var rest := CombBank(combs[1..], 0.0, feedback, damp);
      assert r.0 == [CombProcess(combs[0], 0.0, feedback, damp).0] + rest.0;
    }
  }

  lemma {:induction false} SilentAllPassChain(aps: seq<AllPass>)
    requires AllPassesValid(aps)
    requires forall k :: 0 <= k < |aps| ==> LineSilent(aps[k].line)
    ensures AllPassChain(aps, 0.0).1 == 0.0
    ensures forall k :: 0 <= k < |aps| ==> LineSilent(AllPassChain(aps, 0.0).0[k].line)
    decreases |aps|
  {
    if aps != [] {
      SilentAllPass(aps[0]);
      SilentAllPassChain(aps[1..]);
      var r := AllPassChain(aps, 0.0);
      var rest := AllPassChain(aps[1..], 0.0);
      assert r.0 == [AllPassProcess(aps[0], 0.0).0] + rest.0;
    }
  }

  lemma SilentChannel(ch: Channel, spread: nat, input: real, feedback: real, damp: real)
    requires ChannelValid(ch, spread) && ChannelSilent(ch) && input == 0.0
    ensures ChannelProcess(ch, spread, input, feedback, damp).1 == 0.0
    ensures ChannelSilent(ChannelProcess(ch, spread, input, feedback, damp).0)
  {
    SilentCombBank(ch.combs, feedback, damp);
    SilentAllPassChain(ch.allPasses);
  }

  /** Silence in, silence out: a reverb whose buffers and filter memories are all zero outputs
      zero for a zero input and stays all zero. */
  lemma SilenceIsFixedPoint(fv: Reverb, roomSize: real, damp: real, wet: real, dry: real, width: real)
    requires Valid(fv) && Silent(fv)
    ensures Process(fv, 0.0, roomSize, damp, wet, dry, width).1 == Sample(0.0, 0.0)
    ensures Silent(Process(fv, 0.0, roomSize, damp, wet, dry, width).0)
  {
    SilentOutput(fv, roomSize, damp, wet, dry, width);
    SilentState(fv, roomSize, damp, wet, dry, width);
  }

  lemma SilentOutput(fv: Reverb, roomSize: real, damp: real, wet: real, dry: real, width: real)
    requires Valid(fv) && Silent(fv)
    ensures Process(fv, 0.0, roomSize, damp, wet, dry, width).1 == Sample(0.0, 0.0)
  {
    var input, feedback, d := 0.0 * 0.03, RoomFeedback(roomSize), Damping(damp);
    SilentChannel(fv.left, 0, input, feedback, d);
    SilentChannel(fv.right, StereoSpread, input, feedback, d);
    assert Scale(Splat(0.0), dry * 2.0) == Sample(0.0, 0.0);
  }

  lemma SilentState(fv: Reverb, roomSize: real, damp: real, wet: real, dry: real, width: real)
    requires Valid(fv) && Silent(fv)
    ensures Silent(Process(fv, 0.0, roomSize, damp, wet, dry, width).0)
  {
    var input, feedback, d := 0.0 * 0.03, RoomFeedback(roomSize), Damping(damp);
    SilentChannel(fv.left, 0, input, feedback, d);
    SilentChannel(fv.right, StereoSpread, input, feedback, d);
    var r := Process(fv, 0.0, roomSize, damp, wet, dry, width).0;
    assert r == Reverb(r.left, r.right);
    SilentPair(r.left, r.right);
  }

  lemma SilentPair(a: Channel, b: Channel)
    requires ChannelSilent(a) && ChannelSilent(b)
    ensures Silent(Reverb(a, b))
  {
  }


}
