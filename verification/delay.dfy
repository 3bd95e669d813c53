/** modo's Delay<N>: one circular buffer of length N read at two taps, [0] weighted by
    feedback² and [N/2] weighted by feedback, spread through Width and mixed with the dry input. */
module Delay {
  import Rings
  import DelayLines
  import opened Signals

  datatype Delay = Delay(buffer: Rings.Ring<real>)

  predicate Valid(d: Delay) {
    Rings.Valid(d.buffer)
  }

  /** A fresh delay of length n: a zero-filled buffer. */
  function New(n: nat): (d: Delay)
    requires 0 < n
    ensures Valid(d) && Rings.Capacity(d.buffer) == n
    ensures Rings.Contents(d.buffer) == seq(n, _ => 0.0)
  {
    Delay(Rings.New(n, 0.0))
  }

  /** The two taps read from a line's logical contents c, already weighted by the feedback: the
      oldest element times feedback², and the element halfway along times feedback. */
  function TapPair(c: seq<real>, feedback: real): Sample
    requires 0 < |c|
  {
    Sample(c[0] * (feedback * feedback), c[|c| / 2] * feedback)
  }

  /** The two taps of the current step: `buffer[0]` and `buffer[N/2]`, weighted by the feedback. */
  function Taps(d: Delay, feedback: real): (t: Sample)
    requires Valid(d)
    ensures t == TapPair(Rings.Contents(d.buffer), feedback)
  {
    Sample(Rings.Get(d.buffer, 0) * (feedback * feedback),
           Rings.Get(d.buffer, Rings.Capacity(d.buffer) / 2) * feedback)
  }

  /** `process`: the head receives the input plus the feedback² tap, the buffer advances by one,
      and the output is the tap pair through the wet/dry stage; with no feedback or no wet level
      only the dry input is heard. */
  function Process(d: Delay, input: real, feedback: real, wet: real, dry: real, width: real): (r: (Delay, Sample))
    requires Valid(d)
    ensures Valid(r.0) && Rings.Capacity(r.0.buffer) == Rings.Capacity(d.buffer)
    ensures Rings.Contents(r.0.buffer) == Rings.Contents(d.buffer)[1..] + [input + Taps(d, feedback).left]
    ensures Rings.Contents(r.0.buffer) == Shift(Rings.Contents(d.buffer), input, feedback * feedback)
    ensures r.1 == WetDry(Taps(d, feedback), width, wet, dry, input)
    ensures feedback == 0.0 ==> r.1 == Scale(Splat(input), dry)
    ensures wet == 0.0 ==> r.1 == Scale(Splat(input), dry)
  {
    var taps := Taps(d, feedback);
    var (buffer', _) := DelayLines.Tick(d.buffer, input + taps.left);
    assert feedback == 0.0 ==> taps == Sample(0.0, 0.0);
    (Delay(buffer'), WetDry(taps, width, wet, dry, input))
  }

  /** Run the delay over a stream of inputs with fixed parameters. */
  function Run(d: Delay, inputs: seq<real>, feedback: real, wet: real, dry: real, width: real): (r: (Delay, seq<Sample>))
    requires Valid(d)
    ensures Valid(r.0) && Rings.Capacity(r.0.buffer) == Rings.Capacity(d.buffer)
    ensures |r.1| == |inputs|
    decreases |inputs|
  {
    if inputs == [] then (d, [])
    else
      var (d1, out) := Process(d, inputs[0], feedback, wet, dry, width);
      var (d2, outs) := Run(d1, inputs[1..], feedback, wet, dry, width);
      (d2, [out] + outs)
  }

  /** With feedback 0 the delay is a plain delay line of the input: every output is the
      scaled dry input, and the buffer advances exactly as a line fed with the inputs. */
  lemma {:induction false} NoFeedbackIsDryDelayLine(d: Delay, inputs: seq<real>, wet: real, dry: real, width: real)
    requires Valid(d)
    ensures forall k :: 0 <= k < |inputs| ==> Run(d, inputs, 0.0, wet, dry, width).1[k] == Scale(Splat(inputs[k]), dry)
    ensures Run(d, inputs, 0.0, wet, dry, width).0.buffer == DelayLines.Feed(d.buffer, inputs).0
    decreases |inputs|
  {
    if inputs != [] {
      var (d1, out) := Process(d, inputs[0], 0.0, wet, dry, width);
      assert Taps(d, 0.0).left == 0.0;
      assert d1.buffer == DelayLines.Tick(d.buffer, inputs[0]).0;
      NoFeedbackIsDryDelayLine(d1, inputs[1..], wet, dry, width);
      var (d2, outs) := Run(d1, inputs[1..], 0.0, wet, dry, width);
      assert Run(d, inputs, 0.0, wet, dry, width) == (d2, [out] + outs);
    }
  }

  /** A fresh delay of length n run with no feedback: at step k its [0] tap reads 0 for the
      first n steps and then the input of n steps before, whatever the mix settings. */
  lemma {:induction false} FreshDelayTapLagsInput(n: nat, inputs: seq<real>, wet: real, dry: real, width: real)
    requires 0 < n
    ensures forall k :: 0 <= k < |inputs| ==>
      Rings.Get(Run(New(n), inputs[..k], 0.0, wet, dry, width).0.buffer, 0) == (if k < n then 0.0 else inputs[k - n])
  {
    forall k | 0 <= k < |inputs|
      ensures Rings.Get(Run(New(n), inputs[..k], 0.0, wet, dry, width).0.buffer, 0) == (if k < n then 0.0 else inputs[k - n])
    {
      TapAfter(n, inputs, k, wet, dry, width);
    }
  }

  /** The [0] tap of a fresh delay of length n after k steps with no feedback. */
  lemma TapAfter(n: nat, inputs: seq<real>, k: nat, wet: real, dry: real, width: real)
    requires 0 < n && k < |inputs|
    ensures Rings.Get(Run(New(n), inputs[..k], 0.0, wet, dry, width).0.buffer, 0) == (if k < n then 0.0 else inputs[k - n])
  {
    var d := New(n);
    var prefix := inputs[..k];
    NoFeedbackIsDryDelayLine(d, prefix, wet, dry, width);
    DelayLines.FeedDelaysByCapacity(d.buffer, prefix);
    var b := Run(d, prefix, 0.0, wet, dry, width).0.buffer;
    var all := Rings.Contents(d.buffer) + prefix;
    assert Rings.Get(b, 0) == Rings.Contents(b)[0] == all[k];
    if k < n {
      assert all[k] == Rings.Contents(d.buffer)[k];
    } else {
      assert all[k] == prefix[k - n];
    }
  }

  // ---- The feedback delay over a whole stream ----

  /** Position m of a delay line's history: the first N positions are its initial contents,
      and position m >= N holds what step m - N wrote, the input of that step plus fb2 times the
      value then leaving the line, itself position m - N. */
  function History(init: seq<real>, inputs: seq<real>, fb2: real, m: nat): real
    requires 0 < |init| && m < |init| + |inputs|
    decreases m
  {
    if m < |init| then init[m] else inputs[m - |init|] + fb2 * History(init, inputs, fb2, m - |init|)
  }

  /** One step of a line's logical contents: the oldest value leaves, and the input plus fb2
      times that value becomes the newest. */
  function Shift(c: seq<real>, input: real, fb2: real): (e: seq<real>)
    requires 0 < |c|
    ensures |e| == |c|
  {
    c[1..] + [input + c[0] * fb2]
  }

  /** A line's logical contents after a stream of inputs. */
  function Echo(c: seq<real>, inputs: seq<real>, fb2: real): (e: seq<real>)
    requires 0 < |c|
    ensures |e| == |c|
    decreases |inputs|
  {
    if inputs == [] then c else Echo(Shift(c, inputs[0], fb2), inputs[1..], fb2)
  }

  /** A run is the echo of its inputs: the buffer ends holding the echo, and output k is the
      wet/dry stage applied to the taps of the echo of the first k inputs. */
  lemma {:induction false} RunEchoes(d: Delay, inputs: seq<real>, feedback: real, wet: real, dry: real, width: real)
    requires Valid(d)
    ensures Rings.Contents(Run(d, inputs, feedback, wet, dry, width).0.buffer)
      == Echo(Rings.Contents(d.buffer), inputs, feedback * feedback)
    ensures forall k :: 0 <= k < |inputs| ==>
      Run(d, inputs, feedback, wet, dry, width).1[k]
        == WetDry(TapPair(Echo(Rings.Contents(d.buffer), inputs[..k], feedback * feedback), feedback), width, wet, dry, inputs[k])
    decreases |inputs|
  {
    if inputs != [] {
      var c := Rings.Contents(d.buffer);
      var fb2 := feedback * feedback;
      var (d1, out) := Process(d, inputs[0], feedback, wet, dry, width);
      var tail := inputs[1..];
      var c1 := Rings.Contents(d1.buffer);
      assert c1 == Shift(c, inputs[0], fb2);
      RunEchoes(d1, tail, feedback, wet, dry, width);
      var outs := Run(d, inputs, feedback, wet, dry, width).1;
      assert outs == [out] + Run(d1, tail, feedback, wet, dry, width).1;
      forall k | 0 <= k < |inputs|
        ensures outs[k] == WetDry(TapPair(Echo(c, inputs[..k], fb2), feedback), width, wet, dry, inputs[k])
      {
        if k == 0 {
          assert inputs[..0] == [];
        } else {
          assert inputs[..k][0] == inputs[0] && inputs[..k][1..] == tail[..k - 1];
          assert Echo(c, inputs[..k], fb2) == Echo(c1, tail[..k - 1], fb2);
          assert outs[k] == Run(d1, tail, feedback, wet, dry, width).1[k - 1];
        }
      }
    }
  }

  /** Echoing xs and then x is echoing xs + [x]. */
  lemma {:induction false} EchoSnoc(c: seq<real>, xs: seq<real>, x: real, fb2: real)
    requires 0 < |c|
    ensures Echo(c, xs + [x], fb2) == Shift(Echo(c, xs, fb2), x, fb2)
    decreases |xs|
  {
    if xs != [] {
      var ys := xs[1..];
      EchoSnoc(Shift(c, xs[0], fb2), ys, x, fb2);
      assert (xs + [x])[0] == xs[0] && (xs + [x])[1..] == ys + [x];
    } else {
      assert xs + [x] == [x] && [x][1..] == [];
    }
  }

  /** After k inputs the line holds positions k .. k + N - 1 of its history. */
  lemma {:induction false} EchoHoldsHistory(c: seq<real>, inputs: seq<real>, k: nat, fb2: real)
    requires 0 < |c| && k <= |inputs|
    ensures var e := Echo(c, inputs[..k], fb2);
      forall j :: 0 <= j < |e| ==> e[j] == History(c, inputs, fb2, k + j)
    decreases k
  {
    if k == 0 {
      assert inputs[..0] == [];
    } else {
      EchoHoldsHistory(c, inputs, k - 1, fb2);
      var xs := inputs[..k - 1];
      var prev := Echo(c, xs, fb2);
      EchoSnoc(c, xs, inputs[k - 1], fb2);
      assert inputs[..k] == xs + [inputs[k - 1]];
      var e := Echo(c, inputs[..k], fb2);
      assert e == Shift(prev, inputs[k - 1], fb2);
      forall j | 0 <= j < |e|
        ensures e[j] == History(c, inputs, fb2, k + j)
      {
        if j < |e| - 1 {
          assert e[j] == prev[j + 1];
        } else {
          assert prev[0] == History(c, inputs, fb2, k - 1);
        }
      }
    }
  }

  /** The taps after k inputs read history positions k and k + N/2. */
  lemma TapsReadHistory(c: seq<real>, inputs: seq<real>, k: nat, feedback: real)
    requires 0 < |c| && k < |inputs|
    ensures TapPair(Echo(c, inputs[..k], feedback * feedback), feedback) == EchoTaps(c, inputs, k, feedback)
  {
    EchoHoldsHistory(c, inputs, k, feedback * feedback);
  }

  /** With any feedback, output k is the wet/dry stage applied to the two taps read from the
      history: position k, weighted by feedback², and position k + N/2, weighted by feedback. */
  lemma DelayEchoes(d: Delay, inputs: seq<real>, feedback: real, wet: real, dry: real, width: real)
    requires Valid(d)
    ensures forall k :: 0 <= k < |inputs| ==>
      Run(d, inputs, feedback, wet, dry, width).1[k] == WetDry(EchoTaps(Rings.Contents(d.buffer), inputs, k, feedback), width, wet, dry, inputs[k])
  {
    var init := Rings.Contents(d.buffer);
    RunEchoes(d, inputs, feedback, wet, dry, width);
    forall k | 0 <= k < |inputs|
      ensures TapPair(Echo(init, inputs[..k], feedback * feedback), feedback) == EchoTaps(init, inputs, k, feedback)
    {
      TapsReadHistory(init, inputs, k, feedback);
    }
  }

  /** The taps at step k read from the history: position k, weighted by feedback², and position
      k + N/2, weighted by feedback. */
  function EchoTaps(init: seq<real>, inputs: seq<real>, k: nat, feedback: real): Sample
    requires 0 < |init| && k < |inputs|
  {
    Sample(History(init, inputs, feedback * feedback, k) * (feedback * feedback),
           History(init, inputs, feedback * feedback, k + |init| / 2) * feedback)
  }
}
