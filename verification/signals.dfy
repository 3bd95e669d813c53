/** Stereo samples and the stateless spatial units of modo: Pan, Width, Mono and Clip.
    Signal values are real numbers; modo computes them in single-precision float. */
module Signals {

  /** One step of the global clock: 1/44100 s. */
  const DT: real := 1.0 / 44100.0

  datatype Sample = Sample(left: real, right: real)

  /** `Sample(float)`: the same value on both channels. */
  function Splat(v: real): (s: Sample)
    ensures s.left == v && s.right == v
  {
    Sample(v, v)
  }

  /** `Sample + Sample`: channel by channel. */
  function Add(a: Sample, b: Sample): (s: Sample)
    ensures s.left == a.left + b.left && s.right == a.right + b.right
  {
    Sample(a.left + b.left, a.right + b.right)
  }

  /** `Sample * float`: both channels scaled by the same gain. */
  function Scale(a: Sample, f: real): (s: Sample)
    ensures s.left == a.left * f && s.right == a.right * f
  {
    Sample(a.left * f, a.right * f)
  }

  /** Samples form a vector space: addition is commutative and associative, silence is its
      unit, and gains distribute over sums and compose by multiplication. */
  lemma SampleLaws(a: Sample, b: Sample, c: Sample, f: real, g: real)
    ensures Add(a, b) == Add(b, a)
    ensures Add(Add(a, b), c) == Add(a, Add(b, c))
    ensures Add(a, Sample(0.0, 0.0)) == a
    ensures Scale(Add(a, b), f) == Add(Scale(a, f), Scale(b, f))
    ensures Scale(Scale(a, f), g) == Scale(a, f * g)
    ensures Scale(a, 1.0) == a && Scale(a, 0.0) == Sample(0.0, 0.0)
  {
    assert (a.left + b.left) * f == a.left * f + b.left * f;
    assert (a.right + b.right) * f == a.right * f + b.right * f;
    assert (a.left * f) * g == a.left * (f * g);
    assert (a.right * f) * g == a.right * (f * g);
  }

  function Swap(a: Sample): (s: Sample)
    ensures s.left == a.right && s.right == a.left
  {
    Sample(a.right, a.left)
  }

  /** Mono: the mean of the two channels; it lies between them and keeps a centred signal. */
  function Mono(s: Sample): (m: real)
    ensures s.left <= s.right ==> s.left <= m <= s.right
    ensures s.right <= s.left ==> s.right <= m <= s.left
    ensures s.left == s.right ==> m == s.left
  {
    (s.left + s.right) * 0.5
  }

  /** Pan: a linear pan law whose two channels always add back up to the input;
      -1 is hard left, 0 the centre, 1 hard right. */
  function Pan(input: real, panning: real): (s: Sample)
    ensures s.left + s.right == input
    ensures panning == -1.0 ==> s == Sample(input, 0.0)
    ensures panning == 0.0 ==> s == Splat(input * 0.5)
    ensures panning == 1.0 ==> s == Sample(0.0, input)
  {
    Sample(input * (0.5 - panning * 0.5), input * (0.5 + panning * 0.5))
  }

  /** Width: 1 passes the pair through, -1 swaps the channels, 0 collapses both onto the mono sum. */
  function Width(input: Sample, width: real): (s: Sample)
    ensures width == 1.0 ==> s == input
    ensures width == -1.0 ==> s == Swap(input)
    ensures width == 0.0 ==> s.left == s.right == Mono(input)
  {
    Add(Scale(input, 0.5 + width * 0.5), Scale(Swap(input), 0.5 - width * 0.5))
  }

  /** The output stage of Delay and Freeverb: the wet pair spread by Width and scaled by wet,
      plus the dry input on both channels scaled by dry. Its mid (sum) and side (difference)
      channels pin it down: the mid is the wet pair's mid plus the dry input twice, the side is
      the wet pair's side scaled by the width. */
  function WetDry(pair: Sample, width: real, wet: real, dry: real, input: real): (s: Sample)
    ensures s.left + s.right == wet * (pair.left + pair.right) + 2.0 * (input * dry)
    ensures s.left - s.right == wet * (width * (pair.left - pair.right))
    ensures pair == Sample(0.0, 0.0) || wet == 0.0 ==> s == Scale(Splat(input), dry)
  {
    var spread := Width(pair, width);
    WidthMidSide(pair, width);
    assert spread.left * wet + spread.right * wet == wet * (spread.left + spread.right);
    assert spread.left * wet - spread.right * wet == wet * (spread.left - spread.right);
    assert pair == Sample(0.0, 0.0) ==> spread == Sample(0.0, 0.0);
    Add(Scale(spread, wet), Scale(Splat(input), dry))
  }

  /** Width keeps the sum of the channels and scales their difference by the width. */
  lemma WidthMidSide(pair: Sample, width: real)
    ensures Width(pair, width).left + Width(pair, width).right == pair.left + pair.right
    ensures Width(pair, width).left - Width(pair, width).right == width * (pair.left - pair.right)
  {
    var g := 0.5 + width * 0.5;
    var h := 0.5 - width * 0.5;
    var s := Width(pair, width);
    assert s.left == pair.left * g + pair.right * h;
    assert s.right == pair.right * g + pair.left * h;
    assert s.left + s.right == pair.left * (g + h) + pair.right * (g + h);
    assert s.left - s.right == pair.left * (g - h) - pair.right * (g - h);
    assert pair.left * (g - h) - pair.right * (g - h) == (pair.left - pair.right) * (g - h);
  }

  /** A sample is determined by its mid and side channels. */
  lemma MidSideDetermine(a: Sample, b: Sample)
    requires a.left + a.right == b.left + b.right && a.left - a.right == b.left - b.right
    ensures a == b
  {
  }

  /** Clip: a hard limiter to [-0.9, 0.9] that leaves in-range input alone. */
  function Clip(input: real): (r: real)
    ensures -0.9 <= r <= 0.9
    ensures -0.9 <= input <= 0.9 ==> r == input
    ensures input > 0.9 ==> r == 0.9
    ensures input < -0.9 ==> r == -0.9
  {
    if input > 0.9 then 0.9 else if input < -0.9 then -0.9 else input
  }

  lemma ClipIdempotentAndMonotone(x: real, y: real)
    ensures Clip(Clip(x)) == Clip(x)
    ensures x <= y ==> Clip(x) <= Clip(y)
  {
  }

  /** Swapping twice is the identity, and Mono does not see the order of the channels. */
  lemma SwapInvolution(a: Sample)
    ensures Swap(Swap(a)) == a
    ensures Mono(Swap(a)) == Mono(a)
  {
  }

  /** Mirroring the pan position mirrors the channels. */
  lemma PanMirror(input: real, panning: real)
    ensures Pan(input, -panning) == Swap(Pan(input, panning))
  {
  }

  /** Whatever the width, the mono sum of the pair is unchanged. */
  lemma WidthKeepsMono(input: Sample, width: real)
    ensures Mono(Width(input, width)) == Mono(input)
  {
    var g := 0.5 + width * 0.5;
    var h := 0.5 - width * 0.5;
    assert g + h == 1.0;
    var s := Width(input, width);
    assert s.left + s.right == input.left * g + input.right * h + input.right * g + input.left * h;
    assert input.left * g + input.left * h == input.left * (g + h);
    assert input.right * g + input.right * h == input.right * (g + h);
  }

  /** Width is additive in its input pair, as the module laws of Sample require. */
  lemma WidthIsAdditive(a: Sample, b: Sample, width: real)
    ensures Width(Add(a, b), width) == Add(Width(a, width), Width(b, width))
  {
    var g := 0.5 + width * 0.5;
    var h := 0.5 - width * 0.5;
    assert (a.left + b.left) * g == a.left * g + b.left * g;
    assert (a.right + b.right) * g == a.right * g + b.right * g;
    assert (a.left + b.left) * h == a.left * h + b.left * h;
    assert (a.right + b.right) * h == a.right * h + b.right * h;
  }
}
