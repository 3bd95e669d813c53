/** modo's Automation: a control curve read from a script such as "130 45/.1". The script is a
    space-separated list of segments; a bare number holds that value, and `x/d` ramps linearly
    from the current value to x over d seconds. Once the script is used up the value is held. */
module Automation {
  import opened CStrings
  import opened Signals

  datatype Result<T> = Success(value: T) | Failure(error: string)

  // ---- parse_number ----

  /** The integer-part loop: `number = number * 10 + digit` while the cursor is on a digit.
      Returns the number and the cursor after the last digit. */
  function ScanInt(s: string, i: nat, acc: real): (r: (real, nat))
    ensures i <= r.1 && (i <= |s| ==> r.1 <= |s|)
    decreases |s| - i
  {
    var c := CharAt(s, i);
    if IsDigit(c) then ScanInt(s, i + 1, AppendDigit(acc, c)) else (acc, i)
  }

  /** `number * 10 + digit`. */
  function AppendDigit(acc: real, c: char): real
    requires IsDigit(c)
  {
    acc * 10.0 + DigitValue(c) as real
  }

  /** The fraction loop: `number += digit * factor; factor /= 10` while on a digit. */
  function ScanFrac(s: string, i: nat, acc: real, factor: real): (r: (real, nat))
    ensures i <= r.1 && (i <= |s| ==> r.1 <= |s|)
    decreases |s| - i
  {
    var c := CharAt(s, i);
    if IsDigit(c) then ScanFrac(s, i + 1, acc + PlaceValue(c, factor), factor / 10.0)
    else (acc, i)
  }

  /** A digit's contribution at the place worth `factor`. */
  function PlaceValue(c: char, factor: real): real
    requires IsDigit(c)
  {
    DigitValue(c) as real * factor
  }

  /** The unsigned part of `parse_number` from position i: digits, then optionally '.' and more
      digits. Returns the magnitude and the position after it. */
  function ParseMagnitude(s: string, i: nat): (r: (real, nat))
    ensures i <= r.1 && (i <= |s| ==> r.1 <= |s|)
  {
    var (n, j) := ScanInt(s, i, 0.0);
    if CharAt(s, j) == '.' then ScanFrac(s, j + 1, n, 0.1) else (n, j)
  }

  /** `parse_number` with the cursor at i: an optional '-' and a magnitude. Returns the value and
      the cursor after the number. Reading stops at the first character that cannot continue the
      number; a number with no digits at all reads as 0. */
  function ParseNumber(s: string, i: nat): (r: (real, nat))
    ensures i <= r.1 && (i <= |s| ==> r.1 <= |s|)
  {
    if CharAt(s, i) == '-' then
      var (m, k) := ParseMagnitude(s, i + 1);
      (m * -1.0, k)
    else
      ParseMagnitude(s, i)
  }

  /** The loops stop on the first character that is not a digit. */
  lemma {:induction false} ScanIntStops(s: string, i: nat, acc: real)
    ensures !IsDigit(CharAt(s, ScanInt(s, i, acc).1))
    ensures ScanInt(s, i, acc).1 == i <==> !IsDigit(CharAt(s, i))
    decreases |s| - i
  {
    if IsDigit(CharAt(s, i)) {
      ScanIntStops(s, i + 1, AppendDigit(acc, CharAt(s, i)));
    }
  }

  lemma {:induction false} ScanFracStops(s: string, i: nat, acc: real, factor: real)
    ensures !IsDigit(CharAt(s, ScanFrac(s, i, acc, factor).1))
    decreases |s| - i
  {
    var c := CharAt(s, i);
    if IsDigit(c) {
      ScanFracStops(s, i + 1, acc + PlaceValue(c, factor), factor / 10.0);
    }
  }

  /** `parse_number` stops on the first character that cannot continue the number, and it
      consumes nothing exactly when the cursor is on neither a sign, a point nor a digit. */
  lemma {:induction false} ParseNumberStops(s: string, i: nat)
    ensures !IsDigit(CharAt(s, ParseNumber(s, i).1))
    ensures ParseNumber(s, i).1 == i <==> !(CharAt(s, i) == '-' || CharAt(s, i) == '.' || IsDigit(CharAt(s, i)))
  {
    var i0 := if CharAt(s, i) == '-' then i + 1 else i;
    ScanIntStops(s, i0, 0.0);
    var j := ScanInt(s, i0, 0.0).1;
    if CharAt(s, j) == '.' {
      ScanFracStops(s, j + 1, ScanInt(s, i0, 0.0).0, 0.1);
    }
  }

  // ---- Decimal numerals, independently of the parser ----

  predicate AllDigits(ds: string) {
    forall k :: 0 <= k < |ds| ==> IsDigit(ds[k])
  }

  /** The value of a digit string as a whole number: ten times the value of all but the last
      digit, plus the last digit. */
  function IntValue(ds: string): real
    requires AllDigits(ds)
    decreases |ds|
  {
    if ds == [] then 0.0 else 10.0 * IntValue(ds[..|ds| - 1]) + DigitValue(ds[|ds| - 1]) as real
  }

  /** The worth of the n-th place after a decimal point, 10^-n. */
  function Tenth(n: nat): (p: real)
    ensures p > 0.0
  {
    if n == 0 then 1.0 else Tenth(n - 1) / 10.0
  }

  /** The value of a digit string read after a decimal point: the k-th digit is worth its value
      times 10^-k. */
  function FracValue(ds: string): real
    requires AllDigits(ds)
    decreases |ds|
  {
    if ds == [] then 0.0 else FracValue(ds[..|ds| - 1]) + DigitValue(ds[|ds| - 1]) as real * Tenth(|ds|)
  }

  /** The text of a decimal numeral: an optional minus sign, whole digits, and optionally a point
      followed by fraction digits. */
  function Numeral(negative: bool, ds: string, point: bool, fs: string): string {
    (if negative then "-" else "") + ds + (if point then "." + fs else "")
  }

  function NumeralValue(negative: bool, ds: string, fs: string): real
    requires AllDigits(ds) && AllDigits(fs)
  {
    (if negative then -1.0 else 1.0) * (IntValue(ds) + FracValue(fs))
  }

  /** What may follow a number in a script: a space, a slash or the end of the text. */
  predicate Separator(c: char) {
    c == ' ' || c == '/' || c == Nul
  }

  /** Appending a digit to a whole numeral multiplies its value by ten and adds the digit. */
  lemma {:induction false} IntSnoc(ds: string, c: char)
    requires AllDigits(ds) && IsDigit(c)
    ensures AllDigits(ds + [c]) && IntValue(ds + [c]) == AppendDigit(IntValue(ds), c)
  {
    assert (ds + [c])[..|ds|] == ds;
  }

  /** Appending a digit to a fraction adds the digit at the next place. */
  lemma {:induction false} FracSnoc(ds: string, c: char)
    requires AllDigits(ds) && IsDigit(c)
    ensures AllDigits(ds + [c]) && FracValue(ds + [c]) == FracValue(ds) + PlaceValue(c, Tenth(|ds| + 1))
  {
    assert (ds + [c])[..|ds|] == ds;
  }

  /** The digits from i0 up to i + 1 are those up to i and the digit at i. */
  lemma {:induction false} DigitsSnoc(s: string, i0: nat, i: nat, j: nat)
    requires i0 <= i < j <= |s| && AllDigits(s[i0..j])
    ensures IsDigit(s[i]) && CharAt(s, i) == s[i]
    ensures AllDigits(s[i0..i]) && s[i0..i + 1] == s[i0..i] + [s[i]] && |s[i0..i]| == i - i0
  {
    assert s[i] == s[i0..j][i - i0];
    assert forall k :: 0 <= k < i - i0 ==> s[i0..i][k] == s[i0..j][k];
  }

  /** The integer loop, entered at i with the value of the digits from i0 read so far, reads the
      whole run of digits up to j. */
  lemma {:induction false} ScanIntReadsDigits(s: string, i0: nat, i: nat, j: nat, acc: real)
    requires i0 <= i <= j <= |s| && AllDigits(s[i0..j]) && !IsDigit(CharAt(s, j))
    requires AllDigits(s[i0..i]) && acc == IntValue(s[i0..i])
    ensures ScanInt(s, i, acc) == (IntValue(s[i0..j]), j)
    decreases j - i
  {
    if i < j {
      DigitsSnoc(s, i0, i, j);
      IntSnoc(s[i0..i], s[i]);
      ScanIntReadsDigits(s, i0, i + 1, j, AppendDigit(acc, s[i]));
    }
  }

  /** The fraction loop, entered at i with `base` plus the value of the fraction digits from i0
      read so far and the factor of the next place, reads the whole run of digits up to j. */
  lemma {:induction false} ScanFracReadsDigits(s: string, i0: nat, i: nat, j: nat, base: real, acc: real, factor: real)
    requires i0 <= i <= j <= |s| && AllDigits(s[i0..j]) && !IsDigit(CharAt(s, j))
    requires AllDigits(s[i0..i]) && acc == base + FracValue(s[i0..i]) && factor == Tenth(i - i0 + 1)
    ensures ScanFrac(s, i, acc, factor) == (base + FracValue(s[i0..j]), j)
    decreases j - i
  {
    if i < j {
      DigitsSnoc(s, i0, i, j);
      FracSnoc(s[i0..i], s[i]);
      var next := i + 1 - i0 + 1;
      assert Tenth(next) == factor / 10.0;
      ScanFracReadsDigits(s, i0, i + 1, j, base, acc + PlaceValue(s[i], factor), factor / 10.0);
    }
  }

  /** A magnitude without a point: the digits up to a separator. */
  lemma {:induction false} WholeMagnitude(s: string, i: nat, j: nat)
    requires i <= j <= |s| && AllDigits(s[i..j]) && Separator(CharAt(s, j))
    ensures ParseMagnitude(s, i) == (IntValue(s[i..j]), j)
  {
    ScanIntReadsDigits(s, i, i, j, 0.0);
  }

  /** A magnitude with a point: whole digits, '.', fraction digits up to a separator. */
  lemma {:induction false} PointMagnitude(s: string, i: nat, j: nat, k: nat)
    requires i <= j < k <= |s| && s[j] == '.'
    requires AllDigits(s[i..j]) && AllDigits(s[j + 1..k]) && Separator(CharAt(s, k))
    ensures ParseMagnitude(s, i) == (IntValue(s[i..j]) + FracValue(s[j + 1..k]), k)
  {
    ScanIntReadsDigits(s, i, i, j, 0.0);
    ScanFracReadsDigits(s, j + 1, j + 1, k, IntValue(s[i..j]), IntValue(s[i..j]), 0.1);
  }

  /** The magnitude loops read an unsigned numeral written at position i back as its value,
      stopping at its end when a separator follows. */
  lemma {:induction false} MagnitudeAt(s: string, i: nat, ds: string, point: bool, fs: string)
    requires AllDigits(ds) && AllDigits(fs) && (point || fs == [])
    requires i + |Numeral(false, ds, point, fs)| <= |s|
    requires s[i..i + |Numeral(false, ds, point, fs)|] == Numeral(false, ds, point, fs)
    requires Separator(CharAt(s, i + |Numeral(false, ds, point, fs)|))
    ensures ParseMagnitude(s, i) == (IntValue(ds) + FracValue(fs), i + |Numeral(false, ds, point, fs)|)
  {
    var j := i + |ds|;
    NumeralParts(s, i, ds, point, fs);
    if point {
      PointMagnitude(s, i, j, i + |Numeral(false, ds, point, fs)|);
    } else {
      assert FracValue(fs) == 0.0;
      WholeMagnitude(s, i, j);
    }
  }

  /** Where the parts of an unsigned numeral lie once it is written at position i. */
  lemma {:induction false} NumeralParts(s: string, i: nat, ds: string, point: bool, fs: string)
    requires point || fs == []
    requires i + |Numeral(false, ds, point, fs)| <= |s|
    requires s[i..i + |Numeral(false, ds, point, fs)|] == Numeral(false, ds, point, fs)
    ensures s[i..i + |ds|] == ds
    ensures point ==> s[i + |ds|] == '.' && s[i + |ds| + 1..i + |Numeral(false, ds, point, fs)|] == fs
  {
    var num := Numeral(false, ds, point, fs);
    var e := i + |num|;
    var j := i + |ds|;
    assert s[i..j] == ds by {
      assert s[i..j] == s[i..e][..|ds|] && num[..|ds|] == ds;
    }
    if point {
      assert s[j] == '.' by {
        assert s[j] == s[i..e][|ds|] && num[|ds|] == '.';
      }
      assert s[j + 1..e] == fs by {
        assert s[j + 1..e] == s[i..e][|ds| + 1..] && num[|ds| + 1..] == fs;
      }
    }
  }

  /** `parse_number` reads a decimal numeral written at position i back as its value, stopping
      exactly at its end when a separator follows. */
  lemma {:induction false} ParseNumberReadsNumeral(s: string, i: nat, negative: bool, ds: string, point: bool, fs: string)
    requires AllDigits(ds) && AllDigits(fs) && (point || fs == [])
    requires i + |Numeral(negative, ds, point, fs)| <= |s|
    requires s[i..i + |Numeral(negative, ds, point, fs)|] == Numeral(negative, ds, point, fs)
    requires Separator(CharAt(s, i + |Numeral(negative, ds, point, fs)|))
    ensures ParseNumber(s, i) == (NumeralValue(negative, ds, fs), i + |Numeral(negative, ds, point, fs)|)
  {
    if negative {
      NegativeNumeral(s, i, ds, point, fs);
    } else {
      UnsignedNumeral(s, i, ds, point, fs);
    }
  }

  /** A numeral with a minus sign: the magnitude after the sign, negated. */
  lemma {:induction false} NegativeNumeral(s: string, i: nat, ds: string, point: bool, fs: string)
    requires AllDigits(ds) && AllDigits(fs) && (point || fs == [])
    requires i + |Numeral(true, ds, point, fs)| <= |s|
    requires s[i..i + |Numeral(true, ds, point, fs)|] == Numeral(true, ds, point, fs)
    requires Separator(CharAt(s, i + |Numeral(true, ds, point, fs)|))
    ensures ParseNumber(s, i) == (NumeralValue(true, ds, fs), i + |Numeral(true, ds, point, fs)|)
  {
    var num := Numeral(true, ds, point, fs);
    var unsigned := Numeral(false, ds, point, fs);
    var e := i + |num|;
    assert num == ['-'] + unsigned;
    assert CharAt(s, i) == '-' by {
      assert s[i] == s[i..e][0];
    }
    assert s[i + 1..e] == unsigned by {
      assert s[i + 1..e] == s[i..e][1..];
    }
    MagnitudeAt(s, i + 1, ds, point, fs);
  }

  /** A numeral without a sign: the magnitude itself. */
  lemma {:induction false} UnsignedNumeral(s: string, i: nat, ds: string, point: bool, fs: string)
    requires AllDigits(ds) && AllDigits(fs) && (point || fs == [])
    requires i + |Numeral(false, ds, point, fs)| <= |s|
    requires s[i..i + |Numeral(false, ds, point, fs)|] == Numeral(false, ds, point, fs)
    requires Separator(CharAt(s, i + |Numeral(false, ds, point, fs)|))
    ensures ParseNumber(s, i) == (NumeralValue(false, ds, fs), i + |Numeral(false, ds, point, fs)|)
  {
    var num := Numeral(false, ds, point, fs);
    var e := i + |num|;
    assert CharAt(s, i) != '-' by {
      if e > i {
        assert s[i] == s[i..e][0];
        if ds != [] {
          assert num[0] == ds[0];
        } else {
          assert num[0] == '.';
        }
      }
    }
    MagnitudeAt(s, i, ds, point, fs);
  }

  // ---- skip_space ----

  /** `skip_space`: the cursor after the run of spaces starting at i. */
  function SkipSpace(s: string, i: nat): (j: nat)
    ensures i <= j
    ensures i <= |s| ==> j <= |s|
    ensures forall k :: i <= k < j ==> CharAt(s, k) == ' '
    ensures CharAt(s, j) != ' '
    decreases |s| - i
  {
    if CharAt(s, i) == ' ' then SkipSpace(s, i + 1) else i
  }

  // ---- The automation ----

  /** `cursor` indexes the script; `t` counts down the samples left in the current segment. */
  datatype Automation = Automation(script: string, cursor: nat, value: real, delta: real, t: int)

  predicate Valid(a: Automation) {
    a.cursor <= |a.script|
  }

  /** The constructor: at the start of the script, value 0, and a segment that ends on the
      first call. */
  function New(script: string): (a: Automation)
    ensures Valid(a) && a.cursor == 0 && a.value == 0.0 && a.t == 1
  {
    Automation(script, 0, 0.0, 0.0, 1)
  }

  /** `reset`: back to the start of the script, as freshly constructed. */
  function Reset(a: Automation): (r: Automation)
    ensures r == New(a.script)
  {
    a.(cursor := 0, value := 0.0, delta := 0.0, t := 1)
  }

  /** A float-to-int conversion: truncation toward zero. */
  function Truncate(x: real): (n: int)
    ensures x >= 0.0 ==> n as real <= x < n as real + 1.0
    ensures x < 0.0 ==> n as real - 1.0 < x <= n as real
  {
    if x >= 0.0 then x.Floor else -((-x).Floor)
  }

  /** The end of a segment: read the next one at the cursor, the value having just become v. A
      hold `x` sets the value at once; a ramp `x/d` runs `d / DT` samples (truncated) with the
      slope that arrives at x; past the end of the script the value is held. A ramp shorter than
      one sample divides by a zero sample count, which modo turns into an infinite or
      undefined slope; here it is an error. */
  function NextSegment(a: Automation, v: real): (r: Result<(Automation, real)>)
    requires Valid(a) && a.t == 1
    ensures r.Success? ==> Valid(r.value.0) && r.value.0.script == a.script
    ensures r.Success? ==> r.value.1 == r.value.0.value
    ensures CharAt(a.script, a.cursor) == Nul ==> r == Success((a.(value := v, delta := 0.0, t := 0), v))
  {
    var s := a.script;
    if CharAt(s, a.cursor) != Nul then
      var (x, c) := ParseNumber(s, a.cursor);
      if CharAt(s, c) == '/' then
        var (d, c1) := ParseNumber(s, c + 1);
        var steps := Truncate(d / DT);
        if steps == 0 then
          Failure("ramp shorter than one sample")
        else
          var c2 := SkipSpace(s, c1);
          Success((Automation(s, c2, v, (x - v) / steps as real, steps), v))
      else
        var c2 := SkipSpace(s, c);
        Success((Automation(s, c2, x, 0.0, 1), x))
    else
      Success((a.(value := v, delta := 0.0, t := 0), v))
  }

  /** `process`: add the slope and count down; inside a segment nothing is read, and at its end
      the next segment is. */
  function Process(a: Automation): (r: Result<(Automation, real)>)
    requires Valid(a)
    ensures r.Success? ==> Valid(r.value.0) && r.value.0.script == a.script
    ensures r.Success? ==> r.value.1 == r.value.0.value
    ensures a.t != 1 ==> r == Success((a.(value := a.value + a.delta, t := a.t - 1), a.value + a.delta))
  {
    var v := a.value + a.delta;
    if a.t - 1 != 0 then Success((a.(value := v, t := a.t - 1), v))
    else NextSegment(a, v)
  }

  /** `n` calls, as a sequence of outputs; the first error stops the run. */
  function Run(a: Automation, n: nat): (r: Result<(Automation, seq<real>)>)
    requires Valid(a)
    ensures r.Success? ==> Valid(r.value.0) && r.value.0.script == a.script && |r.value.1| == n
    decreases n
  {
    if n == 0 then Success((a, []))
    else
      match Run(a, n - 1)
      case Failure(e) => Failure(e)
      case Success((a1, outs)) =>
        match Process(a1)
        case Failure(e) => Failure(e)
        case Success((a2, out)) => Success((a2, outs + [out]))
  }

  /** A run of n calls is the run of n - 1 calls followed by one more. */
  lemma {:induction false} RunLast(a: Automation, n: nat, b: Automation, outs: seq<real>, b': Automation, out: real)
    requires Valid(a) && n > 0 && Run(a, n - 1) == Success((b, outs))
    requires Valid(b) && Process(b) == Success((b', out))
    ensures Run(a, n) == Success((b', outs + [out]))
  {
  }

  // ---- Segments ----

  /** The value n calls into a segment: the slope added n times. */
  function Along(a: Automation, n: int): real {
    a.value + n as real * a.delta
  }

  lemma {:induction false} AlongStep(a: Automation, n: nat)
    ensures Along(a, n) + a.delta == Along(a, n + 1)
  {
  }

  /** The automation n calls into a segment. */
  function Ahead(a: Automation, n: nat): Automation {
    a.(value := Along(a, n), t := a.t - n)
  }

  /** The outputs of the first n calls into a segment. */
  function Trail(a: Automation, n: nat): (r: seq<real>)
    ensures |r| == n
    decreases n
  {
    if n == 0 then [] else Trail(a, n - 1) + [Along(a, n)]
  }

  /** The j-th output of a segment's trail is the value j + 1 calls in. */
  lemma {:induction false} TrailValues(a: Automation, n: nat)
    ensures forall j :: 0 <= j < n ==> Trail(a, n)[j] == Along(a, j + 1)
    decreases n
  {
    if n > 0 {
      TrailValues(a, n - 1);
      assert forall j :: 0 <= j < n - 1 ==> Trail(a, n)[j] == Trail(a, n - 1)[j];
    }
  }

  /** Inside a segment the value moves by the slope on every call and nothing is read; a segment
      whose counter is already at or below zero never ends. */
  lemma {:induction false} Glides(a: Automation, n: nat)
    requires Valid(a) && (a.t <= 0 || n < a.t)
    ensures Run(a, n) == Success((Ahead(a, n), Trail(a, n)))
    decreases n
  {
    if n > 0 {
      Glides(a, n - 1);
      GlideStep(a, n);
    } else {
      assert Ahead(a, 0) == a;
    }
  }

  lemma {:induction false} GlideStep(a: Automation, n: nat)
    requires Valid(a) && n > 0 && (a.t <= 0 || n < a.t)
    requires Run(a, n - 1) == Success((Ahead(a, n - 1), Trail(a, n - 1)))
    ensures Run(a, n) == Success((Ahead(a, n), Trail(a, n)))
  {
    GlideProcess(a, n);
    RunLast(a, n, Ahead(a, n - 1), Trail(a, n - 1), Ahead(a, n), Along(a, n));
  }

  /** One call inside a segment. */
  lemma {:induction false} GlideProcess(a: Automation, n: nat)
    requires Valid(a) && n > 0 && (a.t <= 0 || n < a.t)
    ensures Valid(Ahead(a, n - 1)) && Process(Ahead(a, n - 1)) == Success((Ahead(a, n), Along(a, n)))
  {
    var b := Ahead(a, n - 1);
    assert b.t != 1;
    AlongStep(a, n - 1);
    assert b.(value := b.value + b.delta, t := b.t - 1) == Ahead(a, n);
  }

  /** A hold sets the value exactly: at the end of a segment, a number not followed by '/'
      becomes the value at once, the slope is 0, and the next segment is read on the next call. */
  lemma {:induction false} HoldSetsValue(a: Automation, negative: bool, ds: string, point: bool, fs: string)
    requires Valid(a) && a.t == 1
    requires AllDigits(ds) && AllDigits(fs) && (point || fs == [])
    requires Numeral(negative, ds, point, fs) != []
    requires a.cursor + |Numeral(negative, ds, point, fs)| <= |a.script|
    requires a.script[a.cursor..a.cursor + |Numeral(negative, ds, point, fs)|] == Numeral(negative, ds, point, fs)
    requires CharAt(a.script, a.cursor + |Numeral(negative, ds, point, fs)|) in {' ', Nul}
    ensures Process(a).Success?
    ensures Process(a).value.1 == NumeralValue(negative, ds, fs)
    ensures Process(a).value.0.delta == 0.0 && Process(a).value.0.t == 1
  {
    var num := Numeral(negative, ds, point, fs);
    var e := a.cursor + |num|;
    ParseNumberReadsNumeral(a.script, a.cursor, negative, ds, point, fs);
    assert CharAt(a.script, a.cursor) != Nul by {
      assert a.script[a.cursor] == a.script[a.cursor..e][0];
      if !negative && ds != [] {
        assert num[0] == ds[0];
      }
    }
    HoldSegment(a, NumeralValue(negative, ds, fs), e);
  }

  /** At the end of a segment, a number x not followed by '/' is a hold: the value becomes x at
      once, the slope is 0, the cursor moves past the spaces after x, and the next segment is read
      on the next call. */
  lemma {:induction false} HoldSegment(a: Automation, x: real, c: nat)
    requires Valid(a) && a.t == 1 && CharAt(a.script, a.cursor) != Nul
    requires ParseNumber(a.script, a.cursor) == (x, c) && CharAt(a.script, c) != '/'
    ensures Process(a) == Success((Automation(a.script, SkipSpace(a.script, c), x, 0.0, 1), x))
  {
  }

  /** At the end of a segment, a number x followed by '/' and a duration d starts a ramp from the
      current value v: it runs `d / DT` samples (truncated) with the slope that reaches x on the
      last of them, and the cursor moves past the spaces after d. */
  lemma {:induction false} RampSegment(a: Automation, x: real, c: nat, d: real, c1: nat)
    requires Valid(a) && a.t == 1 && CharAt(a.script, a.cursor) != Nul
    requires ParseNumber(a.script, a.cursor) == (x, c) && CharAt(a.script, c) == '/'
    requires ParseNumber(a.script, c + 1) == (d, c1) && Truncate(d / DT) != 0
    ensures var v, steps := a.value + a.delta, Truncate(d / DT);
      Process(a) == Success((Automation(a.script, SkipSpace(a.script, c1), v, (x - v) / steps as real, steps), v))
  {
  }

  /** The script at the cursor starts a hold: a number not followed by '/'. */
  predicate HoldNext(a: Automation) {
    CharAt(a.script, a.cursor) != Nul && CharAt(a.script, ParseNumber(a.script, a.cursor).1) != '/'
  }

  /** A ramp arrives, wherever it stands in the script: once a segment's slope was set to reach x
      in its sample count, the calls before the last one only glide, and the last one computes
      exactly x. That call also reads the next segment, so it outputs x unless a hold follows, in
      which case the hold's number overwrites x. */
  lemma {:induction false} RampArrives(a: Automation, x: real)
    requires Valid(a) && a.t > 0 && a.delta == (x - a.value) / a.t as real
    ensures Run(a, a.t - 1) == Success((Ahead(a, a.t - 1), Trail(a, a.t - 1)))
    ensures Ahead(a, a.t - 1).value + a.delta == x
    ensures var last := Process(Ahead(a, a.t - 1));
      && (!HoldNext(a) && last.Success? ==> last.value.1 == x)
      && (HoldNext(a) ==> last.Success? && last.value.1 == ParseNumber(a.script, a.cursor).0)
  {
    var b := Ahead(a, a.t - 1);
    LastStepLands(a, x);
    Glides(a, a.t - 1);
    assert b.script == a.script && b.cursor == a.cursor;
    assert HoldNext(b) == HoldNext(a);
    LastCall(b, x);
  }

  /** The slope added once more after a.t - 1 calls gives x. */
  lemma {:induction false} LastStepLands(a: Automation, x: real)
    requires a.t > 0 && a.delta == (x - a.value) / a.t as real
    ensures Ahead(a, a.t - 1).value + a.delta == x
  {
    AlongStep(a, a.t - 1);
    ArrivalValue(a.value, x, a.t);
  }

  /** The call that ends a segment whose value has reached x: past the end of the script or
      into a ramp it outputs x; into a hold it outputs the hold's number. */
  lemma {:induction false} LastCall(b: Automation, x: real)
    requires Valid(b) && b.t == 1 && b.value + b.delta == x
    ensures !HoldNext(b) && Process(b).Success? ==> Process(b).value.1 == x
    ensures HoldNext(b) ==> Process(b).Success? && Process(b).value.1 == ParseNumber(b.script, b.cursor).0
  {
    if HoldNext(b) {
      var (y, c) := ParseNumber(b.script, b.cursor);
      HoldSegment(b, y, c);
    }
  }

  /** A ramp that ends the script: the last call puts the value exactly on x, and x is then
      held, with the counter past zero so no further segment is ever read. */
  lemma {:induction false} RampArrivesAtEnd(a: Automation, x: real)
    requires Valid(a) && a.t > 0 && a.delta == (x - a.value) / a.t as real
    requires CharAt(a.script, a.cursor) == Nul
    ensures Run(a, a.t).Success?
    ensures Run(a, a.t).value.0 == a.(value := x, delta := 0.0, t := 0)
    ensures Run(a, a.t).value.1[a.t - 1] == x
  {
    RampRun(a, x);
    assert (Trail(a, a.t - 1) + [x])[a.t - 1] == x;
  }

  lemma {:induction false} RampRun(a: Automation, x: real)
    requires Valid(a) && a.t > 0 && a.delta == (x - a.value) / a.t as real
    requires CharAt(a.script, a.cursor) == Nul
    ensures Run(a, a.t) == Success((a.(value := x, delta := 0.0, t := 0), Trail(a, a.t - 1) + [x]))
  {
    Glides(a, a.t - 1);
    RampEnds(a, x);
    RunLast(a, a.t, Ahead(a, a.t - 1), Trail(a, a.t - 1), a.(value := x, delta := 0.0, t := 0), x);
  }

  /** The last call of such a ramp lands on x and, with nothing left to read, holds it. */
  lemma {:induction false} RampEnds(a: Automation, x: real)
    requires Valid(a) && a.t > 0 && a.delta == (x - a.value) / a.t as real
    requires CharAt(a.script, a.cursor) == Nul
    ensures Process(Ahead(a, a.t - 1)) == Success((a.(value := x, delta := 0.0, t := 0), x))
  {
    var n := a.t;
    var b := Ahead(a, n - 1);
    assert b.value + b.delta == x by {
      AlongStep(a, n - 1);
      ArrivalValue(a.value, x, n);
    }
    assert b.(value := x, delta := 0.0, t := 0) == a.(value := x, delta := 0.0, t := 0);
  }

  /** n slopes of (x - v) / n lead from v to x. */
  lemma {:induction false} ArrivalValue(v: real, x: real, n: nat)
    requires n > 0
    ensures v + n as real * ((x - v) / n as real) == x
  {
  }

  /** After the script is used up the value never changes again. */
  lemma {:induction false} ExhaustedHolds(a: Automation, n: nat)
    requires Valid(a) && a.t <= 0 && a.delta == 0.0
    ensures Run(a, n).Success? && Run(a, n).value.0 == a.(t := a.t - n)
    ensures forall j :: 0 <= j < n ==> Run(a, n).value.1[j] == a.value
  {
    Glides(a, n);
    TrailValues(a, n);
    assert Ahead(a, n) == a.(t := a.t - n);
  }

  /** Reset forgets everything the automation has done: afterwards it replays its script from
      the start, exactly as a fresh one would. */
  lemma {:induction false} ResetReplays(a: Automation, n: nat)
    ensures Run(Reset(a), n) == Run(New(a.script), n)
  {
  }

  // ---- Two scripts from the examples ----

  const KickPitch: string := "130 45/.1"

  /** What reading the kick's pitch script finds: the hold 130, then the ramp 45/.1 ending the
      script. */
  predicate ReadsAsKick(s: string) {
    && |s| == 9
    && ParseNumber(s, 0) == (130.0, 3) && SkipSpace(s, 3) == 4
    && ParseNumber(s, 4) == (45.0, 6) && CharAt(s, 6) == '/'
    && ParseNumber(s, 7) == (0.1, 9) && SkipSpace(s, 9) == 9
  }

  /** The kick's pitch "130 45/.1", or any script that reads like it: 130 on the first two calls,
      then a 4410-sample (0.1 s) ramp whose last sample is exactly 45, held from then on. */
  lemma {:induction false} KickPitchScript(s: string)
    requires ReadsAsKick(s)
    ensures Run(New(s), 2) == Success((KickRamp(s), [130.0, 130.0]))
    ensures Run(KickRamp(s), 4410).Success?
    ensures Run(KickRamp(s), 4410).value.0 == KickRamp(s).(value := 45.0, delta := 0.0, t := 0)
    ensures Run(KickRamp(s), 4410).value.1[4409] == 45.0
  {
    var a1 := Automation(s, 4, 130.0, 0.0, 1);
    assert Run(New(s), 1) == Success((a1, [130.0])) by {
      HoldSegment(New(s), 130.0, 3);
      RunLast(New(s), 1, New(s), [], a1, 130.0);
      assert [] + [130.0] == [130.0];
    }
    assert Process(a1) == Success((KickRamp(s), 130.0)) by {
      assert Truncate(0.1 / DT) == 4410;
      RampSegment(a1, 45.0, 6, 0.1, 9);
    }
    RunLast(New(s), 2, a1, [130.0], KickRamp(s), 130.0);
    assert [130.0] + [130.0] == [130.0, 130.0];
    RampArrivesAtEnd(KickRamp(s), 45.0);
  }

  /** The state once the ramp has been read. */
  function KickRamp(s: string): Automation {
    Automation(s, 9, 130.0, (45.0 - 130.0) / 4410.0, 4410)
  }

  /** The kick's script does read that way. */
  lemma {:induction false} KickPitchReads()
    ensures ReadsAsKick(KickPitch)
  {
    KickReads(KickPitch);
  }

  /** Any script spelled like the kick's reads like it. */
  lemma {:induction false} KickReads(s: string)
    requires |s| == 9
    requires s[0] == '1' && s[1] == '3' && s[2] == '0' && s[3] == ' ' && s[4] == '4'
    requires s[5] == '5' && s[6] == '/' && s[7] == '.' && s[8] == '1'
    ensures ReadsAsKick(s)
  {
    KickHold(s);
    KickTarget(s);
    KickTime(s);
  }

  lemma {:induction false} KickHold(s: string)
    requires |s| > 4 && s[0] == '1' && s[1] == '3' && s[2] == '0' && s[3] == ' ' && s[4] == '4'
    ensures ParseNumber(s, 0) == (130.0, 3) && SkipSpace(s, 3) == 4
  {
    KickDigits();
    assert Numeral(false, "130", false, "") == "130";
    assert s[0..3] == [s[0], s[1], s[2]];
    assert CharAt(s, 3) == ' ' && CharAt(s, 4) == '4';
    ParseNumberReadsNumeral(s, 0, false, "130", false, "");
  }

  lemma {:induction false} KickTarget(s: string)
    requires |s| > 6 && s[4] == '4' && s[5] == '5' && s[6] == '/'
    ensures ParseNumber(s, 4) == (45.0, 6) && CharAt(s, 6) == '/'
  {
    KickDigits();
    assert Numeral(false, "45", false, "") == "45";
    assert s[4..6] == [s[4], s[5]];
    ParseNumberReadsNumeral(s, 4, false, "45", false, "");
  }

  lemma {:induction false} KickTime(s: string)
    requires |s| == 9 && s[7] == '.' && s[8] == '1'
    ensures ParseNumber(s, 7) == (0.1, 9) && SkipSpace(s, 9) == 9
  {
    KickDigits();
    assert Numeral(false, "", true, "1") == ".1";
    assert s[7..9] == [s[7], s[8]];
    ParseNumberReadsNumeral(s, 7, false, "", true, "1");
  }

  /** The values of the kick's digit strings. */
  lemma {:induction false} KickDigits()
    ensures AllDigits("130") && IntValue("130") == 130.0
    ensures AllDigits("45") && IntValue("45") == 45.0
    ensures AllDigits("1") && FracValue("1") == 0.1
  {
    assert "" + ['1'] == "1" && "1" + ['3'] == "13" && "13" + ['0'] == "130";
    IntSnoc("", '1');
    IntSnoc("1", '3');
    IntSnoc("13", '0');
    assert "" + ['4'] == "4" && "4" + ['5'] == "45";
    IntSnoc("", '4');
    IntSnoc("4", '5');
    FracSnoc("", '1');
  }

  const SnareEnvelope: string := "0 1.3/.0002 .15/.05 0/.05"

  /** What reading the snare's first three segments finds: the hold 0, the ramp 1.3/.0002 and
      the ramp .15/.05, each with the position after it. */
  predicate ReadsAsSnare(s: string) {
    && |s| >= 20
    && ParseNumber(s, 0) == (0.0, 1) && SkipSpace(s, 1) == 2
    && ParseNumber(s, 2) == (1.3, 5) && CharAt(s, 5) == '/'
    && ParseNumber(s, 6) == (0.0002, 11) && SkipSpace(s, 11) == 12
    && ParseNumber(s, 12) == (0.15, 15) && CharAt(s, 15) == '/'
    && ParseNumber(s, 16) == (0.05, 19) && SkipSpace(s, 19) == 20
  }

  /** The snare head's envelope "0 1.3/.0002 .15/.05 0/.05", or any script that reads like it:
      the value is 0 for two calls, then the attack ramp of 0.2 ms truncates to 8 samples, and its
      eighth sample is exactly the peak 1.3, on the call that reads the 2205-sample (50 ms) ramp
      down to .15. */
  lemma {:induction false} SnareEnvelopeScript(s: string)
    requires ReadsAsSnare(s)
    ensures Run(New(s), 2) == Success((SnareAttack(s), [0.0, 0.0]))
    ensures Run(SnareAttack(s), 8).Success? && Run(SnareAttack(s), 8).value.0 == SnareDecay(s)
    ensures forall j :: 0 <= j < 8 ==> Run(SnareAttack(s), 8).value.1[j] == (j + 1) as real * (1.3 / 8.0)
  {
    var a := SnareAttack(s);
    SnareOpening(s);
    Glides(a, 7);
    SnarePeak(s);
    RunLast(a, 8, Ahead(a, 7), Trail(a, 7), SnareDecay(s), 1.3);
    TrailValues(a, 7);
    assert Run(a, 8).value.1 == Trail(a, 7) + [1.3];
  }

  /** The state once the 8-sample attack ramp has been read. */
  function SnareAttack(s: string): Automation {
    Automation(s, 12, 0.0, 1.3 / 8.0, 8)
  }

  /** The state once the attack has peaked and the ramp down to .15 has been read. */
  function SnareDecay(s: string): Automation {
    Automation(s, 20, 1.3, (0.15 - 1.3) / 2205.0, 2205)
  }

  lemma {:induction false} SnareOpening(s: string)
    requires ReadsAsSnare(s)
    ensures Run(New(s), 2) == Success((SnareAttack(s), [0.0, 0.0]))
  {
    var a1 := Automation(s, 2, 0.0, 0.0, 1);
    assert Run(New(s), 1) == Success((a1, [0.0])) by {
      HoldSegment(New(s), 0.0, 1);
      RunLast(New(s), 1, New(s), [], a1, 0.0);
      assert [] + [0.0] == [0.0];
    }
    assert Process(a1) == Success((SnareAttack(s), 0.0)) by {
      assert Truncate(0.0002 / DT) == 8;
      RampSegment(a1, 1.3, 5, 0.0002, 11);
    }
    RunLast(New(s), 2, a1, [0.0], SnareAttack(s), 0.0);
    assert [0.0] + [0.0] == [0.0, 0.0];
  }

  lemma {:induction false} SnarePeak(s: string)
    requires ReadsAsSnare(s)
    ensures Process(Ahead(SnareAttack(s), 7)) == Success((SnareDecay(s), 1.3))
  {
    var b := Ahead(SnareAttack(s), 7);
    assert Truncate(0.05 / DT) == 2205;
    assert b == Automation(s, 12, 7.0 * (1.3 / 8.0), 1.3 / 8.0, 1);
    RampSegment(b, 0.15, 15, 0.05, 19);
  }

  /** The snare's script does read that way. */
  lemma {:induction false} SnareEnvelopeReads()
    ensures ReadsAsSnare(SnareEnvelope)
  {
    SnareReads(SnareEnvelope);
  }

  /** Any script spelled like the snare's up to its third segment reads like it. */
  lemma {:induction false} SnareReads(s: string)
    requires |s| > 20
    requires s[0] == '0' && s[1] == ' ' && s[2] == '1' && s[3] == '.' && s[4] == '3' && s[5] == '/'
    requires s[6] == '.' && s[7] == '0' && s[8] == '0' && s[9] == '0' && s[10] == '2' && s[11] == ' '
    requires s[12] == '.' && s[13] == '1' && s[14] == '5' && s[15] == '/'
    requires s[16] == '.' && s[17] == '0' && s[18] == '5' && s[19] == ' ' && s[20] == '0'
    ensures ReadsAsSnare(s)
  {
    SnareHold(s);
    SnarePeakLevel(s);
    SnareAttackTime(s);
    SnareDecayLevel(s);
    SnareDecayTime(s);
  }

  lemma {:induction false} SnareHold(s: string)
    requires |s| > 2 && s[0] == '0' && s[1] == ' ' && s[2] == '1'
    ensures ParseNumber(s, 0) == (0.0, 1) && SkipSpace(s, 1) == 2
  {
    SnareDigits();
    assert Numeral(false, "0", false, "") == "0";
    assert s[0..1] == [s[0]];
    assert CharAt(s, 1) == ' ' && CharAt(s, 2) == '1';
    ParseNumberReadsNumeral(s, 0, false, "0", false, "");
  }

  lemma {:induction false} SnarePeakLevel(s: string)
    requires |s| > 5 && s[2] == '1' && s[3] == '.' && s[4] == '3' && s[5] == '/'
    ensures ParseNumber(s, 2) == (1.3, 5) && CharAt(s, 5) == '/'
  {
    SnareDigits();
    assert Numeral(false, "1", true, "3") == "1.3";
    assert s[2..5] == [s[2], s[3], s[4]];
    ParseNumberReadsNumeral(s, 2, false, "1", true, "3");
  }

  lemma {:induction false} SnareAttackTime(s: string)
    requires |s| > 12 && s[6] == '.' && s[7] == '0' && s[8] == '0' && s[9] == '0' && s[10] == '2'
    requires s[11] == ' ' && s[12] == '.'
    ensures ParseNumber(s, 6) == (0.0002, 11) && SkipSpace(s, 11) == 12
  {
    SnareAttackDigits();
    assert Numeral(false, "", true, "0002") == ".0002";
    assert s[6..11] == [s[6], s[7], s[8], s[9], s[10]];
    assert CharAt(s, 11) == ' ' && CharAt(s, 12) == '.';
    ParseNumberReadsNumeral(s, 6, false, "", true, "0002");
  }

  lemma {:induction false} SnareDecayLevel(s: string)
    requires |s| > 15 && s[12] == '.' && s[13] == '1' && s[14] == '5' && s[15] == '/'
    ensures ParseNumber(s, 12) == (0.15, 15) && CharAt(s, 15) == '/'
  {
    SnareDecayDigits();
    assert Numeral(false, "", true, "15") == ".15";
    assert s[12..15] == [s[12], s[13], s[14]];
    ParseNumberReadsNumeral(s, 12, false, "", true, "15");
  }

  lemma {:induction false} SnareDecayTime(s: string)
    requires |s| > 20 && s[16] == '.' && s[17] == '0' && s[18] == '5' && s[19] == ' ' && s[20] == '0'
    ensures ParseNumber(s, 16) == (0.05, 19) && SkipSpace(s, 19) == 20
  {
    SnareTimeDigits();
    assert Numeral(false, "", true, "05") == ".05";
    assert s[16..19] == [s[16], s[17], s[18]];
    assert CharAt(s, 19) == ' ' && CharAt(s, 20) == '0';
    ParseNumberReadsNumeral(s, 16, false, "", true, "05");
  }

  /** The values of the snare's hold and peak level. */
  lemma {:induction false} SnareDigits()
    ensures AllDigits("0") && IntValue("0") == 0.0
    ensures AllDigits("1") && AllDigits("3") && IntValue("1") + FracValue("3") == 1.3
  {
    assert "" + ['0'] == "0" && "" + ['1'] == "1" && "" + ['3'] == "3";
    IntSnoc("", '0');
    IntSnoc("", '1');
    FracSnoc("", '3');
  }

  /** The value of the snare's decay level, two places after the point. */
  lemma {:induction false} SnareDecayDigits()
    ensures AllDigits("15") && FracValue("15") == 0.15
  {
    assert "" + ['1'] == "1" && "1" + ['5'] == "15";
    FracSnoc("", '1');
    FracSnoc("1", '5');
  }

  /** The value of the snare's decay time, two places after the point. */
  lemma {:induction false} SnareTimeDigits()
    ensures AllDigits("05") && FracValue("05") == 0.05
  {
    assert "" + ['0'] == "0" && "0" + ['5'] == "05";
    FracSnoc("", '0');
    FracSnoc("0", '5');
  }

  /** The value of the snare's attack time, four places after the point. */
  lemma {:induction false} SnareAttackDigits()
    ensures AllDigits("0002") && FracValue("0002") == 0.0002
  {
    assert "" + ['0'] == "0" && "0" + ['0'] == "00" && "00" + ['0'] == "000" && "000" + ['2'] == "0002";
    FracSnoc("", '0');
    FracSnoc("0", '0');
    FracSnoc("00", '0');
    FracSnoc("000", '2');
    assert Tenth(4) == 0.0001;
  }
}
