/** The colour mapping of the feature-map heatmap in VisualizationPanel:
    min-max normalisation of a flat feature array and the 4-segment
    purple -> blue -> teal -> green -> yellow ramp. Values are exact reals. */
module Heatmap {
  import opened Numeric

  datatype Rgb = Rgb(r: int, g: int, b: int)

  predicate InByteRange(c: Rgb) {
    0 <= c.r <= 255 && 0 <= c.g <= 255 && 0 <= c.b <= 255
  }

  /** `Math.max(...data)` over a non-empty array. */
  function SeqMax(s: seq<real>): (m: real)
    requires |s| > 0
    ensures m in s
    ensures forall k :: 0 <= k < |s| ==> s[k] <= m
  {
    if |s| == 1 then s[0]
    else
      var rest := SeqMax(s[1..]);
      assert forall k :: 1 <= k < |s| ==> s[k] == s[1..][k - 1];
      if s[0] >= rest then s[0] else rest
  }

  /** `Math.min(...data)` over a non-empty array. */
  function SeqMin(s: seq<real>): (m: real)
    requires |s| > 0
    ensures m in s
    ensures forall k :: 0 <= k < |s| ==> m <= s[k]
  {
    if |s| == 1 then s[0]
    else
      var rest := SeqMin(s[1..]);
      assert forall k :: 1 <= k < |s| ==> s[k] == s[1..][k - 1];
      if s[0] <= rest then s[0] else rest
  }

  /** `range === 0 ? 0.5 : (value - minVal) / range`. The source does not clamp. */
  function Normalize(v: real, lo: real, hi: real): (n: real)
    ensures lo <= v <= hi ==> 0.0 <= n <= 1.0
    ensures hi == lo ==> n == 0.5
    ensures lo < hi ==> (n == 0.0 <==> v == lo) && (n == 1.0 <==> v == hi)
  {
    var range := hi - lo;
    if range == 0.0 then 0.5 else (v - lo) / range
  }

  /** One channel of `Math.round(from * (1 - t) + to * t)`, before rounding. */
  function Lerp(from: int, to: int, t: real): real {
    from as real * (1.0 - t) + to as real * t
  }

  /** The per-channel interpolation every ramp segment performs; a segment
      starts at its first anchor (t = 0) and ends at its second (t = 1). */
  function Blend(from: Rgb, to: Rgb, t: real): (c: Rgb)
    ensures t == 0.0 ==> c == from
    ensures t == 1.0 ==> c == to
  {
    Rgb(Round(Lerp(from.r, to.r, t)), Round(Lerp(from.g, to.g, t)), Round(Lerp(from.b, to.b, t)))
  }

  const Purple := Rgb(73, 3, 119)
  const Blue := Rgb(43, 119, 191)
  const Teal := Rgb(33, 170, 155)
  const Green := Rgb(130, 188, 97)
  const Yellow := Rgb(253, 231, 37)

  /** The viridis-like ramp: breakpoints 0.25, 0.5 and 0.75, each segment a blend
      of its two anchor colours with `t` rescaled to [0, 1]. */
  function RampColor(n: real): (c: Rgb)
    ensures n == 0.0 ==> c == Purple
    ensures n == 0.25 ==> c == Blue
    ensures n == 0.5 ==> c == Teal
    ensures n == 0.75 ==> c == Green
    ensures n == 1.0 ==> c == Yellow
  {
    if n < 0.25 then Blend(Purple, Blue, n / 0.25)
    else if n < 0.5 then Blend(Blue, Teal, (n - 0.25) / 0.25)
    else if n < 0.75 then Blend(Teal, Green, (n - 0.5) / 0.25)
    else Blend(Green, Yellow, (n - 0.75) / 0.25)
  }

  /** The colour of element `i` of a feature array. */
  function CellColor(data: seq<real>, i: nat): Rgb
    requires i < |data|
  {
    RampColor(Normalize(data[i], SeqMin(data), SeqMax(data)))
  }

  /** An interpolated channel stays between its two end values. */
  lemma LerpBetween(from: int, to: int, t: real)
    requires 0.0 <= t <= 1.0
    ensures from <= to ==> from as real <= Lerp(from, to, t) <= to as real
    ensures to <= from ==> to as real <= Lerp(from, to, t) <= from as real
  {
    var d := (to - from) as real;
    assert Lerp(from, to, t) == from as real + d * t;
    if from <= to {
      assert 0.0 <= d * t <= d;
    } else {
      assert d <= d * t <= 0.0;
    }
  }

  lemma RoundInByteRange(x: real)
    requires 0.0 <= x <= 255.0
    ensures 0 <= Round(x) <= 255
  {
    RoundMonotone(0.0, x);
    RoundMonotone(x, 255.0);
    RoundOfInteger(0);
    RoundOfInteger(255);
  }

  lemma BlendInRange(from: Rgb, to: Rgb, t: real)
    requires InByteRange(from) && InByteRange(to) && 0.0 <= t <= 1.0
    ensures InByteRange(Blend(from, to, t))
  {
    LerpBetween(from.r, to.r, t);
    LerpBetween(from.g, to.g, t);
    LerpBetween(from.b, to.b, t);
    RoundInByteRange(Lerp(from.r, to.r, t));
    RoundInByteRange(Lerp(from.g, to.g, t));
    RoundInByteRange(Lerp(from.b, to.b, t));
  }

  /** Every normalised value in [0, 1] maps to a valid 8-bit colour. */
  lemma RampInRange(n: real)
    requires 0.0 <= n <= 1.0
    ensures InByteRange(RampColor(n))
  {
    if n < 0.25 {
      BlendInRange(Purple, Blue, n / 0.25);
    } else if n < 0.5 {
      BlendInRange(Blue, Teal, (n - 0.25) / 0.25);
    } else if n < 0.75 {
      BlendInRange(Teal, Green, (n - 0.5) / 0.25);
    } else {
      BlendInRange(Green, Yellow, (n - 0.75) / 0.25);
    }
  }

  /** The ramp starts purple, ends yellow, and each segment ends on the colour
      the next one starts from, so no breakpoint has a jump. */
  lemma RampEndpointsAndJoins()
    ensures RampColor(0.0) == Purple && RampColor(1.0) == Yellow
    ensures Blend(Purple, Blue, 1.0) == RampColor(0.25) == Blue
    ensures Blend(Blue, Teal, 1.0) == RampColor(0.5) == Teal
    ensures Blend(Teal, Green, 1.0) == RampColor(0.75) == Green
  {
  }

  /** Each element normalises into [0, 1], so its colour is a valid 8-bit colour. */
  lemma CellColorInRange(data: seq<real>, i: nat)
    requires i < |data|
    ensures InByteRange(CellColor(data, i))
  {
    RampInRange(Normalize(data[i], SeqMin(data), SeqMax(data)));
  }

  /** A constant array (range 0) renders every element in teal, the start of
      the teal -> green segment. */
  lemma ConstantDataIsTeal(data: seq<real>, i: nat)
    requires i < |data|
    requires forall k :: 0 <= k < |data| ==> data[k] == data[0]
    ensures CellColor(data, i) == Teal
  {
    assert SeqMin(data) == SeqMax(data);
    RampEndpointsAndJoins();
  }

  /** When the array is not constant, its minimum renders purple ... */
  lemma MinimumIsPurple(data: seq<real>, i: nat)
    requires i < |data| && data[i] == SeqMin(data) && SeqMin(data) < SeqMax(data)
    ensures CellColor(data, i) == Purple
  {
    RampEndpointsAndJoins();
  }

  /** ... and its maximum renders yellow. */
  lemma MaximumIsYellow(data: seq<real>, i: nat)
    requires i < |data| && data[i] == SeqMax(data) && SeqMin(data) < SeqMax(data)
    ensures CellColor(data, i) == Yellow
  {
    RampEndpointsAndJoins();
  }
}
