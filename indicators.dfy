/** The indicator computation of `calculate_indicators`: EMA12/EMA26 with the
    `adjust=False` recursion, MACD, its 9-span Signal line, and a 14-row RSI built
    from simple rolling means of gains and losses. Everything is over `real`;
    the values pandas leaves as NaN are `None`. */
module Indicators {
  import opened Options

  /** One daily bar as delivered by the market-data source. */
  datatype Bar = Bar(close: real, volume: nat)

  /** One row of the frame `calculate_indicators` returns. */
  datatype Row = Row(close: real, volume: nat, macd: real, signal: real, rsi: Option<real>)

  const FastSpan: nat := 12
  const SlowSpan: nat := 26
  const SignalSpan: nat := 9
  const RsiWindow: nat := 14

  // ---------------------------------------------------------------------------
  // Exponential moving average, `ewm(span, adjust=False).mean()`

  /** The smoothing factor of a span: 2 / (span + 1). */
  function Alpha(span: nat): (a: real)
    requires span >= 1
    ensures 0.0 < a <= 1.0
  {
    2.0 / (span as real + 1.0)
  }

  /** The EMA value at index `i`: seeded with the first value, then
      alpha * x[i] + (1 - alpha) * ema[i - 1]. */
  function EmaAt(xs: seq<real>, alpha: real, i: nat): real
    requires i < |xs|
  {
    if i == 0 then xs[0] else alpha * xs[i] + (1.0 - alpha) * EmaAt(xs, alpha, i - 1)
  }

  /** The EMA series of `xs` for a span, aligned index-for-index with `xs`. */
  function Ema(xs: seq<real>, span: nat): (r: seq<real>)
    requires span >= 1
    ensures |r| == |xs|
    ensures |xs| > 0 ==> r[0] == xs[0]
    ensures forall i :: 1 <= i < |xs| ==> r[i] == Alpha(span) * xs[i] + (1.0 - Alpha(span)) * r[i - 1]
  {
    seq(|xs|, i requires 0 <= i < |xs| => EmaAt(xs, Alpha(span), i))
  }

  /** Smallest element of a non-empty sequence. */
  function SeqMin(s: seq<real>): (m: real)
    requires |s| > 0
    ensures forall j :: 0 <= j < |s| ==> m <= s[j]
    ensures exists j :: 0 <= j < |s| && m == s[j]
  {
    if |s| == 1 then s[0]
    else
      var rest := SeqMin(s[1..]);
      if s[0] <= rest then s[0] else rest
  }

  /** Largest element of a non-empty sequence. */
  function SeqMax(s: seq<real>): (m: real)
    requires |s| > 0
    ensures forall j :: 0 <= j < |s| ==> s[j] <= m
    ensures exists j :: 0 <= j < |s| && m == s[j]
  {
    if |s| == 1 then s[0]
    else
      var rest := SeqMax(s[1..]);
      if s[0] >= rest then s[0] else rest
  }

  /** A convex combination of two values in [lo, hi] stays in [lo, hi]. */
  lemma ConvexStep(a: real, x: real, e: real, lo: real, hi: real)
    requires 0.0 < a <= 1.0
    requires lo <= x <= hi && lo <= e <= hi
    ensures lo <= a * x + (1.0 - a) * e <= hi
  {
    ProductNonNegative(a, x - lo);
    ProductNonNegative(1.0 - a, e - lo);
    ProductNonNegative(a, hi - x);
    ProductNonNegative(1.0 - a, hi - e);
  }

  lemma ProductNonNegative(a: real, b: real)
    requires a >= 0.0 && b >= 0.0
    ensures a * b >= 0.0
  {
  }

  /** Every EMA value lies within any bounds of the prefix it was computed from. */
  lemma {:induction false} EmaAtBounded(xs: seq<real>, alpha: real, i: nat, lo: real, hi: real)
    requires 0.0 < alpha <= 1.0
    requires i < |xs|
    requires forall j :: 0 <= j <= i ==> lo <= xs[j] <= hi
    ensures lo <= EmaAt(xs, alpha, i) <= hi
  {
    if i > 0 {
      EmaAtBounded(xs, alpha, i - 1, lo, hi);
      ConvexStep(alpha, xs[i], EmaAt(xs, alpha, i - 1), lo, hi);
    }
  }

  /** Every EMA value lies between the minimum and the maximum of the prefix
      `xs[..i+1]`. */
  lemma EmaWithinPrefixRange(xs: seq<real>, span: nat, i: nat)
    requires span >= 1
    requires i < |xs|
    ensures SeqMin(xs[..i + 1]) <= Ema(xs, span)[i] <= SeqMax(xs[..i + 1])
  {
    var p := xs[..i + 1];
    forall j | 0 <= j <= i
      ensures SeqMin(p) <= xs[j] <= SeqMax(p)
    {
      assert p[j] == xs[j];
    }
    EmaAtBounded(xs, Alpha(span), i, SeqMin(p), SeqMax(p));
  }

  /** A constant series has a constant EMA equal to that constant. */
  lemma {:induction false} EmaAtOfConstant(xs: seq<real>, alpha: real, c: real, i: nat)
    requires i < |xs|
    requires forall j :: 0 <= j <= i ==> xs[j] == c
    ensures EmaAt(xs, alpha, i) == c
  {
    if i > 0 {
      EmaAtOfConstant(xs, alpha, c, i - 1);
      calc {
        EmaAt(xs, alpha, i);
        alpha * c + (1.0 - alpha) * c;
        c;
      }
    }
  }

  lemma EmaOfConstant(xs: seq<real>, span: nat, c: real)
    requires span >= 1
    requires forall j :: 0 <= j < |xs| ==> xs[j] == c
    ensures forall i :: 0 <= i < |xs| ==> Ema(xs, span)[i] == c
  {
    forall i | 0 <= i < |xs|
      ensures Ema(xs, span)[i] == c
    {
      EmaAtOfConstant(xs, Alpha(span), c, i);
    }
  }

  /** The EMA is causal: its value at `i` depends only on `xs[..i+1]`. */
  lemma {:induction false} EmaAtPrefix(xs: seq<real>, alpha: real, k: nat, i: nat)
    requires i < k <= |xs|
    ensures EmaAt(xs[..k], alpha, i) == EmaAt(xs, alpha, i)
  {
    if i > 0 {
      EmaAtPrefix(xs, alpha, k, i - 1);
    }
  }

  // ---------------------------------------------------------------------------
  // MACD and Signal

  /** The MACD column: EMA12 - EMA26, pointwise. */
  function Macd(closes: seq<real>): (m: seq<real>)
    ensures |m| == |closes|
    ensures |closes| > 0 ==> m[0] == 0.0
  {
    var fast, slow := Ema(closes, FastSpan), Ema(closes, SlowSpan);
    seq(|closes|, i requires 0 <= i < |closes| => fast[i] - slow[i])
  }

  /** The Signal column: the span-9 EMA of the MACD column. */
  function Signal(closes: seq<real>): (s: seq<real>)
    ensures |s| == |closes|
    ensures |closes| > 0 ==> s[0] == 0.0
  {
    Ema(Macd(closes), SignalSpan)
  }

  /** On the first row both EMAs are seeded with the first close, so MACD and
      Signal are both zero there. */
  lemma FirstRowMacdSignalZero(closes: seq<real>)
    requires |closes| > 0
    ensures Macd(closes)[0] == 0.0 && Signal(closes)[0] == 0.0
  {
    assert Ema(closes, FastSpan)[0] == closes[0];
    assert Ema(closes, SlowSpan)[0] == closes[0];
    assert Signal(closes)[0] == Macd(closes)[0];
  }

  /** A constant price series gives zero MACD and zero Signal on every row. */
  lemma ConstantPriceFlatMacd(closes: seq<real>, c: real)
    requires forall j :: 0 <= j < |closes| ==> closes[j] == c
    ensures forall i :: 0 <= i < |closes| ==> Macd(closes)[i] == 0.0 && Signal(closes)[i] == 0.0
  {
    EmaOfConstant(closes, FastSpan, c);
    EmaOfConstant(closes, SlowSpan, c);
    EmaOfConstant(Macd(closes), SignalSpan, 0.0);
  }

  /** The Signal line is bounded by the smallest and largest MACD value seen so far. */
  lemma SignalWithinMacdRange(closes: seq<real>, i: nat)
    requires i < |closes|
    ensures SeqMin(Macd(closes)[..i + 1]) <= Signal(closes)[i] <= SeqMax(Macd(closes)[..i + 1])
  {
    EmaWithinPrefixRange(Macd(closes), SignalSpan, i);
  }

  // ---------------------------------------------------------------------------
  // Delta, gain and loss

  /** `close.diff()`: undefined (NaN) on the first row. */
  function Delta(closes: seq<real>, i: nat): (d: Option<real>)
    requires i < |closes|
    ensures d.Some? <==> i > 0
  {
    if i == 0 then None else Some(closes[i] - closes[i - 1])
  }

  /** `delta.where(delta > 0, 0.0)`: a NaN delta fails the test and becomes 0. */
  function Gain(closes: seq<real>, i: nat): (g: real)
    requires i < |closes|
    ensures g >= 0.0
    ensures g > 0.0 <==> i > 0 && closes[i] > closes[i - 1]
  {
    match Delta(closes, i)
    case Some(d) => if d > 0.0 then d else 0.0
    case None => 0.0
  }

  /** `-delta.where(delta < 0, 0.0)`. */
  function Loss(closes: seq<real>, i: nat): (l: real)
    requires i < |closes|
    ensures l >= 0.0
    ensures l > 0.0 <==> i > 0 && closes[i] < closes[i - 1]
  {
    var kept := match Delta(closes, i)
      case Some(d) => if d < 0.0 then d else 0.0
      case None => 0.0;
    -kept
  }

  /** From index 1 on, gain and loss are non-negative, at most one of them is
      non-zero and their difference is the price change; on index 0 both are 0. */
  lemma GainLossSplitDelta(closes: seq<real>, i: nat)
    requires i < |closes|
    ensures Gain(closes, i) >= 0.0 && Loss(closes, i) >= 0.0
    ensures Gain(closes, i) == 0.0 || Loss(closes, i) == 0.0
    ensures i == 0 ==> Gain(closes, i) == 0.0 && Loss(closes, i) == 0.0
    ensures i > 0 ==> Gain(closes, i) - Loss(closes, i) == closes[i] - closes[i - 1]
  {
  }

  function Gains(closes: seq<real>): (g: seq<real>)
    ensures |g| == |closes|
  {
    seq(|closes|, i requires 0 <= i < |closes| => Gain(closes, i))
  }

  function Losses(closes: seq<real>): (l: seq<real>)
    ensures |l| == |closes|
  {
    seq(|closes|, i requires 0 <= i < |closes| => Loss(closes, i))
  }

  // ---------------------------------------------------------------------------
  // Rolling means, `rolling(window, min_periods=window).mean()`

  /** Sum of a sequence, accumulated from the front. */
  function Sum(s: seq<real>): real
  {
    if |s| == 0 then 0.0 else Sum(s[..|s| - 1]) + s[|s| - 1]
  }

  lemma {:induction false} SumNonNegative(s: seq<real>)
    ensures (forall j :: 0 <= j < |s| ==> s[j] >= 0.0) ==> Sum(s) >= 0.0
  {
    if |s| > 0 {
      SumNonNegative(s[..|s| - 1]);
    }
  }

  lemma {:induction false} SumOfZeros(s: seq<real>)
    ensures (forall j :: 0 <= j < |s| ==> s[j] == 0.0) ==> Sum(s) == 0.0
  {
    if |s| > 0 {
      SumOfZeros(s[..|s| - 1]);
    }
  }

  /** A sum of non-negative values with one positive value is positive. */
  lemma {:induction false} SumPositive(s: seq<real>, k: nat)
    requires k < |s|
    requires forall j :: 0 <= j < |s| ==> s[j] >= 0.0
    requires s[k] > 0.0
    ensures Sum(s) > 0.0
  {
    var n := |s| - 1;
    if k < n {
      SumPositive(s[..n], k);
    } else {
      SumNonNegative(s[..n]);
    }
  }

  /** The mean of the `window` values ending at index `i`; absent until the
      window is full. The series here never hold NaN, so the count of valid
      values is the window length. */
  function RollingMean(xs: seq<real>, window: nat, i: nat): (r: Option<real>)
    requires window >= 1 && i < |xs|
    ensures r.Some? <==> i + 1 >= window
    ensures r.Some? && (forall j :: 0 <= j < |xs| ==> xs[j] >= 0.0) ==> r.value >= 0.0
  {
    if i + 1 < window then None
    else
      SumNonNegative(xs[i + 1 - window..i + 1]);
      Some(Sum(xs[i + 1 - window..i + 1]) / window as real)
  }

  /** The bounds of `Gain` and `Loss`, lifted to the whole gain and loss columns. */
  lemma GainsNonNegative(closes: seq<real>)
    ensures forall j :: 0 <= j < |closes| ==> Gains(closes)[j] >= 0.0 && Losses(closes)[j] >= 0.0
  {
    forall j | 0 <= j < |closes|
      ensures Gains(closes)[j] >= 0.0 && Losses(closes)[j] >= 0.0
    {
      GainLossSplitDelta(closes, j);
    }
  }

  /** `avg_gain`: the 14-row rolling mean of the gain column. */
  function AvgGain(closes: seq<real>, i: nat): (r: Option<real>)
    requires i < |closes|
    ensures r.Some? <==> i + 1 >= RsiWindow
    ensures r.Some? ==> r.value >= 0.0
  {
    GainsNonNegative(closes);
    RollingMean(Gains(closes), RsiWindow, i)
  }

  /** `avg_loss`: the 14-row rolling mean of the loss column. */
  function AvgLoss(closes: seq<real>, i: nat): (r: Option<real>)
    requires i < |closes|
    ensures r.Some? <==> i + 1 >= RsiWindow
    ensures r.Some? ==> r.value >= 0.0
  {
    GainsNonNegative(closes);
    RollingMean(Losses(closes), RsiWindow, i)
  }

  // ---------------------------------------------------------------------------
  // RSI

  /** `rs = avg_gain / avg_loss; rsi = 100 - 100 / (1 + rs)` under IEEE rules:
      a zero loss with a positive gain makes rs infinite and RSI 100; 0/0 is NaN. */
  function RsiFromAverages(avgGain: real, avgLoss: real): (r: Option<real>)
    requires avgGain >= 0.0 && avgLoss >= 0.0
    ensures r.None? <==> avgGain == 0.0 && avgLoss == 0.0
    ensures r.Some? ==> 0.0 <= r.value <= 100.0
    ensures r == Some(100.0) <==> avgLoss == 0.0 && avgGain > 0.0
  {
    if avgLoss > 0.0 then
      RsiClosedForm(avgGain, avgLoss);
      Some(100.0 - 100.0 / (1.0 + avgGain / avgLoss))
    else if avgGain > 0.0 then Some(100.0)
    else None
  }

  /** The three cases of the RSI formula: with losses it equals
      100 * gain / (gain + loss) and lies in [0, 100); without losses but with
      gains it is 100; with neither it is undefined. */
  lemma RsiFormulaCases(avgGain: real, avgLoss: real)
    requires avgGain >= 0.0 && avgLoss >= 0.0
    ensures avgLoss > 0.0 ==>
      RsiFromAverages(avgGain, avgLoss) == Some(100.0 * avgGain / (avgGain + avgLoss))
    ensures avgLoss > 0.0 ==>
      0.0 <= RsiFromAverages(avgGain, avgLoss).value < 100.0
    ensures avgLoss == 0.0 && avgGain > 0.0 ==> RsiFromAverages(avgGain, avgLoss) == Some(100.0)
    ensures avgLoss == 0.0 && avgGain == 0.0 ==> RsiFromAverages(avgGain, avgLoss) == None
  {
    if avgLoss > 0.0 {
      RsiClosedForm(avgGain, avgLoss);
    }
  }

  lemma RsiClosedForm(g: real, l: real)
    requires g >= 0.0 && l > 0.0
    ensures 100.0 - 100.0 / (1.0 + g / l) == 100.0 * g / (g + l)
    ensures 0.0 <= 100.0 * g / (g + l) < 100.0
  {
    var s := g + l;
    assert 1.0 + g / l == s / l by {
      assert (g / l) * l == g;
      assert (1.0 + g / l) * l == s;
      DivIntro(1.0 + g / l, s, l);
    }
    InverseOfQuotient(100.0, s, l);
    assert 100.0 - 100.0 * l / s == 100.0 * g / s by {
      assert (100.0 * l / s) * s == 100.0 * l;
      assert (100.0 - 100.0 * l / s) * s == 100.0 * g;
      DivIntro(100.0 - 100.0 * l / s, 100.0 * g, s);
    }
    assert 100.0 * g / (g + l) < 100.0 by {
      assert 100.0 * g < 100.0 * (g + l);
    }
  }

  lemma DivIntro(x: real, y: real, z: real)
    requires z != 0.0 && x * z == y
    ensures x == y / z
  {
  }

  lemma InverseOfQuotient(c: real, x: real, y: real)
    requires x > 0.0 && y > 0.0
    ensures c / (x / y) == c * y / x
  {
  }

  /** `rsi` at row `i`. */
  function RsiAt(closes: seq<real>, i: nat): (r: Option<real>)
    requires i < |closes|
    ensures i < RsiWindow - 1 ==> r == None
    ensures r.Some? ==> 0.0 <= r.value <= 100.0
  {
    var g := AvgGain(closes, i);
    var l := AvgLoss(closes, i);
    if g.Some? && l.Some? then RsiFromAverages(g.value, l.value) else None
  }

  function Rsi(closes: seq<real>): (r: seq<Option<real>>)
    ensures |r| == |closes|
    ensures forall i :: 0 <= i < RsiWindow - 1 && i < |r| ==> r[i] == None
    ensures forall i :: 0 <= i < |r| && r[i].Some? ==> 0.0 <= r[i].value <= 100.0
  {
    seq(|closes|, i requires 0 <= i < |closes| => RsiAt(closes, i))
  }

  /** A defined RSI (which `RsiAt` keeps in [0, 100]) is 100 exactly when the
      window holds no loss. */
  lemma RsiInRange(closes: seq<real>, i: nat)
    requires i < |closes|
    requires RsiAt(closes, i).Some?
    ensures RsiAt(closes, i).value == 100.0 <==> AvgLoss(closes, i) == Some(0.0)
  {
    RsiFormulaCases(AvgGain(closes, i).value, AvgLoss(closes, i).value);
  }

  /** RSI is absent on rows 0 to 12 and, from row 13 on, absent only when the
      window holds neither a gain nor a loss. */
  lemma RsiDefinedFromRow13(closes: seq<real>, i: nat)
    requires i < |closes|
    ensures i < RsiWindow - 1 ==> RsiAt(closes, i) == None
    ensures i >= RsiWindow - 1 ==>
      (RsiAt(closes, i) == None <==> AvgGain(closes, i) == Some(0.0) && AvgLoss(closes, i) == Some(0.0))
  {
  }
  /** Over a window `a..b` the gains minus the losses telescope to the net
      price change across it (row 0 contributes nothing). */
  lemma WindowNetChange(closes: seq<real>, a: nat, b: nat)
    requires a < b <= |closes|
    ensures Sum(Gains(closes)[a..b]) - Sum(Losses(closes)[a..b])
         == closes[b - 1] - closes[if a == 0 then 0 else a - 1]
  {
    forall i | 0 <= i < |closes|
      ensures Gains(closes)[i] - Losses(closes)[i] == if i == 0 then 0.0 else closes[i] - closes[i - 1]
    {
      NetOfRow(closes, i);
    }
    Telescope(Gains(closes), Losses(closes), closes, a, b);
  }

  /** Two columns whose row-by-row difference is the price change (0 on row 0)
      differ in their window sums by the net change across the window. */
  lemma {:induction false} Telescope(gs: seq<real>, ls: seq<real>, closes: seq<real>, a: nat, b: nat)
    requires |gs| == |ls| == |closes|
    requires forall i :: 0 <= i < |closes| ==> gs[i] - ls[i] == if i == 0 then 0.0 else closes[i] - closes[i - 1]
    requires a < b <= |closes|
    ensures Sum(gs[a..b]) - Sum(ls[a..b]) == closes[b - 1] - closes[if a == 0 then 0 else a - 1]
  {
    SumExtend(gs, a, b - 1);
    SumExtend(ls, a, b - 1);
    if a + 1 < b {
      Telescope(gs, ls, closes, a, b - 1);
    } else {
      assert gs[a..a] == [] && ls[a..a] == [];
      assert gs[a] - ls[a] == if a == 0 then 0.0 else closes[a] - closes[a - 1];
    }
  }

  /** Gain minus loss on one row: the price change, or 0 on row 0. */
  lemma NetOfRow(closes: seq<real>, i: nat)
    requires i < |closes|
    ensures Gains(closes)[i] - Losses(closes)[i] == if i == 0 then 0.0 else closes[i] - closes[i - 1]
  {
    GainLossSplitDelta(closes, i);
  }

  /** Extending a window by one element adds that element to its sum. */
  lemma SumExtend(s: seq<real>, a: nat, b: nat)
    requires a <= b < |s|
    ensures Sum(s[a..b + 1]) == Sum(s[a..b]) + s[b]
  {
    assert s[a..b + 1][..b - a] == s[a..b];
  }

  /** From row 13 on, avg_gain - avg_loss is the net price change over the
      window divided by 14. */
  lemma AverageNetChange(closes: seq<real>, i: nat)
    requires RsiWindow - 1 <= i < |closes|
    ensures AvgGain(closes, i).value - AvgLoss(closes, i).value
         == (closes[i] - closes[if i == RsiWindow - 1 then 0 else i - RsiWindow]) / RsiWindow as real
  {
    WindowNetChange(closes, i + 1 - RsiWindow, i + 1);
  }

  /** A strictly rising series has RSI 100 from row 13 on: the window holds only gains. */
  lemma RsiOfRisingSeries(closes: seq<real>, i: nat)
    requires RsiWindow - 1 <= i < |closes|
    requires forall j :: 0 < j <= i ==> closes[j - 1] < closes[j]
    ensures RsiAt(closes, i) == Some(100.0)
  {
    var a := i + 1 - RsiWindow;
    var g, l := Gains(closes)[a..i + 1], Losses(closes)[a..i + 1];
    forall j | 0 <= j < |l| ensures l[j] == 0.0 && g[j] >= 0.0 { GainLossSplitDelta(closes, a + j); }
    GainLossSplitDelta(closes, i);
    SumPositive(g, |g| - 1);
    SumOfZeros(l);
  }

  /** A strictly falling series has RSI 0 from row 13 on: the window holds only losses. */
  lemma RsiOfFallingSeries(closes: seq<real>, i: nat)
    requires RsiWindow - 1 <= i < |closes|
    requires forall j :: 0 < j <= i ==> closes[j - 1] > closes[j]
    ensures RsiAt(closes, i) == Some(0.0)
  {
    var a := i + 1 - RsiWindow;
    var g, l := Gains(closes)[a..i + 1], Losses(closes)[a..i + 1];
    forall j | 0 <= j < |g| ensures g[j] == 0.0 && l[j] >= 0.0 { GainLossSplitDelta(closes, a + j); }
    GainLossSplitDelta(closes, i);
    SumPositive(l, |l| - 1);
    SumOfZeros(g);
    RsiFormulaCases(0.0, AvgLoss(closes, i).value);
  }

  /** A flat series has neither gains nor losses, so `rs` is 0/0 and RSI is NaN
      on every row. */
  lemma RsiOfFlatSeries(closes: seq<real>, c: real, i: nat)
    requires i < |closes|
    requires forall j :: 0 <= j <= i ==> closes[j] == c
    ensures RsiAt(closes, i) == None
  {
    if i >= RsiWindow - 1 {
      var a := i + 1 - RsiWindow;
      var g, l := Gains(closes)[a..i + 1], Losses(closes)[a..i + 1];
      forall j | 0 <= j < |g| ensures g[j] == 0.0 && l[j] == 0.0 { GainLossSplitDelta(closes, a + j); }
      SumOfZeros(g);
      SumOfZeros(l);
    }
  }

  // ---------------------------------------------------------------------------
  // The frame returned by `calculate_indicators`

  function Closes(bars: seq<Bar>): (c: seq<real>)
    ensures |c| == |bars|
  {
    seq(|bars|, i requires 0 <= i < |bars| => bars[i].close)
  }

  function Volumes(f: seq<Row>): (v: seq<real>)
    ensures |v| == |f|
  {
    seq(|f|, i requires 0 <= i < |f| => f[i].volume as real)
  }

  /** The input's Close and Volume columns with MACD, Signal and RSI appended;
      one row per input bar, aligned index-for-index. */
  function CalculateIndicators(bars: seq<Bar>): (f: seq<Row>)
    ensures |f| == |bars|
    ensures forall i :: 0 <= i < |bars| ==>
      f[i].close == bars[i].close && f[i].volume == bars[i].volume
  {
    var c := Closes(bars);
    var m, sg, r := Macd(c), Signal(c), Rsi(c);
    seq(|bars|, i requires 0 <= i < |bars| => Row(bars[i].close, bars[i].volume, m[i], sg[i], r[i]))
  }

  /** The appended columns: MACD = EMA12 - EMA26, Signal = EMA9 of MACD, and
      the RSI of the closes, each at the same index as its bar. */
  lemma IndicatorColumns(bars: seq<Bar>, i: nat)
    requires i < |bars|
    ensures CalculateIndicators(bars)[i].macd
         == Ema(Closes(bars), FastSpan)[i] - Ema(Closes(bars), SlowSpan)[i]
    ensures CalculateIndicators(bars)[i].signal == Ema(Macd(Closes(bars)), SignalSpan)[i]
    ensures CalculateIndicators(bars)[i].rsi == RsiAt(Closes(bars), i)
  {
  }

  /** The first row of a computed frame has MACD == Signal == 0. */
  lemma FirstRowFlat(bars: seq<Bar>)
    requires |bars| > 0
    ensures CalculateIndicators(bars)[0].macd == 0.0
    ensures CalculateIndicators(bars)[0].signal == 0.0
  {
    IndicatorColumns(bars, 0);
    FirstRowMacdSignalZero(Closes(bars));
  }

  lemma RollingMeanPrefix(xs: seq<real>, window: nat, k: nat, i: nat)
    requires window >= 1 && i < k <= |xs|
    ensures RollingMean(xs[..k], window, i) == RollingMean(xs, window, i)
  {
    if i + 1 >= window {
      assert xs[..k][i + 1 - window..i + 1] == xs[i + 1 - window..i + 1];
    }
  }

  lemma RsiAtPrefix(closes: seq<real>, k: nat, i: nat)
    requires i < k <= |closes|
    ensures RsiAt(closes[..k], i) == RsiAt(closes, i)
  {
    assert Gains(closes[..k]) == Gains(closes)[..k];
    assert Losses(closes[..k]) == Losses(closes)[..k];
    RollingMeanPrefix(Gains(closes), RsiWindow, k, i);
    RollingMeanPrefix(Losses(closes), RsiWindow, k, i);
  }

  lemma MacdPrefix(closes: seq<real>, k: nat)
    requires k <= |closes|
    ensures Macd(closes[..k]) == Macd(closes)[..k]
    ensures Signal(closes[..k]) == Signal(closes)[..k]
  {
    forall i | 0 <= i < k
      ensures Macd(closes[..k])[i] == Macd(closes)[i]
    {
      EmaAtPrefix(closes, Alpha(FastSpan), k, i);
      EmaAtPrefix(closes, Alpha(SlowSpan), k, i);
      assert Ema(closes[..k], FastSpan)[i] == Ema(closes, FastSpan)[i];
      assert Ema(closes[..k], SlowSpan)[i] == Ema(closes, SlowSpan)[i];
    }
    assert Macd(closes[..k]) == Macd(closes)[..k];
    forall i | 0 <= i < k
      ensures Signal(closes[..k])[i] == Signal(closes)[i]
    {
      EmaAtPrefix(Macd(closes), Alpha(SignalSpan), k, i);
    }
  }

  /** The frame is causal: computing it on the first `k` bars gives the first
      `k` rows of the frame computed on all bars. */
  lemma CalculateIndicatorsPrefix(bars: seq<Bar>, k: nat)
    requires k <= |bars|
    ensures CalculateIndicators(bars[..k]) == CalculateIndicators(bars)[..k]
  {
    var c := Closes(bars);
    assert Closes(bars[..k]) == c[..k];
    MacdPrefix(c, k);
    forall i | 0 <= i < k
      ensures CalculateIndicators(bars[..k])[i] == CalculateIndicators(bars)[i]
    {
      RsiAtPrefix(c, k, i);
    }
  }
}
