/** The alert-rule block of the per-symbol loop: four independent threshold
    rules evaluated on the latest row of the indicator frame (the MACD rule
    also looks at the row before it), their labels appended in a fixed order,
    and the stored text with its surrounding whitespace stripped. */
module Alerts {
  import opened Options
  import opened Indicators

  /** The thresholds the sidebar sliders supply. */
  datatype Settings = Settings(rsiUpper: int, rsiLower: int, volumeSpikeFactor: real)

  /** The slider ranges: overbought 60..90, oversold 10..40, spike factor 1.0..5.0. */
  predicate SliderRanges(s: Settings)
    ensures SliderRanges(s) ==> s.rsiLower < s.rsiUpper && s.volumeSpikeFactor > 0.0
  {
    && 60 <= s.rsiUpper <= 90
    && 10 <= s.rsiLower <= 40
    && 1.0 <= s.volumeSpikeFactor <= 5.0
  }

  datatype AlertKind = RsiOverbought | RsiOversold | VolumeSpike | MacdBullishCrossover

  /** Position of each rule in the evaluation order. */
  function Rank(k: AlertKind): nat
  {
    match k
    case RsiOverbought => 0
    case RsiOversold => 1
    case VolumeSpike => 2
    case MacdBullishCrossover => 3
  }

  /** The label each rule appends (before its newline). */
  function Label(k: AlertKind): (r: string)
    ensures |r| > 1
  {
    match k
    case RsiOverbought => "\U{1F4C8} RSI Overbought"
    case RsiOversold => "\U{1F4C9} RSI Oversold"
    case VolumeSpike => "\U{1F6A8} Volume Spike"
    case MacdBullishCrossover => "\U{2705} MACD Bullish Crossover"
  }

  const VolumeWindow: nat := 5

  /** A frame on which the MACD rule can be evaluated: the second-to-last row
      is read only when the last row has MACD above Signal, so a one-row frame
      is read safely exactly when its MACD does not exceed its Signal. */
  predicate Evaluable(f: seq<Row>)
  {
    |f| >= 1 && (|f| >= 2 || f[0].macd <= f[0].signal)
  }

  /** Every non-empty computed frame is evaluable: its first row has MACD == Signal. */
  lemma ComputedFrameEvaluable(bars: seq<Bar>)
    requires |bars| > 0
    ensures Evaluable(CalculateIndicators(bars))
  {
    FirstRowFlat(bars);
  }

  /** `latest['RSI'] > rsi_upper`; a NaN RSI compares false. */
  predicate Overbought(f: seq<Row>, s: Settings)
    requires |f| >= 1
    ensures Overbought(f, s) ==> f[|f| - 1].rsi.Some?
  {
    var rsi := f[|f| - 1].rsi;
    rsi.Some? && rsi.value > s.rsiUpper as real
  }

  /** `latest['RSI'] < rsi_lower`; a NaN RSI compares false. */
  predicate Oversold(f: seq<Row>, s: Settings)
    requires |f| >= 1
    ensures Oversold(f, s) ==> f[|f| - 1].rsi.Some?
  {
    var rsi := f[|f| - 1].rsi;
    rsi.Some? && rsi.value < s.rsiLower as real
  }

  /** `Volume.rolling(5).mean().iloc[-1]`: absent when the frame has fewer than 5 rows. */
  function LatestVolumeMean(f: seq<Row>): (m: Option<real>)
    requires |f| >= 1
    ensures m.Some? <==> |f| >= VolumeWindow
  {
    RollingMean(Volumes(f), VolumeWindow, |f| - 1)
  }

  /** The latest volume strictly exceeds the factor times the 5-row mean. */
  predicate VolumeSpikes(f: seq<Row>, s: Settings)
    requires |f| >= 1
    ensures VolumeSpikes(f, s) ==> |f| >= VolumeWindow
  {
    var m := LatestVolumeMean(f);
    m.Some? && f[|f| - 1].volume as real > s.volumeSpikeFactor * m.value
  }

  /** MACD above Signal on the last row and strictly below it on the row before. */
  predicate BullishCrossover(f: seq<Row>)
    requires Evaluable(f)
    ensures BullishCrossover(f) ==> |f| >= 2 && f[|f| - 1].macd > f[|f| - 1].signal
  {
    var n := |f|;
    f[n - 1].macd > f[n - 1].signal && f[n - 2].macd < f[n - 2].signal
  }

  predicate Fires(f: seq<Row>, s: Settings, k: AlertKind)
    requires Evaluable(f)
  {
    match k
    case RsiOverbought => Overbought(f, s)
    case RsiOversold => Oversold(f, s)
    case VolumeSpike => VolumeSpikes(f, s)
    case MacdBullishCrossover => BullishCrossover(f)
  }

  function When(c: bool, k: AlertKind): (r: seq<AlertKind>)
    ensures c ==> r == [k]
    ensures !c ==> r == []
  {
    if c then [k] else []
  }

  /** The rules that fire, in evaluation order. Each rule is checked on its
      own, so any combination may fire. */
  function FiredAlerts(f: seq<Row>, s: Settings): (r: seq<AlertKind>)
    requires Evaluable(f)
    ensures forall k :: k in r <==> Fires(f, s, k)
    ensures forall i, j :: 0 <= i < j < |r| ==> Rank(r[i]) < Rank(r[j])
  {
    var over, under, spike, cross := Overbought(f, s), Oversold(f, s), VolumeSpikes(f, s), BullishCrossover(f);
    WhenChain(over, under, spike, cross);
    When(over, RsiOverbought) + When(under, RsiOversold) + When(spike, VolumeSpike)
    + When(cross, MacdBullishCrossover)
  }

  /** The four optional labels, concatenated in rule order, hold exactly the
      rules whose condition is true, in increasing rank. */
  lemma WhenChain(over: bool, under: bool, spike: bool, cross: bool)
    ensures var r := When(over, RsiOverbought) + When(under, RsiOversold)
      + When(spike, VolumeSpike) + When(cross, MacdBullishCrossover);
      (forall k :: k in r <==> match k
        case RsiOverbought => over
        case RsiOversold => under
        case VolumeSpike => spike
        case MacdBullishCrossover => cross)
      && (forall i, j :: 0 <= i < j < |r| ==> Rank(r[i]) < Rank(r[j]))
  {
  }

  /** The text the rules build with `+=`: each fired label followed by a newline. */
  function AlertText(ks: seq<AlertKind>): (r: string)
    ensures r == "" <==> ks == []
  {
    if ks == [] then "" else Label(ks[0]) + "\n" + AlertText(ks[1..])
  }

  lemma {:induction false} AlertTextAppend(a: seq<AlertKind>, b: seq<AlertKind>)
    ensures AlertText(a + b) == AlertText(a) + AlertText(b)
  {
    if a == [] {
      assert a + b == b;
    } else {
      assert (a + b)[0] == a[0];
      assert (a + b)[1..] == a[1..] + b;
      AlertTextAppend(a[1..], b);
    }
  }

  lemma AlertTextSnoc(ks: seq<AlertKind>, k: AlertKind)
    ensures AlertText(ks + [k]) == AlertText(ks) + Label(k) + "\n"
  {
    AlertTextAppend(ks, [k]);
    assert AlertText([k]) == Label(k) + "\n" + AlertText([]);
  }

  /** The alert block of the per-symbol loop, building the text step by step. */
  method BuildAlert(f: seq<Row>, s: Settings) returns (alert: string)
    requires Evaluable(f)
    ensures alert == AlertText(FiredAlerts(f, s))
  {
    alert := "";
    ghost var fired: seq<AlertKind> := [];
    if Overbought(f, s) {
      AlertTextSnoc(fired, RsiOverbought);
      alert, fired := alert + Label(RsiOverbought) + "\n", fired + [RsiOverbought];
    }
    assert fired == When(Overbought(f, s), RsiOverbought);
    if Oversold(f, s) {
      AlertTextSnoc(fired, RsiOversold);
      alert, fired := alert + Label(RsiOversold) + "\n", fired + [RsiOversold];
    }
    assert fired == When(Overbought(f, s), RsiOverbought) + When(Oversold(f, s), RsiOversold);
    if VolumeSpikes(f, s) {
      AlertTextSnoc(fired, VolumeSpike);
      alert, fired := alert + Label(VolumeSpike) + "\n", fired + [VolumeSpike];
    }
    assert fired == When(Overbought(f, s), RsiOverbought) + When(Oversold(f, s), RsiOversold)
      + When(VolumeSpikes(f, s), VolumeSpike);
    if BullishCrossover(f) {
      AlertTextSnoc(fired, MacdBullishCrossover);
      alert, fired := alert + Label(MacdBullishCrossover) + "\n", fired + [MacdBullishCrossover];
    }
    assert fired == FiredAlerts(f, s);
    assert alert == AlertText(fired);
  }

  // ---------------------------------------------------------------------------
  // `alert.strip()`

  /** The characters Python's `str.isspace` accepts. */
  predicate IsSpace(c: char)
    ensures c == ' ' || c == '\t' || c == '\n' || c == '\r' ==> IsSpace(c)
    ensures 'a' <= c <= 'z' || 'A' <= c <= 'Z' || '0' <= c <= '9' ==> !IsSpace(c)
  {
    c in {' ', '\t', '\n', '\r', '\U{0B}', '\U{0C}', '\U{1C}', '\U{1D}', '\U{1E}', '\U{1F}',
          '\U{85}', '\U{A0}', '\U{1680}', '\U{2028}', '\U{2029}', '\U{202F}', '\U{205F}', '\U{3000}'}
    || '\U{2000}' <= c <= '\U{200A}'
  }

  /** Leading whitespace removed. */
  function StripLeft(s: string): (r: string)
    ensures |r| <= |s|
  {
    if |s| > 0 && IsSpace(s[0]) then StripLeft(s[1..]) else s
  }

  /** Trailing whitespace removed. */
  function StripRight(s: string): (r: string)
    ensures |r| <= |s|
  {
    if |s| > 0 && IsSpace(s[|s| - 1]) then StripRight(s[..|s| - 1]) else s
  }

  /** `str.strip()`: whitespace removed from both ends. */
  function Strip(s: string): (r: string)
    ensures |r| <= |s|
  {
    StripRight(StripLeft(s))
  }

  /** Stripping cuts off only whitespace, from the two ends, and what is left
      neither starts nor ends with whitespace: the result is `s[a..b]` with
      whitespace before `a` and from `b` on. */
  lemma StripCutsOnlyWhitespace(s: string)
    ensures Strip(s) == [] || (!IsSpace(Strip(s)[0]) && !IsSpace(Strip(s)[|Strip(s)| - 1]))
    ensures exists a, b :: (0 <= a <= b <= |s| && Strip(s) == s[a..b]
      && (forall j :: 0 <= j < a ==> IsSpace(s[j]))
      && (forall j :: b <= j < |s| ==> IsSpace(s[j])))
  {
    var l := StripLeft(s);
    var a := |s| - |l|;
    StripLeftShape(s);
    StripRightShape(l);
    var r := StripRight(l);
    var b := a + |r|;
    assert r == s[a..b];
    forall j | b <= j < |s| ensures IsSpace(s[j]) { assert s[j] == l[j - a]; }
  }

  /** `StripLeft` returns a suffix that does not start with whitespace, and
      everything it cuts off is whitespace. */
  lemma {:induction false} StripLeftShape(s: string)
    ensures StripLeft(s) == s[|s| - |StripLeft(s)|..]
    ensures StripLeft(s) == [] || !IsSpace(StripLeft(s)[0])
    ensures forall j :: 0 <= j < |s| - |StripLeft(s)| ==> IsSpace(s[j])
  {
    if |s| > 0 && IsSpace(s[0]) {
      StripLeftShape(s[1..]);
    }
  }

  /** `StripRight` returns a prefix that does not end with whitespace, and
      everything it cuts off is whitespace. */
  lemma {:induction false} StripRightShape(s: string)
    ensures StripRight(s) == s[..|StripRight(s)|]
    ensures StripRight(s) == [] || !IsSpace(StripRight(s)[|StripRight(s)| - 1])
    ensures forall j :: |StripRight(s)| <= j < |s| ==> IsSpace(s[j])
  {
    if |s| > 0 && IsSpace(s[|s| - 1]) {
      StripRightShape(s[..|s| - 1]);
    }
  }

  /** The fired labels joined by newlines, with no trailing newline. */
  function JoinedLabels(ks: seq<AlertKind>): string
  {
    if |ks| == 0 then ""
    else if |ks| == 1 then Label(ks[0])
    else Label(ks[0]) + "\n" + JoinedLabels(ks[1..])
  }

  /** Every label is one line that neither starts nor ends with whitespace. */
  lemma LabelShape(k: AlertKind)
    ensures !IsSpace(Label(k)[0]) && !IsSpace(Label(k)[|Label(k)| - 1])
    ensures '\n' !in Label(k)
  {
  }

  /** Different rules have different labels, so the stored text tells which
      rules fired. */
  lemma LabelsDistinct(a: AlertKind, b: AlertKind)
    ensures Label(a) == Label(b) ==> a == b
  {
    if a != b {
      assert Label(a)[0] != Label(b)[0];
    }
  }

  lemma {:induction false} JoinedLabelsShape(ks: seq<AlertKind>)
    requires ks != []
    ensures AlertText(ks) == JoinedLabels(ks) + "\n"
    ensures |JoinedLabels(ks)| > 0
    ensures !IsSpace(JoinedLabels(ks)[0])
    ensures !IsSpace(JoinedLabels(ks)[|JoinedLabels(ks)| - 1])
  {
    LabelShape(ks[0]);
    if |ks| > 1 {
      JoinedLabelsShape(ks[1..]);
    }
  }

  /** The stored alert text is the fired labels joined by newlines: stripping
      removes only the final newline. */
  lemma StoredAlertText(ks: seq<AlertKind>)
    ensures Strip(AlertText(ks)) == JoinedLabels(ks)
    ensures Strip(AlertText(ks)) == "" <==> ks == []
  {
    if ks != [] {
      JoinedLabelsShape(ks);
      var j := JoinedLabels(ks);
      assert StripLeft(j + "\n") == j + "\n" by {
        assert (j + "\n")[0] == j[0];
      }
      assert StripRight(j + "\n") == j by {
        assert (j + "\n")[|j|] == '\n';
        assert (j + "\n")[..|j|] == j;
      }
    }
  }

  // ---------------------------------------------------------------------------
  // Properties of the rules

  /** The four rules in terms of the latest rows: strict comparisons, a NaN RSI
      or a missing 5-row mean never fires, and the MACD rule needs the row before. */
  lemma RuleSemantics(f: seq<Row>, s: Settings)
    requires Evaluable(f)
    ensures var r := f[|f| - 1].rsi;
      RsiOverbought in FiredAlerts(f, s) <==> r.Some? && r.value > s.rsiUpper as real
    ensures var r := f[|f| - 1].rsi;
      RsiOversold in FiredAlerts(f, s) <==> r.Some? && r.value < s.rsiLower as real
    ensures VolumeSpike in FiredAlerts(f, s) <==>
      |f| >= VolumeWindow
      && f[|f| - 1].volume as real
         > s.volumeSpikeFactor * (Sum(Volumes(f)[|f| - VolumeWindow..]) / VolumeWindow as real)
    ensures MacdBullishCrossover in FiredAlerts(f, s) <==>
      |f| >= 2 && f[|f| - 1].macd > f[|f| - 1].signal && f[|f| - 2].macd < f[|f| - 2].signal
  {
    if |f| >= VolumeWindow {
      assert Volumes(f)[|f| - VolumeWindow..|f|] == Volumes(f)[|f| - VolumeWindow..];
    }
  }

  /** Within the slider ranges the two RSI labels never fire together. */
  lemma RsiLabelsExclusive(f: seq<Row>, s: Settings)
    requires Evaluable(f) && SliderRanges(s)
    ensures !(RsiOverbought in FiredAlerts(f, s) && RsiOversold in FiredAlerts(f, s))
  {
  }

  /** MACD crossing from strictly below to above Signal between rows `i - 1` and `i`. */
  predicate CrossesAt(f: seq<Row>, i: nat)
    requires 1 <= i < |f|
  {
    f[i].macd > f[i].signal && f[i - 1].macd < f[i - 1].signal
  }

  /** The crossover is edge-triggered: it cannot hold on two consecutive rows,
      nor when the previous row has MACD equal to Signal. */
  lemma CrossoverIsEdgeTriggered(f: seq<Row>, i: nat)
    requires 1 <= i && i + 1 < |f|
    ensures CrossesAt(f, i) ==> !CrossesAt(f, i + 1)
    ensures f[i - 1].macd == f[i - 1].signal ==> !CrossesAt(f, i)
  {
  }

  /** Evaluated on the first `k` bars, the MACD rule fires exactly when the
      full frame crosses at row `k - 1`; a one-bar series never fires it. */
  lemma DailyCrossover(bars: seq<Bar>, k: nat)
    requires 1 <= k <= |bars|
    ensures Evaluable(CalculateIndicators(bars[..k]))
    ensures BullishCrossover(CalculateIndicators(bars[..k])) <==>
      k >= 2 && CrossesAt(CalculateIndicators(bars), k - 1)
  {
    ComputedFrameEvaluable(bars[..k]);
    CalculateIndicatorsPrefix(bars, k);
    FirstRowFlat(bars);
  }

  /** Evaluated on successive days of one series, the MACD rule never fires two days in a row. */
  lemma CrossoverNotOnConsecutiveDays(bars: seq<Bar>, k: nat)
    requires 1 <= k < |bars|
    ensures Evaluable(CalculateIndicators(bars[..k])) && Evaluable(CalculateIndicators(bars[..k + 1]))
    ensures !(BullishCrossover(CalculateIndicators(bars[..k])) && BullishCrossover(CalculateIndicators(bars[..k + 1])))
  {
    DailyCrossover(bars, k);
    DailyCrossover(bars, k + 1);
    var f := CalculateIndicators(bars);
    if k >= 2 {
      CrossoverIsEdgeTriggered(f, k - 1);
    }
  }

  /** A constant price never fires the MACD rule: MACD and Signal stay at zero. */
  lemma ConstantPriceNoCrossover(bars: seq<Bar>, c: real)
    requires |bars| > 0
    requires forall j :: 0 <= j < |bars| ==> bars[j].close == c
    ensures Evaluable(CalculateIndicators(bars))
    ensures !BullishCrossover(CalculateIndicators(bars))
  {
    ComputedFrameEvaluable(bars);
    ConstantPriceFlatMacd(Closes(bars), c);
  }
}
