/** The dashboard's pipeline around the indicators: the ticker list of
    `load_tickers` (missing entries dropped, first occurrences kept) and the
    per-symbol loop that appends one report row per symbol with data and
    collects the rows whose alert text is non-empty. */
module Watchlist {
  import opened Options
  import opened Indicators
  import opened Alerts

  // ---------------------------------------------------------------------------
  // `df['Ticker'].dropna().unique().tolist()`

  /** `dropna()`: the present entries of the column, in order. */
  function DropMissing(column: seq<Option<string>>): (r: seq<string>)
    ensures forall x :: x in r <==> Some(x) in column
  {
    if column == [] then []
    else
      var rest := DropMissing(column[..|column| - 1]);
      match column[|column| - 1]
      case None => rest
      case Some(x) => rest + [x]
  }

  predicate NoDuplicates(xs: seq<string>)
  {
    forall i, j :: 0 <= i < j < |xs| ==> xs[i] != xs[j]
  }

  /** `dropna()` works entry by entry: concatenated columns give concatenated
      results. */
  lemma {:induction false} DropMissingAppend(a: seq<Option<string>>, b: seq<Option<string>>)
    ensures DropMissing(a + b) == DropMissing(a) + DropMissing(b)
  {
    if b == [] {
      assert a + b == a;
    } else {
      var n := |b| - 1;
      assert (a + b)[..|a| + n] == a + b[..n];
      DropMissingAppend(a, b[..n]);
    }
  }

  /** A missing entry is dropped and a present one kept. */
  lemma DropMissingSingle(e: Option<string>)
    ensures e.None? ==> DropMissing([e]) == []
    ensures e.Some? ==> DropMissing([e]) == [e.value]
  {
    assert [e][..0] == [];
  }

  /** Appending an entry does not move the first occurrence of a value
      already present. */
  lemma FirstIndexSnoc<T>(xs: seq<T>, e: T, x: T)
    requires x in xs
    ensures FirstIndex(xs + [e], x) == FirstIndex(xs, x)
  {
    assert (xs + [e])[..|xs|] == xs;
  }

  /** `dropna()` keeps the order of first occurrences of the present values. */
  lemma {:induction false} DropMissingKeepsFirstOccurrenceOrder(column: seq<Option<string>>, x: string, y: string)
    requires x in DropMissing(column) && y in DropMissing(column)
    requires FirstIndex(DropMissing(column), x) < FirstIndex(DropMissing(column), y)
    ensures FirstIndex(column, Some(x)) < FirstIndex(column, Some(y))
  {
    var n := |column| - 1;
    var p, e := column[..n], column[n];
    var dp, d := DropMissing(p), DropMissing(column);
    assert column == p + [e];
    if x in dp && y in dp {
      FirstIndexSnoc(p, e, Some(x));
      FirstIndexSnoc(p, e, Some(y));
      if e.Some? {
        FirstIndexSnoc(dp, e.value, x);
        FirstIndexSnoc(dp, e.value, y);
      }
      DropMissingKeepsFirstOccurrenceOrder(p, x, y);
    } else if x in dp {
      assert e == Some(y) && d == dp + [y];
      assert Some(y) !in p;
      FirstIndexSnoc(p, e, Some(x));
    }
  }

  /** `unique()`: each value once, in order of first appearance. */
  function Unique(xs: seq<string>): (r: seq<string>)
    ensures forall x :: x in r <==> x in xs
    ensures NoDuplicates(r)
  {
    if xs == [] then []
    else
      var rest := Unique(xs[..|xs| - 1]);
      var x := xs[|xs| - 1];
      if x in rest then rest else rest + [x]
  }

  /** Index of the first occurrence of `x` in `xs`. */
  function FirstIndex<T(==)>(xs: seq<T>, x: T): (i: nat)
    requires x in xs
    ensures i < |xs| && xs[i] == x
    ensures forall j :: 0 <= j < i ==> xs[j] != x
  {
    var n := |xs| - 1;
    if x in xs[..n] then FirstIndex(xs[..n], x) else n
  }

  /** The unique values keep the order of their first occurrences. */
  lemma {:induction false} UniqueKeepsFirstOccurrenceOrder(xs: seq<string>)
    ensures forall i, j :: 0 <= i < j < |Unique(xs)| ==>
      FirstIndex(xs, Unique(xs)[i]) < FirstIndex(xs, Unique(xs)[j])
  {
    if xs != [] {
      var n := |xs| - 1;
      var p := xs[..n];
      UniqueKeepsFirstOccurrenceOrder(p);
      var r, rest := Unique(xs), Unique(p);
      forall y | y in p
        ensures FirstIndex(xs, y) == FirstIndex(p, y)
      {
        var a, b := FirstIndex(xs, y), FirstIndex(p, y);
        assert xs[b] == y;
        assert p[a] == y || a == n;
      }
      forall i, j | 0 <= i < j < |r|
        ensures FirstIndex(xs, r[i]) < FirstIndex(xs, r[j])
      {
        assert r[i] in rest;
        if j < |rest| {
          assert r[j] == rest[j];
          assert r[i] == rest[i];
        } else {
          assert r[j] == xs[n] && xs[n] !in p;
        }
      }
    }
  }

  /** The ticker list of `load_tickers`. */
  function LoadTickers(column: seq<Option<string>>): (r: seq<string>)
    ensures forall x :: x in r <==> Some(x) in column
    ensures NoDuplicates(r)
  {
    Unique(DropMissing(column))
  }

  /** The order of the ticker list: by first occurrence after `dropna()`, and
      so by first present occurrence in the raw column. With the membership and
      uniqueness that `LoadTickers` ensures, this determines the list. */
  lemma LoadTickersSpec(column: seq<Option<string>>)
    ensures forall i, j :: 0 <= i < j < |LoadTickers(column)| ==>
      FirstIndex(DropMissing(column), LoadTickers(column)[i])
        < FirstIndex(DropMissing(column), LoadTickers(column)[j])
    ensures forall i, j :: 0 <= i < j < |LoadTickers(column)| ==>
      FirstIndex(column, Some(LoadTickers(column)[i]))
        < FirstIndex(column, Some(LoadTickers(column)[j]))
  {
    var d, r := DropMissing(column), LoadTickers(column);
    UniqueKeepsFirstOccurrenceOrder(d);
    forall i, j | 0 <= i < j < |r|
      ensures FirstIndex(column, Some(r[i])) < FirstIndex(column, Some(r[j]))
    {
      DropMissingKeepsFirstOccurrenceOrder(column, r[i], r[j]);
    }
  }

  // ---------------------------------------------------------------------------
  // The per-symbol loop

  /** What the market-data download gives for one symbol; `DownloadFailed`
      stands for any exception the `try` block catches. */
  datatype Download = DownloadFailed | Downloaded(bars: seq<Bar>)

  /** One row of the dashboard table. */
  datatype ReportRow = ReportRow(
    ticker: string, price: real, rsi: Option<real>, macd: real, signal: real, volume: nat, alert: string)

  /** The row built from the latest computed row of a non-empty series. */
  function SymbolRow(symbol: string, bars: seq<Bar>, s: Settings): (row: ReportRow)
    requires |bars| > 0
    ensures row.ticker == symbol && row.price == bars[|bars| - 1].close
    ensures row.volume == bars[|bars| - 1].volume
    ensures row.rsi == RsiAt(Closes(bars), |bars| - 1)
    ensures row.macd == Macd(Closes(bars))[|bars| - 1]
    ensures row.signal == Signal(Closes(bars))[|bars| - 1]
    ensures Evaluable(CalculateIndicators(bars))
    ensures row.alert == JoinedLabels(FiredAlerts(CalculateIndicators(bars), s))
  {
    var f := CalculateIndicators(bars);
    ComputedFrameEvaluable(bars);
    IndicatorColumns(bars, |bars| - 1);
    StoredAlertText(FiredAlerts(f, s));
    var latest := f[|f| - 1];
    ReportRow(symbol, latest.close, latest.rsi, latest.macd, latest.signal, latest.volume,
              Strip(AlertText(FiredAlerts(f, s))))
  }

  /** The row a symbol contributes, if any: none when the download fails or
      the series is empty. */
  function Outcome(symbol: string, d: Download, s: Settings): (r: Option<ReportRow>)
    ensures r.Some? <==> d.Downloaded? && |d.bars| > 0
  {
    match d
    case DownloadFailed => None
    case Downloaded(bars) => if |bars| == 0 then None else Some(SymbolRow(symbol, bars, s))
  }

  /** The rows of `data` after the loop has visited `stocks`. */
  function Rows(stocks: seq<string>, feed: string -> Download, s: Settings): (r: seq<ReportRow>)
    ensures |r| <= |stocks|
  {
    if stocks == [] then []
    else
      var n := |stocks| - 1;
      match Outcome(stocks[n], feed(stocks[n]), s)
      case None => Rows(stocks[..n], feed, s)
      case Some(row) => Rows(stocks[..n], feed, s) + [row]
  }

  /** The order-preserving subsequence of rows whose alert text is non-empty. */
  function Triggered(rows: seq<ReportRow>): (r: seq<ReportRow>)
    ensures |r| <= |rows|
    ensures forall k :: 0 <= k < |r| ==> r[k].alert != ""
  {
    if rows == [] then []
    else
      var n := |rows| - 1;
      if rows[n].alert != "" then Triggered(rows[..n]) + [rows[n]] else Triggered(rows[..n])
  }

  /** One pass of the per-symbol loop body: the row the symbol contributes, if
      any, and whether its raw alert text is non-empty, which holds exactly
      when the stored (stripped) text is non-empty. */
  method ScanSymbol(symbol: string, d: Download, s: Settings)
    returns (row: Option<ReportRow>, raised: bool)
    ensures row == Outcome(symbol, d, s)
    ensures row.Some? ==> (raised <==> row.value.alert != "")
  {
    row, raised := None, false;
    if d.Downloaded? && |d.bars| > 0 {
      var f := CalculateIndicators(d.bars);
      ComputedFrameEvaluable(d.bars);
      var alert := BuildAlert(f, s);
      var latest := f[|f| - 1];
      StoredAlertText(FiredAlerts(f, s));
      row := Some(ReportRow(symbol, latest.close, latest.rsi, latest.macd, latest.signal,
                            latest.volume, Strip(alert)));
      raised := alert != "";
    }
  }

  /** The per-symbol loop: one row per symbol with data, in ticker order; the
      rows whose raw alert text is non-empty are also collected. */
  method Scan(stocks: seq<string>, feed: string -> Download, s: Settings)
    returns (data: seq<ReportRow>, alertsTriggered: seq<ReportRow>)
    ensures data == Rows(stocks, feed, s)
    ensures alertsTriggered == Triggered(data)
  {
    data, alertsTriggered := [], [];
    var i := 0;
    while i < |stocks|
      invariant 0 <= i <= |stocks|
      invariant data == Rows(stocks[..i], feed, s)
      invariant alertsTriggered == Triggered(data)
    {
      var symbol := stocks[i];
      RowsStep(stocks, i, feed, s);
      var row, raised := ScanSymbol(symbol, feed(symbol), s);
      if row.Some? {
        TriggeredSnoc(data, row.value);
        data := data + [row.value];
        if raised {
          alertsTriggered := alertsTriggered + [row.value];
        }
      }
      i := i + 1;
    }
    assert stocks[..|stocks|] == stocks;
  }

  /** One more visited symbol adds its row, if it has one. */
  lemma RowsStep(stocks: seq<string>, i: nat, feed: string -> Download, s: Settings)
    requires i < |stocks|
    ensures Rows(stocks[..i + 1], feed, s) == Rows(stocks[..i], feed, s) +
      match Outcome(stocks[i], feed(stocks[i]), s)
      case None => []
      case Some(row) => [row]
  {
    assert stocks[..i + 1][..i] == stocks[..i];
  }

  /** One more row is collected exactly when its alert text is non-empty. */
  lemma TriggeredSnoc(rows: seq<ReportRow>, row: ReportRow)
    ensures Triggered(rows + [row]) == Triggered(rows) + if row.alert != "" then [row] else []
  {
    assert (rows + [row])[..|rows|] == rows;
  }

  // ---------------------------------------------------------------------------
  // Properties of the aggregation

  /** The tickers of the symbols that contribute a row, in order. */
  function Processed(stocks: seq<string>, feed: string -> Download): seq<string>
  {
    if stocks == [] then []
    else
      var n := |stocks| - 1;
      var d := feed(stocks[n]);
      if d.Downloaded? && |d.bars| > 0 then Processed(stocks[..n], feed) + [stocks[n]]
      else Processed(stocks[..n], feed)
  }

  /** `a` is an order-preserving subsequence of `b`. */
  predicate IsSubsequence<T(==)>(a: seq<T>, b: seq<T>)
    decreases |b|
  {
    if a == [] then true
    else if b == [] then false
    else
      (a[|a| - 1] == b[|b| - 1] && IsSubsequence(a[..|a| - 1], b[..|b| - 1]))
      || IsSubsequence(a, b[..|b| - 1])
  }

  /** Each processed symbol contributes exactly one row, carrying its ticker,
      in ticker order; symbols without data contribute none. Collects
      `RowTickers` and `ProcessedIsSubsequence` in one statement. */
  lemma RowsFollowProcessedTickers(stocks: seq<string>, feed: string -> Download, s: Settings)
    ensures |Rows(stocks, feed, s)| == |Processed(stocks, feed)| <= |stocks|
    ensures forall k :: 0 <= k < |Rows(stocks, feed, s)| ==>
      Rows(stocks, feed, s)[k].ticker == Processed(stocks, feed)[k]
    ensures IsSubsequence(Processed(stocks, feed), stocks)
  {
    RowTickers(stocks, feed, s);
    ProcessedIsSubsequence(stocks, feed);
  }

  /** The rows carry the processed tickers, one each, in order, and each row is
      the one its ticker's download gives. */
  lemma {:induction false} RowTickers(stocks: seq<string>, feed: string -> Download, s: Settings)
    ensures |Rows(stocks, feed, s)| == |Processed(stocks, feed)|
    ensures forall k :: 0 <= k < |Rows(stocks, feed, s)| ==>
      Rows(stocks, feed, s)[k].ticker == Processed(stocks, feed)[k]
    ensures forall k :: 0 <= k < |Rows(stocks, feed, s)| ==>
      Outcome(Processed(stocks, feed)[k], feed(Processed(stocks, feed)[k]), s)
        == Some(Rows(stocks, feed, s)[k])
  {
    if stocks != [] {
      var n := |stocks| - 1;
      RowTickers(stocks[..n], feed, s);
      RowsStep(stocks, n, feed, s);
      ProcessedStep(stocks, n, feed);
      assert stocks[..n + 1] == stocks;
      var r, p := Rows(stocks[..n], feed, s), Processed(stocks[..n], feed);
      match Outcome(stocks[n], feed(stocks[n]), s)
      case None =>
      case Some(row) =>
        forall k | 0 <= k < |r| + 1
          ensures (r + [row])[k].ticker == (p + [stocks[n]])[k]
          ensures Outcome((p + [stocks[n]])[k], feed((p + [stocks[n]])[k]), s) == Some((r + [row])[k])
        {
          if k < |r| {
            assert (r + [row])[k] == r[k];
          }
        }
    }
  }

  /** One more visited symbol adds its ticker to the processed ones exactly
      when it has data. */
  lemma ProcessedStep(stocks: seq<string>, i: nat, feed: string -> Download)
    requires i < |stocks|
    ensures Processed(stocks[..i + 1], feed) == Processed(stocks[..i], feed) +
      if feed(stocks[i]).Downloaded? && |feed(stocks[i]).bars| > 0 then [stocks[i]] else []
  {
    assert stocks[..i + 1][..i] == stocks[..i];
  }

  /** The processed tickers are an order-preserving subsequence of the list. */
  lemma {:induction false} ProcessedIsSubsequence(stocks: seq<string>, feed: string -> Download)
    ensures |Processed(stocks, feed)| <= |stocks|
    ensures IsSubsequence(Processed(stocks, feed), stocks)
  {
    if stocks != [] {
      var n := |stocks| - 1;
      ProcessedIsSubsequence(stocks[..n], feed);
      var p := Processed(stocks[..n], feed);
      var d := feed(stocks[n]);
      if d.Downloaded? && |d.bars| > 0 {
        assert (p + [stocks[n]])[..|p|] == p;
      } else {
        SubsequenceOfLonger(p, stocks[..n], stocks[n]);
      }
    }
  }

  lemma SubsequenceOfLonger<T>(a: seq<T>, b: seq<T>, x: T)
    requires IsSubsequence(a, b)
    ensures IsSubsequence(a, b + [x])
  {
    assert (b + [x])[..|b|] == b;
  }

  /** A symbol whose download fails or is empty adds no row. */
  lemma NoRowWithoutData(stocks: seq<string>, x: string, feed: string -> Download, s: Settings)
    requires feed(x) == DownloadFailed || feed(x) == Downloaded([])
    ensures Rows(stocks + [x], feed, s) == Rows(stocks, feed, s)
  {
    assert (stocks + [x])[..|stocks|] == stocks;
  }

  /** A row is triggered exactly when it is one of the rows and its alert
      text is non-empty, and the triggered rows keep their order. */
  lemma {:induction false} TriggeredFilter(rows: seq<ReportRow>)
    ensures forall r :: r in Triggered(rows) <==> r in rows && r.alert != ""
    ensures IsSubsequence(Triggered(rows), rows)
  {
    if rows != [] {
      var n := |rows| - 1;
      var t := Triggered(rows[..n]);
      TriggeredFilter(rows[..n]);
      assert rows == rows[..n] + [rows[n]];
      if rows[n].alert != "" {
        assert (t + [rows[n]])[..|t|] == t;
      } else {
        SubsequenceOfLonger(t, rows[..n], rows[n]);
      }
    }
  }

  /** Triggering distributes over concatenation: each batch of rows
      contributes its own triggered rows, in order. */
  lemma {:induction false} TriggeredAppend(a: seq<ReportRow>, b: seq<ReportRow>)
    ensures Triggered(a + b) == Triggered(a) + Triggered(b)
  {
    if b == [] {
      assert a + b == a;
    } else {
      var n := |b| - 1;
      assert (a + b)[..|a| + n] == a + b[..n];
      TriggeredAppend(a, b[..n]);
    }
  }

  /** A processed symbol's row is triggered exactly when some rule fires for it. */
  lemma TriggeredIffSomeRuleFires(symbol: string, bars: seq<Bar>, s: Settings)
    requires |bars| > 0
    ensures Evaluable(CalculateIndicators(bars))
    ensures Triggered([SymbolRow(symbol, bars, s)]) != [] <==> exists k :: Fires(CalculateIndicators(bars), s, k)
  {
    var f := CalculateIndicators(bars);
    ComputedFrameEvaluable(bars);
    StoredAlertText(FiredAlerts(f, s));
    var ks := FiredAlerts(f, s);
    assert [SymbolRow(symbol, bars, s)][..0] == [];
    if ks != [] {
      assert ks[0] in ks;
    }
  }
}
