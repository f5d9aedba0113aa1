/**
 * The range-compression screen (`fetch_and_process` in logic.py): a ticker
 * matches when its whole three-month window lies within a band of at most
 * 1.00 while its bars still move by at least 0.10 a day on average. A match
 * whose red bars (close below open) number at least 12 and all have an upper
 * wick of at most 0.051 is labelled "Short".
 */
module SpreadScreen {
  import opened Wrappers
  import opened Text
  import opened Tickers
  import opened Bars
  import opened Progress

  const MaxTotalRange: real := 1.00
  const MinAvgSpread: real := 0.10
  const MinRedBars: nat := 12
  const MaxUpperWick: real := 0.051

  /** One emitted record. `isNew` stays absent until the watchlist marks the record. */
  datatype SpreadMatch = SpreadMatch(
    ticker: string,
    yfSymbol: string,
    tvSymbol: string,
    spread: real,
    min: real,
    max: real,
    current: Option<real>,
    avgDailySpread: real,
    pattern: Option<Label>,
    isNew: Option<bool>)

  /**
   * What one ticker contributes: nothing and no progress report (no data), a report only
   * (the screen rejected it, or the provider raised while fetching it), or a record and a report.
   */
  datatype Outcome = Skipped | Rejected | Failed | Matched(m: SpreadMatch)

  /** A price provider: the daily rows it returns for a symbol, or `None` when the call raises. */
  type Provider = string -> Option<seq<Row>>

  predicate IsRed(b: Bar) { b.close < b.open }

  /** The red bars, in order (`df[df['Close'] < df['Open']]`). */
  function RedBars(bars: seq<Bar>): (red: seq<Bar>)
    ensures |red| <= |bars|
    ensures forall b :: b in red <==> b in bars && IsRed(b)
  {
    if |bars| == 0 then []
    else
      var rest := RedBars(bars[1..]);
      assert forall b :: b in bars <==> b == bars[0] || b in bars[1..] by {
        assert bars == [bars[0]] + bars[1..];
      }
      (if IsRed(bars[0]) then [bars[0]] else []) + rest
  }

  /** Appending a bar appends it to the red bars exactly when it is red: the red bars keep their order and repetitions. */
  lemma {:induction false} RedBarsSnoc(bars: seq<Bar>, b: Bar)
    ensures RedBars(bars + [b]) == RedBars(bars) + if IsRed(b) then [b] else []
  {
    if |bars| > 0 {
      assert (bars + [b])[1..] == bars[1..] + [b];
      RedBarsSnoc(bars[1..], b);
    }
  }

  /** The number of red bars is the number of positions holding a red bar, the count the "Short" rule compares with 12. */
  lemma {:induction false} RedBarsCount(bars: seq<Bar>)
    ensures |RedBars(bars)| == |Positions(bars, IsRed)|
  {
    if |bars| > 0 {
      var n := |bars| - 1;
      RedBarsCount(bars[..n]);
      assert bars == bars[..n] + [bars[n]];
      RedBarsSnoc(bars[..n], bars[n]);
      PositionsSnoc(bars[..n], bars[n], IsRed);
    }
  }

  /** The "Short" sub-pattern over the bars that carry data. */
  predicate ShortPattern(bars: seq<Bar>) {
    var red := RedBars(bars);
    |red| >= MinRedBars && forall b :: b in red ==> b.high - b.open <= MaxUpperWick
  }

  /**
   * The provider's frame for a ticker: its provider spelling first, the raw spelling when
   * that comes back empty; `None` when either call raises.
   */
  function FetchRows(raw: string, fetch: Provider): Option<seq<Row>> {
    var yf := ProviderSymbol(raw);
    match fetch(yf)
    case None => None
    case Some(rows) => if |rows| == 0 && yf != raw then fetch(raw) else Some(rows)
  }

  /** The close of the last row, missing when that row is empty (`df['Close'].iloc[-1]`). */
  function LastClose(rows: seq<Row>): Option<real>
    requires |rows| > 0
  {
    match rows[|rows| - 1]
    case Some(b) => Some(b.close)
    case None => None
  }

  /** The screen applied to one ticker's frame. */
  function Screen(raw: string, rows: seq<Row>): Outcome {
    if |rows| == 0 then Skipped
    else
      var bars := Present(rows);
      if |bars| == 0 then Skipped
      else
        var high, low := MaxHigh(bars), MinLow(bars);
        var range, avg := high - low, MeanSpread(bars);
        if range <= MaxTotalRange && avg >= MinAvgSpread then
          var pattern := if ShortPattern(bars) then Some(Short) else None;
          Matched(SpreadMatch(raw, ProviderSymbol(raw), ChartSymbol(raw), range, low, high,
                              LastClose(rows), avg, pattern, None))
        else Rejected
  }

  /**
   * A ticker is emitted iff its frame has a row with data, `max(High) - min(Low) <= 1.00`
   * and `mean(High - Low) >= 0.10`, both bounds inclusive. An emitted record carries the
   * ticker's spellings and a band `[min, max]` holding every bar, whose width is its
   * spread and is at least the mean daily spread; it is labelled "Short" exactly when
   * at least 12 bars are red and every red bar has `High - Open <= 0.051`.
   */
  lemma ScreenMeaning(raw: string, rows: seq<Row>)
    ensures Screen(raw, rows).Skipped? <==> |Present(rows)| == 0
    ensures Screen(raw, rows).Matched? <==>
      |Present(rows)| > 0
      && MaxHigh(Present(rows)) - MinLow(Present(rows)) <= 1.00
      && MeanSpread(Present(rows)) >= 0.10
    ensures Screen(raw, rows).Matched? ==>
      var m, bars := Screen(raw, rows).m, Present(rows);
      && m.ticker == raw && m.yfSymbol == ProviderSymbol(raw) && m.tvSymbol == ChartSymbol(raw)
      && m.spread == m.max - m.min
      && (forall i :: 0 <= i < |bars| ==> m.min <= bars[i].low && bars[i].high <= m.max)
      && (exists i :: 0 <= i < |bars| && bars[i].low == m.min)
      && (exists i :: 0 <= i < |bars| && bars[i].high == m.max)
      && 0.10 <= m.avgDailySpread <= m.spread <= 1.00
      && (m.pattern == Some(Short) <==>
            |RedBars(bars)| >= 12 && forall i :: 0 <= i < |bars| && IsRed(bars[i]) ==> bars[i].high - bars[i].open <= 0.051)
      && (m.pattern != Some(Short) ==> m.pattern == None)
      && m.isNew == None
  {
    ScreenVerdict(raw, rows);
    if Screen(raw, rows).Matched? {
      ScreenBand(raw, rows);
    }
  }

  /** The band, bounds and pattern of a matching frame's record, stated on its bars. */
  lemma ScreenBand(raw: string, rows: seq<Row>)
    requires Screen(raw, rows).Matched?
    ensures var m, bars := Screen(raw, rows).m, Present(rows);
      && m.ticker == raw && m.yfSymbol == ProviderSymbol(raw) && m.tvSymbol == ChartSymbol(raw)
      && m.spread == m.max - m.min
      && (forall i :: 0 <= i < |bars| ==> m.min <= bars[i].low && bars[i].high <= m.max)
      && (exists i :: 0 <= i < |bars| && bars[i].low == m.min)
      && (exists i :: 0 <= i < |bars| && bars[i].high == m.max)
      && 0.10 <= m.avgDailySpread <= m.spread <= 1.00
      && (m.pattern == Some(Short) <==>
            |RedBars(bars)| >= 12 && forall i :: 0 <= i < |bars| && IsRed(bars[i]) ==> bars[i].high - bars[i].open <= 0.051)
      && (m.pattern != Some(Short) ==> m.pattern == None)
      && m.isNew == None
  {
    var bars := Present(rows);
    ScreenRecord(raw, rows);
    ShortPatternMeaning(bars);
    var m := Screen(raw, rows).m;
    assert m.min == MinLow(bars) && m.max == MaxHigh(bars);
  }

  /** Which of the three outcomes a frame gets. */
  lemma ScreenVerdict(raw: string, rows: seq<Row>)
    ensures Screen(raw, rows).Skipped? <==> |Present(rows)| == 0
    ensures Screen(raw, rows).Matched? <==>
      |Present(rows)| > 0
      && MaxHigh(Present(rows)) - MinLow(Present(rows)) <= 1.00
      && MeanSpread(Present(rows)) >= 0.10
  {
    if |rows| == 0 {
      assert Present(rows) == [];
    }
  }

  /** The record of a matching frame. */
  lemma ScreenRecord(raw: string, rows: seq<Row>)
    requires Screen(raw, rows).Matched?
    ensures |Present(rows)| > 0
    ensures var m, bars := Screen(raw, rows).m, Present(rows);
      && m.ticker == raw && m.yfSymbol == ProviderSymbol(raw) && m.tvSymbol == ChartSymbol(raw)
      && m.spread == m.max - m.min
      && m.min == MinLow(bars) && m.max == MaxHigh(bars)
      && 0.10 <= m.avgDailySpread <= m.spread <= 1.00
      && (m.pattern == Some(Short) <==> ShortPattern(bars))
      && (m.pattern != Some(Short) ==> m.pattern == None)
      && m.isNew == None
  {
    var bars := Present(rows);
    assert |rows| > 0 && |bars| > 0;
    var high, low := MaxHigh(bars), MinLow(bars);
    assert high - low <= MaxTotalRange && MeanSpread(bars) >= MinAvgSpread;
    var pattern := if ShortPattern(bars) then Some(Short) else None;
    var m := SpreadMatch(raw, ProviderSymbol(raw), ChartSymbol(raw), high - low, low, high,
                         LastClose(rows), MeanSpread(bars), pattern, None);
    assert Screen(raw, rows).m == m;
    MeanSpreadWithinBand(bars, high, low);
  }

  /** The "Short" pattern holds iff there are at least 12 red bars and no red bar has an upper wick above 0.051. */
  lemma ShortPatternMeaning(bars: seq<Bar>)
    ensures ShortPattern(bars) <==>
      |RedBars(bars)| >= 12 && forall i :: 0 <= i < |bars| && IsRed(bars[i]) ==> bars[i].high - bars[i].open <= 0.051
  {
    var red := RedBars(bars);
    if forall b :: b in red ==> b.high - b.open <= 0.051 {
      forall i | 0 <= i < |bars| && IsRed(bars[i]) ensures bars[i].high - bars[i].open <= 0.051 {
        assert bars[i] in red;
      }
    }
    if forall i :: 0 <= i < |bars| && IsRed(bars[i]) ==> bars[i].high - bars[i].open <= 0.051 {
      forall b | b in red ensures b.high - b.open <= 0.051 {
        var i :| 0 <= i < |bars| && bars[i] == b;
      }
    }
  }

  /** The screen's verdict for a ticker, after fetching. */
  function ScreenTicker(raw: string, fetch: Provider): Outcome {
    match FetchRows(raw, fetch)
    case None => Failed
    case Some(rows) => Screen(raw, rows)
  }

  /** The state of a scan: records so far, reports so far, and whether the callback said STOP. */
  datatype SpreadRun = SpreadRun(results: seq<SpreadMatch>, reports: seq<Report>, stopped: bool)

  /** One pass of the loop body for `tickers[i]`. */
  function Step(tickers: seq<string>, verdict: string -> Outcome, stop: nat -> bool, i: nat, run: SpreadRun): SpreadRun
    requires i < |tickers|
  {
    match verdict(tickers[i])
    case Skipped => run
    case Rejected =>
      SpreadRun(run.results, run.reports + [Report(i + 1, |tickers|)], stop(|run.reports|))
    case Failed =>
      SpreadRun(run.results, run.reports + [Report(i + 1, |tickers|)], stop(|run.reports|))
    case Matched(m) =>
      SpreadRun(run.results + [m], run.reports + [Report(i + 1, |tickers|)], stop(|run.reports|))
  }

  /** The rest of the loop from index `i` on, until the list ends or the callback says STOP. */
  function RunFrom(tickers: seq<string>, verdict: string -> Outcome, stop: nat -> bool, i: nat, run: SpreadRun): SpreadRun
    requires i <= |tickers|
    decreases |tickers| - i
  {
    if run.stopped || i == |tickers| then run
    else RunFrom(tickers, verdict, stop, i + 1, Step(tickers, verdict, stop, i, run))
  }

  /** A whole scan, for any verdict per ticker. */
  function Scan(tickers: seq<string>, verdict: string -> Outcome, stop: nat -> bool): SpreadRun {
    RunFrom(tickers, verdict, stop, 0, SpreadRun([], [], false))
  }

  /** The screen's verdicts for the data a provider returns. */
  function Verdicts(fetch: Provider): string -> Outcome {
    raw => ScreenTicker(raw, fetch)
  }

  /** A whole scan against a provider. */
  function ScanSpread(tickers: seq<string>, fetch: Provider, stop: nat -> bool): SpreadRun {
    Scan(tickers, Verdicts(fetch), stop)
  }

  /** The loop body's fetch, with the fallback to the raw spelling, and the screen of what came back. */
  method FetchAndScreen(raw: string, fetch: Provider) returns (outcome: Outcome)
    ensures outcome == Verdicts(fetch)(raw)
  {
    var yf := ProviderSymbol(raw);
    var frame := fetch(yf);
    if frame.Some? && |frame.value| == 0 && yf != raw {
      frame := fetch(raw);
    }
    if frame.None? {
      return Failed;
    }
    outcome := Screen(raw, frame.value);
  }

  /**
   * `fetch_and_process`: screens the tickers in order, reporting progress after each
   * ticker that was not skipped (a ticker whose fetch raised is reported without a record),
   * and stops after the report the callback answers STOP.
   */
  method FetchAndProcess(tickers: seq<string>, fetch: Provider, stop: nat -> bool)
    returns (results: seq<SpreadMatch>, reports: seq<Report>)
    ensures results == ScanSpread(tickers, fetch, stop).results
    ensures reports == ScanSpread(tickers, fetch, stop).reports
  {
    results, reports := [], [];
    var total := |tickers|;
    for i := 0 to |tickers|
      invariant RunFrom(tickers, Verdicts(fetch), stop, i, SpreadRun(results, reports, false)) == ScanSpread(tickers, fetch, stop)
    {
      var outcome := FetchAndScreen(tickers[i], fetch);
      if outcome.Skipped? {
        continue;
      }
      if outcome.Matched? {
        results := results + [outcome.m];
      }
      var answer := stop(|reports|);
      reports := reports + [Report(i + 1, total)];
      if answer {
        break;
      }
    }
  }

  /** The records of the first `n` tickers, in order. */
  function MatchesUpTo(tickers: seq<string>, verdict: string -> Outcome, n: nat): seq<SpreadMatch>
    requires n <= |tickers|
  {
    if n == 0 then []
    else
      MatchesUpTo(tickers, verdict, n - 1) +
      match verdict(tickers[n - 1])
      case Matched(m) => [m]
      case _ => []
  }

  /** The reports the first `n` tickers send: one, `(k + 1, total)`, per ticker `k` that was not skipped. */
  function ReportsUpTo(tickers: seq<string>, verdict: string -> Outcome, n: nat): seq<Report>
    requires n <= |tickers|
  {
    if n == 0 then []
    else
      ReportsUpTo(tickers, verdict, n - 1) +
      (if verdict(tickers[n - 1]).Skipped? then [] else [Report(n, |tickers|)])
  }

  /** The scan processed exactly the first `n` tickers and ended the way `run` says. */
  predicate IsCut(tickers: seq<string>, verdict: string -> Outcome, stop: nat -> bool, n: nat, run: SpreadRun)
    requires n <= |tickers|
  {
    && run.results == MatchesUpTo(tickers, verdict, n)
    && run.reports == ReportsUpTo(tickers, verdict, n)
    && (run.stopped ==>
          && |run.reports| > 0 && AnsweredGoOn(stop, |run.reports| - 1) && stop(|run.reports| - 1)
          && run.reports[|run.reports| - 1].current == n)
    && (!run.stopped ==> n == |tickers| && AnsweredGoOn(stop, |run.reports|))
  }

  lemma {:induction false} RunFromCut(tickers: seq<string>, verdict: string -> Outcome, stop: nat -> bool, i: nat, run: SpreadRun)
    requires i <= |tickers|
    requires run == SpreadRun(MatchesUpTo(tickers, verdict, i), ReportsUpTo(tickers, verdict, i), false)
    requires AnsweredGoOn(stop, |run.reports|)
    ensures exists n :: i <= n <= |tickers| && IsCut(tickers, verdict, stop, n, RunFrom(tickers, verdict, stop, i, run))
    decreases |tickers| - i
  {
    if i == |tickers| {
      assert RunFrom(tickers, verdict, stop, i, run) == run;
      assert IsCut(tickers, verdict, stop, i, run);
    } else {
      var next := Step(tickers, verdict, stop, i, run);
      assert RunFrom(tickers, verdict, stop, i, run) == RunFrom(tickers, verdict, stop, i + 1, next);
      if next.stopped {
        assert RunFrom(tickers, verdict, stop, i + 1, next) == next;
        assert IsCut(tickers, verdict, stop, i + 1, next);
      } else {
        RunFromCut(tickers, verdict, stop, i + 1, next);
      }
    }
  }

  /**
   * A scan processes a prefix `tickers[..n]` of the list: its records are exactly those of
   * that prefix, in order, and its reports exactly those the prefix sends. Either every
   * report was answered "go on" and `n` is the whole list, or the last report, the one for
   * index `n - 1`, was the first answered STOP.
   */
  lemma ScanIsPrefix(tickers: seq<string>, verdict: string -> Outcome, stop: nat -> bool)
    ensures exists n :: 0 <= n <= |tickers| && IsCut(tickers, verdict, stop, n, Scan(tickers, verdict, stop))
  {
    var start := SpreadRun([], [], false);
    assert start == SpreadRun(MatchesUpTo(tickers, verdict, 0), ReportsUpTo(tickers, verdict, 0), false);
    RunFromCut(tickers, verdict, stop, 0, start);
    assert Scan(tickers, verdict, stop) == RunFrom(tickers, verdict, stop, 0, start);
  }

  /** With a callback that never says STOP, the scan covers every ticker. */
  lemma ScanWithoutStop(tickers: seq<string>, verdict: string -> Outcome, stop: nat -> bool)
    requires forall k :: !stop(k)
    ensures Scan(tickers, verdict, stop).results == MatchesUpTo(tickers, verdict, |tickers|)
    ensures Scan(tickers, verdict, stop).reports == ReportsUpTo(tickers, verdict, |tickers|)
  {
    ScanIsPrefix(tickers, verdict, stop);
  }

  /**
   * The progress values the first `n` tickers send strictly increase, lie in `1..n`, carry
   * the list's length as total, and `k + 1` is among them iff ticker `k` was not skipped;
   * every record comes from a reported ticker, so there are no more records than reports.
   */
  lemma ReportsUpToShape(tickers: seq<string>, verdict: string -> Outcome, n: nat)
    requires n <= |tickers|
    ensures Increasing(ReportsUpTo(tickers, verdict, n))
    ensures Bounded(ReportsUpTo(tickers, verdict, n), |tickers|)
    ensures forall r :: r in ReportsUpTo(tickers, verdict, n) ==> 1 <= r.current <= n
    ensures forall k :: 0 <= k < n ==>
      (Report(k + 1, |tickers|) in ReportsUpTo(tickers, verdict, n) <==> !verdict(tickers[k]).Skipped?)
    ensures |MatchesUpTo(tickers, verdict, n)| <= |ReportsUpTo(tickers, verdict, n)| <= n
  {
    ReportsUpToOrder(tickers, verdict, n);
    ReportsUpToMembers(tickers, verdict, n);
  }

  lemma {:induction false} ReportsUpToOrder(tickers: seq<string>, verdict: string -> Outcome, n: nat)
    requires n <= |tickers|
    ensures Increasing(ReportsUpTo(tickers, verdict, n))
    ensures forall r :: r in ReportsUpTo(tickers, verdict, n) ==> 1 <= r.current <= n && r.total == |tickers|
    ensures |MatchesUpTo(tickers, verdict, n)| <= |ReportsUpTo(tickers, verdict, n)| <= n
  {
    ReportsUpToCount(tickers, verdict, n);
    if n > 0 {
      ReportsUpToOrder(tickers, verdict, n - 1);
      var prev := ReportsUpTo(tickers, verdict, n - 1);
      var all := ReportsUpTo(tickers, verdict, n);
      if !verdict(tickers[n - 1]).Skipped? {
        assert all == prev + [Report(n, |tickers|)];
        forall i, j | 0 <= i < j < |all| ensures all[i].current < all[j].current {
          assert all[i] == prev[i] && prev[i] in prev;
          if j < |prev| {
            assert all[j] == prev[j];
          }
        }
      }
    }
  }

  /** Each of the first `n` tickers adds at most one report, and at most one record only when it adds a report. */
  lemma {:induction false} ReportsUpToCount(tickers: seq<string>, verdict: string -> Outcome, n: nat)
    requires n <= |tickers|
    ensures |MatchesUpTo(tickers, verdict, n)| <= |ReportsUpTo(tickers, verdict, n)| <= n
  {
    if n > 0 {
      ReportsUpToCount(tickers, verdict, n - 1);
      var o := verdict(tickers[n - 1]);
      assert |MatchesUpTo(tickers, verdict, n)| == |MatchesUpTo(tickers, verdict, n - 1)| + if o.Matched? then 1 else 0;
      assert |ReportsUpTo(tickers, verdict, n)| == |ReportsUpTo(tickers, verdict, n - 1)| + if o.Skipped? then 0 else 1;
    }
  }

  lemma {:induction false} ReportsUpToMembers(tickers: seq<string>, verdict: string -> Outcome, n: nat)
    requires n <= |tickers|
    ensures forall r :: r in ReportsUpTo(tickers, verdict, n) ==> 1 <= r.current <= n
    ensures forall k :: 0 <= k < n ==>
      (Report(k + 1, |tickers|) in ReportsUpTo(tickers, verdict, n) <==> !verdict(tickers[k]).Skipped?)
  {
    if n > 0 {
      ReportsUpToMembers(tickers, verdict, n - 1);
      var prev := ReportsUpTo(tickers, verdict, n - 1);
      var all := ReportsUpTo(tickers, verdict, n);
      assert forall r :: r in all <==> r in prev || (r == Report(n, |tickers|) && !verdict(tickers[n - 1]).Skipped?);
    }
  }

  /** Each record is the one the screen produced for a ticker of the processed prefix. */
  lemma {:induction false} MatchesUpToOrigin(tickers: seq<string>, verdict: string -> Outcome, n: nat, j: nat)
    requires n <= |tickers|
    requires j < |MatchesUpTo(tickers, verdict, n)|
    ensures exists k :: 0 <= k < n && verdict(tickers[k]) == Matched(MatchesUpTo(tickers, verdict, n)[j])
  {
    var prev := MatchesUpTo(tickers, verdict, n - 1);
    if j < |prev| {
      MatchesUpToOrigin(tickers, verdict, n - 1, j);
    } else {
      assert verdict(tickers[n - 1]) == Matched(MatchesUpTo(tickers, verdict, n)[j]);
    }
  }

  /**
   * What a whole scan against a provider returns: at most one report per ticker, with
   * strictly increasing progress values out of the list's length, at most one record per
   * report, and every record one of the listed tickers that passed the screen, with its
   * spellings, `0.10 <= avg_daily_spread <= spread <= 1.00` and no "new" flag yet.
   */
  lemma ScanSpreadMeaning(tickers: seq<string>, fetch: Provider, stop: nat -> bool)
    ensures var run := ScanSpread(tickers, fetch, stop);
      && |run.results| <= |run.reports| <= |tickers|
      && Increasing(run.reports) && Bounded(run.reports, |tickers|)
      && forall m :: m in run.results ==>
           && m.ticker in tickers
           && m.yfSymbol == ProviderSymbol(m.ticker) && m.tvSymbol == ChartSymbol(m.ticker)
           && 0.10 <= m.avgDailySpread <= m.spread <= 1.00
           && m.isNew == None
  {
    var run := ScanSpread(tickers, fetch, stop);
    var verdict := Verdicts(fetch);
    ScanIsPrefix(tickers, verdict, stop);
    var n :| 0 <= n <= |tickers| && IsCut(tickers, verdict, stop, n, run);
    ReportsUpToShape(tickers, verdict, n);
    forall m | m in run.results
      ensures m.ticker in tickers && m.yfSymbol == ProviderSymbol(m.ticker) && m.tvSymbol == ChartSymbol(m.ticker)
      ensures 0.10 <= m.avgDailySpread <= m.spread <= 1.00 && m.isNew == None
    {
      var j :| 0 <= j < |run.results| && run.results[j] == m;
      MatchesUpToOrigin(tickers, verdict, n, j);
      var k :| 0 <= k < n && verdict(tickers[k]) == Matched(m);
      ScreenMeaning(tickers[k], FetchRows(tickers[k], fetch).value);
    }
  }

  /**
   * A ticker whose fetch raises adds no record but still sends its progress report, and
   * the callback's answer to that report decides whether the scan goes on.
   */
  lemma FailedFetchReports(tickers: seq<string>, fetch: Provider, stop: nat -> bool, i: nat, run: SpreadRun)
    requires i < |tickers|
    requires fetch(ProviderSymbol(tickers[i])) == None
    ensures Verdicts(fetch)(tickers[i]) == Failed
    ensures Step(tickers, Verdicts(fetch), stop, i, run)
         == SpreadRun(run.results, run.reports + [Report(i + 1, |tickers|)], stop(|run.reports|))
  {
  }

  /**
   * Two tickers, the first of whose fetch raises, with a callback that answers STOP to the
   * first report: the scan ends with no record, one report `(1, 2)`, and never screens the second.
   */
  lemma FailedFetchStops(a: string, b: string, fetch: Provider, stop: nat -> bool)
    requires fetch(ProviderSymbol(a)) == None
    requires stop(0)
    ensures ScanSpread([a, b], fetch, stop) == SpreadRun([], [Report(1, 2)], true)
  {
    var tickers := [a, b];
    var start := SpreadRun([], [], false);
    FailedFetchReports(tickers, fetch, stop, 0, start);
    var next := Step(tickers, Verdicts(fetch), stop, 0, start);
    assert next == SpreadRun([], [Report(1, 2)], true);
    assert RunFrom(tickers, Verdicts(fetch), stop, 1, next) == next;
  }
}
