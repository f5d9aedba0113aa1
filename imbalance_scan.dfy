/**
 * The wick-imbalance screen (`fetch_imbalance` in logic.py). Over the most
 * recent `days` bars it counts green bars (close above open) whose lower wick
 * `Open - Low` is small and red bars (close below open) whose upper wick
 * `High - Open` is small; enough green bars label the ticker "Long", failing
 * that enough red bars label it "Short". Tickers are translated to provider
 * symbols, duplicates collapse, and the symbols are downloaded in chunks of ten
 * with a progress report before each chunk and after each symbol.
 */
module ImbalanceScreen {
  import opened Wrappers
  import opened Text
  import opened Tickers
  import opened Bars
  import opened Progress

  const ChunkSize: nat := 10
  const MinRows: nat := 15
  /** Slack added to both wick limits. */
  const WickSlack: real := 0.00001

  /** The caller's parameters: `days`, `min_green_bars`, `min_red_bars`, `long_wick_size`, `short_wick_size`. */
  datatype Params = Params(days: nat, minGreen: int, minRed: int, longWick: real, shortWick: real)

  /** The defaults of `fetch_imbalance`. */
  const DefaultParams := Params(20, 12, 12, 0.05, 0.05)

  datatype ImbalanceMatch = ImbalanceMatch(
    ticker: string,
    kind: Label,
    greenCount: nat,
    redCount: nat,
    tvSymbol: string,
    yfSymbol: string)

  predicate ValidGreen(b: Bar, p: Params) {
    b.close > b.open && b.open - b.low <= p.longWick + WickSlack
  }

  predicate ValidRed(b: Bar, p: Params) {
    b.close < b.open && b.high - b.open <= p.shortWick + WickSlack
  }

  function CountGreen(bars: seq<Bar>, p: Params): nat {
    if |bars| == 0 then 0 else (if ValidGreen(bars[0], p) then 1 else 0) + CountGreen(bars[1..], p)
  }

  function CountRed(bars: seq<Bar>, p: Params): nat {
    if |bars| == 0 then 0 else (if ValidRed(bars[0], p) then 1 else 0) + CountRed(bars[1..], p)
  }

  /** No bar is both green and red, so the two counts together never exceed the number of bars. */
  lemma {:induction false} CountsDisjoint(bars: seq<Bar>, p: Params)
    ensures CountGreen(bars, p) + CountRed(bars, p) <= |bars|
  {
    if |bars| > 0 {
      CountsDisjoint(bars[1..], p);
    }
  }

  /**
   * The verdict for one symbol's frame: nothing when fewer than 15 rows carry
   * data, otherwise a record labelled by the counts over the last `days` bars.
   */
  function Evaluate(sym: string, raw: string, rows: seq<Row>, p: Params): Option<ImbalanceMatch> {
    var bars := Present(rows);
    if |bars| < MinRows then None
    else
      var slice := Tail(bars, p.days);
      var green, red := CountGreen(slice, p), CountRed(slice, p);
      if green >= p.minGreen then Some(ImbalanceMatch(raw, Long, green, red, ChartSymbol(raw), sym))
      else if red >= p.minRed then Some(ImbalanceMatch(raw, Short, green, red, ChartSymbol(raw), sym))
      else None
  }

  /**
   * A frame yields a record iff at least 15 of its rows carry data and one of the two
   * counts reaches its minimum. The label is "Long" iff the green count reaches its
   * minimum, and "Short" only when it does not; the counts are those of the last `days`
   * bars and together are at most `min(days, bars with data)`.
   */
  lemma EvaluateMeaning(sym: string, raw: string, rows: seq<Row>, p: Params)
    ensures var bars := Present(rows);
      && (Evaluate(sym, raw, rows, p).Some? <==>
            |bars| >= 15 && (CountGreen(Tail(bars, p.days), p) >= p.minGreen || CountRed(Tail(bars, p.days), p) >= p.minRed))
    ensures Evaluate(sym, raw, rows, p).Some? ==>
      var m, bars := Evaluate(sym, raw, rows, p).value, Present(rows);
      && m.ticker == raw && m.yfSymbol == sym && m.tvSymbol == ChartSymbol(raw)
      && m.greenCount == CountGreen(Tail(bars, p.days), p)
      && m.redCount == CountRed(Tail(bars, p.days), p)
      && (m.kind == Long <==> m.greenCount >= p.minGreen)
      && (m.kind == Short ==> m.redCount >= p.minRed)
      && m.greenCount + m.redCount <= p.days
      && m.greenCount + m.redCount <= |bars|
  {
    var bars := Present(rows);
    if |bars| >= MinRows {
      CountsDisjoint(Tail(bars, p.days), p);
    }
  }

  /** The provider symbol of every ticker, in input order. */
  function ProviderSymbols(tickers: seq<string>): (syms: seq<string>)
    ensures |syms| == |tickers|
    ensures forall i :: 0 <= i < |tickers| ==> syms[i] == ProviderSymbol(tickers[i])
  {
    seq(|tickers|, i requires 0 <= i < |tickers| => ProviderSymbol(tickers[i]))
  }

  /** `ticker_map`: each provider symbol to the last ticker that translates to it. */
  function TickerMap(tickers: seq<string>): map<string, string> {
    if |tickers| == 0 then map[]
    else
      var last := tickers[|tickers| - 1];
      TickerMap(tickers[..|tickers| - 1])[ProviderSymbol(last) := last]
  }

  /** `tickers[i]` is the last of the tickers whose provider symbol is `s`. */
  predicate LastWith(tickers: seq<string>, i: int, s: string) {
    && 0 <= i < |tickers| && ProviderSymbol(tickers[i]) == s
    && forall j :: i < j < |tickers| ==> ProviderSymbol(tickers[j]) != s
  }

  /**
   * The map's keys are exactly the provider symbols of the tickers, and each key maps to
   * the last ticker in the list whose provider symbol it is.
   */
  lemma TickerMapMeaning(tickers: seq<string>)
    ensures forall s :: s in TickerMap(tickers) <==> s in ProviderSymbols(tickers)
    ensures forall s :: s in TickerMap(tickers) ==>
      exists i :: LastWith(tickers, i, s) && tickers[i] == TickerMap(tickers)[s]
  {
    TickerMapKeys(tickers);
    forall s | s in TickerMap(tickers)
      ensures exists i :: LastWith(tickers, i, s) && tickers[i] == TickerMap(tickers)[s]
    {
      TickerMapAt(tickers, s);
    }
  }

  lemma {:induction false} TickerMapKeys(tickers: seq<string>)
    ensures forall s :: s in TickerMap(tickers) <==> s in ProviderSymbols(tickers)
  {
    if |tickers| > 0 {
      var init := tickers[..|tickers| - 1];
      TickerMapKeys(init);
      assert ProviderSymbols(tickers) == ProviderSymbols(init) + [ProviderSymbol(tickers[|tickers| - 1])];
    }
  }

  lemma {:induction false} TickerMapAt(tickers: seq<string>, s: string)
    requires s in TickerMap(tickers)
    ensures exists i :: LastWith(tickers, i, s) && tickers[i] == TickerMap(tickers)[s]
  {
    var n := |tickers|;
    var init, last := tickers[..n - 1], tickers[n - 1];
    if s == ProviderSymbol(last) {
      assert LastWith(tickers, n - 1, s) && tickers[n - 1] == TickerMap(tickers)[s];
    } else {
      assert TickerMap(tickers)[s] == TickerMap(init)[s];
      TickerMapAt(init, s);
      var i :| LastWith(init, i, s) && init[i] == TickerMap(init)[s];
      assert tickers[i] == init[i];
      assert forall j :: i < j < n ==> ProviderSymbol(tickers[j]) != s by {
        assert forall j :: i < j < n - 1 ==> tickers[j] == init[j];
      }
      assert LastWith(tickers, i, s);
    }
  }

  /** `ticker_map.keys()`: the distinct provider symbols, in order of first appearance. */
  function SymbolList(tickers: seq<string>): (syms: seq<string>)
    ensures NoDup(syms) && |syms| <= |tickers|
    ensures forall s :: s in syms <==> s in TickerMap(tickers)
  {
    TickerMapMeaning(tickers);
    Dedup(ProviderSymbols(tickers))
  }

  /** The download of one chunk: a frame per symbol it found, or a failure of the whole chunk. */
  type Download = seq<string> -> Option<map<string, seq<Row>>>

  /** The test of one frame: provider symbol, ticker and rows to a record or nothing. */
  type Judge = (string, string, seq<Row>) -> Option<ImbalanceMatch>

  /** `Evaluate` under fixed parameters. */
  function Judgement(p: Params): Judge {
    (sym: string, raw: string, rows: seq<Row>) => Evaluate(sym, raw, rows, p)
  }

  /** A test whose records name the symbol and ticker they were made for. */
  ghost predicate NamesItsInputs(judge: Judge) {
    forall sym, raw, rows :: judge(sym, raw, rows).Some? ==>
      var m := judge(sym, raw, rows).value;
      m.yfSymbol == sym && m.ticker == raw && m.tvSymbol == ChartSymbol(raw)
  }

  lemma JudgementNames(p: Params)
    ensures NamesItsInputs(Judgement(p))
  {
    forall sym, raw, rows {
      EvaluateMeaning(sym, raw, rows, p);
    }
  }

  /**
   * Everything a scan consults apart from the progress callback. The frame test is a
   * field so that the scan's bookkeeping is proved once, whatever the test.
   */
  datatype Context = Context(
    syms: seq<string>,
    rawOf: map<string, string>,
    total: nat,
    evaluate: Judge,
    download: Download)

  predicate ValidContext(ctx: Context) {
    && NoDup(ctx.syms)
    && |ctx.syms| <= ctx.total
    && forall s :: s in ctx.syms ==> s in ctx.rawOf
  }

  function MakeContext(tickers: seq<string>, p: Params, download: Download): (ctx: Context)
    ensures ValidContext(ctx)
  {
    Context(SymbolList(tickers), TickerMap(tickers), |tickers|, Judgement(p), download)
  }

  function Min(a: nat, b: nat): nat { if a <= b then a else b }

  /** The chunk that starts at index `i`. */
  function ChunkAt(syms: seq<string>, i: nat): seq<string>
    requires i <= |syms|
  {
    syms[i..Min(i + ChunkSize, |syms|)]
  }

  /** How the scan ended: it ran out of symbols, or the callback said STOP before a chunk or after counting a symbol. */
  datatype Exit = Finished | StoppedBeforeChunk | StoppedAtSymbol

  datatype ImbalanceRun = ImbalanceRun(results: seq<ImbalanceMatch>, reports: seq<Report>, processed: nat, exit: Exit)

  /** The verdict for a symbol of a downloaded chunk: nothing when the download has no frame for it. */
  function FrameVerdict(ctx: Context, frames: map<string, seq<Row>>, sym: string): Option<ImbalanceMatch>
    requires ValidContext(ctx) && sym in ctx.syms
  {
    if sym in frames then ctx.evaluate(sym, ctx.rawOf[sym], frames[sym]) else None
  }

  /** Counting one symbol of a downloaded chunk, reporting, and evaluating it unless told to stop. */
  function SymbolStep(ctx: Context, stop: nat -> bool, frames: map<string, seq<Row>>, sym: string, run: ImbalanceRun): ImbalanceRun
    requires ValidContext(ctx) && sym in ctx.syms
  {
    Advance(run, ctx.total, stop(|run.reports|), FrameVerdict(ctx, frames, sym))
  }

  /** Counting a symbol and reporting; then, unless `stopped`, recording its verdict. */
  function Advance(run: ImbalanceRun, total: nat, stopped: bool, verdict: Option<ImbalanceMatch>): ImbalanceRun {
    var processed := run.processed + 1;
    var reports := run.reports + [Report(processed, total)];
    if stopped then ImbalanceRun(run.results, reports, processed, StoppedAtSymbol)
    else
      match verdict
      case Some(m) => ImbalanceRun(run.results + [m], reports, processed, Finished)
      case None => ImbalanceRun(run.results, reports, processed, Finished)
  }

  /** The symbols of a downloaded chunk from position `j` on. */
  function ChunkFrom(ctx: Context, stop: nat -> bool, chunk: seq<string>, frames: map<string, seq<Row>>, j: nat, run: ImbalanceRun): ImbalanceRun
    requires ValidContext(ctx) && j <= |chunk| && forall s :: s in chunk ==> s in ctx.syms
    decreases |chunk| - j
  {
    if run.exit != Finished || j == |chunk| then run
    else ChunkFrom(ctx, stop, chunk, frames, j + 1, SymbolStep(ctx, stop, frames, chunk[j], run))
  }

  /** One chunk: the report before it, then its download and its symbols, or the report of its failure. */
  function ChunkStep(ctx: Context, stop: nat -> bool, i: nat, run: ImbalanceRun): ImbalanceRun
    requires ValidContext(ctx) && i < |ctx.syms|
  {
    var reports := run.reports + [Report(run.processed, ctx.total)];
    if stop(|run.reports|) then ImbalanceRun(run.results, reports, run.processed, StoppedBeforeChunk)
    else
      var chunk := ChunkAt(ctx.syms, i);
      match ctx.download(chunk)
      case None =>
        var processed := run.processed + |chunk|;
        ImbalanceRun(run.results, reports + [Report(processed, ctx.total)], processed, Finished)
      case Some(frames) =>
        ChunkFrom(ctx, stop, chunk, frames, 0, ImbalanceRun(run.results, reports, run.processed, Finished))
  }

  /** The chunks starting at index `i`, `i + 10`, ... */
  function ChunksFrom(ctx: Context, stop: nat -> bool, i: nat, run: ImbalanceRun): ImbalanceRun
    requires ValidContext(ctx)
    decreases |ctx.syms| - i
  {
    if run.exit != Finished || i >= |ctx.syms| then run
    else ChunksFrom(ctx, stop, i + ChunkSize, ChunkStep(ctx, stop, i, run))
  }

  /** A whole scan over a context. */
  function Scan(ctx: Context, stop: nat -> bool): ImbalanceRun
    requires ValidContext(ctx)
  {
    var start := ImbalanceRun([], [], 0, Finished);
    if |ctx.syms| == 0 then start else ChunksFrom(ctx, stop, 0, start)
  }

  /** `fetch_imbalance` as a function of its inputs. */
  function ImbalanceScan(tickers: seq<string>, p: Params, download: Download, stop: nat -> bool): ImbalanceRun {
    Scan(MakeContext(tickers, p, download), stop)
  }

  /**
   * `fetch_imbalance`: builds the symbol map, then downloads the distinct provider
   * symbols in chunks of ten and screens each one, reporting before every chunk and
   * after counting every symbol.
   */
  method FetchImbalance(tickers: seq<string>, p: Params, download: Download, stop: nat -> bool)
    returns (results: seq<ImbalanceMatch>, reports: seq<Report>)
    ensures results == ImbalanceScan(tickers, p, download, stop).results
    ensures reports == ImbalanceScan(tickers, p, download, stop).reports
  {
    var ctx := Context(SymbolList(tickers), TickerMap(tickers), |tickers|, Judgement(p), download);
    if |ctx.syms| == 0 {
      return [], [];
    }
    results, reports := ScanChunks(ctx, stop);
  }

  /** The chunk loop of `fetch_imbalance`. */
  method ScanChunks(ctx: Context, stop: nat -> bool) returns (results: seq<ImbalanceMatch>, reports: seq<Report>)
    requires ValidContext(ctx) && |ctx.syms| > 0
    ensures results == Scan(ctx, stop).results
    ensures reports == Scan(ctx, stop).reports
  {
    results, reports := [], [];
    var processed: nat := 0;
    var i := 0;
    while i < |ctx.syms|
      invariant ChunksFrom(ctx, stop, i, ImbalanceRun(results, reports, processed, Finished)) == Scan(ctx, stop)
      decreases |ctx.syms| - i
    {
      ghost var before := ImbalanceRun(results, reports, processed, Finished);
      assert ChunksFrom(ctx, stop, i, before) == ChunksFrom(ctx, stop, i + ChunkSize, ChunkStep(ctx, stop, i, before));
      var answer := stop(|reports|);
      reports := reports + [Report(processed, ctx.total)];
      if answer {
        return;
      }
      var chunk := ChunkAt(ctx.syms, i);
      var data := ctx.download(chunk);
      if data.None? {
        processed := processed + |chunk|;
        reports := reports + [Report(processed, ctx.total)];
      } else {
        var stopped;
        results, reports, processed, stopped := ScreenChunk(ctx, stop, chunk, data.value, results, reports, processed);
        if stopped {
          return;
        }
      }
      i := i + ChunkSize;
    }
  }

  /** The per-symbol loop over one downloaded chunk; `stopped` says the callback answered STOP. */
  method ScreenChunk(ctx: Context, stop: nat -> bool, chunk: seq<string>, frames: map<string, seq<Row>>,
                     results0: seq<ImbalanceMatch>, reports0: seq<Report>, processed0: nat)
    returns (results: seq<ImbalanceMatch>, reports: seq<Report>, processed: nat, stopped: bool)
    requires ValidContext(ctx) && forall s :: s in chunk ==> s in ctx.syms
    ensures var last := ChunkFrom(ctx, stop, chunk, frames, 0, ImbalanceRun(results0, reports0, processed0, Finished));
      && results == last.results && reports == last.reports && processed == last.processed
      && stopped == (last.exit != Finished)
  {
    results, reports, processed := results0, reports0, processed0;
    ghost var start := ImbalanceRun(results0, reports0, processed0, Finished);
    for j := 0 to |chunk|
      invariant ChunkFrom(ctx, stop, chunk, frames, j, ImbalanceRun(results, reports, processed, Finished))
                == ChunkFrom(ctx, stop, chunk, frames, 0, start)
    {
      processed := processed + 1;
      var answer := stop(|reports|);
      reports := reports + [Report(processed, ctx.total)];
      if answer {
        return results, reports, processed, true;
      }
      var sym := chunk[j];
      if sym !in frames {
        continue;
      }
      var verdict := ctx.evaluate(sym, ctx.rawOf[sym], frames[sym]);
      if verdict.Some? {
        results := results + [verdict.value];
      }
    }
    stopped := false;
  }

  /** The verdict the scan reaches for the symbol at index `k` once its chunk is downloaded. */
  function SymbolVerdict(ctx: Context, k: nat): Option<ImbalanceMatch>
    requires ValidContext(ctx) && k < |ctx.syms|
  {
    match ctx.download(ChunkAt(ctx.syms, ChunkStart(k)))
    case None => None
    case Some(frames) => FrameVerdict(ctx, frames, ctx.syms[k])
  }

  /** The records of the first `n` symbols, in order. */
  function Collect(ctx: Context, n: nat): seq<ImbalanceMatch>
    requires ValidContext(ctx) && n <= |ctx.syms|
  {
    if n == 0 then []
    else
      Collect(ctx, n - 1) +
      match SymbolVerdict(ctx, n - 1)
      case Some(m) => [m]
      case None => []
  }

  /**
   * What holds of a run at every step: at most `processed` symbols counted, reports that
   * never go back and stay within the count, and the records of exactly the symbols
   * evaluated so far, which is all counted symbols except the one a STOP interrupted.
   */
  predicate RunInvariant(ctx: Context, run: ImbalanceRun)
    requires ValidContext(ctx)
  {
    && run.processed <= |ctx.syms|
    && NonDecreasing(run.reports)
    && ReportsWithin(run.reports, run.processed, ctx.total)
    && (run.exit == StoppedAtSymbol ==> run.processed >= 1 && run.results == Collect(ctx, run.processed - 1))
    && (run.exit != StoppedAtSymbol ==> run.results == Collect(ctx, run.processed))
    && (run.exit != Finished ==> |run.reports| > 0 && run.reports[|run.reports| - 1].current == run.processed)
  }

  /** Every report names `total` and a progress value of at most `bound`. */
  predicate ReportsWithin(reports: seq<Report>, bound: nat, total: nat) {
    forall r :: r in reports ==> r.current <= bound && r.total == total
  }

  /** Appending a report at or beyond every earlier one keeps the reports in order and within its value. */
  lemma AppendReport(reports: seq<Report>, r: Report, bound: nat)
    requires NonDecreasing(reports)
    requires ReportsWithin(reports, bound, r.total)
    requires bound <= r.current
    ensures NonDecreasing(reports + [r])
    ensures ReportsWithin(reports + [r], r.current, r.total)
  {
    var all := reports + [r];
    forall i, j | 0 <= i < j < |all| ensures all[i].current <= all[j].current {
      if j == |all| - 1 {
        assert all[i] in reports;
      }
    }
  }

  lemma ReportsWithinMore(reports: seq<Report>, bound: nat, larger: nat, total: nat)
    requires ReportsWithin(reports, bound, total) && bound <= larger
    ensures ReportsWithin(reports, larger, total)
  {
  }

  lemma NextChunkStart(i: nat)
    requires i % ChunkSize == 0
    ensures (i + ChunkSize) % ChunkSize == 0
  {
  }

  /** The index at which the chunk holding index `k` starts. */
  function ChunkStart(k: nat): (start: nat)
    ensures start <= k
  {
    if k < ChunkSize then 0 else ChunkStart(k - ChunkSize) + ChunkSize
  }

  lemma {:induction false} ChunkIndex(start: nat, j: nat)
    requires start % ChunkSize == 0 && j < ChunkSize
    ensures ChunkStart(start + j) == start
  {
    if start > 0 {
      ChunkIndex(start - ChunkSize, j);
    }
  }

  lemma SymbolStepInvariant(ctx: Context, stop: nat -> bool, start: nat, frames: map<string, seq<Row>>, j: nat, run: ImbalanceRun)
    requires ValidContext(ctx) && start < |ctx.syms| && start % ChunkSize == 0
    requires ctx.download(ChunkAt(ctx.syms, start)) == Some(frames)
    requires j < |ChunkAt(ctx.syms, start)|
    requires RunInvariant(ctx, run) && run.exit == Finished && run.processed == start + j
    ensures var next := SymbolStep(ctx, stop, frames, ChunkAt(ctx.syms, start)[j], run);
      RunInvariant(ctx, next) && next.exit != StoppedBeforeChunk && next.processed == start + j + 1
      && (!stop(|run.reports|) ==> next.exit == Finished)
  {
    CollectNext(ctx, start, frames, j);
    AdvanceInvariant(ctx, run, stop(|run.reports|), FrameVerdict(ctx, frames, ctx.syms[start + j]));
  }

  /** Advancing past symbol `k` keeps the invariant when its verdict is the one `Collect` records. */
  lemma AdvanceInvariant(ctx: Context, run: ImbalanceRun, stopped: bool, verdict: Option<ImbalanceMatch>)
    requires ValidContext(ctx) && run.processed < |ctx.syms|
    requires RunInvariant(ctx, run) && run.exit == Finished
    requires Collect(ctx, run.processed + 1) == Collect(ctx, run.processed) + if verdict.Some? then [verdict.value] else []
    ensures var next := Advance(run, ctx.total, stopped, verdict);
      RunInvariant(ctx, next) && next.exit != StoppedBeforeChunk && next.processed == run.processed + 1
      && (!stopped ==> next.exit == Finished)
  {
    var k := run.processed;
    var reports := run.reports + [Report(k + 1, ctx.total)];
    AppendReport(run.reports, Report(k + 1, ctx.total), k);
    var next := Advance(run, ctx.total, stopped, verdict);
    assert next.reports == reports && next.processed == k + 1;
    if stopped {
      assert next.exit == StoppedAtSymbol && next.results == Collect(ctx, k);
    } else {
      assert next.exit == Finished && next.results == Collect(ctx, k + 1);
    }
  }

  /** Evaluating the `j`-th symbol of a downloaded chunk extends the records as `Collect` says. */
  lemma CollectNext(ctx: Context, start: nat, frames: map<string, seq<Row>>, j: nat)
    requires ValidContext(ctx) && start < |ctx.syms| && start % ChunkSize == 0
    requires ctx.download(ChunkAt(ctx.syms, start)) == Some(frames)
    requires j < |ChunkAt(ctx.syms, start)|
    ensures ChunkAt(ctx.syms, start)[j] == ctx.syms[start + j]
    ensures var verdict := FrameVerdict(ctx, frames, ctx.syms[start + j]);
      Collect(ctx, start + j + 1) == Collect(ctx, start + j) + if verdict.Some? then [verdict.value] else []
  {
    ChunkIndex(start, j);
    assert SymbolVerdict(ctx, start + j) == FrameVerdict(ctx, frames, ctx.syms[start + j]);
  }

  lemma {:induction false} ChunkFromInvariant(ctx: Context, stop: nat -> bool, start: nat, frames: map<string, seq<Row>>, j: nat, run: ImbalanceRun)
    requires ValidContext(ctx) && start < |ctx.syms| && start % ChunkSize == 0
    requires ctx.download(ChunkAt(ctx.syms, start)) == Some(frames)
    requires j <= |ChunkAt(ctx.syms, start)|
    requires RunInvariant(ctx, run) && run.exit != StoppedBeforeChunk
    requires run.exit == Finished ==> run.processed == start + j
    ensures var last := ChunkFrom(ctx, stop, ChunkAt(ctx.syms, start), frames, j, run);
      && RunInvariant(ctx, last) && last.exit != StoppedBeforeChunk
      && (last.exit == Finished ==> last.processed == start + |ChunkAt(ctx.syms, start)|)
      && ((forall k :: !stop(k)) && run.exit == Finished ==> last.exit == Finished)
    decreases |ChunkAt(ctx.syms, start)| - j
  {
    var chunk := ChunkAt(ctx.syms, start);
    assert forall s :: s in chunk ==> s in ctx.syms;
    var last := ChunkFrom(ctx, stop, chunk, frames, j, run);
    if run.exit != Finished || j == |chunk| {
      assert last == run;
    } else {
      var next := SymbolStep(ctx, stop, frames, chunk[j], run);
      SymbolStepInvariant(ctx, stop, start, frames, j, run);
      ChunkFromInvariant(ctx, stop, start, frames, j + 1, next);
      assert last == ChunkFrom(ctx, stop, chunk, frames, j + 1, next);
    }
  }

  lemma ChunkStepInvariant(ctx: Context, stop: nat -> bool, i: nat, run: ImbalanceRun)
    requires ValidContext(ctx) && i < |ctx.syms| && i % ChunkSize == 0
    requires RunInvariant(ctx, run) && run.exit == Finished && run.processed == i
    ensures var next := ChunkStep(ctx, stop, i, run);
      && RunInvariant(ctx, next)
      && (next.exit == Finished ==> next.processed == Min(i + ChunkSize, |ctx.syms|))
      && ((forall k :: !stop(k)) ==> next.exit == Finished)
  {
    var reports := run.reports + [Report(run.processed, ctx.total)];
    AppendReport(run.reports, Report(run.processed, ctx.total), run.processed);
    var next := ChunkStep(ctx, stop, i, run);
    if stop(|run.reports|) {
      assert next == ImbalanceRun(run.results, reports, run.processed, StoppedBeforeChunk);
    } else {
      var chunk := ChunkAt(ctx.syms, i);
      assert |chunk| == Min(i + ChunkSize, |ctx.syms|) - i;
      var data := ctx.download(chunk);
      if data.None? {
        ChunkStepFailed(ctx, stop, i, run);
      } else {
        var first := ImbalanceRun(run.results, reports, run.processed, Finished);
        assert next == ChunkFrom(ctx, stop, chunk, data.value, 0, first);
        ChunkFromInvariant(ctx, stop, i, data.value, 0, first);
      }
    }
  }

  /**
   * A chunk whose download fails counts all its symbols and adds no records. Besides the
   * report sent before the chunk it sends one more, with the new count, whose answer is
   * not consulted: the scan goes on whatever the callback says.
   */
  lemma ChunkStepFailed(ctx: Context, stop: nat -> bool, i: nat, run: ImbalanceRun)
    requires ValidContext(ctx) && i < |ctx.syms| && i % ChunkSize == 0
    requires RunInvariant(ctx, run) && run.exit == Finished && run.processed == i
    requires !stop(|run.reports|) && ctx.download(ChunkAt(ctx.syms, i)).None?
    ensures var next := ChunkStep(ctx, stop, i, run);
      && RunInvariant(ctx, next) && next.exit == Finished
      && next.processed == i + |ChunkAt(ctx.syms, i)|
      && next.results == run.results
      && next.reports == run.reports + [Report(i, ctx.total), Report(i + |ChunkAt(ctx.syms, i)|, ctx.total)]
  {
    var chunk := ChunkAt(ctx.syms, i);
    var processed := run.processed + |chunk|;
    var reports := run.reports + [Report(run.processed, ctx.total)];
    AppendReport(run.reports, Report(run.processed, ctx.total), run.processed);
    var all := reports + [Report(processed, ctx.total)];
    ReportsWithinMore(reports, run.processed, processed, ctx.total);
    AppendReport(reports, Report(processed, ctx.total), processed);
    CollectFailedChunk(ctx, i, i + |chunk|);
    assert ChunkStep(ctx, stop, i, run) == ImbalanceRun(run.results, all, processed, Finished);
  }

  /** The symbols of a chunk whose download failed add no records. */
  lemma {:induction false} CollectFailedChunk(ctx: Context, start: nat, n: nat)
    requires ValidContext(ctx) && start < |ctx.syms| && start % ChunkSize == 0
    requires ctx.download(ChunkAt(ctx.syms, start)).None?
    requires start <= n <= start + |ChunkAt(ctx.syms, start)|
    ensures Collect(ctx, n) == Collect(ctx, start)
    decreases n
  {
    if n > start {
      ChunkIndex(start, n - 1 - start);
      assert SymbolVerdict(ctx, n - 1).None?;
      assert Collect(ctx, n) == Collect(ctx, n - 1);
      CollectFailedChunk(ctx, start, n - 1);
    }
  }

  lemma {:induction false} ChunksFromInvariant(ctx: Context, stop: nat -> bool, i: nat, run: ImbalanceRun)
    requires ValidContext(ctx) && i % ChunkSize == 0
    requires RunInvariant(ctx, run)
    requires run.exit == Finished ==> run.processed == Min(i, |ctx.syms|)
    ensures var last := ChunksFrom(ctx, stop, i, run);
      && RunInvariant(ctx, last)
      && (last.exit == Finished ==> last.processed == |ctx.syms|)
      && ((forall k :: !stop(k)) && run.exit == Finished ==> last.exit == Finished)
    decreases |ctx.syms| - i
  {
    var last := ChunksFrom(ctx, stop, i, run);
    if run.exit != Finished || i >= |ctx.syms| {
      assert last == run;
    } else {
      var next := ChunkStep(ctx, stop, i, run);
      ChunkStepInvariant(ctx, stop, i, run);
      NextChunkStart(i);
      ChunksFromInvariant(ctx, stop, i + ChunkSize, next);
      assert last == ChunksFrom(ctx, stop, i + ChunkSize, next);
    }
  }

  /**
   * What a whole scan returns: its records are those of the first `E` symbols, in order,
   * for some `E`; a STOP before a chunk leaves every counted symbol evaluated, a STOP after
   * counting a symbol leaves that symbol unevaluated, and a scan that was not stopped
   * evaluates every symbol. Progress never goes back and never exceeds the number of
   * tickers, which bounds the counted symbols too.
   */
  lemma ScanOutcome(ctx: Context, stop: nat -> bool)
    requires ValidContext(ctx)
    ensures var run := Scan(ctx, stop);
      && run.processed <= |ctx.syms| <= ctx.total
      && NonDecreasing(run.reports) && Bounded(run.reports, ctx.total)
      && (run.exit == Finished ==> run.results == Collect(ctx, |ctx.syms|))
      && (run.exit == StoppedBeforeChunk ==>
            run.results == Collect(ctx, run.processed)
            && |run.reports| > 0 && run.reports[|run.reports| - 1].current == run.processed)
      && (run.exit == StoppedAtSymbol ==>
            run.processed >= 1 && run.results == Collect(ctx, run.processed - 1)
            && |run.reports| > 0 && run.reports[|run.reports| - 1].current == run.processed)
      && ((forall k :: !stop(k)) ==> run.exit == Finished && run.results == Collect(ctx, |ctx.syms|))
  {
    var start := ImbalanceRun([], [], 0, Finished);
    if |ctx.syms| > 0 {
      ChunksFromInvariant(ctx, stop, 0, start);
    }
    var run := Scan(ctx, stop);
    forall i | 0 <= i < |run.reports| ensures run.reports[i].current <= ctx.total && run.reports[i].total == ctx.total {
      assert run.reports[i] in run.reports;
    }
  }

  /** A verdict for the symbol at index `k` is a record for that symbol and for the ticker the map gives it. */
  lemma SymbolVerdictNames(ctx: Context, k: nat)
    requires ValidContext(ctx) && NamesItsInputs(ctx.evaluate) && k < |ctx.syms|
    ensures SymbolVerdict(ctx, k).Some? ==>
      var m := SymbolVerdict(ctx, k).value;
      m.yfSymbol == ctx.syms[k] && m.ticker == ctx.rawOf[ctx.syms[k]] && m.tvSymbol == ChartSymbol(m.ticker)
  {
    var sym := ctx.syms[k];
    match ctx.download(ChunkAt(ctx.syms, ChunkStart(k)))
    case None =>
    case Some(frames) =>
      if sym in frames {
        assert SymbolVerdict(ctx, k) == ctx.evaluate(sym, ctx.rawOf[sym], frames[sym]);
      }
  }

  /**
   * The records of the first `n` symbols name distinct provider symbols from those `n`, in
   * the order of the symbol list, each with the ticker the map gives it.
   */
  lemma CollectShape(ctx: Context, n: nat)
    requires ValidContext(ctx) && NamesItsInputs(ctx.evaluate) && n <= |ctx.syms|
    ensures forall m :: m in Collect(ctx, n) ==>
      m.yfSymbol in ctx.syms[..n] && m.ticker == ctx.rawOf[m.yfSymbol] && m.tvSymbol == ChartSymbol(m.ticker)
    ensures NoDup(SymbolsOf(Collect(ctx, n)))
  {
    CollectNames(ctx, n);
    CollectDistinct(ctx, n);
  }

  lemma {:induction false} CollectNames(ctx: Context, n: nat)
    requires ValidContext(ctx) && NamesItsInputs(ctx.evaluate) && n <= |ctx.syms|
    ensures forall m :: m in Collect(ctx, n) ==>
      m.yfSymbol in ctx.syms[..n] && m.ticker == ctx.rawOf[m.yfSymbol] && m.tvSymbol == ChartSymbol(m.ticker)
  {
    if n > 0 {
      CollectNames(ctx, n - 1);
      SymbolVerdictNames(ctx, n - 1);
      assert ctx.syms[..n] == ctx.syms[..n - 1] + [ctx.syms[n - 1]];
      if SymbolVerdict(ctx, n - 1).Some? {
        assert Collect(ctx, n) == Collect(ctx, n - 1) + [SymbolVerdict(ctx, n - 1).value];
      } else {
        assert Collect(ctx, n) == Collect(ctx, n - 1);
      }
    }
  }

  lemma {:induction false} CollectDistinct(ctx: Context, n: nat)
    requires ValidContext(ctx) && NamesItsInputs(ctx.evaluate) && n <= |ctx.syms|
    ensures NoDup(SymbolsOf(Collect(ctx, n)))
  {
    if n > 0 {
      CollectDistinct(ctx, n - 1);
      CollectNames(ctx, n - 1);
      SymbolVerdictNames(ctx, n - 1);
      var prev := Collect(ctx, n - 1);
      var sym := ctx.syms[n - 1];
      if SymbolVerdict(ctx, n - 1).Some? {
        var m := SymbolVerdict(ctx, n - 1).value;
        assert Collect(ctx, n) == prev + [m];
        assert sym !in ctx.syms[..n - 1] by {
          assert forall k :: 0 <= k < n - 1 ==> ctx.syms[k] != ctx.syms[n - 1];
        }
        var names := SymbolsOf(prev + [m]);
        forall a, b | 0 <= a < b < |names| ensures names[a] != names[b] {
          if b == |names| - 1 {
            assert prev[a] in prev;
          } else {
            assert names[a] == SymbolsOf(prev)[a] && names[b] == SymbolsOf(prev)[b];
          }
        }
      } else {
        assert Collect(ctx, n) == prev;
      }
    }
  }

  function SymbolsOf(ms: seq<ImbalanceMatch>): (names: seq<string>)
    ensures |names| == |ms| && forall i :: 0 <= i < |ms| ==> names[i] == ms[i].yfSymbol
  {
    seq(|ms|, i requires 0 <= i < |ms| => ms[i].yfSymbol)
  }

  /**
   * From the tickers' point of view: every record is for one of the listed tickers, the
   * last listed one with its provider symbol, and no provider symbol gets two records.
   */
  lemma ImbalanceRecords(tickers: seq<string>, p: Params, download: Download, stop: nat -> bool)
    ensures var run := ImbalanceScan(tickers, p, download, stop);
      && run.processed <= |tickers|
      && NoDup(SymbolsOf(run.results))
      && forall m :: m in run.results ==>
           && m.ticker in tickers && ProviderSymbol(m.ticker) == m.yfSymbol && m.tvSymbol == ChartSymbol(m.ticker)
           && (forall j :: 0 <= j < |tickers| && ProviderSymbol(tickers[j]) == m.yfSymbol ==>
                 exists i :: j <= i < |tickers| && tickers[i] == m.ticker)
  {
    var ctx := MakeContext(tickers, p, download);
    var run := Scan(ctx, stop);
    assert run == ImbalanceScan(tickers, p, download, stop);
    ScanCollects(ctx, stop);
    JudgementNames(p);
    var n := Evaluated(ctx, run);
    CollectShape(ctx, n);
    forall m | m in run.results
      ensures m.ticker in tickers && ProviderSymbol(m.ticker) == m.yfSymbol && m.tvSymbol == ChartSymbol(m.ticker)
      ensures forall j :: 0 <= j < |tickers| && ProviderSymbol(tickers[j]) == m.yfSymbol ==>
                 exists i :: j <= i < |tickers| && tickers[i] == m.ticker
    {
      assert m.yfSymbol in ctx.syms;
      LastTicker(tickers, m.yfSymbol);
    }
  }

  /** How many symbols, from the start of the list, a run has evaluated. */
  function Evaluated(ctx: Context, run: ImbalanceRun): nat {
    match run.exit
    case Finished => |ctx.syms|
    case StoppedBeforeChunk => run.processed
    case StoppedAtSymbol => if run.processed == 0 then 0 else run.processed - 1
  }

  /** A scan's records are those of the symbols it evaluated, and it counts no more symbols than there are tickers. */
  lemma ScanCollects(ctx: Context, stop: nat -> bool)
    requires ValidContext(ctx)
    ensures var run := Scan(ctx, stop);
      && run.processed <= ctx.total
      && Evaluated(ctx, run) <= |ctx.syms|
      && run.results == Collect(ctx, Evaluated(ctx, run))
  {
    ScanOutcome(ctx, stop);
  }

  /** The ticker a symbol maps to is the last listed ticker with that provider symbol. */
  lemma LastTicker(tickers: seq<string>, s: string)
    requires s in TickerMap(tickers)
    ensures var t := TickerMap(tickers)[s];
      && t in tickers && ProviderSymbol(t) == s
      && forall j :: 0 <= j < |tickers| && ProviderSymbol(tickers[j]) == s ==>
           exists i :: j <= i < |tickers| && tickers[i] == t
  {
    TickerMapMeaning(tickers);
    var i :| LastWith(tickers, i, s) && tickers[i] == TickerMap(tickers)[s];
    forall j | 0 <= j < |tickers| && ProviderSymbol(tickers[j]) == s
      ensures exists i' :: j <= i' < |tickers| && tickers[i'] == TickerMap(tickers)[s]
    {
      assert j <= i;
    }
  }
}
