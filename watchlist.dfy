/**
 * The web application's bookkeeping (app.py): the watchlist cache that a refresh fills
 * from the ticker file, with its 24-hour skip rule, its status transitions and the
 * "new" marks on the results, and the one-off jobs of the spread finder. The
 * background threads become sequential calls: a refresh is `Begin` followed by
 * `Finish`, and a job is `FindSpreads` followed by `ProcessJob`.
 */
module Watchlist {
  import opened Wrappers
  import opened Text
  import opened Bars
  import opened Progress
  import opened SpreadScreen

  datatype Status = Idle | Processing | Completed | Error

  /** Seconds after which a watchlist result is stale. */
  const StaleAfter: real := 86400.0

  /** The progress callbacks of the application only record progress: they never say STOP. */
  function NoStop(k: nat): bool { false }

  /** The progress value a scan leaves behind: the last report's, or `p` if there was none. */
  function LastProgress(reports: seq<Report>, p: nat): nat {
    if |reports| == 0 then p else reports[|reports| - 1].current
  }

  /** The tickers of a result list. */
  function ResultTickers(rs: seq<SpreadMatch>): set<string> {
    set r | r in rs :: r.ticker
  }

  /** One result with its "new" flag set against the tickers `seen` before. */
  function Marked(r: SpreadMatch, seen: set<string>): SpreadMatch {
    r.(isNew := Some(r.ticker !in seen))
  }

  /** Every result marked against `seen`. */
  function MarkNew(rs: seq<SpreadMatch>, seen: set<string>): (ms: seq<SpreadMatch>)
    ensures |ms| == |rs|
  {
    if |rs| == 0 then []
    else MarkNew(rs[..|rs| - 1], seen) + [Marked(rs[|rs| - 1], seen)]
  }

  /** Entry `i` of the marked results is result `i` marked. */
  lemma {:induction false} MarkNewAt(rs: seq<SpreadMatch>, seen: set<string>, i: nat)
    requires i < |rs|
    ensures MarkNew(rs, seen)[i] == Marked(rs[i], seen)
  {
    if i < |rs| - 1 {
      MarkNewAt(rs[..|rs| - 1], seen, i);
    }
  }

  /**
   * A result is marked new iff its ticker was not seen before, and not new otherwise; the
   * marking changes no other field of any result.
   */
  lemma MarkNewMeaning(rs: seq<SpreadMatch>, seen: set<string>)
    ensures forall i :: 0 <= i < |rs| ==>
      && (MarkNew(rs, seen)[i].isNew == Some(true) <==> rs[i].ticker !in seen)
      && MarkNew(rs, seen)[i].isNew.Some?
      && MarkNew(rs, seen)[i].(isNew := rs[i].isNew) == rs[i]
  {
    forall i | 0 <= i < |rs|
      ensures MarkNew(rs, seen)[i] == Marked(rs[i], seen)
    {
      MarkNewAt(rs, seen, i);
    }
  }

  /** Marking twice against the same tickers is marking once. */
  lemma MarkNewIdempotent(rs: seq<SpreadMatch>, seen: set<string>)
    ensures MarkNew(MarkNew(rs, seen), seen) == MarkNew(rs, seen)
  {
    var once := MarkNew(rs, seen);
    forall i | 0 <= i < |rs| ensures MarkNew(once, seen)[i] == once[i] {
      MarkNewAt(rs, seen, i);
      MarkNewAt(once, seen, i);
    }
  }

  /** The in-place marking loop over the results. */
  method MarkNewInPlace(a: array<SpreadMatch>, seen: set<string>)
    modifies a
    ensures a[..] == MarkNew(old(a[..]), seen)
  {
    ghost var rs := a[..];
    for i := 0 to a.Length
      invariant a[..i] == MarkNew(rs[..i], seen)
      invariant a[i..] == rs[i..]
    {
      assert rs[..i + 1][..i] == rs[..i];
      assert a[i] == rs[i];
      a[i] := Marked(a[i], seen);
      assert a[..i + 1] == a[..i] + [a[i]];
    }
    assert rs[..a.Length] == rs;
    assert a[..a.Length] == a[..];
  }

  /** The marking of a fresh result list, done in place on a copy. */
  method MarkResults(found: seq<SpreadMatch>, seen: set<string>) returns (marked: seq<SpreadMatch>)
    ensures marked == MarkNew(found, seen)
  {
    var a := new SpreadMatch[|found|](i requires 0 <= i < |found| => found[i]);
    assert a[..] == found;
    MarkNewInPlace(a, seen);
    marked := a[..];
  }

  /** The watchlist cache, as a value. */
  datatype Cache = Cache(status: Status, lastUpdated: Option<string>, lastUpdatedTs: real,
                         results: seq<SpreadMatch>, progress: nat, total: nat)

  /** A refresh that is not forced is skipped while non-empty results are less than a day old. */
  predicate Skips(c: Cache, force: bool, now: real) {
    !force && now - c.lastUpdatedTs < StaleAfter && |c.results| > 0
  }

  /** The start of a refresh: processing, from progress 0. */
  function Begun(c: Cache): Cache {
    c.(status := Processing, progress := 0)
  }

  /**
   * The rest of a refresh, given the ticker file's contents (`None` when it cannot be
   * read): the file's distinct tickers are screened and the records, marked against the
   * previous results, replace them; an unreadable file only sets the error status.
   */
  function Finished(c: Cache, now: real, stamp: string, content: Option<string>, fetch: Provider): Cache {
    match content
    case None => c.(status := Error)
    case Some(text) =>
      var unique := Dedup(SplitTickerList(text));
      var run := ScanSpread(unique, fetch, NoStop);
      c.(total := |unique|, progress := LastProgress(run.reports, c.progress),
         results := MarkNew(run.results, ResultTickers(c.results)),
         status := Completed, lastUpdated := Some(stamp), lastUpdatedTs := now)
  }

  /** A whole refresh. */
  function Refreshed(c: Cache, force: bool, now: real, stamp: string, content: Option<string>,
                     fetch: Provider): Cache {
    if Skips(c, force, now) then c else Finished(Begun(c), now, stamp, content, fetch)
  }

  /**
   * A skipped refresh changes nothing. Otherwise an unreadable file leaves the previous
   * results, time stamps and total, with status error and progress 0; a readable one ends
   * completed at time `now`, with the number of distinct file entries as total, progress
   * within that total, at most one record per distinct entry, each record's ticker one of
   * the file's entries, and each record new iff its ticker is not among the previous results'.
   */
  lemma RefreshMeaning(c: Cache, force: bool, now: real, stamp: string, content: Option<string>,
                       fetch: Provider)
    ensures Skips(c, force, now) ==> Refreshed(c, force, now, stamp, content, fetch) == c
    ensures !Skips(c, force, now) && content.None? ==>
      Refreshed(c, force, now, stamp, content, fetch) == c.(status := Error, progress := 0)
    ensures !Skips(c, force, now) && content.Some? ==>
      var d := Refreshed(c, force, now, stamp, content, fetch);
      var entries := SplitTickerList(content.value);
      && d.status == Completed && d.lastUpdatedTs == now && d.lastUpdated == Some(stamp)
      && d.total == |Dedup(entries)| && d.progress <= d.total && |d.results| <= d.total
      && forall i :: 0 <= i < |d.results| ==>
           && d.results[i].ticker in entries
           && (d.results[i].isNew == Some(true) <==> d.results[i].ticker !in ResultTickers(c.results))
  {
    if !Skips(c, force, now) && content.Some? {
      var unique := Dedup(SplitTickerList(content.value));
      var run := ScanSpread(unique, fetch, NoStop);
      ScanSpreadMeaning(unique, fetch, NoStop);
      MarkNewMeaning(run.results, ResultTickers(c.results));
      if |run.reports| > 0 {
        assert run.reports[|run.reports| - 1].current <= |unique|;
      }
      forall i | 0 <= i < |run.results| ensures run.results[i].ticker in unique {
        assert run.results[i] in run.results;
      }
    }
  }

  /** A list the refresh screens holds each non-blank entry of the file once, stripped. */
  lemma RefreshList(text: string)
    ensures NoDup(Dedup(SplitTickerList(text)))
    ensures forall t :: t in Dedup(SplitTickerList(text)) <==> t in SplitTickerList(text)
    ensures forall t :: t in Dedup(SplitTickerList(text)) ==> IsListEntry(t)
  {
  }

  /** A refresh request that is not rejected is forced: it runs and ends completed or in error. */
  lemma ForcedRefreshRuns(c: Cache, now: real, stamp: string, content: Option<string>, fetch: Provider)
    ensures Refreshed(c, true, now, stamp, content, fetch).status in {Completed, Error}
    ensures Refreshed(c, true, now, stamp, content, fetch).results ==
      if content.None? then c.results
      else MarkNew(ScanSpread(Dedup(SplitTickerList(content.value)), fetch, NoStop).results, ResultTickers(c.results))
  {
  }

  /** The watchlist cache of the application. */
  class PrefsCache {
    var status: Status
    var lastUpdated: Option<string>
    var lastUpdatedTs: real
    var results: seq<SpreadMatch>
    var progress: nat
    var total: nat

    function Snapshot(): Cache
      reads this
    {
      Cache(status, lastUpdated, lastUpdatedTs, results, progress, total)
    }

    /** The cache at start-up, before any history is loaded. */
    constructor ()
      ensures Snapshot() == Cache(Idle, None, 0.0, [], 0, 0)
    {
      status, lastUpdated, lastUpdatedTs := Idle, None, 0.0;
      results, progress, total := [], 0, 0;
    }

    /** The skip check and the switch to processing. */
    method Begin(force: bool, now: real) returns (go: bool)
      modifies this
      ensures go == !Skips(old(Snapshot()), force, now)
      ensures Snapshot() == if go then Begun(old(Snapshot())) else old(Snapshot())
    {
      if !force && now - lastUpdatedTs < StaleAfter && |results| > 0 {
        return false;
      }
      status := Processing;
      progress := 0;
      return true;
    }

    /** Reading the ticker file, the scan, the marking, and the final status. */
    method Finish(now: real, stamp: string, content: Option<string>, fetch: Provider)
      modifies this
      ensures Snapshot() == Finished(old(Snapshot()), now, stamp, content, fetch)
    {
      var oldTickers := ResultTickers(results);
      if content.None? {
        status := Error;
        return;
      }
      var tickers := SplitTickerList(content.value);
      var unique := Dedup(tickers);
      total := |unique|;
      var found, reports := FetchAndProcess(unique, fetch, NoStop);
      if |reports| > 0 {
        progress := reports[|reports| - 1].current;
      }
      results := MarkResults(found, oldTickers);
      status := Completed;
      lastUpdated := Some(stamp);
      lastUpdatedTs := now;
    }

    /** `load_and_analyze_prefs`: one refresh, run to its end. */
    method Refresh(force: bool, now: real, stamp: string, content: Option<string>, fetch: Provider)
      modifies this
      ensures Snapshot() == Refreshed(old(Snapshot()), force, now, stamp, content, fetch)
    {
      var go := Begin(force, now);
      if go {
        Finish(now, stamp, content, fetch);
      }
    }

    /** `refresh_prefs`: rejected while a refresh is processing, else a forced refresh. */
    method RequestRefresh(now: real, stamp: string, content: Option<string>, fetch: Provider)
      returns (started: bool)
      modifies this
      ensures started <==> old(status) != Processing
      ensures !started ==> Snapshot() == old(Snapshot())
      ensures started ==> Snapshot() == Refreshed(old(Snapshot()), true, now, stamp, content, fetch)
    {
      if status == Processing {
        return false;
      }
      Refresh(true, now, stamp, content, fetch);
      return true;
    }
  }

  /** A spread-finder job. */
  datatype Job = Job(status: Status, progress: nat, total: nat, results: seq<SpreadMatch>)

  /** `find_spreads` on the jobs: nothing for empty text, else a new processing job under `jobId`. */
  function Submitted(jobs: map<string, Job>, rawText: string, jobId: string): map<string, Job> {
    if rawText == "" then jobs
    else jobs[jobId := Job(Processing, 0, |SplitTickerList(rawText)|, [])]
  }

  /** `process_job` on the jobs: the job's scan results, its last progress, and completed. */
  function Processed(jobs: map<string, Job>, jobId: string, tickers: seq<string>, fetch: Provider): map<string, Job> {
    if jobId !in jobs then jobs
    else
      var run := ScanSpread(tickers, fetch, NoStop);
      jobs[jobId := jobs[jobId].(results := run.results, status := Completed,
                                 progress := LastProgress(run.reports, jobs[jobId].progress))]
  }

  /**
   * Empty ticker text creates no job. Other text creates a processing job at progress 0
   * whose total is the number of entries in the text, leaving every other job as it was;
   * once processed, the job is completed with progress within its total, at most one
   * record per entry, and every record's ticker one of the entries.
   */
  lemma JobMeaning(jobs: map<string, Job>, rawText: string, jobId: string, fetch: Provider)
    ensures rawText == "" ==> Submitted(jobs, rawText, jobId) == jobs
    ensures rawText != "" ==>
      var entries := SplitTickerList(rawText);
      var submitted := Submitted(jobs, rawText, jobId);
      var done := Processed(submitted, jobId, entries, fetch);
      && submitted[jobId] == Job(Processing, 0, |entries|, [])
      && (forall k :: k in jobs && k != jobId ==> k in submitted && submitted[k] == jobs[k])
      && done.Keys == submitted.Keys
      && done[jobId].status == Completed && done[jobId].total == |entries|
      && done[jobId].progress <= |entries| && |done[jobId].results| <= |entries|
      && forall m :: m in done[jobId].results ==> m.ticker in entries
  {
    if rawText != "" {
      var entries := SplitTickerList(rawText);
      var run := ScanSpread(entries, fetch, NoStop);
      ScanSpreadMeaning(entries, fetch, NoStop);
      if |run.reports| > 0 {
        assert run.reports[|run.reports| - 1].current <= |entries|;
      }
    }
  }

  /** The jobs of the spread finder, by id. */
  class JobBoard {
    var jobs: map<string, Job>

    constructor ()
      ensures jobs == map[]
    {
      jobs := map[];
    }

    /**
     * `find_spreads`: an error for empty text; otherwise the job `jobId` (a fresh id in
     * the application) is recorded and the entries it is to screen are returned.
     */
    method FindSpreads(rawText: string, jobId: string) returns (answer: Result<string, string>, tickers: seq<string>)
      modifies this
      ensures answer.Err? <==> rawText == ""
      ensures answer.Ok? ==> answer.value == jobId && tickers == SplitTickerList(rawText)
      ensures jobs == Submitted(old(jobs), rawText, jobId)
    {
      if rawText == "" {
        return Err("No tickers provided"), [];
      }
      tickers := SplitTickerList(rawText);
      jobs := jobs[jobId := Job(Processing, 0, |tickers|, [])];
      answer := Ok(jobId);
    }

    /** `process_job`: screens the job's tickers and records the outcome on the job. */
    method ProcessJob(jobId: string, tickers: seq<string>, fetch: Provider)
      modifies this
      ensures jobs == Processed(old(jobs), jobId, tickers, fetch)
    {
      if jobId !in jobs {
        return;
      }
      var found, reports := FetchAndProcess(tickers, fetch, NoStop);
      var job := jobs[jobId];
      if |reports| > 0 {
        job := job.(progress := reports[|reports| - 1].current);
      }
      jobs := jobs[jobId := job.(results := found, status := Completed)];
    }
  }
}
