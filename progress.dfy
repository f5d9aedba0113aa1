/**
 * Progress reporting shared by both scan loops. The progress callback is
 * called with `(current, total)` and may answer `'STOP'`; its answers are an
 * oracle `stop` consulted with the ordinal of the report (0 for the first
 * report of a scan, 1 for the second, ...), so a callback whose answer
 * depends on when the user pressed a button is covered.
 */
module Progress {

  datatype Report = Report(current: nat, total: nat)

  /** Progress values that never go back. */
  predicate NonDecreasing(reports: seq<Report>) {
    forall i, j :: 0 <= i < j < |reports| ==> reports[i].current <= reports[j].current
  }

  /** Progress values that strictly increase. */
  predicate Increasing(reports: seq<Report>) {
    forall i, j :: 0 <= i < j < |reports| ==> reports[i].current < reports[j].current
  }

  /** Every report stays within `0..total` and names `total`. */
  predicate Bounded(reports: seq<Report>, total: nat) {
    forall i :: 0 <= i < |reports| ==> reports[i].current <= total && reports[i].total == total
  }

  /** The callback answered "go on" to each of the first `n` reports. */
  predicate AnsweredGoOn(stop: nat -> bool, n: nat) {
    forall k :: 0 <= k < n ==> !stop(k)
  }
}
