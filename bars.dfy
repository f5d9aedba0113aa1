/**
 * Daily price bars as the provider returns them, and the statistics both
 * screens take over them. Prices are exact reals, so thresholds such as
 * 1.00, 0.10 and 0.051 compare exactly.
 */
module Bars {
  import opened Wrappers

  datatype Bar = Bar(open: real, high: real, low: real, close: real)

  /** The pattern label a screen attaches to a match. */
  datatype Label = Long | Short

  /** One row of a provider frame: `None` is a row whose fields are all missing. */
  type Row = Option<Bar>

  /** The rows that carry data, in order (`dropna(how='all')`). */
  function Present(rows: seq<Row>): (bars: seq<Bar>)
    ensures |bars| <= |rows|
    ensures forall b :: b in bars <==> Some(b) in rows
  {
    if |rows| == 0 then []
    else
      var rest := Present(rows[1..]);
      assert forall r :: r in rows <==> r == rows[0] || r in rows[1..] by {
        assert rows == [rows[0]] + rows[1..];
      }
      match rows[0]
      case Some(b) => [b] + rest
      case None => rest
  }

  /** Appending a row appends its bar, when it has one: the bars keep the order and the repetitions of the rows. */
  lemma {:induction false} PresentSnoc(rows: seq<Row>, r: Row)
    ensures Present(rows + [r]) == Present(rows) + if r.Some? then [r.value] else []
  {
    if |rows| > 0 {
      assert (rows + [r])[1..] == rows[1..] + [r];
      PresentSnoc(rows[1..], r);
    }
  }

  /** The positions of `xs` that satisfy `p`. */
  function Positions<T>(xs: seq<T>, p: T -> bool): set<nat> {
    set i: nat | i < |xs| && p(xs[i])
  }

  /** One more element adds one position exactly when it satisfies `p`. */
  lemma PositionsSnoc<T>(xs: seq<T>, x: T, p: T -> bool)
    ensures |Positions(xs + [x], p)| == |Positions(xs, p)| + if p(x) then 1 else 0
  {
    var before, after := Positions(xs, p), Positions(xs + [x], p);
    assert forall i: nat :: i < |xs| ==> (xs + [x])[i] == xs[i];
    if p(x) {
      assert after == before + {|xs|};
    } else {
      assert after == before;
    }
  }

  /** There are as many bars as rows that carry data. */
  lemma {:induction false} PresentCount(rows: seq<Row>)
    ensures |Present(rows)| == |Positions(rows, (r: Row) => r.Some?)|
  {
    if |rows| > 0 {
      var n := |rows| - 1;
      PresentCount(rows[..n]);
      assert rows == rows[..n] + [rows[n]];
      PresentSnoc(rows[..n], rows[n]);
      PositionsSnoc(rows[..n], rows[n], (r: Row) => r.Some?);
    }
  }

  /** `max(High)` over a non-empty series: an upper bound that some bar attains. */
  function MaxHigh(bars: seq<Bar>): (m: real)
    requires |bars| > 0
    ensures forall i :: 0 <= i < |bars| ==> bars[i].high <= m
    ensures exists i :: 0 <= i < |bars| && bars[i].high == m
  {
    if |bars| == 1 then bars[0].high
    else
      var rest := MaxHigh(bars[1..]);
      assert forall i :: 1 <= i < |bars| ==> bars[i] == bars[1..][i - 1];
      if bars[0].high >= rest then bars[0].high else rest
  }

  /** `min(Low)` over a non-empty series: a lower bound that some bar attains. */
  function MinLow(bars: seq<Bar>): (m: real)
    requires |bars| > 0
    ensures forall i :: 0 <= i < |bars| ==> m <= bars[i].low
    ensures exists i :: 0 <= i < |bars| && bars[i].low == m
  {
    if |bars| == 1 then bars[0].low
    else
      var rest := MinLow(bars[1..]);
      assert forall i :: 1 <= i < |bars| ==> bars[i] == bars[1..][i - 1];
      if bars[0].low <= rest then bars[0].low else rest
  }

  /** The sum of the daily spreads `High - Low`. */
  function SpreadSum(bars: seq<Bar>): real {
    if |bars| == 0 then 0.0 else (bars[0].high - bars[0].low) + SpreadSum(bars[1..])
  }

  /** `mean(High - Low)`. */
  function MeanSpread(bars: seq<Bar>): real
    requires |bars| > 0
  {
    SpreadSum(bars) / (|bars| as real)
  }

  /** `tail(n)`: the last `n` bars, or all of them when there are fewer. */
  function Tail(bars: seq<Bar>, n: nat): (t: seq<Bar>)
    ensures |t| == if n < |bars| then n else |bars|
    ensures forall i :: 0 <= i < |t| ==> t[i] == bars[|bars| - |t| + i]
  {
    if n >= |bars| then bars else bars[|bars| - n..]
  }

  /** The sum of the daily spreads is at most the number of bars times any enclosing band. */
  lemma {:induction false} SpreadSumBound(bars: seq<Bar>, top: real, bottom: real)
    requires forall i :: 0 <= i < |bars| ==> bars[i].high <= top && bottom <= bars[i].low
    ensures SpreadSum(bars) <= (|bars| as real) * (top - bottom)
  {
    if |bars| > 0 {
      SpreadSumBound(bars[1..], top, bottom);
      assert forall i :: 0 <= i < |bars[1..]| ==> bars[1..][i] == bars[i + 1];
    }
  }

  /**
   * The mean daily spread is at most the width of any band that holds every
   * bar, in particular of `[min(Low), max(High)]`.
   */
  lemma MeanSpreadWithinBand(bars: seq<Bar>, top: real, bottom: real)
    requires |bars| > 0
    requires forall i :: 0 <= i < |bars| ==> bars[i].high <= top && bottom <= bars[i].low
    ensures MeanSpread(bars) <= top - bottom
  {
    var sum, w, n := SpreadSum(bars), top - bottom, |bars| as real;
    SpreadSumBound(bars, top, bottom);
    assert sum <= n * w;
    DivideBound(sum, n, w);
  }

  lemma DivideBound(s: real, n: real, r: real)
    requires n > 0.0 && s <= n * r
    ensures s / n <= r
  {
    var q := s / n;
    assert q * n == s;
    assert (q - r) * n <= 0.0;
  }
}
