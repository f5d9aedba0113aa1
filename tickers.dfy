/**
 * Ticker spelling translation (`parse_ticker_yf`, `parse_ticker_tv` in logic.py).
 * A ticker with exactly one dash, `BASE-SUF`, is spelled `BASE-PSUF` for the
 * market-data provider and `BASE/PSUF` for the charting site; every other
 * ticker is passed through unchanged.
 */
module Tickers {
  import opened Text

  /** `parse_ticker_yf`: the provider's spelling of a user-facing ticker. */
  function ProviderSymbol(raw: string): string {
    if '-' in raw then
      var parts := Split(raw, '-');
      if |parts| == 2 then parts[0] + "-P" + parts[1] else raw
    else raw
  }

  /** `parse_ticker_tv`: the charting site's spelling of a user-facing ticker. */
  function ChartSymbol(raw: string): string {
    if '-' in raw then
      var parts := Split(raw, '-');
      if |parts| == 2 then parts[0] + "/P" + parts[1] else raw
    else raw
  }

  /** A ticker with exactly one dash splits into the text before it and the text after it. */
  lemma SplitAtOnlyDash(raw: string)
    requires CountChar(raw, '-') == 1
    ensures '-' in raw
    ensures var k := IndexOf(raw, '-'); Split(raw, '-') == [raw[..k], raw[k + 1..]]
  {
    CountCharAbsent(raw, '-');
    var k := IndexOf(raw, '-');
    CountCharSplitAt(raw, '-', k + 1);
    CountCharAbsent(raw[k + 1..], '-');
    CountCharAbsent(raw[..k], '-');
    CountCharSplitAt(raw[..k + 1], '-', k);
    assert raw[..k + 1][..k] == raw[..k];
    assert raw[..k + 1][k..] == [raw[k]];
    assert CountChar([raw[k]], '-') == 1;
  }

  /**
   * The provider spelling inserts `P` right after the only dash, whatever the
   * length of the suffix (`ABR-D` to `ABR-PD`, `ETI-` to `ETI-P`, `BAC-PL` to
   * `BAC-PPL`); a ticker with no dash or with several dashes is unchanged.
   */
  lemma ProviderSymbolRule(raw: string)
    ensures CountChar(raw, '-') == 1 ==>
      '-' in raw && var k := IndexOf(raw, '-'); ProviderSymbol(raw) == raw[..k] + "-P" + raw[k + 1..]
    ensures CountChar(raw, '-') != 1 ==> ProviderSymbol(raw) == raw
  {
    SplitCount(raw, '-');
    if CountChar(raw, '-') == 1 {
      SplitAtOnlyDash(raw);
    }
  }

  /**
   * The chart spelling is the provider spelling with the dash at the same
   * place replaced by `/`. Both add exactly one character when they rewrite:
   * the dash is kept (or turned into `/`) and a `P` is inserted after it.
   */
  lemma ChartMirrorsProvider(raw: string)
    ensures CountChar(raw, '-') == 1 ==> ('-' in raw &&
      var p, c, k := ProviderSymbol(raw), ChartSymbol(raw), IndexOf(raw, '-');
      && |p| == |raw| + 1 && |c| == |raw| + 1
      && p[k] == '-' && c[k] == '/' && p[k + 1] == 'P'
      && (forall i :: 0 <= i < |p| && i != k ==> p[i] == c[i]))
    ensures CountChar(raw, '-') != 1 ==> ChartSymbol(raw) == raw && ProviderSymbol(raw) == raw
  {
    SplitCount(raw, '-');
    if CountChar(raw, '-') == 1 {
      SplitAtOnlyDash(raw);
      var k := IndexOf(raw, '-');
      var p, c := ProviderSymbol(raw), ChartSymbol(raw);
      assert p == raw[..k] + "-P" + raw[k + 1..];
      assert c == raw[..k] + "/P" + raw[k + 1..];
      forall i | 0 <= i < |p| && i != k ensures p[i] == c[i] {
        if i < k {
          assert p[i] == raw[i] == c[i];
        } else if i > k + 1 {
          assert p[i] == raw[i - 1] == c[i];
        }
      }
    }
  }

  /** `ABR-D` becomes `ABR-PD` for the provider and `ABR/PD` for the chart. */
  lemma ExampleSingleLetter()
    ensures ProviderSymbol("ABR-D") == "ABR-PD"
    ensures ChartSymbol("ABR-D") == "ABR/PD"
  {
    var raw := "ABR-D";
    assert raw[3] == '-';
    assert IndexOf(raw, '-') == 3;
    assert raw[..3] == "ABR" && raw[4..] == "D";
    assert Split("D", '-') == ["D"];
  }

  /** `ETI-` becomes `ETI-P`: the empty suffix is still rewritten. */
  lemma ExampleEmptySuffix()
    ensures ProviderSymbol("ETI-") == "ETI-P"
  {
    var raw := "ETI-";
    assert raw[3] == '-';
    assert IndexOf(raw, '-') == 3;
    assert raw[..3] == "ETI" && raw[4..] == "";
    assert Split("", '-') == [""];
  }

  /** `BAC-PL` becomes `BAC-PPL`: a multi-letter suffix also gets the `P`. */
  lemma ExampleTwoLetters()
    ensures ProviderSymbol("BAC-PL") == "BAC-PPL"
  {
    var raw := "BAC-PL";
    assert raw[3] == '-';
    assert IndexOf(raw, '-') == 3;
    assert raw[..3] == "BAC" && raw[4..] == "PL";
    assert Split("PL", '-') == ["PL"];
  }

  /** A ticker with two dashes is left alone. */
  lemma ExampleTwoDashes()
    ensures ProviderSymbol("A-B-C") == "A-B-C"
  {
    var raw := "A-B-C";
    assert raw[1] == '-';
    assert IndexOf(raw, '-') == 1;
    assert raw[2..] == "B-C";
    assert "B-C"[1] == '-';
    assert IndexOf("B-C", '-') == 1;
    assert "B-C"[2..] == "C";
    assert Split("C", '-') == ["C"];
  }
}
