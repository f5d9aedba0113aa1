/**
 * Series resolution (`resolve_series_ticker` in analyze_pff_prefs.py): which
 * preferred series a holdings row stands for. The CUSIP decides when there is
 * one (a fixed table, else a cached provider search); otherwise a weight/price
 * fingerprint of a top holding, then a " SERIES X" in the name, then price
 * bands for ABR, and failing all of them the base ticker itself.
 */
module Series {
  import opened Wrappers
  import opened Text

  /** `CUSIP_MAP`: CUSIPs whose series is known outright. */
  const CusipMap: map<string, string> := map[
    "038923850" := "ABR-F",
    "038923876" := "ABR-D",
    "038923868" := "ABR-E",
    "060505682" := "BAC-L",
    "94974B851" := "WFC-L",
    "65339F663" := "NEE-S"]

  const CusipWidth: nat := 9

  /** One entry of `FINGERPRINTS`: a base, a portfolio weight and a price range identify a series. */
  datatype Fingerprint = Fingerprint(base: string, weight: real, priceFrom: real, priceTo: real, resolved: string)

  /** `FINGERPRINTS`, in the order the table lists them. */
  const Fingerprints: seq<Fingerprint> := [
    Fingerprint("WFC", 2.39, 1200.0, 1300.0, "WFC-L"),
    Fingerprint("BAC", 1.37, 1200.0, 1300.0, "BAC-L"),
    Fingerprint("NEE", 1.21, 55.0, 58.0, "NEE-S"),
    Fingerprint("NEE", 0.83, 50.0, 53.0, "NEE-N"),
    Fingerprint("JPM", 1.00, 24.0, 26.0, "JPM-C"),
    Fingerprint("JPM", 0.91, 24.0, 26.0, "JPM-D")]

  /** How close a weight must be to a fingerprint's, exclusive. */
  const WeightTolerance: real := 0.02

  const SeriesMarker: string := " SERIES "

  /** What the provider's search for a CUSIP gave: an error, no quotes, or the first quote and its symbol if it has one. */
  datatype Lookup = Failed | NoQuotes | FirstQuote(symbol: Option<string>)

  function Abs(x: real): real { if x < 0.0 then -x else x }

  /** `ticker.upper().split('-')[0].strip()`. */
  function NormalizeTicker(ticker: string): string {
    Strip(Split(Upper(ticker), '-')[0])
  }

  /** `str(cusip).strip().zfill(9)`. */
  function NormalizeCusip(cusip: string): string {
    ZFill(Strip(cusip), CusipWidth)
  }

  /** The CUSIP branch is taken for a CUSIP whose text is not empty (`if cusip:`). */
  predicate HasCusip(cusip: Option<string>) {
    cusip.Some? && cusip.value != ""
  }

  predicate FingerprintMatches(f: Fingerprint, base: string, weight: real, price: real) {
    base == f.base && Abs(weight - f.weight) < WeightTolerance && f.priceFrom <= price <= f.priceTo
  }

  /** The series of the first entry that matches, if any. */
  function FirstFingerprint(fps: seq<Fingerprint>, base: string, weight: real, price: real): Option<string> {
    if |fps| == 0 then None
    else if FingerprintMatches(fps[0], base, weight, price) then Some(fps[0].resolved)
    else FirstFingerprint(fps[1..], base, weight, price)
  }

  /** `name.split(' SERIES ')[1]`: the text after the first marker, up to the next one. */
  function SeriesSegment(name: string): Option<string> {
    match Find(name, SeriesMarker)
    case None => None
    case Some(i) =>
      var rest := name[i + |SeriesMarker|..];
      match Find(rest, SeriesMarker)
      case None => Some(rest)
      case Some(j) => Some(rest[..j])
  }

  /** The series letter a name announces: the first character of the stripped segment, when it is a letter. */
  function SeriesLetter(name: string): Option<char> {
    match SeriesSegment(name)
    case None => None
    case Some(segment) =>
      var part := Strip(segment);
      if |part| > 0 && IsAlpha(part[0]) then Some(part[0]) else None
  }

  /** The price bands of the ABR series. */
  function AbrSeries(price: real): string {
    if price > 20.0 then "ABR-F" else if price > 17.52 then "ABR-E" else "ABR-D"
  }

  /** Resolution without a CUSIP: fingerprint, then series letter, then ABR bands, then the base. */
  function Heuristic(base: string, name: string, price: real, weight: Option<real>): string {
    var fp := if weight.Some? then FirstFingerprint(Fingerprints, base, weight.value, price) else None;
    if fp.Some? then fp.value
    else
      match SeriesLetter(name)
      case Some(c) => base + "-" + [c]
      case None => if base == "ABR" then AbrSeries(price) else base
  }

  /** The symbol a search yields: the first quote's symbol with "-P" turned into "-", else the base. */
  function FromSearch(lookup: Lookup, base: string): string {
    match lookup
    case FirstQuote(symbol) =>
      var resolved := symbol.GetOr(base);
      if Contains(resolved, "-P") then Replace(resolved, "-P", "-") else resolved
    case _ => base
  }

  /** A resolved ticker and the search cache after resolving it. */
  datatype Resolution = Resolution(ticker: string, cache: map<string, string>)

  /** `resolve_series_ticker` as a function of its inputs, the cache before the call and the search. */
  function Resolve(ticker: string, name: string, price: real, weight: Option<real>, cusip: Option<string>,
                   cache: map<string, string>, search: string -> Lookup): Resolution
  {
    var base := NormalizeTicker(ticker);
    if HasCusip(cusip) then
      var key := NormalizeCusip(cusip.value);
      if key in CusipMap then Resolution(CusipMap[key], cache)
      else if key in cache then Resolution(cache[key], cache)
      else
        var found := FromSearch(search(key), base);
        Resolution(found, cache[key := found])
    else Resolution(Heuristic(base, Upper(name), price, weight), cache)
  }

  /** The search cache (`RESOLUTION_CACHE`) and the resolution that consults it. */
  class SeriesResolver {
    var cache: map<string, string>

    constructor()
      ensures cache == map[]
    {
      cache := map[];
    }

    /** `resolve_series_ticker`. */
    method ResolveSeries(ticker: string, name: string, price: real, weight: Option<real>, cusip: Option<string>,
                         search: string -> Lookup) returns (r: string)
      modifies this
      ensures Resolution(r, cache) == Resolve(ticker, name, price, weight, cusip, old(cache), search)
    {
      var base := NormalizeTicker(ticker);
      var upperName := Upper(name);
      if cusip.Some? && cusip.value != "" {
        var key := NormalizeCusip(cusip.value);
        if key in CusipMap {
          return CusipMap[key];
        }
        if key !in cache {
          cache := cache[key := FromSearch(search(key), base)];
        }
        return cache[key];
      }
      var fp := None;
      if weight.Some? {
        fp := MatchFingerprint(base, weight.value, price);
      }
      if fp.Some? {
        return fp.value;
      }
      var letter := SeriesLetter(upperName);
      if letter.Some? {
        return base + "-" + [letter.value];
      }
      if base == "ABR" {
        return AbrSeries(price);
      }
      return base;
    }
  }

  /** The loop over the fingerprint table that returns the first matching entry's series. */
  method MatchFingerprint(base: string, weight: real, price: real) returns (r: Option<string>)
    ensures r == FirstFingerprint(Fingerprints, base, weight, price)
  {
    var fps := Fingerprints;
    var k := 0;
    while k < |fps|
      invariant k <= |fps|
      invariant FirstFingerprint(fps[k..], base, weight, price) == FirstFingerprint(fps, base, weight, price)
    {
      if FingerprintMatches(fps[k], base, weight, price) {
        return Some(fps[k].resolved);
      }
      assert fps[k..][1..] == fps[k + 1..];
      k := k + 1;
    }
    return None;
  }

  /**
   * The first match found is a matching entry with no match before it; no result means no
   * entry matches.
   */
  lemma {:induction false} FirstFingerprintMeaning(fps: seq<Fingerprint>, base: string, weight: real, price: real)
    ensures FirstFingerprint(fps, base, weight, price).None? <==>
      forall i :: 0 <= i < |fps| ==> !FingerprintMatches(fps[i], base, weight, price)
    ensures FirstFingerprint(fps, base, weight, price).Some? ==>
      exists i :: 0 <= i < |fps| && FingerprintMatches(fps[i], base, weight, price)
        && FirstFingerprint(fps, base, weight, price).value == fps[i].resolved
  {
    if |fps| > 0 {
      FirstFingerprintMeaning(fps[1..], base, weight, price);
      assert forall i :: 1 <= i < |fps| ==> fps[i] == fps[1..][i - 1];
      if !FingerprintMatches(fps[0], base, weight, price) && FirstFingerprint(fps, base, weight, price).Some? {
        var i :| 0 <= i < |fps[1..]| && FingerprintMatches(fps[1..][i], base, weight, price)
          && FirstFingerprint(fps[1..], base, weight, price).value == fps[1..][i].resolved;
        assert fps[i + 1] == fps[1..][i];
      }
    }
  }

  /** Two fingerprints no input can match both: other bases, weights 0.04 or more apart, or disjoint price ranges. */
  predicate Apart(f: Fingerprint, g: Fingerprint) {
    || f.base != g.base
    || Abs(f.weight - g.weight) >= 2.0 * WeightTolerance
    || f.priceTo < g.priceFrom || g.priceTo < f.priceFrom
  }

  predicate Exclusive(fps: seq<Fingerprint>) {
    forall i, j :: 0 <= i < j < |fps| ==> Apart(fps[i], fps[j])
  }

  /** Entries that are apart never match the same input. */
  lemma ApartNotBoth(f: Fingerprint, g: Fingerprint, base: string, weight: real, price: real)
    requires Apart(f, g)
    ensures !(FingerprintMatches(f, base, weight, price) && FingerprintMatches(g, base, weight, price))
  {
  }

  /** The table's entries are pairwise apart. */
  lemma FingerprintsExclusive()
    ensures Exclusive(Fingerprints)
  {
    var fps := Fingerprints;
    assert fps[0].base == "WFC" && fps[1].base == "BAC" && fps[2].base == "NEE";
    assert fps[3].base == "NEE" && fps[4].base == "JPM" && fps[5].base == "JPM";
    assert "WFC" != "BAC" && "WFC" != "NEE" && "WFC" != "JPM";
    assert "BAC" != "NEE" && "BAC" != "JPM" && "NEE" != "JPM";
  }

  /**
   * With the table as given, at most one fingerprint matches any input, so the entry the
   * resolution returns does not depend on the table's order.
   */
  lemma AtMostOneFingerprint(base: string, weight: real, price: real, i: nat)
    requires i < |Fingerprints| && FingerprintMatches(Fingerprints[i], base, weight, price)
    ensures forall j :: 0 <= j < |Fingerprints| && j != i ==> !FingerprintMatches(Fingerprints[j], base, weight, price)
    ensures FirstFingerprint(Fingerprints, base, weight, price) == Some(Fingerprints[i].resolved)
  {
    FingerprintsExclusive();
    forall j | 0 <= j < |Fingerprints| && j != i
      ensures !FingerprintMatches(Fingerprints[j], base, weight, price)
    {
      if j < i {
        ApartNotBoth(Fingerprints[j], Fingerprints[i], base, weight, price);
      } else {
        ApartNotBoth(Fingerprints[i], Fingerprints[j], base, weight, price);
      }
    }
    FirstFingerprintMeaning(Fingerprints, base, weight, price);
  }

  /**
   * The priority of the heuristics: a matching fingerprint wins; failing one, a name
   * announcing a series letter gives `base-L`; failing that, ABR goes by its price
   * bands and any other base is returned as it is.
   */
  lemma HeuristicMeaning(base: string, name: string, price: real, weight: Option<real>)
    ensures weight.Some? && (exists i :: 0 <= i < |Fingerprints| && FingerprintMatches(Fingerprints[i], base, weight.value, price)) ==>
      exists i :: 0 <= i < |Fingerprints| && FingerprintMatches(Fingerprints[i], base, weight.value, price)
        && Heuristic(base, name, price, weight) == Fingerprints[i].resolved
    ensures (weight.None? || forall i :: 0 <= i < |Fingerprints| ==> !FingerprintMatches(Fingerprints[i], base, weight.value, price)) ==>
      && (SeriesLetter(name).Some? ==>
            Heuristic(base, name, price, weight) == base + "-" + [SeriesLetter(name).value] && IsAlpha(SeriesLetter(name).value))
      && (SeriesLetter(name).None? && base == "ABR" ==>
            Heuristic(base, name, price, weight) == (if price > 20.0 then "ABR-F" else if price > 17.52 then "ABR-E" else "ABR-D"))
      && (SeriesLetter(name).None? && base != "ABR" ==> Heuristic(base, name, price, weight) == base)
  {
    if weight.Some? {
      FirstFingerprintMeaning(Fingerprints, base, weight.value, price);
    }
  }

  /**
   * The CUSIP comes first: a non-empty CUSIP decides the result whatever the name, price
   * and weight, and one that pads to an entry of the fixed table gives that entry and
   * leaves the cache alone. Without a CUSIP the cache is untouched and the heuristics
   * decide on the normalised base and the upper-cased name.
   */
  lemma ResolvePriority(ticker: string, name: string, price: real, weight: Option<real>, cusip: Option<string>,
                        cache: map<string, string>, search: string -> Lookup,
                        otherName: string, otherPrice: real, otherWeight: Option<real>)
    ensures HasCusip(cusip) ==>
      Resolve(ticker, name, price, weight, cusip, cache, search)
        == Resolve(ticker, otherName, otherPrice, otherWeight, cusip, cache, search)
    ensures HasCusip(cusip) && NormalizeCusip(cusip.value) in CusipMap ==>
      Resolve(ticker, name, price, weight, cusip, cache, search)
        == Resolution(CusipMap[NormalizeCusip(cusip.value)], cache)
    ensures !HasCusip(cusip) ==>
      Resolve(ticker, name, price, weight, cusip, cache, search)
        == Resolution(Heuristic(NormalizeTicker(ticker), Upper(name), price, weight), cache)
  {
  }

  /**
   * The cache only grows: entries already there keep their value, and the only entry a
   * call can add is for the normalised CUSIP, holding the ticker it returned.
   */
  lemma ResolveCacheGrows(ticker: string, name: string, price: real, weight: Option<real>, cusip: Option<string>,
                          cache: map<string, string>, search: string -> Lookup)
    ensures var res := Resolve(ticker, name, price, weight, cusip, cache, search);
      && (forall key :: key in cache ==> key in res.cache && res.cache[key] == cache[key])
      && (forall key :: key in res.cache && key !in cache ==>
            HasCusip(cusip) && key == NormalizeCusip(cusip.value) && res.cache[key] == res.ticker)
  {
    var res := Resolve(ticker, name, price, weight, cusip, cache, search);
    if HasCusip(cusip) {
      var key := NormalizeCusip(cusip.value);
      if key !in CusipMap && key !in cache {
        assert res.cache == cache[key := res.ticker];
      } else {
        assert res.cache == cache;
      }
    } else {
      assert res.cache == cache;
    }
  }

  /**
   * Resolving again against the cache a resolution left behind gives the same ticker,
   * changes nothing, and no longer depends on the search.
   */
  lemma ResolveReplay(ticker: string, name: string, price: real, weight: Option<real>, cusip: Option<string>,
                      cache: map<string, string>, search: string -> Lookup, again: string -> Lookup)
    ensures var res := Resolve(ticker, name, price, weight, cusip, cache, search);
      Resolve(ticker, name, price, weight, cusip, res.cache, again) == res
  {
  }

  /** Without "-P" in it, a searched symbol is used as it is; a missing symbol falls back to the base. */
  lemma FromSearchPlain(symbol: string, base: string)
    requires !Contains(symbol, "-P")
    ensures FromSearch(FirstQuote(Some(symbol)), base) == symbol
    ensures !Contains(base, "-P") ==> FromSearch(FirstQuote(None), base) == base
  {
    ReplaceAbsent(symbol, "-P", "-");
    if !Contains(base, "-P") {
      ReplaceAbsent(base, "-P", "-");
    }
  }

  /** The provider's "ABR-PF" style of symbol becomes "ABR-F". */
  lemma ExampleProviderSymbol()
    ensures FromSearch(FirstQuote(Some("ABR-PF")), "ABR") == "ABR-F"
  {
    ContainsExample("ABR-PF");
    ReplaceExample("ABR-PF");
  }

  lemma ContainsExample(symbol: string)
    requires symbol == "ABR-PF"
    ensures Contains(symbol, "-P")
  {
    assert IsAt(symbol, "-P", 3);
  }

  lemma ReplaceExample(symbol: string)
    requires symbol == "ABR-PF"
    ensures Replace(symbol, "-P", "-") == "ABR-F"
  {
    assert Replace("F", "-P", "-") == "F";
    assert Replace("-PF", "-P", "-") == "-F";
    assert Replace("R-PF", "-P", "-") == "R-F";
    assert Replace("BR-PF", "-P", "-") == "BR-F";
  }

  /** A CUSIP written without its leading zero still finds its table entry. */
  lemma ExampleShortCusip(ticker: string, name: string, price: real, weight: Option<real>,
                          cache: map<string, string>, search: string -> Lookup)
    ensures Resolve(ticker, name, price, weight, Some("38923850"), cache, search) == Resolution("ABR-F", cache)
  {
    ShortCusipKey("38923850");
  }

  lemma ShortCusipKey(cusip: string)
    requires cusip == "38923850"
    ensures NormalizeCusip(cusip) == "038923850" && CusipMap["038923850"] == "ABR-F"
  {
    StripOfStripped(cusip);
    assert Repeat('0', 1) == "0";
  }

  /**
   * The CUSIP cell of a holdings row: no CUSIP column at all, a blank cell, or a code
   * (the cell's text).
   */
  datatype CusipCell = NoColumn | Blank | Code(text: string)

  /**
   * The CUSIP the analysis passes on, as written: a blank cell reads as a missing number,
   * which is truthy and prints as "nan", so it takes the CUSIP branch.
   */
  function CusipArgAsWritten(cell: CusipCell): Option<string> {
    match cell
    case NoColumn => None
    case Blank => Some("nan")
    case Code(text) => Some(text)
  }

  /** The CUSIP the analysis evidently means to pass on: none for a blank cell. */
  function CusipArg(cell: CusipCell): Option<string> {
    match cell
    case Code(text) => Some(text)
    case _ => None
  }

  lemma NanKey()
    ensures NormalizeCusip("nan") == "000000nan" && "000000nan" !in CusipMap
  {
    StripOfStripped("nan");
    assert Repeat('0', 6) == "000000";
  }

  /**
   * As written, every blank CUSIP is looked up under the one key "000000nan": once a row
   * with a blank CUSIP has been resolved, every later row with a blank CUSIP gets the same
   * ticker, whatever its own base, name, price and weight.
   */
  lemma BlankCusipSharesTicker(ticker: string, name: string, price: real, weight: Option<real>,
                               later: string, laterName: string, laterPrice: real, laterWeight: Option<real>,
                               cache: map<string, string>, search: string -> Lookup, again: string -> Lookup)
    ensures var first := Resolve(ticker, name, price, weight, CusipArgAsWritten(Blank), cache, search);
      && "000000nan" in first.cache && first.cache["000000nan"] == first.ticker
      && Resolve(later, laterName, laterPrice, laterWeight, CusipArgAsWritten(Blank), first.cache, again).ticker == first.ticker
  {
    var first := Resolve(ticker, name, price, weight, CusipArgAsWritten(Blank), cache, search);
    ResolveNanKey(ticker, name, price, weight, cache, search);
    ResolveNanKey(later, laterName, laterPrice, laterWeight, first.cache, again);
  }

  /** A blank cell, as written, is looked up in the cache under "000000nan", and searched for and cached when missing. */
  lemma ResolveNanKey(ticker: string, name: string, price: real, weight: Option<real>,
                      cache: map<string, string>, search: string -> Lookup)
    ensures var r := Resolve(ticker, name, price, weight, CusipArgAsWritten(Blank), cache, search);
      && "000000nan" in r.cache && r.ticker == r.cache["000000nan"]
      && ("000000nan" in cache ==> r.cache == cache)
  {
    NanKey();
    assert HasCusip(CusipArgAsWritten(Blank));
  }

  /**
   * The input that shows it: a BAC row and then a WFC row, both "SERIES L" and both with a
   * blank CUSIP, when the search finds nothing. As written the WFC row is shown as "BAC".
   */
  lemma BlankCusipExample(search: string -> Lookup)
    requires search("000000nan") == NoQuotes
    ensures var first := Resolve("BAC", "BAC SERIES L", 25.0, Some(0.5), CusipArgAsWritten(Blank), map[], search);
      && first.ticker == "BAC"
      && Resolve("WFC", "WFC SERIES L", 25.0, Some(0.5), CusipArgAsWritten(Blank), first.cache, search).ticker == "BAC"
  {
    NanKey();
    BaseExample("BAC");
  }

  /** A plain upper-case ticker without a dash normalises to itself. */
  lemma BaseExample(t: string)
    requires t == "BAC" || t == "WFC"
    ensures NormalizeTicker(t) == t
  {
    assert Upper(t) == t;
    if t == "BAC" {
      assert '-' !in t;
    } else {
      assert '-' !in t;
    }
    assert Split(t, '-') == [t];
    StripOfStripped(t);
  }

  /**
   * With a blank cell read as no CUSIP, the row falls back to the heuristics, the cache is
   * left alone and the search is never consulted; on the rows above, the WFC row is "WFC-L".
   */
  lemma BlankCusipFallsBack(ticker: string, name: string, price: real, weight: Option<real>,
                            cache: map<string, string>, search: string -> Lookup)
    ensures Resolve(ticker, name, price, weight, CusipArg(Blank), cache, search)
      == Resolution(Heuristic(NormalizeTicker(ticker), Upper(name), price, weight), cache)
    ensures CusipArg(NoColumn) == CusipArg(Blank) == None
    ensures forall text :: CusipArg(Code(text)) == CusipArgAsWritten(Code(text)) == Some(text)
  {
  }

  /**
   * The WFC row of the example above is shown as "WFC-L" once a blank cell means no CUSIP
   * (`BaseExample` and `SeriesLExample` show that "WFC" and "WFC SERIES L" meet the
   * requirements).
   */
  lemma BlankCusipExampleCorrected(ticker: string, name: string, cache: map<string, string>, search: string -> Lookup)
    requires NormalizeTicker(ticker) == "WFC" && SeriesLetter(Upper(name)) == Some('L')
    ensures Resolve(ticker, name, 25.0, Some(0.5), CusipArg(Blank), cache, search).ticker == "WFC-L"
  {
    HeuristicWfcL(Upper(name));
    BlankCusipFallsBack(ticker, name, 25.0, Some(0.5), cache, search);
  }

  lemma HeuristicWfcL(name: string)
    requires SeriesLetter(name) == Some('L')
    ensures Heuristic("WFC", name, 25.0, Some(0.5)) == "WFC-L"
  {
    NoFingerprintExample();
    HeuristicLetter("WFC", name, 25.0, Some(0.5), 'L');
    assert "WFC" + "-" + ['L'] == "WFC-L";
  }

  /** Without a fingerprint match, a series letter in the name decides. */
  lemma HeuristicLetter(base: string, name: string, price: real, weight: Option<real>, c: char)
    requires weight.Some? && FirstFingerprint(Fingerprints, base, weight.value, price).None?
    requires SeriesLetter(name) == Some(c)
    ensures Heuristic(base, name, price, weight) == base + "-" + [c]
  {
  }

  lemma NoFingerprintExample()
    ensures FirstFingerprint(Fingerprints, "WFC", 0.5, 25.0) == None
  {
    var fps := Fingerprints;
    assert !FingerprintMatches(fps[0], "WFC", 0.5, 25.0);
    assert fps[1..][1..][1..][1..][1..][1..] == [];
  }

  /** "WFC SERIES L" announces series L. */
  lemma SeriesLExample()
    ensures SeriesLetter(Upper("WFC SERIES L")) == Some('L')
  {
    UpperExample();
    SeriesLetterExample("WFC SERIES L");
  }

  lemma UpperExample()
    ensures Upper("WFC SERIES L") == "WFC SERIES L"
  {
    var name := "WFC SERIES L";
    forall i | 0 <= i < |name| ensures UpperChar(name[i]) == name[i] {
      assert !IsLowerAscii(name[i]);
    }
  }

  lemma SeriesLetterExample(name: string)
    requires name == "WFC SERIES L"
    ensures SeriesLetter(name) == Some('L')
  {
    MarkerAtThree(name);
    FindAt(name, SeriesMarker, 3);
    var rest := name[3 + |SeriesMarker|..];
    assert rest == "L";
    assert Find(rest, SeriesMarker) == None;
    assert SeriesSegment(name) == Some(rest);
    StripOfStripped(rest);
  }

  lemma MarkerAtThree(name: string)
    requires name == "WFC SERIES L"
    ensures IsAt(name, SeriesMarker, 3) && forall j :: 0 <= j < 3 ==> !IsAt(name, SeriesMarker, j)
  {
    assert name[3..11] == SeriesMarker;
    forall j | 0 <= j < 3 ensures !IsAt(name, SeriesMarker, j) {
      assert name[j] != ' ' && SeriesMarker[0] == ' ';
      assert name[j..j + |SeriesMarker|][0] == name[j];
    }
  }

  /** The first occurrence is where the pattern occurs with none before it. */
  lemma FindAt(s: string, pat: string, i: nat)
    requires IsAt(s, pat, i) && forall j :: 0 <= j < i ==> !IsAt(s, pat, j)
    ensures Find(s, pat) == Some(i)
  {
  }
}
