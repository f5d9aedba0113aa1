/**
 * The per-row grouping of `analyze_pff_holdings` (analyze_pff_prefs.py): every
 * holdings row that is not a placeholder, and whose base is in the master set
 * when there is one, is resolved to its series and appended to the list of its
 * base; the first row of a base names the company. Also the search for the
 * header line of the holdings file.
 */
module Holdings {
  import opened Wrappers
  import opened Text
  import MasterList
  import CompanyName
  import opened Series

  /** The text that marks the header line of the holdings file. */
  const HeaderMarker: string := "Ticker,Name,Sector"

  /**
   * One row of the holdings table, each cell as its text: ticker, name, CUSIP, weight,
   * market value and price.
   */
  datatype HoldingRow = HoldingRow(ticker: string, name: string, cusip: CusipCell,
                                   weight: string, marketValue: string, price: string)

  /** The stripped ticker cell. */
  function RawTicker(row: HoldingRow): string { Strip(row.ticker) }

  /** A dash or a repeated header line, which the analysis skips. */
  predicate Placeholder(raw: string) { raw == "-" || Contains(raw, "Ticker") }

  /** The base of a row: the stripped, upper-cased text before the first dash of its ticker. */
  function BaseOfRow(row: HoldingRow): string { MasterList.BaseOf(RawTicker(row)) }

  /** A row is kept unless it is a placeholder or a master set is given that lacks its base. */
  predicate Kept(row: HoldingRow, bases: Option<set<string>>) {
    !Placeholder(RawTicker(row)) && (bases.None? || BaseOfRow(row) in bases.value)
  }

  datatype Amounts = Amounts(weight: real, marketValue: real, price: real)

  /** A number cell read after its thousands separators are dropped. */
  function ParseAmount(cell: string): Option<real> {
    ParseFloat(RemoveChar(cell, ','))
  }

  /** Weight, market value and price; if any of the three does not parse, all three are 0. */
  function AmountsOf(row: HoldingRow): Amounts {
    match (ParseAmount(row.weight), ParseAmount(row.marketValue), ParseAmount(row.price))
    case (Some(w), Some(m), Some(p)) => Amounts(w, m, p)
    case _ => Amounts(0.0, 0.0, 0.0)
  }

  /** A numeral cell reads as its value. */
  lemma ParseAmountNumeral(n: nat)
    ensures ParseAmount(NatText(n)) == Some(n as real)
  {
    DigitsKeep(NatText(n), ',');
    ParseFloatNatText(n);
  }

  /** A cell with a thousands comma reads as the digits on both sides written together. */
  lemma ParseAmountGrouped(hi: string, lo: string)
    requires |hi| >= 1 && AllDigits(hi) && AllDigits(lo)
    ensures AllDigits(hi + lo) && ParseAmount(hi + "," + lo) == Some(DigitsValue(hi + lo) as real)
  {
    ParseFloatGrouped(hi, lo);
  }

  /** A cell reading "-" or "--", which the table reader keeps as text, does not read as a number. */
  lemma ParseAmountRejects()
    ensures ParseAmount("-") == None && ParseAmount("--") == None
  {
    var one, two := "-", "--";
    assert ',' !in one && ',' !in two by {
      assert forall k :: 0 <= k < |two| ==> two[k] != ',';
    }
    ParseFloatDash();
  }

  /** Three numeral cells give their three values. */
  lemma AmountsOfNumerals(row: HoldingRow, w: nat, m: nat, p: nat)
    requires row.weight == NatText(w) && row.marketValue == NatText(m) && row.price == NatText(p)
    ensures AmountsOf(row) == Amounts(w as real, m as real, p as real)
  {
    ParseAmountNumeral(w);
    ParseAmountNumeral(m);
    ParseAmountNumeral(p);
  }

  /** A market value written with a thousands comma, such as "1,250", is read with the comma dropped. */
  lemma AmountsOfGrouped(row: HoldingRow, w: nat, hi: string, lo: string, p: nat)
    requires |hi| >= 1 && AllDigits(hi) && AllDigits(lo)
    requires row.weight == NatText(w) && row.marketValue == hi + "," + lo && row.price == NatText(p)
    ensures AllDigits(hi + lo)
    ensures AmountsOf(row) == Amounts(w as real, DigitsValue(hi + lo) as real, p as real)
  {
    ParseAmountNumeral(w);
    ParseAmountGrouped(hi, lo);
    ParseAmountNumeral(p);
  }

  /** One "-" or "--" cell among the three sets all three amounts to 0. */
  lemma AmountsOfUnreadable(row: HoldingRow)
    requires row.weight in {"-", "--"} || row.marketValue in {"-", "--"} || row.price in {"-", "--"}
    ensures AmountsOf(row) == Amounts(0.0, 0.0, 0.0)
  {
    ParseAmountRejects();
  }

  /** One preferred entry of a base. */
  datatype Pref = Pref(ticker: string, name: string, lastPrice: real, weight: real, marketValue: real, originalName: string)

  /** What the analysis holds for one base. */
  datatype Group = Group(companyName: string, prefs: seq<Pref>)

  /**
   * The analysis so far: the groups by base, the bases in the order they first appeared,
   * the number of rows processed, and the series resolver's cache.
   */
  datatype Analysis = Analysis(groups: map<string, Group>, order: seq<string>, processed: nat, cache: map<string, string>)

  /** The entry a kept row contributes, given its amounts and the series it resolved to. */
  function PrefOf(row: HoldingRow, am: Amounts, ticker: string): Pref {
    Pref(ticker, row.name, am.price, am.weight, am.marketValue, row.name)
  }

  /**
   * A series resolution: base, name, price, weight, CUSIP and cache before the call give
   * the series and the cache after it. The analysis is stated over any such function, and
   * `Resolving` is the one `resolve_series_ticker` computes.
   */
  type ResolveFn = (string, string, real, Option<real>, Option<string>, map<string, string>) -> Resolution

  function Resolving(search: string -> Lookup): ResolveFn {
    (base, name, price, weight, cusip, cache) => Resolve(base, name, price, weight, cusip, cache, search)
  }

  /**
   * What the grouping delegates: the series resolution, the company-name cleaner, the
   * reading of the amounts and the reading of the CUSIP cell; `known` is the series a row
   * is known to resolve to whatever the cache and the search say, when there is one.
   * `Delegated(search, CusipArgAsWritten)` gives the ones `analyze_pff_holdings` uses, and
   * `Delegated(search, CusipArg)` the same with a blank CUSIP read as none.
   */
  datatype Delegates = Delegates(resolve: ResolveFn, companyName: string -> string,
                                 amounts: HoldingRow -> Amounts, known: HoldingRow -> Option<string>,
                                 cusipOf: CusipCell -> Option<string>)

  function Delegated(search: string -> Lookup, cusipOf: CusipCell -> Option<string>): Delegates {
    Delegates(Resolving(search), CompanyName.CleanName, AmountsOf, row => ExpectedTicker(row, cusipOf), cusipOf)
  }

  /** The resolution of a kept row against a cache. */
  function ResolveRow(fns: Delegates, row: HoldingRow, cache: map<string, string>): Resolution {
    var am := fns.amounts(row);
    fns.resolve(BaseOfRow(row), row.name, am.price, Some(am.weight), fns.cusipOf(row.cusip), cache)
  }

  /**
   * An entry appended to the group of `base`, which is created under `companyName` when
   * the base is new; `cache` is the resolver's cache afterwards.
   */
  function Add(a: Analysis, base: string, companyName: string, pref: Pref, cache: map<string, string>): Analysis {
    var group := if base in a.groups then a.groups[base] else Group(companyName, []);
    Analysis(a.groups[base := Group(group.companyName, group.prefs + [pref])],
             if base in a.groups then a.order else a.order + [base],
             a.processed + 1, cache)
  }

  /** The body of the loop over the rows. */
  function Step(a: Analysis, row: HoldingRow, bases: Option<set<string>>, fns: Delegates): Analysis {
    if !Kept(row, bases) then a
    else
      var res := ResolveRow(fns, row, a.cache);
      Add(a, BaseOfRow(row), fns.companyName(row.name), PrefOf(row, fns.amounts(row), res.ticker), res.cache)
  }

  /** The analysis of `rows`, starting from no groups and the resolver's current cache. */
  function Analyze(rows: seq<HoldingRow>, bases: Option<set<string>>, cache: map<string, string>,
                   fns: Delegates): Analysis
  {
    if |rows| == 0 then Analysis(map[], [], 0, cache)
    else Step(Analyze(rows[..|rows| - 1], bases, cache, fns), rows[|rows| - 1], bases, fns)
  }

  /** The grouping loop of `analyze_pff_holdings`. */
  method AnalyzeHoldings(rows: seq<HoldingRow>, bases: Option<set<string>>, resolver: SeriesResolver,
                         search: string -> Lookup)
    returns (groups: map<string, Group>, order: seq<string>, processed: nat)
    modifies resolver
    ensures Analysis(groups, order, processed, resolver.cache) == Analyze(rows, bases, old(resolver.cache), Delegated(search, CusipArgAsWritten))
  {
    groups, order, processed := map[], [], 0;
    for k := 0 to |rows|
      invariant Analysis(groups, order, processed, resolver.cache) == Analyze(rows[..k], bases, old(resolver.cache), Delegated(search, CusipArgAsWritten))
    {
      assert rows[..k + 1][..k] == rows[..k];
      groups, order, processed := AnalyzeRow(rows[k], bases, resolver, search, groups, order, processed);
    }
    assert rows[..|rows|] == rows;
  }

  /** One pass of the loop: a skipped row changes nothing; a kept row is resolved and appended to its base. */
  method AnalyzeRow(row: HoldingRow, bases: Option<set<string>>, resolver: SeriesResolver, search: string -> Lookup,
                    groups0: map<string, Group>, order0: seq<string>, processed0: nat)
    returns (groups: map<string, Group>, order: seq<string>, processed: nat)
    modifies resolver
    ensures Analysis(groups, order, processed, resolver.cache)
      == Step(Analysis(groups0, order0, processed0, old(resolver.cache)), row, bases, Delegated(search, CusipArgAsWritten))
  {
    groups, order, processed := groups0, order0, processed0;
    var raw := Strip(row.ticker);
    if raw == "-" || Contains(raw, "Ticker") {
      StepSkipped(Analysis(groups0, order0, processed0, resolver.cache), row, bases, Delegated(search, CusipArgAsWritten));
      return;
    }
    var base := MasterList.BaseOf(raw);
    if bases.Some? && base !in bases.value {
      StepSkipped(Analysis(groups0, order0, processed0, resolver.cache), row, bases, Delegated(search, CusipArgAsWritten));
      return;
    }
    StepKept(Analysis(groups0, order0, processed0, resolver.cache), row, bases, search);
    groups, order, processed := AppendRow(row, base, resolver, search, groups, order, processed);
  }

  /** The kept path of the loop body: resolve the row's series and append its entry to the group of `base`. */
  method AppendRow(row: HoldingRow, base: string, resolver: SeriesResolver, search: string -> Lookup,
                   groups0: map<string, Group>, order0: seq<string>, processed0: nat)
    returns (groups: map<string, Group>, order: seq<string>, processed: nat)
    modifies resolver
    ensures var am := AmountsOf(row);
      var res := Resolve(base, row.name, am.price, Some(am.weight), CusipArgAsWritten(row.cusip), old(resolver.cache), search);
      Analysis(groups, order, processed, resolver.cache)
        == Add(Analysis(groups0, order0, processed0, old(resolver.cache)), base, CompanyName.CleanName(row.name),
               PrefOf(row, am, res.ticker), res.cache)
  {
    var am := AmountsOf(row);
    var display := resolver.ResolveSeries(base, row.name, am.price, Some(am.weight), CusipArgAsWritten(row.cusip), search);
    var companyName := "";
    if base !in groups0 {
      companyName := CompanyName.ExtractCompanyName(row.name);
    }
    groups, order, processed := AppendPref(base, companyName, PrefOf(row, am, display), groups0, order0, processed0);
    AddIgnores(Analysis(groups0, order0, processed0, old(resolver.cache)), base, companyName,
               CompanyName.CleanName(row.name), PrefOf(row, am, display), resolver.cache);
  }

  /** `Add` reads the company name only for a new base, and passes the cache through. */
  lemma AddIgnores(a: Analysis, base: string, name1: string, name2: string, pref: Pref, cache: map<string, string>)
    requires base in a.groups || name1 == name2
    ensures Add(a, base, name2, pref, cache)
      == Add(Analysis(a.groups, a.order, a.processed, map[]), base, name1, pref, map[]).(cache := cache)
  {
  }

  /**
   * The kept path of the loop body once the series is known: the entry goes to the group
   * of `base`, which is created under `companyName` when the base is new.
   */
  method AppendPref(base: string, companyName: string, pref: Pref,
                    groups0: map<string, Group>, order0: seq<string>, processed0: nat)
    returns (groups: map<string, Group>, order: seq<string>, processed: nat)
    ensures Analysis(groups, order, processed, map[])
      == Add(Analysis(groups0, order0, processed0, map[]), base, companyName, pref, map[])
  {
    groups, order, processed := groups0, order0, processed0;
    if base !in groups {
      groups := groups[base := Group(companyName, [])];
      order := order + [base];
    }
    groups := groups[base := Group(groups[base].companyName, groups[base].prefs + [pref])];
    processed := processed + 1;
  }

  lemma StepSkipped(a: Analysis, row: HoldingRow, bases: Option<set<string>>, fns: Delegates)
    requires !Kept(row, bases)
    ensures Step(a, row, bases, fns) == a
  {
  }

  /** The step of a kept row, with the delegates `analyze_pff_holdings` uses. */
  lemma StepKept(a: Analysis, row: HoldingRow, bases: Option<set<string>>, search: string -> Lookup)
    requires Kept(row, bases)
    ensures var am := AmountsOf(row);
      var res := Resolve(BaseOfRow(row), row.name, am.price, Some(am.weight), CusipArgAsWritten(row.cusip), a.cache, search);
      Step(a, row, bases, Delegated(search, CusipArgAsWritten))
        == Add(a, BaseOfRow(row), CompanyName.CleanName(row.name), PrefOf(row, am, res.ticker), res.cache)
  {
  }

  /** The kept rows, in order. */
  function KeptRows(rows: seq<HoldingRow>, bases: Option<set<string>>): seq<HoldingRow> {
    if |rows| == 0 then []
    else
      var last := rows[|rows| - 1];
      KeptRows(rows[..|rows| - 1], bases) + if Kept(last, bases) then [last] else []
  }

  /** The kept rows of base `b`, in order. */
  function KeptWith(rows: seq<HoldingRow>, bases: Option<set<string>>, b: string): seq<HoldingRow> {
    if |rows| == 0 then []
    else
      var last := rows[|rows| - 1];
      KeptWith(rows[..|rows| - 1], bases, b) + if Kept(last, bases) && BaseOfRow(last) == b then [last] else []
  }

  /** The number of entries of the groups listed in `ks`. */
  function EntryCount(groups: map<string, Group>, ks: seq<string>): nat
    requires forall k :: k in ks ==> k in groups
  {
    if |ks| == 0 then 0 else |groups[ks[0]].prefs| + EntryCount(groups, ks[1..])
  }

  /**
   * The bookkeeping an analysis keeps: its groups are exactly the bases of `order`, each
   * listed once, and the processed count is the number of entries of all groups.
   */
  ghost predicate WellFormed(a: Analysis) {
    && (forall k :: k in a.groups <==> k in a.order)
    && NoDup(a.order)
    && a.processed == EntryCount(a.groups, a.order)
  }

  lemma {:induction false} EntryCountAppend(groups: map<string, Group>, ks: seq<string>, k: string)
    requires forall j :: j in ks ==> j in groups
    requires k in groups
    ensures EntryCount(groups, ks + [k]) == EntryCount(groups, ks) + |groups[k].prefs|
  {
    if |ks| > 0 {
      assert (ks + [k])[1..] == ks[1..] + [k];
      EntryCountAppend(groups, ks[1..], k);
    }
  }

  /** Groups other than those listed can change without changing the count. */
  lemma {:induction false} EntryCountFrame(groups: map<string, Group>, ks: seq<string>, k: string, g: Group)
    requires forall j :: j in ks ==> j in groups
    requires k !in ks
    ensures EntryCount(groups[k := g], ks) == EntryCount(groups, ks)
  {
    if |ks| > 0 {
      EntryCountFrame(groups, ks[1..], k, g);
    }
  }

  /** Replacing the group of a listed base changes the count by the change in its length. */
  lemma {:induction false} EntryCountUpdate(groups: map<string, Group>, ks: seq<string>, k: string, g: Group)
    requires forall j :: j in ks ==> j in groups
    requires NoDup(ks) && k in ks
    ensures EntryCount(groups[k := g], ks) + |groups[k].prefs| == EntryCount(groups, ks) + |g.prefs|
  {
    if ks[0] == k {
      assert k !in ks[1..];
      EntryCountFrame(groups, ks[1..], k, g);
    } else {
      EntryCountUpdate(groups, ks[1..], k, g);
    }
  }

  /** Appending an entry keeps the bookkeeping. */
  lemma AddWellFormed(a: Analysis, base: string, companyName: string, pref: Pref, cache: map<string, string>)
    requires WellFormed(a)
    ensures WellFormed(Add(a, base, companyName, pref, cache))
  {
    var next := Add(a, base, companyName, pref, cache);
    var g := next.groups[base];
    if base in a.groups {
      assert next.order == a.order;
      EntryCountUpdate(a.groups, a.order, base, g);
    } else {
      assert next.order == a.order + [base];
      EntryCountFrame(a.groups, a.order, base, g);
      EntryCountAppend(next.groups, a.order, base);
    }
  }

  /** Each step keeps the bookkeeping. */
  lemma StepWellFormed(a: Analysis, row: HoldingRow, bases: Option<set<string>>, fns: Delegates)
    requires WellFormed(a)
    ensures WellFormed(Step(a, row, bases, fns))
  {
    if Kept(row, bases) {
      var res := ResolveRow(fns, row, a.cache);
      AddWellFormed(a, BaseOfRow(row), fns.companyName(row.name), PrefOf(row, fns.amounts(row), res.ticker), res.cache);
    }
  }

  /**
   * The analysis keeps its bookkeeping: each base with a group is listed once in `order`,
   * and the processed count equals the number of appended entries and the number of kept
   * rows.
   */
  lemma {:induction false} AnalyzeWellFormed(rows: seq<HoldingRow>, bases: Option<set<string>>, cache: map<string, string>,
                                             fns: Delegates)
    ensures WellFormed(Analyze(rows, bases, cache, fns))
    ensures Analyze(rows, bases, cache, fns).processed == |KeptRows(rows, bases)|
  {
    if |rows| > 0 {
      AnalyzeWellFormed(rows[..|rows| - 1], bases, cache, fns);
      StepWellFormed(Analyze(rows[..|rows| - 1], bases, cache, fns), rows[|rows| - 1], bases, fns);
    }
  }

  /** The series the resolution is known to give a kept row without consulting the search. */
  function ExpectedTicker(row: HoldingRow, cusipOf: CusipCell -> Option<string>): Option<string> {
    var am := AmountsOf(row);
    Expected(BaseOfRow(row), row.name, am.price, Some(am.weight), cusipOf(row.cusip))
  }

  /** The series of a resolution that needs no search: by the heuristics, or by the fixed CUSIP table. */
  function Expected(b: string, name: string, price: real, weight: Option<real>, cusip: Option<string>): Option<string> {
    if !HasCusip(cusip) then Some(Heuristic(b, Upper(name), price, weight))
    else if NormalizeCusip(cusip.value) in CusipMap then Some(CusipMap[NormalizeCusip(cusip.value)])
    else None
  }

  lemma ResolveExpected(b: string, name: string, price: real, weight: Option<real>, cusip: Option<string>,
                        cache: map<string, string>, search: string -> Lookup)
    requires NormalizeTicker(b) == b
    ensures Expected(b, name, price, weight, cusip).Some? ==>
      Resolve(b, name, price, weight, cusip, cache, search).ticker == Expected(b, name, price, weight, cusip).value
  {
  }

  /** An entry records its row: name and amounts, and the series when it is known. */
  predicate Agrees(p: Pref, row: HoldingRow, fns: Delegates) {
    && p == PrefOf(row, fns.amounts(row), p.ticker)
    && (fns.known(row).Some? ==> p.ticker == fns.known(row).value)
  }

  /** The entries record the rows one for one, in order. */
  predicate AgreeAll(ps: seq<Pref>, rows: seq<HoldingRow>, fns: Delegates) {
    |ps| == |rows| && forall i :: 0 <= i < |ps| ==> Agrees(ps[i], rows[i], fns)
  }

  lemma AgreeAllAppend(ps: seq<Pref>, rows: seq<HoldingRow>, fns: Delegates, p: Pref, row: HoldingRow)
    requires AgreeAll(ps, rows, fns) && Agrees(p, row, fns)
    ensures AgreeAll(ps + [p], rows + [row], fns)
  {
  }

  /** A base is its own normal form, so resolving by it normalises nothing away. */
  lemma NormalizeBase(row: HoldingRow)
    ensures NormalizeTicker(BaseOfRow(row)) == BaseOfRow(row)
  {
    var b := BaseOfRow(row);
    MasterList.BaseOfShape(RawTicker(row));
    if b != "" {
      UpperOfUpperCase(b);
      assert Split(b, '-') == [b];
    }
  }

  /** The resolution gives a row its known series, whatever the cache. */
  predicate RecordsRow(fns: Delegates, row: HoldingRow, cache: map<string, string>) {
    fns.known(row).Some? ==> ResolveRow(fns, row, cache).ticker == fns.known(row).value
  }

  ghost predicate RecordsRows(fns: Delegates) {
    forall row, cache :: RecordsRow(fns, row, cache)
  }

  /**
   * `resolve_series_ticker` gives each row the series its CUSIP or the heuristics call for,
   * whichever way the CUSIP cell is read.
   */
  lemma ResolvingRecords(search: string -> Lookup, cusipOf: CusipCell -> Option<string>)
    ensures RecordsRows(Delegated(search, cusipOf))
  {
    forall row, cache ensures RecordsRow(Delegated(search, cusipOf), row, cache) {
      NormalizeBase(row);
      var am := AmountsOf(row);
      ResolveExpected(BaseOfRow(row), row.name, am.price, Some(am.weight), cusipOf(row.cusip), cache, search);
    }
  }

  /** What the groups say about the rows: the facts `AnalyzeGroups` keeps. */
  ghost predicate GroupsDescribe(a: Analysis, rows: seq<HoldingRow>, bases: Option<set<string>>, fns: Delegates) {
    forall b :: DescribesBase(a, rows, bases, fns, b)
  }

  /**
   * `b` has a group iff some kept row has base `b`; the group is named after the first
   * such row, and its entries record those rows one for one.
   */
  predicate DescribesBase(a: Analysis, rows: seq<HoldingRow>, bases: Option<set<string>>, fns: Delegates, b: string) {
    var kept := KeptWith(rows, bases, b);
    && (b in a.groups <==> |kept| > 0)
    && (b in a.groups ==>
          && a.groups[b].companyName == fns.companyName(kept[0].name)
          && AgreeAll(a.groups[b].prefs, kept, fns))
  }

  /** The kept rows of a base after one more row. */
  lemma KeptWithSnoc(init: seq<HoldingRow>, row: HoldingRow, bases: Option<set<string>>, b: string)
    ensures KeptWith(init + [row], bases, b)
      == KeptWith(init, bases, b) + if Kept(row, bases) && BaseOfRow(row) == b then [row] else []
  {
    assert (init + [row])[..|init|] == init;
  }

  /** One more row: the description carries over. */
  lemma StepDescribes(a: Analysis, init: seq<HoldingRow>, row: HoldingRow, bases: Option<set<string>>, fns: Delegates)
    requires RecordsRows(fns)
    requires GroupsDescribe(a, init, bases, fns)
    ensures GroupsDescribe(Step(a, row, bases, fns), init + [row], bases, fns)
  {
    if !Kept(row, bases) {
      forall b ensures DescribesBase(a, init + [row], bases, fns, b) {
        KeptWithSnoc(init, row, bases, b);
        assert DescribesBase(a, init, bases, fns, b);
      }
    } else {
      var res := ResolveRow(fns, row, a.cache);
      assert RecordsRow(fns, row, a.cache);
      var pref := PrefOf(row, fns.amounts(row), res.ticker);
      var next := Add(a, BaseOfRow(row), fns.companyName(row.name), pref, res.cache);
      forall b ensures DescribesBase(next, init + [row], bases, fns, b) {
        AddDescribes(a, init, row, bases, fns, pref, res.cache, b);
      }
    }
  }

  /** Appending a kept row's entry to its group keeps the description of every base. */
  lemma AddDescribes(a: Analysis, init: seq<HoldingRow>, row: HoldingRow, bases: Option<set<string>>, fns: Delegates,
                     pref: Pref, cache: map<string, string>, b: string)
    requires DescribesBase(a, init, bases, fns, b)
    requires Kept(row, bases) && Agrees(pref, row, fns)
    ensures DescribesBase(Add(a, BaseOfRow(row), fns.companyName(row.name), pref, cache), init + [row], bases, fns, b)
  {
    var c := BaseOfRow(row);
    var next := Add(a, c, fns.companyName(row.name), pref, cache);
    KeptWithSnoc(init, row, bases, b);
    var kept := KeptWith(init, bases, b);
    if b != c {
      assert KeptWith(init + [row], bases, b) == kept;
      assert (b in next.groups <==> b in a.groups) && (b in a.groups ==> next.groups[b] == a.groups[b]);
    } else if c in a.groups {
      assert KeptWith(init + [row], bases, b) == kept + [row];
      assert next.groups[c] == Group(a.groups[c].companyName, a.groups[c].prefs + [pref]);
      AgreeAllAppend(a.groups[c].prefs, kept, fns, pref, row);
    } else {
      assert KeptWith(init + [row], bases, b) == [row];
      assert next.groups[c] == Group(fns.companyName(row.name), [pref]);
    }
  }

  /**
   * The groups of the analysis: a base has a group iff some kept row has that base; its
   * company name is the cleaned name of the first such row; and its entries are, one for
   * one and in order, those rows, with each row's name and amounts and, when the CUSIP does
   * not call for a search, the series the resolution gives.
   */
  lemma {:induction false} AnalyzeGroups(rows: seq<HoldingRow>, bases: Option<set<string>>, cache: map<string, string>,
                                         fns: Delegates)
    requires RecordsRows(fns)
    ensures GroupsDescribe(Analyze(rows, bases, cache, fns), rows, bases, fns)
  {
    if |rows| > 0 {
      var init, last := rows[..|rows| - 1], rows[|rows| - 1];
      assert rows == init + [last];
      AnalyzeGroups(init, bases, cache, fns);
      StepDescribes(Analyze(init, bases, cache, fns), init, last, bases, fns);
    }
  }

  /**
   * `AnalyzeWellFormed` and `AnalyzeGroups` for the analysis `analyze_pff_holdings` runs,
   * with the CUSIP cell read either way.
   */
  lemma AnalyzeHoldingsMeaning(rows: seq<HoldingRow>, bases: Option<set<string>>, cache: map<string, string>,
                               search: string -> Lookup, cusipOf: CusipCell -> Option<string>)
    ensures WellFormed(Analyze(rows, bases, cache, Delegated(search, cusipOf)))
    ensures Analyze(rows, bases, cache, Delegated(search, cusipOf)).processed == |KeptRows(rows, bases)|
    ensures GroupsDescribe(Analyze(rows, bases, cache, Delegated(search, cusipOf)), rows, bases, Delegated(search, cusipOf))
  {
    AnalyzeWellFormed(rows, bases, cache, Delegated(search, cusipOf));
    ResolvingRecords(search, cusipOf);
    AnalyzeGroups(rows, bases, cache, Delegated(search, cusipOf));
  }

  /**
   * As written, a kept row whose CUSIP cell is blank resolves through the cache entry
   * "000000nan": after the step that entry exists, the row's entry carries its ticker,
   * and a row that finds the entry already there gets the ticker an earlier blank row got.
   */
  lemma StepBlankCusip(a: Analysis, row: HoldingRow, bases: Option<set<string>>, search: string -> Lookup)
    requires Kept(row, bases) && row.cusip == Blank
    ensures var next := Step(a, row, bases, Delegated(search, CusipArgAsWritten));
      var prefs := next.groups[BaseOfRow(row)].prefs;
      && "000000nan" in next.cache
      && |prefs| > 0 && prefs[|prefs| - 1].ticker == next.cache["000000nan"]
      && ("000000nan" in a.cache ==> next.cache == a.cache && prefs[|prefs| - 1].ticker == a.cache["000000nan"])
  {
    var am := AmountsOf(row);
    ResolveNanKey(BaseOfRow(row), row.name, am.price, Some(am.weight), a.cache, search);
  }

  /** The kept rows are the rows that are not placeholders and, with a master set, have their base in it. */
  lemma {:induction false} KeptRowsMeaning(rows: seq<HoldingRow>, bases: Option<set<string>>)
    ensures forall r :: r in KeptRows(rows, bases) <==> r in rows && Kept(r, bases)
  {
    if |rows| > 0 {
      KeptRowsMeaning(rows[..|rows| - 1], bases);
      assert rows == rows[..|rows| - 1] + [rows[|rows| - 1]];
    }
  }

  /**
   * With a master set, even an empty one, no group has a base outside it; with an empty
   * master set nothing at all is kept.
   */
  lemma MasterFilter(rows: seq<HoldingRow>, bases: Option<set<string>>, cache: map<string, string>, fns: Delegates)
    requires bases.Some?
    ensures forall b :: b in Analyze(rows, bases, cache, fns).groups ==> b in bases.value
    ensures bases.value == {} ==> Analyze(rows, bases, cache, fns).processed == 0
  {
    AnalyzeWellFormed(rows, bases, cache, fns);
    KeptRowsMeaning(rows, bases);
    var a := Analyze(rows, bases, cache, fns);
    forall b | b in a.groups ensures b in bases.value {
      AnalyzeKeys(rows, bases, cache, fns);
      KeptWithMeaning(rows, bases, b);
      assert KeptWith(rows, bases, b)[0] in KeptWith(rows, bases, b);
    }
    if bases.value == {} {
      KeptRowsNone(rows, bases);
    }
  }

  /** An empty master set keeps no row. */
  lemma {:induction false} KeptRowsNone(rows: seq<HoldingRow>, bases: Option<set<string>>)
    requires bases == Some({})
    ensures KeptRows(rows, bases) == []
  {
    if |rows| > 0 {
      KeptRowsNone(rows[..|rows| - 1], bases);
    }
  }

  /** A base has a group iff some kept row has that base, whatever the resolution. */
  lemma {:induction false} AnalyzeKeys(rows: seq<HoldingRow>, bases: Option<set<string>>, cache: map<string, string>, fns: Delegates)
    ensures forall b :: b in Analyze(rows, bases, cache, fns).groups <==> |KeptWith(rows, bases, b)| > 0
  {
    if |rows| > 0 {
      AnalyzeKeys(rows[..|rows| - 1], bases, cache, fns);
    }
  }

  /** The rows of a base are kept rows with that base. */
  lemma {:induction false} KeptWithMeaning(rows: seq<HoldingRow>, bases: Option<set<string>>, b: string)
    ensures forall r :: r in KeptWith(rows, bases, b) ==> Kept(r, bases) && BaseOfRow(r) == b
  {
    if |rows| > 0 {
      KeptWithMeaning(rows[..|rows| - 1], bases, b);
    }
  }

  /**
   * The header line: the first line that contains the marker, or line 0 when none
   * does.
   */
  method FindHeader(lines: seq<string>) returns (idx: nat)
    ensures (exists i :: 0 <= i < |lines| && Contains(lines[i], HeaderMarker)) ==>
      idx < |lines| && Contains(lines[idx], HeaderMarker)
        && forall j :: 0 <= j < idx ==> !Contains(lines[j], HeaderMarker)
    ensures (forall i :: 0 <= i < |lines| ==> !Contains(lines[i], HeaderMarker)) ==> idx == 0
  {
    idx := 0;
    var i := 0;
    while i < |lines|
      invariant i <= |lines|
      invariant forall j :: 0 <= j < i ==> !Contains(lines[j], HeaderMarker)
    {
      if Contains(lines[i], HeaderMarker) {
        return i;
      }
      i := i + 1;
    }
  }
}
