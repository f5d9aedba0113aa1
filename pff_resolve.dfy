/**
 * `resolve_pff_tickers.py`: every row of the exported holdings table whose base has
 * series in the master list gets the series whose price is closest to its own, and
 * that series' issuer as company name.
 */
module PffResolve {
  import opened Wrappers
  import opened Text
  import Series

  /** A price cell: missing, a number, or text such as "$1,234.50". */
  datatype PriceCell = Missing | Number(v: real) | Text(s: string)

  /** `clean_price`: 0 for a missing or unreadable cell; text is read without `$` and `,`. */
  function CleanPrice(cell: PriceCell): real
  {
    match cell
    case Missing => 0.0
    case Number(v) => v
    case Text(s) =>
      match ParseFloat(Strip(RemoveChar(RemoveChar(s, '$'), ',')))
      case Some(v) => v
      case None => 0.0
  }

  /**
   * A missing cell gives 0 and a numeric cell its own value; a cell holding a numeral,
   * with or without a leading `$`, gives the numeral's value.
   */
  lemma CleanPriceMeaning(v: real, n: nat)
    ensures CleanPrice(Missing) == 0.0
    ensures CleanPrice(Number(v)) == v
    ensures CleanPrice(Text(NatText(n))) == n as real
    ensures CleanPrice(Text("$" + NatText(n))) == n as real
  {
    NatTextValue(n);
    CleanPriceDigits(NatText(n));
  }

  /** A cell of digits, or of `$` and digits, gives the digits' value. */
  lemma CleanPriceDigits(s: string)
    requires |s| >= 1 && AllDigits(s)
    ensures CleanPrice(Text(s)) == DigitsValue(s) as real
    ensures CleanPrice(Text("$" + s)) == DigitsValue(s) as real
  {
    DigitsKeep(s, '$');
    DigitsKeep(s, ',');
    DigitsStripped(s);
    ParseFloatAllDigits(s);
    DollarDropped(s);
  }

  /** Removing `$` drops the leading dollar sign of a price without one elsewhere. */
  lemma DollarDropped(s: string)
    requires '$' !in s
    ensures RemoveChar("$" + s, '$') == s
  {
    var dollar: string := ['$'];
    assert RemoveChar(dollar, '$') == "" by {
      assert dollar[1..] == "";
    }
    RemoveCharAppend(dollar, s, '$');
  }

  /** A price with a thousands comma, such as "$1,234", gives the digits on both sides written together. */
  lemma CleanPriceGrouped(hi: string, lo: string)
    requires |hi| >= 1 && AllDigits(hi) && AllDigits(lo)
    ensures AllDigits(hi + lo)
    ensures CleanPrice(Text("$" + hi + "," + lo)) == DigitsValue(hi + lo) as real
  {
    var grouped := hi + "," + lo;
    assert "$" + hi + "," + lo == "$" + grouped;
    assert '$' !in grouped by {
      DigitsKeep(hi, '$');
      DigitsKeep(lo, '$');
    }
    DollarDropped(grouped);
    GroupedDigits(hi, lo);
    AllDigitsAppend(hi, lo);
    DigitsStripped(hi + lo);
    ParseFloatAllDigits(hi + lo);
  }

  /** An empty cell and a cell reading "N/A" are no number and give 0. */
  lemma CleanPriceEmpty()
    ensures CleanPrice(Text("")) == 0.0
    ensures CleanPrice(Text("N/A")) == 0.0
  {
    var s := "N/A";
    assert '$' !in s && ',' !in s by {
      assert forall k :: 0 <= k < |s| ==> s[k] != '$' && s[k] != ',';
    }
    assert !IsSpace(s[0]) && !IsSpace(s[|s| - 1]);
    StripOfStripped(s);
    ParseFloatRejects();
  }

  /** A row of the master list: its ticker (missing for an empty cell), its current price and its issuer. */
  datatype MasterRow = MasterRow(ticker: Option<string>, price: PriceCell, issuer: string)

  /** A master row that can serve a base: its ticker, its cleaned price and its issuer. */
  datatype Candidate = Candidate(ticker: string, price: real, issuer: string)

  function CandidateOf(m: MasterRow): Candidate
    requires m.ticker.Some?
  {
    Candidate(m.ticker.value, CleanPrice(m.price), m.issuer)
  }

  /**
   * A row of the holdings table: its base ticker, price, series and company name, and
   * the other cells, which the resolution does not touch.
   */
  datatype PffRow = PffRow(baseTicker: string, lastPrice: PriceCell, preferredStock: string, companyName: string,
                           others: seq<string>)

  /** The base a holdings row is matched by. */
  function PffBase(row: PffRow): string { Upper(Strip(row.baseTicker)) }

  /** A master ticker belongs to `base` when it is the base itself or the base followed by a dash. */
  predicate IsCandidate(t: string, base: string) {
    t == base || StartsWith(t, base + "-")
  }

  /** The candidates of `base`, in master-list order. */
  function Candidates(master: seq<MasterRow>, base: string): seq<Candidate> {
    if |master| == 0 then []
    else
      var m := master[|master| - 1];
      Candidates(master[..|master| - 1], base) + if m.ticker.Some? && IsCandidate(m.ticker.value, base) then [CandidateOf(m)] else []
  }

  /** The candidates are the master rows whose ticker is present and belongs to `base`. */
  lemma {:induction false} CandidatesMeaning(master: seq<MasterRow>, base: string)
    ensures forall c :: c in Candidates(master, base) ==>
      IsCandidate(c.ticker, base) && exists m :: m in master && m.ticker.Some? && CandidateOf(m) == c
    ensures forall m :: m in master && m.ticker.Some? && IsCandidate(m.ticker.value, base) ==>
      CandidateOf(m) in Candidates(master, base)
  {
    if |master| > 0 {
      CandidatesMeaning(master[..|master| - 1], base);
      assert master == master[..|master| - 1] + [master[|master| - 1]];
    }
  }

  /** How far a candidate's price is from `price`. */
  function Diff(c: Candidate, price: real): real {
    Series.Abs(c.price - price)
  }

  /** The first of `cs` whose price is closest to `price`: the head of a sort by that distance. */
  function Closest(cs: seq<Candidate>, price: real): (k: nat)
    requires |cs| > 0
    ensures k < |cs|
  {
    if |cs| == 1 then 0
    else
      var k := Closest(cs[..|cs| - 1], price);
      if Diff(cs[|cs| - 1], price) < Diff(cs[k], price) then |cs| - 1 else k
  }

  /** `Closest` picks a candidate at least as close as every other, and the first such. */
  lemma {:induction false} ClosestMeaning(cs: seq<Candidate>, price: real)
    requires |cs| > 0
    ensures forall j :: 0 <= j < |cs| ==> Diff(cs[Closest(cs, price)], price) <= Diff(cs[j], price)
    ensures forall j :: 0 <= j < Closest(cs, price) ==> Diff(cs[j], price) > Diff(cs[Closest(cs, price)], price)
  {
    if |cs| > 1 {
      var init := cs[..|cs| - 1];
      ClosestMeaning(init, price);
      assert forall j :: 0 <= j < |init| ==> init[j] == cs[j];
    }
  }

  /** A holdings row whose base has at least one candidate: the rows `resolve` rewrites and counts. */
  predicate HasCandidates(row: PffRow, master: seq<MasterRow>) {
    |Candidates(master, PffBase(row))| > 0
  }

  /** A holdings row after resolution: unchanged without candidates, else given the closest one. */
  function ResolveRow(row: PffRow, master: seq<MasterRow>): PffRow {
    var cs := Candidates(master, PffBase(row));
    if |cs| == 0 then row
    else
      var best := cs[Closest(cs, CleanPrice(row.lastPrice))];
      row.(preferredStock := best.ticker, companyName := best.issuer)
  }

  function Resolver(master: seq<MasterRow>): PffRow -> PffRow {
    row => ResolveRow(row, master)
  }

  function Resolvable(master: seq<MasterRow>): PffRow -> bool {
    row => HasCandidates(row, master)
  }

  /** `f` applied to every row. */
  function MapRows(rows: seq<PffRow>, f: PffRow -> PffRow): (rs: seq<PffRow>)
    ensures |rs| == |rows|
  {
    if |rows| == 0 then []
    else MapRows(rows[..|rows| - 1], f) + [f(rows[|rows| - 1])]
  }

  /** Row `i` of the mapped rows is row `i` mapped. */
  lemma {:induction false} MapRowsAt(rows: seq<PffRow>, f: PffRow -> PffRow, i: nat)
    requires i < |rows|
    ensures MapRows(rows, f)[i] == f(rows[i])
  {
    if i < |rows| - 1 {
      MapRowsAt(rows[..|rows| - 1], f, i);
    }
  }

  /** The number of rows of `rows` for which `p` holds. */
  function CountWhere(rows: seq<PffRow>, p: PffRow -> bool): nat {
    if |rows| == 0 then 0
    else CountWhere(rows[..|rows| - 1], p) + if p(rows[|rows| - 1]) then 1 else 0
  }

  /** `CountWhere` counts the positions where `p` holds. */
  lemma {:induction false} CountWhereMeaning(rows: seq<PffRow>, p: PffRow -> bool)
    ensures CountWhere(rows, p) == |set i | 0 <= i < |rows| && p(rows[i])|
  {
    if |rows| > 0 {
      var n := |rows| - 1;
      CountWhereMeaning(rows[..n], p);
      var before := set i | 0 <= i < n && p(rows[..n][i]);
      var after := set i | 0 <= i < |rows| && p(rows[i]);
      assert before == set i | 0 <= i < n && p(rows[i]);
      if p(rows[n]) {
        assert after == before + {n};
      } else {
        assert after == before;
      }
    }
  }

  /**
   * The loop over the rows: each row for which `p` holds is replaced by `f` of it, in
   * place, and counted; the others stay as they are.
   */
  method UpdateRows(a: array<PffRow>, f: PffRow -> PffRow, p: PffRow -> bool) returns (count: nat)
    requires forall row :: !p(row) ==> f(row) == row
    modifies a
    ensures a[..] == MapRows(old(a[..]), f)
    ensures count == CountWhere(old(a[..]), p)
  {
    count := 0;
    ghost var rows := a[..];
    for idx := 0 to a.Length
      invariant a[..idx] == MapRows(rows[..idx], f)
      invariant a[idx..] == rows[idx..]
      invariant count == CountWhere(rows[..idx], p)
    {
      assert rows[..idx + 1][..idx] == rows[..idx];
      assert a[idx] == rows[idx];
      var row := a[idx];
      if p(row) {
        a[idx] := f(row);
        count := count + 1;
      }
      assert a[..idx + 1] == a[..idx] + [f(row)];
    }
    assert rows[..a.Length] == rows;
    assert a[..a.Length] == a[..];
  }

  /** A row without candidates is left as it is. */
  lemma UnresolvableUnchanged(master: seq<MasterRow>)
    ensures forall row :: !Resolvable(master)(row) ==> Resolver(master)(row) == row
  {
  }

  /** `resolve`: every row whose base has candidates is rewritten in place; their number is returned. */
  method ResolvePff(pff: array<PffRow>, master: seq<MasterRow>) returns (count: nat)
    modifies pff
    ensures pff[..] == MapRows(old(pff[..]), Resolver(master))
    ensures count == CountWhere(old(pff[..]), Resolvable(master))
  {
    UnresolvableUnchanged(master);
    count := UpdateRows(pff, Resolver(master), Resolvable(master));
  }

  /**
   * Resolution changes a row only when its base has candidates, and then only its series
   * and company name: the series becomes the candidate ticker whose price is closest to
   * the row's, which is the base itself or starts with the base and a dash, and the
   * company name becomes that ticker's issuer.
   */
  lemma ResolveRowMeaning(row: PffRow, master: seq<MasterRow>)
    ensures var r := ResolveRow(row, master);
      && r.baseTicker == row.baseTicker && r.lastPrice == row.lastPrice && r.others == row.others
      && (!HasCandidates(row, master) ==> r == row)
      && (HasCandidates(row, master) ==>
            && IsCandidate(r.preferredStock, PffBase(row))
            && exists m :: m in master && m.ticker == Some(r.preferredStock) && m.issuer == r.companyName
                 && forall n :: n in master && n.ticker.Some? && IsCandidate(n.ticker.value, PffBase(row)) ==>
                      Diff(CandidateOf(m), CleanPrice(row.lastPrice)) <= Diff(CandidateOf(n), CleanPrice(row.lastPrice)))
  {
    var cs := Candidates(master, PffBase(row));
    if |cs| > 0 {
      var price := CleanPrice(row.lastPrice);
      var best := cs[Closest(cs, price)];
      CandidatesMeaning(master, PffBase(row));
      ClosestMeaning(cs, price);
      assert best in cs;
      var m :| m in master && m.ticker.Some? && CandidateOf(m) == best;
      forall n | n in master && n.ticker.Some? && IsCandidate(n.ticker.value, PffBase(row))
        ensures Diff(best, price) <= Diff(CandidateOf(n), price)
      {
        assert CandidateOf(n) in cs;
        var j :| 0 <= j < |cs| && cs[j] == CandidateOf(n);
      }
    }
  }

  /** A base does not match a longer ticker that merely starts with it: `JPM` is not `JPMORGAN`. */
  lemma CandidateExample()
    ensures IsCandidate("JPM-A", "JPM") && IsCandidate("JPM", "JPM")
    ensures !IsCandidate("JPMORGAN", "JPM")
  {
    assert ("JPM-A")[..4] == "JPM-";
    assert ("JPMORGAN")[3] != '-';
  }
}
