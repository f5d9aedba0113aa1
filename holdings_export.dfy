/**
 * `export_results` (analyze_pff_prefs.py): the groups of the holdings analysis are
 * flattened into one output row per preferred entry, and the rows are ordered by weight,
 * largest first. With no rows nothing is written.
 */
module HoldingsExport {
  import opened Wrappers
  import opened Text
  import opened Holdings

  /** One output row: base, company name, series, price, full name, weight, market value, original name. */
  datatype ExportRow = ExportRow(base: string, companyName: string, ticker: string, lastPrice: real,
                                 fullName: string, weight: real, marketValue: real, originalName: string)

  /** The output row of entry `p` of the group of `base`. */
  function ExportOf(base: string, companyName: string, p: Pref): ExportRow {
    ExportRow(base, companyName, p.ticker, p.lastPrice, p.name, p.weight, p.marketValue, p.originalName)
  }

  /** The output rows of one group, in the order of its entries. */
  function RowsOf(base: string, g: Group): (rs: seq<ExportRow>)
    ensures |rs| == |g.prefs|
    ensures forall i :: 0 <= i < |rs| ==> rs[i] == ExportOf(base, g.companyName, g.prefs[i])
  {
    seq(|g.prefs|, i requires 0 <= i < |g.prefs| => ExportOf(base, g.companyName, g.prefs[i]))
  }

  /** The output rows of the groups of `ks`, group after group. */
  function Flatten(groups: map<string, Group>, ks: seq<string>): seq<ExportRow>
    requires forall k :: k in ks ==> k in groups
  {
    if |ks| == 0 then []
    else Flatten(groups, ks[..|ks| - 1]) + RowsOf(ks[|ks| - 1], groups[ks[|ks| - 1]])
  }

  /** The flattening loop: every entry of every group, in the order of `ks`. */
  method FlattenRows(groups: map<string, Group>, ks: seq<string>) returns (rows: seq<ExportRow>)
    requires forall k :: k in ks ==> k in groups
    ensures rows == Flatten(groups, ks)
  {
    rows := [];
    for i := 0 to |ks|
      invariant rows == Flatten(groups, ks[..i])
    {
      var base := ks[i];
      var g := groups[base];
      ghost var before := rows;
      for j := 0 to |g.prefs|
        invariant rows == before + RowsOf(base, g)[..j]
      {
        rows := rows + [ExportOf(base, g.companyName, g.prefs[j])];
        assert RowsOf(base, g)[..j + 1] == RowsOf(base, g)[..j] + [RowsOf(base, g)[j]];
      }
      assert RowsOf(base, g)[..|g.prefs|] == RowsOf(base, g);
      assert ks[..i + 1][..i] == ks[..i];
    }
    assert ks[..|ks|] == ks;
  }

  /** Weights never increase along `rs`. */
  predicate ByWeight(rs: seq<ExportRow>) {
    forall i, j :: 0 <= i < j < |rs| ==> rs[i].weight >= rs[j].weight
  }

  /** `r` placed before the first row of `rs` whose weight it reaches. */
  function InsertByWeight(r: ExportRow, rs: seq<ExportRow>): seq<ExportRow> {
    if |rs| == 0 then [r]
    else if r.weight >= rs[0].weight then [r] + rs
    else [rs[0]] + InsertByWeight(r, rs[1..])
  }

  /** The rows ordered by weight, largest first (insertion sort). */
  function SortByWeight(rs: seq<ExportRow>): seq<ExportRow> {
    if |rs| == 0 then []
    else InsertByWeight(rs[0], SortByWeight(rs[1..]))
  }

  lemma {:induction false} InsertByWeightPerm(r: ExportRow, rs: seq<ExportRow>)
    ensures multiset(InsertByWeight(r, rs)) == multiset(rs) + multiset{r}
  {
    if |rs| > 0 && r.weight < rs[0].weight {
      InsertByWeightPerm(r, rs[1..]);
      assert rs == [rs[0]] + rs[1..];
    }
  }

  lemma {:induction false} InsertByWeightSorted(r: ExportRow, rs: seq<ExportRow>)
    requires ByWeight(rs)
    ensures ByWeight(InsertByWeight(r, rs))
  {
    if |rs| == 0 {
    } else if r.weight >= rs[0].weight {
      PrependByWeight(r, rs);
    } else {
      var t := InsertByWeight(r, rs[1..]);
      InsertByWeightSorted(r, rs[1..]);
      InsertByWeightPerm(r, rs[1..]);
      forall x | x in t ensures rs[0].weight >= x.weight {
        assert x in multiset(t);
      }
      PrependByWeight(rs[0], t);
    }
  }

  /** A row at least as heavy as every row of a sorted sequence can go in front of it. */
  lemma PrependByWeight(h: ExportRow, t: seq<ExportRow>)
    requires ByWeight(t)
    requires forall x :: x in t ==> h.weight >= x.weight
    ensures ByWeight([h] + t)
  {
    var s := [h] + t;
    forall i, j | 0 <= i < j < |s| ensures s[i].weight >= s[j].weight {
      assert s[j] == t[j - 1];
      if i > 0 {
        assert s[i] == t[i - 1];
      }
    }
  }

  /** The sort orders the rows by weight and keeps each of them, as often as it occurs. */
  lemma {:induction false} SortByWeightMeaning(rs: seq<ExportRow>)
    ensures ByWeight(SortByWeight(rs))
    ensures multiset(SortByWeight(rs)) == multiset(rs)
  {
    if |rs| > 0 {
      var rest := SortByWeight(rs[1..]);
      assert rs == [rs[0]] + rs[1..];
      assert SortByWeight(rs) == InsertByWeight(rs[0], rest);
      SortByWeightMeaning(rs[1..]);
      InsertByWeightSorted(rs[0], rest);
      InsertByWeightPerm(rs[0], rest);
    }
  }

  /**
   * `export_results`: no output when there are no rows, and otherwise the rows of all
   * groups ordered by weight, largest first.
   */
  function Export(groups: map<string, Group>, order: seq<string>): Option<seq<ExportRow>>
    requires forall k :: k in order ==> k in groups
  {
    var rows := Flatten(groups, order);
    if |rows| == 0 then None else Some(SortByWeight(rows))
  }

  method ExportResults(groups: map<string, Group>, order: seq<string>) returns (out: Option<seq<ExportRow>>)
    requires forall k :: k in order ==> k in groups
    ensures out == Export(groups, order)
  {
    var rows := FlattenRows(groups, order);
    if |rows| == 0 {
      return None;
    }
    return Some(SortByWeight(rows));
  }

  /** One output row per entry of the listed groups. */
  lemma {:induction false} FlattenCount(groups: map<string, Group>, ks: seq<string>)
    requires forall k :: k in ks ==> k in groups
    ensures |Flatten(groups, ks)| == EntryCount(groups, ks)
  {
    if |ks| > 0 {
      var init := ks[..|ks| - 1];
      FlattenCount(groups, init);
      assert ks == init + [ks[|ks| - 1]];
      EntryCountAppend(groups, init, ks[|ks| - 1]);
    }
  }

  /** `r` is the output row of some entry of the group of its base. */
  ghost predicate FromEntry(groups: map<string, Group>, r: ExportRow) {
    r.base in groups
      && exists i :: 0 <= i < |groups[r.base].prefs| && r == ExportOf(r.base, groups[r.base].companyName, groups[r.base].prefs[i])
  }

  /** Each output row is an entry of a listed group, under that group's base and company name. */
  lemma {:induction false} FlattenMembers(groups: map<string, Group>, ks: seq<string>)
    requires forall k :: k in ks ==> k in groups
    ensures forall r :: r in Flatten(groups, ks) ==> r.base in ks && FromEntry(groups, r)
  {
    if |ks| > 0 {
      var init := ks[..|ks| - 1];
      FlattenMembers(groups, init);
      var last := ks[|ks| - 1];
      forall r | r in Flatten(groups, ks) ensures r.base in ks && FromEntry(groups, r) {
        if r !in Flatten(groups, init) {
          var rs := RowsOf(last, groups[last]);
          var i :| 0 <= i < |rs| && rs[i] == r;
          assert r.base == last;
        }
      }
    }
  }

  /**
   * The export of a well-formed analysis: nothing iff no row was processed; otherwise one
   * output row per processed row, ordered by weight, largest first, and holding exactly
   * the rows of the groups.
   */
  lemma ExportMeaning(a: Analysis)
    requires WellFormed(a)
    ensures Export(a.groups, a.order).None? <==> a.processed == 0
    ensures Export(a.groups, a.order).Some? ==>
      && |Export(a.groups, a.order).value| == a.processed
      && ByWeight(Export(a.groups, a.order).value)
      && multiset(Export(a.groups, a.order).value) == multiset(Flatten(a.groups, a.order))
  {
    FlattenCount(a.groups, a.order);
    SortByWeightMeaning(Flatten(a.groups, a.order));
    assert |SortByWeight(Flatten(a.groups, a.order))| == |multiset(Flatten(a.groups, a.order))|;
  }
}
