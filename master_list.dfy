/**
 * The master list of base tickers (`load_master_base_tickers` in
 * analyze_pff_prefs.py): the text before the first dash of every entry of the
 * comma/newline-separated ticker file, stripped and upper-cased. The holdings
 * analysis keeps only rows whose base is in this set.
 */
module MasterList {
  import opened Wrappers
  import opened Text

  /** `t.split('-')[0].strip().upper()`: the base ticker of a listed or held ticker. */
  function BaseOf(t: string): string {
    Upper(Strip(Split(t, '-')[0]))
  }

  /** The non-empty bases of a list of tickers. */
  function BasesOf(ts: seq<string>): set<string> {
    if |ts| == 0 then {}
    else
      var b := BaseOf(ts[|ts| - 1]);
      BasesOf(ts[..|ts| - 1]) + if b != "" then {b} else {}
  }

  /** The base set of a ticker file's content. */
  function MasterBaseSet(content: string): set<string> {
    BasesOf(SplitTickerList(content))
  }

  /**
   * `load_master_base_tickers`: no set at all when the file is missing (filtering is then
   * disabled), otherwise the non-empty bases of its entries.
   */
  method LoadMasterBases(content: Option<string>) returns (bases: Option<set<string>>)
    ensures content.None? ==> bases.None?
    ensures content.Some? ==> bases == Some(MasterBaseSet(content.value))
  {
    if content.None? {
      return None;
    }
    var found := CollectBases(SplitTickerList(content.value));
    return Some(found);
  }

  /** The loop that adds the non-empty base of each entry to a set. */
  method CollectBases(rawTickers: seq<string>) returns (found: set<string>)
    ensures found == BasesOf(rawTickers)
  {
    found := {};
    for k := 0 to |rawTickers|
      invariant found == BasesOf(rawTickers[..k])
    {
      var base := BaseOf(rawTickers[k]);
      BasesOfStep(rawTickers, k);
      if base != "" {
        found := found + {base};
      }
    }
    assert rawTickers[..|rawTickers|] == rawTickers;
  }

  /** One more entry adds its base, when that is not empty. */
  lemma BasesOfStep(ts: seq<string>, k: nat)
    requires k < |ts|
    ensures BasesOf(ts[..k + 1]) == BasesOf(ts[..k]) + if BaseOf(ts[k]) != "" then {BaseOf(ts[k])} else {}
  {
    assert ts[..k + 1][..k] == ts[..k];
  }

  /** A base is non-empty, upper-case, free of surrounding whitespace and contains no dash. */
  predicate IsBase(b: string) {
    b != "" && IsUpperCase(b) && Strip(b) == b && '-' !in b
  }

  /** Every base a ticker can have, when it is not empty, has the shape of a base. */
  lemma BaseOfShape(t: string)
    ensures BaseOf(t) != "" ==> IsBase(BaseOf(t))
    ensures ',' !in t && '\n' !in t ==> ',' !in BaseOf(t) && '\n' !in BaseOf(t)
  {
    var parts := Split(t, '-');
    assert parts[0] in parts;
    FirstPieceShape(t, parts[0]);
  }

  lemma FirstPieceShape(t: string, first: string)
    requires '-' !in first && forall c :: c in first ==> c in t
    ensures var b := Upper(Strip(first));
      && (b != "" ==> IsBase(b))
      && (',' !in t && '\n' !in t ==> ',' !in b && '\n' !in b)
  {
    UpperStripShape(first);
    var b := Upper(Strip(first));
    assert '-' !in b && (',' in b ==> ',' in first) && ('\n' in b ==> '\n' in first);
  }

  /** Stripping and then upper-casing gives an upper-case, stripped string made of the input's characters and capitals. */
  lemma UpperStripShape(x: string)
    ensures IsUpperCase(Upper(Strip(x))) && Strip(Upper(Strip(x))) == Upper(Strip(x))
    ensures forall c :: c in Upper(Strip(x)) && !('A' <= c <= 'Z') ==> c in x
  {
    var s := Strip(x);
    UpperIsUpperCase(s);
    UpperKeepsEnds(s);
    UpperKeeps(s);
    forall c | c in s ensures c in x {
      StripKeepsChars(x, c);
    }
  }

  /** Upper-casing brings in no character other than capital letters. */
  lemma UpperKeeps(s: string)
    ensures forall c :: c in Upper(s) && !('A' <= c <= 'Z') ==> c in s
  {
    var u := Upper(s);
    forall c | c in u && !('A' <= c <= 'Z') ensures c in s {
      var i :| 0 <= i < |u| && u[i] == c;
      UpperCharKeeps(s[i]);
    }
  }

  /** Upper-casing keeps whitespace where it was, so a string without surrounding whitespace stays so. */
  lemma UpperKeepsEnds(s: string)
    requires s == "" || (!IsSpace(s[0]) && !IsSpace(s[|s| - 1]))
    ensures Strip(Upper(s)) == Upper(s)
  {
    if |s| > 0 {
      UpperCharKeeps(s[0]);
      UpperCharKeeps(s[|s| - 1]);
    }
    StripOfStripped(Upper(s));
  }

  lemma UpperCharKeeps(c: char)
    ensures !('A' <= UpperChar(c) <= 'Z') ==> UpperChar(c) == c
    ensures IsSpace(UpperChar(c)) <==> IsSpace(c)
  {
  }

  /**
   * Every member of the master set is a base (non-empty, upper-case, stripped, without
   * dash) free of commas and newlines, of some entry of the file, and every entry with a non-empty
   * base contributes it.
   */
  lemma MasterBaseSetMeaning(content: string)
    ensures forall b :: b in MasterBaseSet(content) ==> IsBase(b) && ',' !in b && '\n' !in b
    ensures forall b :: b in MasterBaseSet(content) <==>
      exists t :: t in SplitTickerList(content) && BaseOf(t) == b && b != ""
  {
    BasesOfMeaning(SplitTickerList(content));
    forall b | b in MasterBaseSet(content) ensures IsBase(b) && ',' !in b && '\n' !in b {
      var t :| t in SplitTickerList(content) && BaseOf(t) == b && b != "";
      BaseOfShape(t);
    }
  }

  /** `b` is one of the bases of `ts` iff it is the non-empty base of one of them. */
  lemma {:induction false} BasesOfMeaning(ts: seq<string>)
    ensures forall b :: b in BasesOf(ts) <==> exists t :: t in ts && BaseOf(t) == b && b != ""
  {
    if |ts| > 0 {
      var init := ts[..|ts| - 1];
      BasesOfMeaning(init);
      assert ts == init + [ts[|ts| - 1]];
      forall b | b in BasesOf(ts) ensures exists t :: t in ts && BaseOf(t) == b && b != "" {
        if b !in BasesOf(init) {
          assert ts[|ts| - 1] in ts;
        } else {
          var t :| t in init && BaseOf(t) == b && b != "";
          assert t in ts;
        }
      }
    }
  }

  /** A lower-case listing contributes its upper-cased base: `bac-q` gives `BAC`. */
  lemma ExampleLowerCase()
    ensures BaseOf("bac-q") == "BAC"
  {
    var t := "bac-q";
    assert t[3] == '-' && IndexOf(t, '-') == 3;
    assert t[..3] == "bac" && t[4..] == "q";
    StripOfStripped("bac");
    assert Upper("bac") == "BAC";
  }

  /** Whitespace before the dash is stripped: ` ETI-` gives `ETI`. */
  lemma ExampleSpaceBeforeDash()
    ensures BaseOf(" ETI-") == "ETI"
  {
    var t := " ETI-";
    assert t[4] == '-' && IndexOf(t, '-') == 4;
    assert t[..4] == " ETI";
    assert LeadingSpaces(" ETI") == 1;
    assert TrailingSpaces(" ETI"[1..]) == 0;
    assert Strip(" ETI") == "ETI";
    assert Upper("ETI") == "ETI";
  }

  /** A listing that starts with a dash has an empty base and adds nothing to the set. */
  lemma ExampleLeadingDash()
    ensures BaseOf("-X") == ""
  {
    assert "-X"[0] == '-';
    assert "-X"[..0] == "";
  }
}
