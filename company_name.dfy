/**
 * The company-name cleaner (`extract_company_name` in analyze_pff_prefs.py):
 * the holdings name is upper-cased, each corporate suffix of a fixed list is
 * cut off the end when the name ends with it, in list order, and the rest is
 * stripped.
 */
module CompanyName {
  import opened Text

  /** The suffixes, in the order they are tried. */
  const Suffixes: seq<string> := [
    " INCORPORATED", " INC", " CORPORATION", " CORP",
    " COMPANY", " CO", " LIMITED", " LTD",
    " UNITS", " DS REPSTG", " DS REPRESENTING",
    " NON-CUMULATIVE PREF", " PERP STRETCH PRF",
    " PERP STRIFE PRF", " CONV PR", " DRC",
    " CAPITAL HOLDINGS", " CAPITAL XIII",
    " THE"]

  /** What an empty name becomes. */
  const Missing: string := "N/A"

  /** The name after trying each of `suffixes` in turn. */
  function CutSuffixes(name: string, suffixes: seq<string>): string
    decreases |suffixes|
  {
    if |suffixes| == 0 then name
    else
      var suffix := suffixes[0];
      var rest := if EndsWith(name, suffix) then name[..|name| - |suffix|] else name;
      CutSuffixes(rest, suffixes[1..])
  }

  /** The cleaned name of a holdings row. */
  function CleanName(nameStr: string): string {
    if nameStr == "" then Missing else Strip(CutSuffixes(Upper(nameStr), Suffixes))
  }

  /** `extract_company_name`: the loop that cuts the suffixes off one after the other. */
  method ExtractCompanyName(nameStr: string) returns (r: string)
    ensures r == CleanName(nameStr)
  {
    if nameStr == "" {
      return Missing;
    }
    var name := CutEach(Upper(nameStr), Suffixes);
    return Strip(name);
  }

  /** The loop over the suffixes: each one the name ends with is cut off, in order. */
  method CutEach(name0: string, suffixes: seq<string>) returns (name: string)
    ensures name == CutSuffixes(name0, suffixes)
  {
    name := name0;
    for k := 0 to |suffixes|
      invariant CutSuffixes(name, suffixes[k..]) == CutSuffixes(name0, suffixes)
    {
      var suffix := suffixes[k];
      assert suffixes[k..][1..] == suffixes[k + 1..];
      if EndsWith(name, suffix) {
        name := name[..|name| - |suffix|];
      }
    }
  }

  /** The text removed, when `picks` says which of `suffixes` were cut. */
  function Removed(suffixes: seq<string>, picks: seq<bool>): string
    requires |picks| == |suffixes|
  {
    if |suffixes| == 0 then ""
    else Removed(suffixes[1..], picks[1..]) + (if picks[0] then suffixes[0] else "")
  }

  /** Which of `suffixes` the cutting removes from `name`. */
  function Picks(name: string, suffixes: seq<string>): (picks: seq<bool>)
    ensures |picks| == |suffixes|
    decreases |suffixes|
  {
    if |suffixes| == 0 then []
    else
      var suffix := suffixes[0];
      var cut := EndsWith(name, suffix);
      [cut] + Picks(if cut then name[..|name| - |suffix|] else name, suffixes[1..])
  }

  /**
   * Cutting only ever removes text from the end: the name is what is left followed by
   * the suffixes that were cut, each at most once, the first one tried last in the text.
   */
  lemma {:induction false} CutSuffixesDecomposition(name: string, suffixes: seq<string>)
    ensures name == CutSuffixes(name, suffixes) + Removed(suffixes, Picks(name, suffixes))
    decreases |suffixes|
  {
    if |suffixes| > 0 {
      var suffix := suffixes[0];
      var cut := EndsWith(name, suffix);
      var rest := if cut then name[..|name| - |suffix|] else name;
      CutSuffixesDecomposition(rest, suffixes[1..]);
      var picks := Picks(rest, suffixes[1..]);
      var all := Picks(name, suffixes);
      assert all[1..] == picks && all[0] == cut;
      var left := CutSuffixes(rest, suffixes[1..]);
      assert CutSuffixes(name, suffixes) == left;
      assert Removed(suffixes, all) == Removed(suffixes[1..], picks) + (if cut then suffix else "");
      if cut {
        assert name == rest + suffix;
      }
    }
  }

  /** An empty name cleans to "N/A", and any other name cleans to upper case. */
  lemma CleanNameMeaning(nameStr: string)
    ensures nameStr == "" ==> CleanName(nameStr) == "N/A"
    ensures nameStr != "" ==> IsUpperCase(CleanName(nameStr))
  {
    if nameStr != "" {
      UpperIsUpperCase(nameStr);
      CutMeaning(Upper(nameStr), Suffixes);
    }
  }

  /**
   * What the cleaner keeps of a name before the final strip is a prefix of the upper-cased
   * name: the name is that prefix followed by the suffixes `Picks` selects, each at most
   * once, the first one tried last in the text.
   */
  lemma CleanNameRemoves(nameStr: string)
    ensures var u := Upper(nameStr);
      var removed := Removed(Suffixes, Picks(u, Suffixes));
      && |removed| <= |u|
      && CutSuffixes(u, Suffixes) == u[..|u| - |removed|]
      && u == u[..|u| - |removed|] + removed
  {
    UpperIsUpperCase(nameStr);
    CutMeaning(Upper(nameStr), Suffixes);
  }

  /** `CleanNameMeaning` for any upper-case name and any list of suffixes. */
  lemma CutMeaning(u: string, suffixes: seq<string>)
    requires IsUpperCase(u)
    ensures var removed := Removed(suffixes, Picks(u, suffixes));
      var left := CutSuffixes(u, suffixes);
      && IsUpperCase(Strip(left))
      && |removed| <= |u|
      && u == u[..|u| - |removed|] + removed
      && left == u[..|u| - |removed|]
  {
    var left := CutSuffixes(u, suffixes);
    CutSuffixesDecomposition(u, suffixes);
    var removed := Removed(suffixes, Picks(u, suffixes));
    assert u == left + removed;
    assert u[..|u| - |removed|] == left;
    assert IsUpperCase(left) by {
      forall i | 0 <= i < |left| ensures !IsLowerAscii(left[i]) {
        assert left[i] == u[i];
      }
    }
    StripKeepsUpperCase(left);
  }

  /**
   * The first suffix in list order that the name ends with is always cut: it is picked,
   * and the cutting goes on from the name without it.
   */
  lemma {:induction false} PickedWhenFirst(name: string, suffixes: seq<string>, k: nat)
    requires k < |suffixes|
    requires EndsWith(name, suffixes[k])
    requires forall j :: 0 <= j < k ==> !EndsWith(name, suffixes[j])
    ensures Picks(name, suffixes)[k]
    ensures CutSuffixes(name, suffixes) == CutSuffixes(name[..|name| - |suffixes[k]|], suffixes[k + 1..])
  {
    if k > 0 {
      assert !EndsWith(name, suffixes[0]);
      PickedWhenFirst(name, suffixes[1..], k - 1);
      assert suffixes[1..][k - 1 + 1..] == suffixes[k + 1..];
    } else {
      assert suffixes[1..] == suffixes[k + 1..];
    }
  }

  /** A name that ends with none of the suffixes is left as it is. */
  lemma {:induction false} NoSuffixNoCut(name: string, suffixes: seq<string>)
    requires forall j :: 0 <= j < |suffixes| ==> !EndsWith(name, suffixes[j])
    ensures CutSuffixes(name, suffixes) == name
  {
    if |suffixes| > 0 {
      NoSuffixNoCut(name, suffixes[1..]);
    }
  }

}
