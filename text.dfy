/**
 * The handful of Python `str` operations the screener relies on: `strip`,
 * `upper`, `isalpha`, `split` on one character, `in` for substrings,
 * `startswith`/`endswith`, `replace`, `zfill`, `float`, and the
 * comma-or-newline ticker-list idiom that recurs in three places.
 */
module Text {
  import opened Wrappers

  /** Python's `str.isspace`, for the whitespace characters of Latin-1 and the Unicode space separators. */
  predicate IsSpace(c: char) {
    || (9 <= c as int <= 13)
    || (28 <= c as int <= 32)
    || c as int == 0x85 || c as int == 0xA0 || c as int == 0x1680
    || (0x2000 <= c as int <= 0x200A)
    || c as int == 0x2028 || c as int == 0x2029 || c as int == 0x202F
    || c as int == 0x205F || c as int == 0x3000
  }

  predicate AllSpace(s: string) {
    forall i :: 0 <= i < |s| ==> IsSpace(s[i])
  }

  function LeadingSpaces(s: string): (n: nat)
    ensures n <= |s|
    ensures AllSpace(s[..n])
    ensures n < |s| ==> !IsSpace(s[n])
  {
    if |s| > 0 && IsSpace(s[0]) then 1 + LeadingSpaces(s[1..]) else 0
  }

  function TrailingSpaces(s: string): (n: nat)
    ensures n <= |s|
    ensures AllSpace(s[|s| - n..])
    ensures n < |s| ==> !IsSpace(s[|s| - 1 - n])
  {
    if |s| > 0 && IsSpace(s[|s| - 1]) then 1 + TrailingSpaces(s[..|s| - 1]) else 0
  }

  /** `s.strip()`: `s` with its leading and trailing whitespace removed. */
  function Strip(s: string): (r: string)
    ensures |r| <= |s|
    ensures r == "" || (!IsSpace(r[0]) && !IsSpace(r[|r| - 1]))
    ensures LeadingSpaces(s) + |r| <= |s| && r == s[LeadingSpaces(s)..LeadingSpaces(s) + |r|]
    ensures AllSpace(s[..LeadingSpaces(s)]) && AllSpace(s[LeadingSpaces(s) + |r|..])
  {
    var a := LeadingSpaces(s);
    var t := s[a..];
    var r := t[..|t| - TrailingSpaces(t)];
    assert s[a + |r|..] == t[|r|..];
    r
  }

  lemma StripKeepsChars(s: string, c: char)
    requires c in Strip(s)
    ensures c in s
  {
    var r := Strip(s);
    var k :| 0 <= k < |r| && r[k] == c;
    assert s[LeadingSpaces(s) + k] == c;
  }

  lemma StripOfStripped(s: string)
    requires s == "" || (!IsSpace(s[0]) && !IsSpace(s[|s| - 1]))
    ensures Strip(s) == s
  {
    if s != "" {
      assert LeadingSpaces(s) == 0;
      assert TrailingSpaces(s) == 0;
    }
  }

  /** Stripping is idempotent. */
  lemma StripIdempotent(s: string)
    ensures Strip(Strip(s)) == Strip(s)
  {
    StripOfStripped(Strip(s));
  }

  predicate IsLowerAscii(c: char) { 'a' <= c <= 'z' }

  predicate IsAlpha(c: char) { ('A' <= c <= 'Z') || ('a' <= c <= 'z') }

  function UpperChar(c: char): (u: char)
    ensures !IsLowerAscii(u)
    ensures IsAlpha(u) <==> IsAlpha(c)
  {
    if IsLowerAscii(c) then (c as int - 32) as char else c
  }

  /** `s.upper()` on ASCII letters. */
  function Upper(s: string): (r: string)
    ensures |r| == |s|
    ensures forall i :: 0 <= i < |s| ==> r[i] == UpperChar(s[i])
  {
    seq(|s|, i requires 0 <= i < |s| => UpperChar(s[i]))
  }

  predicate IsUpperCase(s: string) {
    forall i :: 0 <= i < |s| ==> !IsLowerAscii(s[i])
  }

  lemma UpperIsUpperCase(s: string)
    ensures IsUpperCase(Upper(s))
  {
  }

  /** A string with no lower-case letter is its own upper case. */
  lemma UpperOfUpperCase(s: string)
    requires IsUpperCase(s)
    ensures Upper(s) == s
  {
  }

  /** Whatever is cut from both ends of an upper-case string, the rest stays upper case. */
  lemma StripKeepsUpperCase(s: string)
    requires IsUpperCase(s)
    ensures IsUpperCase(Strip(s))
  {
    var r := Strip(s);
    forall i | 0 <= i < |r| ensures !IsLowerAscii(r[i]) {
      assert r[i] == s[LeadingSpaces(s) + i];
    }
  }

  predicate StartsWith(s: string, prefix: string) {
    |prefix| <= |s| && s[..|prefix|] == prefix
  }

  predicate EndsWith(s: string, suffix: string) {
    |suffix| <= |s| && s[|s| - |suffix|..] == suffix
  }

  /** The first position of `c` in `s`. */
  function IndexOf(s: string, c: char): (i: nat)
    requires c in s
    ensures i < |s| && s[i] == c && c !in s[..i]
  {
    if s[0] == c then 0 else 1 + IndexOf(s[1..], c)
  }

  lemma IndexOfJoined(a: string, c: char, b: string)
    requires c !in a
    ensures c in a + [c] + b && IndexOf(a + [c] + b, c) == |a|
  {
    var s := a + [c] + b;
    assert s[|a|] == c;
    assert s[..|a|] == a;
  }

  /** `s.split(sep)`: the pieces between the occurrences of `sep`, in order. */
  function Split(s: string, sep: char): (parts: seq<string>)
    ensures |parts| >= 1
    ensures forall p :: p in parts ==> sep !in p
    ensures forall p, c :: p in parts && c in p ==> c in s
    decreases |s|
  {
    if sep in s then
      var i := IndexOf(s, sep);
      var rest := Split(s[i + 1..], sep);
      assert forall p, c :: p in rest && c in p ==> c in s by {
        forall p, c | p in rest && c in p ensures c in s {
          var k :| 0 <= k < |s[i + 1..]| && s[i + 1..][k] == c;
          assert s[i + 1 + k] == c;
        }
      }
      [s[..i]] + rest
    else
      [s]
  }

  /** `sep.join(parts)`. */
  function Join(parts: seq<string>, sep: char): string {
    if |parts| == 0 then ""
    else if |parts| == 1 then parts[0]
    else parts[0] + [sep] + Join(parts[1..], sep)
  }

  /** Joining the pieces of a split gives the string back. */
  lemma {:induction false} JoinSplit(s: string, sep: char)
    ensures Join(Split(s, sep), sep) == s
    decreases |s|
  {
    if sep in s {
      var i := IndexOf(s, sep);
      var rest := Split(s[i + 1..], sep);
      JoinSplit(s[i + 1..], sep);
      var parts := [s[..i]] + rest;
      assert Split(s, sep) == parts;
      assert parts[1..] == rest && |parts| >= 2;
      assert Join(parts, sep) == s[..i] + [sep] + Join(rest, sep);
      assert s == s[..i] + [sep] + s[i + 1..];
    }
  }

  /** Splitting a join of separator-free pieces gives the pieces back. */
  lemma {:induction false} SplitJoin(parts: seq<string>, sep: char)
    requires |parts| >= 1
    requires forall p :: p in parts ==> sep !in p
    ensures Split(Join(parts, sep), sep) == parts
  {
    if |parts| > 1 {
      var rest := Join(parts[1..], sep);
      IndexOfJoined(parts[0], sep, rest);
      var s := parts[0] + [sep] + rest;
      assert s[..|parts[0]|] == parts[0];
      assert s[|parts[0]| + 1..] == rest;
      SplitJoin(parts[1..], sep);
      assert parts == [parts[0]] + parts[1..];
    }
  }

  function CountChar(s: string, c: char): nat {
    if |s| == 0 then 0 else (if s[0] == c then 1 else 0) + CountChar(s[1..], c)
  }

  lemma CountCharSplitAt(s: string, c: char, i: nat)
    requires i <= |s|
    ensures CountChar(s, c) == CountChar(s[..i], c) + CountChar(s[i..], c)
  {
    if i > 0 {
      CountCharSplitAt(s[1..], c, i - 1);
      assert s[1..][..i - 1] == s[..i][1..];
      assert s[1..][i - 1..] == s[i..];
    }
  }

  lemma CountCharAbsent(s: string, c: char)
    ensures c !in s <==> CountChar(s, c) == 0
  {
    if |s| > 0 {
      CountCharAbsent(s[1..], c);
      assert s == [s[0]] + s[1..];
    }
  }

  /** `s.split(sep)` has one more piece than `s` has separators. */
  lemma {:induction false} SplitCount(s: string, sep: char)
    ensures |Split(s, sep)| == CountChar(s, sep) + 1
    decreases |s|
  {
    CountCharAbsent(s, sep);
    if sep in s {
      var i := IndexOf(s, sep);
      SplitCount(s[i + 1..], sep);
      CountCharSplitAt(s, sep, i);
      CountCharSplitAt(s[i..], sep, 1);
      CountCharAbsent(s[..i], sep);
      assert s[i..][1..] == s[i + 1..];
    }
  }

  predicate IsAt(s: string, pat: string, i: nat) {
    i + |pat| <= |s| && s[i..i + |pat|] == pat
  }

  /** `s.find(pat)`: the first position where `pat` occurs in `s`, if any. */
  function Find(s: string, pat: string): (r: Option<nat>)
    ensures r.Some? ==> IsAt(s, pat, r.value) && forall j :: 0 <= j < r.value ==> !IsAt(s, pat, j)
    ensures r.None? ==> forall j :: 0 <= j <= |s| ==> !IsAt(s, pat, j)
    decreases |s|
  {
    if |s| < |pat| then None
    else if s[..|pat|] == pat then Some(0)
    else
      var tail := Find(s[1..], pat);
      assert forall j :: 1 <= j <= |s| ==> (IsAt(s, pat, j) <==> IsAt(s[1..], pat, j - 1)) by {
        forall j | 1 <= j <= |s| ensures IsAt(s, pat, j) <==> IsAt(s[1..], pat, j - 1) {
          if j + |pat| <= |s| {
            assert s[1..][j - 1..j - 1 + |pat|] == s[j..j + |pat|];
          }
        }
      }
      match tail
      case Some(k) => Some(k + 1)
      case None => None
  }

  /** Python's `pat in s` for strings. */
  predicate Contains(s: string, pat: string) {
    Find(s, pat).Some?
  }

  /** `s.replace(pat, rep)` for a non-empty `pat`: every occurrence, scanning left to right without overlap. */
  function Replace(s: string, pat: string, rep: string): string
    requires |pat| > 0
    decreases |s|
  {
    if |s| < |pat| then s
    else if s[..|pat|] == pat then rep + Replace(s[|pat|..], pat, rep)
    else [s[0]] + Replace(s[1..], pat, rep)
  }

  /** Replacing a pattern that does not occur changes nothing. */
  lemma {:induction false} ReplaceAbsent(s: string, pat: string, rep: string)
    requires |pat| > 0 && !Contains(s, pat)
    ensures Replace(s, pat, rep) == s
    decreases |s|
  {
    if |s| >= |pat| {
      assert !IsAt(s, pat, 0);
      assert !Contains(s[1..], pat) by {
        forall j | 0 <= j <= |s[1..]| ensures !IsAt(s[1..], pat, j) {
          assert !IsAt(s, pat, j + 1);
          if j + |pat| <= |s[1..]| {
            assert s[1..][j..j + |pat|] == s[j + 1..j + 1 + |pat|];
          }
        }
      }
      ReplaceAbsent(s[1..], pat, rep);
      assert s == [s[0]] + s[1..];
    }
  }

  /** `s.replace(from, to)` for single characters. */
  function ReplaceChar(s: string, from: char, to: char): (r: string)
    ensures |r| == |s|
    ensures from != to ==> from !in r
    ensures forall c :: c in r && c != to ==> c in s
    ensures from !in s ==> r == s
  {
    seq(|s|, i requires 0 <= i < |s| => if s[i] == from then to else s[i])
  }

  /** `s.replace(c, '')`. */
  function RemoveChar(s: string, c: char): (r: string)
    ensures c !in r
    ensures forall d :: d in r ==> d in s
    ensures c !in s ==> r == s
  {
    if |s| == 0 then ""
    else (if s[0] == c then "" else [s[0]]) + RemoveChar(s[1..], c)
  }

  function Repeat(c: char, n: nat): (r: string)
    ensures |r| == n && forall i :: 0 <= i < n ==> r[i] == c
  {
    if n == 0 then "" else [c] + Repeat(c, n - 1)
  }

  /** `s.zfill(width)`: pads with `0` on the left, after a leading sign, up to `width`. */
  function ZFill(s: string, width: nat): (r: string)
    ensures |r| == if |s| >= width then |s| else width
    ensures |s| >= width ==> r == s
    ensures |s| < width && !(|s| > 0 && (s[0] == '+' || s[0] == '-')) ==> EndsWith(r, s) && StartsWith(r, Repeat('0', width - |s|))
  {
    if |s| >= width then s
    else
      var pad := Repeat('0', width - |s|);
      if |s| > 0 && (s[0] == '+' || s[0] == '-') then [s[0]] + pad + s[1..] else pad + s
  }

  /** The comma-or-newline list idiom: `[t.strip() for t in text.replace('\n', ',').split(',') if t.strip()]`. */
  function SplitTickerList(text: string): (ts: seq<string>)
    ensures forall t :: t in ts ==> IsListEntry(t)
  {
    var parts := Split(ReplaceChar(text, '\n', ','), ',');
    assert forall p :: p in parts ==> '\n' !in p;
    StrippedNonBlank(parts)
  }

  /** What every entry of a split ticker list looks like. */
  predicate IsListEntry(t: string) {
    t != "" && Strip(t) == t && ',' !in t && '\n' !in t
  }

  function StrippedNonBlank(parts: seq<string>): (ts: seq<string>)
    requires forall p :: p in parts ==> ',' !in p && '\n' !in p
    ensures forall t :: t in ts ==> IsListEntry(t)
    ensures |ts| <= |parts|
  {
    if |parts| == 0 then []
    else
      var t := Strip(parts[0]);
      assert parts[0] in parts;
      StripListPart(parts[0]);
      assert forall p :: p in parts[1..] ==> p in parts;
      (if t == "" then [] else [t]) + StrippedNonBlank(parts[1..])
  }

  /** A piece of the list, stripped, is an entry unless it is blank. */
  lemma StripListPart(p: string)
    requires ',' !in p && '\n' !in p
    ensures Strip(p) != "" ==> IsListEntry(Strip(p))
  {
    var t := Strip(p);
    StripIdempotent(p);
    if ',' in t { StripKeepsChars(p, ','); }
    if '\n' in t { StripKeepsChars(p, '\n'); }
  }

  /** A list written out with commas splits back into the same entries. */
  lemma ListRoundTrip(ts: seq<string>)
    requires |ts| >= 1
    requires forall t :: t in ts ==> IsListEntry(t)
    ensures SplitTickerList(Join(ts, ',')) == ts
  {
    var text := Join(ts, ',');
    JoinHasNo(ts, ',', '\n');
    SplitJoin(ts, ',');
    StrippedNonBlankOfEntries(ts);
  }

  lemma JoinHasNo(parts: seq<string>, sep: char, c: char)
    requires c != sep
    requires forall p :: p in parts ==> c !in p
    ensures c !in Join(parts, sep)
  {
    if |parts| > 1 {
      JoinHasNo(parts[1..], sep, c);
    }
  }

  lemma {:induction false} StrippedNonBlankOfEntries(ts: seq<string>)
    requires forall t :: t in ts ==> IsListEntry(t)
    ensures forall t :: t in ts ==> ',' !in t && '\n' !in t
    ensures StrippedNonBlank(ts) == ts
  {
    if |ts| > 0 {
      assert ts[0] in ts && IsListEntry(ts[0]);
      assert forall t :: t in ts[1..] ==> t in ts;
      StrippedNonBlankOfEntries(ts[1..]);
      assert StrippedNonBlank(ts) == [ts[0]] + StrippedNonBlank(ts[1..]);
      assert ts == [ts[0]] + ts[1..];
    }
  }

  predicate NoDup<T(==)>(xs: seq<T>) {
    forall i, j :: 0 <= i < j < |xs| ==> xs[i] != xs[j]
  }

  /** The distinct elements of `xs`, each at its first occurrence. */
  function Dedup(xs: seq<string>): (ys: seq<string>)
    ensures NoDup(ys)
    ensures forall x :: x in ys <==> x in xs
    ensures |ys| <= |xs|
  {
    if |xs| == 0 then []
    else
      var d := Dedup(xs[..|xs| - 1]);
      var x := xs[|xs| - 1];
      assert forall y :: y in xs <==> y in xs[..|xs| - 1] || y == x by {
        assert xs == xs[..|xs| - 1] + [x];
      }
      if x in d then d else d + [x]
  }

  predicate IsDigit(c: char) { '0' <= c <= '9' }

  predicate AllDigits(s: string) {
    forall i :: 0 <= i < |s| ==> IsDigit(s[i])
  }

  function DigitsValue(s: string): nat
    requires AllDigits(s)
  {
    if |s| == 0 then 0 else DigitsValue(s[..|s| - 1]) * 10 + (s[|s| - 1] as int - '0' as int)
  }

  function Pow10(k: nat): (p: nat)
    ensures p >= 1
  {
    if k == 0 then 1 else 10 * Pow10(k - 1)
  }

  /** Digits, optionally with one decimal point, at least one digit in all. */
  function ParseUnsigned(t: string): Option<real> {
    if '.' in t then
      var k := IndexOf(t, '.');
      var whole, frac := t[..k], t[k + 1..];
      if AllDigits(whole) && AllDigits(frac) && |whole| + |frac| > 0 then
        Some(DigitsValue(whole) as real + DigitsValue(frac) as real / Pow10(|frac|) as real)
      else None
    else if |t| > 0 && AllDigits(t) then Some(DigitsValue(t) as real)
    else None
  }

  /** `float(s)` for plain decimal numerals: surrounding whitespace, an optional sign, digits and one optional point. */
  function ParseFloat(s: string): Option<real> {
    var t := Strip(s);
    if |t| > 0 && t[0] == '-' then
      match ParseUnsigned(t[1..])
      case Some(v) => Some(-v)
      case None => None
    else if |t| > 0 && t[0] == '+' then ParseUnsigned(t[1..])
    else ParseUnsigned(t)
  }

  function DigitChar(d: nat): (c: char)
    requires d < 10
    ensures IsDigit(c) && c as int - '0' as int == d
  {
    ('0' as int + d) as char
  }

  /** The decimal numeral of `n`, as `str(n)` writes it. */
  function NatText(n: nat): (s: string)
    ensures |s| >= 1 && AllDigits(s)
  {
    if n < 10 then [DigitChar(n)] else NatText(n / 10) + [DigitChar(n % 10)]
  }

  lemma {:induction false} NatTextValue(n: nat)
    ensures DigitsValue(NatText(n)) == n
  {
    if n >= 10 {
      NatTextValue(n / 10);
      var s := NatText(n);
      assert s[..|s| - 1] == NatText(n / 10);
    }
  }

  lemma ParseUnsignedNatText(n: nat)
    ensures ParseUnsigned(NatText(n)) == Some(n as real)
  {
    var s := NatText(n);
    NatTextValue(n);
    assert forall k :: 0 <= k < |s| ==> s[k] != '.';
  }

  /** `float(str(n)) == n` and `float('-' + str(n)) == -n`. */
  lemma ParseFloatNatText(n: nat)
    ensures ParseFloat(NatText(n)) == Some(n as real)
    ensures ParseFloat("-" + NatText(n)) == Some(-(n as real))
  {
    ParseUnsignedNatText(n);
    ParseFloatSigned(NatText(n), n as real);
  }

  /** A numeral of digits reads as its value through `float`, and as the negated value after a minus sign. */
  lemma ParseFloatSigned(s: string, v: real)
    requires |s| >= 1 && AllDigits(s) && ParseUnsigned(s) == Some(v)
    ensures ParseFloat(s) == Some(v) && ParseFloat("-" + s) == Some(-v)
  {
    ParseFloatDigits(s, v);
    ParseFloatNegated(s, v);
  }

  /** A numeral of digits reads the same through `float`. */
  lemma ParseFloatDigits(s: string, v: real)
    requires |s| >= 1 && AllDigits(s) && ParseUnsigned(s) == Some(v)
    ensures ParseFloat(s) == Some(v)
  {
    assert IsDigit(s[0]) && IsDigit(s[|s| - 1]);
    StripOfStripped(s);
  }

  /** A minus sign before a numeral of digits negates its value. */
  lemma ParseFloatNegated(s: string, v: real)
    requires |s| >= 1 && AllDigits(s) && ParseUnsigned(s) == Some(v)
    ensures ParseFloat("-" + s) == Some(-v)
  {
    var m := "-" + s;
    assert IsDigit(s[|s| - 1]) && m[|m| - 1] == s[|s| - 1];
    StripOfStripped(m);
    assert m[1..] == s;
  }

  /** `replace` works piecewise: removing a character from a concatenation removes it from each part. */
  lemma {:induction false} RemoveCharAppend(a: string, b: string, c: char)
    ensures RemoveChar(a + b, c) == RemoveChar(a, c) + RemoveChar(b, c)
  {
    if |a| > 0 {
      var head := if a[0] == c then "" else [a[0]];
      assert (a + b)[0] == a[0] && (a + b)[1..] == a[1..] + b;
      assert RemoveChar(a + b, c) == head + RemoveChar(a[1..] + b, c);
      RemoveCharAppend(a[1..], b, c);
    } else {
      assert a + b == b;
    }
  }

  lemma AllDigitsAppend(a: string, b: string)
    requires AllDigits(a) && AllDigits(b)
    ensures AllDigits(a + b)
  {
    var s := a + b;
    forall i | 0 <= i < |s| ensures IsDigit(s[i]) {
      if i < |a| { assert s[i] == a[i]; } else { assert s[i] == b[i - |a|]; }
    }
  }

  /** The value of two digit strings written one after the other. */
  lemma {:induction false} DigitsValueAppend(a: string, b: string)
    requires AllDigits(a) && AllDigits(b)
    ensures AllDigits(a + b)
    ensures DigitsValue(a + b) == DigitsValue(a) * Pow10(|b|) + DigitsValue(b)
  {
    AllDigitsAppend(a, b);
    if |b| == 0 {
      assert a + b == a;
    } else {
      var init := b[..|b| - 1];
      var d := b[|b| - 1] as int - '0' as int;
      var last := b[|b| - 1];
      assert init + [last] == b;
      assert a + init + [last] == a + b;
      DigitsValueAppend(a, init);
      var x, p, y := DigitsValue(a), Pow10(|init|), DigitsValue(init);
      assert DigitsValue(a + init) == x * p + y;
      DigitsValueSnoc(a + init, last);
      assert DigitsValue(a + b) == (x * p + y) * 10 + d;
      DigitsValueSnoc(init, last);
      assert DigitsValue(b) == y * 10 + d;
      assert Pow10(|b|) == 10 * p;
      ShiftDigit(x, p, y, d);
    }
  }

  /** One more digit at the end multiplies the value by ten and adds the digit. */
  lemma DigitsValueSnoc(s: string, c: char)
    requires AllDigits(s) && IsDigit(c)
    ensures AllDigits(s + [c])
    ensures DigitsValue(s + [c]) == DigitsValue(s) * 10 + (c as int - '0' as int)
  {
    var t := s + [c];
    assert forall i :: 0 <= i < |s| ==> t[i] == s[i];
    assert t[..|t| - 1] == s;
  }

  lemma ShiftDigit(x: int, p: int, y: int, d: int)
    ensures (x * p + y) * 10 + d == x * (10 * p) + (y * 10 + d)
  {
  }

  /** A non-empty string of digits reads as its value, through `float` as well. */
  lemma ParseFloatAllDigits(s: string)
    requires |s| >= 1 && AllDigits(s)
    ensures ParseUnsigned(s) == Some(DigitsValue(s) as real)
    ensures ParseFloat(s) == Some(DigitsValue(s) as real)
  {
    assert forall k :: 0 <= k < |s| ==> s[k] != '.';
    ParseFloatDigits(s, DigitsValue(s) as real);
  }

  /** Digits hold no other character, so removing one leaves them as they are. */
  lemma DigitsKeep(s: string, c: char)
    requires AllDigits(s) && !IsDigit(c)
    ensures RemoveChar(s, c) == s
  {
    assert forall k :: 0 <= k < |s| ==> s[k] != c;
  }

  /** A numeral of digits has no surrounding blanks to strip. */
  lemma DigitsStripped(s: string)
    requires AllDigits(s)
    ensures Strip(s) == s
  {
    if |s| > 0 {
      assert IsDigit(s[0]) && IsDigit(s[|s| - 1]);
    }
    StripOfStripped(s);
  }

  /**
   * A numeral with a thousands comma, such as "1,234", reads once its commas are
   * removed as the digits on both sides written together (whose value `DigitsValueAppend` gives).
   */
  lemma ParseFloatGrouped(hi: string, lo: string)
    requires |hi| >= 1 && AllDigits(hi) && AllDigits(lo)
    ensures AllDigits(hi + lo)
    ensures ParseFloat(RemoveChar(hi + "," + lo, ',')) == Some(DigitsValue(hi + lo) as real)
  {
    GroupedDigits(hi, lo);
    AllDigitsAppend(hi, lo);
    ParseFloatAllDigits(hi + lo);
  }

  /** Removing the comma of a grouped numeral joins its two runs of digits. */
  lemma GroupedDigits(hi: string, lo: string)
    requires AllDigits(hi) && AllDigits(lo)
    ensures RemoveChar(hi + "," + lo, ',') == hi + lo
  {
    var comma: string := [','];
    assert RemoveChar(comma, ',') == "" by {
      assert comma[1..] == "";
    }
    RemoveCharAppend(hi + comma, lo, ',');
    RemoveCharAppend(hi, comma, ',');
    DigitsKeep(hi, ',');
    DigitsKeep(lo, ',');
    assert RemoveChar(hi + comma, ',') == hi;
  }

  /** Text that is not a numeral, such as "N/A", does not read as a number. */
  lemma ParseFloatRejects()
    ensures ParseFloat("N/A") == None
  {
    var s := "N/A";
    assert !IsSpace(s[0]) && !IsSpace(s[|s| - 1]);
    StripOfStripped(s);
    assert s[0] == 'N' && !IsDigit(s[0]);
    assert '.' !in s by { assert forall k :: 0 <= k < |s| ==> s[k] != '.'; }
    assert !AllDigits(s);
    assert ParseUnsigned(s) == None;
  }

  /** A dash, as a table writes for a missing amount, and a double dash do not read as a number. */
  lemma ParseFloatDash()
    ensures ParseFloat("-") == None && ParseFloat("--") == None
  {
    var one, two := "-", "--";
    assert !IsSpace(one[0]) && !IsSpace(two[0]) && !IsSpace(two[1]);
    StripOfStripped(one);
    StripOfStripped(two);
    assert one[1..] == "";
    assert two[1..] == one && !IsDigit(one[0]) && '.' !in one;
    assert ParseUnsigned(one) == None;
  }
}
