/**
 * The PHP built-ins the plugin relies on, over strings of Unicode code points:
 * trim, empty(), case-insensitive search (stripos / mb_stripos), strpos, strip_tags,
 * explode, mb_substr, and the string-to-int conversions (int)$s / intval / is_numeric.
 */
module Php {
  import opened Wrappers

  // ---------------------------------------------------------------- empty()

  /** empty($s) for a string: true for "" and for "0". */
  predicate IsEmptyString(s: string) {
    s == "" || s == "0"
  }

  // ---------------------------------------------------------------- trim()

  /** The characters trim() strips by default: space, tab, LF, CR, NUL and vertical tab. */
  predicate IsTrimChar(c: char) {
    c == ' ' || c == '\t' || c == '\n' || c == '\r' || c == '\0' || c == '\U{B}'
  }

  /** A string that neither starts nor ends with a character trim() strips. */
  predicate IsTrimmed(s: string) {
    s == [] || (!IsTrimChar(s[0]) && !IsTrimChar(s[|s| - 1]))
  }

  /** trim($s): strippable characters are removed from both ends; the result carries none at
      either end, it is a slice of the input, and a string that already carries none is
      returned unchanged. */
  function Trim(s: string): (r: string)
    ensures IsTrimmed(r) && |r| <= |s|
    ensures IsTrimmed(s) ==> r == s
    decreases |s|
  {
    if |s| > 0 && IsTrimChar(s[0]) then Trim(s[1..])
    else if |s| > 0 && IsTrimChar(s[|s| - 1]) then Trim(s[..|s| - 1])
    else s
  }

  /** r is s[i..j], and everything cut off on either side is strippable. */
  predicate IsTrimSlice(s: string, r: string, i: int, j: int) {
    0 <= i <= j <= |s| && r == s[i..j]
    && (forall k :: 0 <= k < i ==> IsTrimChar(s[k]))
    && (forall k :: j <= k < |s| ==> IsTrimChar(s[k]))
  }

  lemma TrimSliceFront(s: string, r: string, i: int, j: int)
    requires |s| > 0 && IsTrimChar(s[0]) && IsTrimSlice(s[1..], r, i, j)
    ensures IsTrimSlice(s, r, i + 1, j + 1)
  {
    var t := s[1..];
    assert forall k :: 0 < k < |s| ==> s[k] == t[k - 1];
  }

  lemma TrimSliceBack(s: string, r: string, i: int, j: int)
    requires |s| > 0 && IsTrimChar(s[|s| - 1]) && IsTrimSlice(s[..|s| - 1], r, i, j)
    ensures IsTrimSlice(s, r, i, j)
  {
    var t := s[..|s| - 1];
    assert forall k :: 0 <= k < |t| ==> s[k] == t[k];
  }

  /** trim() only removes strippable characters, and only at the ends. */
  lemma {:induction false} TrimIsSlice(s: string)
    ensures exists i, j :: IsTrimSlice(s, Trim(s), i, j)
    decreases |s|
  {
    if |s| > 0 && IsTrimChar(s[0]) {
      TrimIsSlice(s[1..]);
      var i, j :| IsTrimSlice(s[1..], Trim(s[1..]), i, j);
      TrimSliceFront(s, Trim(s), i, j);
    } else if |s| > 0 && IsTrimChar(s[|s| - 1]) {
      TrimIsSlice(s[..|s| - 1]);
      var i, j :| IsTrimSlice(s[..|s| - 1], Trim(s[..|s| - 1]), i, j);
      TrimSliceBack(s, Trim(s), i, j);
    } else {
      assert IsTrimSlice(s, Trim(s), 0, |s|);
    }
  }

  lemma TrimIdempotent(s: string)
    ensures Trim(Trim(s)) == Trim(s)
  {
  }

  // ---------------------------------------------------------------- case folding and search

  /** Which lower-casing a search applies: stripos folds ASCII letters only, mb_stripos also
      folds the Latin-1 capitals (the other Unicode capitals are not part of this model). */
  datatype CaseFold = AsciiFold | Latin1Fold

  function LowerChar(c: char, f: CaseFold): char {
    if 'A' <= c <= 'Z' then (c as int + 32) as char
    else if f == Latin1Fold && '\U{C0}' <= c <= '\U{DE}' && c != '\U{D7}' then (c as int + 32) as char
    else c
  }

  function Lower(s: string, f: CaseFold): (r: string)
    ensures |r| == |s|
  {
    seq(|s|, i requires 0 <= i < |s| => LowerChar(s[i], f))
  }

  /** `n` occurs in `h` starting at position `k`. */
  predicate OccursAt(h: string, n: string, k: nat) {
    k + |n| <= |h| && h[k..k + |n|] == n
  }

  lemma OccursAtShift(h: string, n: string, k: nat)
    requires |h| > 0
    ensures OccursAt(h, n, k + 1) <==> OccursAt(h[1..], n, k)
  {
    if k + 1 + |n| <= |h| {
      assert h[1..][k..k + |n|] == h[k + 1..k + 1 + |n|];
    }
  }

  /** strpos($h, $n): the first position at which `n` occurs in `h`, or None for `false`. */
  function IndexOf(h: string, n: string): (r: Option<nat>)
    ensures r.Some? ==> OccursAt(h, n, r.value)
    ensures r.Some? ==> forall k: nat :: k < r.value ==> !OccursAt(h, n, k)
    ensures r.None? <==> forall k: nat :: !OccursAt(h, n, k)
    decreases |h|
  {
    if OccursAt(h, n, 0) then Some(0)
    else if |h| == 0 then None
    else
      var rest := IndexOf(h[1..], n);
      assert forall k: nat :: OccursAt(h, n, k + 1) <==> OccursAt(h[1..], n, k) by {
        forall k: nat ensures OccursAt(h, n, k + 1) <==> OccursAt(h[1..], n, k) {
          OccursAtShift(h, n, k);
        }
      }
      assert forall k: nat :: k > 0 ==> (OccursAt(h, n, k) <==> OccursAt(h[1..], n, k - 1));
      match rest
      case None => None
      case Some(k) => Some(k + 1)
  }

  /** stripos($h, $n) !== false (AsciiFold) or mb_stripos($h, $n) !== false (Latin1Fold). */
  predicate ContainsFolded(h: string, n: string, f: CaseFold) {
    IndexOf(Lower(h, f), Lower(n, f)).Some?
  }

  /** strpos($h, $p) === 0. */
  predicate StrposIsZero(h: string, p: string) {
    IndexOf(h, p) == Some(0)
  }

  lemma StrposIsZeroIsPrefix(h: string, p: string)
    ensures StrposIsZero(h, p) <==> (|p| <= |h| && h[..|p|] == p)
  {
    assert OccursAt(h, p, 0) <==> (|p| <= |h| && h[..|p|] == p);
  }

  // ---------------------------------------------------------------- strip_tags()

  /** The characters after which a '<' does not open a tag. */
  predicate IsSpace(c: char) {
    c == ' ' || c == '\t' || c == '\n' || c == '\r' || c == '\U{B}' || c == '\U{C}'
  }

  /** What remains after the '>' that ends the tag being skipped (nothing if it never ends). */
  function SkipTag(s: string): (r: string)
    ensures |r| <= |s|
  {
    if s == [] then []
    else if s[0] == '>' then s[1..]
    else SkipTag(s[1..])
  }

  /** strip_tags($s), reduced to its core: each '<' not followed by white space opens a tag that
      runs to the next '>', and every tag is removed. */
  function StripTags(s: string): (r: string)
    ensures |r| <= |s|
    decreases |s|
  {
    if s == [] then []
    else if s[0] == '<' && !(|s| > 1 && IsSpace(s[1])) then StripTags(SkipTag(s[1..]))
    else [s[0]] + StripTags(s[1..])
  }

  /** Text without markup passes through strip_tags unchanged. */
  lemma {:induction false} StripTagsPlainText(s: string)
    requires '<' !in s
    ensures StripTags(s) == s
  {
    if s != [] {
      assert '<' !in s[1..];
      StripTagsPlainText(s[1..]);
    }
  }

  lemma {:induction false} SkipTagPast(a: string, b: string)
    requires '>' !in a
    ensures SkipTag(a + ">" + b) == b
  {
    if a != [] {
      assert (a + ">" + b)[1..] == a[1..] + ">" + b;
      SkipTagPast(a[1..], b);
    }
  }

  /** A tag that opens the text is removed with everything up to its '>'. */
  lemma StripTagsOpeningTag(a: string, b: string)
    requires a != [] && !IsSpace(a[0]) && '>' !in a
    ensures StripTags("<" + a + ">" + b) == StripTags(b)
  {
    var s := "<" + a + ">" + b;
    assert s[1..] == a + ">" + b;
    SkipTagPast(a, b);
  }

  // ---------------------------------------------------------------- facts about searching

  /** A needle holding a character the haystack lacks is not found. */
  lemma AbsentCharNotFound(h: string, n: string, i: nat)
    requires i < |n| && n[i] !in h
    ensures IndexOf(h, n).None?
  {
    forall k: nat ensures !OccursAt(h, n, k) {
      if k + |n| <= |h| {
        assert h[k..k + |n|][i] == h[k + i];
        assert h[k + i] in h;
      }
    }
  }

  /** A needle as long as the haystack is found only when the two are equal. */
  lemma SameLengthFound(h: string, n: string)
    requires |h| == |n|
    ensures IndexOf(h, n).Some? <==> h == n
  {
    assert OccursAt(h, n, 0) <==> h == n by { assert h[0..|n|] == h; }
    if h != n {
      assert forall k: nat :: !OccursAt(h, n, k);
    }
  }

  /** A string begins with itself, whatever follows and whatever the folding. */
  lemma ContainsFoldedPrefix(n: string, b: string, f: CaseFold)
    ensures ContainsFolded(n + b, n, f)
  {
    var h, m := Lower(n + b, f), Lower(n, f);
    assert h[0..|m|] == m;
    assert OccursAt(h, m, 0);
  }

  /** Folding with Latin1Fold after AsciiFold is folding with Latin1Fold alone. */
  lemma LowerLatin1AfterAscii(s: string)
    ensures Lower(Lower(s, AsciiFold), Latin1Fold) == Lower(s, Latin1Fold)
  {
  }

  /** Whatever stripos finds, mb_stripos finds too: the Latin-1 folding only identifies more. */
  lemma AsciiFoundLatin1Found(h: string, n: string)
    requires ContainsFolded(h, n, AsciiFold)
    ensures ContainsFolded(h, n, Latin1Fold)
  {
    var ha, na := Lower(h, AsciiFold), Lower(n, AsciiFold);
    var hu, nu := Lower(h, Latin1Fold), Lower(n, Latin1Fold);
    var k := IndexOf(ha, na).value;
    assert OccursAt(ha, na, k);
    forall j | 0 <= j < |nu| ensures hu[k + j] == nu[j] {
      assert ha[k..k + |na|][j] == na[j];
    }
    assert hu[k..k + |nu|] == nu;
    assert OccursAt(hu, nu, k);
  }

  // ---------------------------------------------------------------- explode()

  /** explode($sep, $s) for a one-character separator. */
  function Explode(s: string, sep: char): (r: seq<string>)
    ensures |r| >= 1
    ensures forall i :: 0 <= i < |r| ==> sep !in r[i]
    decreases |s|
  {
    if s == [] then [[]]
    else
      var rest := Explode(s[1..], sep);
      if s[0] == sep then [[]] + rest else [[s[0]] + rest[0]] + rest[1..]
  }

  /** implode($glue, $parts). */
  function Implode(parts: seq<string>, glue: string): string {
    if parts == [] then ""
    else if |parts| == 1 then parts[0]
    else parts[0] + glue + Implode(parts[1..], glue)
  }

  /** Exploding loses nothing: the pieces glued back with the separator give the original string. */
  lemma {:induction false} ImplodeExplode(s: string, sep: char)
    ensures Implode(Explode(s, sep), [sep]) == s
  {
    if s != [] {
      var rest := Explode(s[1..], sep);
      ImplodeExplode(s[1..], sep);
      if s[0] == sep {
        assert ([[]] + rest)[1..] == rest;
      } else if |rest| > 1 {
        var parts := [[s[0]] + rest[0]] + rest[1..];
        assert parts[1..] == rest[1..];
        assert Implode(rest, [sep]) == rest[0] + [sep] + Implode(rest[1..], [sep]);
        assert s == [s[0]] + s[1..];
      } else {
        assert s == [s[0]] + s[1..];
      }
    }
  }

  // ---------------------------------------------------------------- mb_substr()

  /** mb_substr($s, 0, $n). */
  function Prefix(s: string, n: nat): (r: string)
    ensures |r| <= n && |r| <= |s| && r == s[..|r|]
    ensures |s| <= n <==> r == s
  {
    if |s| <= n then s else s[..n]
  }

  // ---------------------------------------------------------------- numbers in strings

  predicate IsDigit(c: char) {
    '0' <= c <= '9'
  }

  predicate AllDigits(d: string) {
    forall i :: 0 <= i < |d| ==> IsDigit(d[i])
  }

  /** The value of a string of decimal digits. */
  function DigitsValue(d: string): nat
    requires AllDigits(d)
  {
    if d == [] then 0 else DigitsValue(d[..|d| - 1]) * 10 + (d[|d| - 1] as int - '0' as int)
  }

  /** The length of the run of digits `s` starts with. */
  function SpanDigits(s: string): (n: nat)
    ensures n <= |s| && AllDigits(s[..n])
    ensures n < |s| ==> !IsDigit(s[n])
  {
    if s != [] && IsDigit(s[0]) then
      var n := 1 + SpanDigits(s[1..]);
      assert forall i :: 1 <= i < n ==> s[..n][i] == s[1..][..n - 1][i - 1];
      n
    else 0
  }

  /** The length of the run of white space `s` starts with. */
  function SpanSpace(s: string): (n: nat)
    ensures n <= |s| && forall i :: 0 <= i < n ==> IsSpace(s[i])
    ensures n < |s| ==> !IsSpace(s[n])
  {
    if s != [] && IsSpace(s[0]) then 1 + SpanSpace(s[1..]) else 0
  }

  function Pow10(e: nat): (r: nat)
    ensures r >= 1
  {
    if e == 0 then 1 else 10 * Pow10(e - 1)
  }

  /** A decimal number as PHP reads it from a string: sign, digits before and after the point,
      and the value of the exponent. */
  datatype Numeral = Numeral(negative: bool, whole: string, fraction: string, exponent: int)

  /** The exponent part "e[+-]digits" at the start of `x`, if complete, and what follows it. */
  function ParseExponent(x: string): (int, string) {
    if |x| > 0 && (x[0] == 'e' || x[0] == 'E') then
      var y := x[1..];
      var z := if |y| > 0 && (y[0] == '-' || y[0] == '+') then y[1..] else y;
      var d := SpanDigits(z);
      if d == 0 then (0, x)
      else ((if |y| > 0 && y[0] == '-' then -1 else 1) * DigitsValue(z[..d]), z[d..])
    else (0, x)
  }

  /** The longest prefix of `s` (after leading white space) that PHP reads as a number, and
      the rest of the string; None when `s` does not start with a number at all. */
  function ParseNumberPrefix(s: string): Option<(Numeral, string)> {
    var t := s[SpanSpace(s)..];
    var u := if |t| > 0 && (t[0] == '-' || t[0] == '+') then t[1..] else t;
    var w := SpanDigits(u);
    var v := u[w..];
    var afterPoint := if |v| > 0 && v[0] == '.' then v[1..] else v;
    var f := if |v| > 0 && v[0] == '.' then SpanDigits(afterPoint) else 0;
    if w + f == 0 then None
    else
      var (e, rest) := ParseExponent(afterPoint[f..]);
      Some((Numeral(|t| > 0 && t[0] == '-', u[..w], afterPoint[..f], e), rest))
  }

  /** The integer a number converts to: its value truncated toward zero. */
  function NumeralToInt(n: Numeral): int
    requires AllDigits(n.whole) && AllDigits(n.fraction)
  {
    var mantissa := DigitsValue(n.whole + n.fraction);
    var e := n.exponent - |n.fraction|;
    var magnitude := if e >= 0 then mantissa * Pow10(e) else mantissa / Pow10(-e);
    if n.negative then -magnitude else magnitude
  }

  lemma ParseNumberPrefixDigits(s: string)
    requires ParseNumberPrefix(s).Some?
    ensures AllDigits(ParseNumberPrefix(s).value.0.whole) && AllDigits(ParseNumberPrefix(s).value.0.fraction)
  {
  }

  /** is_numeric($s) for a string: a number, with white space allowed before and after it. */
  predicate IsNumeric(s: string) {
    match ParseNumberPrefix(s)
    case None => false
    case Some((_, rest)) => SpanSpace(rest) == |rest|
  }

  /** (int)$s, which is also intval($s): the number the string starts with, or 0. */
  function IntCast(s: string): int {
    match ParseNumberPrefix(s)
    case None => 0
    case Some((n, _)) => ParseNumberPrefixDigits(s); NumeralToInt(n)
  }

  /** The decimal digits of a natural number. */
  function NatToString(n: nat): (r: string)
    ensures |r| >= 1 && AllDigits(r)
    ensures DigitsValue(r) == n
  {
    var last := ('0' as int + n % 10) as char;
    if n < 10 then [last]
    else
      var r := NatToString(n / 10) + [last];
      assert r[..|r| - 1] == NatToString(n / 10);
      r
  }

  /** (string)$n for an integer. */
  function IntToString(n: int): string {
    if n < 0 then "-" + NatToString(-n) else NatToString(n)
  }

  /** Storing an integer as a string and reading it back gives the same integer, and the
      stored string is numeric. */
  lemma {:induction false} IntToStringRoundTrip(n: int)
    ensures IsNumeric(IntToString(n)) && IntCast(IntToString(n)) == n
  {
    DigitsCast(NatToString(if n < 0 then -n else n), n < 0);
  }

  /** A run of digits, with or without a minus sign, is numeric and casts to its value. */
  lemma DigitsCast(d: string, negative: bool)
    requires d != [] && AllDigits(d)
    ensures var s := if negative then "-" + d else d;
      IsNumeric(s) && IntCast(s) == if negative then -(DigitsValue(d) as int) else DigitsValue(d)
  {
    var s := if negative then "-" + d else d;
    assert SpanSpace(s) == 0;
    assert s[0..] == s;
    var u := if negative then s[1..] else s;
    assert u == d;
    assert SpanDigits(d) == |d|;
    assert d[..|d|] == d && d[|d|..] == [];
    assert d + [] == d;
  }

  /** A run of `n` digits followed by a non-digit, or by the end, is the run SpanDigits measures. */
  lemma {:induction false} SpanDigitsIs(s: string, n: nat)
    requires n <= |s| && AllDigits(s[..n]) && (n < |s| ==> !IsDigit(s[n]))
    ensures SpanDigits(s) == n
    decreases n
  {
    if n > 0 {
      assert IsDigit(s[..n][0]);
      assert s[1..][..n - 1] == s[..n][1..];
      SpanDigitsIs(s[1..], n - 1);
    }
  }

  /** (int) reads the number a string starts with and ignores the text after it, which makes
      the string not numeric: (int)"12abc" is 12. */
  lemma DigitsThenText(d: string, rest: string)
    requires d != [] && AllDigits(d) && rest != []
    requires !IsDigit(rest[0]) && !IsSpace(rest[0]) && rest[0] !in ".eE"
    ensures IntCast(d + rest) == DigitsValue(d) && !IsNumeric(d + rest)
  {
    var s := d + rest;
    assert s[..|d|] == d && s[|d|..] == rest;
    assert SpanSpace(s) == 0 && s[0..] == s;
    SpanDigitsIs(s, |d|);
    assert ParseExponent(rest) == (0, rest);
    assert ParseNumberPrefix(s) == Some((Numeral(false, d, "", 0), rest));
    assert d + "" == d;
    assert SpanSpace(rest) == 0;
  }
}
