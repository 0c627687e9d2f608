/** The handful of java.lang.String operations the core relies on, over `seq<char>`:
    strip() and trim(), startsWith/endsWith, Collectors.joining, decimal rendering of an
    int as String.format("%d") does, and the text StringBuilder.append writes for a
    possibly-null String. */
module JavaString {
  import opened Wrappers

  /** Character.isWhitespace: the Unicode space, line and paragraph separators other than
      the three no-break spaces (U+00A0, U+2007, U+202F), plus U+0009..U+000D and
      U+001C..U+001F. This is the set String.strip() removes. */
  predicate IsJavaWhitespace(c: char) {
    var n := c as int;
    (0x09 <= n <= 0x0D) || (0x1C <= n <= 0x20) || n == 0x1680 ||
    (0x2000 <= n <= 0x2006) || (0x2008 <= n <= 0x200A) ||
    n == 0x2028 || n == 0x2029 || n == 0x205F || n == 0x3000
  }

  /** The characters String.trim() removes: every code unit up to and including U+0020. */
  predicate IsTrimSpace(c: char) {
    c as int <= 0x20
  }

  /** Removes the longest prefix whose characters all satisfy `space`. */
  function StripLeadingBy(s: string, space: char -> bool): (r: string)
    ensures |r| <= |s| && r == s[|s| - |r|..]
    ensures forall i :: 0 <= i < |s| - |r| ==> space(s[i])
    ensures r == [] || !space(r[0])
  {
    if |s| > 0 && space(s[0]) then StripLeadingBy(s[1..], space) else s
  }

  /** Removes the longest suffix whose characters all satisfy `space`. */
  function StripTrailingBy(s: string, space: char -> bool): (r: string)
    ensures |r| <= |s| && r == s[..|r|]
    ensures forall i :: |r| <= i < |s| ==> space(s[i])
    ensures r == [] || !space(r[|r| - 1])
  {
    if |s| > 0 && space(s[|s| - 1]) then StripTrailingBy(s[..|s| - 1], space) else s
  }

  /** String.strip(). */
  function Strip(s: string): string {
    StripTrailingBy(StripLeadingBy(s, IsJavaWhitespace), IsJavaWhitespace)
  }

  /** String.trim(). */
  function Trim(s: string): string {
    StripTrailingBy(StripLeadingBy(s, IsTrimSpace), IsTrimSpace)
  }

  /** `s.trim().isEmpty()`. */
  predicate IsBlank(s: string) {
    Trim(s) == []
  }

  /** A string that is already stripped has neither a leading nor a trailing space. */
  predicate NoOuterSpace(s: string, space: char -> bool) {
    s == [] || (!space(s[0]) && !space(s[|s| - 1]))
  }

  predicate StartsWith(s: string, prefix: string) {
    |prefix| <= |s| && s[..|prefix|] == prefix
  }

  predicate EndsWith(s: string, suffix: string) {
    |suffix| <= |s| && s[|s| - |suffix|..] == suffix
  }

  /** Collectors.joining(sep) over a stream of strings. */
  function Join(sep: string, xs: seq<string>): string {
    if |xs| == 0 then ""
    else if |xs| == 1 then xs[0]
    else xs[0] + sep + Join(sep, xs[1..])
  }

  /** What StringBuilder.append(String) and `+` write for a possibly-null String. */
  function NullableText(s: Option<string>): string {
    match s
    case None => "null"
    case Some(t) => t
  }

  function DigitChar(d: nat): char
    requires d < 10
  {
    ('0' as int + d) as char
  }

  /** Decimal digits of a natural number, most significant first, no leading zeros. */
  function NatToString(n: nat): (r: string)
    ensures |r| >= 1
    ensures forall i :: 0 <= i < |r| ==> '0' <= r[i] <= '9'
    ensures n >= 10 ==> r[0] != '0'
  {
    if n < 10 then [DigitChar(n)] else NatToString(n / 10) + [DigitChar(n % 10)]
  }

  /** String.format("%d", n). */
  function IntToString(n: int): string {
    if n < 0 then "-" + NatToString(-n) else NatToString(n)
  }

  /** Reads back a string of decimal digits; the inverse partner of NatToString. */
  function DigitsValue(s: string): int
    requires forall i :: 0 <= i < |s| ==> '0' <= s[i] <= '9'
  {
    if |s| == 0 then 0 else DigitsValue(s[..|s| - 1]) * 10 + (s[|s| - 1] as int - '0' as int)
  }

  // ---------------------------------------------------------------------------
  // Properties

  /** Stripping removes only whitespace and leaves nothing to strip. */
  lemma StripShape(s: string)
    ensures NoOuterSpace(Strip(s), IsJavaWhitespace)
    ensures exists i, j :: 0 <= i <= j <= |s| && Strip(s) == s[i..j] &&
              (forall k :: 0 <= k < i ==> IsJavaWhitespace(s[k])) &&
              (forall k :: j <= k < |s| ==> IsJavaWhitespace(s[k]))
  {
    var l := StripLeadingBy(s, IsJavaWhitespace);
    var r := StripTrailingBy(l, IsJavaWhitespace);
    var i := |s| - |l|;
    assert r == s[i..i + |r|];
    assert forall k :: i + |r| <= k < |s| ==> IsJavaWhitespace(s[k]) by {
      forall k | i + |r| <= k < |s| ensures IsJavaWhitespace(s[k]) {
        assert s[k] == l[k - i];
      }
    }
    if r != [] {
      if |r| == |l| {
        assert r[0] == l[0];
      } else {
        assert !IsJavaWhitespace(r[0]) by {
          assert r[0] == l[0];
        }
      }
    }
  }

  /** Stripping a stripped string changes nothing. */
  lemma StripIdempotent(s: string)
    ensures Strip(Strip(s)) == Strip(s)
  {
    var t := Strip(s);
    StripShape(s);
    StripOfUnspaced(t);
  }

  /** A string without outer whitespace is its own strip. */
  lemma StripOfUnspaced(s: string)
    requires NoOuterSpace(s, IsJavaWhitespace)
    ensures Strip(s) == s
  {
    assert StripLeadingBy(s, IsJavaWhitespace) == s;
  }

  /** `s.trim().isEmpty()` holds exactly when every character is at most U+0020. */
  lemma {:induction false} BlankIffAllTrimSpace(s: string)
    ensures IsBlank(s) <==> forall i :: 0 <= i < |s| ==> IsTrimSpace(s[i])
  {
    var l := StripLeadingBy(s, IsTrimSpace);
    if forall i :: 0 <= i < |s| ==> IsTrimSpace(s[i]) {
      assert l == [];
    } else {
      var i :| 0 <= i < |s| && !IsTrimSpace(s[i]);
      assert i >= |s| - |l|;
      assert l != [] && !IsTrimSpace(l[0]);
      assert StripTrailingBy(l, IsTrimSpace) != [];
    }
  }

  /** Reading the digits of n back gives n. */
  lemma {:induction false} NatToStringRoundTrip(n: nat)
    ensures DigitsValue(NatToString(n)) == n
  {
    if n >= 10 {
      NatToStringRoundTrip(n / 10);
      var s := NatToString(n);
      assert s[..|s| - 1] == NatToString(n / 10);
    }
  }

  /** Joining puts the separator between consecutive elements and nowhere else. */
  lemma {:induction false} JoinSnoc(sep: string, xs: seq<string>, x: string)
    requires |xs| >= 1
    ensures Join(sep, xs + [x]) == Join(sep, xs) + sep + x
  {
    if |xs| == 1 {
      assert (xs + [x])[1..] == [x];
    } else {
      assert (xs + [x])[1..] == xs[1..] + [x];
      JoinSnoc(sep, xs[1..], x);
    }
  }

  /** Joining keeps the elements in order: cutting the sequence anywhere cuts the joined
      text at a separator. */
  lemma {:induction false} JoinSplit(sep: string, xs: seq<string>, k: nat)
    requires 0 < k < |xs|
    ensures Join(sep, xs) == Join(sep, xs[..k]) + sep + Join(sep, xs[k..])
  {
    if k == 1 {
      assert xs[..1] == [xs[0]];
      assert xs[1..] == xs[k..];
    } else {
      var tail := xs[1..];
      JoinSplit(sep, tail, k - 1);
      assert xs[..k][1..] == tail[..k - 1];
      assert tail[k - 1..] == xs[k..];
      var a, b, c := Join(sep, tail[..k - 1]), Join(sep, xs[k..]), xs[0] + sep;
      assert Join(sep, xs[..k]) == c + a;
      assert Join(sep, xs) == c + (a + sep + b);
      assert c + (a + sep + b) == (c + a) + sep + b;
    }
  }
}
