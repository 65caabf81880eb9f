/** String primitives the booking controller relies on from JavaScript:
    the whitespace class shared by the regular-expression escape `\s` and by
    `String.prototype.trim`, `trim` itself, character counting and search,
    and the decimal rendering and `parseInt` reading of natural numbers. */
module Text {
  import opened Wrappers

  /** ECMAScript WhiteSpace and LineTerminator code points: TAB, LF, VT, FF,
      CR, SPACE, NO-BREAK SPACE, the space separators of category Zs, LINE
      SEPARATOR, PARAGRAPH SEPARATOR and the byte-order mark. Both `\s` and
      `trim` use exactly this set. */
  const SpaceChars: set<char> := {
      '\U{0009}', '\U{000A}', '\U{000B}', '\U{000C}', '\U{000D}', '\U{0020}',
      '\U{00A0}', '\U{1680}', '\U{2000}', '\U{2001}', '\U{2002}', '\U{2003}',
      '\U{2004}', '\U{2005}', '\U{2006}', '\U{2007}', '\U{2008}', '\U{2009}',
      '\U{200A}', '\U{2028}', '\U{2029}', '\U{202F}', '\U{205F}', '\U{3000}',
      '\U{FEFF}'
    }

  predicate IsSpace(c: char) {
    c in SpaceChars
  }

  /** The regular-expression escape `\d`: ASCII decimal digits only. */
  predicate IsDigit(c: char) {
    '0' <= c <= '9'
  }

  predicate AllSpace(s: string) {
    forall i :: 0 <= i < |s| ==> IsSpace(s[i])
  }

  predicate AllDigits(s: string) {
    forall i :: 0 <= i < |s| ==> IsDigit(s[i])
  }

  // ---------------------------------------------------------------------------
  // trim
  // ---------------------------------------------------------------------------

  /** Number of whitespace characters at the start of `s`. */
  function LeadingSpace(s: string): (n: nat)
    ensures n <= |s|
    ensures forall i :: 0 <= i < n ==> IsSpace(s[i])
    ensures n < |s| ==> !IsSpace(s[n])
  {
    if |s| > 0 && IsSpace(s[0]) then 1 + LeadingSpace(s[1..]) else 0
  }

  /** Number of whitespace characters at the end of `s`. */
  function TrailingSpace(s: string): (n: nat)
    ensures n <= |s|
    ensures forall i :: |s| - n <= i < |s| ==> IsSpace(s[i])
    ensures n < |s| ==> !IsSpace(s[|s| - 1 - n])
  {
    if |s| > 0 && IsSpace(s[|s| - 1]) then 1 + TrailingSpace(s[..|s| - 1]) else 0
  }

  /** `String.prototype.trim`: `s` without its leading and trailing whitespace. */
  function Trim(s: string): string {
    var a := LeadingSpace(s);
    if a == |s| then [] else s[a..|s| - TrailingSpace(s)]
  }

  /** In a string that is not all whitespace, the leading and trailing
      whitespace runs do not meet. */
  lemma SpaceRunsApart(s: string)
    requires !AllSpace(s)
    ensures LeadingSpace(s) < |s| - TrailingSpace(s)
  {
    var i :| 0 <= i < |s| && !IsSpace(s[i]);
    assert LeadingSpace(s) <= i < |s| - TrailingSpace(s);
  }

  /** When anything survives trimming, it is the stretch of `s` from its first
      to its last non-whitespace character. */
  lemma TrimBounds(s: string)
    requires !AllSpace(s)
    ensures LeadingSpace(s) < |s| - TrailingSpace(s)
    ensures Trim(s) == s[LeadingSpace(s)..|s| - TrailingSpace(s)]
  {
    SpaceRunsApart(s);
    TrimIsSlice(s);
  }

  lemma TrimIsSlice(s: string)
    requires LeadingSpace(s) < |s| - TrailingSpace(s)
    ensures Trim(s) == s[LeadingSpace(s)..|s| - TrailingSpace(s)]
  {
    assert LeadingSpace(s) != |s|;
  }

  /** Trimming never lengthens a string; it empties exactly the all-whitespace
      strings; and what remains starts and ends with a non-whitespace
      character. */
  lemma TrimEnds(s: string)
    ensures |Trim(s)| <= |s|
    ensures |Trim(s)| == 0 <==> AllSpace(s)
    ensures |Trim(s)| > 0 ==> !IsSpace(Trim(s)[0]) && !IsSpace(Trim(s)[|Trim(s)| - 1])
  {
    if AllSpace(s) {
      assert LeadingSpace(s) == |s|;
    } else {
      TrimBounds(s);
      var a, t := LeadingSpace(s), TrailingSpace(s);
      assert Trim(s)[0] == s[a];
      assert Trim(s)[|Trim(s)| - 1] == s[|s| - t - 1];
    }
  }

  /** Trimming twice is trimming once. */
  lemma TrimIdempotent(s: string)
    ensures Trim(Trim(s)) == Trim(s)
  {
    var r := Trim(s);
    TrimEnds(s);
    if |r| > 0 {
      assert !IsSpace(r[0]) && !IsSpace(r[|r| - 1]);
      assert LeadingSpace(r) == 0;
      assert TrailingSpace(r) == 0;
      assert r[0..|r|] == r;
    }
  }

  // ---------------------------------------------------------------------------
  // counting and searching characters
  // ---------------------------------------------------------------------------

  /** Number of occurrences of `c` in `s`. */
  function Count(s: string, c: char): nat
  {
    if |s| == 0 then 0 else (if s[0] == c then 1 else 0) + Count(s[1..], c)
  }

  lemma {:induction false} CountAppend(a: string, b: string, c: char)
    ensures Count(a + b, c) == Count(a, c) + Count(b, c)
  {
    if |a| == 0 {
      assert a + b == b;
    } else {
      assert (a + b)[1..] == a[1..] + b;
      CountAppend(a[1..], b, c);
    }
  }

  lemma {:induction false} CountZero(s: string, c: char)
    ensures Count(s, c) == 0 <==> forall i :: 0 <= i < |s| ==> s[i] != c
  {
    if |s| > 0 {
      CountZero(s[1..], c);
      if Count(s, c) == 0 {
        forall i | 0 <= i < |s| ensures s[i] != c {
          if i > 0 { assert s[i] == s[1..][i - 1]; }
        }
      }
    }
  }

  /** The first position of `c` in `s`, if any. A helper for reading the
      email rule and the summary text. */
  function IndexOf(s: string, c: char): (r: Option<nat>)
    ensures r.Some? ==> r.value < |s| && s[r.value] == c
    ensures r.Some? ==> forall j :: 0 <= j < r.value ==> s[j] != c
    ensures r.None? ==> forall j :: 0 <= j < |s| ==> s[j] != c
  {
    if |s| == 0 then None
    else if s[0] == c then Some(0)
    else match IndexOf(s[1..], c)
      case None => None
      case Some(i) => Some(i + 1)
  }

  /** The first occurrence is the only one that has no earlier occurrence. */
  lemma IndexOfUnique(s: string, c: char, k: nat)
    requires k < |s| && s[k] == c
    requires forall j :: 0 <= j < k ==> s[j] != c
    ensures IndexOf(s, c) == Some(k)
  {
  }

  // ---------------------------------------------------------------------------
  // decimal numbers
  // ---------------------------------------------------------------------------

  function DigitChar(d: nat): (c: char)
    requires d < 10
    ensures IsDigit(c)
  {
    ('0' as int + d) as char
  }

  function DigitValue(c: char): (d: nat)
    requires IsDigit(c)
    ensures d < 10
  {
    c as int - '0' as int
  }

  /** The template-literal rendering `${n}` of a natural number: its shortest
      decimal numeral. */
  function NatToDecimal(n: nat): (r: string)
    ensures |r| >= 1 && AllDigits(r)
    ensures r[0] == '0' ==> n == 0 && r == "0"
    decreases n
  {
    if n < 10 then [DigitChar(n)]
    else NatToDecimal(n / 10) + [DigitChar(n % 10)]
  }

  /** `parseInt` of a string made of decimal digits only. */
  function DigitsValue(s: string): nat
    requires AllDigits(s)
  {
    if |s| == 0 then 0
    else DigitsValue(s[..|s| - 1]) * 10 + DigitValue(s[|s| - 1])
  }

  /** Reading back a rendered number gives the number. */
  lemma {:induction false} DecimalRoundTrip(n: nat)
    ensures DigitsValue(NatToDecimal(n)) == n
    decreases n
  {
    var r := NatToDecimal(n);
    if n >= 10 {
      DecimalRoundTrip(n / 10);
      assert r[..|r| - 1] == NatToDecimal(n / 10);
    }
  }

  /** Distinct numbers render as distinct numerals. */
  lemma DecimalInjective(m: nat, n: nat)
    requires NatToDecimal(m) == NatToDecimal(n)
    ensures m == n
  {
    DecimalRoundTrip(m);
    DecimalRoundTrip(n);
  }
}
