/**
 * The pieces of the JavaScript string library that the attendance code uses:
 * String.prototype.trim, the decimal rendering of a number in a template
 * literal, and an order on names standing in for String.prototype.localeCompare.
 */
module JsText {

  /** The characters String.prototype.trim strips: ECMAScript WhiteSpace and LineTerminator. */
  predicate IsWhitespace(c: char) {
    || c == '\t' || c == '\n' || c == '\U{000B}' || c == '\U{000C}' || c == '\r'
    || c == ' ' || c == '\U{00A0}' || c == '\U{1680}'
    || ('\U{2000}' <= c <= '\U{200A}')
    || c == '\U{2028}' || c == '\U{2029}' || c == '\U{202F}' || c == '\U{205F}'
    || c == '\U{3000}' || c == '\U{FEFF}'
  }

  /** `s` without its leading whitespace. */
  function TrimStart(s: string): (r: string)
    ensures |r| <= |s| && r == s[|s| - |r|..]
    ensures forall i :: 0 <= i < |s| - |r| ==> IsWhitespace(s[i])
    ensures r == [] || !IsWhitespace(r[0])
  {
    if |s| > 0 && IsWhitespace(s[0]) then TrimStart(s[1..]) else s
  }

  /** `s` without its trailing whitespace. */
  function TrimEnd(s: string): (r: string)
    ensures |r| <= |s| && r == s[..|r|]
    ensures forall i :: |r| <= i < |s| ==> IsWhitespace(s[i])
    ensures r == [] || !IsWhitespace(r[|r| - 1])
  {
    if |s| > 0 && IsWhitespace(s[|s| - 1]) then TrimEnd(s[..|s| - 1]) else s
  }

  /** String.prototype.trim. */
  function Trim(s: string): (r: string)
    ensures |r| <= |s|
    ensures r == [] || (!IsWhitespace(r[0]) && !IsWhitespace(r[|r| - 1]))
    ensures r == [] <==> AllWhitespace(s)
  {
    var t := TrimStart(s);
    assert t == [] ==> AllWhitespace(s);
    assert t != [] ==> !IsWhitespace(s[|s| - |t|]) by {
      if t != [] { assert t[0] == s[|s| - |t|]; }
    }
    TrimEnd(t)
  }

  /** Every character of `s` is whitespace. */
  predicate AllWhitespace(s: string) {
    forall i :: 0 <= i < |s| ==> IsWhitespace(s[i])
  }

  /** The trimmed string is the middle of `s`: what lies before and after it is whitespace. */
  lemma TrimIsInfix(s: string)
    ensures var k := |s| - |TrimStart(s)|;
            && k + |Trim(s)| <= |s|
            && s == s[..k] + Trim(s) + s[k + |Trim(s)|..]
            && AllWhitespace(s[..k])
            && AllWhitespace(s[k + |Trim(s)|..])
  {
    var t := TrimStart(s);
    var r := TrimEnd(t);
    StrippedPieces(s);
    StrippedInfix(s, t, r);
  }

  /** What TrimStart and TrimEnd cut off, stated on the two steps of Trim. */
  lemma StrippedPieces(s: string)
    ensures var t := TrimStart(s);
            && |t| <= |s| && t == s[|s| - |t|..]
            && (forall i :: 0 <= i < |s| - |t| ==> IsWhitespace(s[i]))
            && Trim(s) == TrimEnd(t)
    ensures var t := TrimStart(s); var r := TrimEnd(t);
            && |r| <= |t| && r == t[..|r|]
            && (forall i :: |r| <= i < |t| ==> IsWhitespace(t[i]))
  {
  }

  /** A middle part `r` of `s` with only whitespace cut off on either side. */
  lemma StrippedInfix(s: string, t: string, r: string)
    requires |t| <= |s| && t == s[|s| - |t|..]
    requires forall i :: 0 <= i < |s| - |t| ==> IsWhitespace(s[i])
    requires |r| <= |t| && r == t[..|r|]
    requires forall i :: |r| <= i < |t| ==> IsWhitespace(t[i])
    ensures var k := |s| - |t|;
            && k + |r| <= |s|
            && s == s[..k] + r + s[k + |r|..]
            && AllWhitespace(s[..k])
            && AllWhitespace(s[k + |r|..])
  {
    TrimSplit(s, t, r);
    LeadingWhitespace(s, |s| - |t|);
    TrailingWhitespace(t, |r|);
    assert s[|s| - |t| + |r|..] == t[|r|..];
  }

  /** The concatenation behind TrimIsInfix. */
  lemma TrimSplit(s: string, t: string, r: string)
    requires |t| <= |s| && t == s[|s| - |t|..]
    requires |r| <= |t| && r == t[..|r|]
    ensures s == s[..|s| - |t|] + r + s[|s| - |t| + |r|..]
  {
    var k := |s| - |t|;
    assert s == s[..k] + t;
    assert t == r + t[|r|..];
    assert s[k + |r|..] == t[|r|..];
  }

  /** The whitespace TrimStart strips is a whitespace prefix. */
  lemma LeadingWhitespace(s: string, k: nat)
    requires k <= |s| && forall i :: 0 <= i < k ==> IsWhitespace(s[i])
    ensures AllWhitespace(s[..k])
  {
    forall i | 0 <= i < k ensures IsWhitespace(s[..k][i]) {
      assert s[..k][i] == s[i];
    }
  }

  /** The whitespace TrimEnd strips is a whitespace suffix. */
  lemma TrailingWhitespace(t: string, n: nat)
    requires n <= |t| && forall i :: n <= i < |t| ==> IsWhitespace(t[i])
    ensures AllWhitespace(t[n..])
  {
    forall i | 0 <= i < |t| - n ensures IsWhitespace(t[n..][i]) {
      assert t[n..][i] == t[n + i];
    }
  }

  /** A string with no whitespace at either end is its own trim; in particular trimming is idempotent. */
  lemma TrimFixesTrimmed(s: string)
    requires s == [] || (!IsWhitespace(s[0]) && !IsWhitespace(s[|s| - 1]))
    ensures Trim(s) == s
  {
  }

  /** Latin letters are not whitespace. */
  lemma LetterIsNotWhitespace(c: char)
    requires 'A' <= c <= 'Z' || 'a' <= c <= 'z'
    ensures !IsWhitespace(c)
  {
  }

  lemma TrimIdempotent(s: string)
    ensures Trim(Trim(s)) == Trim(s)
  {
    TrimFixesTrimmed(Trim(s));
  }

  // ---------------------------------------------------------------------
  // Decimal rendering of numbers, as a template literal `${n}` does it

  predicate IsDigit(c: char) {
    '0' <= c <= '9'
  }

  function DigitChar(d: nat): (c: char)
    requires d < 10
    ensures IsDigit(c)
  {
    ('0' as int + d) as char
  }

  function DigitValue(c: char): (d: nat)
    requires IsDigit(c)
    ensures d < 10
  {
    c as int - '0' as int
  }

  /** The shortest decimal rendering of `n`: digits only, no leading zero. */
  function NatToString(n: nat): (r: string)
    ensures |r| >= 1
    ensures forall i :: 0 <= i < |r| ==> IsDigit(r[i])
    ensures r[0] == '0' <==> n == 0
  {
    if n < 10 then [DigitChar(n)] else NatToString(n / 10) + [DigitChar(n % 10)]
  }

  /** The value of a string of decimal digits. */
  function ParseDigits(s: string): nat
    requires forall i :: 0 <= i < |s| ==> IsDigit(s[i])
  {
    if s == [] then 0 else ParseDigits(s[..|s| - 1]) * 10 + DigitValue(s[|s| - 1])
  }

  /** Reading back a rendered number gives the number. */
  lemma {:induction false} ParseNatToString(n: nat)
    ensures ParseDigits(NatToString(n)) == n
  {
    var r := NatToString(n);
    if n < 10 {
      assert r[..0] == [];
    } else {
      ParseNatToString(n / 10);
      assert r[..|r| - 1] == NatToString(n / 10);
    }
  }

  /** Different numbers render differently. */
  lemma NatToStringInjective(a: nat, b: nat)
    ensures NatToString(a) == NatToString(b) ==> a == b
  {
    ParseNatToString(a);
    ParseNatToString(b);
  }

  /** The decimal rendering of an integer, with a leading '-' when it is negative. */
  function IntToString(n: int): (r: string)
    ensures |r| >= 1
    ensures r[0] == '-' <==> n < 0
  {
    if n < 0 then "-" + NatToString(-n) else NatToString(n)
  }

  lemma IntToStringInjective(a: int, b: int)
    ensures IntToString(a) == IntToString(b) ==> a == b
  {
    if IntToString(a) == IntToString(b) {
      if a < 0 {
        assert IntToString(a)[1..] == NatToString(-a);
        assert IntToString(b)[1..] == NatToString(-b);
        NatToStringInjective(-a, -b);
      } else {
        NatToStringInjective(a, b);
      }
    }
  }

  // ---------------------------------------------------------------------
  // Ordering of names

  /**
   * Lexicographic order on code points, a locale-independent stand-in for
   * `a.localeCompare(b) <= 0`.
   */
  predicate LexLeq(a: string, b: string) {
    |a| == 0 || (|b| != 0 && (a[0] < b[0] || (a[0] == b[0] && LexLeq(a[1..], b[1..]))))
  }

  lemma {:induction false} LexReflexive(a: string)
    ensures LexLeq(a, a)
  {
    if |a| != 0 {
      LexReflexive(a[1..]);
    }
  }

  lemma {:induction false} LexTotal(a: string, b: string)
    ensures LexLeq(a, b) || LexLeq(b, a)
  {
    if |a| != 0 && |b| != 0 && a[0] == b[0] {
      LexTotal(a[1..], b[1..]);
    }
  }

  lemma {:induction false} LexTransitive(a: string, b: string, c: string)
    requires LexLeq(a, b) && LexLeq(b, c)
    ensures LexLeq(a, c)
  {
    if |a| != 0 && a[0] == b[0] && b[0] == c[0] {
      LexTransitive(a[1..], b[1..], c[1..]);
    }
  }

  lemma {:induction false} LexAntisymmetric(a: string, b: string)
    requires LexLeq(a, b) && LexLeq(b, a)
    ensures a == b
  {
    if |a| != 0 {
      LexAntisymmetric(a[1..], b[1..]);
      assert a == [a[0]] + a[1..] && b == [b[0]] + b[1..];
    }
  }
}
