/**
 * The small part of JavaScript's text handling the dashboard relies on:
 * decimal rendering of integers (template literals `${n}`), the white-space
 * set used by `String.prototype.trim` and `parseInt`, and `parseInt(s, 10)`.
 */
module JsText {
  import opened Wrappers

  predicate IsDigit(c: char) {
    '0' <= c <= '9'
  }

  predicate AllDigits(s: string) {
    forall i :: 0 <= i < |s| ==> IsDigit(s[i])
  }

  function DigitChar(d: nat): (c: char)
    requires d < 10
    ensures IsDigit(c)
  {
    (('0' as int) + d) as char
  }

  function DigitValue(c: char): (d: nat)
    requires IsDigit(c)
    ensures d < 10
  {
    (c as int) - ('0' as int)
  }

  /** Decimal rendering of a natural number, most significant digit first, no leading zeros. */
  function ShowNat(n: nat): (s: string)
    ensures 1 <= |s|
    ensures AllDigits(s)
    ensures |s| > 1 ==> s[0] != '0'
    decreases n
  {
    if n < 10 then [DigitChar(n)] else ShowNat(n / 10) + [DigitChar(n % 10)]
  }

  /**
   * `Number.MAX_SAFE_INTEGER`, 2^53 - 1: up to here every integer is a
   * JavaScript number and prints in full. Beyond it numbers round, and from
   * 10^21 on they print in exponent form.
   */
  const MAX_SAFE_INTEGER: int := 9007199254740991

  /** `${i}` for an integer value, as JavaScript prints it for |i| <= MAX_SAFE_INTEGER. */
  function ShowInt(i: int): (s: string)
    ensures 1 <= |s|
    ensures i >= 0 ==> s == ShowNat(i)
    ensures i < 0 ==> s[0] == '-' && AllDigits(s[1..])
  {
    if i < 0 then "-" + ShowNat(-i) else ShowNat(i)
  }

  /** The value of a string of decimal digits (leading zeros allowed, empty reads as 0). */
  function DigitsValue(s: string): nat
    requires AllDigits(s)
    decreases |s|
  {
    if |s| == 0 then 0 else DigitsValue(s[..|s| - 1]) * 10 + DigitValue(s[|s| - 1])
  }

  lemma {:induction false} DigitsValueOfShowNat(n: nat)
    ensures DigitsValue(ShowNat(n)) == n
    decreases n
  {
    if n >= 10 {
      var s := ShowNat(n);
      assert s[..|s| - 1] == ShowNat(n / 10);
      DigitsValueOfShowNat(n / 10);
    }
  }

  /** Length of the longest all-digit prefix of `s`. */
  function DigitRun(s: string): (k: nat)
    ensures k <= |s|
    ensures AllDigits(s[..k])
    ensures k < |s| ==> !IsDigit(s[k])
    decreases |s|
  {
    if |s| == 0 || !IsDigit(s[0]) then 0
    else
      var k := 1 + DigitRun(s[1..]);
      assert s[..k] == [s[0]] + s[1..][..k - 1];
      k
  }

  lemma {:induction false} DigitRunStopsAtNonDigit(d: string, rest: string)
    requires AllDigits(d)
    requires |rest| == 0 || !IsDigit(rest[0])
    ensures DigitRun(d + rest) == |d|
    decreases |d|
  {
    if |d| > 0 {
      assert (d + rest)[1..] == d[1..] + rest;
      DigitRunStopsAtNonDigit(d[1..], rest);
    }
  }

  /**
   * The characters ECMAScript counts as WhiteSpace or LineTerminator: the set
   * both `trim` and `parseInt` skip.
   */
  predicate IsWhitespace(c: char) {
    || c == '\t' || c == '\n' || c == '\U{000B}' || c == '\U{000C}' || c == '\r' || c == ' '
    || c == '\U{00A0}' || c == '\U{1680}' || ('\U{2000}' <= c <= '\U{200A}')
    || c == '\U{2028}' || c == '\U{2029}' || c == '\U{202F}' || c == '\U{205F}'
    || c == '\U{3000}' || c == '\U{FEFF}'
  }

  predicate AllWhitespace(s: string) {
    forall i :: 0 <= i < |s| ==> IsWhitespace(s[i])
  }

  function TrimStart(s: string): (r: string)
    ensures |r| <= |s| && r == s[|s| - |r|..]
    ensures AllWhitespace(s[..|s| - |r|])
    ensures |r| > 0 ==> !IsWhitespace(r[0])
    decreases |s|
  {
    if |s| > 0 && IsWhitespace(s[0]) then TrimStart(s[1..]) else s
  }

  function TrimEnd(s: string): (r: string)
    ensures |r| <= |s| && r == s[..|r|]
    ensures AllWhitespace(s[|r|..])
    ensures |r| > 0 ==> !IsWhitespace(r[|r| - 1])
    decreases |s|
  {
    if |s| > 0 && IsWhitespace(s[|s| - 1]) then TrimEnd(s[..|s| - 1]) else s
  }

  /** `s.trim()`. */
  function Trim(s: string): (r: string)
    ensures |r| > 0 ==> !IsWhitespace(r[0]) && !IsWhitespace(r[|r| - 1])
    ensures |r| == 0 <==> AllWhitespace(s)
  {
    var t := TrimStart(s);
    var r := TrimEnd(t);
    assert |r| == 0 ==> AllWhitespace(s) by {
      if |r| == 0 {
        assert s == s[..|s| - |t|] + t;
        assert t == t[|r|..];
      }
    }
    assert |r| > 0 ==> !AllWhitespace(s) by {
      if |r| > 0 {
        assert t[0] == r[0];
        assert s[|s| - |t|] == t[0];
      }
    }
    r
  }

  /**
   * `parseInt(s, 10)`: skip leading white space, read an optional sign, then
   * the longest run of decimal digits; `None` is NaN (no digit at all).
   * Results too large for a double are not modelled (see README).
   */
  function ParseInt(s: string): Option<int> {
    ParseSignedDigits(TrimStart(s))
  }

  /** The part of `parseInt` after white space: optional sign, then the longest digit run. */
  function ParseSignedDigits(t: string): Option<int> {
    var negative := |t| > 0 && t[0] == '-';
    var u := if |t| > 0 && (t[0] == '-' || t[0] == '+') then t[1..] else t;
    var k := DigitRun(u);
    if k == 0 then None
    else
      var magnitude: int := DigitsValue(u[..k]);
      Some(if negative then -magnitude else magnitude)
  }

  /** `parseInt` reads back what a template literal printed for a safe integer, whatever follows a non-digit. */
  lemma ParseIntOfShowInt(i: int, rest: string)
    requires -MAX_SAFE_INTEGER <= i <= MAX_SAFE_INTEGER
    requires |rest| == 0 || !IsDigit(rest[0])
    ensures ParseInt(ShowInt(i) + rest) == Some(i)
  {
    var negative := i < 0;
    var n: nat := if negative then -i else i;
    var t := (if negative then "-" else "") + (ShowNat(n) + rest);
    assert ShowInt(i) + rest == t;
    TrimStartKeepsNonWhitespace(t);
    SignedDigitsOfShowNat(n, rest, negative);
  }

  lemma TrimStartKeepsNonWhitespace(s: string)
    requires |s| > 0 && !IsWhitespace(s[0])
    ensures TrimStart(s) == s
  {
  }

  /** The digits of `n`, after an optional minus sign, read back as `n` (negated after the sign). */
  lemma SignedDigitsOfShowNat(n: nat, rest: string, negative: bool)
    requires |rest| == 0 || !IsDigit(rest[0])
    ensures ParseSignedDigits((if negative then "-" else "") + (ShowNat(n) + rest)) == Some(if negative then -(n as int) else n as int)
  {
    var d := ShowNat(n);
    var u := d + rest;
    var t := (if negative then "-" else "") + u;
    if negative {
      assert t[1..] == u;
    } else {
      assert t == u;
    }
    DigitsValueOfShowNat(n);
    DigitRunStopsAtNonDigit(d, rest);
    assert u[..|d|] == d;
  }

  lemma {:induction false} TrimStartSkipsWhitespace(w: string, s: string)
    requires AllWhitespace(w)
    ensures TrimStart(w + s) == TrimStart(s)
    decreases |w|
  {
    if |w| > 0 {
      assert (w + s)[0] == w[0];
      assert (w + s)[1..] == w[1..] + s;
      assert TrimStart(w + s) == TrimStart(w[1..] + s);
      TrimStartSkipsWhitespace(w[1..], s);
    } else {
      assert w + s == s;
    }
  }

  /** Leading white space does not change what `parseInt` reads. */
  lemma ParseIntSkipsLeadingWhitespace(w: string, s: string)
    requires AllWhitespace(w)
    ensures ParseInt(w + s) == ParseInt(s)
  {
    TrimStartSkipsWhitespace(w, s);
  }
}
