// The few Python string operations the modelled code relies on: `strip`,
// `upper`, `str(int)` and `int(str)`.
module Strings {
  import opened Wrappers

  /**
   * Python's `str.isspace` for one character: tab, line feed, vertical tab,
   * form feed, carriage return, the four information separators, space,
   * next-line, no-break space, the Ogham space mark, the en quad through
   * the hair space, the line and paragraph separators, the narrow no-break
   * space, the medium mathematical space and the ideographic space.
   */
  predicate IsSpace(c: char)
  {
    c == ' ' || ('\t' <= c <= '\r') || ('\U{1c}' <= c <= '\U{1f}') || c == '\U{85}' || c == '\U{a0}' ||
    c == '\U{1680}' || ('\U{2000}' <= c <= '\U{200a}') || c == '\U{2028}' || c == '\U{2029}' ||
    c == '\U{202f}' || c == '\U{205f}' || c == '\U{3000}'
  }

  /** Every character is white space (true for the empty string). */
  predicate AllSpace(s: string)
  {
    forall i :: 0 <= i < |s| ==> IsSpace(s[i])
  }

  /** Python's `s.lstrip()`. */
  function StripLeft(s: string): string
  {
    if |s| == 0 || !IsSpace(s[0]) then s else StripLeft(s[1..])
  }

  /** `s.lstrip()` is a suffix of s that does not start with white space, and what it drops is white space. */
  lemma {:induction false} StripLeftShape(s: string)
    ensures var r := StripLeft(s);
      |r| <= |s| && r == s[|s| - |r|..] && (|r| > 0 ==> !IsSpace(r[0])) && AllSpace(s[..|s| - |r|])
  {
    if |s| > 0 && IsSpace(s[0]) {
      var rest := StripLeft(s[1..]);
      StripLeftShape(s[1..]);
      assert s[..|s| - |rest|] == [s[0]] + s[1..][..|s| - 1 - |rest|];
    }
  }

  /** Python's `s.rstrip()`. */
  function StripRight(s: string): string
  {
    if |s| == 0 || !IsSpace(s[|s| - 1]) then s else StripRight(s[..|s| - 1])
  }

  /** `s.rstrip()` is a prefix of s that does not end in white space, and what it drops is white space. */
  lemma {:induction false} StripRightShape(s: string)
    ensures var r := StripRight(s);
      |r| <= |s| && r == s[..|r|] && (|r| > 0 ==> !IsSpace(r[|r| - 1])) && AllSpace(s[|r|..])
  {
    if |s| > 0 && IsSpace(s[|s| - 1]) {
      var rest := StripRight(s[..|s| - 1]);
      StripRightShape(s[..|s| - 1]);
      assert s[|rest|..] == s[..|s| - 1][|rest|..] + [s[|s| - 1]];
    }
  }

  /** Python's `s.strip()`: a slice of s with no white space at either end. */
  function Strip(s: string): string
  {
    StripRight(StripLeft(s))
  }

  /**
   * `s.strip()` is a slice `s[i..j]` whose ends are not white space and
   * whose removed ends are all white space.
   */
  lemma StripIsTrimmedSlice(s: string)
    ensures var r := Strip(s);
      exists i, j :: 0 <= i <= j <= |s| && r == s[i..j] && AllSpace(s[..i]) && AllSpace(s[j..])
    ensures var r := Strip(s);
      |r| > 0 ==> !IsSpace(r[0]) && !IsSpace(r[|r| - 1])
  {
    var l := StripLeft(s);
    var r := StripRight(l);
    StripLeftShape(s);
    StripRightShape(l);
    var i := |s| - |l|;
    var j := i + |r|;
    assert l == s[i..];
    assert r == s[i..j] by {
      assert r == l[..|r|];
    }
    assert AllSpace(s[..i]);
    assert AllSpace(s[j..]) by {
      assert s[j..] == l[|r|..];
    }
    if |r| > 0 {
      assert r[0] == l[0];
    }
    assert Strip(s) == r;
  }

  /** `s.strip()` is empty exactly when s is all white space. */
  lemma BlankIffAllSpace(s: string)
    ensures Strip(s) == "" <==> AllSpace(s)
  {
    if AllSpace(s) {
      StripLeftOfAllSpace(s);
    }
    var l := StripLeft(s);
    StripLeftShape(s);
    if l != "" {
      StripRightKeepsFirst(l);
    } else {
      assert s[..|s|] == s;
    }
  }

  lemma {:induction false} StripLeftOfAllSpace(s: string)
    requires AllSpace(s)
    ensures StripLeft(s) == ""
  {
    if |s| > 0 {
      StripLeftOfAllSpace(s[1..]);
    }
  }

  lemma {:induction false} StripRightKeepsFirst(s: string)
    requires |s| > 0 && !IsSpace(s[0])
    ensures StripRight(s) != ""
  {
    if IsSpace(s[|s| - 1]) {
      StripRightKeepsFirst(s[..|s| - 1]);
    }
  }

  /** Python's `str.upper` on ASCII letters; other characters are kept. */
  function Upper(s: string): (r: string)
    ensures |r| == |s|
    ensures forall i :: 0 <= i < |s| ==>
      r[i] == (if 'a' <= s[i] <= 'z' then (s[i] as int - 32) as char else s[i])
  {
    if |s| == 0 then ""
    else
      var c := s[0];
      [if 'a' <= c <= 'z' then (c as int - 32) as char else c] + Upper(s[1..])
  }

  // ----- Decimal conversion -----

  function DigitChar(d: nat): char
    requires d < 10
  {
    ('0' as int + d) as char
  }

  predicate IsDigit(c: char)
  {
    '0' <= c <= '9'
  }

  predicate AllDigits(s: string)
  {
    forall i :: 0 <= i < |s| ==> IsDigit(s[i])
  }

  /** The decimal digits of n, most significant first, without leading zeros. */
  function Digits(n: nat): (r: string)
    ensures |r| > 0 && AllDigits(r)
    ensures n > 0 ==> r[0] != '0'
  {
    if n < 10 then [DigitChar(n)] else Digits(n / 10) + [DigitChar(n % 10)]
  }

  /** The value of a string of decimal digits. */
  function DigitsValue(s: string): nat
    requires AllDigits(s)
  {
    if |s| == 0 then 0
    else
      assert IsDigit(s[|s| - 1]);
      10 * DigitsValue(s[..|s| - 1]) + (s[|s| - 1] as int - '0' as int)
  }

  lemma {:induction false} DigitsRoundTrip(n: nat)
    ensures DigitsValue(Digits(n)) == n
  {
    if n >= 10 {
      DigitsRoundTrip(n / 10);
      var d := Digits(n);
      assert d[..|d| - 1] == Digits(n / 10);
    }
  }

  /** Python's `str(n)` for an int. */
  function IntToString(n: int): (r: string)
    ensures |r| > 0
  {
    if n < 0 then "-" + Digits(-n) else Digits(n)
  }

  /**
   * Python's `int(s)` for a string: optional surrounding white space, an
   * optional sign and at least one decimal digit; None where Python raises
   * ValueError.
   */
  function ParseInt(s: string): (r: Option<int>)
  {
    ParseStripped(Strip(s))
  }

  /** `int(t)` once the white space around t is gone. */
  function ParseStripped(t: string): (r: Option<int>)
  {
    if |t| > 0 && (t[0] == '-' || t[0] == '+') then
      var body := t[1..];
      if |body| > 0 && AllDigits(body) then
        Some(if t[0] == '-' then -(DigitsValue(body) as int) else DigitsValue(body))
      else None
    else if |t| > 0 && AllDigits(t) then
      Some(DigitsValue(t))
    else None
  }

  lemma StripNoSpace(s: string)
    requires |s| > 0 && !IsSpace(s[0]) && !IsSpace(s[|s| - 1])
    ensures Strip(s) == s
  {
    assert StripLeft(s) == s;
    assert StripRight(s) == s;
  }

  /** Stripping twice is stripping once. */
  lemma StripIdempotent(s: string)
    ensures Strip(Strip(s)) == Strip(s)
  {
    var r := Strip(s);
    if r != "" {
      StripIsTrimmedSlice(s);
      StripNoSpace(r);
    }
  }

  /** `int(str(n)) == n`. */
  lemma ParseIntRoundTrip(n: int)
    ensures ParseInt(IntToString(n)) == Some(n)
  {
    if n < 0 {
      NegativeRoundTrip(-n);
    } else {
      var d := Digits(n);
      DigitsRoundTrip(n);
      ParseUnsigned(d);
      assert IntToString(n) == d;
    }
  }

  lemma NegativeRoundTrip(m: nat)
    requires m > 0
    ensures ParseInt(IntToString(-(m as int))) == Some(-(m as int))
  {
    DigitsRoundTrip(m);
    ParseSigned(m, Digits(m));
  }

  /** Where there is nothing to strip, `int(s)` reads s as it stands. */
  lemma ParseUnstripped(s: string)
    requires |s| > 0 && !IsSpace(s[0]) && !IsSpace(s[|s| - 1])
    ensures ParseInt(s) == ParseStripped(s)
  {
    StripNoSpace(s);
  }

  lemma ParseUnsigned(d: string)
    requires |d| > 0 && AllDigits(d)
    ensures ParseInt(d) == Some(DigitsValue(d))
  {
    assert IsDigit(d[0]) && IsDigit(d[|d| - 1]);
    ParseUnstripped(d);
  }

  lemma ParseSigned(m: nat, d: string)
    requires |d| > 0 && AllDigits(d) && DigitsValue(d) == m
    ensures ParseInt("-" + d) == Some(-(m as int))
  {
    var s := "-" + d;
    assert s[0] == '-' && s[1..] == d && s[|s| - 1] == d[|d| - 1];
    assert IsDigit(d[|d| - 1]);
    assert ParseStripped(s) == Some(-(m as int));
    ParseUnstripped(s);
  }

  /** `str` is injective on ints. */
  lemma IntToStringInjective(a: int, b: int)
    requires IntToString(a) == IntToString(b)
    ensures a == b
  {
    ParseIntRoundTrip(a);
    ParseIntRoundTrip(b);
  }
}
