/** Python's `int(text)` on a string, as the query builder applies it to
    filter values: surrounding whitespace is ignored, an optional sign may be
    followed by whitespace, and then only decimal digits, at least one, may
    follow. */
module Numbers {
  import opened Wrappers

  predicate IsDigit(c: char) {
    '0' <= c <= '9'
  }

  /** Python's whitespace for `str.strip()`: space, tab, newline, vertical tab,
      form feed and carriage return. */
  predicate IsSpace(c: char) {
    c == ' ' || '\t' <= c <= '\r'
  }

  /** Every character is whitespace. */
  predicate AllSpace(s: string) {
    forall i :: 0 <= i < |s| ==> IsSpace(s[i])
  }

  /** A non-empty run of decimal digits. */
  predicate IsDigits(s: string) {
    |s| > 0 && forall i :: 0 <= i < |s| ==> IsDigit(s[i])
  }

  function DigitValue(c: char): nat
    requires IsDigit(c)
  {
    c as int - '0' as int
  }

  /** The number a run of decimal digits denotes, most significant first. */
  function DigitsValue(s: string): nat
    requires forall i :: 0 <= i < |s| ==> IsDigit(s[i])
  {
    if |s| == 0 then 0 else 10 * DigitsValue(s[..|s| - 1]) + DigitValue(s[|s| - 1])
  }

  /** Drops leading whitespace. */
  function TrimLeft(s: string): (r: string)
    ensures |r| == 0 || !IsSpace(r[0])
    ensures forall c :: c in r ==> c in s
    ensures |r| <= |s|
  {
    if |s| > 0 && IsSpace(s[0]) then TrimLeft(s[1..]) else s
  }

  /** What `TrimLeft` drops is a run of whitespace at the front, and what it
      keeps is the rest of the string. */
  lemma {:induction false} TrimLeftSuffix(s: string)
    ensures var r := TrimLeft(s);
      r == s[|s| - |r|..] && AllSpace(s[..|s| - |r|])
  {
    if |s| > 0 && IsSpace(s[0]) {
      TrimLeftSuffix(s[1..]);
      var r := TrimLeft(s[1..]);
      assert s[1..][..|s| - 1 - |r|] == s[1..|s| - |r|];
    }
  }

  /** Drops trailing whitespace. */
  function TrimRight(s: string): (r: string)
    ensures |r| == 0 || !IsSpace(r[|r| - 1])
    ensures forall c :: c in r ==> c in s
  {
    if |s| > 0 && IsSpace(s[|s| - 1]) then TrimRight(s[..|s| - 1]) else s
  }

  /** Python's `str.strip()`. */
  function Strip(s: string): string {
    TrimRight(TrimLeft(s))
  }

  /** What may stand before the digits of an integer literal: nothing, or a
      sign followed by any amount of whitespace (Python 2's integer reader
      skips whitespace after the sign). */
  predicate SignPrefix(p: string) {
    p == [] || ((p[0] == '-' || p[0] == '+') && AllSpace(p[1..]))
  }

  /** `t` reads as the integer `v`: a sign prefix, then a run of digits that
      runs to the end, negated when the prefix is '-'. */
  predicate IntegerLiteral(t: string, v: int) {
    exists m ::
      && 0 <= m < |t| && SignPrefix(t[..m]) && IsDigits(t[m..])
      && v == (if m > 0 && t[0] == '-' then -(DigitsValue(t[m..]) as int) else DigitsValue(t[m..]))
  }

  /** `int(s)` in base 10: the integer the stripped text reads as, or `None`
      exactly where Python raises `ValueError`. */
  function ParseInt(s: string): (r: Option<int>)
    ensures r.Some? ==> IntegerLiteral(Strip(s), r.value)
    ensures forall v :: IntegerLiteral(Strip(s), v) ==> r == Some(v)
    ensures IsDigits(s) ==> r == Some(DigitsValue(s))
    ensures r.Some? ==> exists c :: c in s && IsDigit(c)
  {
    var t := Strip(s);
    var r := ParseLiteral(t);
    assert r.Some? ==> t[|t| - 1] in t;
    r
  }

  /** An optionally signed run of digits, with nothing around it. */
  function ParseLiteral(t: string): (r: Option<int>)
    ensures r.Some? ==> IntegerLiteral(t, r.value)
    ensures forall v :: IntegerLiteral(t, v) ==> r == Some(v)
    ensures IsDigits(t) ==> r == Some(DigitsValue(t))
    ensures r.Some? ==> |t| > 0 && IsDigit(t[|t| - 1])
  {
    var digits := Unsigned(t);
    if !IsDigits(digits) then
      NoLiteralWithoutDigits(t);
      None
    else
      var magnitude: int := DigitsValue(digits);
      LiteralOfDigits(t);
      Some(if t[0] == '-' then -magnitude else magnitude)
  }

  /** The text after the sign and the whitespace that follows it, or all of
      the text when it does not start with a sign. */
  function Unsigned(t: string): string {
    if |t| > 0 && (t[0] == '-' || t[0] == '+') then TrimLeft(t[1..]) else t
  }

  /** Without digits after the sign nothing reads as an integer. */
  lemma NoLiteralWithoutDigits(t: string)
    requires !IsDigits(Unsigned(t))
    ensures forall v :: !IntegerLiteral(t, v)
  {
    forall v | IntegerLiteral(t, v)
      ensures false
    {
      var m :| 0 <= m < |t| && SignPrefix(t[..m]) && IsDigits(t[m..]);
      LiteralDigits(t, m);
    }
  }

  /** With digits after the sign the text reads as their signed value, and as
      nothing else. */
  lemma LiteralOfDigits(t: string)
    requires IsDigits(Unsigned(t))
    ensures |t| > 0 && IsDigit(t[|t| - 1])
    ensures var v := if t[0] == '-' then -(DigitsValue(Unsigned(t)) as int) else DigitsValue(Unsigned(t));
      IntegerLiteral(t, v) && forall v' :: IntegerLiteral(t, v') ==> v' == v
  {
    var digits := Unsigned(t);
    var signed := |t| > 0 && (t[0] == '-' || t[0] == '+');
    TrimLeftSuffix(if signed then t[1..] else t);
    var m := |t| - |digits|;
    assert t[m..] == digits;
    assert t[|t| - 1] == digits[|digits| - 1];
    assert signed ==> t[..m] == [t[0]] + t[1..][..|t[1..]| - |digits|];
    assert SignPrefix(t[..m]);
    forall m' | 0 <= m' < |t| && SignPrefix(t[..m']) && IsDigits(t[m'..])
      ensures t[m'..] == digits && (m' > 0 <==> signed)
    {
      LiteralDigits(t, m');
    }
  }

  /** Whatever sign prefix a literal uses, its digits are what is left once the
      sign and the whitespace after it are dropped. */
  lemma LiteralDigits(t: string, m: int)
    requires 0 <= m < |t| && SignPrefix(t[..m]) && IsDigits(t[m..])
    ensures m > 0 <==> (t[0] == '-' || t[0] == '+')
    ensures m > 0 ==> TrimLeft(t[1..]) == t[m..]
    ensures m == 0 ==> t[m..] == t
  {
    if m > 0 {
      assert t[..m][0] == t[0];
      assert t[1..] == t[..m][1..] + t[m..];
      TrimLeftSpaces(t[..m][1..], t[m..]);
    } else {
      assert t[m..][0] == t[0];
    }
  }

  /** Leading whitespace before text that starts with non-whitespace is all
      `TrimLeft` removes. */
  lemma {:induction false} TrimLeftSpaces(pad: string, rest: string)
    requires AllSpace(pad) && |rest| > 0 && !IsSpace(rest[0])
    ensures TrimLeft(pad + rest) == rest
    decreases |pad|
  {
    if |pad| == 0 {
      assert pad + rest == rest;
    } else {
      assert (pad + rest)[1..] == pad[1..] + rest;
      TrimLeftSpaces(pad[1..], rest);
    }
  }

  /** Decimal rendering of a natural number, most significant digit first. */
  function NatToString(n: nat): (s: string)
    ensures IsDigits(s)
  {
    if n < 10 then [('0' as int + n) as char]
    else NatToString(n / 10) + [('0' as int + n % 10) as char]
  }

  /** Decimal rendering of an integer, with a leading '-' when negative. */
  function IntToString(n: int): (s: string)
    ensures |s| > 0 && !IsSpace(s[0]) && !IsSpace(s[|s| - 1])
  {
    if n < 0 then "-" + NatToString(-n) else NatToString(n)
  }

  /** Reading back the decimal rendering gives the number. */
  lemma {:induction false} DigitsRoundTrip(n: nat)
    ensures DigitsValue(NatToString(n)) == n
  {
    var s := NatToString(n);
    if n >= 10 {
      DigitsRoundTrip(n / 10);
      assert s[..|s| - 1] == NatToString(n / 10);
    }
  }

  /** `int(str(n)) == n` for every integer `n`. */
  lemma ParseIntRoundTrip(n: int)
    ensures ParseInt(IntToString(n)) == Some(n)
  {
    var s := IntToString(n);
    StripUnpadded(s);
    if n < 0 {
      assert s[1..] == NatToString(-n);
      DigitsRoundTrip(-n);
    } else {
      DigitsRoundTrip(n);
    }
  }

  /** Text that starts and ends with non-whitespace is left as is by `strip()`. */
  lemma StripUnpadded(t: string)
    requires |t| > 0 && !IsSpace(t[0]) && !IsSpace(t[|t| - 1])
    ensures Strip(t) == t
  {
    assert TrimLeft(t) == t;
  }

  /** A leading '-' negates the digits that follow and a leading '+' keeps them. */
  lemma ParseIntSigned(d: string)
    requires IsDigits(d)
    ensures ParseInt("-" + d) == Some(-(DigitsValue(d) as int))
    ensures ParseInt("+" + d) == Some(DigitsValue(d))
  {
    var none: string := [];
    assert none + d == d;
    SignedLiteral('-', none, d);
    SignedLiteral('+', none, d);
  }

  /** Whitespace between the sign and the digits is skipped, as Python 2's
      `int()` does: `int("- 5") == -5`. */
  lemma ParseIntSpaceAfterSign(pad: string, d: string)
    requires AllSpace(pad) && IsDigits(d)
    ensures ParseInt("-" + (pad + d)) == Some(-(DigitsValue(d) as int))
    ensures ParseInt("+" + (pad + d)) == Some(DigitsValue(d))
  {
    SignedLiteral('-', pad, d);
    SignedLiteral('+', pad, d);
  }

  /** A sign, whitespace, then digits reads as the signed value of the digits. */
  lemma SignedLiteral(sign: char, pad: string, d: string)
    requires IsDigits(d) && AllSpace(pad) && (sign == '-' || sign == '+')
    ensures ParseInt([sign] + (pad + d)) == Some(if sign == '-' then -(DigitsValue(d) as int) else DigitsValue(d))
  {
    var t := [sign] + (pad + d);
    assert t[|t| - 1] == d[|d| - 1];
    StripUnpadded(t);
    var m := 1 + |pad|;
    assert t[..m] == [sign] + pad && t[..m][1..] == pad;
    assert t[m..] == d;
    assert IntegerLiteral(t, if sign == '-' then -(DigitsValue(d) as int) else DigitsValue(d));
  }

  /** Digits followed by anything but whitespace, or split by whitespace, are
      not an integer: `int("1.5")`, `int("12abc")` and `int("1 2")` raise. */
  lemma ParseIntRejectsStrayText(d: string, c: char, e: string, d2: string)
    requires IsDigits(d) && !IsDigit(c) && !IsSpace(c) && IsDigits(d2)
    ensures ParseInt(d + [c] + e) == None
    ensures ParseInt(d + " " + d2) == None
  {
    var s := d + [c] + e;
    assert s[0] == d[0];
    TrimRightAfter(d + [c], e);
    var t := Strip(s);
    assert t == d + [c] + TrimRight(e);
    assert t[0] == d[0] && t[|d|] == c;
    NoLiteralWithStrayChar(t, |d|);
    var s2 := d + " " + d2;
    assert s2[0] == d[0] && s2[|s2| - 1] == d2[|d2| - 1];
    StripUnpadded(s2);
    assert s2[|d|] == ' ';
    NoLiteralWithStrayChar(s2, |d|);
  }

  /** Text that starts with a digit and holds a non-digit anywhere reads as no
      integer. */
  lemma NoLiteralWithStrayChar(t: string, i: int)
    requires 0 <= i < |t| && IsDigit(t[0]) && !IsDigit(t[i])
    ensures forall v :: !IntegerLiteral(t, v)
  {
  }

  /** Trailing whitespace is trimmed only after the last non-whitespace. */
  lemma {:induction false} TrimRightAfter(p: string, q: string)
    requires |p| > 0 && !IsSpace(p[|p| - 1])
    ensures TrimRight(p + q) == p + TrimRight(q)
    decreases |q|
  {
    if |q| == 0 {
      assert p + q == p;
      assert q == [];
    } else if IsSpace(q[|q| - 1]) {
      assert (p + q)[..|p + q| - 1] == p + q[..|q| - 1];
      TrimRightAfter(p, q[..|q| - 1]);
    } else {
      assert (p + q)[|p + q| - 1] == q[|q| - 1];
    }
  }

  /** Trimming the front of a string that ends in whitespace. */
  lemma {:induction false} TrimLeftSpaceEnd(s: string, c: char)
    requires IsSpace(c)
    ensures TrimLeft(s + [c]) == (if TrimLeft(s) == [] then [] else TrimLeft(s) + [c])
    decreases |s|
  {
    var t := s + [c];
    if |s| == 0 {
      assert TrimLeft(t) == TrimLeft(t[1..]);
      assert t[1..] == [];
    } else if IsSpace(s[0]) {
      assert t[1..] == s[1..] + [c];
      TrimLeftSpaceEnd(s[1..], c);
    }
  }

  /** `int()` ignores whitespace added on either side. */
  lemma ParseIntIgnoresPadding(s: string, c: char)
    requires IsSpace(c)
    ensures ParseInt([c] + s) == ParseInt(s)
    ensures ParseInt(s + [c]) == ParseInt(s)
  {
    assert Strip([c] + s) == Strip(s) by {
      assert ([c] + s)[1..] == s;
    }
    assert Strip(s + [c]) == Strip(s) by {
      TrimLeftSpaceEnd(s, c);
      var t := TrimLeft(s);
      if t != [] {
        assert (t + [c])[..|t|] == t;
      }
    }
  }
}
