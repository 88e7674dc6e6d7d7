/** Python's `int(token)` on a base-10 token, and the decimal rendering it
    inverts. */
module Integers {
  import opened Outcomes

  predicate IsDigit(c: char)
  {
    '0' <= c <= '9'
  }

  function DigitValue(c: char): (d: nat)
    requires IsDigit(c)
    ensures d < 10
  {
    (c as int) - ('0' as int)
  }

  function DigitChar(d: nat): (c: char)
    requires d < 10
    ensures IsDigit(c) && DigitValue(c) == d
  {
    ('0' as int + d) as char
  }

  /** Digits with single underscores between them, as `int()` accepts
      ("1_000"): a digit, then either the end, more of the same, or an
      underscore followed by more of the same. */
  predicate IsDigitRun(d: string)
    decreases |d|
  {
    && |d| > 0
    && IsDigit(d[0])
    && (|d| == 1 || IsDigitRun(d[1..]) || (d[1] == '_' && IsDigitRun(d[2..])))
  }

  /** Decimal value of the digits of `d`, underscores skipped. */
  function DigitsValue(d: string): nat
    decreases |d|
  {
    if |d| == 0 then 0
    else if IsDigit(d[|d| - 1]) then DigitsValue(d[..|d| - 1]) * 10 + DigitValue(d[|d| - 1])
    else DigitsValue(d[..|d| - 1])
  }

  /** The shape of the digits `int()` accepts after an optional sign, stated
      character by character: only digits and underscores, a digit first and
      last, never two underscores in a row. */
  predicate DigitGroups(d: string)
  {
    && |d| > 0
    && IsDigit(d[0])
    && IsDigit(d[|d| - 1])
    && (forall i | 0 <= i < |d| :: IsDigit(d[i]) || d[i] == '_')
    && (forall i | 0 <= i < |d| - 1 :: d[i] == '_' ==> d[i + 1] != '_')
  }

  /** The recursive grammar and the character-wise shape agree. */
  lemma {:induction false} DigitRunIsDigitGroups(d: string)
    ensures IsDigitRun(d) <==> DigitGroups(d)
    decreases |d|
  {
    if |d| >= 2 {
      var t := d[1..];
      DigitRunIsDigitGroups(t);
      assert forall i | 0 <= i < |t| :: t[i] == d[i + 1];
      if IsDigitRun(d) {
        if IsDigitRun(t) {
          assert DigitGroups(t);
          forall i | 0 <= i < |d| - 1
            ensures d[i] == '_' ==> d[i + 1] != '_'
          {
            if i >= 1 {
              assert d[i] == t[i - 1] && d[i + 1] == t[i];
            }
          }
        } else {
          var u := d[2..];
          DigitRunIsDigitGroups(u);
          assert forall i | 0 <= i < |u| :: u[i] == d[i + 2];
          assert DigitGroups(u);
          forall i | 0 <= i < |d| - 1
            ensures d[i] == '_' ==> d[i + 1] != '_'
          {
            if i >= 2 {
              assert d[i] == u[i - 2] && d[i + 1] == u[i - 1];
            }
          }
        }
        assert DigitGroups(d);
      }
      if DigitGroups(d) {
        if IsDigit(d[1]) {
          assert DigitGroups(t);
        } else {
          assert d[1] == '_';
          assert |d| >= 3;
          var u := d[2..];
          DigitRunIsDigitGroups(u);
          assert forall i | 0 <= i < |u| :: u[i] == d[i + 2];
          assert DigitGroups(u);
        }
      }
    }
  }

  /** An unsigned digit run and its value, or None. */
  function ParseNat(d: string): Option<nat>
  {
    if IsDigitRun(d) then Some(DigitsValue(d)) else None
  }

  /** Python's `int(token)` for a token without surrounding whitespace: an
      optional sign followed by a digit run; anything else is a ValueError. */
  function ParseInt(t: string): (r: Option<int>)
    ensures r.Some? <==>
              || DigitGroups(t)
              || (|t| > 0 && (t[0] == '+' || t[0] == '-') && DigitGroups(t[1..]))
  {
    DigitRunIsDigitGroups(t);
    if |t| > 0 && (t[0] == '+' || t[0] == '-') then
      DigitRunIsDigitGroups(t[1..]);
      match ParseNat(t[1..])
      case None => None
      case Some(v) => if t[0] == '-' then Some(-(v as int)) else Some(v as int)
    else
      match ParseNat(t)
      case None => None
      case Some(v) => Some(v)
  }

  /** Shortest decimal digits of `n`. */
  function NatToString(n: nat): (s: string)
    ensures |s| > 0
    ensures forall i | 0 <= i < |s| :: IsDigit(s[i])
    ensures s[0] == '0' <==> n == 0
  {
    if n < 10 then [DigitChar(n)] else NatToString(n / 10) + [DigitChar(n % 10)]
  }

  /** Python's `str(n)` for an integer: a minus sign exactly when `n` is
      negative, then digits without a leading zero (except for 0 itself). */
  function IntToString(n: int): (s: string)
    ensures |s| > 0
    ensures s[0] == '-' <==> n < 0
    ensures var k := if n < 0 then 1 else 0;
            && k < |s|
            && (forall i | k <= i < |s| :: IsDigit(s[i]))
            && (s[k] == '0' <==> n == 0)
  {
    if n < 0 then "-" + NatToString(-n) else NatToString(n)
  }

  lemma {:induction false} AllDigitsIsDigitRun(d: string)
    requires |d| > 0
    requires forall i | 0 <= i < |d| :: IsDigit(d[i])
    ensures IsDigitRun(d)
    decreases |d|
  {
    if |d| > 1 {
      AllDigitsIsDigitRun(d[1..]);
    }
  }

  lemma {:induction false} NatToStringValue(n: nat)
    ensures DigitsValue(NatToString(n)) == n
  {
    var s := NatToString(n);
    if n >= 10 {
      assert s[..|s| - 1] == NatToString(n / 10);
      NatToStringValue(n / 10);
    }
  }

  /** `int(str(n)) == n`. */
  lemma ParseIntRoundTrip(n: int)
    ensures ParseInt(IntToString(n)) == Some(n)
  {
    var m := if n < 0 then -n else n;
    var d := NatToString(m);
    AllDigitsIsDigitRun(d);
    NatToStringValue(m);
    if n < 0 {
      assert IntToString(n)[1..] == d;
    }
  }

  /** A token that starts with a letter, such as an element symbol, is not an
      integer. */
  lemma LetterTokenIsNotInt(t: string)
    requires |t| > 0 && ('A' <= t[0] <= 'Z' || 'a' <= t[0] <= 'z')
    ensures ParseInt(t) == None
  {
  }

  /** A leading zero does not change the value of the digits. */
  lemma {:induction false} LeadingZeroValue(d: string)
    ensures DigitsValue("0" + d) == DigitsValue(d)
    decreases |d|
  {
    if |d| > 0 {
      var z := "0" + d;
      assert z[..|z| - 1] == "0" + d[..|d| - 1];
      assert z[|z| - 1] == d[|d| - 1];
      LeadingZeroValue(d[..|d| - 1]);
    }
  }

  /** `int()` on a digit run, with a plus sign, with a minus sign and with an
      extra leading zero: "7", "+7", "-7" and "007" are all accepted. */
  lemma ParseIntSignsAndZeros(d: string)
    requires IsDigitRun(d)
    ensures ParseInt(d) == Some(DigitsValue(d))
    ensures ParseInt("+" + d) == Some(DigitsValue(d))
    ensures ParseInt("-" + d) == Some(-(DigitsValue(d) as int))
    ensures ParseInt("0" + d) == ParseInt(d)
  {
    ParseIntSigned('+', d);
    ParseIntSigned('-', d);
    ParseIntLeadingZero(d);
  }

  lemma ParseIntSigned(sign: char, d: string)
    requires sign == '+' || sign == '-'
    requires IsDigitRun(d)
    ensures ParseInt([sign] + d) == Some(if sign == '-' then -(DigitsValue(d) as int) else DigitsValue(d))
  {
    var t := [sign] + d;
    assert t[0] == sign && t[1..] == d;
  }

  lemma ParseIntLeadingZero(d: string)
    requires IsDigitRun(d)
    ensures ParseInt("0" + d) == Some(DigitsValue(d))
  {
    var z := "0" + d;
    assert z[0] == '0' && z[1..] == d;
    assert IsDigitRun(z);
    LeadingZeroValue(d);
  }

  /** "1_000" is one thousand; "1a", "12-3", "1__0" and "1_" are rejected. */
  lemma ParseIntExamples()
    ensures ParseInt("1_000") == Some(1000)
    ensures ParseInt("1a") == None
    ensures ParseInt("12-3") == None
    ensures ParseInt("1__0") == None
    ensures ParseInt("1_") == None
  {
    assert IsDigitRun("0");
    assert IsDigitRun("00");
    assert IsDigitRun("000");
    assert IsDigitRun("1_000");
    assert DigitsValue("1_000") == 1000 by {
      assert "1_000"[..4] == "1_00";
      assert "1_00"[..3] == "1_0";
      assert "1_0"[..2] == "1_";
      assert "1_"[..1] == "1";
      assert "1"[..0] == "";
    }
    assert !DigitGroups("1a") && "1a"[0] != '+' && "1a"[0] != '-';
    assert "12-3"[2] == '-';
    assert !DigitGroups("12-3") && "12-3"[0] != '+' && "12-3"[0] != '-';
    assert "1__0"[1] == '_' && "1__0"[2] == '_';
    assert !DigitGroups("1__0") && "1__0"[0] != '+' && "1__0"[0] != '-';
    assert !DigitGroups("1_") && "1_"[0] != '+' && "1_"[0] != '-';
  }
}
