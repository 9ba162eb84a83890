/** Decimal text of shot numbers: Python's `str(n)` for an int, `str.zfill`,
    and the reading back of a zero-filled number. */
module Decimal {
  import opened Text

  predicate IsDigit(c: char) {
    '0' <= c <= '9'
  }

  predicate AllDigits(s: string) {
    forall k | 0 <= k < |s| :: IsDigit(s[k])
  }

  function DigitChar(d: nat): char
    requires d < 10
  {
    ('0' as int + d) as char
  }

  /** Value of a string of decimal digits (leading zeros allowed). */
  function DigitsValue(s: string): nat
    requires AllDigits(s)
  {
    if s == [] then 0 else DigitsValue(s[..|s| - 1]) * 10 + (s[|s| - 1] as int - '0' as int)
  }

  /** `str(n)` for a non-negative int. */
  function NatToString(n: nat): string {
    if n < 10 then [DigitChar(n)] else NatToString(n / 10) + [DigitChar(n % 10)]
  }

  /** `str(n)` is a non-empty string of digits without a leading zero, one
      character long exactly for the numbers below ten. */
  lemma {:induction false} NatToStringSpec(n: nat)
    ensures var s := NatToString(n);
      |s| >= 1 && AllDigits(s) && (|s| > 1 ==> s[0] != '0') && ((n < 10) == (|s| == 1))
  {
    if n >= 10 {
      NatToStringSpec(n / 10);
      var p := NatToString(n / 10);
      var s := NatToString(n);
      assert s == p + [DigitChar(n % 10)];
      assert s[0] == p[0];
      if p == "0" {
        assert false;
      }
    }
  }

  /** `str(n)` for any int: a minus sign in front of a negative number. */
  function IntToString(n: int): string {
    if n < 0 then "-" + NatToString(-n) else NatToString(n)
  }

  function Zeros(n: nat): string {
    if n == 0 then [] else "0" + Zeros(n - 1)
  }

  lemma {:induction false} ZerosSpec(n: nat)
    ensures |Zeros(n)| == n && forall k | 0 <= k < n :: Zeros(n)[k] == '0'
  {
    if n > 0 {
      ZerosSpec(n - 1);
    }
  }

  /** `s.zfill(width)`: pad on the left with '0' up to `width` characters,
      keeping a leading sign in front of the padding. */
  function ZFill(s: string, width: nat): string {
    if |s| >= width then s
    else if |s| > 0 && (s[0] == '-' || s[0] == '+') then [s[0]] + Zeros(width - |s|) + s[1..]
    else Zeros(width - |s|) + s
  }

  /** `str(shot).zfill(4)`, the numeric part of a VFX ID. */
  function ShotText(shot: int): string {
    ZFill(IntToString(shot), 4)
  }

  /** The shot field is `str(shot)` padded to four characters and never cut:
      four digits for the shots below 10000, all digits for any shot that is
      not negative, and a minus sign followed by digits for a negative one. */
  lemma ShotTextShape(shot: int)
    ensures var r := ShotText(shot);
      |r| >= 4
      && (0 <= shot < 10000 ==> |r| == 4 && AllDigits(r))
      && (shot >= 0 ==> AllDigits(r))
      && (shot < 0 ==> r[0] == '-' && AllDigits(r[1..]))
    ensures |ShotText(shot)| == if |IntToString(shot)| >= 4 then |IntToString(shot)| else 4
  {
    var n: nat := if shot < 0 then -shot else shot;
    var d := NatToString(n);
    NatToStringSpec(n);
    if |IntToString(shot)| < 4 {
      var z := Zeros(4 - |IntToString(shot)|);
      ZerosSpec(4 - |IntToString(shot)|);
      if shot < 0 {
        assert ShotText(shot) == "-" + z + d;
        assert ShotText(shot)[1..] == z + d;
      } else {
        assert ShotText(shot) == z + d;
      }
    } else if shot < 0 {
      assert ShotText(shot)[1..] == d;
    }
    if 0 <= shot < 10000 {
      NatToSize(shot);
    }
  }

  /** Reads a shot field back: an optional minus sign and at least one digit. */
  function ParseShot(s: string): Option<int> {
    if |s| > 1 && s[0] == '-' && AllDigits(s[1..]) then Some(-(DigitsValue(s[1..]) as int))
    else if |s| > 0 && AllDigits(s) then Some(DigitsValue(s))
    else None
  }

  lemma {:induction false} NatToSize(n: nat)
    ensures n < 10 ==> |NatToString(n)| == 1
    ensures n < 100 ==> |NatToString(n)| <= 2
    ensures n < 1000 ==> |NatToString(n)| <= 3
    ensures n < 10000 ==> |NatToString(n)| <= 4
  {
    if n >= 10 {
      NatToSize(n / 10);
    }
  }

  lemma {:induction false} NatToStringValue(n: nat)
    ensures AllDigits(NatToString(n)) && DigitsValue(NatToString(n)) == n
  {
    NatToStringSpec(n);
    if n >= 10 {
      NatToStringValue(n / 10);
      var s := NatToString(n);
      assert s[..|s| - 1] == NatToString(n / 10);
    }
  }

  lemma {:induction false} ZerosValue(z: string)
    requires forall k | 0 <= k < |z| :: z[k] == '0'
    ensures AllDigits(z) && DigitsValue(z) == 0
  {
    if z != [] {
      ZerosValue(z[..|z| - 1]);
    }
  }

  /** Leading zeros do not change the value of a digit string. */
  lemma {:induction false} LeadingZerosValue(z: string, d: string)
    requires forall k | 0 <= k < |z| :: z[k] == '0'
    requires AllDigits(d)
    ensures AllDigits(z + d) && DigitsValue(z + d) == DigitsValue(d)
  {
    if d == [] {
      assert z + d == z;
      ZerosValue(z);
    } else {
      LeadingZerosValue(z, d[..|d| - 1]);
      assert (z + d)[..|z + d| - 1] == z + d[..|d| - 1];
    }
  }

  /** The shot field of an ID reads back as the shot number it was made from. */
  lemma ShotTextRoundTrip(shot: int)
    ensures ParseShot(ShotText(shot)) == Some(shot)
  {
    if shot < 0 {
      NegativeRoundTrip(shot);
    } else {
      NaturalRoundTrip(shot);
    }
  }

  lemma NegativeRoundTrip(shot: int)
    requires shot < 0
    ensures ParseShot(ShotText(shot)) == Some(shot)
  {
    var d := NatToString(-shot);
    NatToStringValue(-shot);
    NatToStringSpec(-shot);
    var s := IntToString(shot);
    assert s == "-" + d && s[0] == '-' && s[1..] == d;
    var digits: string;
    if |s| < 4 {
      var z := Zeros(4 - |s|);
      ZerosSpec(4 - |s|);
      LeadingZerosValue(z, d);
      digits := z + d;
      assert ShotText(shot) == [s[0]] + z + s[1..];
    } else {
      digits := d;
    }
    assert ShotText(shot) == "-" + digits;
    ParseNegative(digits);
  }

  /** A minus sign followed by digits reads back as a negative number. */
  lemma ParseNegative(digits: string)
    requires |digits| >= 1 && AllDigits(digits)
    ensures ParseShot("-" + digits) == Some(-(DigitsValue(digits) as int))
  {
    assert ("-" + digits)[1..] == digits;
  }

  lemma NaturalRoundTrip(shot: nat)
    ensures ParseShot(ShotText(shot)) == Some(shot)
  {
    var d := NatToString(shot);
    NatToStringValue(shot);
    NatToStringSpec(shot);
    var r := ShotText(shot);
    if |d| < 4 {
      var z := Zeros(4 - |d|);
      ZerosSpec(4 - |d|);
      LeadingZerosValue(z, d);
      assert r == z + d;
    } else {
      assert r == d;
    }
    assert AllDigits(r) && DigitsValue(r) == shot;
    assert r[0] != '-';
  }
}
