/**
 * formatTime from script.js: renders a number of seconds as "MM:SS".
 * The minutes field is Math.floor(seconds / 60) and the seconds field is the
 * JavaScript remainder seconds % 60, each converted with toString() and then
 * padStart(2, '0').
 */
module TimeFormat {
  import opened Wrappers

  predicate IsDigit(c: char) {
    '0' <= c <= '9'
  }

  predicate AllDigits(s: string) {
    forall i :: 0 <= i < |s| ==> IsDigit(s[i])
  }

  function DigitChar(d: nat): (c: char)
    requires d < 10
    ensures IsDigit(c) && c as int - '0' as int == d
  {
    ('0' as int + d) as char
  }

  /** Decimal digits of n, most significant first, no leading zero (toString of a non-negative integer). */
  function NatToString(n: nat): (r: string)
    ensures |r| >= 1 && AllDigits(r)
    ensures |r| > 1 ==> r[0] != '0'
    decreases n
  {
    if n < 10 then [DigitChar(n)] else NatToString(n / 10) + [DigitChar(n % 10)]
  }

  /** toString of an integer-valued JavaScript number. */
  function IntToString(n: int): (r: string)
    ensures n >= 0 ==> r == NatToString(n)
    ensures n < 0 ==> |r| >= 2 && r[0] == '-' && r[1..] == NatToString(-n)
  {
    if n < 0 then "-" + NatToString(-n) else NatToString(n)
  }

  /** String.prototype.padStart(2, '0'). */
  function PadStart2(s: string): (r: string)
    ensures |r| == if |s| >= 2 then |s| else 2
    ensures r[|r| - |s|..] == s
    ensures forall i :: 0 <= i < |r| - |s| ==> r[i] == '0'
  {
    if |s| >= 2 then s else if |s| == 1 then "0" + s else "00"
  }

  /** JavaScript's a % 60: the remainder has the sign of the dividend. */
  function JsRem60(a: int): (r: int)
    ensures a >= 0 ==> 0 <= r < 60 && r == a % 60
    ensures a < 0 ==> -60 < r <= 0 && (a - r) % 60 == 0
  {
    if a >= 0 then a % 60 else -((-a) % 60)
  }

  /** formatTime(seconds). Math.floor(seconds / 60) is Dafny's seconds / 60, since the divisor is positive. */
  function FormatTime(seconds: int): string {
    PadStart2(IntToString(seconds / 60)) + ":" + PadStart2(IntToString(JsRem60(seconds)))
  }

  /** The value of a string of decimal digits (leading zeros allowed). */
  function DigitsValue(s: string): nat
    requires AllDigits(s)
  {
    if s == [] then 0
    else
      DigitsValue(s[..|s| - 1]) * 10 + (s[|s| - 1] as int - '0' as int)
  }

  /**
   * Reads a rendering back: the last three characters are ':' and the two
   * seconds digits, everything before them is the minutes field.
   */
  function ParseTime(t: string): Option<nat> {
    if |t| >= 3 && t[|t| - 3] == ':' && AllDigits(t[..|t| - 3]) && AllDigits(t[|t| - 2..]) then
      Some(DigitsValue(t[..|t| - 3]) * 60 + DigitsValue(t[|t| - 2..]))
    else
      None
  }

  lemma {:induction false} NatToStringRoundTrip(n: nat)
    ensures DigitsValue(NatToString(n)) == n
    decreases n
  {
    var r := NatToString(n);
    if n < 10 {
      assert r[..|r| - 1] == [];
    } else {
      NatToStringRoundTrip(n / 10);
      assert r[..|r| - 1] == NatToString(n / 10);
    }
  }

  lemma {:induction false} NatToStringLength(n: nat)
    ensures |NatToString(n)| == 1 <==> n < 10
    ensures |NatToString(n)| == 2 <==> 10 <= n < 100
    ensures |NatToString(n)| >= 3 <==> n >= 100
  {
    if n >= 10 {
      NatToStringLength(n / 10);
    }
  }

  /** Leading zeros do not change the value of a digit string. */
  lemma {:induction false} LeadingZeros(z: string, s: string)
    requires AllDigits(s) && forall i :: 0 <= i < |z| ==> z[i] == '0'
    ensures AllDigits(z + s) && DigitsValue(z + s) == DigitsValue(s)
    decreases |s|
  {
    if s == [] {
      assert z + s == z;
      ZerosValue(z);
    } else {
      var s' := s[..|s| - 1];
      assert AllDigits(s') by {
        forall i | 0 <= i < |s'| ensures IsDigit(s'[i]) { assert s'[i] == s[i]; }
      }
      LeadingZeros(z, s');
      assert (z + s)[..|z + s| - 1] == z + s';
    }
  }

  lemma {:induction false} ZerosValue(z: string)
    requires forall i :: 0 <= i < |z| ==> z[i] == '0'
    ensures AllDigits(z) && DigitsValue(z) == 0
    decreases |z|
  {
    if z != [] {
      ZerosValue(z[..|z| - 1]);
    }
  }

  /** A padded non-negative number: its digits, its value and its width. */
  lemma PaddedNat(n: nat)
    ensures AllDigits(PadStart2(NatToString(n)))
    ensures DigitsValue(PadStart2(NatToString(n))) == n
    ensures n < 100 ==> |PadStart2(NatToString(n))| == 2
    ensures n >= 100 ==> |PadStart2(NatToString(n))| == |NatToString(n)| >= 3
  {
    var s := NatToString(n);
    var p := PadStart2(s);
    NatToStringRoundTrip(n);
    NatToStringLength(n);
    LeadingZeros(p[..|p| - |s|], s);
    assert p == p[..|p| - |s|] + s;
  }

  /** For non-negative input both fields are padded non-negative numbers. */
  lemma FormatTimeFields(s: int)
    requires s >= 0
    ensures FormatTime(s) == PadStart2(NatToString(s / 60)) + ":" + PadStart2(NatToString(s % 60))
  {
    assert IntToString(s / 60) == NatToString(s / 60);
    assert IntToString(JsRem60(s)) == NatToString(s % 60);
  }

  lemma SplitAtColon(m: string, c: string)
    requires |c| == 2
    ensures var r := m + ":" + c;
      |r| == |m| + 3 && r[|r| - 3] == ':' && r[..|r| - 3] == m && r[|r| - 2..] == c
  {
  }

  /**
   * For every non-negative s, formatTime(s) is a minutes field of at least two
   * digits, ':' and a two-digit seconds field below 60, and the fields hold
   * s / 60 and s % 60. The result is exactly five characters when s is below
   * 6000 (100 minutes); beyond that the minutes field grows.
   */
  lemma FormatTimeShape(s: int)
    requires s >= 0
    ensures |FormatTime(s)| >= 5 && FormatTime(s)[|FormatTime(s)| - 3] == ':'
    ensures AllDigits(FormatTime(s)[..|FormatTime(s)| - 3])
    ensures AllDigits(FormatTime(s)[|FormatTime(s)| - 2..])
    ensures DigitsValue(FormatTime(s)[..|FormatTime(s)| - 3]) == s / 60
    ensures DigitsValue(FormatTime(s)[|FormatTime(s)| - 2..]) == s % 60
    ensures |FormatTime(s)| == 5 <==> s < 6000
  {
    var m := PadStart2(NatToString(s / 60));
    var c := PadStart2(NatToString(s % 60));
    PaddedNat(s / 60);
    PaddedNat(s % 60);
    FormatTimeFields(s);
    SplitAtColon(m, c);
    assert s / 60 < 100 <==> s < 6000;
    assert |m| == 2 <==> s / 60 < 100;
  }

  /** Round trip: every non-negative number of seconds is recovered from its rendering. */
  lemma FormatTimeRoundTrip(s: int)
    requires s >= 0
    ensures ParseTime(FormatTime(s)) == Some(s)
  {
    FormatTimeShape(s);
  }

  /** The common case of the display, 0 <= s < 6000: "MM:SS" with ':' at index 2. */
  lemma FormatTimeClock(s: int)
    requires 0 <= s < 6000
    ensures |FormatTime(s)| == 5 && FormatTime(s)[2] == ':'
    ensures forall i :: 0 <= i < 5 && i != 2 ==> IsDigit(FormatTime(s)[i])
    ensures DigitsValue(FormatTime(s)[..2]) * 60 + DigitsValue(FormatTime(s)[3..]) == s
    ensures DigitsValue(FormatTime(s)[3..]) < 60
  {
    FormatTimeShape(s);
    FiveCharacters(FormatTime(s));
  }

  /** Any time up to an hour renders as five characters with ':' in the middle. */
  lemma ShortClock(s: int)
    requires 0 <= s <= 3600
    ensures |FormatTime(s)| == 5 && FormatTime(s)[2] == ':'
  {
    FormatTimeClock(s);
  }

  lemma FiveCharacters(r: string)
    requires |r| == 5 && AllDigits(r[..2]) && AllDigits(r[3..])
    ensures forall i :: 0 <= i < 5 && i != 2 ==> IsDigit(r[i])
    ensures r[..|r| - 3] == r[..2] && r[|r| - 2..] == r[3..]
  {
    assert r[0] == r[..2][0] && r[1] == r[..2][1] && r[3] == r[3..][0] && r[4] == r[3..][1];
  }

  /** Negative input follows JavaScript: floor division and a negative remainder. */
  lemma FormatTimeNegative()
    ensures FormatTime(-1) == "-1:-1"
    ensures FormatTime(-61) == "-2:-1"
  {
    assert -1 / 60 == -1;
    assert IntToString(-1) == "-1";
    assert PadStart2("-1") == "-1";
    assert JsRem60(-1) == -1;
    assert "-1" + ":" + "-1" == "-1:-1";
    assert -61 / 60 == -2;
    assert IntToString(-2) == "-2";
    assert PadStart2("-2") == "-2";
    assert JsRem60(-61) == -1;
    assert "-2" + ":" + "-1" == "-2:-1";
  }
}
