/**
 * The countdown display: minutes and seconds, the seconds padded to two
 * digits, and the low and critical thresholds.
 */
module Timer {
  import opened JsPrelude

  /** `Math.floor(secondsLeft / 60)`: Dafny's division by a positive number
      already rounds down. */
  function Minutes(secondsLeft: int): (m: int)
    ensures m * 60 <= secondsLeft < m * 60 + 60
  {
    secondsLeft / 60
  }

  /** `secondsLeft % 60`, with the sign of secondsLeft as in JavaScript. */
  function Seconds(secondsLeft: int): (r: int)
    ensures secondsLeft >= 0 ==> 0 <= r < 60
    ensures secondsLeft < 0 ==> -60 < r <= 0
    ensures (secondsLeft - r) % 60 == 0
  {
    TruncRem(secondsLeft, 60)
  }

  function IsLow(secondsLeft: int): bool { secondsLeft <= 10 }
  function IsCritical(secondsLeft: int): bool { secondsLeft <= 5 }

  /** For a non-negative count the split is exact and the seconds lie in [0, 60). */
  lemma MinutesSecondsSplit(secondsLeft: int)
    requires secondsLeft >= 0
    ensures Minutes(secondsLeft) >= 0
    ensures Minutes(secondsLeft) * 60 + Seconds(secondsLeft) == secondsLeft
    ensures 0 <= Seconds(secondsLeft) < 60
  {
  }

  /** A negative count shows a negative seconds part, as JavaScript's `%` does. */
  lemma NegativeSeconds()
    ensures Minutes(-5) == -1 && Seconds(-5) == -5
  {
  }

  /** Critical is the stricter threshold. */
  lemma CriticalIsLow(secondsLeft: int)
    ensures IsCritical(secondsLeft) ==> IsLow(secondsLeft)
    ensures IsLow(6) && !IsCritical(6)
  {
  }

  // ---------------------------------------------------------------------
  // Number to text

  function Digit(d: int): char
    requires 0 <= d < 10
  {
    "0123456789"[d]
  }

  predicate IsDigit(c: char) { '0' <= c <= '9' }

  function DigitValue(c: char): int
    requires IsDigit(c)
  {
    c as int - '0' as int
  }

  /** `n.toString()` for n >= 0. */
  function NatToString(n: nat): (s: string)
    ensures |s| >= 1 && forall i :: 0 <= i < |s| ==> IsDigit(s[i])
    ensures n < 10 <==> |s| == 1
  {
    if n < 10 then [Digit(n)] else NatToString(n / 10) + [Digit(n % 10)]
  }

  /** `n.toString()` for any integer. */
  function IntToString(n: int): string {
    if n < 0 then "-" + NatToString(-n) else NatToString(n)
  }

  /** The value of a string of decimal digits. */
  function DigitsValue(s: string): nat
    requires forall i :: 0 <= i < |s| ==> IsDigit(s[i])
  {
    if s == [] then 0 else DigitsValue(s[..|s| - 1]) * 10 + DigitValue(s[|s| - 1])
  }

  /** Reading the digits back gives the number. */
  lemma {:induction false} NatToStringRoundTrip(n: nat)
    ensures DigitsValue(NatToString(n)) == n
  {
    var s := NatToString(n);
    if n >= 10 {
      NatToStringRoundTrip(n / 10);
      assert s[..|s| - 1] == NatToString(n / 10);
    }
  }

  /** `s.padStart(width, "0")`. */
  function PadStart(s: string, width: nat): (r: string)
    ensures |r| == if |s| >= width then |s| else width
    ensures r[|r| - |s|..] == s
    ensures forall i :: 0 <= i < |r| - |s| ==> r[i] == '0'
  {
    if |s| >= width then s else ['0'] + PadStart(s, width - 1)
  }

  /** Leading zeros do not change the value. */
  lemma {:induction false} LeadingZeroValue(s: string)
    requires forall i :: 0 <= i < |s| ==> IsDigit(s[i])
    ensures DigitsValue(['0'] + s) == DigitsValue(s)
  {
    if s != [] {
      LeadingZeroValue(s[..|s| - 1]);
      assert (['0'] + s)[..|s|] == ['0'] + s[..|s| - 1];
    }
  }

  /** `{minutes}:{seconds.toString().padStart(2, "0")}`. */
  function Display(secondsLeft: int): string {
    IntToString(Minutes(secondsLeft)) + ":" + PadStart(IntToString(Seconds(secondsLeft)), 2)
  }

  /** For a non-negative count the seconds field is exactly two digits, and
      reading the minutes and seconds fields back gives the count. */
  lemma DisplayFields(secondsLeft: int)
    requires secondsLeft >= 0
    ensures var m := NatToString(Minutes(secondsLeft));
            var ss := PadStart(NatToString(Seconds(secondsLeft)), 2);
            Display(secondsLeft) == m + ":" + ss &&
            |ss| == 2 && IsDigit(ss[0]) && IsDigit(ss[1]) &&
            DigitsValue(m) * 60 + DigitsValue(ss) == secondsLeft
  {
    MinutesSecondsSplit(secondsLeft);
    var sec := Seconds(secondsLeft);
    var digits := NatToString(sec);
    NatToStringRoundTrip(Minutes(secondsLeft));
    NatToStringRoundTrip(sec);
    if sec < 10 {
      assert PadStart(digits, 2) == ['0'] + digits;
      LeadingZeroValue(digits);
    } else {
      assert sec / 10 < 10;
    }
  }

  /** At zero both warnings are on and the display reads 0:00. */
  lemma ZeroDisplay()
    ensures IsLow(0) && IsCritical(0)
    ensures Display(0) == "0:00"
  {
    assert Minutes(0) == 0 && Seconds(0) == 0;
    assert NatToString(0) == "0";
    assert PadStart("0", 2) == "00";
  }
}
