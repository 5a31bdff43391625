/** The countdown readout that the interval callback of `startTimer` writes:
    `Time: m:ss`, minutes unpadded and seconds padded to two digits. */
module Readout {
  import opened Wrappers

  predicate IsDigit(c: char)
  {
    '0' <= c <= '9'
  }

  predicate AllDigits(s: string)
  {
    forall i :: 0 <= i < |s| ==> IsDigit(s[i])
  }

  function DigitChar(d: nat): char
    requires d < 10
  {
    (('0' as int) + d) as char
  }

  /** How a template literal renders a non-negative integer: its decimal digits,
      with no leading zero except for 0 itself. */
  function Decimal(n: nat): (s: string)
    ensures |s| >= 1 && AllDigits(s)
    ensures s[0] == '0' <==> n == 0
    ensures n < 10 <==> |s| == 1
    decreases n
  {
    if n < 10 then [DigitChar(n)] else Decimal(n / 10) + [DigitChar(n % 10)]
  }

  /** The number a string of decimal digits denotes. */
  function DigitsValue(s: string): nat
    requires AllDigits(s)
  {
    if s == [] then 0
    else 10 * DigitsValue(s[..|s| - 1]) + (s[|s| - 1] as int - '0' as int)
  }

  lemma {:induction false} DecimalRoundTrip(n: nat)
    ensures DigitsValue(Decimal(n)) == n
    decreases n
  {
    if n >= 10 {
      DecimalRoundTrip(n / 10);
      var s := Decimal(n);
      assert s[..|s| - 1] == Decimal(n / 10);
    }
  }

  /** `${seconds < 10 ? '0' : ''}${seconds}`: a value below 100 as exactly two digits. */
  function TwoDigits(n: nat): (s: string)
    requires n < 100
    ensures |s| == 2 && AllDigits(s) && DigitsValue(s) == n
  {
    DecimalRoundTrip(n);
    var s := (if n < 10 then "0" else "") + Decimal(n);
    assert n < 10 ==> s[..1] == "0";
    assert n >= 10 ==> s == Decimal(n);
    s
  }

  /** The text the timer shows for t seconds left: the part between `Time: ` and
      the colon is t / 60 in decimal, the two characters after it are t % 60. */
  function FormatTime(t: nat): (r: string)
    ensures |r| >= 10 && r[..6] == "Time: " && r[|r| - 3] == ':'
    ensures AllDigits(r[6..|r| - 3]) && DigitsValue(r[6..|r| - 3]) == t / 60
    ensures AllDigits(r[|r| - 2..]) && DigitsValue(r[|r| - 2..]) == t % 60
  {
    var minutes := Decimal(t / 60);
    var seconds := TwoDigits(t % 60);
    var r := "Time: " + minutes + ":" + seconds;
    DecimalRoundTrip(t / 60);
    assert r[6..|r| - 3] == minutes;
    assert r[|r| - 2..] == seconds;
    r
  }

  /** Reads a timer readout back into the seconds it shows; None for any text that
      is not of the form `Time: m:ss` with ss below 60. */
  function ParseReadout(r: string): Option<nat>
  {
    if |r| >= 10 && r[..6] == "Time: " && r[|r| - 3] == ':'
       && AllDigits(r[6..|r| - 3]) && AllDigits(r[|r| - 2..])
       && DigitsValue(r[|r| - 2..]) < 60
    then Some(60 * DigitsValue(r[6..|r| - 3]) + DigitsValue(r[|r| - 2..]))
    else None
  }

  /** The readout determines the remaining time: reading it back gives t again. */
  lemma ReadoutRoundTrip(t: nat)
    ensures ParseReadout(FormatTime(t)) == Some(t)
  {
  }

  /** Hence two different remaining times are never shown alike. */
  lemma FormatTimeInjective(t: nat, u: nat)
    requires FormatTime(t) == FormatTime(u)
    ensures t == u
  {
    ReadoutRoundTrip(t);
    ReadoutRoundTrip(u);
  }
}
