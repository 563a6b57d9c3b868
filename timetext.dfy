/** The `HH:MM:SS` stamp written into each detection log entry: each clock
    field is turned into its decimal digits and left-padded with '0' to two
    characters (`toString().padStart(2, '0')` in script.js). */
module TimeText {

  predicate IsDigit(c: char)
  {
    '0' <= c <= '9'
  }

  predicate AllDigits(s: string)
  {
    forall i :: 0 <= i < |s| ==> IsDigit(s[i])
  }

  function DigitChar(d: nat): (c: char)
    requires d < 10
    ensures IsDigit(c)
  {
    ('0' as int + d) as char
  }

  function DigitValue(c: char): (d: nat)
    requires IsDigit(c)
    ensures d < 10 && DigitChar(d) == c
  {
    c as int - '0' as int
  }

  /** Decimal notation of a natural number, without leading zeros
      (JavaScript's `Number.prototype.toString()` on a non-negative integer). */
  function Decimal(n: nat): (r: string)
    ensures AllDigits(r)
    ensures n < 10 <==> |r| == 1
    ensures 10 <= n < 100 <==> |r| == 2
    decreases n
  {
    if n < 10 then [DigitChar(n)] else Decimal(n / 10) + [DigitChar(n % 10)]
  }

  /** The number a string of decimal digits denotes (leading zeros allowed). */
  function Value(s: string): nat
    requires AllDigits(s)
    decreases |s|
  {
    if s == [] then 0 else Value(s[..|s| - 1]) * 10 + DigitValue(s[|s| - 1])
  }

  /** `n` copies of `c`. */
  function Repeat(c: char, n: nat): (r: string)
    ensures |r| == n && forall i :: 0 <= i < n ==> r[i] == c
  {
    if n == 0 then [] else [c] + Repeat(c, n - 1)
  }

  /** JavaScript's `padStart(width, fill)` with a one-character fill: prepend
      `fill` until the string is `width` long; never truncates. */
  function PadStart(s: string, width: nat, fill: char): (r: string)
    ensures |r| == if |s| < width then width else |s|
    ensures r[|r| - |s|..] == s
    ensures forall i :: 0 <= i < |r| - |s| ==> r[i] == fill
  {
    if |s| < width then Repeat(fill, width - |s|) + s else s
  }

  /** Reading back the decimal notation gives the number. */
  lemma {:induction false} ValueOfDecimal(n: nat)
    ensures Value(Decimal(n)) == n
    decreases n
  {
    if 10 <= n {
      var s := Decimal(n);
      assert s[..|s| - 1] == Decimal(n / 10);
      ValueOfDecimal(n / 10);
    }
  }

  /** A leading '0' does not change the value of a digit string. */
  lemma {:induction false} LeadingZero(s: string)
    requires AllDigits(s)
    ensures AllDigits(['0'] + s) && Value(['0'] + s) == Value(s)
    decreases |s|
  {
    var t := ['0'] + s;
    if s != [] {
      assert t[..|t| - 1] == ['0'] + s[..|s| - 1];
      LeadingZero(s[..|s| - 1]);
    }
  }

  /** Leading zeros do not change the value of a digit string. */
  lemma {:induction false} ZerosKeepValue(k: nat, s: string)
    requires AllDigits(s)
    ensures AllDigits(Repeat('0', k) + s) && Value(Repeat('0', k) + s) == Value(s)
    decreases k
  {
    if k > 0 {
      ZerosKeepValue(k - 1, s);
      var rest := Repeat('0', k - 1) + s;
      assert Repeat('0', k) + s == ['0'] + rest;
      LeadingZero(rest);
    } else {
      assert Repeat('0', k) + s == s;
    }
  }

  /** Padding with zeros keeps the value of a digit string. */
  lemma ZeroPadKeepsValue(s: string, width: nat)
    requires AllDigits(s)
    ensures AllDigits(PadStart(s, width, '0'))
    ensures Value(PadStart(s, width, '0')) == Value(s)
  {
    if |s| < width {
      ZerosKeepValue(width - |s|, s);
    }
  }

  /** A clock field as script.js prints it: its digits, padded with '0' to
      at least two characters; the digits read back as the field, and a field
      below 100 takes exactly two characters. */
  function Pad2(n: nat): (r: string)
    ensures AllDigits(r) && Value(r) == n
    ensures 2 <= |r| && (n < 100 ==> |r| == 2)
  {
    ValueOfDecimal(n);
    ZeroPadKeepsValue(Decimal(n), 2);
    PadStart(Decimal(n), 2, '0')
  }

  /** The detection time stamp `HH:MM:SS`. For a wall-clock time it has
      eight characters, ':' at positions 2 and 5, and three two-digit fields
      that read back as the hours, minutes and seconds. */
  function TimeString(hours: nat, minutes: nat, seconds: nat): (t: string)
    ensures hours < 24 && minutes < 60 && seconds < 60 ==>
      |t| == 8 && t[2] == ':' && t[5] == ':' &&
      AllDigits(t[0..2]) && Value(t[0..2]) == hours &&
      AllDigits(t[3..5]) && Value(t[3..5]) == minutes &&
      AllDigits(t[6..8]) && Value(t[6..8]) == seconds
  {
    var h, m, s := Pad2(hours), Pad2(minutes), Pad2(seconds);
    Layout(h, m, s);
    h + ":" + m + ":" + s
  }

  lemma Layout(a: string, b: string, c: string)
    ensures |a| == 2 && |b| == 2 && |c| == 2 ==>
      var t := a + ":" + b + ":" + c;
      |t| == 8 && t[2] == ':' && t[5] == ':' && t[0..2] == a && t[3..5] == b && t[6..8] == c
  {
  }
}
