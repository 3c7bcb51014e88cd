/**
 * The date stamp written into every new link record: the day of the month and
 * the month number, each left-padded with '0' to two characters, and the full
 * year, joined by '/' ("dd/mm/yyyy"). The clock is not read here: the caller
 * passes the day of the month, the 0-based month and the year it read.
 */
module DateFormat {

  import opened Wrappers

  predicate IsDigit(c: char) {
    '0' <= c <= '9'
  }

  predicate AllDigits(s: string) {
    forall i | 0 <= i < |s| :: IsDigit(s[i])
  }

  function DigitValue(c: char): nat
    requires IsDigit(c)
  {
    c as int - '0' as int
  }

  function DigitChar(d: nat): (c: char)
    requires d < 10
    ensures IsDigit(c) && DigitValue(c) == d
  {
    ('0' as int + d) as char
  }

  /** The number a string of decimal digits denotes (leading zeros allowed). */
  function DigitsValue(s: string): nat
    requires AllDigits(s)
  {
    if s == [] then 0 else DigitsValue(s[..|s| - 1]) * 10 + DigitValue(s[|s| - 1])
  }

  /** Decimal text of a natural number, as JavaScript's String(n) writes it. */
  function NatToString(n: nat): (s: string)
    ensures 1 <= |s| && AllDigits(s)
    ensures |s| == 1 <==> n < 10
    ensures |s| == 2 <==> 10 <= n < 100
    ensures s[0] == '0' <==> n == 0
  {
    if n < 10 then [DigitChar(n)] else NatToString(n / 10) + [DigitChar(n % 10)]
  }

  /** Decimal text of an integer, with a leading '-' when it is negative. */
  function IntToString(n: int): (s: string)
    ensures IsIntText(s)
    ensures s[0] == '-' <==> n < 0
    ensures s[0] == '0' <==> n == 0
    ensures n < 0 ==> s[1] != '0'
    ensures n == 0 ==> s == "0"
  {
    if n < 0 then "-" + NatToString(-n) else NatToString(n)
  }

  predicate IsIntText(s: string) {
    || (|s| > 1 && s[0] == '-' && AllDigits(s[1..]))
    || (|s| > 0 && AllDigits(s))
  }

  function IntValue(s: string): int
    requires IsIntText(s)
  {
    if s[0] == '-' then -(DigitsValue(s[1..]) as int) else DigitsValue(s)
  }

  /** JavaScript's s.padStart(2, "0"): prefix '0's until the text is two long. */
  function PadStart2(s: string): (r: string)
    ensures |r| == if |s| < 2 then 2 else |s|
    ensures r[|r| - |s|..] == s
    ensures forall i | 0 <= i < |r| - |s| :: r[i] == '0'
  {
    if |s| >= 2 then s else if |s| == 1 then "0" + s else "00"
  }

  /**
   * The stamp for the given day of the month, 0-based month and year; the
   * month is written 1-based.
   */
  function FormatDate(day: nat, month: nat, year: int): (s: string)
    ensures |s| >= 7
    ensures day < 100 && month < 99 ==>
              && |s| == 6 + |IntToString(year)| && s[2] == '/' && s[5] == '/'
              && AllDigits(s[..2]) && AllDigits(s[3..5]) && s[6..] == IntToString(year)
  {
    var d := PadStart2(NatToString(day));
    var m := PadStart2(NatToString(month + 1));
    var y := IntToString(year);
    Pad2RoundTrip(day);
    Pad2RoundTrip(month + 1);
    StampLayout(d, m, y);
    d + "/" + m + "/" + y
  }

  /** Reads a "dd/mm/<year>" stamp back into its day, 1-based month and year. */
  function ParseDate(s: string): Option<(nat, nat, int)>
  {
    if |s| >= 7 && s[2] == '/' && s[5] == '/' && AllDigits(s[..2]) && AllDigits(s[3..5]) && IsIntText(s[6..])
    then Some((DigitsValue(s[..2]), DigitsValue(s[3..5]), IntValue(s[6..])))
    else None
  }

  lemma {:induction false} NatToStringRoundTrip(n: nat)
    ensures DigitsValue(NatToString(n)) == n
  {
    var s := NatToString(n);
    if n >= 10 {
      assert s[..|s| - 1] == NatToString(n / 10);
      NatToStringRoundTrip(n / 10);
    }
  }

  lemma IntToStringRoundTrip(n: int)
    ensures IntValue(IntToString(n)) == n
  {
    var s := IntToString(n);
    if n < 0 {
      assert s[1..] == NatToString(-n);
      NatToStringRoundTrip(-n);
    } else {
      NatToStringRoundTrip(n);
    }
  }

  /**
   * A number below 100, padded to two characters, reads back as itself. Stated
   * as an implication so that FormatDate's body can use it for any day.
   */
  lemma Pad2RoundTrip(n: nat)
    ensures n < 100 ==>
              && |PadStart2(NatToString(n))| == 2
              && AllDigits(PadStart2(NatToString(n)))
              && DigitsValue(PadStart2(NatToString(n))) == n
  {
    var s := NatToString(n);
    NatToStringRoundTrip(n);
    if n < 10 {
      var r := PadStart2(s);
      assert r == ['0', s[0]];
      assert r[..1] == ['0'];
      assert [s[0]][..0] == [];
      assert DigitsValue(['0']) == 0;
      assert DigitsValue(s) == DigitValue(s[0]);
    }
  }

  /** The length of a stamp, and where its parts stand when day and month are two characters. */
  lemma StampLayout(d: string, m: string, y: string)
    ensures |d + "/" + m + "/" + y| == |d| + |m| + |y| + 2
    ensures |d| == 2 && |m| == 2 ==>
              var r := d + "/" + m + "/" + y;
              r[2] == '/' && r[5] == '/' && r[..2] == d && r[3..5] == m && r[6..] == y
  {
    var r := d + "/" + m + "/" + y;
    assert r == d + (['/'] + (m + (['/'] + y)));
  }

  /** Formatting a calendar date and parsing the stamp gives back the day, the 1-based month and the year. */
  lemma FormatDateRoundTrip(day: nat, month: nat, year: int)
    requires 1 <= day <= 31 && month <= 11
    ensures ParseDate(FormatDate(day, month, year)) == Some((day, month + 1, year))
  {
    var d := PadStart2(NatToString(day));
    var m := PadStart2(NatToString(month + 1));
    var y := IntToString(year);
    Pad2RoundTrip(day);
    Pad2RoundTrip(month + 1);
    IntToStringRoundTrip(year);
    StampLayout(d, m, y);
  }
}
