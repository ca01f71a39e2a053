/**
  The text forms of dates the pages exchange: "YYYY-MM" from the month
  picker and the ISO date key "YYYY-MM-DD" that `toISOString().split('T')[0]`
  yields and the holiday table is keyed by.
*/
module IsoText {
  import opened CivilTime
  import opened Results

  function DigitChar(n: int): (ch: char)
    requires 0 <= n <= 9
    ensures '0' <= ch <= '9'
  {
    (n + '0' as int) as char
  }

  function DigitValue(ch: char): Option<int> {
    if '0' <= ch <= '9' then Some(ch as int - '0' as int) else None
  }

  /** Two digits, zero-padded. */
  function Pad2(n: int): (s: string)
    requires 0 <= n < 100
    ensures |s| == 2
  {
    [DigitChar(n / 10), DigitChar(n % 10)]
  }

  /** Four digits, zero-padded. */
  function Pad4(n: int): (s: string)
    requires 0 <= n < 10000
    ensures |s| == 4
  {
    Pad2(n / 100) + Pad2(n % 100)
  }

  function Parse2(s: string): Option<int>
    requires |s| == 2
  {
    match (DigitValue(s[0]), DigitValue(s[1]))
    case (Some(a), Some(b)) => Some(10 * a + b)
    case _ => None
  }

  function Parse4(s: string): Option<int>
    requires |s| == 4
  {
    match (Parse2(s[..2]), Parse2(s[2..]))
    case (Some(a), Some(b)) => Some(100 * a + b)
    case _ => None
  }

  /** "YYYY-MM", the value of a month picker. */
  function YearMonthText(y: int, m: int): (s: string)
    requires 0 <= y < 10000 && 1 <= m <= 12
    ensures |s| == 7
  {
    Pad4(y) + "-" + Pad2(m)
  }

  /** The ISO date key "YYYY-MM-DD" of a date. */
  function IsoDate(c: Civil): (s: string)
    requires Valid(c) && c.year < 10000
    ensures |s| == 10
  {
    YearMonthText(c.year, c.month) + "-" + Pad2(c.day)
  }

  /** "HH:MM", 24-hour and zero-padded; minute 1440 is written "24:00". */
  function TimeText(m: Minute): (s: string)
    ensures |s| == 5 && s[2] == ':'
  {
    Pad2(m / 60) + ":" + Pad2(m % 60)
  }

  /** Reads the "YYYY-MM" head of an ISO date key: a year from 1 and a month 01..12. */
  function ParseYearMonth(s: string): Option<(int, int)> {
    if |s| != 7 || s[4] != '-' then None
    else
      match (Parse4(s[..4]), Parse2(s[5..]))
      case (Some(y), Some(m)) => if 1 <= y && 1 <= m <= 12 then Some((y, m)) else None
      case _ => None
  }

  /** Reads an ISO date key of a date that exists. */
  function ParseIsoDate(s: string): Option<Civil> {
    if |s| != 10 || s[7] != '-' then None
    else
      match (ParseYearMonth(s[..7]), Parse2(s[8..]))
      case (Some((y, m)), Some(d)) =>
        if Valid(Civil(y, m, d)) then Some(Civil(y, m, d)) else None
      case _ => None
  }

  lemma DigitRoundTrip(n: int, ch: char)
    ensures 0 <= n <= 9 ==> DigitValue(DigitChar(n)) == Some(n)
    ensures DigitValue(ch).Some? ==> 0 <= DigitValue(ch).value <= 9 && DigitChar(DigitValue(ch).value) == ch
  {
  }

  lemma Pad2RoundTrip(n: int)
    requires 0 <= n < 100
    ensures Parse2(Pad2(n)) == Some(n)
  {
    DigitRoundTrip(n / 10, '0');
    DigitRoundTrip(n % 10, '0');
  }

  lemma Parse2Canonical(s: string)
    requires |s| == 2 && Parse2(s).Some?
    ensures 0 <= Parse2(s).value < 100 && Pad2(Parse2(s).value) == s
  {
    DigitRoundTrip(0, s[0]);
    DigitRoundTrip(0, s[1]);
  }

  lemma Pad4RoundTrip(n: int)
    requires 0 <= n < 10000
    ensures Parse4(Pad4(n)) == Some(n)
  {
    var s := Pad4(n);
    assert s[..2] == Pad2(n / 100) && s[2..] == Pad2(n % 100);
    Pad2RoundTrip(n / 100);
    Pad2RoundTrip(n % 100);
  }

  lemma Parse4Canonical(s: string)
    requires |s| == 4 && Parse4(s).Some?
    ensures 0 <= Parse4(s).value < 10000 && Pad4(Parse4(s).value) == s
  {
    Parse2Canonical(s[..2]);
    Parse2Canonical(s[2..]);
    var a := Parse2(s[..2]).value;
    var b := Parse2(s[2..]).value;
    assert (100 * a + b) / 100 == a && (100 * a + b) % 100 == b;
    assert s == s[..2] + s[2..];
  }

  /** A "YYYY-MM" head and the (year, month) pair determine each other. */
  lemma YearMonthRoundTrip(y: int, m: int, s: string)
    ensures 1 <= y < 10000 && 1 <= m <= 12 ==> ParseYearMonth(YearMonthText(y, m)) == Some((y, m))
    ensures ParseYearMonth(s).Some? ==>
      var (y', m') := ParseYearMonth(s).value;
      1 <= y' < 10000 && 1 <= m' <= 12 && YearMonthText(y', m') == s
  {
    if 1 <= y < 10000 && 1 <= m <= 12 {
      var t := YearMonthText(y, m);
      assert t[..4] == Pad4(y) && t[5..] == Pad2(m) && t[4] == '-';
      Pad4RoundTrip(y);
      Pad2RoundTrip(m);
    }
    if ParseYearMonth(s).Some? {
      Parse4Canonical(s[..4]);
      Parse2Canonical(s[5..]);
      assert s == s[..4] + "-" + s[5..];
    }
  }

  /** The ISO key of a date reads back as that date, so distinct dates have distinct keys. */
  lemma IsoDateRoundTrip(c: Civil)
    requires Valid(c) && c.year < 10000
    ensures ParseIsoDate(IsoDate(c)) == Some(c)
  {
    var s := IsoDate(c);
    assert s[..7] == YearMonthText(c.year, c.month) && s[8..] == Pad2(c.day) && s[7] == '-';
    YearMonthRoundTrip(c.year, c.month, "");
    Pad2RoundTrip(c.day);
  }

  lemma IsoDateInjective(a: Civil, b: Civil)
    requires Valid(a) && a.year < 10000 && Valid(b) && b.year < 10000
    ensures IsoDate(a) == IsoDate(b) <==> a == b
  {
    IsoDateRoundTrip(a);
    IsoDateRoundTrip(b);
  }

  /** Distinct times of day have distinct texts, so comparing the texts compares the times. */
  lemma TimeTextInjective(a: Minute, b: Minute)
    ensures TimeText(a) == TimeText(b) <==> a == b
  {
    if TimeText(a) == TimeText(b) {
      var s, t := TimeText(a), TimeText(b);
      assert s[..2] == Pad2(a / 60) && t[..2] == Pad2(b / 60);
      assert s[3..] == Pad2(a % 60) && t[3..] == Pad2(b % 60);
      Pad2RoundTrip(a / 60);
      Pad2RoundTrip(b / 60);
      Pad2RoundTrip(a % 60);
      Pad2RoundTrip(b % 60);
    }
  }
}
