/**
 * The `YYYY-MM-DD` key that names a day's remote document and a day's local
 * backup file. The source writes the expression out four times, each time as
 * `${getFullYear()}-${(getMonth() + 1).toString().padStart(2, '0')}-${getDate().toString().padStart(2, '0')}`;
 * here it is one function, `DateKey`.
 */
module DateKeys {
  import opened Events

  /** A local-clock calendar date as JavaScript's `Date` getters report it: month is 0-based. */
  datatype CalendarDate = CalendarDate(year: int, month0: int, day: int)

  /** What `getMonth()` and `getDate()` can return. */
  predicate ValidDate(d: CalendarDate) {
    0 <= d.month0 < 12 && 1 <= d.day <= 31
  }

  predicate IsDigit(c: char) {
    '0' <= c <= '9'
  }

  /** Every character is a decimal digit. */
  predicate AllDigits(s: string) {
    forall i :: 0 <= i < |s| ==> IsDigit(s[i])
  }

  function DigitChar(n: nat): (c: char)
    requires n < 10
    ensures IsDigit(c)
  {
    "0123456789"[n]
  }

  function DigitValue(c: char): (n: nat)
    requires IsDigit(c)
    ensures n < 10 && DigitChar(n) == c
  {
    (c as int - '0' as int) as nat
  }

  /** `Number.prototype.toString()` of a non-negative integer: its decimal digits, no leading zero. */
  function Decimal(n: nat): (s: string)
    ensures 1 <= |s| && AllDigits(s)
    ensures |s| > 1 ==> s[0] != '0'
    ensures n < 10 <==> |s| == 1
  {
    if n < 10 then [DigitChar(n)] else Decimal(n / 10) + [DigitChar(n % 10)]
  }

  /** `toString()` of any integer: a minus sign in front of a negative one. */
  function IntString(i: int): (s: string)
    ensures 1 <= |s|
  {
    if i < 0 then "-" + Decimal(-i) else Decimal(i)
  }

  /** `padStart(2, '0')`: left-pads with '0' up to length 2 and never truncates. */
  function PadStart2(s: string): (r: string)
    ensures |r| == if |s| < 2 then 2 else |s|
    ensures r[|r| - |s|..] == s
    ensures forall i :: 0 <= i < |r| - |s| ==> r[i] == '0'
  {
    if |s| >= 2 then s else if |s| == 1 then "0" + s else "00"
  }

  /** The document id and file stem of a day. */
  function DateKey(d: CalendarDate): string
    requires ValidDate(d)
  {
    IntString(d.year) + "-" + PadStart2(Decimal(d.month0 + 1)) + "-" + PadStart2(Decimal(d.day))
  }

  /** Reads decimal digits back (the inverse of `Decimal`). */
  function ParseDecimal(s: string): nat
    requires AllDigits(s)
  {
    if s == [] then 0 else ParseDecimal(s[..|s| - 1]) * 10 + DigitValue(s[|s| - 1])
  }

  /** Text that `ParseInt` reads: digits, optionally after one leading minus sign. */
  predicate IsIntText(s: string) {
    1 <= |s| && (s[0] == '-' || IsDigit(s[0])) && AllDigits(s[1..])
  }

  function ParseInt(s: string): int
    requires IsIntText(s)
  {
    if s[0] == '-' then -(ParseDecimal(s[1..]) as int) else ParseDecimal(s)
  }

  /** Reads a key back into the date it names; `None` when the text is not of the key's shape. */
  function ParseDateKey(k: string): Option<CalendarDate> {
    if |k| < 7 then None
    else
      var y, mm, dd := k[..|k| - 6], k[|k| - 5..|k| - 3], k[|k| - 2..];
      if k[|k| - 6] == '-' && k[|k| - 3] == '-' && IsIntText(y)
         && AllDigits(mm) && AllDigits(dd)
      then Some(CalendarDate(ParseInt(y), ParseDecimal(mm) - 1, ParseDecimal(dd)))
      else None
  }

  lemma {:induction false} ParseDecimalOfDecimal(n: nat)
    ensures ParseDecimal(Decimal(n)) == n
  {
    var s := Decimal(n);
    if n >= 10 {
      assert s[..|s| - 1] == Decimal(n / 10);
      ParseDecimalOfDecimal(n / 10);
    }
  }

  lemma ParseIntOfIntString(i: int)
    ensures ParseInt(IntString(i)) == i
  {
    ParseDecimalOfDecimal(if i < 0 then -i else i);
    if i < 0 {
      assert IntString(i)[1..] == Decimal(-i);
    }
  }

  /** A month or day number below 100 pads to exactly two digits that read back to it. */
  lemma TwoDigits(n: nat)
    requires 1 <= n < 100
    ensures |PadStart2(Decimal(n))| == 2
    ensures AllDigits(PadStart2(Decimal(n)))
    ensures ParseDecimal(PadStart2(Decimal(n))) == n
  {
    var p := PadStart2(Decimal(n));
    ParseDecimalOfDecimal(n);
    if n < 10 {
      assert p == ['0', DigitChar(n)];
      assert p[..1] == ['0'];
    } else {
      assert Decimal(n) == Decimal(n / 10) + [DigitChar(n % 10)];
      assert p == Decimal(n);
    }
  }

  /** `IntString` produces text that `ParseInt` accepts. */
  lemma IntStringShape(i: int)
    ensures IsIntText(IntString(i))
  {
    var y := IntString(i);
    if i < 0 {
      forall j | 1 <= j < |y| ensures IsDigit(y[j]) {
        assert y[j] == Decimal(-i)[j - 1];
      }
    }
  }

  /** Where the three fields and the two dashes sit in a key. */
  lemma KeySlices(y: string, mm: string, dd: string)
    requires |mm| == 2 && |dd| == 2
    ensures var k := y + "-" + mm + "-" + dd;
      |k| == |y| + 6 && k[|k| - 6] == '-' && k[|k| - 3] == '-'
      && k[..|k| - 6] == y && k[|k| - 5..|k| - 3] == mm && k[|k| - 2..] == dd
  {
    var tail := "-" + mm + "-" + dd;
    var k := y + tail;
    assert k == y + "-" + mm + "-" + dd;
    assert tail[1..3] == mm && tail[4..] == dd;
    assert k[..|y|] == y;
    assert k[|y|..] == tail;
  }

  /** Any text of the key's shape parses into its three fields. */
  lemma ParseKeyParts(y: string, mm: string, dd: string)
    requires IsIntText(y)
    requires |mm| == 2 && AllDigits(mm)
    requires |dd| == 2 && AllDigits(dd)
    ensures ParseDateKey(y + "-" + mm + "-" + dd)
         == Some(CalendarDate(ParseInt(y), ParseDecimal(mm) - 1, ParseDecimal(dd)))
  {
    var k := y + "-" + mm + "-" + dd;
    KeySlices(y, mm, dd);
    assert |k| == |y| + 6;
    assert k[|k| - 6] == '-' && k[|k| - 3] == '-';
    assert k[..|k| - 6] == y && IsIntText(k[..|k| - 6]);
    assert k[|k| - 5..|k| - 3] == mm && AllDigits(k[|k| - 5..|k| - 3]);
    assert k[|k| - 2..] == dd && AllDigits(k[|k| - 2..]);
  }

  /** The key names its date unambiguously: parsing it gives the date back. */
  lemma DateKeyRoundTrip(d: CalendarDate)
    requires ValidDate(d)
    ensures ParseDateKey(DateKey(d)) == Some(d)
  {
    var y := IntString(d.year);
    var mm := PadStart2(Decimal(d.month0 + 1));
    var dd := PadStart2(Decimal(d.day));
    var k := y + "-" + mm + "-" + dd;
    assert DateKey(d) == k;
    TwoDigits(d.month0 + 1);
    TwoDigits(d.day);
    IntStringShape(d.year);
    ParseIntOfIntString(d.year);
    ParseKeyParts(y, mm, dd);
    assert CalendarDate(ParseInt(y), ParseDecimal(mm) - 1, ParseDecimal(dd)) == d;
  }

  /** Different days never share a document or a file. */
  lemma DateKeyInjective(d1: CalendarDate, d2: CalendarDate)
    requires ValidDate(d1) && ValidDate(d2)
    requires DateKey(d1) == DateKey(d2)
    ensures d1 == d2
  {
    DateKeyRoundTrip(d1);
    DateKeyRoundTrip(d2);
  }

  lemma FourDigitDecimal(n: nat)
    requires 1000 <= n <= 9999
    ensures |Decimal(n)| == 4
  {
    assert 100 <= n / 10 <= 999;
    assert 10 <= n / 100 <= 99 by { assert n / 100 == (n / 10) / 10; }
    assert 1 <= n / 1000 <= 9 by { assert n / 1000 == (n / 100) / 10; }
    calc {
      |Decimal(n)|;
      |Decimal(n / 10)| + 1;
      { assert (n / 10) / 10 == n / 100; }
      |Decimal(n / 100)| + 2;
      { assert (n / 100) / 10 == n / 1000; }
      |Decimal(n / 1000)| + 3;
      4;
    }
  }

  lemma KeyShapeParts(y: string, mm: string, dd: string)
    requires |y| == 4 && |mm| == 2 && |dd| == 2
    ensures var k := y + "-" + mm + "-" + dd;
      |k| == 10 && k[4] == '-' && k[7] == '-' && k[..4] == y && k[5..7] == mm && k[8..] == dd
  {
  }

  /** A four-digit year gives a ten-character key: four digits, a dash, two digits, a dash, two digits. */
  lemma DateKeyShape(d: CalendarDate)
    requires ValidDate(d) && 1000 <= d.year <= 9999
    ensures var k := DateKey(d);
      |k| == 10 && k[4] == '-' && k[7] == '-'
      && AllDigits(k[..4]) && AllDigits(k[5..7]) && AllDigits(k[8..])
  {
    var y := IntString(d.year);
    var mm := PadStart2(Decimal(d.month0 + 1));
    var dd := PadStart2(Decimal(d.day));
    assert DateKey(d) == y + "-" + mm + "-" + dd;
    FourDigitDecimal(d.year);
    TwoDigits(d.month0 + 1);
    TwoDigits(d.day);
    KeyShapeParts(y, mm, dd);
  }

  /** Example: 1 January 2024 (month index 0) is keyed "2024-01-01". */
  lemma NewYear2024Key()
    ensures DateKey(CalendarDate(2024, 0, 1)) == "2024-01-01"
  {
    assert Decimal(2) == "2";
    assert Decimal(20) == "20";
    assert Decimal(202) == "202";
    assert Decimal(2024) == "2024";
    assert Decimal(1) == "1";
    assert DateKey(CalendarDate(2024, 0, 1)) == IntString(2024) + "-" + PadStart2(Decimal(1)) + "-" + PadStart2(Decimal(1));
  }
}
