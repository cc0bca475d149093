/** contributor/month.go: months as "YYYY-MM" strings, ordered by Go's string order.

    A month has an index, counted from January of year 0. An instant is a month index and an
    offset into that month, which is all the ledger asks of a clock. */
module Months {
  import opened Results
  import opened Lex

  type Month = string

  predicate IsDigit(c: char) {
    '0' <= c <= '9'
  }

  predicate AllDigits(s: string) {
    forall i | 0 <= i < |s| :: IsDigit(s[i])
  }

  function Decimal(s: string): nat
    requires AllDigits(s)
  {
    if s == [] then 0 else 10 * Decimal(s[..|s| - 1]) + (s[|s| - 1] as int - '0' as int)
  }

  // The decimal digits of n, zero-padded to at least `width` of them.
  function Pad(n: nat, width: nat): string
    decreases n + width
  {
    if n == 0 && width == 0 then ""
    else Pad(n / 10, if width == 0 then 0 else width - 1) + ['0' + (n % 10) as char]
  }

  // Formats a year and a month, as time.Time.Format does with "2006-01".
  function Print(year: int, month: nat): Month {
    (if year < 0 then "-" + Pad(-year, 4) else Pad(year, 4)) + "-" + Pad(month, 2)
  }

  function FromIndex(i: int): Month {
    Print(i / 12, i % 12 + 1)
  }

  // Parses a month, as time.Parse does with "2006-01".
  function Parse(m: Month): Option<int> {
    if |m| != 7 || !AllDigits(m[..4]) || m[4] != '-' || !AllDigits(m[5..]) then None
    else if 1 <= Decimal(m[5..]) <= 12 then Some(12 * Decimal(m[..4]) + Decimal(m[5..]) - 1)
    else None
  }

  // Month.Validate: the month parses, and prints back as itself. The second check never fails
  // (ValidateIsParse), so that a month is valid if it parses.
  predicate Validate(m: Month) {
    Parse(m).Some? && FromIndex(Parse(m).value) == m
  }

  predicate Valid(m: Month) {
    Parse(m).Some?
  }

  // Month.Time panics on an invalid month; so do Add, Next and Prev.
  function Index(m: Month): int
    requires Valid(m)
  {
    Parse(m).value
  }

  function Add(m: Month, n: int): Month
    requires Valid(m)
  {
    FromIndex(Index(m) + n)
  }

  function Next(m: Month): Month
    requires Valid(m)
  {
    Add(m, 1)
  }

  function Prev(m: Month): Month
    requires Valid(m)
  {
    Add(m, -1)
  }

  predicate Before(m: Month, o: Month) {
    Less(m, o)
  }

  // The months of years 0000 to 9999.
  const MONTH_COUNT := 120000

  datatype Instant = Instant(month: int, offset: nat)

  // time.Time.Before on the first instant of the month with index i.
  predicate BeforeMonth(t: Instant, i: int) {
    t.month < i
  }

  lemma {:induction false} PadShape(n: nat, width: nat)
    ensures AllDigits(Pad(n, width)) && Decimal(Pad(n, width)) == n
    ensures |Pad(n, width)| >= width
    decreases n + width
  {
    if n != 0 || width != 0 {
      var rest := Pad(n / 10, if width == 0 then 0 else width - 1);
      PadShape(n / 10, if width == 0 then 0 else width - 1);
      assert Pad(n, width)[..|Pad(n, width)| - 1] == rest;
    }
  }

  function Power10(k: nat): nat {
    if k == 0 then 1 else 10 * Power10(k - 1)
  }

  // Padding is exact for numbers that fit, and only for them.
  lemma {:induction false} PadWidth(n: nat, width: nat)
    ensures |Pad(n, width)| == width <==> n < Power10(width)
    decreases n + width
  {
    if n != 0 || width != 0 {
      PadWidth(n / 10, if width == 0 then 0 else width - 1);
    }
  }

  lemma {:induction false} DecimalBound(s: string)
    requires AllDigits(s)
    ensures Decimal(s) < Power10(|s|)
  {
    if s != [] {
      DecimalBound(s[..|s| - 1]);
    }
  }

  lemma {:induction false} PadDecimal(s: string)
    requires AllDigits(s)
    ensures Pad(Decimal(s), |s|) == s
  {
    if s != [] {
      var d := s[|s| - 1] as int - '0' as int;
      PadDecimal(s[..|s| - 1]);
      assert Decimal(s) / 10 == Decimal(s[..|s| - 1]) && Decimal(s) % 10 == d;
      assert s == s[..|s| - 1] + [s[|s| - 1]];
    }
  }

  // Among digit strings of one length, string order is numeric order.
  lemma {:induction false} LessIsNumeric(a: string, b: string)
    requires |a| == |b| && AllDigits(a) && AllDigits(b)
    ensures Less(a, b) <==> Decimal(a) < Decimal(b)
    ensures Decimal(a) == Decimal(b) ==> a == b
  {
    if a != [] {
      var n := |a| - 1;
      LessIsNumeric(a[..n], b[..n]);
      LessByBlocks(a[..n], b[..n], [a[n]], [b[n]]);
      LessTrichotomy(a[..n], b[..n]);
      assert a == a[..n] + [a[n]] && b == b[..n] + [b[n]];
      assert Less([a[n]], [b[n]]) <==> a[n] < b[n];
    }
  }

  lemma {:induction false} ParseParts(y: string, m: string)
    requires |y| == 4 && |m| == 2 && AllDigits(y) && AllDigits(m) && 1 <= Decimal(m) <= 12
    ensures Parse(y + "-" + m) == Some(12 * Decimal(y) + Decimal(m) - 1)
  {
    var s := y + "-" + m;
    assert s[..4] == y && s[5..] == m && s[4] == '-';
  }

  lemma ParsePrint(year: int, month: nat)
    requires 1 <= month <= 12
    ensures Parse(Print(year, month)) == if 0 <= year < 10000 then Some(12 * year + month - 1) else None
  {
    PadShape(month, 2);
    PadWidth(month, 2);
    assert Power10(2) == 100 && Power10(4) == 10000;
    if year < 0 {
      PadShape(-year, 4);
    } else {
      PadShape(year, 4);
      PadWidth(year, 4);
      PrintedParses(Pad(year, 4), Pad(month, 2));
    }
  }

  lemma {:induction false} PrintedParses(y: string, m: string)
    requires |m| == 2 && AllDigits(y) && AllDigits(m) && 1 <= Decimal(m) <= 12
    ensures Parse(y + "-" + m) == if |y| == 4 then Some(12 * Decimal(y) + Decimal(m) - 1) else None
  {
    if |y| == 4 {
      ParseParts(y, m);
    }
  }

  // Parsing undoes printing exactly for the months of years 0000 to 9999; the months around
  // them print as strings that do not parse.
  lemma ParseFromIndex(i: int)
    ensures Parse(FromIndex(i)) == if 0 <= i < MONTH_COUNT then Some(i) else None
  {
    ParsePrint(i / 12, i % 12 + 1);
  }

  lemma PrintParsed(m: Month)
    requires Parse(m).Some?
    ensures Print(Decimal(m[..4]), Decimal(m[5..])) == m && Decimal(m[..4]) < 10000
  {
    PadDecimal(m[..4]);
    PadDecimal(m[5..]);
    DecimalBound(m[..4]);
    assert Power10(4) == 10000;
    assert m == m[..4] + "-" + m[5..];
  }

  // Printing undoes parsing: Validate's second check never fails.
  lemma ValidateIsParse(m: Month)
    ensures Validate(m) <==> Valid(m)
    ensures Valid(m) ==> FromIndex(Index(m)) == m && 0 <= Index(m) < MONTH_COUNT
  {
    if Parse(m).Some? {
      PrintParsed(m);
      DivideMonths(Index(m), Decimal(m[..4]), Decimal(m[5..]));
    }
  }

  lemma DivideMonths(i: int, year: int, month: int)
    requires i == 12 * year + month - 1 && 1 <= month <= 12
    ensures i / 12 == year && i % 12 + 1 == month
  {
  }

  // On valid months string order is chronological order.
  lemma BeforeIsChronological(m: Month, o: Month)
    requires Valid(m) && Valid(o)
    ensures Before(m, o) <==> Index(m) < Index(o)
    ensures m == o <==> Index(m) == Index(o)
  {
    LessIsNumeric(m[..4], o[..4]);
    LessIsNumeric(m[5..], o[5..]);
    LessByBlocks(m[..4], o[..4], "-" + m[5..], "-" + o[5..]);
    LessByBlocks("-", "-", m[5..], o[5..]);
    assert m == m[..4] + ("-" + m[5..]) && o == o[..4] + ("-" + o[5..]);
  }

  lemma DivideByTen(n: nat, d: nat, p: nat)
    requires d * (10 * p) <= n < (d + 1) * (10 * p)
    ensures d * p <= n / 10 < (d + 1) * p
  {
    assert d * (10 * p) == 10 * (d * p) && (d + 1) * (10 * p) == 10 * ((d + 1) * p);
  }

  lemma {:induction false} LeadingDigit(n: nat, width: nat, d: nat, k: nat)
    requires 1 <= d <= 9 && d * Power10(k) <= n < (d + 1) * Power10(k) && width <= k + 1
    ensures |Pad(n, width)| == k + 1 && Pad(n, width)[0] == '0' + d as char
  {
    if k == 0 {
      assert Power10(0) == 1 && n == d;
      assert Pad(n / 10, 0) == "";
    } else {
      DivideByTen(n, d, Power10(k - 1));
      LeadingDigit(n / 10, if width == 0 then 0 else width - 1, d, k - 1);
    }
  }

  // Past year 9999 the order breaks: every month of years 10000 to 19999 prints as a string
  // below every month of years 2000 to 9999.
  lemma YearTenThousandSortsFirst(i: int, late: int)
    requires 12 * 2000 <= i < MONTH_COUNT <= late < 12 * 20000
    ensures Before(FromIndex(late), FromIndex(i))
  {
    assert Power10(3) == 1000 && Power10(4) == 10000;
    LeadingDigit(late / 12, 4, 1, 4);
    LeadingDigit(i / 12, 4, i / 12 / 1000, 3);
    assert FromIndex(late)[0] == '1' && FromIndex(i)[0] == '0' + (i / 12 / 1000) as char;
  }

  // Months look like this one.
  lemma MonthLooksLike()
    ensures Parse("2024-05") == Some(12 * 2024 + 4) && FromIndex(12 * 2024 + 4) == "2024-05"
  {
    var m := "2024-05";
    assert m[..4] == "2024" && m[5..] == "05" && m[4] == '-';
    YearAndMonth();
    ValidateIsParse(m);
  }

  lemma YearAndMonth()
    ensures AllDigits("2024") && Decimal("2024") == 2024 && AllDigits("05") && Decimal("05") == 5
  {
    assert "2024"[..3] == "202" && "202"[..2] == "20" && "20"[..1] == "2" && "2"[..0] == "";
    assert "05"[..1] == "0" && "0"[..0] == "";
    assert Decimal("2") == 2 && Decimal("20") == 20 && Decimal("202") == 202;
  }

  lemma AddToIndex(i: int, n: int)
    requires 0 <= i < MONTH_COUNT
    ensures Valid(FromIndex(i)) && Add(FromIndex(i), n) == FromIndex(i + n)
  {
    ParseFromIndex(i);
  }

  // Add is addition on the month index, for as long as it stays within years 0000 to 9999,
  // and can then be undone.
  lemma AddIsAddition(m: Month, n: int)
    requires Valid(m)
    ensures Valid(Add(m, n)) <==> 0 <= Index(m) + n < MONTH_COUNT
    ensures Valid(Add(m, n)) ==> Index(Add(m, n)) == Index(m) + n && Add(Add(m, n), -n) == m
  {
    AddAtIndex(m, Index(m), n);
  }

  lemma AddAtIndex(m: Month, i: int, n: int)
    requires Valid(m) && i == Index(m)
    ensures Parse(FromIndex(i + n)) == if 0 <= i + n < MONTH_COUNT then Some(i + n) else None
    ensures FromIndex(i + n + -n) == m
  {
    ParseFromIndex(i + n);
    ValidateIsParse(m);
    assert i + n + -n == i;
  }

  lemma NextAndPrevCancel(m: Month)
    requires Valid(m)
    ensures Valid(Next(m)) ==> Prev(Next(m)) == m
    ensures Valid(Prev(m)) ==> Next(Prev(m)) == m
  {
    AddIsAddition(m, 1);
    AddIsAddition(m, -1);
  }
}
