/** The per-day key of the calendar grid,
    `${year}-${String(month + 1).padStart(2, '0')}-${String(day).padStart(2, '0')}`,
    and a parser that recovers the date from it. */
module DateKeys {

  import opened Seqs

  function DigitChar(d: int): (c: char)
    requires 0 <= d < 10
    ensures '0' <= c <= '9'
  {
    (48 + d) as char
  }

  function DigitValue(c: char): (d: int)
    requires '0' <= c <= '9'
    ensures 0 <= d < 10
  {
    c as int - 48
  }

  predicate IsDigits(s: string)
  {
    forall i :: 0 <= i < |s| ==> '0' <= s[i] <= '9'
  }

  /** `String(n)` for a non-negative integer: decimal digits, no leading zero. */
  function DecimalString(n: nat): (s: string)
    ensures |s| >= 1 && IsDigits(s)
    ensures |s| == 1 <==> n < 10
    decreases n
  {
    if n < 10 then [DigitChar(n)] else DecimalString(n / 10) + [DigitChar(n % 10)]
  }

  /** Value of a string of decimal digits. */
  function ParseDigits(s: string): (n: nat)
    requires IsDigits(s)
  {
    if s == [] then 0 else ParseDigits(s[..|s| - 1]) * 10 + DigitValue(s[|s| - 1])
  }

  /** How `String(y)` writes an integer: an optional minus sign, then digits
      with no leading zero, except for `0` itself. */
  predicate CanonicalYear(s: string)
  {
    if |s| >= 1 && s[0] == '-' then |s| >= 2 && s[1] != '0'
    else |s| >= 1 && (s[0] != '0' || |s| == 1)
  }

  /** `String(y)` for any integer year. */
  function YearString(y: int): (s: string)
    ensures |s| >= 1
  {
    if y < 0 then "-" + DecimalString(-y) else DecimalString(y)
  }

  /** `s.padStart(width, c)`. */
  function PadStart(s: string, width: nat, c: char): (r: string)
    ensures |r| == if |s| >= width then |s| else width
    ensures r[|r| - |s|..] == s
    ensures forall i :: 0 <= i < |r| - |s| ==> r[i] == c
  {
    if |s| >= width then s else seq(width - |s|, _ => c) + s
  }

  function TwoDigits(n: nat): string
  {
    PadStart(DecimalString(n), 2, '0')
  }

  /** `key` spells the date (`year`, `month` with 0 = January, `day`): it
      reads back as that date, and its year is written as `String(year)`
      writes it, without leading zeros. */
  ghost predicate SpellsDate(key: string, year: int, month: int, day: int)
  {
    ParseKey(key) == Some((year, month, day)) && |key| >= 7 && CanonicalYear(key[..|key| - 6])
  }

  /** Key of day `day` of month `month` (0 = January) of `year`. */
  function DateKey(year: int, month: int, day: int): (key: string)
    requires 0 <= month < 12 && 1 <= day <= 31
    ensures ParseKey(key) == Some((year, month, day))
  {
    TwoDigitsRoundTrip(month + 1);
    TwoDigitsRoundTrip(day);
    YearRoundTrip(year);
    ParseKeyOfParts(YearString(year), TwoDigits(month + 1), TwoDigits(day));
    YearString(year) + "-" + TwoDigits(month + 1) + "-" + TwoDigits(day)
  }

  /** `String(n)` writes no leading zero: only 0 itself starts with `0`. */
  lemma {:induction false} DecimalNoLeadingZero(n: nat)
    ensures DecimalString(n)[0] == '0' ==> n == 0
    decreases n
  {
    if n >= 10 {
      DecimalNoLeadingZero(n / 10);
    }
  }

  /** `String(y)` writes no leading zero. */
  lemma YearStringCanonical(y: int)
    ensures CanonicalYear(YearString(y))
  {
    if y < 0 {
      DecimalNoLeadingZero(-y);
    } else {
      DecimalNoLeadingZero(y);
    }
  }

  lemma KeyYearPart(ys: string, mm: string, dd: string)
    requires |mm| == 2 && |dd| == 2
    ensures var key := ys + "-" + mm + "-" + dd; |key| >= 6 && key[..|key| - 6] == ys
  {
    Regroup(ys, mm, dd);
    var key := ys + ("-" + mm + "-" + dd);
    assert key[..|key| - 6] == ys;
  }

  function ParseYear(s: string): Option<int>
  {
    if |s| >= 2 && s[0] == '-' && IsDigits(s[1..]) then Some(-(ParseDigits(s[1..]) as int))
    else if |s| >= 1 && IsDigits(s) then Some(ParseDigits(s))
    else None
  }

  /** Reads a key back as (year, month with 0 = January, day): the last six
      characters are `-MM-DD`, everything before them is the year. */
  function ParseKey(key: string): Option<(int, int, int)>
  {
    if |key| < 7 then None else ParseParts(key[..|key| - 6], key[|key| - 6..])
  }

  function ParseParts(ys: string, tail: string): Option<(int, int, int)>
    requires |tail| == 6
  {
    match ParseYear(ys)
    case None => None
    case Some(y) =>
      match ParseMonthDay(tail)
      case None => None
      case Some(md) => Some((y, md.0, md.1))
  }

  /** Reads `-MM-DD` as (month with 0 = January, day). */
  function ParseMonthDay(tail: string): Option<(int, int)>
    requires |tail| == 6
  {
    var mm, dd := tail[1..3], tail[4..];
    if tail[0] != '-' || tail[3] != '-' || !IsDigits(mm) || !IsDigits(dd) then None
    else Some((ParseDigits(mm) - 1, ParseDigits(dd)))
  }

  lemma {:induction false} DecimalRoundTrip(n: nat)
    ensures ParseDigits(DecimalString(n)) == n
    decreases n
  {
    if n >= 10 {
      var s := DecimalString(n);
      DecimalRoundTrip(n / 10);
      assert s[..|s| - 1] == DecimalString(n / 10);
    }
  }

  /** Numbers 1..99 are written with exactly two digits, and read back. */
  lemma TwoDigitsRoundTrip(n: nat)
    requires 1 <= n <= 99
    ensures |TwoDigits(n)| == 2 && IsDigits(TwoDigits(n))
    ensures ParseDigits(TwoDigits(n)) == n
  {
    var s := DecimalString(n);
    DecimalRoundTrip(n);
    if n < 10 {
      assert TwoDigits(n) == ['0'] + s;
      assert TwoDigits(n)[..1] == ['0'];
      assert ParseDigits(['0']) == 0 by {
        assert ['0'][..0] == [];
      }
    } else {
      assert n / 10 >= 1;
      assert |s| >= 2;
      assert |s| == 2 by {
        assert |DecimalString(n / 10)| == 1;
      }
    }
  }

  lemma YearRoundTrip(y: int)
    ensures ParseYear(YearString(y)) == Some(y)
  {
    var s := YearString(y);
    if y < 0 {
      var digits := DecimalString(-y);
      DecimalRoundTrip(-y);
      assert s == "-" + digits;
      assert s[1..] == digits;
      assert |s| >= 2 && s[0] == '-';
    } else {
      DecimalRoundTrip(y);
      assert s[0] != '-' by {
        assert IsDigits(s);
        assert '0' <= s[0] <= '9';
      }
    }
  }

  lemma ParseKeyOfParts(ys: string, mm: string, dd: string)
    requires |mm| == 2 && |dd| == 2 && IsDigits(mm) && IsDigits(dd)
    requires ParseYear(ys).Some?
    ensures ParseKey(ys + "-" + mm + "-" + dd) == Some((ParseYear(ys).value, ParseDigits(mm) - 1, ParseDigits(dd)))
  {
    var tail := "-" + mm + "-" + dd;
    Regroup(ys, mm, dd);
    ParseTail(mm, dd);
    ParseKeySplit(ys, tail);
  }

  lemma Regroup(ys: string, mm: string, dd: string)
    ensures ys + "-" + mm + "-" + dd == ys + ("-" + mm + "-" + dd)
  {
  }

  lemma ParseKeySplit(ys: string, tail: string)
    requires |tail| == 6 && |ys| >= 1
    ensures ParseKey(ys + tail) == ParseParts(ys, tail)
  {
    var key := ys + tail;
    assert key[..|key| - 6] == ys && key[|key| - 6..] == tail;
  }

  lemma ParseTail(mm: string, dd: string)
    requires |mm| == 2 && |dd| == 2 && IsDigits(mm) && IsDigits(dd)
    ensures ParseMonthDay("-" + mm + "-" + dd) == Some((ParseDigits(mm) - 1, ParseDigits(dd)))
  {
    var tail := "-" + mm + "-" + dd;
    assert |tail| == 6 && tail[1..3] == mm && tail[4..] == dd;
  }

  lemma {:induction false} LeadingDigitBound(s: string)
    requires |s| >= 1 && IsDigits(s)
    ensures ParseDigits(s) >= DigitValue(s[0])
    decreases |s|
  {
    if |s| > 1 {
      var init := s[..|s| - 1];
      assert init[0] == s[0];
      LeadingDigitBound(init);
    } else {
      assert s[..0] == [];
    }
  }

  /** A digit string with no leading zero is how `String` writes its value. */
  lemma {:induction false} CanonicalDigits(s: string)
    requires |s| >= 1 && IsDigits(s) && (s[0] != '0' || |s| == 1)
    ensures DecimalString(ParseDigits(s)) == s
    decreases |s|
  {
    var n := ParseDigits(s);
    var init := s[..|s| - 1];
    if |s| == 1 {
      assert init == [] && ParseDigits(init) == 0;
      assert n == DigitValue(s[0]);
      assert DecimalString(n) == [DigitChar(n)];
    } else {
      assert init[0] == s[0];
      LeadingDigitBound(init);
      CanonicalDigits(init);
      assert n / 10 == ParseDigits(init) && n % 10 == DigitValue(s[|s| - 1]);
      assert s == init + [s[|s| - 1]];
    }
  }

  /** A two-digit string is `padStart` of its value. */
  lemma TwoDigitsUnique(s: string)
    requires |s| == 2 && IsDigits(s)
    ensures TwoDigits(ParseDigits(s)) == s
  {
    if s[0] == '0' {
      PaddedDigit(s);
    } else {
      CanonicalDigits(s);
      assert PadStart(s, 2, '0') == s;
    }
  }

  /** `0d` is the padding of the single digit `d`. */
  lemma PaddedDigit(s: string)
    requires |s| == 2 && IsDigits(s) && s[0] == '0'
    ensures TwoDigits(ParseDigits(s)) == s
  {
    TwoDigitValue(s);
    PadDigit(s[1]);
    assert s == ['0', s[1]];
  }

  lemma PadDigit(c: char)
    requires '0' <= c <= '9'
    ensures TwoDigits(DigitValue(c)) == ['0', c]
  {
    var d := DecimalString(DigitValue(c));
    assert d == [c];
    var r := PadStart(d, 2, '0');
    assert |r| == 2 && r[1..] == d && r[0] == '0';
    assert r[1] == c;
  }

  lemma TwoDigitValue(s: string)
    requires |s| == 2 && IsDigits(s)
    ensures ParseDigits(s) == 10 * DigitValue(s[0]) + DigitValue(s[1])
  {
    var init := s[..1];
    assert init[..0] == [] && init[0] == s[0];
    assert ParseDigits(init) == DigitValue(s[0]);
  }

  lemma TwoDigitsOf(s: string, n: nat)
    requires |s| == 2 && IsDigits(s) && ParseDigits(s) == n
    ensures s == TwoDigits(n)
  {
    TwoDigitsUnique(s);
  }

  /** A year written without leading zeros is `String` of its value. */
  lemma YearStringUnique(ys: string)
    requires ParseYear(ys).Some? && CanonicalYear(ys)
    ensures YearString(ParseYear(ys).value) == ys
  {
    if |ys| >= 2 && ys[0] == '-' && IsDigits(ys[1..]) {
      CanonicalDigits(ys[1..]);
      LeadingDigitBound(ys[1..]);
      assert ys == "-" + ys[1..];
    } else {
      CanonicalDigits(ys);
    }
  }

  lemma KeyUnique(key: string, year: int, month: int, day: int)
    requires 0 <= month < 12 && 1 <= day <= 31
    requires SpellsDate(key, year, month, day)
    ensures key == DateKey(year, month, day)
  {
    var ys, tail := key[..|key| - 6], key[|key| - 6..];
    assert key == ys + tail;
    assert ParseKey(key) == ParseParts(ys, tail);
    assert ParseYear(ys) == Some(year) && ParseMonthDay(tail) == Some((month, day));
    var mm, dd := TailParts(tail, month, day);
    YearPart(ys, year);
    KeyOfParts(year, month, day, ys + tail);
  }

  lemma KeyOfParts(year: int, month: int, day: int, key: string)
    requires 0 <= month < 12 && 1 <= day <= 31
    requires key == YearString(year) + ("-" + TwoDigits(month + 1) + "-" + TwoDigits(day))
    ensures key == DateKey(year, month, day)
  {
    Regroup(YearString(year), TwoDigits(month + 1), TwoDigits(day));
  }

  lemma YearPart(ys: string, year: int)
    requires ParseYear(ys) == Some(year) && CanonicalYear(ys)
    ensures ys == YearString(year)
  {
    YearStringUnique(ys);
  }

  lemma TailParts(tail: string, month: int, day: int) returns (mm: string, dd: string)
    requires |tail| == 6 && ParseMonthDay(tail) == Some((month, day))
    ensures mm == TwoDigits(month + 1) && dd == TwoDigits(day)
    ensures tail == "-" + mm + "-" + dd
  {
    mm, dd := tail[1..3], tail[4..];
    assert tail[0] == '-' && tail[3] == '-' && IsDigits(mm) && IsDigits(dd);
    assert ParseDigits(mm) == month + 1 && ParseDigits(dd) == day;
    TwoDigitsOf(mm, month + 1);
    TwoDigitsOf(dd, day);
    TailShape(tail);
  }

  lemma TailShape(tail: string)
    requires |tail| == 6 && tail[0] == '-' && tail[3] == '-'
    ensures tail == "-" + tail[1..3] + "-" + tail[4..]
  {
    var t := "-" + tail[1..3] + "-" + tail[4..];
    assert |t| == 6;
    assert forall i :: 0 <= i < 6 ==> t[i] == tail[i];
  }

  /** A string spells a date exactly when it is that date's key: `DateKey`
      reads back as its date and writes the year as `String` does, and no
      other spelling of the date does both. */
  lemma KeySpelling(key: string, year: int, month: int, day: int)
    requires 0 <= month < 12 && 1 <= day <= 31
    ensures SpellsDate(key, year, month, day) <==> key == DateKey(year, month, day)
  {
    YearStringCanonical(year);
    KeyYearPart(YearString(year), TwoDigits(month + 1), TwoDigits(day));
    assert SpellsDate(DateKey(year, month, day), year, month, day);
    if SpellsDate(key, year, month, day) {
      KeyUnique(key, year, month, day);
    }
  }

  /** The key of 1 June 2024, the value a date input gives for that day. */
  lemma DateKeyExample()
    ensures DateKey(2024, 5, 1) == "2024-06-01"
  {
  }

  /** Different days of the calendar get different keys. */
  lemma KeyInjective(y1: int, m1: int, d1: int, y2: int, m2: int, d2: int)
    requires 0 <= m1 < 12 && 1 <= d1 <= 31
    requires 0 <= m2 < 12 && 1 <= d2 <= 31
    requires DateKey(y1, m1, d1) == DateKey(y2, m2, d2)
    ensures y1 == y2 && m1 == m2 && d1 == d2
  {
  }
}
