/** FileTailer.parseLine (internal/ingest/file.go): the level and timestamp patterns
    as explicit left-to-right scans, and the line-to-record rule built from them.

    The level pattern is `\[(ERROR|WARN|INFO|DEBUG|FATAL)\]|ERROR|WARN|INFO|DEBUG|FATAL`
    and the timestamp pattern `\d{4}-\d{2}-\d{2}[T ]\d{2}:\d{2}:\d{2}`. Go's regexp
    package picks the leftmost match and, among matches starting there, the first
    alternative; no level name is a prefix of another, so at each position at most
    one bracketed and one bare token can start. */
module ParseLine {
  import opened Results
  import opened Strings
  import opened Models

  /* ---------------------------------------------------------------------------
     Level tokens
     --------------------------------------------------------------------------- */

  /** The level name occurring at position `i`, if any (first in pattern order). */
  function NameAt(s: string, i: nat): (r: Option<string>)
    ensures r.Some? ==> IsLevelName(r.value) && OccursAt(s, r.value, i)
    ensures r.None? ==> forall k :: 0 <= k < |LevelNames| ==> !OccursAt(s, LevelNames[k], i)
  {
    if OccursAt(s, "ERROR", i) then Some("ERROR")
    else if OccursAt(s, "WARN", i) then Some("WARN")
    else if OccursAt(s, "INFO", i) then Some("INFO")
    else if OccursAt(s, "DEBUG", i) then Some("DEBUG")
    else if OccursAt(s, "FATAL", i) then Some("FATAL")
    else None
  }

  /** A text the level pattern can match: a level name, bare or in brackets. */
  predicate IsLevelToken(t: string) {
    IsLevelName(t) || (|t| >= 2 && t[0] == '[' && t[|t| - 1] == ']' && IsLevelName(t[1..|t| - 1]))
  }

  lemma BracketedOccurs(s: string, name: string, i: nat)
    requires i < |s| && s[i] == '[' && OccursAt(s, name, i + 1) && OccursAt(s, "]", i + 1 + |name|)
    ensures OccursAt(s, "[" + name + "]", i)
  {
    var t := "[" + name + "]";
    forall k | 0 <= k < |t|
      ensures s[i..i + |t|][k] == t[k]
    {
      if 0 < k <= |name| {
        assert s[i + 1..i + 1 + |name|][k - 1] == name[k - 1];
      } else if k == |t| - 1 {
        assert s[i + 1 + |name|..i + 1 + |name| + |"]"|] == "]";
        assert s[i + 1 + |name|..i + 1 + |name| + |"]"|][0] == ']';
      }
    }
  }

  /** The level token matched at position `i`: the bracketed form when it is there,
      otherwise a bare name. */
  function LevelTokenAt(s: string, i: nat): (r: Option<string>)
    ensures r.Some? ==> OccursAt(s, r.value, i) && IsLevelToken(r.value)
    ensures r.None? ==> NameAt(s, i).None?
    ensures (i < |s| && s[i] == '[' && NameAt(s, i + 1).Some? && OccursAt(s, "]", i + 1 + |NameAt(s, i + 1).value|))
      ==> r == Some("[" + NameAt(s, i + 1).value + "]")
  {
    if i < |s| && s[i] == '[' && NameAt(s, i + 1).Some?
       && OccursAt(s, "]", i + 1 + |NameAt(s, i + 1).value|) then
      var name := NameAt(s, i + 1).value;
      BracketedOccurs(s, name, i);
      assert ("[" + name + "]")[1..|name| + 1] == name;
      Some("[" + name + "]")
    else
      NameAt(s, i)
  }

  /** The position of the leftmost level token at or after `i`, or |s| when none. */
  function FirstLevelAt(s: string, i: nat): (r: nat)
    requires i <= |s|
    ensures i <= r <= |s|
    ensures forall j :: i <= j < r ==> LevelTokenAt(s, j).None?
    ensures r < |s| ==> LevelTokenAt(s, r).Some?
    decreases |s| - i
  {
    if i == |s| || LevelTokenAt(s, i).Some? then i else FirstLevelAt(s, i + 1)
  }

  /** The regexp's FindString for the level pattern: the leftmost token, if any. */
  function FindLevel(s: string): (r: Option<string>)
    ensures r.None? <==> forall j :: 0 <= j < |s| ==> LevelTokenAt(s, j).None?
    ensures r.Some? ==> IsLevelToken(r.value)
  {
    var j := FirstLevelAt(s, 0);
    if j < |s| then LevelTokenAt(s, j) else None
  }

  /** Every level token removed, scanning left to right without rescanning what is
      left behind (the regexp's ReplaceAllString with ""). */
  function StripLevelsFrom(s: string, i: nat): (r: string)
    requires i <= |s|
    ensures |r| <= |s| - i
    decreases |s| - i
  {
    if i == |s| then []
    else match LevelTokenAt(s, i)
      case Some(tok) => StripLevelsFrom(s, i + |tok|)
      case None => [s[i]] + StripLevelsFrom(s, i + 1)
  }

  /** With no token anywhere, stripping changes nothing. */
  lemma {:induction false} StripLevelsNone(s: string, i: nat)
    requires i <= |s|
    requires forall j :: i <= j < |s| ==> LevelTokenAt(s, j).None?
    ensures StripLevelsFrom(s, i) == s[i..]
    decreases |s| - i
  {
    if i < |s| {
      StripLevelsNone(s, i + 1);
      assert s[i..] == [s[i]] + s[i + 1..];
    }
  }

  predicate Capitals(t: string) {
    forall k :: 0 <= k < |t| ==> 'A' <= t[k] <= 'Z'
  }

  lemma LevelNameCapitals(name: string)
    requires IsLevelName(name)
    ensures |name| > 0 && Capitals(name)
  {
  }

  lemma UpperOfCapitals(t: string)
    requires forall k :: 0 <= k < |t| ==> 'A' <= t[k] <= 'Z' || t[k] == '[' || t[k] == ']'
    ensures ToUpper(t) == t
  {
  }

  /** Trimming brackets off a bracketed run of capitals leaves the capitals. */
  lemma TrimBrackets(name: string)
    requires |name| > 0 && Capitals(name)
    ensures TrimCutset("[" + name + "]", "[]") == name
  {
    var t := "[" + name + "]";
    assert t[1..] == name + "]";
    assert (name + "]")[..|name|] == name;
    assert name[0] !in "[]" && name[|name| - 1] !in "[]";
  }

  /** The level recorded for a matched token, strings.Trim(strings.ToUpper(match), "[]"),
      is the bare level name inside it. */
  lemma TokenLevel(tok: string)
    requires IsLevelToken(tok)
    ensures IsLevelName(tok) ==> TrimCutset(ToUpper(tok), "[]") == tok
    ensures !IsLevelName(tok) ==> TrimCutset(ToUpper(tok), "[]") == tok[1..|tok| - 1]
    ensures IsLevelName(TrimCutset(ToUpper(tok), "[]"))
  {
    if IsLevelName(tok) {
      LevelNameCapitals(tok);
      UpperOfCapitals(tok);
      assert tok[0] !in "[]" && tok[|tok| - 1] !in "[]";
    } else {
      var name := tok[1..|tok| - 1];
      LevelNameCapitals(name);
      assert tok == "[" + name + "]";
      assert forall k :: 0 <= k < |tok| ==> 'A' <= tok[k] <= 'Z' || tok[k] == '[' || tok[k] == ']' by {
        forall k | 0 <= k < |tok|
          ensures 'A' <= tok[k] <= 'Z' || tok[k] == '[' || tok[k] == ']'
        {
          if 0 < k < |tok| - 1 {
            assert tok[k] == name[k - 1];
          }
        }
      }
      UpperOfCapitals(tok);
      TrimBrackets(name);
    }
  }

  /* ---------------------------------------------------------------------------
     Timestamps
     --------------------------------------------------------------------------- */

  /** `YYYY-MM-DD?hh:mm:ss` with `?` a `T` or a space, starting at position `i`. */
  predicate TimestampAt(s: string, i: nat) {
    && i + 19 <= |s|
    && IsDigit(s[i]) && IsDigit(s[i + 1]) && IsDigit(s[i + 2]) && IsDigit(s[i + 3])
    && s[i + 4] == '-' && IsDigit(s[i + 5]) && IsDigit(s[i + 6])
    && s[i + 7] == '-' && IsDigit(s[i + 8]) && IsDigit(s[i + 9])
    && (s[i + 10] == 'T' || s[i + 10] == ' ')
    && IsDigit(s[i + 11]) && IsDigit(s[i + 12]) && s[i + 13] == ':'
    && IsDigit(s[i + 14]) && IsDigit(s[i + 15]) && s[i + 16] == ':'
    && IsDigit(s[i + 17]) && IsDigit(s[i + 18])
  }

  predicate IsTimestampText(m: string) {
    |m| == 19 && TimestampAt(m, 0)
  }

  /** The position of the leftmost timestamp-shaped text at or after `i`, or |s|. */
  function FirstTimestampAt(s: string, i: nat): (r: nat)
    requires i <= |s|
    ensures i <= r <= |s|
    ensures forall j :: i <= j < r ==> !TimestampAt(s, j)
    ensures r < |s| ==> TimestampAt(s, r)
    decreases |s| - i
  {
    if i == |s| || TimestampAt(s, i) then i else FirstTimestampAt(s, i + 1)
  }

  /** The regexp's FindString for the timestamp pattern. */
  function FindTimestamp(s: string): (r: Option<string>)
    ensures r.None? <==> forall j :: 0 <= j < |s| ==> !TimestampAt(s, j)
    ensures r.Some? ==> IsTimestampText(r.value)
  {
    var j := FirstTimestampAt(s, 0);
    if j < |s| then Some(s[j..j + 19]) else None
  }

  /** Every timestamp-shaped text removed, left to right. */
  function StripTimestampsFrom(s: string, i: nat): (r: string)
    requires i <= |s|
    ensures |r| <= |s| - i
    decreases |s| - i
  {
    if i == |s| then []
    else if TimestampAt(s, i) then StripTimestampsFrom(s, i + 19)
    else [s[i]] + StripTimestampsFrom(s, i + 1)
  }

  function DigitValue(c: char): nat
    requires IsDigit(c)
  {
    c as nat - '0' as nat
  }

  /** The number written by `n` digits of `m` starting at `i`. */
  function Number(m: string, i: nat, n: nat): nat
    requires i + n <= |m| && forall k :: i <= k < i + n ==> IsDigit(m[k])
  {
    if n == 0 then 0 else Number(m, i, n - 1) * 10 + DigitValue(m[i + n - 1])
  }

  predicate IsLeap(year: int) {
    year % 4 == 0 && (year % 100 != 0 || year % 400 == 0)
  }

  /** The number of days in a month of a year (Go's daysIn). */
  function DaysIn(year: int, month: int): (d: nat)
    requires 1 <= month <= 12
    ensures 28 <= d <= 31
  {
    if month == 2 then (if IsLeap(year) then 29 else 28)
    else if month == 4 || month == 6 || month == 9 || month == 11 then 30
    else 31
  }

  /** Days from 1970-01-01 to a date of the proleptic Gregorian calendar. */
  function DaysFromCivil(year: int, month: int, day: int): int
    requires 1 <= month <= 12
  {
    var y := if month <= 2 then year - 1 else year;
    var era := y / 400;
    var yoe := y - era * 400;
    var mp := (month + 9) % 12;
    var doy := (153 * mp + 2) / 5 + day - 1;
    var doe := yoe * 365 + yoe / 4 - yoe / 100 + doy;
    era * 146097 + doe - 719468
  }

  /** The instant of a UTC date and time of day, in nanoseconds since the epoch. */
  function Instant(year: int, month: int, day: int, hour: int, minute: int, second: int): Time
    requires 1 <= month <= 12
  {
    ((DaysFromCivil(year, month, day) * 86400) + hour * 3600 + minute * 60 + second) * 1000000000
  }

  /** The calendar agrees with the two fixed points the program relies on: the Unix
      epoch is instant 0 and January 1 of year 1 is Go's zero time. */
  lemma CalendarAnchors()
    ensures Instant(1970, 1, 1, 0, 0, 0) == 0
    ensures Instant(1, 1, 1, 0, 0, 0) == ZeroTime
  {
    assert 1969 / 400 == 4 && 369 / 4 == 92 && 369 / 100 == 3;
    assert (153 * 10 + 2) / 5 == 306;
    assert DaysFromCivil(1970, 1, 1) == 4 * 146097 + (369 * 365 + 92 - 3 + 306) - 719468 == 0;
    assert 0 / 400 == 0;
    assert DaysFromCivil(1, 1, 1) == 306 - 719468 == -719162;
    assert Instant(1, 1, 1, 0, 0, 0) == -719162 * 86400 * 1000000000;
  }

  /** Days from 1970-01-01 to March 1 of year `y`: the calendar counts years from
      March, so that the leap day ends the year. */
  function MarchYearStart(y: int): int {
    var era := y / 400;
    var yoe := y - era * 400;
    era * 146097 + yoe * 365 + yoe / 4 - yoe / 100 - 719468
  }

  /** Adding a multiple of 4, of 100 or of 400 to a number leaves its remainder
      modulo that number alone. */
  lemma Shift4(a: int, t: int)
    ensures (4 * a + t) % 4 == t % 4
  {
  }

  lemma Shift100(a: int, t: int)
    ensures (100 * a + t) % 100 == t % 100
  {
  }

  lemma Shift400(a: int, t: int)
    ensures (400 * a + t) % 400 == t % 400
  {
  }

  /** Adding whole 400-year eras changes no remainder the leap rule looks at. */
  lemma EraShift(era: int, t: int)
    ensures (era * 400 + t) % 4 == t % 4
    ensures (era * 400 + t) % 100 == t % 100
    ensures (era * 400 + t) % 400 == t % 400
  {
    Shift4(era * 100, t);
    Shift100(era * 4, t);
    Shift400(era, t);
  }

  /** Counting multiples of 4, and of 100, up to t + 1 adds one exactly at a
      multiple. */
  lemma DivStep(t: nat)
    ensures (t + 1) / 4 - t / 4 == if (t + 1) % 4 == 0 then 1 else 0
    ensures (t + 1) / 100 - t / 100 == if (t + 1) % 100 == 0 then 1 else 0
  {
  }

  /** A March-based year is 366 days long exactly when the February it ends is a
      leap February. */
  lemma MarchYearLength(y: int)
    ensures MarchYearStart(y + 1) - MarchYearStart(y) == if IsLeap(y + 1) then 366 else 365
  {
    var era := y / 400;
    var yoe := y - era * 400;
    assert 0 <= yoe < 400;
    EraShift(era, yoe + 1);
    if yoe < 399 {
      assert (y + 1) / 400 == era;
      assert MarchYearStart(y + 1) - MarchYearStart(y)
        == 365 + ((yoe + 1) / 4 - yoe / 4) - ((yoe + 1) / 100 - yoe / 100);
      DivStep(yoe);
    } else {
      assert (y + 1) / 400 == era + 1;
      assert MarchYearStart(y + 1) - MarchYearStart(y) == 146097 - (399 * 365 + 99 - 3);
    }
  }

  /** Days from March 1 to the first of a month, in the March-based year. */
  function MonthOffset(month: int): int
    requires 1 <= month <= 12
  {
    (153 * ((month + 9) % 12) + 2) / 5
  }

  /** Outside February, the next month starts DaysIn days after this one. */
  lemma MonthOffsetStep(year: int, month: int)
    requires 1 <= month <= 12 && month != 2 && month != 12
    ensures MonthOffset(month + 1) == MonthOffset(month) + DaysIn(year, month)
  {
    if month == 1 { assert MonthOffset(1) == 306 && MonthOffset(2) == 337; }
    else if month == 3 { assert MonthOffset(3) == 0 && MonthOffset(4) == 31; }
    else if month == 4 { assert MonthOffset(4) == 31 && MonthOffset(5) == 61; }
    else if month == 5 { assert MonthOffset(5) == 61 && MonthOffset(6) == 92; }
    else if month == 6 { assert MonthOffset(6) == 92 && MonthOffset(7) == 122; }
    else if month == 7 { assert MonthOffset(7) == 122 && MonthOffset(8) == 153; }
    else if month == 8 { assert MonthOffset(8) == 153 && MonthOffset(9) == 184; }
    else if month == 9 { assert MonthOffset(9) == 184 && MonthOffset(10) == 214; }
    else if month == 10 { assert MonthOffset(10) == 214 && MonthOffset(11) == 245; }
    else { assert MonthOffset(11) == 245 && MonthOffset(12) == 275; }
  }

  /** A date as its March-based year's start plus the days into that year. */
  lemma DaysFromCivilSplit(year: int, month: int, day: int)
    requires 1 <= month <= 12
    ensures DaysFromCivil(year, month, day)
      == MarchYearStart(if month <= 2 then year - 1 else year) + MonthOffset(month) + day - 1
  {
  }

  /** The first day of the month after `month`. */
  function NextMonthStart(year: int, month: int): int
    requires 1 <= month <= 12
  {
    if month == 12 then DaysFromCivil(year + 1, 1, 1) else DaysFromCivil(year, month + 1, 1)
  }

  /** DaysIn agrees with the calendar: the last day of each month is followed by the
      first of the next, so February has 29 days exactly in leap years and every
      other month its fixed length. */
  lemma MonthLengths(year: int, month: int)
    requires 1 <= month <= 12
    ensures DaysFromCivil(year, month, DaysIn(year, month)) + 1 == NextMonthStart(year, month)
    ensures DaysIn(year, 2) == 29 <==> IsLeap(year)
  {
    DaysFromCivilSplit(year, month, DaysIn(year, month));
    if month == 12 {
      DaysFromCivilSplit(year + 1, 1, 1);
      assert MonthOffset(12) == 275 && MonthOffset(1) == 306;
    } else {
      DaysFromCivilSplit(year, month + 1, 1);
      if month == 2 {
        MarchYearLength(year - 1);
        assert MonthOffset(2) == 337 && MonthOffset(3) == 0;
      } else {
        MonthOffsetStep(year, month);
      }
    }
  }

  /** Within a month, the next day is 86400 seconds later. */
  lemma NextDay(year: int, month: int, day: int)
    requires 1 <= month <= 12
    ensures DaysFromCivil(year, month, day + 1) == DaysFromCivil(year, month, day) + 1
  {
  }

  /** time.Parse with layout "2006-01-02T15:04:05", then "2006-01-02 15:04:05", on a
      timestamp-shaped text: the instant when month, day, hour, minute and second are
      in range for that calendar date, and no instant otherwise. */
  function ParseTimestamp(m: string): (r: Option<Time>)
    requires IsTimestampText(m)
    ensures r.Some? <==>
      && 1 <= Number(m, 5, 2) <= 12
      && 1 <= Number(m, 8, 2) <= DaysIn(Number(m, 0, 4), Number(m, 5, 2))
      && Number(m, 11, 2) < 24 && Number(m, 14, 2) < 60 && Number(m, 17, 2) < 60
  {
    var year, month, day := Number(m, 0, 4), Number(m, 5, 2), Number(m, 8, 2);
    var hour, minute, second := Number(m, 11, 2), Number(m, 14, 2), Number(m, 17, 2);
    if 1 <= month <= 12 && 1 <= day <= DaysIn(year, month) && hour < 24 && minute < 60 && second < 60 then
      Some(Instant(year, month, day, hour, minute, second))
    else None
  }

  /* ---------------------------------------------------------------------------
     Formatting, as the partner of parsing
     --------------------------------------------------------------------------- */

  function Pad(n: nat, width: nat): (r: string)
    ensures |r| == width && forall k :: 0 <= k < width ==> IsDigit(r[k])
  {
    if width == 0 then [] else Pad(n / 10, width - 1) + [DigitChar(n % 10)]
  }

  /** Reading back `width` zero-padded digits gives the number they were made from,
      when it fits in that many digits. */
  lemma {:induction false} PadValue(n: nat, width: nat, m: string, i: nat)
    requires n < Power10(width)
    requires i + width <= |m| && m[i..i + width] == Pad(n, width)
    ensures forall k :: i <= k < i + width ==> IsDigit(m[k])
    ensures Number(m, i, width) == n
  {
    assert forall k :: i <= k < i + width ==> m[k] == m[i..i + width][k - i];
    if width > 0 {
      assert m[i..i + width - 1] == Pad(n / 10, width - 1) by {
        assert m[i..i + width - 1] == m[i..i + width][..width - 1];
      }
      assert (n / 10) * 10 <= n;
      PadValue(n / 10, width - 1, m, i);
      assert m[i + width - 1] == DigitChar(n % 10);
    }
  }

  /** The text "YYYY-MM-DDThh:mm:ss" of a date and time of day. */
  function FormatTimestamp(year: nat, month: nat, day: nat, hour: nat, minute: nat, second: nat): (m: string)
    ensures IsTimestampText(m)
  {
    Pad(year, 4) + "-" + Pad(month, 2) + "-" + Pad(day, 2) + "T" + Pad(hour, 2) + ":" + Pad(minute, 2) + ":" + Pad(second, 2)
  }

  lemma FormatFields(year: nat, month: nat, day: nat, hour: nat, minute: nat, second: nat)
    ensures var m := FormatTimestamp(year, month, day, hour, minute, second);
      && m[0..4] == Pad(year, 4) && m[5..7] == Pad(month, 2) && m[8..10] == Pad(day, 2)
      && m[11..13] == Pad(hour, 2) && m[14..16] == Pad(minute, 2) && m[17..19] == Pad(second, 2)
  {
    var a := Pad(year, 4) + "-" + Pad(month, 2) + "-" + Pad(day, 2) + "T";
    var b := Pad(hour, 2) + ":" + Pad(minute, 2) + ":" + Pad(second, 2);
    assert FormatTimestamp(year, month, day, hour, minute, second) == a + b;
    assert a[0..4] == Pad(year, 4) && a[5..7] == Pad(month, 2) && a[8..10] == Pad(day, 2);
    assert b[0..2] == Pad(hour, 2) && b[3..5] == Pad(minute, 2) && b[6..8] == Pad(second, 2);
  }

  /** Parsing a formatted valid date and time gives back its instant. */
  lemma ParseFormatted(year: nat, month: nat, day: nat, hour: nat, minute: nat, second: nat)
    requires year < 10000 && 1 <= month <= 12 && 1 <= day <= DaysIn(year, month)
    requires hour < 24 && minute < 60 && second < 60
    ensures ParseTimestamp(FormatTimestamp(year, month, day, hour, minute, second))
      == Some(Instant(year, month, day, hour, minute, second))
  {
    var m := FormatTimestamp(year, month, day, hour, minute, second);
    FormatFields(year, month, day, hour, minute, second);
    assert Power10(2) == 100;
    assert Power10(4) == 10000 by {
      assert Power10(3) == 1000;
    }
    PadValue(year, 4, m, 0);
    PadValue(month, 2, m, 5);
    PadValue(day, 2, m, 8);
    PadValue(hour, 2, m, 11);
    PadValue(minute, 2, m, 14);
    PadValue(second, 2, m, 17);
  }

  /* ---------------------------------------------------------------------------
     parseLine
     --------------------------------------------------------------------------- */

  /** The level of a line: INFO unless a level token occurs, else the name in the
      leftmost token. */
  function LineLevel(line: string): (level: string)
    ensures IsLevelName(level)
    ensures FindLevel(line).None? ==> level == "INFO"
    ensures FindLevel(line).Some? ==> level == TrimCutset(ToUpper(FindLevel(line).value), "[]")
  {
    match FindLevel(line)
    case None => "INFO"
    case Some(tok) =>
      TokenLevel(tok);
      TrimCutset(ToUpper(tok), "[]")
  }

  /** The instant of a line: the first timestamp-shaped text when it parses, else
      the time the line was read. */
  function LineTime(line: string, now: Time): (t: Time)
    ensures FindTimestamp(line).Some? && ParseTimestamp(FindTimestamp(line).value).Some? ==>
      t == ParseTimestamp(FindTimestamp(line).value).value
    ensures !(FindTimestamp(line).Some? && ParseTimestamp(FindTimestamp(line).value).Some?) ==>
      t == now
  {
    match FindTimestamp(line)
    case Some(m) => (match ParseTimestamp(m) case Some(t) => t case None => now)
    case None => now
  }

  /** The message of a line: the line with level tokens and then timestamps removed,
      trimmed; the raw line when nothing is left. */
  function LineMessage(line: string): (msg: string)
    ensures var stripped := TrimSpace(StripTimestampsFrom(StripLevelsFrom(line, 0), 0));
      (stripped != [] ==> msg == stripped) && (stripped == [] ==> msg == line)
    ensures |line| > 0 ==> |msg| > 0
  {
    var stripped := TrimSpace(StripTimestampsFrom(StripLevelsFrom(line, 0), 0));
    if stripped != [] then stripped else line
  }

  /** FileTailer.parseLine for a line read at instant `now`. */
  function Parse(line: string, streamID: string, now: Time): (log: LogLine)
    ensures log.raw == line && log.streamID == streamID && log.labels == map[]
    ensures IsLevelName(log.level)
    ensures log.level == LineLevel(line) && log.timestamp == LineTime(line, now) && log.message == LineMessage(line)
    ensures |line| > 0 ==> |log.message| > 0
  {
    LogLine(LineTime(line, now), LineLevel(line), LineMessage(line), line, map[], streamID)
  }

  /** A line without any level token is recorded at level INFO, and one without any
      token or timestamp keeps its trimmed text as the message. */
  lemma PlainLine(line: string, streamID: string, now: Time)
    requires forall j :: 0 <= j < |line| ==> LevelTokenAt(line, j).None? && !TimestampAt(line, j)
    ensures Parse(line, streamID, now).level == "INFO"
    ensures Parse(line, streamID, now).timestamp == now
    ensures TrimSpace(line) != [] ==> Parse(line, streamID, now).message == TrimSpace(line)
  {
    StripLevelsNone(line, 0);
    StripTimestampsNone(line, 0);
  }

  lemma {:induction false} StripTimestampsNone(s: string, i: nat)
    requires i <= |s|
    requires forall j :: i <= j < |s| ==> !TimestampAt(s, j)
    ensures StripTimestampsFrom(s, i) == s[i..]
    decreases |s| - i
  {
    if i < |s| {
      StripTimestampsNone(s, i + 1);
      assert s[i..] == [s[i]] + s[i + 1..];
    }
  }
}
