/** The text form "%Y/%m/%d %H:%M:%S" of a date-time: `strftime` writes it,
    `strptime` reads it. Reading follows the patterns CPython's `_strptime` builds
    for these directives: the year is exactly four digits, every other field is
    one or two digits (the day may also be a space and one digit), the space of
    the format matches one or more whitespace characters, and the whole string
    must be consumed. */
module Timestamp {

  import opened Wrappers
  import opened Calendar

  predicate IsDigit(c: char) { '0' <= c <= '9' }

  predicate AllDigits(s: string) { forall i :: 0 <= i < |s| ==> IsDigit(s[i]) }

  /** The characters `\s` matches in a `str` pattern, those for which `str.isspace` holds:
      tab to carriage return, the four separators 0x1C to 0x1F, space, next line,
      no-break space and the Unicode space separators and line and paragraph separators. */
  predicate IsSpace(c: char) {
    '\t' <= c <= '\r' || '\U{001C}' <= c <= '\U{001F}' || c == ' ' || c == '\U{0085}' || c == '\U{00A0}'
    || c == '\U{1680}' || '\U{2000}' <= c <= '\U{200A}' || c == '\U{2028}' || c == '\U{2029}'
    || c == '\U{202F}' || c == '\U{205F}' || c == '\U{3000}'
  }

  function DigitValue(c: char): int
    requires IsDigit(c)
  {
    c as int - '0' as int
  }

  function DigitChar(n: int): (c: char)
    requires 0 <= n <= 9
    ensures IsDigit(c) && DigitValue(c) == n
  {
    ('0' as int + n) as char
  }

  /** The decimal value of a string of digits. */
  function NumberValue(s: string): (v: nat)
    requires AllDigits(s)
  {
    if s == [] then 0 else NumberValue(s[..|s| - 1]) * 10 + DigitValue(s[|s| - 1])
  }

  /** The length of the run of digits that s starts with. */
  function DigitRun(s: string): (n: nat)
    ensures n <= |s| && AllDigits(s[..n])
    ensures n < |s| ==> !IsDigit(s[n])
  {
    if s == [] || !IsDigit(s[0]) then 0
    else
      var n := 1 + DigitRun(s[1..]);
      assert s[..n] == [s[0]] + s[1..][..n - 1];
      n
  }

  /** The length of the run of whitespace that s starts with. */
  function SpaceRun(s: string): (n: nat)
    ensures n <= |s| && forall i :: 0 <= i < n ==> IsSpace(s[i])
    ensures n < |s| ==> !IsSpace(s[n])
  {
    if s == [] || !IsSpace(s[0]) then 0 else 1 + SpaceRun(s[1..])
  }

  lemma DigitCharOfValue(c: char)
    requires IsDigit(c)
    ensures DigitChar(DigitValue(c)) == c
  {
  }

  /** One or two leading digits spell their value, unpadded or zero-padded. */
  lemma DigitsSpell(s: string, n: int)
    requires 1 <= n <= 2 && n <= |s| && AllDigits(s[..n])
    ensures n == 1 ==> 0 <= NumberValue(s[..n]) < 10 && s == [DigitChar(NumberValue(s[..n]))] + s[n..]
    ensures n == 2 ==> 0 <= NumberValue(s[..n]) < 100 && s == Pad2(NumberValue(s[..n])) + s[n..]
  {
    DigitCharOfValue(s[0]);
    assert s[..1][..0] == [];
    if n == 1 {
      assert s == [s[0]] + s[1..];
    } else {
      DigitCharOfValue(s[1]);
      assert s[..2][..1] == s[..1];
      var v := NumberValue(s[..2]);
      assert v == DigitValue(s[0]) * 10 + DigitValue(s[1]);
      assert v / 10 == DigitValue(s[0]) && v % 10 == DigitValue(s[1]);
      assert s == [s[0], s[1]] + s[2..];
    }
  }

  /** A one- or two-digit field with value in lo..hi, and the text after it. */
  function Field(s: string, lo: int, hi: int): (r: Option<(int, string)>)
    ensures r.Some? ==> lo <= r.value.0 <= hi
    // the field is the value's digits, unpadded or zero-padded, and no digit follows
    ensures r.Some? ==> var (v, rest) := r.value;
      (rest == [] || !IsDigit(rest[0]))
      && ((0 <= v < 100 && s == Pad2(v) + rest) || (0 <= v < 10 && s == [DigitChar(v)] + rest))
  {
    var n := DigitRun(s);
    if 1 <= n <= 2 && lo <= NumberValue(s[..n]) <= hi then
      DigitsSpell(s, n);
      Some((NumberValue(s[..n]), s[n..]))
    else None
  }

  /** The day field, which also accepts a space followed by one digit 1..9. */
  function DayField(s: string): (r: Option<(int, string)>)
    ensures r.Some? ==> 1 <= r.value.0 <= 31
    ensures r.Some? ==> var (v, rest) := r.value;
      (0 <= v < 100 && s == Pad2(v) + rest && (rest == [] || !IsDigit(rest[0])))
      || (0 <= v < 10 && s == [DigitChar(v)] + rest && (rest == [] || !IsDigit(rest[0])))
      || (1 <= v <= 9 && s == [' ', DigitChar(v)] + rest)
  {
    if |s| >= 2 && s[0] == ' ' && '1' <= s[1] <= '9' then
      DigitCharOfValue(s[1]);
      assert s == [' ', s[1]] + s[2..];
      Some((DigitValue(s[1]), s[2..]))
    else Field(s, 1, 31)
  }

  /** Consumes the separator c that s must start with. */
  function Separator(s: string, c: char): Option<string>
  {
    if |s| >= 1 && s[0] == c then Some(s[1..]) else None
  }

  /** "%Y/%m/%d": the year, month and day, and the text after them. */
  function ParseDate(s: string): (r: Option<(Date, string)>)
  {
    if |s| < 4 || !AllDigits(s[..4]) then None else
    match Separator(s[4..], '/')
    case None => None
    case Some(r0) =>
    match Field(r0, 1, 12)
    case None => None
    case Some((month, r1)) =>
    match Separator(r1, '/')
    case None => None
    case Some(r2) =>
    match DayField(r2)
    case None => None
    case Some((day, r3)) => Some((Date(NumberValue(s[..4]), month, day), r3))
  }

  /** "%H:%M:%S" up to the end of the text: the hour, minute and second. */
  function ParseClock(s: string): (r: Option<(int, int, int)>)
  {
    match Field(s, 0, 23)
    case None => None
    case Some((hour, r0)) =>
    match Separator(r0, ':')
    case None => None
    case Some(r1) =>
    match Field(r1, 0, 59)
    case None => None
    case Some((minute, r2)) =>
    match Separator(r2, ':')
    case None => None
    case Some(r3) =>
    match Field(r3, 0, 61)
    case None => None
    // leftover text is "unconverted data"
    case Some((second, r4)) => if r4 == [] then Some((hour, minute, second)) else None
  }

  /** `datetime.strptime(s, "%Y/%m/%d %H:%M:%S")`; None where it raises ValueError. */
  function Parse(s: string): (r: Option<DateTime>)
    ensures r.Some? ==> Valid(r.value)
  {
    match ParseDate(s)
    case None => None
    case Some((date, rest)) =>
    var ws := SpaceRun(rest);
    if ws == 0 then None else
    match ParseClock(rest[ws..])
    case None => None
    case Some((hour, minute, second)) =>
    var t := DateTime(date, hour, minute, second);
    // the fields already lie in their pattern's ranges; building the datetime
    // further rejects year 0, a day past the end of its month and the seconds 60 and 61
    if Valid(t) then Some(t) else None
  }

  /** Two digits, zero-padded. */
  function Pad2(n: int): (s: string)
    requires 0 <= n < 100
    ensures |s| == 2 && AllDigits(s) && NumberValue(s) == n
  {
    var s := [DigitChar(n / 10), DigitChar(n % 10)];
    assert s[..1][..0] == [];
    assert NumberValue(s[..1]) == n / 10;
    s
  }

  /** Four digits, zero-padded. */
  function Pad4(n: int): (s: string)
    requires 0 <= n < 10000
    ensures |s| == 4 && AllDigits(s) && NumberValue(s) == n
  {
    // n1, n2 and n3 drop one, two and three trailing digits
    var n1 := n / 10;
    var n2 := n1 / 10;
    var n3 := n2 / 10;
    assert n == n1 * 10 + n % 10 && n1 == n2 * 10 + n1 % 10 && n2 == n3 * 10 + n2 % 10 && n3 < 10;
    var s := [DigitChar(n3), DigitChar(n2 % 10), DigitChar(n1 % 10), DigitChar(n % 10)];
    assert s[..1][..0] == [] && s[..2][..1] == s[..1] && s[..3][..2] == s[..2] && s[..4][..3] == s[..3];
    assert NumberValue(s[..1]) == n3;
    assert NumberValue(s[..2]) == n2;
    assert NumberValue(s[..3]) == n1;
    assert s[..4] == s;
    s
  }

  /** The six fields in the layout "%Y/%m/%d %H:%M:%S", each zero-padded. */
  function Layout(year: int, month: int, day: int, hour: int, minute: int, second: int): (s: string)
    requires 0 <= year < 10000 && 0 <= month < 100 && 0 <= day < 100
    requires 0 <= hour < 100 && 0 <= minute < 100 && 0 <= second < 100
    ensures |s| == 19
  {
    Pad4(year) + "/" + Pad2(month) + "/" + Pad2(day) + " " + Pad2(hour) + ":" + Pad2(minute) + ":" + Pad2(second)
  }

  /** `t.strftime("%Y/%m/%d %H:%M:%S")`, the year written with four digits. */
  function Format(t: DateTime): (s: string)
    requires Valid(t)
    ensures |s| == 19
  {
    Layout(t.date.year, t.date.month, t.date.day, t.hour, t.minute, t.second)
  }

  /** The text a valid date-time is written as. */
  ghost predicate IsCanonical(s: string) {
    exists t :: Valid(t) && Format(t) == s
  }

  lemma FieldOfPad2(n: int, rest: string, lo: int, hi: int)
    requires 0 <= n < 100 && lo <= n <= hi
    requires rest == [] || !IsDigit(rest[0])
    ensures Field(Pad2(n) + rest, lo, hi) == Some((n, rest))
  {
    var s := Pad2(n) + rest;
    assert s == [Pad2(n)[0]] + ([Pad2(n)[1]] + rest);
    assert s[..2] == Pad2(n);
    assert DigitRun(s) == 2 by {
      assert s[1..] == [Pad2(n)[1]] + rest;
      assert s[1..][1..] == rest;
    }
    assert s[2..] == rest;
  }

  /** "%Y/%m/%d" reads back the fields it was written from, whatever the calendar says of them. */
  lemma ParseDateOfPads(year: int, month: int, day: int, rest: string)
    requires 0 <= year < 10000 && 1 <= month <= 12 && 1 <= day <= 31 && rest != [] && !IsDigit(rest[0])
    ensures ParseDate(Pad4(year) + "/" + Pad2(month) + "/" + Pad2(day) + rest) == Some((Date(year, month, day), rest))
  {
    var tail1 := Pad2(day) + rest;
    var tail0 := "/" + tail1;
    var after := Pad2(month) + tail0;
    var s := Pad4(year) + "/" + after;
    assert Pad4(year) + "/" + Pad2(month) + "/" + Pad2(day) + rest == s;
    assert s[..4] == Pad4(year);
    assert s[4..] == "/" + after;
    FieldOfPad2(month, tail0, 1, 12);
    FieldOfPad2(day, rest, 1, 31);
  }

  /** "%H:%M:%S" reads back the fields it was written from, seconds 60 and 61 included. */
  lemma ParseClockOfPads(h: int, m: int, sec: int)
    requires 0 <= h <= 23 && 0 <= m <= 59 && 0 <= sec <= 61
    ensures ParseClock(Pad2(h) + ":" + Pad2(m) + ":" + Pad2(sec)) == Some((h, m, sec))
  {
    var tail6 := ":" + Pad2(sec);
    var tail5 := Pad2(m) + tail6;
    var tail4 := ":" + tail5;
    assert Pad2(h) + ":" + Pad2(m) + ":" + Pad2(sec) == Pad2(h) + tail4;
    FieldOfPad2(h, tail4, 0, 23);
    FieldOfPad2(m, tail6, 0, 59);
    FieldOfPad2(sec, [], 0, 61);
    assert Pad2(sec) + [] == Pad2(sec);
  }

  /** Parse put together from its three stages: the date, the whitespace run, the clock. */
  lemma ParseOfParts(s: string, date: Date, rest: string, ws: nat, hour: int, minute: int, second: int)
    requires ParseDate(s) == Some((date, rest))
    requires 0 < ws <= |rest| && SpaceRun(rest) == ws && ParseClock(rest[ws..]) == Some((hour, minute, second))
    ensures var t := DateTime(date, hour, minute, second);
      Parse(s) == if Valid(t) then Some(t) else None
  {
  }

  /** Parse fails when the clock that follows the date and the whitespace is refused. */
  lemma ParseClockRefused(s: string, date: Date, rest: string, ws: nat)
    requires ParseDate(s) == Some((date, rest))
    requires ws <= |rest| && SpaceRun(rest) == ws && ParseClock(rest[ws..]) == None
    ensures Parse(s) == None
  {
  }

  /** Fields within their directives' ranges are read back exactly, and the result is
      accepted exactly when they make a valid date-time: year 0, a day past the end of
      its month and the seconds 60 and 61 are rejected. */
  lemma ParseLayout(year: int, month: int, day: int, hour: int, minute: int, second: int)
    requires 0 <= year < 10000 && 1 <= month <= 12 && 1 <= day <= 31
    requires 0 <= hour <= 23 && 0 <= minute <= 59 && 0 <= second <= 61
    ensures var t := DateTime(Date(year, month, day), hour, minute, second);
      Parse(Layout(year, month, day, hour, minute, second)) == if Valid(t) then Some(t) else None
  {
    var clock := Pad2(hour) + ":" + Pad2(minute) + ":" + Pad2(second);
    var rest := " " + clock;
    var s := Pad4(year) + "/" + Pad2(month) + "/" + Pad2(day) + rest;
    assert Layout(year, month, day, hour, minute, second) == s;
    ParseDateOfPads(year, month, day, rest);
    assert clock[0] == Pad2(hour)[0];
    SpaceRunOf([' '], clock);
    ParseClockOfPads(hour, minute, second);
    ParseOfParts(s, Date(year, month, day), rest, 1, hour, minute, second);
  }

  /** Reading back what was written gives the same date-time. */
  lemma ParseFormat(t: DateTime)
    requires Valid(t)
    ensures Parse(Format(t)) == Some(t)
  {
    ParseLayout(t.date.year, t.date.month, t.date.day, t.hour, t.minute, t.second);
  }

  /** A canonical string is written back unchanged after reading it. */
  lemma FormatParseCanonical(s: string)
    requires IsCanonical(s)
    ensures Parse(s).Some? && Valid(Parse(s).value) && Format(Parse(s).value) == s
  {
    var t :| Valid(t) && Format(t) == s;
    ParseFormat(t);
  }

  /** The calendar checks `strptime` makes once the patterns match: no year 0, no
      day past the end of its month (a 29th of February only in leap years), no
      second 60 or 61. */
  lemma ParseCalendarChecks(year: int, month: int, day: int, hour: int, minute: int, second: int)
    requires 0 <= year < 10000 && 1 <= month <= 12 && 1 <= day <= 31
    requires 0 <= hour <= 23 && 0 <= minute <= 59 && 0 <= second <= 61
    ensures year == 0 ==> Parse(Layout(year, month, day, hour, minute, second)).None?
    ensures second >= 60 ==> Parse(Layout(year, month, day, hour, minute, second)).None?
    ensures day > DaysInMonth(year, month) ==> Parse(Layout(year, month, day, hour, minute, second)).None?
    ensures year >= 1 && second < 60 && month == 2 && day == 29 ==>
      (Parse(Layout(year, month, day, hour, minute, second)).Some? <==> IsLeapYear(year))
  {
    ParseLayout(year, month, day, hour, minute, second);
  }

  lemma FieldOfDigit(n: int, rest: string, lo: int, hi: int)
    requires 0 <= n < 10 && lo <= n <= hi
    requires rest == [] || !IsDigit(rest[0])
    ensures Field([DigitChar(n)] + rest, lo, hi) == Some((n, rest))
  {
    var s := [DigitChar(n)] + rest;
    assert s[1..] == rest;
    assert DigitRun(s) == 1;
    assert s[..1] == [DigitChar(n)] && s[..1][..0] == [];
    assert NumberValue(s[..1]) == n;
  }

  /** A month and a day written with one digit each are read as their values. */
  lemma ParseDateOfDigits(year: int, month: int, day: int, rest: string)
    requires 0 <= year < 10000 && 1 <= month <= 9 && 1 <= day <= 9 && rest != [] && !IsDigit(rest[0])
    ensures ParseDate(Pad4(year) + "/" + [DigitChar(month)] + "/" + [DigitChar(day)] + rest)
            == Some((Date(year, month, day), rest))
  {
    var tail1 := [DigitChar(day)] + rest;
    var tail0 := "/" + tail1;
    var after := [DigitChar(month)] + tail0;
    var s := Pad4(year) + "/" + after;
    assert Pad4(year) + "/" + [DigitChar(month)] + "/" + [DigitChar(day)] + rest == s;
    assert s[..4] == Pad4(year);
    assert s[4..] == "/" + after;
    FieldOfDigit(month, tail0, 1, 12);
    FieldOfDigit(day, rest, 1, 31);
  }

  /** An hour, minute and second written with one digit each are read as their values. */
  lemma ParseClockOfDigits(h: int, m: int, sec: int)
    requires 0 <= h <= 9 && 0 <= m <= 9 && 0 <= sec <= 9
    ensures ParseClock([DigitChar(h)] + ":" + [DigitChar(m)] + ":" + [DigitChar(sec)]) == Some((h, m, sec))
  {
    var tail6 := ":" + [DigitChar(sec)];
    var tail5 := [DigitChar(m)] + tail6;
    var tail4 := ":" + tail5;
    assert [DigitChar(h)] + ":" + [DigitChar(m)] + ":" + [DigitChar(sec)] == [DigitChar(h)] + tail4;
    FieldOfDigit(h, tail4, 0, 23);
    FieldOfDigit(m, tail6, 0, 59);
    FieldOfDigit(sec, [], 0, 61);
    assert [DigitChar(sec)] + [] == [DigitChar(sec)];
  }

  /** Fields written with one digit are read as their value. */
  lemma ParseUnpadded(year: int, month: int, day: int, hour: int, minute: int, second: int)
    requires 0 <= year < 10000 && 1 <= month <= 9 && 1 <= day <= 9
    requires 0 <= hour <= 9 && 0 <= minute <= 9 && 0 <= second <= 9
    ensures var t := DateTime(Date(year, month, day), hour, minute, second);
      Parse(Pad4(year) + "/" + [DigitChar(month)] + "/" + [DigitChar(day)] + " "
            + [DigitChar(hour)] + ":" + [DigitChar(minute)] + ":" + [DigitChar(second)])
      == if Valid(t) then Some(t) else None
  {
    var clock := [DigitChar(hour)] + ":" + [DigitChar(minute)] + ":" + [DigitChar(second)];
    var rest := " " + clock;
    var s := Pad4(year) + "/" + [DigitChar(month)] + "/" + [DigitChar(day)] + rest;
    assert Pad4(year) + "/" + [DigitChar(month)] + "/" + [DigitChar(day)] + " "
           + [DigitChar(hour)] + ":" + [DigitChar(minute)] + ":" + [DigitChar(second)] == s;
    ParseDateOfDigits(year, month, day, rest);
    assert clock[0] == DigitChar(hour);
    SpaceRunOf([' '], clock);
    ParseClockOfDigits(hour, minute, second);
    ParseOfParts(s, Date(year, month, day), rest, 1, hour, minute, second);
  }

  lemma DigitIsNotSpace(c: char)
    requires IsDigit(c)
    ensures !IsSpace(c)
  {
  }

  /** The whitespace run of s has length k when its first k characters are whitespace
      and the next one is not. */
  lemma {:induction false} SpaceRunIs(s: string, k: nat)
    requires k < |s| && (forall i :: 0 <= i < k ==> IsSpace(s[i])) && !IsSpace(s[k])
    ensures SpaceRun(s) == k
    decreases k
  {
    if k > 0 {
      SpaceRunIs(s[1..], k - 1);
    }
  }

  /** The whitespace run of s is all of ws when ws is whitespace and s goes on with a digit. */
  lemma SpaceRunOf(ws: string, rest: string)
    requires forall i :: 0 <= i < |ws| ==> IsSpace(ws[i])
    requires rest != [] && IsDigit(rest[0])
    ensures SpaceRun(ws + rest) == |ws| && (ws + rest)[|ws|..] == rest
  {
    var s := ws + rest;
    assert s[|ws|] == rest[0];
    DigitIsNotSpace(rest[0]);
    SpaceRunIs(s, |ws|);
    assert s[|ws|..] == rest;
  }

  /** "%d" also reads a space and one digit. */
  lemma ParseDateOfSpacedDay(year: int, month: int, day: int, rest: string)
    requires 0 <= year < 10000 && 1 <= month <= 12 && 1 <= day <= 9
    ensures ParseDate(Pad4(year) + "/" + Pad2(month) + "/" + [' ', DigitChar(day)] + rest)
            == Some((Date(year, month, day), rest))
  {
    var dayText := [' ', DigitChar(day)] + rest;
    var tail0 := "/" + dayText;
    var s := Pad4(year) + "/" + (Pad2(month) + tail0);
    assert Pad4(year) + "/" + Pad2(month) + "/" + [' ', DigitChar(day)] + rest == s;
    assert s[..4] == Pad4(year);
    assert s[4..] == "/" + (Pad2(month) + tail0);
    FieldOfPad2(month, tail0, 1, 12);
    assert dayText[0] == ' ' && dayText[1] == DigitChar(day) && dayText[2..] == rest;
    assert DayField(dayText) == Some((day, rest));
  }

  /** A day written as a space and one digit is accepted, and so is any run of
      whitespace between the date and the time. */
  lemma ParseSpacedDay(year: int, month: int, day: int, ws: string, hour: int, minute: int, second: int)
    requires 0 <= year < 10000 && 1 <= month <= 12 && 1 <= day <= 9
    requires 0 <= hour <= 23 && 0 <= minute <= 59 && 0 <= second <= 61
    requires ws != [] && forall i :: 0 <= i < |ws| ==> IsSpace(ws[i])
    ensures var t := DateTime(Date(year, month, day), hour, minute, second);
      Parse(Pad4(year) + "/" + Pad2(month) + "/" + [' ', DigitChar(day)] + ws
            + Pad2(hour) + ":" + Pad2(minute) + ":" + Pad2(second))
      == if Valid(t) then Some(t) else None
  {
    var clock := Pad2(hour) + ":" + Pad2(minute) + ":" + Pad2(second);
    var rest := ws + clock;
    var s := Pad4(year) + "/" + Pad2(month) + "/" + [' ', DigitChar(day)] + rest;
    assert Pad4(year) + "/" + Pad2(month) + "/" + [' ', DigitChar(day)] + ws
           + Pad2(hour) + ":" + Pad2(minute) + ":" + Pad2(second) == s;
    ParseDateOfSpacedDay(year, month, day, rest);
    assert clock[0] == Pad2(hour)[0];
    SpaceRunOf(ws, clock);
    ParseClockOfPads(hour, minute, second);
    ParseOfParts(s, Date(year, month, day), rest, |ws|, hour, minute, second);
  }

  /** The seconds field refuses any text left after it. */
  lemma SecondsThenText(second: int, extra: string)
    requires 0 <= second <= 61 && extra != []
    ensures var f := Field(Pad2(second) + extra, 0, 61); f.None? || f.value.1 != []
  {
    var s := Pad2(second) + extra;
    var f := Field(s, 0, 61);
    if f.Some? {
      var (v, rest) := f.value;
      if 0 <= v < 10 && s == [DigitChar(v)] + rest {
        assert rest[0] == s[1] == Pad2(second)[1];
      } else {
        assert |rest| == |extra|;
      }
    }
  }

  /** "%H:%M:%S" refuses any text left after the seconds. */
  lemma ParseClockThenText(hour: int, minute: int, second: int, extra: string)
    requires 0 <= hour <= 23 && 0 <= minute <= 59 && 0 <= second <= 61 && extra != []
    ensures ParseClock(Pad2(hour) + ":" + Pad2(minute) + ":" + Pad2(second) + extra) == None
  {
    var tail6 := ":" + (Pad2(second) + extra);
    var tail4 := ":" + (Pad2(minute) + tail6);
    assert Pad2(hour) + ":" + Pad2(minute) + ":" + Pad2(second) + extra == Pad2(hour) + tail4;
    FieldOfPad2(hour, tail4, 0, 23);
    assert tail4[1..] == Pad2(minute) + tail6;
    FieldOfPad2(minute, tail6, 0, 59);
    assert tail6[1..] == Pad2(second) + extra;
    SecondsThenText(second, extra);
  }

  /** Text left after the seconds is "unconverted data": the string is refused. */
  lemma ParseRefusesTrailingText(year: int, month: int, day: int, hour: int, minute: int, second: int,
                                 extra: string)
    requires 0 <= year < 10000 && 1 <= month <= 12 && 1 <= day <= 31
    requires 0 <= hour <= 23 && 0 <= minute <= 59 && 0 <= second <= 61
    requires extra != []
    ensures Parse(Layout(year, month, day, hour, minute, second) + extra) == None
  {
    var clock := Pad2(hour) + ":" + Pad2(minute) + ":" + Pad2(second) + extra;
    var rest := " " + clock;
    var s := Pad4(year) + "/" + Pad2(month) + "/" + Pad2(day) + rest;
    assert Layout(year, month, day, hour, minute, second) + extra == s;
    ParseDateOfPads(year, month, day, rest);
    assert clock[0] == Pad2(hour)[0];
    SpaceRunOf([' '], clock);
    ParseClockThenText(hour, minute, second, extra);
    ParseClockRefused(s, Date(year, month, day), rest, 1);
  }

  /** A date and a time not separated by whitespace (an ISO "T", say) are refused. */
  lemma ParseRefusesMissingSpace(year: int, month: int, day: int, hour: int, minute: int, second: int, c: char)
    requires 0 <= year < 10000 && 1 <= month <= 12 && 1 <= day <= 31
    requires 0 <= hour <= 23 && 0 <= minute <= 59 && 0 <= second <= 61
    requires !IsSpace(c) && !IsDigit(c)
    ensures Parse(Pad4(year) + "/" + Pad2(month) + "/" + Pad2(day) + [c]
                  + Pad2(hour) + ":" + Pad2(minute) + ":" + Pad2(second)) == None
  {
    var rest := [c] + (Pad2(hour) + ":" + Pad2(minute) + ":" + Pad2(second));
    assert Pad4(year) + "/" + Pad2(month) + "/" + Pad2(day) + [c]
           + Pad2(hour) + ":" + Pad2(minute) + ":" + Pad2(second)
           == Pad4(year) + "/" + Pad2(month) + "/" + Pad2(day) + rest;
    ParseDateOfPads(year, month, day, rest);
    assert SpaceRun(rest) == 0;
  }
}
