/**
 * The timestamp of an access record: `datetime.strptime(text,
 * "%d/%b/%Y:%H:%M:%S %z")` (utils/model.py:30) and the serialised form
 * `time.isoformat()` with "+00:00" replaced by "Z" (utils/model.py:42).
 */
module Timestamp {
  import opened Wrappers
  import opened Text

  const MicrosPerSecond: nat := 1000000
  const MicrosPerMinute: nat := 60 * MicrosPerSecond
  const MicrosPerHour: nat := 60 * MicrosPerMinute
  const MicrosPerDay: nat := 24 * MicrosPerHour

  /** An aware datetime; `offset` is the UTC offset in microseconds east of Greenwich. */
  datatype DateTime = DateTime(
    year: nat, month: nat, day: nat, hour: nat, minute: nat, second: nat, offset: int)

  predicate IsLeap(year: nat) {
    year % 4 == 0 && (year % 100 != 0 || year % 400 == 0)
  }

  function DaysInMonth(year: nat, month: nat): nat
    requires 1 <= month <= 12
  {
    if month == 2 then (if IsLeap(year) then 29 else 28)
    else if month == 4 || month == 6 || month == 9 || month == 11 then 30
    else 31
  }

  /** What the `datetime` and `timezone` constructors accept. */
  predicate Valid(t: DateTime) {
    && 1 <= t.year <= 9999 && 1 <= t.month <= 12 && 1 <= t.day <= DaysInMonth(t.year, t.month)
    && t.hour < 24 && t.minute < 60 && t.second < 60
    && -(MicrosPerDay as int) < t.offset < MicrosPerDay
  }

  // ---------------------------------------------------------------- parsing

  predicate NotSlash(c: char) { c != '/' }
  predicate IsSixtyDigit(c: char) { '0' <= c <= '5' }

  /** The text up to the first `c`, and the text after it. */
  function Until(s: string, p: char -> bool, c: char): (r: Option<(string, string)>)
    ensures r.Some? ==> All(r.value.0, p) && s == r.value.0 + ([c] + r.value.1)
  {
    var f := TakeWhile(s, p);
    var rest := s[|f|..];
    assert s == f + rest;
    if rest != [] && rest[0] == c then
      assert rest == [c] + rest[1..];
      Some((f, rest[1..]))
    else None
  }

  /** `%d`, whose pattern is `3[01]|[12]\d|0[1-9]|[1-9]| [1-9]`, then `int()`. */
  function DayOf(s: string): Option<nat> {
    if |s| == 1 && '1' <= s[0] <= '9' then Some(DigitValue(s[0]))
    else if |s| == 2 && s[0] == ' ' && '1' <= s[1] <= '9' then Some(DigitValue(s[1]))
    else if |s| == 2 && All(s, IsDigit) && 1 <= DigitsValue(s) <= 31 then Some(DigitsValue(s))
    else None
  }

  /**
   * `%H` (`2[0-3]|[0-1]\d|\d`), `%M` (`[0-5]\d|\d`) and `%S` (`6[0-1]|[0-5]\d|\d`):
   * one or two digits of value at most `max`.
   */
  function Number(s: string, max: nat): Option<nat> {
    if 1 <= |s| <= 2 && All(s, IsDigit) && DigitsValue(s) <= max then Some(DigitsValue(s)) else None
  }

  /** `%Y`: exactly four digits. */
  function YearOf(s: string): Option<nat> {
    if |s| == 4 && All(s, IsDigit) then Some(DigitsValue(s)) else None
  }

  function LowerChar(c: char): char {
    if 'A' <= c <= 'Z' then (c as int + 32) as char else c
  }

  function LowerAscii(s: string): (r: string)
    ensures |r| == |s|
    ensures forall i :: 0 <= i < |s| ==> r[i] == LowerChar(s[i])
  {
    if s == [] then [] else [LowerChar(s[0])] + LowerAscii(s[1..])
  }

  /** The C locale's abbreviated month names, lower-cased as `_strptime` keeps them. */
  const MonthAbbrs: seq<string> :=
    ["jan", "feb", "mar", "apr", "may", "jun", "jul", "aug", "sep", "oct", "nov", "dec"]

  /** The position of `k` in `keys`, as `list.index` finds it. */
  function IndexOf(keys: seq<string>, k: string): (r: Option<nat>)
    ensures r.Some? ==> r.value < |keys| && keys[r.value] == k
    ensures r.None? ==> k !in keys
  {
    if keys == [] then None
    else if keys[0] == k then Some(0)
    else match IndexOf(keys[1..], k) case Some(i) => Some(i + 1) case None => None
  }

  /** `%b` in the C locale, matched case-insensitively; months count from 1. */
  function MonthOf(s: string): (r: Option<nat>)
    ensures r.Some? ==> 1 <= r.value <= 12 && MonthAbbrs[r.value - 1] == LowerAscii(s)
    ensures r.None? ==> LowerAscii(s) !in MonthAbbrs
  {
    match IndexOf(MonthAbbrs, LowerAscii(s))
    case Some(i) => Some(i + 1)
    case None => None
  }

  /**
   * The seconds (and fraction) part of `%z`, `(:?[0-5]\d(\.\d{1,6})?)?`, in
   * microseconds. A colon must separate the seconds exactly when one separates
   * the minutes, or strptime raises.
   */
  function OffsetSeconds(rest: string, colon: bool): Option<nat> {
    if rest == [] then Some(0)
    else
      var colon2 := rest[0] == ':';
      var sec := if colon2 then rest[1..] else rest;
      if |sec| < 2 || !IsSixtyDigit(sec[0]) || !IsDigit(sec[1]) || colon != colon2 then None
      else
        var ss := DigitsValue(sec[..2]);
        var frac := sec[2..];
        if frac == [] then Some(ss * MicrosPerSecond)
        else if frac[0] != '.' || !(2 <= |frac| <= 7) || !All(frac[1..], IsDigit) then None
        else Some(ss * MicrosPerSecond + DigitsValue(frac[1..]) * Pow10(7 - |frac|))
  }

  /**
   * `%z`, `[+-]\d\d:?[0-5]\d(:?[0-5]\d(\.\d{1,6})?)?|Z`, which must reach the
   * end of the text, and the `timezone` bound of strictly less than a day.
   */
  function ParseOffset(z: string): Option<int> {
    if z == "Z" then Some(0)
    else if |z| < 5 || !(z[0] == '+' || z[0] == '-') || !IsDigit(z[1]) || !IsDigit(z[2]) then None
    else
      var colon := z[3] == ':';
      var m := if colon then z[4..] else z[3..];
      if |m| < 2 || !IsSixtyDigit(m[0]) || !IsDigit(m[1]) then None
      else
        var below :- OffsetSeconds(m[2..], colon);
        var total := (DigitsValue(z[1..3]) * 60 + DigitsValue(m[..2])) * MicrosPerMinute + below;
        var signed := if z[0] == '-' then -total else total;
        if -(MicrosPerDay as int) < signed < MicrosPerDay then Some(signed) else None
  }

  /** The texts of the seven directives, as the compiled format's regex separates them. */
  datatype FieldTexts = FieldTexts(
    day: string, month: string, year: string, hour: string, minute: string, second: string, zone: string)

  /** Cuts the text at the format's literal '/', '/', ':', ':', ':' and whitespace. */
  function Fields(s: string): Option<FieldTexts> {
    var (dayText, r1) :- Until(s, NotSlash, '/');
    var (monthText, r2) :- Until(r1, NotSlash, '/');
    var (yearText, r3) :- Until(r2, NotColon, ':');
    var (hourText, r4) :- Until(r3, NotColon, ':');
    var (minuteText, r5) :- Until(r4, NotColon, ':');
    var secondText := TakeWhile(r5, IsDigit);
    var r6 := r5[|secondText|..];
    var spaces := TakeWhile(r6, IsSpace);
    if spaces == [] then None
    else Some(FieldTexts(dayText, monthText, yearText, hourText, minuteText, secondText, r6[|spaces|..]))
  }

  /** Converts each field, then builds the datetime; `None` where a directive or a constructor refuses. */
  function Interpret(f: FieldTexts): (r: Option<DateTime>)
    ensures r.Some? ==> Valid(r.value)
  {
    var day :- DayOf(f.day);
    var month :- MonthOf(f.month);
    var year :- YearOf(f.year);
    var hour :- Number(f.hour, 23);
    var minute :- Number(f.minute, 59);
    var second :- Number(f.second, 61);
    var offset :- ParseOffset(f.zone);
    var t := DateTime(year, month, day, hour, minute, second, offset);
    if Valid(t) then Some(t) else None
  }

  /** `datetime.strptime(s, "%d/%b/%Y:%H:%M:%S %z")`; `None` where it raises ValueError. */
  function ParseTimestamp(s: string): (r: Option<DateTime>)
    ensures r.Some? ==> Valid(r.value)
  {
    var f :- Fields(s);
    Interpret(f)
  }

  // ---------------------------------------------------------------- isoformat

  /** `"%04d-%02d-%02dT%02d:%02d:%02d"` of the date and time fields. */
  function DatePart(t: DateTime): string {
    Pad(t.year, 4) + "-" + Pad(t.month, 2) + "-" + Pad(t.day, 2) + "T"
    + Pad(t.hour, 2) + ":" + Pad(t.minute, 2) + ":" + Pad(t.second, 2)
  }

  /** The seconds and microseconds of an offset magnitude, as isoformat appends them. */
  function SecondsSuffix(a: nat): string {
    var ss := (a / MicrosPerSecond) % 60;
    var us := a % MicrosPerSecond;
    if ss == 0 && us == 0 then []
    else ":" + Pad(ss, 2) + (if us == 0 then [] else "." + Pad(us, 6))
  }

  /** `datetime._format_offset`: sign, then `HH:MM`, then `:SS[.ffffff]` when non-zero. */
  function FormatOffset(offset: int): string {
    var a: nat := if offset < 0 then -offset else offset;
    [if offset < 0 then '-' else '+'] + Pad(a / MicrosPerHour, 2) + ":"
    + Pad((a / MicrosPerMinute) % 60, 2) + SecondsSuffix(a)
  }

  /** `t.isoformat()` (the microsecond field is always zero here). */
  function IsoFormat(t: DateTime): string {
    DatePart(t) + FormatOffset(t.offset)
  }

  /**
   * The serialiser as written: `t.isoformat().replace("+00:00", "Z")`. It
   * leaves the ISO text unchanged, except that an offset in [0, 1 minute) has
   * its "+00:00" replaced by "Z", including when seconds follow it.
   */
  function AsWrittenTimeText(t: DateTime): (r: string)
    ensures Valid(t) ==>
      r == (if 0 <= t.offset < MicrosPerMinute then DatePart(t) + "Z" + SecondsSuffix(t.offset) else IsoFormat(t))
  {
    if Valid(t) then (ReplaceUtcOffset(t); Replace(IsoFormat(t), "+00:00", "Z"))
    else Replace(IsoFormat(t), "+00:00", "Z")
  }

  /** The serialiser as intended: "Z" for UTC, the ISO offset otherwise. */
  function TimeText(t: DateTime): string {
    if t.offset == 0 then DatePart(t) + "Z" else IsoFormat(t)
  }

  // ---------------------------------------------------------------- what the serialiser emits

  lemma PadDigits(n: nat, w: nat)
    ensures All(Pad(n, w), IsDigit) && Pad(n, w) != []
  {
    if |Dec(n)| < w {
      LeadingZerosValue(Zeros(w - |Dec(n)|), Dec(n));
    }
  }

  lemma DigitsHaveNo(s: string, c: char)
    requires All(s, IsDigit) && !IsDigit(c)
    ensures c !in s
  {
  }

  lemma DatePartHasNoPlus(t: DateTime)
    ensures '+' !in DatePart(t)
  {
    PadDigits(t.year, 4);
    PadDigits(t.month, 2);
    PadDigits(t.day, 2);
    PadDigits(t.hour, 2);
    PadDigits(t.minute, 2);
    PadDigits(t.second, 2);
    DigitsHaveNo(Pad(t.year, 4), '+');
    DigitsHaveNo(Pad(t.month, 2), '+');
    DigitsHaveNo(Pad(t.day, 2), '+');
    DigitsHaveNo(Pad(t.hour, 2), '+');
    DigitsHaveNo(Pad(t.minute, 2), '+');
    DigitsHaveNo(Pad(t.second, 2), '+');
  }

  lemma SuffixHasNoPlus(a: nat)
    ensures '+' !in SecondsSuffix(a)
  {
    var ss := (a / MicrosPerSecond) % 60;
    var us := a % MicrosPerSecond;
    PadDigits(ss, 2);
    PadDigits(us, 6);
    DigitsHaveNo(Pad(ss, 2), '+');
    DigitsHaveNo(Pad(us, 6), '+');
  }

  /** Apart from its sign, an offset's text holds no '+'. */
  lemma OffsetTailHasNoPlus(offset: int)
    ensures FormatOffset(offset) != [] && '+' !in FormatOffset(offset)[1..]
  {
    var a: nat := if offset < 0 then -offset else offset;
    var h, m := Pad(a / MicrosPerHour, 2), Pad((a / MicrosPerMinute) % 60, 2);
    PadDigits(a / MicrosPerHour, 2);
    PadDigits((a / MicrosPerMinute) % 60, 2);
    DigitsHaveNo(h, '+');
    DigitsHaveNo(m, '+');
    SuffixHasNoPlus(a);
    SignedTail(if offset < 0 then '-' else '+', h, m, SecondsSuffix(a));
  }

  lemma SignedTail(sign: char, h: string, m: string, rest: string)
    requires '+' !in h && '+' !in m && '+' !in rest
    ensures '+' !in ([sign] + h + ":" + m + rest)[1..]
  {
    assert ([sign] + h + ":" + m + rest)[1..] == h + ":" + m + rest;
  }

  /** Hours and minutes of an offset magnitude under a day: both zero exactly below one minute. */
  lemma HoursMinutes(a: nat)
    requires a < MicrosPerDay
    ensures a / MicrosPerHour < 24 && (a / MicrosPerMinute) % 60 < 60
    ensures a < MicrosPerMinute <==> a / MicrosPerHour == 0 && (a / MicrosPerMinute) % 60 == 0
  {
    var m := a / MicrosPerMinute;
    assert a / MicrosPerHour == m / 60;
    assert m < 24 * 60;
    if a < MicrosPerMinute {
      assert m == 0;
    } else {
      assert m >= 1;
      if m / 60 == 0 {
        assert m % 60 == m;
      }
    }
  }

  lemma TwoDigits(n: nat)
    requires n < 100
    ensures |Pad(n, 2)| == 2 && (Pad(n, 2) == "00" <==> n == 0)
  {
    assert Pow10(2) == 100;
    PadValue(n, 2);
    assert DigitsValue("00") == 0;
  }

  /** The offset text begins with "+00:00" exactly for offsets in [0, 1 minute). */
  lemma OffsetFront(offset: int)
    requires -(MicrosPerDay as int) < offset < MicrosPerDay
    ensures |FormatOffset(offset)| >= 6
    ensures 0 <= offset < MicrosPerMinute ==> FormatOffset(offset) == "+00:00" + SecondsSuffix(offset)
    ensures !(0 <= offset < MicrosPerMinute) ==> FormatOffset(offset)[..6] != "+00:00"
  {
    var a: nat := if offset < 0 then -offset else offset;
    var hh := a / MicrosPerHour;
    var mm := (a / MicrosPerMinute) % 60;
    HoursMinutes(a);
    TwoDigits(hh);
    TwoDigits(mm);
    var sign := if offset < 0 then '-' else '+';
    OffsetPieces(sign, Pad(hh, 2), Pad(mm, 2), SecondsSuffix(a));
  }

  lemma OffsetPieces(sign: char, h: string, m: string, rest: string)
    requires |h| == 2 && |m| == 2
    ensures [sign] + h + ":" + m + rest == ([sign] + h + ":" + m) + rest
    ensures ([sign] + h + ":" + m == "+00:00") <==> sign == '+' && h == "00" && m == "00"
  {
    var f := [sign] + h + ":" + m;
    assert f[0] == sign && f[1..3] == h && f[4..6] == m;
    if sign == '+' && h == "00" && m == "00" {
      assert f == "+00:00";
    }
  }

  /** Replacing "+00:00" in the ISO text touches only an offset in [0, 1 minute). */
  lemma ReplaceUtcOffset(t: DateTime)
    requires Valid(t)
    ensures Replace(IsoFormat(t), "+00:00", "Z") ==
      if 0 <= t.offset < MicrosPerMinute then DatePart(t) + "Z" + SecondsSuffix(t.offset) else IsoFormat(t)
  {
    var o := FormatOffset(t.offset);
    DatePartHasNoPlus(t);
    OffsetFront(t.offset);
    OffsetTailHasNoPlus(t.offset);
    if 0 <= t.offset < MicrosPerMinute {
      SuffixHasNoPlus(t.offset);
      UtcReplaced(DatePart(t), SecondsSuffix(t.offset));
    } else {
      OffsetKept(DatePart(t), o);
    }
  }

  /** A "+00:00" after text without '+', followed by text without '+', is the only one replaced. */
  lemma UtcReplaced(d: string, suffix: string)
    requires '+' !in d && '+' !in suffix
    ensures Replace(d + ("+00:00" + suffix), "+00:00", "Z") == d + "Z" + suffix
  {
    ReplaceSkips(d, "+00:00" + suffix, "+00:00", "Z");
    ReplaceFront(suffix, "+00:00", "Z");
    ReplaceSkips(suffix, [], "+00:00", "Z");
    assert suffix + [] == suffix;
  }

  /** An offset text that does not begin with "+00:00" and has no other '+' is kept whole. */
  lemma OffsetKept(d: string, o: string)
    requires '+' !in d && |o| >= 6 && o[..6] != "+00:00" && '+' !in o[1..]
    ensures Replace(d + o, "+00:00", "Z") == d + o
  {
    ReplaceSkips(d, o, "+00:00", "Z");
    assert o == [o[0]] + o[1..];
    ReplaceSkips(o[1..], [], "+00:00", "Z");
    assert o[1..] + [] == o[1..];
    assert Replace(o, "+00:00", "Z") == [o[0]] + Replace(o[1..], "+00:00", "Z");
  }

  /**
   * The serialiser as written agrees with the intended one except for positive
   * offsets under a minute, which it renders as "Z" followed by the seconds.
   */
  lemma AsWrittenAgreesUnlessSubMinute(t: DateTime)
    requires Valid(t)
    ensures AsWrittenTimeText(t) == TimeText(t) <==> !(0 < t.offset < MicrosPerMinute)
  {
    if t.offset == 0 {
      assert SecondsSuffix(0) == [];
    } else if 0 < t.offset < MicrosPerMinute {
      OffsetFront(t.offset);
      var d := DatePart(t);
      assert AsWrittenTimeText(t)[|d|] == 'Z';
      assert TimeText(t) == d + ("+00:00" + SecondsSuffix(t.offset));
      assert TimeText(t)[|d|] == '+';
    }
  }

  /** A concrete case: an offset of +30 seconds is serialised as "Z:30". */
  lemma SubMinuteOffsetGarbled(t: DateTime)
    requires Valid(t) && t.offset == 30 * MicrosPerSecond
    ensures AsWrittenTimeText(t) == DatePart(t) + "Z:30"
  {
    ThirtySeconds();
  }

  lemma ThirtySeconds()
    ensures SecondsSuffix(30 * MicrosPerSecond) == ":30"
  {
    assert (30 * MicrosPerSecond) / MicrosPerSecond == 30;
    assert (30 * MicrosPerSecond) % MicrosPerSecond == 0;
    assert Pad(30, 2) == "30" by {
      DecValue(30);
      assert Dec(30) == "30";
    }
  }

  /**
   * The intended serialiser ends in "Z" exactly for UTC; any other offset is
   * left as isoformat writes it.
   */
  lemma TimeTextZuluIffUtc(t: DateTime)
    ensures TimeText(t) != []
    ensures TimeText(t)[|TimeText(t)| - 1] == 'Z' <==> t.offset == 0
    ensures t.offset != 0 ==> TimeText(t) == IsoFormat(t)
  {
    if t.offset != 0 {
      var a: nat := if t.offset < 0 then -t.offset else t.offset;
      var f := FormatOffset(t.offset);
      PadDigits((a / MicrosPerMinute) % 60, 2);
      PadDigits((a / MicrosPerSecond) % 60, 2);
      PadDigits(a % MicrosPerSecond, 6);
      assert f[|f| - 1] != 'Z';
      assert IsoFormat(t)[|IsoFormat(t)| - 1] == f[|f| - 1];
    }
  }

  // ---------------------------------------------------------------- nginx's $time_local

  /** The English month abbreviations nginx writes in `$time_local`. */
  function UpperChar(c: char): char {
    if 'a' <= c <= 'z' then (c as int - 32) as char else c
  }

  /** The month's abbreviation with a capital initial, as nginx writes it ("Oct"). */
  function MonthTitle(month: nat): string
    requires 1 <= month <= 12
  {
    var abbr := MonthAbbrs[month - 1];
    [UpperChar(abbr[0])] + abbr[1..]
  }

  /** nginx's `%z`-style offset, `+HHMM`, for an offset of whole minutes. */
  function NginxOffset(offset: int): string {
    var a: nat := if offset < 0 then -offset else offset;
    [if offset < 0 then '-' else '+'] + Pad(a / MicrosPerHour, 2) + Pad((a / MicrosPerMinute) % 60, 2)
  }

  /** `$time_local`, as in "10/Oct/2023:13:55:36 +0000". */
  function NginxText(t: DateTime): string
    requires 1 <= t.month <= 12
  {
    Pad(t.day, 2) + ("/" + (MonthTitle(t.month) + ("/" + (Pad(t.year, 4) + (":" + ClockText(t))))))
  }

  function ClockText(t: DateTime): string {
    Pad(t.hour, 2) + (":" + (Pad(t.minute, 2) + (":" + (Pad(t.second, 2) + (" " + NginxOffset(t.offset))))))
  }

  lemma UntilOf(x: string, c: char, rest: string, p: char -> bool)
    requires All(x, p) && !p(c)
    ensures Until(x + ([c] + rest), p, c) == Some((x, rest))
  {
    TakeWhileOf(x, [c] + rest, p);
    assert (x + ([c] + rest))[|x|..] == [c] + rest;
  }

  lemma MonthOfTitle(month: nat)
    requires 1 <= month <= 12
    ensures All(MonthTitle(month), NotSlash)
    ensures MonthOf(MonthTitle(month)) == Some(month)
  {
    var abbr := MonthAbbrs[month - 1];
    MonthAbbrsFacts();
    TitleLowered(abbr);
    IndexOfDistinct(MonthAbbrs, month - 1);
  }

  lemma MonthAbbrsFacts()
    ensures forall i :: 0 <= i < |MonthAbbrs| ==> |MonthAbbrs[i]| == 3 && All(MonthAbbrs[i], IsLowerLetter)
    ensures forall a, b :: 0 <= a < b < |MonthAbbrs| ==> MonthAbbrs[a] != MonthAbbrs[b]
  {
  }

  /** Capitalising a lower-case word's initial is undone by lower-casing, and adds no slash. */
  lemma TitleLowered(w: string)
    requires |w| > 0 && All(w, IsLowerLetter)
    ensures LowerAscii([UpperChar(w[0])] + w[1..]) == w
    ensures All([UpperChar(w[0])] + w[1..], NotSlash)
  {
    var s := [UpperChar(w[0])] + w[1..];
    assert forall i :: 0 <= i < |s| ==> LowerAscii(s)[i] == w[i];
  }

  predicate IsLowerLetter(c: char) { 'a' <= c <= 'z' }

  /** In a list without repeats, every key is found at its own position. */
  lemma {:induction false} IndexOfDistinct(keys: seq<string>, i: nat)
    requires i < |keys| && forall a, b :: 0 <= a < b < |keys| ==> keys[a] != keys[b]
    ensures IndexOf(keys, keys[i]) == Some(i)
  {
    if i > 0 {
      IndexOfDistinct(keys[1..], i - 1);
    }
  }

  lemma TwoDigitField(n: nat)
    requires n < 100
    ensures |Pad(n, 2)| == 2 && All(Pad(n, 2), IsDigit) && DigitsValue(Pad(n, 2)) == n
    ensures All(Pad(n, 2), NotColon) && All(Pad(n, 2), NotSlash)
    ensures DigitValue(Pad(n, 2)[0]) == n / 10
  {
    assert Pow10(2) == 100;
    PadValue(n, 2);
    var p := Pad(n, 2);
    assert p[..1] == [p[0]];
  }

  /** `%z` on five characters `[+-]HHMM` naming less than a day. */
  lemma ParseCompactOffset(z: string, total: nat)
    requires |z| == 5 && (z[0] == '+' || z[0] == '-')
    requires IsDigit(z[1]) && IsDigit(z[2]) && IsSixtyDigit(z[3]) && IsDigit(z[4])
    requires total == (DigitsValue(z[1..3]) * 60 + DigitsValue(z[3..5])) * MicrosPerMinute
    requires total < MicrosPerDay
    ensures ParseOffset(z) == Some(if z[0] == '-' then -(total as int) else total)
  {
    assert z != "Z" && z[3] != ':';
    var m := z[3..];
    assert m[..2] == z[3..5] && m[2..] == [];
    assert OffsetSeconds([], false) == Some(0);
  }

  /** An offset of whole minutes is its hours and minutes, recombined. */
  lemma WholeMinutes(a: nat)
    requires a < MicrosPerDay && a % MicrosPerMinute == 0
    ensures a == (a / MicrosPerHour * 60 + (a / MicrosPerMinute) % 60) * MicrosPerMinute
  {
    var m := a / MicrosPerMinute;
    assert a == m * MicrosPerMinute;
    assert a / MicrosPerHour == m / 60;
    assert m == m / 60 * 60 + m % 60;
  }

  lemma ParseHoursMinutes(sign: char, hh: nat, mm: nat, a: nat)
    requires sign == '+' || sign == '-'
    requires hh < 24 && mm < 60 && a == (hh * 60 + mm) * MicrosPerMinute && a < MicrosPerDay
    ensures ParseOffset([sign] + Pad(hh, 2) + Pad(mm, 2)) == Some(if sign == '-' then -(a as int) else a)
  {
    TwoDigitField(hh);
    TwoDigitField(mm);
    var z := [sign] + Pad(hh, 2) + Pad(mm, 2);
    assert z[1..3] == Pad(hh, 2) && z[3..5] == Pad(mm, 2);
    assert IsSixtyDigit(z[3]);
    ParseCompactOffset(z, a);
  }

  /** `%z` reads nginx's offset back, for an offset of whole minutes. */
  lemma ParseNginxOffset(offset: int)
    requires -(MicrosPerDay as int) < offset < MicrosPerDay && offset % MicrosPerMinute == 0
    ensures ParseOffset(NginxOffset(offset)) == Some(offset)
    ensures NginxOffset(offset)[0] == '+' || NginxOffset(offset)[0] == '-'
  {
    var a: nat := if offset < 0 then -offset else offset;
    HoursMinutes(a);
    MagnitudeWholeMinutes(offset);
    WholeMinutes(a);
    var sign := if offset < 0 then '-' else '+';
    var hh, mm := a / MicrosPerHour, (a / MicrosPerMinute) % 60;
    assert NginxOffset(offset) == [sign] + Pad(hh, 2) + Pad(mm, 2);
    ParseHoursMinutes(sign, hh, mm, a);
  }

  lemma MagnitudeWholeMinutes(offset: int)
    requires offset % MicrosPerMinute == 0
    ensures (if offset < 0 then -offset else offset) % MicrosPerMinute == 0
  {
    var q := offset / MicrosPerMinute;
    assert offset == q * MicrosPerMinute;
    if offset < 0 {
      assert -offset == (-q) * MicrosPerMinute;
    }
  }

  /** Each field nginx writes is read back by its strptime directive. */
  lemma NginxFields(t: DateTime)
    requires Valid(t)
    ensures DayOf(Pad(t.day, 2)) == Some(t.day) && All(Pad(t.day, 2), NotSlash)
    ensures YearOf(Pad(t.year, 4)) == Some(t.year) && All(Pad(t.year, 4), NotColon)
    ensures Number(Pad(t.hour, 2), 23) == Some(t.hour) && All(Pad(t.hour, 2), NotColon)
    ensures Number(Pad(t.minute, 2), 59) == Some(t.minute) && All(Pad(t.minute, 2), NotColon)
    ensures Number(Pad(t.second, 2), 61) == Some(t.second) && All(Pad(t.second, 2), IsDigit)
  {
    TwoDigitField(t.day);
    TwoDigitField(t.hour);
    TwoDigitField(t.minute);
    TwoDigitField(t.second);
    assert Pow10(4) == 10000;
    PadValue(t.year, 4);
  }

  /** strptime reads nginx's `$time_local` back to the instant it was written from. */
  lemma ParseNginxText(t: DateTime)
    requires Valid(t) && t.offset % MicrosPerMinute == 0
    ensures ParseTimestamp(NginxText(t)) == Some(t)
  {
    NginxFields(t);
    MonthOfTitle(t.month);
    ParseNginxOffset(t.offset);
    var off := NginxOffset(t.offset);
    var f := FieldTexts(Pad(t.day, 2), MonthTitle(t.month), Pad(t.year, 4), Pad(t.hour, 2),
      Pad(t.minute, 2), Pad(t.second, 2), off);
    NginxTextFields(t);
    assert Interpret(f) == Some(t);
  }

  lemma NginxTextFields(t: DateTime)
    requires Valid(t) && t.offset % MicrosPerMinute == 0
    ensures Fields(NginxText(t)) == Some(FieldTexts(Pad(t.day, 2), MonthTitle(t.month), Pad(t.year, 4),
      Pad(t.hour, 2), Pad(t.minute, 2), Pad(t.second, 2), NginxOffset(t.offset)))
  {
    NginxFields(t);
    MonthOfTitle(t.month);
    ParseNginxOffset(t.offset);
    FieldsOf(Pad(t.day, 2), MonthTitle(t.month), Pad(t.year, 4), Pad(t.hour, 2), Pad(t.minute, 2),
      Pad(t.second, 2), NginxOffset(t.offset));
  }

  /** The format's literals cut a text built from fields that do not contain them back into those fields. */
  lemma FieldsOf(d: string, mo: string, y: string, h: string, mi: string, se: string, zone: string)
    requires All(d, NotSlash) && All(mo, NotSlash)
    requires All(y, NotColon) && All(h, NotColon) && All(mi, NotColon) && All(se, IsDigit)
    requires zone != [] && !IsSpace(zone[0])
    ensures Fields(d + ("/" + (mo + ("/" + (y + (":" + (h + (":" + (mi + (":" + (se + (" " + zone))))))))))))
      == Some(FieldTexts(d, mo, y, h, mi, se, zone))
  {
    var r5 := se + (" " + zone);
    var r4 := mi + (":" + r5);
    var r3 := h + (":" + r4);
    var r2 := y + (":" + r3);
    var r1 := mo + ("/" + r2);
    UntilOf(d, '/', r1, NotSlash);
    UntilOf(mo, '/', r2, NotSlash);
    UntilOf(y, ':', r3, NotColon);
    UntilOf(h, ':', r4, NotColon);
    UntilOf(mi, ':', r5, NotColon);
    SecondsZone(se, zone);
  }

  lemma SecondsZone(se: string, zone: string)
    requires All(se, IsDigit) && zone != [] && !IsSpace(zone[0])
    ensures var r5 := se + (" " + zone);
      && TakeWhile(r5, IsDigit) == se && r5[|se|..] == " " + zone
      && TakeWhile(" " + zone, IsSpace) == " " && (" " + zone)[1..] == zone
  {
    TakeWhileOf(se, " " + zone, IsDigit);
    assert (se + (" " + zone))[|se|..] == " " + zone;
    TakeWhileOf(" ", zone, IsSpace);
  }
}
