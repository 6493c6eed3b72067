/** The ISO 8601 extended-format date-times that the schedule service sends in
    `fromPlace.dateTime` and `toPlace.dateTime` (the profile of section 5.6 of
    RFC 3339), restricted to the shape

        YYYY-MM-DD "T" HH:MM [":" SS] [ "Z" | ("+" | "-") HH:MM ]

    with the field ranges `datetime.fromisoformat` enforces, and the two
    `strftime` projections the results table shows: `%Y-%m-%d` and `%H:%M`.
    An offset is kept as written and never applied: the wall-clock fields are
    the ones in the text. */
module IsoTime {
  import opened Wrappers
  import opened Digits

  /** The time-zone part: none written, or a signed offset in minutes east of UTC ("Z" is 0). */
  datatype Zone = Naive | Offset(minutes: int)

  datatype DateTime = DateTime(year: nat, month: nat, day: nat,
                               hour: nat, minute: nat, second: nat, zone: Zone)

  predicate IsLeapYear(year: nat) {
    year % 4 == 0 && (year % 100 != 0 || year % 400 == 0)
  }

  function DaysInMonth(year: nat, month: nat): nat {
    if month == 2 then (if IsLeapYear(year) then 29 else 28)
    else if month == 4 || month == 6 || month == 9 || month == 11 then 30
    else 31
  }

  /** The ranges `datetime` accepts: years 1 to 9999, real calendar days,
      seconds below 60, offsets strictly inside one day. */
  predicate ValidDateTime(t: DateTime) {
    1 <= t.year <= 9999 && 1 <= t.month <= 12 && 1 <= t.day <= DaysInMonth(t.year, t.month) &&
    t.hour < 24 && t.minute < 60 && t.second < 60 &&
    (t.zone.Offset? ==> -1440 < t.zone.minutes < 1440)
  }

  /** The optional `:SS` after `HH:MM`: the seconds (0 when absent) and the text after them. */
  function SecondsPart(rest: string): Option<(nat, string)> {
    if |rest| > 0 && rest[0] == ':' then
      if |rest| >= 3 && AllDigits(rest[1..3]) then Some((ValueOf(rest[1..3]), rest[3..])) else None
    else Some((0, rest))
  }

  /** The optional zone designator at the end of the text. */
  function ZonePart(z: string): Option<Zone> {
    if z == "" then Some(Naive)
    else if z == "Z" then Some(Offset(0))
    else if |z| == 6 && (z[0] == '+' || z[0] == '-') && z[3] == ':' &&
            AllDigits(z[1..3]) && AllDigits(z[4..6]) &&
            ValueOf(z[1..3]) < 24 && ValueOf(z[4..6]) < 60 then
      var size := ValueOf(z[1..3]) * 60 + ValueOf(z[4..6]);
      Some(Offset(if z[0] == '-' then -size else size))
    else None
  }

  /** The date-time made of the five leading fields and the text after `HH:MM`,
      when that text is a valid seconds-and-zone tail and the fields are in range. */
  function Assemble(year: nat, month: nat, day: nat, hour: nat, minute: nat, rest: string): Option<DateTime> {
    match SecondsPart(rest)
    case None => None
    case Some((second, zoneText)) =>
      match ZonePart(zoneText)
      case None => None
      case Some(zone) =>
        var t := DateTime(year, month, day, hour, minute, second, zone);
        if ValidDateTime(t) then Some(t) else None
  }

  /** `datetime.fromisoformat` on the restricted shape: None where Python raises ValueError. */
  function Parse(s: string): (t: Option<DateTime>)
    ensures t.Some? ==> ValidDateTime(t.value) && |s| >= 16 && s[10] == 'T'
    ensures t.Some? ==> s[4] == '-' && s[7] == '-' && s[13] == ':'
    ensures t.Some? ==> AllDigits(s[0..4]) && AllDigits(s[5..7]) && AllDigits(s[8..10]) &&
                        AllDigits(s[11..13]) && AllDigits(s[14..16])
  {
    if |s| < 16 || s[4] != '-' || s[7] != '-' || s[10] != 'T' || s[13] != ':' then None
    else if !(AllDigits(s[0..4]) && AllDigits(s[5..7]) && AllDigits(s[8..10]) &&
              AllDigits(s[11..13]) && AllDigits(s[14..16])) then None
    else Assemble(ValueOf(s[0..4]), ValueOf(s[5..7]), ValueOf(s[8..10]),
                  ValueOf(s[11..13]), ValueOf(s[14..16]), s[16..])
  }

  /** `strftime("%Y-%m-%d")`. */
  function DateText(t: DateTime): (r: string)
    ensures |r| == 10
  {
    Pad(t.year, 4) + "-" + Pad(t.month, 2) + "-" + Pad(t.day, 2)
  }

  /** `strftime("%H:%M")`: the wall-clock time as stored, with no zone conversion. */
  function ClockText(t: DateTime): (r: string)
    ensures |r| == 5
  {
    Pad(t.hour, 2) + ":" + Pad(t.minute, 2)
  }

  function ZoneText(zone: Zone): string {
    match zone
    case Naive => ""
    case Offset(m) =>
      var size := if m < 0 then -m else m;
      (if m < 0 then "-" else "+") + Pad(size / 60, 2) + ":" + Pad(size % 60, 2)
  }

  /** `datetime.isoformat()` for a value with no microseconds. */
  function Format(t: DateTime): string {
    DateText(t) + "T" + ClockText(t) + ":" + Pad(t.second, 2) + ZoneText(t.zone)
  }

  /** Where the fields of a written offset `±HH:MM` sit. */
  lemma OffsetSlices(sign: char, hh: string, mm: string)
    requires |hh| == 2 && |mm| == 2
    ensures var z := [sign] + hh + ":" + mm;
      |z| == 6 && z[0] == sign && z[3] == ':' && z[1..3] == hh && z[4..6] == mm
  {
    var z := [sign] + hh + ":" + mm;
    assert z[1..3] == hh && z[4..6] == mm;
  }

  /** An offset `±HH:MM` with digit fields in range reads as the signed number of minutes. */
  lemma ZonePartFromFields(sign: char, hh: string, mm: string)
    requires sign == '+' || sign == '-'
    requires |hh| == 2 && |mm| == 2 && AllDigits(hh) && AllDigits(mm)
    requires ValueOf(hh) < 24 && ValueOf(mm) < 60
    ensures ZonePart([sign] + hh + ":" + mm)
         == Some(Offset(if sign == '-' then -(ValueOf(hh) * 60 + ValueOf(mm)) else ValueOf(hh) * 60 + ValueOf(mm)))
  {
    hide ValueOf, AllDigits;
    OffsetSlices(sign, hh, mm);
  }

  /** A written offset `±HH:MM` reads back as the signed number of minutes. */
  lemma ZonePartOffsetText(sign: char, hours: nat, minutes: nat)
    requires sign == '+' || sign == '-'
    requires hours < 24 && minutes < 60
    ensures ZonePart([sign] + Pad(hours, 2) + ":" + Pad(minutes, 2))
         == Some(Offset(if sign == '-' then -(hours * 60 + minutes) else hours * 60 + minutes))
  {
    hide ValueOf, AllDigits, Pad;
    assert Pow10(2) == 100;
    ValueOfPad(hours, 2);
    ValueOfPad(minutes, 2);
    ZonePartFromFields(sign, Pad(hours, 2), Pad(minutes, 2));
  }

  /** A day's worth of minutes splits into hours below 24 and minutes below 60. */
  lemma MinutesSplit(size: nat)
    requires size < 1440
    ensures size / 60 * 60 + size % 60 == size && size / 60 < 24 && size % 60 < 60
  {
  }

  /** A whole-minute offset strictly inside a day is read back from its written form. */
  lemma ZonePartOffset(m: int)
    requires -1440 < m < 1440
    ensures ZonePart(ZoneText(Offset(m))) == Some(Offset(m))
  {
    hide ValueOf, AllDigits, ZonePart, Pad;
    var size := if m < 0 then -m else m;
    var hours, minutes := size / 60, size % 60;
    var sign := if m < 0 then '-' else '+';
    MinutesSplit(size);
    assert ZoneText(Offset(m)) == [sign] + Pad(hours, 2) + ":" + Pad(minutes, 2);
    ZonePartOffsetText(sign, hours, minutes);
  }

  /** Every zone `datetime` can hold is read back from its written form. */
  lemma ZonePartZoneText(zone: Zone)
    requires zone.Offset? ==> -1440 < zone.minutes < 1440
    ensures ZonePart(ZoneText(zone)) == Some(zone)
  {
    if zone.Offset? {
      ZonePartOffset(zone.minutes);
    }
  }

  /** The seconds field and the zone that follows it are read back. */
  lemma SecondsPartText(second: nat, zone: Zone)
    requires second < 60
    ensures SecondsPart(":" + Pad(second, 2) + ZoneText(zone)) == Some((second, ZoneText(zone)))
  {
    hide ValueOf, AllDigits;
    assert Pow10(2) == 100;
    ValueOfPad(second, 2);
    var ss, zt := Pad(second, 2), ZoneText(zone);
    var rest := ":" + ss + zt;
    assert rest[1..3] == ss && rest[3..] == zt;
  }

  /** The tail after `HH:MM` written by Format is read back to the same date-time. */
  lemma AssembleFormatted(t: DateTime)
    requires ValidDateTime(t)
    ensures Assemble(t.year, t.month, t.day, t.hour, t.minute,
                     ":" + Pad(t.second, 2) + ZoneText(t.zone)) == Some(t)
  {
    hide ValueOf, AllDigits, Pad, SecondsPart, ZonePart;
    SecondsPartText(t.second, t.zone);
    ZonePartZoneText(t.zone);
  }

  /** Where the fields of an assembled text sit. */
  lemma FieldSlices(yyyy: string, mo: string, dd: string, hh: string, mi: string, rest: string)
    requires |yyyy| == 4 && |mo| == 2 && |dd| == 2 && |hh| == 2 && |mi| == 2
    ensures var s := yyyy + "-" + mo + "-" + dd + "T" + hh + ":" + mi + rest;
      |s| >= 16 && s[4] == '-' && s[7] == '-' && s[10] == 'T' && s[13] == ':' &&
      s[0..4] == yyyy && s[5..7] == mo && s[8..10] == dd &&
      s[11..13] == hh && s[14..16] == mi && s[16..] == rest
  {
  }

  /** A text assembled from digit fields that read as those of `t`, followed
      by a tail that completes `t`, parses to `t`. */
  lemma ParseFromFields(yyyy: string, mo: string, dd: string, hh: string, mi: string, rest: string, t: DateTime)
    requires |yyyy| == 4 && |mo| == 2 && |dd| == 2 && |hh| == 2 && |mi| == 2
    requires AllDigits(yyyy) && AllDigits(mo) && AllDigits(dd) && AllDigits(hh) && AllDigits(mi)
    requires ValueOf(yyyy) == t.year && ValueOf(mo) == t.month && ValueOf(dd) == t.day
    requires ValueOf(hh) == t.hour && ValueOf(mi) == t.minute
    requires Assemble(t.year, t.month, t.day, t.hour, t.minute, rest) == Some(t)
    ensures Parse(yyyy + "-" + mo + "-" + dd + "T" + hh + ":" + mi + rest) == Some(t)
  {
    hide ValueOf, AllDigits, Assemble;
    FieldSlices(yyyy, mo, dd, hh, mi, rest);
  }

  /** Format laid out field by field. */
  lemma FormatFields(t: DateTime)
    ensures Format(t) == Pad(t.year, 4) + "-" + Pad(t.month, 2) + "-" + Pad(t.day, 2) + "T" +
                         Pad(t.hour, 2) + ":" + Pad(t.minute, 2) + (":" + Pad(t.second, 2) + ZoneText(t.zone))
  {
  }

  /** Every valid date-time survives formatting and parsing back. */
  lemma ParseFormat(t: DateTime)
    requires ValidDateTime(t)
    ensures Parse(Format(t)) == Some(t)
  {
    hide ValueOf, AllDigits, Pad, Parse, Format, Assemble;
    assert Pow10(2) == 100 && Pow10(4) == 10000;
    ValueOfPad(t.year, 4);
    ValueOfPad(t.month, 2);
    ValueOfPad(t.day, 2);
    ValueOfPad(t.hour, 2);
    ValueOfPad(t.minute, 2);
    AssembleFormatted(t);
    ParseFromFields(Pad(t.year, 4), Pad(t.month, 2), Pad(t.day, 2), Pad(t.hour, 2), Pad(t.minute, 2),
                    ":" + Pad(t.second, 2) + ZoneText(t.zone), t);
    FormatFields(t);
  }

  /** The two projections the table shows are the characters of the text as
      written: the date is its first ten characters and the clock time the
      five after the "T", whatever offset follows. */
  lemma ProjectionsAsWritten(s: string, t: DateTime)
    requires Parse(s) == Some(t)
    ensures DateText(t) == s[..10]
    ensures ClockText(t) == s[11..16]
  {
    hide ValueOf, AllDigits, Pad, SecondsPart, ZonePart, ValidDateTime;
    PadValueOf(s[0..4]);
    PadValueOf(s[5..7]);
    PadValueOf(s[8..10]);
    PadValueOf(s[11..13]);
    PadValueOf(s[14..16]);
    assert s[..10] == s[0..4] + "-" + s[5..7] + "-" + s[8..10];
    assert s[11..16] == s[11..13] + ":" + s[14..16];
  }
}
