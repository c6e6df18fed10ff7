/** The parts of Python's `datetime` that the date normalisation relies on:
    the record that `datetime.fromisoformat` produces (parsing itself is an
    oracle supplied by the caller), `replace(hour=0, minute=0, second=0)`,
    `isoformat()` with its default `timespec='auto'`, and
    `str.replace(pattern, "")`. */
module IsoDateTime {
  import opened Wrappers

  /** A parsed timestamp. `offset` is the UTC offset in microseconds east
      of UTC (`None` for a naive datetime). */
  datatype DateTime = DateTime(
    year: nat, month: nat, day: nat,
    hour: nat, minute: nat, second: nat, microsecond: nat,
    offset: Option<int>)

  const MicrosPerSecond: nat := 1000000
  const MicrosPerMinute: nat := 60000000
  const MicrosPerHour: nat := 3600000000

  /** The ranges `datetime` enforces on its fields. */
  predicate Valid(dt: DateTime) {
    1 <= dt.year <= 9999 && 1 <= dt.month <= 12 && 1 <= dt.day <= 31 &&
    dt.hour < 24 && dt.minute < 60 && dt.second < 60 && dt.microsecond < MicrosPerSecond &&
    (dt.offset.Some? ==> -24 * MicrosPerHour < dt.offset.value < 24 * MicrosPerHour)
  }

  /** `dt.replace(hour=0).replace(minute=0).replace(second=0)`. */
  function Midnight(dt: DateTime): (r: DateTime)
    ensures r.hour == 0 && r.minute == 0 && r.second == 0
    ensures r.year == dt.year && r.month == dt.month && r.day == dt.day
    ensures r.microsecond == dt.microsecond && r.offset == dt.offset
  {
    dt.(hour := 0, minute := 0, second := 0)
  }

  // ---------------------------------------------------------------------
  // Decimal text, as `"%0<width>d" % n`
  // ---------------------------------------------------------------------

  function DigitChar(d: nat): (c: char)
    requires d < 10
    ensures '0' <= c <= '9'
  {
    (48 + d) as char
  }

  /** The decimal digits of `n`, most significant first, without padding. */
  function Digits(n: nat): (s: string)
    ensures |s| >= 1 && '+' !in s
  {
    if n < 10 then [DigitChar(n)] else Digits(n / 10) + [DigitChar(n % 10)]
  }

  /** `count` zero characters. */
  function Zeros(count: nat): (s: string)
    ensures |s| == count && '+' !in s
  {
    if count == 0 then "" else "0" + Zeros(count - 1)
  }

  /** `"%0<width>d" % n`: the digits of `n`, left-padded with zeros. */
  function Pad(n: nat, width: nat): (s: string)
    ensures |s| >= width && '+' !in s
  {
    var ds := Digits(n);
    if |ds| >= width then ds else Zeros(width - |ds|) + ds
  }

  /** Two-digit padding of a number below 100 is its tens and units. */
  lemma Pad2(n: nat)
    requires n < 100
    ensures Pad(n, 2) == [DigitChar(n / 10), DigitChar(n % 10)]
    ensures Pad(n, 2) == "00" <==> n == 0
  {
    if n >= 10 {
      assert Digits(n) == Digits(n / 10) + [DigitChar(n % 10)];
    }
  }

  function Pow10(k: nat): (p: nat)
    ensures p >= 1
  {
    if k == 0 then 1 else 10 * Pow10(k - 1)
  }

  /** A number below 10^k has at most k digits. */
  lemma {:induction false} DigitsFit(n: nat, k: nat)
    requires 1 <= k && n < Pow10(k)
    ensures |Digits(n)| <= k
  {
    if n >= 10 {
      assert n / 10 < Pow10(k - 1);
      DigitsFit(n / 10, k - 1);
    }
  }

  /** Padding a number below 10^width to `width` gives exactly `width`
      characters. */
  lemma PadFits(n: nat, width: nat)
    requires 1 <= width && n < Pow10(width)
    ensures |Pad(n, width)| == width
  {
    DigitsFit(n, width);
  }

  // ---------------------------------------------------------------------
  // datetime.isoformat()
  // ---------------------------------------------------------------------

  /** `"%04d-%02d-%02d" % (year, month, day)`. */
  function DateText(dt: DateTime): string {
    Pad(dt.year, 4) + "-" + Pad(dt.month, 2) + "-" + Pad(dt.day, 2)
  }

  /** The fractional part `isoformat` prints: nothing for zero
      microseconds, otherwise a dot and six digits. */
  function FractionText(microsecond: nat): string {
    if microsecond == 0 then "" else "." + Pad(microsecond, 6)
  }

  /** `_format_time` with `timespec='auto'`. */
  function TimeText(dt: DateTime): string {
    Pad(dt.hour, 2) + ":" + Pad(dt.minute, 2) + ":" + Pad(dt.second, 2) + FractionText(dt.microsecond)
  }

  /** The seconds and microseconds `_format_offset` appends to an offset:
      nothing when both are zero, seconds when either is not, and
      microseconds only when they are not zero. */
  function SecondsText(rest: nat): string {
    if rest == 0 then ""
    else ":" + Pad(rest / MicrosPerSecond, 2) +
         (if rest % MicrosPerSecond == 0 then "" else "." + Pad(rest % MicrosPerSecond, 6))
  }

  /** The size of an offset, whichever its direction. */
  function Magnitude(offset: int): nat {
    if offset < 0 then -offset else offset
  }

  /** `_format_offset`: sign, then hours and minutes, then `SecondsText`.
      A zero offset is written "+00:00". */
  function OffsetText(offset: int): string {
    var sign := if offset < 0 then "-" else "+";
    var magnitude := Magnitude(offset);
    sign + (Pad(magnitude / MicrosPerHour, 2) + ":" + Pad((magnitude % MicrosPerHour) / MicrosPerMinute, 2)) +
    SecondsText(magnitude % MicrosPerMinute)
  }

  /** `datetime.isoformat()`. */
  function IsoFormat(dt: DateTime): string {
    DateText(dt) + "T" + TimeText(dt) + (if dt.offset.None? then "" else OffsetText(dt.offset.value))
  }

  /** For every valid datetime the fields have their fixed widths: the
      date is "YYYY-MM-DD", and the time is "HH:MM:SS" followed by nothing
      or by a dot and six digits. */
  lemma FixedWidths(dt: DateTime)
    requires Valid(dt)
    ensures |DateText(dt)| == 10
    ensures |TimeText(dt)| == if dt.microsecond == 0 then 8 else 15
  {
    assert Pow10(2) == 100 && Pow10(4) == 10000 && Pow10(6) == 1000000;
    PadFits(dt.year, 4);
    PadFits(dt.month, 2);
    PadFits(dt.day, 2);
    PadFits(dt.hour, 2);
    PadFits(dt.minute, 2);
    PadFits(dt.second, 2);
    if dt.microsecond != 0 {
      PadFits(dt.microsecond, 6);
    }
  }

  // ---------------------------------------------------------------------
  // str.replace(pattern, "")
  // ---------------------------------------------------------------------

  /** `s.replace(pattern, "")`: scanning left to right, every occurrence of
      `pattern` that does not overlap an earlier removed one is dropped. */
  function RemoveAll(s: string, pattern: string): (r: string)
    requires pattern != []
    ensures |r| <= |s|
    decreases |s|
  {
    if |s| < |pattern| then s
    else if s[..|pattern|] == pattern then RemoveAll(s[|pattern|..], pattern)
    else [s[0]] + RemoveAll(s[1..], pattern)
  }

  /** Text holding no '+' loses nothing to the removal of a pattern that
      starts with '+', even when followed by more text. */
  lemma {:induction false} RemoveAllKeepsPlusFreePrefix(a: string, b: string, pattern: string)
    requires pattern != [] && pattern[0] == '+'
    requires '+' !in a
    ensures RemoveAll(a + b, pattern) == a + RemoveAll(b, pattern)
  {
    if a != [] {
      var s := a + b;
      assert s[1..] == a[1..] + b;
      assert a[0] in a && a == [a[0]] + a[1..];
      RemoveAllKeepsPlusFreePrefix(a[1..], b, pattern);
      if |s| < |pattern| {
        assert RemoveAll(b, pattern) == b;
        assert RemoveAll(s, pattern) == s;
      } else {
        assert s[..|pattern|][0] == a[0] != pattern[0];
        assert RemoveAll(s, pattern) == [a[0]] + RemoveAll(a[1..] + b, pattern);
        assert a == [a[0]] + a[1..];
        assert RemoveAll(s, pattern) == [a[0]] + (a[1..] + RemoveAll(b, pattern));
      }
    } else {
      assert a + b == b;
    }
  }

  /** The pattern the date normalisation removes. */
  const UtcSuffix: string := "+00:00"

  /** Removing "+00:00" from a string without '+' changes nothing. */
  lemma RemoveUtcFromPlusFree(a: string)
    requires '+' !in a
    ensures RemoveAll(a, UtcSuffix) == a
  {
    RemoveAllKeepsPlusFreePrefix(a, "", UtcSuffix);
    assert a + "" == a;
  }

  /** The text `isoformat` writes before the offset never holds a '+'. */
  lemma LocalTextPlusFree(dt: DateTime)
    ensures '+' !in DateText(dt) + "T" + TimeText(dt)
  {
  }

  /** What `str.replace("+00:00", "")` leaves of an offset. The zero offset
      disappears; an offset of less than a minute east of UTC loses its
      "+00:00" and keeps its seconds; every other offset is kept whole. */
  function OffsetAfterUtcRemoval(offset: int): string {
    if 0 <= offset < MicrosPerMinute then SecondsText(offset) else OffsetText(offset)
  }

  lemma SecondsTextPlusFree(rest: nat)
    ensures '+' !in SecondsText(rest)
  {
  }

  /** Hours and minutes of an offset below one minute are both zero. */
  lemma SubMinuteFields(magnitude: nat)
    requires magnitude < MicrosPerMinute
    ensures magnitude / MicrosPerHour == 0 && (magnitude % MicrosPerHour) / MicrosPerMinute == 0
    ensures magnitude % MicrosPerMinute == magnitude
  {
  }

  /** An offset of a minute or more has a non-zero hour or minute field. */
  lemma WholeMinuteFields(magnitude: nat)
    requires MicrosPerMinute <= magnitude < 24 * MicrosPerHour
    ensures magnitude / MicrosPerHour < 24 && (magnitude % MicrosPerHour) / MicrosPerMinute < 60
    ensures magnitude / MicrosPerHour > 0 || (magnitude % MicrosPerHour) / MicrosPerMinute > 0
  {
    if magnitude < MicrosPerHour {
      assert magnitude % MicrosPerHour == magnitude;
    }
  }

  /** The hour and minute fields of an offset below a day: both in range,
      both zero exactly when the offset is below a minute. */
  lemma OffsetFields(magnitude: nat)
    requires magnitude < 24 * MicrosPerHour
    ensures magnitude / MicrosPerHour < 24 && (magnitude % MicrosPerHour) / MicrosPerMinute < 60
    ensures (magnitude / MicrosPerHour == 0 && (magnitude % MicrosPerHour) / MicrosPerMinute == 0) <==>
              magnitude < MicrosPerMinute
    ensures magnitude < MicrosPerMinute ==> magnitude % MicrosPerMinute == magnitude
  {
    if magnitude < MicrosPerMinute {
      SubMinuteFields(magnitude);
    } else {
      WholeMinuteFields(magnitude);
    }
  }

  /** The "HH:MM" field of an offset: five characters without '+', which
      read "00:00" exactly when both fields are zero. */
  lemma HoursMinutesText(hours: nat, minutes: nat)
    requires hours < 24 && minutes < 60
    ensures var hm := Pad(hours, 2) + ":" + Pad(minutes, 2);
      |hm| == 5 && '+' !in hm &&
      (hm == "00:00" <==> hours == 0 && minutes == 0)
  {
    Pad2(hours);
    Pad2(minutes);
    var hm := Pad(hours, 2) + ":" + Pad(minutes, 2);
    assert hm[..2] == Pad(hours, 2) && hm[3..] == Pad(minutes, 2);
  }

  /** The "HH:MM" field and the seconds of an offset below a day, as
      `OffsetText` writes them from its magnitude. */
  lemma OffsetFieldsText(magnitude: nat)
    requires magnitude < 24 * MicrosPerHour
    ensures var hm := Pad(magnitude / MicrosPerHour, 2) + ":" + Pad((magnitude % MicrosPerHour) / MicrosPerMinute, 2);
      |hm| == 5 && '+' !in hm && (hm == "00:00" <==> magnitude < MicrosPerMinute)
    ensures '+' !in SecondsText(magnitude % MicrosPerMinute)
    ensures magnitude < MicrosPerMinute ==> magnitude % MicrosPerMinute == magnitude
  {
    OffsetFields(magnitude);
    HoursMinutesText(magnitude / MicrosPerHour, (magnitude % MicrosPerHour) / MicrosPerMinute);
    SecondsTextPlusFree(magnitude % MicrosPerMinute);
  }

  /** The text of an offset as its sign, its "HH:MM" field and its
      `SecondsText`. */
  lemma OffsetTextParts(offset: int) returns (sign: string, hm: string, tail: string)
    requires -24 * MicrosPerHour < offset < 24 * MicrosPerHour
    ensures OffsetText(offset) == sign + hm + tail
    ensures sign == (if offset < 0 then "-" else "+")
    ensures |hm| == 5
    ensures (hm == "00:00") <==> Magnitude(offset) < MicrosPerMinute
    ensures '+' !in hm
    ensures 0 <= offset < MicrosPerMinute ==> tail == SecondsText(offset)
    ensures '+' !in tail
  {
    var magnitude := Magnitude(offset);
    var hours := magnitude / MicrosPerHour;
    var minutes := (magnitude % MicrosPerHour) / MicrosPerMinute;
    sign := if offset < 0 then "-" else "+";
    hm := Pad(hours, 2) + ":" + Pad(minutes, 2);
    tail := SecondsText(magnitude % MicrosPerMinute);
    assert OffsetText(offset) == sign + hm + tail;
    OffsetFieldsText(magnitude);
  }

  /** Removing "+00:00" from a sign, an "HH:MM" field and a tail, none of
      them holding '+' beyond the sign: only the text "+00:00" goes. */
  lemma RemoveUtcFromParts(sign: string, hm: string, tail: string)
    requires sign == "-" || sign == "+"
    requires |hm| == 5 && '+' !in hm
    requires '+' !in tail
    ensures RemoveAll(sign + hm + tail, UtcSuffix) ==
              if sign + hm == UtcSuffix then tail else sign + hm + tail
  {
    var text := sign + hm + tail;
    if sign == "-" {
      RemoveUtcFromPlusFree(text);
    } else {
      assert text[..6] == sign + hm;
      if sign + hm == UtcSuffix {
        assert text[6..] == tail;
        RemoveUtcFromPlusFree(tail);
      } else {
        assert text[1..] == hm + tail;
        RemoveUtcFromPlusFree(hm + tail);
      }
    }
  }

  /** Removing "+00:00" from an offset's text leaves `OffsetAfterUtcRemoval`. */
  lemma RemoveUtcFromOffset(offset: int)
    requires -24 * MicrosPerHour < offset < 24 * MicrosPerHour
    ensures RemoveAll(OffsetText(offset), UtcSuffix) == OffsetAfterUtcRemoval(offset)
  {
    var sign, hm, tail := OffsetTextParts(offset);
    RemoveUtcFromParts(sign, hm, tail);
    assert sign + hm == UtcSuffix <==> sign == "+" && hm == "00:00" by {
      assert (sign + hm)[0] == sign[0] && (sign + hm)[1..] == hm;
    }
  }

  /** `isoformat()` followed by `replace("+00:00", "")`: the local part is
      untouched and only the offset is affected, as `OffsetAfterUtcRemoval`
      says. */
  lemma IsoFormatWithoutUtc(dt: DateTime)
    requires Valid(dt)
    ensures RemoveAll(IsoFormat(dt), UtcSuffix) ==
              DateText(dt) + "T" + TimeText(dt) +
              (if dt.offset.None? then "" else OffsetAfterUtcRemoval(dt.offset.value))
  {
    var local := DateText(dt) + "T" + TimeText(dt);
    LocalTextPlusFree(dt);
    if dt.offset.None? {
      assert IsoFormat(dt) == local;
      RemoveUtcFromPlusFree(local);
    } else {
      assert IsoFormat(dt) == local + OffsetText(dt.offset.value);
      RemoveAllKeepsPlusFreePrefix(local, OffsetText(dt.offset.value), UtcSuffix);
      RemoveUtcFromOffset(dt.offset.value);
    }
  }

  // ---------------------------------------------------------------------
  // Examples of the exact text
  // ---------------------------------------------------------------------

  lemma TwoHoursOffsetText(offset: int)
    requires offset == 7200000000
    ensures OffsetText(offset) == "+02:00"
  {
    Pad2(2);
    Pad2(0);
    assert SecondsText(0) == "";
  }

  lemma DateTextExample(dt: DateTime)
    requires dt.year == 2024 && dt.month == 3 && dt.day == 5
    ensures DateText(dt) == "2024-03-05"
  {
    Pad2(3);
    Pad2(5);
    assert Digits(2024) == "2024";
  }

  /** Microseconds are written with six digits after a dot. */
  lemma FractionTextExample(microsecond: nat)
    requires microsecond == 5
    ensures FractionText(microsecond) == ".000005"
  {
    assert Digits(5) == "5";
    assert Zeros(5) == "00000";
  }

  /** An offset west of UTC gets a '-' sign: -5 h 30 min is "-05:30". */
  lemma WestOffsetTextExample(offset: int)
    requires offset == -19800000000
    ensures OffsetText(offset) == "-05:30"
  {
    assert Magnitude(offset) == 19800000000;
    Pad2(5);
    Pad2(30);
    assert SecondsText(0) == "";
  }

  /** `isoformat` of an aware datetime from the text of its parts. */
  lemma IsoFormatFromParts(dt: DateTime, date: string, time: string, offset: string)
    requires dt.offset.Some?
    requires DateText(dt) == date && TimeText(dt) == time && OffsetText(dt.offset.value) == offset
    ensures IsoFormat(dt) == date + "T" + time + offset
  {
  }

  /** `isoformat` of 2024-03-05 00:00:00.000005 at UTC-05:30. */
  lemma IsoFormatExample(dt: DateTime)
    requires dt.year == 2024 && dt.month == 3 && dt.day == 5
    requires dt.hour == 0 && dt.minute == 0 && dt.second == 0 && dt.microsecond == 5
    requires dt.offset == Some(-19800000000)
    ensures IsoFormat(dt) == "2024-03-05" + "T" + "00:00:00.000005" + "-05:30"
  {
    DateTextExample(dt);
    Pad2(0);
    FractionTextExample(dt.microsecond);
    WestOffsetTextExample(dt.offset.value);
    assert TimeText(dt) == "00:00:00" + ".000005";
    IsoFormatFromParts(dt, "2024-03-05", "00:00:00.000005", "-05:30");
  }

  /** Thirty seconds east of UTC is "+00:00:30", and removing "+00:00"
      leaves ":30". */
  lemma SubMinuteOffsetExample(offset: int)
    requires offset == 30000000
    ensures OffsetText(offset) == "+00:00:30"
    ensures RemoveAll(OffsetText(offset), UtcSuffix) == ":30"
  {
    Pad2(0);
    Pad2(30);
    assert SecondsText(offset) == ":30";
    assert OffsetText(offset) == "+" + ("00" + ":" + "00") + ":30";
    RemoveUtcFromOffset(offset);
  }

  /** The removal scans once from the left: in "+0+00:0000:00" only the
      occurrence at the third character is removed, giving "+000:00". */
  lemma RemoveAllOnePassExample(s: string)
    requires s == "+0+00:0000:00"
    ensures RemoveAll(s, UtcSuffix) == "+000:00"
  {
    assert s[..6][2] != UtcSuffix[2] && s[1..][..6][0] != UtcSuffix[0];
    assert s[2..][..6] == UtcSuffix && s[2..][6..] == "00:00";
    assert RemoveAll("00:00", UtcSuffix) == "00:00";
    assert RemoveAll(s[2..], UtcSuffix) == "00:00";
    assert RemoveAll(s[1..], UtcSuffix) == "0" + "00:00";
  }
}
