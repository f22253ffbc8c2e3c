/**
 * The textual date and time formats the pipeline parses and prints, with
 * the conventions of Python's `strptime` as pandas applies them with an
 * explicit `format=`: `%d`, `%m`, `%H`, `%M` and `%S` take one or two ASCII
 * digits, `%Y` exactly four, separators must match literally and the whole
 * string must be consumed. `strftime('%Y-%m-%d')` prints zero-padded fields.
 */
module Formats {
  import opened Wrappers
  import opened Calendar

  predicate IsDigit(c: char) {
    '0' <= c <= '9'
  }

  predicate AllDigits(s: string) {
    forall i :: 0 <= i < |s| ==> IsDigit(s[i])
  }

  function DigitValue(c: char): nat
    requires IsDigit(c)
  {
    (c as int) - ('0' as int)
  }

  /** The decimal value of a string of digits, most significant first. */
  function DigitsValue(s: string): nat
    requires AllDigits(s)
  {
    if |s| == 0 then 0 else 10 * DigitsValue(s[..|s| - 1]) + DigitValue(s[|s| - 1])
  }

  function Pow10(n: nat): nat {
    if n == 0 then 1 else 10 * Pow10(n - 1)
  }

  /** A numeric field of the format: between minWidth and maxWidth digits. */
  function NumberField(s: string, minWidth: nat, maxWidth: nat): Option<nat> {
    if minWidth <= |s| <= maxWidth && AllDigits(s) then Some(DigitsValue(s)) else None
  }

  /** n printed in decimal on exactly `width` digits, padded with zeros on the left. */
  function PadNat(n: nat, width: nat): (s: string)
    ensures |s| == width && AllDigits(s)
  {
    if width == 0 then "" else PadNat(n / 10, width - 1) + [(('0' as int) + n % 10) as char]
  }

  /** Reading back a zero-padded number gives the number, when it fits the width. */
  lemma {:induction false} PadNatValue(n: nat, width: nat)
    requires n < Pow10(width)
    ensures DigitsValue(PadNat(n, width)) == n
  {
    if width > 0 {
      PadNatValue(n / 10, width - 1);
      var s := PadNat(n, width);
      assert s[..|s| - 1] == PadNat(n / 10, width - 1);
    }
  }

  /** The pieces of s between occurrences of sep, as Python's `s.split(sep)`. */
  function Fields(s: string, sep: char): (r: seq<string>)
    ensures |r| >= 1
    ensures forall i :: 0 <= i < |r| ==> sep !in r[i]
  {
    if |s| == 0 then [""]
    else
      var rest := Fields(s[1..], sep);
      if s[0] == sep then [""] + rest
      else [[s[0]] + rest[0]] + rest[1..]
  }

  /** The pieces glued back together with sep between them, as `sep.join(fields)`. */
  function Join(fields: seq<string>, sep: char): string
    requires |fields| >= 1
  {
    if |fields| == 1 then fields[0] else fields[0] + [sep] + Join(fields[1..], sep)
  }

  /** Splitting and joining again gives back the string. */
  lemma {:induction false} FieldsJoin(s: string, sep: char)
    ensures Join(Fields(s, sep), sep) == s
  {
    if |s| > 0 {
      FieldsJoin(s[1..], sep);
      var rest := Fields(s[1..], sep);
      if s[0] != sep && |rest| > 1 {
        assert rest == [rest[0]] + rest[1..];
        assert Join(rest, sep) == rest[0] + [sep] + Join(rest[1..], sep);
        assert s == [s[0]] + s[1..];
      } else if s[0] != sep {
        assert s == [s[0]] + s[1..];
      } else {
        assert s == [sep] + s[1..];
      }
    }
  }

  lemma {:induction false} FieldsNoSep(a: string, sep: char)
    requires sep !in a
    ensures Fields(a, sep) == [a]
  {
    if |a| > 0 {
      FieldsNoSep(a[1..], sep);
      assert a == [a[0]] + a[1..];
    }
  }

  lemma {:induction false} FieldsCons(a: string, sep: char, rest: string)
    requires sep !in a
    ensures Fields(a + [sep] + rest, sep) == [a] + Fields(rest, sep)
  {
    var s := a + [sep] + rest;
    if |a| == 0 {
      assert s[1..] == rest;
    } else {
      assert s[1..] == a[1..] + [sep] + rest;
      FieldsCons(a[1..], sep, rest);
      assert a == [a[0]] + a[1..];
    }
  }

  /** Joining separator-free pieces and splitting again gives back the pieces. */
  lemma {:induction false} JoinFields(fields: seq<string>, sep: char)
    requires |fields| >= 1
    requires forall i :: 0 <= i < |fields| ==> sep !in fields[i]
    ensures Fields(Join(fields, sep), sep) == fields
  {
    if |fields| == 1 {
      FieldsNoSep(fields[0], sep);
    } else {
      JoinFields(fields[1..], sep);
      FieldsCons(fields[0], sep, Join(fields[1..], sep));
    }
  }

  /** Every character of s other than sep ends up in one of its pieces. */
  lemma {:induction false} FieldsCover(s: string, sep: char, k: nat)
    requires k < |s| && s[k] != sep
    ensures exists i :: 0 <= i < |Fields(s, sep)| && s[k] in Fields(s, sep)[i]
  {
    var rest := Fields(s[1..], sep);
    if k == 0 {
      assert s[0] in Fields(s, sep)[0];
    } else {
      FieldsCover(s[1..], sep, k - 1);
      var i :| 0 <= i < |rest| && s[k] in rest[i];
      if s[0] == sep {
        assert Fields(s, sep)[i + 1] == rest[i];
      } else if i == 0 {
        assert s[k] in Fields(s, sep)[0];
      } else {
        assert Fields(s, sep)[i] == rest[i];
      }
    }
  }

  function CheckedDate(y: int, m: int, d: int): Option<Date> {
    if ValidDate(Date(y, m, d)) then Some(Date(y, m, d)) else None
  }

  /** `to_datetime(s, format='%d/%m/%Y')`; None stands for NaT. */
  function ParseDayMonthYear(s: string): (r: Option<Date>)
    ensures r.Some? ==> ValidDate(r.value)
  {
    var f := Fields(s, '/');
    if |f| != 3 then None
    else
      match (NumberField(f[0], 1, 2), NumberField(f[1], 1, 2), NumberField(f[2], 4, 4))
      case (Some(d), Some(m), Some(y)) => CheckedDate(y, m, d)
      case _ => None
  }

  /** `%Y-%m-%d`. */
  function ParseIsoDate(s: string): (r: Option<Date>)
    ensures r.Some? ==> ValidDate(r.value)
  {
    var f := Fields(s, '-');
    if |f| != 3 then None
    else
      match (NumberField(f[0], 4, 4), NumberField(f[1], 1, 2), NumberField(f[2], 1, 2))
      case (Some(y), Some(m), Some(d)) => CheckedDate(y, m, d)
      case _ => None
  }

  /** `%H:%M:%S` when withSeconds, otherwise `%H:%M` (the seconds are then 0). */
  function ParseClock(s: string, withSeconds: bool): (r: Option<Clock>)
    ensures r.Some? ==> ValidClock(r.value) && (!withSeconds ==> r.value.second == 0)
  {
    var f := Fields(s, ':');
    if |f| != (if withSeconds then 3 else 2) then None
    else
      var sec := if withSeconds then NumberField(f[2], 1, 2) else Some(0);
      match (NumberField(f[0], 1, 2), NumberField(f[1], 1, 2), sec)
      case (Some(h), Some(m), Some(sc)) =>
        if ValidClock(Clock(h, m, sc)) then Some(Clock(h, m, sc)) else None
      case _ => None
  }

  /** `%Y-%m-%d %H:%M:%S` when withSeconds, otherwise `%Y-%m-%d %H:%M`. */
  function ParseIsoDateTime(s: string, withSeconds: bool): (r: Option<(Date, Clock)>)
    ensures r.Some? ==> ValidDate(r.value.0) && ValidClock(r.value.1)
  {
    var parts := Fields(s, ' ');
    if |parts| != 2 then None
    else
      match (ParseIsoDate(parts[0]), ParseClock(parts[1], withSeconds))
      case (Some(d), Some(c)) => Some((d, c))
      case _ => None
  }

  /** `strftime('%Y-%m-%d')`, which is also how `astype(str)` prints a date-only column. */
  function FormatIsoDate(d: Date): string
    requires ValidDate(d)
  {
    PadNat(d.year, 4) + "-" + PadNat(d.month, 2) + "-" + PadNat(d.day, 2)
  }

  lemma FormatIsoDateChars(d: Date)
    requires ValidDate(d)
    ensures ' ' !in FormatIsoDate(d)
    ensures forall c :: c in FormatIsoDate(d) ==> IsDigit(c) || c == '-'
  {
    var s := FormatIsoDate(d);
    forall c | c in s ensures IsDigit(c) || c == '-' {
      var i :| 0 <= i < |s| && s[i] == c;
    }
  }

  /** Printing a valid date and parsing it back with `%Y-%m-%d` gives the date. */
  lemma IsoDateRoundTrip(d: Date)
    requires ValidDate(d)
    ensures ParseIsoDate(FormatIsoDate(d)) == Some(d)
  {
    var y, m, dd := PadNat(d.year, 4), PadNat(d.month, 2), PadNat(d.day, 2);
    assert '-' !in y && '-' !in m && '-' !in dd by {
      assert forall c :: c in y + m + dd ==> IsDigit(c);
    }
    assert Join([m, dd], '-') == m + ['-'] + dd;
    assert Join([y, m, dd], '-') == y + ['-'] + Join([m, dd], '-');
    assert FormatIsoDate(d) == Join([y, m, dd], '-');
    JoinFields([y, m, dd], '-');
    assert Pow10(2) == 100 && Pow10(4) == 10000;
    PadNatValue(d.year, 4);
    PadNatValue(d.month, 2);
    PadNatValue(d.day, 2);
  }

  /** A text holding a space is never a valid time of day. */
  lemma ClockHasNoSpace(s: string, withSeconds: bool)
    requires ' ' in s
    ensures ParseClock(s, withSeconds).None?
  {
    var k :| 0 <= k < |s| && s[k] == ' ';
    FieldsCover(s, ':', k);
    var f := Fields(s, ':');
    var i :| 0 <= i < |f| && ' ' in f[i];
    assert !AllDigits(f[i]);
  }

  /**
   * Gluing a printed date, a space and a time text, and parsing the whole
   * with the combined format, succeeds exactly when the time text parses on
   * its own, and gives that date at that time.
   */
  lemma MergedDateTime(d: Date, time: string, withSeconds: bool)
    requires ValidDate(d)
    ensures ParseIsoDateTime(FormatIsoDate(d) + " " + time, withSeconds)
            == match ParseClock(time, withSeconds)
               case Some(c) => Some((d, c))
               case None => None
  {
    FormatIsoDateChars(d);
    FieldsCons(FormatIsoDate(d), ' ', time);
    IsoDateRoundTrip(d);
    if ' ' in time {
      ClockHasNoSpace(time, withSeconds);
      var k :| 0 <= k < |time| && time[k] == ' ';
      if |Fields(time, ' ')| == 1 {
        FieldsJoin(time, ' ');
        assert false;
      }
    } else {
      FieldsNoSep(time, ' ');
    }
  }

  lemma TwoDigitValue(s: string)
    requires |s| == 2 && IsDigit(s[0]) && IsDigit(s[1])
    ensures AllDigits(s) && DigitsValue(s) == 10 * DigitValue(s[0]) + DigitValue(s[1])
  {
    assert s[..1][..0] == "";
    assert DigitsValue(s[..1]) == DigitValue(s[0]);
  }

  lemma FourDigitValue(s: string)
    requires |s| == 4 && IsDigit(s[0]) && IsDigit(s[1]) && IsDigit(s[2]) && IsDigit(s[3])
    ensures AllDigits(s)
    ensures DigitsValue(s) == 1000 * DigitValue(s[0]) + 100 * DigitValue(s[1]) + 10 * DigitValue(s[2]) + DigitValue(s[3])
  {
    assert s[..3][..2] == s[..2];
    assert s[..2][..1] == s[..1];
    assert s[..1][..0] == "";
    assert DigitsValue(s[..1]) == DigitValue(s[0]);
    assert DigitsValue(s[..2]) == 10 * DigitValue(s[0]) + DigitValue(s[1]);
    assert DigitsValue(s[..3]) == 100 * DigitValue(s[0]) + 10 * DigitValue(s[1]) + DigitValue(s[2]);
  }

  /** `%d/%m/%Y` reads its three slash-separated fields as day, month and year. */
  lemma DayMonthYearParts(dd: string, mm: string, yyyy: string)
    requires '/' !in dd && '/' !in mm && '/' !in yyyy
    ensures ParseDayMonthYear(dd + "/" + mm + "/" + yyyy)
            == match (NumberField(dd, 1, 2), NumberField(mm, 1, 2), NumberField(yyyy, 4, 4))
               case (Some(d), Some(m), Some(y)) => CheckedDate(y, m, d)
               case _ => None
  {
    var f := [dd, mm, yyyy];
    assert f[1..] == [mm, yyyy] && f[1..][1..] == [yyyy];
    assert Join(f[1..], '/') == mm + ['/'] + yyyy;
    assert Join(f, '/') == dd + "/" + mm + "/" + yyyy;
    JoinFields(f, '/');
  }

  /** `%Y-%m-%d` reads its three dash-separated fields as year, month and day. */
  lemma IsoDateParts(yyyy: string, mm: string, dd: string)
    requires '-' !in yyyy && '-' !in mm && '-' !in dd
    ensures ParseIsoDate(yyyy + "-" + mm + "-" + dd)
            == match (NumberField(yyyy, 4, 4), NumberField(mm, 1, 2), NumberField(dd, 1, 2))
               case (Some(y), Some(m), Some(d)) => CheckedDate(y, m, d)
               case _ => None
  {
    var f := [yyyy, mm, dd];
    assert f[1..] == [mm, dd] && f[1..][1..] == [dd];
    assert Join(f[1..], '-') == mm + ['-'] + dd;
    assert Join(f, '-') == yyyy + "-" + mm + "-" + dd;
    JoinFields(f, '-');
  }

  lemma IsoDateExample()
    ensures ParseIsoDate("2023-01-20") == Some(Date(2023, 1, 20))
  {
    IsoDateParts("2023", "01", "20");
    assert "2023" + "-" + "01" + "-" + "20" == "2023-01-20";
    FourDigitValue("2023");
    TwoDigitValue("01");
    TwoDigitValue("20");
    assert NumberField("2023", 4, 4) == Some(2023);
    assert NumberField("01", 1, 2) == Some(1);
    assert NumberField("20", 1, 2) == Some(20);
    assert ValidDate(Date(2023, 1, 20));
  }

  lemma IsoDateFebruaryExample()
    ensures ParseIsoDate("2023-02-03") == Some(Date(2023, 2, 3))
  {
    IsoDateParts("2023", "02", "03");
    assert "2023" + "-" + "02" + "-" + "03" == "2023-02-03";
    FourDigitValue("2023");
    TwoDigitValue("02");
    TwoDigitValue("03");
    assert NumberField("2023", 4, 4) == Some(2023);
    assert NumberField("02", 1, 2) == Some(2);
    assert NumberField("03", 1, 2) == Some(3);
    assert ValidDate(Date(2023, 2, 3));
  }

  /** A well-formed text naming a day the month does not have is refused. */
  lemma IsoDateRejectsImpossibleDay()
    ensures ParseIsoDate("2023-02-30").None?
  {
    IsoDateParts("2023", "02", "30");
    assert "2023" + "-" + "02" + "-" + "30" == "2023-02-30";
    FourDigitValue("2023");
    TwoDigitValue("02");
    TwoDigitValue("30");
    assert NumberField("2023", 4, 4) == Some(2023);
    assert NumberField("02", 1, 2) == Some(2);
    assert NumberField("30", 1, 2) == Some(30);
    assert !ValidDate(Date(2023, 2, 30));
  }

  lemma DayMonthYearExample()
    ensures ParseDayMonthYear("15/03/2023") == Some(Date(2023, 3, 15))
  {
    DayMonthYearParts("15", "03", "2023");
    assert "15" + "/" + "03" + "/" + "2023" == "15/03/2023";
    TwoDigitValue("15");
    TwoDigitValue("03");
    FourDigitValue("2023");
    assert NumberField("15", 1, 2) == Some(15);
    assert NumberField("03", 1, 2) == Some(3);
    assert NumberField("2023", 4, 4) == Some(2023);
    assert ValidDate(Date(2023, 3, 15));
  }

  /**
   * `%H:%M:%S` reads its three colon-separated fields as hour, minute and
   * second, and `%H:%M` refuses three fields.
   */
  lemma ClockParts(hh: string, mm: string, ss: string)
    requires ':' !in hh && ':' !in mm && ':' !in ss
    ensures ParseClock(hh + ":" + mm + ":" + ss, true)
            == match (NumberField(hh, 1, 2), NumberField(mm, 1, 2), NumberField(ss, 1, 2))
               case (Some(h), Some(m), Some(sc)) =>
                 if ValidClock(Clock(h, m, sc)) then Some(Clock(h, m, sc)) else None
               case _ => None
    ensures ParseClock(hh + ":" + mm + ":" + ss, false).None?
  {
    var f := [hh, mm, ss];
    assert f[1..] == [mm, ss] && f[1..][1..] == [ss];
    assert Join(f[1..], ':') == mm + [':'] + ss;
    assert Join(f, ':') == hh + ":" + mm + ":" + ss;
    JoinFields(f, ':');
  }

  /**
   * `%H:%M` reads its two colon-separated fields as hour and minute (the
   * seconds are 0), and `%H:%M:%S` refuses two fields.
   */
  lemma ClockTwoParts(hh: string, mm: string)
    requires ':' !in hh && ':' !in mm
    ensures ParseClock(hh + ":" + mm, false)
            == match (NumberField(hh, 1, 2), NumberField(mm, 1, 2))
               case (Some(h), Some(m)) =>
                 if ValidClock(Clock(h, m, 0)) then Some(Clock(h, m, 0)) else None
               case _ => None
    ensures ParseClock(hh + ":" + mm, true).None?
  {
    var f := [hh, mm];
    assert f[1..] == [mm];
    assert Join(f, ':') == hh + ":" + mm;
    JoinFields(f, ':');
  }

  /** A text that splits into two pieces is those pieces around one separator. */
  lemma TwoFields(s: string, sep: char)
    requires |Fields(s, sep)| == 2
    ensures var f := Fields(s, sep); s == f[0] + [sep] + f[1]
  {
    var f := Fields(s, sep);
    FieldsJoin(s, sep);
    assert Join(f[1..], sep) == f[1];
  }

  /** A text that splits into three pieces is those pieces around two separators. */
  lemma ThreeFields(s: string, sep: char)
    requires |Fields(s, sep)| == 3
    ensures var f := Fields(s, sep); s == f[0] + [sep] + f[1] + [sep] + f[2]
  {
    var f := Fields(s, sep);
    FieldsJoin(s, sep);
    assert Join(f[1..][1..], sep) == f[2];
    assert Join(f[1..], sep) == f[1] + [sep] + f[2];
  }

  /**
   * A text that parses as `%H:%M` has exactly one colon, and one that parses
   * as `%H:%M:%S` exactly two: any other text is refused.
   */
  lemma ClockShape(s: string, withSeconds: bool)
    requires ParseClock(s, withSeconds).Some?
    ensures !withSeconds ==> exists hh, mm :: ':' !in hh && ':' !in mm && s == hh + ":" + mm
    ensures withSeconds ==>
              exists hh, mm, ss :: ':' !in hh && ':' !in mm && ':' !in ss && s == hh + ":" + mm + ":" + ss
  {
    var f := Fields(s, ':');
    if withSeconds {
      ThreeFields(s, ':');
      assert ':' !in f[0] && ':' !in f[1] && ':' !in f[2] && s == f[0] + ":" + f[1] + ":" + f[2];
    } else {
      TwoFields(s, ':');
      assert ':' !in f[0] && ':' !in f[1] && s == f[0] + ":" + f[1];
    }
  }

  /** A text that parses as `%d/%m/%Y` has exactly two slashes: any other text is refused. */
  lemma DayMonthYearShape(s: string)
    requires ParseDayMonthYear(s).Some?
    ensures exists dd, mm, yyyy :: '/' !in dd && '/' !in mm && '/' !in yyyy && s == dd + "/" + mm + "/" + yyyy
  {
    var f := Fields(s, '/');
    ThreeFields(s, '/');
    assert '/' !in f[0] && '/' !in f[1] && '/' !in f[2] && s == f[0] + "/" + f[1] + "/" + f[2];
  }

  /** A two-digit zero-padded field has no colon and reads back as its number. */
  lemma PaddedField(n: nat)
    requires n < 100
    ensures ':' !in PadNat(n, 2) && NumberField(PadNat(n, 2), 1, 2) == Some(n)
  {
    assert Pow10(2) == 100;
    PadNatValue(n, 2);
  }

  /**
   * Every time of day written `HH:MM` parses under `%H:%M` to that hour and
   * minute, and written `HH:MM:SS` parses under `%H:%M:%S` to itself.
   */
  lemma ClockRoundTrip(c: Clock)
    requires ValidClock(c)
    ensures ParseClock(PadNat(c.hour, 2) + ":" + PadNat(c.minute, 2), false) == Some(c.(second := 0))
    ensures ParseClock(PadNat(c.hour, 2) + ":" + PadNat(c.minute, 2) + ":" + PadNat(c.second, 2), true) == Some(c)
  {
    PaddedField(c.hour);
    PaddedField(c.minute);
    PaddedField(c.second);
    ClockTwoParts(PadNat(c.hour, 2), PadNat(c.minute, 2));
    ClockParts(PadNat(c.hour, 2), PadNat(c.minute, 2), PadNat(c.second, 2));
  }

  lemma ClockExample()
    ensures ParseClock("14:30:00", true) == Some(Clock(14, 30, 0))
    ensures ParseClock("14:30:00", false) == None
  {
    ClockParts("14", "30", "00");
    assert "14" + ":" + "30" + ":" + "00" == "14:30:00";
    TwoDigitValue("14");
    TwoDigitValue("30");
    TwoDigitValue("00");
    assert NumberField("14", 1, 2) == Some(14);
    assert NumberField("30", 1, 2) == Some(30);
    assert NumberField("00", 1, 2) == Some(0);
  }

  lemma ClockOutOfRangeExample()
    ensures ParseClock("25:99:00", true) == None
  {
    ClockParts("25", "99", "00");
    assert "25" + ":" + "99" + ":" + "00" == "25:99:00";
    TwoDigitValue("25");
    assert NumberField("25", 1, 2) == Some(25);
  }

  lemma ClockWithoutSecondsExample()
    ensures ParseClock("14:30", false) == Some(Clock(14, 30, 0))
  {
    var f := ["14", "30"];
    assert Join(f, ':') == "14:30";
    JoinFields(f, ':');
    TwoDigitValue("14");
    TwoDigitValue("30");
  }
}
