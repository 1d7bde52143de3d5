/**
 * Naive timestamps as Python's `datetime` holds them, the `strptime` formats
 * the handlers use, `parse_datetime`, `datetime.max` (the open-ended
 * validity sentinel) and `max` over a list of timestamps.
 */
module Timestamps {
  import opened Wrappers
  import opened Numerals

  datatype DateTime = DateTime(year: int, month: int, day: int,
                               hour: int, minute: int, second: int, microsecond: int)

  predicate IsLeapYear(y: int) { y % 4 == 0 && (y % 100 != 0 || y % 400 == 0) }

  function DaysInMonth(y: int, m: int): int
    requires 1 <= m <= 12
  {
    if m == 2 then (if IsLeapYear(y) then 29 else 28)
    else if m == 4 || m == 6 || m == 9 || m == 11 then 30
    else 31
  }

  /** The values a `datetime` accepts: years 1 to 9999 and a real calendar day. */
  predicate Valid(t: DateTime) {
    && 1 <= t.year <= 9999
    && 1 <= t.month <= 12
    && 1 <= t.day <= DaysInMonth(t.year, t.month)
    && 0 <= t.hour < 24 && 0 <= t.minute < 60 && 0 <= t.second < 60
    && 0 <= t.microsecond < 1000000
  }

  /** `datetime.max`, the value that stands for an open-ended validity. */
  const MaxDateTime := DateTime(9999, 12, 31, 23, 59, 59, 999999)

  /** `a < b` on datetimes: chronological order. */
  predicate Before(a: DateTime, b: DateTime) {
    || a.year < b.year
    || (a.year == b.year && a.month < b.month)
    || (a.year == b.year && a.month == b.month && a.day < b.day)
    || (a.year == b.year && a.month == b.month && a.day == b.day && a.hour < b.hour)
    || (a.year == b.year && a.month == b.month && a.day == b.day && a.hour == b.hour
        && a.minute < b.minute)
    || (a.year == b.year && a.month == b.month && a.day == b.day && a.hour == b.hour
        && a.minute == b.minute && a.second < b.second)
    || (a.year == b.year && a.month == b.month && a.day == b.day && a.hour == b.hour
        && a.minute == b.minute && a.second == b.second && a.microsecond < b.microsecond)
  }

  /** The sentinel is a datetime, and no datetime comes after it. */
  lemma MaxIsLatest(t: DateTime)
    requires Valid(t)
    ensures Valid(MaxDateTime)
    ensures t == MaxDateTime || Before(t, MaxDateTime)
  {
  }

  lemma BeforeIsStrictTotalOrder(a: DateTime, b: DateTime, c: DateTime)
    ensures !Before(a, a)
    ensures Before(a, b) && Before(b, c) ==> Before(a, c)
    ensures a == b || Before(a, b) || Before(b, a)
  {
  }

  /** A datetime from its fields, or None where `datetime(...)` raises. */
  function Make(y: int, mo: int, d: int, h: int, mi: int, s: int, us: int): (r: Option<DateTime>)
    ensures r.Some? ==> Valid(r.value)
  {
    var t := DateTime(y, mo, d, h, mi, s, us);
    if Valid(t) then Some(t) else None
  }

  /** A fixed-width decimal field `s[i..i+w]`. */
  function Number(s: string, i: nat, w: nat): Option<nat>
    requires i + w <= |s|
  {
    ParseInt(s[i..i + w], 10)
  }

  /**
   * `datetime.strptime(s, "%Y%m%dT%H%M%S")` on the fifteen-character form
   * `YYYYMMDDTHHMMSS`.
   */
  function ParseCompact(s: string): (r: Option<DateTime>)
    ensures r.Some? ==> Valid(r.value) && r.value.microsecond == 0
  {
    if |s| != 15 || s[8] != 'T' then None
    else
      var y :- Number(s, 0, 4);
      var mo :- Number(s, 4, 2);
      var d :- Number(s, 6, 2);
      var h :- Number(s, 9, 2);
      var mi :- Number(s, 11, 2);
      var sec :- Number(s, 13, 2);
      Make(y, mo, d, h, mi, sec, 0)
  }

  /** `datetime.strptime(s, "%Y-%m-%dT%H:%M:%S")` on the form `YYYY-MM-DDTHH:MM:SS`. */
  function ParseIsoSeconds(s: string): (r: Option<DateTime>)
    ensures r.Some? ==> Valid(r.value) && r.value.microsecond == 0
  {
    if |s| != 19 || s[4] != '-' || s[7] != '-' || s[10] != 'T' || s[13] != ':' || s[16] != ':' then None
    else
      var y :- Number(s, 0, 4);
      var mo :- Number(s, 5, 2);
      var d :- Number(s, 8, 2);
      var h :- Number(s, 11, 2);
      var mi :- Number(s, 14, 2);
      var sec :- Number(s, 17, 2);
      Make(y, mo, d, h, mi, sec, 0)
  }

  /**
   * `datetime.strptime(s, "%Y-%m-%dT%H:%M:%S.%f")`: a whole-second form, a dot
   * and one to six digits of fraction, read as the leading digits of the
   * microseconds.
   */
  function ParseIsoFraction(s: string): (r: Option<DateTime>)
    ensures r.Some? ==> Valid(r.value)
  {
    if |s| < 21 || |s| > 26 || s[19] != '.' then None
    else
      var whole :- ParseIsoSeconds(s[..19]);
      var digits := s[20..];
      var f :- ParseInt(digits, 10);
      ValueBelowPow(digits, 10);
      Make(whole.year, whole.month, whole.day, whole.hour, whole.minute, whole.second,
           f * Pow(10, 6 - |digits|))
  }

  /**
   * `parse_datetime`: a trailing `Z` is dropped, then the form with a
   * fraction of a second is tried before the whole-second form.
   */
  function ParseDateTime(s: string): Option<DateTime> {
    var u := if |s| > 0 && s[|s| - 1] == 'Z' then s[..|s| - 1] else s;
    var withFraction := ParseIsoFraction(u);
    if withFraction.Some? then withFraction else ParseIsoSeconds(u)
  }

  /** `datetime.strptime(s, "UTC=%Y-%m-%dT%H:%M:%S")`, the Earth Explorer header form. */
  function ParseUtc(s: string): Option<DateTime> {
    if |s| < 4 || s[..4] != "UTC=" then None else ParseIsoSeconds(s[4..])
  }

  /** `datetime.strptime(s, "%Y-%m-%dT%H:%M:%S.%fZ")`, the NetCDF attribute form. */
  function ParseFractionZ(s: string): Option<DateTime> {
    if |s| == 0 || s[|s| - 1] != 'Z' then None else ParseIsoFraction(s[..|s| - 1])
  }

  /** The text every `strptime` form above reads, field by field. */
  function FormatCompact(t: DateTime): string
    requires Valid(t)
  {
    Render(t.year, 4, 10) + Render(t.month, 2, 10) + Render(t.day, 2, 10) + "T"
    + Render(t.hour, 2, 10) + Render(t.minute, 2, 10) + Render(t.second, 2, 10)
  }

  function FormatIsoSeconds(t: DateTime): string
    requires Valid(t)
  {
    Render(t.year, 4, 10) + "-" + Render(t.month, 2, 10) + "-" + Render(t.day, 2, 10) + "T"
    + Render(t.hour, 2, 10) + ":" + Render(t.minute, 2, 10) + ":" + Render(t.second, 2, 10)
  }

  /** `t.isoformat(timespec="microseconds") + "Z"`. */
  function FormatIsoZ(t: DateTime): string
    requires Valid(t)
  {
    FormatIsoSeconds(t) + "." + Render(t.microsecond, 6, 10) + "Z"
  }

  lemma TwoDigits(n: nat)
    requires n < 100
    ensures ParseInt(Render(n, 2, 10), 10) == Some(n)
  {
    ParseRender(n, 2, 10);
  }

  lemma FourDigits(n: nat)
    requires n < 10000
    ensures ParseInt(Render(n, 4, 10), 10) == Some(n)
  {
    ParseRender(n, 4, 10);
  }

  /** Reading a compact timestamp inverts writing one. */
  lemma CompactRoundTrip(t: DateTime)
    requires Valid(t) && t.microsecond == 0
    ensures ParseCompact(FormatCompact(t)) == Some(t)
  {
    var s := FormatCompact(t);
    assert s[0..4] == Render(t.year, 4, 10);
    assert s[4..6] == Render(t.month, 2, 10);
    assert s[6..8] == Render(t.day, 2, 10);
    assert s[9..11] == Render(t.hour, 2, 10);
    assert s[11..13] == Render(t.minute, 2, 10);
    assert s[13..15] == Render(t.second, 2, 10);
    FourDigits(t.year);
    TwoDigits(t.month);
    TwoDigits(t.day);
    TwoDigits(t.hour);
    TwoDigits(t.minute);
    TwoDigits(t.second);
  }

  /** The fields `ParseCompact` reads are those of the time it returns. */
  lemma CompactFields(s: string)
    requires ParseCompact(s).Some?
    ensures |s| == 15 && s[8] == 'T'
    ensures var t := ParseCompact(s).value;
            Number(s, 0, 4) == Some(t.year) && Number(s, 4, 2) == Some(t.month) &&
            Number(s, 6, 2) == Some(t.day) && Number(s, 9, 2) == Some(t.hour) &&
            Number(s, 11, 2) == Some(t.minute) && Number(s, 13, 2) == Some(t.second)
  {
  }

  /** A field read as `n` is the field `n` renders to. */
  lemma NumberRendered(s: string, i: nat, w: nat, n: nat)
    requires i + w <= |s| && Number(s, i, w) == Some(n)
    ensures Render(n, w, 10) == s[i..i + w]
  {
    RenderValue(s[i..i + w]);
  }

  /**
   * The other direction: a string `ParseCompact` accepts is exactly the
   * compact form of the time it reads, so no two strings read as one time.
   */
  lemma CompactReadBack(s: string)
    requires ParseCompact(s).Some?
    ensures FormatCompact(ParseCompact(s).value) == s
  {
    var t := ParseCompact(s).value;
    CompactFields(s);
    NumberRendered(s, 0, 4, t.year);
    NumberRendered(s, 4, 2, t.month);
    NumberRendered(s, 6, 2, t.day);
    NumberRendered(s, 9, 2, t.hour);
    NumberRendered(s, 11, 2, t.minute);
    NumberRendered(s, 13, 2, t.second);
    CompactFromPieces(s, t);
  }

  /** A time whose rendered fields are the pieces of `s` is written as `s`. */
  lemma CompactFromPieces(s: string, t: DateTime)
    requires Valid(t) && |s| == 15 && s[8] == 'T'
    requires Render(t.year, 4, 10) == s[0..4] && Render(t.month, 2, 10) == s[4..6]
    requires Render(t.day, 2, 10) == s[6..8] && Render(t.hour, 2, 10) == s[9..11]
    requires Render(t.minute, 2, 10) == s[11..13] && Render(t.second, 2, 10) == s[13..15]
    ensures FormatCompact(t) == s
  {
    CompactJoin(s, Render(t.year, 4, 10), Render(t.month, 2, 10), Render(t.day, 2, 10),
                Render(t.hour, 2, 10), Render(t.minute, 2, 10), Render(t.second, 2, 10));
  }

  /** The compact pieces of `s`, joined around the `T`, give `s` back. */
  lemma CompactJoin(s: string, y: string, mo: string, d: string, h: string, mi: string, sec: string)
    requires |s| == 15 && s[8] == 'T'
    requires y == s[0..4] && mo == s[4..6] && d == s[6..8]
    requires h == s[9..11] && mi == s[11..13] && sec == s[13..15]
    ensures y + mo + d + "T" + h + mi + sec == s
  {
    assert s[0..6] == s[0..4] + s[4..6];
    assert s[0..8] == s[0..6] + s[6..8];
    assert s[0..9] == s[0..8] + "T";
    assert s[0..11] == s[0..9] + s[9..11];
    assert s[0..13] == s[0..11] + s[11..13];
    assert s == s[0..13] + s[13..15];
  }

  /** The fields `ParseIsoSeconds` reads are those of the time it returns. */
  lemma IsoSecondsFields(s: string)
    requires ParseIsoSeconds(s).Some?
    ensures |s| == 19 && s[4] == '-' && s[7] == '-' && s[10] == 'T' && s[13] == ':' && s[16] == ':'
    ensures var t := ParseIsoSeconds(s).value;
            Number(s, 0, 4) == Some(t.year) && Number(s, 5, 2) == Some(t.month) &&
            Number(s, 8, 2) == Some(t.day) && Number(s, 11, 2) == Some(t.hour) &&
            Number(s, 14, 2) == Some(t.minute) && Number(s, 17, 2) == Some(t.second)
  {
  }

  /**
   * A string `ParseIsoSeconds` accepts is exactly the ISO form of the time
   * it reads.
   */
  lemma IsoSecondsReadBack(s: string)
    requires ParseIsoSeconds(s).Some?
    ensures FormatIsoSeconds(ParseIsoSeconds(s).value) == s
  {
    var t := ParseIsoSeconds(s).value;
    IsoSecondsFields(s);
    NumberRendered(s, 0, 4, t.year);
    NumberRendered(s, 5, 2, t.month);
    NumberRendered(s, 8, 2, t.day);
    NumberRendered(s, 11, 2, t.hour);
    NumberRendered(s, 14, 2, t.minute);
    NumberRendered(s, 17, 2, t.second);
    IsoSecondsFromPieces(s, t);
  }

  /** A time whose rendered fields are the pieces of `s` is written as `s`. */
  lemma IsoSecondsFromPieces(s: string, t: DateTime)
    requires Valid(t) && |s| == 19
    requires s[4] == '-' && s[7] == '-' && s[10] == 'T' && s[13] == ':' && s[16] == ':'
    requires Render(t.year, 4, 10) == s[0..4] && Render(t.month, 2, 10) == s[5..7]
    requires Render(t.day, 2, 10) == s[8..10] && Render(t.hour, 2, 10) == s[11..13]
    requires Render(t.minute, 2, 10) == s[14..16] && Render(t.second, 2, 10) == s[17..19]
    ensures FormatIsoSeconds(t) == s
  {
    IsoJoin(s, Render(t.year, 4, 10), Render(t.month, 2, 10), Render(t.day, 2, 10),
            Render(t.hour, 2, 10), Render(t.minute, 2, 10), Render(t.second, 2, 10));
  }

  /** The ISO pieces of `s`, joined by their separators, give `s` back. */
  lemma IsoJoin(s: string, y: string, mo: string, d: string, h: string, mi: string, sec: string)
    requires |s| == 19
    requires s[4] == '-' && s[7] == '-' && s[10] == 'T' && s[13] == ':' && s[16] == ':'
    requires y == s[0..4] && mo == s[5..7] && d == s[8..10]
    requires h == s[11..13] && mi == s[14..16] && sec == s[17..19]
    ensures y + "-" + mo + "-" + d + "T" + h + ":" + mi + ":" + sec == s
  {
    assert s[0..5] == s[0..4] + "-";
    assert s[0..7] == s[0..5] + s[5..7];
    assert s[0..8] == s[0..7] + "-";
    assert s[0..10] == s[0..8] + s[8..10];
    assert s[0..11] == s[0..10] + "T";
    assert s[0..13] == s[0..11] + s[11..13];
    assert s[0..14] == s[0..13] + ":";
    assert s[0..16] == s[0..14] + s[14..16];
    assert s[0..17] == s[0..16] + ":";
    assert s == s[0..17] + s[17..19];
  }

  /** A header timestamp `ParseUtc` accepts is `UTC=` and the ISO form of its time. */
  lemma UtcReadBack(s: string)
    requires ParseUtc(s).Some?
    ensures s == "UTC=" + FormatIsoSeconds(ParseUtc(s).value)
  {
    IsoSecondsReadBack(s[4..]);
    assert s == s[..4] + s[4..];
  }

  lemma IsoSecondsRoundTrip(t: DateTime)
    requires Valid(t)
    ensures ParseIsoSeconds(FormatIsoSeconds(t)) == Some(t.(microsecond := 0))
  {
    var s := FormatIsoSeconds(t);
    assert s[0..4] == Render(t.year, 4, 10);
    assert s[5..7] == Render(t.month, 2, 10);
    assert s[8..10] == Render(t.day, 2, 10);
    assert s[11..13] == Render(t.hour, 2, 10);
    assert s[14..16] == Render(t.minute, 2, 10);
    assert s[17..19] == Render(t.second, 2, 10);
    FourDigits(t.year);
    TwoDigits(t.month);
    TwoDigits(t.day);
    TwoDigits(t.hour);
    TwoDigits(t.minute);
    TwoDigits(t.second);
  }

  /**
   * `parse_datetime` reads back a timestamp written with microseconds and a
   * zone marker, and so does the NetCDF attribute form.
   */
  lemma IsoZRoundTrip(t: DateTime)
    requires Valid(t)
    ensures ParseDateTime(FormatIsoZ(t)) == Some(t)
    ensures ParseFractionZ(FormatIsoZ(t)) == Some(t)
  {
    var s := FormatIsoZ(t);
    var u := FormatIsoSeconds(t) + "." + Render(t.microsecond, 6, 10);
    assert s == u + "Z";
    assert s[..|s| - 1] == u;
    IsoFractionRoundTrip(t);
  }

  /** Reading a timestamp with six digits of fraction inverts writing one. */
  lemma IsoFractionRoundTrip(t: DateTime)
    requires Valid(t)
    ensures ParseIsoFraction(FormatIsoSeconds(t) + "." + Render(t.microsecond, 6, 10)) == Some(t)
  {
    var whole := FormatIsoSeconds(t);
    var frac := Render(t.microsecond, 6, 10);
    var u := whole + "." + frac;
    assert |u| == 26 && u[19] == '.';
    assert u[..19] == whole;
    assert u[20..] == frac;
    IsoSecondsRoundTrip(t);
    ParseRender(t.microsecond, 6, 10);
    assert Pow(10, 0) == 1;
  }

  /** No compact or header timestamp equals the sentinel: its microseconds are not zero. */
  lemma SentinelIsDistinguished(s: string)
    ensures ParseCompact(s) != Some(MaxDateTime)
    ensures ParseUtc(s) != Some(MaxDateTime)
  {
  }

  lemma NinetyNine()
    ensures AllDigitsIn("99", 10) && Value("99", 10) == 99
  {
    var s := "99";
    assert s[..1] == "9";
    assert s[..1][..0] == "";
    assert DigitValue('9') == 9;
  }

  /** The all-nines texts are not timestamps: without their special case they would fail to parse. */
  lemma AllNinesDoNotParse()
    ensures ParseCompact("99999999T999999") == None
    ensures ParseUtc("UTC=9999-99-99T99:99:99") == None
  {
    CompactNinesRejected();
    UtcNinesRejected();
  }

  /** The all-nines compact stop is not a compact timestamp. */
  lemma CompactNinesRejected()
    ensures ParseCompact("99999999T999999") == None
  {
    var c := "99999999T999999";
    assert c[4..6] == "99";
    NinetyNine();
  }

  /** The all-nines header stop is not a header timestamp. */
  lemma UtcNinesRejected()
    ensures ParseUtc("UTC=9999-99-99T99:99:99") == None
  {
    var u := "UTC=9999-99-99T99:99:99";
    var v := u[4..];
    assert v == "9999-99-99T99:99:99";
    assert v[5..7] == "99";
    NinetyNine();
  }

  /** `max(ds)`: the first of the latest timestamps. */
  function Latest(ds: seq<DateTime>): DateTime
    requires |ds| > 0
  {
    if |ds| == 1 then ds[0]
    else
      var m := Latest(ds[..|ds| - 1]);
      if Before(m, ds[|ds| - 1]) then ds[|ds| - 1] else m
  }

  /** The maximum is one of the timestamps and none of them is later. */
  lemma {:induction false} LatestIsMaximum(ds: seq<DateTime>)
    requires |ds| > 0
    ensures Latest(ds) in ds
    ensures forall k :: 0 <= k < |ds| ==> !Before(Latest(ds), ds[k])
  {
    if |ds| > 1 {
      var init := ds[..|ds| - 1];
      LatestIsMaximum(init);
      var m := Latest(init);
      var last := ds[|ds| - 1];
      forall k | 0 <= k < |ds|
        ensures !Before(Latest(ds), ds[k])
      {
        if k < |ds| - 1 {
          assert ds[k] == init[k];
          BeforeIsStrictTotalOrder(Latest(ds), m, ds[k]);
          BeforeIsStrictTotalOrder(m, last, ds[k]);
        } else {
          BeforeIsStrictTotalOrder(m, last, m);
        }
      }
    }
  }
}
