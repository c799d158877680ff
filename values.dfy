/**
  Relational values as the MySQL driver hands them over, and their conversion
  to values the graph store accepts (`convert_value_for_neo4j`).
 */
module Values {
  import opened Wrappers

  type Year = y: int | 1 <= y <= 9999 witness 1
  type Month = m: int | 1 <= m <= 12 witness 1
  type Day = d: int | 1 <= d <= 31 witness 1
  type Hour = h: int | 0 <= h <= 23
  type Minute = m: int | 0 <= m <= 59
  type Second = s: int | 0 <= s <= 59
  type Microsecond = u: int | 0 <= u <= 999999

  /** A `datetime.date`. */
  datatype CalendarDate = CalendarDate(year: Year, month: Month, day: Day)

  /** The time-of-day part of a naive `datetime.datetime`. */
  datatype ClockTime = ClockTime(hour: Hour, minute: Minute, second: Second, microsecond: Microsecond)

  /**
    A column value. `Decimal(unscaled, scale)` is the fixed-point number
    `unscaled / 10^scale`; `Float` carries the real number a float stands for;
    `Duration` is what a TIME column yields (a `timedelta`), in microseconds.
   */
  datatype Value =
    | Null
    | Bool(b: bool)
    | Int(i: int)
    | Float(r: real)
    | Str(s: string)
    | Decimal(unscaled: int, scale: nat)
    | Date(date: CalendarDate)
    | DateTime(date: CalendarDate, time: ClockTime)
    | Duration(micros: int)

  /** Values the graph store takes as they are: everything but decimals, dates and datetimes. */
  predicate StoreNeutral(v: Value)
  {
    !v.Decimal? && !v.Date? && !v.DateTime?
  }

  function Pow10(n: nat): (p: nat)
    ensures p >= 1
  {
    if n == 0 then 1 else 10 * Pow10(n - 1)
  }

  function DigitChar(d: int): (c: char)
    requires 0 <= d < 10
    ensures '0' <= c <= '9'
  {
    ('0' as int + d) as char
  }

  predicate IsDigit(c: char)
  {
    '0' <= c <= '9'
  }

  /** `n` written with exactly `width` decimal digits, zero-padded on the left (`%0<width>d`). */
  function Digits(n: nat, width: nat): (s: string)
    ensures |s| == width
    ensures forall i :: 0 <= i < |s| ==> IsDigit(s[i])
  {
    if width == 0 then "" else Digits(n / 10, width - 1) + [DigitChar(n % 10)]
  }

  /** The number a string of decimal digits spells, or None when it holds anything else. */
  function ParseDigits(s: string): Option<nat>
    decreases |s|
  {
    if |s| == 0 then Some(0)
    else if !IsDigit(s[|s| - 1]) then None
    else match ParseDigits(s[..|s| - 1])
      case None => None
      case Some(v) => Some(10 * v + (s[|s| - 1] as int - '0' as int))
  }

  lemma {:induction false} DigitsRoundTrip(n: nat, width: nat)
    requires n < Pow10(width)
    ensures ParseDigits(Digits(n, width)) == Some(n)
    decreases width
  {
    if width == 0 {
    } else {
      var s := Digits(n, width);
      assert n / 10 < Pow10(width - 1);
      DigitsRoundTrip(n / 10, width - 1);
      assert s[..|s| - 1] == Digits(n / 10, width - 1);
    }
  }

  /** `date.isoformat()`: `YYYY-MM-DD`. */
  function IsoDate(d: CalendarDate): (s: string)
    ensures |s| == 10
  {
    Digits(d.year, 4) + "-" + Digits(d.month, 2) + "-" + Digits(d.day, 2)
  }

  /** The `HH:MM:SS` part of `datetime.isoformat()`, then `.ffffff` when the microseconds are not zero. */
  function IsoTime(t: ClockTime): (s: string)
    ensures |s| == if t.microsecond == 0 then 8 else 15
  {
    Digits(t.hour, 2) + ":" + Digits(t.minute, 2) + ":" + Digits(t.second, 2)
    + (if t.microsecond == 0 then "" else "." + Digits(t.microsecond, 6))
  }

  /** `datetime.isoformat()` of a naive datetime: `YYYY-MM-DDTHH:MM:SS[.ffffff]`. */
  function IsoDateTime(d: CalendarDate, t: ClockTime): string
  {
    IsoDate(d) + "T" + IsoTime(t)
  }

  /** A field of fixed width holding a number in `[lo, hi]`. */
  function Field(s: string, lo: int, hi: int): Option<int>
  {
    match ParseDigits(s)
    case Some(v) => if lo <= v <= hi then Some(v) else None
    case None => None
  }

  /** Reads back a `YYYY-MM-DD` text. */
  function ParseIsoDate(s: string): Option<CalendarDate>
  {
    if |s| != 10 || s[4] != '-' || s[7] != '-' then None
    else
      match (Field(s[..4], 1, 9999), Field(s[5..7], 1, 12), Field(s[8..], 1, 31))
      case (Some(y), Some(m), Some(d)) => Some(CalendarDate(y, m, d))
      case _ => None
  }

  /** Reads back an `HH:MM:SS[.ffffff]` text. */
  function ParseIsoTime(s: string): Option<ClockTime>
  {
    if !(|s| == 8 || |s| == 15) || s[2] != ':' || s[5] != ':' then None
    else
      var micro := if |s| == 8 then Some(0) else if s[8] == '.' then Field(s[9..], 1, 999999) else None;
      match (Field(s[..2], 0, 23), Field(s[3..5], 0, 59), Field(s[6..8], 0, 59), micro)
      case (Some(h), Some(m), Some(sec), Some(u)) => Some(ClockTime(h, m, sec, u))
      case _ => None
  }

  /** Reads back a `YYYY-MM-DDTHH:MM:SS[.ffffff]` text. */
  function ParseIsoDateTime(s: string): Option<(CalendarDate, ClockTime)>
  {
    if |s| < 11 || s[10] != 'T' then None
    else
      match (ParseIsoDate(s[..10]), ParseIsoTime(s[11..]))
      case (Some(d), Some(t)) => Some((d, t))
      case _ => None
  }

  lemma FieldRoundTrip(n: int, width: nat, lo: int, hi: int)
    requires 0 <= lo <= n <= hi < Pow10(width)
    ensures Field(Digits(n, width), lo, hi) == Some(n)
  {
    DigitsRoundTrip(n, width);
  }

  /** The date text is lossless: parsing it gives the date back. */
  lemma IsoDateRoundTrip(d: CalendarDate)
    ensures ParseIsoDate(IsoDate(d)) == Some(d)
  {
    var y, m, dd := Digits(d.year, 4), Digits(d.month, 2), Digits(d.day, 2);
    var s := IsoDate(d);
    assert s == y + "-" + m + "-" + dd;
    assert s[..4] == y && s[5..7] == m && s[8..] == dd;
    FieldRoundTrip(d.year, 4, 1, 9999);
    FieldRoundTrip(d.month, 2, 1, 12);
    FieldRoundTrip(d.day, 2, 1, 31);
  }

  lemma IsoTimeRoundTrip(t: ClockTime)
    ensures ParseIsoTime(IsoTime(t)) == Some(t)
  {
    var s := IsoTime(t);
    var h, m, sec := Digits(t.hour, 2), Digits(t.minute, 2), Digits(t.second, 2);
    var frac := if t.microsecond == 0 then "" else "." + Digits(t.microsecond, 6);
    assert s == h + ":" + m + ":" + sec + frac;
    assert s[2] == ':' && s[5] == ':';
    assert Field(s[..2], 0, 23) == Some(t.hour) by {
      assert s[..2] == h;
      FieldRoundTrip(t.hour, 2, 0, 23);
    }
    assert Field(s[3..5], 0, 59) == Some(t.minute) by {
      assert s[3..5] == m;
      FieldRoundTrip(t.minute, 2, 0, 59);
    }
    assert Field(s[6..8], 0, 59) == Some(t.second) by {
      assert s[6..8] == sec;
      FieldRoundTrip(t.second, 2, 0, 59);
    }
    if t.microsecond != 0 {
      assert s[8] == '.' && Field(s[9..], 1, 999999) == Some(t.microsecond) by {
        assert s[8] == '.' && s[9..] == Digits(t.microsecond, 6);
        FieldRoundTrip(t.microsecond, 6, 1, 999999);
      }
    }
  }

  /** The datetime text is lossless: parsing it gives the date and the time back. */
  lemma IsoDateTimeRoundTrip(d: CalendarDate, t: ClockTime)
    ensures ParseIsoDateTime(IsoDateTime(d, t)) == Some((d, t))
  {
    var s := IsoDateTime(d, t);
    assert s[..10] == IsoDate(d) && s[10] == 'T' && s[11..] == IsoTime(t);
    IsoDateRoundTrip(d);
    IsoTimeRoundTrip(t);
  }

  /** The real number a fixed-point decimal stands for. */
  function DecimalValue(unscaled: int, scale: nat): real
  {
    unscaled as real / Pow10(scale) as real
  }

  /**
    `convert_value_for_neo4j`: a decimal becomes a float, a date or datetime
    its ISO text, and every other value passes through unchanged.
   */
  function Convert(v: Value): (r: Value)
    ensures StoreNeutral(r)
    ensures StoreNeutral(v) ==> r == v
    ensures v.Null? <==> r.Null?
    ensures v.Decimal? ==> r == Float(DecimalValue(v.unscaled, v.scale))
    ensures v.Date? ==> r.Str? && ParseIsoDate(r.s) == Some(v.date)
    ensures v.DateTime? ==> r.Str? && ParseIsoDateTime(r.s) == Some((v.date, v.time))
  {
    match v
    case Decimal(u, sc) => Float(DecimalValue(u, sc))
    case Date(d) => IsoDateRoundTrip(d); Str(IsoDate(d))
    case DateTime(d, t) => IsoDateTimeRoundTrip(d, t); Str(IsoDateTime(d, t))
    case _ => v
  }

  /** Converting an already converted value changes nothing. */
  lemma ConvertIdempotent(v: Value)
    ensures Convert(Convert(v)) == Convert(v)
  {
  }

  /** A fixed-point `12.50` converts to the float `12.5`. */
  lemma ConvertDecimalExample()
    ensures Convert(Decimal(1250, 2)) == Float(12.5)
  {
    assert Pow10(2) == 100;
  }

  lemma DigitsExamples()
    ensures Digits(2024, 4) == "2024" && Digits(1, 2) == "01" && Digits(5, 2) == "05"
  {
    assert Digits(0, 0) == "";
    assert Digits(2, 1) == "2";
    assert Digits(20, 2) == "20";
    assert Digits(202, 3) == "202";
    assert Digits(0, 1) == "0";
  }

  /** The date `2024-01-05` converts to the text `2024-01-05`. */
  lemma ConvertDateExample()
    ensures Convert(Date(CalendarDate(2024, 1, 5))) == Str("2024-01-05")
  {
    DigitsExamples();
    var d := CalendarDate(2024, 1, 5);
    assert IsoDate(d) == "2024" + "-" + "01" + "-" + "05";
  }
}
