/**
  The UTC clock value the repositories read (`DateTime.UtcNow`) and the two
  custom formats the repositories use to turn it into an audit row key.
  The clock itself is not modelled: every operation that reads it takes the
  instant as a parameter.
 */
module Clock {
  import opened Digits

  /** A .NET DateTime, field by field, to millisecond precision. */
  datatype DateTime = DateTime(year: nat, month: nat, day: nat,
                               hour: nat, minute: nat, second: nat, millisecond: nat)

  /** `default(DateTime)`, the value of a date field nobody has set. */
  const MinValue := DateTime(1, 1, 1, 0, 0, 0, 0)

  predicate IsLeapYear(year: nat)
  {
    year % 4 == 0 && (year % 100 != 0 || year % 400 == 0)
  }

  function DaysInMonth(year: nat, month: nat): nat
    requires 1 <= month <= 12
  {
    if month == 2 then (if IsLeapYear(year) then 29 else 28)
    else if month == 4 || month == 6 || month == 9 || month == 11 then 30
    else 31
  }

  /** The range .NET's DateTime can represent. */
  predicate Valid(d: DateTime)
  {
    && 1 <= d.year <= 9999
    && 1 <= d.month <= 12
    && 1 <= d.day <= DaysInMonth(d.year, d.month)
    && d.hour < 24 && d.minute < 60 && d.second < 60 && d.millisecond < 1000
  }

  /** A zero-padded decimal field of the given width (`yyyy`, `MM`, `fff`, ...). */
  function Dec(n: nat, width: nat): (s: string)
    ensures |s| == width
  {
    FixedWidth(n, 10, width)
  }

  /** The production audit row key: `yyyy-MM-ddTHH:mm:ss.fff` (24-hour clock). */
  function AuditRowKey(d: DateTime): (s: string)
    ensures |s| == 23
    ensures s[4] == s[7] == '-' && s[10] == 'T' && s[13] == s[16] == ':' && s[19] == '.'
  {
    Dec(d.year, 4) + "-" + Dec(d.month, 2) + "-" + Dec(d.day, 2) + "T" +
    Dec(d.hour, 2) + ":" + Dec(d.minute, 2) + ":" + Dec(d.second, 2) + "." + Dec(d.millisecond, 3)
  }

  /** Reads the fields back out of a production audit row key. */
  function ParseAuditRowKey(s: string): DateTime
    requires |s| == 23
  {
    DateTime(ValueOf(s[0..4], 10), ValueOf(s[5..7], 10), ValueOf(s[8..10], 10),
             ValueOf(s[11..13], 10), ValueOf(s[14..16], 10), ValueOf(s[17..19], 10),
             ValueOf(s[20..23], 10))
  }

  /** Where each field of the instant sits in a production audit row key. */
  lemma AuditRowKeyFields(d: DateTime)
    ensures var s := AuditRowKey(d);
            && s[0..4] == Dec(d.year, 4) && s[5..7] == Dec(d.month, 2) && s[8..10] == Dec(d.day, 2)
            && s[11..13] == Dec(d.hour, 2) && s[14..16] == Dec(d.minute, 2) && s[17..19] == Dec(d.second, 2)
            && s[20..23] == Dec(d.millisecond, 3)
  {
    var s := AuditRowKey(d);
    assert s[0..4] == Dec(d.year, 4);
    assert s[5..7] == Dec(d.month, 2);
    assert s[8..10] == Dec(d.day, 2);
    assert s[11..13] == Dec(d.hour, 2);
    assert s[14..16] == Dec(d.minute, 2);
    assert s[17..19] == Dec(d.second, 2);
    assert s[20..23] == Dec(d.millisecond, 3);
  }

  /** The production format loses nothing: the instant can be read back from its key. */
  lemma AuditRowKeyRoundTrip(d: DateTime)
    requires Valid(d)
    ensures ParseAuditRowKey(AuditRowKey(d)) == d
  {
    AuditRowKeyFields(d);
    PowersOfTen();
    ValueOfFixedWidth(d.year, 10, 4);
    ValueOfFixedWidth(d.month, 10, 2);
    ValueOfFixedWidth(d.day, 10, 2);
    ValueOfFixedWidth(d.hour, 10, 2);
    ValueOfFixedWidth(d.minute, 10, 2);
    ValueOfFixedWidth(d.second, 10, 2);
    ValueOfFixedWidth(d.millisecond, 10, 3);
  }

  /** Two distinct instants never share a production audit row key. */
  lemma AuditRowKeyInjective(d1: DateTime, d2: DateTime)
    requires Valid(d1) && Valid(d2) && AuditRowKey(d1) == AuditRowKey(d2)
    ensures d1 == d2
  {
    AuditRowKeyRoundTrip(d1);
    AuditRowKeyRoundTrip(d2);
  }

  /** The `hh` specifier: the hour on a 12-hour clock, 12 for midnight and noon. */
  function Hour12(hour: nat): (h: nat)
    ensures 1 <= h <= 12
    ensures h % 12 == hour % 12
  {
    if hour % 12 == 0 then 12 else hour % 12
  }

  /**
    The prototype audit row key, `yyyy-mm-ddThh:mm:ss:fff` as written: `mm`
    is the minute, so the minute also sits where the month belongs, and `hh`
    is the 12-hour hour.
   */
  function PrototypeAuditRowKey(d: DateTime): (s: string)
    ensures |s| == 23
    ensures s[4] == s[7] == '-' && s[10] == 'T' && s[13] == s[16] == s[19] == ':'
    ensures s[5..7] == s[14..16] == Dec(d.minute, 2) && s[11..13] == Dec(Hour12(d.hour), 2)
  {
    Dec(d.year, 4) + "-" + Dec(d.minute, 2) + "-" + Dec(d.day, 2) + "T" +
    Dec(Hour12(d.hour), 2) + ":" + Dec(d.minute, 2) + ":" + Dec(d.second, 2) + ":" + Dec(d.millisecond, 3)
  }

  /**
    The prototype key forgets the month and whether the hour is before or
    after noon: the same instant in another month, twelve hours apart, gets
    the same key.
   */
  lemma PrototypeAuditRowKeyCollides(d: DateTime, month: nat)
    requires Valid(d) && 1 <= month <= 12 && month != d.month && d.day <= 28
    ensures var e := d.(month := month, hour := (d.hour + 12) % 24);
            Valid(e) && e != d && PrototypeAuditRowKey(e) == PrototypeAuditRowKey(d)
  {
    var e := d.(month := month, hour := (d.hour + 12) % 24);
    assert Hour12(e.hour) == Hour12(d.hour);
  }
}
