/** Times of day and naive datetimes as integers, and back. */
module TimeEncoding {
  import opened Options

  datatype TimeOfDay = TimeOfDay(hour: int, minute: int, second: int, microsecond: int)

  predicate ValidTime(t: TimeOfDay) {
    0 <= t.hour < 24 && 0 <= t.minute < 60 && 0 <= t.second < 60 && 0 <= t.microsecond < 1_000_000
  }

  const MICROS_PER_DAY := 86_400_000_000

  /** `_time_to_micros`. */
  function TimeToMicros(t: TimeOfDay): int {
    var seconds := t.hour * 3600 + t.minute * 60 + t.second;
    seconds * 1_000_000 + t.microsecond
  }

  /** `convert_timefield_value`: three `divmod`s; None where `datetime.time` raises. */
  function ConvertTimefieldValue(value: int): Option<TimeOfDay> {
    var seconds, microsecond := value / 1_000_000, value % 1_000_000;
    var minutes, second := seconds / 60, seconds % 60;
    var hour, minute := minutes / 60, minutes % 60;
    var t := TimeOfDay(hour, minute, second, microsecond);
    if ValidTime(t) then Some(t) else None
  }

  predicate Earlier(t: TimeOfDay, u: TimeOfDay) {
    t.hour < u.hour
    || (t.hour == u.hour
        && (t.minute < u.minute
            || (t.minute == u.minute
                && (t.second < u.second || (t.second == u.second && t.microsecond < u.microsecond)))))
  }

  /** Reading back a stored time gives the time, and only times of a day are stored. */
  lemma TimeRoundTrip(t: TimeOfDay)
    requires ValidTime(t)
    ensures 0 <= TimeToMicros(t) < MICROS_PER_DAY
    ensures ConvertTimefieldValue(TimeToMicros(t)) == Some(t)
  {
    var minutes := t.hour * 60 + t.minute;
    var seconds := minutes * 60 + t.second;
    var value := TimeToMicros(t);
    assert value == seconds * 1_000_000 + t.microsecond;
    assert value / 1_000_000 == seconds && value % 1_000_000 == t.microsecond;
    assert seconds / 60 == minutes && seconds % 60 == t.second;
    assert minutes / 60 == t.hour && minutes % 60 == t.minute;
  }

  /** Exactly the integers of one day are read back as times, each as the one it encodes. */
  lemma MicrosRoundTrip(value: int)
    ensures ConvertTimefieldValue(value).Some? <==> 0 <= value < MICROS_PER_DAY
    ensures ConvertTimefieldValue(value).Some? ==>
              TimeToMicros(ConvertTimefieldValue(value).value) == value
  {
    var seconds := value / 1_000_000;
    var minutes := seconds / 60;
    assert value == seconds * 1_000_000 + value % 1_000_000;
    assert seconds == minutes * 60 + seconds % 60;
    assert minutes == (minutes / 60) * 60 + minutes % 60;
  }

  /** The encoding is strictly monotone, so the stored integers sort as the times do. */
  lemma MicrosOrder(t: TimeOfDay, u: TimeOfDay)
    requires ValidTime(t) && ValidTime(u)
    ensures TimeToMicros(t) < TimeToMicros(u) <==> Earlier(t, u)
  {
  }

  /** `_TIME_EXTRACT`: divisor and modulus of each component. */
  function TimeExtract(lookup: string): Option<(int, int)> {
    if lookup == "hour" then Some((3_600_000_000, 24))
    else if lookup == "minute" then Some((60_000_000, 60))
    else if lookup == "second" then Some((1_000_000, 60))
    else None
  }

  function Component(lookup: string, t: TimeOfDay): int {
    if lookup == "hour" then t.hour else if lookup == "minute" then t.minute else t.second
  }

  /** `(sql) / divisor % modulus` over a stored time is the component that was stored. */
  lemma ExtractIsExact(lookup: string, t: TimeOfDay)
    requires ValidTime(t)
    ensures TimeExtract(lookup).Some? <==> lookup in {"hour", "minute", "second"}
    ensures TimeExtract(lookup).Some? ==>
              var (divisor, modulus) := TimeExtract(lookup).value;
              TimeToMicros(t) / divisor % modulus == Component(lookup, t)
  {
    if lookup == "hour" {
      HourIsExact(t);
    } else if lookup == "minute" {
      MinuteIsExact(t);
    } else if lookup == "second" {
      SecondIsExact(t);
    }
  }

  lemma HourIsExact(t: TimeOfDay)
    requires ValidTime(t)
    ensures TimeToMicros(t) / 3_600_000_000 % 24 == t.hour
  {
    assert TimeToMicros(t) == t.hour * 3_600_000_000 + (t.minute * 60 + t.second) * 1_000_000 + t.microsecond;
    assert TimeToMicros(t) / 3_600_000_000 == t.hour;
  }

  lemma MinuteIsExact(t: TimeOfDay)
    requires ValidTime(t)
    ensures TimeToMicros(t) / 60_000_000 % 60 == t.minute
  {
    var minutes := t.hour * 60 + t.minute;
    assert TimeToMicros(t) == minutes * 60_000_000 + t.second * 1_000_000 + t.microsecond;
    assert TimeToMicros(t) / 60_000_000 == minutes;
  }

  lemma SecondIsExact(t: TimeOfDay)
    requires ValidTime(t)
    ensures TimeToMicros(t) / 1_000_000 % 60 == t.second
  {
    var seconds := (t.hour * 60 + t.minute) * 60 + t.second;
    assert TimeToMicros(t) / 1_000_000 == seconds;
  }

  // ---- Naive datetimes, as the `timedelta` from the epoch ----

  datatype Delta = Delta(days: int, seconds: int, microseconds: int)

  /** The form every `timedelta` has: only the days may be negative. */
  predicate Normalised(d: Delta) {
    0 <= d.seconds < 86_400 && 0 <= d.microseconds < 1_000_000
  }

  /** `_datetime_to_epoch_us` of a naive datetime. */
  function DatetimeToEpochUs(d: Delta): int {
    d.days * 86_400_000_000 + d.seconds * 1_000_000 + d.microseconds
  }

  predicate Before(d: Delta, e: Delta) {
    d.days < e.days
    || (d.days == e.days
        && (d.seconds < e.seconds || (d.seconds == e.seconds && d.microseconds < e.microseconds)))
  }

  /** Distinct instants have distinct encodings, in the order of the instants, before 1970 too. */
  lemma EpochOrder(d: Delta, e: Delta)
    requires Normalised(d) && Normalised(e)
    ensures DatetimeToEpochUs(d) < DatetimeToEpochUs(e) <==> Before(d, e)
    ensures DatetimeToEpochUs(d) == DatetimeToEpochUs(e) <==> d == e
  {
  }

  /** The datetime that an integer encodes. */
  function DeltaOf(value: int): Delta {
    var seconds := value / 1_000_000;
    Delta(seconds / 86_400, seconds % 86_400, value % 1_000_000)
  }

  /** The epoch is zero, every datetime is read back as it was, and every integer encodes the one it is read as. */
  lemma EpochRoundTrip(d: Delta, value: int)
    ensures DatetimeToEpochUs(Delta(0, 0, 0)) == 0
    ensures Normalised(d) ==> DeltaOf(DatetimeToEpochUs(d)) == d
    ensures Normalised(DeltaOf(value)) && DatetimeToEpochUs(DeltaOf(value)) == value
  {
    if Normalised(d) {
      DeltaRoundTrip(d);
    }
    EveryIntegerIsRead(value);
  }

  lemma EveryIntegerIsRead(value: int)
    ensures Normalised(DeltaOf(value)) && DatetimeToEpochUs(DeltaOf(value)) == value
  {
    var seconds, microseconds := value / 1_000_000, value % 1_000_000;
    var days, rest := seconds / 86_400, seconds % 86_400;
    assert value == seconds * 1_000_000 + microseconds && seconds == days * 86_400 + rest;
    assert DeltaOf(value) == Delta(days, rest, microseconds);
    Recompose(days, rest, microseconds);
  }

  lemma Recompose(days: int, seconds: int, microseconds: int)
    ensures DatetimeToEpochUs(Delta(days, seconds, microseconds))
         == (days * 86_400 + seconds) * 1_000_000 + microseconds
  {
  }

  lemma DeltaRoundTrip(d: Delta)
    requires Normalised(d)
    ensures DeltaOf(DatetimeToEpochUs(d)) == d
  {
    var seconds, value := d.days * 86_400 + d.seconds, DatetimeToEpochUs(d);
    assert value == seconds * 1_000_000 + d.microseconds;
    assert value / 1_000_000 == seconds && value % 1_000_000 == d.microseconds;
    assert seconds / 86_400 == d.days && seconds % 86_400 == d.seconds;
  }

  /** The time of day of a datetime. */
  function TimeOf(d: Delta): TimeOfDay {
    TimeOfDay(d.seconds / 3600, d.seconds / 60 % 60, d.seconds % 60, d.microseconds)
  }

  /** It is as far into the day as the datetime is. */
  lemma TimeOfIsExact(d: Delta)
    requires Normalised(d)
    ensures var t := TimeOf(d);
            ValidTime(t) && t.hour * 3600 + t.minute * 60 + t.second == d.seconds && t.microsecond == d.microseconds
  {
    var minutes := d.seconds / 60;
    assert d.seconds == minutes * 60 + d.seconds % 60;
    assert d.seconds / 3600 == minutes / 60;
    assert minutes == minutes / 60 * 60 + minutes % 60;
  }
}
