/**
 * Instants, local calendar dates and the day window of a date.
 *
 * An instant is a whole number of seconds since 1970-01-01 00:00:00 UTC.
 * A calendar date is a day number in the local calendar (0 is 1970-01-01),
 * and a time of day is a number of seconds since local midnight. The local
 * timezone is a fixed offset, in seconds east of UTC, given as a parameter.
 */
module TimeModel {

  const SECONDS_PER_DAY: int := 86400

  type Instant = int
  type Date = int
  type Offset = int
  type TimeOfDay = t: int | 0 <= t < SECONDS_PER_DAY

  /** A timezone-aware point in time: a wall-clock reading and the offset it is read in. */
  datatype Moment = Moment(wall: int, offset: Offset) {

    /** The absolute instant this reading denotes. */
    function AsInstant(): Instant {
      wall - offset
    }

    /** The same instant, read in UTC (`astimezone(timezone.utc)`). */
    function ToUtc(): (m: Moment)
      ensures m.offset == 0
      ensures m.AsInstant() == AsInstant()
    {
      Moment(wall - offset, 0)
    }

    /** Subtracting a time span keeps the timezone and moves the instant back by the span. */
    function Minus(seconds: int): (m: Moment)
      ensures m.offset == offset
      ensures m.AsInstant() == AsInstant() - seconds
    {
      Moment(wall - seconds, offset)
    }
  }

  /** The local calendar date on which an instant falls. */
  function LocalDate(t: Instant, offset: Offset): Date {
    (t + offset) / SECONDS_PER_DAY
  }

  /** The local time of day of an instant. */
  function LocalTimeOfDay(t: Instant, offset: Offset): TimeOfDay {
    (t + offset) % SECONDS_PER_DAY
  }

  /**
   * Today's local date, given the current instant: the local clock reads
   * `now` at or after that date's midnight and before the next one.
   */
  function Today(now: Instant, offset: Offset): (d: Date)
    ensures d * SECONDS_PER_DAY <= now + offset < (d + 1) * SECONDS_PER_DAY
  {
    LocalDate(now, offset)
  }

  /**
   * A local date and time of day, read in the local timezone. The result
   * falls on that local date at that time of day.
   */
  function CombineDateTime(date: Date, time: TimeOfDay, offset: Offset): (m: Moment)
    ensures m.offset == offset
    ensures LocalDate(m.AsInstant(), offset) == date
    ensures LocalTimeOfDay(m.AsInstant(), offset) == time
  {
    var m := Moment(date * SECONDS_PER_DAY + time, offset);
    DivModSplit(date, time);
    m
  }

  lemma DivModSplit(q: int, r: int)
    requires 0 <= r < SECONDS_PER_DAY
    ensures (q * SECONDS_PER_DAY + r) / SECONDS_PER_DAY == q
    ensures (q * SECONDS_PER_DAY + r) % SECONDS_PER_DAY == r
  {
  }

  /** Every instant is the combination of its own local date and time of day. */
  lemma CombineLocalParts(t: Instant, offset: Offset)
    ensures CombineDateTime(LocalDate(t, offset), LocalTimeOfDay(t, offset), offset).AsInstant() == t
  {
  }

  /** The UTC instants covering one local date: `(earliest, latest)`. */
  datatype Window = Window(earliest: Instant, latest: Instant)

  /**
   * The day window of a local date: local midnight, read in UTC, and the
   * instant one day later. With a fixed offset the day is exactly 24 hours.
   */
  function DateLimits(date: Date, offset: Offset): (w: Window)
    ensures w.latest - w.earliest == SECONDS_PER_DAY
    ensures w.earliest == CombineDateTime(date, 0, offset).AsInstant()
    ensures LocalDate(w.earliest, offset) == date && LocalTimeOfDay(w.earliest, offset) == 0
  {
    var earliest := CombineDateTime(date, 0, offset);
    var latest := Moment(earliest.wall + SECONDS_PER_DAY, earliest.offset).ToUtc();
    Window(earliest.ToUtc().AsInstant(), latest.AsInstant())
  }

  /** The window of a date, in numbers. */
  lemma WindowBounds(date: Date, offset: Offset)
    ensures DateLimits(date, offset) == Window(date * SECONDS_PER_DAY - offset, date * SECONDS_PER_DAY - offset + SECONDS_PER_DAY)
    ensures forall t: TimeOfDay :: CombineDateTime(date, t, offset).AsInstant() == date * SECONDS_PER_DAY + t - offset
  {
  }

  /** An instant lies in the half-open window of a date exactly when it falls on that local date. */
  lemma WindowIsLocalDate(date: Date, offset: Offset, t: Instant)
    ensures DateLimits(date, offset).earliest <= t < DateLimits(date, offset).latest
            <==> LocalDate(t, offset) == date
  {
    var w := DateLimits(date, offset);
    assert w.earliest == date * SECONDS_PER_DAY - offset;
    if w.earliest <= t < w.latest {
      DivModSplit(date, t + offset - date * SECONDS_PER_DAY);
    }
    if LocalDate(t, offset) == date {
      assert t + offset == date * SECONDS_PER_DAY + LocalTimeOfDay(t, offset);
    }
  }

  /** The window of the next date starts where the window of a date ends. */
  lemma ConsecutiveWindows(date: Date, offset: Offset)
    ensures DateLimits(date + 1, offset).earliest == DateLimits(date, offset).latest
  {
    assert (date + 1) * SECONDS_PER_DAY == date * SECONDS_PER_DAY + SECONDS_PER_DAY;
  }
}
