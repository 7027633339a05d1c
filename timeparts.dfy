/** Splitting a time in seconds into hours, minutes and seconds, as
    format_timestamp (convert_to_readable.py) and format_duration
    (utils.py) both do, with Python's int(), // and % written out. */
module TimeParts {

  /** Python's int() of a float: truncation toward zero. */
  function Trunc(x: real): int {
    if x >= 0.0 then x.Floor else -((-x).Floor)
  }

  lemma TruncSpec(x: real)
    ensures x >= 0.0 ==> Trunc(x) >= 0 && Trunc(x) as real <= x < Trunc(x) as real + 1.0
    ensures x < 0.0 ==> Trunc(x) <= 0 && Trunc(x) as real - 1.0 < x <= Trunc(x) as real
  {
  }

  datatype Clock = Clock(hours: int, minutes: int, seconds: int)

  /** The hours, minutes and seconds of a whole number of seconds, with
      floor division. */
  function ClockOf(total: int): Clock {
    Clock(total / 3600, (total % 3600) / 60, total % 60)
  }

  /** The fields put the total back together, minutes and seconds stay
      below 60, and hours are not wrapped at 24. */
  lemma ClockOfSpec(total: int)
    ensures var c := ClockOf(total);
      && c.hours * 3600 + c.minutes * 60 + c.seconds == total
      && 0 <= c.minutes < 60 && 0 <= c.seconds < 60
      && (total >= 0 ==> c.hours >= 0)
  {
  }

  /** Python's float floor division x // d, for a positive divisor. */
  function FloorDiv(x: real, d: real): int
    requires d > 0.0
  {
    (x / d).Floor
  }

  /** Python's float x % d for a positive divisor: the result has the
      divisor's sign. */
  function FloorMod(x: real, d: real): real
    requires d > 0.0
  {
    x - d * FloorDiv(x, d) as real
  }
}
