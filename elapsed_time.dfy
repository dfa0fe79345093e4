/**
 * The unit that `formatElapsedTime` picks for the server-side execution time
 * (the `x-warp10-elapsed` response header, in nanoseconds, read with
 * `parseInt(…, 10)`). Only the choice of unit and its scale are modelled;
 * the `toFixed(3)` text is not.
 */
module ElapsedTime {

  /** The result of `parseInt`: a whole number, or `NaN` for a missing or non-numeric header. */
  datatype ParsedInt = Int(value: int) | NaN

  datatype TimeUnit = Nanoseconds | Microseconds | Milliseconds | Seconds | Minutes

  /** The thresholds of `formatElapsedTime`, tested in order; every comparison with `NaN` is false. */
  function ElapsedUnit(elapsed: ParsedInt): TimeUnit
  {
    match elapsed
    case NaN => Minutes
    case Int(n) =>
      if n < 1000 then Nanoseconds
      else if n < 1000000 then Microseconds
      else if n < 1000000000 then Milliseconds
      else if n < 1000000000000 then Seconds
      else Minutes
  }

  /** The text appended after the number, with its leading space. */
  function Suffix(u: TimeUnit): string
  {
    match u
    case Nanoseconds => " ns"
    case Microseconds => " μs"
    case Milliseconds => " ms"
    case Seconds => " s "
    case Minutes => " m "
  }

  /** What the elapsed nanoseconds are divided by before printing. */
  function Divisor(u: TimeUnit): nat
  {
    match u
    case Nanoseconds => 1
    case Microseconds => 1000
    case Milliseconds => 1000000
    case Seconds => 1000000000
    case Minutes => 60000000000
  }

  /** Units from the smallest (0) to the largest (4). */
  function Rank(u: TimeUnit): nat
  {
    match u
    case Nanoseconds => 0
    case Microseconds => 1
    case Milliseconds => 2
    case Seconds => 3
    case Minutes => 4
  }

  /** The five units split the integers into consecutive ranges. */
  lemma UnitPartition(n: int)
    ensures ElapsedUnit(Int(n)) == Nanoseconds <==> n < 1000
    ensures ElapsedUnit(Int(n)) == Microseconds <==> 1000 <= n < 1000000
    ensures ElapsedUnit(Int(n)) == Milliseconds <==> 1000000 <= n < 1000000000
    ensures ElapsedUnit(Int(n)) == Seconds <==> 1000000000 <= n < 1000000000000
    ensures ElapsedUnit(Int(n)) == Minutes <==> 1000000000000 <= n
  {
  }

  /** A longer execution never gets a smaller unit. */
  lemma UnitMonotone(a: int, b: int)
    requires a <= b
    ensures Rank(ElapsedUnit(Int(a))) <= Rank(ElapsedUnit(Int(b)))
  {
  }

  /** A missing header is shown in minutes. */
  lemma MissingHeaderIsMinutes()
    ensures ElapsedUnit(NaN) == Minutes && Suffix(ElapsedUnit(NaN)) == " m "
  {
  }

  /** The printed number of a non-negative time below the minute range lies in `[1, 1000)`, or `[0, 1000)` in nanoseconds. */
  lemma ScaledValueRange(n: int)
    requires 0 <= n < 1000000000000
    ensures var u := ElapsedUnit(Int(n));
      var x := (n as real) / (Divisor(u) as real);
      x < 1000.0 && (u != Nanoseconds ==> 1.0 <= x)
  {
  }

  /** In the minute range the printed number is above 16. */
  lemma MinutesScaledValue(n: int)
    requires 1000000000000 <= n
    ensures (n as real) / (Divisor(ElapsedUnit(Int(n))) as real) > 16.0
  {
  }
}
