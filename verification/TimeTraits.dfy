/** The clock arithmetic every deadline of the pool is computed with. */
module TimeTraits {

  /** A signed 64-bit tick count: the representation of both time points and durations.
      Arithmetic on this type is checked for overflow, intermediate results included. */
  newtype Ticks = x: int | -0x8000_0000_0000_0000 <= x <= 0x7FFF_FFFF_FFFF_FFFF

  const MIN: Ticks := -0x8000_0000_0000_0000
  const MAX: Ticks := 0x7FFF_FFFF_FFFF_FFFF
  const EPOCH: Ticks := 0

  /** The nearest representable tick count to an exact integer. */
  function Clamp(x: int): (r: Ticks)
    ensures MIN as int <= x <= MAX as int ==> r as int == x
    ensures x > MAX as int ==> r == MAX
    ensures x < MIN as int ==> r == MIN
  {
    if x < MIN as int then MIN else if x > MAX as int then MAX else x as Ticks
  }

  function Min(a: Ticks, b: Ticks): (r: Ticks)
    ensures r <= a && r <= b && (r == a || r == b)
  {
    if b < a then b else a
  }

  /** Saturating addition; the result is the exact sum, clamped. */
  function Add(t: Ticks, d: Ticks): (r: Ticks)
    ensures r == Clamp(t as int + d as int)
  {
    if t >= EPOCH then
      if MAX - t < d then MAX else t + d
    else
      if -(t - MIN) > d then MIN else t + d
  }

  lemma AddIsMonotone(t: Ticks, t': Ticks, d: Ticks, d': Ticks)
    requires t <= t' && d <= d'
    ensures Add(t, d) <= Add(t', d')
  {
  }

  /** The earlier of two saturated deadlines is the saturation of the earlier exact deadline. */
  lemma MinOfDeadlines(t: Ticks, d: Ticks, t': Ticks, d': Ticks)
    ensures Min(Add(t, d), Add(t', d')) ==
            Clamp(if t' as int + d' as int < t as int + d as int then t' as int + d' as int else t as int + d as int)
  {
  }

  /** A saturated deadline lies strictly in the future exactly for a positive duration
      counted from an instant below the maximum. */
  lemma DeadlineAhead(t: Ticks, d: Ticks)
    ensures Add(t, d) > t <==> d > 0 && t < MAX
  {
  }
}
