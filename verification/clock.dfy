/**
 * Wall-clock arithmetic of the domain classes. Instants are milliseconds
 * since the epoch. Date.setHours(getHours() + h) and
 * Date.setDate(getDate() + d) move local calendar fields; across a
 * daylight-saving change that is an hour more or less than the fixed
 * lengths below, which this model does not follow.
 */
module Clock {
  const HourMs: int := 60 * 60 * 1000
  const DayMs: int := 24 * HourMs
}
