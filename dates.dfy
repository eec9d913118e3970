/** Calendar dates as comparable (year, month, day) triples, standing in for
    Python's `datetime.date` as the scripts compare them. */
module Dates {

  datatype Date = Date(year: int, month: int, day: int)

  /** A calendar date's month and day are in range. */
  predicate Valid(d: Date)
  {
    1 <= d.month <= 12 && 1 <= d.day <= 31
  }

  /** A number that grows with the date: days are counted as if every month had 31 days
      and every year 12 months, which keeps the order of valid dates. */
  function Ordinal(d: Date): int
  {
    (d.year * 12 + d.month) * 32 + d.day
  }

  /** `a < b` on dates: year first, then month, then day. On valid dates this is the
      order of their ordinals, the way Python compares `datetime.date` values. */
  function Before(a: Date, b: Date): (r: bool)
    ensures Valid(a) && Valid(b) ==> (r <==> Ordinal(a) < Ordinal(b))
  {
    a.year < b.year ||
    (a.year == b.year && (a.month < b.month || (a.month == b.month && a.day < b.day)))
  }

  /** The day the movement was formed: earlier signup dates are not trusted. */
  const FORMATION_DATE := Date(2018, 4, 1)

  /** Joins through a website referrer count as `Website` only strictly before this day. */
  const WEBSITE_JOIN_CUTOFF := Date(2020, 2, 20)

  /** `Before` is a strict total order, so `!Before(b, a)` is `a <= b`. */
  lemma BeforeIsStrictTotalOrder(a: Date, b: Date, c: Date)
    ensures !Before(a, a)
    ensures Before(a, b) && Before(b, c) ==> Before(a, c)
    ensures a != b ==> Before(a, b) || Before(b, a)
    ensures Before(a, b) ==> !Before(b, a)
  {
  }
}
