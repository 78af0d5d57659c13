/**
 * Posted dates. fetch_jobs compares two midnight timestamps (the parsed
 * `date_posted` and the parsed date picked in the form), so the comparison
 * is one between calendar days, ordered by year, then month, then day.
 */
module Dates {

  datatype Date = Date(year: int, month: int, day: int)

  /** `a` is a strictly earlier day than `b`. */
  predicate Before(a: Date, b: Date) {
    || a.year < b.year
    || (a.year == b.year && a.month < b.month)
    || (a.year == b.year && a.month == b.month && a.day < b.day)
  }

  /** `posted >= cutoff` on timestamps: the same day as the cutoff or later. */
  predicate OnOrAfter(posted: Date, cutoff: Date) {
    !Before(posted, cutoff)
  }

  /**
   * Before is a strict total order on days, so OnOrAfter is the matching
   * `>=`: reflexive, transitive, and any two days are comparable.
   */
  lemma BeforeIsStrictTotalOrder(a: Date, b: Date, c: Date)
    ensures !Before(a, a)
    ensures Before(a, b) && Before(b, c) ==> Before(a, c)
    ensures a == b || Before(a, b) || Before(b, a)
    ensures !(Before(a, b) && Before(b, a))
    ensures OnOrAfter(a, a)
    ensures OnOrAfter(a, b) && OnOrAfter(b, c) ==> OnOrAfter(a, c)
    ensures OnOrAfter(a, b) || OnOrAfter(b, a)
  {
  }
}
