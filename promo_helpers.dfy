/** The canonical activity predicate `calculate_active`, shown to companies and users
    as the `active` flag of a promo. The older routers carry verbatim copies of it. */
module PromoHelpers {
  import opened Base

  /** `today` lies in the inclusive window; an absent bound (`date.min` / `date.max`
      in the source) restricts nothing on its side. */
  predicate InWindow(activeFrom: Option<Date>, activeUntil: Option<Date>, today: Date)
  {
    (activeFrom.None? || activeFrom.value <= today) &&
    (activeUntil.None? || today <= activeUntil.value)
  }

  /** The window is well ordered: both bounds present implies from <= until. */
  predicate WindowOrdered(activeFrom: Option<Date>, activeUntil: Option<Date>)
  {
    activeFrom.None? || activeUntil.None? || activeFrom.value <= activeUntil.value
  }

  /** Capacity remains: a COMMON promo has `used_count < max_count`, a UNIQUE
      promo has a non-empty pool. */
  predicate HasCapacity(p: PromoRow)
  {
    match p.mode
    case Common => p.usedCount < p.maxCount
    case Unique => Pool(p) != []
  }

  /** Whether the promo is live on `today`. */
  function CalculateActive(p: PromoRow, today: Date): (r: bool)
    // outside the inclusive window the promo is never active
    ensures p.activeFrom.Some? && today < p.activeFrom.value ==> !r
    ensures p.activeUntil.Some? && today > p.activeUntil.value ==> !r
    // an exhausted COMMON counter or an empty UNIQUE pool is never active
    ensures p.mode == Common && p.usedCount >= p.maxCount ==> !r
    ensures p.mode == Unique && (p.promoUnique.None? || p.promoUnique.value == []) ==> !r
    // in the window with capacity left the promo is active
    ensures InWindow(p.activeFrom, p.activeUntil, today) && HasCapacity(p) ==> r
  {
    if !InWindow(p.activeFrom, p.activeUntil, today) then false
    else if p.mode == Common && p.usedCount >= p.maxCount then false
    else if p.mode == Unique && Pool(p) == [] then false
    else true
  }

  /** The flag depends on today, the window, the mode, used_count, max_count and the
      pool only: the stored `active` flag, `limit`, the target and the counters of the
      social features play no part. */
  lemma ActiveIgnoresOtherFields(p: PromoRow, q: PromoRow, today: Date)
    requires p.activeFrom == q.activeFrom && p.activeUntil == q.activeUntil
    requires p.mode == q.mode && p.usedCount == q.usedCount && p.maxCount == q.maxCount
    requires Pool(p) == Pool(q)
    ensures CalculateActive(p, today) == CalculateActive(q, today)
  {
  }

  /** A missing `active_from` imposes no lower bound: a promo active on some day is
      also active on every earlier day, when it has no `active_from`. */
  lemma AbsentFromIsUnbounded(p: PromoRow, today: Date, earlier: Date)
    requires p.activeFrom.None? && earlier <= today
    ensures CalculateActive(p, today) ==> CalculateActive(p, earlier)
  {
  }

  /** A missing `active_until` imposes no upper bound. */
  lemma AbsentUntilIsUnbounded(p: PromoRow, today: Date, later: Date)
    requires p.activeUntil.None? && today <= later
    ensures CalculateActive(p, today) ==> CalculateActive(p, later)
  {
  }

  /** Raising the COMMON usage counter can only switch the flag off, never on. */
  lemma CommonUsageOnlyDeactivates(p: PromoRow, today: Date, used: int)
    requires p.mode == Common && p.usedCount <= used
    ensures CalculateActive(p.(usedCount := used), today) ==> CalculateActive(p, today)
  {
  }
}
