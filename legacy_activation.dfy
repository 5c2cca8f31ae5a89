/** Activation in the older routers: the user's country and age must be set, the
    promo must pass the whole targeting chain (window, country, age, capacity), the
    anti-fraud service must say `ok`, and then one use is counted and, for a UNIQUE
    promo, the last code of the pool is taken out and returned. There is no
    membership table: every successful call allocates again. */
module LegacyActivation {
  import opened Base
  import opened PromoHelpers
  import opened Store
  import opened Antifraud

  /** `(age_from or 0) <= age <= (age_until or 1000)` as the router writes it. */
  predicate AgeAdmitsAsWritten(t: Target, age: int)
  {
    OrDefault(t.ageFrom, 0) <= age <= OrDefault(t.ageUntil, 1000)
  }

  /** The age rule as intended: each bound that is present is inclusive, and an absent
      bound restricts nothing. */
  predicate AgeAdmits(t: Target, age: int)
  {
    (t.ageFrom.None? || t.ageFrom.value <= age) && (t.ageUntil.None? || age <= t.ageUntil.value)
  }

  /** A promo for newborns only (`age_until` 0) is offered to a thirty-year-old,
      because `0 or 1000` is 1000. */
  lemma AgeUntilZeroReadAsUnbounded()
    ensures var t := Target(None, Some(0), None, None);
            AgeAdmitsAsWritten(t, 30) && !AgeAdmits(t, 30)
  {
  }

  /** Apart from an `age_until` of 0 the two rules agree on every age a profile can hold. */
  lemma AgeRulesAgreeOtherwise(t: Target, age: int)
    requires 0 <= age <= 100
    requires t.ageUntil != Some(0)
    requires t.ageUntil.None? || t.ageUntil.value <= 1000
    ensures AgeAdmitsAsWritten(t, age) <==> AgeAdmits(t, age)
  {
  }

  /** An absent or empty target country admits everyone; otherwise it must equal the
      user's lower-cased country after lower-casing. */
  predicate CountryAdmits(t: Target, userCountry: string)
  {
    t.country.None? || t.country.value == "" || Lower(t.country.value) == userCountry
  }

  /** The profile holds a non-empty country and an age. */
  predicate ProfileComplete(u: UserRow)
  {
    u.country.Some? && u.country.value != "" && u.age.Some?
  }

  /** The targeting chain, for a user whose profile is complete. */
  predicate Eligible(u: UserRow, p: PromoRow, today: Date)
    requires ProfileComplete(u)
  {
    InWindow(p.activeFrom, p.activeUntil, today) &&
    CountryAdmits(p.target, Lower(u.country.value)) &&
    AgeAdmits(p.target, u.age.value) &&
    HasCapacity(p)
  }

  /** Whoever passes the targeting chain finds the promo active. */
  lemma EligibleImpliesActive(u: UserRow, p: PromoRow, today: Date)
    requires ProfileComplete(u) && Eligible(u, p, today)
    ensures CalculateActive(p, today)
  {
  }

  /** One use is counted; a UNIQUE promo gives up the last code of its pool. */
  function Allocate(p: PromoRow): (r: (PromoRow, Option<string>))
    requires HasCapacity(p)
    ensures r.0.usedCount == p.usedCount + 1
    ensures p.mode == Common ==> r.0 == p.(usedCount := p.usedCount + 1) && r.1 == p.promoCommon
    ensures p.mode == Unique ==> r.1.Some? && Pool(p) == Pool(r.0) + [r.1.value] &&
                                 r.0 == p.(usedCount := p.usedCount + 1, promoUnique := Some(Pool(r.0)))
  {
    if p.mode == Common then (p.(usedCount := p.usedCount + 1), p.promoCommon)
    else
      var pool := Pool(p);
      assert pool == pool[..|pool| - 1] + [pool[|pool| - 1]];
      (p.(usedCount := p.usedCount + 1, promoUnique := Some(pool[..|pool| - 1])), Some(pool[|pool| - 1]))
  }

  /** For UNIQUE promos a successful allocation moves one code from the pool to the
      usage count, so their sum never changes. */
  lemma AllocateKeepsUniqueTotal(p: PromoRow)
    requires p.mode == Unique && HasCapacity(p)
    ensures Allocate(p).0.usedCount + |Pool(Allocate(p).0)| == p.usedCount + |Pool(p)|
  {
  }

  /** `activate_promo` of the older router, for the user with e-mail `email`. */
  method ActivateLegacy(db: LegacyDb, email: string, promoId: Uuid, today: Date, reply: Oracle)
    returns (r: Result<Option<string>>, attempts: nat)
    modifies db`promos
    ensures email !in db.users ==> r == Err(NotFound) && attempts == 0
    ensures email in db.users && !ProfileComplete(db.users[email]) ==> r == Err(BadRequest) && attempts == 0
    ensures email in db.users && ProfileComplete(db.users[email]) && promoId !in old(db.promos) ==>
              r == Err(NotFound) && attempts == 0
    ensures email in db.users && ProfileComplete(db.users[email]) && promoId in old(db.promos) &&
            !Eligible(db.users[email], old(db.promos[promoId]), today) ==>
              r == Err(Forbidden) && attempts == 0
    ensures attempts <= MaxAttempts
    // success needs the whole chain and a verdict whose `ok` is true
    ensures r.Ok? <==>
              email in db.users && ProfileComplete(db.users[email]) && promoId in old(db.promos) &&
              Eligible(db.users[email], old(db.promos[promoId]), today) &&
              ConsultLegacy(reply).Ok? && ConsultLegacy(reply).value.ok == Some(true)
    // past the targeting chain the anti-fraud call decides: its error is passed on,
    // a verdict whose `ok` is false is a 403, one without `ok` an uncaught lookup error
    ensures email in db.users && ProfileComplete(db.users[email]) && promoId in old(db.promos) &&
            Eligible(db.users[email], old(db.promos[promoId]), today) ==>
              attempts == AttemptsSent(Attempt(reply, 0)) &&
              (ConsultLegacy(reply).Err? ==> r == Err(ConsultLegacy(reply).error)) &&
              (ConsultLegacy(reply).Ok? && ConsultLegacy(reply).value.ok == Some(false) ==> r == Err(Forbidden)) &&
              (ConsultLegacy(reply).Ok? && ConsultLegacy(reply).value.ok.None? ==> r == Err(ServerError))
    ensures r.Err? && r.error == ServerError ==>
              ConsultLegacy(reply).Err? || ConsultLegacy(reply).value.ok.None?
    ensures r.Err? ==> db.promos == old(db.promos)
    ensures r.Ok? ==> promoId in old(db.promos) && HasCapacity(old(db.promos[promoId])) &&
                      var (p', code) := Allocate(old(db.promos[promoId]));
                      db.promos == old(db.promos)[promoId := p'] && r.value == code
  {
    if email !in db.users {
      return Err(NotFound), 0;
    }
    var user := db.users[email];
    if !ProfileComplete(user) {
      return Err(BadRequest), 0;
    }
    if promoId !in db.promos {
      return Err(NotFound), 0;
    }
    var p := db.promos[promoId];
    if !Eligible(user, p, today) {
      return Err(Forbidden), 0;
    }
    var verdict;
    verdict, attempts := CallAntifraudLegacy(reply);
    if verdict.Err? {
      return Err(verdict.error), attempts;
    }
    if verdict.value.ok.None? {
      return Err(ServerError), attempts;
    }
    if !verdict.value.ok.value {
      return Err(Forbidden), attempts;
    }
    var (p', code) := Allocate(p);
    db.promos := db.promos[promoId := p'];
    r := Ok(code);
  }
}
