/** The company side of the layered service: creating a promo, reading one, patching
    one field by field, and the per-country activation statistics. */
module PromoService {
  import opened Base
  import opened PromoHelpers
  import opened Store
  import opened Schemas
  import opened Sorting
  import opened Activation

  function ModeOf(mode: string): Mode
  {
    if mode == "UNIQUE" then Unique else Common
  }

  /** The row `create_promo` stores for a request that passed validation. */
  function NewPromoRow(req: PromoCreateRequest, promoId: Uuid, companyId: Uuid, companyName: string,
                       now: Instant, today: Date): (r: PromoRow)
    // each mode keeps only its own code field
    ensures r.mode == Common ==> r.promoCommon == req.promoCommon && r.promoUnique.None?
    ensures r.mode == Unique ==> r.promoUnique == req.promoUnique && r.promoCommon.None?
    ensures r.uniqueCount == |Pool(r)|
    // counters start at zero and `limit` starts equal to `max_count`
    ensures r.usedCount == 0 && r.likeCount == 0 && r.commentCount == 0
    ensures r.limit == r.maxCount == req.maxCount
    // the stored flag is the activity predicate of the new row
    ensures r.active == CalculateActive(r, today)
    ensures r.promoId == promoId && r.companyId == companyId && r.createdAt == now
    ensures r.activeFrom == req.activeFrom && r.activeUntil == req.activeUntil && r.target == req.target
  {
    var mode := ModeOf(req.mode);
    var common := if mode == Common then req.promoCommon else None;
    var unique := if mode == Unique then req.promoUnique else None;
    var uniqueCount := if unique.Some? && unique.value != [] then |unique.value| else 0;
    var row := PromoRow(promoId, companyId, companyName, mode, common, unique, req.description,
                        req.imageUrl, req.target, req.activeFrom, req.activeUntil, req.maxCount,
                        req.maxCount, uniqueCount, 0, 0, 0, true, now);
    if CalculateActive(row, today) then row else row.(active := false)
  }

  /** `create_promo`: 400 (validation) for a request that fails validation, 400 for an inverted
      window, and otherwise the new row under a fresh `promo_id`. A `promo_id` already
      in the table is a key violation (500). */
  method CreatePromo(db: Db, req: PromoCreateRequest, isUrl: Lookup, isCountry: Lookup,
                     promoId: Uuid, companyId: Uuid, companyName: string, now: Instant, today: Date)
    returns (r: Result<Uuid>)
    modifies db`promos
    ensures !ValidPromoCreate(req, isUrl, isCountry) ==> r == Err(InvalidRequest)
    ensures ValidPromoCreate(req, isUrl, isCountry) && !WindowOrdered(req.activeFrom, req.activeUntil) ==>
              r == Err(BadRequest)
    ensures r.Ok? <==> ValidPromoCreate(req, isUrl, isCountry) &&
                       WindowOrdered(req.activeFrom, req.activeUntil) && promoId !in old(db.promos)
    ensures r.Ok? ==> (r.value == promoId &&
              db.promos == old(db.promos)[promoId := NewPromoRow(req, promoId, companyId, companyName, now, today)])
    ensures r.Err? ==> db.promos == old(db.promos)
  {
    if !ValidPromoCreate(req, isUrl, isCountry) {
      return Err(InvalidRequest);
    }
    if req.activeFrom.Some? && req.activeUntil.Some? && req.activeFrom.value > req.activeUntil.value {
      return Err(BadRequest);
    }
    if promoId in db.promos {
      return Err(ServerError);
    }
    db.promos := db.promos[promoId := NewPromoRow(req, promoId, companyId, companyName, now, today)];
    r := Ok(promoId);
  }

  /** A new promo joins the table without disturbing the allocation invariant, as long
      as no activation row already names its id. */
  lemma CreateKeepsAllocationConsistent(promos: map<Uuid, PromoRow>, acts: seq<ActivationRow>,
                                        req: PromoCreateRequest, isUrl: Lookup, isCountry: Lookup,
                                        promoId: Uuid, companyId: Uuid, companyName: string,
                                        now: Instant, today: Date)
    requires AllocationConsistent(promos, acts) && SlotsOf(acts, promoId) == []
    requires ValidPromoCreate(req, isUrl, isCountry)
    ensures AllocationConsistent(promos[promoId := NewPromoRow(req, promoId, companyId, companyName, now, today)], acts)
  {
    var row := NewPromoRow(req, promoId, companyId, companyName, now, today);
    assert WithinCapacity(row);
    assert SlotsOf(acts, promoId) == Iota(0);
  }

  /** `get_promo_by_id`: 404 for an unknown id, 403 for another company's promo. The
      older router's `get_promo_and_check_company` is the same check. */
  function OwnedPromo(promos: map<Uuid, PromoRow>, promoId: Uuid, companyId: Uuid): (r: Result<PromoRow>)
    ensures promoId !in promos <==> r == Err(NotFound)
    ensures r == Err(Forbidden) <==> promoId in promos && promos[promoId].companyId != companyId
    ensures r.Ok? <==> promoId in promos && promos[promoId].companyId == companyId
    ensures r.Ok? ==> r.value == promos[promoId]
  {
    if promoId !in promos then Err(NotFound)
    else if promos[promoId].companyId != companyId then Err(Forbidden)
    else Ok(promos[promoId])
  }

  // ---------------------------------------------------------------------------------
  // Patch

  /** One `setattr` of the update loop. */
  datatype FieldUpdate =
    | SetDescription(description: string)
    | SetImageUrl(imageUrl: string)
    | SetTarget(target: Target)
    | SetMaxCount(maxCount: int)
    | SetActiveFrom(activeFrom: Option<Date>)
    | SetActiveUntil(activeUntil: Option<Date>)

  function SetField(p: PromoRow, u: FieldUpdate): PromoRow
  {
    match u
    case SetDescription(d) => p.(description := d)
    case SetImageUrl(url) => p.(imageUrl := Some(url))
    case SetTarget(t) => p.(target := t)
    case SetMaxCount(n) => p.(maxCount := n)
    case SetActiveFrom(d) => p.(activeFrom := d)
    case SetActiveUntil(d) => p.(activeUntil := d)
  }

  /** The update for the description, when it was supplied; likewise for each field. */
  function DescriptionUpdate(req: PromoPatchRequest): seq<FieldUpdate>
  {
    if req.description.Some? then [SetDescription(req.description.value)] else []
  }

  function ImageUrlUpdate(req: PromoPatchRequest): seq<FieldUpdate>
  {
    if req.imageUrl.Some? then [SetImageUrl(req.imageUrl.value)] else []
  }

  function TargetUpdate(req: PromoPatchRequest): seq<FieldUpdate>
  {
    if req.target.Some? then [SetTarget(req.target.value)] else []
  }

  function MaxCountUpdate(req: PromoPatchRequest): seq<FieldUpdate>
  {
    if req.maxCount.Some? then [SetMaxCount(req.maxCount.value)] else []
  }

  function ActiveFromUpdate(req: PromoPatchRequest): seq<FieldUpdate>
  {
    if req.activeFrom.SetTo? then [SetActiveFrom(req.activeFrom.value)] else []
  }

  function ActiveUntilUpdate(req: PromoPatchRequest): seq<FieldUpdate>
  {
    if req.activeUntil.SetTo? then [SetActiveUntil(req.activeUntil.value)] else []
  }

  /** `promo_data.dict(exclude_unset=True)`: the supplied fields in declaration order. */
  function UpdateData(req: PromoPatchRequest): seq<FieldUpdate>
  {
    DescriptionUpdate(req) + ImageUrlUpdate(req) + TargetUpdate(req) +
    MaxCountUpdate(req) + ActiveFromUpdate(req) + ActiveUntilUpdate(req)
  }

  /** The row after the updates `us`, applied in turn. */
  function ApplyUpdates(p: PromoRow, us: seq<FieldUpdate>): PromoRow
  {
    if us == [] then p else SetField(ApplyUpdates(p, us[..|us| - 1]), us[|us| - 1])
  }

  /** Applying two lists of updates one after the other is applying their
      concatenation. */
  lemma {:induction false} ApplyAppend(p: PromoRow, a: seq<FieldUpdate>, b: seq<FieldUpdate>)
    ensures ApplyUpdates(p, a + b) == ApplyUpdates(ApplyUpdates(p, a), b)
    decreases |b|
  {
    if b == [] {
      assert a + b == a;
    } else {
      assert (a + b)[..|a + b| - 1] == a + b[..|b| - 1];
      ApplyAppend(p, a, b[..|b| - 1]);
    }
  }

  /** A list of at most one update applies that update, if any. */
  lemma ApplyAtMostOne(p: PromoRow, us: seq<FieldUpdate>)
    requires |us| <= 1
    ensures ApplyUpdates(p, us) == if us == [] then p else SetField(p, us[0])
  {
    if us != [] {
      assert us[..0] == [];
    }
  }

  /** The value a date has after the patch: the supplied one, or the stored one. */
  function EffectiveFrom(p: PromoRow, req: PromoPatchRequest): Option<Date>
  {
    if req.activeFrom.SetTo? then req.activeFrom.value else p.activeFrom
  }

  function EffectiveUntil(p: PromoRow, req: PromoPatchRequest): Option<Date>
  {
    if req.activeUntil.SetTo? then req.activeUntil.value else p.activeUntil
  }

  function Patched(p: PromoRow, req: PromoPatchRequest): PromoRow
  {
    ApplyUpdates(p, UpdateData(req))
  }

  /** The patch applies the supplied fields one group after another. */
  lemma PatchedInSteps(p: PromoRow, req: PromoPatchRequest)
    ensures Patched(p, req) ==
      ApplyUpdates(ApplyUpdates(ApplyUpdates(ApplyUpdates(ApplyUpdates(ApplyUpdates(p,
        DescriptionUpdate(req)), ImageUrlUpdate(req)), TargetUpdate(req)),
        MaxCountUpdate(req)), ActiveFromUpdate(req)), ActiveUntilUpdate(req))
  {
    var d, i, t := DescriptionUpdate(req), ImageUrlUpdate(req), TargetUpdate(req);
    var m, f, u := MaxCountUpdate(req), ActiveFromUpdate(req), ActiveUntilUpdate(req);
    ApplyAppend(p, d, i);
    ApplyAppend(p, d + i, t);
    ApplyAppend(p, d + i + t, m);
    ApplyAppend(p, d + i + t + m, f);
    ApplyAppend(p, d + i + t + m + f, u);
  }

  /** The first three groups set the description, the image URL and the target. */
  lemma ContentSteps(q: PromoRow, req: PromoPatchRequest)
    ensures ApplyUpdates(ApplyUpdates(ApplyUpdates(q, DescriptionUpdate(req)), ImageUrlUpdate(req)), TargetUpdate(req)) ==
      q.(description := if req.description.Some? then req.description.value else q.description,
         imageUrl := if req.imageUrl.Some? then req.imageUrl else q.imageUrl,
         target := if req.target.Some? then req.target.value else q.target)
  {
    var q1 := ApplyUpdates(q, DescriptionUpdate(req));
    ApplyAtMostOne(q, DescriptionUpdate(req));
    var q2 := ApplyUpdates(q1, ImageUrlUpdate(req));
    ApplyAtMostOne(q1, ImageUrlUpdate(req));
    ApplyAtMostOne(q2, TargetUpdate(req));
  }

  /** The last three groups set the maximum count and the two dates. */
  lemma LimitSteps(q: PromoRow, req: PromoPatchRequest)
    ensures ApplyUpdates(ApplyUpdates(ApplyUpdates(q, MaxCountUpdate(req)), ActiveFromUpdate(req)), ActiveUntilUpdate(req)) ==
      q.(maxCount := if req.maxCount.Some? then req.maxCount.value else q.maxCount,
         activeFrom := EffectiveFrom(q, req),
         activeUntil := EffectiveUntil(q, req))
  {
    var q1 := ApplyUpdates(q, MaxCountUpdate(req));
    ApplyAtMostOne(q, MaxCountUpdate(req));
    var q2 := ApplyUpdates(q1, ActiveFromUpdate(req));
    ApplyAtMostOne(q1, ActiveFromUpdate(req));
    ApplyAtMostOne(q2, ActiveUntilUpdate(req));
  }

  /** Only the supplied fields change: each takes its supplied value (a date sent as
      `null` is cleared), and every other column keeps its value. */
  lemma PatchChangesOnlySuppliedFields(p: PromoRow, req: PromoPatchRequest)
    ensures Patched(p, req) ==
      p.(description := if req.description.Some? then req.description.value else p.description,
         imageUrl := if req.imageUrl.Some? then req.imageUrl else p.imageUrl,
         target := if req.target.Some? then req.target.value else p.target,
         maxCount := if req.maxCount.Some? then req.maxCount.value else p.maxCount,
         activeFrom := EffectiveFrom(p, req),
         activeUntil := EffectiveUntil(p, req))
  {
    PatchedInSteps(p, req);
    ContentSteps(p, req);
    var p3 := ApplyUpdates(ApplyUpdates(ApplyUpdates(p, DescriptionUpdate(req)), ImageUrlUpdate(req)), TargetUpdate(req));
    LimitSteps(p3, req);
  }

  /** The `max_count` rules: 1 for UNIQUE, at least `used_count` for COMMON. */
  predicate MaxCountAllowed(p: PromoRow, req: PromoPatchRequest)
  {
    req.maxCount.None? ||
    (p.mode == Unique && req.maxCount.value == 1) ||
    (p.mode == Common && req.maxCount.value >= p.usedCount)
  }

  /** When either date is supplied, the window the patch leaves behind is ordered. */
  predicate DatesAllowed(p: PromoRow, req: PromoPatchRequest)
  {
    (req.activeFrom.Unset? && req.activeUntil.Unset?) ||
    WindowOrdered(EffectiveFrom(p, req), EffectiveUntil(p, req))
  }

  /** The stored flag recomputed from the patched row. */
  function Refreshed(p: PromoRow, today: Date): PromoRow
  {
    p.(active := CalculateActive(p, today))
  }

  /** The `setattr` loop: each supplied field is written in turn. */
  method SetFields(original: PromoRow, updates: seq<FieldUpdate>) returns (promo: PromoRow)
    ensures promo == ApplyUpdates(original, updates)
  {
    promo := original;
    for i := 0 to |updates|
      invariant promo == ApplyUpdates(original, updates[..i])
    {
      assert updates[..i + 1][..i] == updates[..i];
      promo := SetField(promo, updates[i]);
    }
    assert updates[..|updates|] == updates;
  }

  /** `patch_promo`: 400 (validation) for a body that fails validation; 404 for an unknown promo or
      one of another company; 400 for a forbidden `max_count` or an inverted window;
      otherwise the supplied fields are written one by one and `active` recomputed. */
  method PatchPromo(db: Db, promoId: Uuid, companyId: Uuid, req: PromoPatchRequest,
                    isUrl: Lookup, isCountry: Lookup, today: Date)
    returns (r: Result<PromoRow>)
    modifies db`promos
    ensures !ValidPromoPatch(req, isUrl, isCountry) ==> r == Err(InvalidRequest)
    ensures ValidPromoPatch(req, isUrl, isCountry) &&
            (promoId !in old(db.promos) || old(db.promos)[promoId].companyId != companyId) ==>
              r == Err(NotFound)
    ensures r.Ok? <==> ValidPromoPatch(req, isUrl, isCountry) && promoId in old(db.promos) &&
                       old(db.promos)[promoId].companyId == companyId &&
                       MaxCountAllowed(old(db.promos)[promoId], req) &&
                       DatesAllowed(old(db.promos)[promoId], req)
    ensures r.Err? ==> db.promos == old(db.promos)
    ensures r.Ok? ==> r.value == Refreshed(Patched(old(db.promos)[promoId], req), today) &&
                      db.promos == old(db.promos)[promoId := r.value]
  {
    if !ValidPromoPatch(req, isUrl, isCountry) {
      return Err(InvalidRequest);
    }
    if promoId !in db.promos || db.promos[promoId].companyId != companyId {
      return Err(NotFound);
    }
    var promo := db.promos[promoId];
    if promo.mode == Unique && req.maxCount.Some? && req.maxCount.value != 1 {
      return Err(BadRequest);
    }
    if promo.mode == Common && req.maxCount.Some? && req.maxCount.value < promo.usedCount {
      return Err(BadRequest);
    }
    var updates := UpdateData(req);
    if req.activeFrom.SetTo? || req.activeUntil.SetTo? {
      var from := if req.activeFrom.SetTo? then req.activeFrom.value else promo.activeFrom;
      var until := if req.activeUntil.SetTo? then req.activeUntil.value else promo.activeUntil;
      if from.Some? && until.Some? && from.value > until.value {
        return Err(BadRequest);
      }
    }
    promo := SetFields(promo, updates);
    promo := promo.(active := CalculateActive(promo, today));
    db.promos := db.promos[promoId := promo];
    r := Ok(promo);
  }

  /** An accepted patch keeps the window ordered and the usage within capacity. */
  lemma PatchKeepsRowInvariants(p: PromoRow, req: PromoPatchRequest, today: Date)
    requires WithinCapacity(p) && WindowOrdered(p.activeFrom, p.activeUntil)
    requires p.mode == Unique ==> p.maxCount == 1
    requires MaxCountAllowed(p, req) && DatesAllowed(p, req)
    ensures var q := Refreshed(Patched(p, req), today);
            WithinCapacity(q) && WindowOrdered(q.activeFrom, q.activeUntil) &&
            (q.mode == Unique ==> q.maxCount == 1) &&
            q.usedCount == p.usedCount && Pool(q) == Pool(p)
  {
    PatchChangesOnlySuppliedFields(p, req);
  }

  /** An accepted patch never breaks the allocation invariant of the activation table. */
  lemma PatchKeepsAllocationConsistent(promos: map<Uuid, PromoRow>, acts: seq<ActivationRow>,
                                       promoId: Uuid, req: PromoPatchRequest, today: Date)
    requires AllocationConsistent(promos, acts) && promoId in promos
    requires MaxCountAllowed(promos[promoId], req)
    ensures AllocationConsistent(promos[promoId := Refreshed(Patched(promos[promoId], req), today)], acts)
  {
    PatchChangesOnlySuppliedFields(promos[promoId], req);
  }

  // ---------------------------------------------------------------------------------
  // Statistics

  datatype CountryCount = CountryCount(country: string, count: nat)

  /** The grouped rows with a non-empty country, in their original order. */
  function Named(rows: seq<(Option<string>, nat)>): (r: seq<CountryCount>)
    ensures forall i :: 0 <= i < |r| ==> r[i].country != ""
  {
    if rows == [] then []
    else
      (if rows[0].0.Some? && rows[0].0.value != "" then [CountryCount(rows[0].0.value, rows[0].1)] else []) +
      Named(rows[1..])
  }

  lemma {:induction false} NamedMembers(rows: seq<(Option<string>, nat)>, c: string, n: nat)
    ensures CountryCount(c, n) in Named(rows) <==> (Some(c), n) in rows && c != ""
  {
    if rows != [] {
      NamedMembers(rows[1..], c, n);
      assert rows == [rows[0]] + rows[1..];
    }
  }

  /** Python's string order: by code point, a proper prefix first. */
  predicate LexLe(a: string, b: string)
    decreases |a|
  {
    a == [] || (b != [] && (a[0] < b[0] || (a[0] == b[0] && LexLe(a[1..], b[1..]))))
  }

  lemma {:induction false} LexLeTotal(a: string, b: string)
    ensures LexLe(a, b) || LexLe(b, a)
    decreases |a|
  {
    if a != [] && b != [] && a[0] == b[0] {
      LexLeTotal(a[1..], b[1..]);
    }
  }

  lemma {:induction false} LexLeTransitive(a: string, b: string, c: string)
    requires LexLe(a, b) && LexLe(b, c)
    ensures LexLe(a, c)
    decreases |a|
  {
    if a != [] && a[0] == b[0] && b[0] == c[0] {
      LexLeTransitive(a[1..], b[1..], c[1..]);
    }
  }

  /** The sort key of the statistics: the lower-cased country. */
  predicate ByCountry(x: CountryCount, y: CountryCount)
  {
    LexLe(Lower(x.country), Lower(y.country))
  }

  lemma ByCountryTotalPreorder()
    ensures TotalPreorder(ByCountry)
  {
    forall x: CountryCount, y: CountryCount
      ensures ByCountry(x, y) || ByCountry(y, x)
    {
      LexLeTotal(Lower(x.country), Lower(y.country));
    }
    forall x: CountryCount, y: CountryCount, z: CountryCount | ByCountry(x, y) && ByCountry(y, z)
      ensures ByCountry(x, z)
    {
      LexLeTransitive(Lower(x.country), Lower(y.country), Lower(z.country));
    }
  }

  /** The `countries` list of `get_promo_stat`: the groups with a non-empty country,
      ordered by lower-cased country, none lost and none added. */
  function CountryStats(rows: seq<(Option<string>, nat)>): (r: seq<CountryCount>)
    ensures SortedBy(r, ByCountry)
    ensures multiset(r) == multiset(Named(rows))
    ensures forall c: string, n: nat :: CountryCount(c, n) in r <==> (Some(c), n) in rows && c != ""
  {
    ByCountryTotalPreorder();
    SortBySorted(Named(rows), ByCountry);
    var r := SortBy(Named(rows), ByCountry);
    assert forall c: string, n: nat :: CountryCount(c, n) in r <==> CountryCount(c, n) in multiset(Named(rows));
    forall c: string, n: nat
      ensures CountryCount(c, n) in r <==> (Some(c), n) in rows && c != ""
    {
      NamedMembers(rows, c, n);
    }
    r
  }

  datatype Stat = Stat(activationsCount: nat, countries: seq<CountryCount>)

  /** `get_promo_stat`: the ownership check of `get_promo_by_id`, then the total and
      the ordered per-country counts the query returned. */
  function PromoStat(promos: map<Uuid, PromoRow>, promoId: Uuid, companyId: Uuid,
                     total: nat, rows: seq<(Option<string>, nat)>): (r: Result<Stat>)
    ensures r.Err? <==> OwnedPromo(promos, promoId, companyId).Err?
    ensures r.Err? ==> r.error == OwnedPromo(promos, promoId, companyId).error
    ensures r.Ok? ==> r.value.activationsCount == total && r.value.countries == CountryStats(rows)
  {
    match OwnedPromo(promos, promoId, companyId)
    case Err(e) => Err(e)
    case Ok(_) => Ok(Stat(total, CountryStats(rows)))
  }
}
