/** The company side of the older routers: their copy of the activity predicate,
    creating a promo, the patch that assigns fields one by one on the loaded row, and
    the company's promo listing with its country filter, ordering, paging and
    `null`-free target. */
module LegacyPromo {
  import opened Base
  import opened PromoHelpers
  import opened Store
  import opened Schemas
  import opened Sorting
  import opened Serializer
  import opened Activation
  import opened PromoService

  /** `calculate_active` as the older routers write it: the window test is phrased
      through the bounds rather than through today. */
  function CalculateActiveCopy(p: PromoRow, today: Date): (r: bool)
  {
    if (p.activeFrom.Some? && p.activeFrom.value > today) ||
       (p.activeUntil.Some? && p.activeUntil.value < today) then false
    else if p.mode == Common && p.usedCount >= p.maxCount then false
    else if p.mode == Unique && Pool(p) == [] then false
    else true
  }

  /** The copies decide exactly as the canonical predicate on every row and day. */
  lemma CopyAgreesWithCalculateActive(p: PromoRow, today: Date)
    ensures CalculateActiveCopy(p, today) == CalculateActive(p, today)
  {
  }

  /** The row the older `create_promo` stores. That schema has no `unique_count`
      column; the model keeps 0 there. */
  function LegacyNewPromoRow(req: PromoCreateRequest, promoId: Uuid, companyId: Uuid, companyName: string,
                             now: Instant, today: Date): (r: PromoRow)
    ensures r.mode == Common ==> r.promoCommon == req.promoCommon && r.promoUnique.None?
    ensures r.mode == Unique ==> r.promoUnique == req.promoUnique && r.promoCommon.None?
    ensures r.usedCount == 0 && r.likeCount == 0 && r.commentCount == 0
    ensures r.limit == r.maxCount == req.maxCount
    // the stored flag is false exactly when the activity predicate is
    ensures !r.active <==> !CalculateActiveCopy(r, today)
    ensures r.promoId == promoId && r.companyId == companyId && r.createdAt == now
  {
    CopyAgreesWithCalculateActive(NewPromoRow(req, promoId, companyId, companyName, now, today), today);
    NewPromoRow(req, promoId, companyId, companyName, now, today).(uniqueCount := 0)
  }

  /** The older `create_promo`: 400 (validation) for an invalid body, 400 for an inverted window,
      otherwise the new row. */
  method CreatePromoLegacy(db: LegacyDb, req: PromoCreateRequest, isUrl: Lookup, isCountry: Lookup,
                           promoId: Uuid, companyId: Uuid, companyName: string, now: Instant, today: Date)
    returns (r: Result<Uuid>)
    modifies db`promos
    ensures !ValidPromoCreate(req, isUrl, isCountry) ==> r == Err(InvalidRequest)
    ensures ValidPromoCreate(req, isUrl, isCountry) && !WindowOrdered(req.activeFrom, req.activeUntil) ==>
              r == Err(BadRequest)
    ensures r.Ok? <==> ValidPromoCreate(req, isUrl, isCountry) &&
                       WindowOrdered(req.activeFrom, req.activeUntil) && promoId !in old(db.promos)
    ensures r.Ok? ==> (r.value == promoId &&
              db.promos == old(db.promos)[promoId := LegacyNewPromoRow(req, promoId, companyId, companyName, now, today)])
    ensures r.Err? ==> db.promos == old(db.promos)
  {
    if !ValidPromoCreate(req, isUrl, isCountry) {
      return Err(InvalidRequest);
    }
    if req.activeFrom.Some? && req.activeUntil.Some? && req.activeFrom.value > req.activeUntil.value {
      return Err(BadRequest);
    }
    if promoId in db.promos {
      return Err(ServerError);
    }
    db.promos := db.promos[promoId := LegacyNewPromoRow(req, promoId, companyId, companyName, now, today)];
    r := Ok(promoId);
  }

  // ---------------------------------------------------------------------------------
  // Patch

  /** A date the older patch uses: only a supplied, non-null one. */
  function Given(d: Supplied<Date>): Option<Date>
  {
    if d.SetTo? then d.value else None
  }

  /** The older patch's assignments before the date check: `max_count` for COMMON
      promos, then each truthy descriptive field. */
  function LegacyAssigned(p: PromoRow, req: PromoPatchRequest): PromoRow
  {
    p.(maxCount := if p.mode == Common && req.maxCount.Some? then req.maxCount.value else p.maxCount,
       description := if req.description.Some? && req.description.value != "" then req.description.value
                      else p.description,
       imageUrl := if req.imageUrl.Some? && req.imageUrl.value != "" then req.imageUrl else p.imageUrl,
       target := if req.target.Some? then req.target.value else p.target)
  }

  /** The window after the patch: each given date replaces the stored one. */
  function LegacyFrom(p: PromoRow, req: PromoPatchRequest): Option<Date>
  {
    if Given(req.activeFrom).Some? then Given(req.activeFrom) else p.activeFrom
  }

  function LegacyUntil(p: PromoRow, req: PromoPatchRequest): Option<Date>
  {
    if Given(req.activeUntil).Some? then Given(req.activeUntil) else p.activeUntil
  }

  /** The row after all of the older patch's assignments. */
  function LegacyPatched(p: PromoRow, req: PromoPatchRequest): PromoRow
  {
    LegacyAssigned(p, req).(activeFrom := LegacyFrom(p, req), activeUntil := LegacyUntil(p, req))
  }

  /** The date check as written: only a patch that carries both dates is compared. */
  predicate DatesRejectedAsWritten(req: PromoPatchRequest)
  {
    Given(req.activeFrom).Some? && Given(req.activeUntil).Some? &&
    Given(req.activeFrom).value > Given(req.activeUntil).value
  }

  /** The date check as intended: the window the patch leaves behind is ordered. */
  predicate LegacyDatesAllowed(p: PromoRow, req: PromoPatchRequest)
  {
    WindowOrdered(LegacyFrom(p, req), LegacyUntil(p, req))
  }

  /** Moving only `active_from` past the stored `active_until` passes the check as
      written and leaves the promo with an inverted window, which the intended check
      refuses. */
  lemma PatchInvertsWindowAsWritten()
    ensures var p := SamplePromo(Common, [], 0, 10, 10, true);
            var req := PromoPatchRequest(None, None, None, None, SetTo(Some(25)), Unset);
            !DatesRejectedAsWritten(req) &&
            !WindowOrdered(LegacyPatched(p, req).activeFrom, LegacyPatched(p, req).activeUntil) &&
            !LegacyDatesAllowed(p, req)
  {
  }

  /** The intended check refuses every patch the written one refuses. */
  lemma IntendedCheckRefusesMore(p: PromoRow, req: PromoPatchRequest)
    ensures DatesRejectedAsWritten(req) ==> !LegacyDatesAllowed(p, req)
  {
  }

  /** The assignments before the date check: a COMMON promo takes the supplied
      `max_count`, then each truthy descriptive field is written. */
  method AssignLegacyFields(p: PromoRow, req: PromoPatchRequest) returns (promo: PromoRow)
    ensures promo == LegacyAssigned(p, req)
  {
    promo := p;
    if promo.mode == Common && req.maxCount.Some? {
      promo := promo.(maxCount := req.maxCount.value);
    }
    if req.description.Some? && req.description.value != "" {
      promo := promo.(description := req.description.value);
    }
    if req.imageUrl.Some? && req.imageUrl.value != "" {
      promo := promo.(imageUrl := req.imageUrl);
    }
    if req.target.Some? {
      promo := promo.(target := req.target.value);
    }
  }

  /** The assignments after the date check: each given date is written. */
  method AssignLegacyDates(p: PromoRow, req: PromoPatchRequest) returns (promo: PromoRow)
    ensures promo == p.(activeFrom := LegacyFrom(p, req), activeUntil := LegacyUntil(p, req))
  {
    promo := p;
    if Given(req.activeFrom).Some? {
      promo := promo.(activeFrom := Given(req.activeFrom));
    }
    if Given(req.activeUntil).Some? {
      promo := promo.(activeUntil := Given(req.activeUntil));
    }
  }

  /** The older `patch_promo`, assignment by assignment on the loaded row; nothing is
      written back unless every check passes. */
  method PatchPromoLegacy(db: LegacyDb, promoId: Uuid, companyId: Uuid, req: PromoPatchRequest,
                          isUrl: Lookup, isCountry: Lookup, today: Date)
    returns (r: Result<PromoRow>)
    modifies db`promos
    ensures !ValidPromoPatch(req, isUrl, isCountry) ==> r == Err(InvalidRequest)
    ensures ValidPromoPatch(req, isUrl, isCountry) && OwnedPromo(old(db.promos), promoId, companyId).Err? ==>
              r == Err(OwnedPromo(old(db.promos), promoId, companyId).error)
    ensures r.Ok? <==> ValidPromoPatch(req, isUrl, isCountry) && OwnedPromo(old(db.promos), promoId, companyId).Ok? &&
                       MaxCountAllowed(old(db.promos)[promoId], req) &&
                       LegacyDatesAllowed(old(db.promos)[promoId], req)
    ensures r.Err? ==> db.promos == old(db.promos)
    ensures r.Ok? ==> r.value == Refreshed(LegacyPatched(old(db.promos)[promoId], req), today) &&
                      db.promos == old(db.promos)[promoId := r.value]
  {
    if !ValidPromoPatch(req, isUrl, isCountry) {
      return Err(InvalidRequest);
    }
    var owned := OwnedPromo(db.promos, promoId, companyId);
    if owned.Err? {
      return Err(owned.error);
    }
    var original := owned.value;
    if original.mode == Unique && req.maxCount.Some? && req.maxCount.value != 1 {
      return Err(BadRequest);
    }
    if original.mode == Common && req.maxCount.Some? && req.maxCount.value < original.usedCount {
      return Err(BadRequest);
    }
    var promo := AssignLegacyFields(original, req);
    if !WindowOrdered(LegacyFrom(original, req), LegacyUntil(original, req)) {
      return Err(BadRequest);
    }
    promo := AssignLegacyDates(promo, req);
    promo := promo.(active := CalculateActiveCopy(promo, today));
    CopyAgreesWithCalculateActive(LegacyPatched(original, req), today);
    db.promos := db.promos[promoId := promo];
    r := Ok(promo);
  }

  /** An accepted patch keeps the window ordered and the usage within capacity. */
  lemma LegacyPatchKeepsRowInvariants(p: PromoRow, req: PromoPatchRequest, today: Date)
    requires WithinCapacity(p)
    requires MaxCountAllowed(p, req) && LegacyDatesAllowed(p, req)
    ensures var q := Refreshed(LegacyPatched(p, req), today);
            WithinCapacity(q) && WindowOrdered(q.activeFrom, q.activeUntil) &&
            q.usedCount == p.usedCount && Pool(q) == Pool(p) && q.mode == p.mode
  {
  }

  /** On a body without `null` dates or empty strings, and a UNIQUE promo whose
      `max_count` is already 1, the two patch handlers write the same row. */
  lemma PatchHandlersAgree(p: PromoRow, req: PromoPatchRequest)
    requires p.mode == Unique ==> p.maxCount == 1
    requires WindowOrdered(p.activeFrom, p.activeUntil)
    requires MaxCountAllowed(p, req)
    requires req.activeFrom != SetTo(None) && req.activeUntil != SetTo(None)
    requires req.description != Some("") && req.imageUrl != Some("")
    ensures LegacyPatched(p, req) == Patched(p, req)
    ensures LegacyDatesAllowed(p, req) <==> DatesAllowed(p, req)
  {
    PatchChangesOnlySuppliedFields(p, req);
  }

  // ---------------------------------------------------------------------------------
  // Listing

  /** The target as stored: every dimension, `null` where it is unset. */
  function TargetFields(t: Target): seq<Field>
  {
    [Field("age_from", if t.ageFrom.Some? then JInt(t.ageFrom.value) else JNull),
     Field("age_until", if t.ageUntil.Some? then JInt(t.ageUntil.value) else JNull),
     Field("country", if t.country.Some? then JStr(t.country.value) else JNull),
     Field("categories", if t.categories.Some? then StringList(t.categories.value) else JNull)]
  }

  function StringList(cs: seq<string>): Json
  {
    JList(seq(|cs|, i requires 0 <= i < |cs| => JStr(cs[i])))
  }

  predicate NotNull(f: Field)
  {
    f.value != JNull
  }

  /** The target shown in a listing: its non-`null` members only. */
  function StrippedTarget(t: Target): (r: seq<Field>)
    ensures forall i :: 0 <= i < |r| ==> r[i].value != JNull
  {
    Filter(TargetFields(t), NotNull)
  }

  /** A member whose key no other member carries survives the stripping exactly when
      its value is not `null`. */
  lemma StrippedKey(fs: seq<Field>, k: nat)
    requires k < |fs| && forall j :: 0 <= j < |fs| && j != k ==> fs[j].key != fs[k].key
    ensures fs[k].value != JNull ==> fs[k] in Filter(fs, NotNull)
    ensures fs[k].value == JNull ==> forall v :: Field(fs[k].key, v) !in Filter(fs, NotNull)
  {
    FilterMembers(fs, NotNull, fs[k]);
    forall v | fs[k].value == JNull
      ensures Field(fs[k].key, v) !in Filter(fs, NotNull)
    {
      FilterMembers(fs, NotNull, Field(fs[k].key, v));
    }
  }

  /** A dimension appears in the listed target exactly when it is set. */
  lemma StrippedTargetMembers(t: Target)
    ensures t.country.Some? ==> Field("country", JStr(t.country.value)) in StrippedTarget(t)
    ensures t.country.None? ==> forall v :: Field("country", v) !in StrippedTarget(t)
    ensures t.ageFrom.Some? ==> Field("age_from", JInt(t.ageFrom.value)) in StrippedTarget(t)
    ensures t.ageFrom.None? ==> forall v :: Field("age_from", v) !in StrippedTarget(t)
    ensures t.ageUntil.Some? ==> Field("age_until", JInt(t.ageUntil.value)) in StrippedTarget(t)
    ensures t.ageUntil.None? ==> forall v :: Field("age_until", v) !in StrippedTarget(t)
  {
    var fs := TargetFields(t);
    assert fs[0].key == "age_from" && fs[1].key == "age_until";
    assert fs[2].key == "country" && fs[3].key == "categories";
    StrippedKey(fs, 0);
    StrippedKey(fs, 1);
    StrippedKey(fs, 2);
  }

  /** A promo without targeting is listed with an empty target. */
  lemma NoTargetListsEmpty()
    ensures StrippedTarget(NoTarget) == []
  {
    var n := TargetFields(NoTarget);
    assert n == [Field("age_from", JNull), Field("age_until", JNull),
                 Field("country", JNull), Field("categories", JNull)];
    assert Filter(n[3..], NotNull) == [] by { assert n[3..][1..] == []; }
    assert Filter(n[2..], NotNull) == [] by { assert n[2..][1..] == n[3..]; }
    assert Filter(n[1..], NotNull) == [] by { assert n[1..][1..] == n[2..]; }
  }

  /** One entry of the listing: the row with `active` recomputed, and its target
      without `null` members. */
  datatype ListedPromo = ListedPromo(promo: PromoRow, target: seq<Field>)

  function ListedFor(p: PromoRow, today: Date): ListedPromo
  {
    ListedPromo(p.(active := CalculateActiveCopy(p, today)), StrippedTarget(p.target))
  }

  /** `jsonb_extract_path_text(target, 'country') IS NULL OR lower(...) IN (...)`. */
  predicate CountryListed(p: PromoRow, lowered: seq<string>)
  {
    p.target.country.None? || Lower(p.target.country.value) in lowered
  }

  function LowerAll(cs: seq<string>): (r: seq<string>)
    ensures |r| == |cs| && forall i :: 0 <= i < |cs| ==> r[i] == Lower(cs[i])
  {
    seq(|cs|, i requires 0 <= i < |cs| => Lower(cs[i]))
  }

  /** The company's promos that pass the country filter; an empty country list
      filters nothing. */
  function CompanyRows(promos: seq<PromoRow>, companyId: Uuid, countries: seq<string>): seq<PromoRow>
  {
    Filter(promos, (p: PromoRow) => p.companyId == companyId && (countries == [] || CountryListed(p, LowerAll(countries))))
  }

  lemma CompanyRowsMembers(promos: seq<PromoRow>, companyId: Uuid, countries: seq<string>, p: PromoRow)
    ensures p in CompanyRows(promos, companyId, countries) <==>
      p in promos && p.companyId == companyId &&
      (countries == [] || p.target.country.None? ||
       exists i :: 0 <= i < |countries| && Lower(p.target.country.value) == Lower(countries[i]))
  {
    FilterMembers(promos, (p: PromoRow) => p.companyId == companyId && (countries == [] || CountryListed(p, LowerAll(countries))), p);
    if p.target.country.Some? && countries != [] {
      var l := LowerAll(countries);
      if Lower(p.target.country.value) in l {
        var i :| 0 <= i < |l| && l[i] == Lower(p.target.country.value);
        assert Lower(p.target.country.value) == Lower(countries[i]);
      }
    }
  }

  /** `ORDER BY <column> DESC` on a nullable date: `NULL` sorts first. */
  predicate DescNullsFirst(a: Option<Date>, b: Option<Date>)
  {
    a.None? || (b.Some? && a.value >= b.value)
  }

  /** The ordering `sort_by` selects: `active_from`, `active_until`, otherwise the
      creation instant, all descending. */
  function ListingOrder(sortBy: Option<string>): (PromoRow, PromoRow) -> bool
  {
    if sortBy == Some("active_from") then (a: PromoRow, b: PromoRow) => DescNullsFirst(a.activeFrom, b.activeFrom)
    else if sortBy == Some("active_until") then (a: PromoRow, b: PromoRow) => DescNullsFirst(a.activeUntil, b.activeUntil)
    else (a: PromoRow, b: PromoRow) => a.createdAt >= b.createdAt
  }

  lemma ListingOrderTotal(sortBy: Option<string>)
    ensures TotalPreorder(ListingOrder(sortBy))
  {
  }

  predicate ValidSortBy(sortBy: Option<string>)
  {
    sortBy.None? || sortBy.value in ["active_from", "active_until", "id"]
  }

  /** The rows of the requested page, in listing order. */
  function ListingPage(promos: seq<PromoRow>, companyId: Uuid, countries: seq<string>,
                       sortBy: Option<string>, offset: nat, limit: nat): seq<PromoRow>
  {
    Page(SortBy(CompanyRows(promos, companyId, countries), ListingOrder(sortBy)), offset, limit)
  }

  /** The response body of a listing page, built entry by entry. */
  method ListEntries(page: seq<PromoRow>, today: Date) returns (response: seq<ListedPromo>)
    ensures |response| == |page|
    ensures forall i :: 0 <= i < |page| ==> response[i] == ListedFor(page[i], today)
  {
    response := [];
    for i := 0 to |page|
      invariant |response| == i
      invariant forall k :: 0 <= k < i ==> response[k] == ListedFor(page[k], today)
    {
      var entry := ListedPromo(page[i].(active := CalculateActiveCopy(page[i], today)), StrippedTarget(page[i].target));
      response := response + [entry];
    }
  }

  /** The older `get_promos`: 400 (validation) for a `limit` below 1, a negative `offset` or an
      unknown `sort_by`; otherwise the page built entry by entry, and as the total the
      number of the company's promos that pass the country filter. */
  method ListPromos(promos: seq<PromoRow>, companyId: Uuid, countries: seq<string>,
                    sortBy: Option<string>, offset: int, limit: int, today: Date)
    returns (r: Result<seq<ListedPromo>>, total: nat)
    ensures r.Err? <==> limit < 1 || offset < 0 || !ValidSortBy(sortBy)
    ensures r.Err? ==> r.error == InvalidRequest
    ensures r.Ok? ==> total == |CompanyRows(promos, companyId, countries)|
    ensures r.Ok? ==>
      var page := ListingPage(promos, companyId, countries, sortBy, offset, limit);
      |r.value| == |page| <= limit &&
      forall i :: 0 <= i < |page| ==> r.value[i] == ListedFor(page[i], today)
  {
    if limit < 1 || offset < 0 || !ValidSortBy(sortBy) {
      return Err(InvalidRequest), 0;
    }
    var rows := CompanyRows(promos, companyId, countries);
    total := |rows|;
    var page := Page(SortBy(rows, ListingOrder(sortBy)), offset, limit);
    var response := ListEntries(page, today);
    r := Ok(response);
  }

  /** Every listed promo belongs to the company, passes the country filter, and the
      page is in the requested order. */
  lemma ListingPageProperties(promos: seq<PromoRow>, companyId: Uuid, countries: seq<string>,
                              sortBy: Option<string>, offset: nat, limit: nat)
    ensures var page := ListingPage(promos, companyId, countries, sortBy, offset, limit);
            SortedBy(page, ListingOrder(sortBy)) &&
            forall i :: 0 <= i < |page| ==>
              (page[i] in promos && page[i].companyId == companyId &&
               (countries == [] || CountryListed(page[i], LowerAll(countries))))
  {
    var rows := CompanyRows(promos, companyId, countries);
    var sorted := SortBy(rows, ListingOrder(sortBy));
    ListingOrderTotal(sortBy);
    SortBySorted(rows, ListingOrder(sortBy));
    var page := Page(sorted, offset, limit);
    forall i | 0 <= i < |page|
      ensures page[i] in promos && page[i].companyId == companyId &&
              (countries == [] || CountryListed(page[i], LowerAll(countries)))
    {
      assert page[i] == sorted[offset + i];
      assert page[i] in multiset(sorted);
      assert page[i] in rows;
      FilterMembers(promos, (p: PromoRow) => p.companyId == companyId && (countries == [] || CountryListed(p, LowerAll(countries))), page[i]);
    }
  }
}
