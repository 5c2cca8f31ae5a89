/** The user feed: the promos a user may see, filtered by the stored `active` flag,
    the user's country and age and an optional category, newest first, paged, with
    the number of matches before paging. The older router keeps only the category and
    `active` filters and reports the size of the whole table. */
module Feed {
  import opened Base
  import opened PromoHelpers
  import opened Store
  import opened Sorting
  import opened LegacyActivation

  /** The user's country for the feed: lower-cased, "" when unset. */
  function FeedCountry(u: UserRow): (r: string)
    ensures u.country.None? ==> r == ""
    ensures u.country.Some? ==> r == Lower(u.country.value)
  {
    Lower(if u.country.Some? then u.country.value else "")
  }

  /** The user's age for the feed: `age or 0`. */
  function FeedAge(u: UserRow): (r: int)
    ensures u.age.None? ==> r == 0
    ensures u.age.Some? ==> r == u.age.value
  {
    OrDefault(u.age, 0)
  }

  /** An absent target country admits every user, a present one only the user whose
      lower-cased country it equals after lower-casing. */
  predicate CountryPasses(p: PromoRow, userCountry: string)
  {
    p.target.country.None? || Lower(p.target.country.value) == userCountry
  }

  // ---------------------------------------------------------------------------------
  // Categories

  function Quoted(c: string): string
  {
    "\"" + c + "\""
  }

  function JoinItems(cs: seq<string>): string
  {
    if cs == [] then ""
    else if |cs| == 1 then Quoted(cs[0])
    else Quoted(cs[0]) + ", " + JoinItems(cs[1..])
  }

  /** The text of the categories member as the database prints a JSON array,
      e.g. `["food", "travel"]`. */
  function CategoriesText(cs: seq<string>): string
  {
    "[" + JoinItems(cs) + "]"
  }

  /** The category test as written: the lower-cased array text contains the
      lower-cased category anywhere. */
  predicate CategoryPassesAsWritten(p: PromoRow, category: string)
  {
    p.target.categories.Some? &&
    CategoriesText(p.target.categories.value) != "" &&
    Contains(Lower(CategoriesText(p.target.categories.value)), Lower(category))
  }

  /** The category test as intended: one of the promo's categories is the given one,
      ignoring case. */
  predicate CategoryPasses(p: PromoRow, category: string)
  {
    p.target.categories.Some? &&
    exists i :: 0 <= i < |p.target.categories.value| &&
                Lower(p.target.categories.value[i]) == Lower(category)
  }

  function SampleWithCategories(cs: seq<string>): PromoRow
  {
    PromoRow(1, 2, "Shop", Common, Some("SALE2025"), None, "Spring sale", None,
             Target(None, None, None, Some(cs)), None, None, 10, 10, 0, 0, 0, 0, true, 0)
  }

  /** Asking for "food" also yields a promo whose only category is "seafood". */
  lemma CategorySubstringMatches()
    ensures var p := SampleWithCategories(["seafood"]);
            CategoryPassesAsWritten(p, "food") && !CategoryPasses(p, "food")
  {
    var a, b := "[\"sea", "\"]";
    assert CategoriesText(["seafood"]) == a + "food" + b;
    LowerAppend(a, "food");
    LowerAppend(a + "food", b);
    ContainsMiddle(Lower(a), Lower("food"), Lower(b));
    assert |Lower("seafood")| != |Lower("food")|;
  }

  lemma {:induction false} ContainsMiddle(a: string, n: string, b: string)
    ensures Contains(a + n + b, n)
    decreases |a|
  {
    if a == [] {
      assert (a + n + b)[..|n|] == n;
    } else {
      ContainsMiddle(a[1..], n, b);
      assert (a + n + b)[1..] == a[1..] + n + b;
    }
  }

  lemma LowerAppend(x: string, y: string)
    ensures Lower(x + y) == Lower(x) + Lower(y)
  {
  }

  /** Each category appears in the array text. */
  lemma {:induction false} JoinItemsSplit(cs: seq<string>, i: nat) returns (a: string, b: string)
    requires i < |cs|
    ensures JoinItems(cs) == a + cs[i] + b
  {
    if |cs| == 1 {
      a, b := "\"", "\"";
    } else if i == 0 {
      a, b := "\"", "\"" + ", " + JoinItems(cs[1..]);
    } else {
      var a', b' := JoinItemsSplit(cs[1..], i - 1);
      a, b := Quoted(cs[0]) + ", " + a', b';
    }
  }

  /** The written test never drops a promo the intended one keeps: it only admits
      more. */
  lemma CategoryIntendedImpliesAsWritten(p: PromoRow, category: string)
    requires CategoryPasses(p, category)
    ensures CategoryPassesAsWritten(p, category)
  {
    var cs := p.target.categories.value;
    var i :| 0 <= i < |cs| && Lower(cs[i]) == Lower(category);
    var a, b := JoinItemsSplit(cs, i);
    var text := CategoriesText(cs);
    assert text == ("[" + a) + cs[i] + (b + "]");
    LowerAppend("[" + a, cs[i]);
    LowerAppend("[" + a + cs[i], b + "]");
    ContainsMiddle(Lower("[" + a), Lower(cs[i]), Lower(b + "]"));
  }

  // ---------------------------------------------------------------------------------
  // Feed of the layered service

  /** All filters of the feed; `active` and `category` only when given. */
  predicate Visible(p: PromoRow, userCountry: string, userAge: int, active: Option<bool>, category: Option<string>)
  {
    (active.None? || p.active == active.value) &&
    CountryPasses(p, userCountry) &&
    AgeAdmits(p.target, userAge) &&
    (category.None? || category.value == "" || CategoryPasses(p, category.value))
  }

  function FeedRows(promos: seq<PromoRow>, u: UserRow, active: Option<bool>, category: Option<string>): seq<PromoRow>
  {
    Filter(promos, (p: PromoRow) => Visible(p, FeedCountry(u), FeedAge(u), active, category))
  }

  predicate NewestFirst(a: PromoRow, b: PromoRow)
  {
    a.createdAt >= b.createdAt
  }

  function FeedPage(promos: seq<PromoRow>, u: UserRow, active: Option<bool>, category: Option<string>,
                    offset: nat, limit: nat): seq<PromoRow>
  {
    Page(SortBy(FeedRows(promos, u, active, category), NewestFirst), offset, limit)
  }

  /** `select(User).join(<pairs>).filter(PromoCode.promo_id == id)`: the promo table
      joins without a condition, so any row of the user counts, for any existing
      promo. */
  predicate FlagAsWritten(pairs: set<(Uuid, Uuid)>, user: Uuid, promoId: Uuid, exists_: bool)
  {
    exists_ && exists q :: q in pairs && q.0 == user
  }

  /** The flag as intended: the user's row for this very promo. */
  predicate Flag(pairs: set<(Uuid, Uuid)>, user: Uuid, promoId: Uuid)
  {
    (user, promoId) in pairs
  }

  /** A user who liked one promo is told every promo is liked. */
  lemma FlagLeaksAcrossPromos()
    ensures FlagAsWritten({(7, 1)}, 7, 2, true) && !Flag({(7, 1)}, 7, 2)
  {
    assert (7, 1) in {(7, 1)};
  }

  /** For an existing promo the written flag holds whenever the intended one does. */
  lemma FlagIntendedImpliesAsWritten(pairs: set<(Uuid, Uuid)>, user: Uuid, promoId: Uuid)
    ensures Flag(pairs, user, promoId) ==> FlagAsWritten(pairs, user, promoId, true)
  {
    if Flag(pairs, user, promoId) {
      assert (user, promoId).0 == user;
    }
  }

  /** One feed entry: the row, `active` recomputed, and the user's two flags. */
  datatype FeedItem = FeedItem(promo: PromoRow, active: bool, isActivatedByUser: bool, isLikedByUser: bool)

  function FeedItemFor(p: PromoRow, u: UserRow, activated: set<(Uuid, Uuid)>, likes: set<(Uuid, Uuid)>,
                       today: Date): FeedItem
  {
    FeedItem(p, CalculateActive(p, today), Flag(activated, u.id, p.promoId), Flag(likes, u.id, p.promoId))
  }

  /** `get_feed`: 400 (validation) for a `limit` below 1 or a negative `offset`; otherwise the
      entries of the page, built one by one, and the number of visible promos. */
  method GetFeed(promos: seq<PromoRow>, activated: set<(Uuid, Uuid)>, likes: set<(Uuid, Uuid)>, u: UserRow,
                 limit: int, offset: int, category: Option<string>, active: Option<bool>, today: Date)
    returns (r: Result<seq<FeedItem>>, total: nat)
    ensures r.Err? <==> limit < 1 || offset < 0
    ensures r.Err? ==> r.error == InvalidRequest
    ensures r.Ok? ==> total == |FeedRows(promos, u, active, category)|
    ensures r.Ok? ==>
      var page := FeedPage(promos, u, active, category, offset, limit);
      |r.value| == |page| <= limit &&
      forall i :: 0 <= i < |page| ==> r.value[i] == FeedItemFor(page[i], u, activated, likes, today)
  {
    if limit < 1 || offset < 0 {
      return Err(InvalidRequest), 0;
    }
    var rows := FeedRows(promos, u, active, category);
    total := |rows|;
    var page := Page(SortBy(rows, NewestFirst), offset, limit);
    var response: seq<FeedItem> := [];
    for i := 0 to |page|
      invariant |response| == i
      invariant forall k :: 0 <= k < i ==> response[k] == FeedItemFor(page[k], u, activated, likes, today)
    {
      var p := page[i];
      var item := FeedItem(p, CalculateActive(p, today), (u.id, p.promoId) in activated, (u.id, p.promoId) in likes);
      response := response + [item];
    }
    r := Ok(response);
  }

  /** A promo is in the feed's matches exactly when it is in the table and passes
      every filter. */
  lemma FeedRowsMembers(promos: seq<PromoRow>, u: UserRow, active: Option<bool>, category: Option<string>, p: PromoRow)
    ensures p in FeedRows(promos, u, active, category) <==>
      p in promos && Visible(p, FeedCountry(u), FeedAge(u), active, category)
  {
    FilterMembers(promos, (p: PromoRow) => Visible(p, FeedCountry(u), FeedAge(u), active, category), p);
  }

  /** The page is newest first and every entry on it is visible to the user. */
  lemma FeedPageProperties(promos: seq<PromoRow>, u: UserRow, active: Option<bool>, category: Option<string>,
                           offset: nat, limit: nat)
    ensures var page := FeedPage(promos, u, active, category, offset, limit);
            SortedBy(page, NewestFirst) &&
            forall i :: 0 <= i < |page| ==>
              (page[i] in promos && Visible(page[i], FeedCountry(u), FeedAge(u), active, category))
  {
    var rows := FeedRows(promos, u, active, category);
    var sorted := SortBy(rows, NewestFirst);
    SortBySorted(rows, NewestFirst);
    var page := Page(sorted, offset, limit);
    forall i | 0 <= i < |page|
      ensures page[i] in promos && Visible(page[i], FeedCountry(u), FeedAge(u), active, category)
    {
      assert page[i] == sorted[offset + i];
      assert page[i] in multiset(sorted);
      assert page[i] in rows;
      FeedRowsMembers(promos, u, active, category, page[i]);
    }
  }

  /** The total does not depend on the page asked for, and no page holds more entries
      than there are matches. */
  lemma FeedTotalBoundsPages(promos: seq<PromoRow>, u: UserRow, active: Option<bool>, category: Option<string>,
                             offset: nat, limit: nat)
    ensures |FeedPage(promos, u, active, category, offset, limit)| <= |FeedRows(promos, u, active, category)|
  {
  }

  /** The `active` filter reads the stored flag while the entry shows the recomputed
      one: a promo stored as active but out of capacity is listed under
      `active=true` and shown as inactive. */
  lemma ActiveFilterReadsStoredFlag()
    ensures var p := SampleWithCategories(["food"]).(usedCount := 10);
            var u := UserRow(7, "ann@example.com", None, None);
            Visible(p, FeedCountry(u), FeedAge(u), Some(true), None) &&
            !FeedItemFor(p, u, {}, {}, 0).active
  {
  }

  // ---------------------------------------------------------------------------------
  // Feed of the older router

  /** `categories @> [category]`: the exact category is one of the promo's. */
  predicate HasCategory(p: PromoRow, category: string)
  {
    p.target.categories.Some? && category in p.target.categories.value
  }

  predicate LegacyVisible(p: PromoRow, active: Option<bool>, category: Option<string>)
  {
    (category.None? || category.value == "" || HasCategory(p, category.value)) &&
    (active.None? || p.active == active.value)
  }

  function LegacyFeedPage(promos: seq<PromoRow>, active: Option<bool>, category: Option<string>,
                          offset: nat, limit: nat): seq<PromoRow>
  {
    Page(SortBy(Filter(promos, (p: PromoRow) => LegacyVisible(p, active, category)), NewestFirst), offset, limit)
  }

  /** The older feed's page is newest first, holds only promos of the table that pass
      the category and `active` filters, and never more than there are matches. */
  lemma LegacyFeedPageProperties(promos: seq<PromoRow>, active: Option<bool>, category: Option<string>,
                                 offset: nat, limit: nat)
    ensures var page := LegacyFeedPage(promos, active, category, offset, limit);
            SortedBy(page, NewestFirst) &&
            |page| <= |Filter(promos, (p: PromoRow) => LegacyVisible(p, active, category))| &&
            forall i :: 0 <= i < |page| ==> (page[i] in promos && LegacyVisible(page[i], active, category))
  {
    var keep := (p: PromoRow) => LegacyVisible(p, active, category);
    var rows := Filter(promos, keep);
    var sorted := SortBy(rows, NewestFirst);
    SortBySorted(rows, NewestFirst);
    var page := Page(sorted, offset, limit);
    forall i | 0 <= i < |page|
      ensures page[i] in promos && LegacyVisible(page[i], active, category)
    {
      assert page[i] == sorted[offset + i];
      assert page[i] in multiset(sorted);
      assert page[i] in rows;
      FilterMembers(promos, keep, page[i]);
    }
  }

  /** The older feed: no country or age filter, and as the total the number of all
      promos, whatever the filters. */
  method GetFeedLegacy(promos: seq<PromoRow>, activated: set<(Uuid, Uuid)>, likes: set<(Uuid, Uuid)>, u: UserRow,
                       limit: int, offset: int, category: Option<string>, active: Option<bool>, today: Date)
    returns (r: Result<seq<FeedItem>>, total: nat)
    ensures r.Err? <==> limit < 1 || offset < 0
    ensures r.Ok? ==> total == |promos|
    ensures r.Ok? ==>
      var page := LegacyFeedPage(promos, active, category, offset, limit);
      |r.value| == |page| <= limit &&
      forall i :: 0 <= i < |page| ==> r.value[i] == FeedItemFor(page[i], u, activated, likes, today)
  {
    if limit < 1 || offset < 0 {
      return Err(InvalidRequest), 0;
    }
    var page := LegacyFeedPage(promos, active, category, offset, limit);
    var response: seq<FeedItem> := [];
    for i := 0 to |page|
      invariant |response| == i
      invariant forall k :: 0 <= k < i ==> response[k] == FeedItemFor(page[k], u, activated, likes, today)
    {
      var p := page[i];
      response := response + [FeedItem(p, CalculateActive(p, today), (u.id, p.promoId) in activated,
                                       (u.id, p.promoId) in likes)];
    }
    r, total := Ok(response), |promos|;
  }

  /** A filtered older feed can report a total larger than its matches. */
  lemma LegacyTotalIgnoresFilters()
    ensures var p := SampleWithCategories(["food"]);
            LegacyFeedPage([p], None, Some("travel"), 0, 10) == [] && |[p]| == 1
  {
    var p := SampleWithCategories(["food"]);
    assert !LegacyVisible(p, None, Some("travel"));
    assert [p][1..] == [];
  }
}
