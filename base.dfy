/** Vocabulary shared by every part of the promo-code service: optional values, the
    error taxonomy of the HTTP handlers, identifiers, calendar days, the targeting
    blob and the promo row as the database stores it. */
module Base {

  datatype Option<+T> = None | Some(value: T)

  /** The status classes the handlers raise: 400 (`BadRequest` from a handler's own
      check, `InvalidRequest` for a request that fails validation, which both
      applications rewrite from 422 to 400), 401, 403, 404, and 500 (an exception
      nothing catches). */
  datatype Error = BadRequest | Unauthorized | Forbidden | NotFound | InvalidRequest | ServerError

  datatype Result<+T> = Ok(value: T) | Err(error: Error)

  /** A calendar day, counted from an arbitrary epoch. */
  type Date = int

  /** An instant, in whole seconds from an arbitrary epoch. */
  type Instant = int

  const UuidBound: nat := 0x1_0000_0000_0000_0000_0000_0000_0000_0000

  /** A 128-bit identifier (promo_id, user id, company id, comment id). */
  type Uuid = n: nat | n < UuidBound

  /** The two kinds of campaign: one shared code, or a pool of single-use codes. */
  datatype Mode = Common | Unique

  /** The targeting blob; every dimension is optional and an absent one matches all. */
  datatype Target = Target(
    ageFrom: Option<int>,
    ageUntil: Option<int>,
    country: Option<string>,
    categories: Option<seq<string>>)

  const NoTarget := Target(None, None, None, None)

  /** One row of the promo table. `limit` and `uniqueCount` are only written at
      creation; `active` is the flag stored at creation or patch time. */
  datatype PromoRow = PromoRow(
    promoId: Uuid,
    companyId: Uuid,
    companyName: string,
    mode: Mode,
    promoCommon: Option<string>,
    promoUnique: Option<seq<string>>,
    description: string,
    imageUrl: Option<string>,
    target: Target,
    activeFrom: Option<Date>,
    activeUntil: Option<Date>,
    limit: int,
    maxCount: int,
    uniqueCount: int,
    usedCount: int,
    likeCount: int,
    commentCount: int,
    active: bool,
    createdAt: Instant)

  /** The unique-code pool, with an absent pool read as empty (Python's falsy `None`). */
  function Pool(p: PromoRow): seq<string>
  {
    if p.promoUnique.Some? then p.promoUnique.value else []
  }

  /** Python's `x or default` for an optional integer whose value 0 is falsy. */
  function OrDefault(x: Option<int>, default: int): int
  {
    if x.Some? && x.value != 0 then x.value else default
  }

  /** ASCII lower-casing of one character. */
  function LowerChar(c: char): char
  {
    if 'A' <= c <= 'Z' then (c as int + 32) as char else c
  }

  /** ASCII lower-casing of a string (`str.lower()` / SQL `lower`). */
  function Lower(s: string): (r: string)
    ensures |r| == |s|
    ensures forall i :: 0 <= i < |s| ==> r[i] == LowerChar(s[i])
  {
    seq(|s|, i requires 0 <= i < |s| => LowerChar(s[i]))
  }

  predicate IsAsciiLetter(c: char)
  {
    'a' <= c <= 'z' || 'A' <= c <= 'Z'
  }

  /** Python's `str.startswith`. */
  predicate StartsWith(s: string, prefix: string)
  {
    |prefix| <= |s| && s[..|prefix|] == prefix
  }

  /** SQL `LIKE '%needle%'`, i.e. `needle` occurs somewhere in `hay`. */
  predicate Contains(hay: string, needle: string)
    decreases |hay|
  {
    StartsWith(hay, needle) || (|hay| > 0 && Contains(hay[1..], needle))
  }

  /** `OFFSET offset LIMIT limit` applied to an ordered result. */
  function Page<T>(s: seq<T>, offset: nat, limit: nat): (r: seq<T>)
    ensures |r| == if offset >= |s| then 0 else if offset + limit <= |s| then limit else |s| - offset
    ensures forall i :: 0 <= i < |r| ==> offset + i < |s| && r[i] == s[offset + i]
  {
    if offset >= |s| then []
    else if offset + limit <= |s| then s[offset..offset + limit]
    else s[offset..]
  }
}
