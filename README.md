# Promo-code life cycle, modelled in Dafny

This project models the promo-code back end of PROD2025_Stage2, a FastAPI/SQLAlchemy
service. Companies publish promo codes. Users browse a feed, like and comment on
promos, and activate them.

A promo runs in one of two modes:

- A COMMON promo has one shared code and a `max_count` of uses.
- A UNIQUE promo has a pool of one-off codes.

The repository holds two generations of handlers:

- the layered service under `solution/src/` (routers, services, repositories, schemas);
- the older routers under `solution/` (`routers/promo.py`, `routers/activate.py`,
  `routers/user_promo.py`).

The older application (solution/main.py:22) mounts only `auth.router`. So the older
promo, activation and feed routers are code that is never served. The model still
covers them, as the code intends them to behave.

The model covers both. Its modules:

| file | module | what it holds |
|---|---|---|
| base.dfy | `Base` | the promo row, the target, errors and `Result`, lower-casing, paging |
| promo_helpers.dfy | `PromoHelpers` | `calculate_active`, the `active` flag shown to everyone |
| uuids.dfy | `Uuids` | the canonical text of a UUID and its parser, as a round trip |
| serializer.dfy | `Serializer` | `remove_none_values`, `uuid_to_str` and the row serializer |
| auth.dfy | `Auth` | the Bearer header parser, the Redis token check and the token keys |
| sorting.dfy | `Sorting` | a stable sort and a filter, standing in for SQL `ORDER BY` and `WHERE` |
| store.dfy | `Store` | the tables, as the classes `Db` (layered service) and `LegacyDb` (older routers) |
| antifraud.dfy | `Antifraud` | the anti-fraud call: two attempts, fail closed, a verdict cache in Redis |
| activation.dfy | `Activation` | activation in the layered service, the allocation invariant, the history |
| legacy_activation.dfy | `LegacyActivation` | activation in the older router, with targeting and code allocation |
| schemas.dfy | `Schemas` | the request validators: target, create, patch, passwords, comments |
| promo_service.dfy | `PromoService` | create, ownership, patch and statistics in the layered service |
| legacy_promo.dfy | `LegacyPromo` | create, patch and the company listing in the older router |
| feed.dfy | `Feed` | the user feed of both generations |
| social.dfy | `Social` | likes and comments, and the counters beside them |

The tables are maps and sets held in the fields of a `Db` or `LegacyDb` object. Handlers
that change rows are methods with `modifies` frames. Each method is proved against a
pure function of the old state; the lemmas about those functions carry the promises:

- invariants are preserved;
- idempotence holds;
- an operation and its inverse round-trip;
- the handlers of the two generations agree.

The clock, the database's fresh identifiers, the anti-fraud service's replies and the
external validators (`pycountry`, `EmailStr`, `HttpUrl`) are parameters. Dates are whole
days and instants are whole seconds, both as `int`.

Where the code as written falls short of what it evidently intends, the model keeps both
versions: an as-written member with a lemma that exhibits the difference on a concrete
input, and the corrected member that the rest of the model uses. See "## Findings".

## Model

| member | source | states |
|---|---|---|
| PromoHelpers.CalculateActive | solution/src/utils/promo_helpers.py:4-14 | A promo is inactive before `active_from`, after `active_until`, with an exhausted COMMON counter or with an empty UNIQUE pool. It is active on every day in its inclusive window while capacity remains. |
| PromoHelpers.ActiveIgnoresOtherFields | solution/src/utils/promo_helpers.py:4-14 | The flag depends only on the day, the window, the mode, `used_count`, `max_count` and the pool: two rows that agree on these get the same flag. |
| PromoHelpers.AbsentFromIsUnbounded | solution/src/utils/promo_helpers.py:6 | With no `active_from`, a promo active on some day is active on every earlier day. |
| PromoHelpers.AbsentUntilIsUnbounded | solution/src/utils/promo_helpers.py:7 | With no `active_until`, a promo active on some day is active on every later day. |
| PromoHelpers.CommonUsageOnlyDeactivates | solution/src/utils/promo_helpers.py:10-11 | Raising a COMMON promo's usage counter can switch the flag off but never on. |
| LegacyPromo.CopyAgreesWithCalculateActive | solution/routers/promo.py:22-33 | The older router's copy of `calculate_active` equals the canonical one on every row and day. The feed's copy at solution/routers/user_promo.py:18-29 has the same text. |
| Uuids.UuidToString | solution/src/utils/serializer.py:14-15 | `str(uuid)` is 36 characters, with hyphens at positions 8, 13, 18 and 23. |
| Uuids.ParseUuid | solution/src/utils/get_company_or_user.py:56-59 | `uuid.UUID(text)` succeeds exactly when 32 hex digits remain after the hyphens are dropped. |
| Uuids.ParseUuidToString | solution/src/utils/get_company_or_user.py:56-61 | Parsing the canonical text of an identifier gives the identifier back. |
| Uuids.UuidToStringInjective | solution/src/utils/get_company_or_user.py:61 | Distinct identifiers have distinct texts, so distinct users have distinct token keys. |
| Serializer.RemoveNoneValues | solution/src/utils/serializer.py:18-27 | No `null` remains at any depth. Scalars come back unchanged, a list stays a list and a dict stays a dict. A dict keeps exactly its non-null keys, in order, and a list keeps exactly as many items as it has non-null ones. |
| Serializer.RemoveNoneValuesContents | solution/src/utils/serializer.py:18-27 | The contents, not just the keys: a dict's fields are its non-null fields in order, each value cleaned in turn, and a list's items are its non-null items in order, each cleaned in turn. |
| Serializer.RemoveNoneValuesKeepsClean | solution/routers/promo.py:93-103 | A value with no `null` in it comes back unchanged. |
| Serializer.RemoveNoneValuesIdempotent | solution/src/utils/serializer.py:18-27 | Removing `null`s twice is the same as removing them once. |
| Serializer.UuidToStr | solution/src/utils/serializer.py:10-16 | An identifier becomes text that parses back to it; every other value is kept. |
| Serializer.SerializeRow | solution/src/services/promo.py:84 | The row keeps exactly its non-null keys in order, and no value is left as `null` or as a raw identifier. |
| Serializer.SerializeRowValues | solution/src/routers/user_promo.py:108-110 | Each kept member carries the value of the row's member with the same key, passed through `uuid_to_str`. |
| Auth.ExtractToken | solution/src/utils/get_company_or_user.py:18-24 | 401 exactly when the header is missing or does not start with "Bearer ". Otherwise the token is the run of non-spaces right after "Bearer ". |
| Auth.ExtractTokenRoundTrip | solution/src/utils/get_company_or_user.py:18-24 | The header "Bearer " + t gives back t for every t without spaces. |
| Auth.ExtractTokenBareScheme | solution/src/utils/get_company_or_user.py:22-24 | A header of just "Bearer " gives the empty token, not 401. |
| Auth.VerifyToken | solution/src/utils/get_company_or_user.py:37-43 | The check passes exactly when the stored token is present, non-empty and equal to the presented one; every failure is 401. |
| Auth.CurrentUser | solution/src/utils/get_company_or_user.py:45-68 | The user is returned exactly when every step passes: the token is extracted and decodes, it carries a `user_id` that parses, it equals the token stored under `user:{id}:token`, and the user exists. Every other outcome is 401. |
| Auth.CurrentCompany | solution/src/utils/get_company_or_user.py:70-89 | A company is returned only when its token decodes, carries `company_id`, equals the token stored under `company:{id}:token`, and names an existing company. Conversely, whenever all of these hold, a company is returned. |
| Auth.UserTokenKeyInjective | solution/src/utils/get_company_or_user.py:61 | Two users never share a token key. |
| Auth.CompanyTokenKeyInjective | solution/src/utils/get_company_or_user.py:82 | Two company ids never share a token key. |
| Auth.TokenKeysDisjoint | solution/src/utils/get_company_or_user.py:61-82 | A user's key is never a company's key. |
| Antifraud.Attempt | solution/src/routers/activate.py:117-126 | The first 200 reply is taken, and only after every earlier attempt answered otherwise. The call refuses exactly when both attempts answer with another status. |
| Antifraud.Consult | solution/src/routers/activate.py:107-126 | A live cache entry is returned as it is. Otherwise the verdict is the first 200 body (fail closed), and it can be cached. No 200 reply gives 403. A 200 body without `cache_until` gives 400, because `fromisoformat` raises `ValueError` and the application answers that with 400. A transport failure or a lifetime that is not positive gives 500. |
| Antifraud.VerdictCache.CallAntifraud | solution/src/routers/activate.py:107-126 | The result is `Consult` on the live cache entry. A cache hit sends no request; otherwise at most two are sent. The new cache is exactly `CacheAfter`: it gains the verdict under `antifraud:{email}:{promo_id}`, expiring at `cache_until`, exactly when there was no live entry and a 200 body was accepted. |
| Antifraud.CachedVerdictReused | solution/src/routers/activate.py:108-112 | A stored verdict answers every later call with the same e-mail and promo until it expires. |
| Antifraud.ConsultLegacy | solution/routers/activate.py:81-90 | It succeeds exactly when some attempt answers 200 after the earlier ones answered otherwise, and the verdict is that 200 body. No 200 reply gives 403. |
| Antifraud.CallAntifraudLegacy | solution/routers/activate.py:81-90 | The loop returns `ConsultLegacy`, after one or two requests. |
| Activation.IsCurrentlyActive | solution/src/routers/activate.py:32-46 | The handler's gate refuses a promo whose stored flag is false, a promo outside its window, and a promo at `limit` (COMMON) or `unique_count` (UNIQUE). It admits every other promo. |
| Activation.ActivationGate | solution/src/routers/activate.py:32-46 | The corrected gate admits exactly when today lies in the window, with an absent bound leaving that side open, and a slot is free: `used_count` below `max_count` for COMMON, below `unique_count` for UNIQUE. It does not read the stored flag or `limit`. |
| Activation.StoredFlagBlocksLivePromo | solution/src/routers/activate.py:37-38 | A promo stored with `active` false, because it was created before its window opened, is refused on day 15 of its window 10..20, although it is in its window with a free slot and `calculate_active` calls it active. |
| Activation.StaleLimitBlocksRaisedCapacity | solution/src/routers/activate.py:40-41 | A COMMON promo whose `max_count` was raised from 5 to 10 with 5 uses, `limit` still 5, is refused, although it has a free slot and `calculate_active` calls it active. |
| Activation.GateAgreesWithDisplayForCommon | solution/src/routers/activate.py:32-46 | For COMMON promos the corrected gate admits a promo exactly when `calculate_active` calls it active. |
| Activation.GateImpliesDisplayForUnique | solution/src/routers/activate.py:43-44 | For UNIQUE promos the corrected gate implies the displayed flag. |
| Activation.DisplayOverstatesExhaustedUnique | solution/src/utils/promo_helpers.py:12-13 | A UNIQUE promo whose codes are all handed out still shows as active. |
| Activation.GateMatchesHandlerWhenFresh | solution/src/routers/activate.py:32-46 | The handler's gate and the corrected gate agree whenever the stored flag is true and `limit` equals `max_count`. |
| Activation.FindActivation | solution/src/routers/activate.py:154-158 | It finds the user's row for the promo when one exists, and reports none only when no row matches. |
| Activation.SlotBelowUsed | solution/src/routers/activate.py:160-163 | Under the allocation invariant, every row of a promo holds a pool position below its `used_count`. |
| Activation.SlotsDistinct | solution/src/routers/activate.py:160-163 | Two rows of one promo never hold the same pool position, so no code goes to two users. |
| Activation.EachSlotHasOneOwner | solution/src/routers/activate.py:160-165 | Every position below `used_count` belongs to exactly one activation row. |
| Activation.FirstActivationKeepsConsistency | solution/src/routers/activate.py:160-163 | A first activation that passed the gate adds one row holding position `used_count` and raises `used_count` by one, and the allocation invariant still holds. |
| Activation.CodeAt | solution/src/routers/activate.py:165 | A COMMON promo answers with its shared code, and a UNIQUE promo with a code from its pool. |
| Activation.ReturnedCodeAsWritten | solution/src/routers/activate.py:165 | The handler answers a UNIQUE activation with `promo_unique[used_count - 1]`. |
| Activation.RepeatActivationReturnsOthersCode | solution/src/routers/activate.py:154-165 | When a user repeats an activation after another user's, the handler returns the other user's code. |
| Activation.OneRowPerPairAppend | solution/src/routers/activate.py:154-161 | Adding a row for a user and promo that hold none keeps at most one row per pair. |
| Activation.AdmitRecordsCode | solution/src/routers/activate.py:154-165 | An admitted activation, first or repeated, keeps the allocation invariant. The user then holds a row, and for a UNIQUE promo its position lies inside the pool. |
| Activation.RecordActivation | solution/src/routers/activate.py:154-165 | The writes after an `ok` verdict are exactly those of `Admit`: a new row and one more use on a first activation, nothing on a repeat. The invariant holds afterwards, and the code returned is the one at the user's recorded position. |
| Activation.FirstActivationCodesAgree | solution/src/routers/activate.py:160-165 | On a first activation the handler's choice and the recorded position name the same code. |
| Activation.ActivatePromo | solution/src/routers/activate.py:129-165 | 404 for a missing user. 403 for a missing promo or a closed gate, with no request sent and the cache unchanged. Past the gate, the result follows the anti-fraud verdict: its error is passed on, a verdict that is not `ok` gives 403, and an `ok` verdict gives success. The cache becomes `CacheAfter`. A first activation adds exactly one row and one use, and a repeat changes nothing. Every refusal leaves the tables as they were. The allocation invariant is kept. The code returned is the one at the position recorded for this user. |
| Activation.HistoryItemFor | solution/src/routers/activate.py:89-102 | An entry is always marked as activated. It copies the promo's company, company name, description and like and comment counts. It is liked exactly when the user's like exists. An empty image address is shown as absent. It is active exactly when today is in the window and a slot is free (the corrected gate). |
| Activation.ExpandLength | solution/src/routers/activate.py:80-104 | The history holds `activation_count` entries for each row whose promo still exists. |
| Activation.PromoHistory | solution/src/routers/activate.py:49-104 | 400 (validation) for a bad `limit` or `offset`, then 404 for a missing user. Otherwise the entries are the user's rows, newest first, paged and expanded, and the total is the length of that page. |
| LegacyActivation.AgeUntilZeroReadAsUnbounded | solution/routers/activate.py:55-58 | `age_until or 1000` lets a thirty-year-old through a target with `age_until` 0. |
| LegacyActivation.AgeRulesAgreeOtherwise | solution/routers/activate.py:55-58 | Apart from `age_until` 0, the written age check and the intended inclusive bounds agree on every age from 0 to 100, for any upper bound up to 1000. |
| LegacyActivation.EligibleImpliesActive | solution/routers/activate.py:44-64 | Whoever passes the targeting chain finds the promo active by `calculate_active`. |
| LegacyActivation.Allocate | solution/routers/activate.py:70-74 | `used_count` rises by exactly one. A COMMON promo returns `promo_common` and is otherwise unchanged. A UNIQUE promo returns the last code of its pool, and the pool loses exactly that code. |
| LegacyActivation.AllocateKeepsUniqueTotal | solution/routers/activate.py:70-72 | For UNIQUE promos, `used_count` plus the pool size never changes. |
| LegacyActivation.ActivateLegacy | solution/routers/activate.py:17-78 | 404 for an unknown user, 400 for a profile without country or age, 404 for an unknown promo, and 403 for a failed targeting check; all of these come before any request. Past the chain, the anti-fraud call decides. Its error is passed on, so no attempt answering 200 gives 403 and a transport failure 500. A verdict whose `ok` is false gives 403, and one without `ok` gives 500. Success holds exactly when the whole chain passes and the verdict says `ok`. The table changes only on success, and then exactly by `Allocate`. |
| Schemas.ValidTargetAdmitsSomeAge | solution/src/schemas/promo.py:18-43 | A valid target never has an empty age range: some age from 0 to 100 passes it. |
| Schemas.ValidTargetAgeRules | solution/src/schemas/promo.py:37-43 | On a valid target the older router's age check differs from the intended one only when `age_until` is 0. |
| Schemas.ModeDependencies | solution/src/schemas/promo.py:85-104 | COMMON needs a non-empty `promo_common` and no pool. UNIQUE needs a non-empty pool, no `promo_common` and `max_count` 1. Each is an if-and-only-if, and every failure is a validation error (400). |
| Schemas.ValidCreateHasOneCodeSource | solution/src/schemas/promo.py:62-104 | A valid creation request carries exactly its mode's code field. A UNIQUE request has 1 to 5000 codes and `max_count` 1. |
| Schemas.ValidPromoPatch | solution/src/schemas/promo.py:46-59 | A patch body is valid exactly when each field it sends passes its rule: a description of 10 to 300 characters, a URL of at most 350 characters, a valid target, and `max_count` at least 0. |
| Schemas.PatchValidationIgnoresDates | solution/src/schemas/promo.py:46-59 | The schema places no rule on `active_from` and `active_until`: changing them never changes validity. |
| Schemas.TargetSettingsCompleteProfile | solution/src/schemas/user.py:15-25 | Every valid profile setting passes the older router's 400 check for country and age. |
| Schemas.TrailingNewlinePasses | solution/src/schemas/user.py:49-54 | "Abcdef1!\n" passes the password field as written, though it has a character outside the alphabet. |
| Schemas.PatternAgreesWithoutNewline | solution/src/schemas.py:211-216 | Without a final newline the written pattern is exactly the intended rule, whether its upper bound is 60 or open. |
| Schemas.CompanyAndUserPasswordsAgree | solution/src/schemas/company.py:37-41 | The company form's `{8,}` and the user form's `{8,60}` accept the same passwords, because the field caps the length at 60. |
| Schemas.PasswordRuleExcludesNewline | solution/src/schemas.py:209-216 | A password the intended rule accepts is 8 to 60 characters long and contains no line break. |
| Schemas.RegisteredCanSignIn | solution/src/schemas/user.py:63-72 | Every e-mail and password that could register also passes the sign-in form. |
| PromoService.NewPromoRow | solution/src/services/promo.py:23-51 | Each mode keeps only its own code field, and `unique_count` is the pool size. `used_count`, `like_count` and `comment_count` start at 0, and `limit` equals `max_count`. The stored flag is `calculate_active` of the new row. |
| PromoService.CreatePromo | solution/src/services/promo.py:17-54 | 400 (validation) for an invalid body, 400 for `active_from` after `active_until`, and success exactly when both checks pass and the new id is fresh. On success the table gains exactly the new row; otherwise it is unchanged. |
| PromoService.CreateKeepsAllocationConsistent | solution/src/services/promo.py:41-47 | A new promo joins the table without breaking the allocation invariant. |
| PromoService.OwnedPromo | solution/src/services/promo.py:87-95 | 404 exactly when the promo is missing, 403 exactly when another company owns it, and otherwise the row. |
| PromoService.ApplyAppend | solution/src/services/promo.py:121-122 | Writing two lists of fields one after the other gives the same row as writing their concatenation. |
| PromoService.SetFields | solution/src/services/promo.py:121-122 | The `setattr` loop, which writes each supplied field in turn, yields exactly the row the update list describes. |
| PromoService.PatchedInSteps | solution/src/services/promo.py:112-122 | The patch writes the supplied fields group by group, in declaration order. |
| PromoService.PatchChangesOnlySuppliedFields | solution/src/services/promo.py:112-122 | A patch overwrites exactly the supplied fields (a date sent as `null` clears it) and leaves every other field of the row as it was. |
| PromoService.PatchPromo | solution/src/services/promo.py:97-130 | 400 (validation) for an invalid body. 404 for a missing promo or another company's. It succeeds exactly when the UNIQUE `max_count` is 1, the COMMON `max_count` is at least `used_count`, and the effective dates are ordered. A rejection changes nothing. Success stores the patched row with `active` recomputed. |
| PromoService.PatchKeepsRowInvariants | solution/src/services/promo.py:102-127 | An accepted patch keeps the usage within capacity, the window ordered, UNIQUE `max_count` 1, and `used_count` and the pool as they were. |
| PromoService.PatchKeepsAllocationConsistent | solution/src/services/promo.py:97-127 | An accepted patch keeps the allocation invariant of activation. |
| PromoService.NamedMembers | solution/src/services/promo.py:141 | A group enters the statistics exactly when its country is present and non-empty. |
| PromoService.ByCountryTotalPreorder | solution/src/services/promo.py:142 | Ordering by lower-cased country is total and transitive, so the sort is well defined. |
| PromoService.CountryStats | solution/src/services/promo.py:138-144 | The countries are ordered by lower-cased name. They are a permutation of the groups with a non-empty country, and a group appears exactly when the query returned it with a non-empty country. |
| PromoService.PromoStat | solution/src/services/promo.py:132-145 | The ownership errors of `get_promo_by_id` come first. Otherwise the total and the ordered per-country counts are reported. |
| LegacyPromo.LegacyNewPromoRow | solution/routers/promo.py:53-75 | The older row keeps each mode's own code field, starts its counters at 0 with `limit` equal to `max_count`, and is stored inactive exactly when `calculate_active` says so. |
| LegacyPromo.CreatePromoLegacy | solution/routers/promo.py:35-81 | 400 for a body that fails validation, then 400 for an inverted window. Success exactly when both checks pass and the id is fresh. The table gains exactly the new row on success and is unchanged otherwise. |
| LegacyPromo.PatchInvertsWindowAsWritten | solution/routers/promo.py:266-276 | A patch sending only `active_from` 25 to a promo running from 10 to 20 passes the written check and stores an inverted window. |
| LegacyPromo.IntendedCheckRefusesMore | solution/routers/promo.py:266-271 | The corrected check refuses every patch the written one refuses. |
| LegacyPromo.AssignLegacyFields | solution/routers/promo.py:257-264 | Before the date check, a COMMON promo takes the supplied `max_count`, and each truthy descriptive field is written. Nothing else changes. |
| LegacyPromo.AssignLegacyDates | solution/routers/promo.py:273-276 | After the date check, each given date replaces the stored one. Nothing else changes. |
| LegacyPromo.PatchPromoLegacy | solution/routers/promo.py:231-278 | 400 for a body that fails validation, then 404 or 403 for ownership, then 400 for a UNIQUE `max_count` other than 1 or a COMMON `max_count` below `used_count`. Then 400 when the effective window would be inverted. This is the corrected date check of the fourth finding: the source compares the dates only when both are sent (lines 266-271). A rejection changes nothing. Success stores the patched row with `active` recomputed. |
| LegacyPromo.LegacyPatchKeepsRowInvariants | solution/routers/promo.py:240-278 | An accepted older patch keeps the usage within capacity, the window ordered, and the mode, `used_count` and the pool as they were. |
| LegacyPromo.PatchHandlersAgree | solution/routers/promo.py:231-278 | When no field is sent empty or as `null`, the two patch handlers produce the same row and accept the same dates. |
| LegacyPromo.StrippedTarget | solution/routers/promo.py:157-162 | The listed target holds no `null` member. |
| LegacyPromo.StrippedTargetMembers | solution/routers/promo.py:157-162 | A present country or age bound appears with its value, and an absent one does not appear at all. |
| LegacyPromo.NoTargetListsEmpty | solution/routers/promo.py:157-162 | A promo with no targeting lists an empty target. |
| LegacyPromo.LowerAll | solution/routers/promo.py:116-132 | Each requested country is lower-cased, keeping the number and order of the countries. |
| LegacyPromo.CompanyRowsMembers | solution/routers/promo.py:114-132 | A promo is listed exactly when it is the company's and it either has no target country or has one of the requested countries, ignoring case; with no countries requested every promo of the company is listed. |
| LegacyPromo.ListingOrderTotal | solution/routers/promo.py:142-147 | Every `sort_by` gives a total order (`NULLS FIRST` descending dates, or newest first). |
| LegacyPromo.ListEntries | solution/routers/promo.py:153-172 | The response holds one entry per promo of the page, in page order. Each entry has its `active` flag recomputed and its target stripped of `null`s. |
| LegacyPromo.ListPromos | solution/routers/promo.py:105-182 | 400 (validation) exactly for a bad `limit`, `offset` or `sort_by`. The total counts the matching promos before paging. The entries are the page, each with its `active` flag recomputed and its target stripped of `null`s. The same listing is served by `get_promos` at solution/src/services/promo.py:56-85. |
| LegacyPromo.ListingPageProperties | solution/routers/promo.py:142-172 | The page is sorted by the requested key, and every entry is a promo of the company that passes the country filter. |
| Feed.FeedCountry | solution/src/services/user_promo.py:22 | The feed country is the lower-cased profile country, or "" when the profile has none. |
| Feed.FeedAge | solution/src/services/user_promo.py:23 | The feed age is the profile age, or 0 when the profile has none. |
| Feed.CategorySubstringMatches | solution/src/repositories/user_promo.py:44-51 | A request for "food" matches a promo whose only category is "seafood". |
| Feed.CategoryIntendedImpliesAsWritten | solution/src/routers/user_promo.py:72-85 | Every promo that truly has the category also passes the written substring test, so the written test only admits more. |
| Feed.FlagLeaksAcrossPromos | solution/src/routers/user_promo.py:22-32 | A user who liked promo 1 is told that promo 2 is liked as well. |
| Feed.FlagIntendedImpliesAsWritten | solution/src/routers/user_promo.py:22-32 | For an existing promo, the written flag holds whenever the user truly liked or activated that promo. |
| Feed.GetFeed | solution/src/routers/user_promo.py:35-117 | 400 (validation) exactly for a `limit` below 1 or a negative `offset`. The total counts the visible promos before paging. The entries are the newest-first page of the visible promos, each with `active` recomputed and the user's own like and activation flags. |
| Feed.FeedRowsMembers | solution/src/repositories/user_promo.py:22-51 | A promo matches exactly when every filter passes: the stored `active` flag (when asked), the country (absent, or equal ignoring case), the inclusive age bounds, and the category (when asked, one of the promo's categories ignoring case). |
| Feed.FeedPageProperties | solution/src/repositories/user_promo.py:57 | The page is newest first, and every entry on it is a visible promo of the table. |
| Feed.FeedTotalBoundsPages | solution/src/repositories/user_promo.py:53-57 | No page holds more entries than the total. |
| Feed.ActiveFilterReadsStoredFlag | solution/src/routers/user_promo.py:49-50 | The `active` filter reads the stored flag while the entry shows the recomputed one, so a promo can be listed under `active=true` and shown as inactive. |
| Feed.GetFeedLegacy | solution/routers/user_promo.py:51-102 | 400 (validation) exactly for a bad `limit` or `offset`. The entries are the newest-first page of the promos passing the category and `active` filters. The total is the size of the whole table. |
| Feed.LegacyFeedPageProperties | solution/routers/user_promo.py:51-102 | The older feed's page is ordered newest first, is no longer than the filtered table, and holds only promos of the table that pass the category and `active` filters. |
| Feed.LegacyTotalIgnoresFilters | solution/routers/user_promo.py:74-75 | A category filter that matches nothing still reports the whole table as the total. |
| Social.OwnComment | solution/src/routers/user_promo.py:367-380 | 404 for an unknown promo or a comment that is not this promo's, and 403 exactly when the comment exists on this promo but belongs to another author. |
| Social.LikePromo | solution/src/services/user_promo.py:68-87 | The database changes as the `Like` transition says: 404 for an unknown promo, no change for an existing like, otherwise the pair is added and `like_count` rises by one. |
| Social.UnlikePromo | solution/src/services/user_promo.py:89-109 | The database changes as the `Unlike` transition says: 404 for an unknown promo, no change without a like, otherwise the pair is removed and `like_count` becomes max(0, like_count - 1). |
| Social.CreateComment | solution/src/services/user_promo.py:111-135 | 400 (validation) for a text outside 10 to 1000 characters, then 404 for an unknown promo. Otherwise the comment is stored and `comment_count` rises by one. |
| Social.EditCommentText | solution/src/services/user_promo.py:174-194 | The ownership checks of `OwnComment` apply; on success only the comment's text changes. |
| Social.RemoveComment | solution/src/services/user_promo.py:196-205 | The ownership checks of `OwnComment` apply. On success the comment goes and `comment_count` becomes max(0, comment_count - 1). |
| Social.LikeKeepsConsistent | solution/src/routers/user_promo.py:164-179 | A like keeps every promo's `like_count` equal to its number of likers. |
| Social.UnlikeKeepsConsistent | solution/src/routers/user_promo.py:197-213 | An unlike keeps the counters right, and the floor never comes into play. |
| Social.LikeIdempotent | solution/src/routers/user_promo.py:171-172 | Liking twice is the same as liking once. |
| Social.UnlikeUndoesLike | solution/src/services/user_promo.py:84-108 | Unliking after a fresh like restores the tables exactly, for a promo whose `like_count` is not negative. |
| Social.AddCommentKeepsConsistent | solution/src/routers/user_promo.py:240-242 | A new comment keeps every `comment_count` equal to the number of comments. |
| Social.EditChangesOnlyText | solution/src/services/user_promo.py:180 | An accepted edit concerns the caller's own comment and changes only its text; every other row is unchanged. |
| Social.EditKeepsConsistent | solution/src/routers/user_promo.py:382 | An edit keeps the counters right. |
| Social.DeleteKeepsConsistent | solution/src/services/user_promo.py:202-204 | A deletion keeps the counters right. |
| Social.DeleteVariantsAgree | solution/src/routers/user_promo.py:428-430 | While the counters are right, the router's unfloored decrement and the service's floored one give the same tables. |
| Social.RouterDeleteCanGoNegative | solution/src/routers/user_promo.py:430 | Once a counter is already out of step, the router's decrement can take `comment_count` to -1. |
| Social.NewPromoKeepsConsistent | solution/src/services/promo.py:42-46 | A new promo whose counters start at 0 joins consistent tables consistently. |

## Left out

- Async execution, sessions, commits and concurrency. Each request is one sequential step, so the read-then-write race in activation is not modelled.
- JWT signing and decoding, and password hashing. The decoded claims are a parameter of `Auth.CurrentUser` and `Auth.CurrentCompany`.
- The HTTP and Redis transports. The anti-fraud service is an oracle that gives the reply to each attempt, and Redis is a map. The `cache_until` date is an integer instant.
- Floating point: the float lifetime computed from `cache_until` becomes an integer difference.
- The clock. "today" and "now" are parameters, and so are the identifiers the database generates. An identifier collision is modelled as a 500.
- `pycountry`, `EmailStr` and `HttpUrl` become lookup parameters.
- Schemas.ValidUrl: it applies the 350-character cap to the text as sent. The source measures `str(image_url)` after `HttpUrl` has normalised it, which can add a trailing slash (solution/src/schemas/promo.py:55-58 and 79-82).
- Unicode case mapping. Lower- and upper-casing follow ASCII only, and `\d` in the password pattern means ASCII digits.
- SQL details:
  - the order among rows with equal sort keys is taken as the table order (the sort is stable);
  - the `LIKE` wildcards `%` and `_` in a category, and JSON escaping of quotes in categories, are not modelled.
- The repository's statistics query. It is not part of this model: the total and the per-country groups are parameters of `PromoService.PromoStat`.
- `solution/src/models/user.py` is not part of this model. Its association tables are taken to be `user_activated_promos` and `user_liked_promos` with user and promo foreign keys.
- The activation rows carry the pool position they were handed (`slot`). The source has no such column, and it is what the corrected re-delivery needs.
- `PromoService.PatchPromo`: `calculate_active` is called with keyword arguments it does not accept (solution/src/services/promo.py:124-127), which raises at run time. The model recomputes the flag as intended.
- The layered router catches every exception and rewrites the status (solution/src/routers/promo.py): 404 for get and stat, 400 for patch. The model reports the service's own statuses.
- `LegacyPromo.CreatePromoLegacy`: the older `PromoCode` model has no `comment_count` or `unique_count` column, so the constructor call would fail. The model builds the row as intended, with `unique_count` 0.
- `Feed.GetFeedLegacy`: the older feed filters on `PromoCode.category`, which does not exist. The model uses the intended containment of the category in the target's categories. The older flag helpers compare `PromoCode.id` rather than `promo_id`, and the model gives them the corrected flags as well.
- `LegacyActivation.ActivateLegacy`: the older router posts the promo id as a raw UUID in the JSON body, which the JSON encoder refuses. The model sends it as intended. A profile whose country key holds `null` would also raise; the model treats it as missing (400).
- `Uuids.ParseUuid`: the other spellings `uuid.UUID` tolerates are not modelled: surrounding whitespace, surrounding braces, a `urn:uuid:` prefix, a `0x` prefix, and the sign and underscores `int(..., 16)` accepts. Such a claim is refused (401) in the model.
- `Auth.CurrentCompany`: a `company_id` claim that is not a UUID reaches the database as text and fails there. The model answers 401.
- `PromoService.PatchPromo`: an explicit `null` for a non-date field of the patch body is not modelled. Those fields are `Option`s whose `None` means "not sent".
- `Social.RemoveComment` and `Social.EditCommentText`: the service never checks the promo before it looks up the comment. The model applies the router's promo check (404) first. The two differ only for a comment whose promo no longer exists, and nothing in the model deletes promos.
- PromoService.PromoStat: the service as written always fails. It reads `promo.id` from a `PromoReadOnly` (solution/src/services/promo.py:133), which only has `promo_id` (solution/src/schemas/promo.py:106-121), and it reads `stat_data.total` from a dict (line 135). The router turns the exception into 404 (solution/src/routers/promo.py:75-78), so the endpoint answers 404 to every request. The model reports the statistics the code evidently intends.
- Social.LikePromo and Social.UnlikePromo: solution/src/services/user_promo.py:3 imports `select` from the standard `select` module instead of SQLAlchemy, so the queries at lines 74 and 94 raise `TypeError` (a 500), and so do the flag helpers at lines 209 and 215. The model gives the intended SQLAlchemy queries. The served feed uses the router's own helpers (solution/src/routers/user_promo.py:22-32), which import the right `select`.
- LegacyActivation.ActivateLegacy: `promo.target.country` (solution/routers/activate.py:51) reads an attribute of a plain JSON dict (`target = Column(JSON)`, solution/models/promocode.py:27), which raises `AttributeError`. So do the age reads at lines 55-56. The model applies the targeting the code evidently intends.
- LegacyActivation.Allocate: `promo_unique.pop()` (solution/routers/activate.py:72) changes a plain `Column(JSON)` in place (solution/models/promocode.py:20). SQLAlchemy does not track that change, so the stored pool never shrinks. The model assumes the pop is saved.
- Activation.ActivatePromo: the router's docstring (solution/src/routers/activate.py:21-23) says the endpoint is unfinished and does not work. The model states what the code does, with the corrections listed under "## Findings".
- Activation.HistoryItemFor: the source sets `active` with the handler's gate `is_currently_active` (solution/src/routers/activate.py:94), which also reads the stored flag and `limit`. The model uses the corrected gate of the second finding. The two agree whenever the stored flag is true and `limit` equals `max_count` (`Activation.GateMatchesHandlerWhenFresh`).
- Antifraud.Consult: a `cache_until` with a UTC offset makes the subtraction of the naive `datetime.utcnow()` (solution/src/routers/activate.py:120) raise `TypeError`, a 500. Instants in the model carry no offset.
- The comment listing and single-comment reads, and the user profile and company endpoints: they only read and format rows.
- The formatting of dates as text and of the comment author.

## Findings

| source | as written | input that shows it | evidently intended | confidence | as-written member | corrected member |
|---|---|---|---|---|---|---|
| solution/src/routers/activate.py:165 | A repeated activation returns `promo_unique[used_count - 1]`, the most recently handed-out code. | Users 7 and 8 activate a three-code promo, then user 7 activates again and receives user 8's code "A2". | Each user gets back the code they were handed. | not executed; high | Activation.RepeatActivationReturnsOthersCode | Activation.ActivatePromo |
| solution/src/routers/activate.py:32-46 | The gate reads the stored `active` flag and compares against `limit`. In the served application the flag is written only at creation: the layered patch raises at solution/src/services/promo.py:124-127, before `update_promo` at line 129, and `get_db` (solution/src/backend/db.py:8-10) never commits. `limit` is never rewritten. Only the older patch raises `max_count` (solution/routers/promo.py:257), and it leaves `limit` as it was. | A promo created before its window opens (stored `active` false) is refused on day 15 of its window 10..20 (`Activation.StoredFlagBlocksLivePromo`). After the older patch raises `max_count` from 5 to 10 with 5 uses, a COMMON promo is refused as well (`Activation.StaleLimitBlocksRaisedCapacity`). | Admit when today is in the window and a slot is free, judged from the current fields. | not executed; high | Activation.StoredFlagBlocksLivePromo | Activation.GateAgreesWithDisplayForCommon |
| solution/routers/activate.py:55-57 | `age_until or 1000` reads an `age_until` of 0 as no upper bound. As written, the line is reached only once the attribute read of the JSON target at line 51 is fixed (see "## Left out"). | A target with `age_until` 0 admits a user aged 30. | Present bounds are inclusive; only absent bounds are open. | not executed; medium | LegacyActivation.AgeUntilZeroReadAsUnbounded | LegacyActivation.ActivateLegacy |
| solution/routers/promo.py:266-271 | The date order is checked only when both dates are in the request. | A promo running from 10 to 20, patched with only `active_from` 25, is stored with an inverted window. | Check the effective window: each date from the request when sent, from the row otherwise. | not executed; high | LegacyPromo.PatchInvertsWindowAsWritten | LegacyPromo.PatchPromoLegacy |
| solution/src/schemas/user.py:49-54 | `re.match` with a pattern ending in `$`, which also matches before a final newline. | "Abcdef1!\n" passes the password validator. | Only letters, digits and `@$!%*?&`, and at least one of each class. | not executed; medium | Schemas.TrailingNewlinePasses | Schemas.PasswordRuleExcludesNewline |
| solution/src/repositories/user_promo.py:44-51 | The category filter is a substring search in the text of the JSON array. | A request for "food" lists a promo whose only category is "seafood". | The category is one of the promo's categories, ignoring case. | not executed; high | Feed.CategorySubstringMatches | Feed.FeedRowsMembers |
| solution/src/routers/user_promo.py:22-32 | The flag query adds the promo table with no join condition, so any row of the user counts, for any existing promo. | A user who liked only promo 1 sees `is_liked_by_user` true on promo 2. | True exactly when the user's row for this very promo exists. | not executed; medium | Feed.FlagLeaksAcrossPromos | Feed.GetFeed |
