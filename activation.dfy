/** Activation of a promo by a user in the layered service: the activity gate, the
    anti-fraud verdict, the idempotent (user, promo) membership and the allocation of
    a code, plus the activation history. Each activation row records the pool
    position the user was handed, so a repeated activation returns the user's own
    code; `ReturnedCodeAsWritten` keeps the handler's own choice beside it. */
module Activation {
  import opened Base
  import opened Uuids
  import opened PromoHelpers
  import opened Store
  import opened Antifraud
  import opened Sorting

  /** `is_currently_active` as the handler writes it: the stored `active` flag, the
      window, and `used_count` against `limit` (COMMON) or `unique_count` (UNIQUE). */
  function IsCurrentlyActive(p: PromoRow, today: Date): (r: bool)
    ensures !p.active ==> !r
    ensures !InWindow(p.activeFrom, p.activeUntil, today) ==> !r
    ensures p.mode == Common && p.usedCount >= p.limit ==> !r
    ensures p.mode == Unique && p.usedCount >= p.uniqueCount ==> !r
    ensures (p.active && InWindow(p.activeFrom, p.activeUntil, today) &&
             (p.mode == Common ==> p.usedCount < p.limit) &&
             (p.mode == Unique ==> p.usedCount < p.uniqueCount)) ==> r
  {
    if !p.active || !InWindow(p.activeFrom, p.activeUntil, today) then false
    else if p.mode == Common && p.usedCount >= p.limit then false
    else if p.mode == Unique && p.usedCount >= p.uniqueCount then false
    else true
  }

  /** Room for one more activation: COMMON below `max_count`, UNIQUE below the number
      of codes in the pool. */
  predicate HasFreeSlot(p: PromoRow)
  {
    match p.mode
    case Common => p.usedCount < p.maxCount
    case Unique => p.usedCount < p.uniqueCount
  }

  /** The gate as intended: today in the window and a free slot, judged from the
      promo's current fields rather than the flag stored when it was last written. */
  predicate ActivationGate(p: PromoRow, today: Date): (r: bool)
    // today lies in the window, an absent bound leaving that side open, and a slot is
    // free: a use left under `max_count` (COMMON) or a code left in the pool (UNIQUE)
    ensures r <==>
      (p.activeFrom.None? || p.activeFrom.value <= today) &&
      (p.activeUntil.None? || today <= p.activeUntil.value) &&
      p.usedCount < (if p.mode == Common then p.maxCount else p.uniqueCount)
  {
    InWindow(p.activeFrom, p.activeUntil, today) && HasFreeSlot(p)
  }

  /** For COMMON promos the gate and the displayed `active` flag always agree. */
  lemma GateAgreesWithDisplayForCommon(p: PromoRow, today: Date)
    requires p.mode == Common
    ensures ActivationGate(p, today) <==> CalculateActive(p, today)
  {
  }

  /** For UNIQUE promos the gate implies the displayed flag, since codes are never
      removed from the pool here. */
  lemma GateImpliesDisplayForUnique(p: PromoRow, today: Date)
    requires p.mode == Unique && p.uniqueCount == |Pool(p)| && 0 <= p.usedCount
    ensures ActivationGate(p, today) ==> CalculateActive(p, today)
  {
  }

  function SamplePromo(mode: Mode, pool: seq<string>, used: int, maxCount: int, limit: int,
                       active: bool): PromoRow
  {
    PromoRow(1, 2, "Shop", mode, if mode == Common then Some("SALE2025") else None,
             if mode == Unique then Some(pool) else None, "Spring sale", None, NoTarget,
             Some(10), Some(20), limit, maxCount, |pool|, used, 0, 0, active, 0)
  }

  /** The converse fails: a UNIQUE promo whose every code is handed out still shows
      as active, because the pool is not emptied. */
  lemma DisplayOverstatesExhaustedUnique()
    ensures var p := SamplePromo(Unique, ["A1", "A2"], 2, 1, 1, true);
            CalculateActive(p, 15) && !ActivationGate(p, 15)
  {
  }

  /** A promo created before its window opens is stored with `active` false and is
      never admitted by the handler's gate, though it is live on a day in its window. */
  lemma StoredFlagBlocksLivePromo()
    ensures var p := SamplePromo(Common, [], 0, 10, 10, false);
            !IsCurrentlyActive(p, 15) && ActivationGate(p, 15) && CalculateActive(p, 15)
  {
  }

  /** `limit` keeps the `max_count` of creation time: after `max_count` is raised the
      handler's gate still refuses at the old limit. */
  lemma StaleLimitBlocksRaisedCapacity()
    ensures var p := SamplePromo(Common, [], 5, 10, 5, true);
            !IsCurrentlyActive(p, 15) && ActivationGate(p, 15) && CalculateActive(p, 15)
  {
  }

  /** The gates agree whenever the stored flag and `limit` are current. */
  lemma GateMatchesHandlerWhenFresh(p: PromoRow, today: Date)
    requires p.active && p.limit == p.maxCount
    ensures IsCurrentlyActive(p, today) <==> ActivationGate(p, today)
  {
  }

  // ---------------------------------------------------------------------------------
  // The allocation invariant

  function Iota(n: int): (r: seq<nat>)
    ensures |r| == if n < 0 then 0 else n
    ensures forall i :: 0 <= i < |r| ==> r[i] == i
  {
    if n <= 0 then [] else Iota(n - 1) + [n - 1]
  }

  /** The pool positions handed out for `pid`, in the order of the activation rows. */
  function SlotsOf(acts: seq<ActivationRow>, pid: Uuid): seq<nat>
  {
    if acts == [] then []
    else
      var last := acts[|acts| - 1];
      SlotsOf(acts[..|acts| - 1], pid) + (if last.promoId == pid then [last.slot] else [])
  }

  predicate WithinCapacity(p: PromoRow)
  {
    0 <= p.usedCount &&
    (p.mode == Common ==> p.usedCount <= p.maxCount) &&
    (p.mode == Unique ==> p.uniqueCount == |Pool(p)| && p.usedCount <= p.uniqueCount)
  }

  predicate OneRowPerPair(acts: seq<ActivationRow>)
  {
    forall i, j :: 0 <= i < j < |acts| ==>
      acts[i].userId != acts[j].userId || acts[i].promoId != acts[j].promoId
  }

  /** For every promo, its rows were handed positions 0, 1, ..., used_count - 1 in turn,
      usage stays within capacity, and each user holds at most one row per promo. */
  predicate AllocationConsistent(promos: map<Uuid, PromoRow>, acts: seq<ActivationRow>)
  {
    (forall pid :: pid in promos ==>
       WithinCapacity(promos[pid]) && SlotsOf(acts, pid) == Iota(promos[pid].usedCount)) &&
    OneRowPerPair(acts)
  }

  /** The position of the row of `user` for `pid`, if any. */
  function FindActivation(acts: seq<ActivationRow>, user: Uuid, pid: Uuid): (r: Option<nat>)
    ensures r.Some? ==> r.value < |acts| && acts[r.value].userId == user && acts[r.value].promoId == pid
    ensures r.None? ==> forall i :: 0 <= i < |acts| ==> acts[i].userId != user || acts[i].promoId != pid
  {
    if acts == [] then None
    else if acts[|acts| - 1].userId == user && acts[|acts| - 1].promoId == pid then Some(|acts| - 1)
    else FindActivation(acts[..|acts| - 1], user, pid)
  }

  lemma {:induction false} SlotRecorded(acts: seq<ActivationRow>, pid: Uuid, i: nat)
    requires i < |acts| && acts[i].promoId == pid
    ensures acts[i].slot in SlotsOf(acts, pid)
  {
    if i < |acts| - 1 {
      SlotRecorded(acts[..|acts| - 1], pid, i);
    }
  }

  /** Every row of a promo holds a position below its `used_count`. */
  lemma SlotBelowUsed(promos: map<Uuid, PromoRow>, acts: seq<ActivationRow>, i: nat)
    requires AllocationConsistent(promos, acts)
    requires i < |acts| && acts[i].promoId in promos
    ensures acts[i].slot < promos[acts[i].promoId].usedCount
  {
    SlotRecorded(acts, acts[i].promoId, i);
  }

  /** Two rows of one promo never share a position: no pool position goes to two users. */
  lemma {:induction false} SlotsDistinct(acts: seq<ActivationRow>, pid: Uuid, n: int, i: nat, j: nat)
    requires SlotsOf(acts, pid) == Iota(n)
    requires i < j < |acts| && acts[i].promoId == pid && acts[j].promoId == pid
    ensures acts[i].slot != acts[j].slot
  {
    var prefix := acts[..|acts| - 1];
    var last := acts[|acts| - 1];
    if last.promoId == pid {
      var before := SlotsOf(prefix, pid);
      assert before + [last.slot] == Iota(n);
      assert n > 0;
      assert Iota(n) == Iota(n - 1) + [n - 1];
      assert before == (before + [last.slot])[..|before|];
      assert before == Iota(n - 1);
      if j == |acts| - 1 {
        assert last.slot == n - 1;
        assert acts[i] == prefix[i];
        SlotRecorded(prefix, pid, i);
        var k :| 0 <= k < |before| && before[k] == acts[i].slot;
      } else {
        assert acts[i] == prefix[i] && acts[j] == prefix[j];
        SlotsDistinct(prefix, pid, n - 1, i, j);
      }
    } else {
      assert SlotsOf(acts, pid) == SlotsOf(prefix, pid);
      assert acts[i] == prefix[i] && acts[j] == prefix[j];
      SlotsDistinct(prefix, pid, n, i, j);
    }
  }

  lemma {:induction false} SlotOwned(acts: seq<ActivationRow>, pid: Uuid, k: nat)
    requires k in SlotsOf(acts, pid)
    ensures exists i :: 0 <= i < |acts| && acts[i].promoId == pid && acts[i].slot == k
  {
    var prefix := acts[..|acts| - 1];
    var last := acts[|acts| - 1];
    if last.promoId == pid && last.slot == k {
    } else {
      SlotOwned(prefix, pid, k);
      var i :| 0 <= i < |prefix| && prefix[i].promoId == pid && prefix[i].slot == k;
      assert acts[i] == prefix[i];
    }
  }

  /** Every position below `used_count` was handed to exactly one activation row. */
  lemma EachSlotHasOneOwner(promos: map<Uuid, PromoRow>, acts: seq<ActivationRow>, pid: Uuid, k: nat)
    requires AllocationConsistent(promos, acts) && pid in promos && k < promos[pid].usedCount
    ensures exists i :: 0 <= i < |acts| && acts[i].promoId == pid && acts[i].slot == k
    ensures forall i, j :: 0 <= i < j < |acts| && acts[i].promoId == pid && acts[j].promoId == pid ==>
                           acts[i].slot != acts[j].slot
  {
    assert Iota(promos[pid].usedCount)[k] == k;
    SlotOwned(acts, pid, k);
    forall i, j | 0 <= i < j < |acts| && acts[i].promoId == pid && acts[j].promoId == pid
      ensures acts[i].slot != acts[j].slot
    {
      SlotsDistinct(acts, pid, promos[pid].usedCount, i, j);
    }
  }

  lemma SlotsOfAppend(acts: seq<ActivationRow>, row: ActivationRow, pid: Uuid)
    ensures SlotsOf(acts + [row], pid) == SlotsOf(acts, pid) + if row.promoId == pid then [row.slot] else []
  {
    assert (acts + [row])[..|acts|] == acts;
  }

  /** A row for a pair that holds none keeps one row per pair. */
  lemma OneRowPerPairAppend(acts: seq<ActivationRow>, row: ActivationRow)
    requires OneRowPerPair(acts)
    requires forall i :: 0 <= i < |acts| ==> acts[i].userId != row.userId || acts[i].promoId != row.promoId
    ensures OneRowPerPair(acts + [row])
  {
    var acts' := acts + [row];
    forall i, j | 0 <= i < j < |acts'|
      ensures acts'[i].userId != acts'[j].userId || acts'[i].promoId != acts'[j].promoId
    {
      if j == |acts| {
        assert acts'[i] == acts[i];
      } else {
        assert acts'[i] == acts[i] && acts'[j] == acts[j];
      }
    }
  }

  /** A first activation that passed the gate keeps the invariant. */
  lemma FirstActivationKeepsConsistency(promos: map<Uuid, PromoRow>, acts: seq<ActivationRow>,
                                        user: Uuid, pid: Uuid, now: Instant)
    requires AllocationConsistent(promos, acts)
    requires pid in promos && HasFreeSlot(promos[pid])
    requires FindActivation(acts, user, pid).None?
    ensures var p := promos[pid];
            AllocationConsistent(promos[pid := p.(usedCount := p.usedCount + 1)],
                                 acts + [ActivationRow(user, pid, p.usedCount, 1, now)])
  {
    var p := promos[pid];
    var row := ActivationRow(user, pid, p.usedCount, 1, now);
    var acts' := acts + [row];
    var promos' := promos[pid := p.(usedCount := p.usedCount + 1)];
    forall q | q in promos'
      ensures WithinCapacity(promos'[q]) && SlotsOf(acts', q) == Iota(promos'[q].usedCount)
    {
      SlotsOfAppend(acts, row, q);
      if q == pid {
        assert Iota(p.usedCount + 1) == Iota(p.usedCount) + [p.usedCount];
      } else {
        assert promos'[q] == promos[q];
      }
    }
    OneRowPerPairAppend(acts, row);
  }

  // ---------------------------------------------------------------------------------
  // The code handed back

  /** The code for pool position `slot`: the shared code of a COMMON promo, or the
      pool entry at that position. */
  function CodeAt(p: PromoRow, slot: nat): (r: Option<string>)
    requires p.mode == Unique ==> slot < |Pool(p)|
    ensures p.mode == Common ==> r == p.promoCommon
    ensures p.mode == Unique ==> r.Some? && r.value in Pool(p)
  {
    if p.mode == Common then p.promoCommon else Some(Pool(p)[slot])
  }

  /** The handler's choice: `promo_unique[used_count - 1]`, the most recently handed
      out position, whoever holds it. */
  function ReturnedCodeAsWritten(p: PromoRow): (r: Option<string>)
    requires p.mode == Unique ==> 1 <= p.usedCount <= |Pool(p)|
    ensures p.mode == Unique ==> r == Some(Pool(p)[p.usedCount - 1])
  {
    if p.mode == Common then p.promoCommon else Some(Pool(p)[p.usedCount - 1])
  }

  /** Two users activate a three-code promo; when the first repeats the activation the
      handler returns the second user's code, not the one the first was given. */
  lemma RepeatActivationReturnsOthersCode()
    ensures var p := SamplePromo(Unique, ["A1", "A2", "A3"], 2, 1, 1, true);
            var acts := [ActivationRow(7, 1, 0, 1, 100), ActivationRow(8, 1, 1, 1, 200)];
            AllocationConsistent(map[1 := p], acts) &&
            FindActivation(acts, 7, 1) == Some(0) &&
            ReturnedCodeAsWritten(p) == Some("A2") && CodeAt(p, acts[0].slot) == Some("A1")
  {
    var p := SamplePromo(Unique, ["A1", "A2", "A3"], 2, 1, 1, true);
    var acts := [ActivationRow(7, 1, 0, 1, 100), ActivationRow(8, 1, 1, 1, 200)];
    assert acts[..1] == [acts[0]];
    assert [acts[0]][..0] == [];
    assert SlotsOf(acts, 1) == [0, 1];
    assert Iota(2) == [0, 1];
  }

  /** On a first activation the handler's choice and the recorded position coincide. */
  lemma FirstActivationCodesAgree(p: PromoRow)
    requires p.mode == Unique && 0 <= p.usedCount < |Pool(p)|
    ensures ReturnedCodeAsWritten(p.(usedCount := p.usedCount + 1)) ==
            CodeAt(p.(usedCount := p.usedCount + 1), p.usedCount)
  {
  }

  /** The tables after an admitted activation: a first one appends the row holding
      the next position and raises `used_count`, a repeated one changes nothing. */
  function Admit(promos: map<Uuid, PromoRow>, acts: seq<ActivationRow>, user: Uuid, pid: Uuid,
                 now: Instant): (map<Uuid, PromoRow>, seq<ActivationRow>)
    requires pid in promos && WithinCapacity(promos[pid])
  {
    if FindActivation(acts, user, pid).Some? then (promos, acts)
    else
      var p := promos[pid];
      (promos[pid := p.(usedCount := p.usedCount + 1)],
       acts + [ActivationRow(user, pid, p.usedCount, 1, now)])
  }

  /** An admitted activation keeps the invariant and leaves the user holding a row whose
      position lies inside the pool. */
  lemma AdmitRecordsCode(promos: map<Uuid, PromoRow>, acts: seq<ActivationRow>, user: Uuid, pid: Uuid,
                         now: Instant)
    requires AllocationConsistent(promos, acts)
    requires pid in promos && HasFreeSlot(promos[pid])
    ensures var (promos', acts') := Admit(promos, acts, user, pid, now);
            AllocationConsistent(promos', acts') && pid in promos' &&
            var i := FindActivation(acts', user, pid);
            i.Some? && (promos'[pid].mode == Unique ==> acts'[i.value].slot < |Pool(promos'[pid])|)
  {
    if FindActivation(acts, user, pid).None? {
      FirstActivationKeepsConsistency(promos, acts, user, pid, now);
    }
    var (promos', acts') := Admit(promos, acts, user, pid, now);
    var i := FindActivation(acts', user, pid);
    SlotBelowUsed(promos', acts', i.value);
  }

  // ---------------------------------------------------------------------------------
  // The handler

  /** The writes of an admitted activation, followed by the lookup of the code held
      at the user's recorded position. */
  method RecordActivation(db: Db, userId: Uuid, promoId: Uuid, now: Instant) returns (code: Option<string>)
    requires AllocationConsistent(db.promos, db.activations)
    requires promoId in db.promos && HasFreeSlot(db.promos[promoId])
    modifies db`promos, db`activations
    ensures (db.promos, db.activations) == Admit(old(db.promos), old(db.activations), userId, promoId, now)
    ensures AllocationConsistent(db.promos, db.activations)
    ensures var i := FindActivation(db.activations, userId, promoId);
            i.Some? && promoId in db.promos &&
            (db.promos[promoId].mode == Unique ==> db.activations[i.value].slot < |Pool(db.promos[promoId])|) &&
            code == CodeAt(db.promos[promoId], db.activations[i.value].slot)
  {
    AdmitRecordsCode(db.promos, db.activations, userId, promoId, now);
    var tables := Admit(db.promos, db.activations, userId, promoId, now);
    db.promos, db.activations := tables.0, tables.1;
    var found := FindActivation(db.activations, userId, promoId);
    code := CodeAt(db.promos[promoId], db.activations[found.value].slot);
  }

  /** `activate_promo` of the layered service for the authenticated user `userId`.
      A missing user is 404, a missing promo or a closed gate 403, then the anti-fraud
      verdict must say `ok`; a first activation inserts a row holding the next pool
      position and raises `used_count` by one, a repeated one changes nothing. The
      user's code is returned. */
  method ActivatePromo(db: Db, cache: VerdictCache, userId: Uuid, promoId: Uuid,
                       today: Date, now: Instant, reply: Oracle)
    returns (r: Result<Option<string>>, attempts: nat)
    requires AllocationConsistent(db.promos, db.activations)
    modifies db`promos, db`activations, cache
    ensures AllocationConsistent(db.promos, db.activations)
    ensures db.users == old(db.users)
    // the rejections that come before the anti-fraud service is consulted
    ensures userId !in db.users ==> r == Err(NotFound) && attempts == 0
    ensures userId in db.users && (promoId !in old(db.promos) || !ActivationGate(old(db.promos[promoId]), today)) ==>
              r == Err(Forbidden) && attempts == 0
    ensures attempts <= MaxAttempts
    // success needs the gate and an `ok` verdict
    ensures r.Ok? ==>
              userId in db.users && promoId in old(db.promos) && ActivationGate(old(db.promos[promoId]), today) &&
              var v := Consult(Live(old(cache.entries), CacheKey(db.users[userId].email, promoId), now), reply, now);
              v.Ok? && v.value.ok == Some(true)
    // past the gate, the verdict decides: its error is passed on, a verdict without
    // `ok` is 403, and an `ok` verdict always succeeds
    ensures userId in db.users && promoId in old(db.promos) && ActivationGate(old(db.promos[promoId]), today) ==>
              var v := Consult(Live(old(cache.entries), CacheKey(db.users[userId].email, promoId), now), reply, now);
              (v.Err? ==> r == Err(v.error)) &&
              (v.Ok? && v.value.ok != Some(true) ==> r == Err(Forbidden)) &&
              (v.Ok? && v.value.ok == Some(true) ==> r.Ok?)
    // the cache gains the verdict fetched past the gate, and nothing otherwise
    ensures userId in db.users && promoId in old(db.promos) && ActivationGate(old(db.promos[promoId]), today) ==>
              cache.entries == CacheAfter(old(cache.entries), CacheKey(db.users[userId].email, promoId), reply, now)
    ensures !(userId in db.users && promoId in old(db.promos) && ActivationGate(old(db.promos[promoId]), today)) ==>
              cache.entries == old(cache.entries)
    // every rejection leaves the tables as they were
    ensures r.Err? ==> db.promos == old(db.promos) && db.activations == old(db.activations)
    // a first activation adds one row and one use; a repeat changes nothing
    ensures r.Ok? && FindActivation(old(db.activations), userId, promoId).None? ==>
              var p := old(db.promos[promoId]);
              db.activations == old(db.activations) + [ActivationRow(userId, promoId, p.usedCount, 1, now)] &&
              db.promos == old(db.promos)[promoId := p.(usedCount := p.usedCount + 1)]
    ensures r.Ok? && FindActivation(old(db.activations), userId, promoId).Some? ==>
              db.promos == old(db.promos) && db.activations == old(db.activations)
    // the code returned is the one at the position recorded for this user
    ensures r.Ok? ==>
              var i := FindActivation(db.activations, userId, promoId);
              i.Some? && promoId in db.promos &&
              (db.promos[promoId].mode == Unique ==> db.activations[i.value].slot < |Pool(db.promos[promoId])|) &&
              r.value == CodeAt(db.promos[promoId], db.activations[i.value].slot)
  {
    attempts := 0;
    if userId !in db.users {
      return Err(NotFound), 0;
    }
    if promoId !in db.promos || !ActivationGate(db.promos[promoId], today) {
      return Err(Forbidden), 0;
    }
    var verdict;
    verdict, attempts := cache.CallAntifraud(db.users[userId].email, promoId, now, reply);
    assert db.promos == old(db.promos) && db.activations == old(db.activations) && db.users == old(db.users);
    if verdict.Err? {
      return Err(verdict.error), attempts;
    }
    if verdict.value.ok != Some(true) {
      return Err(Forbidden), attempts;
    }
    var code := RecordActivation(db, userId, promoId, now);
    r := Ok(code);
  }

  // ---------------------------------------------------------------------------------
  // History

  /** One entry of the activation history. */
  datatype HistoryItem = HistoryItem(
    promoId: Uuid,
    companyId: Uuid,
    companyName: string,
    description: string,
    active: bool,
    isActivatedByUser: bool,
    likeCount: int,
    isLikedByUser: bool,
    commentCount: int,
    imageUrl: Option<string>)

  function HistoryItemFor(p: PromoRow, userId: Uuid, likes: set<(Uuid, Uuid)>, today: Date): (r: HistoryItem)
    ensures r.promoId == p.promoId && r.isActivatedByUser
    // the promo's own columns are copied
    ensures r.companyId == p.companyId && r.companyName == p.companyName && r.description == p.description
    ensures r.likeCount == p.likeCount && r.commentCount == p.commentCount
    // `active` is the corrected gate: today in the window and a slot still free
    ensures r.active <==> InWindow(p.activeFrom, p.activeUntil, today) && HasFreeSlot(p)
    ensures r.isLikedByUser <==> (userId, p.promoId) in likes
    // an empty image address is shown as absent
    ensures r.imageUrl.Some? <==> p.imageUrl.Some? && p.imageUrl.value != ""
  {
    HistoryItem(p.promoId, p.companyId, p.companyName, p.description, ActivationGate(p, today), true,
                p.likeCount, (userId, p.promoId) in likes, p.commentCount,
                if p.imageUrl.Some? && p.imageUrl.value != "" then p.imageUrl else None)
  }

  /** The user's rows, most recent activation first, then `OFFSET`/`LIMIT`. */
  function HistoryRows(acts: seq<ActivationRow>, userId: Uuid, offset: nat, limit: nat): seq<ActivationRow>
  {
    var mine := Filter(acts, (a: ActivationRow) => a.userId == userId);
    Page(SortBy(mine, (a: ActivationRow, b: ActivationRow) => a.date >= b.date), offset, limit)
  }

  /** Each row becomes `count` copies of its promo's entry; rows whose promo no longer
      exists contribute nothing. */
  function Expand(rows: seq<ActivationRow>, promos: map<Uuid, PromoRow>, userId: Uuid,
                  likes: set<(Uuid, Uuid)>, today: Date): (r: seq<HistoryItem>)
    ensures forall i :: 0 <= i < |r| ==> r[i].isActivatedByUser
  {
    if rows == [] then []
    else
      var last := rows[|rows| - 1];
      var p := if last.promoId in promos then Some(promos[last.promoId]) else None;
      Expand(rows[..|rows| - 1], promos, userId, likes, today) +
      (if p.Some? then seq(last.count, _ => HistoryItemFor(p.value, userId, likes, today)) else [])
  }

  /** The number of entries: the counts of the rows whose promo still exists. */
  function PresentCount(rows: seq<ActivationRow>, promos: map<Uuid, PromoRow>): nat
  {
    if rows == [] then 0
    else PresentCount(rows[..|rows| - 1], promos) +
         (if rows[|rows| - 1].promoId in promos then rows[|rows| - 1].count else 0)
  }

  lemma {:induction false} ExpandLength(rows: seq<ActivationRow>, promos: map<Uuid, PromoRow>, userId: Uuid,
                                        likes: set<(Uuid, Uuid)>, today: Date)
    ensures |Expand(rows, promos, userId, likes, today)| == PresentCount(rows, promos)
  {
    if rows != [] {
      ExpandLength(rows[..|rows| - 1], promos, userId, likes, today);
    }
  }

  /** `get_promo_history`: 400 (validation) for a `limit` below 1 or a negative `offset`, 404 for a
      missing user; otherwise the expanded page and, as the total, the length of that
      expanded page. */
  method PromoHistory(db: Db, userId: Uuid, offset: int, limit: int, today: Date)
    returns (r: Result<seq<HistoryItem>>, total: nat)
    ensures limit < 1 || offset < 0 ==> r == Err(InvalidRequest)
    ensures limit >= 1 && offset >= 0 && userId !in db.users ==> r == Err(NotFound)
    ensures limit >= 1 && offset >= 0 && userId in db.users ==>
              r == Ok(Expand(HistoryRows(db.activations, userId, offset, limit), db.promos, userId, db.likes, today))
    ensures r.Ok? ==> (limit >= 1 && offset >= 0 &&
              total == |r.value| == PresentCount(HistoryRows(db.activations, userId, offset, limit), db.promos))
  {
    if limit < 1 || offset < 0 {
      return Err(InvalidRequest), 0;
    }
    if userId !in db.users {
      return Err(NotFound), 0;
    }
    var rows := HistoryRows(db.activations, userId, offset, limit);
    var history: seq<HistoryItem> := [];
    var i := 0;
    while i < |rows|
      invariant 0 <= i <= |rows|
      invariant history == Expand(rows[..i], db.promos, userId, db.likes, today)
    {
      var row := rows[i];
      if row.promoId in db.promos {
        var item := HistoryItemFor(db.promos[row.promoId], userId, db.likes, today);
        history := history + seq(row.count, _ => item);
      }
      i := i + 1;
      assert rows[..i][..i - 1] == rows[..i - 1];
    }
    assert rows[..|rows|] == rows;
    ExpandLength(rows, db.promos, userId, db.likes, today);
    r, total := Ok(history), |history|;
  }
}
