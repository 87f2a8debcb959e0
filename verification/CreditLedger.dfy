/** The append-only credit ledger of one org, run one operation at a time: grants, spends and
    sweeps, the soundness invariant they keep, and what it says about balances, forfeiture,
    idempotency and the sweep's pre-filter. */
module CreditLedger {
  import opened CreditBuckets
  import opened Options

  datatype Refusal = NonPositiveAmount | OrgNotFound | InsufficientCredits | AlreadyRecorded

  datatype Outcome = Done | Refused(why: Refusal)

  type Ledger = seq<Entry>

  function Sum(ledger: Ledger): int {
    if ledger == [] then 0 else Sum(ledger[..|ledger| - 1]) + ledger[|ledger| - 1].amount
  }

  /** The two rows collide on a non-empty (reason, ref_type, ref_id). */
  predicate SameKey(e: Entry, f: Entry) {
    e.reason == f.reason && e.refType == f.refType && e.ref == f.ref && !e.ref.NoRef?
  }

  /** ledgerEntryExists */
  predicate HasKey(ledger: Ledger, e: Entry) {
    exists i :: 0 <= i < |ledger| && SameKey(ledger[i], e)
  }

  function Grant(ledger: Ledger, req: Entry): (Outcome, Ledger) {
    if req.amount <= 0 then (Refused(NonPositiveAmount), ledger)
    else if HasKey(ledger, req) then (Refused(AlreadyRecorded), ledger)
    else (Done, ledger + [req])
  }

  function SpendEntry(req: Entry): Entry {
    req.(amount := -req.amount, expiresAt := Never)
  }

  /** The balance is looked at before the idempotency key. */
  function Spend(ledger: Ledger, req: Entry): (Outcome, Ledger) {
    if req.amount <= 0 then (Refused(NonPositiveAmount), ledger)
    else if Sum(ledger) < req.amount then (Refused(InsufficientCredits), ledger)
    else if HasKey(ledger, req) then (Refused(AlreadyRecorded), ledger)
    else (Done, ledger + [SpendEntry(req)])
  }

  /** Some row was written for the same reason, ref type and ref id, and the ref id is not empty. */
  predicate Recorded(ledger: Ledger, reason: Reason, refType: RefType, ref: Ref) {
    ref != NoRef
    && exists i ::
      0 <= i < |ledger| && ledger[i].reason == reason && ledger[i].refType == refType && ledger[i].ref == ref
  }

  /** The idempotency check compares all three columns, and rows without a ref id never collide. */
  lemma {:induction false} KeyExactly(ledger: Ledger, e: Entry)
    ensures HasKey(ledger, e) <==> Recorded(ledger, e.reason, e.refType, e.ref)
  {
    if HasKey(ledger, e) {
      var i :| 0 <= i < |ledger| && SameKey(ledger[i], e);
      assert ledger[i].reason == e.reason && ledger[i].refType == e.refType && ledger[i].ref == e.ref;
    }
    if Recorded(ledger, e.reason, e.refType, e.ref) {
      var i :| 0 <= i < |ledger| && ledger[i].reason == e.reason && ledger[i].refType == e.refType
               && ledger[i].ref == e.ref;
      assert SameKey(ledger[i], e);
    }
  }

  /** Why a grant is refused, and what it writes when it is not. */
  lemma {:induction false} GrantAnswersExactly(ledger: Ledger, req: Entry)
    ensures var (outcome, after) := Grant(ledger, req);
            var known := Recorded(ledger, req.reason, req.refType, req.ref);
            && (outcome == Refused(NonPositiveAmount) <==> req.amount <= 0)
            && (outcome == Refused(AlreadyRecorded) <==> req.amount > 0 && known)
            && (outcome == Done <==> req.amount > 0 && !known)
            && after == if outcome == Done then ledger + [req] else ledger
  {
    KeyExactly(ledger, req);
  }

  /** Why a spend is refused, the amount before the balance and the balance before the key; what is
      written otherwise is a permanent debit under the caller's key. */
  lemma {:induction false} SpendAnswersExactly(ledger: Ledger, req: Entry)
    ensures var (outcome, after) := Spend(ledger, req);
            var known := Recorded(ledger, req.reason, req.refType, req.ref);
            && (outcome == Refused(NonPositiveAmount) <==> req.amount <= 0)
            && (outcome == Refused(InsufficientCredits) <==> 0 < req.amount && Sum(ledger) < req.amount)
            && (outcome == Refused(AlreadyRecorded) <==> 0 < req.amount <= Sum(ledger) && known)
            && (outcome == Done <==> 0 < req.amount <= Sum(ledger) && !known)
            && after == if outcome != Done then ledger else
                 ledger + [Entry(req.id, -req.amount, req.reason, req.refType, req.ref, Never, req.createdAt)]
  {
    KeyExactly(ledger, req);
  }

  /** The bucket has expired before `now` and still holds credit. */
  predicate Due(b: BucketView, now: int) {
    b.expiresAt.At? && b.expiresAt.time < now && b.remaining > 0
  }

  function OffsetEntry(b: BucketView, id: Id, at: int): Entry {
    Entry(id, -b.remaining, ExpiryReason, ExpiredGrant, RowRef(b.entryId), Never, at)
  }

  /** What a sweep appends for the first k buckets: one offset for each bucket that is due, unless
      the unique index already holds its key. */
  function Offsets(ledger: Ledger, bs: seq<BucketView>, now: int, at: int, serial: Id, k: nat): Ledger
    requires k <= |bs|
  {
    if k == 0 then []
    else
      var done := Offsets(ledger, bs, now, at, serial, k - 1);
      var offset := OffsetEntry(bs[k - 1], serial + k, at);
      if Due(bs[k - 1], now) && !HasKey(ledger + done, offset) then done + [offset] else done
  }

  function Sweep(ledger: Ledger, now: int, at: int, serial: Id): Ledger {
    var bs := Replay(ledger);
    ledger + Offsets(ledger, bs, now, at, serial, |bs|)
  }

  // ---------------------------------------------------------------- soundness

  predicate UniqueIds(bs: seq<BucketView>) {
    forall i, j :: 0 <= i < j < |bs| ==> bs[i].entryId != bs[j].entryId
  }

  predicate UniqueKeys(ledger: Ledger) {
    forall i, j :: 0 <= i < j < |ledger| ==> !SameKey(ledger[i], ledger[j])
  }

  /** The row's effect on the buckets is exact: a spend is covered by what the buckets hold, an
      offset empties the bucket it names, and nothing is clamped or left undeducted. */
  ghost predicate Exact(bs: seq<BucketView>, e: Entry) {
    || e.amount > 0
    || (e.amount < 0 && !Reserved(e) && -e.amount <= Total(bs))
    || (IsOffset(e) && e.ref.RowRef? && Find(bs, e.ref.id).Some?
        && bs[Find(bs, e.ref.id).value].remaining == -e.amount)
  }

  ghost predicate AllExact(ledger: Ledger) {
    ledger == [] || (AllExact(ledger[..|ledger| - 1]) && Exact(Replay(ledger[..|ledger| - 1]), ledger[|ledger| - 1]))
  }

  /** Some bucket of this grant exists and is empty. */
  predicate Emptied(bs: seq<BucketView>, id: Id) {
    exists i :: 0 <= i < |bs| && bs[i].entryId == id && bs[i].remaining == 0
  }

  predicate OffsetsSettled(ledger: Ledger, bs: seq<BucketView>) {
    forall i :: 0 <= i < |ledger| && Reserved(ledger[i]) ==>
      ledger[i].ref.RowRef? && Emptied(bs, ledger[i].ref.id)
  }

  /** The money side of soundness; it does not depend on the unique index. */
  ghost predicate Solvent(ledger: Ledger) {
    && AllExact(ledger)
    && UniqueIds(Replay(ledger))
    && OffsetsSettled(ledger, Replay(ledger))
  }

  ghost predicate Sound(ledger: Ledger) {
    Solvent(ledger) && UniqueKeys(ledger)
  }

  lemma {:induction false} SumAppend(ledger: Ledger, e: Entry)
    ensures Sum(ledger + [e]) == Sum(ledger) + e.amount
  {
    assert (ledger + [e])[..|ledger|] == ledger;
  }

  lemma {:induction false} ReplayEntryNonNegative(bs: seq<BucketView>, e: Entry)
    requires NonNegative(bs)
    ensures NonNegative(ReplayEntry(bs, e)) && |bs| <= |ReplayEntry(bs, e)|
    ensures SameGrants(bs, ReplayEntry(bs, e)[..|bs|])
    ensures forall i :: 0 <= i < |bs| ==> ReplayEntry(bs, e)[i].remaining <= bs[i].remaining
  {
    if e.amount < 0 && !IsOffset(e) {
      DeductionFrame(bs, -e.amount);
    }
  }

  /** No ledger at all replays to a negative bucket. */
  lemma {:induction false} ReplayNonNegative(ledger: Ledger)
    ensures NonNegative(Replay(ledger))
  {
    if ledger != [] {
      ReplayNonNegative(ledger[..|ledger| - 1]);
      ReplayEntryNonNegative(Replay(ledger[..|ledger| - 1]), ledger[|ledger| - 1]);
    }
  }

  /** The buckets can bear the row: a spend is covered by their total, an offset by the bucket it names. */
  ghost predicate Covered(bs: seq<BucketView>, e: Entry) {
    || e.amount > 0
    || (e.amount < 0 && !Reserved(e) && -e.amount <= Total(bs))
    || (IsOffset(e) && e.ref.RowRef? && Find(bs, e.ref.id).Some?
        && -e.amount <= bs[Find(bs, e.ref.id).value].remaining)
  }

  ghost predicate AllCovered(ledger: Ledger) {
    ledger == []
    || (AllCovered(ledger[..|ledger| - 1]) && Covered(Replay(ledger[..|ledger| - 1]), ledger[|ledger| - 1]))
  }

  lemma {:induction false} ExactIsCovered(ledger: Ledger)
    requires AllExact(ledger)
    ensures AllCovered(ledger)
  {
    if ledger != [] {
      ExactIsCovered(ledger[..|ledger| - 1]);
    }
  }

  /** A covered row changes the buckets' total by its amount. */
  lemma {:induction false} CoveredStepConserves(bs: seq<BucketView>, e: Entry)
    requires NonNegative(bs) && Covered(bs, e)
    ensures Total(ReplayEntry(bs, e)) == Total(bs) + e.amount
  {
    if e.amount > 0 {
      var b := BucketView(e.id, e.expiresAt, e.amount, e.createdAt);
      assert (bs + [b])[..|bs|] == bs;
    } else if IsOffset(e) {
      var i := Find(bs, e.ref.id).value;
      SumUpdate(bs, i, bs[i].remaining + e.amount, Any());
    } else {
      DeductionLaw(bs, -e.amount, Any());
    }
  }

  /** Conservation: as long as every row is covered, the buckets of the replay hold exactly the
      ledger's balance. */
  lemma {:induction false} CoveredConservation(ledger: Ledger)
    requires AllCovered(ledger)
    ensures Total(Replay(ledger)) == Sum(ledger) >= 0
  {
    ReplayNonNegative(ledger);
    SumNonNegative(Replay(ledger), Any());
    if ledger != [] {
      var init := ledger[..|ledger| - 1];
      CoveredConservation(init);
      ReplayNonNegative(init);
      CoveredStepConserves(Replay(init), ledger[|ledger| - 1]);
    }
  }

  lemma {:induction false} Conservation(ledger: Ledger)
    requires AllExact(ledger)
    ensures Total(Replay(ledger)) == Sum(ledger) >= 0
  {
    ExactIsCovered(ledger);
    CoveredConservation(ledger);
  }

  /** Every row of a ledger with only exact rows was exact when it was written: no spend left a
      rest undeducted and no offset was clamped. */
  lemma {:induction false} NothingClamped(ledger: Ledger, i: nat)
    requires AllExact(ledger) && i < |ledger|
    ensures Exact(Replay(ledger[..i]), ledger[i])
    ensures Total(Replay(ledger[..i + 1])) == Total(Replay(ledger[..i])) + ledger[i].amount
  {
    var n := |ledger| - 1;
    if i == n {
      assert ledger[..n + 1] == ledger;
      ReplayNonNegative(ledger[..n]);
      CoveredStepConserves(Replay(ledger[..n]), ledger[n]);
    } else {
      assert ledger[..n][..i] == ledger[..i];
      assert ledger[..n][..i + 1] == ledger[..i + 1];
      NothingClamped(ledger[..n], i);
    }
  }

  /** An empty bucket stays empty, whatever rows follow. */
  lemma {:induction false} EmptyStaysEmpty(ledger: Ledger, more: Ledger, i: nat)
    requires i < |Replay(ledger)| && Replay(ledger)[i].remaining == 0
    ensures i < |Replay(ledger + more)| && Replay(ledger + more)[i] == Replay(ledger)[i]
  {
    if more == [] {
      assert ledger + more == ledger;
    } else {
      var init := more[..|more| - 1];
      EmptyStaysEmpty(ledger, init, i);
      assert ledger + more == (ledger + init) + [more[|more| - 1]];
      ReplayAppend(ledger + init, more[|more| - 1]);
      ReplayNonNegative(ledger + init);
      ReplayEntryNonNegative(Replay(ledger + init), more[|more| - 1]);
    }
  }

  /** What a new row must satisfy for the ledger to stay solvent. */
  ghost predicate Admissible(ledger: Ledger, e: Entry) {
    && Exact(Replay(ledger), e)
    && (e.amount > 0 ==> !Reserved(e) && forall i :: 0 <= i < |Replay(ledger)| ==> Replay(ledger)[i].entryId != e.id)
  }

  lemma {:induction false} EmptiedStep(bs: seq<BucketView>, e: Entry, id: Id)
    requires NonNegative(bs) && Emptied(bs, id)
    ensures Emptied(ReplayEntry(bs, e), id)
  {
    var i :| 0 <= i < |bs| && bs[i].entryId == id && bs[i].remaining == 0;
    ReplayEntryNonNegative(bs, e);
    assert ReplayEntry(bs, e)[..|bs|][i] == ReplayEntry(bs, e)[i];
  }

  lemma {:induction false} UniqueIdsStep(bs: seq<BucketView>, e: Entry)
    requires NonNegative(bs) && UniqueIds(bs)
    requires e.amount > 0 ==> forall i :: 0 <= i < |bs| ==> bs[i].entryId != e.id
    ensures UniqueIds(ReplayEntry(bs, e))
  {
    ReplayEntryNonNegative(bs, e);
    if e.amount < 0 && !IsOffset(e) {
      DeductionFrame(bs, -e.amount);
    }
  }

  lemma {:induction false} AppendIsSolvent(ledger: Ledger, e: Entry)
    requires Solvent(ledger) && Admissible(ledger, e)
    ensures Solvent(ledger + [e])
  {
    hide ReplayEntry;
    var bs, after := Replay(ledger), ledger + [e];
    assert after[..|ledger|] == ledger;
    ReplayAppend(ledger, e);
    ReplayNonNegative(ledger);
    UniqueIdsStep(bs, e);
    forall i | 0 <= i < |after| && Reserved(after[i])
      ensures after[i].ref.RowRef? && Emptied(Replay(after), after[i].ref.id)
    {
      if i < |ledger| {
        EmptiedStep(bs, e, ledger[i].ref.id);
      } else {
        OffsetEmpties(bs, e);
      }
    }
  }

  lemma {:induction false} AppendIsSound(ledger: Ledger, e: Entry)
    requires Sound(ledger) && Admissible(ledger, e) && !HasKey(ledger, e)
    ensures Sound(ledger + [e])
  {
    hide Solvent, Admissible;
    AppendIsSolvent(ledger, e);
  }

  lemma {:induction false} OffsetEmpties(bs: seq<BucketView>, e: Entry)
    requires IsOffset(e) && Exact(bs, e)
    ensures e.ref.RowRef? && Emptied(ReplayEntry(bs, e), e.ref.id)
  {
    assert ReplayEntry(bs, e)[Find(bs, e.ref.id).value].remaining == 0;
  }

  // ---------------------------------------------------------------- the operations are sound

  lemma {:induction false} GrantIsSound(ledger: Ledger, req: Entry)
    requires Sound(ledger) && !Reserved(req)
    requires forall i :: 0 <= i < |Replay(ledger)| ==> Replay(ledger)[i].entryId != req.id
    ensures Sound(Grant(ledger, req).1)
  {
    if Grant(ledger, req).0.Done? {
      AppendIsSound(ledger, req);
    }
  }

  lemma {:induction false} SpendIsSound(ledger: Ledger, req: Entry)
    requires Sound(ledger) && !Reserved(req)
    ensures Sound(Spend(ledger, req).1)
  {
    if Spend(ledger, req).0.Done? {
      Conservation(ledger);
      assert HasKey(ledger, SpendEntry(req)) ==> HasKey(ledger, req);
      AppendIsSound(ledger, SpendEntry(req));
    }
  }

  /** The gate and the buckets agree: a keyless or new spend is accepted exactly when the replayed
      buckets can cover it, and then the buckets lose it in attribution order. */
  lemma {:induction false} SpendAgreesWithBuckets(ledger: Ledger, req: Entry)
    requires Sound(ledger) && !Reserved(req)
    ensures Spend(ledger, req).0.Done? <==> 0 < req.amount <= Total(Replay(ledger)) && !HasKey(ledger, req)
    ensures Spend(ledger, req).0.Done? ==>
      Replay(Spend(ledger, req).1) == Deduct(Replay(ledger), req.amount)
    ensures !Spend(ledger, req).0.Done? ==> Spend(ledger, req).1 == ledger
  {
    Conservation(ledger);
    ReplayAppend(ledger, SpendEntry(req));
  }

  lemma {:induction false} FindUnique(bs: seq<BucketView>, i: nat)
    requires UniqueIds(bs) && i < |bs|
    ensures Find(bs, bs[i].entryId) == Some(i)
  {
  }

  /** The buckets after the sweep has dealt with the first k of them. */
  function ForfeitFirst(bs: seq<BucketView>, now: int, k: nat): (r: seq<BucketView>)
    ensures |r| == |bs|
  {
    seq(|bs|, i requires 0 <= i < |bs| => if i < k && Due(bs[i], now) then bs[i].(remaining := 0) else bs[i])
  }

  function Forfeit(bs: seq<BucketView>, now: int): seq<BucketView> {
    ForfeitFirst(bs, now, |bs|)
  }

  /** The bucket that an offset names is empty. */
  lemma {:induction false} OffsetBucketIsEmpty(ledger: Ledger, j: nat, i: nat)
    requires Solvent(ledger) && j < |ledger| && Reserved(ledger[j])
    requires i < |Replay(ledger)| && ledger[j].ref == RowRef(Replay(ledger)[i].entryId)
    ensures Replay(ledger)[i].remaining == 0
  {
    var bs := Replay(ledger);
    var m :| 0 <= m < |bs| && bs[m].entryId == bs[i].entryId && bs[m].remaining == 0;
    assert m == i;
  }

  /** An offset for a bucket that still holds credit cannot collide with an earlier one. */
  lemma {:induction false} OffsetKeyIsFresh(ledger: Ledger, i: nat, id: Id, at: int)
    requires Solvent(ledger) && i < |Replay(ledger)| && Replay(ledger)[i].remaining > 0
    ensures !HasKey(ledger, OffsetEntry(Replay(ledger)[i], id, at))
  {
    forall j | 0 <= j < |ledger|
      ensures !SameKey(ledger[j], OffsetEntry(Replay(ledger)[i], id, at))
    {
      if SameKey(ledger[j], OffsetEntry(Replay(ledger)[i], id, at)) {
        OffsetBucketIsEmpty(ledger, j, i);
      }
    }
  }

  /** Offsetting bucket i of a sound ledger sets that bucket to 0 and touches no other. */
  lemma {:induction false} OffsetStep(ledger: Ledger, i: nat, id: Id, at: int)
    requires Solvent(ledger) && i < |Replay(ledger)| && Replay(ledger)[i].remaining > 0
    ensures Solvent(ledger + [OffsetEntry(Replay(ledger)[i], id, at)])
    ensures Replay(ledger + [OffsetEntry(Replay(ledger)[i], id, at)])
         == Replay(ledger)[i := Replay(ledger)[i].(remaining := 0)]
  {
    var bs := Replay(ledger);
    var e := OffsetEntry(bs[i], id, at);
    FindUnique(bs, i);
    ReplayAppend(ledger, e);
    AppendIsSolvent(ledger, e);
  }

  lemma {:induction false} ForfeitStep(bs: seq<BucketView>, now: int, k: nat)
    requires 0 < k <= |bs|
    ensures ForfeitFirst(bs, now, k - 1)[k - 1] == bs[k - 1]
    ensures ForfeitFirst(bs, now, k)
         == if Due(bs[k - 1], now) then ForfeitFirst(bs, now, k - 1)[k - 1 := bs[k - 1].(remaining := 0)]
            else ForfeitFirst(bs, now, k - 1)
  {
  }

  /** The offsets of a sweep when no insert collides. */
  function DueOffsets(bs: seq<BucketView>, now: int, at: int, serial: Id, k: nat): Ledger
    requires k <= |bs|
  {
    if k == 0 then []
    else DueOffsets(bs, now, at, serial, k - 1)
         + if Due(bs[k - 1], now) then [OffsetEntry(bs[k - 1], serial + k, at)] else []
  }

  /** Each row's key is new to the ledger and to the rows before it. */
  predicate NewKeys(ledger: Ledger, more: Ledger) {
    forall i :: 0 <= i < |more| ==> !HasKey(ledger + more[..i], more[i])
  }

  lemma {:induction false} NewKeysStep(ledger: Ledger, more: Ledger, e: Entry)
    requires NewKeys(ledger, more) && !HasKey(ledger + more, e)
    ensures NewKeys(ledger, more + [e])
  {
    assert (more + [e])[..|more|] == more;
    forall i | 0 <= i < |more|
      ensures !HasKey(ledger + (more + [e])[..i], more[i])
    {
      assert (more + [e])[..i] == more[..i];
    }
  }

  /** The first k buckets of a sweep over a solvent ledger: no insert collides with the unique index,
      the ledger stays solvent, and exactly the due buckets among the k are emptied. */
  lemma {:induction false} SweepPrefix(ledger: Ledger, now: int, at: int, serial: Id, k: nat)
    requires Solvent(ledger) && k <= |Replay(ledger)|
    ensures var more := DueOffsets(Replay(ledger), now, at, serial, k);
            && Offsets(ledger, Replay(ledger), now, at, serial, k) == more
            && NewKeys(ledger, more)
            && Solvent(ledger + more)
            && Replay(ledger + more) == ForfeitFirst(Replay(ledger), now, k)
    decreases k
  {
    hide Solvent, Replay, HasKey, NewKeys;
    var bs := Replay(ledger);
    if k == 0 {
      assert ledger + [] == ledger;
      assert ForfeitFirst(bs, now, 0) == bs;
      NoNewKeys(ledger);
    } else {
      var done := DueOffsets(bs, now, at, serial, k - 1);
      SweepPrefix(ledger, now, at, serial, k - 1);
      ForfeitStep(bs, now, k);
      if Due(bs[k - 1], now) {
        var offset := OffsetEntry(bs[k - 1], serial + k, at);
        OffsetKeyIsFresh(ledger + done, k - 1, serial + k, at);
        OffsetStep(ledger + done, k - 1, serial + k, at);
        NewKeysStep(ledger, done, offset);
        assert ledger + (done + [offset]) == (ledger + done) + [offset];
      } else {
        assert done + [] == done;
      }
    }
  }

  lemma {:induction false} NoNewKeys(ledger: Ledger)
    ensures NewKeys(ledger, [])
  {
  }

  /** Rows with new keys keep the keys of a ledger unique. */
  lemma {:induction false} NewKeysKeepUnique(ledger: Ledger, more: Ledger)
    requires UniqueKeys(ledger) && NewKeys(ledger, more)
    ensures UniqueKeys(ledger + more)
  {
    var all := ledger + more;
    forall i, j | 0 <= i < j < |all|
      ensures !SameKey(all[i], all[j])
    {
      if j >= |ledger| {
        var before := ledger + more[..j - |ledger|];
        assert !HasKey(before, more[j - |ledger|]);
        assert before[i] == all[i];
      }
    }
  }

  /** A sweep is exact: every bucket expiring before `now` is emptied, every other one keeps what it
      had, and the balance becomes the unexpired remainder. */
  lemma {:induction false} SweepIsExact(ledger: Ledger, now: int, at: int, serial: Id)
    requires Sound(ledger)
    ensures Sound(Sweep(ledger, now, at, serial))
    ensures Replay(Sweep(ledger, now, at, serial)) == Forfeit(Replay(ledger), now)
    ensures Sum(Sweep(ledger, now, at, serial)) == Late(Replay(ledger), At(now))
  {
    var bs := Replay(ledger);
    SweepPrefix(ledger, now, at, serial, |bs|);
    NewKeysKeepUnique(ledger, DueOffsets(bs, now, at, serial, |bs|));
    Conservation(Sweep(ledger, now, at, serial));
    ReplayNonNegative(ledger);
    ForfeitSum(bs, now, Any(), NoSooner(At(now)));
  }

  /** Forfeiture keeps, of each class of expiries, the part that expires at `now` or later. */
  lemma {:induction false} ForfeitSum(bs: seq<BucketView>, now: int, p: Expiry -> bool, q: Expiry -> bool)
    requires NonNegative(bs)
    requires forall x :: q(x) <==> p(x) && NoLaterThan(At(now), x)
    ensures SumWhere(Forfeit(bs, now), p) == SumWhere(bs, q)
  {
    if bs != [] {
      var n := |bs| - 1;
      ForfeitSum(bs[..n], now, p, q);
      assert Forfeit(bs, now)[..n] == Forfeit(bs[..n], now);
    }
  }

  /** A second sweep at the same or an earlier time appends nothing. */
  lemma {:induction false} SweepIsIdempotent(ledger: Ledger, now: int, at: int, serial: Id, again: int,
        at': int, serial': Id)
    requires Sound(ledger) && again <= now
    ensures Sweep(Sweep(ledger, now, at, serial), again, at', serial') == Sweep(ledger, now, at, serial)
  {
    var swept := Sweep(ledger, now, at, serial);
    SweepIsExact(ledger, now, at, serial);
    NothingDueNoOffsets(swept, Replay(swept), again, at', serial', |Replay(swept)|);
  }

  lemma {:induction false} NothingDueNoOffsets(
      ledger: Ledger, bs: seq<BucketView>, now: int, at: int, serial: Id, k: nat)
    requires k <= |bs| && forall i :: 0 <= i < |bs| ==> !Due(bs[i], now)
    ensures Offsets(ledger, bs, now, at, serial, k) == []
  {
    if k > 0 {
      NothingDueNoOffsets(ledger, bs, now, at, serial, k - 1);
    }
  }

  /** Once a grant has an expiry offset, its bucket is empty in every later ledger and no later sweep
      writes another offset for it; so the unique index is never hit. */
  lemma {:induction false} OffsetIsFinal(ledger: Ledger, j: nat, more: Ledger)
    requires Sound(ledger) && Sound(ledger + more) && j < |ledger| && IsOffset(ledger[j])
    ensures ledger[j].ref.RowRef? && Emptied(Replay(ledger + more), ledger[j].ref.id)
    ensures forall m :: 0 <= m < |ledger + more| && m != j && IsOffset((ledger + more)[m]) ==>
      (ledger + more)[m].ref != ledger[j].ref
  {
    var bs, id := Replay(ledger), ledger[j].ref.id;
    var i :| 0 <= i < |bs| && bs[i].entryId == id && bs[i].remaining == 0;
    EmptyStaysEmpty(ledger, more, i);
    forall m | 0 <= m < |ledger + more| && m != j && IsOffset((ledger + more)[m])
      ensures (ledger + more)[m].ref != ledger[j].ref
    {
      assert ledger[j] == (ledger + more)[j];
      assert m < j ==> !SameKey((ledger + more)[m], (ledger + more)[j]);
      assert j < m ==> !SameKey((ledger + more)[j], (ledger + more)[m]);
    }
  }

  // ---------------------------------------------------------------- the sweep's pre-filter

  /** The query's inner NOT EXISTS: no expiry row names this grant. */
  predicate HasOffset(ledger: Ledger, id: Id) {
    exists j :: 0 <= j < |ledger| && Reserved(ledger[j]) && ledger[j].ref == RowRef(id)
  }

  /** The org has an expired grant without an offset: the rows the query selects. */
  predicate Candidate(ledger: Ledger, now: int) {
    exists i :: 0 <= i < |ledger| && ledger[i].amount > 0 && ledger[i].expiresAt.At?
                && ledger[i].expiresAt.time < now && !HasOffset(ledger, ledger[i].id)
  }

  lemma {:induction false} BucketComesFromGrant(ledger: Ledger, i: nat) returns (k: nat)
    requires i < |Replay(ledger)|
    ensures k < |ledger| && ledger[k].amount > 0
    ensures ledger[k].id == Replay(ledger)[i].entryId && ledger[k].expiresAt == Replay(ledger)[i].expiresAt
    ensures ledger[k].createdAt == Replay(ledger)[i].createdAt
  {
    var n := |ledger| - 1;
    var bs, e := Replay(ledger[..n]), ledger[n];
    ReplayNonNegative(ledger[..n]);
    ReplayEntryNonNegative(bs, e);
    if i < |bs| {
      assert ReplayEntry(bs, e)[..|bs|][i] == ReplayEntry(bs, e)[i];
      k := BucketComesFromGrant(ledger[..n], i);
    } else {
      if e.amount < 0 && !IsOffset(e) {
        DeductionFrame(bs, -e.amount);
      }
      k := n;
    }
  }

  /** The pre-filter is complete: a sound ledger it skips has nothing to forfeit. */
  lemma {:induction false} PrefilterIsComplete(ledger: Ledger, now: int, i: nat)
    requires Sound(ledger) && !Candidate(ledger, now) && i < |Replay(ledger)|
    ensures !Due(Replay(ledger)[i], now)
  {
    var k := BucketComesFromGrant(ledger, i);
    if HasOffset(ledger, ledger[k].id) {
      var j :| 0 <= j < |ledger| && Reserved(ledger[j]) && ledger[j].ref == RowRef(ledger[k].id);
      OffsetBucketIsEmpty(ledger, j, i);
    }
  }

  // ---------------------------------------------------------------- runs and retries

  datatype Op = GrantOp(req: Entry) | SpendOp(req: Entry) | SweepOp(now: int, at: int, serial: Id)

  function Apply(ledger: Ledger, op: Op): (Outcome, Ledger) {
    match op
    case GrantOp(req) => Grant(ledger, req)
    case SpendOp(req) => Spend(ledger, req)
    case SweepOp(now, at, serial) => (Done, Sweep(ledger, now, at, serial))
  }

  function RunFrom(ledger: Ledger, ops: seq<Op>): Ledger {
    if ops == [] then ledger else Apply(RunFrom(ledger, ops[..|ops| - 1]), ops[|ops| - 1]).1
  }

  function Run(ops: seq<Op>): Ledger { RunFrom([], ops) }

  /** Callers leave the reserved reason and ref type to the sweep, and row ids are fresh. */
  predicate Legal(ledger: Ledger, op: Op) {
    && (op.GrantOp? || op.SpendOp? ==> !Reserved(op.req))
    && (op.GrantOp? ==> forall i :: 0 <= i < |ledger| ==> ledger[i].id != op.req.id)
  }

  predicate LegalRun(ops: seq<Op>) {
    forall i :: 0 <= i < |ops| ==> Legal(Run(ops[..i]), ops[i])
  }

  lemma {:induction false} StepIsSound(ledger: Ledger, op: Op)
    requires Sound(ledger) && Legal(ledger, op)
    ensures Sound(Apply(ledger, op).1)
  {
    match op
    case GrantOp(req) =>
      forall i | 0 <= i < |Replay(ledger)|
        ensures Replay(ledger)[i].entryId != req.id
      {
        var k := BucketComesFromGrant(ledger, i);
      }
      GrantIsSound(ledger, req);
    case SpendOp(req) => SpendIsSound(ledger, req);
    case SweepOp(now, at, serial) => SweepIsExact(ledger, now, at, serial);
  }

  lemma {:induction false} LegalRunPrefix(ops: seq<Op>)
    requires LegalRun(ops) && ops != []
    ensures LegalRun(ops[..|ops| - 1]) && Legal(Run(ops[..|ops| - 1]), ops[|ops| - 1])
  {
    var init := ops[..|ops| - 1];
    forall i | 0 <= i < |init|
      ensures Legal(Run(init[..i]), init[i])
    {
      assert init[..i] == ops[..i];
    }
  }

  /** In every reachable ledger the two views of the money agree, and the balance is not negative. */
  lemma {:induction false} ReachableIsSound(ops: seq<Op>)
    requires LegalRun(ops)
    ensures Sound(Run(ops))
    ensures Total(Replay(Run(ops))) == Sum(Run(ops)) >= 0
  {
    if ops != [] {
      LegalRunPrefix(ops);
      ReachableIsSound(ops[..|ops| - 1]);
      StepIsSound(Run(ops[..|ops| - 1]), ops[|ops| - 1]);
    }
    Conservation(Run(ops));
  }

  /** Any number of retries of recorded grants and spends, in any order and with any amounts, leaves
      the ledger as it was. */
  lemma {:induction false} RetriesChangeNothing(ledger: Ledger, retries: seq<Op>)
    requires forall i :: 0 <= i < |retries| ==> !retries[i].SweepOp? && HasKey(ledger, retries[i].req)
    ensures RunFrom(ledger, retries) == ledger
  {
    if retries != [] {
      RetriesChangeNothing(ledger, retries[..|retries| - 1]);
    }
  }

  /** The row a successful request writes. */
  function Written(op: Op): Entry
    requires !op.SweepOp?
  {
    if op.GrantOp? then op.req else SpendEntry(op.req)
  }

  /** The first success of a keyed request is followed by nothing but refusals that change nothing:
      the balance stays as after that success. */
  lemma {:induction false} SuccessThenRetries(ledger: Ledger, first: Op, retries: seq<Op>)
    requires !first.SweepOp? && !first.req.ref.NoRef? && Apply(ledger, first).0.Done?
    requires forall i :: 0 <= i < |retries| ==> !retries[i].SweepOp? && SameKey(retries[i].req, first.req)
    ensures RunFrom(Apply(ledger, first).1, retries) == ledger + [Written(first)]
    ensures Sum(RunFrom(Apply(ledger, first).1, retries)) == Sum(ledger) + Written(first).amount
  {
    hide Sum;
    var after := Apply(ledger, first).1;
    assert after[|ledger|] == Written(first);
    forall i | 0 <= i < |retries|
      ensures HasKey(after, retries[i].req)
    {
      assert SameKey(after[|ledger|], retries[i].req);
    }
    RetriesChangeNothing(after, retries);
    SumAppend(ledger, Written(first));
  }

  /** What a retried spend answers: "already recorded" exactly when the balance would also cover the
      amount again, otherwise "insufficient credits". */
  lemma {:induction false} RetriedSpendAnswer(ledger: Ledger, req: Entry)
    requires req.amount > 0 && HasKey(ledger, req)
    ensures Spend(ledger, req).0 == Refused(AlreadyRecorded) <==> Sum(ledger) >= req.amount
    ensures Spend(ledger, req).0 == Refused(InsufficientCredits) <==> Sum(ledger) < req.amount
  {
  }

  /** Spending the whole balance and retrying: the second call answers "insufficient credits". */
  lemma {:induction false} RetryOfAllCredit()
    ensures var spend := Entry(2, 5, LlmTokens, OtherRefType("batch"), TextRef("b1"), Never, 1);
            var ledger := Grant([], Entry(1, 5, Topup, Signup, NoRef, Never, 0)).1;
            && Spend(ledger, spend).0 == Done
            && Spend(Spend(ledger, spend).1, spend).0 == Refused(InsufficientCredits)
  {
    var granted := Entry(1, 5, Topup, Signup, NoRef, Never, 0);
    var spend := Entry(2, 5, LlmTokens, OtherRefType("batch"), TextRef("b1"), Never, 1);
    SumAppend([], granted);
    assert [] + [granted] == [granted];
    SumAppend([granted], SpendEntry(spend));
  }
}
