/** The pre-filter among late grants: as long as committed sweeps do not go back in time, an org that it
    skips has nothing to forfeit. */
module CreditPrefilter {
  import opened CreditBuckets
  import opened CreditInterleaving
  import opened CreditLedger
  import opened CreditOrder
  import opened Options

  // ---------------------------------------------------------------- buckets in front of one

  /** x is drained no later than t. */
  predicate InFront(x: BucketView, t: BucketView) {
    !Before(t, x)
  }

  /** As Within, the further buckets all being drained after t: in front of t nothing differs. */
  ghost predicate FrontAlike(bs: seq<BucketView>, cs: seq<BucketView>, f: seq<nat>, t: BucketView) {
    && Within(bs, cs, f)
    && (forall i :: 0 <= i < |f| && InFront(bs[i], t) ==> cs[f[i]] == bs[i])
    && (forall k :: 0 <= k < |cs| && InFront(cs[k], t) ==> k in f)
  }

  /** The first holder of credit is drained no later than any other. */
  lemma {:induction false} FirstIsInFront(cs: seq<BucketView>, k: nat, j: nat, t: BucketView)
    requires IsFirst(cs, k) && j < |cs| && cs[j].remaining > 0 && InFront(cs[j], t)
    ensures InFront(cs[k], t)
  {
    BeforeIsStrictWeakOrder(t, cs[j], cs[k]);
  }

  lemma {:induction false} UnitFront(bs: seq<BucketView>, cs: seq<BucketView>, f: seq<nat>, t: BucketView, i: nat,
                                     k: nat)
    requires FrontAlike(bs, cs, f, t) && IsFirst(bs, i) && IsFirst(cs, k)
    ensures FrontAlike(TakeFrom(bs, i, 1), TakeFrom(cs, k, 1), f, t)
  {
    UnitWithin(bs, cs, f, i, k);
    var bs', cs' := TakeFrom(bs, i, 1), TakeFrom(cs, k, 1);
    assert cs[f[i]].remaining > 0;
    forall j | 0 <= j < |f| && InFront(bs'[j], t)
      ensures cs'[f[j]] == bs'[j]
    {
      assert InFront(bs[j], t);
      SameFirst(bs, cs, f, t, i, k, j);
    }
  }

  /** In front of t both take the unit from the same bucket. */
  lemma {:induction false} SameFirst(bs: seq<BucketView>, cs: seq<BucketView>, f: seq<nat>, t: BucketView, i: nat,
                                     k: nat, j: nat)
    requires FrontAlike(bs, cs, f, t) && IsFirst(bs, i) && IsFirst(cs, k) && j < |f| && InFront(bs[j], t)
    ensures j == i <==> f[j] == k
  {
    assert cs[f[i]].remaining > 0 && cs[f[j]] == bs[j];
    if j == i {
      FirstIsInFront(cs, k, f[i], t);
      var m :| 0 <= m < |f| && f[m] == k;
      FirstsAgree(bs, cs, f, i, k, m);
    } else if f[j] == k {
      FirstsAgree(bs, cs, f, i, k, j);
    }
  }

  lemma {:induction false} FirstsAgree(bs: seq<BucketView>, cs: seq<BucketView>, f: seq<nat>, i: nat, k: nat, m: nat)
    requires Within(bs, cs, f) && IsFirst(bs, i) && IsFirst(cs, k) && m < |f| && f[m] == k && bs[m].remaining > 0
    ensures m == i
  {
    var a, c := f[i], f[m];
    assert cs[a].remaining > 0;
    assert i < m ==> a < c;
    assert m < i ==> c < a;
  }

  lemma {:induction false} DeductFront(bs: seq<BucketView>, cs: seq<BucketView>, f: seq<nat>, t: BucketView,
                                       amount: int)
    requires FrontAlike(bs, cs, f, t) && NonNegative(bs) && NonNegative(cs)
    ensures FrontAlike(Deduct(bs, amount), Deduct(cs, amount), f, t)
    decreases amount
  {
    hide Deduct;
    if amount <= 0 {
      DeductionDone(bs, amount);
      DeductionDone(cs, amount);
    } else if !HasCredit(bs) {
      DeductionDone(bs, amount);
      DeductionFrame(cs, amount);
    } else {
      var i := First(bs);
      assert cs[f[i]].remaining > 0;
      DeductUnit(bs, amount);
      DeductUnit(cs, amount);
      UnitFront(bs, cs, f, t, i, First(cs));
      DeductFront(TakeFrom(bs, i, 1), TakeFrom(cs, First(cs), 1), f, t, amount - 1);
    }
  }

  lemma {:induction false} OffsetFront(bs: seq<BucketView>, cs: seq<BucketView>, f: seq<nat>, t: BucketView, e: Entry)
    requires FrontAlike(bs, cs, f, t) && UniqueIds(cs) && IsOffset(e) && e.ref.RowRef? && Find(bs, e.ref.id).Some?
    ensures FrontAlike(ReplayEntry(bs, e), ReplayEntry(cs, e), f, t)
  {
    hide Deduct;
    FindUnique(cs, f[Find(bs, e.ref.id).value]);
  }

  lemma {:induction false} GrantFront(bs: seq<BucketView>, cs: seq<BucketView>, f: seq<nat>, t: BucketView,
                                      b: BucketView)
    requires FrontAlike(bs, cs, f, t)
    ensures FrontAlike(bs + [b], cs + [b], f + [|cs|], t)
    ensures !InFront(b, t) ==> FrontAlike(bs, cs + [b], f, t)
  {
    GrantWithin(bs, cs, f, b);
    assert (f + [|cs|])[|f|] == |cs|;
    assert forall k :: k in f ==> k in f + [|cs|];
  }

  /** Every offset names a bucket that is there. */
  ghost predicate Named(ledger: Ledger) {
    ledger == []
    || (Named(ledger[..|ledger| - 1])
        && var e := ledger[|ledger| - 1];
           IsOffset(e) ==> e.ref.RowRef? && Find(Replay(ledger[..|ledger| - 1]), e.ref.id).Some?)
  }

  lemma {:induction false} CoveredIsNamed(ledger: Ledger)
    requires AllCovered(ledger)
    ensures Named(ledger)
  {
    if ledger != [] {
      CoveredIsNamed(ledger[..|ledger| - 1]);
    }
  }

  /** Further grants that are drained after t change nothing in front of t. */
  lemma {:induction false} GrantsAfter(base: Ledger, ledger: Ledger, t: BucketView) returns (f: seq<nat>)
    requires Ordered(base) && Ordered(ledger) && Since(base, ledger) && DistinctIds(ledger) && Named(base)
    requires forall e :: e in ledger && e !in base ==> !InFront(ViewOf(e), t)
    ensures FrontAlike(Replay(base), Replay(ledger), f, t)
    decreases |ledger|
  {
    hide Ordered, Since, DistinctIds, FrontAlike, InFront;
    if ledger == [] {
      NothingSince(base);
      f := [];
      FrontNothing(t);
    } else {
      var n := |ledger| - 1;
      var last := ledger[n];
      LastRow(base, ledger);
      OrderedPrefix(ledger);
      if last in base {
        OrderedPrefix(base);
        var m := |base| - 1;
        FurtherInPrefix(base, ledger, t);
        f := GrantsAfter(base[..m], ledger[..n], t);
        StepFront(base[..m], ledger[..n], f, t, last);
        if last.amount > 0 {
          f := f + [|Replay(ledger[..n])|];
        }
      } else {
        assert forall e :: e in ledger[..n] ==> e in ledger;
        f := GrantsAfter(base, ledger[..n], t);
        GrantFront(Replay(base), Replay(ledger[..n]), f, t, ViewOf(last));
      }
    }
  }

  lemma {:induction false} FrontNothing(t: BucketView)
    ensures FrontAlike([], [], [], t)
  {
  }

  lemma {:induction false} FurtherInPrefix(base: Ledger, ledger: Ledger, t: BucketView)
    requires base != [] && ledger != [] && base[|base| - 1] == ledger[|ledger| - 1] && Ordered(ledger)
    requires forall e :: e in ledger && e !in base ==> !InFront(ViewOf(e), t)
    ensures forall e :: e in ledger[..|ledger| - 1] && e !in base[..|base| - 1] ==> !InFront(ViewOf(e), t)
  {
    var n, m := |ledger| - 1, |base| - 1;
    forall e | e in ledger[..n] && e !in base[..m]
      ensures e in ledger && e !in base
    {
      assert e.createdAt < ledger[n].createdAt;
      assert base == base[..m] + [base[m]];
    }
  }

  lemma {:induction false} StepFront(base: Ledger, ledger: Ledger, f: seq<nat>, t: BucketView, e: Entry)
    requires FrontAlike(Replay(base), Replay(ledger), f, t) && DistinctIds(ledger)
    requires IsOffset(e) ==> e.ref.RowRef? && Find(Replay(base), e.ref.id).Some?
    ensures FrontAlike(ReplayEntry(Replay(base), e), ReplayEntry(Replay(ledger), e),
                       if e.amount > 0 then f + [|Replay(ledger)|] else f, t)
  {
    hide FrontAlike, Deduct, Replay;
    var bs, cs := Replay(base), Replay(ledger);
    ReplayNonNegative(base);
    ReplayNonNegative(ledger);
    if e.amount > 0 {
      GrantFront(bs, cs, f, t, ViewOf(e));
    } else if IsOffset(e) {
      DistinctBuckets(ledger);
      OffsetFront(bs, cs, f, t, e);
    } else if e.amount < 0 {
      DeductFront(bs, cs, f, t, -e.amount);
    }
  }

  // ---------------------------------------------------------------- since the last sweep

  /** The debits committed since base. */
  function Later(base: Ledger, ledger: Ledger): Ledger {
    if ledger == [] then []
    else
      var last := ledger[|ledger| - 1];
      Later(base, ledger[..|ledger| - 1]) + if last !in base && last.amount < 0 then [last] else []
  }

  lemma {:induction false} LaterRows(base: Ledger, ledger: Ledger)
    requires Ordered(ledger)
    ensures forall e :: e in Later(base, ledger) <==> e in ledger && e !in base && e.amount < 0
    ensures Ordered(Later(base, ledger))
  {
    if ledger != [] {
      var n := |ledger| - 1;
      LaterRows(base, ledger[..n]);
      assert ledger == ledger[..n] + [ledger[n]];
      assert forall e :: e in ledger[..n] ==> e.createdAt < ledger[n].createdAt;
      var before := Later(base, ledger[..n]);
      assert forall i :: 0 <= i < |before| ==> before[i] in before;
    }
  }

  /** base holds the snapshot and the offsets of the last sweep, at `cutoff`; since then the ledger has
      seen grants, anywhere, and spends, behind base.  Every offset names a grant that had expired then,
      and what had expired then is empty in base. */
  ghost predicate Settled(base: Ledger, ledger: Ledger, cutoff: int) {
    && Ordered(base) && AllCovered(base)
    && (forall e :: e in base ==> e in ledger)
    && (forall e :: e in ledger && e !in base ==> !Reserved(e) && e.amount != 0)
    && (forall e, d :: e in ledger && e !in base && e.amount < 0 && d in base ==> d.createdAt < e.createdAt)
    && (forall i :: 0 <= i < |Replay(base)| && Expired(Replay(base)[i], cutoff) ==> Replay(base)[i].remaining == 0)
    && (forall r, g :: r in ledger && g in ledger && Reserved(r) && g.amount > 0 && r.ref == RowRef(g.id) ==>
          g.expiresAt.At? && g.expiresAt.time < cutoff)
  }

  /** An offset of base names a grant of base. */
  lemma {:induction false} NamesOwnGrant(base: Ledger, r: Entry) returns (g: Entry)
    requires AllCovered(base) && r in base && IsOffset(r)
    ensures g in base && g.amount > 0 && r.ref == RowRef(g.id)
  {
    hide Replay;
    var j := IndexOf(base, r);
    CoveredAt(base, j);
    var i := Find(Replay(base[..j]), r.ref.id).value;
    var k := BucketComesFromGrant(base[..j], i);
    g := base[k];
    assert base[..j][k] == base[k];
  }

  lemma {:induction false} SameId(ledger: Ledger, e: Entry, d: Entry)
    requires DistinctIds(ledger) && e in ledger && d in ledger && e.id == d.id
    ensures e == d
  {
    assert ledger[IndexOf(ledger, e)] == e && ledger[IndexOf(ledger, d)] == d;
  }

  lemma {:induction false} WithLater(base: Ledger, ledger: Ledger, cutoff: int)
    requires Settled(base, ledger, cutoff) && Ordered(ledger)
    ensures Ordered(base + Later(base, ledger)) && Since(base + Later(base, ledger), ledger)
    ensures Named(base + Later(base, ledger))
  {
    hide AllCovered, Replay, Named;
    LaterRows(base, ledger);
    CoveredIsNamed(base);
    var later := Later(base, ledger);
    forall i, j | 0 <= i < |base| && 0 <= j < |later|
      ensures base[i].createdAt < later[j].createdAt
    {
      assert base[i] in base && later[j] in later;
    }
    forall j | 0 <= j < |later|
      ensures !Reserved(later[j])
    {
      assert later[j] in later;
    }
    SpendsAreNamed(base, later);
  }

  lemma {:induction false} SpendsAreNamed(base: Ledger, rows: Ledger)
    requires Named(base) && forall j :: 0 <= j < |rows| ==> !Reserved(rows[j])
    ensures Named(base + rows)
  {
    hide Replay;
    if rows == [] {
      assert base + rows == base;
    } else {
      var n := |rows| - 1;
      SpendsAreNamed(base, rows[..n]);
      assert (base + rows)[..|base + rows| - 1] == base + rows[..n];
    }
  }

  /** A grant since base that has expired makes the org a candidate: no offset names it. */
  lemma {:induction false} NewGrantIsCandidate(base: Ledger, ledger: Ledger, cutoff: int, now: int, e: Entry)
    requires Settled(base, ledger, cutoff) && DistinctIds(ledger) && ReservedAreOffsets(ledger)
    requires e in ledger && e !in base && e.amount > 0 && e.expiresAt.At? && e.expiresAt.time < now
    ensures Candidate(ledger, now)
  {
    hide AllCovered, Replay, DistinctIds;
    if HasOffset(ledger, e.id) {
      var j :| 0 <= j < |ledger| && Reserved(ledger[j]) && ledger[j].ref == RowRef(e.id);
      assert ledger[j] in ledger && ledger[j] in base;
      var g := NamesOwnGrant(base, ledger[j]);
      SameId(ledger, e, g);
    }
    var k := IndexOf(ledger, e);
  }

  /** After a sweep at `cutoff`, whatever grants have committed since, an org that the pre-filter skips
      has no due bucket. */
  lemma {:induction false} SkippedHasNothingDue(base: Ledger, ledger: Ledger, cutoff: int, now: int, i: nat)
    requires Settled(base, ledger, cutoff) && Ordered(ledger) && DistinctIds(ledger) && ReservedAreOffsets(ledger)
    requires !Candidate(ledger, now) && i < |Replay(ledger)|
    ensures !Due(Replay(ledger)[i], now)
  {
    hide AllCovered, Replay, DistinctIds, Ordered, Candidate, Named, FrontAlike, ReservedAreOffsets;
    var t := Replay(ledger)[i];
    if Due(t, now) {
      var m := SettledBucket(base, ledger, cutoff, now, i);
      WithLater(base, ledger, cutoff);
      LaterRows(base, ledger);
      var more := base + Later(base, ledger);
      EmptyStaysEmpty(base, Later(base, ledger), m);
      forall e | e in ledger && e !in more
        ensures !InFront(ViewOf(e), t)
      {
        NoFurtherInFront(base, ledger, cutoff, now, t, e);
      }
      var f := GrantsAfter(more, ledger, t);
      DistinctBuckets(ledger);
      SameBucket(Replay(more), Replay(ledger), f, m, i);
    }
  }

  lemma {:induction false} SameBucket(bs: seq<BucketView>, cs: seq<BucketView>, f: seq<nat>, m: nat, i: nat)
    requires i < |cs| && m < |bs| && FrontAlike(bs, cs, f, cs[i]) && UniqueIds(cs) && bs[m].entryId == cs[i].entryId
    ensures cs[i].remaining == bs[m].remaining
  {
    BeforeIsStrictWeakOrder(cs[i], cs[i], cs[i]);
    assert cs[f[m]].entryId == cs[i].entryId;
    assert f[m] == i;
  }

  /** The grant of a due bucket in a skipped org stands in base, where its bucket is empty. */
  lemma {:induction false} SettledBucket(base: Ledger, ledger: Ledger, cutoff: int, now: int, i: nat) returns (m: nat)
    requires Settled(base, ledger, cutoff) && DistinctIds(ledger) && ReservedAreOffsets(ledger)
    requires !Candidate(ledger, now) && i < |Replay(ledger)| && Due(Replay(ledger)[i], now)
    ensures m < |Replay(base)| && Replay(base)[m].entryId == Replay(ledger)[i].entryId && Replay(base)[m].remaining == 0
  {
    hide AllCovered, Replay, DistinctIds;
    var k := BucketComesFromGrant(ledger, i);
    var g := ledger[k];
    assert HasOffset(ledger, g.id);
    var j :| 0 <= j < |ledger| && Reserved(ledger[j]) && ledger[j].ref == RowRef(g.id);
    assert ledger[j] in ledger && ledger[j] in base && g in ledger;
    var own := NamesOwnGrant(base, ledger[j]);
    SameId(ledger, g, own);
    m := GrantHasBucket(base, IndexOf(base, g));
  }

  lemma {:induction false} NoFurtherInFront(base: Ledger, ledger: Ledger, cutoff: int, now: int, t: BucketView,
                                            e: Entry)
    requires Settled(base, ledger, cutoff) && DistinctIds(ledger) && ReservedAreOffsets(ledger) && Ordered(ledger)
    requires !Candidate(ledger, now) && Due(t, now) && e in ledger && e !in base + Later(base, ledger)
    ensures !InFront(ViewOf(e), t)
  {
    hide AllCovered, Replay, DistinctIds, Candidate;
    LaterRows(base, ledger);
    assert e !in base && e.amount > 0;
    if InFront(ViewOf(e), t) {
      BeforeIsStrictWeakOrder(t, ViewOf(e), t);
      NewGrantIsCandidate(base, ledger, cutoff, now, e);
    }
  }

  // ---------------------------------------------------------------- runs whose sweeps do not go back

  predicate CommitsSweep(s: State, ev: Event) {
    ev.Commit? && ProcOf(s, ev.p).SweepLoaded? && ProcOf(s, ev.p).k >= |Replay(ProcOf(s, ev.p).entries)|
  }

  /** The time of the last committed sweep. */
  function LastSweep(s: State, evs: seq<Event>): Option<int> {
    if evs == [] then None
    else
      var before, ev := CreditInterleaving.Run(s, evs[..|evs| - 1]), evs[|evs| - 1];
      if CommitsSweep(before, ev) then Some(ProcOf(before, ev.p).now) else LastSweep(s, evs[..|evs| - 1])
  }

  /** No sweep commits with an older time than one committed before it. */
  predicate SweepsForward(s: State, evs: seq<Event>) {
    evs == []
    || var init, ev := evs[..|evs| - 1], evs[|evs| - 1];
       && SweepsForward(s, init)
       && (CommitsSweep(CreditInterleaving.Run(s, init), ev) && LastSweep(s, init).Some? ==>
             LastSweep(s, init).value <= ProcOf(CreditInterleaving.Run(s, init), ev.p).now)
  }

  /** Spends that are under way are stamped behind base. */
  predicate SpendsBehind(base: Ledger, proc: Proc) {
    proc.SpendStamped? || proc.SpendInserted? ==> forall d :: d in base ==> d.createdAt < proc.row.createdAt
  }

  ghost predicate SinceSweep(s: State, base: Ledger, cutoff: int) {
    Inv(s) && Settled(base, s.ledger, cutoff) && forall p :: p in s.procs ==> SpendsBehind(base, s.procs[p])
  }

  lemma {:induction false} GrantStaysSettled(base: Ledger, ledger: Ledger, placed: Ledger, cutoff: int, row: Entry)
    requires Settled(base, ledger, cutoff) && ReservedAreOffsets(ledger) && DistinctIds(placed)
    requires row.amount > 0 && !Reserved(row) && row !in ledger && forall e :: e in placed <==> e in ledger || e == row
    ensures Settled(base, placed, cutoff)
  {
    hide AllCovered, Replay, DistinctIds, Ordered;
    forall r, g | r in placed && g in placed && Reserved(r) && g.amount > 0 && r.ref == RowRef(g.id)
      ensures g.expiresAt.At? && g.expiresAt.time < cutoff
    {
      assert r in base;
      var own := NamesOwnGrant(base, r);
      SameId(placed, g, own);
    }
  }

  lemma {:induction false} SpendStaysSettled(base: Ledger, ledger: Ledger, placed: Ledger, cutoff: int, row: Entry)
    requires Settled(base, ledger, cutoff) && row.amount < 0 && !Reserved(row)
    requires forall d :: d in base ==> d.createdAt < row.createdAt
    requires forall e :: e in placed <==> e in ledger || e == row
    ensures Settled(base, placed, cutoff)
  {
    hide AllCovered, Replay, Ordered;
  }

  /** What a sweep has forfeited is empty in its own ledger. */
  lemma {:induction false} ForfeitedIsEmpty(bs: seq<BucketView>, now: int, i: nat)
    requires NonNegative(bs) && i < |bs| && Expired(ForfeitFirst(bs, now, |bs|)[i], now)
    ensures ForfeitFirst(bs, now, |bs|)[i].remaining == 0
  {
  }

  lemma {:induction false} SweepSettles(s: State, now: int, entries: Ledger, rows: Ledger, base: Ledger, cutoff: int)
    requires Good(s.ledger, s.indexed, s.clock) && SweepRows(s, now, entries, |Replay(entries)|, rows)
    requires Settled(base, s.ledger, cutoff) && (base == [] || cutoff <= now)
    ensures Settled(entries + rows, PlaceAll(s.ledger, rows), now)
  {
    hide AllCovered, Replay, PlaceAll, HasKey, PairsOvertaken, UniqueRows, UniqueSpends, ForfeitFirst, OffsetsFor,
         Ordered, DistinctIds, Settled;
    var placed, more := PlaceAll(s.ledger, rows), entries + rows;
    CommitSweepIsGood(s, now, entries, |Replay(entries)|, rows);
    RowsAreApart(Replay(entries), now, |Replay(entries)|, rows);
    NumberedIsDistinct(placed, s.clock);
    ReplayNonNegative(entries);
    forall i | 0 <= i < |Replay(more)| && Expired(Replay(more)[i], now)
      ensures Replay(more)[i].remaining == 0
    {
      ForfeitedIsEmpty(Replay(entries), now, i);
    }
    forall r, g | r in placed && g in placed && Reserved(r) && g.amount > 0 && r.ref == RowRef(g.id)
      ensures g.expiresAt.At? && g.expiresAt.time < now
    {
      OffsetsNameExpired(s, now, entries, rows, base, cutoff, r, g);
    }
    assert Settled(more, placed, now) by { MakeSettled(more, placed, now); }
  }

  lemma {:induction false} MakeSettled(base: Ledger, ledger: Ledger, cutoff: int)
    requires Ordered(base) && AllCovered(base) && (forall e :: e in base ==> e in ledger)
    requires forall e :: e in ledger && e !in base ==> e.amount > 0 && !Reserved(e)
    requires forall i :: 0 <= i < |Replay(base)| && Expired(Replay(base)[i], cutoff) ==> Replay(base)[i].remaining == 0
    requires forall r, g :: r in ledger && g in ledger && Reserved(r) && g.amount > 0 && r.ref == RowRef(g.id) ==>
      g.expiresAt.At? && g.expiresAt.time < cutoff
    ensures Settled(base, ledger, cutoff)
  {
    hide AllCovered, Replay, Ordered;
  }

  /** Each offset in the ledger after a sweep names a grant that has expired by the sweep's time. */
  lemma {:induction false} OffsetsNameExpired(s: State, now: int, entries: Ledger, rows: Ledger, base: Ledger,
                                              cutoff: int, r: Entry, g: Entry)
    requires Good(s.ledger, s.indexed, s.clock) && SweepRows(s, now, entries, |Replay(entries)|, rows)
    requires Settled(base, s.ledger, cutoff) && (base == [] || cutoff <= now)
    requires DistinctIds(PlaceAll(s.ledger, rows)) && (forall e :: e in rows ==> IsOffset(e))
    requires forall e :: e in PlaceAll(s.ledger, rows) <==> e in s.ledger || e in rows
    requires r in s.ledger || r in rows
    requires (g in s.ledger || g in rows) && Reserved(r) && g.amount > 0 && r.ref == RowRef(g.id)
    ensures g.expiresAt.At? && g.expiresAt.time < now
  {
    hide AllCovered, Replay, PlaceAll, HasKey, PairsOvertaken, UniqueRows, UniqueSpends, ForfeitFirst, Ordered,
      DistinctIds;
    if r in rows {
      assert NamesBucket(Replay(entries), now, |Replay(entries)|, rows[IndexOf(rows, r)]);
      var m :| 0 <= m < |Replay(entries)| && Due(Replay(entries)[m], now) && r.ref == RowRef(Replay(entries)[m].entryId)
               && r.amount == -Replay(entries)[m].remaining;
      var k := BucketComesFromGrant(entries, m);
      assert entries[k] in entries && entries[k] in s.ledger;
      SameId(PlaceAll(s.ledger, rows), g, entries[k]);
    } else {
      assert r in base;
    }
  }

  lemma {:induction false} GrantCommitStaysSettled(s: State, p: Pid, base: Ledger, cutoff: int)
    requires SinceSweep(s, base, cutoff) && ProcOf(s, p).GrantInserted?
    ensures Settled(base, PlaceAll(s.ledger, PendingRows(ProcOf(s, p))), cutoff)
  {
    hide Inv, Good, Settled, Place, HasKey;
    var row := ProcOf(s, p).row;
    InvParts(s, p);
    PlaceOne(s.ledger, row);
    GrantRowIsKnown(s, row);
    CommitGrantIsGood(s, row);
    PlaceKeeps(s.ledger, row);
    GoodParts(Place(s.ledger, row), s.indexed, s.clock);
    GoodParts(s.ledger, s.indexed, s.clock);
    GrantStaysSettled(base, s.ledger, Place(s.ledger, row), cutoff, row);
  }

  lemma {:induction false} SpendCommitStaysSettled(s: State, p: Pid, base: Ledger, cutoff: int)
    requires SinceSweep(s, base, cutoff) && ProcOf(s, p).SpendInserted?
    ensures Settled(base, PlaceAll(s.ledger, PendingRows(ProcOf(s, p))), cutoff)
  {
    hide Inv, Good, Settled, PlaceAll, Knows, SpendRow;
    var row := ProcOf(s, p).row;
    InvParts(s, p);
    SpendInsertedIsKnown(s, row);
    CommitSpendIsGood(s, row);
    assert SpendsBehind(base, s.procs[p]);
    SpendIsDebit(s, row);
    SpendStaysSettled(base, s.ledger, PlaceAll(s.ledger, [row]), cutoff, row);
  }

  lemma {:induction false} SweepCommitSettles(s: State, p: Pid, base: Ledger, cutoff: int)
    requires SinceSweep(s, base, cutoff) && CommitsSweep(s, Commit(p)) && (base == [] || cutoff <= ProcOf(s, p).now)
    ensures var proc := ProcOf(s, p); Settled(proc.entries + proc.rows, PlaceAll(s.ledger, proc.rows), proc.now)
    ensures forall q, more :: q in s.procs && q != p ==> SpendsBehind(more, s.procs[q])
  {
    hide Inv, Good, Replay, PlaceAll, SweepRows, Settled, Knows;
    var proc := ProcOf(s, p);
    InvParts(s, p);
    SweepIsKnown(s, proc);
    KIsWhole(s, proc);
    SweepSettles(s, proc.now, proc.entries, proc.rows, base, cutoff);
  }

  lemma {:induction false} CommitStaysSettled(s: State, p: Pid, base: Ledger, cutoff: int)
    returns (more: Ledger, later: int)
    requires SinceSweep(s, base, cutoff)
    requires CommitsSweep(s, Commit(p)) ==> base == [] || cutoff <= ProcOf(s, p).now
    ensures Settled(more, Next(s, Commit(p)).ledger, later)
    ensures if CommitsSweep(s, Commit(p)) then later == ProcOf(s, p).now else more == base && later == cutoff
    ensures CommitsSweep(s, Commit(p)) ==> forall q :: q in s.procs && q != p ==> SpendsBehind(more, s.procs[q])
  {
    hide Inv, Replay, PlaceAll, Settled, SpendsBehind;
    var proc := ProcOf(s, p);
    more, later := base, cutoff;
    if CommitsSweep(s, Commit(p)) {
      SweepCommitSettles(s, p, base, cutoff);
      more, later := proc.entries + proc.rows, proc.now;
    } else if proc.GrantInserted? {
      GrantCommitStaysSettled(s, p, base, cutoff);
    } else if proc.SpendInserted? {
      SpendCommitStaysSettled(s, p, base, cutoff);
    }
  }

  lemma {:induction false} SpendIsDebit(s: State, row: Entry)
    requires SpendRow(s, row)
    ensures row.amount < 0 && !Reserved(row)
  {
  }

  lemma {:induction false} KIsWhole(s: State, proc: Proc)
    requires proc.SweepLoaded? && SweepRows(s, proc.now, proc.entries, proc.k, proc.rows)
    requires proc.k >= |Replay(proc.entries)|
    ensures proc.k == |Replay(proc.entries)|
  {
  }

  lemma {:induction false} GoodParts(ledger: Ledger, indexed: bool, clock: nat)
    requires Good(ledger, indexed, clock)
    ensures Ordered(ledger) && ReservedAreOffsets(ledger) && DistinctIds(ledger)
    ensures forall e :: e in ledger ==> e.createdAt < clock
  {
    hide AllCovered, PairsOvertaken, UniqueRows, UniqueSpends;
    NumberedIsDistinct(ledger, clock);
  }

  /** Without a commit: the ledger stays, and a spend that is stamped now is stamped behind everything. */
  lemma {:induction false} MovesStayBehind(s: State, ev: Event, base: Ledger, q: Pid)
    requires !ev.Commit? && q in Next(s, ev).procs && (q in s.procs ==> SpendsBehind(base, s.procs[q]))
    requires forall d :: d in base ==> d.createdAt < s.clock
    ensures Next(s, ev).ledger == s.ledger && SpendsBehind(base, Next(s, ev).procs[q])
  {
    hide Replay, Sum, HasKey;
  }

  lemma {:induction false} CommitOnlyEnds(s: State, p: Pid, q: Pid)
    requires q in Next(s, Commit(p)).procs
    ensures var s' := Next(s, Commit(p));
            || (q in s.procs && s'.procs[q] == s.procs[q] && (q != p || s' == s))
            || (s'.procs[q].Idle? && q == p)
  {
    hide Replay, PlaceAll;
  }

  lemma {:induction false} NextSinceSweep(s: State, ev: Event, base: Ledger, cutoff: int)
    returns (more: Ledger, later: int)
    requires SinceSweep(s, base, cutoff) && Asks(ev)
    requires CommitsSweep(s, ev) ==> base == [] || cutoff <= ProcOf(s, ev.p).now
    ensures SinceSweep(Next(s, ev), more, later)
    ensures if CommitsSweep(s, ev) then later == ProcOf(s, ev.p).now else more == base && later == cutoff
  {
    hide Inv, Next, Settled, SpendsBehind, CommitsSweep;
    NextKeepsInv(s, ev);
    if ev.Commit? {
      more, later := CommitStaysSettled(s, ev.p, base, cutoff);
      forall q | q in Next(s, ev).procs
        ensures SpendsBehind(more, Next(s, ev).procs[q])
      {
        CommitOnlyEnds(s, ev.p, q);
        IdleIsBehind(more);
        NoSweepWhenSame(s, ev.p);
      }
    } else {
      more, later := base, cutoff;
      OnlyCommitsSweep(s, ev);
      BaseIsOlder(s, base, cutoff);
      LedgerStays(s, ev);
      forall q | q in Next(s, ev).procs
        ensures SpendsBehind(base, Next(s, ev).procs[q])
      {
        MovesStayBehind(s, ev, base, q);
      }
    }
  }

  lemma {:induction false} IdleIsBehind(base: Ledger)
    ensures SpendsBehind(base, Idle)
  {
  }

  lemma {:induction false} NoSweepWhenSame(s: State, p: Pid)
    ensures CommitsSweep(s, Commit(p)) ==> Next(s, Commit(p)) != s
  {
    hide Replay, PlaceAll;
    if CommitsSweep(s, Commit(p)) {
      assert Next(s, Commit(p)).procs[p] == Idle && s.procs[p] != Idle;
    }
  }

  lemma {:induction false} OnlyCommitsSweep(s: State, ev: Event)
    requires !ev.Commit?
    ensures !CommitsSweep(s, ev)
  {
  }

  lemma {:induction false} BaseIsOlder(s: State, base: Ledger, cutoff: int)
    requires SinceSweep(s, base, cutoff)
    ensures forall d :: d in base ==> d.createdAt < s.clock
  {
    hide Good, Knows, AllCovered, Replay, Ordered;
    GoodParts(s.ledger, s.indexed, s.clock);
  }

  lemma {:induction false} RunSinceSweep(indexed: bool, evs: seq<Event>) returns (base: Ledger, cutoff: int)
    requires CreditInterleaving.Legal(evs) && SweepsForward(Init(indexed), evs)
    ensures SinceSweep(CreditInterleaving.Run(Init(indexed), evs), base, cutoff)
    ensures if LastSweep(Init(indexed), evs).Some? then cutoff == LastSweep(Init(indexed), evs).value else base == []
  {
    hide Next, SinceSweep, CommitsSweep;
    if evs == [] {
      base, cutoff := [], 0;
      InitSinceSweep(indexed);
    } else {
      var n := |evs| - 1;
      base, cutoff := RunSinceSweep(indexed, evs[..n]);
      base, cutoff := NextSinceSweep(CreditInterleaving.Run(Init(indexed), evs[..n]), evs[n], base, cutoff);
    }
  }

  lemma {:induction false} InitSinceSweep(indexed: bool)
    ensures SinceSweep(Init(indexed), [], 0)
  {
    hide Inv;
    InitInv(indexed);
  }

  /** The pre-filter is complete in every run, late grants and all, in which no sweep commits with an
      older time than one before it. */
  lemma {:induction false} PrefilterCompleteForward(indexed: bool, evs: seq<Event>, now: int, i: nat)
    requires CreditInterleaving.Legal(evs) && SweepsForward(Init(indexed), evs)
    requires var ledger := CreditInterleaving.Run(Init(indexed), evs).ledger;
             !Candidate(ledger, now) && i < |Replay(ledger)|
    ensures !Due(Replay(CreditInterleaving.Run(Init(indexed), evs).ledger)[i], now)
  {
    hide Good, Knows, Settled, SpendsBehind, Replay, CreditInterleaving.Run, SweepsForward, LastSweep, Candidate, Due;
    var base, cutoff := RunSinceSweep(indexed, evs);
    var s := CreditInterleaving.Run(Init(indexed), evs);
    GoodParts(s.ledger, s.indexed, s.clock);
    SkippedHasNothingDue(base, s.ledger, cutoff, now, i);
  }
}
