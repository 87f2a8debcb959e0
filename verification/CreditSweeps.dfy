/** What a sweep does when it commits among other transactions, and what becomes of an org in which an
    offset has been overtaken. */
module CreditSweeps {
  import opened CreditBuckets
  import opened CreditInterleaving
  import opened CreditLedger
  import opened CreditOrder
  import opened CreditTimeliness
  import opened Options

  // ---------------------------------------------------------------- offsets placed among grants

  /** Behind the row's place stand only grants, and none that it names. */
  predicate OnlyGrantsBehind(ledger: Ledger, row: Entry) {
    forall e :: e in ledger && row.createdAt < e.createdAt ==> e.amount > 0 && row.ref != RowRef(e.id)
  }

  lemma {:induction false} OffsetCommutes(bs: seq<BucketView>, b: BucketView, row: Entry)
    requires IsOffset(row) && row.ref != RowRef(b.entryId)
    ensures ReplayEntry(bs + [b], row) == ReplayEntry(bs, row) + [b]
  {
    if row.ref.RowRef? {
      FindAppend(bs, b, row.ref.id);
    }
  }

  /** An offset in its place has the effect of an offset at the end. */
  lemma {:induction false} OffsetPlaced(ledger: Ledger, row: Entry)
    requires IsOffset(row) && NewStamp(ledger, row) && OnlyGrantsBehind(ledger, row)
    ensures Replay(Place(ledger, row)) == ReplayEntry(Replay(ledger), row)
  {
    hide ReplayEntry;
    if ledger == [] || ledger[|ledger| - 1].createdAt < row.createdAt {
      ReplayAppend(ledger, row);
    } else {
      var n := |ledger| - 1;
      var last := ledger[n];
      assert last in ledger;
      OffsetPlaced(ledger[..n], row);
      OffsetCommutes(Replay(ledger[..n]), ViewOf(last), row);
      GrantAppends(ledger[..n], last);
      GrantAppends(Place(ledger[..n], row), last);
      assert ledger[..n] + [last] == ledger;
    }
  }

  lemma {:induction false} GrantAppends(ledger: Ledger, e: Entry)
    requires e.amount > 0
    ensures Replay(ledger + [e]) == Replay(ledger) + [ViewOf(e)]
  {
    ReplayAppend(ledger, e);
  }

  function ApplyAll(bs: seq<BucketView>, rows: Ledger): seq<BucketView> {
    if rows == [] then bs else ReplayEntry(ApplyAll(bs, rows[..|rows| - 1]), rows[|rows| - 1])
  }

  lemma {:induction false} OffsetsPlaced(ledger: Ledger, rows: Ledger)
    requires Ordered(ledger) && Ordered(rows) && NewStamps(ledger, rows)
    requires forall i :: 0 <= i < |rows| ==> IsOffset(rows[i]) && OnlyGrantsBehind(ledger, rows[i])
    ensures Replay(PlaceAll(ledger, rows)) == ApplyAll(Replay(ledger), rows)
  {
    hide Replay, ReplayEntry, Place, IsOffset;
    if rows != [] {
      var n := |rows| - 1;
      OffsetsPlaced(ledger, rows[..n]);
      PlaceAllKeeps(ledger, rows[..n]);
      LastIsNew(ledger, PlaceAll(ledger, rows[..n]), rows);
      StillOnlyGrants(ledger, PlaceAll(ledger, rows[..n]), rows);
      OffsetPlaced(PlaceAll(ledger, rows[..n]), rows[n]);
    }
  }

  lemma {:induction false} StillOnlyGrants(ledger: Ledger, placed: Ledger, rows: Ledger)
    requires rows != [] && Ordered(rows) && OnlyGrantsBehind(ledger, rows[|rows| - 1])
    requires forall e :: e in placed <==> e in ledger || e in rows[..|rows| - 1]
    ensures OnlyGrantsBehind(placed, rows[|rows| - 1])
  {
  }

  /** What the rows take from the bucket of this grant. */
  function TakenBy(rows: Ledger, id: Id): int {
    if rows == [] then 0
    else if rows[|rows| - 1].ref == RowRef(id) then -rows[|rows| - 1].amount
    else TakenBy(rows[..|rows| - 1], id)
  }

  predicate DistinctRefs(rows: Ledger) {
    forall i, j :: 0 <= i < j < |rows| ==> rows[i].ref != rows[j].ref
  }

  lemma {:induction false} NothingTaken(rows: Ledger, id: Id)
    requires forall i :: 0 <= i < |rows| ==> rows[i].ref != RowRef(id)
    ensures TakenBy(rows, id) == 0
  {
    if rows != [] {
      NothingTaken(rows[..|rows| - 1], id);
    }
  }

  lemma {:induction false} TakenByRow(rows: Ledger, x: nat, id: Id)
    requires DistinctRefs(rows) && x < |rows| && rows[x].ref == RowRef(id)
    ensures TakenBy(rows, id) == -rows[x].amount
  {
    var n := |rows| - 1;
    if x < n {
      TakenByRow(rows[..n], x, id);
    }
  }

  lemma {:induction false} ApplyAllEffect(bs: seq<BucketView>, rows: Ledger)
    requires UniqueIds(bs) && NonNegative(bs) && DistinctRefs(rows)
    requires forall x :: 0 <= x < |rows| ==> IsOffset(rows[x])
    ensures SameGrants(bs, ApplyAll(bs, rows))
    ensures forall i :: 0 <= i < |bs| ==>
      ApplyAll(bs, rows)[i].remaining == Max(0, bs[i].remaining - TakenBy(rows, bs[i].entryId))
  {
    if rows != [] {
      var n := |rows| - 1;
      var before := ApplyAll(bs, rows[..n]);
      ApplyAllEffect(bs, rows[..n]);
      if rows[n].ref.RowRef? {
        NothingTaken(rows[..n], rows[n].ref.id);
        OneOffsetEffect(before, rows[n]);
      }
    }
  }

  lemma {:induction false} OneOffsetEffect(bs: seq<BucketView>, row: Entry)
    requires UniqueIds(bs) && IsOffset(row) && row.ref.RowRef?
    ensures SameGrants(bs, ReplayEntry(bs, row))
    ensures forall i :: 0 <= i < |bs| ==>
      ReplayEntry(bs, row)[i].remaining
      == if bs[i].entryId == row.ref.id then Max(0, bs[i].remaining + row.amount) else bs[i].remaining
  {
    hide Deduct;
  }

  // ---------------------------------------------------------------- the effect of a sweep's commit

  /** What a sweep at `now` that loaded these buckets forfeits of this grant. */
  function Forfeits(bs: seq<BucketView>, now: int, id: Id): int {
    var at := Find(bs, id);
    if at.Some? && Due(bs[at.value], now) then bs[at.value].remaining else 0
  }

  lemma {:induction false} TakenIsForfeited(bs: seq<BucketView>, now: int, rows: Ledger, id: Id)
    requires UniqueIds(bs) && OffsetsFor(bs, now, |bs|, rows)
    ensures TakenBy(rows, id) == Forfeits(bs, now, id)
  {
    hide Due;
    if x: nat :| x < |rows| && rows[x].ref == RowRef(id) {
      TakenByRow(rows, x, id);
      assert NamesBucket(bs, now, |bs|, rows[x]);
      var m :| 0 <= m < |bs| && Due(bs[m], now) && rows[x].ref == RowRef(bs[m].entryId)
               && rows[x].amount == -bs[m].remaining;
      FindUnique(bs, m);
    } else {
      NothingTaken(rows, id);
      if Find(bs, id).Some? {
        assert !HasRow(bs[Find(bs, id).value], rows);
      }
    }
  }

  lemma {:induction false} LoadedIsOlder(entries: Ledger, rows: Ledger, x: nat)
    requires Ordered(entries + rows) && x < |rows|
    ensures forall e :: e in entries ==> e.createdAt < rows[x].createdAt
  {
    forall e | e in entries
      ensures e.createdAt < rows[x].createdAt
    {
      assert (entries + rows)[IndexOf(entries, e)] == e && (entries + rows)[|entries| + x] == rows[x];
    }
  }

  lemma {:induction false} OffsetsHaveOnlyGrantsBehind(entries: Ledger, ledger: Ledger, now: int, rows: Ledger, x: nat)
    requires Since(entries, ledger) && Ordered(entries + rows) && DistinctIds(ledger) && x < |rows|
    requires OffsetsFor(Replay(entries), now, |Replay(entries)|, rows)
    ensures OnlyGrantsBehind(ledger, rows[x])
  {
    hide Replay, DistinctIds;
    LoadedIsOlder(entries, rows, x);
    forall e | e in ledger && rows[x].createdAt < e.createdAt
      ensures e.amount > 0 && rows[x].ref != RowRef(e.id)
    {
      NamedIsLoaded(entries, now, rows[x], e, ledger);
    }
  }

  lemma {:induction false} NamedIsLoaded(entries: Ledger, now: int, row: Entry, e: Entry, ledger: Ledger)
    requires NamesBucket(Replay(entries), now, |Replay(entries)|, row) && Since(entries, ledger)
    requires e in ledger && e !in entries && DistinctIds(ledger)
    ensures row.ref != RowRef(e.id)
  {
    hide Replay;
    var m :| 0 <= m < |Replay(entries)| && Due(Replay(entries)[m], now) && row.ref == RowRef(Replay(entries)[m].entryId)
             && row.amount == -Replay(entries)[m].remaining;
    var k := BucketComesFromGrant(entries, m);
    assert entries[k] in entries && entries[k] in ledger;
    assert ledger[IndexOf(ledger, entries[k])] != ledger[IndexOf(ledger, e)];
  }

  /** The commit of a sweep takes from each bucket what the sweep saw in it when it was due, and nothing
      from any other, whatever grants were committed meanwhile. */
  lemma {:induction false} CommitForfeits(s: State, p: Pid, i: nat)
    requires Inv(s) && ProcOf(s, p).SweepLoaded? && ProcOf(s, p).k == |Replay(ProcOf(s, p).entries)|
    requires i < |Replay(s.ledger)|
    ensures |Replay(Next(s, Commit(p)).ledger)| == |Replay(s.ledger)|
    ensures var b, proc := Replay(s.ledger)[i], ProcOf(s, p);
            Replay(Next(s, Commit(p)).ledger)[i]
            == b.(remaining := b.remaining - Forfeits(Replay(proc.entries), proc.now, b.entryId))
  {
    hide Inv, Good, Replay, SweepRows, PlaceAll, Forfeits;
    var proc := ProcOf(s, p);
    InvParts(s, p);
    SweepIsKnown(s, proc);
    ForfeitedOf(s, proc.now, proc.entries, proc.rows, i);
    assert PendingRows(proc) == proc.rows;
  }

  lemma {:induction false} ForfeitedOf(s: State, now: int, entries: Ledger, rows: Ledger, i: nat)
    requires Good(s.ledger, s.indexed, s.clock) && SweepRows(s, now, entries, |Replay(entries)|, rows)
    requires i < |Replay(s.ledger)|
    ensures |Replay(PlaceAll(s.ledger, rows))| == |Replay(s.ledger)|
    ensures var b := Replay(s.ledger)[i];
            Replay(PlaceAll(s.ledger, rows))[i]
            == b.(remaining := b.remaining - Forfeits(Replay(entries), now, b.entryId))
  {
    hide AllCovered, PairsOvertaken, UniqueRows, UniqueSpends, HasKey, Replay, PlaceAll, Due, ApplyAll, Since, TakenBy,
         ForfeitFirst, Within;
    SweepBase(s, now, entries, |Replay(entries)|, rows);
    RowsAreOrdered(entries, rows);
    DistinctBuckets(entries);
    DistinctBuckets(s.ledger);
    ReplayNonNegative(s.ledger);
    forall x | 0 <= x < |rows|
      ensures OnlyGrantsBehind(s.ledger, rows[x])
    {
      OffsetsHaveOnlyGrantsBehind(entries, s.ledger, now, rows, x);
    }
    OffsetsPlaced(s.ledger, rows);
    ApplyAllEffect(Replay(s.ledger), rows);
    TakenIsForfeited(Replay(entries), now, rows, Replay(s.ledger)[i].entryId);
    var f := MoreGrants(entries, s.ledger);
    ForfeitIsThere(Replay(entries), Replay(s.ledger), f, now, i);
  }

  /** The bucket still holds what is forfeited of it. */
  lemma {:induction false} ForfeitIsThere(bs: seq<BucketView>, cs: seq<BucketView>, f: seq<nat>, now: int, i: nat)
    requires Within(bs, cs, f) && UniqueIds(cs) && NonNegative(cs) && i < |cs|
    ensures Forfeits(bs, now, cs[i].entryId) <= cs[i].remaining
  {
    var at := Find(bs, cs[i].entryId);
    if at.Some? {
      assert cs[f[at.value]].entryId == cs[i].entryId;
    }
  }

  /** In time, a sweep is exact: every bucket that was due in its snapshot is empty, and every other one
      holds what it held before. */
  lemma {:induction false} TimelySweepIsExact(indexed: bool, evs: seq<Event>, p: Pid, i: nat)
    requires CreditInterleaving.Legal(evs) && AllInTime(Init(indexed), evs)
    requires var s := CreditInterleaving.Run(Init(indexed), evs);
             var proc := ProcOf(s, p);
             proc.SweepLoaded? && proc.k == |Replay(proc.entries)| && i < |Replay(s.ledger)|
    ensures var s := CreditInterleaving.Run(Init(indexed), evs);
            var b, bs := Replay(s.ledger)[i], Replay(ProcOf(s, p).entries);
            var at := Find(bs, b.entryId);
            && |Replay(Next(s, Commit(p)).ledger)| == |Replay(s.ledger)|
            && Replay(Next(s, Commit(p)).ledger)[i]
            == if at.Some? && Due(bs[at.value], ProcOf(s, p).now) then b.(remaining := 0) else b
  {
    hide Inv, Good, Replay, SweepRows, Next, CreditInterleaving.Run, AllInTime, Due, Find, Knows;
    var s := CreditInterleaving.Run(Init(indexed), evs);
    var proc := ProcOf(s, p);
    RunIsTimely(indexed, evs);
    CommitForfeits(s, p, i);
    InvParts(s, p);
    SweepIsKnown(s, proc);
    SweepBase(s, proc.now, proc.entries, proc.k, proc.rows);
    DistinctBuckets(s.ledger);
    EmptiesParts(s.ledger, proc);
    var f := GrantsBehind(proc.entries, s.ledger);
    AlikeFind(Replay(proc.entries), Replay(s.ledger), f, i);
  }

  lemma {:induction false} AlikeFind(bs: seq<BucketView>, cs: seq<BucketView>, f: seq<nat>, i: nat)
    requires Alike(bs, cs, f) && UniqueIds(cs) && i < |cs|
    ensures var at := Find(bs, cs[i].entryId); at.Some? ==> bs[at.value] == cs[i]
  {
    var at := Find(bs, cs[i].entryId);
    if at.Some? {
      assert cs[f[at.value]] == bs[at.value];
    }
  }

  // ---------------------------------------------------------------- an org that no sweep can finish

  /** A sweep has an overtaken bucket still before it. */
  ghost predicate Stuck(s: State, p: Pid, m: nat) {
    && s.indexed && ProcOf(s, p).SweepLoaded?
    && ProcOf(s, p).k <= m < |Replay(ProcOf(s, p).entries)|
    && Due(Replay(ProcOf(s, p).entries)[m], ProcOf(s, p).now) && BucketOvertaken(ProcOf(s, p).entries, m)
  }

  /** Such a sweep never commits: whatever happens, it stays stuck or ends with the ledger as it was. */
  lemma {:induction false} StuckNeverCommits(s: State, p: Pid, m: nat, ev: Event)
    requires Inv(s) && Stuck(s, p, m)
    ensures Stuck(Next(s, ev), p, m) || (ProcOf(Next(s, ev), p).Idle? && Next(s, ev).ledger == s.ledger)
  {
    hide Inv, Replay, BucketOvertaken, HasKey, Sum, PlaceAll, Due, OffsetEntry, Waits, Violates;
    NextKeepsIndexed(s, ev);
    var proc := ProcOf(s, p);
    if ev.p == p && ev.SweepBucket? && proc.k == m {
      SweepCollidesExactly(s, p);
      Overtakes(proc.entries, m);
    }
  }

  lemma {:induction false} Overtakes(ledger: Ledger, m: nat)
    requires m < |Replay(ledger)| && BucketOvertaken(ledger, m)
    ensures exists j :: 0 <= j < |ledger| && Overtaken(ledger, j) && ledger[j].ref == RowRef(Replay(ledger)[m].entryId)
  {
  }

  lemma {:induction false} NextKeepsOvertaken(s: State, ev: Event, j: nat) returns (k: nat)
    requires Inv(s) && Asks(ev) && Overtaken(s.ledger, j)
    ensures k < |Next(s, ev).ledger| && Next(s, ev).ledger[k] == s.ledger[j] && Overtaken(Next(s, ev).ledger, k)
  {
    hide Inv, Good, Replay, HasKey, Sum, PlaceAll, Left, Knows;
    var proc := ProcOf(s, ev.p);
    if ev.Commit? && Next(s, ev) != s {
      InvParts(s, ev.p);
      NextKeepsInv(s, ev);
      InvParts(Next(s, ev), ev.p);
      GoodIsOrdered(Next(s, ev).ledger, Next(s, ev).indexed, Next(s, ev).clock);
      NextKeepsRows(s, ev, s.ledger[j]);
      k := IndexOf(Next(s, ev).ledger, s.ledger[j]);
      if proc.GrantInserted? {
        GrantKeepsOvertaken(s, ev.p, j, k);
      } else {
        DebitKeepsOvertaken(s, ev.p, j, k);
      }
    } else {
      if !ev.Commit? {
        LedgerStays(s, ev);
      }
      OvertakenIsDebit(s.ledger, j);
      k := j;
    }
  }

  lemma {:induction false} PlacedGrantKeepsOvertaken(ledger: Ledger, row: Entry, j: nat, k: nat)
    requires AllCovered(ledger) && Ordered(ledger) && DistinctIds(ledger) && NewStamp(ledger, row) && row.amount > 0
    requires DistinctIds(Place(ledger, row)) && Overtaken(ledger, j)
    requires k < |Place(ledger, row)| && Place(ledger, row)[k] == ledger[j]
    ensures Overtaken(Place(ledger, row), k)
  {
    hide AllCovered, Overtaken, Place, DistinctIds, Ordered;
    PlaceKeeps(ledger, row);
    assert Since(ledger, Place(ledger, row));
    OvertakenIsDebit(ledger, j);
    OvertakenStays(ledger, j, Place(ledger, row), k);
  }

  lemma {:induction false} GoodIsDistinct(ledger: Ledger, indexed: bool, clock: nat)
    requires Good(ledger, indexed, clock)
    ensures AllCovered(ledger) && Ordered(ledger) && DistinctIds(ledger)
  {
    hide AllCovered, PairsOvertaken, UniqueRows, UniqueSpends;
    NumberedIsDistinct(ledger, clock);
  }

  lemma {:induction false} GrantKeepsOvertaken(s: State, p: Pid, j: nat, k: nat)
    requires Good(s.ledger, s.indexed, s.clock) && Knows(s, ProcOf(s, p)) && ProcOf(s, p).GrantInserted?
    requires Good(Next(s, Commit(p)).ledger, s.indexed, Next(s, Commit(p)).clock)
    requires Overtaken(s.ledger, j) && k < |Next(s, Commit(p)).ledger| && Next(s, Commit(p)).ledger[k] == s.ledger[j]
    ensures Overtaken(Next(s, Commit(p)).ledger, k)
  {
    hide Good, Overtaken, Place, HasKey;
    var row := ProcOf(s, p).row;
    PlaceOne(s.ledger, row);
    GrantRowIsKnown(s, row);
    GoodIsDistinct(s.ledger, s.indexed, s.clock);
    GoodIsDistinct(Next(s, Commit(p)).ledger, s.indexed, Next(s, Commit(p)).clock);
    OvertakenIsDebit(s.ledger, j);
    PlacedGrantKeepsOvertaken(s.ledger, row, j, k);
  }

  lemma {:induction false} DebitKeepsOvertaken(s: State, p: Pid, j: nat, k: nat)
    requires Good(s.ledger, s.indexed, s.clock) && Knows(s, ProcOf(s, p)) && Next(s, Commit(p)) != s
    requires ProcOf(s, p).SpendInserted? || ProcOf(s, p).SweepLoaded?
    requires Ordered(Next(s, Commit(p)).ledger)
    requires Overtaken(s.ledger, j) && k < |Next(s, Commit(p)).ledger| && Next(s, Commit(p)).ledger[k] == s.ledger[j]
    ensures Overtaken(Next(s, Commit(p)).ledger, k)
  {
    hide AllCovered, Overtaken, PlaceAll, HasKey, PairsOvertaken, UniqueRows, UniqueSpends, Replay, Since, Ordered;
    var proc := ProcOf(s, p);
    OvertakenIsDebit(s.ledger, j);
    if proc.SpendInserted? {
      var base :| Since(base, s.ledger) && Ordered(base + [proc.row]) && AllCovered(base + [proc.row]);
      OlderPairStays(base, s.ledger, [proc.row], k, j);
    } else {
      OlderPairStays(proc.entries, s.ledger, proc.rows, k, j);
    }
  }

  lemma {:induction false} OvertakenIsDebit(ledger: Ledger, j: nat)
    requires Overtaken(ledger, j)
    ensures j < |ledger| && ledger[j].amount < 0
  {
  }

  /** An offset once overtaken stays so in every interleaving. */
  lemma {:induction false} OvertakenForever(s: State, evs: seq<Event>, j: nat) returns (k: nat)
    requires Inv(s) && CreditInterleaving.Legal(evs) && Overtaken(s.ledger, j)
    ensures var ledger := CreditInterleaving.Run(s, evs).ledger;
            k < |ledger| && ledger[k] == s.ledger[j] && Overtaken(ledger, k)
  {
    hide Inv, Next, Overtaken;
    OvertakenIsDebit(s.ledger, j);
    if evs == [] {
      k := j;
    } else {
      var n := |evs| - 1;
      RunKeepsInv(s, evs[..n]);
      var i := OvertakenForever(s, evs[..n], j);
      k := NextKeepsOvertaken(CreditInterleaving.Run(s, evs[..n]), evs[n], i);
    }
  }

  /** The lasting consequence: after an offset of a grant has been overtaken, every sweep that starts
      while the grant's bucket is due is stuck as soon as it has loaded the ledger. */
  lemma {:induction false} NoSweepCompletes(s: State, evs: seq<Event>, j: nat, p: Pid, m: nat)
    requires Inv(s) && s.indexed && CreditInterleaving.Legal(evs) && Overtaken(s.ledger, j)
    requires var s' := CreditInterleaving.Run(s, evs);
             && ProcOf(s', p).SweepLocked? && m < |Replay(s'.ledger)| && Due(Replay(s'.ledger)[m], ProcOf(s', p).now)
             && s.ledger[j].ref == RowRef(Replay(s'.ledger)[m].entryId)
    ensures Stuck(Next(CreditInterleaving.Run(s, evs), LoadLedger(p)), p, m)
  {
    hide Inv, CreditInterleaving.Run, Replay, Overtaken, Due;
    RunKeepsInv(s, evs);
    var k := OvertakenForever(s, evs, j);
    var s' := CreditInterleaving.Run(s, evs);
    assert BucketOvertaken(s'.ledger, m);
  }
}
