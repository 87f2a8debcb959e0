/** When every grant commits in time, the order of the stamps and the order of the commits tell the same
    story: offsets empty their buckets for good, and no sweep ever meets the unique index. */
module CreditTimeliness {
  import opened CreditBuckets
  import opened CreditInterleaving
  import opened CreditLedger
  import opened CreditOrder
  import opened Options

  /** No grant commits behind a debit with a later stamp. */
  predicate InTime(s: State, ev: Event) {
    ev.Commit? && ProcOf(s, ev.p).GrantInserted? ==>
      forall d :: d in s.ledger && d.amount < 0 ==> d.createdAt < ProcOf(s, ev.p).row.createdAt
  }

  predicate AllInTime(s: State, evs: seq<Event>) {
    evs == [] || (AllInTime(s, evs[..|evs| - 1]) && InTime(CreditInterleaving.Run(s, evs[..|evs| - 1]), evs[|evs| - 1]))
  }

  predicate NoneOvertaken(ledger: Ledger) {
    forall j :: 0 <= j < |ledger| ==> !Overtaken(ledger, j)
  }

  predicate AllEmptied(entries: Ledger, rows: Ledger) {
    forall j :: |entries| <= j < |entries + rows| ==> Left(entries + rows, j) == 0
  }

  /** Each offset of a sweep empties its bucket, and grants since its load stand behind all spends. */
  predicate Empties(ledger: Ledger, proc: Proc) {
    proc.SweepLoaded? ==>
      && Behind(proc.entries, ledger)
      && AllEmptied(proc.entries, proc.rows)
  }

  ghost predicate TimelyInv(s: State) {
    Inv(s) && NoneOvertaken(s.ledger) && forall p :: p in s.procs ==> Empties(s.ledger, s.procs[p])
  }

  lemma {:induction false} GrantInTime(ledger: Ledger, row: Entry)
    requires NoneOvertaken(ledger) && Ordered(ledger) && NewStamp(ledger, row) && row.amount > 0
    requires ReservedAreOffsets(ledger)
    requires forall d :: d in ledger && d.amount < 0 ==> d.createdAt < row.createdAt
    ensures NoneOvertaken(Place(ledger, row))
  {
    hide Replay, Place;
    var placed := Place(ledger, row);
    PlaceKeeps(ledger, row);
    forall j | 0 <= j < |placed|
      ensures !Overtaken(placed, j)
    {
      assert placed[j] in placed;
      if IsOffset(placed[j]) {
        var a := IndexOf(ledger, placed[j]);
        PlacedBehind(ledger, row, a);
        assert placed[a] == placed[..a + 1][a] == ledger[a];
        assert a == j;
        assert !Overtaken(ledger, a);
      }
    }
  }

  lemma {:induction false} DebitsInTime(base: Ledger, ledger: Ledger, rows: Ledger)
    requires NoneOvertaken(ledger) && Since(base, ledger) && Ordered(base + rows) && Ordered(PlaceAll(ledger, rows))
    requires forall e :: e in PlaceAll(ledger, rows) <==> e in ledger || e in rows
    requires forall j :: 0 <= j < |PlaceAll(ledger, rows)| && PlaceAll(ledger, rows)[j] in rows ==>
      !Overtaken(PlaceAll(ledger, rows), j)
    ensures NoneOvertaken(PlaceAll(ledger, rows))
  {
    hide Left, PlaceAll, Ordered, Since;
    var placed := PlaceAll(ledger, rows);
    forall j | 0 <= j < |placed|
      ensures !Overtaken(placed, j)
    {
      assert placed[j] in placed;
      if placed[j] in ledger && IsOffset(placed[j]) {
        var a := IndexOf(ledger, placed[j]);
        OlderPairStays(base, ledger, rows, j, a);
        assert !Overtaken(ledger, a);
      }
    }
  }

  /** The new offsets of a sweep still empty their buckets where they are placed. */
  lemma {:induction false} PlacedOffsetEmpties(entries: Ledger, ledger: Ledger, rows: Ledger, x: nat, j: nat)
    requires Since(entries, ledger) && Behind(entries, ledger) && Ordered(entries + rows) && AllCovered(entries + rows)
    requires Ordered(PlaceAll(ledger, rows)) && DistinctIds(PlaceAll(ledger, rows)) && DistinctIds(entries + rows)
    requires AllCovered(PlaceAll(ledger, rows)) && Since(entries + rows, PlaceAll(ledger, rows))
    requires forall e :: e in PlaceAll(ledger, rows) <==> e in ledger || e in rows
    requires forall e :: e in rows ==> IsOffset(e)
    requires x < |rows| && j < |PlaceAll(ledger, rows)| && PlaceAll(ledger, rows)[j] == rows[x]
    ensures Left(PlaceAll(ledger, rows), j) == Left(entries + rows, |entries| + x)
  {
    hide AllCovered, PlaceAll, DistinctIds, Left, Since;
    var base, placed := entries + rows, PlaceAll(ledger, rows);
    var head, prefix := base[..|entries| + x + 1], placed[..j + 1];
    assert Behind(head, prefix) by {
      forall e, d | e in prefix && e !in head && d in head && d.amount < 0 && !Reserved(d)
        ensures d.createdAt < e.createdAt
      {
        assert e in placed && e.createdAt <= rows[x].createdAt;
        assert d in base && d in entries;
        EarlierRow(entries, rows, x, e);
      }
    }
    assert rows[x] in rows;
    EmptyingStays(base, |entries| + x, placed, j);
  }

  /** A row no later than rows[x] that is not among the rows up to it is neither loaded nor written. */
  lemma {:induction false} EarlierRow(entries: Ledger, rows: Ledger, x: nat, e: Entry)
    requires Ordered(entries + rows) && x < |rows| && e.createdAt <= rows[x].createdAt
    requires e !in (entries + rows)[..|entries| + x + 1]
    ensures e !in entries && e !in rows
  {
    var base, head := entries + rows, (entries + rows)[..|entries| + x + 1];
    forall i | 0 <= i < |base|
      ensures base[i] != e
    {
      if i <= |entries| + x {
        assert head[i] == base[i] && head[i] in head;
      } else {
        assert base[|entries| + x] == rows[x];
      }
    }
    assert forall i :: 0 <= i < |entries| ==> base[i] == entries[i];
    assert forall i :: 0 <= i < |rows| ==> rows[i] == base[|entries| + i];
  }

  lemma {:induction false} AllEmptiedAt(entries: Ledger, rows: Ledger, x: nat)
    requires AllEmptied(entries, rows) && x < |rows|
    ensures Left(entries + rows, |entries| + x) == 0
  {
    hide Left;
  }

  lemma {:induction false} SweepInTime(s: State, now: int, entries: Ledger, k: nat, rows: Ledger)
    requires Good(s.ledger, s.indexed, s.clock) && SweepRows(s, now, entries, k, rows) && NoneOvertaken(s.ledger)
    requires Behind(entries, s.ledger)
    requires AllEmptied(entries, rows)
    ensures NoneOvertaken(PlaceAll(s.ledger, rows))
  {
    hide AllCovered, PlaceAll, PairsOvertaken, HasKey, Since, Replay, UniqueRows, UniqueSpends, NoneOvertaken, Left;
    var placed := PlaceAll(s.ledger, rows);
    CommitSweepIsGood(s, now, entries, k, rows);
    EntriesAreNumbered(s, entries, rows);
    NumberedIsDistinct(placed, s.clock);
    RowsAreApart(Replay(entries), now, k, rows);
    var f := CommitIsCovered(entries, s.ledger, rows);
    forall j | 0 <= j < |placed| && placed[j] in rows
      ensures !Overtaken(placed, j)
    {
      var x := IndexOf(rows, placed[j]);
      AllEmptiedAt(entries, rows, x);
      PlacedOffsetEmpties(entries, s.ledger, rows, x, j);
    }
    DebitsInTime(entries, s.ledger, rows);
  }

  lemma {:induction false} ForfeitedBucket(bs: seq<BucketView>, now: int, k: nat)
    requires UniqueIds(bs) && k < |bs| && Due(bs[k], now)
    ensures var after := ForfeitFirst(bs, now, k + 1);
            UniqueIds(after) && |after| == |bs| && after[k].entryId == bs[k].entryId && after[k].remaining == 0
  {
  }

  /** The offset just written empties its bucket. */
  lemma {:induction false} WrittenOffsetEmpties(s: State, now: int, entries: Ledger, k: nat, rows: Ledger, row: Entry)
    requires Good(s.ledger, s.indexed, s.clock) && SweepRows(s, now, entries, k, rows)
    requires k < |Replay(entries)| && Due(Replay(entries)[k], now)
    requires row == OffsetEntry(Replay(entries)[k], s.clock, s.clock)
    requires AllEmptied(entries, rows)
    ensures AllEmptied(entries, rows + [row])
  {
    hide Replay, AllCovered, HasKey, UniqueSpends, UniqueRows, PairsOvertaken, ForfeitFirst;
    EntriesAreNumbered(s, entries, rows);
    ForfeitStep(Replay(entries), now, k + 1);
    OffsetOfBucket(entries, rows, now, k, s.clock, s.clock);
    var base, all := entries + rows, entries + (rows + [row]);
    assert all == base + [row];
    DistinctPrefix(base, |entries|);
    assert base[..|entries|] == entries;
    forall j | |entries| <= j < |all|
      ensures Left(all, j) == 0
    {
      if j < |base| {
        assert all[..j + 1] == base[..j + 1] && all[j] == base[j];
        assert Left(base, j) == 0;
      } else {
        assert all[..j + 1] == all && all[j] == row;
        DistinctBuckets(entries);
        ForfeitedBucket(Replay(entries), now, k);
        FindUnique(Replay(all), k);
      }
    }
  }

  lemma {:induction false} EmptiesDepends(ledger: Ledger, placed: Ledger, proc: Proc, row: Entry)
    requires Empties(ledger, proc) && (proc.SweepLoaded? ==> Since(proc.entries, ledger))
    requires forall e :: e in placed <==> e in ledger || e == row
    requires forall d :: d in ledger && d.amount < 0 ==> d.createdAt < row.createdAt
    ensures Empties(placed, proc)
  {
    hide Left;
  }

  lemma {:induction false} GrantCommitIsTimely(s: State, p: Pid)
    requires TimelyInv(s) && ProcOf(s, p).GrantInserted? && InTime(s, Commit(p))
    ensures NoneOvertaken(Place(s.ledger, ProcOf(s, p).row))
    ensures forall q :: q in s.procs && q != p ==> Empties(Place(s.ledger, ProcOf(s, p).row), s.procs[q])
  {
    hide Inv, Good, Knows, NoneOvertaken, Empties, Place, Apart;
    var row := ProcOf(s, p).row;
    InvParts(s, p);
    GrantRowIsKnown(s, row);
    GoodIsOrdered(s.ledger, s.indexed, s.clock);
    GrantInTime(s.ledger, row);
    PlaceKeeps(s.ledger, row);
    forall q | q in s.procs && q != p
      ensures Empties(Place(s.ledger, row), s.procs[q])
    {
      SweepIsSince(s, s.procs[q]);
      EmptiesDepends(s.ledger, Place(s.ledger, row), s.procs[q], row);
    }
  }

  /** Whoever commits debits holds the lock, so no other process is in a sweep. */
  lemma {:induction false} NoOtherSweep(s: State, p: Pid, ledger: Ledger)
    requires Inv(s) && HoldsLock(ProcOf(s, p))
    ensures forall q :: q in s.procs && q != p ==> Empties(ledger, s.procs[q])
  {
    hide Inv, Good, Knows, Empties, Apart;
    InvParts(s, p);
    forall q | q in s.procs && q != p
      ensures Empties(ledger, s.procs[q])
    {
      NoSweepEmpties(ledger, s.procs[q]);
    }
  }

  lemma {:induction false} DebitCommitIsTimely(s: State, p: Pid)
    requires TimelyInv(s) && (ProcOf(s, p).SpendInserted? || ProcOf(s, p).SweepLoaded?)
    ensures NoneOvertaken(PlaceAll(s.ledger, PendingRows(ProcOf(s, p))))
  {
    hide Inv, Good, Knows, NoneOvertaken, Empties, PlaceAll, Apart;
    var proc := ProcOf(s, p);
    InvParts(s, p);
    if proc.SpendInserted? {
      SpendInTime(s, proc.row);
    } else {
      SweepIsKnown(s, proc);
      EmptiesParts(s.ledger, proc);
      SweepInTime(s, proc.now, proc.entries, proc.k, proc.rows);
    }
  }

  lemma {:induction false} CommitIsTimely(s: State, p: Pid)
    requires TimelyInv(s) && InTime(s, Commit(p))
    ensures NoneOvertaken(Next(s, Commit(p)).ledger)
    ensures forall q :: q in s.procs && q != p ==> Empties(Next(s, Commit(p)).ledger, s.procs[q])
  {
    hide Inv, NoneOvertaken, Empties, Place, PlaceAll, Replay, InTime;
    var proc := ProcOf(s, p);
    if proc.GrantInserted? {
      PlaceOne(s.ledger, proc.row);
      GrantCommitIsTimely(s, p);
    } else if proc.SpendInserted? || proc.SweepLoaded? {
      DebitCommitIsTimely(s, p);
      NoOtherSweep(s, p, PlaceAll(s.ledger, PendingRows(proc)));
    }
  }

  lemma {:induction false} GoodIsOrdered(ledger: Ledger, indexed: bool, clock: nat)
    requires Good(ledger, indexed, clock)
    ensures Ordered(ledger) && ReservedAreOffsets(ledger)
  {
  }

  lemma {:induction false} SweepIsSince(s: State, proc: Proc)
    requires Knows(s, proc)
    ensures proc.SweepLoaded? ==> Since(proc.entries, s.ledger)
  {
  }

  lemma {:induction false} NoSweepEmpties(ledger: Ledger, proc: Proc)
    requires !proc.SweepLoaded?
    ensures Empties(ledger, proc)
  {
  }

  lemma {:induction false} EmptiesParts(ledger: Ledger, proc: Proc)
    requires Empties(ledger, proc) && proc.SweepLoaded?
    ensures Behind(proc.entries, ledger)
    ensures AllEmptied(proc.entries, proc.rows)
  {
  }

  lemma {:induction false} SpendInTime(s: State, row: Entry)
    requires Good(s.ledger, s.indexed, s.clock) && Knows(s, SpendInserted(row)) && NoneOvertaken(s.ledger)
    ensures NoneOvertaken(PlaceAll(s.ledger, [row]))
  {
    hide AllCovered, PlaceAll, PairsOvertaken, HasKey, Since, Replay, UniqueRows, UniqueSpends, NoneOvertaken, Left;
    CommitSpendIsGood(s, row);
    var base :| Since(base, s.ledger) && Ordered(base + [row]) && AllCovered(base + [row]);
    DebitsInTime(base, s.ledger, [row]);
  }

  lemma {:induction false} NextIsTimely(s: State, ev: Event)
    requires TimelyInv(s) && Asks(ev) && InTime(s, ev)
    ensures TimelyInv(Next(s, ev))
  {
    hide Inv, Next, NoneOvertaken, Empties, InTime;
    NextKeepsInv(s, ev);
    if ev.Commit? {
      CommitIsTimely(s, ev.p);
      CommitMoves(s, ev.p);
    } else {
      OtherMoves(s, ev);
      if ev.SweepBucket? {
        BucketIsTimely(s, ev.p);
      }
    }
    forall q | q in Next(s, ev).procs
      ensures Empties(Next(s, ev).ledger, Next(s, ev).procs[q])
    {
      if !Next(s, ev).procs[q].SweepLoaded? {
        NoSweepEmpties(Next(s, ev).ledger, Next(s, ev).procs[q]);
      } else if ev.LoadLedger? && q == ev.p {
        LoadIsTimely(s, q);
      }
    }
  }

  lemma {:induction false} CommitMoves(s: State, p: Pid)
    ensures var s' := Next(s, Commit(p));
            forall q :: q in s'.procs ==>
              (q in s.procs && q != p && s'.procs[q] == s.procs[q]) || !s'.procs[q].SweepLoaded?
                                          || (s' == s)
  {
    hide Replay, PlaceAll;
  }

  /** Without a commit the ledger stays, and only a load or a bucket touches a sweep. */
  lemma {:induction false} OtherMoves(s: State, ev: Event)
    requires !ev.Commit?
    ensures var s' := Next(s, ev);
            && s'.ledger == s.ledger
            && forall q :: q in s'.procs ==>
                 || (q in s.procs && s'.procs[q] == s.procs[q]) || !s'.procs[q].SweepLoaded?
                 || (q == ev.p && (ev.LoadLedger? || ev.SweepBucket?))
  {
    hide Replay, HasKey, Sum;
  }

  lemma {:induction false} LoadIsTimely(s: State, p: Pid)
    requires p in s.procs ==> Empties(s.ledger, s.procs[p])
    requires ProcOf(Next(s, LoadLedger(p)), p).SweepLoaded?
    ensures Empties(s.ledger, ProcOf(Next(s, LoadLedger(p)), p))
  {
    hide Left;
  }

  lemma {:induction false} BucketIsTimely(s: State, p: Pid)
    requires TimelyInv(s)
    ensures Empties(s.ledger, ProcOf(Next(s, SweepBucket(p)), p))
  {
    hide Inv, Good, Knows, NoneOvertaken, Replay, Due, Violates, Waits, Left, OffsetEntry, SweepRows;
    var proc := ProcOf(s, p);
    InvParts(s, p);
    if proc.SweepLoaded? && proc.k < |Replay(proc.entries)| && Due(Replay(proc.entries)[proc.k], proc.now) {
      SweepIsKnown(s, proc);
      var row := OffsetEntry(Replay(proc.entries)[proc.k], s.clock, s.clock);
      WrittenOffsetEmpties(s, proc.now, proc.entries, proc.k, proc.rows, row);
    }
  }

  lemma {:induction false} RunIsTimely(indexed: bool, evs: seq<Event>)
    requires CreditInterleaving.Legal(evs) && AllInTime(Init(indexed), evs)
    ensures TimelyInv(CreditInterleaving.Run(Init(indexed), evs))
  {
    hide Next, TimelyInv, InTime;
    if evs == [] {
      InitIsTimely(indexed);
    } else {
      var n := |evs| - 1;
      RunIsTimely(indexed, evs[..n]);
      NextIsTimely(CreditInterleaving.Run(Init(indexed), evs[..n]), evs[n]);
    }
  }

  lemma {:induction false} InitIsTimely(indexed: bool)
    ensures TimelyInv(Init(indexed))
  {
    hide Inv;
    InitInv(indexed);
  }

  /** As long as no grant commits behind a debit with a later stamp, no sweep ever meets the index. */
  lemma {:induction false} TimelyNeverCollides(indexed: bool, evs: seq<Event>, p: Pid)
    requires CreditInterleaving.Legal(evs) && AllInTime(Init(indexed), evs)
    requires var proc := ProcOf(CreditInterleaving.Run(Init(indexed), evs), p);
             proc.SweepLoaded? && proc.k < |Replay(proc.entries)| && Due(Replay(proc.entries)[proc.k], proc.now)
    ensures var s := CreditInterleaving.Run(Init(indexed), evs);
            var proc := ProcOf(s, p);
            !Violates(s, OffsetEntry(Replay(proc.entries)[proc.k], s.clock, s.clock))
  {
    hide Inv, Good, CreditInterleaving.Run, Replay, Overtaken, AllInTime, Violates;
    RunIsTimely(indexed, evs);
    var s := CreditInterleaving.Run(Init(indexed), evs);
    var proc := ProcOf(s, p);
    SweepCollidesExactly(s, p);
    InvParts(s, p);
    SweepIsKnown(s, proc);
    SweepBase(s, proc.now, proc.entries, proc.k, proc.rows);
    forall j | 0 <= j < |proc.entries|
      ensures !Overtaken(proc.entries, j)
    {
      if Overtaken(proc.entries, j) {
        assert proc.entries[j] in proc.entries && proc.entries[j] in s.ledger;
        OvertakenStays(proc.entries, j, s.ledger, IndexOf(s.ledger, proc.entries[j]));
      }
    }
  }

  /** And the pre-filter is complete: an org it skips has nothing to forfeit. */
  lemma {:induction false} PrefilterCompleteInTime(indexed: bool, evs: seq<Event>, now: int, i: nat)
    requires CreditInterleaving.Legal(evs) && AllInTime(Init(indexed), evs)
    requires var ledger := CreditInterleaving.Run(Init(indexed), evs).ledger;
             !Candidate(ledger, now) && i < |Replay(ledger)|
    ensures !Due(Replay(CreditInterleaving.Run(Init(indexed), evs).ledger)[i], now)
  {
    hide Knows, Empties, CreditInterleaving.Run, Replay, Overtaken, AllInTime, HasOffset, AllCovered, PairsOvertaken;
    RunIsTimely(indexed, evs);
    var s := CreditInterleaving.Run(Init(indexed), evs);
    NumberedIsDistinct(s.ledger, s.clock);
    CandidateExactly(s.ledger, now);
    if Due(Replay(s.ledger)[i], now) {
      assert Expired(Replay(s.ledger)[i], now);
      HasOffsetExactly(s.ledger, i);
    }
  }
}
