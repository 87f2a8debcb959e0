/** A transaction that nothing disturbs: the steps of one grant, spend or sweep with no step of another
    transaction between them do to the ledger what the operation of that name does in the serialised
    model, outcome by outcome. */
module CreditSerial {
  import opened CreditBuckets
  import opened CreditInterleaving
  import opened CreditLedger
  import opened CreditOrder
  import opened Options

  lemma {:induction false} RunConcat(s: State, a: seq<Event>, b: seq<Event>)
    ensures CreditInterleaving.Run(s, a + b) == CreditInterleaving.Run(CreditInterleaving.Run(s, a), b)
  {
    hide Next;
    if b == [] {
      assert a + b == a;
    } else {
      assert (a + b)[..|a + b| - 1] == a + b[..|b| - 1];
      RunConcat(s, a, b[..|b| - 1]);
    }
  }

  lemma {:induction false} RunOne(s: State, ev: Event)
    ensures CreditInterleaving.Run(s, [ev]) == Next(s, ev)
  {
    hide Next;
    assert [ev][..0] == [];
    assert CreditInterleaving.Run(s, [ev][..0]) == s;
  }

  lemma {:induction false} RunTwo(s: State, a: Event, b: Event)
    ensures CreditInterleaving.Run(s, [a, b]) == Next(Next(s, a), b)
  {
    hide Next, CreditInterleaving.Run;
    assert [a] + [b] == [a, b];
    RunConcat(s, [a], [b]);
    RunOne(s, a);
    RunOne(Next(s, a), b);
  }

  lemma {:induction false} RunThree(s: State, a: Event, b: Event, c: Event)
    ensures CreditInterleaving.Run(s, [a, b, c]) == Next(Next(Next(s, a), b), c)
  {
    hide Next, CreditInterleaving.Run;
    assert [a, b] + [c] == [a, b, c];
    RunConcat(s, [a, b], [c]);
    RunTwo(s, a, b);
    RunOne(Next(Next(s, a), b), c);
  }

  /** A grant up to its insert, not yet committed. */
  function OpenGrant(p: Pid, req: Entry): seq<Event> {
    [BeginGrant(p, req), StampGrant(p), InsertGrant(p)]
  }

  function WholeGrant(p: Pid, req: Entry): seq<Event> {
    OpenGrant(p, req) + [Commit(p)]
  }

  function WholeSpend(p: Pid, req: Entry): seq<Event> {
    [BeginSpend(p, req), ReadBalance(p), CheckBalance(p)] + [CheckKey(p), StampSpend(p), InsertSpend(p)] + [Commit(p)]
  }

  /** No other open transaction holds this key, so an insert does not have to wait. */
  predicate KeyIsFree(s: State, p: Pid, req: Entry) {
    s.indexed ==> forall q :: q in s.procs && q != p ==> !HasKey(PendingRows(s.procs[q]), req)
  }

  lemma {:induction false} SameKeySameRows(rows: Ledger, e: Entry, d: Entry)
    requires e.reason == d.reason && e.refType == d.refType && e.ref == d.ref
    ensures HasKey(rows, e) <==> HasKey(rows, d)
  {
    if i :| 0 <= i < |rows| && SameKey(rows[i], e) {
      assert SameKey(rows[i], d);
    }
    if i :| 0 <= i < |rows| && SameKey(rows[i], d) {
      assert SameKey(rows[i], e);
    }
  }

  /** A row whose key is new and free is inserted. */
  lemma {:induction false} NothingInTheWay(s: State, p: Pid, req: Entry, row: Entry)
    requires req.reason == row.reason && req.refType == row.refType && req.ref == row.ref
    requires KeyIsFree(s, p, req) && !HasKey(s.ledger, req)
    ensures !Violates(s, row) && !Waits(s, p, row)
  {
    hide HasKey;
    SameKeySameRows(s.ledger, req, row);
    forall q | q in s.procs && q != p
      ensures HasKey(PendingRows(s.procs[q]), row) <==> HasKey(PendingRows(s.procs[q]), req)
    {
      SameKeySameRows(PendingRows(s.procs[q]), req, row);
    }
  }

  lemma {:induction false} OpenGrantRuns(s: State, p: Pid, req: Entry)
    requires ProcOf(s, p).Idle? && req.amount > 0 && !HasKey(s.ledger, req) && KeyIsFree(s, p, req)
    ensures CreditInterleaving.Run(s, OpenGrant(p, req))
         == Become(s, p, GrantInserted(Stamp(s, req))).(clock := s.clock + 1)
  {
    hide HasKey, CreditInterleaving.Run;
    RunThree(s, BeginGrant(p, req), StampGrant(p), InsertGrant(p));
    var row := Stamp(s, req);
    var s1, s2 := Become(s, p, GrantNew(req)), Become(s, p, GrantStamped(row)).(clock := s.clock + 1);
    assert Next(s, BeginGrant(p, req)) == s1;
    assert Next(s1, StampGrant(p)) == s2 by { assert s1.procs[p := GrantStamped(row)] == s2.procs; }
    NothingInTheWay(s2, p, req, row);
    assert s2.procs[p := GrantInserted(row)] == s.procs[p := GrantInserted(row)];
  }

  lemma {:induction false} CommitGrantRuns(s: State, p: Pid)
    requires ProcOf(s, p).GrantInserted?
    ensures CreditInterleaving.Run(s, [Commit(p)]) == Become(s, p, Idle).(ledger := Place(s.ledger, ProcOf(s, p).row))
  {
    hide Place, CreditInterleaving.Run;
    RunOne(s, Commit(p));
    PlaceOne(s.ledger, ProcOf(s, p).row);
  }

  lemma {:induction false} GrantIsRefused(s: State, p: Pid, req: Entry)
    requires ProcOf(s, p).Idle? && (req.amount <= 0 || HasKey(s.ledger, req))
    ensures CreditInterleaving.Run(s, WholeGrant(p, req)) == s
  {
    hide CreditInterleaving.Run, HasKey;
    RunThree(s, BeginGrant(p, req), StampGrant(p), InsertGrant(p));
    RunConcat(s, OpenGrant(p, req), [Commit(p)]);
    RunOne(s, Commit(p));
  }

  /** The stamp of a new row is behind every row of the ledger. */
  lemma {:induction false} StampIsLast(s: State, row: Entry)
    requires Inv(s) && row.createdAt == s.clock
    ensures Place(s.ledger, row) == s.ledger + [row]
  {
    if s.ledger != [] {
      assert s.ledger[|s.ledger| - 1] in s.ledger;
    }
  }

  /** The state after a transaction of p that left the ledger as given: p is idle, nothing is locked, and
      the other transactions are where they were. */
  ghost predicate Finished(s: State, after: State, p: Pid, ledger: Ledger) {
    && after.ledger == ledger && after.lock == s.lock && after.indexed == s.indexed
    && ProcOf(after, p) == Idle && s.clock <= after.clock
    && forall q :: q != p ==> ProcOf(after, q) == ProcOf(s, q)
  }

  /** A grant alone: refused or appended as the serialised grant, under the next stamp. */
  lemma {:induction false} GrantAlone(s: State, p: Pid, req: Entry)
    requires Inv(s) && ProcOf(s, p).Idle? && KeyIsFree(s, p, req)
    ensures Finished(s, CreditInterleaving.Run(s, WholeGrant(p, req)), p, Grant(s.ledger, Stamp(s, req)).1)
  {
    hide Inv, CreditInterleaving.Run, Place, HasKey, Next;
    var row := Stamp(s, req);
    SameKeySameRows(s.ledger, req, row);
    if req.amount <= 0 || HasKey(s.ledger, req) {
      GrantIsRefused(s, p, req);
    } else {
      var s1 := Become(s, p, GrantInserted(row)).(clock := s.clock + 1);
      OpenGrantRuns(s, p, req);
      RunConcat(s, OpenGrant(p, req), [Commit(p)]);
      CommitGrantRuns(s1, p);
      StampIsLast(s, row);
    }
  }

  lemma {:induction false} SpendReads(s: State, p: Pid, req: Entry)
    requires ProcOf(s, p).Idle? && s.lock.None?
    ensures var s' := CreditInterleaving.Run(s, [BeginSpend(p, req), ReadBalance(p), CheckBalance(p)]);
            s' == if req.amount <= 0 then s
                  else if Sum(s.ledger) < req.amount then Become(s, p, Idle)
                  else Become(s, p, SpendCovered(req)).(lock := Some(p))
  {
    hide CreditInterleaving.Run, Sum;
    RunThree(s, BeginSpend(p, req), ReadBalance(p), CheckBalance(p));
    if req.amount > 0 {
      var s1 := Lock(s, p, SpendLocked(req));
      var s2 := Lock(s, p, SpendRead(req, Sum(s.ledger)));
      assert Next(s1, ReadBalance(p)) == s2 by { assert s1.procs[p := SpendRead(req, Sum(s.ledger))] == s2.procs; }
      assert s2.procs[p := SpendCovered(req)] == s.procs[p := SpendCovered(req)];
      assert s2.procs[p := Idle] == s.procs[p := Idle];
    }
  }

  lemma {:induction false} SpendWrites(s: State, p: Pid, req: Entry)
    requires ProcOf(s, p) == SpendCovered(req) && KeyIsFree(s, p, req)
    ensures var s' := CreditInterleaving.Run(s, [CheckKey(p), StampSpend(p), InsertSpend(p)]);
            s' == if HasKey(s.ledger, req) then End(s, p)
                  else Become(s, p, SpendInserted(Stamp(s, SpendEntry(req)))).(clock := s.clock + 1)
  {
    hide HasKey, CreditInterleaving.Run;
    RunThree(s, CheckKey(p), StampSpend(p), InsertSpend(p));
    if !HasKey(s.ledger, req) {
      var row := Stamp(s, SpendEntry(req));
      var s1, s2 := Become(s, p, SpendNew(req)), Become(s, p, SpendStamped(row)).(clock := s.clock + 1);
      assert Next(s1, StampSpend(p)) == s2 by { assert s1.procs[p := SpendStamped(row)] == s2.procs; }
      NothingInTheWay(s2, p, req, row);
      assert s2.procs[p := SpendInserted(row)] == s.procs[p := SpendInserted(row)];
    }
  }

  lemma {:induction false} SpendCommits(s: State, p: Pid)
    requires ProcOf(s, p).SpendInserted?
    ensures CreditInterleaving.Run(s, [Commit(p)])
         == Become(s, p, Idle).(ledger := Place(s.ledger, ProcOf(s, p).row), lock := None)
  {
    hide Place, CreditInterleaving.Run;
    RunOne(s, Commit(p));
    PlaceOne(s.ledger, ProcOf(s, p).row);
  }

  lemma {:induction false} WholeSpendRuns(s: State, p: Pid, req: Entry)
    requires ProcOf(s, p).Idle? && s.lock.None? && KeyIsFree(s, p, req)
    requires 0 < req.amount <= Sum(s.ledger) && !HasKey(s.ledger, req)
    ensures CreditInterleaving.Run(s, WholeSpend(p, req))
         == Become(s, p, Idle).(ledger := Place(s.ledger, Stamp(s, SpendEntry(req))), clock := s.clock + 1)
  {
    hide CreditInterleaving.Run, Place, Next, Sum, HasKey;
    var row := Stamp(s, SpendEntry(req));
    var s1 := Become(s, p, SpendCovered(req)).(lock := Some(p));
    var s2 := Become(s1, p, SpendInserted(row)).(clock := s.clock + 1);
    SpendReads(s, p, req);
    SpendWrites(s1, p, req);
    RunConcat(s, [BeginSpend(p, req), ReadBalance(p), CheckBalance(p)], [CheckKey(p), StampSpend(p), InsertSpend(p)]);
    RunConcat(s, [BeginSpend(p, req), ReadBalance(p), CheckBalance(p)] + [CheckKey(p), StampSpend(p), InsertSpend(p)],
              [Commit(p)]);
    SpendCommits(s2, p);
    assert s2.procs[p := Idle] == s.procs[p := Idle];
  }

  lemma {:induction false} SpendIsRefused(s: State, p: Pid, req: Entry)
    requires ProcOf(s, p).Idle? && s.lock.None? && KeyIsFree(s, p, req)
    requires req.amount <= 0 || Sum(s.ledger) < req.amount || HasKey(s.ledger, req)
    ensures Finished(s, CreditInterleaving.Run(s, WholeSpend(p, req)), p, s.ledger)
  {
    hide CreditInterleaving.Run, Sum, HasKey;
    var s1 := CreditInterleaving.Run(s, [BeginSpend(p, req), ReadBalance(p), CheckBalance(p)]);
    SpendReads(s, p, req);
    RunConcat(s, [BeginSpend(p, req), ReadBalance(p), CheckBalance(p)], [CheckKey(p), StampSpend(p), InsertSpend(p)]);
    RunConcat(s, [BeginSpend(p, req), ReadBalance(p), CheckBalance(p)] + [CheckKey(p), StampSpend(p), InsertSpend(p)],
              [Commit(p)]);
    RunThree(s1, CheckKey(p), StampSpend(p), InsertSpend(p));
    RunOne(CreditInterleaving.Run(s1, [CheckKey(p), StampSpend(p), InsertSpend(p)]), Commit(p));
    if ProcOf(s1, p) == SpendCovered(req) {
      SpendWrites(s1, p, req);
    }
  }

  /** A spend alone, with the lock free: refused or appended as the serialised spend. */
  lemma {:induction false} SpendAlone(s: State, p: Pid, req: Entry)
    requires Inv(s) && ProcOf(s, p).Idle? && s.lock.None? && KeyIsFree(s, p, req)
    ensures Finished(s, CreditInterleaving.Run(s, WholeSpend(p, req)), p, Spend(s.ledger, Stamp(s, req)).1)
  {
    hide Inv, CreditInterleaving.Run, Place, HasKey, Next, Sum;
    SameKeySameRows(s.ledger, req, Stamp(s, req));
    if req.amount <= 0 || Sum(s.ledger) < req.amount || HasKey(s.ledger, req) {
      SpendIsRefused(s, p, req);
    } else {
      WholeSpendRuns(s, p, req);
      StampIsLast(s, Stamp(s, SpendEntry(req)));
    }
  }

  // ---------------------------------------------------------------- a sweep

  lemma {:induction false} LoadRuns(s: State, p: Pid, now: int)
    requires ProcOf(s, p).Idle? && s.lock.None?
    ensures CreditInterleaving.Run(s, [BeginSweep(p, now), LoadLedger(p)])
         == Become(s, p, SweepLoaded(now, s.ledger, 0, [])).(lock := Some(p))
  {
    hide CreditInterleaving.Run;
    RunTwo(s, BeginSweep(p, now), LoadLedger(p));
    var s1 := Lock(s, p, SweepLocked(now));
    assert s1.procs[p := SweepLoaded(now, s.ledger, 0, [])] == s.procs[p := SweepLoaded(now, s.ledger, 0, [])];
  }

  /** A sweep up to the point where it has dealt with k buckets. */
  function SweepUpTo(p: Pid, now: int, k: nat): seq<Event> {
    if k == 0 then [BeginSweep(p, now), LoadLedger(p)] else SweepUpTo(p, now, k - 1) + [SweepBucket(p)]
  }

  function WholeSweep(p: Pid, now: int, k: nat): seq<Event> {
    SweepUpTo(p, now, k) + [Commit(p)]
  }

  lemma {:induction false} SweepUpToIsLegal(p: Pid, now: int, k: nat)
    ensures CreditInterleaving.Legal(SweepUpTo(p, now, k))
  {
    if k > 0 {
      SweepUpToIsLegal(p, now, k - 1);
    }
  }

  /** No due bucket of this ledger has an offset that was overtaken. */
  predicate NoneStuck(ledger: Ledger, now: int) {
    forall i :: 0 <= i < |Replay(ledger)| && Due(Replay(ledger)[i], now) ==> !BucketOvertaken(ledger, i)
  }

  /** The sweep gets through its first k buckets and nothing else moves. */
  ghost predicate HasSwept(s: State, after: State, p: Pid, now: int, k: nat) {
    && ProcOf(after, p).SweepLoaded? && ProcOf(after, p).now == now && ProcOf(after, p).entries == s.ledger
    && ProcOf(after, p).k == k
    && after.ledger == s.ledger && after.lock == Some(p) && after.indexed == s.indexed && s.clock <= after.clock
    && forall q :: q != p ==> ProcOf(after, q) == ProcOf(s, q)
  }

  lemma {:induction false} SweepProceeds(s: State, p: Pid, now: int, k: nat)
    requires Inv(s) && ProcOf(s, p).Idle? && s.lock.None? && k <= |Replay(s.ledger)|
    requires s.indexed ==> NoneStuck(s.ledger, now)
    ensures Inv(CreditInterleaving.Run(s, SweepUpTo(p, now, k)))
    ensures HasSwept(s, CreditInterleaving.Run(s, SweepUpTo(p, now, k)), p, now, k)
  {
    hide Inv, CreditInterleaving.Run, Next, Replay, Due, Overtaken;
    SweepUpToIsLegal(p, now, k);
    RunKeepsInv(s, SweepUpTo(p, now, k));
    if k == 0 {
      LoadRuns(s, p, now);
    } else {
      SweepProceeds(s, p, now, k - 1);
      var before := CreditInterleaving.Run(s, SweepUpTo(p, now, k - 1));
      RunConcat(s, SweepUpTo(p, now, k - 1), [SweepBucket(p)]);
      RunOne(before, SweepBucket(p));
      BucketProceeds(before, p);
    }
  }

  lemma {:induction false} BucketProceeds(s: State, p: Pid)
    requires Inv(s) && ProcOf(s, p).SweepLoaded? && ProcOf(s, p).k < |Replay(ProcOf(s, p).entries)|
    requires s.indexed ==> NoneStuck(ProcOf(s, p).entries, ProcOf(s, p).now)
    ensures var proc, s' := ProcOf(s, p), Next(s, SweepBucket(p));
            && ProcOf(s', p).SweepLoaded?
            && ProcOf(s', p) == proc.(k := proc.k + 1, rows := ProcOf(s', p).rows)
            && s' == Become(s, p, ProcOf(s', p)).(clock := s'.clock) && s.clock <= s'.clock
  {
    hide Inv, Replay, Due, Overtaken, Violates, Waits, OffsetEntry;
    if Due(Replay(ProcOf(s, p).entries)[ProcOf(s, p).k], ProcOf(s, p).now) {
      SweepCollidesExactly(s, p);
    }
  }

  lemma {:induction false} AppendPlaced(front: Ledger, e: Entry)
    requires Ordered(front + [e])
    ensures Place(front, e) == front + [e]
  {
    if front != [] {
      assert (front + [e])[|front| - 1] == front[|front| - 1] && (front + [e])[|front|] == e;
    }
  }

  lemma {:induction false} RowsArePlacedBehind(entries: Ledger, rows: Ledger)
    requires Ordered(entries + rows)
    ensures PlaceAll(entries, rows) == entries + rows
  {
    hide Place, Ordered;
    if rows == [] {
      assert entries + rows == entries;
    } else {
      var n := |rows| - 1;
      var front := entries + rows[..n];
      assert entries + rows == front + [rows[n]];
      assert (entries + rows)[..|entries + rows| - 1] == front;
      OrderedPrefix(entries + rows);
      RowsArePlacedBehind(entries, rows[..n]);
      AppendPlaced(front, rows[n]);
    }
  }

  /** What the rows of a finished sweep come to. */
  lemma {:induction false} RowsForfeit(s: State, p: Pid)
    requires Inv(s) && ProcOf(s, p).SweepLoaded? && ProcOf(s, p).k == |Replay(ProcOf(s, p).entries)|
    ensures var proc := ProcOf(s, p);
            var after := proc.entries + proc.rows;
            && PlaceAll(proc.entries, proc.rows) == after
            && Replay(after) == Forfeit(Replay(proc.entries), proc.now)
            && Sum(after) == Late(Replay(proc.entries), At(proc.now))
  {
    hide Inv, Replay, Good, SweepRows, Sum, AllCovered, ForfeitFirst, Apart, Place, PlaceAll;
    var proc := ProcOf(s, p);
    InvParts(s, p);
    SweepIsKnown(s, proc);
    SweepComputed(s, proc.now, proc.entries, proc.k, proc.rows);
    CoveredConservation(proc.entries + proc.rows);
    RowsArePlacedBehind(proc.entries, proc.rows);
    ReplayNonNegative(proc.entries);
    ForfeitSum(Replay(proc.entries), proc.now, Any(), NoSooner(At(proc.now)));
  }

  /** A sweep that nothing disturbs, on a ledger whose due buckets have no overtaken offset: it commits,
      every due bucket is empty, the others hold what they held, and the balance is the unexpired
      remainder, as after the serialised sweep. */
  lemma {:induction false} SweepAlone(s: State, p: Pid, now: int)
    requires Inv(s) && ProcOf(s, p).Idle? && s.lock.None?
    requires s.indexed ==> NoneStuck(s.ledger, now)
    ensures var after := CreditInterleaving.Run(s, WholeSweep(p, now, |Replay(s.ledger)|));
            && Finished(s, after, p, after.ledger)
            && s.ledger <= after.ledger
            && Replay(after.ledger) == Forfeit(Replay(s.ledger), now)
            && Sum(after.ledger) == Late(Replay(s.ledger), At(now))
  {
    hide Inv, CreditInterleaving.Run, Next, Replay, Sum, ForfeitFirst, PlaceAll, NoneStuck, Late, Forfeit;
    var n := |Replay(s.ledger)|;
    var before := CreditInterleaving.Run(s, SweepUpTo(p, now, n));
    SweepProceeds(s, p, now, n);
    RunConcat(s, SweepUpTo(p, now, n), [Commit(p)]);
    RunOne(before, Commit(p));
    SweepCommits(before, p);
    RowsForfeit(before, p);
  }

  lemma {:induction false} SweepComputed(s: State, now: int, entries: Ledger, k: nat, rows: Ledger)
    requires SweepRows(s, now, entries, k, rows) && k == |Replay(entries)|
    ensures Ordered(entries + rows) && AllCovered(entries + rows)
    ensures Replay(entries + rows) == Forfeit(Replay(entries), now)
  {
  }

  lemma {:induction false} SweepCommits(s: State, p: Pid)
    requires ProcOf(s, p).SweepLoaded? && ProcOf(s, p).k == |Replay(ProcOf(s, p).entries)|
    ensures Next(s, Commit(p)) == Become(s, p, Idle).(lock := None, ledger := PlaceAll(s.ledger, ProcOf(s, p).rows))
  {
  }
}
