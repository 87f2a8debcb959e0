/** Runs of the interleaved ledger that show what its theorems leave open: grants of one key race when
    there is no unique index; a grant that commits late makes a sweep meet the index; and with a sweep at
    an older time after that, the pre-filter misses a bucket for good. */
module CreditWitnesses {
  import opened CreditBuckets
  import opened CreditInterleaving
  import opened CreditLedger
  import opened CreditOrder
  import opened CreditSerial
  import opened Options

  lemma {:induction false} KeylessHasNoKey(rows: Ledger, e: Entry)
    requires e.ref.NoRef?
    ensures !HasKey(rows, e)
  {
  }

  /** A sweep of a ledger with one bucket, which is due. */
  lemma {:induction false} SweepOneRuns(s: State, p: Pid)
    requires ProcOf(s, p).SweepLoaded? && ProcOf(s, p).k == 0 && ProcOf(s, p).rows == []
    requires |Replay(ProcOf(s, p).entries)| == 1 && Due(Replay(ProcOf(s, p).entries)[0], ProcOf(s, p).now)
    requires var row := OffsetEntry(Replay(ProcOf(s, p).entries)[0], s.clock, s.clock);
             !Violates(s, row) && !Waits(s, p, row)
    ensures CreditInterleaving.Run(s, [SweepBucket(p), Commit(p)])
         == Become(s, p, Idle).(
              ledger := Place(s.ledger, OffsetEntry(Replay(ProcOf(s, p).entries)[0], s.clock, s.clock)),
              clock := s.clock + 1, lock := None)
  {
    hide CreditInterleaving.Run, Place, Violates, Waits, Due, Replay, OffsetEntry;
    RunTwo(s, SweepBucket(p), Commit(p));
    var proc := ProcOf(s, p);
    var row := OffsetEntry(Replay(proc.entries)[0], s.clock, s.clock);
    PlaceOne(s.ledger, row);
    var s1 := Become(s, p, proc.(k := 1, rows := [row])).(clock := s.clock + 1);
    assert [] + [row] == [row];
    assert Next(s, SweepBucket(p)) == s1;
    assert s1.procs[p := Idle] == s.procs[p := Idle];
  }

  // ---------------------------------------------------------------- grants race

  function RacingGrants(req: Entry): seq<Event> {
    OpenGrant(1, req) + OpenGrant(2, req) + [Commit(1)] + [Commit(2)]
  }

  /** Without the index two overlapping grants of one key are both written. */
  lemma {:induction false} GrantsRaceWithoutIndex(req: Entry)
    requires req.amount > 0 && !Reserved(req) && !req.ref.NoRef?
    ensures CreditInterleaving.Legal(RacingGrants(req))
    ensures var ledger := CreditInterleaving.Run(Init(false), RacingGrants(req)).ledger;
            && ledger == [req.(id := 0, createdAt := 0), req.(id := 1, createdAt := 1)]
            && SameKey(ledger[0], ledger[1])
  {
    hide CreditInterleaving.Run, Next, HasKey, Place;
    var s0 := Init(false);
    var first, second := Stamp(s0, req), req.(id := 1, createdAt := 1);
    assert !HasKey([], req) by { EmptyHasNoKey(req); }
    OpenGrantRuns(s0, 1, req);
    var s1 := Become(s0, 1, GrantInserted(first)).(clock := 1);
    OpenGrantRuns(s1, 2, req);
    var s2 := Become(s1, 2, GrantInserted(second)).(clock := 2);
    CommitGrantRuns(s2, 1);
    PlaceAtEnd([], first);
    assert [] + [first] == [first];
    var s3 := Become(s2, 1, Idle).(ledger := [first]);
    CommitGrantRuns(s3, 2);
    PlaceAtEnd([first], second);
    RunConcat(s0, OpenGrant(1, req), OpenGrant(2, req));
    RunConcat(s0, OpenGrant(1, req) + OpenGrant(2, req), [Commit(1)]);
    RunConcat(s0, OpenGrant(1, req) + OpenGrant(2, req) + [Commit(1)], [Commit(2)]);
  }

  lemma {:induction false} EmptyHasNoKey(e: Entry)
    ensures !HasKey([], e)
  {
  }

  lemma {:induction false} PlaceAtEnd(ledger: Ledger, e: Entry)
    requires ledger == [] || ledger[|ledger| - 1].createdAt < e.createdAt
    ensures Place(ledger, e) == ledger + [e]
  {
  }

  // ---------------------------------------------------------------- a grant that commits late

  const LATER_GRANT := Entry(0, 20, PlanGrant, Signup, NoRef, At(130), 0)
  const SOONER_GRANT := Entry(1, 20, PlanGrant, Signup, NoRef, At(120), 1)
  const TEN := Entry(2, 10, LlmTokens, Signup, NoRef, Never, 2)
  const OFFSET := Entry(3, -10, ExpiryReason, ExpiredGrant, RowRef(0), Never, 3)

  function LaterBucket(remaining: int): BucketView { BucketView(0, At(130), remaining, 0) }

  function SoonerBucket(remaining: int): BucketView { BucketView(1, At(120), remaining, 1) }

  lemma {:induction false} ReplayAlone()
    ensures Sum([LATER_GRANT]) == 20
    ensures Replay([LATER_GRANT, SpendEntry(TEN)]) == [LaterBucket(10)]
  {
    ReplayAppend([], LATER_GRANT);
    SumAppend([], LATER_GRANT);
    assert [] + [LATER_GRANT] == [LATER_GRANT];
    ReplayAppend([LATER_GRANT], SpendEntry(TEN));
    assert Replay([LATER_GRANT]) == [LaterBucket(20)];
    assert IsFirst([LaterBucket(20)], 0);
    DeductionStep([LaterBucket(20)], 0, 10);
    assert TakeFrom([LaterBucket(20)], 0, 10) == [LaterBucket(10)];
    DeductionDone([LaterBucket(10)], 0);
    assert [LATER_GRANT] + [SpendEntry(TEN)] == [LATER_GRANT, SpendEntry(TEN)];
  }

  lemma {:induction false} TwoGrants()
    ensures Replay([LATER_GRANT, SOONER_GRANT]) == [LaterBucket(20), SoonerBucket(20)]
  {
    ReplayAppend([], LATER_GRANT);
    assert [] + [LATER_GRANT] == [LATER_GRANT];
    ReplayAppend([LATER_GRANT], SOONER_GRANT);
    assert [LATER_GRANT] + [SOONER_GRANT] == [LATER_GRANT, SOONER_GRANT];
  }

  lemma {:induction false} OffsetOfLater()
    ensures ReplayEntry([LaterBucket(20), SoonerBucket(10)], OFFSET) == [LaterBucket(10), SoonerBucket(10)]
  {
    hide Deduct;
    FindUnique([LaterBucket(20), SoonerBucket(10)], 0);
  }

  /** In the order of the stamps the sooner grant bears the spend, and the offset does not empty the later one. */
  lemma {:induction false} ReplayTogether()
    ensures Replay([LATER_GRANT, SOONER_GRANT, SpendEntry(TEN), OFFSET]) == [LaterBucket(10), SoonerBucket(10)]
  {
    hide Replay, Deduct;
    TwoGrants();
    SpendOnSooner();
    OffsetOfLater();
    ReplayAppend([LATER_GRANT, SOONER_GRANT], SpendEntry(TEN));
    assert [LATER_GRANT, SOONER_GRANT] + [SpendEntry(TEN)] == [LATER_GRANT, SOONER_GRANT, SpendEntry(TEN)];
    ReplayAppend([LATER_GRANT, SOONER_GRANT, SpendEntry(TEN)], OFFSET);
    assert [LATER_GRANT, SOONER_GRANT, SpendEntry(TEN)] + [OFFSET]
        == [LATER_GRANT, SOONER_GRANT, SpendEntry(TEN), OFFSET];
  }

  lemma {:induction false} SpendOnSooner()
    ensures Deduct([LaterBucket(20), SoonerBucket(20)], 10) == [LaterBucket(20), SoonerBucket(10)]
  {
    var two := [LaterBucket(20), SoonerBucket(20)];
    assert IsFirst(two, 1);
    DeductionStep(two, 1, 10);
    assert TakeFrom(two, 1, 10) == [LaterBucket(20), SoonerBucket(10)];
    DeductionDone([LaterBucket(20), SoonerBucket(10)], 0);
  }

  function Overlap(): seq<Event> {
    OpenGrant(1, LATER_GRANT) + [Commit(1)] + OpenGrant(1, SOONER_GRANT) + WholeSpend(2, TEN)
  }

  function SweepThenCommit(): seq<Event> {
    [BeginSweep(3, 200), LoadLedger(3)] + [SweepBucket(3), Commit(3)] + [Commit(1)]
  }

  /** The overlap, a whole sweep at 200, and only then the commit of the sooner grant. */
  function LateCommit(): seq<Event> {
    Overlap() + SweepThenCommit()
  }

  function LateGrant(): seq<Event> {
    LateCommit() + [BeginSweep(3, 200), LoadLedger(3)]
  }

  /** The next sweep took its time before the first one did, and got the lock after it. */
  function OlderSweep(): seq<Event> {
    LateCommit() + [BeginSweep(3, 125), LoadLedger(3)] + [SweepBucket(3), SweepBucket(3), Commit(3)]
  }

  lemma {:induction false} OverlapRuns()
    ensures var s := CreditInterleaving.Run(Init(true), Overlap());
            && s.indexed && s.ledger == [LATER_GRANT, SpendEntry(TEN)] && s.lock.None? && s.clock == 3
            && s.procs == map[1 := GrantInserted(SOONER_GRANT), 2 := Idle]
  {
    hide CreditInterleaving.Run, Next, HasKey, Place, Sum;
    var s0 := Init(true);
    KeylessHasNoKey([], LATER_GRANT);
    OpenGrantRuns(s0, 1, LATER_GRANT);
    var s1 := Become(s0, 1, GrantInserted(LATER_GRANT)).(clock := 1);
    CommitGrantRuns(s1, 1);
    PlaceAtEnd([], LATER_GRANT);
    assert [] + [LATER_GRANT] == [LATER_GRANT];
    var s2 := Become(s1, 1, Idle).(ledger := [LATER_GRANT]);
    KeylessHasNoKey([LATER_GRANT], SOONER_GRANT);
    OpenGrantRuns(s2, 1, SOONER_GRANT);
    var s3 := Become(s2, 1, GrantInserted(SOONER_GRANT)).(clock := 2);
    ReplayAlone();
    KeylessHasNoKey([LATER_GRANT], TEN);
    KeylessHasNoKey([SOONER_GRANT], TEN);
    WholeSpendRuns(s3, 2, TEN);
    PlaceAtEnd([LATER_GRANT], SpendEntry(TEN));
    assert [LATER_GRANT] + [SpendEntry(TEN)] == [LATER_GRANT, SpendEntry(TEN)];
    RunConcat(s0, OpenGrant(1, LATER_GRANT), [Commit(1)]);
    RunConcat(s0, OpenGrant(1, LATER_GRANT) + [Commit(1)], OpenGrant(1, SOONER_GRANT));
    RunConcat(s0, OpenGrant(1, LATER_GRANT) + [Commit(1)] + OpenGrant(1, SOONER_GRANT), WholeSpend(2, TEN));
  }

  /** The sweep of the overlap writes its offset; then the sooner grant commits in front of the spend. */
  lemma {:induction false} OffsetThenGrant(s: State)
    requires s.indexed && s.ledger == [LATER_GRANT, SpendEntry(TEN)] && s.lock.None? && s.clock == 3
    requires s.procs == map[1 := GrantInserted(SOONER_GRANT), 2 := Idle]
    ensures var s' := CreditInterleaving.Run(s, SweepThenCommit());
            && s'.indexed && s'.lock.None? && ProcOf(s', 3).Idle? && s'.clock == 4
            && (forall q :: q in s'.procs ==> s'.procs[q].Idle?)
            && s'.ledger == [LATER_GRANT, SOONER_GRANT, SpendEntry(TEN), OFFSET]
  {
    hide CreditInterleaving.Run, Next, Place, Replay;
    LoadRuns(s, 3, 200);
    var s1 := Become(s, 3, SweepLoaded(200, s.ledger, 0, [])).(lock := Some(3));
    ReplayAlone();
    assert OffsetEntry(LaterBucket(10), 3, 3) == OFFSET;
    assert !HasKey(s.ledger, OFFSET);
    assert !Waits(s1, 3, OFFSET);
    SweepOneRuns(s1, 3);
    PlaceAtEnd(s.ledger, OFFSET);
    assert s.ledger + [OFFSET] == [LATER_GRANT, SpendEntry(TEN), OFFSET];
    var s2 := Become(s1, 3, Idle).(ledger := [LATER_GRANT, SpendEntry(TEN), OFFSET], clock := 4, lock := None);
    CommitGrantRuns(s2, 1);
    PlacedInFront();
    RunConcat(s, [BeginSweep(3, 200), LoadLedger(3)], [SweepBucket(3), Commit(3)]);
    RunConcat(s, [BeginSweep(3, 200), LoadLedger(3)] + [SweepBucket(3), Commit(3)], [Commit(1)]);
  }

  lemma {:induction false} PlacedInFront()
    ensures Place([LATER_GRANT, SpendEntry(TEN), OFFSET], SOONER_GRANT)
         == [LATER_GRANT, SOONER_GRANT, SpendEntry(TEN), OFFSET]
  {
    var three, two := [LATER_GRANT, SpendEntry(TEN), OFFSET], [LATER_GRANT, SpendEntry(TEN)];
    assert three[..2] == two && two[..1] == [LATER_GRANT];
    PlaceAtEnd([LATER_GRANT], SOONER_GRANT);
    assert Place(two, SOONER_GRANT) == Place([LATER_GRANT], SOONER_GRANT) + [SpendEntry(TEN)];
    assert Place(three, SOONER_GRANT) == Place(two, SOONER_GRANT) + [OFFSET];
  }

  lemma {:induction false} LateCommitRuns()
    ensures var s := CreditInterleaving.Run(Init(true), LateCommit());
            && s.indexed && s.lock.None? && ProcOf(s, 3).Idle? && s.clock == 4
            && s.ledger == [LATER_GRANT, SOONER_GRANT, SpendEntry(TEN), OFFSET]
            && forall q :: q in s.procs ==> s.procs[q].Idle?
  {
    hide CreditInterleaving.Run, Next;
    OverlapRuns();
    OffsetThenGrant(CreditInterleaving.Run(Init(true), Overlap()));
    RunConcat(Init(true), Overlap(), SweepThenCommit());
  }

  /** The run after which a sweep meets the unique index: the later grant is due again, and its offset
      is already written. */
  lemma {:induction false} LateGrantCollides()
    ensures CreditInterleaving.Legal(LateGrant())
    ensures var s := CreditInterleaving.Run(Init(true), LateGrant());
            var proc := ProcOf(s, 3);
            && proc.SweepLoaded? && proc.k == 0 && Replay(proc.entries) == [LaterBucket(10), SoonerBucket(10)]
            && Due(LaterBucket(10), proc.now) && Violates(s, OffsetEntry(LaterBucket(10), s.clock, s.clock))
            && Overtaken(proc.entries, 3) && Sum(s.ledger) == 20
  {
    hide CreditInterleaving.Run, Next, Place, Replay, Overtaken, Sum;
    LateCommitRuns();
    var s := CreditInterleaving.Run(Init(true), LateCommit());
    LoadRuns(s, 3, 200);
    RunConcat(Init(true), LateCommit(), [BeginSweep(3, 200), LoadLedger(3)]);
    ReplayTogether();
    assert SameKey(s.ledger[3], OffsetEntry(LaterBucket(10), s.clock, s.clock));
    LegalParts();
    OffsetIsOvertaken();
    SumOfFour();
  }

  // ---------------------------------------------------------------- a bucket the pre-filter misses

  const SECOND_OFFSET := Entry(4, -10, ExpiryReason, ExpiredGrant, RowRef(1), Never, 4)

  function MissedLedger(): Ledger {
    [LATER_GRANT, SOONER_GRANT, SpendEntry(TEN), OFFSET, SECOND_OFFSET]
  }

  /** A sweep of a ledger with two buckets, of which only the second is due. */
  lemma {:induction false} SweepSecondRuns(s: State, p: Pid)
    requires ProcOf(s, p).SweepLoaded? && ProcOf(s, p).k == 0 && ProcOf(s, p).rows == []
    requires |Replay(ProcOf(s, p).entries)| == 2
    requires !Due(Replay(ProcOf(s, p).entries)[0], ProcOf(s, p).now)
    requires Due(Replay(ProcOf(s, p).entries)[1], ProcOf(s, p).now)
    requires s.lock == Some(p) && forall q :: q in s.procs && q != p ==> s.procs[q].Idle?
    requires !HasKey(s.ledger, OffsetEntry(Replay(ProcOf(s, p).entries)[1], s.clock, s.clock))
    ensures CreditInterleaving.Run(s, [SweepBucket(p), SweepBucket(p), Commit(p)]).ledger
         == Place(s.ledger, OffsetEntry(Replay(ProcOf(s, p).entries)[1], s.clock, s.clock))
  {
    hide CreditInterleaving.Run, Place, Due, Replay, OffsetEntry, HasKey;
    RunThree(s, SweepBucket(p), SweepBucket(p), Commit(p));
    var proc := ProcOf(s, p);
    var row := OffsetEntry(Replay(proc.entries)[1], s.clock, s.clock);
    PlaceOne(s.ledger, row);
    EmptyHasNoKey(row);
    var s1 := Become(s, p, proc.(k := 1));
    assert Next(s, SweepBucket(p)) == s1;
    assert !Waits(s1, p, row);
    var s2 := Become(s1, p, proc.(k := 2, rows := [row])).(clock := s.clock + 1);
    assert [] + [row] == [row];
    assert Next(s1, SweepBucket(p)) == s2;
  }

  lemma {:induction false} ReplayMissed()
    ensures Replay(MissedLedger()) == [LaterBucket(10), SoonerBucket(0)]
  {
    hide Replay, Deduct;
    ReplayTogether();
    var four := [LATER_GRANT, SOONER_GRANT, SpendEntry(TEN), OFFSET];
    ReplayAppend(four, SECOND_OFFSET);
    assert four + [SECOND_OFFSET] == MissedLedger();
    FindUnique([LaterBucket(10), SoonerBucket(10)], 1);
  }

  lemma {:induction false} MissedIsSkipped()
    ensures !Candidate(MissedLedger(), 200)
  {
    hide Replay;
    var ledger := MissedLedger();
    assert ledger[3].ref == RowRef(ledger[0].id) && ledger[4].ref == RowRef(ledger[1].id);
    assert HasOffset(ledger, ledger[0].id) && HasOffset(ledger, ledger[1].id);
  }

  /** A run from the empty ledger after which the pre-filter misses a due bucket: both grants have their
      offsets, and the later one holds 10 that a sweep at 200 should forfeit. */
  lemma {:induction false} PrefilterMisses()
    ensures CreditInterleaving.Legal(OlderSweep())
    ensures CreditInterleaving.Run(Init(true), OlderSweep()).ledger == MissedLedger()
    ensures Missed(MissedLedger(), 200) && Replay(MissedLedger()) == [LaterBucket(10), SoonerBucket(0)]
  {
    hide CreditInterleaving.Run, Next, Place, Replay, Candidate;
    LateCommitRuns();
    var s := CreditInterleaving.Run(Init(true), LateCommit());
    LoadRuns(s, 3, 125);
    var s1 := Become(s, 3, SweepLoaded(125, s.ledger, 0, [])).(lock := Some(3));
    ReplayTogether();
    assert OffsetEntry(SoonerBucket(10), 4, 4) == SECOND_OFFSET;
    assert !HasKey(s.ledger, SECOND_OFFSET);
    SweepSecondRuns(s1, 3);
    PlaceAtEnd(s.ledger, SECOND_OFFSET);
    assert s.ledger + [SECOND_OFFSET] == MissedLedger();
    RunConcat(Init(true), LateCommit(), [BeginSweep(3, 125), LoadLedger(3)]);
    RunConcat(Init(true), LateCommit() + [BeginSweep(3, 125), LoadLedger(3)],
              [SweepBucket(3), SweepBucket(3), Commit(3)]);
    ReplayMissed();
    MissedIsSkipped();
    assert Due(Replay(MissedLedger())[0], 200);
    OlderSweepIsLegal();
  }

  lemma {:induction false} OlderSweepIsLegal()
    ensures CreditInterleaving.Legal(OlderSweep())
  {
  }

  lemma {:induction false} SumOfFour()
    ensures Sum([LATER_GRANT, SOONER_GRANT, SpendEntry(TEN), OFFSET]) == 20
  {
    hide Sum;
    SumAppend([], LATER_GRANT);
    SumAppend([LATER_GRANT], SOONER_GRANT);
    SumAppend([LATER_GRANT, SOONER_GRANT], SpendEntry(TEN));
    SumAppend([LATER_GRANT, SOONER_GRANT, SpendEntry(TEN)], OFFSET);
    assert Sum([]) == 0 by { SumOfNothing(); }
    assert [] + [LATER_GRANT] == [LATER_GRANT];
    assert [LATER_GRANT] + [SOONER_GRANT] == [LATER_GRANT, SOONER_GRANT];
    assert [LATER_GRANT, SOONER_GRANT] + [SpendEntry(TEN)] == [LATER_GRANT, SOONER_GRANT, SpendEntry(TEN)];
    assert [LATER_GRANT, SOONER_GRANT, SpendEntry(TEN)] + [OFFSET]
        == [LATER_GRANT, SOONER_GRANT, SpendEntry(TEN), OFFSET];
  }

  lemma {:induction false} SumOfNothing()
    ensures Sum([]) == 0
  {
  }

  lemma {:induction false} OffsetIsOvertaken()
    ensures Overtaken([LATER_GRANT, SOONER_GRANT, SpendEntry(TEN), OFFSET], 3)
  {
    hide Replay;
    var ledger := [LATER_GRANT, SOONER_GRANT, SpendEntry(TEN), OFFSET];
    ReplayTogether();
    assert ledger[..4] == ledger;
    FindUnique([LaterBucket(10), SoonerBucket(10)], 0);
  }

  lemma {:induction false} LegalParts()
    ensures CreditInterleaving.Legal(LateGrant())
  {
  }
}
