/** Concurrent grants, spends and sweeps on one org, as a machine whose steps are the single database
    actions of each transaction.  Spends and sweeps hold the org's row lock from their first step to
    their commit; grants take no lock.  A row gets its created_at stamp before it is inserted, is
    invisible to the others until its transaction commits, and then takes the place its stamp gives
    it, since the replay sorts by created_at.  The unique index, where it exists, guards the keys of
    uncommitted rows too. */
module CreditInterleaving {
  import opened CreditBuckets
  import opened CreditLedger
  import opened CreditOrder
  import opened Options

  type Pid = nat

  /** Where a process stands in its transaction. */
  datatype Proc =
    | Idle
    | SpendLocked(req: Entry)
    | SpendRead(req: Entry, current: int)
    | SpendCovered(req: Entry)
    | SpendNew(req: Entry)
    | SpendStamped(row: Entry)
    | SpendInserted(row: Entry)
    | SweepLocked(now: int)
    | SweepLoaded(now: int, entries: Ledger, k: nat, rows: Ledger)
    | GrantNew(req: Entry)
    | GrantStamped(row: Entry)
    | GrantInserted(row: Entry)

  /** The clock gives out stamps and ids; `indexed` says whether the unique index exists. */
  datatype State = State(indexed: bool, ledger: Ledger, lock: Option<Pid>, procs: map<Pid, Proc>, clock: nat)

  datatype Event =
    | BeginSpend(p: Pid, req: Entry)
    | ReadBalance(p: Pid)
    | CheckBalance(p: Pid)
    | CheckKey(p: Pid)
    | StampSpend(p: Pid)
    | InsertSpend(p: Pid)
    | BeginSweep(p: Pid, now: int)
    | LoadLedger(p: Pid)
    | SweepBucket(p: Pid)
    | BeginGrant(p: Pid, req: Entry)
    | StampGrant(p: Pid)
    | InsertGrant(p: Pid)
    | Commit(p: Pid)
    | Rollback(p: Pid)

  function ProcOf(s: State, p: Pid): Proc {
    if p in s.procs then s.procs[p] else Idle
  }

  /** The uncommitted rows of a transaction. */
  function PendingRows(proc: Proc): Ledger {
    match proc
    case SpendInserted(row) => [row]
    case GrantInserted(row) => [row]
    case SweepLoaded(_, _, _, rows) => rows
    case _ => []
  }

  /** The rows that have their stamp. */
  function StampedRows(proc: Proc): Ledger {
    match proc
    case SpendStamped(row) => [row]
    case GrantStamped(row) => [row]
    case _ => PendingRows(proc)
  }

  predicate HoldsLock(proc: Proc) {
    !proc.Idle? && !proc.GrantNew? && !proc.GrantStamped? && !proc.GrantInserted?
  }

  function Become(s: State, p: Pid, proc: Proc): State {
    s.(procs := s.procs[p := proc])
  }

  /** The transaction ends: its lock, if it has one, is freed. */
  function End(s: State, p: Pid): State {
    Become(s, p, Idle).(lock := if HoldsLock(ProcOf(s, p)) then None else s.lock)
  }

  function Lock(s: State, p: Pid, proc: Proc): State {
    Become(s, p, proc).(lock := Some(p))
  }

  function Stamp(s: State, e: Entry): Entry {
    e.(id := s.clock, createdAt := s.clock)
  }

  /** Another open transaction has already inserted this key: the insert waits for it. */
  predicate Waits(s: State, p: Pid, row: Entry) {
    s.indexed && exists q :: q in s.procs && q != p && HasKey(PendingRows(s.procs[q]), row)
  }

  predicate Violates(s: State, row: Entry) {
    s.indexed && HasKey(s.ledger, row)
  }

  /** One step.  An event that is not possible in s, or has to wait, leaves s as it is.  A violation of
      the unique index aborts the whole transaction. */
  function Next(s: State, ev: Event): State {
    var proc := ProcOf(s, ev.p);
    match ev
    case BeginSpend(p, req) =>
      if proc.Idle? && req.amount > 0 && s.lock.None? then Lock(s, p, SpendLocked(req)) else s
    case ReadBalance(p) =>
      if proc.SpendLocked? then Become(s, p, SpendRead(proc.req, Sum(s.ledger))) else s
    case CheckBalance(p) =>
      if !proc.SpendRead? then s
      else if proc.current < proc.req.amount then End(s, p)
      else Become(s, p, SpendCovered(proc.req))
    case CheckKey(p) =>
      if !proc.SpendCovered? then s
      else if HasKey(s.ledger, proc.req) then End(s, p)
      else Become(s, p, SpendNew(proc.req))
    case StampSpend(p) =>
      if proc.SpendNew? then Become(s, p, SpendStamped(Stamp(s, SpendEntry(proc.req)))).(clock := s.clock + 1) else s
    case InsertSpend(p) =>
      if !proc.SpendStamped? then s
      else if Violates(s, proc.row) then End(s, p)
      else if Waits(s, p, proc.row) then s
      else Become(s, p, SpendInserted(proc.row))
    case BeginSweep(p, now) =>
      if proc.Idle? && s.lock.None? then Lock(s, p, SweepLocked(now)) else s
    case LoadLedger(p) =>
      if proc.SweepLocked? then Become(s, p, SweepLoaded(proc.now, s.ledger, 0, [])) else s
    case SweepBucket(p) =>
      if !proc.SweepLoaded? || proc.k >= |Replay(proc.entries)| then s
      else
        var b := Replay(proc.entries)[proc.k];
        var row := OffsetEntry(b, s.clock, s.clock);
        if !Due(b, proc.now) then Become(s, p, proc.(k := proc.k + 1))
        else if Violates(s, row) then End(s, p)
        else if Waits(s, p, row) then s
        else Become(s, p, proc.(k := proc.k + 1, rows := proc.rows + [row])).(clock := s.clock + 1)
    case BeginGrant(p, req) =>
      if proc.Idle? && req.amount > 0 && !HasKey(s.ledger, req) then Become(s, p, GrantNew(req)) else s
    case StampGrant(p) =>
      if proc.GrantNew? then Become(s, p, GrantStamped(Stamp(s, proc.req))).(clock := s.clock + 1) else s
    case InsertGrant(p) =>
      if !proc.GrantStamped? then s
      else if Violates(s, proc.row) then End(s, p)
      else if Waits(s, p, proc.row) then s
      else Become(s, p, GrantInserted(proc.row))
    case Commit(p) =>
      var done := proc.SpendInserted? || proc.GrantInserted?
                  || (proc.SweepLoaded? && proc.k >= |Replay(proc.entries)|);
      if done then End(s, p).(ledger := PlaceAll(s.ledger, PendingRows(proc))) else s
    case Rollback(p) => End(s, p)
  }

  function Init(indexed: bool): State {
    State(indexed, [], None, map[], 0)
  }

  function Run(s: State, evs: seq<Event>): State {
    if evs == [] then s else Next(Run(s, evs[..|evs| - 1]), evs[|evs| - 1])
  }

  predicate Asks(ev: Event) {
    ev.BeginSpend? || ev.BeginGrant? ==> !Reserved(ev.req)
  }

  /** Callers leave the reserved reason and ref type to the sweep. */
  predicate Legal(evs: seq<Event>) {
    forall i :: 0 <= i < |evs| ==> Asks(evs[i])
  }

  // ---------------------------------------------------------------- the invariant

  predicate Numbered(rows: Ledger, clock: nat) {
    forall e :: e in rows ==> e.id == e.createdAt < clock
  }

  /** No two rows share a key. */
  predicate UniqueRows(ledger: Ledger) {
    forall e, d :: e in ledger && d in ledger && e != d ==> !SameKey(e, d)
  }

  /** No spend shares its key with another debit. */
  predicate UniqueSpends(ledger: Ledger) {
    forall e, d :: e in ledger && d in ledger && e != d && e.amount < 0 && d.amount < 0 && !Reserved(e) ==>
      !SameKey(e, d)
  }

  predicate NewSpend(ledger: Ledger, row: Entry) {
    forall e :: e in ledger && e.amount < 0 ==> !SameKey(e, row)
  }

  /** Two offsets of one bucket: the earlier one has been overtaken. */
  predicate PairsOvertaken(ledger: Ledger) {
    forall i, j :: 0 <= i < j < |ledger| && Reserved(ledger[i]) && SameKey(ledger[i], ledger[j]) ==>
      Overtaken(ledger, i)
  }

  /** The row was covered by a ledger that has since seen only grants. */
  ghost predicate Funded(ledger: Ledger, row: Entry) {
    exists base :: Since(base, ledger) && Ordered(base + [row]) && AllCovered(base + [row])
  }

  ghost predicate SpendRow(s: State, row: Entry) {
    && row.amount < 0 && !Reserved(row) && NewSpend(s.ledger, row)
    && row.id == row.createdAt < s.clock && NewStamp(s.ledger, row) && Funded(s.ledger, row)
  }

  predicate GrantRow(s: State, row: Entry) {
    row.amount > 0 && !Reserved(row) && row.id == row.createdAt < s.clock && NewStamp(s.ledger, row)
  }

  predicate NamesBucket(bs: seq<BucketView>, now: int, k: nat, row: Entry) {
    exists m :: 0 <= m < k && m < |bs| && Due(bs[m], now) && row.ref == RowRef(bs[m].entryId)
                && row.amount == -bs[m].remaining
  }

  predicate HasRow(b: BucketView, rows: Ledger) {
    exists i :: 0 <= i < |rows| && rows[i].ref == RowRef(b.entryId)
  }

  /** One offset for each of the first k buckets that is due, and no other row. */
  predicate OffsetsFor(bs: seq<BucketView>, now: int, k: nat, rows: Ledger) {
    && (forall i :: 0 <= i < |rows| ==> IsOffset(rows[i]) && NamesBucket(bs, now, k, rows[i]))
    && (forall i, j :: 0 <= i < j < |rows| ==> rows[i].ref != rows[j].ref)
    && (forall m :: 0 <= m < k && m < |bs| && Due(bs[m], now) ==> HasRow(bs[m], rows))
  }

  /** What a sweep has computed is right for the ledger it loaded, and that ledger has since seen only
      grants. */
  ghost predicate SweepRows(s: State, now: int, entries: Ledger, k: nat, rows: Ledger) {
    && Since(entries, s.ledger) && Ordered(entries + rows) && AllCovered(entries + rows)
    && k <= |Replay(entries)| && Replay(entries + rows) == ForfeitFirst(Replay(entries), now, k)
    && OffsetsFor(Replay(entries), now, k, rows) && Numbered(rows, s.clock) && NewStamps(s.ledger, rows)
    && (s.indexed ==> forall i :: 0 <= i < |rows| ==> !HasKey(s.ledger, rows[i]))
  }

  /** What a process knows about the ledger at its point of the transaction. */
  ghost predicate Knows(s: State, proc: Proc) {
    match proc
    case Idle => true
    case SpendLocked(req) => req.amount > 0 && !Reserved(req)
    case SpendRead(req, current) => req.amount > 0 && !Reserved(req) && current <= Sum(s.ledger)
    case SpendCovered(req) => 0 < req.amount <= Sum(s.ledger) && !Reserved(req)
    case SpendNew(req) => 0 < req.amount <= Sum(s.ledger) && !Reserved(req) && NewSpend(s.ledger, req)
    case SpendStamped(row) => SpendRow(s, row)
    case SpendInserted(row) => SpendRow(s, row) && (s.indexed ==> !HasKey(s.ledger, row))
    case SweepLocked(_) => true
    case SweepLoaded(now, entries, k, rows) => SweepRows(s, now, entries, k, rows)
    case GrantNew(req) => req.amount > 0 && !Reserved(req)
    case GrantStamped(row) => GrantRow(s, row)
    case GrantInserted(row) => GrantRow(s, row) && (s.indexed ==> !HasKey(s.ledger, row))
  }

  /** No stamp is given out twice and, with the index, no key is pending twice. */
  predicate Apart(a: Proc, b: Proc, indexed: bool) {
    && (forall e, d :: e in StampedRows(a) && d in StampedRows(b) ==> e.createdAt != d.createdAt)
    && (indexed ==> forall e, d :: e in PendingRows(a) && d in PendingRows(b) ==> !SameKey(e, d))
  }

  /** The ledger by itself. */
  ghost predicate Good(ledger: Ledger, indexed: bool, clock: nat) {
    && AllCovered(ledger) && Ordered(ledger) && Numbered(ledger, clock) && ReservedAreOffsets(ledger)
    && UniqueSpends(ledger) && PairsOvertaken(ledger) && (indexed ==> UniqueRows(ledger))
  }

  ghost predicate Inv(s: State) {
    && Good(s.ledger, s.indexed, s.clock)
    && (forall p :: p in s.procs ==> Knows(s, s.procs[p]))
    && (forall p :: p in s.procs && HoldsLock(s.procs[p]) ==> s.lock == Some(p))
    && (forall p, q :: p in s.procs && q in s.procs && p != q ==> Apart(s.procs[p], s.procs[q], s.indexed))
  }

  lemma {:induction false} InitInv(indexed: bool)
    ensures Inv(Init(indexed))
  {
  }

  /** What the invariant says about one process. */
  lemma {:induction false} InvParts(s: State, p: Pid)
    requires Inv(s)
    ensures Good(s.ledger, s.indexed, s.clock) && Knows(s, ProcOf(s, p))
    ensures HoldsLock(ProcOf(s, p)) ==> s.lock == Some(p)
    ensures forall q :: q in s.procs && q != p ==>
      && Knows(s, s.procs[q]) && (HoldsLock(ProcOf(s, p)) ==> !HoldsLock(s.procs[q]))
      && Apart(s.procs[q], ProcOf(s, p), s.indexed) && Apart(ProcOf(s, p), s.procs[q], s.indexed)
  {
    hide Good, Apart;
    forall q | q in s.procs && q != p
      ensures Apart(s.procs[q], ProcOf(s, p), s.indexed) && Apart(ProcOf(s, p), s.procs[q], s.indexed)
    {
      NothingApart(s.procs[q], s.indexed);
    }
  }

  lemma {:induction false} NothingApart(a: Proc, indexed: bool)
    ensures Apart(a, Idle, indexed) && Apart(Idle, a, indexed)
  {
  }

  lemma {:induction false} LaterClock(s: State, clock: nat, proc: Proc)
    requires s.clock <= clock
    ensures Knows(s, proc) ==> Knows(s.(clock := clock), proc)
    ensures Good(s.ledger, s.indexed, s.clock) ==> Good(s.ledger, s.indexed, clock)
  {
  }

  /** Knowledge is about ledger, index and clock only. */
  lemma {:induction false} KnowsDepends(s: State, s': State, proc: Proc)
    requires s'.ledger == s.ledger && s'.indexed == s.indexed && s.clock <= s'.clock
    ensures Knows(s, proc) ==> Knows(s', proc)
  {
  }

  // ---------------------------------------------------------------- steps that leave the ledger

  /** p moves to `proc`; the ledger stays, the lock changes only in p's own hands. */
  lemma {:induction false} MoveKeepsInv(s: State, s': State, p: Pid, proc: Proc)
    requires Inv(s)
    requires s' == Become(s, p, proc).(lock := s'.lock, clock := s'.clock)
    requires s.clock <= s'.clock && Knows(s', proc)
    requires s'.lock == s.lock || s.lock.None? || s.lock == Some(p)
    requires HoldsLock(proc) ==> s'.lock == Some(p)
    requires forall q :: q in s.procs && q != p ==>
      Apart(s.procs[q], proc, s.indexed) && Apart(proc, s.procs[q], s.indexed)
    ensures Inv(s')
  {
    hide Good, Knows, Apart;
    LaterClock(s, s'.clock, proc);
    forall q | q in s'.procs
      ensures Knows(s', s'.procs[q])
    {
      if q != p {
        KnowsDepends(s, s', s.procs[q]);
      }
    }
  }

  /** A step in which no row is stamped or inserted. */
  lemma {:induction false} QuietMoveKeepsInv(s: State, s': State, p: Pid, proc: Proc)
    requires Inv(s) && StampedRows(proc) == []
    requires s' == Become(s, p, proc).(lock := s'.lock, clock := s'.clock)
    requires s.clock <= s'.clock && Knows(s', proc)
    requires s'.lock == s.lock || s.lock.None? || s.lock == Some(p)
    requires HoldsLock(proc) ==> s'.lock == Some(p)
    ensures Inv(s')
  {
    hide Inv, Knows;
    assert PendingRows(proc) == [];
    MoveKeepsInv(s, s', p, proc);
  }

  lemma {:induction false} EndKeepsInv(s: State, p: Pid)
    requires Inv(s)
    ensures Inv(End(s, p))
  {
    hide Inv;
    InvParts(s, p);
    QuietMoveKeepsInv(s, End(s, p), p, Idle);
  }

  /** A stamp taken now is later than every stamp given out. */
  lemma {:induction false} FreshStamp(s: State, p: Pid, row: Entry)
    requires Inv(s) && row.createdAt == s.clock
    ensures NewStamp(s.ledger, row)
    ensures forall q, e :: q in s.procs && e in StampedRows(s.procs[q]) ==> e.createdAt < s.clock
  {
    forall q, e | q in s.procs && e in StampedRows(s.procs[q])
      ensures e.createdAt < s.clock
    {
      StampedAreNumbered(s, s.procs[q]);
    }
  }

  lemma {:induction false} StampedAreNumbered(s: State, proc: Proc)
    requires Knows(s, proc)
    ensures Numbered(StampedRows(proc), s.clock)
  {
  }

  /** p has one more row with a fresh stamp, not yet inserted or of a key no other transaction holds. */
  lemma {:induction false} StampKeepsInv(s: State, p: Pid, proc: Proc)
    requires Inv(s) && HoldsLock(proc) == HoldsLock(ProcOf(s, p))
    requires Knows(Become(s, p, proc).(clock := s.clock + 1), proc)
    requires forall e :: e in StampedRows(proc) ==> e in StampedRows(ProcOf(s, p)) || e.createdAt == s.clock
    requires forall e :: e in PendingRows(proc) ==>
      e in PendingRows(ProcOf(s, p)) || (e.createdAt == s.clock && !Waits(s, p, e))
    ensures Inv(Become(s, p, proc).(clock := s.clock + 1))
  {
    hide Inv, Knows, Good;
    InvParts(s, p);
    forall q | q in s.procs && q != p
      ensures Apart(s.procs[q], proc, s.indexed) && Apart(proc, s.procs[q], s.indexed)
    {
      StampedAreNumbered(s, s.procs[q]);
      RowApart(s, p, q, proc);
    }
    MoveKeepsInv(s, Become(s, p, proc).(clock := s.clock + 1), p, proc);
  }

  lemma {:induction false} KeyIsNotHeld(rows: Ledger, e: Entry, d: Entry)
    requires e in rows && !HasKey(rows, d)
    ensures !SameKey(e, d) && !SameKey(d, e)
  {
    var i :| 0 <= i < |rows| && rows[i] == e;
    assert !SameKey(rows[i], d);
  }

  lemma {:induction false} KeysApart(s: State, p: Pid, q: Pid, rows: Ledger)
    requires q in s.procs && q != p && s.indexed
    requires forall e, d :: e in PendingRows(ProcOf(s, p)) && d in PendingRows(s.procs[q]) ==> !SameKey(e, d)
    requires forall e :: e in rows ==> e in PendingRows(ProcOf(s, p)) || !Waits(s, p, e)
    ensures forall e, d :: e in rows && d in PendingRows(s.procs[q]) ==> !SameKey(e, d) && !SameKey(d, e)
  {
    hide PendingRows, HasKey;
    forall e, d | e in rows && d in PendingRows(s.procs[q])
      ensures !SameKey(e, d) && !SameKey(d, e)
    {
      if e !in PendingRows(ProcOf(s, p)) {
        KeyIsNotHeld(PendingRows(s.procs[q]), d, e);
      }
    }
  }

  lemma {:induction false} StampsApart(others: Ledger, before: Ledger, rows: Ledger, clock: nat)
    requires Numbered(others, clock)
    requires forall e, d :: e in before && d in others ==> e.createdAt != d.createdAt
    requires forall e :: e in rows ==> e in before || e.createdAt == clock
    ensures forall e, d :: e in rows && d in others ==> e.createdAt != d.createdAt
  {
  }

  lemma {:induction false} RowApart(s: State, p: Pid, q: Pid, proc: Proc)
    requires q in s.procs && q != p && Numbered(StampedRows(s.procs[q]), s.clock)
    requires Apart(ProcOf(s, p), s.procs[q], s.indexed)
    requires forall e :: e in StampedRows(proc) ==> e in StampedRows(ProcOf(s, p)) || e.createdAt == s.clock
    requires forall e :: e in PendingRows(proc) ==> e in PendingRows(ProcOf(s, p)) || !Waits(s, p, e)
    ensures Apart(s.procs[q], proc, s.indexed) && Apart(proc, s.procs[q], s.indexed)
  {
    hide StampedRows, PendingRows, Waits, SameKey, Numbered, ProcOf;
    StampsApart(StampedRows(s.procs[q]), StampedRows(ProcOf(s, p)), StampedRows(proc), s.clock);
    if s.indexed {
      KeysApart(s, p, q, PendingRows(proc));
    }
  }

  /** p inserts the row it has stamped. */
  lemma {:induction false} InsertKeepsInv(s: State, p: Pid, proc: Proc)
    requires Inv(s) && (proc.SpendInserted? || proc.GrantInserted?)
    requires ProcOf(s, p) == if proc.SpendInserted? then SpendStamped(proc.row) else GrantStamped(proc.row)
    requires !Violates(s, proc.row) && !Waits(s, p, proc.row)
    ensures Inv(Become(s, p, proc))
  {
    hide Inv, Good, SpendRow, HasKey;
    InvParts(s, p);
    forall q | q in s.procs && q != p
      ensures Apart(s.procs[q], proc, s.indexed) && Apart(proc, s.procs[q], s.indexed)
    {
      StampedAreNumbered(s, s.procs[q]);
      RowApart(s, p, q, proc);
    }
    KnowsDepends(s, Become(s, p, proc), proc);
    MoveKeepsInv(s, Become(s, p, proc), p, proc);
  }

  lemma {:induction false} SpendStepKeepsInv(s: State, p: Pid, ev: Event)
    requires Inv(s) && ev.p == p
    requires ev.ReadBalance? || ev.CheckBalance? || ev.CheckKey?
    ensures Inv(Next(s, ev))
  {
    hide Inv, Good;
    var proc := ProcOf(s, p);
    InvParts(s, p);
    EndKeepsInv(s, p);
    if ev.ReadBalance? && proc.SpendLocked? {
      QuietMoveKeepsInv(s, Next(s, ev), p, SpendRead(proc.req, Sum(s.ledger)));
    } else if ev.CheckBalance? && proc.SpendRead? && proc.req.amount <= proc.current {
      QuietMoveKeepsInv(s, Next(s, ev), p, SpendCovered(proc.req));
    } else if ev.CheckKey? && proc.SpendCovered? && !HasKey(s.ledger, proc.req) {
      QuietMoveKeepsInv(s, Next(s, ev), p, SpendNew(proc.req));
    }
  }

  /** The row of a spend that the balance covers is covered by the buckets. */
  lemma {:induction false} FundedNow(ledger: Ledger, row: Entry, clock: nat)
    requires AllCovered(ledger) && Ordered(ledger) && Numbered(ledger, clock)
    requires row.createdAt == clock && 0 < -row.amount <= Sum(ledger) && !Reserved(row)
    ensures Funded(ledger, row)
  {
    hide Sum, Total, Replay;
    CoveredConservation(ledger);
    assert (ledger + [row])[..|ledger|] == ledger;
    assert AllCovered(ledger + [row]);
    assert forall e :: e in ledger ==> e.createdAt < clock;
    assert Ordered(ledger + [row]);
    assert Since(ledger, ledger);
  }

  lemma {:induction false} SpendRowIsKnown(s: State, req: Entry)
    requires Good(s.ledger, s.indexed, s.clock) && Knows(s, SpendNew(req))
    requires NewStamp(s.ledger, Stamp(s, SpendEntry(req)))
    ensures SpendRow(s.(clock := s.clock + 1), Stamp(s, SpendEntry(req)))
  {
    hide AllCovered, Ordered, Numbered, UniqueSpends, UniqueRows, PairsOvertaken, ReservedAreOffsets, Funded, Sum;
    FundedNow(s.ledger, Stamp(s, SpendEntry(req)), s.clock);
  }

  lemma {:induction false} StampSpendKeepsInv(s: State, p: Pid, req: Entry)
    requires Inv(s) && ProcOf(s, p) == SpendNew(req)
    ensures Inv(Become(s, p, SpendStamped(Stamp(s, SpendEntry(req)))).(clock := s.clock + 1))
  {
    hide Inv, Good, SpendRow, Apart, SpendEntry;
    var row := Stamp(s, SpendEntry(req));
    InvParts(s, p);
    FreshStamp(s, p, row);
    SpendRowIsKnown(s, req);
    KnowsDepends(s.(clock := s.clock + 1), Become(s, p, SpendStamped(row)).(clock := s.clock + 1), SpendStamped(row));
    StampKeepsInv(s, p, SpendStamped(row));
  }

  lemma {:induction false} StampGrantKeepsInv(s: State, p: Pid, req: Entry)
    requires Inv(s) && ProcOf(s, p) == GrantNew(req)
    ensures Inv(Become(s, p, GrantStamped(Stamp(s, req))).(clock := s.clock + 1))
  {
    hide Inv, Good, Apart;
    InvParts(s, p);
    FreshStamp(s, p, Stamp(s, req));
    StampKeepsInv(s, p, GrantStamped(Stamp(s, req)));
  }

  lemma {:induction false} StampStepKeepsInv(s: State, p: Pid, ev: Event)
    requires Inv(s) && ev.p == p && (ev.StampSpend? || ev.StampGrant?)
    ensures Inv(Next(s, ev))
  {
    hide Inv, SpendEntry;
    var proc := ProcOf(s, p);
    if ev.StampSpend? && proc.SpendNew? {
      StampSpendKeepsInv(s, p, proc.req);
    } else if ev.StampGrant? && proc.GrantNew? {
      StampGrantKeepsInv(s, p, proc.req);
    }
  }

  lemma {:induction false} InsertStepKeepsInv(s: State, p: Pid, ev: Event)
    requires Inv(s) && ev.p == p && (ev.InsertSpend? || ev.InsertGrant?)
    ensures Inv(Next(s, ev))
  {
    hide Inv, Waits, Violates;
    var proc := ProcOf(s, p);
    EndKeepsInv(s, p);
    if ev.InsertSpend? && proc.SpendStamped? && !Violates(s, proc.row) && !Waits(s, p, proc.row) {
      InsertKeepsInv(s, p, SpendInserted(proc.row));
    } else if ev.InsertGrant? && proc.GrantStamped? && !Violates(s, proc.row) && !Waits(s, p, proc.row) {
      InsertKeepsInv(s, p, GrantInserted(proc.row));
    }
  }

  lemma {:induction false} BeginKeepsInv(s: State, p: Pid, ev: Event)
    requires Inv(s) && ev.p == p && Asks(ev)
    requires ev.BeginSweep? || ev.LoadLedger? || ev.BeginSpend? || ev.BeginGrant?
    ensures Inv(Next(s, ev))
  {
    hide Inv, Replay, HasKey, AllCovered, Ordered;
    var proc := ProcOf(s, p);
    InvParts(s, p);
    if Next(s, ev) != s {
      if ev.LoadLedger? {
        assert s.ledger + [] == s.ledger && ForfeitFirst(Replay(s.ledger), proc.now, 0) == Replay(s.ledger);
      }
      QuietMoveKeepsInv(s, Next(s, ev), p, Next(s, ev).procs[p]);
    }
  }

  // ---------------------------------------------------------------- the sweep's loop

  lemma {:induction false} NumberedIsDistinct(ledger: Ledger, clock: nat)
    requires Ordered(ledger) && Numbered(ledger, clock)
    ensures DistinctIds(ledger)
  {
    forall i, j | 0 <= i < j < |ledger|
      ensures ledger[i].id != ledger[j].id
    {
      assert ledger[i] in ledger && ledger[j] in ledger;
    }
  }

  lemma {:induction false} EntriesAreNumbered(s: State, entries: Ledger, rows: Ledger)
    requires Since(entries, s.ledger) && Numbered(s.ledger, s.clock) && Numbered(rows, s.clock)
    requires Ordered(entries + rows)
    ensures Numbered(entries + rows, s.clock) && DistinctIds(entries + rows)
  {
    assert Numbered(entries + rows, s.clock);
    NumberedIsDistinct(entries + rows, s.clock);
  }

  lemma {:induction false} OffsetEmptiesBucket(bs: seq<BucketView>, k: nat, row: Entry)
    requires UniqueIds(bs) && k < |bs| && IsOffset(row) && row.ref == RowRef(bs[k].entryId)
    requires row.amount == -bs[k].remaining
    ensures Covered(bs, row) && ReplayEntry(bs, row) == bs[k := bs[k].(remaining := 0)]
  {
    hide Deduct, Total;
    FindUnique(bs, k);
  }

  /** The offset of bucket k, behind the offsets already computed, empties it. */
  lemma {:induction false} OffsetOfBucket(entries: Ledger, rows: Ledger, now: int, k: nat, id: Id, at: int)
    requires AllCovered(entries + rows) && DistinctIds(entries + rows) && k < |Replay(entries)|
    requires Replay(entries + rows) == ForfeitFirst(Replay(entries), now, k) && Due(Replay(entries)[k], now)
    ensures var row := OffsetEntry(Replay(entries)[k], id, at);
            && AllCovered((entries + rows) + [row])
            && Replay((entries + rows) + [row]) == ForfeitFirst(Replay(entries), now, k + 1)
  {
    hide Covered, ReplayEntry, ForfeitFirst, Replay, UniqueIds;
    var row := OffsetEntry(Replay(entries)[k], id, at);
    DistinctBuckets(entries + rows);
    ForfeitStep(Replay(entries), now, k + 1);
    OffsetEmptiesBucket(Replay(entries + rows), k, row);
    ReplayAppend(entries + rows, row);
    assert ((entries + rows) + [row])[..|entries + rows|] == entries + rows;
  }

  lemma {:induction false} HasRowStill(b: BucketView, rows: Ledger, row: Entry)
    ensures HasRow(b, rows) || row.ref == RowRef(b.entryId) ==> HasRow(b, rows + [row])
  {
    if HasRow(b, rows) {
      var i :| 0 <= i < |rows| && rows[i].ref == RowRef(b.entryId);
      assert (rows + [row])[i] == rows[i];
    }
    assert (rows + [row])[|rows|] == row;
  }

  lemma {:induction false} OneMoreOffset(bs: seq<BucketView>, now: int, k: nat, rows: Ledger, row: Entry)
    requires OffsetsFor(bs, now, k, rows) && k < |bs| && UniqueIds(bs) && Due(bs[k], now)
    requires IsOffset(row) && row.ref == RowRef(bs[k].entryId) && row.amount == -bs[k].remaining
    ensures OffsetsFor(bs, now, k + 1, rows + [row])
  {
    hide Due, HasRow;
    var more := rows + [row];
    forall i | 0 <= i < |more|
      ensures IsOffset(more[i]) && NamesBucket(bs, now, k + 1, more[i])
      ensures i < |rows| ==> more[i].ref != row.ref
    {
      if i < |rows| {
        var m :| 0 <= m < k && m < |bs| && Due(bs[m], now) && rows[i].ref == RowRef(bs[m].entryId)
                 && rows[i].amount == -bs[m].remaining;
        assert bs[m].entryId != bs[k].entryId;
      }
    }
    forall m | 0 <= m < k + 1 && m < |bs| && Due(bs[m], now)
      ensures HasRow(bs[m], more)
    {
      HasRowStill(bs[m], rows, row);
    }
  }

  lemma {:induction false} SkipBucket(s: State, now: int, entries: Ledger, k: nat, rows: Ledger)
    requires SweepRows(s, now, entries, k, rows) && k < |Replay(entries)| && !Due(Replay(entries)[k], now)
    ensures SweepRows(s, now, entries, k + 1, rows)
  {
    hide Replay, Due, AllCovered, HasKey, ForfeitFirst;
    ForfeitStep(Replay(entries), now, k + 1);
    forall i | 0 <= i < |rows|
      ensures NamesBucket(Replay(entries), now, k + 1, rows[i])
    {
      assert NamesBucket(Replay(entries), now, k, rows[i]);
    }
  }

  lemma {:induction false} OneMoreRow(ledger: Ledger, entries: Ledger, rows: Ledger, row: Entry, clock: nat)
    requires Numbered(entries + rows, clock) && Ordered(entries + rows) && NewStamps(ledger, rows)
    requires NewStamp(ledger, row)
    requires row.id == row.createdAt == clock
    ensures Numbered(rows + [row], clock + 1) && NewStamps(ledger, rows + [row]) && Ordered(entries + (rows + [row]))
  {
    hide NewStamp;
    assert entries + (rows + [row]) == (entries + rows) + [row];
    assert forall e :: e in rows ==> e in entries + rows;
    assert forall i :: 0 <= i < |entries + rows| ==> (entries + rows)[i] in entries + rows;
  }

  lemma {:induction false} WriteOffset(s: State, now: int, entries: Ledger, k: nat, rows: Ledger, row: Entry)
    requires Good(s.ledger, s.indexed, s.clock) && SweepRows(s, now, entries, k, rows)
    requires k < |Replay(entries)| && Due(Replay(entries)[k], now)
    requires row == OffsetEntry(Replay(entries)[k], s.clock, s.clock) && NewStamp(s.ledger, row) && !Violates(s, row)
    ensures SweepRows(s.(clock := s.clock + 1), now, entries, k + 1, rows + [row])
  {
    hide Replay, AllCovered, ForfeitFirst, HasKey, UniqueSpends, UniqueRows, PairsOvertaken, Ordered, Numbered, Since,
         NewStamp, NewStamps, OffsetsFor;
    EntriesAreNumbered(s, entries, rows);
    DistinctPrefix(entries + rows, |entries|);
    assert (entries + rows)[..|entries|] == entries;
    DistinctBuckets(entries);
    OffsetOfBucket(entries, rows, now, k, s.clock, s.clock);
    OneMoreOffset(Replay(entries), now, k, rows, row);
    OneMoreRow(s.ledger, entries, rows, row, s.clock);
    assert entries + (rows + [row]) == (entries + rows) + [row];
  }

  lemma {:induction false} SkipKeepsInv(s: State, p: Pid)
    requires Inv(s) && ProcOf(s, p).SweepLoaded? && ProcOf(s, p).k < |Replay(ProcOf(s, p).entries)|
    requires !Due(Replay(ProcOf(s, p).entries)[ProcOf(s, p).k], ProcOf(s, p).now)
    ensures Inv(Become(s, p, ProcOf(s, p).(k := ProcOf(s, p).k + 1)))
  {
    hide Inv, Good, Replay, SweepRows, Due, Apart;
    var proc := ProcOf(s, p);
    var next := proc.(k := proc.k + 1);
    InvParts(s, p);
    SkipBucket(s, proc.now, proc.entries, proc.k, proc.rows);
    KnowsDepends(s, Become(s, p, next), next);
    forall q | q in s.procs && q != p
      ensures Apart(s.procs[q], next, s.indexed) && Apart(next, s.procs[q], s.indexed)
    {
      SameRowsApart(s.procs[q], proc, next, s.indexed);
    }
    MoveKeepsInv(s, Become(s, p, next), p, next);
  }

  lemma {:induction false} SameRowsApart(a: Proc, b: Proc, c: Proc, indexed: bool)
    requires StampedRows(b) == StampedRows(c) && PendingRows(b) == PendingRows(c)
    ensures Apart(a, b, indexed) ==> Apart(a, c, indexed)
    ensures Apart(b, a, indexed) ==> Apart(c, a, indexed)
  {
    hide StampedRows, PendingRows;
  }

  lemma {:induction false} OffsetKeepsInv(s: State, p: Pid, row: Entry)
    requires Inv(s) && ProcOf(s, p).SweepLoaded? && ProcOf(s, p).k < |Replay(ProcOf(s, p).entries)|
    requires Due(Replay(ProcOf(s, p).entries)[ProcOf(s, p).k], ProcOf(s, p).now)
    requires row == OffsetEntry(Replay(ProcOf(s, p).entries)[ProcOf(s, p).k], s.clock, s.clock)
    requires !Violates(s, row) && !Waits(s, p, row)
    ensures var proc := ProcOf(s, p);
            Inv(Become(s, p, proc.(k := proc.k + 1, rows := proc.rows + [row])).(clock := s.clock + 1))
  {
    hide Inv, Good, Replay, SweepRows, Due, Waits, Violates;
    var proc := ProcOf(s, p);
    var next := proc.(k := proc.k + 1, rows := proc.rows + [row]);
    InvParts(s, p);
    FreshStamp(s, p, row);
    WriteOffset(s, proc.now, proc.entries, proc.k, proc.rows, row);
    KnowsDepends(s.(clock := s.clock + 1), Become(s, p, next).(clock := s.clock + 1), next);
    StampKeepsInv(s, p, next);
  }

  lemma {:induction false} SweepStepKeepsInv(s: State, p: Pid)
    requires Inv(s)
    ensures Inv(Next(s, SweepBucket(p)))
  {
    hide Inv, Replay, Waits, Violates, Due, OffsetEntry;
    var proc := ProcOf(s, p);
    if proc.SweepLoaded? && proc.k < |Replay(proc.entries)| {
      EndKeepsInv(s, p);
      var b := Replay(proc.entries)[proc.k];
      var row := OffsetEntry(b, s.clock, s.clock);
      if !Due(b, proc.now) {
        SkipKeepsInv(s, p);
      } else if !Violates(s, row) && !Waits(s, p, row) {
        OffsetKeepsInv(s, p, row);
      }
    }
  }

  // ---------------------------------------------------------------- commits

  /** The rows of a ledger keep their uniqueness when new ones are placed among them. */
  lemma {:induction false} PlacedRowsUnique(ledger: Ledger, rows: Ledger, placed: Ledger)
    requires forall e :: e in placed <==> e in ledger || e in rows
    requires UniqueRows(ledger) && UniqueRows(rows) && forall e, d :: e in ledger && d in rows ==> !SameKey(e, d)
    ensures UniqueRows(placed)
  {
    hide SameKey;
    assert forall e, d :: e in ledger && d in rows ==> !SameKey(d, e) by { SameKeyIsSymmetric(); }
  }

  lemma {:induction false} SameKeyIsSymmetric()
    ensures forall e, d :: SameKey(e, d) <==> SameKey(d, e)
  {
  }

  /** A process without the lock and without a row of its own knows nothing that a debit can change. */
  lemma {:induction false} DebitsKeepKnowledge(s: State, s': State, rows: Ledger, other: Proc)
    requires s'.indexed == s.indexed && s'.clock == s.clock
    requires forall e :: e in s'.ledger <==> e in s.ledger || e in rows
    requires Knows(s, other) && !HoldsLock(other)
    requires forall e, d :: e in rows && d in StampedRows(other) ==> e.createdAt != d.createdAt
    requires s.indexed ==> forall e, d :: e in rows && d in PendingRows(other) ==> !SameKey(e, d)
    ensures Knows(s', other)
  {
    if other.GrantStamped? || other.GrantInserted? {
      assert other.row in StampedRows(other);
      assert NewStamp(s'.ledger, other.row);
      if other.GrantInserted? && s.indexed {
        assert other.row in PendingRows(other);
        NoKeyAmong(s.ledger, other.row);
        NoKey(s'.ledger, other.row);
      }
    }
  }

  lemma {:induction false} NoKey(ledger: Ledger, e: Entry)
    requires forall d :: d in ledger ==> !SameKey(d, e)
    ensures !HasKey(ledger, e)
  {
  }

  lemma {:induction false} NoKeyAmong(ledger: Ledger, e: Entry)
    requires !HasKey(ledger, e)
    ensures forall d :: d in ledger ==> !SameKey(d, e)
  {
    forall d | d in ledger
      ensures !SameKey(d, e)
    {
      KeyIsNotHeld(ledger, d, e);
    }
  }

  /** A grant that is committed leaves standing what the others know. */
  lemma {:induction false} GrantKeepsKnowledge(s: State, s': State, row: Entry, other: Proc)
    requires s'.indexed == s.indexed && s'.clock == s.clock && row.amount > 0 && !Reserved(row)
    requires (forall e :: e in s'.ledger <==> e in s.ledger || e == row) && Sum(s'.ledger) == Sum(s.ledger) + row.amount
    requires Knows(s, other)
    requires forall d :: d in StampedRows(other) ==> row.createdAt != d.createdAt
    requires s.indexed ==> forall d :: d in PendingRows(other) ==> !SameKey(row, d)
    ensures Knows(s', other)
  {
    hide AllCovered, Ordered, Replay, HasKey, Sum;
    if other.SweepLoaded? {
      SinceGrant(other.entries, s.ledger, s'.ledger, row);
      assert forall i :: 0 <= i < |other.rows| ==> other.rows[i] in StampedRows(other);
      if s.indexed {
        forall i | 0 <= i < |other.rows|
          ensures !HasKey(s'.ledger, other.rows[i])
        {
          NoKeyAmong(s.ledger, other.rows[i]);
          NoKey(s'.ledger, other.rows[i]);
        }
      }
    } else if other.SpendStamped? || other.SpendInserted? {
      assert other.row in StampedRows(other);
      FundedStays(s.ledger, s'.ledger, row, other.row);
      if other.SpendInserted? && s.indexed {
        NoKeyAmong(s.ledger, other.row);
        NoKey(s'.ledger, other.row);
      }
    } else if other.GrantStamped? || other.GrantInserted? {
      assert other.row in StampedRows(other);
      if other.GrantInserted? && s.indexed {
        NoKeyAmong(s.ledger, other.row);
        NoKey(s'.ledger, other.row);
      }
    }
  }

  lemma {:induction false} SinceGrant(base: Ledger, ledger: Ledger, placed: Ledger, row: Entry)
    requires Since(base, ledger) && row.amount > 0 && forall e :: e in placed <==> e in ledger || e == row
    ensures Since(base, placed)
  {
  }

  lemma {:induction false} FundedStays(ledger: Ledger, placed: Ledger, row: Entry, spend: Entry)
    requires Funded(ledger, spend) && row.amount > 0 && forall e :: e in placed <==> e in ledger || e == row
    ensures Funded(placed, spend)
  {
    hide AllCovered, Ordered, Since;
    var base :| Since(base, ledger) && Ordered(base + [spend]) && AllCovered(base + [spend]);
    SinceGrant(base, ledger, placed, row);
  }

  /** The committed ledger is as good as before, and the others still know what they knew. */
  lemma {:induction false} CommitInv(s: State, p: Pid, ledger: Ledger)
    requires Inv(s) && Good(ledger, s.indexed, s.clock)
    requires forall q :: q in s.procs && q != p ==> Knows(End(s, p).(ledger := ledger), s.procs[q])
    ensures Inv(End(s, p).(ledger := ledger))
  {
    hide Good, Knows, Apart;
    EndKeepsInv(s, p);
    var s' := End(s, p).(ledger := ledger);
    assert Knows(s', Idle) by { IdleKnows(s'); }
    forall q | q in s'.procs
      ensures Knows(s', s'.procs[q])
    {
      assert q == p || s'.procs[q] == s.procs[q];
    }
  }

  lemma {:induction false} IdleKnows(s: State)
    ensures Knows(s, Idle)
  {
  }

  ghost function IndexOf(ledger: Ledger, e: Entry): (i: nat)
    requires e in ledger
    ensures i < |ledger| && ledger[i] == e
  {
    var i :| 0 <= i < |ledger| && ledger[i] == e;
    i
  }

  lemma {:induction false} GrantKeepsPairs(ledger: Ledger, placed: Ledger, row: Entry)
    requires AllCovered(ledger) && Ordered(ledger) && Ordered(placed) && DistinctIds(ledger) && DistinctIds(placed)
    requires ReservedAreOffsets(ledger) && PairsOvertaken(ledger) && row.amount > 0 && !Reserved(row)
    requires forall e :: e in placed <==> e in ledger || e == row
    ensures PairsOvertaken(placed)
  {
    hide AllCovered, DistinctIds, Overtaken;
    assert Since(ledger, placed);
    forall i, j | 0 <= i < j < |placed| && Reserved(placed[i]) && SameKey(placed[i], placed[j])
      ensures Overtaken(placed, i)
    {
      assert placed[i] in placed && placed[j] in placed;
      var a, b := IndexOf(ledger, placed[i]), IndexOf(ledger, placed[j]);
      assert a < b;
      OvertakenStays(ledger, a, placed, i);
    }
  }

  lemma {:induction false} CommitGrantIsGood(s: State, row: Entry)
    requires Good(s.ledger, s.indexed, s.clock) && GrantRow(s, row) && (s.indexed ==> !HasKey(s.ledger, row))
    ensures Good(Place(s.ledger, row), s.indexed, s.clock)
  {
    hide AllCovered, Place, PairsOvertaken, HasKey, SameKey;
    var placed := Place(s.ledger, row);
    PlaceKeeps(s.ledger, row);
    NumberedIsDistinct(s.ledger, s.clock);
    NumberedIsDistinct(placed, s.clock);
    assert Since(s.ledger, placed);
    var f := MoreGrants(s.ledger, placed);
    GrantKeepsPairs(s.ledger, placed, row);
    if s.indexed {
      NoKeyAmong(s.ledger, row);
      PlacedRowsUnique(s.ledger, [row], placed);
    }
  }

  lemma {:induction false} CommitGrantKeepsInv(s: State, p: Pid)
    requires Inv(s) && ProcOf(s, p).GrantInserted?
    ensures Inv(Next(s, Commit(p)))
  {
    hide Inv, Knows, Good, Place, Sum;
    var row := ProcOf(s, p).row;
    InvParts(s, p);
    GrantRowIsKnown(s, row);
    CommitGrantIsGood(s, row);
    PlaceKeeps(s.ledger, row);
    assert PlaceAll(s.ledger, [row]) == Place(s.ledger, row) by { PlaceOne(s.ledger, row); }
    var s' := End(s, p).(ledger := Place(s.ledger, row));
    forall q | q in s.procs && q != p
      ensures Knows(s', s.procs[q])
    {
      assert row in StampedRows(ProcOf(s, p)) && row in PendingRows(ProcOf(s, p));
      GrantKeepsKnowledge(s, s', row, s.procs[q]);
    }
    CommitInv(s, p, Place(s.ledger, row));
  }

  lemma {:induction false} PlaceOne(ledger: Ledger, row: Entry)
    ensures PlaceAll(ledger, [row]) == Place(ledger, row)
  {
    hide Place;
    assert [row][..0] == [];
    assert PlaceAll(ledger, [row][..0]) == ledger;
  }

  lemma {:induction false} GrantRowIsKnown(s: State, row: Entry)
    requires Good(s.ledger, s.indexed, s.clock) && Knows(s, GrantInserted(row))
    ensures GrantRow(s, row) && (s.indexed ==> !HasKey(s.ledger, row))
    ensures Ordered(s.ledger) && NewStamp(s.ledger, row)
  {
  }

  /** Every debit of the ledger is older than debits computed since. */
  lemma {:induction false} DebitsAreOlder(base: Ledger, ledger: Ledger, rows: Ledger, i: nat)
    requires Since(base, ledger) && Ordered(base + rows) && i < |ledger| && ledger[i].amount < 0
    ensures forall j :: 0 <= j < |rows| ==> ledger[i].createdAt < rows[j].createdAt
  {
    assert ledger[i] in ledger && ledger[i] in base;
    var b := IndexOf(base, ledger[i]);
    forall j | 0 <= j < |rows|
      ensures ledger[i].createdAt < rows[j].createdAt
    {
      assert (base + rows)[b] == ledger[i] && (base + rows)[|base| + j] == rows[j];
    }
  }

  /** Placing debits leaves the pairs of older offsets as they are. */
  lemma {:induction false} OlderPairStays(base: Ledger, ledger: Ledger, rows: Ledger, i: nat, a: nat)
    requires Since(base, ledger) && Ordered(base + rows) && Ordered(PlaceAll(ledger, rows))
    requires a < |ledger| && i < |PlaceAll(ledger, rows)| && ledger[a] == PlaceAll(ledger, rows)[i]
    requires ledger[a].amount < 0
    ensures Overtaken(ledger, a) ==> Overtaken(PlaceAll(ledger, rows), i)
    ensures Left(PlaceAll(ledger, rows), i) == Left(ledger, a)
  {
    hide Place, PlaceAll, Replay;
    DebitsAreOlder(base, ledger, rows, a);
    AllPlacedBehind(ledger, rows, a);
  }

  lemma {:induction false} SpendKeepsPairs(base: Ledger, ledger: Ledger, row: Entry)
    requires Since(base, ledger) && Ordered(base + [row]) && Ordered(ledger) && Ordered(PlaceAll(ledger, [row]))
    requires ReservedAreOffsets(ledger) && PairsOvertaken(ledger) && !Reserved(row)
    requires forall e :: e in PlaceAll(ledger, [row]) <==> e in ledger || e == row
    ensures PairsOvertaken(PlaceAll(ledger, [row]))
  {
    hide Overtaken, PlaceAll, Since;
    var placed := PlaceAll(ledger, [row]);
    forall i, j | 0 <= i < j < |placed| && Reserved(placed[i]) && SameKey(placed[i], placed[j])
      ensures Overtaken(placed, i)
    {
      assert placed[i] in placed && placed[j] in placed;
      var a, b := IndexOf(ledger, placed[i]), IndexOf(ledger, placed[j]);
      assert a < b;
      OlderPairStays(base, ledger, [row], i, a);
    }
  }

  lemma {:induction false} CommitSpendIsGood(s: State, row: Entry)
    requires Good(s.ledger, s.indexed, s.clock) && SpendRow(s, row) && (s.indexed ==> !HasKey(s.ledger, row))
    ensures Good(PlaceAll(s.ledger, [row]), s.indexed, s.clock)
    ensures forall e :: e in PlaceAll(s.ledger, [row]) <==> e in s.ledger || e == row
  {
    hide AllCovered, PlaceAll, PairsOvertaken, HasKey, SameKey, Since;
    var base :| Since(base, s.ledger) && Ordered(base + [row]) && AllCovered(base + [row]);
    var placed := PlaceAll(s.ledger, [row]);
    PlaceAllKeeps(s.ledger, [row]);
    NumberedIsDistinct(placed, s.clock);
    var f := CommitIsCovered(base, s.ledger, [row]);
    SpendKeepsPairs(base, s.ledger, row);
    SameKeyIsSymmetric();
    if s.indexed {
      NoKeyAmong(s.ledger, row);
      PlacedRowsUnique(s.ledger, [row], placed);
    }
  }

  lemma {:induction false} CommitSpendKeepsInv(s: State, p: Pid)
    requires Inv(s) && ProcOf(s, p).SpendInserted?
    ensures Inv(Next(s, Commit(p)))
  {
    hide Inv, Knows, Good, PlaceAll, Sum, Funded, NewSpend;
    var row := ProcOf(s, p).row;
    InvParts(s, p);
    SpendInsertedIsKnown(s, row);
    CommitSpendIsGood(s, row);
    var s' := End(s, p).(ledger := PlaceAll(s.ledger, [row]));
    forall q | q in s.procs && q != p
      ensures Knows(s', s.procs[q])
    {
      DebitsKeepKnowledge(s, s', [row], s.procs[q]);
    }
    CommitInv(s, p, PlaceAll(s.ledger, [row]));
  }

  lemma {:induction false} SpendInsertedIsKnown(s: State, row: Entry)
    requires Knows(s, SpendInserted(row))
    ensures SpendRow(s, row) && (s.indexed ==> !HasKey(s.ledger, row))
  {
  }

  /** An offset just written for a bucket that an earlier offset names: the earlier one was overtaken. */
  lemma {:induction false} NewPairIsOvertaken(entries: Ledger, ledger: Ledger, now: int, k: nat, row: Entry, a: nat)
    requires AllCovered(entries) && Ordered(entries) && Ordered(ledger) && Since(entries, ledger)
    requires DistinctIds(entries) && DistinctIds(ledger) && ReservedAreOffsets(ledger)
    requires NamesBucket(Replay(entries), now, k, row) && a < |ledger| && Reserved(ledger[a])
    requires ledger[a].ref == row.ref
    ensures Overtaken(ledger, a)
  {
    hide AllCovered, Replay, DistinctIds, Ordered, Overtaken;
    var m :| 0 <= m < k && m < |Replay(entries)| && Due(Replay(entries)[m], now)
             && row.ref == RowRef(Replay(entries)[m].entryId) && row.amount == -Replay(entries)[m].remaining;
    assert ledger[a] in ledger && ledger[a] in entries;
    var x := IndexOf(entries, ledger[a]);
    assert ReservedAreOffsets(entries);
    HeldIsOvertaken(entries, x, m);
    OvertakenStays(entries, x, ledger, a);
  }

  lemma {:induction false} SweepKeepsPairs(entries: Ledger, ledger: Ledger, now: int, k: nat, rows: Ledger)
    requires AllCovered(entries) && Since(entries, ledger) && Ordered(entries + rows) && Ordered(entries)
    requires Ordered(ledger) && Ordered(PlaceAll(ledger, rows)) && DistinctIds(entries) && DistinctIds(ledger)
    requires ReservedAreOffsets(ledger) && PairsOvertaken(ledger) && OffsetsFor(Replay(entries), now, k, rows)
    requires forall e :: e in PlaceAll(ledger, rows) <==> e in ledger || e in rows
    ensures PairsOvertaken(PlaceAll(ledger, rows))
  {
    hide Overtaken, PlaceAll, Since, AllCovered, DistinctIds, Replay, NamesBucket;
    var placed := PlaceAll(ledger, rows);
    forall i, j | 0 <= i < j < |placed| && Reserved(placed[i]) && SameKey(placed[i], placed[j])
      ensures Overtaken(placed, i)
    {
      assert placed[i] in placed && placed[j] in placed;
      if placed[i] in ledger {
        var a := IndexOf(ledger, placed[i]);
        if placed[j] in ledger {
          var b := IndexOf(ledger, placed[j]);
          assert a < b;
        } else {
          var y := IndexOf(rows, placed[j]);
          NewPairIsOvertaken(entries, ledger, now, k, rows[y], a);
        }
        OlderPairStays(entries, ledger, rows, i, a);
      } else {
        NoLaterPair(entries, ledger, rows, placed[i], placed[j]);
      }
    }
  }

  /** No debit of the ledger, and no other offset of the sweep, shares the key of one and stands behind it. */
  lemma {:induction false} NoLaterPair(entries: Ledger, ledger: Ledger, rows: Ledger, e: Entry, d: Entry)
    requires Since(entries, ledger) && Ordered(entries + rows) && ReservedAreOffsets(ledger)
    requires e in rows && (d in ledger || d in rows) && Reserved(e) && e.createdAt < d.createdAt
    requires forall i, j :: 0 <= i < j < |rows| ==> rows[i].ref != rows[j].ref
    ensures !SameKey(e, d)
  {
    var x := IndexOf(rows, e);
    if d in rows {
      assert rows[x] != rows[IndexOf(rows, d)];
    } else if Reserved(d) {
      DebitsAreOlder(entries, ledger, rows, IndexOf(ledger, d));
    }
  }

  lemma {:induction false} RowsAreApart(bs: seq<BucketView>, now: int, k: nat, rows: Ledger)
    requires OffsetsFor(bs, now, k, rows)
    ensures UniqueRows(rows) && forall e :: e in rows ==> IsOffset(e)
  {
    forall e, d | e in rows && d in rows && e != d
      ensures !SameKey(e, d)
    {
      var i, j := IndexOf(rows, e), IndexOf(rows, d);
      assert rows[i].ref != rows[j].ref;
    }
  }

  lemma {:induction false} CommitSweepIsGood(s: State, now: int, entries: Ledger, k: nat, rows: Ledger)
    requires Good(s.ledger, s.indexed, s.clock) && SweepRows(s, now, entries, k, rows)
    ensures Good(PlaceAll(s.ledger, rows), s.indexed, s.clock)
    ensures forall e :: e in PlaceAll(s.ledger, rows) <==> e in s.ledger || e in rows
  {
    hide AllCovered, PlaceAll, PairsOvertaken, HasKey, SameKey, Since, Replay, NamesBucket;
    var placed := PlaceAll(s.ledger, rows);
    RowsAreOrdered(entries, rows);
    PlaceAllKeeps(s.ledger, rows);
    EntriesAreNumbered(s, entries, rows);
    NumberedIsDistinct(s.ledger, s.clock);
    NumberedIsDistinct(placed, s.clock);
    var f := CommitIsCovered(entries, s.ledger, rows);
    DistinctPrefix(entries + rows, |entries|);
    PrefixCovered(entries + rows, |entries|);
    assert (entries + rows)[..|entries|] == entries;
    SweepKeepsPairs(entries, s.ledger, now, k, rows);
    RowsAreApart(Replay(entries), now, k, rows);
    SweepRowsApart(s.ledger, rows, s.indexed);
    if s.indexed {
      PlacedRowsUnique(s.ledger, rows, placed);
    }
  }

  lemma {:induction false} RowsAreOrdered(entries: Ledger, rows: Ledger)
    requires Ordered(entries + rows)
    ensures Ordered(rows) && Ordered(entries)
  {
    forall i, j | 0 <= i < j < |rows|
      ensures rows[i].createdAt < rows[j].createdAt
    {
      assert (entries + rows)[|entries| + i] == rows[i] && (entries + rows)[|entries| + j] == rows[j];
    }
    forall i, j | 0 <= i < j < |entries|
      ensures entries[i].createdAt < entries[j].createdAt
    {
      assert (entries + rows)[i] == entries[i] && (entries + rows)[j] == entries[j];
    }
  }

  /** Offsets share no key with a spend, nor, if none was found in the ledger, with any row. */
  lemma {:induction false} SweepRowsApart(ledger: Ledger, rows: Ledger, indexed: bool)
    requires forall e :: e in rows ==> IsOffset(e)
    requires indexed ==> forall i :: 0 <= i < |rows| ==> !HasKey(ledger, rows[i])
    ensures forall e, d :: e in rows && !Reserved(d) ==> !SameKey(e, d) && !SameKey(d, e)
    ensures indexed ==> forall e, d :: e in ledger && d in rows ==> !SameKey(e, d)
  {
    hide HasKey;
    if indexed {
      forall e, d | e in ledger && d in rows
        ensures !SameKey(e, d)
      {
        var i := IndexOf(rows, d);
        KeyIsNotHeld(ledger, e, rows[i]);
      }
    }
  }

  lemma {:induction false} CommitSweepKeepsInv(s: State, p: Pid)
    requires Inv(s) && ProcOf(s, p).SweepLoaded?
    ensures Inv(Next(s, Commit(p)))
  {
    hide Inv, Knows, Good, PlaceAll, Sum, SweepRows, Replay;
    var proc := ProcOf(s, p);
    if Next(s, Commit(p)) != s {
      InvParts(s, p);
      assert SweepRows(s, proc.now, proc.entries, proc.k, proc.rows) by { SweepIsKnown(s, proc); }
      CommitSweepIsGood(s, proc.now, proc.entries, proc.k, proc.rows);
      var s' := End(s, p).(ledger := PlaceAll(s.ledger, proc.rows));
      forall q | q in s.procs && q != p
        ensures Knows(s', s.procs[q])
      {
        DebitsKeepKnowledge(s, s', proc.rows, s.procs[q]);
      }
      CommitInv(s, p, PlaceAll(s.ledger, proc.rows));
    }
  }

  lemma {:induction false} SweepIsKnown(s: State, proc: Proc)
    requires Knows(s, proc) && proc.SweepLoaded?
    ensures SweepRows(s, proc.now, proc.entries, proc.k, proc.rows)
  {
  }

  // ---------------------------------------------------------------- the theorems

  lemma {:induction false} NextKeepsInv(s: State, ev: Event)
    requires Inv(s) && Asks(ev)
    ensures Inv(Next(s, ev))
  {
    hide Inv, Next;
    match ev
    case BeginSpend(p, _) => BeginKeepsInv(s, p, ev);
    case BeginSweep(p, _) => BeginKeepsInv(s, p, ev);
    case LoadLedger(p) => BeginKeepsInv(s, p, ev);
    case BeginGrant(p, _) => BeginKeepsInv(s, p, ev);
    case ReadBalance(p) => SpendStepKeepsInv(s, p, ev);
    case CheckBalance(p) => SpendStepKeepsInv(s, p, ev);
    case CheckKey(p) => SpendStepKeepsInv(s, p, ev);
    case StampSpend(p) => StampStepKeepsInv(s, p, ev);
    case StampGrant(p) => StampStepKeepsInv(s, p, ev);
    case InsertSpend(p) => InsertStepKeepsInv(s, p, ev);
    case InsertGrant(p) => InsertStepKeepsInv(s, p, ev);
    case SweepBucket(p) => SweepStepKeepsInv(s, p);
    case Commit(p) => CommitKeepsInv(s, p);
    case Rollback(p) => RollbackKeepsInv(s, p);
  }

  lemma {:induction false} RollbackKeepsInv(s: State, p: Pid)
    requires Inv(s)
    ensures Inv(Next(s, Rollback(p)))
  {
    hide Inv;
    EndKeepsInv(s, p);
  }

  lemma {:induction false} CommitKeepsInv(s: State, p: Pid)
    requires Inv(s)
    ensures Inv(Next(s, Commit(p)))
  {
    hide Inv;
    var proc := ProcOf(s, p);
    if proc.SpendInserted? {
      CommitSpendKeepsInv(s, p);
    } else if proc.GrantInserted? {
      CommitGrantKeepsInv(s, p);
    } else if proc.SweepLoaded? {
      CommitSweepKeepsInv(s, p);
    }
  }

  lemma {:induction false} RunKeepsInv(s: State, evs: seq<Event>)
    requires Inv(s) && Legal(evs)
    ensures Inv(Run(s, evs)) && Run(s, evs).indexed == s.indexed
  {
    hide Inv, Next;
    if evs != [] {
      RunKeepsInv(s, evs[..|evs| - 1]);
      NextKeepsInv(Run(s, evs[..|evs| - 1]), evs[|evs| - 1]);
      NextKeepsIndexed(Run(s, evs[..|evs| - 1]), evs[|evs| - 1]);
    }
  }

  lemma {:induction false} NextKeepsIndexed(s: State, ev: Event)
    ensures Next(s, ev).indexed == s.indexed
  {
    hide Replay, HasKey, PlaceAll, Sum;
  }

  lemma {:induction false} LedgerStays(s: State, ev: Event)
    requires !ev.Commit?
    ensures Next(s, ev).ledger == s.ledger
  {
    hide Replay, HasKey, Sum;
  }

  lemma {:induction false} ReachableInv(indexed: bool, evs: seq<Event>)
    requires Legal(evs)
    ensures Inv(Run(Init(indexed), evs)) && Run(Init(indexed), evs).indexed == indexed
  {
    hide Inv, Run;
    InitInv(indexed);
    RunKeepsInv(Init(indexed), evs);
  }

  /** In every interleaving, with or without the unique index and however late a grant commits, the
      balance is never negative and equals what the replayed buckets hold. */
  lemma {:induction false} BalanceIsNeverNegative(indexed: bool, evs: seq<Event>)
    requires Legal(evs)
    ensures Sum(Run(Init(indexed), evs).ledger) == Total(Replay(Run(Init(indexed), evs).ledger)) >= 0
  {
    hide Run, Replay, Sum, Knows, Total;
    ReachableInv(indexed, evs);
    CoveredConservation(Run(Init(indexed), evs).ledger);
  }

  /** And in the order of the stamps every row is covered where it stands: no spend leaves a rest
      undeducted and no offset is clamped. */
  lemma {:induction false} EveryRowIsCovered(indexed: bool, evs: seq<Event>, i: nat)
    requires Legal(evs) && i < |Run(Init(indexed), evs).ledger|
    ensures var ledger := Run(Init(indexed), evs).ledger; Ordered(ledger) && Covered(Replay(ledger[..i]), ledger[i])
  {
    hide Run, Replay, Covered, Knows;
    ReachableInv(indexed, evs);
    CoveredAt(Run(Init(indexed), evs).ledger, i);
  }

  /** Exactly once.  With the index no key is written twice, whoever writes it.  Without it, two rows
      share a key only if one of them is a grant, or both are offsets of a bucket whose earlier offset
      has been overtaken by a late grant. */
  lemma {:induction false} KeysAreWrittenOnce(indexed: bool, evs: seq<Event>, i: nat, j: nat)
    requires Legal(evs) && i < j < |Run(Init(indexed), evs).ledger|
    ensures var ledger := Run(Init(indexed), evs).ledger;
            SameKey(ledger[i], ledger[j]) ==>
              !indexed && (ledger[i].amount > 0 || ledger[j].amount > 0 || Overtaken(ledger, i))
  {
    hide Run, Knows, Overtaken, AllCovered, Numbered, ReservedAreOffsets, Covered;
    ReachableInv(indexed, evs);
    var ledger := Run(Init(indexed), evs).ledger;
    assert ledger[i] in ledger && ledger[j] in ledger;
    CoveredAt(ledger, i);
    CoveredAt(ledger, j);
    NoZeroRow(Replay(ledger[..i]), ledger[i]);
    NoZeroRow(Replay(ledger[..j]), ledger[j]);
  }

  lemma {:induction false} NoZeroRow(bs: seq<BucketView>, e: Entry)
    requires Covered(bs, e)
    ensures e.amount != 0
  {
  }

  /** Rows that are committed stay, and keep their order among each other. */
  lemma {:induction false} LedgerGrows(s: State, evs: seq<Event>, e: Entry)
    requires Inv(s) && Legal(evs) && e in s.ledger
    ensures e in Run(s, evs).ledger && Ordered(Run(s, evs).ledger)
  {
    hide Inv, Next;
    if evs == [] {
      InvParts(s, 0);
    } else {
      var n := |evs| - 1;
      LedgerGrows(s, evs[..n], e);
      RunKeepsInv(s, evs[..n]);
      RunKeepsInv(s, evs);
      NextKeepsRows(Run(s, evs[..n]), evs[n], e);
      InvParts(Run(s, evs), 0);
    }
  }

  lemma {:induction false} NextKeepsRows(s: State, ev: Event, e: Entry)
    requires e in s.ledger
    ensures e in Next(s, ev).ledger
  {
    hide Replay, HasKey, PlaceAll, Sum;
    if ev.Commit? {
      AllPlacedKeep(s.ledger, PendingRows(ProcOf(s, ev.p)), e);
    }
  }

  lemma {:induction false} AllPlacedKeep(ledger: Ledger, rows: Ledger, e: Entry)
    requires e in ledger
    ensures e in PlaceAll(ledger, rows)
  {
    if rows != [] {
      AllPlacedKeep(ledger, rows[..|rows| - 1], e);
      PlacedKeeps(PlaceAll(ledger, rows[..|rows| - 1]), rows[|rows| - 1], e);
    }
  }

  lemma {:induction false} PlacedKeeps(ledger: Ledger, row: Entry, e: Entry)
    requires e in ledger
    ensures e in Place(ledger, row)
  {
    var n := |ledger| - 1;
    if !(ledger[n].createdAt < row.createdAt) && e != ledger[n] {
      assert ledger == ledger[..n] + [ledger[n]];
      PlacedKeeps(ledger[..n], row, e);
    }
  }

  /** Once a keyed request has been committed, no number of retries, from any number of processes,
      writes another row for it: its contribution to the balance is that of the first success. */
  lemma {:induction false} RetriesWriteNothing(evs: seq<Event>, more: seq<Event>, e: Entry, row: Entry)
    requires Legal(evs) && Legal(more) && HasKey(Run(Init(true), evs).ledger, e)
    requires row in Run(Run(Init(true), evs), more).ledger && SameKey(row, e)
    ensures row in Run(Init(true), evs).ledger
  {
    hide Run, Knows, AllCovered, PairsOvertaken, Ordered, Numbered;
    ReachableInv(true, evs);
    var mid := Run(Init(true), evs);
    RunKeepsInv(mid, more);
    var j :| 0 <= j < |mid.ledger| && SameKey(mid.ledger[j], e);
    LedgerGrows(mid, more, mid.ledger[j]);
    assert SameKey(mid.ledger[j], row);
  }

  // ---------------------------------------------------------------- when a sweep collides

  /** The insert of a sweep's next offset violates the index exactly when an earlier offset of the same
      bucket stands in the ledger it loaded and has been overtaken. */
  lemma {:induction false} SweepCollidesExactly(s: State, p: Pid)
    requires Inv(s) && ProcOf(s, p).SweepLoaded? && ProcOf(s, p).k < |Replay(ProcOf(s, p).entries)|
    requires Due(Replay(ProcOf(s, p).entries)[ProcOf(s, p).k], ProcOf(s, p).now)
    ensures var entries, b := ProcOf(s, p).entries, Replay(ProcOf(s, p).entries)[ProcOf(s, p).k];
            Violates(s, OffsetEntry(b, s.clock, s.clock)) <==>
              s.indexed && exists j ::
                0 <= j < |entries| && Overtaken(entries, j) && entries[j].ref == RowRef(b.entryId)
    ensures !Waits(s, p, OffsetEntry(Replay(ProcOf(s, p).entries)[ProcOf(s, p).k], s.clock, s.clock))
  {
    hide Inv, Good, Replay, Overtaken, HasKey, AllCovered;
    var proc := ProcOf(s, p);
    var row := OffsetEntry(Replay(proc.entries)[proc.k], s.clock, s.clock);
    InvParts(s, p);
    SweepBase(s, proc.now, proc.entries, proc.k, proc.rows);
    CollidesExactly(proc.entries, proc.k, s.clock, s.clock);
    SameReserved(proc.entries, s.ledger, row);
    forall q | q in s.procs && q != p
      ensures !HasKey(PendingRows(s.procs[q]), row)
    {
      OthersWriteNoOffset(s, s.procs[q]);
      NoKey(PendingRows(s.procs[q]), row);
    }
  }

  lemma {:induction false} SweepBase(s: State, now: int, entries: Ledger, k: nat, rows: Ledger)
    requires Good(s.ledger, s.indexed, s.clock) && SweepRows(s, now, entries, k, rows)
    ensures AllCovered(entries) && DistinctIds(entries) && Ordered(entries) && ReservedAreOffsets(entries)
    ensures Since(entries, s.ledger) && DistinctIds(s.ledger) && ReservedAreOffsets(s.ledger) && Ordered(s.ledger)
  {
    hide AllCovered, Replay, HasKey, UniqueSpends, UniqueRows, PairsOvertaken, OffsetsFor;
    RowsAreOrdered(entries, rows);
    EntriesAreNumbered(s, entries, rows);
    NumberedIsDistinct(s.ledger, s.clock);
    DistinctPrefix(entries + rows, |entries|);
    PrefixCovered(entries + rows, |entries|);
    assert (entries + rows)[..|entries|] == entries;
  }

  /** The ledger has the reserved rows of the one that was loaded. */
  lemma {:induction false} SameReserved(entries: Ledger, ledger: Ledger, row: Entry)
    requires Since(entries, ledger) && ReservedAreOffsets(ledger) && Reserved(row)
    ensures HasKey(ledger, row) <==> HasKey(entries, row)
  {
    if HasKey(ledger, row) {
      var i :| 0 <= i < |ledger| && SameKey(ledger[i], row);
      assert ledger[i] in ledger && ledger[i] in entries;
      assert SameKey(entries[IndexOf(entries, ledger[i])], row);
    }
    if HasKey(entries, row) {
      var i :| 0 <= i < |entries| && SameKey(entries[i], row);
      assert entries[i] in entries && entries[i] in ledger;
      assert SameKey(ledger[IndexOf(ledger, entries[i])], row);
    }
  }

  lemma {:induction false} OthersWriteNoOffset(s: State, other: Proc)
    requires Knows(s, other) && !HoldsLock(other)
    ensures forall e :: e in PendingRows(other) ==> !Reserved(e)
  {
  }
}
