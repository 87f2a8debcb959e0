/** When keys stay unique without the unique index. */
module CreditKeys {
  import opened CreditBuckets
  import opened CreditInterleaving
  import opened CreditLedger
  import opened CreditOrder
  import opened Options

  /** The request of a transaction that is past its key check. */
  function Asked(proc: Proc): Option<Entry> {
    match proc
    case SpendNew(req) => Some(req)
    case SpendStamped(row) => Some(row)
    case SpendInserted(row) => Some(row)
    case GrantNew(req) => Some(req)
    case GrantStamped(row) => Some(row)
    case GrantInserted(row) => Some(row)
    case _ => None
  }

  /** Nothing commits while another transaction is past its check of the same key. */
  predicate Exclusive(s: State, ev: Event) {
    ev.Commit? ==>
      forall q, e :: q in s.procs && q != ev.p && Asked(s.procs[q]).Some? && e in PendingRows(ProcOf(s, ev.p)) ==>
        !SameKey(e, Asked(s.procs[q]).value)
  }

  predicate AllExclusive(s: State, evs: seq<Event>) {
    evs == []
    || (AllExclusive(s, evs[..|evs| - 1]) && Exclusive(CreditInterleaving.Run(s, evs[..|evs| - 1]), evs[|evs| - 1]))
  }

  /** No request shares its key with another row. */
  predicate UniqueRequests(ledger: Ledger) {
    forall e, d :: e in ledger && d in ledger && e != d && !Reserved(e) ==> !SameKey(e, d)
  }

  predicate AskedIsNew(ledger: Ledger, proc: Proc) {
    Asked(proc).Some? ==> !HasKey(ledger, Asked(proc).value)
  }

  ghost predicate KeysInv(s: State) {
    Inv(s) && UniqueRequests(s.ledger) && forall p :: p in s.procs ==> AskedIsNew(s.ledger, s.procs[p])
  }

  /** Without a commit the ledger stays, and what a process asks for is as before or checked just now. */
  lemma {:induction false} MovesAreNew(s: State, ev: Event, q: Pid)
    requires !ev.Commit? && q in Next(s, ev).procs && (q in s.procs ==> AskedIsNew(s.ledger, s.procs[q]))
    ensures Next(s, ev).ledger == s.ledger && AskedIsNew(s.ledger, Next(s, ev).procs[q])
  {
    hide Replay, Sum;
    SameKeyOfStamped(s);
  }

  /** Stamping a request, and turning it into a debit, leaves its key. */
  lemma {:induction false} SameKeyOfStamped(s: State)
    ensures forall ledger, e :: HasKey(ledger, Stamp(s, e)) <==> HasKey(ledger, e)
    ensures forall ledger, e :: HasKey(ledger, Stamp(s, SpendEntry(e))) <==> HasKey(ledger, e)
  {
    forall ledger, e
      ensures HasKey(ledger, Stamp(s, e)) <==> HasKey(ledger, e)
      ensures HasKey(ledger, Stamp(s, SpendEntry(e))) <==> HasKey(ledger, e)
    {
      assert forall d :: SameKey(d, Stamp(s, e)) <==> SameKey(d, e);
      assert forall d :: SameKey(d, Stamp(s, SpendEntry(e))) <==> SameKey(d, e);
    }
  }

  lemma {:induction false} CommitPlaces(s: State, p: Pid)
    requires Inv(s)
    ensures var s' := Next(s, Commit(p));
            && (s'.ledger == s.ledger
                || forall e :: e in s'.ledger <==> e in s.ledger || e in PendingRows(ProcOf(s, p)))
            && forall q :: q in s'.procs ==> (q in s.procs && q != p && s'.procs[q] == s.procs[q]) || s'.procs[q].Idle?
                                             || (s' == s)
  {
    hide Inv, Good, Replay, PlaceAll, SweepRows, SpendRow;
    var proc := ProcOf(s, p);
    if Next(s, Commit(p)) != s {
      InvParts(s, p);
      if proc.GrantInserted? {
        PlaceOne(s.ledger, proc.row);
        GrantRowIsKnown(s, proc.row);
        PlaceKeeps(s.ledger, proc.row);
      } else if proc.SpendInserted? {
        SpendInsertedIsKnown(s, proc.row);
        CommitSpendIsGood(s, proc.row);
      } else {
        SweepIsKnown(s, proc);
        CommitSweepIsGood(s, proc.now, proc.entries, proc.k, proc.rows);
      }
    }
  }

  /** The rows of one transaction: a request that is new to the ledger, or offsets. */
  lemma {:induction false} PendingIsNew(s: State, p: Pid)
    requires KeysInv(s)
    ensures forall e, d :: e in PendingRows(ProcOf(s, p)) && d in s.ledger && !Reserved(d) ==>
      !SameKey(e, d) && !SameKey(d, e)
    ensures forall e, d :: e in PendingRows(ProcOf(s, p)) && d in s.ledger && !Reserved(e) ==>
      !SameKey(e, d) && !SameKey(d, e)
    ensures forall e, d :: e in PendingRows(ProcOf(s, p)) && d in PendingRows(ProcOf(s, p)) && e != d ==>
      Reserved(e) && Reserved(d)
  {
    hide Inv, Good, HasKey;
    InvParts(s, p);
    PendingIsRequestOrOffsets(s, ProcOf(s, p));
    var proc := ProcOf(s, p);
    if !proc.SweepLoaded? && PendingRows(proc) != [] {
      assert AskedIsNew(s.ledger, s.procs[p]);
      NoKeyAmong(s.ledger, proc.row);
      SameKeyIsSymmetric();
    }
  }

  lemma {:induction false} PendingIsRequestOrOffsets(s: State, proc: Proc)
    requires Knows(s, proc)
    ensures proc.SweepLoaded? ==> forall e :: e in PendingRows(proc) ==> Reserved(e)
    ensures !proc.SweepLoaded? && PendingRows(proc) != [] ==>
      (proc.SpendInserted? || proc.GrantInserted?) && PendingRows(proc) == [proc.row] && Asked(proc) == Some(proc.row)
  {
    hide AllCovered, Replay, HasKey, PairsOvertaken;
    if proc.SweepLoaded? {
      RowsAreApart(Replay(proc.entries), proc.now, proc.k, proc.rows);
    }
  }

  lemma {:induction false} CommitKeepsKeys(s: State, p: Pid)
    requires KeysInv(s) && Exclusive(s, Commit(p))
    ensures UniqueRequests(Next(s, Commit(p)).ledger)
    ensures forall q :: q in Next(s, Commit(p)).procs ==>
      AskedIsNew(Next(s, Commit(p)).ledger, Next(s, Commit(p)).procs[q])
  {
    hide Inv, Next, HasKey, SameKey;
    var s' := Next(s, Commit(p));
    CommitPlaces(s, p);
    PendingIsNew(s, p);
    if s'.ledger != s.ledger {
      forall q | q in s'.procs
        ensures AskedIsNew(s'.ledger, s'.procs[q])
      {
        if Asked(s'.procs[q]).Some? {
          NoKeyAmong(s.ledger, Asked(s.procs[q]).value);
          NoKey(s'.ledger, Asked(s.procs[q]).value);
        }
      }
    }
  }

  lemma {:induction false} NextKeepsKeys(s: State, ev: Event)
    requires KeysInv(s) && Asks(ev) && Exclusive(s, ev)
    ensures KeysInv(Next(s, ev))
  {
    hide Inv, Next, Exclusive, UniqueRequests, AskedIsNew;
    NextKeepsInv(s, ev);
    if ev.Commit? {
      CommitKeepsKeys(s, ev.p);
    } else {
      LedgerStays(s, ev);
      forall q | q in Next(s, ev).procs
        ensures AskedIsNew(Next(s, ev).ledger, Next(s, ev).procs[q])
      {
        MovesAreNew(s, ev, q);
      }
    }
  }

  lemma {:induction false} RunKeepsKeys(indexed: bool, evs: seq<Event>)
    requires CreditInterleaving.Legal(evs) && AllExclusive(Init(indexed), evs)
    ensures KeysInv(CreditInterleaving.Run(Init(indexed), evs))
  {
    hide Next, Inv, Exclusive, UniqueRequests, AskedIsNew;
    if evs == [] {
      InitInv(indexed);
      NothingIsUnique();
    } else {
      var n := |evs| - 1;
      RunKeepsKeys(indexed, evs[..n]);
      NextKeepsKeys(CreditInterleaving.Run(Init(indexed), evs[..n]), evs[n]);
    }
  }

  lemma {:induction false} NothingIsUnique()
    ensures UniqueRequests([])
  {
  }

  /** With or without the index: if nothing commits while another transaction is past its check of the
      same key, no key of a grant or a spend is written twice, and two offsets share one only if the
      earlier has been overtaken. */
  lemma {:induction false} ExclusiveKeysAreUnique(indexed: bool, evs: seq<Event>, i: nat, j: nat)
    requires CreditInterleaving.Legal(evs) && AllExclusive(Init(indexed), evs)
    requires i < j < |CreditInterleaving.Run(Init(indexed), evs).ledger|
    ensures var ledger := CreditInterleaving.Run(Init(indexed), evs).ledger;
            SameKey(ledger[i], ledger[j]) ==>
              !indexed && Reserved(ledger[i]) && Reserved(ledger[j]) && Overtaken(ledger, i)
  {
    hide Inv, CreditInterleaving.Run, AllExclusive, Overtaken;
    RunKeepsKeys(indexed, evs);
    var ledger := CreditInterleaving.Run(Init(indexed), evs).ledger;
    KeysAreWrittenOnce(indexed, evs, i, j);
    RowsDiffer(indexed, evs, i, j);
  }

  lemma {:induction false} RowsDiffer(indexed: bool, evs: seq<Event>, i: nat, j: nat)
    requires CreditInterleaving.Legal(evs) && i < j < |CreditInterleaving.Run(Init(indexed), evs).ledger|
    ensures var ledger := CreditInterleaving.Run(Init(indexed), evs).ledger;
            && ledger[i] != ledger[j] && ledger[i] in ledger && ledger[j] in ledger
            && (Reserved(ledger[i]) ==> ledger[i].amount < 0) && (Reserved(ledger[j]) ==> ledger[j].amount < 0)
  {
    hide CreditInterleaving.Run, Knows, AllCovered, PairsOvertaken;
    ReachableInv(indexed, evs);
    var ledger := CreditInterleaving.Run(Init(indexed), evs).ledger;
    assert ledger[i] in ledger && ledger[j] in ledger;
  }
}
