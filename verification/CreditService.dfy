/** The credit service: the ledgers of all orgs as a mutable store, each method proved against the
    operation of the same name on one org's ledger. */
module CreditService {
  import opened CreditBuckets
  import opened CreditLedger
  import opened Options

  type OrgId = nat

  function Rows(ledgers: map<OrgId, Ledger>, org: OrgId): Ledger {
    if org in ledgers then ledgers[org] else []
  }

  /** What one pass over all orgs does to the ledgers; `passedOver` are the orgs it could not sweep. */
  ghost predicate Swept(before: map<OrgId, Ledger>, after: map<OrgId, Ledger>, passedOver: iset<OrgId>,
                        now: int, at: int, serial: Id) {
    forall o :: Rows(after, o) ==
      if Candidate(Rows(before, o), now) && o !in passedOver
      then Sweep(Rows(before, o), now, at, serial) else Rows(before, o)
  }

  /** After a pass over sound ledgers, every org that was not passed over has nothing left to forfeit:
      the sweep empties the candidates, and the pre-filter only skips orgs with nothing due. */
  lemma {:induction false} PassLeavesNothingDue(before: map<OrgId, Ledger>, after: map<OrgId, Ledger>,
        passedOver: iset<OrgId>,
                             now: int, at: int, serial: Id, o: OrgId, i: nat)
    requires Swept(before, after, passedOver, now, at, serial)
    requires Sound(Rows(before, o)) && i < |Replay(Rows(after, o))|
    ensures Sound(Rows(after, o))
    ensures (o in passedOver && Candidate(Rows(before, o), now)) || !Due(Replay(Rows(after, o))[i], now)
  {
    hide Sound, Sweep, Candidate, Replay;
    if Candidate(Rows(before, o), now) {
      SweepIsExact(Rows(before, o), now, at, serial);
    } else {
      PrefilterIsComplete(Rows(before, o), now, i);
    }
  }

  class CreditsService {
    /** Rows of the orgs table; locking one that is missing fails. */
    var orgs: set<OrgId>
    var ledgers: map<OrgId, Ledger>

    constructor (orgs: set<OrgId>)
      ensures this.orgs == orgs && ledgers == map[]
    {
      this.orgs, ledgers := orgs, map[];
    }

    function LedgerOf(org: OrgId): Ledger
      reads this`ledgers
    {
      Rows(ledgers, org)
    }

    ghost predicate Valid()
      reads this`ledgers
    {
      forall org :: Sound(Rows(ledgers, org))
    }

    method Balance(org: OrgId) returns (total: int)
      ensures total == Sum(LedgerOf(org))
      ensures Valid() ==> total == Total(Replay(LedgerOf(org))) >= 0
    {
      total := Sum(LedgerOf(org));
      if Valid() {
        Conservation(LedgerOf(org));
      }
    }

    method Grant(org: OrgId, req: Entry) returns (outcome: Outcome)
      modifies this`ledgers
      ensures outcome == old(CreditLedger.Grant(LedgerOf(org), req)).0
      ensures req.amount <= 0 <==> outcome == Refused(NonPositiveAmount)
      ensures req.amount > 0 ==>
        (outcome == Refused(AlreadyRecorded) <==> Recorded(old(LedgerOf(org)), req.reason, req.refType, req.ref))
      ensures LedgerOf(org) == old(CreditLedger.Grant(LedgerOf(org), req)).1
      ensures forall o :: o != org ==> Rows(ledgers, o) == Rows(old(ledgers), o)
      ensures old(Valid()) && old(Legal(LedgerOf(org), GrantOp(req))) ==> Valid()
    {
      if req.amount <= 0 {
        return Refused(NonPositiveAmount);
      }
      KeyExactly(LedgerOf(org), req);
      if HasKey(LedgerOf(org), req) {
        return Refused(AlreadyRecorded);
      }
      if Legal(LedgerOf(org), GrantOp(req)) && Valid() {
        StepIsSound(LedgerOf(org), GrantOp(req));
      }
      ledgers := ledgers[org := LedgerOf(org) + [req]];
      outcome := Done;
    }

    method Spend(org: OrgId, req: Entry) returns (outcome: Outcome)
      modifies this`ledgers
      ensures org !in orgs ==>
        outcome == Refused(if req.amount <= 0 then NonPositiveAmount else OrgNotFound)
      ensures org in orgs ==> outcome == old(CreditLedger.Spend(LedgerOf(org), req)).0
      ensures req.amount > 0 && org in orgs ==>
        && (outcome == Refused(InsufficientCredits) <==> old(Sum(LedgerOf(org))) < req.amount)
        && (outcome == Refused(AlreadyRecorded) <==>
            req.amount <= old(Sum(LedgerOf(org)))
            && Recorded(old(LedgerOf(org)), req.reason, req.refType, req.ref))
      ensures LedgerOf(org) ==
        if org in orgs then old(CreditLedger.Spend(LedgerOf(org), req)).1 else old(LedgerOf(org))
      ensures forall o :: o != org ==> Rows(ledgers, o) == Rows(old(ledgers), o)
      ensures old(Valid()) && !Reserved(req) ==> Valid()
    {
      if req.amount <= 0 {
        return Refused(NonPositiveAmount);
      }
      if org !in orgs {
        return Refused(OrgNotFound);
      }
      var current := Balance(org);
      if current < req.amount {
        return Refused(InsufficientCredits);
      }
      KeyExactly(LedgerOf(org), req);
      if HasKey(LedgerOf(org), req) {
        return Refused(AlreadyRecorded);
      }
      if Valid() && !Reserved(req) {
        StepIsSound(LedgerOf(org), SpendOp(req));
      }
      ledgers := ledgers[org := LedgerOf(org) + [SpendEntry(req)]];
      outcome := Done;
    }

    /** SweepOrgExpiredGrants: lock, load, replay, then one insert for each due bucket; an insert that
        collides with the unique index is passed over. */
    method SweepOrg(org: OrgId, now: int, at: int, serial: Id) returns (outcome: Outcome)
      modifies this`ledgers
      ensures org !in orgs ==> outcome == Refused(OrgNotFound) && ledgers == old(ledgers)
      ensures org in orgs ==> outcome == Done && LedgerOf(org) == old(Sweep(LedgerOf(org), now, at, serial))
      ensures forall o :: o != org ==> Rows(ledgers, o) == Rows(old(ledgers), o)
      ensures old(Valid()) ==> Valid()
    {
      hide Replay, HasKey, Views, Sound;
      if org !in orgs {
        return Refused(OrgNotFound);
      }
      var entries := LedgerOf(org);
      var buckets := ReplayBuckets(entries);
      var written: Ledger := [];
      for k := 0 to |buckets|
        invariant Views(buckets) == Replay(entries)
        invariant ledgers == old(ledgers)
        invariant written == Offsets(entries, Replay(entries), now, at, serial, k)
      {
        var b := buckets[k];
        if b.expiresAt.Never? || !(b.expiresAt.time < now) || b.remaining <= 0 {
          continue;
        }
        var offset := Entry(serial + k + 1, -b.remaining, ExpiryReason, ExpiredGrant, RowRef(b.entryId), Never, at);
        if !HasKey(entries + written, offset) {
          written := written + [offset];
        }
      }
      if Valid() {
        assert Sound(Rows(ledgers, org));
        SweepIsExact(entries, now, at, serial);
      }
      ledgers := ledgers[org := entries + written];
      outcome := Done;
    }

    /** SweepAllExpiredGrants: pre-filter, then sweep each candidate; an org whose transaction fails
        (one of `failing`, or one without a row to lock) is passed over and remembered. */
    method SweepAll(now: int, at: int, serial: Id, failing: set<OrgId>) returns (firstFailed: Option<OrgId>)
      modifies this`ledgers
      ensures Swept(old(ledgers), ledgers, (iset o | o in failing || o !in orgs), now, at, serial)
      ensures firstFailed.None? <==>
        forall o :: Candidate(Rows(old(ledgers), o), now) ==> o in orgs && o !in failing
      ensures old(Valid()) ==> Valid()
      ensures old(Valid()) && firstFailed.None? ==>
        forall o, i :: 0 <= i < |Replay(LedgerOf(o))| ==> !Due(Replay(LedgerOf(o))[i], now)
    {
      hide Sweep, Candidate, Sound, Due, Replay;
      firstFailed := None;
      ghost var before := ledgers;
      ghost var passedOver := iset o | o in failing || o !in orgs;
      NoRowsNoCandidate(now);
      var candidates := set o | o in ledgers && Candidate(ledgers[o], now);
      var left := candidates;
      while left != {}
        invariant left <= candidates
        invariant forall o ::
          if o in candidates && o !in left && o !in passedOver then
            Rows(ledgers, o) == Sweep(Rows(before, o), now, at, serial)
          else Rows(ledgers, o) == Rows(before, o)
        invariant firstFailed.None? <==> forall o :: o in candidates && o !in left ==> o !in passedOver
        decreases |left|
      {
        var org :| org in left;
        var outcome := Refused(OrgNotFound);
        if org !in failing {
          outcome := SweepOrg(org, now, at, serial);
        }
        if outcome.Refused? && firstFailed.None? {
          firstFailed := Some(org);
        }
        left := left - {org};
      }
      if old(Valid()) {
        forall o
          ensures Sound(Rows(ledgers, o))
        {
          assert Sound(Rows(before, o));
          SweepIsExact(Rows(before, o), now, at, serial);
        }
        if firstFailed.None? {
          forall o, i | 0 <= i < |Replay(LedgerOf(o))|
            ensures !Due(Replay(LedgerOf(o))[i], now)
          {
            assert Sound(Rows(before, o));
            PassLeavesNothingDue(before, ledgers, passedOver, now, at, serial, o, i);
          }
        }
      }
    }

    lemma {:induction false} NoRowsNoCandidate(now: int)
      ensures !Candidate([], now)
    {
    }
  }
}
