/** Earliest-expiry-first is the best way to attribute spends: over whole runs it funds every
    sequence of spends that any other attribution funds, and leaves at least as much credit. */
module CreditOptimality {
  import opened CreditBuckets
  import opened CreditLedger
  import opened Options

  /** An attribution of one spend: how much to take from each bucket. */
  type Attribution = seq<nat>

  function Takes(plan: Attribution): nat {
    if plan == [] then 0 else Takes(plan[..|plan| - 1]) + plan[|plan| - 1]
  }

  /** The attribution pays `amount` out of what the buckets hold. */
  predicate Funds(alt: seq<BucketView>, plan: Attribution, amount: int) {
    && |plan| == |alt|
    && (forall i :: 0 <= i < |plan| ==> plan[i] <= alt[i].remaining)
    && Takes(plan) == amount
  }

  function TakeAll(alt: seq<BucketView>, plan: Attribution): (r: seq<BucketView>)
    requires |plan| == |alt|
    ensures |r| == |alt|
  {
    seq(|alt|, i requires 0 <= i < |alt| => alt[i].(remaining := alt[i].remaining - plan[i]))
  }

  /** The request asks for a new effect: it is neither malformed nor a retry of a recorded one. */
  predicate IsNew(ledger: Ledger, op: Op) {
    op.SweepOp? || (op.req.amount > 0 && !HasKey(ledger, op.req))
  }

  /** The other attribution can fund this operation. */
  predicate AltFunds(ledger: Ledger, alt: seq<BucketView>, op: Op, plan: Attribution) {
    op.SpendOp? && IsNew(ledger, op) ==> Funds(alt, plan, op.req.amount)
  }

  /** The buckets under the other attribution after this operation. */
  function AltStep(ledger: Ledger, alt: seq<BucketView>, op: Op, plan: Attribution): seq<BucketView>
    requires AltFunds(ledger, alt, op, plan)
  {
    if !IsNew(ledger, op) then alt
    else match op
         case GrantOp(req) => alt + [BucketView(req.id, req.expiresAt, req.amount, req.createdAt)]
         case SpendOp(req) => TakeAll(alt, plan)
         case SweepOp(now, _, _) => Forfeit(alt, now)
  }

  /** The buckets after a run under the other attribution, if it can fund every spend. */
  function AltRun(ops: seq<Op>, plans: seq<Attribution>): Option<seq<BucketView>>
    requires |plans| == |ops|
  {
    if ops == [] then Some([])
    else
      var n := |ops| - 1;
      var before := AltRun(ops[..n], plans[..n]);
      if before.Some? && AltFunds(Run(ops[..n]), before.value, ops[n], plans[n]) then
        Some(AltStep(Run(ops[..n]), before.value, ops[n], plans[n]))
      else None
  }

  /** Never less credit that lives until t, for any t, and never less in all. */
  ghost predicate Dominates(bs: seq<BucketView>, alt: seq<BucketView>) {
    Total(alt) <= Total(bs) && forall t :: Late(alt, t) <= Late(bs, t)
  }

  lemma {:induction false} TakeAllSum(alt: seq<BucketView>, plan: Attribution, p: Expiry -> bool)
    requires |plan| == |alt|
    ensures SumWhere(TakeAll(alt, plan), p) <= SumWhere(alt, p)
    ensures (forall x :: p(x)) ==> SumWhere(TakeAll(alt, plan), p) == SumWhere(alt, p) - Takes(plan)
  {
    if alt != [] {
      var n := |alt| - 1;
      TakeAllSum(alt[..n], plan[..n], p);
      assert TakeAll(alt, plan)[..n] == TakeAll(alt[..n], plan[..n]);
    }
  }

  /** One spend: any attribution of the poorer side against earliest-expiry-first on the richer. */
  lemma {:induction false} SpendDominates(bs: seq<BucketView>, alt: seq<BucketView>, plan: Attribution, amount: int)
    requires NonNegative(bs) && Dominates(bs, alt) && NonNegative(alt) && amount > 0 && Funds(alt, plan, amount)
    ensures amount <= Total(bs)
    ensures NonNegative(TakeAll(alt, plan)) && Dominates(Deduct(bs, amount), TakeAll(alt, plan))
  {
    hide Deduct;
    var alt' := TakeAll(alt, plan);
    TakeAllSum(alt, plan, Any());
    SumNonNegative(alt', Any());
    DeductionLaw(bs, amount, Any());
    forall t
      ensures Late(alt', t) <= Late(Deduct(bs, amount), t)
    {
      TakeAllSum(alt, plan, NoSooner(t));
      LateDeduction(bs, amount, t);
      LateIsTotalLessSooner(alt', t);
      SumNonNegative(alt', Sooner(t));
    }
  }

  lemma {:induction false} GrantDominates(bs: seq<BucketView>, alt: seq<BucketView>, b: BucketView)
    requires Dominates(bs, alt)
    ensures Dominates(bs + [b], alt + [b])
  {
    assert (bs + [b])[..|bs|] == bs && (alt + [b])[..|alt|] == alt;
    forall t
      ensures Late(alt + [b], t) <= Late(bs + [b], t)
    {
      assert Late(alt, t) <= Late(bs, t);
    }
  }

  function Later(t: Expiry, now: int): Expiry {
    if ExpiresBefore(t, At(now)) then At(now) else t
  }

  /** Forfeiture at `now` moves the threshold t up to `now`. */
  lemma {:induction false} ForfeitLate(bs: seq<BucketView>, now: int, t: Expiry)
    requires NonNegative(bs)
    ensures Late(Forfeit(bs, now), t) == Late(bs, Later(t, now))
    ensures Total(Forfeit(bs, now)) == Late(bs, At(now))
  {
    ForfeitSum(bs, now, NoSooner(t), NoSooner(Later(t, now)));
    ForfeitSum(bs, now, Any(), NoSooner(At(now)));
  }

  lemma {:induction false} SweepDominates(bs: seq<BucketView>, alt: seq<BucketView>, now: int)
    requires NonNegative(bs) && NonNegative(alt) && Dominates(bs, alt)
    ensures Dominates(Forfeit(bs, now), Forfeit(alt, now))
  {
    forall t
      ensures Late(Forfeit(alt, now), t) <= Late(Forfeit(bs, now), t)
    {
      ForfeitLate(bs, now, t);
      ForfeitLate(alt, now, t);
      assert Late(alt, Later(t, now)) <= Late(bs, Later(t, now));
    }
    ForfeitLate(bs, now, Never);
    ForfeitLate(alt, now, Never);
    assert Late(alt, At(now)) <= Late(bs, At(now));
  }

  /** One operation on the real ledger keeps up with the other attribution. */
  lemma {:induction false} StepDominates(ledger: Ledger, alt: seq<BucketView>, op: Op, plan: Attribution)
    requires Sound(ledger) && Legal(ledger, op) && NonNegative(alt) && Dominates(Replay(ledger), alt)
    requires AltFunds(ledger, alt, op, plan)
    ensures IsNew(ledger, op) ==> Apply(ledger, op).0.Done?
    ensures NonNegative(AltStep(ledger, alt, op, plan))
    ensures Dominates(Replay(Apply(ledger, op).1), AltStep(ledger, alt, op, plan))
  {
    hide Replay, Deduct, Dominates, Sound, TakeAll, HasKey;
    var bs := Replay(ledger);
    ReplayNonNegative(ledger);
    match op
    case GrantOp(req) =>
      if IsNew(ledger, op) {
        ReplayAppend(ledger, req);
        GrantDominates(bs, alt, BucketView(req.id, req.expiresAt, req.amount, req.createdAt));
      }
    case SpendOp(req) =>
      SpendAgreesWithBuckets(ledger, req);
      if IsNew(ledger, op) {
        SpendDominates(bs, alt, plan, req.amount);
      }
    case SweepOp(now, at, serial) =>
      SweepIsExact(ledger, now, at, serial);
      SweepDominates(bs, alt, now);
  }

  /** Optimality over whole runs.  If some attribution funds every new spend of the run, the ledger
      accepts every new request too, and at the end holds at least as much credit, in all and for
      every date it has to last until. */
  lemma {:induction false} EarliestExpiryFirstIsOptimal(ops: seq<Op>, plans: seq<Attribution>)
    requires LegalRun(ops) && |plans| == |ops| && AltRun(ops, plans).Some?
    ensures Dominates(Replay(Run(ops)), AltRun(ops, plans).value) && NonNegative(AltRun(ops, plans).value)
    ensures Sum(Run(ops)) >= Total(AltRun(ops, plans).value)
    ensures forall i :: 0 <= i < |ops| && IsNew(Run(ops[..i]), ops[i]) ==> Apply(Run(ops[..i]), ops[i]).0.Done?
  {
    hide Dominates, Apply, AltStep, AltFunds, IsNew, Sound;
    if ops == [] {
      NothingDominatesNothing();
    } else {
      var n := |ops| - 1;
      LegalRunPrefix(ops);
      EarliestExpiryFirstIsOptimal(ops[..n], plans[..n]);
      ReachableIsSound(ops[..n]);
      StepDominates(Run(ops[..n]), AltRun(ops[..n], plans[..n]).value, ops[n], plans[n]);
      forall i | 0 <= i < |ops| && IsNew(Run(ops[..i]), ops[i])
        ensures Apply(Run(ops[..i]), ops[i]).0.Done?
      {
        if i < n {
          assert ops[..n][..i] == ops[..i] && ops[..n][i] == ops[i];
        }
      }
    }
    ReachableIsSound(ops);
    DominatesTotal(Replay(Run(ops)), AltRun(ops, plans).value);
  }

  /** And so at every point of the run. */
  lemma {:induction false} OptimalAtEveryPoint(ops: seq<Op>, plans: seq<Attribution>, k: nat)
    requires LegalRun(ops) && |plans| == |ops| && AltRun(ops, plans).Some? && k <= |ops|
    ensures AltRun(ops[..k], plans[..k]).Some?
    ensures Dominates(Replay(Run(ops[..k])), AltRun(ops[..k], plans[..k]).value)
    ensures Sum(Run(ops[..k])) >= Total(AltRun(ops[..k], plans[..k]).value)
    decreases |ops|
  {
    hide Dominates, AltStep, AltFunds, Sum, Replay;
    if k == |ops| {
      assert ops[..k] == ops && plans[..k] == plans;
      EarliestExpiryFirstIsOptimal(ops, plans);
    } else {
      var n := |ops| - 1;
      LegalRunPrefix(ops);
      assert ops[..n][..k] == ops[..k] && plans[..n][..k] == plans[..k];
      OptimalAtEveryPoint(ops[..n], plans[..n], k);
    }
  }

  lemma {:induction false} NothingDominatesNothing()
    ensures Dominates([], [])
  {
  }

  lemma {:induction false} DominatesTotal(bs: seq<BucketView>, alt: seq<BucketView>)
    requires Dominates(bs, alt)
    ensures Total(alt) <= Total(bs)
  {
  }
}
