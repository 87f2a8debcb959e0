/** Replay of the credit ledger into per-grant buckets.

    The first half works on bucket values: the attribution order, the deduction of one spend as
    "take from the first bucket that still holds credit", and the laws of that deduction.  The
    second half is the source's own algorithm, which filters, sorts and updates bucket objects in
    place, proved against the first half. */
module CreditBuckets {
  import opened Options

  /** A row id.  Only equality matters to the code. */
  type Id = nat

  /** The expires_at column; a NULL never expires. */
  datatype Expiry = At(time: int) | Never

  datatype Reason = PlanGrant | Topup | Adjustment | Refund | AgentRun | LlmTokens | ExpiryReason
                  | WelcomeGrant | OtherReason(name: string)

  datatype RefType = ExpiredGrant | Signup | OtherRefType(name: string)

  /** The ref_id column: empty, the text of a row id, or a text that is not one. */
  datatype Ref = NoRef | RowRef(id: Id) | TextRef(text: string)

  datatype Entry = Entry(id: Id, amount: int, reason: Reason, refType: RefType, ref: Ref,
                         expiresAt: Expiry, createdAt: int)

  /** The value of a bucket at one moment. */
  datatype BucketView = BucketView(entryId: Id, expiresAt: Expiry, remaining: int, createdAt: int)

  // ---------------------------------------------------------------- attribution order

  predicate ExpiresBefore(x: Expiry, y: Expiry) {
    match (x, y)
    case (At(s), At(t)) => s < t
    case (At(_), Never) => true
    case (Never, _) => false
  }

  predicate NoLaterThan(x: Expiry, y: Expiry) {
    !ExpiresBefore(y, x)
  }

  /** The comparator given to the stable sort: earliest expiry, then oldest creation. */
  predicate Before(a: BucketView, b: BucketView) {
    if a.expiresAt.At? && b.expiresAt.Never? then true
    else if a.expiresAt.Never? && b.expiresAt.At? then false
    else if a.expiresAt.At? && b.expiresAt.At? && a.expiresAt.time != b.expiresAt.time then
      a.expiresAt.time < b.expiresAt.time
    else a.createdAt < b.createdAt
  }

  /** What a sort needs of its comparator, plus its agreement with the expiry order. */
  lemma {:induction false} BeforeIsStrictWeakOrder(a: BucketView, b: BucketView, c: BucketView)
    ensures !Before(a, a)
    ensures Before(a, b) ==> !Before(b, a)
    ensures Before(a, b) && Before(b, c) ==> Before(a, c)
    ensures !Before(a, b) && !Before(b, c) ==> !Before(a, c)
    ensures ExpiresBefore(a.expiresAt, b.expiresAt) ==> Before(a, b)
    ensures Before(a, b) ==> NoLaterThan(a.expiresAt, b.expiresAt)
  {
  }

  // ---------------------------------------------------------------- sums over buckets

  /** The credit held by the buckets whose expiry satisfies p. */
  ghost function SumWhere(bs: seq<BucketView>, p: Expiry -> bool): int {
    if bs == [] then 0
    else
      var b := bs[|bs| - 1];
      SumWhere(bs[..|bs| - 1], p) + if p(b.expiresAt) then b.remaining else 0
  }

  ghost function Any(): Expiry -> bool { x => true }

  ghost function NoLater(t: Expiry): Expiry -> bool { x => NoLaterThan(x, t) }

  ghost function Sooner(t: Expiry): Expiry -> bool { x => ExpiresBefore(x, t) }

  ghost function NoSooner(t: Expiry): Expiry -> bool { x => NoLaterThan(t, x) }

  ghost function Total(bs: seq<BucketView>): int { SumWhere(bs, Any()) }

  /** The credit that survives until t. */
  ghost function Late(bs: seq<BucketView>, t: Expiry): int { SumWhere(bs, NoSooner(t)) }

  ghost predicate DownClosed(p: Expiry -> bool) {
    forall x, y :: NoLaterThan(x, y) && p(y) ==> p(x)
  }

  ghost predicate NonNegative(bs: seq<BucketView>) {
    forall i :: 0 <= i < |bs| ==> bs[i].remaining >= 0
  }

  lemma {:induction false} SumUpdate(bs: seq<BucketView>, i: nat, amount: int, p: Expiry -> bool)
    requires i < |bs|
    ensures SumWhere(bs[i := bs[i].(remaining := amount)], p)
         == SumWhere(bs, p) + if p(bs[i].expiresAt) then amount - bs[i].remaining else 0
  {
    var n := |bs| - 1;
    var bs' := bs[i := bs[i].(remaining := amount)];
    if i == n {
      assert bs'[..n] == bs[..n];
    } else {
      assert bs'[..n] == bs[..n][i := bs[..n][i].(remaining := amount)];
      SumUpdate(bs[..n], i, amount, p);
    }
  }

  lemma {:induction false} SumNonNegative(bs: seq<BucketView>, p: Expiry -> bool)
    requires NonNegative(bs)
    ensures SumWhere(bs, p) >= 0
    ensures (forall i :: 0 <= i < |bs| ==> bs[i].remaining == 0 || !p(bs[i].expiresAt)) ==> SumWhere(bs, p) == 0
    ensures forall i :: 0 <= i < |bs| && p(bs[i].expiresAt) ==> bs[i].remaining <= SumWhere(bs, p)
  {
    if bs != [] {
      SumNonNegative(bs[..|bs| - 1], p);
    }
  }

  /** Splitting a sum by a second predicate. */
  lemma {:induction false} SumSplit(bs: seq<BucketView>, p: Expiry -> bool, q: Expiry -> bool, r: Expiry -> bool)
    requires forall x :: p(x) <==> q(x) || r(x)
    requires forall x :: !(q(x) && r(x))
    ensures SumWhere(bs, p) == SumWhere(bs, q) + SumWhere(bs, r)
  {
    if bs != [] {
      SumSplit(bs[..|bs| - 1], p, q, r);
    }
  }

  lemma {:induction false} LateIsTotalLessSooner(bs: seq<BucketView>, t: Expiry)
    ensures Late(bs, t) == Total(bs) - SumWhere(bs, Sooner(t))
  {
    SumSplit(bs, Any(), Sooner(t), NoSooner(t));
  }

  // ---------------------------------------------------------------- deduction by value

  predicate HasCredit(bs: seq<BucketView>) {
    exists i :: 0 <= i < |bs| && bs[i].remaining > 0
  }

  /** Bucket i is the first holder of credit in the stable attribution order. */
  predicate IsFirst(bs: seq<BucketView>, i: nat) {
    && i < |bs|
    && bs[i].remaining > 0
    && (forall j :: 0 <= j < i && bs[j].remaining > 0 ==> Before(bs[i], bs[j]))
    && (forall j :: i < j < |bs| && bs[j].remaining > 0 ==> !Before(bs[j], bs[i]))
  }

  function First(bs: seq<BucketView>): (i: nat)
    requires HasCredit(bs)
    ensures IsFirst(bs, i)
  {
    var n := |bs| - 1;
    if !HasCredit(bs[..n]) then
      assert forall j :: 0 <= j < n ==> bs[j] == bs[..n][j];
      n
    else
      var i := First(bs[..n]);
      assert forall j :: 0 <= j < n ==> bs[j] == bs[..n][j];
      if bs[n].remaining > 0 && Before(bs[n], bs[i]) then
        assert forall j :: 0 <= j < n && bs[j].remaining > 0 ==> j == i || !Before(bs[j], bs[i]);
        n
      else i
  }

  lemma {:induction false} FirstIsUnique(bs: seq<BucketView>, i: nat, j: nat)
    requires IsFirst(bs, i) && IsFirst(bs, j)
    ensures i == j
  {
  }

  function Min(a: int, b: int): int { if a < b then a else b }

  function Max(a: int, b: int): int { if a < b then b else a }

  /** One spend of `amount`, cascading from the first holder of credit to the next. */
  function Deduct(bs: seq<BucketView>, amount: int): seq<BucketView>
    decreases amount
  {
    if amount <= 0 || !HasCredit(bs) then bs
    else
      var i := First(bs);
      Deduct(TakeFrom(bs, i, amount), amount - Min(bs[i].remaining, amount))
  }

  function TakeFrom(bs: seq<BucketView>, i: nat, amount: int): seq<BucketView>
    requires i < |bs|
  {
    bs[i := bs[i].(remaining := bs[i].remaining - Min(bs[i].remaining, amount))]
  }

  /** Two bucket lists track the same grants and differ at most in what remains. */
  predicate SameGrants(bs: seq<BucketView>, cs: seq<BucketView>) {
    && |bs| == |cs|
    && forall i :: 0 <= i < |bs| ==> bs[i].(remaining := cs[i].remaining) == cs[i]
  }

  /** A deduction touches only what remains, never raises it and never takes it below zero. */
  lemma {:induction false} DeductionFrame(bs: seq<BucketView>, amount: int)
    ensures SameGrants(bs, Deduct(bs, amount))
    ensures forall i :: 0 <= i < |bs| ==>
      Min(0, bs[i].remaining) <= Deduct(bs, amount)[i].remaining <= bs[i].remaining
    decreases amount
  {
    if amount > 0 && HasCredit(bs) {
      var i := First(bs);
      DeductionFrame(TakeFrom(bs, i, amount), amount - Min(bs[i].remaining, amount));
    }
  }

  /** When the first holder of credit lies outside a downward-closed class, the class is empty. */
  lemma {:induction false} OutsideFirst(bs: seq<BucketView>, i: nat, p: Expiry -> bool)
    requires NonNegative(bs) && IsFirst(bs, i) && DownClosed(p) && !p(bs[i].expiresAt)
    ensures SumWhere(bs, p) == 0
  {
    forall j | 0 <= j < |bs|
      ensures bs[j].remaining == 0 || !p(bs[j].expiresAt)
    {
      if j != i && bs[j].remaining > 0 {
        assert NoLaterThan(bs[i].expiresAt, bs[j].expiresAt);
      }
    }
    SumNonNegative(bs, p);
  }

  /** One turn of the cascade, seen through a class of expiries. */
  lemma {:induction false} FirstTakes(bs: seq<BucketView>, amount: int, i: nat, p: Expiry -> bool)
    requires NonNegative(bs) && amount > 0 && DownClosed(p) && IsFirst(bs, i)
    ensures i < |bs| && NonNegative(TakeFrom(bs, i, amount)) && 0 < Min(bs[i].remaining, amount) <= amount
    ensures SumWhere(TakeFrom(bs, i, amount), p)
         == SumWhere(bs, p) - if p(bs[i].expiresAt) then Min(bs[i].remaining, amount) else 0
    ensures if p(bs[i].expiresAt) then bs[i].remaining <= SumWhere(bs, p) else SumWhere(bs, p) == 0
  {
    SumUpdate(bs, i, bs[i].remaining - Min(bs[i].remaining, amount), p);
    SumNonNegative(bs, p);
    if !p(bs[i].expiresAt) {
      OutsideFirst(bs, i, p);
    }
  }

  /** The deduction law.  For every class of expiries that contains, with an expiry, all earlier
      ones, the class gives up min(amount, what it holds); so the soonest-expiring credit goes first. */
  lemma {:induction false} DeductionLaw(bs: seq<BucketView>, amount: int, p: Expiry -> bool)
    requires NonNegative(bs) && amount >= 0 && DownClosed(p)
    ensures SumWhere(Deduct(bs, amount), p) == Max(0, SumWhere(bs, p) - amount)
    decreases amount
  {
    hide SumWhere, DownClosed, IsFirst, TakeFrom;
    SumNonNegative(bs, p);
    if amount > 0 && HasCredit(bs) {
      var i := First(bs);
      FirstTakes(bs, amount, i, p);
      DeductionLaw(TakeFrom(bs, i, amount), amount - Min(bs[i].remaining, amount), p);
    }
  }

  /** The threshold form: what expires at or before t goes down to max(0, total - amount), exactly
      min(amount, total) is removed, and what survives until t is the most any attribution can leave. */
  lemma {:induction false} DeductionByThreshold(bs: seq<BucketView>, amount: int, t: Expiry)
    requires NonNegative(bs) && amount >= 0
    ensures SumWhere(Deduct(bs, amount), NoLater(t)) == Max(0, SumWhere(bs, NoLater(t)) - amount)
    ensures Total(bs) - Total(Deduct(bs, amount)) == Min(amount, Total(bs))
    ensures Late(Deduct(bs, amount), t) == Max(0, Min(Late(bs, t), Total(bs) - amount))
  {
    DeductionLaw(bs, amount, NoLater(t));
    DeductionLaw(bs, amount, Any());
    LateDeduction(bs, amount, t);
  }

  lemma {:induction false} LateDeduction(bs: seq<BucketView>, amount: int, t: Expiry)
    requires NonNegative(bs) && amount >= 0
    ensures Late(Deduct(bs, amount), t) == Max(0, Min(Late(bs, t), Total(bs) - amount))
  {
    assert DownClosed(Sooner(t));
    DeductionLaw(bs, amount, Sooner(t));
    DeductionLaw(bs, amount, Any());
    SumNonNegative(bs, Sooner(t));
    SumNonNegative(bs, NoSooner(t));
    LateIsTotalLessSooner(bs, t);
    LateIsTotalLessSooner(Deduct(bs, amount), t);
  }

  /** i is drained before j: earlier expiry, else older, else earlier in the ledger. */
  predicate DrainedBefore(bs: seq<BucketView>, i: nat, j: nat)
    requires i < |bs| && j < |bs|
  {
    || ExpiresBefore(bs[i].expiresAt, bs[j].expiresAt)
    || (bs[i].expiresAt == bs[j].expiresAt
        && (bs[i].createdAt < bs[j].createdAt || (bs[i].createdAt == bs[j].createdAt && i < j)))
  }

  /** A spend reaches a bucket only after every bucket drained before it is empty. */
  lemma {:induction false} DrainOrder(bs: seq<BucketView>, amount: int, i: nat, j: nat)
    requires NonNegative(bs) && i < |bs| && j < |bs| && DrainedBefore(bs, i, j)
    requires |Deduct(bs, amount)| == |bs| && Deduct(bs, amount)[j].remaining < bs[j].remaining
    ensures Deduct(bs, amount)[i].remaining == 0
    decreases amount
  {
    var f := First(bs);
    var bs' := TakeFrom(bs, f, amount);
    DeductionFrame(bs', amount - Min(bs[f].remaining, amount));
    if f != j {
      DrainOrder(bs', amount - Min(bs[f].remaining, amount), i, j);
    }
  }

  // ---------------------------------------------------------------- replay by value

  predicate Reserved(e: Entry) {
    e.reason == ExpiryReason && e.refType == ExpiredGrant
  }

  predicate IsOffset(e: Entry) {
    e.amount < 0 && Reserved(e)
  }

  function ParseRef(ref: Ref): Option<Id> {
    match ref
    case RowRef(id) => Some(id)
    case _ => None
  }

  /** The bucket a lookup by id finds: the latest one, should two share an id. */
  function Find(bs: seq<BucketView>, id: Id): (r: Option<nat>)
    ensures r.Some? ==> r.value < |bs| && bs[r.value].entryId == id
    ensures r.None? ==> forall i :: 0 <= i < |bs| ==> bs[i].entryId != id
    ensures r.Some? ==> forall i :: r.value < i < |bs| ==> bs[i].entryId != id
  {
    if bs == [] then None
    else if bs[|bs| - 1].entryId == id then Some(|bs| - 1)
    else Find(bs[..|bs| - 1], id)
  }

  function ApplyOffset(bs: seq<BucketView>, id: Id, amount: int): (r: seq<BucketView>)
    ensures SameGrants(bs, r)
  {
    match Find(bs, id)
    case None => bs
    case Some(i) => bs[i := bs[i].(remaining := Max(0, bs[i].remaining + amount))]
  }

  function ReplayEntry(bs: seq<BucketView>, e: Entry): seq<BucketView> {
    if e.amount > 0 then
      bs + [BucketView(e.id, e.expiresAt, e.amount, e.createdAt)]
    else if IsOffset(e) then
      match ParseRef(e.ref) {
        case None => bs
        case Some(id) => ApplyOffset(bs, id, e.amount)
      }
    else if e.amount < 0 then Deduct(bs, -e.amount)
    else bs
  }

  function Replay(entries: seq<Entry>): seq<BucketView> {
    if entries == [] then []
    else ReplayEntry(Replay(entries[..|entries| - 1]), entries[|entries| - 1])
  }

  lemma {:induction false} ReplayAppend(entries: seq<Entry>, e: Entry)
    ensures Replay(entries + [e]) == ReplayEntry(Replay(entries), e)
  {
    assert (entries + [e])[..|entries|] == entries;
  }

  predicate LastOfItsId(bs: seq<BucketView>, i: nat)
    requires i < |bs|
  {
    forall j :: i < j < |bs| ==> bs[j].entryId != bs[i].entryId
  }

  /** Which rows leave the buckets alone, and what a positive row and an offset do to them: the offset
      of a row id takes its amount out of the latest bucket with that id, down to 0 at most. */
  lemma {:induction false} RowEffect(bs: seq<BucketView>, e: Entry)
    ensures e.amount > 0 ==> ReplayEntry(bs, e) == bs + [BucketView(e.id, e.expiresAt, e.amount, e.createdAt)]
    ensures e.amount == 0 ==> ReplayEntry(bs, e) == bs
    ensures e.amount < 0 && e.reason == ExpiryReason && e.refType == ExpiredGrant ==>
      && (!e.ref.RowRef? || (forall i :: 0 <= i < |bs| ==> bs[i].entryId != e.ref.id) ==> ReplayEntry(bs, e) == bs)
      && forall i :: 0 <= i < |bs| && e.ref == RowRef(bs[i].entryId) && LastOfItsId(bs, i) ==>
        var rest := if -e.amount <= bs[i].remaining then bs[i].remaining + e.amount else 0;
        ReplayEntry(bs, e) == bs[i := BucketView(bs[i].entryId, bs[i].expiresAt, rest, bs[i].createdAt)]
    ensures e.amount < 0 && (e.reason != ExpiryReason || e.refType != ExpiredGrant) ==>
      ReplayEntry(bs, e) == Deduct(bs, -e.amount)
  {
  }

  // ---------------------------------------------------------------- the algorithm in place

  class Bucket {
    const entryId: Id
    const expiresAt: Expiry
    const createdAt: int
    var remaining: int

    constructor (e: Entry)
      ensures View() == BucketView(e.id, e.expiresAt, e.amount, e.createdAt)
    {
      entryId, expiresAt, createdAt, remaining := e.id, e.expiresAt, e.createdAt, e.amount;
    }

    function View(): BucketView
      reads this
    {
      BucketView(entryId, expiresAt, remaining, createdAt)
    }

    /** The attribution order reads only fields that never change. */
    predicate Precedes(that: Bucket) {
      Before(BucketView(entryId, expiresAt, 0, createdAt), BucketView(that.entryId, that.expiresAt, 0, that.createdAt))
    }
  }

  function Views(buckets: seq<Bucket>): (vs: seq<BucketView>)
    reads buckets
    ensures |vs| == |buckets|
    ensures forall i :: 0 <= i < |vs| ==> vs[i] == buckets[i].View()
  {
    if buckets == [] then [] else Views(buckets[..|buckets| - 1]) + [buckets[|buckets| - 1].View()]
  }

  predicate Distinct(buckets: seq<Bucket>) {
    forall i, j :: 0 <= i < j < |buckets| ==> buckets[i] != buckets[j]
  }

  function Position(buckets: seq<Bucket>, b: Bucket): (i: nat)
    requires b in buckets
    ensures i < |buckets| && buckets[i] == b
  {
    if buckets[0] == b then 0 else 1 + Position(buckets[1..], b)
  }

  /** x goes behind every element it does not precede: the step of a stable insertion sort. */
  function InsertStable(sorted: seq<Bucket>, x: Bucket): (r: seq<Bucket>)
    ensures multiset(r) == multiset(sorted) + multiset{x}
  {
    if sorted == [] then [x]
    else
      var n := |sorted| - 1;
      assert sorted == sorted[..n] + [sorted[n]];
      if !x.Precedes(sorted[n]) then sorted + [x]
      else InsertStable(sorted[..n], x) + [sorted[n]]
  }

  /** The result of sort.SliceStable under the attribution order. */
  function SortStable(s: seq<Bucket>): (r: seq<Bucket>)
    ensures multiset(r) == multiset(s)
  {
    if s == [] then []
    else
      assert s == s[..|s| - 1] + [s[|s| - 1]];
      InsertStable(SortStable(s[..|s| - 1]), s[|s| - 1])
  }

  predicate AllIn(s: seq<Bucket>, buckets: seq<Bucket>) {
    forall b :: b in s ==> b in buckets
  }

  /** x comes ahead of y in the attribution order, ties going to the earlier position. */
  predicate Ahead(buckets: seq<Bucket>, x: Bucket, y: Bucket)
    requires x in buckets && y in buckets
  {
    x.Precedes(y) || (!y.Precedes(x) && Position(buckets, x) < Position(buckets, y))
  }

  predicate InOrder(buckets: seq<Bucket>, r: seq<Bucket>)
    requires AllIn(r, buckets)
  {
    forall i, j :: 0 <= i < j < |r| ==> Ahead(buckets, r[i], r[j])
  }

  predicate InSourceOrder(buckets: seq<Bucket>, s: seq<Bucket>)
    requires AllIn(s, buckets)
  {
    forall i, j :: 0 <= i < j < |s| ==> Position(buckets, s[i]) < Position(buckets, s[j])
  }

  lemma {:induction false} SameElements(s: seq<Bucket>, r: seq<Bucket>)
    requires multiset(s) == multiset(r)
    ensures forall b :: b in s <==> b in r
  {
    forall b
      ensures b in s <==> b in r
    {
      assert b in s <==> b in multiset(s);
      assert b in r <==> b in multiset(r);
    }
  }

  lemma {:induction false} InsertStableInOrder(buckets: seq<Bucket>, sorted: seq<Bucket>, x: Bucket)
    requires AllIn(sorted, buckets) && x in buckets && InOrder(buckets, sorted)
    requires forall y :: y in sorted ==> Position(buckets, y) < Position(buckets, x)
    ensures AllIn(InsertStable(sorted, x), buckets) && InOrder(buckets, InsertStable(sorted, x))
  {
    SameElements(InsertStable(sorted, x), sorted + [x]);
    if sorted != [] {
      var n := |sorted| - 1;
      if x.Precedes(sorted[n]) {
        InsertStableInOrder(buckets, sorted[..n], x);
        SameElements(InsertStable(sorted[..n], x), sorted[..n] + [x]);
        var r := InsertStable(sorted[..n], x);
        forall i | 0 <= i < |r|
          ensures Ahead(buckets, r[i], sorted[n])
        {
          assert r[i] in r;
        }
      } else {
        forall i | 0 <= i < |sorted|
          ensures Ahead(buckets, sorted[i], x)
        {
          assert i == n || Ahead(buckets, sorted[i], sorted[n]);
        }
      }
    }
  }

  lemma {:induction false} SortStableInOrder(buckets: seq<Bucket>, s: seq<Bucket>)
    requires AllIn(s, buckets) && InSourceOrder(buckets, s)
    ensures AllIn(SortStable(s), buckets) && InOrder(buckets, SortStable(s))
  {
    SameElements(SortStable(s), s);
    if s != [] {
      var n := |s| - 1;
      SortStableInOrder(buckets, s[..n]);
      SameElements(SortStable(s[..n]), s[..n]);
      InsertStableInOrder(buckets, SortStable(s[..n]), s[n]);
    }
  }

  lemma {:induction false} PositionOfElement(buckets: seq<Bucket>, i: nat)
    requires Distinct(buckets) && i < |buckets|
    ensures Position(buckets, buckets[i]) == i
  {
    assert Position(buckets, buckets[i]) < |buckets|;
  }

  /** Taking the first k of `order`, every bucket that still holds credit is one of the rest. */
  predicate Pending(buckets: seq<Bucket>, order: seq<Bucket>, k: nat)
    reads buckets
    requires k <= |order|
  {
    forall b :: b in buckets && b.remaining > 0 ==> b in order[k..]
  }

  lemma {:induction false} HeadOfOrderIsFirst(buckets: seq<Bucket>, order: seq<Bucket>, k: nat)
    requires Distinct(buckets) && AllIn(order, buckets) && InOrder(buckets, order)
    requires k < |order| && order[k].remaining > 0 && Pending(buckets, order, k)
    ensures IsFirst(Views(buckets), Position(buckets, order[k]))
  {
    var i := Position(buckets, order[k]);
    var vs := Views(buckets);
    forall j | 0 <= j < |vs| && j != i && vs[j].remaining > 0
      ensures if j < i then Before(vs[i], vs[j]) else !Before(vs[j], vs[i])
    {
      assert buckets[j] in order[k..];
      PositionOfElement(buckets, j);
      assert Ahead(buckets, order[k], buckets[j]);
    }
  }

  method Eligible(buckets: seq<Bucket>) returns (eligible: seq<Bucket>)
    requires Distinct(buckets)
    ensures AllIn(eligible, buckets) && InSourceOrder(buckets, eligible)
    ensures forall b :: b in eligible <==> b in buckets && b.remaining > 0
  {
    eligible := [];
    for i := 0 to |buckets|
      invariant AllIn(eligible, buckets) && InSourceOrder(buckets, eligible)
      invariant forall b :: b in eligible ==> b.remaining > 0 && Position(buckets, b) < i
      invariant forall j :: 0 <= j < i && buckets[j].remaining > 0 ==> buckets[j] in eligible
    {
      PositionOfElement(buckets, i);
      if buckets[i].remaining > 0 {
        eligible := eligible + [buckets[i]];
      }
    }
  }

  lemma {:induction false} DeductionDone(bs: seq<BucketView>, left: int)
    requires left <= 0 || !HasCredit(bs)
    ensures Deduct(bs, left) == bs
  {
  }

  lemma {:induction false} DeductionStep(bs: seq<BucketView>, i: nat, left: int)
    requires left > 0 && IsFirst(bs, i)
    ensures Deduct(bs, left) == Deduct(TakeFrom(bs, i, left), left - Min(bs[i].remaining, left))
  {
    FirstIsUnique(bs, i, First(bs));
  }

  /** One turn of the taking loop, seen from the values. */
  lemma {:induction false} TakingIsDeducting(buckets: seq<Bucket>, order: seq<Bucket>, k: nat, left: int)
    requires Distinct(buckets) && AllIn(order, buckets) && InOrder(buckets, order) && left > 0
    requires k < |order| && order[k].remaining > 0 && Pending(buckets, order, k)
    ensures Deduct(Views(buckets), left)
         == Deduct(TakeFrom(Views(buckets), Position(buckets, order[k]), left), left - Min(order[k].remaining, left))
  {
    hide Deduct;
    HeadOfOrderIsFirst(buckets, order, k);
    DeductionStep(Views(buckets), Position(buckets, order[k]), left);
  }

  lemma {:induction false} OrderIsDistinct(buckets: seq<Bucket>, order: seq<Bucket>)
    requires AllIn(order, buckets) && InOrder(buckets, order)
    ensures Distinct(order)
  {
    forall i, j | 0 <= i < j < |order|
      ensures order[i] != order[j]
    {
      assert Ahead(buckets, order[i], order[j]);
    }
  }

  lemma {:induction false} PaidOrEmpty(buckets: seq<Bucket>, order: seq<Bucket>, left: int)
    requires left > 0 ==> Pending(buckets, order, |order|)
    ensures Deduct(Views(buckets), left) == Views(buckets)
  {
    hide Deduct, Views;
    if left > 0 {
      assert order[|order|..] == [];
    }
    DeductionDone(Views(buckets), left);
  }

  /** One turn of the taking loop, in place. */
  method TakeOne(buckets: seq<Bucket>, b: Bucket, left: int) returns (rest: int)
    requires Distinct(buckets) && b in buckets
    modifies b
    ensures rest == left - old(Min(b.remaining, left)) && b.remaining == old(b.remaining - Min(b.remaining, left))
    ensures Views(buckets) == old(TakeFrom(Views(buckets), Position(buckets, b), left))
  {
    var take := b.remaining;
    if take > left {
      take := left;
    }
    b.remaining := b.remaining - take;
    rest := left - take;
  }

  method TakeInOrder(buckets: seq<Bucket>, order: seq<Bucket>, amount: int)
    requires Distinct(buckets) && AllIn(order, buckets) && InOrder(buckets, order) && amount > 0
    requires forall b :: b in order <==> b in buckets && b.remaining > 0
    modifies buckets
    ensures Views(buckets) == old(Deduct(Views(buckets), amount))
  {
    hide Deduct, TakeFrom, Views, InOrder, Position, HasCredit;
    OrderIsDistinct(buckets, order);
    assert order[0..] == order;
    ghost var before := Views(buckets);
    var left := amount;
    for k := 0 to |order|
      invariant left >= 0
      invariant Deduct(Views(buckets), left) == Deduct(before, amount)
      invariant forall m :: k <= m < |order| ==> order[m].remaining > 0
      invariant left > 0 ==> Pending(buckets, order, k)
    {
      if left == 0 {
        DeductionDone(Views(buckets), left);
        return;
      }
      TakingIsDeducting(buckets, order, k, left);
      assert order[k..] == [order[k]] + order[k + 1..];
      left := TakeOne(buckets, order[k], left);
    }
    PaidOrEmpty(buckets, order, left);
  }

  /** deductSpend: filter, sort, then take from one bucket after another. */
  method DeductSpend(buckets: seq<Bucket>, amount: int)
    requires Distinct(buckets)
    modifies buckets
    ensures Views(buckets) == old(Deduct(Views(buckets), amount))
  {
    if amount <= 0 {
      return;
    }
    var eligible := Eligible(buckets);
    SortStableInOrder(buckets, eligible);
    SameElements(SortStable(eligible), eligible);
    TakeInOrder(buckets, SortStable(eligible), amount);
  }

  /** The lookup by id as the map built during the replay answers it. */
  ghost predicate Indexes(byId: map<Id, Bucket>, buckets: seq<Bucket>, bs: seq<BucketView>)
    requires |bs| == |buckets|
  {
    && (forall id :: id in byId <==> Find(bs, id).Some?)
    && (forall id :: id in byId ==> byId[id] == buckets[Find(bs, id).value])
  }

  lemma {:induction false} FindSameGrants(bs: seq<BucketView>, cs: seq<BucketView>, id: Id)
    requires SameGrants(bs, cs)
    ensures Find(bs, id) == Find(cs, id)
  {
    if bs != [] {
      FindSameGrants(bs[..|bs| - 1], cs[..|cs| - 1], id);
    }
  }

  lemma {:induction false} IndexesSameGrants(byId: map<Id, Bucket>, buckets: seq<Bucket>, bs: seq<BucketView>,
        cs: seq<BucketView>)
    requires |bs| == |buckets| && Indexes(byId, buckets, bs) && SameGrants(bs, cs)
    ensures Indexes(byId, buckets, cs)
  {
    forall id
      ensures Find(bs, id) == Find(cs, id)
    {
      FindSameGrants(bs, cs, id);
    }
  }

  lemma {:induction false} FindAppend(bs: seq<BucketView>, b: BucketView, id: Id)
    ensures Find(bs + [b], id) == if b.entryId == id then Some(|bs|) else Find(bs, id)
  {
    assert (bs + [b])[..|bs|] == bs;
  }

  lemma {:induction false} IndexesAppend(byId: map<Id, Bucket>, buckets: seq<Bucket>, bs: seq<BucketView>,
        b: Bucket, v: BucketView)
    requires |bs| == |buckets| && Indexes(byId, buckets, bs)
    ensures Indexes(byId[v.entryId := b], buckets + [b], bs + [v])
  {
    forall id
      ensures Find(bs + [v], id) == if v.entryId == id then Some(|bs|) else Find(bs, id)
    {
      FindAppend(bs, v, id);
    }
  }

  /** The effect of one ledger row on the buckets, in place. */
  method ReplayOne(buckets: seq<Bucket>, byId: map<Id, Bucket>, e: Entry)
    requires Distinct(buckets) && Indexes(byId, buckets, Views(buckets))
    requires e.amount <= 0
    modifies buckets
    ensures Views(buckets) == old(ReplayEntry(Views(buckets), e))
    ensures SameGrants(old(Views(buckets)), Views(buckets))
  {
    hide Deduct;
    ghost var bs := Views(buckets);
    if e.amount < 0 && e.reason == ExpiryReason && e.refType == ExpiredGrant {
      var ref := ParseRef(e.ref);
      if ref.Some? && ref.value in byId {
        var b := byId[ref.value];
        b.remaining := b.remaining + e.amount;
        if b.remaining < 0 {
          b.remaining := 0;
        }
        assert Views(buckets) == ApplyOffset(bs, ref.value, e.amount);
      }
    } else if e.amount < 0 {
      DeductSpend(buckets, -e.amount);
      DeductionFrame(bs, -e.amount);
    }
  }

  lemma {:induction false} NothingIndexed(byId: map<Id, Bucket>)
    requires byId == map[]
    ensures Indexes(byId, [], [])
  {
  }

  lemma {:induction false} ReplayNothing()
    ensures Replay([]) == []
  {
  }

  /** replayBuckets: one pass over the ledger in chronological order. */
  method ReplayBuckets(entries: seq<Entry>) returns (buckets: seq<Bucket>)
    ensures Distinct(buckets) && fresh(buckets)
    ensures Views(buckets) == Replay(entries)
  {
    hide Find, SameGrants, Replay, Deduct, ApplyOffset, Indexes;
    buckets := [];
    var byId: map<Id, Bucket> := map[];
    NothingIndexed(byId);
    assert entries[..0] == [] && Replay([]) == [] by { ReplayNothing(); }
    for n := 0 to |entries|
      invariant Distinct(buckets) && fresh(buckets)
      invariant Views(buckets) == Replay(entries[..n])
      invariant Indexes(byId, buckets, Views(buckets))
    {
      var e := entries[n];
      assert entries[..n + 1] == entries[..n] + [e];
      ReplayAppend(entries[..n], e);
      ghost var bs := Views(buckets);
      if e.amount > 0 {
        var b := new Bucket(e);
        IndexesAppend(byId, buckets, bs, b, b.View());
        buckets := buckets + [b];
        byId := byId[e.id := b];
        assert Views(buckets) == bs + [b.View()];
      } else {
        ReplayOne(buckets, byId, e);
        IndexesSameGrants(byId, buckets, bs, Views(buckets));
      }
    }
    assert entries[..|entries|] == entries;
  }
}
