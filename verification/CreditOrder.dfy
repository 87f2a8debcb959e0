/** The ledger in the order of created_at, when rows are committed in another order: a row takes the
    place its stamp gives it, so a grant that commits late is replayed before debits that were
    computed without it.  Such a grant never lowers what another bucket holds, and every debit stays
    covered. */
module CreditOrder {
  import opened CreditBuckets
  import opened CreditLedger
  import opened Options

  // ---------------------------------------------------------------- more credit, never less

  /** bs with more: f says where each bucket of bs stands in cs, which may hold further buckets and at
      least as much in each of these. */
  ghost predicate Within(bs: seq<BucketView>, cs: seq<BucketView>, f: seq<nat>) {
    && |f| == |bs|
    && (forall i :: 0 <= i < |f| ==> f[i] < |cs|)
    && (forall i, j :: 0 <= i < j < |f| ==> f[i] < f[j])
    && (forall i :: 0 <= i < |f| ==> cs[f[i]] == bs[i].(remaining := cs[f[i]].remaining))
    && (forall i :: 0 <= i < |f| ==> bs[i].remaining <= cs[f[i]].remaining)
  }

  /** A deduction is a sequence of deductions of one unit. */
  lemma {:induction false} DeductUnit(bs: seq<BucketView>, amount: int)
    requires amount > 0 && HasCredit(bs)
    ensures Deduct(bs, amount) == Deduct(TakeFrom(bs, First(bs), 1), amount - 1)
  {
    hide Deduct, HasCredit;
    var i := First(bs);
    var one := TakeFrom(bs, i, 1);
    DeductionStep(bs, i, amount);
    if bs[i].remaining > 1 && amount > 1 {
      assert IsFirst(one, i);
      DeductionStep(one, i, amount - 1);
      assert TakeFrom(one, i, amount - 1) == TakeFrom(bs, i, amount);
    } else {
      assert one == TakeFrom(bs, i, amount);
    }
  }

  lemma {:induction false} UnitWithin(bs: seq<BucketView>, cs: seq<BucketView>, f: seq<nat>, i: nat, k: nat)
    requires Within(bs, cs, f) && IsFirst(bs, i) && IsFirst(cs, k)
    ensures Within(TakeFrom(bs, i, 1), TakeFrom(cs, k, 1), f)
  {
    forall j | 0 <= j < |f|
      ensures TakeFrom(bs, i, 1)[j].remaining <= TakeFrom(cs, k, 1)[f[j]].remaining
    {
      assert cs[f[i]].remaining > 0;
      assert i < j ==> f[i] < f[j];
      assert j < i ==> f[j] < f[i];
    }
  }

  /** The same spend leaves at least as much in each bucket when there was more to begin with. */
  lemma {:induction false} DeductWithin(bs: seq<BucketView>, cs: seq<BucketView>, f: seq<nat>, amount: int)
    requires Within(bs, cs, f) && NonNegative(bs) && NonNegative(cs)
    ensures Within(Deduct(bs, amount), Deduct(cs, amount), f)
    decreases amount
  {
    hide Deduct;
    if amount <= 0 {
      DeductionDone(bs, amount);
      DeductionDone(cs, amount);
    } else if !HasCredit(bs) {
      DeductionDone(bs, amount);
      DeductionFrame(cs, amount);
    } else {
      var i := First(bs);
      assert cs[f[i]].remaining > 0;
      DeductUnit(bs, amount);
      DeductUnit(cs, amount);
      UnitWithin(bs, cs, f, i, First(cs));
      DeductWithin(TakeFrom(bs, i, 1), TakeFrom(cs, First(cs), 1), f, amount - 1);
    }
  }

  lemma {:induction false} WithinTotal(bs: seq<BucketView>, cs: seq<BucketView>, f: seq<nat>)
    requires Within(bs, cs, f) && NonNegative(cs)
    ensures Total(bs) <= Total(cs)
  {
    if cs != [] {
      var n := |cs| - 1;
      if bs != [] && f[|bs| - 1] == n {
        WithinTotal(bs[..|bs| - 1], cs[..n], f[..|bs| - 1]);
      } else {
        assert forall i :: 0 <= i < |f| ==> f[i] <= f[|f| - 1];
        WithinTotal(bs, cs[..n], f);
      }
    }
  }

  /** A covered debit stays covered, and its effect keeps the relation. */
  lemma {:induction false} DebitWithin(bs: seq<BucketView>, cs: seq<BucketView>, f: seq<nat>, e: Entry)
    requires Within(bs, cs, f) && NonNegative(bs) && NonNegative(cs) && UniqueIds(cs)
    requires Covered(bs, e) && e.amount < 0
    ensures Covered(cs, e) && Within(ReplayEntry(bs, e), ReplayEntry(cs, e), f)
  {
    hide Deduct, Total;
    if IsOffset(e) {
      var i := Find(bs, e.ref.id).value;
      FindUnique(cs, f[i]);
    } else {
      WithinTotal(bs, cs, f);
      DeductWithin(bs, cs, f, -e.amount);
    }
  }

  lemma {:induction false} GrantWithin(bs: seq<BucketView>, cs: seq<BucketView>, f: seq<nat>, b: BucketView)
    requires Within(bs, cs, f)
    ensures Within(bs, cs + [b], f) && Within(bs + [b], cs + [b], f + [|cs|])
  {
  }

  /** The bucket that a grant opens. */
  function ViewOf(e: Entry): BucketView {
    BucketView(e.id, e.expiresAt, e.amount, e.createdAt)
  }

  // ---------------------------------------------------------------- ledgers in order

  predicate Ordered(ledger: Ledger) {
    forall i, j :: 0 <= i < j < |ledger| ==> ledger[i].createdAt < ledger[j].createdAt
  }

  predicate DistinctIds(ledger: Ledger) {
    forall i, j :: 0 <= i < j < |ledger| ==> ledger[i].id != ledger[j].id
  }

  /** The ledger holds the rows of base, and beyond them only grants. */
  predicate Since(base: Ledger, ledger: Ledger) {
    && (forall e :: e in base ==> e in ledger)
    && (forall e :: e in ledger && e !in base ==> e.amount > 0)
  }

  lemma {:induction false} DistinctBuckets(ledger: Ledger)
    requires DistinctIds(ledger)
    ensures UniqueIds(Replay(ledger))
  {
    if ledger != [] {
      var n := |ledger| - 1;
      DistinctBuckets(ledger[..n]);
      ReplayNonNegative(ledger[..n]);
      forall i | 0 <= i < |Replay(ledger[..n])|
        ensures Replay(ledger[..n])[i].entryId != ledger[n].id
      {
        var k := BucketComesFromGrant(ledger[..n], i);
      }
      UniqueIdsStep(Replay(ledger[..n]), ledger[n]);
    }
  }

  /** In ordered ledgers the last row of the larger one is the last of the smaller one or not in it. */
  lemma {:induction false} LastRow(base: Ledger, ledger: Ledger)
    requires Ordered(base) && Ordered(ledger) && Since(base, ledger) && ledger != []
    ensures var n := |ledger| - 1;
            if ledger[n] in base then
              base != [] && base[|base| - 1] == ledger[n] && Since(base[..|base| - 1], ledger[..n])
            else Since(base, ledger[..n]) && ledger[n].amount > 0
  {
    var n := |ledger| - 1;
    var last := ledger[n];
    if last in base {
      var m := |base| - 1;
      assert base[m] in ledger;
      assert base[m] == last;
      forall e | e in base[..m]
        ensures e in ledger[..n]
      {
        assert e in ledger && e.createdAt < last.createdAt;
      }
      forall e | e in ledger[..n] && e !in base[..m]
        ensures e.amount > 0
      {
        assert e in ledger && e.createdAt < last.createdAt;
      }
    } else {
      forall e | e in base
        ensures e in ledger[..n]
      {
        assert e in ledger && e != last;
      }
      forall e | e in ledger[..n] && e !in base
        ensures e.amount > 0
      {
        assert e in ledger;
      }
    }
  }

  /** Grants that come to stand anywhere between the rows leave every debit covered, and every bucket
      with at least what it held. */
  lemma {:induction false} MoreGrants(base: Ledger, ledger: Ledger) returns (f: seq<nat>)
    requires Ordered(base) && Ordered(ledger) && Since(base, ledger) && DistinctIds(ledger) && AllCovered(base)
    ensures AllCovered(ledger) && Within(Replay(base), Replay(ledger), f)
    decreases |ledger|
  {
    hide Ordered, Since, DistinctIds, Within, Covered;
    if ledger == [] {
      NothingSince(base);
      f := [];
      WithinNothing();
    } else {
      var n := |ledger| - 1;
      var last := ledger[n];
      LastRow(base, ledger);
      OrderedPrefix(ledger);
      if last in base {
        OrderedPrefix(base);
        var m := |base| - 1;
        f := MoreGrants(base[..m], ledger[..n]);
        var bs, cs := Replay(base[..m]), Replay(ledger[..n]);
        if last.amount > 0 {
          GrantWithin(bs, cs, f, ViewOf(last));
          f := f + [|cs|];
          GrantIsCovered(cs, last);
        } else {
          CoveredIsDebit(bs, last);
          ReplayNonNegative(base[..m]);
          ReplayNonNegative(ledger[..n]);
          DistinctBuckets(ledger[..n]);
          DebitWithin(bs, cs, f, last);
        }
      } else {
        f := MoreGrants(base, ledger[..n]);
        GrantWithin(Replay(base), Replay(ledger[..n]), f, ViewOf(last));
        GrantIsCovered(Replay(ledger[..n]), last);
      }
    }
  }

  lemma {:induction false} SomeRow(ledger: Ledger)
    requires ledger != []
    ensures exists e :: e in ledger
  {
    assert ledger[0] in ledger;
  }

  lemma {:induction false} NothingSince(base: Ledger)
    requires Since(base, [])
    ensures base == []
  {
    if base != [] {
      SomeRow(base);
    }
  }

  lemma {:induction false} WithinNothing()
    ensures Within([], [], [])
  {
  }

  lemma {:induction false} OrderedPrefix(ledger: Ledger)
    requires Ordered(ledger) && ledger != []
    ensures Ordered(ledger[..|ledger| - 1]) && (DistinctIds(ledger) ==> DistinctIds(ledger[..|ledger| - 1]))
  {
  }

  lemma {:induction false} GrantIsCovered(bs: seq<BucketView>, e: Entry)
    requires e.amount > 0
    ensures Covered(bs, e)
  {
  }

  lemma {:induction false} CoveredIsDebit(bs: seq<BucketView>, e: Entry)
    requires Covered(bs, e) && e.amount <= 0
    ensures e.amount < 0
  {
  }

  // ---------------------------------------------------------------- committing in order

  /** The row goes where its stamp puts it. */
  function Place(ledger: Ledger, e: Entry): Ledger {
    if ledger == [] || ledger[|ledger| - 1].createdAt < e.createdAt then ledger + [e]
    else Place(ledger[..|ledger| - 1], e) + [ledger[|ledger| - 1]]
  }

  function PlaceAll(ledger: Ledger, rows: Ledger): Ledger {
    if rows == [] then ledger else Place(PlaceAll(ledger, rows[..|rows| - 1]), rows[|rows| - 1])
  }

  predicate NewStamp(ledger: Ledger, e: Entry) {
    forall r :: r in ledger ==> r.createdAt != e.createdAt
  }

  lemma {:induction false} PlaceKeeps(ledger: Ledger, e: Entry)
    requires Ordered(ledger) && NewStamp(ledger, e)
    ensures Ordered(Place(ledger, e)) && Sum(Place(ledger, e)) == Sum(ledger) + e.amount
    ensures forall r :: r in Place(ledger, e) <==> r in ledger || r == e
  {
    hide Sum;
    if ledger == [] || ledger[|ledger| - 1].createdAt < e.createdAt {
      SumAppend(ledger, e);
    } else {
      var n := |ledger| - 1;
      var last := ledger[n];
      assert last in ledger;
      PlaceKeeps(ledger[..n], e);
      var placed := Place(ledger[..n], e);
      assert forall i :: 0 <= i < |placed| ==> placed[i] in placed;
      SumAppend(placed, last);
      SumAppend(ledger[..n], last);
      assert ledger[..n] + [last] == ledger;
    }
  }

  predicate NewStamps(ledger: Ledger, rows: Ledger) {
    forall i :: 0 <= i < |rows| ==> NewStamp(ledger, rows[i])
  }

  lemma {:induction false} LastIsNew(ledger: Ledger, placed: Ledger, rows: Ledger)
    requires rows != [] && Ordered(rows) && NewStamp(ledger, rows[|rows| - 1])
    requires forall r :: r in placed <==> r in ledger || r in rows[..|rows| - 1]
    ensures NewStamp(placed, rows[|rows| - 1])
  {
  }

  lemma {:induction false} PlaceAllKeeps(ledger: Ledger, rows: Ledger)
    requires Ordered(ledger) && Ordered(rows) && NewStamps(ledger, rows)
    ensures Ordered(PlaceAll(ledger, rows))
    ensures forall r :: r in PlaceAll(ledger, rows) <==> r in ledger || r in rows
  {
    hide Ordered, NewStamp, Place;
    if rows != [] {
      var n := |rows| - 1;
      OrderedPrefix(rows);
      PlaceAllKeeps(ledger, rows[..n]);
      assert NewStamp(PlaceAll(ledger, rows[..n]), rows[n]) by { LastIsNew(ledger, PlaceAll(ledger, rows[..n]), rows); }
      PlaceKeeps(PlaceAll(ledger, rows[..n]), rows[n]);
      assert rows == rows[..n] + [rows[n]];
    }
  }

  /** Debits computed on base and stamped after it: once they are in their place, with the grants that
      were committed meanwhile in theirs, every row of the ledger is covered. */
  lemma {:induction false} CommitIsCovered(base: Ledger, ledger: Ledger, rows: Ledger) returns (f: seq<nat>)
    requires Ordered(ledger) && Since(base, ledger) && Ordered(base + rows) && NewStamps(ledger, rows)
    requires DistinctIds(PlaceAll(ledger, rows)) && AllCovered(base + rows)
    ensures AllCovered(PlaceAll(ledger, rows)) && Since(base + rows, PlaceAll(ledger, rows))
    ensures Within(Replay(base + rows), Replay(PlaceAll(ledger, rows)), f)
  {
    hide AllCovered, Within, DistinctIds;
    assert Ordered(rows) by {
      forall i, j | 0 <= i < j < |rows|
        ensures rows[i].createdAt < rows[j].createdAt
      {
        assert (base + rows)[|base| + i] == rows[i] && (base + rows)[|base| + j] == rows[j];
      }
    }
    PlaceAllKeeps(ledger, rows);
    f := MoreGrants(base + rows, PlaceAll(ledger, rows));
  }

  /** Rows placed behind row i leave the ledger up to it alone. */
  lemma {:induction false} PlacedBehind(ledger: Ledger, e: Entry, i: nat)
    requires i < |ledger| && ledger[i].createdAt < e.createdAt
    ensures i < |Place(ledger, e)| && Place(ledger, e)[..i + 1] == ledger[..i + 1]
  {
    var n := |ledger| - 1;
    if !(ledger[n].createdAt < e.createdAt) {
      PlacedBehind(ledger[..n], e, i);
      assert ledger[..n][..i + 1] == ledger[..i + 1];
      assert Place(ledger, e)[..i + 1] == Place(ledger[..n], e)[..i + 1];
    }
  }

  lemma {:induction false} AllPlacedBehind(ledger: Ledger, rows: Ledger, i: nat)
    requires i < |ledger| && forall j :: 0 <= j < |rows| ==> ledger[i].createdAt < rows[j].createdAt
    ensures i < |PlaceAll(ledger, rows)| && PlaceAll(ledger, rows)[..i + 1] == ledger[..i + 1]
    ensures PlaceAll(ledger, rows)[i] == ledger[i]
  {
    if rows != [] {
      var n := |rows| - 1;
      AllPlacedBehind(ledger, rows[..n], i);
      var placed := PlaceAll(ledger, rows[..n]);
      PlacedBehind(placed, rows[n], i);
    }
    assert PlaceAll(ledger, rows)[..i + 1][i] == ledger[..i + 1][i];
  }

  // ---------------------------------------------------------------- offsets that were overtaken

  lemma {:induction false} CoveredAt(ledger: Ledger, j: nat)
    requires AllCovered(ledger) && j < |ledger|
    ensures AllCovered(ledger[..j]) && Covered(Replay(ledger[..j]), ledger[j])
  {
    var n := |ledger| - 1;
    if j < n {
      assert ledger[..n][..j] == ledger[..j];
      CoveredAt(ledger[..n], j);
    }
  }

  /** What a bucket holds only goes down, whatever rows follow. */
  lemma {:induction false} BucketOnlySinks(ledger: Ledger, j: nat, i: nat)
    requires j <= |ledger| && i < |Replay(ledger[..j])|
    ensures i < |Replay(ledger)| && Replay(ledger)[i].entryId == Replay(ledger[..j])[i].entryId
    ensures Replay(ledger)[i].expiresAt == Replay(ledger[..j])[i].expiresAt
    ensures Replay(ledger)[i].remaining <= Replay(ledger[..j])[i].remaining
  {
    var n := |ledger| - 1;
    if j == |ledger| {
      assert ledger[..j] == ledger;
    } else {
      assert ledger[..n][..j] == ledger[..j];
      BucketOnlySinks(ledger[..n], j, i);
      ReplayNonNegative(ledger[..n]);
      ReplayEntryNonNegative(Replay(ledger[..n]), ledger[n]);
      assert Replay(ledger)[..|Replay(ledger[..n])|][i] == Replay(ledger)[i];
    }
  }

  /** What the bucket that row j names holds once row j is replayed. */
  function Left(ledger: Ledger, j: nat): int
    requires j < |ledger|
  {
    var bs := Replay(ledger[..j + 1]);
    if ledger[j].ref.RowRef? && Find(bs, ledger[j].ref.id).Some? then bs[Find(bs, ledger[j].ref.id).value].remaining
    else 0
  }

  /** An offset that, in the order of the stamps, does not empty its bucket: a grant committed after it
      stands before spends that its sweep saw on that bucket, and has taken some of them over. */
  predicate Overtaken(ledger: Ledger, j: nat) {
    j < |ledger| && IsOffset(ledger[j]) && Left(ledger, j) > 0
  }

  predicate ReservedAreOffsets(ledger: Ledger) {
    forall e :: e in ledger && Reserved(e) ==> e.amount < 0
  }

  lemma {:induction false} DistinctPrefix(ledger: Ledger, j: nat)
    requires DistinctIds(ledger) && j <= |ledger|
    ensures DistinctIds(ledger[..j])
  {
  }

  lemma {:induction false} OffsetNames(ledger: Ledger, j: nat) returns (m: nat)
    requires AllCovered(ledger) && DistinctIds(ledger) && j < |ledger| && IsOffset(ledger[j])
    ensures ledger[j].ref.RowRef? && m < |Replay(ledger[..j + 1])| && UniqueIds(Replay(ledger[..j + 1]))
    ensures Replay(ledger[..j + 1])[m].entryId == ledger[j].ref.id
    ensures Left(ledger, j) == Replay(ledger[..j + 1])[m].remaining
  {
    CoveredAt(ledger, j);
    m := Find(Replay(ledger[..j]), ledger[j].ref.id).value;
    assert ledger[..j + 1] == ledger[..j] + [ledger[j]];
    ReplayAppend(ledger[..j], ledger[j]);
    DistinctPrefix(ledger, j + 1);
    DistinctBuckets(ledger[..j + 1]);
    FindUnique(Replay(ledger[..j + 1]), m);
  }

  /** When the insert of a sweep's next offset meets the unique index: exactly when an earlier offset of
      the same bucket has been overtaken. */
  lemma {:induction false} CollidesExactly(ledger: Ledger, i: nat, id: Id, at: int)
    requires AllCovered(ledger) && DistinctIds(ledger) && ReservedAreOffsets(ledger)
    requires i < |Replay(ledger)| && Replay(ledger)[i].remaining > 0
    ensures HasKey(ledger, OffsetEntry(Replay(ledger)[i], id, at)) <==>
      exists j :: 0 <= j < |ledger| && Overtaken(ledger, j) && ledger[j].ref == RowRef(Replay(ledger)[i].entryId)
  {
    hide AllCovered, DistinctIds, Left, Replay;
    forall j | 0 <= j < |ledger| && SameKey(ledger[j], OffsetEntry(Replay(ledger)[i], id, at))
      ensures Overtaken(ledger, j)
    {
      HeldIsOvertaken(ledger, j, i);
    }
  }

  lemma {:induction false} HeldIsOvertaken(ledger: Ledger, j: nat, i: nat)
    requires AllCovered(ledger) && DistinctIds(ledger) && ReservedAreOffsets(ledger)
    requires j < |ledger| && Reserved(ledger[j]) && i < |Replay(ledger)|
    requires Replay(ledger)[i].remaining > 0 && ledger[j].ref == RowRef(Replay(ledger)[i].entryId)
    ensures Overtaken(ledger, j)
  {
    hide AllCovered, Left, Replay;
    assert ledger[j] in ledger;
    var m := OffsetNames(ledger, j);
    BucketOnlySinks(ledger, j + 1, m);
    DistinctBuckets(ledger);
  }

  /** Some offset of bucket i has been overtaken. */
  predicate BucketOvertaken(ledger: Ledger, i: nat)
    requires i < |Replay(ledger)|
  {
    exists j :: 0 <= j < |ledger| && Overtaken(ledger, j) && ledger[j].ref == RowRef(Replay(ledger)[i].entryId)
  }

  /** A bucket that holds credit has an offset exactly if one of its offsets has been overtaken. */
  lemma {:induction false} HasOffsetExactly(ledger: Ledger, i: nat)
    requires AllCovered(ledger) && DistinctIds(ledger) && ReservedAreOffsets(ledger)
    requires i < |Replay(ledger)| && Replay(ledger)[i].remaining > 0
    ensures HasOffset(ledger, Replay(ledger)[i].entryId) <==> BucketOvertaken(ledger, i)
  {
    hide AllCovered, DistinctIds, Left, Replay;
    forall j | 0 <= j < |ledger| && Reserved(ledger[j]) && ledger[j].ref == RowRef(Replay(ledger)[i].entryId)
      ensures Overtaken(ledger, j)
    {
      HeldIsOvertaken(ledger, j, i);
    }
  }

  /** Every grant has its bucket. */
  lemma {:induction false} GrantHasBucket(ledger: Ledger, k: nat) returns (i: nat)
    requires k < |ledger| && ledger[k].amount > 0
    ensures i < |Replay(ledger)| && Replay(ledger)[i].entryId == ledger[k].id
    ensures Replay(ledger)[i].expiresAt == ledger[k].expiresAt
  {
    i := |Replay(ledger[..k])|;
    assert ledger[..k + 1] == ledger[..k] + [ledger[k]];
    ReplayAppend(ledger[..k], ledger[k]);
    BucketOnlySinks(ledger, k + 1, i);
  }

  predicate Expired(b: BucketView, now: int) {
    b.expiresAt.At? && b.expiresAt.time < now
  }

  predicate ExpiredEmpty(b: BucketView, now: int) {
    Expired(b, now) && b.remaining == 0
  }

  /** The pre-filter skips the org although a bucket in it is due. */
  predicate Missed(ledger: Ledger, now: int) {
    !Candidate(ledger, now) && exists i :: 0 <= i < |Replay(ledger)| && Due(Replay(ledger)[i], now)
  }

  lemma {:induction false} CandidateExactly(ledger: Ledger, now: int)
    ensures Candidate(ledger, now) <==>
      exists i :: 0 <= i < |Replay(ledger)| && Expired(Replay(ledger)[i], now)
                  && !HasOffset(ledger, Replay(ledger)[i].entryId)
  {
    hide Replay, HasOffset;
    if Candidate(ledger, now) {
      var k :| 0 <= k < |ledger| && ledger[k].amount > 0 && ledger[k].expiresAt.At?
               && ledger[k].expiresAt.time < now && !HasOffset(ledger, ledger[k].id);
      var i := GrantHasBucket(ledger, k);
      assert Expired(Replay(ledger)[i], now);
    }
    if i :| 0 <= i < |Replay(ledger)| && Expired(Replay(ledger)[i], now)
            && !HasOffset(ledger, Replay(ledger)[i].entryId) {
      var k := BucketComesFromGrant(ledger, i);
    }
  }

  /** Exactly when the pre-filter misses a due bucket: some bucket is due, every due bucket has an offset
      that has been overtaken, and every empty expired bucket has an offset. */
  lemma {:induction false} PrefilterMissesExactly(ledger: Ledger, now: int)
    requires AllCovered(ledger) && DistinctIds(ledger) && ReservedAreOffsets(ledger)
    ensures Missed(ledger, now) <==>
      && (exists i :: 0 <= i < |Replay(ledger)| && Due(Replay(ledger)[i], now))
      && (forall i :: 0 <= i < |Replay(ledger)| && Due(Replay(ledger)[i], now) ==> BucketOvertaken(ledger, i))
      && (forall i :: 0 <= i < |Replay(ledger)| && ExpiredEmpty(Replay(ledger)[i], now) ==>
            HasOffset(ledger, Replay(ledger)[i].entryId))
  {
    hide AllCovered, DistinctIds, Replay, HasOffset, BucketOvertaken, Candidate;
    CandidateExactly(ledger, now);
    ReplayNonNegative(ledger);
    forall i | 0 <= i < |Replay(ledger)| && Due(Replay(ledger)[i], now)
      ensures HasOffset(ledger, Replay(ledger)[i].entryId) <==> BucketOvertaken(ledger, i)
    {
      HasOffsetExactly(ledger, i);
    }
  }

  /** Prefixes that end with the same row. */
  lemma {:induction false} SincePrefix(base: Ledger, j: nat, ledger: Ledger, k: nat)
    requires Ordered(base) && Ordered(ledger) && Since(base, ledger) && j < |base| && k < |ledger|
    requires base[j] == ledger[k]
    ensures Ordered(base[..j + 1]) && Ordered(ledger[..k + 1]) && Since(base[..j + 1], ledger[..k + 1])
  {
    var head, prefix := base[..j + 1], ledger[..k + 1];
    forall e | e in head
      ensures e in prefix
    {
      assert e in ledger && e.createdAt <= base[j].createdAt;
    }
    forall e | e in prefix && e !in head
      ensures e.amount > 0
    {
      assert e in ledger && e.createdAt <= base[j].createdAt;
    }
  }

  /** Once overtaken, always overtaken. */
  lemma {:induction false} OvertakenStays(base: Ledger, j: nat, ledger: Ledger, k: nat)
    requires Ordered(base) && Ordered(ledger) && Since(base, ledger) && DistinctIds(base) && DistinctIds(ledger)
    requires AllCovered(base) && Overtaken(base, j) && k < |ledger| && base[j] == ledger[k]
    ensures Overtaken(ledger, k)
  {
    hide AllCovered, Left, Replay, Ordered, Since;
    var m := OffsetNames(base, j);
    SincePrefix(base, j, ledger, k);
    DistinctPrefix(ledger, k + 1);
    PrefixCovered(base, j + 1);
    var g := MoreGrants(base, ledger);
    var f := MoreGrants(base[..j + 1], ledger[..k + 1]);
    var n := OffsetNames(ledger, k);
    assert Replay(ledger[..k + 1])[f[m]].entryId == ledger[k].ref.id;
  }

  lemma {:induction false} PrefixCovered(ledger: Ledger, j: nat)
    requires AllCovered(ledger) && j <= |ledger|
    ensures AllCovered(ledger[..j])
  {
    if j < |ledger| {
      CoveredAt(ledger, j);
    } else {
      assert ledger[..j] == ledger;
    }
  }

  // ---------------------------------------------------------------- grants behind every spend

  /** The further grants stand behind all spends of base. */
  predicate Behind(base: Ledger, ledger: Ledger) {
    forall e, d :: e in ledger && e !in base && d in base && d.amount < 0 && !Reserved(d) ==> d.createdAt < e.createdAt
  }

  ghost predicate Alike(bs: seq<BucketView>, cs: seq<BucketView>, f: seq<nat>) {
    Within(bs, cs, f) && forall i :: 0 <= i < |f| ==> cs[f[i]] == bs[i]
  }

  lemma {:induction false} SameOrdered(a: Ledger, b: Ledger)
    requires Ordered(a) && Ordered(b) && forall e :: e in a <==> e in b
    ensures a == b
    decreases |a|
  {
    if a == [] {
      NothingSince(b);
    } else {
      LastRow(b, a);
      var n := |a| - 1;
      assert a[n] in a;
      forall e
        ensures e in a[..n] <==> e in b[..|b| - 1]
      {
        assert e in a[..n] ==> e in a && e.createdAt < a[n].createdAt;
        assert e in b[..|b| - 1] ==> e in b && e.createdAt < a[n].createdAt;
      }
      SameOrdered(a[..n], b[..|b| - 1]);
    }
  }

  lemma {:induction false} Identity(bs: seq<BucketView>)
    ensures Alike(bs, bs, seq(|bs|, i => i))
  {
  }

  lemma {:induction false} OffsetAlike(bs: seq<BucketView>, cs: seq<BucketView>, f: seq<nat>, e: Entry)
    requires Alike(bs, cs, f) && UniqueIds(cs) && Covered(bs, e) && IsOffset(e)
    ensures Alike(ReplayEntry(bs, e), ReplayEntry(cs, e), f)
  {
    hide Deduct, Total;
    FindUnique(cs, f[Find(bs, e.ref.id).value]);
  }

  lemma {:induction false} GrantAlike(bs: seq<BucketView>, cs: seq<BucketView>, f: seq<nat>, b: BucketView)
    requires Alike(bs, cs, f)
    ensures Alike(bs, cs + [b], f) && Alike(bs + [b], cs + [b], f + [|cs|])
  {
  }

  lemma {:induction false} BehindSpend(base: Ledger, ledger: Ledger)
    requires Ordered(base) && Ordered(ledger) && Since(base, ledger) && Behind(base, ledger) && ledger != []
    requires ledger[|ledger| - 1] in base && ledger[|ledger| - 1].amount < 0 && !Reserved(ledger[|ledger| - 1])
    ensures base == ledger
  {
    var last := ledger[|ledger| - 1];
    forall e
      ensures e in base <==> e in ledger
    {
      assert e in ledger ==> e.createdAt <= last.createdAt;
    }
    SameOrdered(base, ledger);
  }

  lemma {:induction false} BehindPrefix(base: Ledger, ledger: Ledger)
    requires Ordered(base) && Ordered(ledger) && Since(base, ledger) && Behind(base, ledger) && ledger != []
    ensures var n := |ledger| - 1;
            Behind(if ledger[n] in base then base[..|base| - 1] else base, ledger[..n])
  {
    LastRow(base, ledger);
    var n := |ledger| - 1;
    if ledger[n] in base {
      var m := |base| - 1;
      forall e, d | e in ledger[..n] && e !in base[..m] && d in base[..m] && d.amount < 0 && !Reserved(d)
        ensures d.createdAt < e.createdAt
      {
        assert e in ledger && e.createdAt < ledger[n].createdAt && d in base;
        assert base == base[..m] + [base[m]];
      }
    }
  }

  /** Grants behind every spend change no other bucket at all. */
  lemma {:induction false} GrantsBehind(base: Ledger, ledger: Ledger) returns (f: seq<nat>)
    requires Ordered(base) && Ordered(ledger) && Since(base, ledger) && Behind(base, ledger)
    requires DistinctIds(ledger) && AllCovered(base)
    ensures Alike(Replay(base), Replay(ledger), f)
    decreases |ledger|
  {
    hide Ordered, Since, Behind, DistinctIds, Alike, Covered;
    if ledger == [] {
      NothingSince(base);
      Identity([]);
      f := seq(0, i => i);
    } else {
      var n := |ledger| - 1;
      var last := ledger[n];
      LastRow(base, ledger);
      BehindPrefix(base, ledger);
      OrderedPrefix(ledger);
      if last in base {
        OrderedPrefix(base);
        var m := |base| - 1;
        var bs, cs := Replay(base[..m]), Replay(ledger[..n]);
        if last.amount > 0 {
          f := GrantsBehind(base[..m], ledger[..n]);
          GrantAlike(bs, cs, f, ViewOf(last));
          f := f + [|cs|];
        } else {
          CoveredIsDebit(bs, last);
          if IsOffset(last) {
            f := GrantsBehind(base[..m], ledger[..n]);
            DistinctBuckets(ledger[..n]);
            OffsetAlike(bs, cs, f, last);
          } else {
            BehindSpend(base, ledger);
            Identity(Replay(base));
            f := seq(|Replay(base)|, i => i);
          }
        }
      } else {
        f := GrantsBehind(base, ledger[..n]);
        GrantAlike(Replay(base), Replay(ledger[..n]), f, ViewOf(last));
      }
    }
  }

  /** An offset that empties its bucket still does when the further grants stand behind the spends. */
  lemma {:induction false} EmptyingStays(base: Ledger, j: nat, ledger: Ledger, k: nat)
    requires Ordered(base) && Ordered(ledger) && Since(base, ledger) && DistinctIds(base) && DistinctIds(ledger)
    requires AllCovered(base) && AllCovered(ledger) && j < |base| && k < |ledger| && base[j] == ledger[k]
    requires IsOffset(base[j]) && Behind(base[..j + 1], ledger[..k + 1])
    ensures Left(ledger, k) == Left(base, j)
  {
    hide AllCovered, Left, Replay, Ordered, Since, Behind;
    var m := OffsetNames(base, j);
    SincePrefix(base, j, ledger, k);
    DistinctPrefix(ledger, k + 1);
    PrefixCovered(base, j + 1);
    var f := GrantsBehind(base[..j + 1], ledger[..k + 1]);
    var n := OffsetNames(ledger, k);
    assert Replay(ledger[..k + 1])[f[m]].entryId == ledger[k].ref.id;
  }
}
