# Verification of the Hivy back end's ledgers, counters, caches and scanners

A Dafny model of the parts of Hivy whose correctness depends on state that many steps, many
processes or many inputs share. Every file is one module; `dafny verify dfyconfig.toml` checks the
whole project.

**The credit ledger.** An org's credits are an append-only list of rows: grants are positive and may
expire, spends are negative and gated by the sum of all rows, and a sweep replays the whole ledger
into one bucket per grant and writes a negative offset for each expired bucket that still holds
credit. Two views of the same money, the flat sum and the replayed buckets, have to agree.

- `CreditBuckets` holds the replay. Its first half works on bucket values and proves the laws of one
  deduction. Its second half is the algorithm with bucket objects: filter, stable sort, cascading
  loop, the id index, all updated in place, and proved to compute the first half.
- `CreditLedger` runs grants, spends and sweeps one after the other: the soundness invariant,
  conservation, exactness and finality of the sweep, completeness of its SQL pre-filter, retries.
- `CreditOptimality` compares earliest-expiry-first with every other way to attribute spends.
- `CreditService` is the service object over the ledgers of all orgs.
- `CreditOrder` is about ledgers whose rows commit in another order than the `created_at` order the
  replay sorts by: a grant that commits late never lowers what another bucket holds, and leaves every
  debit covered.
- `CreditInterleaving` is a step machine in which lock, read, check, stamp, insert and commit of any
  number of transactions interleave; a committed row takes the place its stamp gives it.
- `CreditSerial` shows that a transaction of that machine which nothing disturbs does what the
  serialised operation does.
- `CreditSweeps` says what a sweep takes when it commits among other transactions, and what becomes of
  an org with an overtaken offset; `CreditPrefilter` is about the pre-filter among late grants;
  `CreditKeys` says when keys stay unique without the index.
- `CreditTimeliness` says what holds in addition when no grant commits behind a later debit, and
  `CreditWitnesses` holds the runs that show the limits.

**The request counter.** `RequestCounter` is the object with its Redis keys and rows;
`CounterInterleaving` makes every Redis and database action of every instance a step of its own, and
`CounterRefinement` shows that every sequence of calls on the object is a run of it. `RequestCap` is the
middleware that takes from a token's and a credential's counter.

**The credential cache.** `CredentialCache` is one instance's memory, Redis, database and data-key
tiers; `CacheCoherence` is any number of instances over one Redis, one database and one channel;
`TokenRevocation` is the revoked-token check.

**Reachability and reconciliation.** `SchemaClosure` is the flattening of response schemas shared by
the OpenAPI 3 and Swagger 2 generators; `SeedReconciler` is the seeder of global LLM credentials.

`Options` is the option type the modules share.

**Text.** `Utf8` is the decoding that a Go range loop performs; `ShellWord` is the shell quoting and
a lexer for POSIX shell words (IEEE Std 1003.1, Shell Command Language, sections 2.2.1 and 2.2.2);
`SdlScanner` is the brace scanner and the argument splitter of the GraphQL generator.

## Assumptions

- Row ids are fresh, and `created_at` stamps are distinct and follow the order in which the rows are
  created, on whatever instance; the order of commits is free. In the sequential model
  (`CreditLedger`, `CreditService`) both orders are one.
- Callers of grants and spends leave the pair (`expiry`, `expired_grant`) to the sweep.
- The unique index on (org, reason, ref_type, ref_id) described at
  `internal/billing/credits.go:247-250` is not created by the migrations
  (`internal/migrations/sql/000003_billing_usage.sql:133-137`). The step machine takes its existence
  as the flag `indexed` and proves the results about money either way.
- The counter has been seeded, nothing else writes or deletes its key, all instances share one
  clock, and an undo takes back a decrement that succeeded.
- Callers of a cache lookup pass the org that owns the credential, since concurrent lookups are
  merged by credential id alone (`internal/cache/cache.go:110`). A row is changed in the database
  before its invalidation starts. The Redis TTL is positive. Each lookup is one step.
- Encryption is symbolic: the right key opens a ciphertext, any other key fails.

## Where the code differs from what is said about it

- A retried spend is documented to answer "already recorded"
  (`internal/billing/credits.go:105-108`), but the balance is checked first
  (`internal/billing/credits.go:138-145`). `RetriedSpendAnswer` says exactly when each answer is
  given, and `RetryOfAllCredit` is the smallest case where the retry answers "insufficient credits".
- A collision of a sweep with the unique index is taken for the work of a concurrent sweep and passed
  over (`internal/billing/credits.go:279-283`). Sweeps hold the org's lock, so it never is. It happens
  when a grant is inserted, other transactions spend and sweep, and the grant commits after them with
  an earlier `created_at`: replayed in front of those spends it takes some of them over, and a bucket
  whose offset is written holds credit again. `SweepCollidesExactly` says that this is the only case,
  `TimelyNeverCollides` that it needs such a grant, and `LateGrantCollides` is a run that gets there.
  In Postgres the violation aborts the whole transaction, so that sweep writes nothing, and neither
  does any other while that bucket is due (`NoSweepCompletes`, `StuckNeverCommits`). The balance is
  right all the same (`BalanceIsNeverNegative`).
- The pre-filter takes a written offset for final (`internal/billing/credits.go:217-223`).
  `PrefilterMissesExactly` says when it skips an org with a due bucket, and `PrefilterMisses` is a run
  that gets there: a late grant, and a sweep that took its time (`internal/billing/credits.go:207`)
  before another one and got the lock after it. Both are needed: `PrefilterCompleteInTime` is for runs
  without late grants, `PrefilterCompleteForward` for runs whose sweeps do not go back in time.
- Without the index two overlapping grants of one key are both written (`GrantsRaceWithoutIndex`);
  they are not if nothing commits while another transaction is past its check of the same key
  (`ExclusiveKeysAreUnique`).
- A token's counter is documented to be kept for a minute beyond its expiry
  (`internal/counter/counter.go:49`); a refill adds that minute twice
  (`internal/counter/counter.go:210-214`). `CheckAndRefillToken` states the deadline it sets.
- `decryptWithDEKCache` by itself can answer for a ciphertext and a wrapped key that do not belong
  together, and `DekCacheIsTransparent` says exactly when. No reachable state holds such a pair:
  `ReachableDekIsTransparent`.
- A call of the schema flattening does not return when it can reach, through names not stored yet,
  an array that is, through array items alone, an array of itself: `ReturnsExactly` gives the exact
  condition, `ArrayOfItself` the smallest case. An inline response leaves the schema map open
  exactly when it refers to something not stored yet (`InlineClosedExactly`,
  `InlineReferenceDangles`). The comment at `cmd/fetchactions-oas2/parse_response.go:88-90` says
  that nested references are not followed; the code follows them.
- The seeder compares ids as written (`internal/credentials/global_llm_seed.go:105-108`) but works
  with trimmed ones. `ConvergesExactly` says for which manifests one pass is enough. It is not for a
  pruning manifest that serves " a" (`BlankIdNeverSettles`), nor for two specs "a" and " a" that ask
  for different rows (`TwinsSettleExactly`).
- `shellQuote` replaces every byte that is not well-formed UTF-8 (`RoundTripExactly`,
  `IllFormedByteIsReplaced`).
- `extractBraceBlock` is documented to find the first block; a stray closing brace in front of it
  makes it miss (`FirstBlockFoundExactly`).

## Model

| member | source | states |
|---|---|---|
| CreditBuckets.BeforeIsStrictWeakOrder | internal/billing/credits_buckets.go:75-87 | the comparator is irreflexive, asymmetric, transitive, with transitive ties, and refines the expiry order with permanent credit last |
| CreditBuckets.First | internal/billing/credits_buckets.go:69-87 | the bucket found holds credit, precedes every earlier holder and is preceded by no later one |
| CreditBuckets.FirstIsUnique | internal/billing/credits_buckets.go:75-87 | the stable order leaves no choice of the bucket to take from |
| CreditBuckets.DeductionFrame | internal/billing/credits_buckets.go:88-99 | a spend changes only what remains, and leaves each bucket between 0 and its old value |
| CreditBuckets.DeductionLaw | internal/billing/credits_buckets.go:65-100 | every class of expiries that is closed under "earlier" goes from its total to max(0, total - amount) |
| CreditBuckets.DeductionByThreshold | internal/billing/credits_buckets.go:65-100 | for every threshold the soon-expiring total drops to max(0, total - amount), exactly min(amount, total) is removed, and the late-expiring rest is the most any attribution can leave |
| CreditBuckets.LateDeduction | internal/billing/credits_buckets.go:65-100 | what survives a date after a spend is max(0, min(what survived before, total - amount)) |
| CreditBuckets.DrainOrder | internal/billing/credits_buckets.go:24-26 | a bucket is touched only after every bucket with earlier expiry, or older, or earlier in the ledger, is empty |
| CreditBuckets.Find | internal/billing/credits_buckets.go:50 | the lookup by id gives the latest bucket of that id, and nothing only if there is none |
| CreditBuckets.RowEffect | internal/billing/credits_buckets.go:34-59 | a positive row becomes a bucket, a zero row nothing; an offset takes its amount, down to 0 at most, out of the latest bucket whose id it names and does nothing without one |
| CreditBuckets.InsertStableInOrder | internal/billing/credits_buckets.go:75-87 | inserting a later bucket into buckets in attribution order gives buckets in attribution order, ties still in source order |
| CreditBuckets.SortStableInOrder | internal/billing/credits_buckets.go:75-87 | the sort puts buckets in attribution order with ties in source order |
| CreditBuckets.HeadOfOrderIsFirst | internal/billing/credits_buckets.go:88-99 | with everything before it taken, the next of the sorted buckets is the first holder of credit among all of them |
| CreditBuckets.Eligible | internal/billing/credits_buckets.go:69-74 | keeps exactly the buckets with credit, in source order |
| CreditBuckets.TakeOne | internal/billing/credits_buckets.go:93-98 | moves min(remaining, left) out of one bucket and no other |
| CreditBuckets.TakeInOrder | internal/billing/credits_buckets.go:88-99 | taking along the sorted list has the effect of the deduction by value, early exit included |
| CreditBuckets.DeductSpend | internal/billing/credits_buckets.go:65-100 | filter, sort and loop in place equal repeatedly taking from the first holder of credit |
| CreditBuckets.ReplayOne | internal/billing/credits_buckets.go:45-57 | the effect of an offset or a spend row on the buckets, through the id index, is that of the replay by value |
| CreditBuckets.ReplayBuckets | internal/billing/credits_buckets.go:30-61 | the pointer algorithm returns fresh distinct buckets whose values are the replay of the ledger |
| CreditLedger.ReplayNonNegative | internal/billing/credits_buckets.go:30-61 | no ledger whatsoever replays to a bucket below zero |
| CreditLedger.CoveredStepConserves | internal/billing/credits_buckets.go:34-59 | a row that is covered changes the buckets' total by its amount |
| CreditLedger.CoveredConservation | internal/billing/credits_buckets.go:30-61 | as long as each spend and each offset is covered where it stands, the buckets hold exactly the ledger's sum, which is not negative |
| CreditLedger.Conservation | internal/billing/credits_buckets.go:30-61 | in particular when every offset empties its bucket, as in every serialised run |
| CreditLedger.NothingClamped | internal/billing/credits_buckets.go:51-54 | no offset of a sound ledger was ever clamped and no spend left an undeducted rest |
| CreditLedger.EmptyStaysEmpty | internal/billing/credits_buckets.go:34-59 | an empty bucket stays empty under every extension of the ledger, sound or not |
| CreditLedger.GrantIsSound | internal/billing/credits.go:84-101 | a grant keeps the soundness invariant |
| CreditLedger.SpendIsSound | internal/billing/credits.go:123-154 | the sum gate and the key check keep the soundness invariant |
| CreditLedger.SpendAgreesWithBuckets | internal/billing/credits.go:134-145 | a spend is accepted exactly when the replayed buckets cover it and its key is new, and then they lose it in attribution order |
| CreditLedger.KeyExactly | internal/billing/credits_idempotency.go:12-24 | a key is recorded if and only if some row has the same reason, ref type and non-empty ref id |
| CreditLedger.GrantAnswersExactly | internal/billing/credits.go:84-101 | why a grant is refused: amount not positive, else key recorded, else it is appended as asked |
| CreditLedger.SpendAnswersExactly | internal/billing/credits.go:123-153 | why a spend is refused: amount not positive, else balance below the amount, else key recorded; else a permanent debit under the caller's key is appended |
| CreditLedger.OffsetKeyIsFresh | internal/billing/credits.go:279-283 | an offset for a bucket that still holds credit cannot collide with a row of the ledger |
| CreditLedger.SweepPrefix | internal/billing/credits.go:268-284 | after k buckets no insert has collided, the ledger is solvent, and exactly the due ones among the k are empty |
| CreditLedger.SweepIsExact | internal/billing/credits.go:251-287 | a sweep empties every bucket that expired before now, leaves every other one alone, and makes the balance the unexpired remainder |
| CreditLedger.ForfeitSum | internal/billing/credits.go:268-284 | forfeiture keeps of each class of expiries exactly the part that expires at now or later |
| CreditLedger.SweepIsIdempotent | internal/billing/credits.go:242-250 | a second sweep at the same or an earlier time appends nothing |
| CreditLedger.OffsetIsFinal | internal/billing/credits.go:247-284 | once a grant has an offset its bucket is empty in every sound extension and no second offset for it exists |
| CreditLedger.BucketComesFromGrant | internal/billing/credits_buckets.go:36-44 | every bucket has the id and expiry of a positive row of the ledger |
| CreditLedger.PrefilterIsComplete | internal/billing/credits.go:209-227 | in serialised runs, an org that the query skips has no expired bucket with credit |
| CreditLedger.StepIsSound | internal/billing/credits.go:84-287 | each of the three operations keeps the soundness invariant |
| CreditLedger.ReachableIsSound | internal/billing/credits.go:84-287 | in every ledger reachable by any run the two views of the money agree and the balance is not negative |
| CreditLedger.RetriesChangeNothing | internal/billing/credits_idempotency.go:12-24 | any sequence of retries of recorded keys, with any amounts, leaves the ledger as it is |
| CreditLedger.SuccessThenRetries | internal/billing/credits.go:103-108 | after the first success any number of retries leaves the balance as after that success |
| CreditLedger.RetriedSpendAnswer | internal/billing/credits.go:138-145 | a retried spend answers "already recorded" exactly when the balance would cover it again, else "insufficient credits" |
| CreditLedger.RetryOfAllCredit | internal/billing/credits.go:138-145 | the concrete retry that answers "insufficient credits" |
| CreditOptimality.SpendDominates | internal/billing/credits_buckets.go:65-100 | against any attribution that can fund a spend, earliest-expiry-first can fund it and keeps at least as much credit for every date |
| CreditOptimality.SweepDominates | internal/billing/credits.go:266-284 | a sweep keeps that advantage |
| CreditOptimality.StepDominates | internal/billing/credits.go:84-287 | one operation of the ledger keeps up with any other attribution, and accepts what the other funds |
| CreditOptimality.EarliestExpiryFirstIsOptimal | internal/billing/credits_buckets.go:65-100 | over every run that some attribution of the spends can fund, the ledger accepts every new request and ends with at least as much credit, in all and for every date |
| CreditOptimality.OptimalAtEveryPoint | internal/billing/credits_buckets.go:65-100 | and so after every prefix of the run |
| CreditService.CreditsService.Balance | internal/billing/credits.go:186-198 | the sum equals what the replayed buckets hold in every valid state |
| CreditService.CreditsService.Grant | internal/billing/credits.go:84-101 | already recorded exactly when a row has the same three key columns; the new ledger of the org, the other orgs untouched, validity kept |
| CreditService.CreditsService.Spend | internal/billing/credits.go:123-154 | insufficient credits exactly when the balance is below a positive amount, already recorded exactly when it is not but a row has the same three key columns, a missing org before both; the other orgs untouched and validity kept |
| CreditService.CreditsService.SweepOrg | internal/billing/credits.go:251-287 | the loop over the pointer buckets appends exactly the offsets of the sweep by value |
| CreditService.CreditsService.SweepAll | internal/billing/credits.go:206-240 | failing orgs are passed over and the first is reported; an error-free pass leaves nothing due in any org |
| CreditService.PassLeavesNothingDue | internal/billing/credits.go:206-240 | after a pass, an org either was passed over or has no expired bucket with credit, whether the query selected it or not |
| CreditOrder.DeductWithin | internal/billing/credits_buckets.go:65-100 | with more buckets and more in each, the same spend leaves at least as much in each |
| CreditOrder.MoreGrants | internal/billing/credits.go:259-266 | grants that come to stand anywhere in `created_at` order leave every spend and offset covered and every other bucket with at least what it held |
| CreditOrder.CommitIsCovered | internal/billing/credits.go:259-284 | debits computed on a snapshot are covered in the ledger of their commit, with the grants committed meanwhile in their places |
| CreditOrder.CollidesExactly | internal/billing/credits.go:272-283 | the key of a due bucket's offset is in the ledger if and only if an earlier offset of that bucket no longer empties it |
| CreditOrder.HasOffsetExactly | internal/billing/credits.go:217-223 | a bucket with credit has an offset if and only if one of its offsets has been overtaken by a late grant |
| CreditOrder.PrefilterMissesExactly | internal/billing/credits.go:209-227 | with late grants the query skips an org with a due bucket if and only if some bucket is due, every due one has an overtaken offset, and every empty expired one has an offset |
| CreditOrder.OvertakenStays | internal/billing/credits_buckets.go:45-55 | an offset that no longer empties its bucket never does again, whatever grants commit |
| CreditOrder.GrantsBehind | internal/billing/credits_buckets.go:30-61 | grants that stand behind every spend change no other bucket at all |
| CreditPrefilter.GrantsAfter | internal/billing/credits_buckets.go:65-100 | grants that are drained after a bucket, wherever they stand, change neither it nor any bucket drained before it |
| CreditPrefilter.SkippedHasNothingDue | internal/billing/credits.go:209-227 | after the last sweep, whatever grants and spends have committed since, an org that the query skips has no due bucket |
| CreditPrefilter.PrefilterCompleteForward | internal/billing/credits.go:206-238 | the pre-filter is complete in every interleaving, late grants included, in which no sweep commits with an older time than one before it |
| CreditInterleaving.WriteOffset | internal/billing/credits.go:268-284 | each turn of the sweep's loop empties its bucket in the snapshot and keeps every row of snapshot and offsets covered |
| CreditInterleaving.CommitSweepIsGood | internal/billing/credits.go:251-287 | committing a sweep on a ledger that has seen grants since keeps every row covered and keys unique |
| CreditInterleaving.SweepCollidesExactly | internal/billing/credits.go:279-283 | a sweep's insert violates the index if and only if an earlier offset of the same bucket in its snapshot has been overtaken by a late grant; it never waits for another transaction |
| CreditInterleaving.NextKeepsInv | internal/billing/credits.go:84-287 | every step of every transaction keeps the invariant of ledger, lock, snapshots and pending rows |
| CreditInterleaving.RunKeepsInv | internal/billing/credits.go:84-287 | and so does every interleaving |
| CreditInterleaving.BalanceIsNeverNegative | internal/billing/credits.go:128-153 | in every interleaving, index or not, however late grants commit, the balance is not negative and equals what the buckets replayed in `created_at` order hold |
| CreditInterleaving.EveryRowIsCovered | internal/billing/credits_buckets.go:45-57 | in every interleaving no offset is clamped and no spend leaves a rest, in `created_at` order |
| CreditSerial.GrantAlone | internal/billing/credits.go:84-101 | the steps of one grant with none of another transaction between them end in the ledger of the serialised grant |
| CreditSerial.SpendAlone | internal/billing/credits.go:123-153 | the steps of one spend, likewise, refused or appended as the serialised spend |
| CreditSerial.SweepAlone | internal/billing/credits.go:251-287 | the steps of one sweep, likewise, commit and empty exactly the due buckets, if none of these has an overtaken offset or there is no index |
| CreditSweeps.CommitForfeits | internal/billing/credits.go:266-284 | in every interleaving the commit of a sweep takes from each bucket what the sweep saw in it when due, and nothing from any other |
| CreditSweeps.TimelySweepIsExact | internal/billing/credits.go:266-284 | without late grants the commit empties every bucket that was due in the snapshot and leaves every other as it was |
| CreditSweeps.StuckNeverCommits | internal/billing/credits.go:272-286 | with the index, a sweep that has an overtaken due bucket before it never commits, whatever else happens |
| CreditSweeps.OvertakenForever | internal/billing/credits_buckets.go:45-55 | an overtaken offset stays overtaken in every interleaving |
| CreditSweeps.NoSweepCompletes | internal/billing/credits.go:251-287 | so every later sweep that starts while the bucket is due is stuck as soon as it has loaded the ledger |
| CreditInterleaving.KeysAreWrittenOnce | internal/billing/credits.go:84-154 | with the index no key is written twice in any interleaving; without it two rows share a key only if one is a grant or the earlier is an overtaken offset |
| CreditInterleaving.RetriesWriteNothing | internal/billing/credits.go:103-121 | once a key is committed, no interleaving of retries from any process writes another row for it |
| CreditInterleaving.LedgerGrows | internal/billing/credits.go:55-56 | a committed row stays under every interleaving, and the ledger stays in `created_at` order |
| CreditTimeliness.RunIsTimely | internal/billing/credits.go:251-287 | as long as no grant commits behind a later debit, every offset in the ledger empties its bucket for good |
| CreditTimeliness.TimelyNeverCollides | internal/billing/credits.go:279-283 | and no sweep ever meets the unique index |
| CreditTimeliness.PrefilterCompleteInTime | internal/billing/credits.go:209-227 | and the pre-filter is complete, whatever the times of the sweeps |
| CreditKeys.ExclusiveKeysAreUnique | internal/billing/credits.go:88-93 | with or without the index, if nothing commits while another transaction is past its check of the same key, no key of a grant or spend is written twice |
| CreditWitnesses.PrefilterMisses | internal/billing/credits.go:207-227 | a run, from the empty ledger, after which the query skips an org with a due bucket |
| CreditWitnesses.LateGrantCollides | internal/billing/credits.go:259-284 | a run, from the empty ledger, after which a sweep violates the index because of a late grant |
| CreditWitnesses.GrantsRaceWithoutIndex | internal/billing/credits.go:88-93 | without the index two overlapping grants of one key are both written |
| RequestCounter.KeysAreDisjoint | internal/counter/counter.go:25-33 | no credential key is a token key, and each kind of key is injective |
| RequestCounter.Counter.Seed | internal/counter/counter.go:37-42 | a positive TTL makes the value readable before now + TTL and at no time after; without one it is readable for good; other keys read as before |
| RequestCounter.Counter.SeedToken | internal/counter/counter.go:49-53 | the value is readable for one minute longer than the TTL asked for |
| RequestCounter.Counter.Decrement | internal/counter/counter.go:60-89 | no key means no cap, a key at 0 or below means exhausted, and both change nothing; otherwise one is taken off and the deadline stays; no other key is touched |
| RequestCounter.Counter.Undo | internal/counter/counter.go:93-95 | one more on the key, which is created if missing; touches no other key |
| RequestCounter.Counter.DecrementThenUndo | internal/counter/counter.go:91-95 | the undo takes back a successful decrement, deadline included |
| RequestCounter.Counter.Read | internal/counter/counter.go:98-104 | positive exactly when a decrement would succeed, -1 when a decrement would find no cap |
| RequestCounter.Counter.Delete | internal/counter/counter.go:107-109 | only the key goes |
| RequestCounter.Counter.CheckAndRefillCredential | internal/counter/counter.go:120-167 | refills exactly when a refill is configured and due; then remaining is the refill amount, the last refill is now, the other columns stay, the key holds the amount, and no refill is due before a full interval has passed; otherwise nothing changes |
| RequestCounter.Counter.CheckAndRefillToken | internal/counter/counter.go:170-219 | the same for tokens; the reseeded key is readable until two minutes after the token's expiry, or after now if that is more than a minute past |
| RequestCounter.Counter.RefillDueExactly | internal/counter/counter.go:126-142 | a refill is due once the interval has passed since the last one, or since creation before the first; never without amount or interval |
| RequestCap.TakeFromToken | internal/middleware/remaining.go:26-52 | takes one from the token's counter as refreshed by a due refill, or reports no cap, exhausted, or no answer |
| RequestCap.TakeFromCredential | internal/middleware/remaining.go:54-84 | the same for the credential's counter |
| RequestCap.RemainingCheck | internal/middleware/remaining.go:26-92 | with Redis answering, a request passes exactly when neither counter is exhausted after its refill and takes one from each; one turned away takes nothing; a call that does not answer lets it pass and, if the undo answers, takes nothing from the token |
| CounterInterleaving.UpdateIsSpaced | internal/counter/counter.go:145-152 | an update that matches the optimistic lock comes at least one interval after the one before |
| CounterInterleaving.NextKeepsInv | internal/counter/counter.go:60-219 | every step of every instance keeps: wins are spaced, seeds and owed seeds are at most the wins, admissions are covered by the seeds |
| CounterInterleaving.RateBound | internal/counter/counter.go:60-219 | over every interleaving, net admissions are at most the initial value plus one refill per whole interval since creation, the counter is never negative, and no request passes uncapped |
| CounterRefinement.UndisturbedRefill | internal/counter/counter.go:120-167 | the steps of a refill with none of another instance between them write row and key exactly when the refill is due |
| CounterRefinement.Perform | internal/counter/counter.go:60-219 | each call on the counter object is a run of the step machine |
| CounterRefinement.PerformAll | internal/counter/counter.go:60-219 | so every sequence of calls on the object is one, and the rate bound holds of the object |
| CredentialCache.DekCacheIsTransparent | internal/cache/cache.go:205-246 | a success is what unwrap and decrypt give, the one exception being a pair that does not belong together; the cache hides no success and keeps no key that fails |
| CredentialCache.DekCacheExactly | internal/cache/cache.go:205-246 | the cached key is used first and without the KMS; else the unwrapped key, kept if it opens the ciphertext; else no key is left behind |
| CredentialCache.ColdLookupIsDirect | internal/cache/cache.go:90-201 | with empty tiers and no fault a lookup finds exactly what the unrevoked row of that org decrypts to |
| CredentialCache.MemoryAnswers | internal/cache/cache.go:92-107 | an unexpired entry of this org in memory that opens is the answer, and no tier changes |
| CredentialCache.RedisAnswers | internal/cache/cache.go:122-145 | when memory does not answer, an unexpired entry of this org in Redis that decrypts is the answer; memory gets it for the hard-expiry time and Redis stays |
| CredentialCache.DbAnswers | internal/cache/cache.go:151-201 | when neither does, the live row is the answer and fills every tier, with the times each tier keeps it |
| CredentialCache.LookupFailsExactly | internal/cache/cache.go:90-201 | for all tiers, a lookup fails if and only if none of the three answers; so with database and KMS up a live row that decrypts is always served |
| CredentialCache.FailedLookupExactly | internal/cache/cache.go:90-201 | a lookup that fails adds nothing to any tier, and takes away exactly what it found expired, unreadable or not decrypting |
| CredentialCache.LookupTouchesOneId | internal/cache/cache.go:90-201 | a lookup leaves the entries of every other credential alone |
| CredentialCache.MemoryCache.Get | internal/cache/memory.go:44-54 | no entry past its hard expiry is returned, and such an entry is removed |
| CredentialCache.RedisCache.Get | internal/cache/redis.go:37-51 | an entry once gone stays gone until the next write, and one found was there at every earlier time since its write |
| CredentialCache.RedisCache.Set | internal/cache/redis.go:54-60 | the entry is read back at every time before the full TTL has passed and at none after; other keys read as before |
| CredentialCache.Manager.GetDecryptedCredential | internal/cache/cache.go:90-117 | the calls through the three cache objects have the effect of the lookup by value: memory's answer is given with nothing changed, and with database and KMS up a live row that decrypts is served whatever the tiers hold |
| CredentialCache.Manager.ResolveFromLowerTiers | internal/cache/cache.go:120-148 | likewise for Redis first, then the database; a Redis hit fills memory and does not re-arm Redis |
| CredentialCache.Manager.ResolveFromDb | internal/cache/cache.go:151-201 | likewise for the database; every failure leaves all tiers alone |
| CredentialCache.Manager.DecryptWithDekCache | internal/cache/cache.go:205-246 | the branches over the data-key cache equal the function that `DekCacheIsTransparent` is about |
| CredentialCache.Manager.InvalidateCredential | internal/cache/cache.go:267-276 | the local tiers are always cleared; a Redis failure stops before the message |
| CacheCoherence.LookupKeepsFresh | internal/cache/cache.go:90-201 | what a lookup answers or stores was in the database within the time its tier allows |
| CacheCoherence.LookupStep | internal/cache/cache.go:90-201 | a lookup of an instance is one whole lookup on its own tiers and the shared Redis, and touches nothing else |
| CacheCoherence.OnlyLookupsFill | internal/cache/invalidation.go:68-98 | every step but a lookup only takes entries away, on every instance |
| CacheCoherence.RunKeepsFresh | internal/cache/cache.go:90-263 | every run keeps every tier of every instance fresh |
| CacheCoherence.StalenessBound | internal/cache/cache.go:120-263 | a credential served at t is what the row gave, for that org, at some moment not before t - (Redis TTL + hard expiry) |
| CacheCoherence.ReachableDekIsTransparent | internal/cache/cache.go:128-145 | in every reachable state, decrypting a Redis entry through the data-key cache gives what unwrap and decrypt give |
| CacheCoherence.RevokedLookupFillsNothing | internal/cache/cache.go:120-201 | a lookup of a revoked credential can fill memory and data keys only out of Redis, and fails if Redis and memory are clear |
| CacheCoherence.RunAchieves | internal/cache/cache.go:267-276 | no interleaving of lookups undoes a finished step of an invalidation |
| CacheCoherence.InvalidationAlone | internal/cache/cache.go:267-276 | the steps of one invalidation with none of another between them do what the method does, Redis failure included |
| CacheCoherence.DeliveryAlone | internal/cache/invalidation.go:68-98 | a message taken in clears the credential from the instance's memory and data keys and nothing else |
| CacheCoherence.DeliveryIsOrderly | internal/cache/invalidation.go:82-84 | a message is delivered only after it was published, to memory before the data keys |
| CacheCoherence.RevocationCoherence | internal/cache/cache.go:267-276 | once the message of an invalidation is delivered everywhere, no tier of any instance holds the revoked credential and every lookup fails, whatever ran in between |
| TokenRevocation.RunIsBacked | internal/handler/tokens_revoke.go:40-55 | since the handler writes the row first, sets, markers and revocations under way only ever name revoked tokens, and an instance that took in a message knows its token |
| TokenRevocation.CheckAgreesWithRows | internal/cache/token.go:27-64 | in every reachable state every instance answers what the row says, whatever Redis does; no answer only if the database is down and neither fast tier knows the token |
| TokenRevocation.DeliveredIsRefused | internal/cache/invalidation.go:85-88 | an instance that took in the message refuses the token even with Redis and the database down, whatever ran in between |
| TokenRevocation.RefusedEverywhere | internal/cache/token.go:12-64 | after delivery everywhere every instance refuses it; one that started later refuses it as soon as the database answers or Redis has its marker |
| TokenRevocation.MarkerRefuses | internal/cache/token.go:18-20 | once the marker is written, every instance that reaches Redis refuses the token with the database down, message or not, whatever runs, until the marker's TTL has passed |
| TokenRevocation.RevocationAlone | internal/handler/tokens_revoke.go:40-55 | the steps of one revocation with none of another between them: row, own set, marker with its deadline, message; a Redis failure ends it after the own set |
| TokenRevocation.DeliveryExactly | internal/cache/invalidation.go:85-88 | the message puts the token into the instance's set, and a restart forgets set and deliveries |
| TokenRevocation.Manager.IsTokenRevoked | internal/cache/token.go:27-64 | the three tiers in order; a positive answer is remembered locally, and one from the database marks the token in Redis for a day, during which every instance refuses it without the database |
| TokenRevocation.Manager.InvalidateToken | internal/cache/token.go:12-23 | the instance refuses the token from then on even if Redis fails; with Redis up every other one does until the TTL has passed, and not by the marker after that |
| SchemaClosure.LocalRefName | cmd/fetchactions-oas3/parse_response.go:87-90 | a local reference names its component, whatever the name, slashes included |
| SchemaClosure.LastSegmentOf | cmd/fetchactions-oas3/parse_response.go:91-92 | any other reference names its last path segment |
| SchemaClosure.OtherRefName | cmd/fetchactions-oas3/parse_response.go:91-92 | a reference without the prefix names its last path segment, or itself when it has no slash; an empty reference names nothing |
| SchemaClosure.PrefixesAsWritten | cmd/fetchactions-oas2/parse_response.go:80-83 | the two prefixes as documents write them, with a name that holds a slash |
| SchemaClosure.GeneratorsAgree | cmd/fetchactions-oas2/parse_response.go:72-86 | the two generators read the same name out of the two forms of a reference |
| SchemaClosure.PropertyExactly | cmd/fetchactions-oas3/parse_response.go:148-183 | the type is the first declared, else object for a reference, else string; the reference is kept for objects only; description and nullability are the schema's |
| SchemaClosure.ComponentExactly | cmd/fetchactions-oas3/parse_response.go:111-136 | the type is the first declared, else object; an array keeps its item's name and no properties, anything else its properties |
| SchemaClosure.PathIsStored | cmd/fetchactions-oas3/parse_response.go:97-143 | the end of every path of references from the root is stored |
| SchemaClosure.FlattenIsClosure | cmd/fetchactions-oas3/parse_response.go:97-143 | a call adds exactly the resolvable names reachable from its root, each with its own flat schema, and overwrites nothing |
| SchemaClosure.FlattenIsDeterministic | cmd/fetchactions-oas3/parse_response.go:138-142 | any two outcomes a call may have are equal, so the map's iteration order does not matter |
| SchemaClosure.FlattenKeepsClosed | cmd/fetchactions-oas3/parse_response.go:97-143 | a reference-closed map stays closed |
| SchemaClosure.FlattenReachesAll | cmd/fetchactions-oas3/parse_response.go:97-143 | on a closed map nothing reachable is left out, even through names that were stored before |
| SchemaClosure.LinkIsShorter | cmd/fetchactions-oas3/parse_response.go:120-128 | following an array's item shortens the chain, which is what ends the recursion before storing |
| SchemaClosure.ReturnsFlattens | cmd/fetchactions-oas3/parse_response.go:97-143 | every run of a call that returns, in any order of its loops, has done what the closure lemmas are about |
| SchemaClosure.ReturnsMeansEnd | cmd/fetchactions-oas3/parse_response.go:120-128 | whatever a returning call has stored, and the call itself, has a chain of array items that ends |
| SchemaClosure.EndMeansReturns | cmd/fetchactions-oas3/parse_response.go:97-143 | a call that can meet only chains that end returns |
| SchemaClosure.ReturnsExactly | cmd/fetchactions-oas3/parse_response.go:97-143 | a call returns if and only if every chain of array items it can meet, its own or one behind references, ends or runs into a name stored before the call |
| SchemaClosure.OneOutcome | cmd/fetchactions-oas3/parse_response.go:138-142 | all its returning runs end in the same map |
| SchemaClosure.ArrayOfItself | cmd/fetchactions-oas3/parse_response.go:98-128 | a component that is an array of itself: the call returns if and only if its name is stored already |
| SchemaClosure.Flattener.Flatten | cmd/fetchactions-oas2/parse_response.go:91-139 | terminates exactly where some run returns, for every order of its loops, and its effect is the one the closure lemmas are about |
| SchemaClosure.Flattener.StoreThenRecurse | cmd/fetchactions-oas3/parse_response.go:136-142 | nested calls in any order settle every reference of the stored schema |
| SchemaClosure.Flattener.PropertyLoop | cmd/fetchactions-oas3/parse_response.go:130-134 | the names are those of the properties, and of properties with one name the last is kept |
| SchemaClosure.Flattener.ExtractOne | cmd/fetchactions-oas3/parse_response.go:17-73 | a reference is named and flattened, an array of references is stored as its list over the flattened item, an inline object is stored under its name with its properties, and there is no answer exactly when the response is none of these; the map stays closed except for an inline response with references not stored yet |
| SchemaClosure.Flattener.Extract | cmd/fetchactions-oas2/parse_response.go:14-70 | the first response code that gives a schema decides, and if none does nothing is stored |
| SchemaClosure.ListKeepsClosed | cmd/fetchactions-oas3/parse_response.go:39-51 | the list wrapper refers to something stored |
| SchemaClosure.InlineClosedExactly | cmd/fetchactions-oas3/parse_response.go:54-72 | an inline response keeps the map closed exactly when every component it refers to is stored already |
| SchemaClosure.InlineReferenceDangles | cmd/fetchactions-oas2/parse_response.go:50-65 | a concrete inline response whose reference dangles |
| SeedReconciler.Find | internal/credentials/global_llm_seed_helpers.go:65-78 | the newest row managed under the id, and nothing only if there is none |
| SeedReconciler.TrimExactly | internal/credentials/global_llm_seed_helpers.go:21-26 | trimming takes off white space at both ends, all of it and nothing else |
| SeedReconciler.SpacesAre | internal/credentials/global_llm_seed_helpers.go:21-26 | white space is the 25 characters with that Unicode property |
| SeedReconciler.ProviderSchemesAre | internal/credentials/global_llm_seed.go:30-42 | the default auth scheme of each of the eleven providers, and no other provider |
| SeedReconciler.ValidateExactly | internal/credentials/global_llm_seed_helpers.go:20-63 | an entry is refused exactly for the listed defects; a valid one has its texts trimmed, its id for a missing title, its provider's scheme for a missing one, and everything else as written |
| SeedReconciler.SeedAnswersExactly | internal/credentials/global_llm_seed.go:140-229 | the state reported and the row written in each case; the stored secret is kept if it holds the same key |
| SeedReconciler.CountsAddUp | internal/credentials/global_llm_seed.go:104-125 | every spec of a pass is counted once, and the table grows by the rows counted as created |
| SeedReconciler.SeedSettles | internal/credentials/global_llm_seed.go:140-229 | seeding a spec leaves it with nothing to do, and leaves alone what every other id loads |
| SeedReconciler.SettledMeansNoChange | internal/credentials/global_llm_seed.go:151-222 | a settled spec reports "unchanged" or "skipped" and writes nothing |
| SeedReconciler.PassSettles | internal/credentials/global_llm_seed.go:104-125 | a pass that succeeds settles every spec that is compatible with the others for its row |
| SeedReconciler.SettledPassChangesNothing | internal/credentials/global_llm_seed.go:104-125 | a pass over settled specs changes no row and counts only unchanged and skipped |
| SeedReconciler.QuietPassMeansSettled | internal/credentials/global_llm_seed.go:104-125 | and a pass that counts nothing else found every spec settled |
| SeedReconciler.SettledTogether | internal/credentials/global_llm_seed.go:140-229 | two specs that are settled at once do not contradict each other |
| SeedReconciler.PruneEffect | internal/credentials/global_llm_seed_helpers.go:170-191 | the prune revokes exactly the active managed rows outside the manifest |
| SeedReconciler.PruneCounts | internal/credentials/global_llm_seed_helpers.go:170-191 | the count is the number of active managed rows whose id no spec has |
| SeedReconciler.SeedingCountsPruned | internal/credentials/global_llm_seed.go:126-132 | with prune, exactly those rows are revoked after the pass and counted on top of its count |
| SeedReconciler.PruneKeepsManifest | internal/credentials/global_llm_seed_helpers.go:180-183 | it does not touch what an id of the manifest loads |
| SeedReconciler.PruneIsIdempotent | internal/credentials/global_llm_seed_helpers.go:170-191 | a second prune revokes nothing |
| SeedReconciler.SeedSettlesManifest | internal/credentials/global_llm_seed.go:100-138 | after a whole seeding, pruned or not, every spec for which one pass is enough is settled |
| SeedReconciler.SecondSeedingChangesNothing | internal/credentials/global_llm_seed.go:100-138 | for a converging manifest an immediate second seeding succeeds, changes no row and reports only unchanged or skipped |
| SeedReconciler.ConvergesExactly | internal/credentials/global_llm_seed.go:104-132 | for every table and every manifest that passes its checks, the second seeding has nothing to do if and only if specs for one row are compatible and, with prune, each served row's id is in the manifest as the row carries it |
| SeedReconciler.BlankIdNeverSettles | internal/credentials/global_llm_seed_helpers.go:180-184 | the pruning manifest that serves " a" revokes the row it serves, and a second seeding is never quiet |
| SeedReconciler.TwinsSettleExactly | internal/credentials/global_llm_seed.go:104-108 | two specs "a" and " a" are both accepted, and settle if and only if they ask for the same |
| SeedReconciler.PruneRevokesServed | internal/credentials/global_llm_seed_helpers.go:180-184 | a served spec whose trimmed id is not in the manifest as written has its row revoked by the pass that served it |
| SeedReconciler.PruneLeavesOnlyManifest | internal/credentials/global_llm_seed_helpers.go:170-191 | with prune, every active managed row belongs to the manifest afterwards |
| SeedReconciler.EnabledSpecsAreServed | internal/credentials/global_llm_seed.go:140-229 | a spec for which one pass is enough loads an active row equal to it if enabled with a key, and none or a revoked one if disabled |
| SeedReconciler.ServedRowExactly | internal/credentials/global_llm_seed.go:140-229 | the row an enabled spec with a key has afterwards, column by column in terms of the manifest entry and the environment |
| SeedReconciler.ForeignRowsUntouched | internal/credentials/global_llm_seed.go:100-138 | rows of orgs, and rows no seeder manages, never change |
| SeedReconciler.Seeder.SeedSpec | internal/credentials/global_llm_seed.go:140-229 | an error leaves the table alone; otherwise the state reported and the table written are those the lemmas are about |
| SeedReconciler.Seeder.PruneRows | internal/credentials/global_llm_seed_helpers.go:170-191 | the loop over rows equals the prune by value |
| SeedReconciler.Seeder.Run | internal/credentials/global_llm_seed.go:100-138 | the loop with its set of seen ids equals the pass by value, and any error rolls the whole table back |
| SeedReconciler.PrefixFails | internal/credentials/global_llm_seed.go:104-112 | a spec that fails anywhere makes the whole pass fail |
| Utf8.EncodeDecode | cmd/employee-debug-pack/main.go:241-246 | writing a rune back gives the bytes it was read from, except that an ill-formed byte becomes U+FFFD |
| Utf8.SanitizedExactly | cmd/employee-debug-pack/main.go:241-246 | a range loop that copies its runes copies the string exactly when it is well-formed UTF-8 |
| Utf8.AsciiRune | cmd/fetchactions-graphql/sdl_parse.go:87-88 | an ASCII rune is an ASCII byte standing alone; no other rune hides one |
| Utf8.DecodeEncode | cmd/employee-debug-pack/main.go:241-246 | decoding undoes encoding of every scalar value, whatever follows |
| Utf8.WellFormedExactly | cmd/employee-debug-pack/main.go:241-246 | a sequence counts as well-formed if and only if it starts with the encoding of a scalar value, and that is what it decodes to |
| ShellWord.ShellQuote | cmd/employee-debug-pack/main.go:239-249 | the loop computes the quoted text |
| ShellWord.QuotedLiteral | cmd/employee-debug-pack/main.go:239-249 | the quoted text of a single quote, as written |
| ShellWord.SpecialBytes | cmd/employee-debug-pack/main.go:78-84 | the bytes that end or spoil a word outside quotes, as POSIX lists them, and the line joined by a backslash |
| ShellWord.EscapedQuote | cmd/employee-debug-pack/main.go:242-245 | closing, an escaped quote and reopening put one quote into the word |
| ShellWord.QuoteContinuesWord | cmd/employee-debug-pack/main.go:239-249 | in any context the quoted text continues the word it stands in and swallows nothing after it |
| ShellWord.QuoteIsOneWord | cmd/employee-debug-pack/main.go:239-249 | the quoted text of every NUL-free value lexes as exactly one word |
| ShellWord.RoundTripExactly | cmd/employee-debug-pack/main.go:239-249 | that word is the value if and only if the value is NUL-free, well-formed UTF-8 |
| ShellWord.IllFormedByteIsReplaced | cmd/employee-debug-pack/main.go:241-246 | the byte 0xFF arrives as the three bytes of U+FFFD |
| ShellWord.PartIsOneWord | cmd/employee-debug-pack/main.go:79 | plain text followed by a quoted value is one word |
| ShellWord.LineRoundTrip | cmd/employee-debug-pack/main.go:78-84 | any number of such parts joined by spaces lexes to exactly those words |
| ShellWord.RunCommandLiteral | cmd/employee-debug-pack/main.go:78-84 | the command line for four short values, as written |
| ShellWord.RunCommandWords | cmd/employee-debug-pack/main.go:78-84 | the assembled command line is five words, whatever the four values hold |
| ShellWord.RunCommandRoundTrip | cmd/employee-debug-pack/main.go:78-84 | each value arrives unchanged exactly when all four are well-formed UTF-8 |
| SdlScanner.BlockIsUnique | cmd/fetchactions-graphql/sdl_parse.go:84-102 | the description of the result admits one result |
| SdlScanner.ExtractBraceBlock | cmd/fetchactions-graphql/sdl_parse.go:84-102 | on every input no slice is out of range, and the result lies between the first return to depth 0 and the last brace that left it |
| SdlScanner.BlockRoundTrip | cmd/fetchactions-graphql/sdl_parse.go:83-102 | brace-free prefix, a balanced body in braces, any rest: the result is the body |
| SdlScanner.BlockExactly | cmd/fetchactions-graphql/sdl_parse.go:83-102 | with no brace before the first opening one, the result is that brace's block, or nothing exactly when it is never matched |
| SdlScanner.BlockLiteral | cmd/fetchactions-graphql/sdl_parse.go:84-102 | a text with a nested block and other brackets around it |
| SdlScanner.UnmatchedGivesNothing | cmd/fetchactions-graphql/sdl_parse.go:101 | an opening brace without its match gives nothing |
| SdlScanner.StrayBraceLosesBlock | cmd/fetchactions-graphql/sdl_parse.go:94-98 | a closing brace in front makes the scan miss a block |
| SdlScanner.FirstBlockFoundExactly | cmd/fetchactions-graphql/sdl_parse.go:83-102 | the first block is found, for every body and rest, if and only if no closing brace stands before it |
| SdlScanner.SplitArgs | cmd/fetchactions-graphql/sdl_args.go:62-81 | the loop cuts at the commas where a fresh scan since the last cut stands at depth 0 |
| SdlScanner.JoinOfSplit | cmd/fetchactions-graphql/sdl_args.go:62-81 | joining the parts with commas gives back the text, for every text |
| SdlScanner.SplitIsClean | cmd/fetchactions-graphql/sdl_args.go:61-81 | no part has a comma at depth 0 left in it, and every cut is at depth 0 |
| SdlScanner.SplitOfJoin | cmd/fetchactions-graphql/sdl_args.go:61-81 | joined parts are split back into themselves if and only if they are clean in that sense |
| SdlScanner.SplitLiteral | cmd/fetchactions-graphql/sdl_args.go:62-81 | a text with commas in and between parentheses, square brackets and braces |

## Left out

- CreditLedger.ReachableIsSound: integers are unbounded, so the overflow of an int64 sum is not modelled.
- CreditLedger.PrefilterIsComplete: for serialised runs; the interleaved ones are `PrefilterCompleteForward`, `PrefilterCompleteInTime` and `PrefilterMissesExactly`.
- CreditService.CreditsService.SweepAll: the order in which the query returns the orgs is arbitrary, and a failing transaction is an input that changes nothing.
- CreditService.CreditsService.SweepOrg: an insert that collides is passed over as the source intends, where Postgres would abort; on sound ledgers none collides.
- CreditInterleaving.RunKeepsInv: stamps that are equal or out of order between instances, as clocks that differ could give them, are not modelled.
- CounterInterleaving.RateBound: for a token the bound is stated up to one minute after its expiry, the time for which its key is kept.
- CounterInterleaving.NextKeepsInv: an undo is taken to match some earlier success by count, not by request.
- CredentialCache.Manager.GetDecryptedCredential: sharing of one result among concurrent callers, and the zeroing of key buffers, are not modelled.
- CacheCoherence.RevocationCoherence: a lookup whose tier reads interleave with an invalidation is not modelled; each lookup is one step.
- TokenRevocation.RunIsBacked: nothing clears `revoked_at` of a token, in the model as in the code; a pub/sub message lost without a restart is one that is never delivered.
- SchemaClosure.Flattener.Flatten: its requires is the exact condition under which the source returns (`ReturnsExactly`), since a Dafny method must terminate.
- SchemaClosure.Flattener.Extract: what each response code resolves to and the name for inline schemas are inputs.
- RequestCap.RemainingCheck: Redis is taken to answer during a refill, and the two counters of one request are not interleaved with other requests.
- SeedReconciler.Seeder.SeedSpec: URL and duration parsing are verdicts of the environment; the counter reseed and the cache invalidation after a write are left out.
- ShellWord.RunCommandRoundTrip: the shell's assignments and the script itself are not modelled, only how the line splits into words; double quotes and expansions do not occur in it.
- SdlScanner.SplitArgs: the trimming and parsing of each part by regular expressions is left out.
- LRU eviction is a step that drops an entry; nothing else about it is modelled.
- GORM, Postgres and Redis drivers, JSON, JWT, AES-GCM, the KMS client and locked memory.
- Float pricing, the API-key cache, HTTP handlers, server and worker start-up, the web app.
- The regular expressions, naming and file writing of the API generators.
