/** One request counter shared by any number of instances, every Redis and database action a step of
    its own: the rate bound. */
module CounterInterleaving {
  import opened Options
  import opened RequestCounter

  type Pid = nat

  /** A credential counter, or a token counter with the token's expiry. */
  datatype Config = Config(createdAt: int, amount: int, interval: int, initial: int, expiresAt: Option<int>)

  /** How far an instance is with a refill. */
  datatype Phase =
    | Idle
    | Loaded(lastRead: int)
    | Due(lastRead: int, now: int)
    | Won
    | Timed(ttl: int)

  /** `admitted` counts successful decrements less undos, `wins` the updates that changed the row,
      `seeds` the reseeds after them, `uncapped` the decrements that found no key. */
  datatype State = State(cfg: Config, clock: int, last: Option<int>, cell: Option<Cell>, procs: map<Pid, Phase>,
                         admitted: int, wins: nat, seeds: nat, uncapped: nat)

  datatype Event =
    | Tick(duration: nat)
    | Decrement
    | Undo
    | LoadRow(p: Pid)
    | ReadClock(p: Pid)
    | UpdateRow(p: Pid)
    | ReadTtl(p: Pid)
    | Reseed(p: Pid)
    | Crash(p: Pid)

  function PhaseOf(s: State, p: Pid): Phase {
    if p in s.procs then s.procs[p] else Idle
  }

  function Enter(s: State, p: Pid, phase: Phase): State {
    s.(procs := s.procs[p := phase])
  }

  function Next(s: State, ev: Event): State {
    match ev
    case Tick(duration) => s.(clock := s.clock + duration)
    case Decrement =>
      var (result, cell) := DecrementCell(Visible(s.cell, s.clock));
      s.(cell := cell,
         admitted := if result.DecrOK? then s.admitted + 1 else s.admitted,
         uncapped := if result.DecrNoCap? then s.uncapped + 1 else s.uncapped)
    case Undo =>
      // an undo takes back one decrement that succeeded
      if s.admitted <= 0 then s
      else s.(cell := IncrementCell(Visible(s.cell, s.clock)), admitted := s.admitted - 1)
    case LoadRow(p) =>
      if PhaseOf(s, p).Idle? then Enter(s, p, Loaded(LastRefill(s.cfg.createdAt, s.last))) else s
    case ReadClock(p) =>
      var phase := PhaseOf(s, p);
      if !phase.Loaded? then s
      else if IsDue(s.clock, phase.lastRead, s.cfg.interval) then Enter(s, p, Due(phase.lastRead, s.clock))
      else Enter(s, p, Idle)
    case UpdateRow(p) =>
      var phase := PhaseOf(s, p);
      if !phase.Due? then s
      else if UpdateMatches(s.cfg.createdAt, s.last, phase.lastRead) then
        Enter(s, p, Won).(last := Some(phase.now), wins := s.wins + 1)
      else Enter(s, p, Idle)
    case ReadTtl(p) =>
      if !PhaseOf(s, p).Won? then s
      else Enter(s, p, Timed(if s.cfg.expiresAt.Some? then TokenTtl(s.cfg.expiresAt.value, s.clock) + MINUTE else 0))
    case Reseed(p) =>
      var phase := PhaseOf(s, p);
      if !phase.Timed? then s
      else Enter(s, p, Idle).(cell := Some(SeedCell(s.cfg.amount, phase.ttl, s.clock)), seeds := s.seeds + 1)
    case Crash(p) => Enter(s, p, Idle)
  }

  function Run(s: State, evs: seq<Event>): State {
    if evs == [] then s else Next(Run(s, evs[..|evs| - 1]), evs[|evs| - 1])
  }

  /** The counter has been seeded; a token's key outlives the token by a minute. */
  predicate Init(s: State) {
    && s.cfg.amount >= 0 && s.cfg.initial >= 0 && s.cfg.interval > 0
    && s.cfg.createdAt <= s.clock
    && s.last == None && s.procs == map[]
    && s.admitted == 0 && s.wins == 0 && s.seeds == 0 && s.uncapped == 0
    && s.cell == Some(Cell(s.cfg.initial,
                           if s.cfg.expiresAt.Some? then Some(s.cfg.expiresAt.value + MINUTE) else None))
  }

  /** A counter as it is seeded when its row is created, at any later time before anything has happened. */
  lemma {:induction false} SeededIsInit(cfg: Config, clock: int)
    requires cfg.amount >= 0 && cfg.initial >= 0 && cfg.interval > 0 && cfg.createdAt <= clock
    ensures var deadline := if cfg.expiresAt.Some? then Some(cfg.expiresAt.value + 60) else None;
            Init(State(cfg, clock, None, Some(Cell(cfg.initial, deadline)), map[], 0, 0, 0, 0))
  {
  }

  /** A decrement counts as admitted when it succeeds, and as uncapped when it finds no key. */
  lemma {:induction false} DecrementCounts(s: State)
    ensures var cell, after := Visible(s.cell, s.clock), Next(s, Decrement);
            && after.uncapped == (if cell.None? then s.uncapped + 1 else s.uncapped)
            && after.admitted == (if cell.Some? && cell.value.value > 0 then s.admitted + 1 else s.admitted)
  {
  }

  /** The time for which the cap is promised: always for a credential, up to its expiry and a minute
      beyond for a token. */
  predicate InLifetime(s: State) {
    s.cfg.expiresAt.Some? ==> s.clock < s.cfg.expiresAt.value + MINUTE
  }

  function Owing(procs: map<Pid, Phase>): set<Pid> {
    set p | p in procs && (procs[p].Won? || procs[p].Timed?)
  }

  predicate Outlives(cfg: Config, deadline: Option<int>) {
    deadline.None? || (cfg.expiresAt.Some? && cfg.expiresAt.value + MINUTE <= deadline.value)
  }

  predicate PhaseOk(s: State, phase: Phase) {
    match phase
    case Due(lastRead, now) => lastRead + s.cfg.interval <= now <= s.clock
    case Timed(ttl) => Outlives(s.cfg, SeedCell(0, ttl, s.clock).deadline)
    case _ => true
  }

  /** Every successful update moved the row's time on by at least one interval. */
  predicate Spaced(s: State) {
    if s.last.None? then s.wins == 0
    else s.cfg.createdAt + s.wins * s.cfg.interval <= s.last.value <= s.clock
  }

  /** What has been admitted and what is still in the counter is covered by the seeds. */
  predicate Covered(s: State) {
    && s.cell.Some? && s.cell.value.value >= 0 && Outlives(s.cfg, s.cell.value.deadline)
    && s.admitted + s.cell.value.value <= s.cfg.initial + s.cfg.amount * s.seeds
    && s.uncapped == 0
  }

  ghost predicate Inv(s: State) {
    && s.cfg.amount >= 0 && s.cfg.interval > 0 && s.cfg.createdAt <= s.clock
    && Spaced(s)
    && s.seeds + |Owing(s.procs)| <= s.wins
    && (forall p :: p in s.procs ==> PhaseOk(s, s.procs[p]))
    && (InLifetime(s) ==> Covered(s))
  }

  lemma {:induction false} InitInv(s: State)
    requires Init(s)
    ensures Inv(s)
  {
    assert Owing(s.procs) == {};
  }

  lemma {:induction false} OwingSet(procs: map<Pid, Phase>, p: Pid, phase: Phase)
    ensures Owing(procs[p := phase]) == if phase.Won? || phase.Timed? then Owing(procs) + {p} else Owing(procs) - {p}
  {
  }

  lemma {:induction false} Cardinality(s: set<Pid>, p: Pid)
    ensures |s + {p}| == if p in s then |s| else |s| + 1
    ensures |s - {p}| == if p in s then |s| - 1 else |s|
  {
    if p in s {
      assert s + {p} == s;
    } else {
      assert s - {p} == s;
    }
  }

  /** Entering a phase adds to the instances that owe a reseed, or takes one from them. */
  lemma {:induction false} OwingAfter(procs: map<Pid, Phase>, p: Pid, phase: Phase)
    ensures phase.Won? || phase.Timed? ==> |Owing(procs[p := phase])| <= |Owing(procs)| + 1
    ensures !(phase.Won? || phase.Timed?) ==> |Owing(procs[p := phase])| <= |Owing(procs)|
    ensures p in Owing(procs) && (phase.Won? || phase.Timed?) ==> |Owing(procs[p := phase])| == |Owing(procs)|
    ensures p in Owing(procs) && !(phase.Won? || phase.Timed?) ==> |Owing(procs[p := phase])| == |Owing(procs)| - 1
  {
    hide Owing;
    OwingSet(procs, p, phase);
    Cardinality(Owing(procs), p);
  }

  lemma {:induction false} OneMore(n: int, unit: int)
    ensures (n + 1) * unit == n * unit + unit
  {
  }

  /** The optimistic lock: a matching update comes at least one interval after the one before it. */
  lemma {:induction false} UpdateIsSpaced(s: State, lastRead: int, now: int)
    requires Spaced(s) && UpdateMatches(s.cfg.createdAt, s.last, lastRead)
    requires lastRead + s.cfg.interval <= now <= s.clock
    ensures s.cfg.createdAt + (s.wins + 1) * s.cfg.interval <= now
  {
    OneMore(s.wins, s.cfg.interval);
  }

  lemma {:induction false} UpdateRowKeepsInv(s: State, p: Pid)
    requires Inv(s)
    ensures Inv(Next(s, UpdateRow(p)))
  {
    var phase := PhaseOf(s, p);
    if phase.Due? {
      OwingAfter(s.procs, p, Won);
      OwingAfter(s.procs, p, Idle);
      if UpdateMatches(s.cfg.createdAt, s.last, phase.lastRead) {
        UpdateIsSpaced(s, phase.lastRead, phase.now);
      }
    }
  }

  lemma {:induction false} NextKeepsInv(s: State, ev: Event)
    requires Inv(s)
    ensures Inv(Next(s, ev))
  {
    match ev
    case Tick(duration) =>
    case Decrement =>
    case Undo =>
    case LoadRow(p) => OwingAfter(s.procs, p, Loaded(LastRefill(s.cfg.createdAt, s.last)));
    case ReadClock(p) =>
      if PhaseOf(s, p).Loaded? {
        OwingAfter(s.procs, p, Idle);
        OwingAfter(s.procs, p, Due(PhaseOf(s, p).lastRead, s.clock));
      }
    case UpdateRow(p) => UpdateRowKeepsInv(s, p);
    case ReadTtl(p) => OwingAfter(s.procs, p, PhaseOf(Next(s, ev), p));
    case Reseed(p) =>
      if PhaseOf(s, p).Timed? {
        OwingAfter(s.procs, p, Idle);
        OneMore(s.seeds, s.cfg.amount);
      }
    case Crash(p) => OwingAfter(s.procs, p, Idle);
  }

  lemma {:induction false} RunKeepsInv(s: State, evs: seq<Event>)
    requires Inv(s)
    ensures Inv(Run(s, evs)) && Run(s, evs).cfg == s.cfg
  {
    if evs != [] {
      RunKeepsInv(s, evs[..|evs| - 1]);
      NextKeepsInv(Run(s, evs[..|evs| - 1]), evs[|evs| - 1]);
    }
  }

  lemma {:induction false} Cancel(a: int, b: int, unit: int)
    requires unit > 0 && a * unit < b * unit
    ensures a < b
  {
  }

  lemma {:induction false} MultipliedThrough(n: int, unit: int, total: int)
    requires unit > 0 && n * unit <= total
    ensures n <= total / unit
  {
    OneMore(total / unit, unit);
    Cancel(n, total / unit + 1, unit);
  }

  lemma {:induction false} Scaled(a: int, b: int, factor: int)
    requires a <= b && factor >= 0
    ensures factor * a <= factor * b
  {
  }

  /** The rate bound.  Over every interleaving of decrements, matched undos and multi-step refills by
      any number of instances, what has been admitted by now is at most the initial value plus one
      refill for every whole interval since creation; the counter is never negative and no request
      slips through uncapped. */
  lemma {:induction false} RateBound(init: State, evs: seq<Event>)
    requires Init(init) && InLifetime(Run(init, evs))
    ensures var s := Run(init, evs);
            && s.admitted <= init.cfg.initial + init.cfg.amount * ((s.clock - init.cfg.createdAt) / init.cfg.interval)
            && Visible(s.cell, s.clock).Some? && s.cell.value.value >= 0
            && s.uncapped == 0
  {
    hide Run, Next;
    InitInv(init);
    RunKeepsInv(init, evs);
    var s := Run(init, evs);
    MultipliedThrough(s.wins, s.cfg.interval, s.clock - s.cfg.createdAt);
    Scaled(s.seeds, (s.clock - s.cfg.createdAt) / s.cfg.interval, s.cfg.amount);
  }
}
