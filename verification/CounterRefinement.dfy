/** The counter object refines the step machine: every sequence of calls on the object is a run of the
    machine, so the rate bound holds of the object. */
module CounterRefinement {
  import opened Options
  import opened RequestCounter
  import opened CounterInterleaving

  datatype Kind = Credential | Token

  datatype Call = Take | GiveBack | CheckAndRefill | Wait(duration: nat)

  function KeyOf(kind: Kind, id: string): string {
    if kind.Credential? then CredKey(id) else TokKey(id)
  }

  function RowsOf(c: Counter, kind: Kind): map<string, Row>
    reads c
  {
    if kind.Credential? then c.credentials else c.tokens
  }

  /** A row with a refill and the machine's state agree on the refill's terms and on when it last happened. */
  predicate RowShown(row: Row, kind: Kind, s: State) {
    && row.refillAmount == Some(s.cfg.amount) && row.refillInterval == Every(s.cfg.interval)
    && s.cfg.expiresAt == (if kind.Token? then Some(row.expiresAt) else None)
    && s.cfg.createdAt == row.createdAt && s.last == row.lastRefillAt
  }

  /** The machine's state is what the object holds for this id. */
  predicate Shows(c: Counter, kind: Kind, id: string, s: State)
    reads c
  {
    && id in RowsOf(c, kind) && RowShown(RowsOf(c, kind)[id], kind, s)
    && s.clock == c.clock
    && Visible(s.cell, s.clock) == c.Lookup(KeyOf(kind, id))
  }

  predicate AllIdle(s: State) {
    forall p :: p in s.procs ==> s.procs[p].Idle?
  }

  function RefillSteps(p: Pid): seq<Event> {
    [LoadRow(p), ReadClock(p), UpdateRow(p), ReadTtl(p), Reseed(p)]
  }

  lemma {:induction false} RunAppend(s: State, evs: seq<Event>, ev: Event)
    ensures Run(s, evs + [ev]) == Next(Run(s, evs), ev)
  {
    assert (evs + [ev])[..|evs|] == evs;
  }

  lemma {:induction false} RunConcat(s: State, evs: seq<Event>, more: seq<Event>)
    ensures Run(s, evs + more) == Run(Run(s, evs), more)
  {
    hide Next;
    if more == [] {
      assert evs + more == evs;
    } else {
      var n := |more| - 1;
      assert evs + more == (evs + more[..n]) + [more[n]];
      RunAppend(s, evs + more[..n], more[n]);
      RunConcat(s, evs, more[..n]);
    }
  }

  lemma {:induction false} RunFive(s: State, p: Pid)
    ensures Run(s, RefillSteps(p)) ==
      Next(Next(Next(Next(Next(s, LoadRow(p)), ReadClock(p)), UpdateRow(p)), ReadTtl(p)), Reseed(p))
  {
    hide Next, Run;
    var evs := RefillSteps(p);
    assert [] + [LoadRow(p)] == evs[..1] && evs[..1] + [ReadClock(p)] == evs[..2];
    assert evs[..2] + [UpdateRow(p)] == evs[..3] && evs[..3] + [ReadTtl(p)] == evs[..4];
    assert evs[..4] + [Reseed(p)] == evs;
    RunAppend(s, [], LoadRow(p));
    RunAppend(s, evs[..1], ReadClock(p));
    RunAppend(s, evs[..2], UpdateRow(p));
    RunAppend(s, evs[..3], ReadTtl(p));
    RunAppend(s, evs[..4], Reseed(p));
    RunNothing(s);
  }

  lemma {:induction false} RunNothing(s: State)
    ensures Run(s, []) == s
  {
  }

  /** The steps of a refill with nothing between them: the row is written and the key seeded exactly
      when the refill is due. */
  lemma {:induction false} UndisturbedRefill(s: State, p: Pid)
    requires AllIdle(s)
    ensures var after, ttl := Run(s, RefillSteps(p)),
                              if s.cfg.expiresAt.Some? then TokenTtl(s.cfg.expiresAt.value, s.clock) + MINUTE else 0;
            && AllIdle(after)
            && after.(procs := s.procs) ==
               if IsDue(s.clock, LastRefill(s.cfg.createdAt, s.last), s.cfg.interval) then
                 s.(last := Some(s.clock), cell := Some(SeedCell(s.cfg.amount, ttl, s.clock)),
                    wins := s.wins + 1, seeds := s.seeds + 1)
               else s
  {
    RunFive(s, p);
  }

  /** Time passes: what is no longer visible stays so, and what is visible has the same deadline. */
  lemma {:induction false} VisibleLater(a: Option<Cell>, b: Option<Cell>, now: int, later: int)
    requires Visible(a, now) == Visible(b, now) && now <= later
    ensures Visible(a, later) == Visible(b, later)
  {
  }

  function Steps(call: Call): seq<Event> {
    match call
    case Take => [Decrement]
    case GiveBack => [Undo]
    case CheckAndRefill => RefillSteps(0)
    case Wait(duration) => [Tick(duration)]
  }

  function History(calls: seq<Call>): seq<Event> {
    if calls == [] then [] else History(calls[..|calls| - 1]) + Steps(calls[|calls| - 1])
  }

  lemma {:induction false} RunOne(s: State, ev: Event)
    ensures Run(s, [ev]) == Next(s, ev)
  {
    assert [ev][..0] == [];
  }

  /** One call on the object takes it from what the machine's state shows to what the state after the
      call's steps shows.  A request is given back only if it was admitted. */
  method Perform(c: Counter, kind: Kind, id: string, call: Call, owed: int, ghost s: State) returns (admitted: int)
    requires Shows(c, kind, id, s) && AllIdle(s) && s.admitted == owed
    modifies c
    ensures Shows(c, kind, id, Run(s, Steps(call))) && AllIdle(Run(s, Steps(call)))
    ensures admitted == Run(s, Steps(call)).admitted
    ensures c.clock == old(c.clock) + if call.Wait? then call.duration else 0
  {
    hide Run;
    admitted := owed;
    var key := KeyOf(kind, id);
    match call
    case Take =>
      RunOne(s, Decrement);
      var result := c.Decrement(key);
      if result.DecrOK? {
        admitted := owed + 1;
      }
    case GiveBack =>
      RunOne(s, Undo);
      if owed > 0 {
        c.Undo(key);
        admitted := owed - 1;
      }
    case CheckAndRefill =>
      UndisturbedRefill(s, 0);
      var outcome := NotRefilled;
      if kind.Credential? {
        outcome := c.CheckAndRefillCredential(id);
      } else {
        outcome := c.CheckAndRefillToken(id);
      }
    case Wait(duration) =>
      RunOne(s, Tick(duration));
      ghost var stored := if key in c.redis then Some(c.redis[key]) else None;
      VisibleLater(s.cell, stored, c.clock, c.clock + duration);
      c.clock := c.clock + duration;
  }

  /** Any calls on the object, in any order: it ends where the machine's run ends.  So what it has
      admitted, less what was given back, is at most the initial value and one refill for every whole
      interval since creation. */
  method PerformAll(c: Counter, kind: Kind, id: string, calls: seq<Call>, ghost init: State) returns (admitted: int)
    requires Init(init) && Shows(c, kind, id, init)
    modifies c
    ensures Shows(c, kind, id, Run(init, History(calls))) && admitted == Run(init, History(calls)).admitted
    ensures kind.Credential? || c.clock < init.cfg.expiresAt.value + MINUTE ==>
      && admitted <= init.cfg.initial + init.cfg.amount * ((c.clock - init.cfg.createdAt) / init.cfg.interval)
      && c.Lookup(KeyOf(kind, id)).Some? && c.Lookup(KeyOf(kind, id)).value.value >= 0
  {
    hide Run, Next, Steps;
    admitted := 0;
    RunNothing(init);
    for i := 0 to |calls|
      invariant var s := Run(init, History(calls[..i]));
                Shows(c, kind, id, s) && AllIdle(s) && s.admitted == admitted
    {
      assert calls[..i + 1][..i] == calls[..i];
      RunConcat(init, History(calls[..i]), Steps(calls[i]));
      admitted := Perform(c, kind, id, calls[i], admitted, Run(init, History(calls[..i])));
    }
    assert calls[..|calls|] == calls;
    InitInv(init);
    RunKeepsInv(init, History(calls));
    if InLifetime(Run(init, History(calls))) {
      RateBound(init, History(calls));
    }
  }
}
