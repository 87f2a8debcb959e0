/** Token revocation across the instance's own set, Redis and the database: the two fast tiers never
    change the answer the database alone would give. */
module TokenRevocation {
  import opened Options

  type Jti = string
  type Iid = nat
  type Pid = nat

  const DAY: int := 24 * 60 * 60

  datatype Phase = RowWritten | SetAdded | RedisMarked | Published | Aborted

  /** One revocation by the handler: its row is written before InvalidateToken starts. */
  datatype Revocation = Revocation(at: Iid, jti: Jti, phase: Phase)

  /** Revoked ids per instance, Redis markers with their deadline if any, revoked rows, the revocations
      under way, and which instances have taken in which message since they last started. */
  datatype World = World(clock: int, sets: map<Iid, set<Jti>>, markers: map<Jti, Option<int>>, rows: set<Jti>,
                         calls: map<Pid, Revocation>, delivered: set<(Iid, Pid)>)

  datatype Answer = Revoked | NotRevoked | DbError

  function SetAt(w: World, i: Iid): set<Jti> {
    if i in w.sets then w.sets[i] else {}
  }

  predicate Marked(w: World, jti: Jti) {
    jti in w.markers && (w.markers[jti].None? || w.clock < w.markers[jti].value)
  }

  function AddTo(w: World, i: Iid, jti: Jti): World {
    w.(sets := w.sets[i := SetAt(w, i) + {jti}])
  }

  /** A marker without a positive TTL never expires. */
  function Mark(w: World, jti: Jti, ttl: int): World {
    w.(markers := w.markers[jti := if ttl > 0 then Some(w.clock + ttl) else None])
  }

  function Check(w: World, i: Iid, jti: Jti, redisUp: bool, dbUp: bool): (Answer, World) {
    if jti in SetAt(w, i) then (Revoked, w)
    else if redisUp && Marked(w, jti) then (Revoked, AddTo(w, i, jti))
    else if !dbUp then (DbError, w)
    else if jti in w.rows then (Revoked, AddTo(if redisUp then Mark(w, jti, DAY) else w, i, jti))
    else (NotRevoked, w)
  }

  /** RevokeRow stands for every other writer of revoked_at; nothing ever clears it.  The steps of a
      revocation are those of InvalidateToken, a Redis failure ending it; messages go to instances that
      are listening, and a restart empties an instance's set. */
  datatype Event =
    | Tick(duration: nat)
    | RevokeRow(jti: Jti)
    | Revoke(p: Pid, i: Iid, jti: Jti)
    | AddLocally(p: Pid)
    | MarkInRedis(p: Pid, ttl: int, redisUp: bool)
    | Publish(p: Pid)
    | Deliver(i: Iid, p: Pid)
    | CheckAt(i: Iid, jti: Jti, redisUp: bool, dbUp: bool)
    | Restart(i: Iid)

  predicate IsAt(w: World, p: Pid, phase: Phase) {
    p in w.calls && w.calls[p].phase == phase
  }

  function Advance(w: World, p: Pid, phase: Phase): World
    requires p in w.calls
  {
    w.(calls := w.calls[p := w.calls[p].(phase := phase)])
  }

  function Next(w: World, ev: Event): World {
    match ev
    case Tick(duration) => w.(clock := w.clock + duration)
    case RevokeRow(jti) => w.(rows := w.rows + {jti})
    case Revoke(p, i, jti) =>
      // the handler's UPDATE touches only a row that is not revoked yet
      if p in w.calls || jti in w.rows then w
      else w.(rows := w.rows + {jti}, calls := w.calls[p := Revocation(i, jti, RowWritten)])
    case AddLocally(p) =>
      if IsAt(w, p, RowWritten) then Advance(AddTo(w, w.calls[p].at, w.calls[p].jti), p, SetAdded) else w
    case MarkInRedis(p, ttl, redisUp) =>
      if !IsAt(w, p, SetAdded) then w
      else if redisUp then Advance(Mark(w, w.calls[p].jti, ttl), p, RedisMarked)
      else Advance(w, p, Aborted)
    case Publish(p) => if IsAt(w, p, RedisMarked) then Advance(w, p, Published) else w
    case Deliver(i, p) =>
      if IsAt(w, p, Published) then AddTo(w, i, w.calls[p].jti).(delivered := w.delivered + {(i, p)}) else w
    case CheckAt(i, jti, redisUp, dbUp) => Check(w, i, jti, redisUp, dbUp).1
    case Restart(i) =>
      w.(sets := w.sets[i := {}], delivered := set d | d in w.delivered && d.0 != i)
  }

  function Run(w: World, evs: seq<Event>): World {
    if evs == [] then w else Next(Run(w, evs[..|evs| - 1]), evs[|evs| - 1])
  }

  predicate Init(w: World) {
    w.sets == map[] && w.markers == map[] && w.rows == {} && w.calls == map[] && w.delivered == {}
  }

  /** The fast tiers only know tokens whose row is revoked, and so do the revocations under way; an
      instance that has taken in a message knows its token. */
  predicate Backed(w: World) {
    && w.markers.Keys <= w.rows
    && (forall i :: i in w.sets ==> w.sets[i] <= w.rows)
    && (forall p :: p in w.calls ==> w.calls[p].jti in w.rows)
    && (forall d :: d in w.delivered ==> d.1 in w.calls && w.calls[d.1].jti in SetAt(w, d.0))
  }

  lemma {:induction false} AddKeepsBacked(w: World, i: Iid, jti: Jti)
    requires Backed(w) && jti in w.rows
    ensures Backed(AddTo(w, i, jti))
  {
    var w' := AddTo(w, i, jti);
    forall d | d in w'.delivered
      ensures w'.calls[d.1].jti in SetAt(w', d.0)
    {
      assert w.calls[d.1].jti in SetAt(w, d.0);
    }
  }

  lemma {:induction false} CheckKeepsBacked(w: World, i: Iid, jti: Jti, redisUp: bool, dbUp: bool)
    requires Backed(w)
    ensures Backed(Check(w, i, jti, redisUp, dbUp).1)
  {
    hide AddTo, Backed;
    MarkKeepsBacked(w, jti, DAY);
    if jti in w.rows {
      AddKeepsBacked(w, i, jti);
      AddKeepsBacked(Mark(w, jti, DAY), i, jti);
    } else {
      MarkedIsRevoked(w, jti);
    }
  }

  lemma {:induction false} MarkKeepsBacked(w: World, jti: Jti, ttl: int)
    requires Backed(w)
    ensures jti in w.rows ==> Backed(Mark(w, jti, ttl))
  {
  }

  lemma {:induction false} MarkedIsRevoked(w: World, jti: Jti)
    requires Backed(w)
    ensures Marked(w, jti) ==> jti in w.rows
    ensures forall i :: jti in SetAt(w, i) ==> jti in w.rows
  {
  }

  lemma {:induction false} AdvanceKeepsBacked(w: World, p: Pid, phase: Phase)
    requires Backed(w) && p in w.calls
    ensures Backed(Advance(w, p, phase)) && w.calls[p].jti in w.rows
  {
  }

  lemma {:induction false} NextIsBacked(w: World, ev: Event)
    requires Backed(w)
    ensures Backed(Next(w, ev))
  {
    hide AddTo, Check, Mark, Advance;
    match ev
    case AddLocally(p) =>
      if IsAt(w, p, RowWritten) {
        AddKeepsBacked(w, w.calls[p].at, w.calls[p].jti);
        AddKeepsCalls(w, w.calls[p].at, w.calls[p].jti);
        AdvanceKeepsBacked(AddTo(w, w.calls[p].at, w.calls[p].jti), p, SetAdded);
      }
    case MarkInRedis(p, ttl, redisUp) =>
      if IsAt(w, p, SetAdded) {
        MarkKeepsBacked(w, w.calls[p].jti, ttl);
        MarkKeepsCalls(w, w.calls[p].jti, ttl);
        AdvanceKeepsBacked(w, p, Aborted);
        AdvanceKeepsBacked(Mark(w, w.calls[p].jti, ttl), p, RedisMarked);
      }
    case Publish(p) =>
      if IsAt(w, p, RedisMarked) {
        AdvanceKeepsBacked(w, p, Published);
      }
    case Deliver(i, p) =>
      if IsAt(w, p, Published) {
        AddKeepsBacked(w, i, w.calls[p].jti);
        AddKeepsCalls(w, i, w.calls[p].jti);
      }
    case CheckAt(i, jti, redisUp, dbUp) => CheckKeepsBacked(w, i, jti, redisUp, dbUp);
    case _ =>
  }

  lemma {:induction false} AddKeepsCalls(w: World, i: Iid, jti: Jti)
    ensures AddTo(w, i, jti).calls == w.calls && AddTo(w, i, jti).rows == w.rows
    ensures AddTo(w, i, jti).delivered == w.delivered && jti in SetAt(AddTo(w, i, jti), i)
  {
  }

  lemma {:induction false} MarkKeepsCalls(w: World, jti: Jti, ttl: int)
    ensures Mark(w, jti, ttl).calls == w.calls
  {
  }

  lemma {:induction false} RunIsBacked(w: World, evs: seq<Event>)
    requires Init(w)
    ensures Backed(Run(w, evs))
  {
    hide Next, Backed;
    if evs == [] {
      InitIsBacked(w);
    } else {
      RunIsBacked(w, evs[..|evs| - 1]);
      NextIsBacked(Run(w, evs[..|evs| - 1]), evs[|evs| - 1]);
    }
  }

  lemma {:induction false} InitIsBacked(w: World)
    requires Init(w)
    ensures Backed(w)
  {
  }

  /** In every reachable state and on every instance the answer is the row's, whatever Redis does;
      only a failing database on a token the fast tiers do not know gives no answer. */
  lemma {:induction false} CheckAgreesWithRows(w: World, evs: seq<Event>, i: Iid, jti: Jti, redisUp: bool, dbUp: bool)
    requires Init(w)
    ensures var s := Run(w, evs);
            var answer := Check(s, i, jti, redisUp, dbUp).0;
            && (answer.Revoked? ==> jti in s.rows)
            && (answer.NotRevoked? ==> jti !in s.rows)
            && (answer.DbError? <==> !dbUp && jti !in SetAt(s, i) && !(redisUp && Marked(s, jti)))
  {
    hide Run;
    RunIsBacked(w, evs);
    MarkedIsRevoked(Run(w, evs), jti);
  }

  /** A revoked token never becomes acceptable again, on any instance. */
  lemma {:induction false} RevocationIsPermanent(w: World, evs: seq<Event>, more: seq<Event>, i: Iid, jti: Jti,
                                                 redisUp: bool, dbUp: bool)
    requires Init(w) && jti in Run(w, evs).rows
    ensures !Check(Run(Run(w, evs), more), i, jti, redisUp, dbUp).0.NotRevoked?
  {
    RowsStay(Run(w, evs), more, jti);
  }

  lemma {:induction false} RowsStay(w: World, more: seq<Event>, jti: Jti)
    requires jti in w.rows
    ensures jti in Run(w, more).rows
  {
    if more != [] {
      RowsStay(w, more[..|more| - 1], jti);
    }
  }

  /** Coherence: an instance that has taken in a revocation's message, and has not been restarted since,
      refuses the token with Redis and the database down, whatever ran in between. */
  lemma {:induction false} DeliveredIsRefused(w: World, evs: seq<Event>, p: Pid, i: Iid, redisUp: bool, dbUp: bool)
    requires Init(w) && (i, p) in Run(w, evs).delivered
    ensures p in Run(w, evs).calls
    ensures var s := Run(w, evs); Check(s, i, s.calls[p].jti, redisUp, dbUp) == (Revoked, s)
  {
    hide Run;
    RunIsBacked(w, evs);
    var d := (i, p);
    assert d in Run(w, evs).delivered && d.1 == p && d.0 == i;
  }

  /** After the message has been delivered everywhere the token is refused everywhere, and an instance
      that starts later still refuses it as soon as the database answers, or Redis has its marker. */
  lemma {:induction false} RefusedEverywhere(w: World, evs: seq<Event>, p: Pid, instances: set<Iid>, i: Iid,
                                             redisUp: bool, dbUp: bool)
    requires Init(w) && p in Run(w, evs).calls && forall j :: j in instances ==> (j, p) in Run(w, evs).delivered
    ensures var s, jti := Run(w, evs), Run(w, evs).calls[p].jti;
            (i in instances || dbUp || (redisUp && Marked(s, jti))) ==> Check(s, i, jti, redisUp, dbUp).0.Revoked?
  {
    hide Run;
    var s := Run(w, evs);
    RunIsBacked(w, evs);
    CheckAgreesWithRows(w, evs, i, s.calls[p].jti, redisUp, dbUp);
    if i in instances {
      DeliveredIsRefused(w, evs, p, i, redisUp, dbUp);
    }
  }

  /** No token is under revocation twice: the handler's update finds an active row only once. */
  predicate OneCallEach(w: World) {
    forall p, q :: p in w.calls && q in w.calls && w.calls[p].jti == w.calls[q].jti ==> p == q
  }

  lemma {:induction false} NextKeepsOneCall(w: World, ev: Event)
    requires Backed(w) && OneCallEach(w)
    ensures OneCallEach(Next(w, ev))
  {
    hide AddTo, Mark, Check;
    match ev
    case AddLocally(p) =>
      if IsAt(w, p, RowWritten) {
        AddKeepsCalls(w, w.calls[p].at, w.calls[p].jti);
      }
    case MarkInRedis(p, ttl, redisUp) =>
      if IsAt(w, p, SetAdded) {
        MarkKeepsCalls(w, w.calls[p].jti, ttl);
      }
    case Deliver(i, p) =>
      if IsAt(w, p, Published) {
        AddKeepsCalls(w, i, w.calls[p].jti);
      }
    case CheckAt(i, jti, redisUp, dbUp) => CheckKeepsCalls(w, i, jti, redisUp, dbUp);
    case _ =>
  }

  lemma {:induction false} CheckKeepsCalls(w: World, i: Iid, jti: Jti, redisUp: bool, dbUp: bool)
    ensures Check(w, i, jti, redisUp, dbUp).1.calls == w.calls
  {
  }

  lemma {:induction false} RunKeepsOneCall(w: World, evs: seq<Event>)
    requires Init(w)
    ensures OneCallEach(Run(w, evs))
  {
    hide Next;
    if evs != [] {
      RunKeepsOneCall(w, evs[..|evs| - 1]);
      RunIsBacked(w, evs[..|evs| - 1]);
      NextKeepsOneCall(Run(w, evs[..|evs| - 1]), evs[|evs| - 1]);
    }
  }

  /** The revocation p has marked its token in Redis, for no shorter than until t. */
  predicate MarkedUntil(w: World, p: Pid, t: int) {
    && (IsAt(w, p, RedisMarked) || IsAt(w, p, Published))
    && w.calls[p].jti in w.markers
    && (w.markers[w.calls[p].jti].None? || t <= w.markers[w.calls[p].jti].value)
  }

  /** Until then no step takes the marker away: a check that finds it writes none. */
  lemma {:induction false} NextKeepsMarked(w: World, ev: Event, p: Pid, t: int)
    requires Backed(w) && OneCallEach(w) && MarkedUntil(w, p, t) && w.clock < t
    ensures MarkedUntil(Next(w, ev), p, t) && Next(w, ev).calls[p].jti == w.calls[p].jti
  {
  }

  lemma {:induction false} RunKeepsMarked(w: World, evs: seq<Event>, more: seq<Event>, p: Pid, t: int)
    requires Init(w) && MarkedUntil(Run(w, evs), p, t) && Run(w, evs + more).clock < t
    ensures MarkedUntil(Run(w, evs + more), p, t)
    ensures Run(w, evs + more).calls[p].jti == Run(w, evs).calls[p].jti
  {
    hide Next, MarkedUntil, Backed, OneCallEach;
    if more == [] {
      assert evs + more == evs;
    } else {
      var n := |more| - 1;
      var before := evs + more[..n];
      assert (evs + more)[..|evs + more| - 1] == before && (evs + more)[|evs + more| - 1] == more[n];
      NextMovesOn(Run(w, before), more[n]);
      RunKeepsMarked(w, evs, more[..n], p, t);
      RunIsBacked(w, before);
      RunKeepsOneCall(w, before);
      NextKeepsMarked(Run(w, before), more[n], p, t);
    }
  }

  lemma {:induction false} NextMovesOn(w: World, ev: Event)
    ensures w.clock <= Next(w, ev).clock
  {
  }

  /** Once the marker is in Redis every instance that reaches Redis refuses the token, with the database
      down and whether or not the message ever comes, until the marker's time has passed, and for good
      if it was given none. */
  lemma {:induction false} MarkerRefuses(w: World, evs: seq<Event>, p: Pid, ttl: int, more: seq<Event>, i: Iid,
                                         dbUp: bool)
    requires Init(w) && IsAt(Run(w, evs), p, SetAdded)
    ensures var s, marked := Run(w, evs), evs + [MarkInRedis(p, ttl, true)];
            var later := Run(w, marked + more);
            ttl <= 0 || later.clock < s.clock + ttl ==> Check(later, i, s.calls[p].jti, true, dbUp).0 == Revoked
  {
    hide Run;
    var s, marked := Run(w, evs), evs + [MarkInRedis(p, ttl, true)];
    var later := Run(w, marked + more);
    RunAppend(w, evs, MarkInRedis(p, ttl, true));
    if ttl <= 0 || later.clock < s.clock + ttl {
      RunKeepsMarked(w, marked, more, p, if ttl > 0 then s.clock + ttl else later.clock + 1);
    }
  }

  lemma {:induction false} RunAppend(w: World, evs: seq<Event>, ev: Event)
    ensures Run(w, evs + [ev]) == Next(Run(w, evs), ev)
  {
    assert (evs + [ev])[..|evs|] == evs;
  }

  /** A revocation whose steps nothing disturbs: the row of an active token is written, its own instance
      knows the token, Redis holds the marker, and the message is out; nothing else has changed.  If
      Redis fails, the row and the own set stay and no message goes out. */
  lemma {:induction false} RevocationAlone(w: World, p: Pid, i: Iid, jti: Jti, ttl: int, redisUp: bool)
    requires p !in w.calls && jti !in w.rows
    ensures var after := Run(w, [Revoke(p, i, jti), AddLocally(p), MarkInRedis(p, ttl, redisUp), Publish(p)]);
            && after.rows == w.rows + {jti} && after.clock == w.clock && after.delivered == w.delivered
            && after.sets == w.sets[i := SetAt(w, i) + {jti}]
            && after.calls == w.calls[p := Revocation(i, jti, if redisUp then Published else Aborted)]
            && after.markers == if !redisUp then w.markers
                                else w.markers[jti := if ttl <= 0 then None else Some(w.clock + ttl)]
  {
    hide Run, Next;
    var evs := [Revoke(p, i, jti), AddLocally(p), MarkInRedis(p, ttl, redisUp), Publish(p)];
    assert [] + [evs[0]] == evs[..1] && evs[..1] + [evs[1]] == evs[..2];
    assert evs[..2] + [evs[2]] == evs[..3] && evs[..3] + [evs[3]] == evs;
    RunNothing(w);
    RunAppend(w, [], evs[0]);
    RunAppend(w, evs[..1], evs[1]);
    RunAppend(w, evs[..2], evs[2]);
    RunAppend(w, evs[..3], evs[3]);
    RevokeLocally(w, p, i, jti);
    RevokeRemotely(Run(w, evs[..2]), p, ttl, redisUp);
    var last := Revocation(i, jti, if redisUp then Published else Aborted);
    assert w.calls[p := Revocation(i, jti, SetAdded)][p := last] == w.calls[p := last];
  }

  lemma {:induction false} RevokeLocally(w: World, p: Pid, i: Iid, jti: Jti)
    requires p !in w.calls && jti !in w.rows
    ensures Next(Next(w, Revoke(p, i, jti)), AddLocally(p)) ==
      w.(rows := w.rows + {jti}, sets := w.sets[i := SetAt(w, i) + {jti}],
         calls := w.calls[p := Revocation(i, jti, SetAdded)])
  {
    assert w.calls[p := Revocation(i, jti, RowWritten)][p := Revocation(i, jti, SetAdded)]
        == w.calls[p := Revocation(i, jti, SetAdded)];
  }

  lemma {:induction false} RevokeRemotely(w: World, p: Pid, ttl: int, redisUp: bool)
    requires IsAt(w, p, SetAdded)
    ensures var call := w.calls[p];
            Next(Next(w, MarkInRedis(p, ttl, redisUp)), Publish(p)) ==
            w.(calls := w.calls[p := Revocation(call.at, call.jti, if redisUp then Published else Aborted)],
               markers := if !redisUp then w.markers
                          else w.markers[call.jti := if ttl <= 0 then None else Some(w.clock + ttl)])
  {
    var call := w.calls[p];
    assert w.calls[p := call.(phase := RedisMarked)][p := call.(phase := Published)]
        == w.calls[p := call.(phase := Published)];
  }

  lemma {:induction false} RunNothing(w: World)
    ensures Run(w, []) == w
  {
  }

  /** A token that is revoked already is not revoked again: the handler's update finds no row, and no
      step of this revocation follows. */
  lemma {:induction false} RevokedOnce(w: World, p: Pid, i: Iid, jti: Jti)
    requires jti in w.rows
    ensures Next(w, Revoke(p, i, jti)) == w
  {
  }

  /** The message reaches every instance that is listening, and a restart forgets it. */
  lemma {:induction false} DeliveryExactly(w: World, p: Pid, i: Iid)
    requires IsAt(w, p, Published)
    ensures var after := Next(w, Deliver(i, p));
            && after.delivered == w.delivered + {(i, p)}
            && after.sets == w.sets[i := SetAt(w, i) + {w.calls[p].jti}]
            && after.rows == w.rows && after.markers == w.markers && after.calls == w.calls && after.clock == w.clock
    ensures var restarted := Next(w, Restart(i));
            && SetAt(restarted, i) == {}
            && (forall j :: j != i ==> SetAt(restarted, j) == SetAt(w, j))
            && (forall j, q :: (j, q) in restarted.delivered <==> (j, q) in w.delivered && j != i)
            && restarted.rows == w.rows && restarted.markers == w.markers && restarted.calls == w.calls
            && restarted.clock == w.clock
  {
  }

  /** Before any message: the instance that runs a revocation refuses the token from its first step on. */
  lemma {:induction false} OwnInstanceRefuses(w: World, p: Pid, redisUp: bool, dbUp: bool)
    requires IsAt(w, p, RowWritten)
    ensures var s, call := Next(w, AddLocally(p)), w.calls[p];
            Check(s, call.at, call.jti, redisUp, dbUp) == (Revoked, s)
  {
  }

  class Manager {
    const instance: Iid
    var world: World

    constructor (instance: Iid, world: World)
      ensures this.instance == instance && this.world == world
    {
      this.instance, this.world := instance, world;
    }

    method IsTokenRevoked(jti: Jti, redisUp: bool, dbUp: bool) returns (answer: Answer)
      modifies this
      ensures (answer, world) == old(Check(world, instance, jti, redisUp, dbUp))
      ensures answer.Revoked? ==> jti in SetAt(world, instance)
      ensures redisUp && dbUp && answer.Revoked? && jti !in old(SetAt(world, instance)) && !old(Marked(world, jti)) ==>
        forall later, other, db :: later < world.clock + 86400 ==>
          Check(world.(clock := later), other, jti, true, db).0 == Revoked
    {
      if jti in SetAt(world, instance) {
        return Revoked;
      }
      if redisUp && Marked(world, jti) {
        world := AddTo(world, instance, jti);
        return Revoked;
      }
      if !dbUp {
        return DbError;
      }
      if jti in world.rows {
        if redisUp {
          world := Mark(world, jti, DAY);
        }
        world := AddTo(world, instance, jti);
        return Revoked;
      }
      answer := NotRevoked;
    }

    /** The own set first; a Redis failure stops before the message. */
    method InvalidateToken(jti: Jti, ttl: int, redisUp: bool) returns (published: bool)
      modifies this
      ensures published == redisUp
      ensures world == old(if redisUp then Mark(AddTo(world, instance, jti), jti, ttl) else AddTo(world, instance, jti))
      ensures forall redis, db :: Check(world, instance, jti, redis, db) == (Revoked, world)
      ensures redisUp ==> forall later, other, db :: ttl <= 0 || later < world.clock + ttl ==>
        Check(world.(clock := later), other, jti, true, db).0 == Revoked
      ensures redisUp && ttl > 0 ==>
        forall later, other :: world.clock + ttl <= later && jti !in SetAt(world, other) ==>
          Check(world.(clock := later), other, jti, true, false).0 == DbError
    {
      world := AddTo(world, instance, jti);
      if redisUp {
        world := Mark(world, jti, ttl);
      }
      published := redisUp;
    }
  }
}
