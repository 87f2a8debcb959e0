/** Many instances, each with its own memory and data-key cache, over one Redis, one database and one
    pub/sub channel: how stale an answer can be, and when a revocation has taken hold everywhere. */
module CacheCoherence {
  import opened CredentialCache
  import opened Options

  type Iid = nat
  type Pid = nat

  datatype Instance = Instance(mem: map<Id, CachedCredential>, deks: map<Id, Dek>)

  datatype Phase = MemoryDone | DeksDone | RedisDone | Published | Aborted

  /** One call of InvalidateCredential and how far it has come. */
  datatype Invalidation = Invalidation(at: Iid, id: Id, phase: Phase)

  datatype World = World(cfg: Config, clock: int, db: map<Id, Row>, redis: map<Id, RedisEntry>,
                         instances: map<Iid, Instance>, calls: map<Pid, Invalidation>,
                         memoryDelivered: set<(Iid, Pid)>, deksDelivered: set<(Iid, Pid)>)

  datatype Event =
    | Tick(duration: nat)
    | WriteRow(id: Id, row: Option<Row>)
    | LookupAt(i: Iid, id: Id, org: OrgId, f: Faults)
    | DropMemory(i: Iid, id: Id)
    | DropDek(i: Iid, id: Id)
    | DropRedis(id: Id)
    | InvalidateMemory(p: Pid, i: Iid, id: Id)
    | InvalidateDeks(p: Pid)
    | InvalidateRedis(p: Pid, redisUp: bool)
    | Publish(p: Pid)
    | DeliverMemory(i: Iid, p: Pid)
    | DeliverDeks(i: Iid, p: Pid)

  function TiersAt(w: World, i: Iid): Tiers
    requires i in w.instances
  {
    Tiers(w.instances[i].mem, w.instances[i].deks, w.redis)
  }

  function LookupIn(w: World, i: Iid, id: Id, org: OrgId, f: Faults): (Option<DecryptedCredential>, Tiers)
    requires i in w.instances
  {
    Lookup(TiersAt(w, i), w.db, id, org, w.clock, w.cfg, f)
  }

  function WithTiers(w: World, i: Iid, t: Tiers): World {
    w.(instances := w.instances[i := Instance(t.mem, t.deks)], redis := t.redis)
  }

  function WithoutMemory(w: World, i: Iid, id: Id): World {
    if i !in w.instances then w
    else w.(instances := w.instances[i := w.instances[i].(mem := w.instances[i].mem - {id})])
  }

  function WithoutDek(w: World, i: Iid, id: Id): World {
    if i !in w.instances then w
    else w.(instances := w.instances[i := w.instances[i].(deks := w.instances[i].deks - {id})])
  }

  function Advance(w: World, p: Pid, phase: Phase): World
    requires p in w.calls
  {
    w.(calls := w.calls[p := w.calls[p].(phase := phase)])
  }

  predicate IsAt(w: World, p: Pid, phase: Phase) {
    p in w.calls && w.calls[p].phase == phase
  }

  /** One step; an event that is not possible leaves the world as it is.  A lookup is one step.  The
      drop events stand for capacity eviction and expiry in the caches' own time. */
  function Next(w: World, ev: Event): World {
    match ev
    case Tick(duration) => w.(clock := w.clock + duration)
    case WriteRow(id, row) =>
      w.(db := if row.Some? then w.db[id := row.value] else w.db - {id})
    case LookupAt(i, id, org, f) =>
      if i in w.instances then WithTiers(w, i, LookupIn(w, i, id, org, f).1) else w
    case DropMemory(i, id) => WithoutMemory(w, i, id)
    case DropDek(i, id) => WithoutDek(w, i, id)
    case DropRedis(id) => w.(redis := w.redis - {id})
    case InvalidateMemory(p, i, id) =>
      if p in w.calls then w
      else WithoutMemory(w, i, id).(calls := w.calls[p := Invalidation(i, id, MemoryDone)])
    case InvalidateDeks(p) =>
      if IsAt(w, p, MemoryDone) then Advance(WithoutDek(w, w.calls[p].at, w.calls[p].id), p, DeksDone) else w
    case InvalidateRedis(p, redisUp) =>
      if !IsAt(w, p, DeksDone) then w
      else if redisUp then Advance(w.(redis := w.redis - {w.calls[p].id}), p, RedisDone)
      else Advance(w, p, Aborted)
    case Publish(p) => if IsAt(w, p, RedisDone) then Advance(w, p, Published) else w
    case DeliverMemory(i, p) =>
      if !IsAt(w, p, Published) then w
      else WithoutMemory(w, i, w.calls[p].id).(memoryDelivered := w.memoryDelivered + {(i, p)})
    case DeliverDeks(i, p) =>
      if !IsAt(w, p, Published) || (i, p) !in w.memoryDelivered then w
      else WithoutDek(w, i, w.calls[p].id).(deksDelivered := w.deksDelivered + {(i, p)})
  }

  function Run(w: World, evs: seq<Event>): World {
    if evs == [] then w else Next(Run(w, evs[..|evs| - 1]), evs[|evs| - 1])
  }

  predicate Init(w: World) {
    && w.cfg.redisTtl > 0 && w.cfg.hardExpiry >= 0
    && w.redis == map[] && w.calls == map[]
    && w.memoryDelivered == {} && w.deksDelivered == {}
    && forall i :: i in w.instances ==> w.instances[i] == Instance(map[], map[])
  }

  // ---------------------------------------------------------------- staleness

  /** At some moment of the run so far, not before `since`, the database row gave this credential. */
  ghost predicate WasInDb(w0: World, evs: seq<Event>, id: Id, org: OrgId, cred: DecryptedCredential, since: int) {
    exists j :: 0 <= j <= |evs| && since <= Run(w0, evs[..j]).clock && RowGives(Run(w0, evs[..j]).db, id, org, cred)
  }

  ghost predicate MemoryFresh(w0: World, evs: seq<Event>, mem: map<Id, CachedCredential>, cfg: Config) {
    forall id :: id in mem ==>
      WasInDb(w0, evs, id, mem[id].org, DecryptedCredential(mem[id].plain, mem[id].meta),
              mem[id].hardExpiry - cfg.hardExpiry - cfg.redisTtl)
  }

  /** A Redis entry is a copy of a row, key and ciphertext matching, no older than the entry's TTL. */
  ghost predicate RedisFresh(w0: World, evs: seq<Event>, redis: map<Id, RedisEntry>, cfg: Config) {
    forall id :: id in redis ==>
      var c := redis[id].cred;
      && Direct(c.encryptedKey, c.wrappedDek).Some?
      && WasInDb(w0, evs, id, c.org, DecryptedCredential(Direct(c.encryptedKey, c.wrappedDek).value, c.meta),
                 redis[id].deadline - cfg.redisTtl)
  }

  ghost predicate Fresh(w0: World, evs: seq<Event>) {
    var w := Run(w0, evs);
    && RedisFresh(w0, evs, w.redis, w.cfg)
    && forall i :: i in w.instances ==> MemoryFresh(w0, evs, w.instances[i].mem, w.cfg)
  }

  lemma {:induction false} WasInDbNow(w0: World, evs: seq<Event>, id: Id, org: OrgId,
        cred: DecryptedCredential, since: int)
    requires since <= Run(w0, evs).clock && RowGives(Run(w0, evs).db, id, org, cred)
    ensures WasInDb(w0, evs, id, org, cred, since)
  {
    assert evs[..|evs|] == evs;
  }

  lemma {:induction false} WasInDbLater(w0: World, evs: seq<Event>, ev: Event, id: Id, org: OrgId,
        cred: DecryptedCredential, since: int, weaker: int)
    requires WasInDb(w0, evs, id, org, cred, since) && weaker <= since
    ensures WasInDb(w0, evs, id, org, cred, weaker) && WasInDb(w0, evs + [ev], id, org, cred, weaker)
  {
    var j :| 0 <= j <= |evs| && since <= Run(w0, evs[..j]).clock && RowGives(Run(w0, evs[..j]).db, id, org, cred);
    assert (evs + [ev])[..j] == evs[..j];
  }

  /** What one lookup puts into the tiers, and what it answers, comes from fresh tiers or the row. */
  lemma {:induction false} LookupKeepsFresh(w0: World, evs: seq<Event>, i: Iid, id: Id, org: OrgId, f: Faults)
    requires Fresh(w0, evs) && i in Run(w0, evs).instances
    requires Run(w0, evs).cfg.redisTtl > 0 && Run(w0, evs).cfg.hardExpiry >= 0
    ensures var w := Run(w0, evs);
            var (found, t) := LookupIn(w, i, id, org, f);
            && MemoryFresh(w0, evs, t.mem, w.cfg) && RedisFresh(w0, evs, t.redis, w.cfg)
            && (found.Some? ==> WasInDb(w0, evs, id, org, found.value, w.clock - w.cfg.redisTtl - w.cfg.hardExpiry))
  {
    hide Run, WasInDb;
    var w := Run(w0, evs);
    var t := TiersAt(w, i);
    if L1Hit(t, id, org, w.clock, f) {
      WasInDbLater(w0, evs, Tick(0), id, org, DecryptedCredential(t.mem[id].plain, t.mem[id].meta),
                   t.mem[id].hardExpiry - w.cfg.hardExpiry - w.cfg.redisTtl,
                   w.clock - w.cfg.redisTtl - w.cfg.hardExpiry);
    } else {
      LowerTiersKeepFresh(w0, evs, AfterL1Miss(t, id, org, w.clock), id, org, f);
    }
  }

  lemma {:induction false} LowerTiersKeepFresh(w0: World, evs: seq<Event>, t: Tiers, id: Id, org: OrgId, f: Faults)
    requires Run(w0, evs).cfg.redisTtl > 0 && Run(w0, evs).cfg.hardExpiry >= 0
    requires MemoryFresh(w0, evs, t.mem, Run(w0, evs).cfg) && RedisFresh(w0, evs, t.redis, Run(w0, evs).cfg)
    ensures var w := Run(w0, evs);
            var (found, t') := FromLowerTiers(t, w.db, id, org, w.clock, w.cfg, f);
            && MemoryFresh(w0, evs, t'.mem, w.cfg) && RedisFresh(w0, evs, t'.redis, w.cfg)
            && (found.Some? ==> WasInDb(w0, evs, id, org, found.value, w.clock - w.cfg.redisTtl - w.cfg.hardExpiry))
  {
    hide Run, WasInDb, FromDb, DekDecrypt;
    var w := Run(w0, evs);
    var look := RedisLook(t, id, org, w.clock, f);
    if look.None? {
      DbKeepsFresh(w0, evs, t, id, org, f);
    } else {
      var c := look.value;
      var (plain, deks) := DekDecrypt(t.deks, id, c.encryptedKey, c.wrappedDek, f);
      DekCacheIsTransparent(t.deks, id, c.encryptedKey, c.wrappedDek, f);
      if plain.Some? {
        var cred := DecryptedCredential(plain.value, c.meta);
        WasInDbLater(w0, evs, Tick(0), id, org, cred, t.redis[id].deadline - w.cfg.redisTtl, w.clock - w.cfg.redisTtl);
        WasInDbLater(w0, evs, Tick(0), id, org, cred, w.clock - w.cfg.redisTtl,
                     w.clock - w.cfg.redisTtl - w.cfg.hardExpiry);
      } else {
        DbKeepsFresh(w0, evs, t.(deks := deks, redis := if f.redisDels then t.redis - {id} else t.redis), id, org, f);
      }
    }
  }

  lemma {:induction false} DbKeepsFresh(w0: World, evs: seq<Event>, t: Tiers, id: Id, org: OrgId, f: Faults)
    requires Run(w0, evs).cfg.redisTtl > 0 && Run(w0, evs).cfg.hardExpiry >= 0
    requires MemoryFresh(w0, evs, t.mem, Run(w0, evs).cfg) && RedisFresh(w0, evs, t.redis, Run(w0, evs).cfg)
    ensures var w := Run(w0, evs);
            var (found, t') := FromDb(t, w.db, id, org, w.clock, w.cfg, f);
            && MemoryFresh(w0, evs, t'.mem, w.cfg) && RedisFresh(w0, evs, t'.redis, w.cfg)
            && (found.Some? ==> WasInDb(w0, evs, id, org, found.value, w.clock - w.cfg.redisTtl - w.cfg.hardExpiry))
  {
    hide Run, WasInDb;
    var w := Run(w0, evs);
    var (found, t') := FromDb(t, w.db, id, org, w.clock, w.cfg, f);
    if found.Some? {
      WasInDbNow(w0, evs, id, org, found.value, w.clock);
      WasInDbLater(w0, evs, Tick(0), id, org, found.value, w.clock, w.clock - w.cfg.redisTtl - w.cfg.hardExpiry);
      WasInDbLater(w0, evs, Tick(0), id, org, found.value, w.clock, w.clock - w.cfg.redisTtl);
    }
  }

  ghost predicate SubMap<K, V>(a: map<K, V>, b: map<K, V>) {
    forall k :: k in a ==> k in b && a[k] == b[k]
  }

  lemma {:induction false} SubMapReflexive<K, V>(m: map<K, V>)
    ensures SubMap(m, m)
  {
  }

  lemma {:induction false} MemoryFreshLater(w0: World, evs: seq<Event>, ev: Event, mem: map<Id, CachedCredential>,
                         less: map<Id, CachedCredential>, cfg: Config)
    requires MemoryFresh(w0, evs, mem, cfg) && SubMap(less, mem)
    ensures MemoryFresh(w0, evs + [ev], less, cfg)
  {
    hide Run, WasInDb;
    forall id | id in less
      ensures WasInDb(w0, evs + [ev], id, less[id].org, DecryptedCredential(less[id].plain, less[id].meta),
                      less[id].hardExpiry - cfg.hardExpiry - cfg.redisTtl)
    {
      var since := less[id].hardExpiry - cfg.hardExpiry - cfg.redisTtl;
      WasInDbLater(w0, evs, ev, id, less[id].org, DecryptedCredential(less[id].plain, less[id].meta), since, since);
    }
  }

  lemma {:induction false} RedisFreshLater(w0: World, evs: seq<Event>, ev: Event, redis: map<Id, RedisEntry>,
                        less: map<Id, RedisEntry>, cfg: Config)
    requires RedisFresh(w0, evs, redis, cfg) && SubMap(less, redis)
    ensures RedisFresh(w0, evs + [ev], less, cfg)
  {
    hide Run, WasInDb, Direct;
    forall id | id in less
      ensures Direct(less[id].cred.encryptedKey, less[id].cred.wrappedDek).Some?
      ensures var c := less[id].cred;
              WasInDb(w0, evs + [ev], id, c.org,
                      DecryptedCredential(Direct(c.encryptedKey, c.wrappedDek).value, c.meta),
                      less[id].deadline - cfg.redisTtl)
    {
      var c, since := less[id].cred, less[id].deadline - cfg.redisTtl;
      WasInDbLater(w0, evs, ev, id, c.org,
                   DecryptedCredential(Direct(c.encryptedKey, c.wrappedDek).value, c.meta), since, since);
    }
  }

  /** Every cache of w' holds at most what it held in w. */
  ghost predicate Shrinks(w: World, w': World) {
    && SubMap(w'.redis, w.redis) && w'.instances.Keys == w.instances.Keys
    && forall i :: i in w.instances ==>
         SubMap(w'.instances[i].mem, w.instances[i].mem) && SubMap(w'.instances[i].deks, w.instances[i].deks)
  }

  lemma {:induction false} WithoutShrinks(w: World, i: Iid, id: Id)
    ensures Shrinks(w, WithoutMemory(w, i, id)) && Shrinks(w, WithoutDek(w, i, id))
    ensures WithoutMemory(w, i, id).cfg == w.cfg && WithoutDek(w, i, id).cfg == w.cfg
  {
    NoChangeShrinks(w);
    if i in w.instances {
      InstanceShrinks(w, i, w.instances[i].(mem := w.instances[i].mem - {id}));
      InstanceShrinks(w, i, w.instances[i].(deks := w.instances[i].deks - {id}));
    }
  }

  lemma {:induction false} InstanceShrinks(w: World, i: Iid, inst: Instance)
    requires i in w.instances && SubMap(inst.mem, w.instances[i].mem) && SubMap(inst.deks, w.instances[i].deks)
    ensures Shrinks(w, w.(instances := w.instances[i := inst]))
  {
    hide SubMap;
    SubMapReflexive(w.redis);
    forall j | j in w.instances
      ensures SubMap(w.instances[j].mem, w.instances[j].mem) && SubMap(w.instances[j].deks, w.instances[j].deks)
    {
      SubMapReflexive(w.instances[j].mem);
      SubMapReflexive(w.instances[j].deks);
    }
  }

  /** A step that is not a lookup only takes entries away. */
  lemma {:induction false} OnlyLookupsFill(w: World, ev: Event)
    requires !ev.LookupAt?
    ensures Shrinks(w, Next(w, ev)) && Next(w, ev).cfg == w.cfg
  {
    hide WithoutMemory, WithoutDek;
    NoChangeShrinks(w);
    match ev
    case DropMemory(i, id) => WithoutShrinks(w, i, id);
    case DropDek(i, id) => WithoutShrinks(w, i, id);
    case InvalidateMemory(p, i, id) => WithoutShrinks(w, i, id);
    case InvalidateDeks(p) =>
      if p in w.calls {
        WithoutShrinks(w, w.calls[p].at, w.calls[p].id);
      }
    case DeliverMemory(i, p) =>
      if p in w.calls {
        WithoutShrinks(w, i, w.calls[p].id);
      }
    case DeliverDeks(i, p) =>
      if p in w.calls {
        WithoutShrinks(w, i, w.calls[p].id);
      }
    case _ =>
  }

  lemma {:induction false} NoChangeShrinks(w: World)
    ensures Shrinks(w, w)
  {
  }

  lemma {:induction false} RunSnoc(w: World, evs: seq<Event>, ev: Event)
    ensures Run(w, evs + [ev]) == Next(Run(w, evs), ev)
  {
    assert (evs + [ev])[..|evs|] == evs;
  }

  lemma {:induction false} NextKeepsFresh(w0: World, evs: seq<Event>, ev: Event)
    requires Fresh(w0, evs) && Run(w0, evs).cfg.redisTtl > 0 && Run(w0, evs).cfg.hardExpiry >= 0
    ensures Fresh(w0, evs + [ev]) && Run(w0, evs + [ev]).cfg == Run(w0, evs).cfg
  {
    hide Run, MemoryFresh, RedisFresh, Lookup, SubMap;
    var w := Run(w0, evs);
    RunSnoc(w0, evs, ev);
    var w' := Run(w0, evs + [ev]);
    if ev.LookupAt? && ev.i in w.instances {
      LookupKeepsFresh(w0, evs, ev.i, ev.id, ev.org, ev.f);
      var t := LookupIn(w, ev.i, ev.id, ev.org, ev.f).1;
      assert SubMap(t.redis, t.redis) by { SubMapReflexive(t.redis); }
      RedisFreshLater(w0, evs, ev, t.redis, t.redis, w.cfg);
      forall i | i in w'.instances
        ensures MemoryFresh(w0, evs + [ev], w'.instances[i].mem, w.cfg)
      {
        var mem := if i == ev.i then t.mem else w.instances[i].mem;
        SubMapReflexive(mem);
        MemoryFreshLater(w0, evs, ev, mem, mem, w.cfg);
      }
    } else {
      if ev.LookupAt? {
        NoChangeShrinks(w);
      } else {
        OnlyLookupsFill(w, ev);
      }
      RedisFreshLater(w0, evs, ev, w.redis, w'.redis, w.cfg);
      forall i | i in w'.instances
        ensures MemoryFresh(w0, evs + [ev], w'.instances[i].mem, w.cfg)
      {
        MemoryFreshLater(w0, evs, ev, w.instances[i].mem, w'.instances[i].mem, w.cfg);
      }
    }
  }

  lemma {:induction false} RunKeepsFresh(w0: World, evs: seq<Event>)
    requires Init(w0)
    ensures Fresh(w0, evs) && Run(w0, evs).cfg == w0.cfg
  {
    if evs != [] {
      var n := |evs| - 1;
      RunKeepsFresh(w0, evs[..n]);
      NextKeepsFresh(w0, evs[..n], evs[n]);
      assert evs[..n] + [evs[n]] == evs;
    }
  }

  /** The staleness bound.  Whatever any instance answers at time t, the database row gave exactly
      that credential, for the same org, at some moment no earlier than t - (Redis TTL + hard expiry). */
  lemma {:induction false} StalenessBound(w0: World, evs: seq<Event>, i: Iid, id: Id, org: OrgId, f: Faults,
        cred: DecryptedCredential)
    requires Init(w0) && i in Run(w0, evs).instances
    requires LookupIn(Run(w0, evs), i, id, org, f).0 == Some(cred)
    ensures WasInDb(w0, evs, id, org, cred, Run(w0, evs).clock - (w0.cfg.redisTtl + w0.cfg.hardExpiry))
  {
    hide Run, WasInDb, Lookup;
    RunKeepsFresh(w0, evs);
    LookupKeepsFresh(w0, evs, i, id, org, f);
  }

  /** In every reachable world the data-key cache does not show: a Redis entry pairs a ciphertext with
      its own key, so a success through any cached key is what unwrap and decrypt give. */
  lemma {:induction false} ReachableDekIsTransparent(w0: World, evs: seq<Event>, i: Iid, id: Id, f: Faults)
    requires Init(w0) && i in Run(w0, evs).instances && id in Run(w0, evs).redis
    ensures var w := Run(w0, evs);
            var c := w.redis[id].cred;
            var plain := DekDecrypt(w.instances[i].deks, id, c.encryptedKey, c.wrappedDek, f).0;
            (plain.Some? ==> plain == Direct(c.encryptedKey, c.wrappedDek)) && (f.kmsUp ==> plain.Some?)
  {
    hide Run, WasInDb, DekDecrypt, Direct;
    RunKeepsFresh(w0, evs);
    var w := Run(w0, evs);
    var c := w.redis[id].cred;
    DekCacheIsTransparent(w.instances[i].deks, id, c.encryptedKey, c.wrappedDek, f);
  }

  // ---------------------------------------------------------------- revocation

  predicate Live(db: map<Id, Row>, id: Id) {
    id in db && !db[id].revoked
  }

  /** Nothing in these events brings the row back. */
  predicate StaysRevoked(evs: seq<Event>, id: Id) {
    forall k :: 0 <= k < |evs| && evs[k].WriteRow? && evs[k].id == id ==>
      evs[k].row.None? || evs[k].row.value.revoked
  }

  /** No tier of any instance holds the credential. */
  predicate Gone(w: World, id: Id) {
    id !in w.redis && forall i :: i in w.instances ==> id !in w.instances[i].mem && id !in w.instances[i].deks
  }

  predicate DeliveredEverywhere(w: World, p: Pid) {
    forall i :: i in w.instances ==> (i, p) in w.memoryDelivered && (i, p) in w.deksDelivered
  }

  predicate RedisCleared(w: World, p: Pid) {
    IsAt(w, p, RedisDone) || IsAt(w, p, Published)
  }

  /** A message is delivered only after it was published, and to memory before the data keys. */
  predicate OrderlyDelivery(w: World) {
    && (forall d :: d in w.memoryDelivered ==> IsAt(w, d.1, Published))
    && (forall d :: d in w.deksDelivered ==> d in w.memoryDelivered)
  }

  /** What call p on `id` has achieved so far, given that the row is not live. */
  predicate Achieved(w: World, p: Pid, id: Id) {
    && !Live(w.db, id)
    && OrderlyDelivery(w)
    && (p in w.calls ==> w.calls[p].id == id)
    && (RedisCleared(w, p) ==> id !in w.redis)
    && (forall i :: i in w.instances && (i, p) in w.memoryDelivered ==> id !in w.instances[i].mem)
    && (forall i :: i in w.instances && (i, p) in w.deksDelivered ==> id !in w.instances[i].deks)
  }

  /** A lookup of a revoked credential fills memory and data keys only out of Redis. */
  lemma {:induction false} RevokedLookupFillsNothing(t: Tiers, db: map<Id, Row>, id: Id, key: Id, org: OrgId,
        now: int, cfg: Config, f: Faults)
    requires !Live(db, id)
    ensures var (found, t') := Lookup(t, db, key, org, now, cfg, f);
            && (id !in t.redis ==> id !in t'.redis)
            && (id !in t.redis && id !in t.mem ==> id !in t'.mem && (key == id ==> found.None?))
            && (id !in t.redis && id !in t.deks ==> id !in t'.deks)
  {
  }

  /** Call p, if it starts now, is the one for `id`. */
  predicate StartsFor(ev: Event, p: Pid, id: Id) {
    ev.InvalidateMemory? && ev.p == p ==> ev.id == id
  }

  lemma {:induction false} LookupAchieves(w: World, ev: Event, p: Pid, id: Id)
    requires Achieved(w, p, id) && ev.LookupAt?
    ensures Achieved(Next(w, ev), p, id)
  {
    hide Lookup;
    if ev.i in w.instances {
      RevokedLookupFillsNothing(TiersAt(w, ev.i), w.db, id, ev.id, ev.org, w.clock, w.cfg, ev.f);
    }
  }

  lemma {:induction false} DeliveryAchieves(w: World, ev: Event, p: Pid, id: Id)
    requires Achieved(w, p, id) && (ev.DeliverMemory? || ev.DeliverDeks?)
    ensures Achieved(Next(w, ev), p, id)
  {
    hide Lookup, LookupIn, OrderlyDelivery;
    NextIsOrderly(w, ev);
    OnlyLookupsFill(w, ev);
  }

  lemma {:induction false} NextAchieves(w: World, ev: Event, p: Pid, id: Id)
    requires Achieved(w, p, id) && StaysRevoked([ev], id) && StartsFor(ev, p, id)
    ensures Achieved(Next(w, ev), p, id)
  {
    hide Next, Achieved;
    assert ev == [ev][0];
    if ev.LookupAt? {
      LookupAchieves(w, ev, p, id);
    } else if ev.DeliverMemory? || ev.DeliverDeks? {
      DeliveryAchieves(w, ev, p, id);
    } else if ev.InvalidateMemory? || ev.InvalidateDeks? || ev.InvalidateRedis? || ev.Publish? {
      CallAchieves(w, ev, p, id);
    } else {
      OtherAchieves(w, ev, p, id);
    }
  }

  lemma {:induction false} CallAchieves(w: World, ev: Event, p: Pid, id: Id)
    requires Achieved(w, p, id) && StartsFor(ev, p, id)
    requires ev.InvalidateMemory? || ev.InvalidateDeks? || ev.InvalidateRedis? || ev.Publish?
    ensures Achieved(Next(w, ev), p, id)
  {
    hide Lookup, LookupIn, OrderlyDelivery;
    NextIsOrderly(w, ev);
    OnlyLookupsFill(w, ev);
  }

  lemma {:induction false} OtherAchieves(w: World, ev: Event, p: Pid, id: Id)
    requires Achieved(w, p, id) && StaysRevoked([ev], id)
    requires ev.Tick? || ev.WriteRow? || ev.DropMemory? || ev.DropDek? || ev.DropRedis?
    ensures Achieved(Next(w, ev), p, id)
  {
    hide Lookup, LookupIn, OrderlyDelivery;
    NextIsOrderly(w, ev);
    assert ev == [ev][0];
    OnlyLookupsFill(w, ev);
  }

  lemma {:induction false} RunAchieves(w: World, evs: seq<Event>, p: Pid, id: Id)
    requires Achieved(w, p, id) && StaysRevoked(evs, id)
    requires forall k :: 0 <= k < |evs| ==> StartsFor(evs[k], p, id)
    ensures Achieved(Run(w, evs), p, id)
  {
    if evs != [] {
      var n := |evs| - 1;
      RunAchieves(w, evs[..n], p, id);
      assert StaysRevoked([evs[n]], id);
      NextAchieves(Run(w, evs[..n]), evs[n], p, id);
    }
  }

  /** Revocation coherence.  From a reachable moment when the row is revoked and call p has not begun,
      run any events that do not bring the row back, lookups between the invalidation steps included.
      Once p's message for this credential has been delivered everywhere, no tier of any instance
      holds it, and a lookup on any instance, for any org, fails. */
  lemma {:induction false} RevocationCoherence(w0: World, before: seq<Event>, evs: seq<Event>, p: Pid, id: Id,
        i: Iid, org: OrgId, f: Faults)
    requires Init(w0)
    requires !Live(Run(w0, before).db, id) && p !in Run(w0, before).calls
    requires StaysRevoked(evs, id) && forall k :: 0 <= k < |evs| ==> StartsFor(evs[k], p, id)
    requires IsAt(Run(Run(w0, before), evs), p, Published) && DeliveredEverywhere(Run(Run(w0, before), evs), p)
    requires i in Run(Run(w0, before), evs).instances
    ensures Gone(Run(Run(w0, before), evs), id)
    ensures LookupIn(Run(Run(w0, before), evs), i, id, org, f).0.None?
  {
    hide Run, Next, Lookup;
    var w, after := Run(w0, before), Run(Run(w0, before), evs);
    DeliveryIsOrderly(w0, before);
    NotYetDelivered(w, p);
    RunAchieves(w, evs, p, id);
    RevokedLookupFillsNothing(TiersAt(after, i), after.db, id, id, org, after.clock, after.cfg, f);
  }

  lemma {:induction false} NotYetDelivered(w: World, p: Pid)
    requires OrderlyDelivery(w) && p !in w.calls
    ensures forall i :: (i, p) !in w.memoryDelivered && (i, p) !in w.deksDelivered
  {
    forall i
      ensures (i, p) !in w.memoryDelivered && (i, p) !in w.deksDelivered
    {
      var d := (i, p);
      assert d.1 == p;
      assert !IsAt(w, d.1, Published);
    }
  }

  lemma {:induction false} DeliveryIsOrderly(w: World, evs: seq<Event>)
    requires OrderlyDelivery(w)
    ensures OrderlyDelivery(Run(w, evs))
  {
    if evs != [] {
      DeliveryIsOrderly(w, evs[..|evs| - 1]);
      NextIsOrderly(Run(w, evs[..|evs| - 1]), evs[|evs| - 1]);
    }
  }

  lemma {:induction false} NextIsOrderly(w: World, ev: Event)
    requires OrderlyDelivery(w)
    ensures OrderlyDelivery(Next(w, ev))
  {
    hide Lookup;
  }

  // ---------------------------------------------------------------- steps that nothing disturbs

  lemma {:induction false} RunAppend(w: World, evs: seq<Event>, ev: Event)
    ensures Run(w, evs + [ev]) == Next(Run(w, evs), ev)
  {
    assert (evs + [ev])[..|evs|] == evs;
  }

  lemma {:induction false} RunNothing(w: World)
    ensures Run(w, []) == w
  {
  }

  /** What happens outside: time passes, a row is written or removed, Redis drops an entry. */
  lemma {:induction false} OutsideEvents(w: World, duration: nat, id: Id, row: Row)
    ensures Next(w, Tick(duration)) == w.(clock := w.clock + duration)
    ensures Next(w, WriteRow(id, Some(row))) == w.(db := w.db[id := row])
    ensures Next(w, WriteRow(id, None)) == w.(db := w.db - {id})
    ensures Next(w, DropRedis(id)) == w.(redis := w.redis - {id})
  {
  }

  /** Any instances with empty caches over an empty Redis and any database can be the start. */
  lemma {:induction false} EmptyIsInit(cfg: Config, clock: int, db: map<Id, Row>, instances: map<Iid, Instance>)
    requires cfg.redisTtl > 0 && cfg.hardExpiry >= 0
    requires forall i :: i in instances ==> instances[i] == Instance(map[], map[])
    ensures Init(World(cfg, clock, db, map[], instances, map[], {}, {}))
  {
  }

  /** A lookup step is one whole lookup of the instance's own object on its own tiers and the shared Redis;
      it fills them, and touches nothing else. */
  lemma {:induction false} LookupStep(w: World, i: Iid, id: Id, org: OrgId, f: Faults)
    requires i in w.instances
    ensures var after := Next(w, LookupAt(i, id, org, f));
            && i in after.instances
            && Tiers(after.instances[i].mem, after.instances[i].deks, after.redis) ==
               Lookup(Tiers(w.instances[i].mem, w.instances[i].deks, w.redis), w.db, id, org, w.clock, w.cfg, f).1
            && after.instances - {i} == w.instances - {i}
            && after == w.(instances := after.instances, redis := after.redis)
  {
    hide Lookup;
  }

  function InvalidationSteps(p: Pid, i: Iid, id: Id, redisUp: bool): seq<Event> {
    [InvalidateMemory(p, i, id), InvalidateDeks(p), InvalidateRedis(p, redisUp), Publish(p)]
  }

  /** The instance without this credential. */
  function Cleared(instance: Instance, id: Id): Instance {
    Instance(instance.mem - {id}, instance.deks - {id})
  }

  lemma {:induction false} RunTwo(w: World, a: Event, b: Event)
    ensures Run(w, [a, b]) == Next(Next(w, a), b)
  {
    hide Next;
    RunNothing(w);
    assert [] + [a] == [a] && [a] + [b] == [a, b];
    RunAppend(w, [], a);
    RunAppend(w, [a], b);
  }

  lemma {:induction false} LocalSteps(w: World, p: Pid, i: Iid, id: Id)
    requires p !in w.calls && i in w.instances
    ensures Next(Next(w, InvalidateMemory(p, i, id)), InvalidateDeks(p)) ==
      w.(instances := w.instances[i := Cleared(w.instances[i], id)],
         calls := w.calls[p := Invalidation(i, id, DeksDone)])
  {
    var half := w.instances[i].(mem := w.instances[i].mem - {id});
    var w1 := Next(w, InvalidateMemory(p, i, id));
    assert w1 == w.(instances := w.instances[i := half], calls := w.calls[p := Invalidation(i, id, MemoryDone)]);
    assert w1.instances[i := Cleared(w.instances[i], id)] == w.instances[i := Cleared(w.instances[i], id)];
    assert w1.calls[p := Invalidation(i, id, DeksDone)] == w.calls[p := Invalidation(i, id, DeksDone)];
  }

  lemma {:induction false} RemoteSteps(w: World, p: Pid, redisUp: bool)
    requires IsAt(w, p, DeksDone)
    ensures var call := w.calls[p];
            Next(Next(w, InvalidateRedis(p, redisUp)), Publish(p)) ==
            w.(redis := if redisUp then w.redis - {call.id} else w.redis,
               calls := w.calls[p := Invalidation(call.at, call.id, if redisUp then Published else Aborted)])
  {
    var w1 := Next(w, InvalidateRedis(p, redisUp));
    var last := w1.calls[p].(phase := Published);
    assert redisUp ==> w1.calls[p := last] == w.calls[p := last];
  }

  /** An invalidation whose steps nothing disturbs does what the method does: the instance's own tiers
      lose the credential, then Redis, and the message goes out; a Redis failure stops it before that. */
  lemma {:induction false} InvalidationAlone(w: World, p: Pid, i: Iid, id: Id, redisUp: bool)
    requires p !in w.calls && i in w.instances
    ensures var after := Run(w, InvalidationSteps(p, i, id, redisUp));
            after == w.(instances := w.instances[i := Cleared(w.instances[i], id)],
                        redis := if redisUp then w.redis - {id} else w.redis,
                        calls := w.calls[p := Invalidation(i, id, if redisUp then Published else Aborted)])
  {
    hide Run, Next, Cleared;
    var evs := InvalidationSteps(p, i, id, redisUp);
    assert [evs[0], evs[1]] + [evs[2]] == evs[..3] && evs[..3] + [evs[3]] == evs;
    RunTwo(w, evs[0], evs[1]);
    RunAppend(w, [evs[0], evs[1]], evs[2]);
    RunAppend(w, evs[..3], evs[3]);
    LocalSteps(w, p, i, id);
    var w2 := Next(Next(w, evs[0]), evs[1]);
    RemoteSteps(w2, p, redisUp);
    var last := Invalidation(i, id, if redisUp then Published else Aborted);
    assert w2.calls[p := last] == w.calls[p := last];
  }

  /** A published message, taken in by an instance, clears its memory and then its data keys. */
  lemma {:induction false} DeliveryAlone(w: World, p: Pid, i: Iid)
    requires IsAt(w, p, Published) && i in w.instances
    ensures var after := Run(w, [DeliverMemory(i, p), DeliverDeks(i, p)]);
            after == w.(instances := w.instances[i := Cleared(w.instances[i], w.calls[p].id)],
                        memoryDelivered := w.memoryDelivered + {(i, p)}, deksDelivered := w.deksDelivered + {(i, p)})
  {
    hide Run;
    RunTwo(w, DeliverMemory(i, p), DeliverDeks(i, p));
    var w2 := Next(Next(w, DeliverMemory(i, p)), DeliverDeks(i, p));
    assert w2.instances == w.instances[i := Cleared(w.instances[i], w.calls[p].id)];
  }
}
