/** The three-tier credential cache of one instance: memory, Redis and database, with a cache of
    unwrapped data keys beside them.

    Encryption is symbolic: a ciphertext remembers the key that sealed it, opening it with that key
    gives back the plaintext, and with any other key fails. */
module CredentialCache {
  import opened Options

  type Id = string
  type Dek = nat
  type Plain = string

  /** An org id; 0 is uuid.Nil, which stands for a NULL org_id. */
  type OrgId = nat

  datatype Cipher = Sealed(dek: Dek, plain: Plain) | Garbled

  datatype WrappedDek = Wrapped(dek: Dek) | BadWrap

  /** Base URL, auth scheme and provider id. */
  datatype Meta = Meta(baseUrl: string, authScheme: string, providerId: string)

  datatype Row = Row(encryptedKey: Cipher, wrappedDek: WrappedDek, meta: Meta, org: OrgId, revoked: bool)

  datatype RedisCredential = RedisCredential(encryptedKey: Cipher, wrappedDek: WrappedDek, meta: Meta, org: OrgId)

  datatype RedisEntry = RedisEntry(cred: RedisCredential, deadline: int)

  datatype CachedCredential = CachedCredential(plain: Plain, meta: Meta, org: OrgId, hardExpiry: int)

  datatype DecryptedCredential = DecryptedCredential(apiKey: Plain, meta: Meta)

  datatype Config = Config(redisTtl: int, hardExpiry: int)

  /** Which of the outside parties answer during one lookup. */
  datatype Faults = Faults(l1Opens: bool, dekOpens: bool, redisGets: bool, redisSets: bool, redisDels: bool,
                           kmsUp: bool, dbUp: bool)

  function Decrypt(c: Cipher, dek: Dek): Option<Plain> {
    if c.Sealed? && c.dek == dek then Some(c.plain) else None
  }

  function Unwrap(w: WrappedDek, kmsUp: bool): Option<Dek> {
    if kmsUp && w.Wrapped? then Some(w.dek) else None
  }

  /** The simple form: unwrap with the KMS, then decrypt. */
  function Direct(c: Cipher, w: WrappedDek): Option<Plain> {
    if w.Wrapped? then Decrypt(c, w.dek) else None
  }

  // ---------------------------------------------------------------- the tiers as values

  datatype Tiers = Tiers(mem: map<Id, CachedCredential>, deks: map<Id, Dek>, redis: map<Id, RedisEntry>)

  /** The database holds an unrevoked row for this id and org. */
  predicate LiveFor(db: map<Id, Row>, id: Id, org: OrgId) {
    id in db && !db[id].revoked && db[id].org == org
  }

  /** The row is there, not revoked, of this org, and decrypts with its own data key to this credential. */
  predicate RowGives(db: map<Id, Row>, id: Id, org: OrgId, cred: DecryptedCredential) {
    && id in db && !db[id].revoked && db[id].org == org
    && db[id].wrappedDek.Wrapped? && db[id].encryptedKey == Sealed(db[id].wrappedDek.dek, cred.apiKey)
    && db[id].meta == cred.meta
  }

  function DekDecrypt(deks: map<Id, Dek>, id: Id, c: Cipher, w: WrappedDek, f: Faults): (Option<Plain>, map<Id, Dek>) {
    if id in deks && f.dekOpens && Decrypt(c, deks[id]).Some? then (Decrypt(c, deks[id]), deks)
    else
      var dek := Unwrap(w, f.kmsUp);
      if dek.Some? && Decrypt(c, dek.value).Some? then (Decrypt(c, dek.value), deks[id := dek.value])
      else (None, deks - {id})
  }

  /** Transparency of the data-key cache: a success is what unwrap and decrypt give, unless the pair
      does not belong together (then they give nothing); with the KMS up the cache hides no success
      either; and no key that fails on this ciphertext stays behind. */
  lemma {:induction false} DekCacheIsTransparent(deks: map<Id, Dek>, id: Id, c: Cipher, w: WrappedDek, f: Faults)
    ensures var (plain, after) := DekDecrypt(deks, id, c, w, f);
            && (plain.Some? && Direct(c, w).Some? ==> plain == Direct(c, w))
            && (plain.Some? && Direct(c, w).None? <==>
                id in deks && f.dekOpens && Decrypt(c, deks[id]).Some? && w != Wrapped(deks[id]))
            && (f.kmsUp && Direct(c, w).Some? ==> plain == Direct(c, w))
            && (id in after ==> Decrypt(c, after[id]).Some?)
            && (forall other :: other != id ==> (other in after <==> other in deks))
            && (forall other :: other != id && other in deks ==> after[other] == deks[other])
  {
  }

  function L1Entry(plain: Plain, meta: Meta, org: OrgId, now: int, cfg: Config): CachedCredential {
    CachedCredential(plain, meta, org, now + cfg.hardExpiry)
  }

  /** Memory answers: an entry of this org, not past its hard expiry, whose enclave opens. */
  predicate L1Hit(t: Tiers, id: Id, org: OrgId, now: int, f: Faults) {
    id in t.mem && now <= t.mem[id].hardExpiry && t.mem[id].org == org && f.l1Opens
  }

  /** Memory after a look that did not answer: hard-expired and unreadable entries are dropped. */
  function AfterL1Miss(t: Tiers, id: Id, org: OrgId, now: int): Tiers {
    if id in t.mem && (t.mem[id].hardExpiry < now || t.mem[id].org == org) then t.(mem := t.mem - {id}) else t
  }

  function RedisLook(t: Tiers, id: Id, org: OrgId, now: int, f: Faults): Option<RedisCredential> {
    if f.redisGets && id in t.redis && now < t.redis[id].deadline && t.redis[id].cred.org == org then
      Some(t.redis[id].cred)
    else None
  }

  function FromDb(t: Tiers, db: map<Id, Row>, id: Id, org: OrgId, now: int, cfg: Config, f: Faults)
    : (Option<DecryptedCredential>, Tiers)
  {
    if !f.dbUp || !LiveFor(db, id, org) then (None, t)
    else
      var row := db[id];
      var dek := Unwrap(row.wrappedDek, f.kmsUp);
      if dek.None? || Decrypt(row.encryptedKey, dek.value).None? then (None, t)
      else
        var plain := Decrypt(row.encryptedKey, dek.value).value;
        var entry := RedisEntry(RedisCredential(row.encryptedKey, row.wrappedDek, row.meta, org), now + cfg.redisTtl);
        (Some(DecryptedCredential(plain, row.meta)),
         Tiers(t.mem[id := L1Entry(plain, row.meta, org, now, cfg)],
               t.deks[id := dek.value],
               if f.redisSets then t.redis[id := entry] else t.redis))
  }

  function FromLowerTiers(t: Tiers, db: map<Id, Row>, id: Id, org: OrgId, now: int, cfg: Config, f: Faults)
    : (Option<DecryptedCredential>, Tiers)
  {
    var look := RedisLook(t, id, org, now, f);
    if look.None? then FromDb(t, db, id, org, now, cfg, f)
    else
      var (plain, deks) := DekDecrypt(t.deks, id, look.value.encryptedKey, look.value.wrappedDek, f);
      if plain.Some? then
        (Some(DecryptedCredential(plain.value, look.value.meta)),
         t.(mem := t.mem[id := L1Entry(plain.value, look.value.meta, org, now, cfg)], deks := deks))
      else
        FromDb(t.(deks := deks, redis := if f.redisDels then t.redis - {id} else t.redis), db, id, org, now, cfg, f)
  }

  /** One whole lookup. */
  function Lookup(t: Tiers, db: map<Id, Row>, id: Id, org: OrgId, now: int, cfg: Config, f: Faults)
    : (Option<DecryptedCredential>, Tiers)
  {
    if L1Hit(t, id, org, now, f) then (Some(DecryptedCredential(t.mem[id].plain, t.mem[id].meta)), t)
    else FromLowerTiers(AfterL1Miss(t, id, org, now), db, id, org, now, cfg, f)
  }

  /** The cached data key is used first, without the KMS; the KMS is asked only when it does not do, and
      its key is kept only if it opens the ciphertext; otherwise no key is left behind. */
  lemma {:induction false} DekCacheExactly(deks: map<Id, Dek>, id: Id, c: Cipher, w: WrappedDek, f: Faults)
    ensures var result := DekDecrypt(deks, id, c, w, f);
            if id in deks && f.dekOpens && c.Sealed? && c.dek == deks[id] then result == (Some(c.plain), deks)
            else if f.kmsUp && c.Sealed? && w == Wrapped(c.dek) then result == (Some(c.plain), deks[id := c.dek])
            else result == (None, deks - {id})
  {
  }

  /** An unexpired entry of this org in memory answers, and nothing else is looked at or changed. */
  lemma {:induction false} MemoryAnswers(t: Tiers, db: map<Id, Row>, id: Id, org: OrgId, now: int, cfg: Config,
                                         f: Faults)
    requires id in t.mem && now <= t.mem[id].hardExpiry && t.mem[id].org == org && f.l1Opens
    ensures Lookup(t, db, id, org, now, cfg, f) == (Some(DecryptedCredential(t.mem[id].plain, t.mem[id].meta)), t)
  {
  }

  /** Memory does not answer: no entry of this org, or one past its hard expiry, or one that cannot be opened. */
  predicate MemoryMisses(t: Tiers, id: Id, org: OrgId, now: int, f: Faults) {
    id !in t.mem || t.mem[id].hardExpiry < now || t.mem[id].org != org || !f.l1Opens
  }

  /** Then an unexpired entry of this org in Redis answers, by its own pair, and is copied into memory
      for the hard-expiry time; Redis stays as it is and the database is not asked. */
  lemma {:induction false} RedisAnswers(t: Tiers, db: map<Id, Row>, id: Id, org: OrgId, now: int, cfg: Config,
                                        f: Faults)
    requires MemoryMisses(t, id, org, now, f)
    requires f.redisGets && id in t.redis && now < t.redis[id].deadline && t.redis[id].cred.org == org
    requires DekDecrypt(t.deks, id, t.redis[id].cred.encryptedKey, t.redis[id].cred.wrappedDek, f).0.Some?
    ensures var cred := t.redis[id].cred;
            var (plain, deks) := DekDecrypt(t.deks, id, cred.encryptedKey, cred.wrappedDek, f);
            var cached := CachedCredential(plain.value, cred.meta, org, now + cfg.hardExpiry);
            Lookup(t, db, id, org, now, cfg, f) ==
            (Some(DecryptedCredential(plain.value, cred.meta)), Tiers(t.mem[id := cached], deks, t.redis))
  {
    hide DekDecrypt;
    var cred := t.redis[id].cred;
    var (plain, deks) := DekDecrypt(t.deks, id, cred.encryptedKey, cred.wrappedDek, f);
    var cached := CachedCredential(plain.value, cred.meta, org, now + cfg.hardExpiry);
    assert (t.mem - {id})[id := cached] == t.mem[id := cached];
  }

  /** Redis does not answer either. */
  predicate RedisMisses(t: Tiers, id: Id, org: OrgId, now: int, f: Faults) {
    || !f.redisGets || id !in t.redis || t.redis[id].deadline <= now || t.redis[id].cred.org != org
    || DekDecrypt(t.deks, id, t.redis[id].cred.encryptedKey, t.redis[id].cred.wrappedDek, f).0.None?
  }

  /** Then the row answers if it is live for this org and the KMS unwraps its data key; every tier is
      filled from it, Redis for its TTL and memory for the hard-expiry time. */
  lemma {:induction false} DbAnswers(t: Tiers, db: map<Id, Row>, id: Id, org: OrgId, now: int, cfg: Config, f: Faults,
                                     cred: DecryptedCredential)
    requires MemoryMisses(t, id, org, now, f) && RedisMisses(t, id, org, now, f)
    requires f.dbUp && f.kmsUp && RowGives(db, id, org, cred)
    ensures var (found, after) := Lookup(t, db, id, org, now, cfg, f);
            var copy := RedisCredential(db[id].encryptedKey, db[id].wrappedDek, db[id].meta, org);
            && found == Some(cred)
            && after.mem == t.mem[id := CachedCredential(cred.apiKey, cred.meta, org, now + cfg.hardExpiry)]
            && after.deks == t.deks[id := db[id].wrappedDek.dek]
            && (f.redisSets ==> after.redis == t.redis[id := RedisEntry(copy, now + cfg.redisTtl)])
            && (!f.redisSets ==> after.redis == t.redis || after.redis == t.redis - {id})
  {
    hide DekDecrypt;
    var look := RedisLook(t, id, org, now, f);
    if look.Some? {
      DekCacheExactly(t.deks, id, look.value.encryptedKey, look.value.wrappedDek, f);
    }
    assert (t.mem - {id})[id := L1Entry(cred.apiKey, cred.meta, org, now, cfg)]
        == t.mem[id := L1Entry(cred.apiKey, cred.meta, org, now, cfg)];
    assert (t.deks - {id})[id := db[id].wrappedDek.dek] == t.deks[id := db[id].wrappedDek.dek];
    if id in t.redis {
      var entry := RedisEntry(RedisCredential(db[id].encryptedKey, db[id].wrappedDek, db[id].meta, org),
                              now + cfg.redisTtl);
      assert (t.redis - {id})[id := entry] == t.redis[id := entry];
    }
  }

  /** A lookup fails exactly when no tier answers, whatever the tiers hold; so with the database and the
      KMS up a live row that decrypts is always served. */
  lemma {:induction false} LookupFailsExactly(t: Tiers, db: map<Id, Row>, id: Id, org: OrgId, now: int, cfg: Config,
                                              f: Faults)
    ensures Lookup(t, db, id, org, now, cfg, f).0 == None <==>
      && MemoryMisses(t, id, org, now, f) && RedisMisses(t, id, org, now, f)
      && !(f.dbUp && f.kmsUp && exists cred :: RowGives(db, id, org, cred))
  {
    if f.dbUp && f.kmsUp && MemoryMisses(t, id, org, now, f) && RedisMisses(t, id, org, now, f) {
      if cred :| RowGives(db, id, org, cred) {
        DbAnswers(t, db, id, org, now, cfg, f, cred);
      } else if LiveFor(db, id, org) && Direct(db[id].encryptedKey, db[id].wrappedDek).Some? {
        assert RowGives(db, id, org, DecryptedCredential(db[id].encryptedKey.plain, db[id].meta));
      }
    }
  }

  /** A lookup that fails adds nothing to any tier.  Memory loses an entry that is past its hard expiry or
      cannot be opened, and keeps one of another org; an entry that Redis gave and that does not decrypt
      costs its data key and, if Redis answers, itself. */
  lemma {:induction false} FailedLookupExactly(t: Tiers, db: map<Id, Row>, id: Id, org: OrgId, now: int,
                                               cfg: Config, f: Faults)
    requires Lookup(t, db, id, org, now, cfg, f).0 == None
    ensures var after := Lookup(t, db, id, org, now, cfg, f).1;
            var given := f.redisGets && id in t.redis && now < t.redis[id].deadline && t.redis[id].cred.org == org;
            && after.mem == (if id in t.mem && (t.mem[id].hardExpiry < now || t.mem[id].org == org)
                             then t.mem - {id} else t.mem)
            && after.deks == (if given then t.deks - {id} else t.deks)
            && after.redis == (if given && f.redisDels then t.redis - {id} else t.redis)
  {
  }

  predicate SameElsewhere(t: Tiers, u: Tiers, id: Id) {
    t.mem - {id} == u.mem - {id} && t.deks - {id} == u.deks - {id} && t.redis - {id} == u.redis - {id}
  }

  lemma {:induction false} FromDbTouchesOneId(t: Tiers, db: map<Id, Row>, id: Id, org: OrgId, now: int, cfg: Config,
                                              f: Faults)
    ensures SameElsewhere(t, FromDb(t, db, id, org, now, cfg, f).1, id)
  {
  }

  lemma {:induction false} DekCacheTouchesOneId(t: Tiers, id: Id, c: Cipher, w: WrappedDek, f: Faults)
    ensures t.deks - {id} == DekDecrypt(t.deks, id, c, w, f).1 - {id}
  {
    DekCacheExactly(t.deks, id, c, w, f);
  }

  /** A lookup of one credential leaves every other one's entries alone. */
  lemma {:induction false} LookupTouchesOneId(t: Tiers, db: map<Id, Row>, id: Id, org: OrgId, now: int, cfg: Config,
                                              f: Faults)
    ensures SameElsewhere(t, Lookup(t, db, id, org, now, cfg, f).1, id)
  {
    hide DekDecrypt, FromDb;
    var u := AfterL1Miss(t, id, org, now);
    var look := RedisLook(u, id, org, now, f);
    FromDbTouchesOneId(u, db, id, org, now, cfg, f);
    if look.Some? {
      DekCacheTouchesOneId(u, id, look.value.encryptedKey, look.value.wrappedDek, f);
      var deks := DekDecrypt(u.deks, id, look.value.encryptedKey, look.value.wrappedDek, f).1;
      FromDbTouchesOneId(u.(deks := deks), db, id, org, now, cfg, f);
      FromDbTouchesOneId(u.(deks := deks, redis := u.redis - {id}), db, id, org, now, cfg, f);
    }
  }

  /** With empty tiers and nothing failing, a lookup is the simple form, found or not. */
  lemma {:induction false} ColdLookupIsDirect(db: map<Id, Row>, id: Id, org: OrgId, now: int, cfg: Config, f: Faults)
    requires f.dbUp && f.kmsUp
    ensures var found := Lookup(Tiers(map[], map[], map[]), db, id, org, now, cfg, f).0;
            && (forall cred :: found == Some(cred) <==> RowGives(db, id, org, cred))
  {
  }

  // ---------------------------------------------------------------- the caches as objects

  class MemoryCache {
    var lru: map<Id, CachedCredential>

    constructor ()
      ensures lru == map[]
    {
      lru := map[];
    }

    method Get(id: Id, now: int) returns (entry: Option<CachedCredential>)
      modifies this
      ensures entry == if id in old(lru) && now <= old(lru)[id].hardExpiry then Some(old(lru)[id]) else None
      ensures lru == if id in old(lru) && entry.None? then old(lru) - {id} else old(lru)
    {
      if id !in lru {
        return None;
      }
      if now > lru[id].hardExpiry {
        lru := lru - {id};
        return None;
      }
      entry := Some(lru[id]);
    }

    method Set(id: Id, cred: CachedCredential)
      modifies this
      ensures lru == old(lru)[id := cred]
    {
      lru := lru[id := cred];
    }

    method Invalidate(id: Id)
      modifies this
      ensures lru == old(lru) - {id}
    {
      lru := lru - {id};
    }
  }

  class DekCache {
    var lru: map<Id, Dek>

    constructor ()
      ensures lru == map[]
    {
      lru := map[];
    }

    method Set(id: Id, dek: Dek)
      modifies this
      ensures lru == old(lru)[id := dek]
    {
      lru := lru[id := dek];
    }

    method Invalidate(id: Id)
      modifies this
      ensures lru == old(lru) - {id}
    {
      lru := lru - {id};
    }
  }

  class RedisCache {
    const ttl: int
    var entries: map<Id, RedisEntry>

    constructor (ttl: int)
      ensures this.ttl == ttl && entries == map[]
    {
      this.ttl, entries := ttl, map[];
    }

    /** What a read at time t finds, if nothing is written until then. */
    function ServedAt(id: Id, t: int): Option<RedisCredential>
      reads this
    {
      if id in entries && t < entries[id].deadline then Some(entries[id].cred) else None
    }

    /** What is gone stays gone until the next write. */
    method Get(id: Id, now: int) returns (cred: Option<RedisCredential>)
      ensures cred == ServedAt(id, now)
      ensures cred.None? ==> forall t :: now <= t ==> ServedAt(id, t).None?
      ensures cred.Some? ==> forall t :: t <= now ==> ServedAt(id, t) == cred
    {
      if id in entries && now < entries[id].deadline {
        cred := Some(entries[id].cred);
      } else {
        cred := None;
      }
    }

    /** Read back at every moment before the TTL has passed, and at none after it. */
    method Set(id: Id, cred: RedisCredential, now: int)
      modifies this
      ensures entries == old(entries)[id := RedisEntry(cred, now + ttl)]
      ensures forall t :: ServedAt(id, t) == if t < now + ttl then Some(cred) else None
      ensures forall other, t :: other != id ==> ServedAt(other, t) == old(ServedAt(other, t))
    {
      entries := entries[id := RedisEntry(cred, now + ttl)];
    }

    method Invalidate(id: Id)
      modifies this
      ensures entries == old(entries) - {id}
    {
      entries := entries - {id};
    }
  }

  class Manager {
    const memory: MemoryCache
    const dekCache: DekCache
    const redisCache: RedisCache
    const hardExpiry: int
    var db: map<Id, Row>

    constructor (memory: MemoryCache, dekCache: DekCache, redisCache: RedisCache, hardExpiry: int, db: map<Id, Row>)
      ensures this.memory == memory && this.dekCache == dekCache && this.redisCache == redisCache
      ensures this.hardExpiry == hardExpiry && this.db == db
    {
      this.memory, this.dekCache, this.redisCache := memory, dekCache, redisCache;
      this.hardExpiry, this.db := hardExpiry, db;
    }

    function Contents(): Tiers
      reads memory, dekCache, redisCache
    {
      Tiers(memory.lru, dekCache.lru, redisCache.entries)
    }

    function Cfg(): Config {
      Config(redisCache.ttl, hardExpiry)
    }

    method GetDecryptedCredential(id: Id, org: OrgId, now: int, f: Faults) returns (cred: Option<DecryptedCredential>)
      modifies memory, dekCache, redisCache
      ensures (cred, Contents()) == old(Lookup(Contents(), db, id, org, now, Cfg(), f))
      ensures f.dbUp && f.kmsUp && (exists served :: RowGives(db, id, org, served)) ==> cred.Some?
      ensures !old(MemoryMisses(Contents(), id, org, now, f)) ==>
        && cred == old(Some(DecryptedCredential(memory.lru[id].plain, memory.lru[id].meta)))
        && Contents() == old(Contents())
    {
      hide DekDecrypt, FromDb;
      ghost var before := Contents();
      LookupFailsExactly(before, db, id, org, now, Cfg(), f);
      var cached := memory.Get(id, now);
      if cached.Some? && cached.value.org == org {
        if !f.l1Opens {
          memory.Invalidate(id);
        } else {
          return Some(DecryptedCredential(cached.value.plain, cached.value.meta));
        }
      }
      assert Contents() == AfterL1Miss(before, id, org, now);
      cred := ResolveFromLowerTiers(id, org, now, f);
    }

    method ResolveFromLowerTiers(id: Id, org: OrgId, now: int, f: Faults) returns (cred: Option<DecryptedCredential>)
      modifies memory, dekCache, redisCache
      ensures (cred, Contents()) == old(FromLowerTiers(Contents(), db, id, org, now, Cfg(), f))
    {
      var redisCred := None;
      if f.redisGets {
        redisCred := redisCache.Get(id, now);
      }
      if redisCred.Some? && redisCred.value.org == org {
        var apiKey := DecryptWithDekCache(id, redisCred.value.encryptedKey, redisCred.value.wrappedDek, f);
        if apiKey.None? {
          if f.redisDels {
            redisCache.Invalidate(id);
          }
        } else {
          memory.Set(id, L1Entry(apiKey.value, redisCred.value.meta, org, now, Cfg()));
          return Some(DecryptedCredential(apiKey.value, redisCred.value.meta));
        }
      }
      cred := ResolveFromDb(id, org, now, f);
    }

    method ResolveFromDb(id: Id, org: OrgId, now: int, f: Faults) returns (cred: Option<DecryptedCredential>)
      modifies memory, dekCache, redisCache
      ensures (cred, Contents()) == old(FromDb(Contents(), db, id, org, now, Cfg(), f))
    {
      if !f.dbUp || id !in db || db[id].revoked || db[id].org != org {
        return None;
      }
      var row := db[id];
      var dek := Unwrap(row.wrappedDek, f.kmsUp);
      if dek.None? {
        return None;
      }
      var apiKey := Decrypt(row.encryptedKey, dek.value);
      if apiKey.None? {
        return None;
      }
      dekCache.Set(id, dek.value);
      if f.redisSets {
        redisCache.Set(id, RedisCredential(row.encryptedKey, row.wrappedDek, row.meta, org), now);
      }
      memory.Set(id, L1Entry(apiKey.value, row.meta, org, now, Cfg()));
      cred := Some(DecryptedCredential(apiKey.value, row.meta));
    }

    method DecryptWithDekCache(id: Id, encryptedKey: Cipher, wrappedDek: WrappedDek, f: Faults)
      returns (apiKey: Option<Plain>)
      modifies dekCache
      ensures (apiKey, dekCache.lru) == old(DekDecrypt(dekCache.lru, id, encryptedKey, wrappedDek, f))
    {
      ghost var before := dekCache.lru;
      if id in dekCache.lru {
        if f.dekOpens {
          apiKey := Decrypt(encryptedKey, dekCache.lru[id]);
          if apiKey.Some? {
            return;
          }
        }
        dekCache.Invalidate(id);
      }
      assert dekCache.lru == before - {id};
      var dek := Unwrap(wrappedDek, f.kmsUp);
      if dek.None? {
        return None;
      }
      apiKey := Decrypt(encryptedKey, dek.value);
      if apiKey.None? {
        return;
      }
      dekCache.Set(id, dek.value);
      assert (before - {id})[id := dek.value] == before[id := dek.value];
    }

    /** Local tiers, then Redis, then the message; a Redis failure stops before the message. */
    method InvalidateCredential(id: Id, redisUp: bool) returns (published: bool)
      modifies memory, dekCache, redisCache
      ensures published == redisUp
      ensures id !in memory.lru && id !in dekCache.lru && (published ==> id !in redisCache.entries)
      ensures memory.lru == old(memory.lru) - {id} && dekCache.lru == old(dekCache.lru) - {id}
      ensures redisCache.entries == if redisUp then old(redisCache.entries) - {id} else old(redisCache.entries)
    {
      memory.Invalidate(id);
      dekCache.Invalidate(id);
      if !redisUp {
        return false;
      }
      redisCache.Invalidate(id);
      published := true;
    }
  }
}
