/** The request-cap counter: one Redis cell per credential or token, refilled lazily from a database
    row under an optimistic lock.  Times and durations are integers in one unit. */
module RequestCounter {
  import opened Options

  const MINUTE: int := 60

  /** A Redis value with the time it expires, if any. */
  datatype Cell = Cell(value: int, deadline: Option<int>)

  datatype DecrementResult = DecrOK | DecrExhausted | DecrNoCap

  datatype Interval = NoInterval | Malformed | Every(duration: int)

  /** The columns of a credential or token row that the refill uses. */
  datatype Row = Row(createdAt: int, expiresAt: int, refillAmount: Option<int>, refillInterval: Interval,
                     remaining: Option<int>, lastRefillAt: Option<int>)

  datatype RefillError = NotFound | BadInterval

  datatype Refill = Refilled | NotRefilled | Failed(error: RefillError)

  /** GET: a cell past its deadline is gone. */
  function Visible(cell: Option<Cell>, now: int): Option<Cell> {
    if cell.Some? && (cell.value.deadline.None? || now < cell.value.deadline.value) then cell else None
  }

  /** The atomic script. */
  function DecrementCell(cell: Option<Cell>): (DecrementResult, Option<Cell>) {
    if cell.None? then (DecrNoCap, cell)
    else if cell.value.value <= 0 then (DecrExhausted, cell)
    else (DecrOK, Some(cell.value.(value := cell.value.value - 1)))
  }

  /** INCR: a missing key is created at 1, without a deadline. */
  function IncrementCell(cell: Option<Cell>): Option<Cell> {
    if cell.None? then Some(Cell(1, None)) else Some(cell.value.(value := cell.value.value + 1))
  }

  function LastRefill(createdAt: int, lastRefillAt: Option<int>): int {
    if lastRefillAt.Some? then lastRefillAt.value else createdAt
  }

  predicate IsDue(now: int, lastRefill: int, interval: int) {
    now - lastRefill >= interval
  }

  /** The WHERE clause of the refill's UPDATE: the row is as it was read. */
  predicate UpdateMatches(createdAt: int, lastRefillAt: Option<int>, lastRead: int) {
    lastRefillAt == Some(lastRead) || (lastRefillAt.None? && lastRead == createdAt)
  }

  /** The TTL a token refill asks for; seeding a token adds another minute. */
  function TokenTtl(expiresAt: int, now: int): int {
    var ttl := expiresAt - now + MINUTE;
    if ttl < 0 then MINUTE else ttl
  }

  function SeedCell(value: int, ttl: int, now: int): Cell {
    Cell(value, if ttl > 0 then Some(now + ttl) else None)
  }

  const CRED_PREFIX := "pbreq:cred:"
  const TOK_PREFIX := "pbreq:tok:"

  function CredKey(credentialId: string): string { CRED_PREFIX + credentialId }

  function TokKey(jti: string): string { TOK_PREFIX + jti }

  /** Credential and token counters never share a Redis key, and no two of a kind do. */
  lemma {:induction false} KeysAreDisjoint(a: string, b: string)
    ensures CredKey(a) == "pbreq:cred:" + a && TokKey(b) == "pbreq:tok:" + b
    ensures CredKey(a) != TokKey(b)
    ensures CredKey(a) == CredKey(b) ==> a == b
    ensures TokKey(a) == TokKey(b) ==> a == b
  {
    assert CredKey(a)[6] == 'c' && TokKey(b)[6] == 't';
    assert CredKey(a)[|CRED_PREFIX|..] == a && CredKey(b)[|CRED_PREFIX|..] == b;
    assert TokKey(a)[|TOK_PREFIX|..] == a && TokKey(b)[|TOK_PREFIX|..] == b;
  }

  class Counter {
    var clock: int
    var redis: map<string, Cell>
    var credentials: map<string, Row>
    var tokens: map<string, Row>

    constructor ()
      ensures redis == map[] && credentials == map[] && tokens == map[]
    {
      redis, credentials, tokens := map[], map[], map[];
    }

    function Lookup(key: string): Option<Cell>
      reads this`redis, this`clock
    {
      Visible(if key in redis then Some(redis[key]) else None, clock)
    }

    /** What a GET at time t finds, if nothing is written until then. */
    function ReadAt(key: string, t: int): Option<int>
      reads this`redis
    {
      var cell := Visible(if key in redis then Some(redis[key]) else None, t);
      if cell.Some? then Some(cell.value.value) else None
    }

    /** A positive TTL bounds the time for which the value is found; without one it is found for good. */
    method Seed(key: string, value: int, ttl: int)
      modifies this`redis
      ensures redis == old(redis)[key := SeedCell(value, ttl, clock)]
      ensures Lookup(key).Some? && Lookup(key).value.value == value
      ensures forall t :: ReadAt(key, t) == if ttl <= 0 || t < clock + ttl then Some(value) else None
      ensures forall other, t :: other != key ==> ReadAt(other, t) == old(ReadAt(other, t))
    {
      if ttl > 0 {
        redis := redis[key := Cell(value, Some(clock + ttl))];
      } else {
        redis := redis[key := Cell(value, None)];
      }
    }

    method SeedCredential(credentialId: string, value: int)
      modifies this`redis
      ensures forall t :: ReadAt("pbreq:cred:" + credentialId, t) == Some(value)
      ensures redis == old(redis)[CredKey(credentialId) := Cell(value, None)]
    {
      Seed(CredKey(credentialId), value, 0);
    }

    /** The key is kept for a minute longer than the token. */
    method SeedToken(jti: string, value: int, tokenTtl: int)
      modifies this`redis
      ensures forall t :: ReadAt("pbreq:tok:" + jti, t) ==
                        if tokenTtl + 60 <= 0 || t < clock + tokenTtl + 60 then Some(value) else None
      ensures redis == old(redis)[TokKey(jti) := SeedCell(value, tokenTtl + MINUTE, clock)]
    {
      Seed(TokKey(jti), value, tokenTtl + MINUTE);
    }

    /** No key means no cap; a key at zero or below means the cap is exhausted; otherwise one is taken
        off and the deadline stays. */
    method Decrement(key: string) returns (result: DecrementResult)
      modifies this`redis
      ensures (result, Lookup(key)) == old(DecrementCell(Lookup(key)))
      ensures forall k :: k != key ==> Lookup(k) == old(Lookup(k))
      ensures result == DecrNoCap <==> old(Lookup(key)) == None
      ensures result == DecrExhausted <==> exists cell :: old(Lookup(key)) == Some(cell) && cell.value <= 0
      ensures result == DecrOK <==> exists cell :: old(Lookup(key)) == Some(cell) && cell.value > 0
      ensures result != DecrOK ==> Lookup(key) == old(Lookup(key))
      ensures result == DecrOK ==>
        Lookup(key) == Some(Cell(old(Lookup(key)).value.value - 1, old(Lookup(key)).value.deadline))
    {
      var cell := Lookup(key);
      if cell.None? {
        return DecrNoCap;
      }
      if cell.value.value <= 0 {
        return DecrExhausted;
      }
      redis := redis[key := cell.value.(value := cell.value.value - 1)];
      result := DecrOK;
    }

    method Undo(key: string)
      modifies this`redis
      ensures old(Lookup(key)).None? ==> Lookup(key) == Some(Cell(1, None))
      ensures old(Lookup(key)).Some? ==>
        Lookup(key) == Some(Cell(old(Lookup(key)).value.value + 1, old(Lookup(key)).value.deadline))
      ensures Lookup(key) == old(IncrementCell(Lookup(key)))
      ensures forall k :: k != key ==> Lookup(k) == old(Lookup(k))
    {
      var cell := Lookup(key);
      if cell.None? {
        redis := redis[key := Cell(1, None)];
      } else {
        redis := redis[key := cell.value.(value := cell.value.value + 1)];
      }
    }

    /** Undo takes back a successful Decrement, deadline included. */
    method DecrementThenUndo(key: string) returns (result: DecrementResult)
      modifies this`redis
      ensures result.DecrOK? ==> forall k :: Lookup(k) == old(Lookup(k))
    {
      result := Decrement(key);
      if result.DecrOK? {
        Undo(key);
      }
    }

    method Read(key: string) returns (value: int)
      ensures Lookup(key).Some? ==> value == Lookup(key).value.value
      ensures value > 0 <==> DecrementCell(Lookup(key)).0.DecrOK?
      ensures DecrementCell(Lookup(key)).0.DecrNoCap? ==> value == -1
      ensures value >= 0 ==> IncrementCell(Lookup(key)) == Some(Lookup(key).value.(value := value + 1))
    {
      var cell := Lookup(key);
      value := if cell.None? then -1 else cell.value.value;
    }

    method Delete(key: string)
      modifies this`redis
      ensures Lookup(key).None? && redis == old(redis) - {key}
    {
      redis := redis - {key};
    }

    /** The row says a refill is configured and due at `now`. */
    static predicate RefillDue(row: Row, now: int) {
      && row.refillAmount.Some?
      && row.refillInterval.Every?
      && IsDue(now, LastRefill(row.createdAt, row.lastRefillAt), row.refillInterval.duration)
    }

    /** With an amount and a duration, a refill is due once the duration has passed since the last one, or
        since creation if there was none; without either it never is. */
    static lemma {:induction false} RefillDueExactly(row: Row, now: int)
      ensures forall amount, duration :: row.refillAmount == Some(amount) && row.refillInterval == Every(duration) ==>
        && (row.lastRefillAt == None ==> (RefillDue(row, now) <==> row.createdAt + duration <= now))
        && (forall last :: row.lastRefillAt == Some(last) ==> (RefillDue(row, now) <==> last + duration <= now))
      ensures row.refillAmount == None || !row.refillInterval.Every? ==> !RefillDue(row, now)
    {
    }

    method CheckAndRefillCredential(credentialId: string) returns (outcome: Refill)
      modifies this`redis, this`credentials
      ensures outcome == Failed(NotFound) <==> credentialId !in old(credentials)
      ensures outcome == Failed(BadInterval) <==>
        credentialId in old(credentials) && old(credentials)[credentialId].refillAmount != None
        && old(credentials)[credentialId].refillInterval == Malformed
      ensures outcome.Refilled? <==>
        credentialId in old(credentials) && RefillDue(old(credentials)[credentialId], clock)
      ensures outcome.Refilled? ==>
        var row := old(credentials)[credentialId];
        && credentials == old(credentials)[credentialId :=
             Row(row.createdAt, row.expiresAt, row.refillAmount, row.refillInterval, row.refillAmount, Some(clock))]
        && redis == old(redis)[CredKey(credentialId) := Cell(row.refillAmount.value, None)]
        && (forall now :: RefillDue(credentials[credentialId], now) <==> clock + row.refillInterval.duration <= now)
      ensures !outcome.Refilled? ==> credentials == old(credentials) && redis == old(redis)
      ensures outcome.Refilled? ==>
        Lookup(CredKey(credentialId)) == Some(Cell(old(credentials)[credentialId].refillAmount.value, None))
      ensures forall k :: k != CredKey(credentialId) ==> Lookup(k) == old(Lookup(k))
    {
      if credentialId !in credentials {
        return Failed(NotFound);
      }
      var cred := credentials[credentialId];
      if cred.refillAmount.None? || cred.refillInterval.NoInterval? {
        return NotRefilled;
      }
      if cred.refillInterval.Malformed? {
        return Failed(BadInterval);
      }
      var now := clock;
      var lastRefill := cred.createdAt;
      if cred.lastRefillAt.Some? {
        lastRefill := cred.lastRefillAt.value;
      }
      if now - lastRefill < cred.refillInterval.duration {
        return NotRefilled;
      }
      var row := credentials[credentialId];
      if !UpdateMatches(row.createdAt, row.lastRefillAt, lastRefill) {
        return NotRefilled;
      }
      credentials := credentials[credentialId := row.(remaining := cred.refillAmount, lastRefillAt := Some(now))];
      SeedCredential(credentialId, cred.refillAmount.value);
      outcome := Refilled;
    }

    method CheckAndRefillToken(jti: string) returns (outcome: Refill)
      modifies this`redis, this`tokens
      ensures outcome == Failed(NotFound) <==> jti !in old(tokens)
      ensures outcome == Failed(BadInterval) <==>
        jti in old(tokens) && old(tokens)[jti].refillAmount != None
        && old(tokens)[jti].refillInterval == Malformed
      ensures outcome.Refilled? <==> jti in old(tokens) && RefillDue(old(tokens)[jti], clock)
      ensures outcome.Refilled? ==>
        var row := old(tokens)[jti];
        && tokens == old(tokens)[jti :=
             Row(row.createdAt, row.expiresAt, row.refillAmount, row.refillInterval, row.refillAmount, Some(clock))]
        && redis == old(redis)[TokKey(jti) :=
                      SeedCell(row.refillAmount.value, TokenTtl(row.expiresAt, clock) + MINUTE, clock)]
        && (forall t :: ReadAt(TokKey(jti), t) ==
                        if t < (if clock <= row.expiresAt + 60 then row.expiresAt else clock) + 120
                        then row.refillAmount else None)
        && (forall now :: RefillDue(tokens[jti], now) <==> clock + row.refillInterval.duration <= now)
      ensures !outcome.Refilled? ==> tokens == old(tokens) && redis == old(redis)
      ensures outcome.Refilled? ==>
        var row := old(tokens)[jti];
        Lookup(TokKey(jti)) ==
        Some(SeedCell(row.refillAmount.value, TokenTtl(row.expiresAt, clock) + MINUTE, clock))
      ensures forall k :: k != TokKey(jti) ==> Lookup(k) == old(Lookup(k))
    {
      if jti !in tokens {
        return Failed(NotFound);
      }
      var tok := tokens[jti];
      if tok.refillAmount.None? || tok.refillInterval.NoInterval? {
        return NotRefilled;
      }
      if tok.refillInterval.Malformed? {
        return Failed(BadInterval);
      }
      var now := clock;
      var lastRefill := tok.createdAt;
      if tok.lastRefillAt.Some? {
        lastRefill := tok.lastRefillAt.value;
      }
      if now - lastRefill < tok.refillInterval.duration {
        return NotRefilled;
      }
      var row := tokens[jti];
      if !UpdateMatches(row.createdAt, row.lastRefillAt, lastRefill) {
        return NotRefilled;
      }
      tokens := tokens[jti := row.(remaining := tok.refillAmount, lastRefillAt := Some(now))];
      var ttlRemaining := tok.expiresAt - clock + MINUTE;
      if ttlRemaining < 0 {
        ttlRemaining := MINUTE;
      }
      SeedToken(jti, tok.refillAmount.value, ttlRemaining);
      outcome := Refilled;
    }
  }
}
