/** The middleware that enforces the request caps: the token's counter first, then the credential's. */
module RequestCap {
  import opened Options
  import opened RequestCounter

  /** Which Redis calls of one request answer: the decrements, their retries after a refill, the undo. */
  datatype Answering = Answering(token: bool, tokenAgain: bool, credential: bool, credentialAgain: bool, undo: bool)

  predicate Exhausted(cell: Option<Cell>) {
    cell.Some? && cell.value.value <= 0
  }

  /** What a request finds in a counter once an exhausted one has been refilled if that is due. */
  function Refreshed(cell: Option<Cell>, rows: map<string, Row>, id: string, ttl: int, now: int): Option<Cell> {
    if Exhausted(cell) && id in rows && Counter.RefillDue(rows[id], now) then
      Some(SeedCell(rows[id].refillAmount.value, ttl, now))
    else cell
  }

  function TokenSeedTtl(rows: map<string, Row>, jti: string, now: int): int {
    if jti in rows then TokenTtl(rows[jti].expiresAt, now) + MINUTE else 0
  }

  /** One less in a counter that exists; no counter, no cap. */
  function Less(cell: Option<Cell>): Option<Cell> {
    if cell.Some? then Some(Cell(cell.value.value - 1, cell.value.deadline)) else None
  }

  datatype Verdict = Took | Uncapped | Capped | NoAnswer

  function VerdictOf(cell: Option<Cell>): Verdict {
    if cell.None? then Uncapped else if cell.value.value <= 0 then Capped else Took
  }

  function Left(cell: Option<Cell>): Option<Cell> {
    if Exhausted(cell) then cell else Less(cell)
  }

  /** The token's half: decrement, and if the cap is exhausted, refill and decrement again. */
  method TakeFromToken(c: Counter, jti: string, up: Answering) returns (verdict: Verdict)
    modifies c
    ensures c.clock == old(c.clock) && c.credentials == old(c.credentials)
    ensures !up.token ==> verdict == NoAnswer && c.redis == old(c.redis)
    ensures up.token && up.tokenAgain ==> verdict != NoAnswer
    ensures
      var token := old(Refreshed(c.Lookup(TokKey(jti)), c.tokens, jti, TokenSeedTtl(c.tokens, jti, c.clock), c.clock));
      && (verdict != NoAnswer ==> verdict == VerdictOf(token) && c.Lookup(TokKey(jti)) == Left(token))
      && (verdict == NoAnswer && up.token ==> c.Lookup(TokKey(jti)) == token)
    ensures forall k :: k != TokKey(jti) ==> c.Lookup(k) == old(c.Lookup(k))
  {
    hide TokKey, CredKey, TokenTtl, Counter.RefillDue, Visible;
    if !up.token {
      return NoAnswer;
    }
    var result := c.Decrement(TokKey(jti));
    if result.DecrExhausted? {
      var refill := c.CheckAndRefillToken(jti);
      if refill.Refilled? {
        if !up.tokenAgain {
          return NoAnswer;
        }
        result := c.Decrement(TokKey(jti));
      }
    }
    verdict := if result.DecrOK? then Took else if result.DecrNoCap? then Uncapped else Capped;
  }

  /** The credential's half. */
  method TakeFromCredential(c: Counter, credentialId: string, up: Answering) returns (verdict: Verdict)
    modifies c
    ensures c.clock == old(c.clock) && c.tokens == old(c.tokens)
    ensures !up.credential ==> verdict == NoAnswer
    ensures up.credential && up.credentialAgain ==> verdict != NoAnswer
    ensures
      var key := CredKey(credentialId);
      var credential := old(Refreshed(c.Lookup(key), c.credentials, credentialId, 0, c.clock));
      verdict != NoAnswer ==> verdict == VerdictOf(credential) && c.Lookup(key) == Left(credential)
    ensures forall k :: k != CredKey(credentialId) ==> c.Lookup(k) == old(c.Lookup(k))
  {
    hide TokKey, CredKey, Counter.RefillDue, Visible;
    if !up.credential {
      return NoAnswer;
    }
    var result := c.Decrement(CredKey(credentialId));
    if result.DecrExhausted? {
      var refill := c.CheckAndRefillCredential(credentialId);
      if refill.Refilled? {
        if !up.credentialAgain {
          return NoAnswer;
        }
        result := c.Decrement(CredKey(credentialId));
      }
    }
    verdict := if result.DecrOK? then Took else if result.DecrNoCap? then Uncapped else Capped;
  }

  /** RemainingCheck.  As long as Redis answers, a request is let through exactly when neither counter is
      exhausted after its refill, and takes one from each; a request that is turned away takes nothing.
      When a call does not answer the request is let through, and the token's counter keeps what it
      had if the undo answers. */
  method RemainingCheck(c: Counter, jti: string, credentialId: string, up: Answering) returns (allowed: bool)
    modifies c
    ensures
      var token := old(Refreshed(c.Lookup(TokKey(jti)), c.tokens, jti, TokenSeedTtl(c.tokens, jti, c.clock), c.clock));
      var credential := old(Refreshed(c.Lookup(CredKey(credentialId)), c.credentials, credentialId, 0, c.clock));
      var after, afterCredential := c.Lookup(TokKey(jti)), c.Lookup(CredKey(credentialId));
      && (up == Answering(true, true, true, true, true) ==>
          && (allowed <==> !Exhausted(token) && !Exhausted(credential))
          && after == (if allowed then Less(token) else token)
          && (!Exhausted(token) ==> afterCredential == if allowed then Less(credential) else credential)
          && (Exhausted(token) ==> afterCredential == old(c.Lookup(CredKey(credentialId)))))
      && (!allowed ==>
          && up.token && (up.undo ==> after == token)
          && (Exhausted(token) || (up.credential && Exhausted(credential))))
      && (!up.token ==> allowed && c.redis == old(c.redis))
      && (up.token && up.tokenAgain && !up.credential && !Exhausted(token) ==> allowed && (up.undo ==> after == token))
      && (allowed && up.token && up.undo && after != token ==>
          !Exhausted(credential) && afterCredential == Less(credential))
    ensures forall k :: k != TokKey(jti) && k != CredKey(credentialId) ==> c.Lookup(k) == old(c.Lookup(k))
  {
    hide TokKey, CredKey, TokenTtl, Counter.RefillDue, Visible, Refreshed;
    KeysAreDisjoint(credentialId, jti);
    var tokResult := TakeFromToken(c, jti, up);
    if tokResult == NoAnswer {
      return true;
    }
    if tokResult == Capped {
      return false;
    }
    var credResult := TakeFromCredential(c, credentialId, up);
    if credResult == NoAnswer || credResult == Capped {
      if tokResult == Took && up.undo {
        c.Undo(TokKey(jti));
      }
      return credResult == NoAnswer;
    }
    allowed := true;
  }
}
