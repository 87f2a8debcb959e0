/** The seeder of global LLM credentials: a reconciler that brings the managed rows of the credential
    table in line with a manifest and the environment, in one transaction. */
module SeedReconciler {
  import opened Options

  /** A JSON value of the meta column: a string, or anything else by its text. */
  datatype Json = Str(text: string) | Other(json: string)

  type Meta = map<string, Json>

  /** The encrypted key with its wrapped data key.  Encrypting anew gives a different value, which is
      what the nonce stands for; a value that cannot be decrypted has no plaintext. */
  datatype Secret = Secret(plain: string, nonce: nat) | Unreadable(nonce: nat)

  datatype Row = Row(org: Option<nat>, title: string, baseUrl: string, authScheme: string, providerId: string,
                     secret: Secret, remaining: Option<int>, refillAmount: Option<int>,
                     refillInterval: Option<string>, meta: Meta, revoked: bool)

  /** The credential table in order of creation. */
  type Table = seq<Row>

  datatype Spec = Spec(id: string, title: string, providerId: string, baseUrl: string, authScheme: string,
                       apiKeyEnv: string, required: bool, enabled: Option<bool>, remaining: Option<int>,
                       refillAmount: Option<int>, refillInterval: Option<string>, meta: Meta)

  datatype Manifest = Manifest(prune: bool, specs: seq<Spec>)

  /** The process environment, and the verdicts of the URL and duration parsers. */
  datatype Env = Env(vars: map<string, string>, goodUrls: set<string>, goodDurations: set<string>)

  datatype State = Created | Updated | Unchanged | Revoked | Skipped

  datatype Counts = Counts(created: nat, updated: nat, same: nat, revoked: nat, skipped: nat)

  const MANAGER := "global_llm_seed"

  // ---------------------------------------------------------------- the manifest side

  /** unicode.IsSpace */
  predicate IsSpace(c: char) {
    || '\U{9}' <= c <= '\U{D}' || c == ' '
    || c in {'\U{85}', '\U{A0}', '\U{1680}', '\U{2028}', '\U{2029}', '\U{202F}', '\U{205F}', '\U{3000}'}
    || '\U{2000}' <= c <= '\U{200A}'
  }

  function TrimLeft(s: string): string {
    if s != [] && IsSpace(s[0]) then TrimLeft(s[1..]) else s
  }

  function TrimRight(s: string): string {
    if s != [] && IsSpace(s[|s| - 1]) then TrimRight(s[..|s| - 1]) else s
  }

  function Trim(s: string): string { TrimRight(TrimLeft(s)) }

  function ProviderScheme(provider: string): Option<string> {
    if provider == "anthropic" then Some("x-api-key")
    else if provider == "google" then Some("query_param")
    else if provider in {"cohere", "deepseek", "groq", "mistral", "moonshotai", "openai", "openrouter",
                         "perplexity", "xai"}
    then Some("bearer")
    else None
  }

  predicate Enabled(s: Spec) {
    s.enabled.None? || s.enabled.value
  }

  /** validateGlobalLLMSpec: the spec with blanks trimmed and defaults filled in, or nothing. */
  function Validate(s: Spec, env: Env): Option<Spec> {
    var t := s.(id := Trim(s.id), title := Trim(s.title), providerId := Trim(s.providerId),
                baseUrl := Trim(s.baseUrl), authScheme := Trim(s.authScheme), apiKeyEnv := Trim(s.apiKeyEnv));
    if t.id == "" || t.providerId == "" then None
    else
      var scheme := ProviderScheme(t.providerId);
      if scheme.None? || t.baseUrl == "" then None
      else
        var u := t.(title := if t.title == "" then t.id else t.title,
                    authScheme := if t.authScheme == "" then scheme.value else t.authScheme);
        if u.authScheme !in {"bearer", "x-api-key", "api-key", "query_param"} then None
        else if u.apiKeyEnv == "" && Enabled(u) then None
        else if u.baseUrl !in env.goodUrls then None
        else if u.refillInterval.Some? && u.refillInterval.value !in env.goodDurations then None
        else Some(u)
  }

  /** strings.TrimSpace takes off exactly the white space at both ends. */
  lemma {:induction false} TrimExactly(s: string) returns (front: string, back: string)
    ensures s == front + Trim(s) + back
    ensures forall c :: c in front + back ==> IsSpace(c)
    ensures Trim(s) != "" ==> !IsSpace(Trim(s)[0]) && !IsSpace(Trim(s)[|Trim(s)| - 1])
  {
    front := TrimLeftExactly(s);
    back := TrimRightExactly(TrimLeft(s));
    if Trim(s) != "" {
      assert TrimLeft(s)[0] == Trim(s)[0];
    }
  }

  lemma {:induction false} TrimLeftExactly(s: string) returns (front: string)
    ensures s == front + TrimLeft(s) && (forall c :: c in front ==> IsSpace(c))
    ensures TrimLeft(s) != "" ==> !IsSpace(TrimLeft(s)[0])
  {
    front := [];
    if s != [] && IsSpace(s[0]) {
      var rest := TrimLeftExactly(s[1..]);
      front := [s[0]] + rest;
    }
  }

  lemma {:induction false} TrimRightExactly(s: string) returns (back: string)
    ensures s == TrimRight(s) + back && (forall c :: c in back ==> IsSpace(c))
    ensures TrimRight(s) != "" ==> !IsSpace(TrimRight(s)[|TrimRight(s)| - 1])
  {
    back := [];
    if s != [] && IsSpace(s[|s| - 1]) {
      var rest := TrimRightExactly(s[..|s| - 1]);
      back := rest + [s[|s| - 1]];
    }
  }

  /** The characters with the Unicode property White_Space. */
  const WHITE_SPACE := "\t\n\U{B}\U{C}\r \U{85}\U{A0}\U{1680}\U{2000}\U{2001}\U{2002}\U{2003}\U{2004}\U{2005}"
                       + "\U{2006}\U{2007}\U{2008}\U{2009}\U{200A}\U{2028}\U{2029}\U{202F}\U{205F}\U{3000}"

  lemma {:induction false} SpacesAre(c: char)
    ensures IsSpace(c) <==> c in WHITE_SPACE
  {
  }

  /** The auth scheme a provider's API takes unless the manifest says otherwise. */
  predicate TakesByDefault(provider: string, scheme: string) {
    || (provider == "anthropic" && scheme == "x-api-key")
    || (provider == "google" && scheme == "query_param")
    || (scheme == "bearer" &&
        (provider == "cohere" || provider == "deepseek" || provider == "groq" || provider == "mistral"
         || provider == "moonshotai" || provider == "openai" || provider == "openrouter"
         || provider == "perplexity" || provider == "xai"))
  }

  predicate KnownProvider(provider: string) {
    || TakesByDefault(provider, "bearer") || TakesByDefault(provider, "x-api-key")
    || TakesByDefault(provider, "query_param")
  }

  /** The scheme a manifest entry ends up with: its own, or its provider's when it gives none. */
  predicate EndsWithScheme(raw: Spec, scheme: string) {
    if Trim(raw.authScheme) == "" then TakesByDefault(Trim(raw.providerId), scheme) else scheme == Trim(raw.authScheme)
  }

  lemma {:induction false} ProviderSchemesAre(provider: string)
    ensures ProviderScheme(provider).Some? <==> KnownProvider(provider)
    ensures forall scheme :: ProviderScheme(provider) == Some(scheme) <==> TakesByDefault(provider, scheme)
  {
  }

  /** The defects for which an entry is refused, and what a valid one says of its row: texts trimmed, the
      id for a missing title, the provider's scheme for a missing one, everything else as written. */
  lemma {:induction false} ValidateExactly(raw: Spec, env: Env)
    ensures Validate(raw, env).None? <==>
      || Trim(raw.id) == ""
      || !KnownProvider(Trim(raw.providerId))
      || Trim(raw.baseUrl) == "" || Trim(raw.baseUrl) !in env.goodUrls
      || (Trim(raw.authScheme) != ""
          && !(Trim(raw.authScheme) in ["bearer", "x-api-key", "api-key", "query_param"]))
      || (Trim(raw.apiKeyEnv) == "" && raw.enabled != Some(false))
      || (raw.refillInterval.Some? && raw.refillInterval.value !in env.goodDurations)
    ensures forall s :: Validate(raw, env) == Some(s) ==>
      && s.id == Trim(raw.id) && s.providerId == Trim(raw.providerId) && s.baseUrl == Trim(raw.baseUrl)
      && s.apiKeyEnv == Trim(raw.apiKeyEnv)
      && s.title == (if Trim(raw.title) == "" then Trim(raw.id) else Trim(raw.title))
      && EndsWithScheme(raw, s.authScheme)
      && s.required == raw.required && s.enabled == raw.enabled && s.meta == raw.meta
      && s.remaining == raw.remaining && s.refillAmount == raw.refillAmount && s.refillInterval == raw.refillInterval
  {
    hide Trim, ProviderScheme, TakesByDefault;
    ProviderSchemesAre(Trim(raw.providerId));
    DefaultsAreSchemes(Trim(raw.providerId));
  }

  lemma {:induction false} DefaultsAreSchemes(provider: string)
    ensures forall scheme :: TakesByDefault(provider, scheme) ==> provider != "" && scheme != ""
    ensures forall scheme :: TakesByDefault(provider, scheme) ==>
      scheme in {"bearer", "x-api-key", "api-key", "query_param"}
  {
  }

  function Getenv(env: Env, name: string): string {
    if name in env.vars then env.vars[name] else ""
  }

  function ManagedMeta(s: Spec): Meta {
    s.meta["managed_by" := Str(MANAGER)]["global_seed_id" := Str(s.id)]["api_key_env" := Str(s.apiKeyEnv)]
  }

  // ---------------------------------------------------------------- the table side

  predicate IsManaged(row: Row) {
    row.org.None? && "managed_by" in row.meta && row.meta["managed_by"] == Str(MANAGER)
  }

  predicate IsManagedAs(row: Row, id: string) {
    IsManaged(row) && "global_seed_id" in row.meta && row.meta["global_seed_id"] == Str(id)
  }

  /** The seed id as the prune reads it: "" when the meta holds no string there. */
  function SeedId(row: Row): string {
    if "global_seed_id" in row.meta && row.meta["global_seed_id"].Str? then row.meta["global_seed_id"].text else ""
  }

  /** loadManagedCredential: the newest row managed under this id. */
  function Find(rows: Table, id: string): (r: Option<nat>)
    ensures r.Some? ==> r.value < |rows| && IsManagedAs(rows[r.value], id)
    ensures forall i :: 0 <= i < |rows| && (r.None? || r.value < i) ==> !IsManagedAs(rows[i], id)
  {
    if rows == [] then None
    else if IsManagedAs(rows[|rows| - 1], id) then Some(|rows| - 1)
    else Find(rows[..|rows| - 1], id)
  }

  function Load(rows: Table, id: string): Option<Row> {
    var i := Find(rows, id);
    if i.Some? then Some(rows[i.value]) else None
  }

  predicate Matches(row: Row, s: Spec) {
    && row.title == s.title && row.baseUrl == s.baseUrl && row.authScheme == s.authScheme
    && row.providerId == s.providerId && row.remaining == s.remaining && row.refillAmount == s.refillAmount
    && row.refillInterval == s.refillInterval && row.meta == ManagedMeta(s)
  }

  predicate HasKey(row: Row, key: string) {
    row.secret.Secret? && row.secret.plain == key
  }

  function NewRow(s: Spec, secret: Secret): Row {
    Row(None, s.title, s.baseUrl, s.authScheme, s.providerId, secret, s.remaining, s.refillAmount, s.refillInterval,
        ManagedMeta(s), false)
  }

  // ---------------------------------------------------------------- one spec

  /** seedGlobalLLMCredential on a validated spec; None is an error. */
  function SeedValid(rows: Table, s: Spec, env: Env, nonce: nat): Option<(State, Table)> {
    var at := Find(rows, s.id);
    var key := Getenv(env, s.apiKeyEnv);
    if !Enabled(s) then
      if at.None? || rows[at.value].revoked then Some((Skipped, rows))
      else Some((Revoked, rows[at.value := rows[at.value].(revoked := true)]))
    else if key == "" then
      if s.required then None else Some((Skipped, rows))
    else if at.None? then Some((Created, rows + [NewRow(s, Secret(key, nonce))]))
    else
      var row := rows[at.value];
      if Matches(row, s) && HasKey(row, key) && !row.revoked then Some((Unchanged, rows))
      else Some((Updated, rows[at.value := NewRow(s, if HasKey(row, key) then row.secret else Secret(key, nonce))]))
  }

  function SeedOne(rows: Table, raw: Spec, env: Env, nonce: nat): Option<(State, Table)> {
    var s := Validate(raw, env);
    if s.None? then None else SeedValid(rows, s.value, env, nonce)
  }

  function Count(c: Counts, state: State): Counts {
    match state
    case Created => c.(created := c.created + 1)
    case Updated => c.(updated := c.updated + 1)
    case Unchanged => c.(same := c.same + 1)
    case Revoked => c.(revoked := c.revoked + 1)
    case Skipped => c.(skipped := c.skipped + 1)
  }

  /** Each state is counted under its own name. */
  lemma {:induction false} CountExactly(c: Counts)
    ensures Count(c, Created) == Counts(c.created + 1, c.updated, c.same, c.revoked, c.skipped)
    ensures Count(c, Updated) == Counts(c.created, c.updated + 1, c.same, c.revoked, c.skipped)
    ensures Count(c, Unchanged) == Counts(c.created, c.updated, c.same + 1, c.revoked, c.skipped)
    ensures Count(c, Revoked) == Counts(c.created, c.updated, c.same, c.revoked + 1, c.skipped)
    ensures Count(c, Skipped) == Counts(c.created, c.updated, c.same, c.revoked, c.skipped + 1)
  {
  }

  predicate Seen(specs: seq<Spec>, id: string) {
    exists i :: 0 <= i < |specs| && specs[i].id == id
  }

  /** What seeding one valid spec reports and writes: an active row of a disabled spec is revoked; a spec
      without a key is skipped or, if required, an error; otherwise the row is created, left as it is,
      or rewritten, and the stored secret is kept if it holds the same key. */
  lemma {:induction false} SeedAnswersExactly(rows: Table, s: Spec, env: Env, nonce: nat)
    ensures var result, at, key := SeedValid(rows, s, env, nonce), Find(rows, s.id), Getenv(env, s.apiKeyEnv);
            var asked := Row(None, s.title, s.baseUrl, s.authScheme, s.providerId, Secret(key, nonce), s.remaining,
                             s.refillAmount, s.refillInterval, ManagedMeta(s), false);
            var off := s.enabled == Some(false);
            && (result == None <==> !off && key == "" && s.required)
            && (off && (at == None || rows[at.value].revoked) ==> result == Some((Skipped, rows)))
            && (off && at != None && !rows[at.value].revoked ==>
                result == Some((Revoked, rows[at.value := rows[at.value].(revoked := true)])))
            && (!off && key == "" && !s.required ==> result == Some((Skipped, rows)))
            && (!off && key != "" && at == None ==> result == Some((Created, rows + [asked])))
            && (!off && key != "" && at != None ==>
                var row := rows[at.value];
                var same := row.secret.Secret? && row.secret.plain == key;
                var written := asked.(secret := if same then row.secret else asked.secret);
                result == if same && row == written then Some((Unchanged, rows))
                          else Some((Updated, rows[at.value := written])))
  {
  }

  /** The loop over the manifest; a duplicate id or a failing spec rolls everything back. */
  function SeedAll(rows: Table, specs: seq<Spec>, env: Env, nonce: nat): Option<(Counts, Table)> {
    if specs == [] then Some((Counts(0, 0, 0, 0, 0), rows))
    else
      var n := |specs| - 1;
      var before := SeedAll(rows, specs[..n], env, nonce);
      if before.None? || Seen(specs[..n], specs[n].id) then None
      else
        var one := SeedOne(before.value.1, specs[n], env, nonce + n);
        if one.None? then None else Some((Count(before.value.0, one.value.0), one.value.1))
  }

  predicate Prunable(row: Row, specs: seq<Spec>) {
    IsManaged(row) && !row.revoked && !Seen(specs, SeedId(row))
  }

  function Prune(rows: Table, specs: seq<Spec>): (nat, Table) {
    if rows == [] then (0, [])
    else
      var (count, done) := Prune(rows[..|rows| - 1], specs);
      var row := rows[|rows| - 1];
      if Prunable(row, specs) then (count + 1, done + [row.(revoked := true)]) else (count, done + [row])
  }

  function Seed(rows: Table, m: Manifest, env: Env, nonce: nat): Option<(Counts, Table)> {
    var all := SeedAll(rows, m.specs, env, nonce);
    if all.None? || !m.prune then all
    else
      var (count, after) := Prune(all.value.1, m.specs);
      Some((all.value.0.(revoked := all.value.0.revoked + count), after))
  }

  // ---------------------------------------------------------------- convergence

  /** The spec has nothing left to do on this table. */
  predicate Settled(rows: Table, s: Spec, env: Env) {
    var row := Load(rows, s.id);
    var key := Getenv(env, s.apiKeyEnv);
    if !Enabled(s) then row.None? || row.value.revoked
    else key == "" || (row.Some? && Matches(row.value, s) && HasKey(row.value, key) && !row.value.revoked)
  }

  lemma {:induction false} SettledMeansNoChange(rows: Table, s: Spec, env: Env, nonce: nat)
    requires Settled(rows, s, env) && (Enabled(s) && Getenv(env, s.apiKeyEnv) == "" ==> !s.required)
    ensures SeedValid(rows, s, env, nonce) == Some((Skipped, rows)) ||
      SeedValid(rows, s, env, nonce) == Some((Unchanged, rows))
  {
  }

  lemma {:induction false} FindNewest(rows: Table, id: string, i: nat)
    requires i < |rows| && IsManagedAs(rows[i], id)
    requires forall j :: i < j < |rows| ==> !IsManagedAs(rows[j], id)
    ensures Find(rows, id) == Some(i)
  {
  }

  lemma {:induction false} FindNone(rows: Table, id: string)
    requires forall j :: 0 <= j < |rows| ==> !IsManagedAs(rows[j], id)
    ensures Find(rows, id) == None
  {
  }

  /** Two tables that agree on which rows are managed under the id, and on those rows. */
  lemma {:induction false} LoadDepends(rows: Table, other: Table, id: string)
    requires |rows| <= |other|
    requires forall i :: 0 <= i < |rows| ==> (IsManagedAs(rows[i], id) <==> IsManagedAs(other[i], id))
    requires forall i :: 0 <= i < |rows| && IsManagedAs(rows[i], id) ==> rows[i] == other[i]
    requires forall i :: |rows| <= i < |other| ==> !IsManagedAs(other[i], id)
    ensures Load(rows, id) == Load(other, id)
  {
    var at := Find(rows, id);
    if at.Some? {
      FindNewest(other, id, at.value);
    } else {
      FindNone(other, id);
    }
  }

  lemma {:induction false} NewRowIsManaged(s: Spec, secret: Secret, id: string)
    ensures IsManagedAs(NewRow(s, secret), id) <==> id == s.id
    ensures Matches(NewRow(s, secret), s)
  {
  }

  /** Writing row i, managed under id before and after, or appending such a row. */
  lemma {:induction false} WriteLoads(rows: Table, i: nat, row: Row, id: string)
    requires i <= |rows| && IsManagedAs(row, id)
    requires if i < |rows| then Find(rows, id) == Some(i) else Find(rows, id) == None
    ensures var after := if i < |rows| then rows[i := row] else rows + [row];
            && Load(after, id) == Some(row)
            && forall other :: other != id ==> Load(after, other) == Load(rows, other)
  {
    var after := if i < |rows| then rows[i := row] else rows + [row];
    FindNewest(after, id, i);
    forall other | other != id
      ensures Load(after, other) == Load(rows, other)
    {
      LoadDepends(rows, after, other);
    }
  }

  /** Seeding a spec settles it and leaves what any other id loads alone. */
  lemma {:induction false} SeedSettles(rows: Table, s: Spec, env: Env, nonce: nat)
    requires SeedValid(rows, s, env, nonce).Some?
    ensures Settled(SeedValid(rows, s, env, nonce).value.1, s, env)
    ensures Enabled(s) && Getenv(env, s.apiKeyEnv) == "" ==> !s.required
    ensures forall id :: id != s.id ==> Load(SeedValid(rows, s, env, nonce).value.1, id) == Load(rows, id)
  {
    hide NewRow, Matches, IsManagedAs, Find;
    var at := Find(rows, s.id);
    var key := Getenv(env, s.apiKeyEnv);
    if at.None? {
      NewRowIsManaged(s, Secret(key, nonce), s.id);
      NewRowFields(s, Secret(key, nonce));
      WriteLoads(rows, |rows|, NewRow(s, Secret(key, nonce)), s.id);
    } else {
      var row := rows[at.value];
      var secret := if HasKey(row, key) then row.secret else Secret(key, nonce);
      NewRowIsManaged(s, secret, s.id);
      NewRowFields(s, secret);
      WriteLoads(rows, at.value, NewRow(s, secret), s.id);
      RevokedIsManaged(row, s.id);
      WriteLoads(rows, at.value, row.(revoked := true), s.id);
    }
  }

  lemma {:induction false} NewRowFields(s: Spec, secret: Secret)
    ensures !NewRow(s, secret).revoked && NewRow(s, secret).secret == secret
  {
  }

  lemma {:induction false} RevokedIsManaged(row: Row, id: string)
    ensures IsManagedAs(row, id) <==> IsManagedAs(row.(revoked := true), id)
  {
  }

  /** What a successful pass over the specs has established about each of them. */
  predicate AllSettled(rows: Table, specs: seq<Spec>, env: Env) {
    forall i :: 0 <= i < |specs| ==> SpecSettled(rows, specs[i], env)
  }

  predicate SpecSettled(rows: Table, raw: Spec, env: Env) {
    && Validate(raw, env).Some?
    && (var s := Validate(raw, env).value;
        Settled(rows, s, env) && (Enabled(s) && Getenv(env, s.apiKeyEnv) == "" ==> !s.required))
  }

  lemma {:induction false} ValidKeepsTrimmedId(raw: Spec, env: Env)
    requires Validate(raw, env).Some?
    ensures Validate(raw, env).value.id == Trim(raw.id)
  {
  }

  /** Whether a spec is settled depends only on the row its id loads. */
  lemma {:induction false} SettledDepends(rows: Table, other: Table, raw: Spec, env: Env)
    requires SpecSettled(rows, raw, env) && Load(rows, Trim(raw.id)) == Load(other, Trim(raw.id))
    ensures SpecSettled(other, raw, env)
  {
    hide Trim, ProviderScheme, Load;
    ValidKeepsTrimmedId(raw, env);
  }

  lemma {:induction false} OneSettles(rows: Table, raw: Spec, env: Env, nonce: nat)
    requires SeedOne(rows, raw, env, nonce).Some?
    ensures SpecSettled(SeedOne(rows, raw, env, nonce).value.1, raw, env)
    ensures forall id :: id != Trim(raw.id) ==> Load(SeedOne(rows, raw, env, nonce).value.1, id) == Load(rows, id)
  {
    hide SeedValid, Trim, ProviderScheme, Settled, Load;
    ValidKeepsTrimmedId(raw, env);
    SeedSettles(rows, Validate(raw, env).value, env, nonce);
  }

  /** The spec is to be served: enabled, with a key in the environment. */
  predicate Served(raw: Spec, env: Env) {
    Validate(raw, env).Some? && Enabled(raw) && Getenv(env, Trim(raw.apiKeyEnv)) != ""
  }

  lemma {:induction false} ValidKeepsServing(raw: Spec, env: Env)
    requires Validate(raw, env).Some?
    ensures var s := Validate(raw, env).value;
            (Enabled(s) <==> Enabled(raw)) && (Served(raw, env) <==> Enabled(s) && Getenv(env, s.apiKeyEnv) != "")
  {
    hide Trim, ProviderScheme;
  }

  /** An unset variable reads as the empty string, and so does the seed id of a row whose meta holds none. */
  lemma {:induction false} MissingReadsEmpty(env: Env, name: string, row: Row)
    ensures Getenv(env, name) == if name in env.vars then env.vars[name] else ""
    ensures (forall text :: "global_seed_id" in row.meta ==> row.meta["global_seed_id"] != Str(text)) ==>
      SeedId(row) == ""
    ensures forall text :: "global_seed_id" in row.meta && row.meta["global_seed_id"] == Str(text) ==>
      SeedId(row) == text
  {
    if "global_seed_id" in row.meta && row.meta["global_seed_id"].Str? {
      assert row.meta["global_seed_id"] == Str(row.meta["global_seed_id"].text);
    }
  }

  /** Two valid specs ask for the same row with the same key. */
  predicate Agree(s: Spec, t: Spec, env: Env) {
    && s.title == t.title && s.baseUrl == t.baseUrl && s.authScheme == t.authScheme && s.providerId == t.providerId
    && s.remaining == t.remaining && s.refillAmount == t.refillAmount && s.refillInterval == t.refillInterval
    && ManagedMeta(s) == ManagedMeta(t) && Getenv(env, s.apiKeyEnv) == Getenv(env, t.apiKeyEnv)
  }

  /** Two specs for the same row can both be satisfied: neither is served while the other is disabled,
      and if both are served they agree.  The loop lets two ids that differ only in blanks pass. */
  predicate Compatible(a: Spec, b: Spec, env: Env) {
    Trim(a.id) == Trim(b.id) ==>
      && (Served(a, env) ==> Enabled(b))
      && (Served(b, env) ==> Enabled(a))
      && (Served(a, env) && Served(b, env) ==> Agree(Validate(a, env).value, Validate(b, env).value, env))
  }

  /** A spec that has nothing to do leaves another one for the same row with nothing to do. */
  lemma {:induction false} TwinSettles(rows: Table, a: Spec, b: Spec, env: Env)
    requires Trim(a.id) == Trim(b.id) && Compatible(a, b, env)
    requires SpecSettled(rows, b, env) && (Enabled(b) ==> Served(b, env))
    requires Validate(a, env).Some?
    requires var s := Validate(a, env).value; Enabled(s) && Getenv(env, s.apiKeyEnv) == "" ==> !s.required
    ensures SpecSettled(rows, a, env)
  {
    hide Trim, ProviderScheme, Validate, Served, Load;
    ValidKeepsTrimmedId(a, env);
    ValidKeepsTrimmedId(b, env);
    ValidKeepsServing(a, env);
    ValidKeepsServing(b, env);
  }

  /** Without a key an enabled spec is passed over. */
  lemma {:induction false} KeylessChangesNothing(rows: Table, raw: Spec, env: Env, nonce: nat)
    requires SeedOne(rows, raw, env, nonce).Some? && Enabled(raw) && !Served(raw, env)
    ensures SeedOne(rows, raw, env, nonce).value.1 == rows
  {
    hide Trim, ProviderScheme, Validate, Served, Find;
    ValidKeepsServing(raw, env);
  }

  /** A pass that succeeds settles every spec that is compatible with all others for its row. */
  lemma {:induction false} PassSettles(rows: Table, specs: seq<Spec>, env: Env, nonce: nat, i: nat)
    requires SeedAll(rows, specs, env, nonce).Some? && i < |specs|
    requires forall j :: 0 <= j < |specs| ==> Compatible(specs[i], specs[j], env)
    ensures SpecSettled(SeedAll(rows, specs, env, nonce).value.1, specs[i], env)
  {
    hide SeedOne, SpecSettled, Validate, Trim, Load, Served, Compatible, Seen;
    var n := |specs| - 1;
    var before := SeedAll(rows, specs[..n], env, nonce).value.1;
    var after := SeedAll(rows, specs, env, nonce).value.1;
    OneSettles(before, specs[n], env, nonce + n);
    if i < n {
      PassSettles(rows, specs[..n], env, nonce, i);
      if Trim(specs[i].id) != Trim(specs[n].id) {
        SettledDepends(before, after, specs[i], env);
      } else if Enabled(specs[n]) && !Served(specs[n], env) {
        KeylessChangesNothing(before, specs[n], env, nonce + n);
      } else {
        SettledIsValid(before, specs[i], env);
        TwinSettles(after, specs[i], specs[n], env);
      }
    }
  }

  lemma {:induction false} SettledIsValid(rows: Table, raw: Spec, env: Env)
    requires SpecSettled(rows, raw, env)
    ensures Validate(raw, env).Some?
    ensures var s := Validate(raw, env).value; Enabled(s) && Getenv(env, s.apiKeyEnv) == "" ==> !s.required
  {
    hide Validate;
  }

  /** A pass over settled specs reports nothing but "unchanged" and "skipped", and changes no row. */
  lemma {:induction false} SettledPassChangesNothing(rows: Table, specs: seq<Spec>, env: Env, nonce: nat)
    requires SeedAll(rows, specs, env, nonce).Some? && AllSettled(rows, specs, env)
    ensures var (counts, after) := SeedAll(rows, specs, env, nonce).value;
            && after == rows
            && counts.created == 0 && counts.updated == 0 && counts.revoked == 0
            && counts.same + counts.skipped == |specs|
  {
    hide SeedValid, Validate, Settled, Seen;
    if specs != [] {
      var n := |specs| - 1;
      assert AllSettled(rows, specs[..n], env) by {
        forall i | 0 <= i < n
          ensures SpecSettled(rows, specs[..n][i], env)
        {
          assert SpecSettled(rows, specs[i], env);
        }
      }
      SettledPassChangesNothing(rows, specs[..n], env, nonce);
      assert SpecSettled(rows, specs[n], env);
      SettledMeansNoChange(rows, Validate(specs[n], env).value, env, nonce + n);
    }
  }

  /** And the other way round: a pass that reports nothing else found every spec settled. */
  lemma {:induction false} QuietPassMeansSettled(rows: Table, specs: seq<Spec>, env: Env, nonce: nat)
    requires SeedAll(rows, specs, env, nonce).Some?
    requires var counts := SeedAll(rows, specs, env, nonce).value.0;
             counts.created == 0 && counts.updated == 0 && counts.revoked == 0
    ensures SeedAll(rows, specs, env, nonce).value.1 == rows && AllSettled(rows, specs, env)
  {
    hide SeedOne, SpecSettled, Seen;
    if specs != [] {
      var n := |specs| - 1;
      QuietPassMeansSettled(rows, specs[..n], env, nonce);
      QuietMeansSettled(rows, specs[n], env, nonce + n);
      forall i | 0 <= i < |specs|
        ensures SpecSettled(rows, specs[i], env)
      {
        if i < n {
          assert SpecSettled(rows, specs[..n][i], env);
        }
      }
    }
  }

  lemma {:induction false} QuietMeansSettled(rows: Table, raw: Spec, env: Env, nonce: nat)
    requires SeedOne(rows, raw, env, nonce).Some?
    requires SeedOne(rows, raw, env, nonce).value.0 in {Unchanged, Skipped}
    ensures SeedOne(rows, raw, env, nonce).value.1 == rows && SpecSettled(rows, raw, env)
  {
    hide Validate, Matches, HasKey;
  }

  /** Whether a pass succeeds does not depend on the table. */
  lemma {:induction false} SuccessIsOfManifest(rows: Table, other: Table, specs: seq<Spec>, env: Env, nonce: nat,
                                               again: nat)
    ensures SeedAll(rows, specs, env, nonce).Some? <==> SeedAll(other, specs, env, again).Some?
  {
    hide Validate, Seen;
    if specs != [] {
      SuccessIsOfManifest(rows, other, specs[..|specs| - 1], env, nonce, again);
    }
  }

  /** The counts: one for each spec, and the table grows by the rows counted as created. */
  lemma {:induction false} CountsAddUp(rows: Table, specs: seq<Spec>, env: Env, nonce: nat)
    requires SeedAll(rows, specs, env, nonce).Some?
    ensures var (counts, after) := SeedAll(rows, specs, env, nonce).value;
            && counts.created + counts.updated + counts.same + counts.revoked + counts.skipped == |specs|
            && |after| == |rows| + counts.created
  {
    hide Validate, Find, NewRow, Matches, HasKey, Seen;
    if specs != [] {
      var n := |specs| - 1;
      CountsAddUp(rows, specs[..n], env, nonce);
    }
  }

  // ---------------------------------------------------------------- pruning

  lemma {:induction false} PruneEffect(rows: Table, specs: seq<Spec>)
    ensures |Prune(rows, specs).1| == |rows|
    ensures forall i :: 0 <= i < |rows| ==>
      Prune(rows, specs).1[i] == if Prunable(rows[i], specs) then rows[i].(revoked := true) else rows[i]
    ensures (forall i :: 0 <= i < |rows| ==> !Prunable(rows[i], specs)) ==> Prune(rows, specs) == (0, rows)
  {
    if rows != [] {
      PruneEffect(rows[..|rows| - 1], specs);
      assert rows[..|rows| - 1] + [rows[|rows| - 1]] == rows;
    }
  }

  /** The rows the prune revokes: active, managed, and with an id the manifest does not have. */
  function PrunedRows(rows: Table, specs: seq<Spec>): set<nat> {
    set i: nat | i < |rows| && !rows[i].revoked && IsManaged(rows[i])
                 && (forall k :: 0 <= k < |specs| ==> specs[k].id != SeedId(rows[i]))
  }

  lemma {:induction false} PruneCounts(rows: Table, specs: seq<Spec>)
    ensures Prune(rows, specs).0 == |PrunedRows(rows, specs)|
  {
    if rows != [] {
      var n := |rows| - 1;
      PruneCounts(rows[..n], specs);
      var before := PrunedRows(rows[..n], specs);
      if Prunable(rows[n], specs) {
        assert PrunedRows(rows, specs) == before + {n};
      } else {
        assert PrunedRows(rows, specs) == before;
      }
    }
  }

  /** A whole seeding is the pass over the specs; with prune the rows revoked by it are counted on top. */
  lemma {:induction false} SeedingCountsPruned(rows: Table, m: Manifest, env: Env, nonce: nat)
    requires Seed(rows, m, env, nonce).Some?
    ensures SeedAll(rows, m.specs, env, nonce).Some?
    ensures var (passed, middle) := SeedAll(rows, m.specs, env, nonce).value;
            var (counts, after) := Seed(rows, m, env, nonce).value;
            && (!m.prune ==> counts == passed && after == middle)
            && (m.prune ==>
                && counts == Counts(passed.created, passed.updated, passed.same,
                                    passed.revoked + |PrunedRows(middle, m.specs)|, passed.skipped)
                && |after| == |middle|
                && forall i: nat :: i < |middle| ==>
                  after[i] == middle[i].(revoked := middle[i].revoked || i in PrunedRows(middle, m.specs)))
  {
    hide SeedAll, Prune;
    var middle := SeedAll(rows, m.specs, env, nonce).value.1;
    PruneCounts(middle, m.specs);
    PruneEffect(middle, m.specs);
  }

  /** Pruning does not touch what an id of the manifest loads. */
  lemma {:induction false} PruneKeepsManifest(rows: Table, specs: seq<Spec>, id: string)
    requires Seen(specs, id)
    ensures Load(Prune(rows, specs).1, id) == Load(rows, id)
  {
    PruneEffect(rows, specs);
    LoadDepends(rows, Prune(rows, specs).1, id);
  }

  lemma {:induction false} PruneIsIdempotent(rows: Table, specs: seq<Spec>)
    ensures Prune(Prune(rows, specs).1, specs) == (0, Prune(rows, specs).1)
  {
    PruneEffect(rows, specs);
    PruneEffect(Prune(rows, specs).1, specs);
  }

  /** Pruning leaves what an id loads alone, or revokes it. */
  lemma {:induction false} PruneMayRevoke(rows: Table, specs: seq<Spec>, id: string)
    ensures var before, after := Load(rows, id), Load(Prune(rows, specs).1, id);
            if before.None? then after.None?
            else after == Some(if Prunable(before.value, specs) then before.value.(revoked := true) else before.value)
  {
    PruneEffect(rows, specs);
    var after := Prune(rows, specs).1;
    var at := Find(rows, id);
    forall i | 0 <= i < |rows|
      ensures IsManagedAs(after[i], id) <==> IsManagedAs(rows[i], id)
    {
      RevokedIsManaged(rows[i], id);
    }
    if at.Some? {
      FindNewest(after, id, at.value);
    } else {
      FindNone(after, id);
    }
  }

  /** A settled spec stays settled through the prune, unless it is served and the prune revokes its row. */
  lemma {:induction false} PruneKeepsSettled(rows: Table, specs: seq<Spec>, raw: Spec, env: Env)
    requires SpecSettled(rows, raw, env) && (Served(raw, env) ==> Seen(specs, Trim(raw.id)))
    ensures SpecSettled(Prune(rows, specs).1, raw, env)
  {
    hide Trim, ProviderScheme, Load, Prune, Validate, Served, Seen;
    ValidKeepsTrimmedId(raw, env);
    ValidKeepsServing(raw, env);
    PruneMayRevoke(rows, specs, Trim(raw.id));
    if Seen(specs, Trim(raw.id)) {
      PruneKeepsManifest(rows, specs, Trim(raw.id));
    }
  }

  /** One seeding is enough for this spec: it is compatible with every spec for its row, and if it is
      served, the prune finds the id of its row, as the row carries it, in the manifest. */
  predicate SpecConverges(m: Manifest, env: Env, i: nat)
    requires i < |m.specs|
  {
    && (forall j :: 0 <= j < |m.specs| ==> Compatible(m.specs[i], m.specs[j], env))
    && (m.prune && Served(m.specs[i], env) ==> Seen(m.specs, Trim(m.specs[i].id)))
  }

  predicate Converges(m: Manifest, env: Env) {
    forall i :: 0 <= i < |m.specs| ==> SpecConverges(m, env, i)
  }

  /** After a seeding, pruned or not, such a spec is settled. */
  lemma {:induction false} SeedSettlesManifest(rows: Table, m: Manifest, env: Env, nonce: nat, i: nat)
    requires i < |m.specs| && SpecConverges(m, env, i) && Seed(rows, m, env, nonce).Some?
    ensures SpecSettled(Seed(rows, m, env, nonce).value.1, m.specs[i], env)
  {
    hide SpecSettled, SeedAll, Prune, Trim, Load, Served, Compatible, Seen;
    PassSettles(rows, m.specs, env, nonce, i);
    if m.prune {
      PruneKeepsSettled(SeedAll(rows, m.specs, env, nonce).value.1, m.specs, m.specs[i], env);
    }
  }

  /** A seeding that succeeds, changes no row, and reports every spec as unchanged or skipped. */
  predicate NothingToDo(rows: Table, m: Manifest, env: Env, nonce: nat) {
    && Seed(rows, m, env, nonce).Some?
    && (var (counts, after) := Seed(rows, m, env, nonce).value;
        && after == rows
        && counts.created == 0 && counts.updated == 0 && counts.revoked == 0
        && counts.same + counts.skipped == |m.specs|)
  }

  /** Convergence in one pass: seeding again with the same manifest and environment does nothing. */
  lemma {:induction false} SecondSeedingChangesNothing(rows: Table, m: Manifest, env: Env, nonce: nat, again: nat)
    requires Converges(m, env) && Seed(rows, m, env, nonce).Some?
    ensures NothingToDo(Seed(rows, m, env, nonce).value.1, m, env, again)
  {
    hide SpecSettled, SeedAll, Prune, SpecConverges;
    var once := Seed(rows, m, env, nonce).value.1;
    forall i | 0 <= i < |m.specs|
      ensures SpecSettled(once, m.specs[i], env)
    {
      SeedSettlesManifest(rows, m, env, nonce, i);
    }
    SuccessIsOfManifest(rows, once, m.specs, env, nonce, again);
    SettledPassChangesNothing(once, m.specs, env, again);
    if m.prune {
      PruneIsIdempotent(SeedAll(rows, m.specs, env, nonce).value.1, m.specs);
    }
  }

  /** With prune, afterwards every active managed row belongs to the manifest. */
  lemma {:induction false} PruneLeavesOnlyManifest(rows: Table, m: Manifest, env: Env, nonce: nat, i: nat)
    requires m.prune && Seed(rows, m, env, nonce).Some? && i < |Seed(rows, m, env, nonce).value.1|
    ensures var row := Seed(rows, m, env, nonce).value.1[i];
            IsManaged(row) && !row.revoked ==> Seen(m.specs, SeedId(row))
  {
    hide SeedAll;
    PruneEffect(SeedAll(rows, m.specs, env, nonce).value.1, m.specs);
  }

  /** Afterwards every enabled spec with a key in the environment loads an active row equal to it. */
  lemma {:induction false} EnabledSpecsAreServed(rows: Table, m: Manifest, env: Env, nonce: nat, i: nat)
    requires i < |m.specs| && SpecConverges(m, env, i) && Seed(rows, m, env, nonce).Some?
    ensures Validate(m.specs[i], env).Some?
    ensures var s := Validate(m.specs[i], env).value;
            var row := Load(Seed(rows, m, env, nonce).value.1, s.id);
            && (Enabled(s) && Getenv(env, s.apiKeyEnv) != "" ==>
                row.Some? && !row.value.revoked && Matches(row.value, s) && HasKey(row.value, Getenv(env, s.apiKeyEnv)))
            && (!Enabled(s) ==> row.None? || row.value.revoked)
  {
    hide SeedAll, Prune, Trim, ProviderScheme, Validate, Load, Seed, SpecConverges;
    SeedSettlesManifest(rows, m, env, nonce, i);
  }

  /** The row that a served entry of the manifest has afterwards, column by column. */
  lemma {:induction false} ServedRowExactly(rows: Table, m: Manifest, env: Env, nonce: nat, i: nat)
    requires i < |m.specs| && SpecConverges(m, env, i) && Seed(rows, m, env, nonce).Some?
    requires m.specs[i].enabled != Some(false)
    requires Trim(m.specs[i].apiKeyEnv) in env.vars && env.vars[Trim(m.specs[i].apiKeyEnv)] != ""
    ensures var raw := m.specs[i];
            var found := Load(Seed(rows, m, env, nonce).value.1, Trim(raw.id));
            && found.Some?
            && (var row := found.value;
                && row.org == None && !row.revoked
                && row.title == (if Trim(raw.title) == "" then Trim(raw.id) else Trim(raw.title))
                && row.baseUrl == Trim(raw.baseUrl) && row.providerId == Trim(raw.providerId)
                && EndsWithScheme(raw, row.authScheme)
                && row.remaining == raw.remaining && row.refillAmount == raw.refillAmount
                && row.refillInterval == raw.refillInterval
                && row.meta == raw.meta["managed_by" := Str("global_llm_seed")]
                                       ["global_seed_id" := Str(Trim(raw.id))]
                                       ["api_key_env" := Str(Trim(raw.apiKeyEnv))]
                && row.secret.Secret? && row.secret.plain == env.vars[Trim(raw.apiKeyEnv)])
  {
    hide SeedAll, Prune, Trim, Load, Seed, SpecConverges, Validate, EndsWithScheme, Served;
    SeedSettlesManifest(rows, m, env, nonce, i);
    ValidateExactly(m.specs[i], env);
    ValidIsServed(m.specs[i], env);
    SettledIsServed(Seed(rows, m, env, nonce).value.1, m.specs[i], env);
  }

  lemma {:induction false} ValidIsServed(raw: Spec, env: Env)
    requires Validate(raw, env).Some? && raw.enabled != Some(false) && Getenv(env, Trim(raw.apiKeyEnv)) != ""
    ensures Served(raw, env)
  {
    hide Validate, Trim;
  }

  /** Rows of orgs, and rows that no seeder manages, are never touched. */
  lemma {:induction false} ForeignRowsUntouched(rows: Table, m: Manifest, env: Env, nonce: nat, i: nat)
    requires Seed(rows, m, env, nonce).Some? && i < |rows| && !IsManaged(rows[i])
    ensures i < |Seed(rows, m, env, nonce).value.1| && Seed(rows, m, env, nonce).value.1[i] == rows[i]
  {
    hide SeedAll, Prune, IsManaged;
    PassKeepsForeignRows(rows, m.specs, env, nonce, i);
    PruneEffect(SeedAll(rows, m.specs, env, nonce).value.1, m.specs);
  }

  lemma {:induction false} PassKeepsForeignRows(rows: Table, specs: seq<Spec>, env: Env, nonce: nat, i: nat)
    requires SeedAll(rows, specs, env, nonce).Some? && i < |rows| && !IsManaged(rows[i])
    ensures i < |SeedAll(rows, specs, env, nonce).value.1| && SeedAll(rows, specs, env, nonce).value.1[i] == rows[i]
  {
    hide Validate, SeedValid, IsManaged;
    if specs != [] {
      var n := |specs| - 1;
      PassKeepsForeignRows(rows, specs[..n], env, nonce, i);
      OneKeepsForeignRows(SeedAll(rows, specs[..n], env, nonce).value.1, Validate(specs[n], env).value, env,
        nonce + n, i);
    }
  }

  lemma {:induction false} OneKeepsForeignRows(rows: Table, s: Spec, env: Env, nonce: nat, i: nat)
    requires SeedValid(rows, s, env, nonce).Some? && i < |rows| && !IsManaged(rows[i])
    ensures i < |SeedValid(rows, s, env, nonce).value.1| && SeedValid(rows, s, env, nonce).value.1[i] == rows[i]
  {
  }

  // ---------------------------------------------------------------- when one pass is not enough

  /** A settled served spec has an active row that is just what it asks for. */
  lemma {:induction false} SettledIsServed(rows: Table, raw: Spec, env: Env)
    requires SpecSettled(rows, raw, env) && Served(raw, env)
    ensures var row, s := Load(rows, Trim(raw.id)), Validate(raw, env).value;
            && row.Some? && !row.value.revoked && IsManaged(row.value) && SeedId(row.value) == Trim(raw.id)
            && Matches(row.value, s) && HasKey(row.value, Getenv(env, s.apiKeyEnv))
  {
    hide Trim, ProviderScheme, Validate, Served, Matches, HasKey;
    ValidKeepsTrimmedId(raw, env);
    ValidKeepsServing(raw, env);
  }

  lemma {:induction false} SettledIsRevoked(rows: Table, raw: Spec, env: Env)
    requires SpecSettled(rows, raw, env) && !Enabled(raw)
    ensures Load(rows, Trim(raw.id)).None? || Load(rows, Trim(raw.id)).value.revoked
  {
    hide Trim, ProviderScheme, Validate;
    ValidKeepsTrimmedId(raw, env);
    ValidKeepsServing(raw, env);
  }

  /** Two specs that are settled at once are compatible. */
  lemma {:induction false} SettledTogether(rows: Table, a: Spec, b: Spec, env: Env)
    requires SpecSettled(rows, a, env) && SpecSettled(rows, b, env)
    ensures Compatible(a, b, env)
  {
    hide SpecSettled, Trim, Validate, Served, Load;
    if Served(a, env) {
      SettledIsServed(rows, a, env);
    }
    if Served(b, env) {
      SettledIsServed(rows, b, env);
    }
    if !Enabled(a) {
      SettledIsRevoked(rows, a, env);
    }
    if !Enabled(b) {
      SettledIsRevoked(rows, b, env);
    }
  }

  lemma {:induction false} NothingToDoIsQuiet(rows: Table, m: Manifest, env: Env, nonce: nat)
    requires NothingToDo(rows, m, env, nonce)
    ensures var all := SeedAll(rows, m.specs, env, nonce);
            all.Some? && all.value.0.created == 0 && all.value.0.updated == 0 && all.value.0.revoked == 0
  {
    hide SeedAll;
  }

  /** Exactly when one seeding is enough, for every manifest that passes its checks. */
  lemma {:induction false} ConvergesExactly(rows: Table, m: Manifest, env: Env, nonce: nat, again: nat)
    requires Seed(rows, m, env, nonce).Some?
    ensures NothingToDo(Seed(rows, m, env, nonce).value.1, m, env, again) <==> Converges(m, env)
  {
    hide SeedAll, Prune, Trim, Load, Served, SpecSettled, Compatible;
    var once := Seed(rows, m, env, nonce).value.1;
    if Converges(m, env) {
      SecondSeedingChangesNothing(rows, m, env, nonce, again);
    }
    if NothingToDo(once, m, env, again) {
      NothingToDoIsQuiet(once, m, env, again);
      QuietPassMeansSettled(once, m.specs, env, again);
      forall i | 0 <= i < |m.specs|
        ensures SpecConverges(m, env, i)
      {
        forall j | 0 <= j < |m.specs|
          ensures Compatible(m.specs[i], m.specs[j], env)
        {
          SettledTogether(once, m.specs[i], m.specs[j], env);
        }
        if m.prune && Served(m.specs[i], env) {
          SettledIsServed(once, m.specs[i], env);
          LoadedIsListed(rows, m, env, nonce, Trim(m.specs[i].id));
        }
      }
    }
  }

  lemma {:induction false} LoadedIsListed(rows: Table, m: Manifest, env: Env, nonce: nat, id: string)
    requires m.prune && Seed(rows, m, env, nonce).Some?
    requires Load(Seed(rows, m, env, nonce).value.1, id).Some?
    requires !Load(Seed(rows, m, env, nonce).value.1, id).value.revoked
    ensures Seen(m.specs, id)
  {
    hide SeedAll, Prune, Seen, Seed;
    var once := Seed(rows, m, env, nonce).value.1;
    PruneLeavesOnlyManifest(rows, m, env, nonce, Find(once, id).value);
  }

  /** No pass takes a loaded row away. */
  lemma {:induction false} PassKeepsLoaded(rows: Table, specs: seq<Spec>, env: Env, nonce: nat, id: string)
    requires SeedAll(rows, specs, env, nonce).Some?
    ensures Load(rows, id).Some? ==> Load(SeedAll(rows, specs, env, nonce).value.1, id).Some?
    ensures forall i :: 0 <= i < |specs| && Served(specs[i], env) && Trim(specs[i].id) == id ==>
      Load(SeedAll(rows, specs, env, nonce).value.1, id).Some?
  {
    hide SeedOne, SpecSettled, Trim, Load, Seen, Served;
    if specs != [] {
      var n := |specs| - 1;
      var before := SeedAll(rows, specs[..n], env, nonce).value.1;
      PassKeepsLoaded(rows, specs[..n], env, nonce, id);
      OneSettles(before, specs[n], env, nonce + n);
      if Trim(specs[n].id) == id {
        OneKeepsLoaded(before, specs[n], env, nonce + n);
      }
      assert forall i :: 0 <= i < n ==> specs[..n][i] == specs[i];
    }
  }

  lemma {:induction false} OneKeepsLoaded(rows: Table, raw: Spec, env: Env, nonce: nat)
    requires SeedOne(rows, raw, env, nonce).Some?
    ensures Load(rows, Trim(raw.id)).Some? || Served(raw, env) ==>
      Load(SeedOne(rows, raw, env, nonce).value.1, Trim(raw.id)).Some?
  {
    hide Trim, ProviderScheme, Validate, Served, IsManagedAs, NewRow;
    ValidKeepsTrimmedId(raw, env);
    ValidKeepsServing(raw, env);
    var s := Validate(raw, env).value;
    var after := SeedOne(rows, raw, env, nonce).value.1;
    var key := Getenv(env, s.apiKeyEnv);
    NewRowIsManaged(s, Secret(key, nonce), s.id);
    if Find(rows, s.id).Some? {
      var row := rows[Find(rows, s.id).value];
      NewRowIsManaged(s, row.secret, s.id);
      RevokedIsManaged(row, s.id);
    }
    if Find(rows, s.id).Some? {
      FindSome(after, s.id, Find(rows, s.id).value);
    } else if Served(raw, env) {
      FindSome(after, s.id, |rows|);
    }
  }

  lemma {:induction false} FindSome(rows: Table, id: string, i: nat)
    requires i < |rows| && IsManagedAs(rows[i], id)
    ensures Find(rows, id).Some?
  {
    hide IsManagedAs;
  }

  /** A pruning pass revokes the row it has just served if no id of the manifest is written as the row
      carries it. */
  lemma {:induction false} PruneRevokesServed(rows: Table, m: Manifest, env: Env, nonce: nat, i: nat)
    requires m.prune && Seed(rows, m, env, nonce).Some?
    requires i < |m.specs| && Served(m.specs[i], env) && !Seen(m.specs, Trim(m.specs[i].id))
    ensures var row := Load(Seed(rows, m, env, nonce).value.1, Trim(m.specs[i].id)); row.Some? && row.value.revoked
  {
    hide SeedAll, Prune, Trim, Load, Served, Seen;
    var id := Trim(m.specs[i].id);
    PassKeepsLoaded(rows, m.specs, env, nonce, id);
    PruneMayRevoke(SeedAll(rows, m.specs, env, nonce).value.1, m.specs, id);
    if !Load(Seed(rows, m, env, nonce).value.1, id).value.revoked {
      LoadedIsListed(rows, m, env, nonce, id);
    }
  }

  // ---------------------------------------------------------------- two manifests

  function Example(id: string, title: string): Spec {
    Spec(id, title, "openai", "u", "", "K", false, None, None, None, None, map[])
  }

  const EXAMPLE_ENV := Env(map["K" := "k"], {"u"}, {})

  lemma {:induction false} TrimNothing(s: string)
    requires s != "" && !IsSpace(s[0]) && !IsSpace(s[|s| - 1])
    ensures Trim(s) == s && Trim(" " + s) == s
  {
    assert (" " + s)[1..] == s;
  }

  lemma {:induction false} ExampleIsServed(id: string, name: string, title: string)
    requires name != "" && Trim(id) == name && title != "" && Trim(title) == title
    ensures Served(Example(id, title), EXAMPLE_ENV)
    ensures var s := Validate(Example(id, title), EXAMPLE_ENV).value;
            s == Example(name, title).(authScheme := "bearer")
  {
    hide IsSpace;
    TrimWord("openai");
    TrimWord("u");
    TrimWord("K");
    assert Trim("") == "";
  }

  lemma {:induction false} TrimWord(s: string)
    requires s == "openai" || s == "u" || s == "K"
    ensures Trim(s) == s
  {
    TrimNothing(s);
  }

  /** The prune and the blank: the row of " a" is revoked by the pass that served it, every time. */
  lemma {:induction false} BlankIdNeverSettles(nonce: nat, again: nat)
    ensures var m := Manifest(true, [Example(" a", "t")]);
            && Seed([], m, EXAMPLE_ENV, nonce).Some?
            && (var once := Seed([], m, EXAMPLE_ENV, nonce).value.1;
                && Load(once, "a").Some? && Load(once, "a").value.revoked
                && !NothingToDo(once, m, EXAMPLE_ENV, again))
  {
    hide Trim, Served, Validate, Load, NothingToDo, Prune, Find;
    var raw := Example(" a", "t");
    var m := Manifest(true, [raw]);
    TrimNothing("a");
    TrimNothing("t");
    assert " " + "a" == " a";
    ExampleIsServed(" a", "a", "t");
    OnePasses([], raw, nonce);
    assert !Seen(m.specs, "a");
    PruneRevokesServed([], m, EXAMPLE_ENV, nonce, 0);
    ConvergesExactly([], m, EXAMPLE_ENV, nonce, again);
    assert !SpecConverges(m, EXAMPLE_ENV, 0);
  }

  lemma {:induction false} OnePasses(rows: Table, raw: Spec, nonce: nat)
    requires Served(raw, EXAMPLE_ENV)
    ensures SeedAll(rows, [raw], EXAMPLE_ENV, nonce).Some?
  {
    hide Trim, Validate, Find, Matches;
    ValidKeepsServing(raw, EXAMPLE_ENV);
    assert [raw][..0] == [] && SeedAll(rows, [raw][..0], EXAMPLE_ENV, nonce).Some?;
  }

  /** Two specs whose ids differ only in a blank pass the duplicate check and share one row: they
      settle exactly when they ask for the same, and otherwise take turns for ever. */
  lemma {:induction false} TwinsSettleExactly(x: string, y: string, nonce: nat, again: nat)
    requires x != "" && Trim(x) == x && y != "" && Trim(y) == y
    ensures var m := Manifest(false, [Example("a", x), Example(" a", y)]);
            && Seed([], m, EXAMPLE_ENV, nonce).Some?
            && (NothingToDo(Seed([], m, EXAMPLE_ENV, nonce).value.1, m, EXAMPLE_ENV, again) <==> x == y)
  {
    hide Trim, Served, Validate, NothingToDo, Prune, Find, Load;
    var a, b := Example("a", x), Example(" a", y);
    var m := Manifest(false, [a, b]);
    TrimNothing("a");
    assert " " + "a" == " a";
    ExampleIsServed("a", "a", x);
    ExampleIsServed(" a", "a", y);
    OnePasses([], a, nonce);
    assert [a, b][..1] == [a];
    TwoPass(a, b, nonce);
    ConvergesExactly([], m, EXAMPLE_ENV, nonce, again);
    if x == y {
      assert Compatible(a, a, EXAMPLE_ENV) && Compatible(a, b, EXAMPLE_ENV);
      assert Compatible(b, a, EXAMPLE_ENV) && Compatible(b, b, EXAMPLE_ENV);
      assert SpecConverges(m, EXAMPLE_ENV, 0) && SpecConverges(m, EXAMPLE_ENV, 1);
    } else {
      assert !Compatible(m.specs[0], m.specs[1], EXAMPLE_ENV);
      assert !SpecConverges(m, EXAMPLE_ENV, 0);
    }
  }

  lemma {:induction false} TwoPass(a: Spec, b: Spec, nonce: nat)
    requires SeedAll([], [a], EXAMPLE_ENV, nonce).Some? && Served(b, EXAMPLE_ENV) && a.id != b.id
    ensures SeedAll([], [a, b], EXAMPLE_ENV, nonce).Some?
  {
    hide Trim, Validate, Find, Matches;
    ValidKeepsServing(b, EXAMPLE_ENV);
    assert [a, b][..1] == [a];
  }

  // ---------------------------------------------------------------- the loops in place

  class Seeder {
    var rows: Table

    constructor (rows: Table)
      ensures this.rows == rows
    {
      this.rows := rows;
    }

    /** seedGlobalLLMCredential */
    method SeedSpec(raw: Spec, env: Env, nonce: nat) returns (state: Option<State>)
      modifies this
      ensures state.None? <==> old(SeedOne(rows, raw, env, nonce)).None?
      ensures state.None? ==> rows == old(rows)
      ensures state.Some? ==> old(SeedOne(rows, raw, env, nonce)) == Some((state.value, rows))
    {
      hide Validate, ManagedMeta, ProviderScheme;
      var valid := Validate(raw, env);
      if valid.None? {
        return None;
      }
      var spec := valid.value;
      var existing := Find(rows, spec.id);
      if !Enabled(spec) {
        if existing.None? || rows[existing.value].revoked {
          return Some(Skipped);
        }
        rows := rows[existing.value := rows[existing.value].(revoked := true)];
        return Some(Revoked);
      }
      var apiKey := Getenv(env, spec.apiKeyEnv);
      if apiKey == "" {
        return if spec.required then None else Some(Skipped);
      }
      var secret := Secret(apiKey, nonce);
      if existing.None? {
        rows := rows + [NewRow(spec, secret)];
        return Some(Created);
      }
      var row := rows[existing.value];
      var keyChanged := true;
      if row.secret.Secret? {
        keyChanged := row.secret.plain != apiKey;
      }
      if Matches(row, spec) && !keyChanged && !row.revoked {
        return Some(Unchanged);
      }
      rows := rows[existing.value := NewRow(spec, if keyChanged then secret else row.secret)];
      state := Some(Updated);
    }

    /** revokeManagedCredentialsNotInManifest */
    method PruneRows(specs: seq<Spec>) returns (revoked: nat)
      modifies this
      ensures (revoked, rows) == old(Prune(rows, specs))
    {
      ghost var before := rows;
      revoked := 0;
      for i := 0 to |rows|
        invariant |rows| == |before| && rows[i..] == before[i..]
        invariant (revoked, rows[..i]) == Prune(before[..i], specs)
      {
        assert before[..i + 1][..i] == before[..i] && before[i] == rows[i];
        var row := rows[i];
        if Prunable(row, specs) {
          rows := rows[i := row.(revoked := true)];
          revoked := revoked + 1;
        }
        assert rows[..i + 1] == rows[..i] + [rows[i]];
      }
      assert before[..|before|] == before && rows[..|rows|] == rows;
    }

    /** SeedGlobalLLMCredentials: an error anywhere rolls the table back. */
    method Run(m: Manifest, env: Env, nonce: nat) returns (counts: Option<Counts>)
      modifies this
      ensures counts.None? <==> old(Seed(rows, m, env, nonce)).None?
      ensures counts.None? ==> rows == old(rows)
      ensures counts.Some? ==> old(Seed(rows, m, env, nonce)) == Some((counts.value, rows))
    {
      hide SeedOne, Prune;
      ghost var start := rows;
      var before := rows;
      var result := Counts(0, 0, 0, 0, 0);
      var seen: set<string> := {};
      for i := 0 to |m.specs|
        invariant before == start
        invariant forall id :: id in seen <==> Seen(m.specs[..i], id)
        invariant SeedAll(start, m.specs[..i], env, nonce) == Some((result, rows))
      {
        assert m.specs[..i + 1][..i] == m.specs[..i];
        if m.specs[i].id in seen {
          PrefixFails(start, m.specs, env, nonce, i + 1);
          rows := before;
          return None;
        }
        seen := seen + {m.specs[i].id};
        SeenNext(m.specs, i);
        var state := SeedSpec(m.specs[i], env, nonce + i);
        if state.None? {
          PrefixFails(start, m.specs, env, nonce, i + 1);
          rows := before;
          return None;
        }
        result := Count(result, state.value);
      }
      assert m.specs[..|m.specs|] == m.specs;
      if m.prune {
        var revoked := PruneRows(m.specs);
        result := result.(revoked := result.revoked + revoked);
      }
      counts := Some(result);
    }
  }

  lemma {:induction false} SeenNext(specs: seq<Spec>, i: nat)
    requires i < |specs|
    ensures forall id :: Seen(specs[..i + 1], id) <==> Seen(specs[..i], id) || id == specs[i].id
  {
    forall id
      ensures Seen(specs[..i + 1], id) <==> Seen(specs[..i], id) || id == specs[i].id
    {
      if id == specs[i].id {
        assert specs[..i + 1][i].id == id;
      } else if Seen(specs[..i], id) {
        var j :| 0 <= j < i && specs[..i][j].id == id;
        assert specs[..i + 1][j].id == id;
      }
    }
  }

  /** A prefix of the manifest that fails makes the whole fail. */
  lemma {:induction false} PrefixFails(rows: Table, specs: seq<Spec>, env: Env, nonce: nat, n: nat)
    requires n <= |specs| && SeedAll(rows, specs[..n], env, nonce).None?
    ensures SeedAll(rows, specs, env, nonce).None?
  {
    if n == |specs| {
      assert specs[..n] == specs;
    } else {
      assert specs[..|specs| - 1][..n] == specs[..n];
      PrefixFails(rows, specs[..|specs| - 1], env, nonce, n);
    }
  }
}
