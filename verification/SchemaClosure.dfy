/** Flattening of referenced response schemas: a depth-first closure over a reference graph that may
    have cycles.  The OpenAPI 3 and Swagger 2 generators run the same traversal and differ only in
    the prefix of a local reference. */
module SchemaClosure {
  import opened Options

  const V3_PREFIX := "#/components/schemas/"
  const V2_PREFIX := "#/definitions/"

  /** What a property's proxy resolves to. */
  datatype Resolved = Resolved(types: seq<string>, description: string, nullable: bool)

  /** A property: its $ref ("" if none) and its schema, if that resolves. */
  datatype PropertyProxy = PropertyProxy(ref: string, schema: Option<Resolved>)

  /** A component schema; `items` is the $ref of its items, None when it has no single item schema. */
  datatype Schema = Schema(types: seq<string>, items: Option<string>,
                           properties: Option<seq<(string, Option<PropertyProxy>)>>)

  /** The component table; a proxy that does not resolve has no schema. */
  type Components = map<string, Option<Schema>>

  datatype SchemaProperty = SchemaProperty(typ: string, description: string, nullable: bool, schemaRef: string)

  datatype FlatSchema = FlatSchema(typ: string, properties: map<string, SchemaProperty>, items: Option<string>)

  type Schemas = map<string, FlatSchema>

  // ---------------------------------------------------------------- flattening one schema

  predicate HasPrefix(s: string, prefix: string) {
    |prefix| <= |s| && s[..|prefix|] == prefix
  }

  function LastSegment(s: string): string {
    if s == [] then []
    else if s[|s| - 1] == '/' then []
    else LastSegment(s[..|s| - 1]) + [s[|s| - 1]]
  }

  function RefName(prefix: string, ref: string): string {
    if ref == "" then ""
    else if HasPrefix(ref, prefix) then ref[|prefix|..]
    else LastSegment(ref)
  }

  /** A local reference names its component, whatever the name. */
  lemma {:induction false} LocalRefName(prefix: string, name: string)
    requires prefix != ""
    ensures RefName(prefix, prefix + name) == name
  {
    assert (prefix + name)[..|prefix|] == prefix;
  }

  /** Any other reference names its last path segment, or itself when it has no slash; no reference, no name. */
  lemma {:induction false} OtherRefName(prefix: string, path: string, name: string)
    requires '/' !in name && name != ""
    ensures RefName(prefix, "") == ""
    ensures (forall rest :: path + "/" + name != prefix + rest) ==> RefName(prefix, path + "/" + name) == name
    ensures (forall rest :: name != prefix + rest) ==> RefName(prefix, name) == name
  {
    LastSegmentOf(path, name);
    LastSegmentOfWhole(name);
    var long := path + "/" + name;
    if HasPrefix(long, prefix) {
      assert long == prefix + long[|prefix|..];
    }
    if HasPrefix(name, prefix) {
      assert name == prefix + name[|prefix|..];
    }
  }

  lemma {:induction false} LastSegmentOfWhole(name: string)
    requires '/' !in name
    ensures LastSegment(name) == name
  {
    if name != [] {
      LastSegmentOfWhole(name[..|name| - 1]);
    }
  }

  /** The two prefixes as documents write them; what follows is the name, slashes included. */
  lemma {:induction false} PrefixesAsWritten()
    ensures RefName(V3_PREFIX, "#/components/schemas/a/b") == "a/b"
    ensures RefName(V2_PREFIX, "#/definitions/a/b") == "a/b"
  {
    LocalRefName(V3_PREFIX, "a/b");
    LocalRefName(V2_PREFIX, "a/b");
    assert "#/components/schemas/a/b" == V3_PREFIX + "a/b";
    assert "#/definitions/a/b" == V2_PREFIX + "a/b";
  }

  /** The same document in Swagger 2 writes its local references with the other prefix. */
  function ToV2(ref: string): string {
    if HasPrefix(ref, V3_PREFIX) then V2_PREFIX + ref[|V3_PREFIX|..] else ref
  }

  /** The two generators read the same component name out of the two forms of a reference. */
  lemma {:induction false} GeneratorsAgree(ref: string)
    requires !HasPrefix(ref, V2_PREFIX)
    ensures RefName(V2_PREFIX, ToV2(ref)) == RefName(V3_PREFIX, ref)
  {
    if HasPrefix(ref, V3_PREFIX) {
      LocalRefName(V2_PREFIX, ref[|V3_PREFIX|..]);
    }
  }

  /** Any other reference names its last path segment. */
  lemma {:induction false} LastSegmentOf(path: string, name: string)
    requires '/' !in name
    ensures LastSegment(path + "/" + name) == name
  {
    if name == [] {
      assert (path + "/" + name)[|path|] == '/';
      assert path + "/" + name == path + "/";
    } else {
      var n := |name| - 1;
      assert (path + "/" + name)[..|path + "/" + name| - 1] == path + "/" + name[..n];
      LastSegmentOf(path, name[..n]);
    }
  }

  function FlattenProperty(prefix: string, proxy: Option<PropertyProxy>): SchemaProperty {
    if proxy.None? then SchemaProperty("string", "", false, "")
    else
      var name := RefName(prefix, proxy.value.ref);
      if proxy.value.schema.None? then
        if name != "" then SchemaProperty("object", "", false, name) else SchemaProperty("string", "", false, "")
      else
        var s := proxy.value.schema.value;
        var typ := if s.types != [] then s.types[0] else if name != "" then "object" else "string";
        SchemaProperty(typ, s.description, s.nullable, if name != "" && typ == "object" then name else "")
  }

  /** What a property is stored as.  The type is the first one it declares; without any it is an object
      if it is a reference, else a string.  The reference is kept for objects only. */
  lemma {:induction false} PropertyExactly(prefix: string, ref: string, types: seq<string>, description: string,
                                           nullable: bool)
    ensures FlattenProperty(prefix, None) == SchemaProperty("string", "", false, "")
    ensures var name := RefName(prefix, ref);
            var unresolved := FlattenProperty(prefix, Some(PropertyProxy(ref, None)));
            unresolved == SchemaProperty(if name == "" then "string" else "object", "", false, name)
    ensures var name := RefName(prefix, ref);
            var schema := Resolved(types, description, nullable);
            var stored := FlattenProperty(prefix, Some(PropertyProxy(ref, Some(schema))));
            && (|types| > 0 ==> stored.typ == types[0])
            && (types == [] && name != "" ==> stored.typ == "object")
            && (types == [] && name == "" ==> stored.typ == "string")
            && stored.description == description && stored.nullable == nullable
            && stored.schemaRef == if stored.typ == "object" then name else ""
  {
  }

  function FlattenProperties(prefix: string, props: seq<(string, Option<PropertyProxy>)>): map<string, SchemaProperty> {
    if props == [] then map[]
    else
      var last := props[|props| - 1];
      FlattenProperties(prefix, props[..|props| - 1])[last.0 := FlattenProperty(prefix, last.1)]
  }

  /** Of properties with the same name the last one is kept, and no other name appears. */
  lemma {:induction false} LastPropertyWins(prefix: string, props: seq<(string, Option<PropertyProxy>)>, i: nat)
    requires i < |props| && forall j :: i < j < |props| ==> props[j].0 != props[i].0
    ensures props[i].0 in FlattenProperties(prefix, props)
    ensures FlattenProperties(prefix, props)[props[i].0] == FlattenProperty(prefix, props[i].1)
  {
    var n := |props| - 1;
    if i < n {
      LastPropertyWins(prefix, props[..n], i);
    }
  }

  lemma {:induction false} OnlyProperties(prefix: string, props: seq<(string, Option<PropertyProxy>)>, k: string)
    ensures k in FlattenProperties(prefix, props) <==> exists i :: 0 <= i < |props| && props[i].0 == k
  {
    if props != [] {
      var n := |props| - 1;
      OnlyProperties(prefix, props[..n], k);
      if i :| 0 <= i < n && props[i].0 == k {
        assert props[..n][i].0 == k;
      }
    }
  }

  function TypeOf(s: Schema): string {
    if s.types != [] then s.types[0] else "object"
  }

  /** The array branch is taken: an array with a single item schema. */
  predicate IsArray(s: Schema) {
    TypeOf(s) == "array" && s.items.Some?
  }

  /** What is stored for a component, apart from any recursion. */
  function FlatOf(prefix: string, s: Schema): FlatSchema {
    if IsArray(s) then
      var item := RefName(prefix, s.items.value);
      FlatSchema("array", map[], if item != "" then Some(item) else None)
    else
      FlatSchema(TypeOf(s), if s.properties.Some? then FlattenProperties(prefix, s.properties.value) else map[], None)
  }

  /** What a component is stored as: its first type, or object without one; an array with one item schema
      keeps the item's name and no properties, anything else keeps its properties. */
  lemma {:induction false} ComponentExactly(prefix: string, s: Schema)
    ensures FlatOf(prefix, s).typ == if |s.types| == 0 then "object" else s.types[0]
    ensures FlatOf(prefix, s).typ == "array" && s.items.Some? ==>
      var name := RefName(prefix, s.items.value);
      FlatOf(prefix, s).properties == map[] && FlatOf(prefix, s).items == if name == "" then None else Some(name)
    ensures !(FlatOf(prefix, s).typ == "array" && s.items.Some?) ==>
      && FlatOf(prefix, s).items == None
      && FlatOf(prefix, s).properties ==
         FlattenProperties(prefix, if s.properties.Some? then s.properties.value else [])
  {
  }

  /** The names a stored schema refers to. */
  function Refs(flat: FlatSchema): set<string> {
    (if flat.items.Some? then {flat.items.value} else {})
    + (set k | k in flat.properties && flat.properties[k].schemaRef != "" :: flat.properties[k].schemaRef)
  }

  // ---------------------------------------------------------------- the reference graph

  predicate Resolvable(components: Components, name: string) {
    name in components && components[name].Some?
  }

  function ComponentFlat(prefix: string, components: Components, name: string): FlatSchema
    requires Resolvable(components, name)
  {
    FlatOf(prefix, components[name].value)
  }

  /** A path of references through resolvable components none of which is in `avoid`. */
  ghost predicate Path(prefix: string, components: Components, avoid: set<string>, p: seq<string>) {
    && p != []
    && (forall i :: 0 <= i < |p| ==> Resolvable(components, p[i]) && p[i] !in avoid)
    && (forall i :: 0 < i < |p| ==> p[i] in Refs(ComponentFlat(prefix, components, p[i - 1])))
  }

  ghost predicate Reaches(prefix: string, components: Components, avoid: set<string>, from: string, to: string) {
    exists p :: Path(prefix, components, avoid, p) && p[0] == from && p[|p| - 1] == to
  }

  /** Every name a stored schema refers to is stored, if it resolves at all. */
  predicate Closed(components: Components, schemas: Schemas) {
    forall n :: n in schemas ==> forall r :: r in Refs(schemas[n]) && Resolvable(components, r) ==> r in schemas
  }

  ghost predicate Extends(before: Schemas, after: Schemas) {
    forall n :: n in before ==> n in after && after[n] == before[n]
  }

  /** What one call on `name` does to the shared map: it keeps what is there, stores `name` if it
      resolves, and whatever it adds is a reachable component's own flat schema, with all resolvable
      references stored too. */
  ghost predicate FlattensFrom(prefix: string, components: Components, before: Schemas, after: Schemas, name: string) {
    && Extends(before, after)
    && (Resolvable(components, name) ==> name in after)
    && (forall n :: n in after && n !in before ==>
         && Resolvable(components, n) && after[n] == ComponentFlat(prefix, components, n)
         && Reaches(prefix, components, before.Keys, name, n))
    && (forall n, r :: n in after && n !in before && r in Refs(after[n]) && Resolvable(components, r) ==> r in after)
  }

  lemma {:induction false} PathIsStored(
      prefix: string, components: Components, before: Schemas, after: Schemas, name: string, p: seq<string>)
    requires FlattensFrom(prefix, components, before, after, name)
    requires Path(prefix, components, before.Keys, p) && p[0] == name
    ensures p[|p| - 1] in after
  {
    if |p| > 1 {
      var q := p[..|p| - 1];
      PathIsStored(prefix, components, before, after, name, q);
      assert p[|p| - 1] in Refs(ComponentFlat(prefix, components, q[|q| - 1]));
    }
  }

  /** The call adds exactly the components reachable from `name` through names not stored before, each
      with its own flat schema; so the outcome does not depend on the order of iteration. */
  lemma {:induction false} FlattenIsClosure(prefix: string, components: Components, before: Schemas,
        after: Schemas, name: string, n: string)
    requires FlattensFrom(prefix, components, before, after, name)
    ensures n in after <==> n in before || Reaches(prefix, components, before.Keys, name, n)
    ensures n in after ==> after[n] == if n in before then before[n] else ComponentFlat(prefix, components, n)
  {
    if Reaches(prefix, components, before.Keys, name, n) {
      var p :| Path(prefix, components, before.Keys, p) && p[0] == name && p[|p| - 1] == n;
      PathIsStored(prefix, components, before, after, name, p);
    }
  }

  lemma {:induction false} FlattenIsDeterministic(
      prefix: string, components: Components, before: Schemas, one: Schemas, other: Schemas, name: string)
    requires FlattensFrom(prefix, components, before, one, name)
    requires FlattensFrom(prefix, components, before, other, name)
    ensures one == other
  {
    forall n
      ensures n in one <==> n in other
      ensures n in one ==> one[n] == other[n]
    {
      FlattenIsClosure(prefix, components, before, one, name, n);
      FlattenIsClosure(prefix, components, before, other, name, n);
    }
  }

  lemma {:induction false} FlattenKeepsClosed(prefix: string, components: Components, before: Schemas,
        after: Schemas, name: string)
    requires FlattensFrom(prefix, components, before, after, name) && Closed(components, before)
    ensures Closed(components, after)
  {
  }

  /** On a closed map of components' own flat schemas nothing reachable is left out, stored names on
      the way or not. */
  lemma {:induction false} FlattenReachesAll(
      prefix: string, components: Components, before: Schemas, after: Schemas, name: string, p: seq<string>)
    requires FlattensFrom(prefix, components, before, after, name) && Closed(components, before)
    requires forall n :: n in before && Resolvable(components, n) ==> before[n] == ComponentFlat(prefix, components, n)
    requires Path(prefix, components, {}, p) && p[0] == name
    ensures p[|p| - 1] in after
  {
    if |p| > 1 {
      var q := p[..|p| - 1];
      FlattenReachesAll(prefix, components, before, after, name, q);
      FlattenKeepsClosed(prefix, components, before, after, name);
      assert p[|p| - 1] in Refs(ComponentFlat(prefix, components, q[|q| - 1]));
    }
  }

  lemma {:induction false} ReachesItself(prefix: string, components: Components, avoid: set<string>, name: string)
    requires Resolvable(components, name) && name !in avoid
    ensures Reaches(prefix, components, avoid, name, name)
  {
    assert Path(prefix, components, avoid, [name]);
    assert [name][0] == name && [name][|[name]| - 1] == name;
  }

  /** What a nested call on a reference of `name` reaches, `name` reaches. */
  lemma {:induction false} ReachesThrough(prefix: string, components: Components, avoid: set<string>,
                                         inner: set<string>, name: string, r: string, n: string)
    requires Resolvable(components, name) && name !in avoid && avoid <= inner
    requires r in Refs(ComponentFlat(prefix, components, name)) && Reaches(prefix, components, inner, r, n)
    ensures Reaches(prefix, components, avoid, name, n)
  {
    var p :| Path(prefix, components, inner, p) && p[0] == r && p[|p| - 1] == n;
    var q := [name] + p;
    forall i | 0 < i < |q|
      ensures q[i] in Refs(ComponentFlat(prefix, components, q[i - 1]))
    {
      if i > 1 {
        assert q[i] == p[i - 1] && q[i - 1] == p[i - 2];
      }
    }
    assert Path(prefix, components, avoid, q);
    assert q[0] == name && q[|q| - 1] == n;
  }

  // ---------------------------------------------------------------- chains of arrays

  /** A call on `name` makes a call on its item before it stores anything: the component is an array
      with a referenced item, and it is not one of the names in `avoid`, where a call returns at once. */
  predicate HasLink(prefix: string, components: Components, avoid: set<string>, name: string) {
    && name !in avoid
    && Resolvable(components, name)
    && IsArray(components[name].value)
    && RefName(prefix, components[name].value.items.value) != ""
  }

  function Link(prefix: string, components: Components, name: string): string
    requires HasLink(prefix, components, {}, name)
  {
    RefName(prefix, components[name].value.items.value)
  }

  /** The chain of array items that starts at `name` and stops at `avoid` has at most `fuel` links. */
  predicate ChainEnds(prefix: string, components: Components, avoid: set<string>, name: string, fuel: nat)
    decreases fuel
  {
    !HasLink(prefix, components, avoid, name)
    || (fuel > 0 && ChainEnds(prefix, components, avoid, Link(prefix, components, name), fuel - 1))
  }

  ghost predicate ChainIsFinite(prefix: string, components: Components, avoid: set<string>, name: string) {
    exists fuel: nat :: ChainEnds(prefix, components, avoid, name, fuel)
  }

  /** The chains that a call on `name` can meet all end. */
  ghost predicate ArraysEnd(prefix: string, components: Components, avoid: set<string>, name: string) {
    forall n :: n == name || Reaches(prefix, components, avoid, name, n) ==> ChainIsFinite(prefix, components, avoid, n)
  }

  lemma {:induction false} NoChain(prefix: string, components: Components, avoid: set<string>, name: string)
    requires !HasLink(prefix, components, avoid, name)
    ensures ChainIsFinite(prefix, components, avoid, name)
  {
    assert ChainEnds(prefix, components, avoid, name, 0);
  }

  lemma {:induction false} ChainStopsSooner(prefix: string, components: Components, avoid: set<string>,
                                            inner: set<string>, name: string)
    requires ChainIsFinite(prefix, components, avoid, name) && avoid <= inner
    ensures ChainIsFinite(prefix, components, inner, name)
  {
    var fuel: nat :| ChainEnds(prefix, components, avoid, name, fuel);
    ChainEndsSooner(prefix, components, avoid, inner, name, fuel);
  }

  lemma {:induction false} ChainEndsSooner(prefix: string, components: Components, avoid: set<string>,
                                           inner: set<string>, name: string, fuel: nat)
    requires ChainEnds(prefix, components, avoid, name, fuel) && avoid <= inner
    ensures ChainEnds(prefix, components, inner, name, fuel)
    decreases fuel
  {
    if HasLink(prefix, components, inner, name) {
      ChainEndsSooner(prefix, components, avoid, inner, Link(prefix, components, name), fuel - 1);
    }
  }

  /** What a call may meet, its nested calls may meet, with more stored by then. */
  lemma {:induction false} RefsEnd(prefix: string, components: Components, avoid: set<string>, inner: set<string>,
                                   name: string, r: string)
    requires ArraysEnd(prefix, components, avoid, name) && Resolvable(components, name) && name !in avoid
    requires avoid <= inner && r in Refs(ComponentFlat(prefix, components, name))
    ensures ArraysEnd(prefix, components, inner, r)
  {
    hide ChainEnds, ChainIsFinite, ComponentFlat, Refs, Reaches;
    forall n | n == r || Reaches(prefix, components, inner, r, n)
      ensures ChainIsFinite(prefix, components, inner, n)
    {
      if n == r && (!Resolvable(components, r) || r in inner) {
        NoChain(prefix, components, inner, r);
      } else {
        if n == r {
          ReachesItself(prefix, components, inner, r);
        }
        ReachesThrough(prefix, components, avoid, inner, name, r, n);
        ChainStopsSooner(prefix, components, avoid, inner, n);
      }
    }
  }

  ghost function ChainLength(prefix: string, components: Components, avoid: set<string>, name: string): (n: nat)
    requires ChainIsFinite(prefix, components, avoid, name)
    ensures ChainEnds(prefix, components, avoid, name, n)
    ensures forall fuel: nat :: ChainEnds(prefix, components, avoid, name, fuel) ==> n <= fuel
  {
    var fuel: nat :| ChainEnds(prefix, components, avoid, name, fuel);
    Least(prefix, components, avoid, name, fuel)
  }

  ghost function Least(prefix: string, components: Components, avoid: set<string>, name: string, fuel: nat): (n: nat)
    requires ChainEnds(prefix, components, avoid, name, fuel)
    ensures n <= fuel && ChainEnds(prefix, components, avoid, name, n)
    ensures forall k: nat :: ChainEnds(prefix, components, avoid, name, k) ==> n <= k
    decreases fuel
  {
    if fuel > 0 && ChainEnds(prefix, components, avoid, name, fuel - 1) then
      Least(prefix, components, avoid, name, fuel - 1)
    else
      LongerChainsEnd(prefix, components, avoid, name, fuel);
      fuel
  }

  lemma {:induction false} ChainEndsMore(prefix: string, components: Components, avoid: set<string>, name: string,
                                         k: nat, more: nat)
    requires ChainEnds(prefix, components, avoid, name, k) && k <= more
    ensures ChainEnds(prefix, components, avoid, name, more)
    decreases k
  {
    if HasLink(prefix, components, avoid, name) {
      ChainEndsMore(prefix, components, avoid, Link(prefix, components, name), k - 1, more - 1);
    }
  }

  lemma {:induction false} LongerChainsEnd(prefix: string, components: Components, avoid: set<string>, name: string,
                                           fuel: nat)
    requires fuel == 0 || !ChainEnds(prefix, components, avoid, name, fuel - 1)
    ensures forall k: nat :: ChainEnds(prefix, components, avoid, name, k) ==> fuel <= k
  {
    forall k: nat | ChainEnds(prefix, components, avoid, name, k)
      ensures fuel <= k
    {
      if k < fuel {
        ChainEndsMore(prefix, components, avoid, name, k, fuel - 1);
      }
    }
  }

  lemma {:induction false} LinkIsShorter(prefix: string, components: Components, avoid: set<string>, name: string)
    requires ChainIsFinite(prefix, components, avoid, name) && HasLink(prefix, components, avoid, name)
    ensures ChainIsFinite(prefix, components, avoid, Link(prefix, components, name))
    ensures ChainLength(prefix, components, avoid, Link(prefix, components, name))
          < ChainLength(prefix, components, avoid, name)
  {
    var n := ChainLength(prefix, components, avoid, name);
    assert ChainEnds(prefix, components, avoid, Link(prefix, components, name), n - 1);
  }

  lemma {:induction false} LongerByLink(prefix: string, components: Components, avoid: set<string>, name: string)
    requires HasLink(prefix, components, {}, name)
    requires ChainIsFinite(prefix, components, avoid, Link(prefix, components, name))
    ensures ChainIsFinite(prefix, components, avoid, name)
  {
    var fuel: nat :| ChainEnds(prefix, components, avoid, Link(prefix, components, name), fuel);
    assert ChainEnds(prefix, components, avoid, name, fuel + 1);
  }

  lemma {:induction false} ItemIsRef(prefix: string, components: Components, name: string)
    requires HasLink(prefix, components, {}, name)
    ensures Link(prefix, components, name) in Refs(ComponentFlat(prefix, components, name))
  {
  }

  lemma {:induction false} PropertyIsRef(flat: FlatSchema, k: string)
    requires k in flat.properties && flat.properties[k].schemaRef != ""
    ensures flat.properties[k].schemaRef in Refs(flat)
  {
  }

  // ---------------------------------------------------------------- the traversal

  /** Mid-way through a call on `name`: as FlattensFrom, except that the references of `name` itself in
      `pending` may still be missing. */
  ghost predicate Adding(prefix: string, components: Components, before: Schemas, now: Schemas, name: string,
                         pending: set<string>) {
    && Extends(before, now)
    && name in now
    && (forall n :: n in now && n !in before ==>
         && Resolvable(components, n) && now[n] == ComponentFlat(prefix, components, n)
         && Reaches(prefix, components, before.Keys, name, n))
    && (forall n, r :: n in now && n !in before && r in Refs(now[n]) && Resolvable(components, r) ==>
         r in now || (n == name && r in pending))
  }

  /** The references of the properties in `keys`. */
  function RefsOf(flat: FlatSchema, keys: set<string>): set<string> {
    set k | k in keys && k in flat.properties && flat.properties[k].schemaRef != "" :: flat.properties[k].schemaRef
  }

  lemma {:induction false} FirstStored(prefix: string, components: Components, before: Schemas, name: string)
    requires Resolvable(components, name) && name !in before && ComponentFlat(prefix, components, name).items.None?
    ensures var flat := ComponentFlat(prefix, components, name);
            Adding(prefix, components, before, before[name := flat], name, RefsOf(flat, flat.properties.Keys))
  {
    ReachesItself(prefix, components, before.Keys, name);
  }

  /** A nested call on one pending reference settles it. */
  lemma {:induction false} NestedCall(prefix: string, components: Components, before: Schemas, middle: Schemas,
        now: Schemas,
                   name: string, r: string, pending: set<string>)
    requires Resolvable(components, name) && name !in before
    requires r in Refs(ComponentFlat(prefix, components, name))
    requires Adding(prefix, components, before, middle, name, pending + {r})
    requires FlattensFrom(prefix, components, middle, now, r)
    ensures Adding(prefix, components, before, now, name, pending)
  {
    hide Reaches, ComponentFlat, Refs;
    forall n | n in now && n !in middle
      ensures Reaches(prefix, components, before.Keys, name, n)
    {
      ReachesThrough(prefix, components, before.Keys, middle.Keys, name, r, n);
    }
  }

  /** One turn of the loop over the properties: k is dealt with. */
  lemma {:induction false} PropertyDone(prefix: string, components: Components, before: Schemas,
        middle: Schemas, now: Schemas,
                     name: string, keys: set<string>, k: string)
    requires Resolvable(components, name) && name !in before
    requires var flat := ComponentFlat(prefix, components, name);
             && k in keys && keys <= flat.properties.Keys
             && Adding(prefix, components, before, middle, name, RefsOf(flat, keys))
             && (if flat.properties[k].schemaRef == "" then now == middle
                 else FlattensFrom(prefix, components, middle, now, flat.properties[k].schemaRef))
    ensures Adding(prefix, components, before, now, name, RefsOf(ComponentFlat(prefix, components, name), keys - {k}))
    ensures middle.Keys <= now.Keys
  {
    hide ComponentFlat, Reaches;
    var flat := ComponentFlat(prefix, components, name);
    var ref := flat.properties[k].schemaRef;
    if ref == "" {
      assert RefsOf(flat, keys) == RefsOf(flat, keys - {k});
    } else {
      assert RefsOf(flat, keys) <= RefsOf(flat, keys - {k}) + {ref};
      MorePending(prefix, components, before, middle, name, RefsOf(flat, keys), RefsOf(flat, keys - {k}) + {ref});
      NestedCall(prefix, components, before, middle, now, name, ref, RefsOf(flat, keys - {k}));
    }
  }

  lemma {:induction false} MorePending(prefix: string, components: Components, before: Schemas, now: Schemas,
        name: string,
                    pending: set<string>, more: set<string>)
    requires Adding(prefix, components, before, now, name, pending) && pending <= more
    ensures Adding(prefix, components, before, now, name, more)
  {
    hide ComponentFlat, Reaches, Refs;
  }

  lemma {:induction false} AllDone(prefix: string, components: Components, before: Schemas, now: Schemas,
        name: string, flat: FlatSchema)
    requires Adding(prefix, components, before, now, name, RefsOf(flat, {}))
    ensures FlattensFrom(prefix, components, before, now, name)
  {
    hide Reaches, ComponentFlat, Refs;
    assert RefsOf(flat, {}) == {};
  }

  /** An array is stored after the call on its item, if it has one to call. */
  lemma {:induction false} ArrayStored(prefix: string, components: Components, before: Schemas,
        middle: Schemas, name: string)
    requires Resolvable(components, name) && name !in before && IsArray(components[name].value)
    requires
      if HasLink(prefix, components, {}, name) then
        FlattensFrom(prefix, components, before, middle, Link(prefix, components, name))
      else middle == before
    ensures FlattensFrom(prefix, components, before, middle[name := ComponentFlat(prefix, components, name)], name)
  {
    hide Reaches;
    var now := middle[name := ComponentFlat(prefix, components, name)];
    ReachesItself(prefix, components, before.Keys, name);
    forall n | n in now && n !in before
      ensures Resolvable(components, n) && now[n] == ComponentFlat(prefix, components, n)
      ensures Reaches(prefix, components, before.Keys, name, n)
    {
      if n != name {
        ReachesThrough(prefix, components, before.Keys, before.Keys, name, Link(prefix, components, name), n);
      }
    }
  }

  // ---------------------------------------------------------------- when a call returns

  const NO_KEYS: set<string> := {}

  /** A call on `name` returns within `fuel` nested calls and leaves `after`, for some order of its
      loops over properties. */
  ghost predicate Returns(prefix: string, components: Components, fuel: nat, before: Schemas, name: string,
                          after: Schemas)
    decreases fuel, NO_KEYS
  {
    if name in before || !Resolvable(components, name) then after == before
    else if fuel == 0 then false
    else
      var flat := ComponentFlat(prefix, components, name);
      if IsArray(components[name].value) then
        ArrayReturns(prefix, components, fuel - 1, before, name, after)
      else LoopReturns(prefix, components, fuel - 1, flat, flat.properties.Keys, before[name := flat], after)
  }

  /** An array is stored after the call on its item. */
  ghost predicate ArrayReturns(prefix: string, components: Components, fuel: nat, before: Schemas, name: string,
                               after: Schemas)
    requires Resolvable(components, name) && IsArray(components[name].value)
    decreases fuel, {"", "item"}
  {
    exists middle ::
      && ItemReturns(prefix, components, fuel, before, name, middle)
      && after == middle[name := ComponentFlat(prefix, components, name)]
  }

  ghost predicate ItemReturns(prefix: string, components: Components, fuel: nat, before: Schemas, name: string,
                              middle: Schemas)
    requires Resolvable(components, name) && IsArray(components[name].value)
    decreases fuel, {""}
  {
    if HasLink(prefix, components, {}, name) then
      Returns(prefix, components, fuel, before, Link(prefix, components, name), middle)
    else middle == before
  }

  /** The loop over the properties in `keys`, in some order. */
  ghost predicate LoopReturns(prefix: string, components: Components, fuel: nat, flat: FlatSchema, keys: set<string>,
                              before: Schemas, after: Schemas)
    decreases fuel, keys
  {
    if keys == {} then after == before
    else
      exists k, middle ::
        && k in keys
        && (if k !in flat.properties || flat.properties[k].schemaRef == "" then middle == before
            else Returns(prefix, components, fuel, before, flat.properties[k].schemaRef, middle))
        && LoopReturns(prefix, components, fuel, flat, keys - {k}, middle, after)
  }

  ghost predicate Terminates(prefix: string, components: Components, before: Schemas, name: string) {
    exists fuel: nat, after :: Returns(prefix, components, fuel, before, name, after)
  }

  /** Whatever returns has done what a call does. */
  lemma {:induction false} ReturnsFlattens(prefix: string, components: Components, fuel: nat, before: Schemas,
                                           name: string, after: Schemas)
    requires Returns(prefix, components, fuel, before, name, after)
    ensures FlattensFrom(prefix, components, before, after, name)
    decreases fuel, NO_KEYS
  {
    hide Reaches, RefsOf, Refs, FlatOf;
    if name !in before && Resolvable(components, name) {
      var flat := ComponentFlat(prefix, components, name);
      if IsArray(components[name].value) {
        var middle :| ItemReturns(prefix, components, fuel - 1, before, name, middle) && after == middle[name := flat];
        if HasLink(prefix, components, {}, name) {
          ReturnsFlattens(prefix, components, fuel - 1, before, Link(prefix, components, name), middle);
        }
        ArrayStored(prefix, components, before, middle, name);
      } else {
        ObjectHasNoItems(prefix, components, name);
        FirstStored(prefix, components, before, name);
        LoopFlattens(prefix, components, fuel - 1, before, before[name := flat], name, flat.properties.Keys, after);
        AllDone(prefix, components, before, after, name, flat);
      }
    }
  }

  lemma {:induction false} ObjectHasNoItems(prefix: string, components: Components, name: string)
    requires Resolvable(components, name) && !IsArray(components[name].value)
    ensures ComponentFlat(prefix, components, name).items.None?
  {
  }

  lemma {:induction false} LoopFlattens(prefix: string, components: Components, fuel: nat, before: Schemas,
                                        now: Schemas, name: string, keys: set<string>, after: Schemas)
    requires Resolvable(components, name) && name !in before
    requires var flat := ComponentFlat(prefix, components, name);
             && keys <= flat.properties.Keys
             && LoopReturns(prefix, components, fuel, flat, keys, now, after)
             && Adding(prefix, components, before, now, name, RefsOf(flat, keys))
    ensures Adding(prefix, components, before, after, name, RefsOf(ComponentFlat(prefix, components, name), {}))
    decreases fuel, keys
  {
    hide Reaches, RefsOf, Adding, FlattensFrom, ComponentFlat;
    if keys != {} {
      var flat := ComponentFlat(prefix, components, name);
      var k, middle :|
        && k in keys
        && (if k !in flat.properties || flat.properties[k].schemaRef == "" then middle == now
            else Returns(prefix, components, fuel, now, flat.properties[k].schemaRef, middle))
        && LoopReturns(prefix, components, fuel, flat, keys - {k}, middle, after);
      if flat.properties[k].schemaRef != "" {
        ReturnsFlattens(prefix, components, fuel, now, flat.properties[k].schemaRef, middle);
      }
      PropertyDone(prefix, components, before, now, middle, name, keys, k);
      LoopFlattens(prefix, components, fuel, before, middle, name, keys - {k}, after);
    }
  }

  /** Everything stored since `avoid` has a chain that ends. */
  ghost predicate StoredEnd(prefix: string, components: Components, avoid: set<string>, schemas: Schemas) {
    avoid <= schemas.Keys && forall n :: n in schemas ==> ChainIsFinite(prefix, components, avoid, n)
  }

  /** A call that returns was on a chain that ends, and so was everything it stored. */
  lemma {:induction false} ReturnsMeansEnd(prefix: string, components: Components, avoid: set<string>, fuel: nat,
                                           before: Schemas, name: string, after: Schemas)
    requires Returns(prefix, components, fuel, before, name, after) && StoredEnd(prefix, components, avoid, before)
    ensures StoredEnd(prefix, components, avoid, after) && ChainIsFinite(prefix, components, avoid, name)
    decreases fuel, NO_KEYS
  {
    hide ChainIsFinite, ComponentFlat;
    if name !in before {
      if !Resolvable(components, name) {
        NoChain(prefix, components, avoid, name);
      } else {
        var flat := ComponentFlat(prefix, components, name);
        if IsArray(components[name].value) {
          var middle :| ItemReturns(prefix, components, fuel - 1, before, name, middle) &&
            after == middle[name := flat];
          if HasLink(prefix, components, {}, name) {
            ReturnsMeansEnd(prefix, components, avoid, fuel - 1, before, Link(prefix, components, name), middle);
            LongerByLink(prefix, components, avoid, name);
          } else {
            NoChain(prefix, components, avoid, name);
          }
        } else {
          NoChain(prefix, components, avoid, name);
          LoopMeansEnd(prefix, components, avoid, fuel - 1, flat, flat.properties.Keys, before[name := flat], after);
        }
      }
    }
  }

  lemma {:induction false} LoopMeansEnd(prefix: string, components: Components, avoid: set<string>, fuel: nat,
                                        flat: FlatSchema, keys: set<string>, before: Schemas, after: Schemas)
    requires LoopReturns(prefix, components, fuel, flat, keys, before, after)
    requires StoredEnd(prefix, components, avoid, before)
    ensures StoredEnd(prefix, components, avoid, after)
    decreases fuel, keys
  {
    hide StoredEnd;
    if keys != {} {
      var k, middle :|
        && k in keys
        && (if k !in flat.properties || flat.properties[k].schemaRef == "" then middle == before
            else Returns(prefix, components, fuel, before, flat.properties[k].schemaRef, middle))
        && LoopReturns(prefix, components, fuel, flat, keys - {k}, middle, after);
      if k in flat.properties && flat.properties[k].schemaRef != "" {
        ReturnsMeansEnd(prefix, components, avoid, fuel, before, flat.properties[k].schemaRef, middle);
      }
      LoopMeansEnd(prefix, components, avoid, fuel, flat, keys - {k}, middle, after);
    }
  }

  /** More fuel does no harm. */
  lemma {:induction false} ReturnsMore(prefix: string, components: Components, fuel: nat, more: nat, before: Schemas,
                                       name: string, after: Schemas)
    requires Returns(prefix, components, fuel, before, name, after) && fuel <= more
    ensures Returns(prefix, components, more, before, name, after)
    decreases fuel, NO_KEYS
  {
    hide ComponentFlat;
    if name !in before && Resolvable(components, name) {
      var flat := ComponentFlat(prefix, components, name);
      if IsArray(components[name].value) {
        var middle :| ItemReturns(prefix, components, fuel - 1, before, name, middle) && after == middle[name := flat];
        if HasLink(prefix, components, {}, name) {
          ReturnsMore(prefix, components, fuel - 1, more - 1, before, Link(prefix, components, name), middle);
        }
        assert ItemReturns(prefix, components, more - 1, before, name, middle);
        assert ArrayReturns(prefix, components, more - 1, before, name, after);
      } else {
        LoopReturnsMore(prefix, components, fuel - 1, more - 1, flat, flat.properties.Keys, before[name := flat],
          after);
      }
    }
  }

  lemma {:induction false} LoopReturnsMore(prefix: string, components: Components, fuel: nat, more: nat,
                                           flat: FlatSchema, keys: set<string>, before: Schemas, after: Schemas)
    requires LoopReturns(prefix, components, fuel, flat, keys, before, after) && fuel <= more
    ensures LoopReturns(prefix, components, more, flat, keys, before, after)
    decreases fuel, keys
  {
    if keys != {} {
      var k, middle :|
        && k in keys
        && (if k !in flat.properties || flat.properties[k].schemaRef == "" then middle == before
            else Returns(prefix, components, fuel, before, flat.properties[k].schemaRef, middle))
        && LoopReturns(prefix, components, fuel, flat, keys - {k}, middle, after);
      if k in flat.properties && flat.properties[k].schemaRef != "" {
        ReturnsMore(prefix, components, fuel, more, before, flat.properties[k].schemaRef, middle);
      }
      LoopReturnsMore(prefix, components, fuel, more, flat, keys - {k}, middle, after);
    }
  }

  /** A call whose chains all end returns. */
  lemma {:induction false} EndMeansReturns(prefix: string, components: Components, before: Schemas, name: string)
    returns (fuel: nat, after: Schemas)
    requires ArraysEnd(prefix, components, before.Keys, name)
    ensures Returns(prefix, components, fuel, before, name, after)
    ensures FlattensFrom(prefix, components, before, after, name)
    decreases components.Keys - before.Keys, 0, ChainLength(prefix, components, before.Keys, name), NO_KEYS
  {
    hide ChainEnds, Reaches, Refs, ComponentFlat, FlattensFrom;
    if name in before || !Resolvable(components, name) {
      fuel, after := 0, before;
    } else {
      var flat := ComponentFlat(prefix, components, name);
      if IsArray(components[name].value) {
        fuel := 0;
        var middle := before;
        if HasLink(prefix, components, {}, name) {
          LinkIsShorter(prefix, components, before.Keys, name);
          ItemIsRef(prefix, components, name);
          RefsEnd(prefix, components, before.Keys, before.Keys, name, Link(prefix, components, name));
          fuel, middle := EndMeansReturns(prefix, components, before, Link(prefix, components, name));
        }
        assert ItemReturns(prefix, components, fuel, before, name, middle);
        after := middle[name := flat];
        assert ArrayReturns(prefix, components, fuel, before, name, after);
        fuel := fuel + 1;
      } else {
        assert name in components.Keys - before.Keys && name !in components.Keys - before[name := flat].Keys;
        fuel, after := EndMeansLoopReturns(prefix, components, before, before[name := flat], name,
          flat.properties.Keys);
        fuel := fuel + 1;
      }
    }
    ReturnsFlattens(prefix, components, fuel, before, name, after);
  }

  lemma {:induction false} EndMeansLoopReturns(prefix: string, components: Components, before: Schemas, now: Schemas,
                                               name: string, keys: set<string>) returns (fuel: nat, after: Schemas)
    requires ArraysEnd(prefix, components, before.Keys, name) && Resolvable(components, name) && name !in before
    requires before.Keys <= now.Keys && keys <= ComponentFlat(prefix, components, name).properties.Keys
    ensures LoopReturns(prefix, components, fuel, ComponentFlat(prefix, components, name), keys, now, after)
    decreases components.Keys - now.Keys, 1, 0, keys
  {
    hide ChainEnds, Reaches, Refs, ComponentFlat, ArraysEnd;
    if keys == {} {
      fuel, after := 0, now;
    } else {
      var flat := ComponentFlat(prefix, components, name);
      var k :| k in keys;
      var ref := flat.properties[k].schemaRef;
      var first: nat, middle := 0, now;
      if ref != "" {
        PropertyIsRef(flat, k);
        RefsEnd(prefix, components, before.Keys, now.Keys, name, ref);
        first, middle := EndMeansReturns(prefix, components, now, ref);
      }
      var rest: nat;
      rest, after := EndMeansLoopReturns(prefix, components, before, middle, name, keys - {k});
      fuel := if first < rest then rest else first;
      if ref != "" {
        ReturnsMore(prefix, components, first, fuel, now, ref, middle);
      }
      LoopReturnsMore(prefix, components, rest, fuel, flat, keys - {k}, middle, after);
    }
  }

  /** Exactly when a call returns: when every chain of array items that it can meet, its own or one
      behind references, ends or runs into a name that was stored before the call. */
  lemma {:induction false} ReturnsExactly(prefix: string, components: Components, before: Schemas, name: string)
    ensures Terminates(prefix, components, before, name) <==> ArraysEnd(prefix, components, before.Keys, name)
  {
    hide Returns, Reaches, ChainIsFinite;
    if fuel: nat, after :| Returns(prefix, components, fuel, before, name, after) {
      ReturnsFlattens(prefix, components, fuel, before, name, after);
      StoredBefore(prefix, components, before);
      ReturnsMeansEnd(prefix, components, before.Keys, fuel, before, name, after);
      forall n | n == name || Reaches(prefix, components, before.Keys, name, n)
        ensures ChainIsFinite(prefix, components, before.Keys, n)
      {
        if n != name {
          FlattenIsClosure(prefix, components, before, after, name, n);
        }
      }
    }
    if ArraysEnd(prefix, components, before.Keys, name) {
      var fuel, after := EndMeansReturns(prefix, components, before, name);
    }
  }

  lemma {:induction false} StoredBefore(prefix: string, components: Components, before: Schemas)
    ensures StoredEnd(prefix, components, before.Keys, before)
  {
    forall n | n in before
      ensures ChainIsFinite(prefix, components, before.Keys, n)
    {
      NoChain(prefix, components, before.Keys, n);
    }
  }

  /** All the runs of a call that return, whatever the order of their loops, end in the same map. */
  lemma {:induction false} OneOutcome(prefix: string, components: Components, before: Schemas, name: string,
                                      fuel: nat, one: Schemas, more: nat, other: Schemas)
    requires Returns(prefix, components, fuel, before, name, one)
    requires Returns(prefix, components, more, before, name, other)
    ensures one == other
  {
    ReturnsFlattens(prefix, components, fuel, before, name, one);
    ReturnsFlattens(prefix, components, more, before, name, other);
    FlattenIsDeterministic(prefix, components, before, one, other, name);
  }

  function SelfArray(): Components {
    map["A" := Some(Schema(["array"], Some(V3_PREFIX + "A"), None))]
  }

  lemma {:induction false} SelfArrayGoesOn(avoid: set<string>, fuel: nat)
    requires "A" !in avoid
    ensures !ChainEnds(V3_PREFIX, SelfArray(), avoid, "A", fuel)
    decreases fuel
  {
    LocalRefName(V3_PREFIX, "A");
    if fuel > 0 {
      SelfArrayGoesOn(avoid, fuel - 1);
    }
  }

  /** The smallest case: a call on a component that is an array of itself never returns, unless a
      schema of that name is stored already. */
  lemma {:induction false} ArrayOfItself(before: Schemas)
    ensures Terminates(V3_PREFIX, SelfArray(), before, "A") <==> "A" in before
  {
    hide Returns, ChainEnds;
    ReturnsExactly(V3_PREFIX, SelfArray(), before, "A");
    if "A" in before {
      NoChain(V3_PREFIX, SelfArray(), before.Keys, "A");
      assert forall n :: !Reaches(V3_PREFIX, SelfArray(), before.Keys, "A", n);
    } else {
      forall fuel: nat
        ensures !ChainEnds(V3_PREFIX, SelfArray(), before.Keys, "A", fuel)
      {
        SelfArrayGoesOn(before.Keys, fuel);
      }
      assert !ChainIsFinite(V3_PREFIX, SelfArray(), before.Keys, "A");
    }
  }

  // ---------------------------------------------------------------- response schemas

  /** The JSON schema of one response code: its $ref and what that resolves to. */
  datatype Response = Response(ref: string, schema: Option<Schema>)

  /** The component a response makes the generator flatten, given the names stored already. */
  function Named(prefix: string, response: Response, stored: set<string>): Option<string> {
    if response.schema.None? then None
    else if RefName(prefix, response.ref) != "" then Some(RefName(prefix, response.ref))
    else
      var s := response.schema.value;
      if s.types != [] && s.types[0] == "array" && s.items.Some? && RefName(prefix, s.items.value) != ""
         && RefName(prefix, s.items.value) + "_list" !in stored then
        Some(RefName(prefix, s.items.value))
      else None
  }

  /** A response that is an array whose single item schema is a reference. */
  predicate IsListOf(prefix: string, response: Response, item: string) {
    && response.schema.Some? && RefName(prefix, response.ref) == ""
    && |response.schema.value.types| > 0 && response.schema.value.types[0] == "array"
    && response.schema.value.items.Some? && RefName(prefix, response.schema.value.items.value) == item != ""
  }

  predicate IsInline(prefix: string, response: Response, requireObject: bool) {
    && response.schema.Some? && RefName(prefix, response.ref) == ""
    && !IsListOf(prefix, response, ItemName(prefix, response.schema.value))
    && response.schema.value.properties.Some?
    && (requireObject ==> |response.schema.value.types| > 0 && response.schema.value.types[0] == "object")
  }

  function ItemName(prefix: string, s: Schema): string {
    if s.items.Some? then RefName(prefix, s.items.value) else ""
  }

  /** This response gives a schema. */
  predicate Gives(prefix: string, response: Response, inlineName: Option<string>, requireObject: bool) {
    && response.schema.Some?
    && (|| RefName(prefix, response.ref) != ""
        || IsListOf(prefix, response, ItemName(prefix, response.schema.value))
        || (IsInline(prefix, response, requireObject) && inlineName.Some?))
  }

  /** What one response answers and stores.  A reference is flattened and named; an array of references
      is stored as "<item>_list" over the flattened item; an inline object is stored with its own
      properties under its given name.  A list or inline name that is stored already is left as it is. */
  ghost predicate Extracted(prefix: string, components: Components, before: Schemas, after: Schemas,
                            response: Response, inlineName: Option<string>, requireObject: bool, name: Option<string>) {
    && (name.None? <==> !Gives(prefix, response, inlineName, requireObject))
    && (name.None? ==> after == before)
    && (response.schema.Some? && RefName(prefix, response.ref) != "" ==>
        && name == Some(RefName(prefix, response.ref))
        && FlattensFrom(prefix, components, before, after, RefName(prefix, response.ref)))
    && (forall item :: IsListOf(prefix, response, item) ==>
        && name == Some(item + "_list")
        && (item + "_list" in before ==> after == before)
        && (item + "_list" !in before ==>
            exists flattened :: FlattensFrom(prefix, components, before, flattened, item)
              && after == flattened[item + "_list" := FlatSchema("array", map[], Some(item))]))
    && (IsInline(prefix, response, requireObject) && inlineName.Some? ==>
        var properties := FlattenProperties(prefix, response.schema.value.properties.value);
        && name == inlineName
        && after == if inlineName.value in before then before
                    else before[inlineName.value := FlatSchema("object", properties, None)])
  }

  /** The list wrapper "<item>_list" refers to a stored item, if the item resolves: it keeps the map closed. */
  lemma {:induction false} ListKeepsClosed(components: Components, schemas: Schemas, listName: string, item: string)
    requires Closed(components, schemas) && (Resolvable(components, item) ==> item in schemas)
    ensures Closed(components, schemas[listName := FlatSchema("array", map[], Some(item))])
  {
  }

  /** An inline object response is stored without following its properties' references.  The map is
      closed afterwards exactly when every one of them that resolves is stored already. */
  lemma {:induction false} InlineClosedExactly(components: Components, schemas: Schemas, name: string, flat: FlatSchema)
    requires Closed(components, schemas) && name !in schemas
    ensures Closed(components, schemas[name := flat]) <==>
      forall r :: r in Refs(flat) && Resolvable(components, r) ==> r in schemas || r == name
  {
    var after := schemas[name := flat];
    if Closed(components, after) {
      assert after[name] == flat;
    }
  }

  /** An inline response with one property that refers to a component: the reference dangles. */
  lemma {:induction false} InlineReferenceDangles()
    ensures var components := map["User" := Some(Schema(["object"], None, None))];
            var props := [("owner", Some(PropertyProxy(V3_PREFIX + "User", Some(Resolved(["object"], "", false)))))];
            var flat := FlatSchema("object", FlattenProperties(V3_PREFIX, props), None);
            Closed(components, map[]) && !Closed(components, map["get_repo_response" := flat])
  {
    var components := map["User" := Some(Schema(["object"], None, None))];
    var props := [("owner", Some(PropertyProxy(V3_PREFIX + "User", Some(Resolved(["object"], "", false)))))];
    var flat := FlatSchema("object", FlattenProperties(V3_PREFIX, props), None);
    LocalRefName(V3_PREFIX, "User");
    var owner := SchemaProperty("object", "", false, "User");
    assert V3_PREFIX + "User" != "" && RefName(V3_PREFIX, V3_PREFIX + "User") == "User";
    assert FlattenProperty(V3_PREFIX, props[0].1) == owner;
    assert |props| == 1 && props[..0] == [];
    assert FlattenProperties(V3_PREFIX, props[..0]) == map[];
    assert FlattenProperties(V3_PREFIX, props) == map[]["owner" := owner];
    assert flat.properties["owner"].schemaRef == "User";
    assert flat.properties == map["owner" := SchemaProperty("object", "", false, "User")];
    assert "User" in Refs(flat) && Resolvable(components, "User");
    assert map["get_repo_response" := flat]["get_repo_response"] == flat;
  }

  class Flattener {
    const prefix: string
    const components: Components
    var schemas: Schemas

    constructor (prefix: string, components: Components)
      ensures this.prefix == prefix && this.components == components && schemas == map[]
    {
      this.prefix, this.components, schemas := prefix, components, map[];
    }

    /** flattenV3Component and flattenV2Definition. */
    method Flatten(name: string)
      requires ArraysEnd(prefix, components, schemas.Keys, name)
      modifies this
      ensures FlattensFrom(prefix, components, old(schemas), schemas, name)
      decreases components.Keys - schemas.Keys, ChainLength(prefix, components, schemas.Keys, name)
    {
      hide ChainEnds, Reaches, Refs, FlattenProperties, RefName;
      if name in schemas {
        return;
      }
      if name !in components || components[name].None? {
        return;
      }
      ghost var before := schemas;
      var schema := components[name].value;
      var flat := FlatSchema("object", map[], None);
      if schema.types != [] {
        flat := flat.(typ := schema.types[0]);
      }
      ReachesItself(prefix, components, before.Keys, name);
      if flat.typ == "array" && schema.items.Some? {
        var itemRef := RefName(prefix, schema.items.value);
        if itemRef != "" {
          LinkIsShorter(prefix, components, schemas.Keys, name);
          ItemIsRef(prefix, components, name);
          RefsEnd(prefix, components, schemas.Keys, schemas.Keys, name, itemRef);
          Flatten(itemRef);
          flat := flat.(items := Some(itemRef));
        }
        ArrayStored(prefix, components, before, schemas, name);
        schemas := schemas[name := flat];
        return;
      }
      if schema.properties.Some? {
        var properties := PropertyLoop(schema.properties.value);
        flat := flat.(properties := properties);
      }
      schemas := schemas[name := flat];
      assert name in components.Keys - before.Keys && name !in components.Keys - schemas.Keys;
      StoreThenRecurse(name, flat, before);
    }

    method PropertyLoop(props: seq<(string, Option<PropertyProxy>)>) returns (properties: map<string, SchemaProperty>)
      ensures properties == FlattenProperties(prefix, props)
      ensures forall k :: k in properties <==> exists i :: 0 <= i < |props| && props[i].0 == k
      ensures forall i :: 0 <= i < |props| && (forall j :: i < j < |props| ==> props[j].0 != props[i].0) ==>
        props[i].0 in properties && properties[props[i].0] == FlattenProperty(prefix, props[i].1)
    {
      properties := map[];
      for i := 0 to |props|
        invariant properties == FlattenProperties(prefix, props[..i])
      {
        assert props[..i + 1][..i] == props[..i];
        properties := properties[props[i].0 := FlattenProperty(prefix, props[i].1)];
      }
      assert props[..|props|] == props;
      forall k
        ensures k in properties <==> exists i :: 0 <= i < |props| && props[i].0 == k
      {
        OnlyProperties(prefix, props, k);
      }
      forall i | 0 <= i < |props| && forall j :: i < j < |props| ==> props[j].0 != props[i].0
        ensures props[i].0 in properties && properties[props[i].0] == FlattenProperty(prefix, props[i].1)
      {
        LastPropertyWins(prefix, props, i);
      }
    }

    /** The loop after storing an object: one nested call per referencing property, in any order. */
    method StoreThenRecurse(name: string, flat: FlatSchema, ghost before: Schemas)
      requires ArraysEnd(prefix, components, before.Keys, name)
      requires Resolvable(components, name) && flat == ComponentFlat(prefix, components, name)
      requires name !in before && schemas == before[name := flat] && flat.items.None?
      modifies this
      ensures FlattensFrom(prefix, components, before, schemas, name)
      decreases components.Keys - schemas.Keys
    {
      hide ChainEnds, Adding, FlattensFrom, RefsOf, ComponentFlat, ArraysEnd;
      var todo := flat.properties.Keys;
      FirstStored(prefix, components, before, name);
      while todo != {}
        invariant todo <= flat.properties.Keys
        invariant old(schemas).Keys <= schemas.Keys
        invariant Adding(prefix, components, before, schemas, name, RefsOf(flat, todo))
        decreases todo
      {
        var k :| k in todo;
        ghost var middle := schemas;
        var ref := flat.properties[k].schemaRef;
        if ref != "" {
          PropertyIsRef(flat, k);
          RefsEnd(prefix, components, before.Keys, schemas.Keys, name, ref);
          Flatten(ref);
        }
        PropertyDone(prefix, components, before, middle, schemas, name, todo, k);
        todo := todo - {k};
      }
      AllDone(prefix, components, before, schemas, name, flat);
    }

    /** One response code of extractV3ResponseSchema (requireObject false) or extractV2ResponseSchema
        (requireObject true).  None: this code gives no schema and the next one is tried. */
    method ExtractOne(response: Response, inlineName: Option<string>, requireObject: bool)
      returns (name: Option<string>, ghost inlined: Option<FlatSchema>)
      requires var named := Named(prefix, response, schemas.Keys);
               named.Some? ==> ArraysEnd(prefix, components, schemas.Keys, named.value)
      modifies this
      ensures Extends(old(schemas), schemas)
      ensures inlined.None? && Closed(components, old(schemas)) ==> Closed(components, schemas)
      ensures inlined.Some? ==>
        name.Some? && name.value !in old(schemas) && schemas == old(schemas)[name.value := inlined.value]
      ensures inlined.Some? && Closed(components, old(schemas)) ==>
        (Closed(components, schemas) <==>
         forall r :: r in Refs(inlined.value) && Resolvable(components, r) ==> r in old(schemas) || r == name.value)
      ensures name.Some? && response.ref != "" && Resolvable(components, name.value) ==> name.value in schemas
      ensures Extracted(prefix, components, old(schemas), schemas, response, inlineName, requireObject, name)
    {
      hide Reaches, ChainEnds, Closed, ArraysEnd, FlattenProperties, Refs, FlattensFrom, RefName;
      inlined := None;
      ghost var before := schemas;
      if response.schema.None? {
        return None, None;
      }
      var schema := response.schema.value;
      var refName := RefName(prefix, response.ref);
      if refName != "" {
        Flatten(refName);
        ClosedAfter(prefix, components, before, schemas, refName);
        return Some(refName), None;
      }
      if schema.types != [] && schema.types[0] == "array" && schema.items.Some? {
        var itemRef := RefName(prefix, schema.items.value);
        if itemRef != "" {
          var listName := itemRef + "_list";
          if listName !in schemas {
            Flatten(itemRef);
            ClosedAfter(prefix, components, before, schemas, itemRef);
            if Closed(components, schemas) {
              ListKeepsClosed(components, schemas, listName, itemRef);
            }
            ghost var flattened := schemas;
            schemas := schemas[listName := FlatSchema("array", map[], Some(itemRef))];
            assert FlattensFrom(prefix, components, before, flattened, itemRef);
            assert schemas == flattened[itemRef + "_list" := FlatSchema("array", map[], Some(itemRef))];
          }
          assert IsListOf(prefix, response, itemRef);
          return Some(listName), None;
        }
      }
      if schema.properties.Some? && (requireObject ==> schema.types != [] && schema.types[0] == "object") {
        if inlineName.None? {
          return None, None;
        }
        if inlineName.value !in schemas {
          var properties := PropertyLoop(schema.properties.value);
          var flat := FlatSchema("object", properties, None);
          if Closed(components, schemas) {
            InlineClosedExactly(components, schemas, inlineName.value, flat);
          }
          schemas := schemas[inlineName.value := flat];
          inlined := Some(flat);
        }
        return inlineName, inlined;
      }
      name := None;
    }

    /** The response codes in turn, 200 before 201: the first one that gives a schema decides, and if none
        does nothing is stored. */
    method Extract(responses: seq<Response>, inlineName: Option<string>, requireObject: bool)
      returns (name: Option<string>)
      requires forall i :: IsChosen(prefix, responses, inlineName, requireObject, i) ==>
        var named := Named(prefix, responses[i], schemas.Keys);
        named.Some? ==> ArraysEnd(prefix, components, schemas.Keys, named.value)
      modifies this
      ensures name.None? <==> forall i :: !IsChosen(prefix, responses, inlineName, requireObject, i)
      ensures name.None? ==> schemas == old(schemas)
      ensures forall i :: IsChosen(prefix, responses, inlineName, requireObject, i) ==>
        Extracted(prefix, components, old(schemas), schemas, responses[i], inlineName, requireObject, name)
    {
      hide Extracted, Gives, Named, ArraysEnd;
      for i := 0 to |responses|
        invariant schemas == old(schemas)
        invariant forall j :: 0 <= j < i ==> !Gives(prefix, responses[j], inlineName, requireObject)
      {
        if !Gives(prefix, responses[i], inlineName, requireObject) {
          NamedGives(prefix, responses[i], inlineName, requireObject, schemas.Keys);
        }
        ghost var inlined;
        name, inlined := ExtractOne(responses[i], inlineName, requireObject);
        ExtractedGives(prefix, components, old(schemas), schemas, responses[i], inlineName, requireObject, name);
        if name.Some? {
          assert IsChosen(prefix, responses, inlineName, requireObject, i);
          return;
        }
      }
      name := None;
    }
  }

  /** The first of the responses that gives a schema. */
  predicate IsChosen(prefix: string, responses: seq<Response>, inlineName: Option<string>, requireObject: bool,
                     i: int) {
    && 0 <= i < |responses| && Gives(prefix, responses[i], inlineName, requireObject)
    && (forall j :: 0 <= j < i ==> !Gives(prefix, responses[j], inlineName, requireObject))
  }

  lemma {:induction false} NamedGives(prefix: string, response: Response, inlineName: Option<string>,
                                      requireObject: bool, stored: set<string>)
    ensures Named(prefix, response, stored).Some? ==> Gives(prefix, response, inlineName, requireObject)
  {
    hide RefName;
  }

  lemma {:induction false} ExtractedGives(
      prefix: string, components: Components, before: Schemas, after: Schemas, response: Response,
      inlineName: Option<string>, requireObject: bool, name: Option<string>)
    requires Extracted(prefix, components, before, after, response, inlineName, requireObject, name)
    ensures name.None? <==> !Gives(prefix, response, inlineName, requireObject)
    ensures name.None? ==> after == before
  {
    hide Gives, IsListOf, IsInline, FlattensFrom;
  }

  lemma {:induction false} ClosedAfter(prefix: string, components: Components, before: Schemas, after: Schemas,
        name: string)
    requires FlattensFrom(prefix, components, before, after, name)
    ensures Extends(before, after) && (Resolvable(components, name) ==> name in after)
    ensures Closed(components, before) ==> Closed(components, after)
  {
    if Closed(components, before) {
      FlattenKeepsClosed(prefix, components, before, after, name);
    }
  }
}
