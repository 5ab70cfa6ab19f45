/** Closing an OpenAPI schema over the components it refers to (internal/mcp/compiler.go). */
module SchemaClose {
  import opened Prelude
  import opened JsonPointer

  type Schema = j: Json | j.Obj? witness Obj(map[])

  const PREFIX := "#/components/schemas/"
  const CLOSED := "#/$defs/"
  const SIZE_LIMIT := 512 * 1024

  /** What the keyword switch does with a keyword. */
  datatype Kind = Forbidden | Dropped | Nullable | Ref | ChildMap | Child | ChildList | Plain

  function KeywordKind(k: string): Kind {
    if k == "$id" || k == "$anchor" || k == "$dynamicRef" || k == "$dynamicAnchor" then Forbidden
    else if k == "required" || k == "minimum" || k == "maximum" || k == "exclusiveMinimum" ||
            k == "exclusiveMaximum" || k == "minLength" || k == "maxLength" || k == "minItems" ||
            k == "maxItems" || k == "pattern" || k == "enum" || k == "const" then Dropped
    else if k == "nullable" then Nullable
    else if k == "$ref" then Ref
    else if k == "properties" || k == "patternProperties" then ChildMap
    else if k == "items" || k == "additionalProperties" || k == "not" then Child
    else if k == "allOf" || k == "anyOf" || k == "oneOf" then ChildList
    else Plain
  }

  /** The switch as a value, so that proofs look at the kinds and not at the spelling of keywords. */
  datatype Mode = Mode(kind: string -> Kind, input: bool) {
    predicate Keeps(k: string) {
      kind(k) != Nullable && !(input && kind(k) == Dropped)
    }
  }

  function RefKey(r: string): (key: Option<string>) {
    if PREFIX <= r then Some(r[|PREFIX|..]) else None
  }

  function RefTo(key: string): Schema {
    Obj(map["$ref" := Str(PREFIX + key)])
  }

  // ------------------------------------------------------ specification

  /** `nullable: true` adds "null" to a type given by name. */
  function WidenType(s: Json, out: map<string, Json>): map<string, Json>
    requires s.Obj?
  {
    if "nullable" in s.fields && s.fields["nullable"] == Bool(true) && "type" in out && out["type"].Str?
    then out["type" := Arr([out["type"], Str("null")])]
    else out
  }

  function Close(m: Mode, s: Json): (t: Json)
    ensures s.Obj? ==> t.Obj?
    decreases s, 0
  {
    if !s.Obj? then s
    else
      var out := map k | k in s.fields && m.Keeps(k) :: CloseIn(m, k, s.fields[k]);
      Obj(WidenType(s, out))
  }

  function CloseIn(m: Mode, k: string, v: Json): Json
    decreases v, 1
  {
    match m.kind(k)
    case Ref => if v.Str? && RefKey(v.s).Some? then Str(CLOSED + RefKey(v.s).value) else v
    case ChildMap => if v.Obj? then Obj(map n | n in v.fields :: Close(m, v.fields[n])) else v
    case Child => Close(m, v)
    case ChildList =>
      if v.Arr? then Arr(seq(|v.items|, i requires 0 <= i < |v.items| => Close(m, v.items[i]))) else v
    case _ => v
  }

  /** Every part of a schema that the walk looks into is well formed and refers to given names. */
  predicate Sound(m: Mode, names: set<string>, s: Json)
    decreases s, 0
  {
    s.Obj? && forall k :: k in s.fields ==> SoundIn(m, names, k, s.fields[k])
  }

  predicate SoundIn(m: Mode, names: set<string>, k: string, v: Json)
    decreases v, 1
  {
    match m.kind(k)
    case Forbidden => false
    case Ref => v.Str? && RefKey(v.s).Some? && CodeName(RefKey(v.s).value) in names
    case ChildMap => v.Obj? && forall n :: n in v.fields ==> Sound(m, names, v.fields[n])
    case Child => v.Obj? ==> Sound(m, names, v)
    case ChildList => v.Arr? && forall i :: 0 <= i < |v.items| ==> Sound(m, names, v.items[i])
    case _ => true
  }

  /** The schema refers to the component `n`, at any depth that the walk looks into. */
  predicate Mentions(m: Mode, s: Json, n: string)
    decreases s, 0
  {
    s.Obj? && exists k :: k in s.fields && MentionsIn(m, k, s.fields[k], n)
  }

  predicate MentionsIn(m: Mode, k: string, v: Json, n: string)
    decreases v, 1
  {
    match m.kind(k)
    case Ref => v.Str? && RefKey(v.s).Some? && CodeName(RefKey(v.s).value) == n
    case ChildMap => v.Obj? && exists c :: c in v.fields && Mentions(m, v.fields[c], n)
    case Child => Mentions(m, v, n)
    case ChildList => v.Arr? && exists i :: 0 <= i < |v.items| && Mentions(m, v.items[i], n)
    case _ => false
  }

  predicate Via(m: Mode, comps: map<string, Schema>, s: Json, path: seq<string>, n: string)
    decreases path
  {
    if path == [] then Mentions(m, s, n)
    else Mentions(m, s, path[0]) && path[0] in comps && Via(m, comps, comps[path[0]], path[1..], n)
  }

  ghost predicate Reaches(m: Mode, comps: map<string, Schema>, s: Json, n: string) {
    exists path :: Via(m, comps, s, path, n)
  }

  /** The reachable components, closed. */
  ghost function Definitions(m: Mode, comps: map<string, Schema>, s: Json): map<string, Json> {
    map n | n in comps && Reaches(m, comps, s, n) :: Close(m, comps[n])
  }

  /** The closed document. */
  function WithDefs(s: Json, defs: map<string, Json>): Json
    requires s.Obj?
  {
    if defs == map[] then s else Obj(s.fields["$defs" := Obj(defs)])
  }

  /** The root and everything it reaches can be closed. */
  ghost predicate Closable(m: Mode, comps: map<string, Schema>, s: Json) {
    Sound(m, comps.Keys, s) && forall n :: n in comps && Reaches(m, comps, s, n) ==> Sound(m, comps.Keys, comps[n])
  }

  lemma KindMeans(k: string)
    ensures KeywordKind(k) == Forbidden <==> k == "$id" || k == "$anchor" || k == "$dynamicRef" || k == "$dynamicAnchor"
    ensures KeywordKind(k) == Ref <==> k == "$ref"
    ensures KeywordKind(k) == ChildMap <==> k == "properties" || k == "patternProperties"
    ensures KeywordKind(k) == Child <==> k == "items" || k == "additionalProperties" || k == "not"
    ensures KeywordKind(k) == ChildList <==> k == "allOf" || k == "anyOf" || k == "oneOf"
  {
  }

  /** Sound, spelled out: no keyword that names or anchors a schema, references to given components alone, and
      parts that are sound in turn. */
  lemma SoundMeans(input: bool, names: set<string>, k: string, v: Json)
    ensures var m := Mode(KeywordKind, input);
      SoundIn(m, names, k, v) <==>
        && k != "$id" && k != "$anchor" && k != "$dynamicRef" && k != "$dynamicAnchor"
        && (k == "$ref" ==> v.Str? && "#/components/schemas/" <= v.s && CodeName(v.s[21..]) in names)
        && (k == "properties" || k == "patternProperties" ==>
              v.Obj? && forall n :: n in v.fields ==> Sound(m, names, v.fields[n]))
        && (k == "items" || k == "additionalProperties" || k == "not" ==> v.Obj? ==> Sound(m, names, v))
        && (k == "allOf" || k == "anyOf" || k == "oneOf" ==>
              v.Arr? && forall i :: 0 <= i < |v.items| ==> Sound(m, names, v.items[i]))
    ensures var m := Mode(KeywordKind, input);
      Sound(m, names, v) <==> v.Obj? && forall n :: n in v.fields ==> SoundIn(m, names, n, v.fields[n])
  {
    hide KeywordKind, CodeName;
    KindMeans(k);
  }

  // --------------------------------------------------------- exploration

  ghost predicate Within(m: Mode, s: Json, names: set<string>) {
    forall n :: Mentions(m, s, n) ==> n in names
  }

  ghost predicate WithinIn(m: Mode, k: string, v: Json, names: set<string>) {
    forall n :: MentionsIn(m, k, v, n) ==> n in names
  }

  /** What a successful part of the walk adds: definitions, all of `good` names, whose own references
      have been visited too. */
  ghost predicate Grew(closed: map<string, Json>, good: string -> bool, cites: (string, string) -> bool,
                       v0: set<string>, d0: map<string, Json>, v1: set<string>, d1: map<string, Json>) {
    && v0 <= v1 <= closed.Keys
    && d1 == d0 + (map n | n in v1 - v0 :: closed[n])
    && (forall n :: n in v1 - v0 ==> good(n))
    && forall n, c :: n in v1 - v0 && cites(n, c) ==> c in v1
  }

  lemma GrewTrans(closed: map<string, Json>, good: string -> bool, cites: (string, string) -> bool,
                  v0: set<string>, d0: map<string, Json>, v1: set<string>, d1: map<string, Json>,
                  v2: set<string>, d2: map<string, Json>)
    requires Grew(closed, good, cites, v0, d0, v1, d1) && Grew(closed, good, cites, v1, d1, v2, d2)
    ensures Grew(closed, good, cites, v0, d0, v2, d2)
  {
  }

  lemma GrewWeaken(closed: map<string, Json>, good: string -> bool, good': string -> bool,
                   cites: (string, string) -> bool, v0: set<string>, d0: map<string, Json>,
                   v1: set<string>, d1: map<string, Json>)
    requires Grew(closed, good, cites, v0, d0, v1, d1)
    requires forall n :: good(n) ==> good'(n)
    ensures Grew(closed, good', cites, v0, d0, v1, d1)
  {
  }

  ghost function AllClosed(m: Mode, comps: map<string, Schema>): map<string, Json> {
    map n | n in comps :: Close(m, comps[n])
  }

  ghost predicate Good(m: Mode, comps: map<string, Schema>, s: Json, n: string) {
    n in comps && Reaches(m, comps, s, n) && Sound(m, comps.Keys, comps[n])
  }

  ghost predicate Explored(m: Mode, comps: map<string, Schema>, s: Json, v0: set<string>, d0: map<string, Json>,
                           v1: set<string>, d1: map<string, Json>) {
    Grew(AllClosed(m, comps), n => Good(m, comps, s, n), (n, c) => n in comps && Mentions(m, comps[n], c),
         v0, d0, v1, d1)
  }

  lemma ExploredTrans(m: Mode, comps: map<string, Schema>, s: Json, v0: set<string>, d0: map<string, Json>,
                      v1: set<string>, d1: map<string, Json>, v2: set<string>, d2: map<string, Json>)
    requires Explored(m, comps, s, v0, d0, v1, d1) && Explored(m, comps, s, v1, d1, v2, d2)
    ensures Explored(m, comps, s, v0, d0, v2, d2)
  {
    GrewTrans(AllClosed(m, comps), n => Good(m, comps, s, n), (n, c) => n in comps && Mentions(m, comps[n], c),
              v0, d0, v1, d1, v2, d2);
  }

  /** Whatever the walk of `inner` finds or fails on is found or failed on by the walk of `outer`. */
  ghost predicate Below(m: Mode, comps: map<string, Schema>, outer: Json, inner: Json) {
    && (forall n :: Reaches(m, comps, inner, n) ==> Reaches(m, comps, outer, n))
    && (Closable(m, comps, outer) ==> Closable(m, comps, inner))
  }

  lemma ExploredBelow(m: Mode, comps: map<string, Schema>, outer: Json, inner: Json, v0: set<string>,
                      d0: map<string, Json>, v1: set<string>, d1: map<string, Json>)
    requires Below(m, comps, outer, inner) && Explored(m, comps, inner, v0, d0, v1, d1)
    ensures Explored(m, comps, outer, v0, d0, v1, d1)
  {
    GrewWeaken(AllClosed(m, comps), n => Good(m, comps, inner, n), n => Good(m, comps, outer, n),
               (n, c) => n in comps && Mentions(m, comps[n], c), v0, d0, v1, d1);
  }

  lemma PartBelow(m: Mode, comps: map<string, Schema>, outer: Json, inner: Json)
    requires forall n :: Mentions(m, inner, n) ==> Mentions(m, outer, n)
    requires Sound(m, comps.Keys, outer) ==> Sound(m, comps.Keys, inner)
    ensures Below(m, comps, outer, inner)
  {
    forall n | Reaches(m, comps, inner, n) ensures Reaches(m, comps, outer, n) {
      var path :| Via(m, comps, inner, path, n);
      assert Via(m, comps, outer, path, n);
    }
  }

  lemma TargetBelow(m: Mode, comps: map<string, Schema>, outer: Json, name: string)
    requires name in comps && Mentions(m, outer, name)
    ensures Below(m, comps, outer, comps[name]) && Reaches(m, comps, outer, name)
  {
    assert Via(m, comps, outer, [], name);
    forall n | Reaches(m, comps, comps[name], n) ensures Reaches(m, comps, outer, n) {
      var path :| Via(m, comps, comps[name], path, n);
      assert ([name] + path)[1..] == path;
      assert Via(m, comps, outer, [name] + path, n);
    }
  }

  /** A part of the value of keyword `k` lies below the schema that holds the keyword. */
  lemma KeywordBelow(m: Mode, comps: map<string, Schema>, outer: Schema, k: string, inner: Json)
    requires k in outer.fields
    requires forall n :: Mentions(m, inner, n) ==> MentionsIn(m, k, outer.fields[k], n)
    requires SoundIn(m, comps.Keys, k, outer.fields[k]) ==> Sound(m, comps.Keys, inner)
    ensures Below(m, comps, outer, inner)
  {
    PartBelow(m, comps, outer, inner);
  }

  lemma ChildBelow(m: Mode, comps: map<string, Schema>, outer: Schema, k: string)
    requires k in outer.fields && m.kind(k) == Child && outer.fields[k].Obj?
    ensures Below(m, comps, outer, outer.fields[k])
  {
    KeywordBelow(m, comps, outer, k, outer.fields[k]);
  }

  lemma MapChildBelow(m: Mode, comps: map<string, Schema>, outer: Schema, k: string, n: string)
    requires k in outer.fields && m.kind(k) == ChildMap && outer.fields[k].Obj? && n in outer.fields[k].fields
    ensures Below(m, comps, outer, outer.fields[k].fields[n])
  {
    KeywordBelow(m, comps, outer, k, outer.fields[k].fields[n]);
  }

  lemma ListChildBelow(m: Mode, comps: map<string, Schema>, outer: Schema, k: string, i: nat)
    requires k in outer.fields && m.kind(k) == ChildList && outer.fields[k].Arr? && i < |outer.fields[k].items|
    ensures Below(m, comps, outer, outer.fields[k].items[i])
  {
    KeywordBelow(m, comps, outer, k, outer.fields[k].items[i]);
  }

  lemma Unsound(m: Mode, comps: map<string, Schema>, s: Schema, k: string)
    requires k in s.fields && !SoundIn(m, comps.Keys, k, s.fields[k])
    ensures !Closable(m, comps, s)
  {
  }

  lemma GrewTarget(closed: map<string, Json>, good: string -> bool, cites: (string, string) -> bool, name: string,
                   v0: set<string>, d0: map<string, Json>, v1: set<string>, d1: map<string, Json>)
    requires name in closed && name !in v0 && good(name)
    requires Grew(closed, good, cites, v0 + {name}, d0, v1, d1)
    requires forall c :: cites(name, c) ==> c in v1
    ensures Grew(closed, good, cites, v0, d0, v1, d1[name := closed[name]])
  {
  }

  lemma UnsoundMap(m: Mode, comps: map<string, Schema>, s: Schema, k: string)
    requires k in s.fields && m.kind(k) == ChildMap && !s.fields[k].Obj?
    ensures !Closable(m, comps, s)
  {
    Unsound(m, comps, s, k);
  }

  lemma UnsoundChild(m: Mode, comps: map<string, Schema>, s: Schema, k: string, n: string)
    requires k in s.fields && m.kind(k) == ChildMap && s.fields[k].Obj?
    requires n in s.fields[k].fields && !s.fields[k].fields[n].Obj?
    ensures !Closable(m, comps, s)
  {
    assert !Sound(m, comps.Keys, s.fields[k].fields[n]);
    Unsound(m, comps, s, k);
  }

  lemma MapSound(m: Mode, comps: map<string, Schema>, k: string, v: Json, names: set<string>)
    requires m.kind(k) == ChildMap && v.Obj?
    requires forall n :: n in v.fields ==> Sound(m, comps.Keys, v.fields[n])
    requires forall n, c :: n in v.fields && Mentions(m, v.fields[n], c) ==> c in names
    ensures SoundIn(m, comps.Keys, k, v) && WithinIn(m, k, v, names)
    ensures CloseIn(m, k, v) == Obj(map n | n in v.fields :: Close(m, v.fields[n]))
  {
  }

  /** The name is marked first, its schema walked, and the definition stored last. */
  lemma ExploredTarget(m: Mode, comps: map<string, Schema>, s: Json, name: string, v0: set<string>,
                       d0: map<string, Json>, v1: set<string>, d1: map<string, Json>)
    requires name in comps && name !in v0 && Reaches(m, comps, s, name)
    requires Explored(m, comps, s, v0 + {name}, d0, v1, d1)
    requires Sound(m, comps.Keys, comps[name]) && Within(m, comps[name], v1)
    ensures Explored(m, comps, s, v0, d0, v1, d1[name := Close(m, comps[name])])
  {
    GrewTarget(AllClosed(m, comps), n => Good(m, comps, s, n), (n, c) => n in comps && Mentions(m, comps[n], c),
               name, v0, d0, v1, d1);
  }

  lemma ExploredNothing(m: Mode, comps: map<string, Schema>, s: Json, v: set<string>, d: map<string, Json>)
    requires v <= comps.Keys
    ensures Explored(m, comps, s, v, d, v, d)
  {
  }

  lemma AllSound(m: Mode, comps: map<string, Schema>, s: Schema, names: set<string>)
    requires forall k :: k in s.fields ==> SoundIn(m, comps.Keys, k, s.fields[k]) && WithinIn(m, k, s.fields[k], names)
    ensures Sound(m, comps.Keys, s) && Within(m, s, names)
  {
  }

  class Closer {
    const mode: Mode
    const components: map<string, Schema>
    var defs: map<string, Json>
    var visiting: set<string>

    constructor (mode: Mode, components: map<string, Schema>)
      ensures this.mode == mode && this.components == components
      ensures defs == map[] && visiting == {}
    {
      this.mode, this.components := mode, components;
      defs, visiting := map[], {};
    }

    method Walk(s: Schema) returns (r: Result<Json>)
      requires visiting <= components.Keys
      modifies this`defs, this`visiting
      ensures old(visiting) <= visiting <= components.Keys
      ensures r.Ok? ==> r.value == Close(mode, s)
      ensures r.Ok? ==> Sound(mode, components.Keys, s) && Within(mode, s, visiting)
      ensures r.Ok? ==> Explored(mode, components, s, old(visiting), old(defs), visiting, defs)
      ensures r.Err? ==> !Closable(mode, components, s)
      decreases components.Keys - visiting, s, 2
    {
      hide Explored, Closable, SoundIn, CloseIn, MentionsIn;
      var out: map<string, Json> := map[];
      var todo := s.fields.Keys;
      ExploredNothing(mode, components, s, visiting, defs);
      while todo != {}
        invariant old(visiting) <= visiting <= components.Keys
        invariant todo <= s.fields.Keys
        invariant out == map k | k in s.fields.Keys - todo && mode.Keeps(k) :: CloseIn(mode, k, s.fields[k])
        invariant forall k :: k in s.fields.Keys - todo ==>
          SoundIn(mode, components.Keys, k, s.fields[k]) && WithinIn(mode, k, s.fields[k], visiting)
        invariant Explored(mode, components, s, old(visiting), old(defs), visiting, defs)
        decreases todo
      {
        var k :| k in todo;
        ghost var v, d := visiting, defs;
        var kept := WalkIn(s, k);
        if kept.Err? { return Err; }
        ExploredTrans(mode, components, s, old(visiting), old(defs), v, d, visiting, defs);
        if kept.value.Some? { out := out[k := kept.value.value]; }
        todo := todo - {k};
      }
      AllSound(mode, components, s, visiting);
      assert out == map k | k in s.fields && mode.Keeps(k) :: CloseIn(mode, k, s.fields[k]);
      if "nullable" in s.fields && s.fields["nullable"] == Bool(true) {
        if "type" in out && out["type"].Str? {
          out := out["type" := Arr([out["type"], Str("null")])];
        }
      }
      r := Ok(Obj(out));
    }

    method WalkIn(s: Schema, k: string) returns (r: Result<Option<Json>>)
      requires visiting <= components.Keys && k in s.fields
      modifies this`defs, this`visiting
      ensures old(visiting) <= visiting <= components.Keys
      ensures r.Ok? ==> r.value == if mode.Keeps(k) then Some(CloseIn(mode, k, s.fields[k])) else None
      ensures r.Ok? ==> SoundIn(mode, components.Keys, k, s.fields[k]) && WithinIn(mode, k, s.fields[k], visiting)
      ensures r.Ok? ==> Explored(mode, components, s, old(visiting), old(defs), visiting, defs)
      ensures r.Err? ==> !Closable(mode, components, s)
      decreases components.Keys - visiting, s.fields[k], 3
    {
      hide Explored, Closable;
      var v := s.fields[k];
      ExploredNothing(mode, components, s, visiting, defs);
      match mode.kind(k)
      case Forbidden =>
        Unsound(mode, components, s, k);
        return Err;
      case Dropped => return Ok(if !mode.input then Some(v) else None);
      case Nullable => return Ok(None);
      case Ref =>
        var ref := WalkRef(s, k, v);
        return if ref.Ok? then Ok(Some(ref.value)) else Err;
      case ChildMap =>
        var part := WalkMap(s, k, v);
        return if part.Ok? then Ok(Some(part.value)) else Err;
      case Child =>
        if v.Obj? {
          ChildBelow(mode, components, s, k);
          var part := Walk(v);
          if part.Err? { return Err; }
          ExploredBelow(mode, components, s, v, old(visiting), old(defs), visiting, defs);
          return Ok(Some(part.value));
        }
        assert forall n :: MentionsIn(mode, k, v, n) ==> Mentions(mode, v, n);
        return Ok(Some(v));
      case ChildList =>
        var part := WalkList(s, k, v);
        return if part.Ok? then Ok(Some(part.value)) else Err;
      case Plain => return Ok(Some(v));
    }

    method WalkRef(ghost s: Schema, ghost k: string, v: Json) returns (r: Result<Json>)
      requires visiting <= components.Keys && k in s.fields && s.fields[k] == v && mode.kind(k) == Ref
      modifies this`defs, this`visiting
      ensures old(visiting) <= visiting <= components.Keys
      ensures r.Ok? ==> r.value == CloseIn(mode, k, v)
      ensures r.Ok? ==> SoundIn(mode, components.Keys, k, v) && WithinIn(mode, k, v, visiting)
      ensures r.Ok? ==> Explored(mode, components, s, old(visiting), old(defs), visiting, defs)
      ensures r.Err? ==> !Closable(mode, components, s)
      decreases components.Keys - visiting, v, 1
    {
      hide Explored, Closable, RefKey, CodeName, Close, Sound;
      if !v.Str? || RefKey(v.s).None? {
        Unsound(mode, components, s, k);
        return Err;
      }
      var key := RefKey(v.s).value;
      var name := CodeName(key);
      if name !in components {
        Unsound(mode, components, s, k);
        return Err;
      }
      var target := components[name];
      ExploredNothing(mode, components, s, visiting, defs);
      if name !in visiting {
        assert MentionsIn(mode, k, v, name);
        TargetBelow(mode, components, s, name);
        visiting := visiting + {name};
        var copy := Walk(target);
        if copy.Err? { return Err; }
        ExploredBelow(mode, components, s, target, old(visiting) + {name}, old(defs), visiting, defs);
        ExploredTarget(mode, components, s, name, old(visiting), old(defs), visiting, defs);
        defs := defs[name := copy.value];
      }
      r := Ok(Str(CLOSED + key));
    }

    method WalkMap(ghost s: Schema, ghost k: string, v: Json) returns (r: Result<Json>)
      requires visiting <= components.Keys && k in s.fields && s.fields[k] == v && mode.kind(k) == ChildMap
      modifies this`defs, this`visiting
      ensures old(visiting) <= visiting <= components.Keys
      ensures r.Ok? ==> r.value == CloseIn(mode, k, v)
      ensures r.Ok? ==> SoundIn(mode, components.Keys, k, v) && WithinIn(mode, k, v, visiting)
      ensures r.Ok? ==> Explored(mode, components, s, old(visiting), old(defs), visiting, defs)
      ensures r.Err? ==> !Closable(mode, components, s)
      decreases components.Keys - visiting, v, 1
    {
      hide Explored, Closable, Close, CloseIn, Sound, SoundIn, Mentions, MentionsIn, WithinIn;
      if !v.Obj? {
        UnsoundMap(mode, components, s, k);
        return Err;
      }
      var copy: map<string, Json> := map[];
      var todo := v.fields.Keys;
      ExploredNothing(mode, components, s, visiting, defs);
      while todo != {}
        invariant old(visiting) <= visiting <= components.Keys
        invariant todo <= v.fields.Keys
        invariant copy == map n | n in v.fields.Keys - todo :: Close(mode, v.fields[n])
        invariant forall n :: n in v.fields.Keys - todo ==> Sound(mode, components.Keys, v.fields[n])
        invariant forall n, c :: n in v.fields.Keys - todo && Mentions(mode, v.fields[n], c) ==> c in visiting
        invariant Explored(mode, components, s, old(visiting), old(defs), visiting, defs)
        decreases todo
      {
        var n :| n in todo;
        var child := v.fields[n];
        if !child.Obj? {
          UnsoundChild(mode, components, s, k, n);
          return Err;
        }
        ghost var v0, d0 := visiting, defs;
        MapChildBelow(mode, components, s, k, n);
        var cv := Walk(child);
        if cv.Err? { return Err; }
        ExploredBelow(mode, components, s, child, v0, d0, visiting, defs);
        ExploredTrans(mode, components, s, old(visiting), old(defs), v0, d0, visiting, defs);
        copy := copy[n := cv.value];
        todo := todo - {n};
      }
      MapSound(mode, components, k, v, visiting);
      r := Ok(Obj(copy));
    }

    method WalkList(ghost s: Schema, ghost k: string, v: Json) returns (r: Result<Json>)
      requires visiting <= components.Keys && k in s.fields && s.fields[k] == v && mode.kind(k) == ChildList
      modifies this`defs, this`visiting
      ensures old(visiting) <= visiting <= components.Keys
      ensures r.Ok? ==> r.value == CloseIn(mode, k, v)
      ensures r.Ok? ==> SoundIn(mode, components.Keys, k, v) && WithinIn(mode, k, v, visiting)
      ensures r.Ok? ==> Explored(mode, components, s, old(visiting), old(defs), visiting, defs)
      ensures r.Err? ==> !Closable(mode, components, s)
      decreases components.Keys - visiting, v, 1
    {
      hide Explored, Closable;
      if !v.Arr? {
        Unsound(mode, components, s, k);
        return Err;
      }
      var copy: seq<Json> := [];
      ExploredNothing(mode, components, s, visiting, defs);
      for i := 0 to |v.items|
        invariant old(visiting) <= visiting <= components.Keys
        invariant |copy| == i
        invariant forall j :: 0 <= j < i ==> copy[j] == Close(mode, v.items[j])
        invariant forall j :: 0 <= j < i ==>
          Sound(mode, components.Keys, v.items[j]) && Within(mode, v.items[j], visiting)
        invariant Explored(mode, components, s, old(visiting), old(defs), visiting, defs)
      {
        var child := v.items[i];
        if !child.Obj? {
          Unsound(mode, components, s, k);
          return Err;
        }
        ghost var v0, d0 := visiting, defs;
        ListChildBelow(mode, components, s, k, i);
        var cv := Walk(child);
        if cv.Err? { return Err; }
        ExploredBelow(mode, components, s, child, v0, d0, visiting, defs);
        ExploredTrans(mode, components, s, old(visiting), old(defs), v0, d0, visiting, defs);
        copy := copy + [cv.value];
      }
      r := Ok(Arr(copy));
    }
  }

  /** What a set closed under references cannot be left by following them. */
  lemma {:induction false} StaysWithin(m: Mode, comps: map<string, Schema>, s: Json, path: seq<string>, n: string,
                                       names: set<string>)
    requires Within(m, s, names) && Via(m, comps, s, path, n)
    requires forall c :: c in names && c in comps ==> Within(m, comps[c], names)
    ensures n in names
    decreases path
  {
    if path != [] {
      StaysWithin(m, comps, comps[path[0]], path[1..], n, names);
    }
  }

  /** The closed document: the closed root with the closed definitions of what it reaches. */
  ghost function Bundle(m: Mode, comps: map<string, Schema>, root: Schema): Json {
    WithDefs(Close(m, root), Definitions(m, comps, root))
  }

  lemma GrewFromNothing(closed: map<string, Json>, good: string -> bool, cites: (string, string) -> bool,
                        v: set<string>, d: map<string, Json>)
    requires Grew(closed, good, cites, {}, map[], v, d)
    ensures v <= closed.Keys && d == map n | n in v :: closed[n]
    ensures forall n :: n in v ==> good(n)
    ensures forall n, c :: n in v && cites(n, c) ==> c in v
  {
    assert forall n :: n in v <==> n in v - {};
  }

  lemma ExploredFromNothing(m: Mode, comps: map<string, Schema>, s: Json, v: set<string>, d: map<string, Json>)
    requires Explored(m, comps, s, {}, map[], v, d)
    ensures v <= comps.Keys && d == map n | n in v :: Close(m, comps[n])
    ensures forall n :: n in v ==> Good(m, comps, s, n)
    ensures forall n, c :: n in v && Mentions(m, comps[n], c) ==> c in v
  {
    hide Close, Good, Mentions;
    GrewFromNothing(AllClosed(m, comps), n => Good(m, comps, s, n),
                    (n, c) => n in comps && Mentions(m, comps[n], c), v, d);
  }

  lemma WalkedAll(m: Mode, comps: map<string, Schema>, root: Schema, v: set<string>, d: map<string, Json>)
    requires Sound(m, comps.Keys, root) && Within(m, root, v)
    requires Explored(m, comps, root, {}, map[], v, d)
    ensures Closable(m, comps, root)
    ensures d == Definitions(m, comps, root)
  {
    hide Explored, Sound, Close;
    ExploredFromNothing(m, comps, root, v, d);
    forall n | Reaches(m, comps, root, n) ensures n in v {
      var path :| Via(m, comps, root, path, n);
      StaysWithin(m, comps, root, path, n, v);
    }
  }

  method CloseSchema(root: Schema, components: map<string, Schema>, input: bool, size: Json -> nat)
      returns (r: Result<Json>)
    ensures var m := Mode(KeywordKind, input);
      && (r.Ok? <==> Closable(m, components, root) && size(Bundle(m, components, root)) <= 524288)
      && (r.Ok? ==> r.value == Bundle(m, components, root))
  {
    hide KeywordKind, Closable, Explored, Sound, Close;
    var m := Mode(KeywordKind, input);
    var closer := new Closer(m, components);
    var walked := closer.Walk(root);
    if walked.Err? { return Err; }
    WalkedAll(m, components, root, closer.visiting, closer.defs);
    var out := WithDefs(walked.value, closer.defs);
    r := if size(out) > SIZE_LIMIT then Err else Ok(out);
  }
}
