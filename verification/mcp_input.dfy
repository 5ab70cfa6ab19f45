/** Assembling the input schema of a tool from parameters and body (`compile` in internal/mcp/compiler.go). */
module McpInput {
  import opened Prelude
  import opened JsonPointer
  import opened SchemaClose
  import opened SchemaMeaning
  import opened OpenapiDocument
  import OpenapiGenerator
  import opened OpenapiMeaning

  datatype Parameter = Parameter(place: string, name: string, style: string, schema: Json)

  predicate Placed(p: Parameter) { p.place == "path" || p.place == "query" || p.place == "header" }

  predicate Styled(p: Parameter) { p.style == "" || p.style == "form" || p.style == "simple" }

  function GroupOf(place: string): string { if place == "header" then "headers" else place }

  /** An object with these properties and no others. */
  function Exactly(properties: map<string, Json>): Json {
    Obj(map["type" := Str("object"), "properties" := Obj(properties), "additionalProperties" := Bool(false)])
  }

  /** What is found by following property names down. */
  function At(s: Json, path: seq<string>): Option<Json> {
    if path == [] then Some(s)
    else if s.Obj? && "properties" in s.fields && s.fields["properties"].Obj? && path[0] in s.fields["properties"].fields then
      At(s.fields["properties"].fields[path[0]], path[1..])
    else None
  }

  /** Header parameters that carry credentials or context are filled in by the gateway itself. */
  predicate Shown(p: Parameter, hidden: string -> bool) { !(p.place == "header" && hidden(p.name)) }

  function Visible(ps: seq<Parameter>, hidden: string -> bool): seq<Parameter> {
    if ps == [] then []
    else
      var last := ps[|ps| - 1];
      Visible(ps[..|ps| - 1], hidden) + if Shown(last, hidden) then [last] else []
  }

  ghost predicate Supported(ps: seq<Parameter>, hidden: string -> bool) {
    forall i :: 0 <= i < |ps| && Shown(ps[i], hidden) ==> Placed(ps[i]) && Styled(ps[i])
  }

  ghost predicate SharesName(ps: seq<Parameter>) {
    exists i, j :: 0 <= i < j < |ps| && ps[i].name == ps[j].name
  }

  /** The last parameter of its place and name. */
  ghost predicate LastOfItsName(ps: seq<Parameter>, i: nat)
    requires i < |ps|
  {
    forall j :: i < j < |ps| ==> ps[j].place != ps[i].place || ps[j].name != ps[i].name
  }

  function NamesOf(ps: seq<Parameter>): set<string> {
    set j | 0 <= j < |ps| :: ps[j].name
  }

  lemma {:induction false} VisibleMembers(ps: seq<Parameter>, hidden: string -> bool)
    ensures forall p :: p in Visible(ps, hidden) <==> p in ps && !(p.place == "header" && hidden(p.name))
  {
    if ps != [] {
      var front, last := ps[..|ps| - 1], ps[|ps| - 1];
      VisibleMembers(front, hidden);
      VisibleNext(front, last, hidden);
      assert ps == front + [last];
    }
  }

  lemma VisibleNext(front: seq<Parameter>, last: Parameter, hidden: string -> bool)
    ensures Visible(front + [last], hidden)
         == if last.place == "header" && hidden(last.name) then Visible(front, hidden) else Visible(front, hidden) + [last]
  {
    assert (front + [last])[..|front|] == front;
  }

  /** First loop: which parameters the caller supplies, and whether they must be told apart by place. */
  method Collect(all: seq<Parameter>, hidden: string -> bool) returns (r: Result<seq<Parameter>>, grouped: bool)
    ensures r.Ok? <==> Supported(all, hidden)
    ensures r.Ok? ==> r.value == Visible(all, hidden) && (grouped <==> SharesName(r.value))
  {
    var seen: set<string> := {};
    var kept: seq<Parameter> := [];
    grouped := false;
    for i := 0 to |all|
      invariant kept == Visible(all[..i], hidden)
      invariant forall j :: 0 <= j < i && Shown(all[j], hidden) ==> Placed(all[j]) && Styled(all[j])
      invariant seen == NamesOf(kept)
      invariant grouped <==> SharesName(kept)
    {
      var p := all[i];
      assert all[..i + 1][..i] == all[..i];
      if Shown(p, hidden) {
        if !Placed(p) || !Styled(p) { return Err, grouped; }
        if p.name in seen { grouped := true; }
        OneMoreName(kept, p);
        seen := seen + {p.name};
        kept := kept + [p];
      }
    }
    assert all[..|all|] == all;
    r := Ok(kept);
  }

  /** Spelled out: what is supported, what is left to the caller, and when places must be told apart. */
  lemma CollectMeans(all: seq<Parameter>, hidden: string -> bool)
    ensures Supported(all, hidden) <==> forall p :: p in all && !(p.place == "header" && hidden(p.name)) ==>
      (p.place == "path" || p.place == "query" || p.place == "header") &&
      (p.style == "" || p.style == "form" || p.style == "simple")
    ensures forall p :: p in Visible(all, hidden) <==> p in all && !(p.place == "header" && hidden(p.name))
    ensures var kept := Visible(all, hidden);
      SharesName(kept) <==> exists i, j :: 0 <= i < j < |kept| && kept[i].name == kept[j].name
  {
    hide Visible;
    VisibleMembers(all, hidden);
    if Supported(all, hidden) {
      forall p | p in all && Shown(p, hidden) ensures Placed(p) && Styled(p) {
        var i :| 0 <= i < |all| && all[i] == p;
      }
    }
  }

  lemma OneMoreName(ps: seq<Parameter>, p: Parameter)
    ensures NamesOf(ps + [p]) == NamesOf(ps) + {p.name}
    ensures SharesName(ps + [p]) <==> SharesName(ps) || p.name in NamesOf(ps)
  {
    var qs := ps + [p];
    assert forall j :: 0 <= j < |ps| ==> qs[j] == ps[j];
    assert qs[|ps|] == p;
    if SharesName(ps) {
      var i, j :| 0 <= i < j < |ps| && ps[i].name == ps[j].name;
      assert qs[i].name == qs[j].name;
    }
    if j :| 0 <= j < |ps| && ps[j].name == p.name {
      assert qs[j].name == qs[|ps|].name;
    }
  }

  /** The path under which the caller finds a parameter. */
  function PathOf(p: Parameter, grouped: bool): seq<string> {
    if grouped then [GroupOf(p.place), p.name] else [p.name]
  }

  ghost predicate Reachable(root: Json, ps: seq<Parameter>, grouped: bool) {
    forall i :: 0 <= i < |ps| && LastOfItsName(ps, i) ==> At(root, PathOf(ps[i], grouped)) == Some(ps[i].schema)
  }

  function Properties(s: Json): map<string, Json> {
    if s.Obj? && "properties" in s.fields && s.fields["properties"].Obj? then s.fields["properties"].fields else map[]
  }

  lemma AtExactly(properties: map<string, Json>, name: string)
    ensures At(Exactly(properties), [name]) == if name in properties then Some(properties[name]) else None
    ensures forall inner ::
      At(Exactly(properties), [name, inner]) == (if name in properties then At(properties[name], [inner]) else None)
    ensures Properties(Exactly(properties)) == properties
  {
    assert [name][1..] == [];
    forall inner ensures [name, inner][1..] == [inner] {}
  }

  ghost function PartsOf(ps: seq<Parameter>, body: Option<Json>): set<Json> {
    (set i | 0 <= i < |ps| :: ps[i].schema) + if body.Some? then {body.value} else {}
  }

  /** Every property is one of the parts, or an object of them. */
  ghost predicate MadeOf(parts: set<Json>, properties: map<string, Json>) {
    forall n :: n in properties ==>
      properties[n] in parts || (properties[n] == Exactly(Properties(properties[n])) && Properties(properties[n]).Values <= parts)
  }

  /** Second loop: every parameter goes to its place, a later one of the same place and name instead of
      an earlier one; the body stands beside the groups. */
  method Assemble(ps: seq<Parameter>, body: Option<Json>, grouped: bool) returns (root: Json)
    requires forall i :: 0 <= i < |ps| ==> Placed(ps[i])
    requires !grouped ==> !SharesName(ps) && (body.Some? ==> ps == [])
    ensures Reachable(root, ps, grouped)
    ensures forall i :: 0 <= i < |ps| && LastOfItsName(ps, i) ==>
      At(root, if !grouped then [ps[i].name]
               else if ps[i].place == "header" then ["headers", ps[i].name] else [ps[i].place, ps[i].name])
      == Some(ps[i].schema)
    ensures body.Some? ==> if grouped then At(root, ["body"]) == body else root == body.value
    ensures (body.Some? && !grouped) || (root == Exactly(Properties(root)) && MadeOf(PartsOf(ps, body), Properties(root)))
  {
    ghost var parts := PartsOf(ps, body);
    if body.Some? && !grouped { return body.value; }
    var properties: map<string, Json> := map[];
    for i := 0 to |ps|
      invariant Reachable(Exactly(properties), ps[..i], grouped)
      invariant grouped ==> forall k :: k in properties ==>
        (k == "path" || k == "query" || k == "headers") && properties[k] == Exactly(Properties(properties[k])) &&
        Properties(properties[k]).Values <= parts
      invariant !grouped ==> properties.Values <= parts
    {
      var p := ps[i];
      ghost var before := properties;
      if grouped {
        var key := GroupOf(p.place);
        var group := if key in properties then Properties(properties[key]) else map[];
        properties := properties[key := Exactly(group[p.name := p.schema])];
        AtExactly(group[p.name := p.schema], p.name);
        assert group[p.name := p.schema].Values <= group.Values + {p.schema} <= parts;
        PlacedGrouped(before, properties, ps, i);
      } else {
        properties := properties[p.name := p.schema];
        assert properties.Values <= before.Values + {p.schema} <= parts;
        PlacedPlain(before, properties, ps, i);
      }
    }
    assert ps[..|ps|] == ps;
    if body.Some? {
      ghost var before := properties;
      properties := properties["body" := body.value];
      AtExactly(properties, "body");
      forall i | 0 <= i < |ps| && LastOfItsName(ps, i)
        ensures At(Exactly(properties), PathOf(ps[i], grouped)) == Some(ps[i].schema)
      {
        AtExactly(before, GroupOf(ps[i].place));
        AtExactly(properties, GroupOf(ps[i].place));
      }
    }
    AtExactly(properties, "body");
    root := Exactly(properties);
  }

  /** What such an object admits: objects with no other properties, each as its own schema says. */
  lemma ExactlyMeans(fuel: nat, properties: map<string, Json>, inst: Json, rd: Reading, w: World)
    ensures Valid(fuel, Exactly(properties), inst, rd, w) <==>
      inst.Obj? && forall k :: k in inst.fields ==> k in properties && Valid(fuel, properties[k], inst.fields[k], rd, w)
  {
    hide Holds, Valid;
    var s := Exactly(properties);
    ValidObject(fuel, s, inst, rd, w);
    Typed(fuel, s, "object", inst, rd, w);
    Listed(fuel, s, inst, rd, w);
    NothingElse(fuel, s, inst, rd, w);
  }

  lemma NothingElse(fuel: nat, s: Json, inst: Json, rd: Reading, w: World)
    requires s.Obj? && "properties" in s.fields && s.fields["properties"].Obj? && "patternProperties" !in s.fields
    requires "additionalProperties" in s.fields && s.fields["additionalProperties"] == Bool(false)
    ensures Holds(fuel, s, "additionalProperties", inst, rd, w) <==>
      (inst.Obj? ==> forall k :: k in inst.fields ==> k in s.fields["properties"].fields)
  {
    hide WordOf;
    TypeWords();
  }

  lemma StillLast(ps: seq<Parameter>, i: nat, j: nat)
    requires j < i < |ps| && LastOfItsName(ps[..i + 1], j)
    ensures LastOfItsName(ps[..i], j)
    ensures ps[i].place != ps[j].place || ps[i].name != ps[j].name
  {
    assert ps[..i + 1][i] == ps[i];
    forall k | j < k < i ensures ps[..i][k].place != ps[..i][j].place || ps[..i][k].name != ps[..i][j].name {
      assert ps[..i + 1][k] == ps[..i][k];
    }
  }

  lemma PlacedGrouped(before: map<string, Json>, after: map<string, Json>, ps: seq<Parameter>, i: nat)
    requires i < |ps| && (forall j :: 0 <= j < |ps| ==> Placed(ps[j]))
    requires Reachable(Exactly(before), ps[..i], true)
    requires forall k :: k in before ==> before[k] == Exactly(Properties(before[k]))
    requires var key := GroupOf(ps[i].place);
      after == before[key := Exactly((if key in before then Properties(before[key]) else map[])[ps[i].name := ps[i].schema])]
    ensures Reachable(Exactly(after), ps[..i + 1], true)
  {
    var key := GroupOf(ps[i].place);
    var group := if key in before then Properties(before[key]) else map[];
    forall j | 0 <= j < i + 1 && LastOfItsName(ps[..i + 1], j)
      ensures At(Exactly(after), PathOf(ps[j], true)) == Some(ps[j].schema)
    {
      AtExactly(after, GroupOf(ps[j].place));
      AtExactly(group[ps[i].name := ps[i].schema], ps[j].name);
      if j < i {
        StillLast(ps, i, j);
        assert ps[..i][j] == ps[j];
        AtExactly(before, GroupOf(ps[j].place));
        AtExactly(group, ps[j].name);
      }
    }
  }

  lemma PlacedPlain(before: map<string, Json>, after: map<string, Json>, ps: seq<Parameter>, i: nat)
    requires i < |ps| && !SharesName(ps) && Reachable(Exactly(before), ps[..i], false)
    requires after == before[ps[i].name := ps[i].schema]
    ensures Reachable(Exactly(after), ps[..i + 1], false)
  {
    forall j | 0 <= j < i + 1 && LastOfItsName(ps[..i + 1], j)
      ensures At(Exactly(after), PathOf(ps[j], false)) == Some(ps[j].schema)
    {
      AtExactly(after, ps[j].name);
      if j < i {
        StillLast(ps, i, j);
        assert ps[..i][j] == ps[j];
        AtExactly(before, ps[j].name);
      }
    }
  }

  // ------------------------------------------------- and what closes it

  /** An object of good properties is good, at whatever depth. */
  lemma ExactlyIsGood(m: Mode, names: set<string>, properties: map<string, Json>)
    requires m.kind == KeywordKind && forall n :: n in properties ==> OpenapiDocument.Good(m, names, properties[n])
    ensures OpenapiDocument.Good(m, names, Exactly(properties))
  {
    hide KeywordKind, WordOf, OpenapiDocument.Good, GoodIn;
    GoodProperties(m, names, properties);
    GoodChild(m, names, "additionalProperties", Bool(false));
    GoodNeutral(m, names, "type", Str("object"));
    GoodObject(m, names, Exactly(properties));
  }

  /** The schema assembled from good parts is good. */
  lemma AssembledIsGood(m: Mode, names: set<string>, ps: seq<Parameter>, body: Option<Json>, root: Json)
    requires m.kind == KeywordKind && forall p :: p in PartsOf(ps, body) ==> OpenapiDocument.Good(m, names, p)
    requires body == Some(root) || (root == Exactly(Properties(root)) && MadeOf(PartsOf(ps, body), Properties(root)))
    ensures OpenapiDocument.Good(m, names, root)
  {
    hide KeywordKind, WordOf, OpenapiDocument.Good, GoodIn;
    if body != Some(root) {
      var properties := Properties(root);
      forall n | n in properties ensures OpenapiDocument.Good(m, names, properties[n]) {
        if properties[n] !in PartsOf(ps, body) {
          var inner := Properties(properties[n]);
          forall k | k in inner ensures OpenapiDocument.Good(m, names, inner[k]) {
            assert inner[k] in inner.Values;
          }
          ExactlyIsGood(m, names, inner);
        }
      }
      ExactlyIsGood(m, names, properties);
    }
  }

  /** The schema of path placeholders and context headers that no field declares. */
  const TEXT: Json := Obj(map["type" := Str("string")])

  lemma TextIsGood(m: Mode, names: set<string>)
    requires m.kind == KeywordKind
    ensures OpenapiDocument.Good(m, names, TEXT)
  {
    hide KeywordKind, WordOf, OpenapiDocument.Good, GoodIn;
    GoodNeutral(m, names, "type", Str("string"));
    GoodObject(m, names, TEXT);
  }

  /** Whatever parameters and body of a generated operation the caller supplies, the assembled input
      schema can be closed, and everything the generated document accepts is let through. */
  lemma AssembledInputCloses(e: OpenapiGenerator.Env, routes: seq<Served>, d: Document, i: nat, ps: seq<Parameter>,
                             body: Option<Json>, root: Schema, fuel: nat, inst: Json, w: World)
    requires Lexed(e) && Complete(e, routes, d) && i < |routes| && PlainType(routes[i].request)
    requires routes[i].result.Some? ==> PlainType(routes[i].result.value)
    requires i < |d.operations| && (forall p :: p in ps ==> p.schema in d.operations[i].params || p.schema == TEXT)
    requires body == d.operations[i].body
    requires body == Some(root) || (root == Exactly(Properties(root)) && MadeOf(PartsOf(ps, body), Properties(root)))
    ensures Closable(Mode(KeywordKind, true), d.schemas, root)
    ensures Valid(fuel, root, inst, Reading(Source(d.schemas), true), w) ==>
      var closed := Bundle(Mode(KeywordKind, true), d.schemas, root);
      Valid(fuel, closed, inst, Reading(closed, false), w)
  {
    hide KeywordKind, Lexed, Complete, Closable, AllFit, Valid, Bundle, Source, OpenapiDocument.Good, MadeOf;
    var m := Mode(KeywordKind, true);
    OperationsAreGood(m, e, routes, d, i);
    TextIsGood(m, d.schemas.Keys);
    AssembledIsGood(m, d.schemas.Keys, ps, body, root);
    GoodCloses(m, e, routes, d, root);
    if Valid(fuel, root, inst, Reading(Source(d.schemas), true), w) {
      InputMeaningWidened(d.schemas, root, fuel, inst, w);
    }
  }

  /** Exactly: the closed input accepts what the assembled one accepts once required fields, enums, patterns and
      the other assertions left to the service are read as true. */
  lemma AssembledInputMeans(e: OpenapiGenerator.Env, routes: seq<Served>, d: Document, i: nat, ps: seq<Parameter>,
                            body: Option<Json>, root: Schema, fuel: nat, inst: Json, w: World)
    requires Lexed(e) && Complete(e, routes, d) && i < |routes| && PlainType(routes[i].request)
    requires routes[i].result.Some? ==> PlainType(routes[i].result.value)
    requires i < |d.operations| && (forall p :: p in ps ==> p.schema in d.operations[i].params || p.schema == TEXT)
    requires body == d.operations[i].body
    requires body == Some(root) || (root == Exactly(Properties(root)) && MadeOf(PartsOf(ps, body), Properties(root)))
    ensures var closed := Bundle(Mode(KeywordKind, true), d.schemas, root);
      Valid(fuel, closed, inst, Reading(closed, false), w) <==>
      Valid(fuel, root, inst, Reading(Source(d.schemas), true), Lenient(w))
  {
    hide KeywordKind, Lexed, Complete, Closable, AllFit, Reaches, Sound, Fit, Valid, Bundle, Source, MadeOf, Lenient;
    var left, whole := Mode(KeywordKind, true), Mode(KeywordKind, false);
    OperationsAreGood(left, e, routes, d, i);
    OperationsAreGood(whole, e, routes, d, i);
    TextIsGood(left, d.schemas.Keys);
    TextIsGood(whole, d.schemas.Keys);
    AssembledIsGood(left, d.schemas.Keys, ps, body, root);
    AssembledIsGood(whole, d.schemas.Keys, ps, body, root);
    GoodCloses(left, e, routes, d, root);
    ComponentsAreGood(whole, e, routes, d);
    InputMeaningExact(d.schemas, root, fuel, inst, w);
  }
}
