/** The generated document as a whole, and what closing its schemas finds there. */
module OpenapiDocument {
  import opened Prelude
  import opened ThriftAst
  import opened JsonPointer
  import opened SchemaClose
  import opened SchemaMeaning
  import opened TypeResolvers
  import opened OpenapiGenerator

  // ----------------------------------------------- words of the document

  predicate Neutral(k: string) {
    || k == "type" || k == "format" || k == "uniqueItems" || k == "description" || k == "title"
    || k == "enum" || k == "required" || k == "pattern" || k == "example"
  }

  lemma NeutralWord(k: string)
    requires Neutral(k)
    ensures KeywordKind(k) == Plain || KeywordKind(k) == Dropped
  {
  }

  lemma ChildWords()
    ensures KeywordKind("items") == Child && WordOf("items") != Not && WordOf("items") != OneOf
    ensures KeywordKind("additionalProperties") == Child
    ensures WordOf("additionalProperties") != Not && WordOf("additionalProperties") != OneOf
  {
  }

  lemma ListWords()
    ensures KeywordKind("properties") == ChildMap && KeywordKind("allOf") == ChildList
    ensures WordOf("properties") != Not && WordOf("properties") != OneOf
    ensures WordOf("allOf") != Not && WordOf("allOf") != OneOf
  {
  }

  lemma RefWords()
    ensures KeywordKind("$ref") == Ref && WordOf("$ref") == RefWord
  {
  }

  // ------------------------------------------------ schemas that close

  /** The walk goes through the schema, and closing it changes no verdict. */
  ghost predicate Good(m: Mode, names: set<string>, s: Json) {
    Sound(m, names, s) && Fit(m, s)
  }

  ghost predicate GoodIn(m: Mode, names: set<string>, k: string, v: Json) {
    SoundIn(m, names, k, v) && FitIn(m, k, v) && m.kind(k) != Ref
  }

  lemma GoodObject(m: Mode, names: set<string>, s: Schema)
    requires m.kind == KeywordKind && forall k :: k in s.fields ==> GoodIn(m, names, k, s.fields[k])
    ensures Good(m, names, s)
  {
    hide KeywordKind, WordOf, SoundIn, FitIn;
    RefWords();
  }

  lemma GoodNeutral(m: Mode, names: set<string>, k: string, v: Json)
    requires m.kind == KeywordKind && Neutral(k)
    ensures GoodIn(m, names, k, v)
  {
    hide KeywordKind, WordOf, Neutral;
    NeutralWord(k);
    KindOfWord(k);
  }

  lemma GoodChild(m: Mode, names: set<string>, k: string, v: Json)
    requires m.kind == KeywordKind && (k == "items" || k == "additionalProperties")
    requires v.Obj? ==> Good(m, names, v)
    ensures GoodIn(m, names, k, v)
  {
    hide KeywordKind, WordOf;
    ChildWords();
  }

  lemma GoodProperties(m: Mode, names: set<string>, properties: map<string, Json>)
    requires m.kind == KeywordKind && forall n :: n in properties ==> Good(m, names, properties[n])
    ensures GoodIn(m, names, "properties", Obj(properties))
  {
    hide KeywordKind, WordOf;
    ListWords();
  }

  lemma GoodAllOf(m: Mode, names: set<string>, s: Json)
    requires m.kind == KeywordKind && Good(m, names, s)
    ensures GoodIn(m, names, "allOf", Arr([s]))
  {
    hide KeywordKind, WordOf;
    ListWords();
  }

  predicate PlainText(s: string) {
    '/' !in s && '~' !in s
  }

  lemma GoodRef(m: Mode, names: set<string>, key: string)
    requires m.kind == KeywordKind && key in names && PlainText(key)
    ensures Good(m, names, RefTo(key))
  {
    hide KeywordKind, WordOf, CodeName, SingleToken, RefKey;
    RefWords();
    RefKeyOf(key);
    CodeNameWithoutTilde(key);
    PlainIsSingle(key);
    var s := RefTo(key);
    assert SoundIn(m, names, "$ref", s.fields["$ref"]) && FitIn(m, "$ref", s.fields["$ref"]);
  }

  // -------------------------------------------------- lexical conditions

  lemma {:induction false} PlainIsSingle(key: string)
    requires PlainText(key)
    ensures SingleToken(key)
  {
    if key != "" { PlainIsSingle(key[1..]); }
  }

  predicate PlainType(t: Type) {
    PlainText(t.name) && (t.value.Some? ==> PlainType(t.value.value))
  }

  predicate PlainFields(fields: seq<Field>) {
    forall i :: 0 <= i < |fields| ==> PlainType(fields[i].typ)
  }

  predicate PlainStructs(structs: seq<StructLike>) {
    forall i :: 0 <= i < |structs| ==> PlainFields(structs[i].fields)
  }

  /** Type names are identifiers joined by dots, and file names are encoded in the URL-safe alphabet. */
  ghost predicate Lexed(e: Env) {
    && (forall f :: PlainText(e.enc(f)))
    && forall f :: f in e.asts ==>
         && (forall i :: 0 <= i < |e.asts[f].typedefs| ==> PlainType(e.asts[f].typedefs[i].typ))
         && PlainStructs(e.asts[f].structs) && PlainStructs(e.asts[f].unions) && PlainStructs(e.asts[f].exceptions)
  }

  // ------------------------------------------- every component is good

  lemma GoodBasic(m: Mode, names: set<string>, name: string)
    requires m.kind == KeywordKind && Basic(name).Some?
    ensures Good(m, names, Basic(name).value)
  {
    hide KeywordKind, WordOf, Good, GoodIn;
    var s := Basic(name).value;
    forall k | k in s.fields ensures GoodIn(m, names, k, s.fields[k]) {
      GoodNeutral(m, names, k, s.fields[k]);
    }
    GoodObject(m, names, s);
  }

  lemma {:induction false} GoodSchema(m: Mode, names: set<string>, e: Env, file: string, t: Option<Type>)
    requires m.kind == KeywordKind && Lexed(e) && file in e.asts && (t.Some? ==> PlainType(t.value))
    requires Cited(e, file, t) <= names
    ensures Good(m, names, SchemaOf(e, file, t))
    decreases t
  {
    hide KeywordKind, WordOf, Good, GoodIn, Basic, Neutral;
    if t.None? {
      GoodObject(m, names, Obj(map[]));
    } else if Basic(t.value.name).Some? {
      GoodBasic(m, names, t.value.name);
    } else if t.value.name == "list" || t.value.name == "set" {
      GoodSchema(m, names, e, file, t.value.value);
      GoodArray(m, names, SchemaOf(e, file, t.value.value), t.value.name == "set");
    } else if t.value.name == "map" {
      GoodSchema(m, names, e, file, t.value.value);
      GoodMap(m, names, SchemaOf(e, file, t.value.value));
    } else {
      var (f, n) := TypeResolvers.Resolve(e.asts, file, t.value.name);
      GoodRef(m, names, Key(e, f, n));
    }
  }

  lemma GoodArray(m: Mode, names: set<string>, items: Json, unique: bool)
    requires m.kind == KeywordKind && Good(m, names, items)
    ensures Good(m, names, ArrayOf(items, unique))
  {
    hide KeywordKind, WordOf, Good, GoodIn;
    var s := ArrayOf(items, unique);
    GoodChild(m, names, "items", items);
    GoodNeutral(m, names, "type", s.fields["type"]);
    GoodNeutral(m, names, "uniqueItems", Bool(true));
    GoodObject(m, names, s);
  }

  lemma GoodMap(m: Mode, names: set<string>, value: Json)
    requires m.kind == KeywordKind && Good(m, names, value)
    ensures Good(m, names, MapOf(value))
  {
    hide KeywordKind, WordOf, Good, GoodIn;
    GoodChild(m, names, "additionalProperties", value);
    GoodNeutral(m, names, "type", Str("object"));
    GoodObject(m, names, MapOf(value));
  }

  lemma GoodDescribed(m: Mode, names: set<string>, s: Json, comment: string)
    requires m.kind == KeywordKind && Good(m, names, s)
    ensures Good(m, names, Described(s, comment))
  {
    hide KeywordKind, WordOf, Good, GoodIn;
    if comment != "" {
      GoodAllOf(m, names, s);
      GoodNeutral(m, names, "description", Str(comment));
      GoodObject(m, names, Described(s, comment));
    }
  }

  lemma GoodField(m: Mode, names: set<string>, e: Env, file: string, f: Field)
    requires m.kind == KeywordKind && Lexed(e) && file in e.asts && PlainType(f.typ)
    requires Cited(e, file, Some(f.typ)) <= names
    ensures Good(m, names, FieldOf(e, file, f))
  {
    hide KeywordKind, WordOf, Good, GoodIn, Lexed;
    GoodSchema(m, names, e, file, Some(f.typ));
    GoodText(m, names);
    GoodDescribed(m, names, if f.jsConv && f.typ.name == "i64" then INT64_TEXT else SchemaOf(e, file, Some(f.typ)), f.comment);
  }

  lemma GoodText(m: Mode, names: set<string>)
    requires m.kind == KeywordKind
    ensures Good(m, names, INT64_TEXT)
  {
    hide KeywordKind, WordOf, Good, GoodIn;
    forall k | k in INT64_TEXT.fields ensures GoodIn(m, names, k, INT64_TEXT.fields[k]) {
      GoodNeutral(m, names, k, INT64_TEXT.fields[k]);
    }
    GoodObject(m, names, INT64_TEXT);
  }

  lemma {:induction false} GoodPropertiesOf(m: Mode, names: set<string>, e: Env, file: string, fields: seq<Field>)
    requires m.kind == KeywordKind && Lexed(e) && file in e.asts && PlainFields(fields)
    requires FieldsCited(e, file, fields) <= names
    ensures forall k :: k in PropertiesOf(e, file, fields) ==> Good(m, names, PropertiesOf(e, file, fields)[k])
  {
    hide KeywordKind, WordOf, Good, GoodIn, Lexed;
    if fields != [] {
      var last := fields[|fields| - 1];
      assert forall k :: k in Cited(e, file, Some(last.typ)) ==> k in FieldsCited(e, file, fields);
      assert FieldsCited(e, file, fields[..|fields| - 1]) <= FieldsCited(e, file, fields);
      GoodPropertiesOf(m, names, e, file, fields[..|fields| - 1]);
      GoodField(m, names, e, file, last);
    }
  }

  lemma GoodFields(m: Mode, names: set<string>, properties: map<string, Json>, required: seq<Json>)
    requires m.kind == KeywordKind && forall k :: k in properties ==> Good(m, names, properties[k])
    ensures forall k :: k in ObjectOf(properties, required) ==> GoodIn(m, names, k, ObjectOf(properties, required)[k])
  {
    hide KeywordKind, WordOf, Good, GoodIn;
    GoodProperties(m, names, properties);
    GoodNeutral(m, names, "type", Str("object"));
    GoodNeutral(m, names, "required", Arr(required));
  }

  lemma {:induction false} FoundPlainStruct(structs: seq<StructLike>, name: string)
    requires PlainStructs(structs) && FindStruct(structs, name).Some?
    ensures PlainFields(FindStruct(structs, name).value.fields)
  {
    if structs[0].name != name { FoundPlainStruct(structs[1..], name); }
  }

  lemma PlainDeclaration(e: Env, f: string, n: string)
    requires Lexed(e) && !Declared(e, f, n).Unknown?
    ensures Declared(e, f, n).Alias? ==> PlainType(Declared(e, f, n).typ)
    ensures Declared(e, f, n).Record? ==> PlainFields(Declared(e, f, n).fields)
  {
    var ast := e.asts[f];
    FoundTypedef(ast.typedefs, n);
    if Declared(e, f, n).Record? { FoundPlainStruct(ast.structs + ast.unions + ast.exceptions, n); }
  }

  lemma GoodEntry(m: Mode, names: set<string>, e: Env, f: string, n: string)
    requires m.kind == KeywordKind && Lexed(e) && !Declared(e, f, n).Unknown?
    requires EntryCited(e, f, n) <= names
    ensures EntryOf(e, f, n).Obj? && Good(m, names, EntryOf(e, f, n))
  {
    hide KeywordKind, WordOf, Good, GoodIn, Declared, Lexed;
    PlainDeclaration(e, f, n);
    InArchive(e, f, n);
    match Declared(e, f, n)
    case Alias(t) =>
      GoodSchema(m, names, e, f, Some(t));
      GoodAllOf(m, names, SchemaOf(e, f, Some(t)));
      GoodTitled(m, names, e, f, n, map["allOf" := Arr([SchemaOf(e, f, Some(t))])]);
    case Enumeration(values) =>
      var enum := Arr(seq(|values|, i requires 0 <= i < |values| => Num(values[i] as real)));
      GoodNeutral(m, names, "type", Str("integer"));
      GoodNeutral(m, names, "enum", enum);
      GoodTitled(m, names, e, f, n, map["type" := Str("integer"), "enum" := enum]);
    case Record(fields) =>
      GoodPropertiesOf(m, names, e, f, fields);
      GoodFields(m, names, PropertiesOf(e, f, fields), RequiredOf(fields));
      GoodTitled(m, names, e, f, n, FieldsOf(e, f, fields));
  }

  lemma GoodTitled(m: Mode, names: set<string>, e: Env, f: string, n: string, s: map<string, Json>)
    requires m.kind == KeywordKind && forall k :: k in s ==> GoodIn(m, names, k, s[k])
    ensures Good(m, names, Titled(e, f, n, s))
  {
    hide KeywordKind, WordOf, Good, GoodIn;
    GoodNeutral(m, names, "title", Str(n));
    GoodNeutral(m, names, "description", Str(e.about(f, n)));
    GoodObject(m, names, Titled(e, f, n, s));
  }

  lemma InArchive(e: Env, f: string, n: string)
    requires !Declared(e, f, n).Unknown?
    ensures f in e.asts
  {
  }

  // ------------------------------------------------------------ documents

  /** A served method: the file it is declared in, its one parameter and its result. */
  datatype Served = Served(file: string, request: Type, result: Option<Type>)

  /** Schemas of one operation: parameters, body if any, and the `data` of the success envelope. */
  datatype Operation = Operation(params: seq<Json>, body: Option<Json>, result: Json)

  datatype Document = Document(operations: seq<Operation>, schemas: map<string, Schema>)

  function Bound(fields: seq<Field>, bound: bool): seq<Field> {
    if fields == [] then []
    else
      var last := fields[|fields| - 1];
      Bound(fields[..|fields| - 1], bound) + if last.bound == bound then [last] else []
  }

  function Envelope(data: Json): Json {
    Obj(map["type" := Str("object"), "required" := Arr([Str("code"), Str("message"), Str("data")]),
            "properties" := Obj(map[
              "code" := Obj(map["type" := Str("string"), "pattern" := Str("^[0-9]{6}$"), "enum" := Arr([Str("000000")])]),
              "message" := Obj(map["type" := Str("string"), "example" := Str("success")]),
              "data" := data])])
  }

  function RequestFields(e: Env, r: Served): Option<(string, StructLike)>
    requires r.file in e.asts
  {
    StructFields(e.asts, r.file, r.request.name, 0)
  }

  function FieldSchemas(e: Env, file: string, fields: seq<Field>): seq<Json>
    requires file in e.asts
  {
    seq(|fields|, i requires 0 <= i < |fields| => FieldOf(e, file, fields[i]))
  }

  function OperationOf(e: Env, r: Served): Operation
    requires r.file in e.asts
  {
    var found := RequestFields(e, r);
    var result := Envelope(SchemaOf(e, r.file, r.result));
    if found.None? then Operation([], None, result)
    else
      var (file, s) := found.value;
      var body := Bound(s.fields, false);
      Operation(FieldSchemas(e, file, Bound(s.fields, true)),
                if body == [] then None else Some(Obj(FieldsOf(e, file, body))), result)
  }

  function OperationCited(e: Env, r: Served): set<string>
    requires r.file in e.asts
  {
    var found := RequestFields(e, r);
    Cited(e, r.file, r.result) +
    if found.None? then {} else FieldsCited(e, found.value.0, found.value.1.fields)
  }

  lemma {:induction false} BoundOf(fields: seq<Field>, bound: bool)
    ensures forall i :: 0 <= i < |Bound(fields, bound)| ==> Bound(fields, bound)[i] in fields
  {
    if fields != [] { BoundOf(fields[..|fields| - 1], bound); }
  }

  lemma BoundCited(e: Env, file: string, fields: seq<Field>, bound: bool)
    requires file in e.asts
    ensures FieldsCited(e, file, Bound(fields, bound)) <= FieldsCited(e, file, fields)
  {
    hide Bound, Cited;
    BoundOf(fields, bound);
    forall k | k in FieldsCited(e, file, Bound(fields, bound)) ensures k in FieldsCited(e, file, fields) {
      var i :| 0 <= i < |Bound(fields, bound)| && k in Cited(e, file, Some(Bound(fields, bound)[i].typ));
      var j :| 0 <= j < |fields| && fields[j] == Bound(fields, bound)[i];
    }
  }

  ghost predicate Describes(e: Env, schemas: map<string, Json>, k: string) {
    k in schemas && exists f, n ::
      && k == Key(e, f, n) && !Declared(e, f, n).Unknown?
      && schemas[k] == EntryOf(e, f, n) && EntryCited(e, f, n) <= schemas.Keys
  }

  /** The document describes every operation, and holds the component of every declaration that is
      referred to, from an operation or from another component. */
  ghost predicate Complete(e: Env, routes: seq<Served>, d: Document) {
    && |d.operations| == |routes|
    && (forall i :: 0 <= i < |routes| ==> routes[i].file in e.asts)
    && (forall i :: 0 <= i < |routes| ==>
          d.operations[i] == OperationOf(e, routes[i]) && OperationCited(e, routes[i]) <= d.schemas.Keys)
    && forall k :: k in d.schemas ==> Describes(e, d.schemas, k)
  }

  /** The loop over the fields of the request: parameters at once, the rest collected for the body. */
  method DescribeFields(g: Generator, file: string, fields: seq<Field>) returns (params: seq<Json>, body: Option<Json>)
    requires file in g.env.asts && Encodes(g.env.enc)
    modifies g`schemas, g`err
    ensures params == FieldSchemas(g.env, file, Bound(fields, true))
    ensures var rest := Bound(fields, false);
      body == if rest == [] then None else Some(Obj(FieldsOf(g.env, file, rest)))
    ensures FieldsCited(g.env, file, fields) <= g.schemas.Keys
    ensures Extended(g.env, old(g.schemas), old(g.err), g.schemas, g.err)
    ensures Forced(g.env, FieldsCited(g.env, file, fields), old(g.schemas), g.schemas)
  {
    hide Extended, Cited, FieldOf, FieldsOf, Forced, Encodes;
    var e := g.env;
    ghost var all := FieldsCited(e, file, fields);
    NothingForced(e, all, g.schemas);
    params := [];
    var bodyFields: seq<Field> := [];
    body := None;
    Unchanged(e, g.schemas, g.err);
    for i := 0 to |fields|
      invariant params == FieldSchemas(e, file, Bound(fields[..i], true)) && bodyFields == Bound(fields[..i], false)
      invariant forall j :: 0 <= j < i && fields[j].bound ==> Cited(e, file, Some(fields[j].typ)) <= g.schemas.Keys
      invariant Extended(e, old(g.schemas), old(g.err), g.schemas, g.err)
      invariant Forced(e, all, old(g.schemas), g.schemas)
    {
      assert fields[..i + 1][..i] == fields[..i];
      if fields[i].bound {
        ghost var s0, e0 := g.schemas, g.err;
        var p := g.Field(file, fields[i]);
        FieldCited(e, file, fields, i);
        ForcedTrans(e, Cited(e, file, Some(fields[i].typ)), all, old(g.schemas), s0, g.schemas);
        ExtendedKeys(e, s0, e0, g.schemas, g.err);
        ExtendedTrans(e, old(g.schemas), old(g.err), s0, e0, g.schemas, g.err);
        params := params + [p];
      } else {
        bodyFields := bodyFields + [fields[i]];
      }
    }
    assert fields[..|fields|] == fields;
    if bodyFields != [] {
      ghost var s0, e0 := g.schemas, g.err;
      var b := g.Fields(file, bodyFields);
      BoundCited(e, file, fields, false);
      ForcedTrans(e, FieldsCited(e, file, bodyFields), all, old(g.schemas), s0, g.schemas);
      ExtendedKeys(e, s0, e0, g.schemas, g.err);
      ExtendedTrans(e, old(g.schemas), old(g.err), s0, e0, g.schemas, g.err);
      body := Some(Obj(b));
    }
    AllCited(e, file, fields, g.schemas.Keys);
  }

  method Describe(g: Generator, r: Served) returns (op: Operation)
    requires r.file in g.env.asts && Encodes(g.env.enc)
    modifies g`schemas, g`err
    ensures op == OperationOf(g.env, r) && OperationCited(g.env, r) <= g.schemas.Keys
    ensures Extended(g.env, old(g.schemas), old(g.err), g.schemas, g.err)
    ensures Forced(g.env, OperationCited(g.env, r), old(g.schemas), g.schemas)
  {
    hide Extended, Forced, Encodes, StructFields, Cited, SchemaOf, Envelope, FieldsOf, FieldsCited, FieldSchemas, Bound;
    var params: seq<Json>, body: Option<Json> := [], None;
    var found := RequestFields(g.env, r);
    Unchanged(g.env, g.schemas, g.err);
    ghost var all := OperationCited(g.env, r);
    NothingForced(g.env, all, g.schemas);
    if found.Some? {
      params, body := DescribeFields(g, found.value.0, found.value.1.fields);
      ForcedTrans(g.env, FieldsCited(g.env, found.value.0, found.value.1.fields), all, old(g.schemas), old(g.schemas), g.schemas);
    }
    ghost var s0, e0 := g.schemas, g.err;
    var data := g.Schema(r.file, r.result);
    ForcedTrans(g.env, Cited(g.env, r.file, r.result), all, old(g.schemas), s0, g.schemas);
    ExtendedKeys(g.env, s0, e0, g.schemas, g.err);
    ExtendedTrans(g.env, old(g.schemas), old(g.err), s0, e0, g.schemas, g.err);
    op := Operation(params, body, Envelope(data));
  }

  lemma {:induction false} UnboundIn(fields: seq<Field>, j: nat)
    requires j < |fields| && !fields[j].bound
    ensures fields[j] in Bound(fields, false)
  {
    if j < |fields| - 1 { UnboundIn(fields[..|fields| - 1], j); }
  }

  lemma AllCited(e: Env, file: string, fields: seq<Field>, names: set<string>)
    requires file in e.asts
    requires forall j :: 0 <= j < |fields| && fields[j].bound ==> Cited(e, file, Some(fields[j].typ)) <= names
    requires FieldsCited(e, file, Bound(fields, false)) <= names
    ensures FieldsCited(e, file, fields) <= names
  {
    hide Cited, Bound;
    forall j, k | 0 <= j < |fields| && k in Cited(e, file, Some(fields[j].typ)) ensures k in names {
      if !fields[j].bound {
        UnboundIn(fields, j);
        var i :| 0 <= i < |Bound(fields, false)| && Bound(fields, false)[i] == fields[j];
        assert k in FieldsCited(e, file, Bound(fields, false));
      }
    }
  }

  ghost function AllCitedBy(e: Env, routes: seq<Served>): set<string>
    requires forall i :: 0 <= i < |routes| ==> routes[i].file in e.asts
  {
    set i, k | 0 <= i < |routes| && k in OperationCited(e, routes[i]) :: k
  }

  /** A complete document is found exactly when there is one: an error is recorded only if some name
      that every complete document would have to describe has no declaration. */
  method Generate(e: Env, routes: seq<Served>) returns (r: Result<Document>)
    requires Encodes(e.enc) && forall i :: 0 <= i < |routes| ==> routes[i].file in e.asts
    ensures r.Ok? ==> Complete(e, routes, r.value)
    ensures r.Err? ==> forall d :: !Complete(e, routes, d)
  {
    hide Extended, Declared, OperationOf, OperationCited, Describes, Forced, Encodes, Complete;
    var g := new Generator(e);
    var operations: seq<Operation> := [];
    ghost var all := AllCitedBy(e, routes);
    Unchanged(e, map[], false);
    NothingForced(e, all, map[]);
    for i := 0 to |routes|
      invariant |operations| == i
      invariant forall j :: 0 <= j < i ==>
        operations[j] == OperationOf(e, routes[j]) && OperationCited(e, routes[j]) <= g.schemas.Keys
      invariant Extended(e, map[], false, g.schemas, g.err)
      invariant Forced(e, all, map[], g.schemas)
    {
      ghost var s0, e0 := g.schemas, g.err;
      var op := Describe(g, routes[i]);
      assert OperationCited(e, routes[i]) <= all;
      ForcedTrans(e, OperationCited(e, routes[i]), all, map[], s0, g.schemas);
      ExtendedKeys(e, s0, e0, g.schemas, g.err);
      ExtendedTrans(e, map[], false, s0, e0, g.schemas, g.err);
      operations := operations + [op];
    }
    AllDescribed(e, g.schemas, g.err);
    if g.err {
      forall d ensures !Complete(e, routes, d) {
        if Complete(e, routes, d) { NoError(e, routes, d, g.schemas, g.err); }
      }
      return Err;
    }
    var schemas: map<string, Schema> := map k | k in g.schemas :: g.schemas[k];
    assert schemas == g.schemas;
    IsComplete(e, routes, operations, schemas);
    r := Ok(Document(operations, schemas));
  }

  lemma IsComplete(e: Env, routes: seq<Served>, operations: seq<Operation>, schemas: map<string, Schema>)
    requires |operations| == |routes| && forall i :: 0 <= i < |routes| ==> routes[i].file in e.asts
    requires forall i :: 0 <= i < |routes| ==>
      operations[i] == OperationOf(e, routes[i]) && OperationCited(e, routes[i]) <= schemas.Keys
    requires forall k :: k in schemas ==> Describes(e, schemas, k)
    ensures Complete(e, routes, Document(operations, schemas))
  {
    hide Describes, OperationOf, OperationCited;
  }

  /** If there is a complete document at all, everything generated is in it, so nothing is undeclared. */
  lemma NoError(e: Env, routes: seq<Served>, d: Document, schemas: map<string, Json>, err: bool)
    requires Encodes(e.enc) && Complete(e, routes, d)
    requires Extended(e, map[], false, schemas, err) && Forced(e, AllCitedBy(e, routes), map[], schemas)
    ensures !err
  {
    hide Declared, EntryOf, EntryCited, Key, Encodes, OperationOf, OperationCited;
    var names := d.schemas.Keys;
    forall k | k in names ensures Settles(e, names, k) {
      assert Describes(e, d.schemas, k);
    }
    assert SelfContained(e, names);
    if k :| k in schemas && schemas[k] == PLACEHOLDER {
      assert k in names && Filled(e, schemas, k);
      var f, n :| k == Key(e, f, n) && schemas[k] == EntryOf(e, f, n) && EntryCited(e, f, n) <= schemas.Keys;
      assert Settles(e, names, k);
      var f', n' :| k == Key(e, f', n') && !Declared(e, f', n').Unknown? && EntryCited(e, f', n') <= names;
      KeyIsInjective(e, f, n, f', n');
      EntryIsNoPlaceholder(e, f, n);
    }
  }

  /** No error recorded: every component is the filled-in one of a declaration. */
  lemma AllDescribed(e: Env, schemas: map<string, Json>, err: bool)
    requires Extended(e, map[], false, schemas, err)
    ensures !err ==> forall k :: k in schemas ==> schemas[k].Obj? && Describes(e, schemas, k)
  {
    hide Declared, EntryOf, EntryCited;
    forall k | k in schemas && !err ensures schemas[k].Obj? && Describes(e, schemas, k) {
      assert Filled(e, schemas, k);
      var f, n :| k == Key(e, f, n) && schemas[k] == EntryOf(e, f, n) && EntryCited(e, f, n) <= schemas.Keys;
      if Declared(e, f, n).Unknown? { UnknownEntry(e, f, n); }
      EntryIsObject(e, f, n);
    }
  }

  lemma UnknownEntry(e: Env, f: string, n: string)
    requires Declared(e, f, n).Unknown?
    ensures EntryOf(e, f, n) == PLACEHOLDER
  {
  }

  lemma EntryIsObject(e: Env, f: string, n: string)
    ensures EntryOf(e, f, n).Obj?
  {
    hide Declared;
  }

  // --------------------------------------------------------- main results

  /** Every component of a generated document can be walked and keeps its meaning. */
  lemma ComponentsAreGood(m: Mode, e: Env, routes: seq<Served>, d: Document)
    requires m.kind == KeywordKind && Lexed(e) && Complete(e, routes, d)
    ensures forall k :: k in d.schemas ==> Good(m, d.schemas.Keys, d.schemas[k])
  {
    hide KeywordKind, Lexed, Good, Declared, EntryOf, EntryCited, OperationOf, OperationCited;
    forall k | k in d.schemas ensures Good(m, d.schemas.Keys, d.schemas[k]) {
      assert Describes(e, d.schemas, k);
      var f, n :| k == Key(e, f, n) && !Declared(e, f, n).Unknown? &&
        d.schemas[k] == EntryOf(e, f, n) && EntryCited(e, f, n) <= d.schemas.Keys;
      GoodEntry(m, d.schemas.Keys, e, f, n);
    }
  }

  /** Closing a good schema of a generated document never meets a missing reference. */
  lemma GoodCloses(m: Mode, e: Env, routes: seq<Served>, d: Document, root: Schema)
    requires m.kind == KeywordKind && Lexed(e) && Complete(e, routes, d)
    requires Good(m, d.schemas.Keys, root)
    ensures Closable(m, d.schemas, root) && AllFit(m, d.schemas, root)
  {
    hide KeywordKind, Lexed, Complete, Sound, Fit, Reaches;
    ComponentsAreGood(m, e, routes, d);
  }

  lemma EnvelopeIsGood(m: Mode, names: set<string>, data: Json)
    requires m.kind == KeywordKind && Good(m, names, data)
    ensures Good(m, names, Envelope(data))
  {
    hide KeywordKind, WordOf, Good, GoodIn;
    var s := Envelope(data);
    var properties := s.fields["properties"].fields;
    forall n | n in properties ensures Good(m, names, properties[n]) {
      if n != "data" {
        forall k | k in properties[n].fields ensures GoodIn(m, names, k, properties[n].fields[k]) {
          GoodNeutral(m, names, k, properties[n].fields[k]);
        }
        GoodObject(m, names, properties[n]);
      }
    }
    GoodProperties(m, names, properties);
    GoodNeutral(m, names, "type", s.fields["type"]);
    GoodNeutral(m, names, "required", s.fields["required"]);
    GoodObject(m, names, s);
  }

  /** The schemas of every operation are good: results, bodies and parameters alike. */
  lemma OperationsAreGood(m: Mode, e: Env, routes: seq<Served>, d: Document, i: nat)
    requires m.kind == KeywordKind && Lexed(e) && Complete(e, routes, d)
    requires i < |routes| && PlainType(routes[i].request) && (routes[i].result.Some? ==> PlainType(routes[i].result.value))
    ensures i < |d.operations| && Good(m, d.schemas.Keys, d.operations[i].result)
    ensures d.operations[i].body.Some? ==> Good(m, d.schemas.Keys, d.operations[i].body.value)
    ensures forall j :: 0 <= j < |d.operations[i].params| ==> Good(m, d.schemas.Keys, d.operations[i].params[j])
  {
    hide KeywordKind, Good, StructFields, Bound, Describes, Cited, FieldsOf, FieldOf;
    var r, names := routes[i], d.schemas.Keys;
    assert OperationCited(e, r) <= names && d.operations[i] == OperationOf(e, r);
    GoodSchema(m, names, e, r.file, r.result);
    EnvelopeIsGood(m, names, SchemaOf(e, r.file, r.result));
    var found := RequestFields(e, r);
    if found.Some? {
      var (file, s) := found.value;
      PlainRequest(e, r.file, r.request.name, 0);
      GoodFieldLists(m, names, e, file, s.fields);
    }
  }

  lemma {:induction false} PlainRequest(e: Env, file: string, name: string, depth: nat)
    requires Lexed(e) && file in e.asts && StructFields(e.asts, file, name, depth).Some?
    ensures PlainFields(StructFields(e.asts, file, name, depth).value.1.fields)
    decreases 33 - depth
  {
    hide Lexed, PlainFields;
    var (f, n) := TypeResolvers.Resolve(e.asts, file, name);
    if FindStruct(e.asts[f].structs, n).Some? {
      LexedStructs(e, f);
      FoundPlainStruct(e.asts[f].structs, n);
    } else {
      PlainRequest(e, f, FindTypedef(e.asts[f].typedefs, n).value.typ.name, depth + 1);
    }
  }

  lemma LexedStructs(e: Env, f: string)
    requires Lexed(e) && f in e.asts
    ensures PlainStructs(e.asts[f].structs)
  {
  }

  lemma GoodFieldLists(m: Mode, names: set<string>, e: Env, file: string, fields: seq<Field>)
    requires m.kind == KeywordKind && Lexed(e) && file in e.asts && PlainFields(fields)
    requires FieldsCited(e, file, fields) <= names
    ensures Good(m, names, Obj(FieldsOf(e, file, Bound(fields, false))))
    ensures forall f :: f in Bound(fields, true) ==> Good(m, names, FieldOf(e, file, f))
  {
    hide KeywordKind, Lexed, Good, GoodIn, Cited, Bound, FieldOf, PlainType;
    BoundOf(fields, true);
    BoundOf(fields, false);
    forall f | f in Bound(fields, true) ensures Good(m, names, FieldOf(e, file, f)) {
      assert f in fields;
      var j :| 0 <= j < |fields| && fields[j] == f;
      assert forall k :: k in Cited(e, file, Some(fields[j].typ)) ==> k in FieldsCited(e, file, fields);
      GoodField(m, names, e, file, f);
    }
    var body := Bound(fields, false);
    BoundCited(e, file, fields, false);
    GoodPropertiesOf(m, names, e, file, body);
    GoodFields(m, names, PropertiesOf(e, file, body), RequiredOf(body));
    GoodObject(m, names, Obj(FieldsOf(e, file, body)));
  }

  /** From declarations to answers: a value is accepted by the closed result schema of a generated
      operation exactly when the generated document accepts it. */
  lemma GeneratedResultsKeepMeaning(e: Env, routes: seq<Served>, d: Document, i: nat, fuel: nat, inst: Json, w: World)
    requires Lexed(e) && Complete(e, routes, d)
    requires i < |routes| && PlainType(routes[i].request) && (routes[i].result.Some? ==> PlainType(routes[i].result.value))
    ensures var m := Mode(KeywordKind, false);
      var root := d.operations[i].result;
      root.Obj? && Closable(m, d.schemas, root) &&
      (Valid(fuel, Bundle(m, d.schemas, root), inst, Reading(Bundle(m, d.schemas, root), false), w) <==>
       Valid(fuel, root, inst, Reading(Source(d.schemas), true), w))
  {
    hide KeywordKind, Lexed, Complete, Closable, AllFit, Valid, Bundle, Source;
    var m := Mode(KeywordKind, false);
    OperationsAreGood(m, e, routes, d, i);
    GoodCloses(m, e, routes, d, d.operations[i].result);
    OutputMeaningKept(d.schemas, d.operations[i].result, fuel, inst, w);
  }

  /** The same for request bodies, with assertions left to the service. */
  lemma GeneratedBodiesAreAccepted(e: Env, routes: seq<Served>, d: Document, i: nat, fuel: nat, inst: Json, w: World)
    requires Lexed(e) && Complete(e, routes, d)
    requires i < |routes| && PlainType(routes[i].request) && (routes[i].result.Some? ==> PlainType(routes[i].result.value))
    requires d.operations[i].body.Some?
    ensures var m := Mode(KeywordKind, true);
      var root := d.operations[i].body.value;
      root.Obj? && Closable(m, d.schemas, root) &&
      (Valid(fuel, root, inst, Reading(Source(d.schemas), true), w) ==>
       Valid(fuel, Bundle(m, d.schemas, root), inst, Reading(Bundle(m, d.schemas, root), false), w))
  {
    hide KeywordKind, Lexed, Complete, Closable, AllFit, Valid, Bundle, Source;
    var m := Mode(KeywordKind, true);
    OperationsAreGood(m, e, routes, d, i);
    var root := d.operations[i].body.value;
    GoodCloses(m, e, routes, d, root);
    if Valid(fuel, root, inst, Reading(Source(d.schemas), true), w) {
      InputMeaningWidened(d.schemas, root, fuel, inst, w);
    }
  }

  /** Whatever order types are met in, a reference leads to the component of the declaration it names. */
  lemma ReferenceNamesItsDeclaration(e: Env, routes: seq<Served>, d: Document, f: string, n: string)
    requires Encodes(e.enc) && Complete(e, routes, d) && Key(e, f, n) in d.schemas
    ensures !Declared(e, f, n).Unknown? && d.schemas[Key(e, f, n)] == EntryOf(e, f, n)
  {
    hide Declared, EntryOf, EntryCited, Key, OperationOf, OperationCited;
    var k := Key(e, f, n);
    assert Describes(e, d.schemas, k);
    var f', n' :| k == Key(e, f', n') && !Declared(e, f', n').Unknown? &&
      d.schemas[k] == EntryOf(e, f', n') && EntryCited(e, f', n') <= d.schemas.Keys;
    KeyIsInjective(e, f, n, f', n');
  }
}
