/**
 What the generated schemas say: the JSON values of a Thrift type, defined from the declarations alone, are
 exactly what the generated document accepts.
 */
module OpenapiMeaning {
  import opened Prelude
  import opened ThriftAst
  import opened JsonPointer
  import opened SchemaClose
  import opened SchemaMeaning
  import opened TypeResolvers
  import opened OpenapiGenerator
  import opened OpenapiDocument

  // ------------------------------------------------------------ the values

  /** A world, and whether everything is checked, or what is left to the service is read as true. */
  datatype Setting = Setting(w: World, strict: bool)

  /** The standard meaning of the keywords that look at the value alone; formats stay open, and patterns where
      they are checked. */
  ghost predicate Standard(c: Setting) {
    && (forall v, inst ::
          c.w.assertion("title", v, inst) && c.w.assertion("description", v, inst) && c.w.assertion("example", v, inst))
    && (forall inst :: c.w.assertion("uniqueItems", Bool(true), inst) <==> (inst.Arr? ==> Distinct(inst.items)))
    && (forall vs, inst :: c.w.assertion("enum", Arr(vs), inst) <==> !c.strict || inst in vs)
    && (forall ks, inst :: c.w.assertion("required", Arr(ks), inst) <==>
          !c.strict || (inst.Obj? ==> forall k :: Str(k) in ks ==> k in inst.fields))
    && (!c.strict ==> forall v, inst :: c.w.assertion("pattern", v, inst))
  }

  predicate Whole(inst: Json) {
    inst.Num? && inst.n == inst.n.Floor as real
  }

  predicate AnyField(f: Field) { true }

  /** A field without a place of its own in the request belongs to the body. */
  predicate InBody(f: Field) { !f.bound }

  /** The JSON values of the type `t` as written in `file`, following at most `fuel` names in a row. */
  ghost predicate Value(fuel: nat, e: Env, c: Setting, file: string, t: Option<Type>, inst: Json)
    decreases fuel, 0, t
  {
    if t.None? then true
    else
      var name := t.value.name;
      if name == "bool" then inst.Bool?
      else if name == "byte" || name == "i8" || name == "i16" || name == "i32" then
        Whole(inst) && c.w.assertion("format", Str("int32"), inst)
      else if name == "i64" then Whole(inst) && c.w.assertion("format", Str("int64"), inst)
      else if name == "double" then inst.Num? && c.w.assertion("format", Str("double"), inst)
      else if name == "string" then inst.Str?
      else if name == "binary" then inst.Str? && c.w.assertion("format", Str("byte"), inst)
      else if name == "list" || name == "set" then
        && inst.Arr? && (name == "set" ==> Distinct(inst.items))
        && forall i :: 0 <= i < |inst.items| ==> Value(fuel, e, c, file, t.value.value, inst.items[i])
      else if name == "map" then
        inst.Obj? && forall k :: k in inst.fields ==> Value(fuel, e, c, file, t.value.value, inst.fields[k])
      else if file !in e.asts then false
      else
        var (f, n) := TypeResolvers.Resolve(e.asts, file, name);
        if fuel == 0 then c.w.limit else Instance(fuel - 1, e, c, f, n, inst)
  }

  /** The values of the declaration of `n` in `f`: those of a typedef's own type, the numbers of an enum, or
      records. */
  ghost predicate Instance(fuel: nat, e: Env, c: Setting, f: string, n: string, inst: Json)
    decreases fuel, 3
  {
    && f in e.asts
    && var ast := e.asts[f];
      if FindTypedef(ast.typedefs, n).Some? then
        Value(fuel, e, c, f, Some(FindTypedef(ast.typedefs, n).value.typ), inst)
      else if FindEnum(ast.enums, n).Some? then
        && Whole(inst)
        && (c.strict ==> exists i :: 0 <= i < |FindEnum(ast.enums, n).value.values| &&
                                     inst.n == FindEnum(ast.enums, n).value.values[i] as real)
      else
        var s := FindStruct(ast.structs + ast.unions + ast.exceptions, n);
        s.Some? && RecordValue(fuel, e, c, f, s.value.fields, AnyField, inst)
  }

  /** The last of the chosen fields with a JSON name, which is the one that counts. */
  function LastNamed(fields: seq<Field>, chosen: Field -> bool, key: string): Option<Field> {
    if fields == [] then None
    else if chosen(fields[|fields| - 1]) && fields[|fields| - 1].key == key then Some(fields[|fields| - 1])
    else LastNamed(fields[..|fields| - 1], chosen, key)
  }

  /** An object with a value of its type for every chosen field it has, and with all required ones. */
  ghost predicate RecordValue(fuel: nat, e: Env, c: Setting, file: string, fields: seq<Field>, chosen: Field -> bool, inst: Json)
    decreases fuel, 2
  {
    && inst.Obj?
    && (forall k :: k in inst.fields && LastNamed(fields, chosen, k).Some? ==>
          FieldValue(fuel, e, c, file, LastNamed(fields, chosen, k).value, inst.fields[k]))
    && (c.strict ==> forall i :: 0 <= i < |fields| && chosen(fields[i]) && fields[i].required ==> fields[i].key in inst.fields)
  }

  /** A 64-bit integer may be asked for as text. */
  ghost predicate FieldValue(fuel: nat, e: Env, c: Setting, file: string, f: Field, inst: Json)
    decreases fuel, 1
  {
    if f.jsConv && f.typ.name == "i64" then inst.Str? && (c.strict ==> c.w.assertion("pattern", Str("^-?[0-9]+$"), inst))
    else Value(fuel, e, c, file, Some(f.typ), inst)
  }

  // --------------------------------------------------- keyword by keyword

  lemma TypeWords()
    ensures WordOf("type") == TypeWord && WordOf("$ref") == RefWord
    ensures WordOf("items") == Items && WordOf("additionalProperties") == Additional
    ensures WordOf("properties") == Properties && WordOf("allOf") == AllOf
  {
  }

  lemma AssertionWords()
    ensures WordOf("format") == Assertion && WordOf("uniqueItems") == Assertion && WordOf("enum") == Assertion
    ensures WordOf("required") == Assertion && WordOf("pattern") == Assertion
  {
  }

  lemma NoteWords()
    ensures WordOf("title") == Assertion && WordOf("description") == Assertion && WordOf("example") == Assertion
  {
  }

  lemma ValidObject(fuel: nat, s: Schema, inst: Json, rd: Reading, w: World)
    requires "$ref" !in s.fields
    ensures Valid(fuel, s, inst, rd, w) <==> forall k :: k in s.fields ==> Holds(fuel, s, k, inst, rd, w)
  {
    hide Holds;
  }

  lemma Typed(fuel: nat, s: Schema, name: string, inst: Json, rd: Reading, w: World)
    requires "type" in s.fields && s.fields["type"] == Str(name) && "nullable" !in s.fields
    ensures Holds(fuel, s, "type", inst, rd, w) <==> IsType(name, inst)
  {
    hide WordOf, IsType;
    TypeWords();
    TypeByName(name, inst);
  }

  lemma Noted(fuel: nat, s: Schema, k: string, inst: Json, rd: Reading, c: Setting)
    requires k in s.fields && (k == "title" || k == "description" || k == "example") && Standard(c)
    ensures Holds(fuel, s, k, inst, rd, c.w)
  {
    hide WordOf;
    NoteWords();
    AssertionHolds(fuel, s, k, inst, rd, c.w);
  }

  lemma Itemized(fuel: nat, s: Schema, inst: Json, rd: Reading, w: World)
    requires "items" in s.fields && s.fields["items"].Obj?
    ensures Holds(fuel, s, "items", inst, rd, w) <==>
      (inst.Arr? ==> forall i :: 0 <= i < |inst.items| ==> Valid(fuel, s.fields["items"], inst.items[i], rd, w))
  {
    hide WordOf, Valid;
    TypeWords();
  }

  lemma Mapped(fuel: nat, s: Schema, inst: Json, rd: Reading, w: World)
    requires "additionalProperties" in s.fields && s.fields["additionalProperties"].Obj?
    requires "properties" !in s.fields && "patternProperties" !in s.fields
    ensures Holds(fuel, s, "additionalProperties", inst, rd, w) <==>
      (inst.Obj? ==> forall k :: k in inst.fields ==> Valid(fuel, s.fields["additionalProperties"], inst.fields[k], rd, w))
  {
    hide WordOf, Valid;
    TypeWords();
  }

  lemma Listed(fuel: nat, s: Schema, inst: Json, rd: Reading, w: World)
    requires "properties" in s.fields && s.fields["properties"].Obj?
    ensures Holds(fuel, s, "properties", inst, rd, w) <==>
      (inst.Obj? ==> forall k :: k in inst.fields && k in s.fields["properties"].fields ==>
         Valid(fuel, s.fields["properties"].fields[k], inst.fields[k], rd, w))
  {
    hide WordOf, Valid;
    TypeWords();
  }

  lemma Wrapped(fuel: nat, s: Schema, inner: Json, inst: Json, rd: Reading, w: World)
    requires "allOf" in s.fields && s.fields["allOf"] == Arr([inner])
    ensures Holds(fuel, s, "allOf", inst, rd, w) <==> Valid(fuel, inner, inst, rd, w)
  {
    hide WordOf, Valid;
    TypeWords();
    assert s.fields["allOf"].items[0] == inner;
  }

  lemma Asserted(fuel: nat, s: Schema, k: string, inst: Json, rd: Reading, w: World)
    requires k in s.fields
    requires k == "format" || k == "uniqueItems" || k == "enum" || k == "required" || k == "pattern"
    ensures Holds(fuel, s, k, inst, rd, w) == w.assertion(k, s.fields[k], inst)
  {
    hide WordOf;
    AssertionWords();
    AssertionHolds(fuel, s, k, inst, rd, w);
  }

  // -------------------------------------------------------- types and names

  lemma BasicMeans(fuel: nat, name: string, inst: Json, rd: Reading, w: World)
    requires Basic(name).Some?
    ensures Valid(fuel, Basic(name).value, inst, rd, w) <==>
      if name == "bool" then inst.Bool?
      else if name == "i64" then Whole(inst) && w.assertion("format", Str("int64"), inst)
      else if name == "double" then inst.Num? && w.assertion("format", Str("double"), inst)
      else if name == "string" then inst.Str?
      else if name == "binary" then inst.Str? && w.assertion("format", Str("byte"), inst)
      else Whole(inst) && w.assertion("format", Str("int32"), inst)
  {
    hide Holds;
    var s := Basic(name).value;
    ValidObject(fuel, s, inst, rd, w);
    Typed(fuel, s, s.fields["type"].s, inst, rd, w);
    if "format" in s.fields { Asserted(fuel, s, "format", inst, rd, w); }
  }

  lemma ArrayMeans(fuel: nat, items: Schema, unique: bool, inst: Json, rd: Reading, c: Setting)
    requires Standard(c)
    ensures Valid(fuel, ArrayOf(items, unique), inst, rd, c.w) <==>
      && inst.Arr? && (unique ==> Distinct(inst.items))
      && forall i :: 0 <= i < |inst.items| ==> Valid(fuel, items, inst.items[i], rd, c.w)
  {
    hide Holds, Valid;
    var s := ArrayOf(items, unique);
    ValidObject(fuel, s, inst, rd, c.w);
    Typed(fuel, s, "array", inst, rd, c.w);
    Itemized(fuel, s, inst, rd, c.w);
    if unique { Asserted(fuel, s, "uniqueItems", inst, rd, c.w); }
  }

  lemma MapMeans(fuel: nat, value: Schema, inst: Json, rd: Reading, w: World)
    ensures Valid(fuel, MapOf(value), inst, rd, w) <==>
      inst.Obj? && forall k :: k in inst.fields ==> Valid(fuel, value, inst.fields[k], rd, w)
  {
    hide Holds, Valid;
    var s := MapOf(value);
    ValidObject(fuel, s, inst, rd, w);
    Typed(fuel, s, "object", inst, rd, w);
    Mapped(fuel, s, inst, rd, w);
  }

  lemma RefMeans(fuel: nat, comps: map<string, Schema>, key: string, inst: Json, w: World)
    requires PlainText(key) && key in comps
    ensures var rd := Reading(Source(comps), true);
      Valid(fuel, RefTo(key), inst, rd, w) <==> if fuel == 0 then w.limit else Valid(fuel - 1, comps[key], inst, rd, w)
  {
    hide WordOf, JsonPointer.Resolve, CodeName, SingleToken, Source;
    TypeWords();
    CodeNameWithoutTilde(key);
    PlainIsSingle(key);
    ReferencesResolve(comps, Obj(map[]), comps, key);
    var s := RefTo(key);
    assert s.fields["$ref"] == Str(PREFIX + key) && Counts(s, "$ref", Reading(Source(comps), true));
  }

  // ----------------------------------------------------------- main theorem

  /** A complete document for declarations that the lexer accepts. */
  ghost predicate Documented(e: Env, routes: seq<Served>, d: Document) {
    Lexed(e) && Encodes(e.enc) && Complete(e, routes, d)
  }

  lemma KeyIsPlain(e: Env, routes: seq<Served>, d: Document, file: string, t: Type)
    requires Documented(e, routes, d) && file in e.asts && PlainType(t)
    ensures var (f, n) := TypeResolvers.Resolve(e.asts, file, t.name); PlainText(Key(e, f, n))
  {
    hide Complete, Encodes;
    var (f, n) := TypeResolvers.Resolve(e.asts, file, t.name);
    assert PlainText(e.enc(f));
    assert forall c :: c in n ==> c in t.name;
  }

  /** A value is accepted under the generated schema of a type exactly when it is one of the type's values. */
  lemma {:induction false} SchemaMeans(fuel: nat, e: Env, routes: seq<Served>, d: Document, file: string, t: Option<Type>,
                                       inst: Json, c: Setting)
    requires Documented(e, routes, d) && Standard(c) && file in e.asts
    requires Cited(e, file, t) <= d.schemas.Keys && (t.Some? ==> PlainType(t.value))
    ensures SchemaOf(e, file, t).Obj?
    ensures Valid(fuel, SchemaOf(e, file, t), inst, Reading(Source(d.schemas), true), c.w) <==> Value(fuel, e, c, file, t, inst)
    decreases fuel, 0, t, inst
  {
    hide Documented, Standard, Basic, Valid, Instance, Source;
    var rd := Reading(Source(d.schemas), true);
    BasicNames(if t.Some? then t.value.name else "");
    SchemaIsObject(e, file, t);
    if t.None? {
      ValidObject(fuel, Obj(map[]), inst, rd, c.w);
    } else if Basic(t.value.name).Some? {
      BasicMeans(fuel, t.value.name, inst, rd, c.w);
    } else if t.value.name == "list" || t.value.name == "set" {
      var items := SchemaOf(e, file, t.value.value);
      SchemaIsObject(e, file, t.value.value);
      ArrayMeans(fuel, items, t.value.name == "set", inst, rd, c);
      if inst.Arr? {
        forall i | 0 <= i < |inst.items|
          ensures Valid(fuel, items, inst.items[i], rd, c.w) <==> Value(fuel, e, c, file, t.value.value, inst.items[i])
        {
          SchemaMeans(fuel, e, routes, d, file, t.value.value, inst.items[i], c);
        }
      }
    } else if t.value.name == "map" {
      var value := SchemaOf(e, file, t.value.value);
      SchemaIsObject(e, file, t.value.value);
      MapMeans(fuel, value, inst, rd, c.w);
      if inst.Obj? {
        forall k | k in inst.fields
          ensures Valid(fuel, value, inst.fields[k], rd, c.w) <==> Value(fuel, e, c, file, t.value.value, inst.fields[k])
        {
          SchemaMeans(fuel, e, routes, d, file, t.value.value, inst.fields[k], c);
        }
      }
    } else {
      var (f, n) := TypeResolvers.Resolve(e.asts, file, t.value.name);
      KeyIsPlain(e, routes, d, file, t.value);
      RefMeans(fuel, d.schemas, Key(e, f, n), inst, c.w);
      if fuel > 0 { EntryMeans(fuel - 1, e, routes, d, f, n, inst, c); }
    }
  }

  lemma BasicNames(name: string)
    ensures Basic(name).Some? <==>
      || name == "bool" || name == "byte" || name == "i8" || name == "i16" || name == "i32" || name == "i64"
      || name == "double" || name == "string" || name == "binary"
  {
  }

  lemma SchemaIsObject(e: Env, file: string, t: Option<Type>)
    requires file in e.asts
    ensures SchemaOf(e, file, t).Obj?
  {
  }

  /** A value is accepted under the component of a declaration exactly when it is one of its values. */
  lemma {:induction false} EntryMeans(fuel: nat, e: Env, routes: seq<Served>, d: Document, f: string, n: string,
                                      inst: Json, c: Setting)
    requires Documented(e, routes, d) && Standard(c) && Key(e, f, n) in d.schemas
    ensures Valid(fuel, d.schemas[Key(e, f, n)], inst, Reading(Source(d.schemas), true), c.w) <==>
            Instance(fuel, e, c, f, n, inst)
    decreases fuel, 3
  {
    hide Standard, Valid, Source, Value, Key, RecordValue;
    var rd := Reading(Source(d.schemas), true);
    EntryIs(e, routes, d, f, n);
    match Declared(e, f, n)
    case Alias(t) =>
      SchemaMeans(fuel, e, routes, d, f, Some(t), inst, c);
      AliasMeans(fuel, e, f, n, SchemaOf(e, f, Some(t)), inst, rd, c);
    case Enumeration(values) => EnumMeans(fuel, e, f, n, values, inst, rd, c);
    case Record(fields) =>
      FieldListMeans(fuel, e, routes, d, f, fields, inst, c);
      TitledRecord(fuel, e, f, n, fields, inst, rd, c);
  }

  lemma EntryIs(e: Env, routes: seq<Served>, d: Document, f: string, n: string)
    requires Documented(e, routes, d) && Key(e, f, n) in d.schemas
    ensures f in e.asts && !Declared(e, f, n).Unknown?
    ensures d.schemas[Key(e, f, n)] == EntryOf(e, f, n) && EntryCited(e, f, n) <= d.schemas.Keys
    ensures Declared(e, f, n).Alias? ==> PlainType(Declared(e, f, n).typ)
    ensures Declared(e, f, n).Record? ==> PlainFields(Declared(e, f, n).fields)
  {
    hide Declared, EntryOf, EntryCited, Key, Lexed, Encodes, OperationOf, OperationCited;
    var k := Key(e, f, n);
    assert Describes(e, d.schemas, k);
    var f', n' :| k == Key(e, f', n') && !Declared(e, f', n').Unknown? &&
      d.schemas[k] == EntryOf(e, f', n') && EntryCited(e, f', n') <= d.schemas.Keys;
    KeyIsInjective(e, f, n, f', n');
    PlainDeclaration(e, f, n);
    InArchive(e, f, n);
  }

  lemma AliasMeans(fuel: nat, e: Env, f: string, n: string, inner: Schema, inst: Json, rd: Reading, c: Setting)
    requires Standard(c)
    ensures Valid(fuel, Titled(e, f, n, map["allOf" := Arr([inner])]), inst, rd, c.w) <==> Valid(fuel, inner, inst, rd, c.w)
  {
    hide Holds, Valid, Standard;
    var s := Titled(e, f, n, map["allOf" := Arr([inner])]);
    ValidObject(fuel, s, inst, rd, c.w);
    Wrapped(fuel, s, inner, inst, rd, c.w);
    Noted(fuel, s, "title", inst, rd, c);
    Noted(fuel, s, "description", inst, rd, c);
  }

  lemma EnumMeans(fuel: nat, e: Env, f: string, n: string, values: seq<int>, inst: Json, rd: Reading, c: Setting)
    requires Standard(c)
    ensures var all := Arr(seq(|values|, i requires 0 <= i < |values| => Num(values[i] as real)));
      Valid(fuel, Titled(e, f, n, map["type" := Str("integer"), "enum" := all]), inst, rd, c.w) <==>
      Whole(inst) && (c.strict ==> exists i :: 0 <= i < |values| && inst.n == values[i] as real)
  {
    hide Holds, Valid;
    var all := seq(|values|, i requires 0 <= i < |values| => Num(values[i] as real));
    var s := Titled(e, f, n, map["type" := Str("integer"), "enum" := Arr(all)]);
    ValidObject(fuel, s, inst, rd, c.w);
    Typed(fuel, s, "integer", inst, rd, c.w);
    Asserted(fuel, s, "enum", inst, rd, c.w);
    Noted(fuel, s, "title", inst, rd, c);
    Noted(fuel, s, "description", inst, rd, c);
    if i :| 0 <= i < |values| && inst.Num? && inst.n == values[i] as real { assert all[i] == inst; }
    if inst in all { var i :| 0 <= i < |all| && all[i] == inst; }
  }

  // ---------------------------------------------------------------- records

  lemma {:induction false} PropertiesAre(e: Env, file: string, fields: seq<Field>, k: string)
    requires file in e.asts
    ensures k in PropertiesOf(e, file, fields) <==> LastNamed(fields, AnyField, k).Some?
    ensures k in PropertiesOf(e, file, fields) ==>
      PropertiesOf(e, file, fields)[k] == FieldOf(e, file, LastNamed(fields, AnyField, k).value)
  {
    if fields != [] && fields[|fields| - 1].key != k {
      PropertiesAre(e, file, fields[..|fields| - 1], k);
      LastOfAll(fields, k);
    } else {
      LastOfAll(fields, k);
    }
  }

  lemma LastOfAll(fields: seq<Field>, k: string)
    ensures fields == [] ==> LastNamed(fields, AnyField, k).None?
    ensures fields != [] ==>
      LastNamed(fields, AnyField, k)
      == if fields[|fields| - 1].key == k then Some(fields[|fields| - 1]) else LastNamed(fields[..|fields| - 1], AnyField, k)
  {
  }

  lemma {:induction false} LastIsThere(fields: seq<Field>, chosen: Field -> bool, k: string)
    ensures LastNamed(fields, chosen, k).Some? ==> LastNamed(fields, chosen, k).value in fields
  {
    if fields != [] { LastIsThere(fields[..|fields| - 1], chosen, k); }
  }

  lemma {:induction false} RequiredAre(fields: seq<Field>, k: string)
    ensures Str(k) in RequiredOf(fields) <==> exists i :: 0 <= i < |fields| && fields[i].required && fields[i].key == k
  {
    if fields != [] {
      var front, last := fields[..|fields| - 1], fields[|fields| - 1];
      RequiredAre(front, k);
      if i :| 0 <= i < |front| && front[i].required && front[i].key == k { assert fields[i].key == k; }
      if i :| 0 <= i < |fields| && fields[i].required && fields[i].key == k {
        if i < |front| { assert front[i].key == k; } else { assert RequiredOf(fields)[|RequiredOf(front)|] == Str(k); }
      }
    }
  }

  /** An object schema of a field list, with or without title and description. */
  ghost predicate ObjectSchema(s: Schema, properties: map<string, Json>, required: seq<Json>) {
    && "type" in s.fields && s.fields["type"] == Str("object")
    && "properties" in s.fields && s.fields["properties"] == Obj(properties)
    && (required != [] ==> "required" in s.fields && s.fields["required"] == Arr(required))
    && forall k :: k in s.fields ==>
         k == "type" || k == "properties" || (k == "required" && required != []) || k == "title" || k == "description"
  }

  lemma ObjectMeans(fuel: nat, s: Schema, properties: map<string, Json>, required: seq<Json>, inst: Json, rd: Reading, c: Setting)
    requires Standard(c) && ObjectSchema(s, properties, required)
    ensures Valid(fuel, s, inst, rd, c.w) <==>
      && inst.Obj?
      && (forall k :: k in inst.fields && k in properties ==> Valid(fuel, properties[k], inst.fields[k], rd, c.w))
      && (c.strict ==> forall k :: Str(k) in required ==> k in inst.fields)
  {
    hide Holds, Valid;
    ValidObject(fuel, s, inst, rd, c.w);
    Typed(fuel, s, "object", inst, rd, c.w);
    Listed(fuel, s, inst, rd, c.w);
    if required != [] { Asserted(fuel, s, "required", inst, rd, c.w); }
    if "title" in s.fields { Noted(fuel, s, "title", inst, rd, c); }
    if "description" in s.fields { Noted(fuel, s, "description", inst, rd, c); }
  }

  lemma {:induction false} FieldMeans(fuel: nat, e: Env, routes: seq<Served>, d: Document, file: string, f: Field,
                                      inst: Json, c: Setting)
    requires Documented(e, routes, d) && Standard(c) && file in e.asts
    requires Cited(e, file, Some(f.typ)) <= d.schemas.Keys && PlainType(f.typ)
    ensures FieldOf(e, file, f).Obj?
    ensures Valid(fuel, FieldOf(e, file, f), inst, Reading(Source(d.schemas), true), c.w) <==>
            FieldValue(fuel, e, c, file, f, inst)
    decreases fuel, 1
  {
    hide Documented, Standard, Valid, Source, SchemaOf, Value;
    var rd := Reading(Source(d.schemas), true);
    SchemaIsObject(e, file, Some(f.typ));
    var inner := if f.jsConv && f.typ.name == "i64" then INT64_TEXT else SchemaOf(e, file, Some(f.typ));
    TextMeans(fuel, inst, rd, c);
    SchemaMeans(fuel, e, routes, d, file, Some(f.typ), inst, c);
    DescribedMeans(fuel, inner, f.comment, inst, rd, c);
  }

  lemma TextMeans(fuel: nat, inst: Json, rd: Reading, c: Setting)
    requires Standard(c)
    ensures Valid(fuel, INT64_TEXT, inst, rd, c.w) <==>
            inst.Str? && (c.strict ==> c.w.assertion("pattern", Str("^-?[0-9]+$"), inst))
  {
    hide Holds;
    ValidObject(fuel, INT64_TEXT, inst, rd, c.w);
    Typed(fuel, INT64_TEXT, "string", inst, rd, c.w);
    Asserted(fuel, INT64_TEXT, "pattern", inst, rd, c.w);
    Noted(fuel, INT64_TEXT, "description", inst, rd, c);
  }

  lemma DescribedMeans(fuel: nat, s: Schema, comment: string, inst: Json, rd: Reading, c: Setting)
    requires Standard(c)
    ensures Described(s, comment).Obj?
    ensures Valid(fuel, Described(s, comment), inst, rd, c.w) <==> Valid(fuel, s, inst, rd, c.w)
  {
    hide Holds, Valid, Standard;
    if comment != "" {
      var t := Described(s, comment);
      ValidObject(fuel, t, inst, rd, c.w);
      Wrapped(fuel, t, s, inst, rd, c.w);
      Noted(fuel, t, "description", inst, rd, c);
    }
  }

  /** Field by field. */
  ghost predicate PropertiesHold(fuel: nat, e: Env, c: Setting, comps: map<string, Schema>, file: string, fields: seq<Field>,
                                 inst: Json)
    requires file in e.asts && inst.Obj?
  {
    forall k :: k in inst.fields && k in PropertiesOf(e, file, fields) ==>
      Valid(fuel, PropertiesOf(e, file, fields)[k], inst.fields[k], Reading(Source(comps), true), c.w)
  }

  lemma {:induction false} FieldListMeans(fuel: nat, e: Env, routes: seq<Served>, d: Document, file: string, fields: seq<Field>,
                                          inst: Json, c: Setting)
    requires Documented(e, routes, d) && Standard(c) && file in e.asts
    requires FieldsCited(e, file, fields) <= d.schemas.Keys && PlainFields(fields)
    ensures RecordValue(fuel, e, c, file, fields, AnyField, inst) <==>
      && inst.Obj? && PropertiesHold(fuel, e, c, d.schemas, file, fields, inst)
      && (c.strict ==> forall k :: Str(k) in RequiredOf(fields) ==> k in inst.fields)
    decreases fuel, 2
  {
    hide Documented, Standard, Valid, Source, PropertiesOf, RequiredOf, FieldOf, FieldValue, Cited, LastNamed;
    if inst.Obj? {
      forall k | k in inst.fields
        ensures k in PropertiesOf(e, file, fields) <==> LastNamed(fields, AnyField, k).Some?
        ensures k in PropertiesOf(e, file, fields) ==>
          (Valid(fuel, PropertiesOf(e, file, fields)[k], inst.fields[k], Reading(Source(d.schemas), true), c.w) <==>
           FieldValue(fuel, e, c, file, LastNamed(fields, AnyField, k).value, inst.fields[k]))
      {
        PropertiesAre(e, file, fields, k);
        if k in PropertiesOf(e, file, fields) {
          var f := LastNamed(fields, AnyField, k).value;
          LastIsThere(fields, AnyField, k);
          FieldFits(e, d.schemas, file, fields, f);
          FieldMeans(fuel, e, routes, d, file, f, inst.fields[k], c);
        }
      }
      forall k
        ensures Str(k) in RequiredOf(fields) <==> exists i :: 0 <= i < |fields| && fields[i].required && fields[i].key == k
      {
        RequiredAre(fields, k);
      }
    }
  }

  lemma FieldFits(e: Env, comps: map<string, Schema>, file: string, fields: seq<Field>, f: Field)
    requires file in e.asts && FieldsCited(e, file, fields) <= comps.Keys && PlainFields(fields) && f in fields
    ensures Cited(e, file, Some(f.typ)) <= comps.Keys && PlainType(f.typ)
  {
    hide Cited, PlainType;
    var i :| 0 <= i < |fields| && fields[i] == f;
    forall k | k in Cited(e, file, Some(f.typ)) ensures k in FieldsCited(e, file, fields) {
      assert k in Cited(e, file, Some(fields[i].typ));
    }
  }

  lemma TitledRecord(fuel: nat, e: Env, f: string, n: string, fields: seq<Field>, inst: Json, rd: Reading, c: Setting)
    requires Standard(c) && f in e.asts
    ensures Valid(fuel, Titled(e, f, n, FieldsOf(e, f, fields)), inst, rd, c.w) <==>
      && inst.Obj?
      && (forall k :: k in inst.fields && k in PropertiesOf(e, f, fields) ==>
            Valid(fuel, PropertiesOf(e, f, fields)[k], inst.fields[k], rd, c.w))
      && (c.strict ==> forall k :: Str(k) in RequiredOf(fields) ==> k in inst.fields)
  {
    hide Valid, Standard, PropertiesOf, RequiredOf;
    ObjectMeans(fuel, Titled(e, f, n, FieldsOf(e, f, fields)), PropertiesOf(e, f, fields), RequiredOf(fields), inst, rd, c);
  }

  // ------------------------------------------------------------- operations

  /** What a served method answers with: code, message, and a value of its result type. */
  ghost predicate ResultValue(fuel: nat, e: Env, c: Setting, r: Served, inst: Json) {
    && inst.Obj? && "code" in inst.fields && "message" in inst.fields && "data" in inst.fields
    && inst.fields["code"] == Str("000000") && c.w.assertion("pattern", Str("^[0-9]{6}$"), inst.fields["code"])
    && inst.fields["message"].Str?
    && Value(fuel, e, c, r.file, r.result, inst.fields["data"])
  }

  lemma CodeMeans(fuel: nat, s: Schema, inst: Json, rd: Reading, c: Setting)
    requires Standard(c) && c.strict
    requires s == Obj(map["type" := Str("string"), "pattern" := Str("^[0-9]{6}$"), "enum" := Arr([Str("000000")])])
    ensures Valid(fuel, s, inst, rd, c.w) <==> inst == Str("000000") && c.w.assertion("pattern", Str("^[0-9]{6}$"), inst)
  {
    hide Holds;
    ValidObject(fuel, s, inst, rd, c.w);
    Typed(fuel, s, "string", inst, rd, c.w);
    Asserted(fuel, s, "pattern", inst, rd, c.w);
    Asserted(fuel, s, "enum", inst, rd, c.w);
    assert [Str("000000")][0] == Str("000000");
  }

  lemma MessageMeans(fuel: nat, s: Schema, inst: Json, rd: Reading, c: Setting)
    requires Standard(c) && s == Obj(map["type" := Str("string"), "example" := Str("success")])
    ensures Valid(fuel, s, inst, rd, c.w) <==> inst.Str?
  {
    hide Holds, Standard;
    ValidObject(fuel, s, inst, rd, c.w);
    Typed(fuel, s, "string", inst, rd, c.w);
    Noted(fuel, s, "example", inst, rd, c);
  }

  lemma EnvelopeMeans(fuel: nat, data: Schema, inst: Json, rd: Reading, c: Setting)
    requires Standard(c) && c.strict
    ensures Valid(fuel, Envelope(data), inst, rd, c.w) <==>
      && inst.Obj? && "code" in inst.fields && "message" in inst.fields && "data" in inst.fields
      && inst.fields["code"] == Str("000000") && c.w.assertion("pattern", Str("^[0-9]{6}$"), inst.fields["code"])
      && inst.fields["message"].Str? && Valid(fuel, data, inst.fields["data"], rd, c.w)
  {
    hide Valid, Standard;
    var s := Envelope(data);
    var properties := s.fields["properties"].fields;
    var required := s.fields["required"].items;
    ObjectMeans(fuel, s, properties, required, inst, rd, c);
    assert required[0] == Str("code") && required[1] == Str("message") && required[2] == Str("data");
    if inst.Obj? {
      if "code" in inst.fields { CodeMeans(fuel, properties["code"], inst.fields["code"], rd, c); }
      if "message" in inst.fields { MessageMeans(fuel, properties["message"], inst.fields["message"], rd, c); }
    }
  }

  /** The result schema of an operation accepts exactly the answers of the method. */
  lemma ResultMeans(fuel: nat, e: Env, routes: seq<Served>, d: Document, i: nat, inst: Json, c: Setting)
    requires Documented(e, routes, d) && Standard(c) && c.strict && i < |routes|
    requires routes[i].result.Some? ==> PlainType(routes[i].result.value)
    ensures i < |d.operations| && routes[i].file in e.asts && d.operations[i].result.Obj?
    ensures Valid(fuel, d.operations[i].result, inst, Reading(Source(d.schemas), true), c.w) <==>
            ResultValue(fuel, e, c, routes[i], inst)
  {
    hide Standard, Valid, Value, Source, SchemaOf, StructFields, Describes;
    var r := routes[i];
    assert d.operations[i] == OperationOf(e, r) && OperationCited(e, r) <= d.schemas.Keys;
    SchemaIsObject(e, r.file, r.result);
    var data := SchemaOf(e, r.file, r.result);
    EnvelopeMeans(fuel, data, inst, Reading(Source(d.schemas), true), c);
    if inst.Obj? && "data" in inst.fields {
      SchemaMeans(fuel, e, routes, d, r.file, r.result, inst.fields["data"], c);
    }
  }

  /** The chosen half of a field list, position by position. */
  ghost predicate Places(fields: seq<Field>, bound: bool, part: seq<Field>, at: seq<nat>) {
    && |at| == |part|
    && (forall j :: 0 <= j < |at| ==> at[j] < |fields| && part[j] == fields[at[j]] && fields[at[j]].bound == bound)
    && (forall j, k :: 0 <= j < k < |at| ==> at[j] < at[k])
    && forall i :: 0 <= i < |fields| && fields[i].bound == bound ==> i in at
  }

  lemma {:induction false} BoundPlaces(fields: seq<Field>, bound: bool) returns (at: seq<nat>)
    ensures Places(fields, bound, Bound(fields, bound), at)
  {
    if fields == [] {
      at := [];
    } else {
      var front, last := fields[..|fields| - 1], fields[|fields| - 1];
      var before := BoundPlaces(front, bound);
      at := before + if last.bound == bound then [|fields| - 1] else [];
      assert forall i :: i in before ==> i in at;
    }
  }

  lemma {:induction false} LastInBody(fields: seq<Field>, k: string)
    ensures LastNamed(Bound(fields, false), AnyField, k) == LastNamed(fields, InBody, k)
  {
    if fields != [] {
      var front, last := fields[..|fields| - 1], fields[|fields| - 1];
      LastInBody(front, k);
      var part := Bound(front, false);
      if !last.bound {
        assert (part + [last])[..|part|] == part;
      } else {
        assert part + [] == part;
      }
    }
  }

  lemma BodyRecord(fuel: nat, e: Env, c: Setting, file: string, fields: seq<Field>, inst: Json)
    ensures RecordValue(fuel, e, c, file, Bound(fields, false), AnyField, inst) <==>
            RecordValue(fuel, e, c, file, fields, InBody, inst)
  {
    hide FieldValue, LastNamed, Bound;
    forall k ensures LastNamed(Bound(fields, false), AnyField, k) == LastNamed(fields, InBody, k) { LastInBody(fields, k); }
    var part := Bound(fields, false);
    var at := BoundPlaces(fields, false);
    forall i | 0 <= i < |fields| && InBody(fields[i]) && fields[i].required
      ensures exists j :: 0 <= j < |part| && part[j].required && part[j].key == fields[i].key
    {
      var j :| 0 <= j < |at| && at[j] == i;
      assert part[j] == fields[i];
    }
    forall j | 0 <= j < |part| && part[j].required
      ensures exists i :: 0 <= i < |fields| && InBody(fields[i]) && fields[i].required && fields[i].key == part[j].key
    {
      assert fields[at[j]] == part[j];
    }
  }

  /** A body is described exactly when some field of the request belongs to it, and then accepts exactly the
      records of those fields. */
  lemma BodyMeans(fuel: nat, e: Env, routes: seq<Served>, d: Document, i: nat, inst: Json, c: Setting)
    requires Documented(e, routes, d) && Standard(c) && i < |routes|
    ensures i < |d.operations| && routes[i].file in e.asts
    ensures var found := RequestFields(e, routes[i]);
      && (d.operations[i].body.Some? <==>
            found.Some? && exists j :: 0 <= j < |found.value.1.fields| && !found.value.1.fields[j].bound)
      && (d.operations[i].body.Some? ==>
            && d.operations[i].body.value.Obj?
            && (Valid(fuel, d.operations[i].body.value, inst, Reading(Source(d.schemas), true), c.w) <==>
                RecordValue(fuel, e, c, found.value.0, found.value.1.fields, InBody, inst)))
  {
    hide Standard, Valid, RecordValue, Source, StructFields, Describes, Bound, Cited, PropertiesOf, RequiredOf, Lexed;
    var r := routes[i];
    assert d.operations[i] == OperationOf(e, r) && OperationCited(e, r) <= d.schemas.Keys;
    var found := RequestFields(e, r);
    if found.Some? {
      var (file, fields) := (found.value.0, found.value.1.fields);
      var part := Bound(fields, false);
      var at := BoundPlaces(fields, false);
      if j :| 0 <= j < |fields| && !fields[j].bound { assert j in at; }
      if part != [] {
        assert !fields[at[0]].bound;
        PlainRequest(e, r.file, r.request.name, 0);
        BoundCited(e, file, fields, false);
        PlainPart(fields, false);
        FieldListMeans(fuel, e, routes, d, file, part, inst, c);
        ObjectMeans(fuel, Obj(FieldsOf(e, file, part)), PropertiesOf(e, file, part), RequiredOf(part), inst,
                    Reading(Source(d.schemas), true), c);
        BodyRecord(fuel, e, c, file, fields, inst);
      }
    }
  }

  lemma PlainPart(fields: seq<Field>, bound: bool)
    requires PlainFields(fields)
    ensures PlainFields(Bound(fields, bound))
  {
    hide Bound, PlainType;
    BoundOf(fields, bound);
    forall i | 0 <= i < |Bound(fields, bound)| ensures PlainType(Bound(fields, bound)[i].typ) {
      var j :| 0 <= j < |fields| && fields[j] == Bound(fields, bound)[i];
      assert PlainType(fields[j].typ);
    }
  }

  /** There is one parameter schema for every field with a place of its own, in order, and it accepts exactly
      the values of that field. */
  lemma ParametersMean(fuel: nat, e: Env, routes: seq<Served>, d: Document, i: nat, inst: Json, c: Setting) returns (at: seq<nat>)
    requires Documented(e, routes, d) && Standard(c) && i < |routes|
    ensures i < |d.operations| && routes[i].file in e.asts
    ensures var (found, params) := (RequestFields(e, routes[i]), d.operations[i].params);
      && (found.None? ==> params == [])
      && (found.Some? ==>
            var fields := found.value.1.fields;
            && |at| == |params|
            && (forall j, k :: 0 <= j < k < |at| ==> at[j] < at[k])
            && (forall j :: 0 <= j < |fields| ==> (fields[j].bound <==> j in at))
            && forall j :: 0 <= j < |params| ==>
                 && at[j] < |fields| && params[j].Obj?
                 && (Valid(fuel, params[j], inst, Reading(Source(d.schemas), true), c.w) <==>
                     FieldValue(fuel, e, c, found.value.0, fields[at[j]], inst)))
  {
    hide Standard, Valid, FieldValue, FieldOf, Source, StructFields, Describes, Bound, Cited, Lexed;
    var r := routes[i];
    assert d.operations[i] == OperationOf(e, r) && OperationCited(e, r) <= d.schemas.Keys;
    var found := RequestFields(e, r);
    at := [];
    if found.Some? {
      var (file, fields) := (found.value.0, found.value.1.fields);
      var part := Bound(fields, true);
      at := BoundPlaces(fields, true);
      PlainRequest(e, r.file, r.request.name, 0);
      forall j | 0 <= j < |part|
        ensures FieldOf(e, file, part[j]).Obj?
        ensures Valid(fuel, FieldOf(e, file, part[j]), inst, Reading(Source(d.schemas), true), c.w) <==>
                FieldValue(fuel, e, c, file, fields[at[j]], inst)
      {
        FieldFits(e, d.schemas, file, fields, part[j]);
        FieldMeans(fuel, e, routes, d, file, part[j], inst, c);
      }
    }
  }

  // --------------------------------------------------------- closed schemas

  /** From declarations to answers: the closed result schema accepts exactly the answers of the method. */
  lemma ClosedResultMeans(fuel: nat, e: Env, routes: seq<Served>, d: Document, i: nat, inst: Json, c: Setting)
    requires Documented(e, routes, d) && Standard(c) && c.strict && i < |routes|
    requires PlainType(routes[i].request) && (routes[i].result.Some? ==> PlainType(routes[i].result.value))
    ensures i < |d.operations| && routes[i].file in e.asts && d.operations[i].result.Obj?
    ensures var closed := Bundle(Mode(KeywordKind, false), d.schemas, d.operations[i].result);
      Valid(fuel, closed, inst, Reading(closed, false), c.w) <==> ResultValue(fuel, e, c, routes[i], inst)
  {
    hide Standard, Valid, ResultValue, Source, Bundle, KeywordKind, Lexed, Encodes, Complete;
    ResultMeans(fuel, e, routes, d, i, inst, c);
    GeneratedResultsKeepMeaning(e, routes, d, i, fuel, inst, c.w);
  }

  /** And the closed body schema accepts exactly the records of the body's fields, up to what is left to the
      service: presence of required fields, membership in an enum, the digits of a text integer. */
  lemma ClosedBodyMeans(fuel: nat, e: Env, routes: seq<Served>, d: Document, i: nat, inst: Json, c: Setting)
    requires Documented(e, routes, d) && Standard(c) && c.strict && i < |routes|
    requires PlainType(routes[i].request) && (routes[i].result.Some? ==> PlainType(routes[i].result.value))
    ensures i < |d.operations| && routes[i].file in e.asts
    ensures d.operations[i].body.Some? ==>
      var (found, root) := (RequestFields(e, routes[i]), d.operations[i].body.value);
      && found.Some? && root.Obj?
      && var closed := Bundle(Mode(KeywordKind, true), d.schemas, root);
        (Valid(fuel, closed, inst, Reading(closed, false), c.w) <==>
         RecordValue(fuel, e, Setting(Lenient(c.w), false), found.value.0, found.value.1.fields, InBody, inst))
  {
    hide Standard, Valid, RecordValue, Source, Bundle, KeywordKind, Lexed, Encodes, Complete, StructFields, Lenient, Fit,
         Closable, Reaches;
    var lenient := Setting(Lenient(c.w), false);
    LenientIsStandard(c);
    BodyMeans(fuel, e, routes, d, i, inst, lenient);
    if d.operations[i].body.Some? {
      var root := d.operations[i].body.value;
      BodyFits(e, routes, d, i);
      InputMeaningExact(d.schemas, root, fuel, inst, c.w);
    }
  }

  lemma LenientIsStandard(c: Setting)
    requires Standard(c) && c.strict
    ensures Standard(Setting(Lenient(c.w), false))
  {
    hide LeftToService;
    WordsLeft();
    WordsKept();
  }

  lemma WordsLeft()
    ensures LeftToService("enum") && LeftToService("required") && LeftToService("pattern")
  {
  }

  lemma WordsKept()
    ensures !LeftToService("title") && !LeftToService("description") && !LeftToService("example")
    ensures !LeftToService("uniqueItems")
  {
  }

  lemma GoodIsObject(m: Mode, names: set<string>, s: Json)
    requires OpenapiDocument.Good(m, names, s)
    ensures s.Obj?
  {
  }

  lemma BodyFits(e: Env, routes: seq<Served>, d: Document, i: nat)
    requires Documented(e, routes, d) && i < |routes| && i < |d.operations| && d.operations[i].body.Some?
    requires PlainType(routes[i].request) && (routes[i].result.Some? ==> PlainType(routes[i].result.value))
    ensures var root := d.operations[i].body.value;
      && root.Obj? && Closable(Mode(KeywordKind, true), d.schemas, root) && Fit(Mode(KeywordKind, false), root)
      && forall n :: n in d.schemas && Reaches(Mode(KeywordKind, true), d.schemas, root, n) ==>
           Fit(Mode(KeywordKind, false), d.schemas[n])
  {
    hide KeywordKind, Lexed, Complete, Encodes, Closable, Reaches, Sound, Fit;
    OperationsAreGood(Mode(KeywordKind, true), e, routes, d, i);
    OperationsAreGood(Mode(KeywordKind, false), e, routes, d, i);
    GoodIsObject(Mode(KeywordKind, true), d.schemas.Keys, d.operations[i].body.value);
    GoodCloses(Mode(KeywordKind, true), e, routes, d, d.operations[i].body.value);
    ComponentsAreGood(Mode(KeywordKind, false), e, routes, d);
  }

  ghost predicate StandardAssertion(other: (string, Json, Json) -> bool, k: string, v: Json, inst: Json) {
    if k == "title" || k == "description" || k == "example" then true
    else if k == "uniqueItems" then inst.Arr? ==> Distinct(inst.items)
    else if k == "enum" then v.Arr? && inst in v.items
    else if k == "required" then v.Arr? && (inst.Obj? ==> forall n :: Str(n) in v.items ==> n in inst.fields)
    else other(k, v, inst)
  }

  /** Worlds of the standard kind exist, whatever formats and patterns mean. */
  lemma StandardWorlds(other: (string, Json, Json) -> bool, matches: (string, string) -> bool, limit: bool)
    ensures var assertion := (k: string, v: Json, inst: Json) => StandardAssertion(other, k, v, inst);
      Standard(Setting(World(assertion, matches, limit), true))
  {
  }
}
