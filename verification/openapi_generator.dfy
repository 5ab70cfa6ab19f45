/** Deriving component schemas from Thrift declarations (internal/openapi/generate.go). */
module OpenapiGenerator {
  import opened Prelude
  import opened ThriftAst
  import opened JsonPointer
  import opened SchemaClose
  import opened TypeResolvers

  /** Base64url of a file name, and the description text of a declaration, are library matters. */
  datatype Env = Env(asts: Archive, enc: string -> string, about: (string, string) -> string)

  const PLACEHOLDER: Json := Obj(map[])

  function Key(e: Env, file: string, name: string): string {
    e.enc(file) + "." + name
  }

  // -------------------------------------- what the schemas should be

  function Basic(name: string): Option<Json> {
    if name == "bool" then Some(Obj(map["type" := Str("boolean")]))
    else if name == "byte" || name == "i8" || name == "i16" || name == "i32" then
      Some(Obj(map["type" := Str("integer"), "format" := Str("int32")]))
    else if name == "i64" then Some(Obj(map["type" := Str("integer"), "format" := Str("int64")]))
    else if name == "double" then Some(Obj(map["type" := Str("number"), "format" := Str("double")]))
    else if name == "string" then Some(Obj(map["type" := Str("string")]))
    else if name == "binary" then Some(Obj(map["type" := Str("string"), "format" := Str("byte")]))
    else None
  }

  function ArrayOf(items: Json, unique: bool): Json {
    var s := map["type" := Str("array"), "items" := items];
    Obj(if unique then s["uniqueItems" := Bool(true)] else s)
  }

  function MapOf(value: Json): Json {
    Obj(map["type" := Str("object"), "additionalProperties" := value])
  }

  function SchemaOf(e: Env, file: string, t: Option<Type>): Json
    requires file in e.asts
    decreases t
  {
    if t.None? then Obj(map[])
    else if Basic(t.value.name).Some? then Basic(t.value.name).value
    else if t.value.name == "list" || t.value.name == "set" then
      ArrayOf(SchemaOf(e, file, t.value.value), t.value.name == "set")
    else if t.value.name == "map" then MapOf(SchemaOf(e, file, t.value.value))
    else
      var (f, n) := TypeResolvers.Resolve(e.asts, file, t.value.name);
      RefTo(Key(e, f, n))
  }

  /** The one component a type refers to, if any. */
  function Cited(e: Env, file: string, t: Option<Type>): set<string>
    requires file in e.asts
    decreases t
  {
    if t.None? || Basic(t.value.name).Some? then {}
    else if t.value.name == "list" || t.value.name == "set" || t.value.name == "map" then Cited(e, file, t.value.value)
    else
      var (f, n) := TypeResolvers.Resolve(e.asts, file, t.value.name);
      {Key(e, f, n)}
  }

  const INT64_TEXT: Json :=
    Obj(map["type" := Str("string"), "pattern" := Str("^-?[0-9]+$"), "description" := Str("64-bit integer as text")])

  function Described(s: Json, comment: string): Json {
    if comment == "" then s else Obj(map["allOf" := Arr([s]), "description" := Str(comment)])
  }

  function FieldOf(e: Env, file: string, f: Field): Json
    requires file in e.asts
  {
    Described(if f.jsConv && f.typ.name == "i64" then INT64_TEXT else SchemaOf(e, file, Some(f.typ)), f.comment)
  }

  /** A later field of the same JSON name replaces an earlier one. */
  function PropertiesOf(e: Env, file: string, fields: seq<Field>): map<string, Json>
    requires file in e.asts
  {
    if fields == [] then map[]
    else
      var last := fields[|fields| - 1];
      PropertiesOf(e, file, fields[..|fields| - 1])[last.key := FieldOf(e, file, last)]
  }

  function RequiredOf(fields: seq<Field>): seq<Json> {
    if fields == [] then []
    else
      var last := fields[|fields| - 1];
      RequiredOf(fields[..|fields| - 1]) + if last.required then [Str(last.key)] else []
  }

  function ObjectOf(properties: map<string, Json>, required: seq<Json>): map<string, Json> {
    var s := map["type" := Str("object"), "properties" := Obj(properties)];
    if required == [] then s else s["required" := Arr(required)]
  }

  function FieldsOf(e: Env, file: string, fields: seq<Field>): map<string, Json>
    requires file in e.asts
  {
    ObjectOf(PropertiesOf(e, file, fields), RequiredOf(fields))
  }

  function FieldsCited(e: Env, file: string, fields: seq<Field>): set<string>
    requires file in e.asts
  {
    set i, k | 0 <= i < |fields| && k in Cited(e, file, Some(fields[i].typ)) :: k
  }

  function FindEnum(enums: seq<Enum>, name: string): Option<Enum> {
    if enums == [] then None else if enums[0].name == name then Some(enums[0]) else FindEnum(enums[1..], name)
  }

  /** The declaration that a name stands for in a file: typedefs first, then enums, then structs. */
  datatype Decl = Alias(typ: Type) | Enumeration(values: seq<int>) | Record(fields: seq<Field>) | Unknown

  function Declared(e: Env, file: string, name: string): Decl {
    if file !in e.asts then Unknown
    else
      var ast := e.asts[file];
      var t := FindTypedef(ast.typedefs, name);
      if t.Some? then Alias(t.value.typ)
      else
        var n := FindEnum(ast.enums, name);
        if n.Some? then Enumeration(n.value.values)
        else
          var s := FindStruct(ast.structs + ast.unions + ast.exceptions, name);
          if s.Some? then Record(s.value.fields) else Unknown
  }

  function Titled(e: Env, file: string, name: string, s: map<string, Json>): Json {
    Obj(s["title" := Str(name)]["description" := Str(e.about(file, name))])
  }

  /** The component of a declaration. */
  function EntryOf(e: Env, file: string, name: string): Json {
    match Declared(e, file, name)
    case Alias(t) => Titled(e, file, name, map["allOf" := Arr([SchemaOf(e, file, Some(t))])])
    case Enumeration(values) =>
      Titled(e, file, name, map["type" := Str("integer"),
                                "enum" := Arr(seq(|values|, i requires 0 <= i < |values| => Num(values[i] as real)))])
    case Record(fields) => Titled(e, file, name, FieldsOf(e, file, fields))
    case Unknown => PLACEHOLDER
  }

  function EntryCited(e: Env, file: string, name: string): set<string> {
    match Declared(e, file, name)
    case Alias(t) => Cited(e, file, Some(t))
    case Record(fields) => FieldsCited(e, file, fields)
    case _ => {}
  }

  // ----------------------------------------------------- what a call adds

  ghost predicate Filled(e: Env, s: map<string, Json>, k: string) {
    k in s && exists f, n :: k == Key(e, f, n) && s[k] == EntryOf(e, f, n) && EntryCited(e, f, n) <= s.Keys
  }

  /** Components are only added, each the component of a declaration whose own references are there,
      and an error is recorded exactly when a name has no declaration. */
  ghost predicate Extended(e: Env, s0: map<string, Json>, e0: bool, s1: map<string, Json>, e1: bool) {
    && (forall k :: k in s0 ==> k in s1 && s1[k] == s0[k])
    && (forall k :: k in s1 && k !in s0 ==> Filled(e, s1, k))
    && (e1 <==> e0 || exists k :: k in s1 && k !in s0 && s1[k] == PLACEHOLDER)
  }

  lemma FilledGrows(e: Env, s0: map<string, Json>, s1: map<string, Json>, k: string)
    requires Filled(e, s0, k)
    requires forall k :: k in s0 ==> k in s1 && s1[k] == s0[k]
    ensures Filled(e, s1, k)
  {
    hide Key, EntryOf, EntryCited;
    var f, n :| k == Key(e, f, n) && s0[k] == EntryOf(e, f, n) && EntryCited(e, f, n) <= s0.Keys;
    assert s0.Keys <= s1.Keys;
  }

  lemma ExtendedTrans(e: Env, s0: map<string, Json>, e0: bool, s1: map<string, Json>, e1: bool,
                      s2: map<string, Json>, e2: bool)
    requires Extended(e, s0, e0, s1, e1) && Extended(e, s1, e1, s2, e2)
    ensures Extended(e, s0, e0, s2, e2)
  {
    hide Filled;
    forall k | k in s1 && k !in s0 ensures Filled(e, s2, k) {
      FilledGrows(e, s1, s2, k);
    }
    if k :| k in s1 && k !in s0 && s1[k] == PLACEHOLDER {
      assert s2[k] == PLACEHOLDER;
    }
  }

  /** A component is marked, whatever it refers to is generated, and then it is filled in. */
  lemma ExtendedByEntry(e: Env, f: string, n: string, s0: map<string, Json>, e0: bool, s1: map<string, Json>, e1: bool)
    requires Key(e, f, n) !in s0 && !Declared(e, f, n).Unknown?
    requires Extended(e, s0[Key(e, f, n) := PLACEHOLDER], e0, s1, e1)
    requires EntryCited(e, f, n) <= s1.Keys
    ensures Key(e, f, n) in s1 && Extended(e, s0, e0, s1[Key(e, f, n) := EntryOf(e, f, n)], e1)
  {
    hide EntryOf, EntryCited, Declared, Key;
    var key := Key(e, f, n);
    var s2 := s1[key := EntryOf(e, f, n)];
    EntryIsNoPlaceholder(e, f, n);
    assert s2.Keys == s1.Keys;
    assert Filled(e, s2, key);
    forall k | k in s1 && k !in s0 && k != key ensures Filled(e, s2, k) {
      var f', n' :| k == Key(e, f', n') && s1[k] == EntryOf(e, f', n') && EntryCited(e, f', n') <= s1.Keys;
    }
    assert forall k :: k in s1 && k !in s0 && k != key ==> s2[k] == s1[k];
  }

  lemma EntryIsNoPlaceholder(e: Env, f: string, n: string)
    requires !Declared(e, f, n).Unknown?
    ensures EntryOf(e, f, n) != PLACEHOLDER
  {
    hide Declared;
    assert "title" in EntryOf(e, f, n).fields;
  }

  lemma ExtendedByNothing(e: Env, f: string, n: string, s0: map<string, Json>, e0: bool)
    requires Key(e, f, n) !in s0 && Declared(e, f, n).Unknown?
    ensures Extended(e, s0, e0, s0[Key(e, f, n) := PLACEHOLDER], true)
  {
    hide Declared, Key;
    var s1 := s0[Key(e, f, n) := PLACEHOLDER];
    assert Filled(e, s1, Key(e, f, n));
    assert s1[Key(e, f, n)] == PLACEHOLDER;
  }

  // --------------------------------------------------- nothing too much

  /** Base64url: one-to-one, and its alphabet has no dot. */
  ghost predicate Encodes(enc: string -> string) {
    (forall f :: '.' !in enc(f)) && forall f, g :: enc(f) == enc(g) ==> f == g
  }

  lemma KeyIsInjective(e: Env, f: string, n: string, f': string, n': string)
    requires Encodes(e.enc) && Key(e, f, n) == Key(e, f', n')
    ensures f == f' && n == n'
  {
    var a, b := e.enc(f), e.enc(f');
    EarlierDot(a, n, b, n');
    EarlierDot(b, n', a, n);
    assert Key(e, f, n)[..|a|] == a && Key(e, f', n')[..|b|] == b;
    assert Key(e, f, n)[|a| + 1..] == n && Key(e, f', n')[|b| + 1..] == n';
  }

  /** The first dot tells two joined texts apart. */
  lemma EarlierDot(a: string, n: string, b: string, n': string)
    requires '.' !in b
    ensures |a| < |b| ==> a + "." + n != b + "." + n'
  {
    if |a| < |b| {
      assert (a + "." + n)[|a|] == '.' && (b + "." + n')[|a|] == b[|a|];
      assert b[|a|] in b;
    }
  }

  /** A declaration stands behind the key, and all it refers to is among the names. */
  ghost predicate Settles(e: Env, names: set<string>, k: string) {
    exists f, n :: k == Key(e, f, n) && !Declared(e, f, n).Unknown? && EntryCited(e, f, n) <= names
  }

  ghost predicate SelfContained(e: Env, names: set<string>) {
    forall k :: k in names ==> Settles(e, names, k)
  }

  /** Whatever was added belongs to every self-contained set of components that has the roots. */
  ghost predicate Forced(e: Env, roots: set<string>, s0: map<string, Json>, s1: map<string, Json>) {
    forall names :: SelfContained(e, names) && roots <= names ==> forall k :: k in s1 && k !in s0 ==> k in names
  }

  lemma NothingForced(e: Env, roots: set<string>, s: map<string, Json>)
    ensures Forced(e, roots, s, s)
  {
  }

  lemma ForcedTrans(e: Env, part: set<string>, roots: set<string>, s0: map<string, Json>, s1: map<string, Json>,
                    s2: map<string, Json>)
    requires part <= roots && Forced(e, roots, s0, s1) && Forced(e, part, s1, s2)
    ensures Forced(e, roots, s0, s2)
  {
    hide SelfContained;
  }

  lemma ForcedByEntry(e: Env, f: string, n: string, s0: map<string, Json>, s1: map<string, Json>)
    requires Encodes(e.enc)
    requires Forced(e, EntryCited(e, f, n), s0[Key(e, f, n) := PLACEHOLDER], s1)
    ensures Forced(e, {Key(e, f, n)}, s0, s1)
  {
    hide Key, EntryCited, Declared, Encodes;
    var key := Key(e, f, n);
    forall names, k | SelfContained(e, names) && {key} <= names && k in s1 && k !in s0 ensures k in names {
      assert Settles(e, names, key);
      var f', n' :| key == Key(e, f', n') && !Declared(e, f', n').Unknown? && EntryCited(e, f', n') <= names;
      KeyIsInjective(e, f, n, f', n');
    }
  }

  // ------------------------------------------------------- termination

  function NamesIn(ast: Thrift): set<string> {
    (set i | 0 <= i < |ast.typedefs| :: ast.typedefs[i].alias) +
    (set i | 0 <= i < |ast.structs| :: ast.structs[i].name) +
    (set i | 0 <= i < |ast.unions| :: ast.unions[i].name) +
    (set i | 0 <= i < |ast.exceptions| :: ast.exceptions[i].name)
  }

  /** Keys of typedefs and structs: each is described once, which is why generation ends. */
  function Declarations(e: Env): set<string> {
    set f, n | f in e.asts && n in NamesIn(e.asts[f]) :: Key(e, f, n)
  }

  lemma {:induction false} FoundStruct(structs: seq<StructLike>, name: string)
    ensures var s := FindStruct(structs, name); s.Some? ==> s.value in structs && s.value.name == name
  {
    if structs != [] { FoundStruct(structs[1..], name); }
  }

  lemma DeclaredKey(e: Env, f: string, n: string)
    requires Declared(e, f, n).Alias? || Declared(e, f, n).Record?
    ensures Key(e, f, n) in Declarations(e)
  {
    hide Key;
    var ast := e.asts[f];
    FoundTypedef(ast.typedefs, n);
    var structs := ast.structs + ast.unions + ast.exceptions;
    FoundStruct(structs, n);
    assert n in NamesIn(ast) by {
      if FindTypedef(ast.typedefs, n).None? {
        var s := FindStruct(structs, n).value;
        assert s in ast.structs || s in ast.unions || s in ast.exceptions;
      }
    }
  }

  // ------------------------------------------------------ the generator

  class Generator {
    const env: Env
    var schemas: map<string, Json>
    var err: bool

    constructor (env: Env)
      ensures this.env == env && schemas == map[] && !err
    {
      this.env := env;
      schemas, err := map[], false;
    }

    method Schema(file: string, t: Option<Type>) returns (s: Json)
      requires file in env.asts && Encodes(env.enc)
      modifies this`schemas, this`err
      ensures s == SchemaOf(env, file, t) && Cited(env, file, t) <= schemas.Keys
      ensures Extended(env, old(schemas), old(err), schemas, err)
      ensures Forced(env, Cited(env, file, t), old(schemas), schemas)
      decreases Declarations(env) - schemas.Keys, 1, t
    {
      hide Extended, Basic, Forced, Encodes;
      NothingForced(env, {}, schemas);
      if t.None? {
        Unchanged(env, schemas, err);
        return Obj(map[]);
      }
      var name := t.value.name;
      if Basic(name).Some? {
        Unchanged(env, schemas, err);
        return Basic(name).value;
      }
      if name == "list" || name == "set" {
        var items := Schema(file, t.value.value);
        return ArrayOf(items, name == "set");
      }
      if name == "map" {
        var value := Schema(file, t.value.value);
        return MapOf(value);
      }
      var (f, n) := TypeResolvers.Resolve(env.asts, file, name);
      Component(f, n);
      s := RefTo(Key(env, f, n));
    }

    /** The part of `schema` that looks up a named type. */
    method Component(file: string, name: string)
      requires Encodes(env.enc)
      modifies this`schemas, this`err
      ensures Key(env, file, name) in schemas
      ensures Extended(env, old(schemas), old(err), schemas, err)
      ensures Forced(env, {Key(env, file, name)}, old(schemas), schemas)
      decreases Declarations(env) - schemas.Keys, 0
    {
      hide Extended, Key, Declarations, Forced, Encodes;
      var key := Key(env, file, name);
      NothingForced(env, {key}, schemas);
      if key in schemas {
        Unchanged(env, schemas, err);
        return;
      }
      ghost var s0, e0 := schemas, err;
      schemas := schemas[key := PLACEHOLDER];
      assert schemas.Keys == s0.Keys + {key};
      NothingForced(env, EntryCited(env, file, name), schemas);
      if file !in env.asts {
        ExtendedByNothing(env, file, name, s0, e0);
        ForcedByEntry(env, file, name, s0, schemas);
        err := true;
        return;
      }
      var ast := env.asts[file];
      var alias := FindTypedef(ast.typedefs, name);
      if alias.Some? {
        DeclaredKey(env, file, name);
        Shrinks(Declarations(env), s0.Keys, key);
        var target := Schema(file, Some(alias.value.typ));
        ExtendedByEntry(env, file, name, s0, e0, schemas, err);
        ForcedByEntry(env, file, name, s0, schemas);
        SameKeys(env, {key}, s0, schemas, key, EntryOf(env, file, name));
        schemas := schemas[key := Titled(env, file, name, map["allOf" := Arr([target])])];
        return;
      }
      var enumeration := FindEnum(ast.enums, name);
      if enumeration.Some? {
        var values := enumeration.value.values;
        Unchanged(env, schemas, err);
        ExtendedByEntry(env, file, name, s0, e0, schemas, err);
        ForcedByEntry(env, file, name, s0, schemas);
        SameKeys(env, {key}, s0, schemas, key, EntryOf(env, file, name));
        schemas := schemas[key := Titled(env, file, name,
          map["type" := Str("integer"),
              "enum" := Arr(seq(|values|, i requires 0 <= i < |values| => Num(values[i] as real)))])];
        return;
      }
      var record := FindStruct(ast.structs + ast.unions + ast.exceptions, name);
      if record.Some? {
        DeclaredKey(env, file, name);
        Shrinks(Declarations(env), s0.Keys, key);
        var s := Fields(file, record.value.fields);
        ExtendedByEntry(env, file, name, s0, e0, schemas, err);
        ForcedByEntry(env, file, name, s0, schemas);
        SameKeys(env, {key}, s0, schemas, key, EntryOf(env, file, name));
        schemas := schemas[key := Titled(env, file, name, s)];
        return;
      }
      ExtendedByNothing(env, file, name, s0, e0);
      ForcedByEntry(env, file, name, s0, schemas);
      err := true;
    }

    method Field(file: string, f: Field) returns (s: Json)
      requires file in env.asts && Encodes(env.enc)
      modifies this`schemas, this`err
      ensures s == FieldOf(env, file, f) && Cited(env, file, Some(f.typ)) <= schemas.Keys
      ensures Extended(env, old(schemas), old(err), schemas, err)
      ensures Forced(env, Cited(env, file, Some(f.typ)), old(schemas), schemas)
      decreases Declarations(env) - schemas.Keys, 2
    {
      hide Extended, Cited, SchemaOf, Forced, Encodes;
      s := Schema(file, Some(f.typ));
      if f.jsConv && f.typ.name == "i64" { s := INT64_TEXT; }
      s := Described(s, f.comment);
    }

    method Fields(file: string, fields: seq<Field>) returns (s: map<string, Json>)
      requires file in env.asts && Encodes(env.enc)
      modifies this`schemas, this`err
      ensures s == FieldsOf(env, file, fields) && FieldsCited(env, file, fields) <= schemas.Keys
      ensures Extended(env, old(schemas), old(err), schemas, err)
      ensures Forced(env, FieldsCited(env, file, fields), old(schemas), schemas)
      decreases Declarations(env) - schemas.Keys, 3
    {
      hide Extended, Cited, FieldOf, Forced, Encodes;
      ghost var all := FieldsCited(env, file, fields);
      NothingForced(env, all, schemas);
      var properties: map<string, Json> := map[];
      var required: seq<Json> := [];
      Unchanged(env, schemas, err);
      for i := 0 to |fields|
        invariant properties == PropertiesOf(env, file, fields[..i]) && required == RequiredOf(fields[..i])
        invariant old(schemas).Keys <= schemas.Keys
        invariant forall j :: 0 <= j < i ==> Cited(env, file, Some(fields[j].typ)) <= schemas.Keys
        invariant Extended(env, old(schemas), old(err), schemas, err)
        invariant Forced(env, all, old(schemas), schemas)
      {
        ghost var s0, e0 := schemas, err;
        assert fields[..i + 1][..i] == fields[..i];
        var p := Field(file, fields[i]);
        FieldCited(env, file, fields, i);
        ForcedTrans(env, Cited(env, file, Some(fields[i].typ)), all, old(schemas), s0, schemas);
        ExtendedKeys(env, s0, e0, schemas, err);
        ExtendedTrans(env, old(schemas), old(err), s0, e0, schemas, err);
        properties := properties[fields[i].key := p];
        if fields[i].required { required := required + [Str(fields[i].key)]; }
      }
      assert fields[..|fields|] == fields;
      s := ObjectOf(properties, required);
    }
  }

  lemma FieldCited(e: Env, file: string, fields: seq<Field>, i: nat)
    requires file in e.asts && i < |fields|
    ensures Cited(e, file, Some(fields[i].typ)) <= FieldsCited(e, file, fields)
  {
    hide Cited;
  }

  lemma SameKeys(e: Env, roots: set<string>, s0: map<string, Json>, s1: map<string, Json>, k: string, v: Json)
    requires Forced(e, roots, s0, s1) && k in s1
    ensures Forced(e, roots, s0, s1[k := v])
  {
    hide SelfContained;
  }

  lemma Shrinks<T>(all: set<T>, seen: set<T>, key: T)
    requires key in all && key !in seen
    ensures all - (seen + {key}) < all - seen
  {
    assert key in all - seen && key !in all - (seen + {key});
  }

  lemma Unchanged(e: Env, s: map<string, Json>, err: bool)
    ensures Extended(e, s, err, s, err)
  {
  }

  lemma ExtendedKeys(e: Env, s0: map<string, Json>, e0: bool, s1: map<string, Json>, e1: bool)
    requires Extended(e, s0, e0, s1, e1)
    ensures s0.Keys <= s1.Keys
  {
  }
}
