/**
 Where closing a schema changes its meaning, exactly: references that are no single token, keywords beside
 `$ref`, and assertions dropped below `not` and `oneOf`.
 */
module SchemaLimits {
  import opened Prelude
  import opened JsonPointer
  import opened SchemaClose
  import opened SchemaMeaning

  const ANYTHING: Json := Obj(map[])

  /** The closed document accepts what the schema with its components accepts; with input, at least that. */
  ghost predicate FaithfulAt(m: Mode, comps: map<string, Schema>, root: Schema, fuel: nat, inst: Json, w: World) {
    Agrees(m, Valid(fuel, root, inst, Reading(Source(comps), true), w),
           Valid(fuel, Bundle(m, comps, root), inst, Reading(Bundle(m, comps, root), false), w))
  }

  ghost predicate Faithful(m: Mode, comps: map<string, Schema>, root: Schema) {
    forall fuel: nat, inst: Json, w: World :: FaithfulAt(m, comps, root, fuel, inst, w)
  }

  ghost predicate PartsFit(m: Mode, comps: map<string, Schema>, root: Schema) {
    Closable(m, comps, root) && forall n :: n in comps && Reaches(m, comps, root, n) ==> Fit(m, comps[n])
  }

  /** Whatever the components are, as long as there is nothing wrong with them. */
  ghost predicate AlwaysFaithful(m: Mode, root: Schema) {
    forall comps: map<string, Schema> :: PartsFit(m, comps, root) ==> Faithful(m, comps, root)
  }

  lemma FitIsFaithful(m: Mode, comps: map<string, Schema>, root: Schema)
    requires m.kind == KeywordKind && PartsFit(m, comps, root) && Fit(m, root)
    ensures Faithful(m, comps, root)
  {
    hide KeywordKind, Closable, Fit, Valid, Bundle, Source;
    assert m == Mode(KeywordKind, m.input);
    forall fuel: nat, inst, w ensures FaithfulAt(m, comps, root, fuel, inst, w) {
      if m.input {
        if Valid(fuel, root, inst, Reading(Source(comps), true), w) { InputMeaningWidened(comps, root, fuel, inst, w); }
      } else {
        OutputMeaningKept(comps, root, fuel, inst, w);
      }
    }
  }

  lemma FitIsAlwaysFaithful(m: Mode, root: Schema)
    requires m.kind == KeywordKind && Fit(m, root)
    ensures AlwaysFaithful(m, root)
  {
    hide KeywordKind, PartsFit, Faithful, Fit;
    forall comps: map<string, Schema> | PartsFit(m, comps, root) ensures Faithful(m, comps, root) {
      FitIsFaithful(m, comps, root);
    }
  }

  lemma SpellingsKnown()
    ensures KeywordKind("$ref") == Ref && WordOf("$ref") == RefWord
    ensures KeywordKind("type") == Plain && WordOf("type") == TypeWord
    ensures KeywordKind("not") == Child && WordOf("not") == Not
    ensures KeywordKind("oneOf") == ChildList && WordOf("oneOf") == OneOf
    ensures KeywordKind("nullable") == Nullable
  {
    hide KeywordKind, WordOf;
    PlainSpellings();
    CombinerSpellings();
  }

  lemma PlainSpellings()
    ensures KeywordKind("$ref") == Ref && WordOf("$ref") == RefWord
    ensures KeywordKind("type") == Plain && WordOf("type") == TypeWord
    ensures KeywordKind("nullable") == Nullable
  {
  }

  lemma CombinerSpellings()
    ensures KeywordKind("not") == Child && WordOf("not") == Not
    ensures KeywordKind("oneOf") == ChildList && WordOf("oneOf") == OneOf
  {
  }

  /** Keywords that are neither references nor hold schemas. */
  predicate Leaf(k: string) {
    && KeywordKind(k) != Forbidden && KeywordKind(k) != Ref
    && KeywordKind(k) != ChildMap && KeywordKind(k) != Child && KeywordKind(k) != ChildList
  }

  lemma LeafWords(k: string)
    ensures Leaf(k) ==> WordOf(k) == Silent || WordOf(k) == Assertion || (WordOf(k) == TypeWord && k == "type")
    ensures KeywordKind(k) == Dropped ==> WordOf(k) == Assertion
    ensures KeywordKind(k) == Nullable ==> WordOf(k) == Silent
  {
    KindOfWord(k);
    WordOfKind(k);
  }

  // ------------------------------------------------------------ references

  lemma ValidAlone(fuel: nat, k: string, v: Json, inst: Json, rd: Reading, w: World)
    ensures Valid(fuel, Obj(map[k := v]), inst, rd, w) == Holds(fuel, Obj(map[k := v]), k, inst, rd, w)
  {
    hide Holds;
    var s := Obj(map[k := v]);
    assert k in s.fields && Counts(s, k, rd);
  }

  /** An object that the tokens lead through, to a schema that accepts anything. */
  function Nest(tokens: seq<string>): Schema {
    if tokens == [] then ANYTHING else Obj(map[tokens[0] := Nest(tokens[1..])])
  }

  lemma {:induction false} NestLeads(tokens: seq<string>)
    ensures Navigate(Nest(tokens), tokens) == Some(ANYTHING)
  {
    if tokens != [] { NestLeads(tokens[1..]); }
  }

  /** The code's name for a reference of several tokens is longer than the first of them. */
  lemma {:induction false} LongerThanFirst(key: string)
    requires Tokens(key).Some?
    ensures |CodeName(key)| >= |Tokens(key).value[0]|
    ensures |Tokens(key).value| > 1 ==> |CodeName(key)| > |Tokens(key).value[0]|
  {
    if key != "" {
      CodeNameStep(key);
      LongerThanFirst(if key[0] == '~' then key[2..] else key[1..]);
    }
  }

  /** Components that a reference of several tokens walks into by its first, while the code takes it as a
      whole for a name. */
  function Trap(key: string): map<string, Schema>
    requires Tokens(key).Some?
  {
    var t := Tokens(key).value;
    map[t[0] := Nest(t[1..]), CodeName(key) := ANYTHING]
  }

  /** A schema whose references all lead to one component that accepts anything. */
  lemma LeadsToAnything(m: Mode, comps: map<string, Schema>, root: Schema, name: string)
    requires Sound(m, comps.Keys, root) && Within(m, root, {name})
    requires name in comps && comps[name] == ANYTHING
    ensures PartsFit(m, comps, root)
    ensures forall n :: n in Definitions(m, comps, root) ==> n == name
  {
    forall n | Reaches(m, comps, root, n) ensures n == name {
      var path :| Via(m, comps, root, path, n);
      StaysWithin(m, comps, root, path, n, {name});
    }
  }

  lemma RefToParts(m: Mode, comps: map<string, Schema>, key: string)
    requires m.kind == KeywordKind && CodeName(key) in comps
    ensures Sound(m, comps.Keys, RefTo(key)) && Within(m, RefTo(key), {CodeName(key)})
    ensures Close(m, RefTo(key)) == Obj(map["$ref" := Str(CLOSED + key)])
  {
    hide KeywordKind, CodeName, RefKey, Close;
    PlainSpellings();
    RefKeyOf(key);
    ClosedAlone(m, "$ref", Str(PREFIX + key));
    var root := RefTo(key);
    forall n | Mentions(m, root, n) ensures n == CodeName(key) {
      var k :| k in root.fields && MentionsIn(m, k, root.fields[k], n);
    }
    assert root.fields["$ref"] == Str(PREFIX + key);
  }

  lemma TrapLeads(key: string)
    requires Tokens(key).Some? && |Tokens(key).value| > 1
    ensures Resolve(Source(Trap(key)), PREFIX + key) == Some(ANYTHING)
  {
    hide KeywordKind, Tokens, CodeName;
    var t, doc := Tokens(key).value, Source(Trap(key));
    LongerThanFirst(key);
    SourceTokens(key);
    NestLeads(t[1..]);
    var path := ["components", "schemas"] + t;
    assert path[1..] == ["schemas"] + t && path[1..][1..] == t;
    assert Navigate(doc.fields["components"].fields["schemas"], t) == Some(ANYTHING);
    assert Navigate(doc.fields["components"], path[1..]) == Some(ANYTHING);
  }

  /** The source reference is resolved, the closed one dangles. */
  lemma TrapDangles(m: Mode, key: string)
    requires m.kind == KeywordKind && Tokens(key).Some? && |Tokens(key).value| > 1
    ensures Resolve(Bundle(m, Trap(key), RefTo(key)), CLOSED + key).None?
  {
    hide KeywordKind, Tokens, CodeName, Close, Definitions, PartsFit, Navigate, Sound, Within;
    var t, comps := Tokens(key).value, Trap(key);
    LongerThanFirst(key);
    ClosedTokens(key);
    RefToParts(m, comps, key);
    LeadsToAnything(m, comps, RefTo(key), CodeName(key));
    var defs := Definitions(m, comps, RefTo(key));
    NotFound(WithDefs(Close(m, RefTo(key)), defs), defs, t);
  }

  lemma NotFound(doc: Json, defs: map<string, Json>, t: seq<string>)
    requires doc.Obj? && t != [] && t[0] !in defs
    requires "$defs" in doc.fields ==> doc.fields["$defs"] == Obj(defs)
    ensures Navigate(doc, ["$defs"] + t).None?
  {
    assert (["$defs"] + t)[1..] == t;
  }

  lemma ResolvedRef(fuel: nat, ref: string, inst: Json, rd: Reading, w: World)
    requires fuel > 0
    ensures Valid(fuel, Obj(map["$ref" := Str(ref)]), inst, rd, w) <==>
      Resolve(rd.doc, ref).Some? && Valid(fuel - 1, Resolve(rd.doc, ref).value, inst, rd, w)
  {
    hide WordOf, Resolve, KeywordKind;
    SpellingsKnown();
    ValidAlone(fuel, "$ref", Str(ref), inst, rd, w);
  }

  lemma TrapCatches(m: Mode, key: string)
    requires m.kind == KeywordKind && Tokens(key).Some? && |Tokens(key).value| > 1
    ensures PartsFit(m, Trap(key), RefTo(key)) && !Faithful(m, Trap(key), RefTo(key))
  {
    hide KeywordKind, CodeName, Tokens, Close, Bundle, Resolve, PartsFit, Valid, Source, Sound, Within;
    var comps, root := Trap(key), RefTo(key);
    LongerThanFirst(key);
    RefToParts(m, comps, key);
    LeadsToAnything(m, comps, root, CodeName(key));
    TrapLeads(key);
    TrapDangles(m, key);
    var src, dst := Reading(Source(comps), true), Reading(Bundle(m, comps, root), false);
    ResolvedRef(1, PREFIX + key, Null, src, STRICT);
    AnythingValid(Null, src, STRICT);
    ResolvedRef(1, CLOSED + key, Null, dst, STRICT);
    BundleValid(m, comps, root, 1, Null, STRICT);
    assert !FaithfulAt(m, comps, root, 1, Null, STRICT);
  }

  /** A reference with a bad escape is resolved by neither reading. */
  lemma BadEscapeIsFaithful(m: Mode, comps: map<string, Schema>, key: string)
    requires m.kind == KeywordKind && Tokens(key).None? && PartsFit(m, comps, RefTo(key))
    ensures Faithful(m, comps, RefTo(key))
  {
    hide KeywordKind, WordOf, CodeName, Close, Tokens, Definitions, WithDefs;
    SpellingsKnown();
    assert CodeName(key) in comps by {
      RefKeyOf(key);
      assert SoundIn(m, comps.Keys, "$ref", RefTo(key).fields["$ref"]);
    }
    RefToParts(m, comps, key);
    forall fuel: nat, inst, w ensures FaithfulAt(m, comps, RefTo(key), fuel, inst, w) {
      var src, dst := Reading(Source(comps), true), Reading(Bundle(m, comps, RefTo(key)), false);
      Unreadable(src.doc, dst.doc, key);
      ValidAlone(fuel, "$ref", Str(PREFIX + key), inst, src, w);
      ValidAlone(fuel, "$ref", Str(CLOSED + key), inst, dst, w);
      BundleValid(m, comps, RefTo(key), fuel, inst, w);
    }
  }

  lemma Unreadable(src: Json, dst: Json, key: string)
    requires Tokens(key).None?
    ensures Resolve(src, PREFIX + key).None? && Resolve(dst, CLOSED + key).None?
  {
    hide Tokens;
    PrefixParts(key);
    NoTokens("schemas", key);
    NoTokens("components", "schemas" + "/" + key);
    NoTokens("$defs", key);
    assert (CLOSED + key)[2..] == "$defs" + "/" + key;
  }

  lemma {:induction false} NoTokens(p: string, q: string)
    requires '/' !in p && '~' !in p && Tokens(q).None?
    ensures Tokens(p + "/" + q).None?
  {
    if p == "" {
      assert ("" + "/" + q)[1..] == q;
    } else {
      NoTokens(p[1..], q);
      assert (p + "/" + q)[1..] == p[1..] + "/" + q;
    }
  }

  /** A reference means the same in the closed document, whatever the components, exactly when the part
      after the prefix is a single token, or cannot be read at all. */
  lemma ReferenceExact(input: bool, key: string)
    ensures AlwaysFaithful(Mode(KeywordKind, input), RefTo(key)) <==> SingleToken(key) || Tokens(key).None?
  {
    hide KeywordKind, PartsFit, Faithful, Fit, RefTo;
    var m := Mode(KeywordKind, input);
    if SingleToken(key) {
      RefFits(m, key);
      FitIsAlwaysFaithful(m, RefTo(key));
    } else if Tokens(key).None? {
      forall comps: map<string, Schema> | PartsFit(m, comps, RefTo(key)) ensures Faithful(m, comps, RefTo(key)) {
        BadEscapeIsFaithful(m, comps, key);
      }
    } else {
      if |Tokens(key).value| == 1 { OneTokenIsSingle(key); }
      TrapCatches(m, key);
    }
  }

  lemma RefFits(m: Mode, key: string)
    requires m.kind == KeywordKind && SingleToken(key)
    ensures Fit(m, RefTo(key))
  {
    hide KeywordKind, WordOf;
    SpellingsKnown();
    RefKeyOf(key);
  }

  // ------------------------------------------------------ beside a reference

  function Beside(key: string, k: string, v: Json): Schema {
    Obj(map["$ref" := Str(PREFIX + key), k := v])
  }

  lemma BesideParts(m: Mode, comps: map<string, Schema>, key: string, k: string, v: Json)
    requires m.kind == KeywordKind && Leaf(k) && CodeName(key) in comps
    ensures Sound(m, comps.Keys, Beside(key, k, v)) && Within(m, Beside(key, k, v), {CodeName(key)})
    ensures m.Keeps(k) ==> k in Close(m, Beside(key, k, v)).fields
    ensures m.Keeps(k) && k != "type" ==> Close(m, Beside(key, k, v)).fields[k] == v
  {
    hide KeywordKind, CodeName, RefKey;
    SpellingsKnown();
    RefKeyOf(key);
    var root := Beside(key, k, v);
    forall n | Mentions(m, root, n) ensures n == CodeName(key) {
      var x :| x in root.fields && MentionsIn(m, x, root.fields[x], n);
    }
    assert root.fields["$ref"] == Str(PREFIX + key) && root.fields[k] == v;
    if m.Keeps(k) { ClosedField(m, root, k); }
  }

  lemma BesideFits(m: Mode, key: string, k: string, v: Json)
    requires m.kind == KeywordKind && Leaf(k) && SingleToken(key) && Idle(m, k, v)
    ensures Fit(m, Beside(key, k, v))
  {
    hide KeywordKind, AllTypes;
    SpellingsKnown();
    RefKeyOf(key);
    LeafWords(k);
  }

  /** A value that a list of types leaves out. */
  function Missed(v: Json): Json {
    if v.Str? then (if v.s == "null" then Bool(true) else Null)
    else if !v.Arr? || Str("null") !in v.items then Null
    else if Str("boolean") !in v.items then Bool(true)
    else if Str("number") !in v.items then Num(0.5)
    else if Str("string") !in v.items then Str("")
    else if Str("array") !in v.items then Arr([])
    else Obj(map[])
  }

  lemma MissedIsMissed(v: Json)
    requires !AllTypes(v)
    ensures !TypeAllows(v, Missed(v))
  {
    var inst := Missed(v);
    if v.Arr? {
      forall i | 0 <= i < |v.items| && v.items[i].Str? ensures !IsType(v.items[i].s, inst) {
        assert v.items[i] in v.items;
        assert v.items[i] == Str(v.items[i].s);
      }
    }
  }

  lemma ClosedTypeBeside(m: Mode, key: string, v: Json)
    requires m.kind == KeywordKind
    ensures "type" in Close(m, Beside(key, "type", v)).fields && Close(m, Beside(key, "type", v)).fields["type"] == v
  {
    hide KeywordKind;
    SpellingsKnown();
    assert Beside(key, "type", v).fields["type"] == v;
  }

  /** A world in which every assertion rejects. */
  const STRICT: World := World((_, _, _) => false, (_, _) => false, true)

  lemma SourceIgnores(key: string, k: string, v: Json, inst: Json)
    requires SingleToken(key) && k != "$ref"
    ensures var comps: map<string, Schema> := map[CodeName(key) := ANYTHING];
      Valid(1, Beside(key, k, v), inst, Reading(Source(comps), true), STRICT)
  {
    hide KeywordKind, WordOf, CodeName, WithDefs, Resolve, Source, SingleToken;
    var comps: map<string, Schema> := map[CodeName(key) := ANYTHING];
    SpellingsKnown();
    ReferencesResolve(comps, ANYTHING, comps, key);
    AnythingValid(inst, Reading(Source(comps), true), STRICT);
    var root := Beside(key, k, v);
    assert root.fields["$ref"] == Str(PREFIX + key);
    assert Holds(1, root, "$ref", inst, Reading(Source(comps), true), STRICT);
  }

  lemma ClosedEnforces(m: Mode, comps: map<string, Schema>, key: string, k: string, v: Json, rd: Reading)
    requires m.kind == KeywordKind && Leaf(k) && !Idle(m, k, v) && !rd.openApi && CodeName(key) in comps
    ensures !Valid(1, Close(m, Beside(key, k, v)), Missed(v), rd, STRICT)
  {
    hide KeywordKind, WordOf, CodeName, Close, AllTypes, Missed, TypeAllows, Leaf, Beside;
    LeafWords(k);
    BesideParts(m, comps, key, k, v);
    if k == "type" {
      MissedIsMissed(v);
      ClosedTypeBeside(m, key, v);
    }
    assert !Holds(1, Close(m, Beside(key, k, v)), k, Missed(v), rd, STRICT) && Counts(Close(m, Beside(key, k, v)), k, rd);
  }

  /** The source ignores the keyword, the closed schema enforces it. */
  lemma BesideRejects(m: Mode, key: string, k: string, v: Json)
    requires m.kind == KeywordKind && Leaf(k) && SingleToken(key) && !Idle(m, k, v)
    ensures var comps: map<string, Schema> := map[CodeName(key) := ANYTHING];
      PartsFit(m, comps, Beside(key, k, v)) && !Faithful(m, comps, Beside(key, k, v))
  {
    hide KeywordKind, WordOf, CodeName, Close, Definitions, Bundle, PartsFit, Missed, Idle, Beside, Valid, Source, Sound, Within,
         SingleToken;
    var comps: map<string, Schema> := map[CodeName(key) := ANYTHING];
    var root := Beside(key, k, v);
    BesideParts(m, comps, key, k, v);
    LeadsToAnything(m, comps, root, CodeName(key));
    SpellingsKnown();
    SourceIgnores(key, k, v, Missed(v));
    ClosedEnforces(m, comps, key, k, v, Reading(Bundle(m, comps, root), false));
    BundleValid(m, comps, root, 1, Missed(v), STRICT);
    assert !FaithfulAt(m, comps, root, 1, Missed(v), STRICT);
  }

  /** OpenAPI ignores what stands beside a `$ref`. For a keyword that holds no schema the closed document
      agrees, whatever the components, exactly when it is left out or can never reject. */
  lemma SiblingExact(input: bool, key: string, k: string, v: Json)
    requires SingleToken(key) && Leaf(k)
    ensures AlwaysFaithful(Mode(KeywordKind, input), Beside(key, k, v)) <==>
      KeywordKind(k) == Nullable || (input && KeywordKind(k) == Dropped) || WordOf(k) == Silent || (k == "type" && AllTypes(v))
  {
    hide KeywordKind, WordOf, PartsFit, Faithful, Fit, Beside, Leaf, AllTypes;
    var m := Mode(KeywordKind, input);
    if Idle(m, k, v) {
      BesideFits(m, key, k, v);
      FitIsAlwaysFaithful(m, Beside(key, k, v));
    } else {
      BesideRejects(m, key, k, v);
    }
  }

  // ------------------------------------------------------ dropped assertions

  /** No assertion that input mode would drop, at any depth that the walk looks into. */
  predicate Undropped(s: Json)
    decreases s, 0
  {
    s.Obj? ==> forall k :: k in s.fields ==> KeywordKind(k) != Dropped && UndroppedIn(k, s.fields[k])
  }

  predicate UndroppedIn(k: string, v: Json)
    decreases v, 1
  {
    match KeywordKind(k)
    case ChildMap => v.Obj? ==> forall n :: n in v.fields ==> Undropped(v.fields[n])
    case Child => Undropped(v)
    case ChildList => v.Arr? ==> forall i :: 0 <= i < |v.items| ==> Undropped(v.items[i])
    case _ => true
  }

  const IN: Mode := Mode(KeywordKind, true)
  const OUT: Mode := Mode(KeywordKind, false)

  lemma {:induction false} UndroppedCloses(s: Json)
    requires Undropped(s)
    ensures Close(IN, s) == Close(OUT, s)
    decreases s, 0
  {
    hide KeywordKind;
    if s.Obj? {
      forall k | k in s.fields
        ensures IN.Keeps(k) == OUT.Keeps(k) && CloseIn(IN, k, s.fields[k]) == CloseIn(OUT, k, s.fields[k])
      {
        UndroppedClosesIn(k, s.fields[k]);
      }
      assert (map k | k in s.fields && IN.Keeps(k) :: CloseIn(IN, k, s.fields[k]))
          == (map k | k in s.fields && OUT.Keeps(k) :: CloseIn(OUT, k, s.fields[k]));
    }
  }

  lemma {:induction false} UndroppedClosesIn(k: string, v: Json)
    requires UndroppedIn(k, v)
    ensures CloseIn(IN, k, v) == CloseIn(OUT, k, v)
    decreases v, 1
  {
    hide KeywordKind;
    match KeywordKind(k)
    case ChildMap =>
      if v.Obj? {
        forall n | n in v.fields ensures Close(IN, v.fields[n]) == Close(OUT, v.fields[n]) { UndroppedCloses(v.fields[n]); }
      }
    case Child => UndroppedCloses(v);
    case ChildList =>
      if v.Arr? {
        forall i | 0 <= i < |v.items| ensures Close(IN, v.items[i]) == Close(OUT, v.items[i]) { UndroppedCloses(v.items[i]); }
        assert CloseIn(IN, k, v).items == CloseIn(OUT, k, v).items;
      }
    case _ =>
  }

  lemma {:induction false} SameMentions(s: Json, n: string)
    ensures Mentions(IN, s, n) == Mentions(OUT, s, n)
    decreases s, 0
  {
    hide KeywordKind;
    if s.Obj? {
      forall k | k in s.fields ensures MentionsIn(IN, k, s.fields[k], n) == MentionsIn(OUT, k, s.fields[k], n) {
        SameMentionsIn(k, s.fields[k], n);
      }
    }
  }

  lemma {:induction false} SameMentionsIn(k: string, v: Json, n: string)
    ensures MentionsIn(IN, k, v, n) == MentionsIn(OUT, k, v, n)
    decreases v, 1
  {
    hide KeywordKind;
    match KeywordKind(k)
    case ChildMap =>
      if v.Obj? {
        forall c | c in v.fields ensures Mentions(IN, v.fields[c], n) == Mentions(OUT, v.fields[c], n) {
          SameMentions(v.fields[c], n);
        }
      }
    case Child => SameMentions(v, n);
    case ChildList =>
      if v.Arr? {
        forall i | 0 <= i < |v.items| ensures Mentions(IN, v.items[i], n) == Mentions(OUT, v.items[i], n) {
          SameMentions(v.items[i], n);
        }
      }
    case _ =>
  }

  lemma {:induction false} SameVia(comps: map<string, Schema>, s: Json, path: seq<string>, n: string)
    ensures Via(IN, comps, s, path, n) == Via(OUT, comps, s, path, n)
    decreases path
  {
    hide KeywordKind, Mentions;
    SameMentions(s, if path == [] then n else path[0]);
    if path != [] && path[0] in comps { SameVia(comps, comps[path[0]], path[1..], n); }
  }

  lemma SameReach(comps: map<string, Schema>, s: Json, n: string)
    ensures Reaches(IN, comps, s, n) == Reaches(OUT, comps, s, n)
  {
    hide Via;
    if path :| Via(IN, comps, s, path, n) { SameVia(comps, s, path, n); }
    if path :| Via(OUT, comps, s, path, n) { SameVia(comps, s, path, n); }
  }

  ghost predicate NothingDropped(comps: map<string, Schema>, root: Schema) {
    Undropped(root) && forall n :: n in comps && Reaches(OUT, comps, root, n) ==> Undropped(comps[n])
  }

  /** When there is nothing to drop, both modes give the same document, below `not` and `oneOf` too, so that
      input mode keeps the meaning both ways. */
  lemma NothingDroppedKeepsMeaning(comps: map<string, Schema>, root: Schema, fuel: nat, inst: Json, w: World)
    requires NothingDropped(comps, root) && Closable(OUT, comps, root) && AllFit(OUT, comps, root)
    ensures Bundle(IN, comps, root) == Bundle(OUT, comps, root)
    ensures Valid(fuel, Bundle(IN, comps, root), inst, Reading(Bundle(IN, comps, root), false), w) <==>
            Valid(fuel, root, inst, Reading(Source(comps), true), w)
  {
    hide KeywordKind, Close, Reaches, Undropped, Closable, AllFit, Valid, Source, WithDefs;
    UndroppedCloses(root);
    forall n | n in comps
      ensures Reaches(IN, comps, root, n) == Reaches(OUT, comps, root, n)
      ensures Reaches(OUT, comps, root, n) ==> Close(IN, comps[n]) == Close(OUT, comps[n])
    {
      SameReach(comps, root, n);
      if Reaches(OUT, comps, root, n) { UndroppedCloses(comps[n]); }
    }
    assert Definitions(IN, comps, root) == Definitions(OUT, comps, root);
    OutputMeaningKept(comps, root, fuel, inst, w);
  }

  /** A schema of keywords that look at the value alone. */
  predicate Flat(s: Json) {
    s.Obj? && forall k :: k in s.fields ==> Leaf(k) && k != "type"
  }

  lemma NotParts(s: Schema)
    requires Flat(s)
    ensures var root := Obj(map["not" := s]);
      && Closable(OUT, map[], root) && Fit(OUT, root)
      && ((forall x :: x in s.fields ==> KeywordKind(x) != Dropped) ==> Undropped(root))
      && Bundle(IN, map[], root) == Obj(map["not" := Close(IN, s)])
  {
    hide KeywordKind, WordOf;
    SpellingsKnown();
    FlatSound(s);
    Alone("not", s);
  }

  lemma OneOfParts(s: Schema)
    requires Flat(s)
    ensures var root := Obj(map["oneOf" := Arr([s, ANYTHING])]);
      && Closable(OUT, map[], root) && Fit(OUT, root)
      && ((forall x :: x in s.fields ==> KeywordKind(x) != Dropped) ==> Undropped(root))
      && Bundle(IN, map[], root) == Obj(map["oneOf" := Arr([Close(IN, s), ANYTHING])])
  {
    hide KeywordKind, WordOf, Sound, Fit, Undropped, Close, Flat, SoundIn, FitIn, UndroppedIn, CloseIn, Closable, Bundle;
    SpellingsKnown();
    FlatSound(s);
    AnythingFine();
    PairIn(s, ANYTHING);
    Alone("oneOf", Arr([s, ANYTHING]));
  }

  lemma AnythingFine()
    ensures Sound(OUT, {}, ANYTHING) && Fit(OUT, ANYTHING) && Undropped(ANYTHING) && Close(IN, ANYTHING) == ANYTHING
  {
  }

  /** Two alternatives. */
  lemma PairIn(s: Schema, t: Schema)
    ensures var v := Arr([s, t]);
      && (Sound(OUT, {}, s) && Sound(OUT, {}, t) ==> SoundIn(OUT, {}, "oneOf", v))
      && (Fit(OUT, s) && Fit(OUT, t) ==> FitIn(OUT, "oneOf", v))
      && (Undropped(s) && Undropped(t) ==> UndroppedIn("oneOf", v))
      && CloseIn(IN, "oneOf", v) == Arr([Close(IN, s), Close(IN, t)])
  {
    hide KeywordKind, WordOf, Sound, Fit, Undropped, Close;
    SpellingsKnown();
    var v := Arr([s, t]);
    assert CloseIn(IN, "oneOf", v).items == [Close(IN, s), Close(IN, t)];
  }

  /** A schema of one keyword, without components. */
  lemma Alone(k: string, v: Json)
    requires IN.Keeps(k) && k != "type" && k != "$ref"
    ensures SoundIn(OUT, {}, k, v) ==> Closable(OUT, map[], Obj(map[k := v]))
    ensures FitIn(OUT, k, v) ==> Fit(OUT, Obj(map[k := v]))
    ensures KeywordKind(k) != Dropped && UndroppedIn(k, v) ==> Undropped(Obj(map[k := v]))
    ensures Bundle(IN, map[], Obj(map[k := v])) == Obj(map[k := CloseIn(IN, k, v)])
  {
    hide KeywordKind, SoundIn, FitIn, CloseIn, UndroppedIn, Reaches;
    var root, none: map<string, Schema> := Obj(map[k := v]), map[];
    assert root.fields[k] == v && none.Keys == {};
    assert Definitions(IN, none, root) == map[];
    ClosedAlone(IN, k, v);
  }

  lemma ClosedAlone(m: Mode, k: string, v: Json)
    requires m.Keeps(k) && k != "type"
    ensures Close(m, Obj(map[k := v])) == Obj(map[k := CloseIn(m, k, v)])
  {
    hide CloseIn;
    var s := Obj(map[k := v]);
    assert s.fields[k] == v;
  }

  lemma FlatSound(s: Schema)
    requires Flat(s)
    ensures Sound(OUT, {}, s) && Fit(OUT, s)
    ensures (forall x :: x in s.fields ==> KeywordKind(x) != Dropped) ==> Undropped(s)
  {
    hide KeywordKind, WordOf;
    SpellingsKnown();
    forall k | k in s.fields
      ensures SoundIn(OUT, {}, k, s.fields[k]) && FitIn(OUT, k, s.fields[k]) && UndroppedIn(k, s.fields[k])
    {
      LeafWords(k);
    }
  }

  /** A world in which one keyword rejects and all others accept. */
  function Only(k: string): World {
    World((word, _, _) => word != k, (_, _) => false, true)
  }

  lemma FlatVerdicts(s: Schema, k: string, rd: Reading, rd': Reading)
    requires Flat(s) && k in s.fields && KeywordKind(k) == Dropped
    ensures !Valid(0, s, Null, rd, Only(k)) && Valid(0, Close(IN, s), Null, rd', Only(k))
  {
    hide KeywordKind, WordOf, Close;
    SpellingsKnown();
    LeafWords(k);
    assert !Holds(0, s, k, Null, rd, Only(k)) && Counts(s, k, rd);
    ClosedKeys(IN, s);
    forall x | x in Close(IN, s).fields ensures Holds(0, Close(IN, s), x, Null, rd', Only(k)) {
      LeafWords(x);
      assert x != k;
    }
  }

  /** In input mode, `not` over keywords that look at the value alone lets through whatever the service may
      accept exactly when none of them is an assertion that input mode drops. */
  lemma NotExact(s: Schema)
    requires Flat(s)
    ensures Faithful(IN, map[], Obj(map["not" := s])) <==> forall k :: k in s.fields ==> KeywordKind(k) != Dropped
  {
    hide KeywordKind, WordOf, Flat, Valid, Close, Bundle, Source, Closable, Fit, Undropped;
    var root := Obj(map["not" := s]);
    NotParts(s);
    if forall k :: k in s.fields ==> KeywordKind(k) != Dropped {
      NoComponentsDropped(root);
    } else {
      var k :| k in s.fields && KeywordKind(k) == Dropped;
      var src, dst := Reading(Source(map[]), true), Reading(Bundle(IN, map[], root), false);
      FlatVerdicts(s, k, src, dst);
      SpellingsKnown();
      ValidAlone(0, "not", s, Null, src, Only(k));
      ValidAlone(0, "not", Close(IN, s), Null, dst, Only(k));
      assert !FaithfulAt(IN, map[], root, 0, Null, Only(k));
    }
  }

  /** Exactly one of a schema and one that accepts anything. */
  lemma OneOfAnything(s: Schema, inst: Json, rd: Reading, w: World)
    ensures Valid(0, Obj(map["oneOf" := Arr([s, ANYTHING])]), inst, rd, w) <==> !Valid(0, s, inst, rd, w)
  {
    hide WordOf, KeywordKind, Valid;
    var both := [s, ANYTHING];
    SpellingsKnown();
    ValidAlone(0, "oneOf", Arr(both), inst, rd, w);
    AnythingValid(inst, rd, w);
    var b := seq(2, i requires 0 <= i < 2 => Valid(0, both[i], inst, rd, w));
    assert b[0] == Valid(0, s, inst, rd, w) && b[1];
  }

  /** And so does `oneOf` of such a schema and one that accepts anything. */
  lemma OneOfExact(s: Schema)
    requires Flat(s)
    ensures Faithful(IN, map[], Obj(map["oneOf" := Arr([s, ANYTHING])])) <==>
      forall k :: k in s.fields ==> KeywordKind(k) != Dropped
  {
    hide KeywordKind, WordOf, Flat, Valid, Close, Bundle, Source, Closable, Fit, Undropped;
    var both := [s, ANYTHING];
    var root := Obj(map["oneOf" := Arr(both)]);
    OneOfParts(s);
    if forall k :: k in s.fields ==> KeywordKind(k) != Dropped {
      NoComponentsDropped(root);
    } else {
      var k :| k in s.fields && KeywordKind(k) == Dropped;
      var src, dst := Reading(Source(map[]), true), Reading(Bundle(IN, map[], root), false);
      FlatVerdicts(s, k, src, dst);
      OneOfAnything(s, Null, src, Only(k));
      OneOfAnything(Close(IN, s), Null, dst, Only(k));
      assert !FaithfulAt(IN, map[], root, 0, Null, Only(k));
    }
  }

  lemma NoComponentsDropped(root: Schema)
    requires Undropped(root) && Closable(OUT, map[], root) && Fit(OUT, root)
    ensures Faithful(IN, map[], root)
  {
    hide KeywordKind, Undropped, Closable, Fit, Valid, Bundle, Source;
    forall fuel: nat, inst, w ensures FaithfulAt(IN, map[], root, fuel, inst, w) {
      NothingDroppedKeepsMeaning(map[], root, fuel, inst, w);
    }
  }

  lemma AnythingValid(inst: Json, rd: Reading, w: World)
    ensures Valid(0, ANYTHING, inst, rd, w)
  {
  }
}
