/** What a schema accepts, and that closing it does not change that. */
module SchemaMeaning {
  import opened Prelude
  import opened JsonPointer
  import opened SchemaClose

  /** The parts of validation that closing a schema has no say in: keywords that look at the value
      alone, regular expressions, and the verdict where a chain of references is cut off. */
  datatype World = World(assertion: (string, Json, Json) -> bool, matches: (string, string) -> bool, limit: bool)

  /** References are resolved in `doc`. OpenAPI 3.0.3 gives `nullable` a meaning (section 4.7.24) and
      ignores what stands beside a `$ref` (section 4.7.23); JSON Schema does neither. */
  datatype Reading = Reading(doc: Json, openApi: bool)

  datatype Word =
    | RefWord | TypeWord | Silent | Properties | Patterns | Additional | Items | Not | AllOf | AnyOf | OneOf | Assertion

  function WordOf(k: string): Word {
    if k == "$ref" then RefWord
    else if k == "type" then TypeWord
    else if k == "nullable" || k == "$defs" then Silent
    else if k == "properties" then Properties
    else if k == "patternProperties" then Patterns
    else if k == "additionalProperties" then Additional
    else if k == "items" then Items
    else if k == "not" then Not
    else if k == "allOf" then AllOf
    else if k == "anyOf" then AnyOf
    else if k == "oneOf" then OneOf
    else Assertion
  }

  predicate IsType(t: string, inst: Json) {
    match inst
    case Null => t == "null"
    case Bool(_) => t == "boolean"
    case Num(n) => t == "number" || (t == "integer" && n == n.Floor as real)
    case Str(_) => t == "string"
    case Arr(_) => t == "array"
    case Obj(_) => t == "object"
  }

  predicate TypeAllows(v: Json, inst: Json) {
    || (v.Str? && IsType(v.s, inst))
    || (v.Arr? && exists i :: 0 <= i < |v.items| && v.items[i].Str? && IsType(v.items[i].s, inst))
  }

  /** Names that `properties` or `patternProperties` of the same schema speak about. */
  predicate Named(s: Json, n: string, w: World)
    requires s.Obj?
  {
    || ("properties" in s.fields && s.fields["properties"].Obj? && n in s.fields["properties"].fields)
    || ("patternProperties" in s.fields && s.fields["patternProperties"].Obj? &&
        exists p :: p in s.fields["patternProperties"].fields && w.matches(p, n))
  }

  predicate MadeNullable(s: Json)
    requires s.Obj?
  {
    "nullable" in s.fields && s.fields["nullable"] == Bool(true)
  }

  predicate Counts(s: Json, k: string, rd: Reading)
    requires s.Obj?
  {
    rd.openApi && "$ref" in s.fields ==> k == "$ref"
  }

  predicate AtLeastOne(b: seq<bool>) {
    exists i :: 0 <= i < |b| && b[i]
  }

  predicate ExactlyOne(b: seq<bool>) {
    exists i :: 0 <= i < |b| && b[i] && forall j :: 0 <= j < |b| && b[j] ==> i == j
  }

  /** The value satisfies the schema, following at most `fuel` references in a row. */
  predicate Valid(fuel: nat, s: Json, inst: Json, rd: Reading, w: World)
    decreases fuel, s, 2
  {
    s.Obj? && forall k :: k in s.fields && Counts(s, k, rd) ==> Holds(fuel, s, k, inst, rd, w)
  }

  /** A schema or one of the constants `true` and `false`. */
  predicate ChildValid(fuel: nat, s: Json, inst: Json, rd: Reading, w: World)
    decreases fuel, s, 3
  {
    match s
    case Bool(b) => b
    case Obj(_) => Valid(fuel, s, inst, rd, w)
    case _ => w.assertion("", s, inst)
  }

  predicate Holds(fuel: nat, s: Json, k: string, inst: Json, rd: Reading, w: World)
    requires s.Obj? && k in s.fields
    decreases fuel, s, 1
  {
    var v := s.fields[k];
    match WordOf(k)
    case RefWord =>
      v.Str? && var t := Resolve(rd.doc, v.s);
      t.Some? && if fuel == 0 then w.limit else Valid(fuel - 1, t.value, inst, rd, w)
    case TypeWord => TypeAllows(v, inst) || (rd.openApi && v.Str? && MadeNullable(s) && inst.Null?)
    case Silent => true
    case Properties =>
      v.Obj? && (inst.Obj? ==> forall n :: n in inst.fields && n in v.fields ==>
        Valid(fuel, v.fields[n], inst.fields[n], rd, w))
    case Patterns =>
      v.Obj? && (inst.Obj? ==> forall n, p :: n in inst.fields && p in v.fields && w.matches(p, n) ==>
        Valid(fuel, v.fields[p], inst.fields[n], rd, w))
    case Additional =>
      inst.Obj? ==> forall n :: n in inst.fields && !Named(s, n, w) ==> ChildValid(fuel, v, inst.fields[n], rd, w)
    case Items => inst.Arr? ==> forall i :: 0 <= i < |inst.items| ==> ChildValid(fuel, v, inst.items[i], rd, w)
    case Not => !ChildValid(fuel, v, inst, rd, w)
    case AllOf => v.Arr? && forall i :: 0 <= i < |v.items| ==> Valid(fuel, v.items[i], inst, rd, w)
    case AnyOf =>
      v.Arr? && AtLeastOne(seq(|v.items|, i requires 0 <= i < |v.items| => Valid(fuel, v.items[i], inst, rd, w)))
    case OneOf =>
      v.Arr? && ExactlyOne(seq(|v.items|, i requires 0 <= i < |v.items| => Valid(fuel, v.items[i], inst, rd, w)))
    case Assertion => w.assertion(k, v, inst)
  }

  // ------------------------------------------------- when meaning is kept

  /** A list of type names that admits every value. */
  predicate AllTypes(v: Json) {
    && v.Arr?
    && Str("null") in v.items && Str("boolean") in v.items && Str("number") in v.items
    && Str("string") in v.items && Str("array") in v.items && Str("object") in v.items
  }

  /** A keyword beside `$ref` that cannot matter: it is left out, or never rejects. */
  predicate Idle(m: Mode, k: string, v: Json) {
    !m.Keeps(k) || WordOf(k) == Silent || (k == "type" && AllTypes(v))
  }

  /** A schema that reads the same in both dialects: references are single tokens, with nothing beside
      them that counts.
      Where assertions are dropped, nothing may turn acceptance into rejection. */
  predicate Fit(m: Mode, s: Json)
    decreases s, 0
  {
    && s.Obj?
    && ("$ref" in s.fields ==> forall k :: k in s.fields ==> k == "$ref" || Idle(m, k, s.fields[k]))
    && forall k :: k in s.fields ==> FitIn(m, k, s.fields[k])
  }

  predicate FitIn(m: Mode, k: string, v: Json)
    decreases v, 1
  {
    && (m.input ==> WordOf(k) != Not && WordOf(k) != OneOf)
    && match m.kind(k)
       case Ref => v.Str? && RefKey(v.s).Some? ==> SingleToken(RefKey(v.s).value)
       case ChildMap => v.Obj? ==> forall n :: n in v.fields ==> Fit(m, v.fields[n])
       case Child => v.Obj? ==> Fit(m, v)
       case ChildList => v.Arr? ==> forall i :: 0 <= i < |v.items| ==> Fit(m, v.items[i])
       case _ => true
  }

  /** Two readings in which references to `names` lead to a component and to its closed form; the source is
      read in the world `v`, the closed document in `w`. */
  datatype Link = Link(m: Mode, comps: map<string, Schema>, names: set<string>, src: Reading, dst: Reading,
                       v: World, w: World, exact: bool) {
    /** What must not occur: only where verdicts may differ is there a reason to forbid anything. */
    function Strict(): Mode { Mode(m.kind, !exact) }
  }

  /** The worlds differ in assertions that are dropped at most; where verdicts are to be equal, the source
      reads these as true. */
  ghost predicate Alike(l: Link) {
    && l.v.matches == l.w.matches && l.v.limit == l.w.limit
    && (forall k, val, inst :: !(l.m.input && l.m.kind(k) == Dropped) ==>
          l.v.assertion(k, val, inst) == l.w.assertion(k, val, inst))
    && (l.exact ==> forall k, val, inst :: l.m.input && l.m.kind(k) == Dropped ==> l.v.assertion(k, val, inst))
    && (l.exact || l.m.input)
  }

  ghost predicate Internal(l: Link, r: string) {
    RefKey(r).Some? && SingleToken(RefKey(r).value) && CodeName(RefKey(r).value) in l.names
  }

  ghost predicate Part(l: Link, s: Json) {
    Sound(l.m, l.comps.Keys, s) && Fit(l.Strict(), s) && Within(l.m, s, l.names)
  }

  ghost predicate Linked(l: Link) {
    && l.m.kind == KeywordKind && l.src.openApi && !l.dst.openApi && Alike(l)
    && l.names <= l.comps.Keys
    && (forall n :: n in l.names ==> Part(l, l.comps[n]))
    && forall r :: Internal(l, r) ==>
         && Resolve(l.src.doc, r) == Some(l.comps[CodeName(RefKey(r).value)])
         && Resolve(l.dst.doc, CLOSED + RefKey(r).value) == Some(Close(l.m, l.comps[CodeName(RefKey(r).value)]))
  }

  /** What closing may do to a verdict: nothing where it is to be exact, accept more elsewhere. */
  predicate Tallies(l: Link, before: bool, after: bool) {
    (before ==> after) && (l.exact ==> (after ==> before))
  }

  /** What dropping assertions may do to a verdict: nothing in output mode, accept more in input mode. */
  predicate Agrees(m: Mode, before: bool, after: bool) {
    (before ==> after) && (!m.input ==> (after ==> before))
  }

  lemma KindOfWord(k: string)
    ensures WordOf(k) == RefWord <==> KeywordKind(k) == Ref
    ensures WordOf(k) == Properties || WordOf(k) == Patterns <==> KeywordKind(k) == ChildMap
    ensures WordOf(k) == Additional || WordOf(k) == Items || WordOf(k) == Not <==> KeywordKind(k) == Child
    ensures WordOf(k) == AllOf || WordOf(k) == AnyOf || WordOf(k) == OneOf <==> KeywordKind(k) == ChildList
  {
  }

  lemma WordOfKind(k: string)
    ensures KeywordKind(k) == Nullable ==> WordOf(k) == Silent
    ensures KeywordKind(k) == Dropped ==> WordOf(k) == Assertion
    ensures WordOf(k) == TypeWord <==> k == "type"
  {
  }

  lemma ClosedField(m: Mode, s: Schema, k: string)
    requires k in s.fields && m.Keeps(k)
    ensures k in Close(m, s).fields
    ensures k != "type" ==> Close(m, s).fields[k] == CloseIn(m, k, s.fields[k])
  {
  }

  lemma ClosedKeys(m: Mode, s: Schema)
    ensures forall k :: k in Close(m, s).fields <==> k in s.fields && m.Keeps(k)
  {
  }

  lemma NamedSame(m: Mode, s: Schema, n: string, w: World)
    requires m.kind("properties") == m.kind("patternProperties") == ChildMap
    ensures Named(Close(m, s), n, w) == Named(s, n, w)
  {
    hide Close;
    if "properties" in s.fields { ClosedField(m, s, "properties"); }
    if "patternProperties" in s.fields { ClosedField(m, s, "patternProperties"); }
    ClosedKeys(m, s);
  }

  lemma NamedMatches(s: Schema, n: string, v: World, w: World)
    requires v.matches == w.matches
    ensures Named(s, n, v) == Named(s, n, w)
  {
  }

  // ---------------------------------------------- parts of what is closed

  lemma PartAlone(l: Link, s: Json)
    requires Part(l, s)
    ensures s.Obj? && ("$ref" in s.fields ==> forall k :: k in s.fields ==> k == "$ref" || Idle(l.Strict(), k, s.fields[k]))
    ensures forall k :: k in s.fields ==> SoundIn(l.m, l.comps.Keys, k, s.fields[k]) && FitIn(l.Strict(), k, s.fields[k])
  {
  }

  lemma Words(l: Link, k: string)
    requires Linked(l)
    ensures l.src.openApi && !l.dst.openApi
    ensures WordOf(k) == RefWord <==> l.m.kind(k) == Ref
    ensures WordOf(k) == Properties || WordOf(k) == Patterns <==> l.m.kind(k) == ChildMap
    ensures WordOf(k) == Additional || WordOf(k) == Items || WordOf(k) == Not <==> l.m.kind(k) == Child
    ensures WordOf(k) == AllOf || WordOf(k) == AnyOf || WordOf(k) == OneOf <==> l.m.kind(k) == ChildList
    ensures l.m.kind(k) == Nullable ==> WordOf(k) == Silent
    ensures l.m.kind(k) == Dropped ==> WordOf(k) == Assertion
    ensures WordOf(k) == TypeWord <==> k == "type"
    ensures l.m.Keeps(k) ==> l.Strict().Keeps(k)
  {
    hide KeywordKind, WordOf;
    KindOfWord(k);
    WordOfKind(k);
  }

  lemma OnlyPart(l: Link, s: Json, k: string)
    requires Part(l, s) && k in s.fields && l.m.kind(k) == Child && s.fields[k].Obj?
    ensures Part(l, s.fields[k])
  {
    hide WordOf;
    var v := s.fields[k];
    assert SoundIn(l.m, l.comps.Keys, k, v) && FitIn(l.Strict(), k, v);
    forall c | Mentions(l.m, v, c) ensures c in l.names {
      assert MentionsIn(l.m, k, v, c);
    }
  }

  lemma MapPart(l: Link, s: Json, k: string, n: string)
    requires Part(l, s) && k in s.fields && l.m.kind(k) == ChildMap && s.fields[k].Obj? && n in s.fields[k].fields
    ensures Part(l, s.fields[k].fields[n])
  {
    hide WordOf;
    var v := s.fields[k];
    assert SoundIn(l.m, l.comps.Keys, k, v) && FitIn(l.Strict(), k, v);
    forall c | Mentions(l.m, v.fields[n], c) ensures c in l.names {
      assert MentionsIn(l.m, k, v, c);
    }
  }

  lemma ListPart(l: Link, s: Json, k: string, i: nat)
    requires Part(l, s) && k in s.fields && l.m.kind(k) == ChildList && s.fields[k].Arr? && i < |s.fields[k].items|
    ensures Part(l, s.fields[k].items[i])
  {
    hide WordOf;
    var v := s.fields[k];
    assert SoundIn(l.m, l.comps.Keys, k, v) && FitIn(l.Strict(), k, v);
    forall c | Mentions(l.m, v.items[i], c) ensures c in l.names {
      assert MentionsIn(l.m, k, v, c);
    }
  }

  // ------------------------------------------------------- the induction

  ghost predicate SameVerdict(l: Link, fuel: nat, s: Json, k: string, inst: Json) {
    var t := Close(l.m, s);
    && s.Obj? && k in s.fields && k in t.fields
    && Tallies(l, Holds(fuel, s, k, inst, l.src, l.v), Holds(fuel, t, k, inst, l.dst, l.w))
  }

  ghost predicate Kept(l: Link, s: Json, k: string) {
    Linked(l) && Part(l, s) && k in s.fields && l.m.Keeps(k)
  }

  lemma {:induction false} Same(l: Link, fuel: nat, s: Json, inst: Json)
    requires Linked(l) && Part(l, s)
    ensures Tallies(l, Valid(fuel, s, inst, l.src, l.v), Valid(fuel, Close(l.m, s), inst, l.dst, l.w))
    decreases fuel, s, 3
  {
    hide KeywordKind, WordOf, Close, Part, Linked, Holds, AllTypes;
    PartAlone(l, s);
    ClosedKeys(l.m, s);
    forall k | k in s.fields
      ensures l.m.Keeps(k) ==> SameVerdict(l, fuel, s, k, inst)
      ensures !l.m.Keeps(k) && l.exact ==> Holds(fuel, s, k, inst, l.src, l.v)
      ensures l.m.Keeps(k) && Idle(l.Strict(), k, s.fields[k]) ==> Holds(fuel, s, k, inst, l.src, l.v)
    {
      Words(l, k);
      if l.m.Keeps(k) && Idle(l.Strict(), k, s.fields[k]) { IdleHolds(l.Strict(), fuel, s, k, inst, l.src, l.v); }
      if l.m.Keeps(k) {
        SameHolds(l, fuel, s, k, inst);
      } else if l.exact {
        DroppedHolds(l, fuel, s, k, inst);
      }
    }
  }

  /** What is left out was silent, or is read as true. */
  lemma DroppedHolds(l: Link, fuel: nat, s: Schema, k: string, inst: Json)
    requires Linked(l) && l.exact && k in s.fields && !l.m.Keeps(k)
    ensures Holds(fuel, s, k, inst, l.src, l.v)
  {
    hide KeywordKind, WordOf, Part, Holds;
    Words(l, k);
    if l.m.kind(k) == Nullable {
      SilentHolds(fuel, s, k, inst, l.src, l.v);
    } else {
      AssertionHolds(fuel, s, k, inst, l.src, l.v);
    }
  }

  lemma WorldsAlike(l: Link)
    requires Linked(l)
    ensures l.v.matches == l.w.matches && l.v.limit == l.w.limit
    ensures forall k, val, inst :: l.m.Keeps(k) ==> l.v.assertion(k, val, inst) == l.w.assertion(k, val, inst)
    ensures forall val, inst :: l.v.assertion("", val, inst) == l.w.assertion("", val, inst)
  {
    hide Part;
    EmptyWord();
  }

  lemma EmptyWord()
    ensures KeywordKind("") == Plain
  {
  }

  lemma IdleHolds(m: Mode, fuel: nat, s: Schema, k: string, inst: Json, rd: Reading, w: World)
    requires k in s.fields && m.Keeps(k) && Idle(m, k, s.fields[k])
    ensures Holds(fuel, s, k, inst, rd, w)
  {
    hide WordOf;
    if WordOf(k) != Silent {
      TypeSpelled();
      EveryType(s.fields[k], inst);
    }
  }

  lemma TypeSpelled()
    ensures WordOf("type") == TypeWord
  {
  }

  /** The widest type name of a value. */
  function TypeName(inst: Json): string {
    match inst
    case Null => "null"
    case Bool(_) => "boolean"
    case Num(_) => "number"
    case Str(_) => "string"
    case Arr(_) => "array"
    case Obj(_) => "object"
  }

  lemma EveryType(v: Json, inst: Json)
    requires AllTypes(v)
    ensures TypeAllows(v, inst)
  {
    var name := TypeName(inst);
    var i :| 0 <= i < |v.items| && v.items[i] == Str(name);
    assert IsType(v.items[i].s, inst);
  }

  lemma {:induction false} SameChild(l: Link, fuel: nat, v: Json, inst: Json)
    requires Linked(l) && (v.Obj? ==> Part(l, v))
    ensures Tallies(l, ChildValid(fuel, v, inst, l.src, l.v), ChildValid(fuel, Close(l.m, v), inst, l.dst, l.w))
    decreases fuel, v, 4
  {
    hide Part, Valid, Linked;
    WorldsAlike(l);
    if v.Obj? { Same(l, fuel, v, inst); }
  }

  lemma {:induction false} SameHolds(l: Link, fuel: nat, s: Json, k: string, inst: Json)
    requires Kept(l, s, k)
    ensures SameVerdict(l, fuel, s, k, inst)
    decreases fuel, s, 2
  {
    hide KeywordKind, WordOf, Close, CloseIn, Part, Linked, Holds, Tallies;
    Words(l, k);
    match WordOf(k)
    case RefWord => SameRef(l, fuel, s, k, inst);
    case TypeWord => SameType(l, fuel, s, inst);
    case Silent => SameValue(l, fuel, s, k, inst);
    case Properties => SameProperties(l, fuel, s, k, inst);
    case Patterns => SamePatterns(l, fuel, s, k, inst);
    case Additional => SameAdditional(l, fuel, s, k, inst);
    case Items => SameItems(l, fuel, s, k, inst);
    case Not => SameNot(l, fuel, s, k, inst);
    case AllOf => SameAllOf(l, fuel, s, k, inst);
    case AnyOf => SameAnyOf(l, fuel, s, k, inst);
    case OneOf => SameOneOf(l, fuel, s, k, inst);
    case Assertion => SameValue(l, fuel, s, k, inst);
  }

  lemma SameValue(l: Link, fuel: nat, s: Json, k: string, inst: Json)
    requires Kept(l, s, k) && (WordOf(k) == Silent || WordOf(k) == Assertion)
    ensures SameVerdict(l, fuel, s, k, inst)
  {
    hide KeywordKind, WordOf, Close, CloseIn, Part, Linked, Holds;
    PartAlone(l, s);
    Words(l, k);
    WorldsAlike(l);
    ClosedField(l.m, s, k);
    if WordOf(k) == Silent {
      SilentHolds(fuel, s, k, inst, l.src, l.v);
      SilentHolds(fuel, Close(l.m, s), k, inst, l.dst, l.w);
    } else {
      ValueKept(l.m, k, s.fields[k]);
      AssertionHolds(fuel, s, k, inst, l.src, l.v);
      AssertionHolds(fuel, Close(l.m, s), k, inst, l.dst, l.w);
    }
  }

  lemma AssertionHolds(fuel: nat, s: Schema, k: string, inst: Json, rd: Reading, w: World)
    requires k in s.fields && WordOf(k) == Assertion
    ensures Holds(fuel, s, k, inst, rd, w) == w.assertion(k, s.fields[k], inst)
  {
    hide WordOf;
  }

  lemma ValueKept(m: Mode, k: string, v: Json)
    requires m.kind(k) != Ref && m.kind(k) != ChildMap && m.kind(k) != Child && m.kind(k) != ChildList
    ensures CloseIn(m, k, v) == v
  {
  }

  lemma SilentHolds(fuel: nat, s: Schema, k: string, inst: Json, rd: Reading, w: World)
    requires k in s.fields && WordOf(k) == Silent
    ensures Holds(fuel, s, k, inst, rd, w)
  {
    hide WordOf;
  }

  lemma {:induction false} SameRef(l: Link, fuel: nat, s: Json, k: string, inst: Json)
    requires Kept(l, s, k) && WordOf(k) == RefWord
    ensures SameVerdict(l, fuel, s, k, inst)
    decreases fuel, s, 1
  {
    hide KeywordKind, WordOf, Close, Part, Resolve, Valid;
    PartAlone(l, s);
    Words(l, k);
    ClosedField(l.m, s, k);
    WorldsAlike(l);
    var r := s.fields[k].s;
    var name := CodeName(RefKey(r).value);
    assert MentionsIn(l.m, k, s.fields[k], name);
    assert Internal(l, r) by { RefInternal(l, s, k); }
    if fuel > 0 { Same(l, fuel - 1, l.comps[name], inst); }
  }

  lemma RefInternal(l: Link, s: Json, k: string)
    requires Part(l, s) && k in s.fields && l.m.kind(k) == Ref
    ensures s.fields[k].Str? && Internal(l, s.fields[k].s)
  {
    hide WordOf, CodeName, SingleToken;
    assert SoundIn(l.m, l.comps.Keys, k, s.fields[k]) && FitIn(l.Strict(), k, s.fields[k]);
    assert MentionsIn(l.m, k, s.fields[k], CodeName(RefKey(s.fields[k].s).value));
  }

  lemma ClosedType(m: Mode, s: Schema)
    requires "type" in s.fields && m.Keeps("type") && CloseIn(m, "type", s.fields["type"]) == s.fields["type"]
    ensures Close(m, s).fields["type"] ==
      if MadeNullable(s) && s.fields["type"].Str? then Arr([s.fields["type"], Str("null")]) else s.fields["type"]
  {
    hide CloseIn;
  }

  lemma NullAdded(t: string, inst: Json)
    ensures TypeAllows(Arr([Str(t), Str("null")]), inst) <==> IsType(t, inst) || inst.Null?
  {
    var both := [Str(t), Str("null")];
    assert both[0].s == t && both[1].s == "null";
  }

  lemma SameType(l: Link, fuel: nat, s: Json, inst: Json)
    requires Kept(l, s, "type")
    ensures SameVerdict(l, fuel, s, "type", inst)
  {
    hide KeywordKind, WordOf, Part, Linked, Close, IsType, TypeAllows, MadeNullable;
    PartAlone(l, s);
    Words(l, "type");
    assert CloseIn(l.m, "type", s.fields["type"]) == s.fields["type"];
    ClosedType(l.m, s);
    ClosedKeys(l.m, s);
    if s.fields["type"].Str? {
      TypeByName(s.fields["type"].s, inst);
      NullAdded(s.fields["type"].s, inst);
    }
  }

  lemma TypeByName(t: string, inst: Json)
    ensures TypeAllows(Str(t), inst) <==> IsType(t, inst)
  {
  }

  lemma {:induction false} SameProperties(l: Link, fuel: nat, s: Json, k: string, inst: Json)
    requires Kept(l, s, k) && WordOf(k) == Properties
    ensures SameVerdict(l, fuel, s, k, inst)
    decreases fuel, s, 1
  {
    hide KeywordKind, WordOf, Close, Part, Valid, Linked;
    PartAlone(l, s);
    Words(l, k);
    ClosedField(l.m, s, k);
    var v := s.fields[k];
    if inst.Obj? {
      forall n | n in inst.fields && n in v.fields
        ensures Tallies(l, Valid(fuel, v.fields[n], inst.fields[n], l.src, l.v),
                       Valid(fuel, Close(l.m, v.fields[n]), inst.fields[n], l.dst, l.w))
      {
        MapPart(l, s, k, n);
        Same(l, fuel, v.fields[n], inst.fields[n]);
      }
    }
  }

  lemma {:induction false} SamePatterns(l: Link, fuel: nat, s: Json, k: string, inst: Json)
    requires Kept(l, s, k) && WordOf(k) == Patterns
    ensures SameVerdict(l, fuel, s, k, inst)
    decreases fuel, s, 1
  {
    hide KeywordKind, WordOf, Close, Part, Valid, Linked;
    PartAlone(l, s);
    Words(l, k);
    ClosedField(l.m, s, k);
    WorldsAlike(l);
    var v := s.fields[k];
    if inst.Obj? {
      forall n, p | n in inst.fields && p in v.fields
        ensures Tallies(l, Valid(fuel, v.fields[p], inst.fields[n], l.src, l.v),
                       Valid(fuel, Close(l.m, v.fields[p]), inst.fields[n], l.dst, l.w))
      {
        MapPart(l, s, k, p);
        Same(l, fuel, v.fields[p], inst.fields[n]);
      }
    }
  }

  lemma {:induction false} SameAdditional(l: Link, fuel: nat, s: Json, k: string, inst: Json)
    requires Kept(l, s, k) && WordOf(k) == Additional
    ensures SameVerdict(l, fuel, s, k, inst)
    decreases fuel, s, 1
  {
    hide KeywordKind, WordOf, Close, Part, ChildValid, Named, Linked;
    PartAlone(l, s);
    Words(l, k);
    ClosedField(l.m, s, k);
    WorldsAlike(l);
    var v := s.fields[k];
    if v.Obj? { OnlyPart(l, s, k); }
    if inst.Obj? {
      forall n | n in inst.fields
        ensures Named(Close(l.m, s), n, l.w) == Named(s, n, l.v)
        ensures Tallies(l, ChildValid(fuel, v, inst.fields[n], l.src, l.v),
                       ChildValid(fuel, Close(l.m, v), inst.fields[n], l.dst, l.w))
      {
        NamesKnown(l);
        NamedSame(l.m, s, n, l.w);
        NamedMatches(s, n, l.v, l.w);
        SameChild(l, fuel, v, inst.fields[n]);
      }
    }
  }

  lemma NamesKnown(l: Link)
    requires Linked(l)
    ensures l.m.kind("properties") == l.m.kind("patternProperties") == ChildMap
  {
  }

  lemma {:induction false} SameItems(l: Link, fuel: nat, s: Json, k: string, inst: Json)
    requires Kept(l, s, k) && WordOf(k) == Items
    ensures SameVerdict(l, fuel, s, k, inst)
    decreases fuel, s, 1
  {
    hide KeywordKind, WordOf, Close, Part, ChildValid, Linked;
    PartAlone(l, s);
    Words(l, k);
    ClosedField(l.m, s, k);
    var v := s.fields[k];
    if v.Obj? { OnlyPart(l, s, k); }
    if inst.Arr? {
      forall i | 0 <= i < |inst.items|
        ensures Tallies(l, ChildValid(fuel, v, inst.items[i], l.src, l.v),
                       ChildValid(fuel, Close(l.m, v), inst.items[i], l.dst, l.w))
      {
        SameChild(l, fuel, v, inst.items[i]);
      }
    }
  }

  lemma {:induction false} SameNot(l: Link, fuel: nat, s: Json, k: string, inst: Json)
    requires Kept(l, s, k) && WordOf(k) == Not
    ensures SameVerdict(l, fuel, s, k, inst)
    decreases fuel, s, 1
  {
    hide KeywordKind, WordOf, Close, Part, ChildValid, Linked;
    PartAlone(l, s);
    Words(l, k);
    ClosedField(l.m, s, k);
    assert l.exact;
    if s.fields[k].Obj? { OnlyPart(l, s, k); }
    SameChild(l, fuel, s.fields[k], inst);
  }

  /** Item by item, for the three keywords that combine a list. */
  lemma {:induction false} SameList(l: Link, fuel: nat, s: Json, k: string, inst: Json)
    requires Kept(l, s, k) && l.m.kind(k) == ChildList
    ensures s.fields[k].Arr? && k in Close(l.m, s).fields
    ensures var a, c := s.fields[k].items, Close(l.m, s).fields[k];
      c.Arr? && |c.items| == |a| && forall i :: 0 <= i < |a| ==>
        Tallies(l, Valid(fuel, a[i], inst, l.src, l.v), Valid(fuel, c.items[i], inst, l.dst, l.w))
    decreases fuel, s, 0
  {
    hide KeywordKind, WordOf, Close, Part, Valid, Linked;
    PartAlone(l, s);
    Words(l, k);
    ClosedField(l.m, s, k);
    var v := s.fields[k];
    forall i | 0 <= i < |v.items|
      ensures Tallies(l, Valid(fuel, v.items[i], inst, l.src, l.v),
                     Valid(fuel, Close(l.m, v.items[i]), inst, l.dst, l.w))
    {
      ListPart(l, s, k, i);
      Same(l, fuel, v.items[i], inst);
    }
  }

  lemma {:induction false} SameAllOf(l: Link, fuel: nat, s: Json, k: string, inst: Json)
    requires Kept(l, s, k) && WordOf(k) == AllOf
    ensures SameVerdict(l, fuel, s, k, inst)
    decreases fuel, s, 1
  {
    hide KeywordKind, WordOf, Close, Part, Valid, Linked, ExactlyOne;
    PartAlone(l, s);
    Words(l, k);
    SameList(l, fuel, s, k, inst);
  }

  lemma {:induction false} SameAnyOf(l: Link, fuel: nat, s: Json, k: string, inst: Json)
    requires Kept(l, s, k) && WordOf(k) == AnyOf
    ensures SameVerdict(l, fuel, s, k, inst)
    decreases fuel, s, 1
  {
    hide KeywordKind, WordOf, Close, Part, Valid, Linked, AtLeastOne;
    PartAlone(l, s);
    Words(l, k);
    SameList(l, fuel, s, k, inst);
    var a, c := s.fields[k].items, Close(l.m, s).fields[k].items;
    AnyTallies(l, seq(|a|, i requires 0 <= i < |a| => Valid(fuel, a[i], inst, l.src, l.v)),
              seq(|c|, i requires 0 <= i < |c| => Valid(fuel, c[i], inst, l.dst, l.w)));
  }

  lemma AnyTallies(l: Link, before: seq<bool>, after: seq<bool>)
    requires |before| == |after| && forall i :: 0 <= i < |before| ==> Tallies(l, before[i], after[i])
    ensures Tallies(l, AtLeastOne(before), AtLeastOne(after))
  {
  }

  lemma {:induction false} SameOneOf(l: Link, fuel: nat, s: Json, k: string, inst: Json)
    requires Kept(l, s, k) && WordOf(k) == OneOf
    ensures SameVerdict(l, fuel, s, k, inst)
    decreases fuel, s, 1
  {
    hide KeywordKind, WordOf, Close, Part, Valid, Linked, ExactlyOne;
    PartAlone(l, s);
    Words(l, k);
    assert l.exact;
    SameList(l, fuel, s, k, inst);
    var a, c := s.fields[k].items, Close(l.m, s).fields[k].items;
    assert seq(|a|, i requires 0 <= i < |a| => Valid(fuel, a[i], inst, l.src, l.v)) ==
           seq(|c|, i requires 0 <= i < |c| => Valid(fuel, c[i], inst, l.dst, l.w));
  }

  // ------------------------------------------------------- the documents

  /** The OpenAPI document whose components are closed over. */
  function Source(comps: map<string, Schema>): Json {
    var schemas: map<string, Json> := comps;
    Obj(map["components" := Obj(map["schemas" := Obj(schemas)])])
  }

  ghost predicate AllFit(m: Mode, comps: map<string, Schema>, root: Schema) {
    Fit(m, root) && forall n :: n in comps && Reaches(m, comps, root, n) ==> Fit(m, comps[n])
  }

  lemma PrefixParts(key: string)
    ensures (PREFIX + key)[2..] == "components" + "/" + ("schemas" + "/" + key)
  {
    assert PREFIX == "#/" + ("components" + "/" + ("schemas" + "/"));
  }

  lemma SourceTokens(key: string)
    requires Tokens(key).Some?
    ensures Tokens((PREFIX + key)[2..]) == Some(["components", "schemas"] + Tokens(key).value)
  {
    hide Tokens;
    PrefixParts(key);
    TwoSlashes("components", "schemas", key);
  }

  lemma TwoSlashes(a: string, b: string, key: string)
    requires '/' !in a && '~' !in a && '/' !in b && '~' !in b && Tokens(key).Some?
    ensures Tokens(a + "/" + (b + "/" + key)) == Some([a, b] + Tokens(key).value)
  {
    hide Tokens;
    TokensSlash(b, key);
    TokensSlash(a, b + "/" + key);
    assert [a] + ([b] + Tokens(key).value) == [a, b] + Tokens(key).value;
  }

  lemma ClosedTokens(key: string)
    requires Tokens(key).Some?
    ensures Tokens((CLOSED + key)[2..]) == Some(["$defs"] + Tokens(key).value)
  {
    hide Tokens;
    TokensSlash("$defs", key);
    assert (CLOSED + key)[2..] == "$defs" + "/" + key;
  }

  /** Both kinds of reference read their last token the same way. */
  lemma ReferencesResolve(comps: map<string, Schema>, root: Schema, defs: map<string, Json>, key: string)
    requires SingleToken(key)
    requires CodeName(key) in comps && CodeName(key) in defs
    ensures Resolve(Source(comps), PREFIX + key) == Some(comps[CodeName(key)])
    ensures Resolve(WithDefs(root, defs), CLOSED + key) == Some(defs[CodeName(key)])
  {
    hide CodeName, SingleToken, Tokens, Navigate;
    SingleTokenDecodes(key);
    SourceTokens(key);
    ClosedTokens(key);
    assert ["components", "schemas"] + [CodeName(key)] == ["components", "schemas", CodeName(key)];
    assert ["$defs"] + [CodeName(key)] == ["$defs", CodeName(key)];
    NavigateThree(Source(comps), "components", "schemas", CodeName(key));
    NavigateTwo(WithDefs(root, defs), "$defs", CodeName(key));
  }

  lemma NavigateTwo(j: Json, a: string, b: string)
    requires j.Obj? && a in j.fields && j.fields[a].Obj? && b in j.fields[a].fields
    ensures Navigate(j, [a, b]) == Some(j.fields[a].fields[b])
  {
    assert [a, b][1..] == [b] && [b][1..] == [];
    assert Navigate(j.fields[a], [b]) == Some(j.fields[a].fields[b]);
  }

  lemma NavigateThree(j: Json, a: string, b: string, c: string)
    requires j.Obj? && a in j.fields && j.fields[a].Obj? && b in j.fields[a].fields
    requires j.fields[a].fields[b].Obj? && c in j.fields[a].fields[b].fields
    ensures Navigate(j, [a, b, c]) == Some(j.fields[a].fields[b].fields[c])
  {
    assert [a, b, c][1..] == [b, c];
    NavigateTwo(j.fields[a], b, c);
  }

  ghost function LinkOf(m: Mode, comps: map<string, Schema>, root: Schema, v: World, w: World, exact: bool): Link {
    Link(m, comps, (set n | n in comps && Reaches(m, comps, root, n)),
         Reading(Source(comps), true), Reading(Bundle(m, comps, root), false), v, w, exact)
  }

  lemma ReachedWithin(m: Mode, comps: map<string, Schema>, root: Schema, n: string)
    requires Closable(m, comps, root) && n in comps && Reaches(m, comps, root, n)
    ensures forall c :: Mentions(m, comps[n], c) ==> c in comps && Reaches(m, comps, root, c)
  {
    hide Mentions;
    forall c | Mentions(m, comps[n], c) ensures c in comps && Reaches(m, comps, root, c) {
      SoundNames(m, comps.Keys, comps[n], c);
      var path :| Via(m, comps, root, path, n);
      ViaAppend(m, comps, root, path, n, c);
    }
  }

  lemma {:induction false} SoundNames(m: Mode, names: set<string>, s: Json, n: string)
    requires Sound(m, names, s) && Mentions(m, s, n)
    ensures n in names
    decreases s
  {
    var k :| k in s.fields && MentionsIn(m, k, s.fields[k], n);
    var v := s.fields[k];
    assert SoundIn(m, names, k, v);
    match m.kind(k)
    case ChildMap =>
      var c :| c in v.fields && Mentions(m, v.fields[c], n);
      SoundNames(m, names, v.fields[c], n);
    case Child =>
      assert Mentions(m, v, n) && v.Obj?;
      SoundNames(m, names, v, n);
    case ChildList =>
      var i :| 0 <= i < |v.items| && Mentions(m, v.items[i], n);
      SoundNames(m, names, v.items[i], n);
    case _ =>
  }

  lemma {:induction false} ViaAppend(m: Mode, comps: map<string, Schema>, s: Json, path: seq<string>, n: string, c: string)
    requires Via(m, comps, s, path, n) && n in comps && Mentions(m, comps[n], c)
    ensures Via(m, comps, s, path + [n], c)
    decreases path
  {
    hide Mentions;
    if path == [] {
      assert ([] + [n])[1..] == [];
    } else {
      ViaAppend(m, comps, comps[path[0]], path[1..], n, c);
      assert (path + [n])[1..] == path[1..] + [n];
    }
  }

  lemma DocumentsLinked(m: Mode, comps: map<string, Schema>, root: Schema, v: World, w: World, exact: bool)
    requires var l := LinkOf(m, comps, root, v, w, exact);
      m.kind == KeywordKind && Closable(m, comps, root) && Alike(l)
      && Fit(l.Strict(), root) && forall n :: n in comps && Reaches(m, comps, root, n) ==> Fit(l.Strict(), comps[n])
    ensures var l := LinkOf(m, comps, root, v, w, exact); Linked(l) && Part(l, root)
  {
    hide KeywordKind, Sound, Fit, Mentions, Close, Resolve, CodeName, SingleToken, Source, WithDefs, Alike;
    var l := LinkOf(m, comps, root, v, w, exact);
    forall c | Mentions(m, root, c) ensures c in l.names {
      SoundNames(m, comps.Keys, root, c);
      assert Via(m, comps, root, [], c);
    }
    forall n | n in l.names ensures Part(l, comps[n]) {
      ReachedWithin(m, comps, root, n);
    }
    forall r | Internal(l, r)
      ensures Resolve(l.src.doc, r) == Some(comps[CodeName(RefKey(r).value)])
      ensures Resolve(l.dst.doc, CLOSED + RefKey(r).value) == Some(Close(m, comps[CodeName(RefKey(r).value)]))
    {
      var key := RefKey(r).value;
      assert r == PREFIX + key;
      ReferencesResolve(comps, Close(m, root), Definitions(m, comps, root), key);
    }
  }

  lemma NamedWithDefs(s: Schema, defs: Json, n: string, w: World)
    ensures Named(Obj(s.fields["$defs" := defs]), n, w) == Named(s, n, w)
  {
    assert "$defs"[0] == '$' && "properties"[0] == 'p' && "patternProperties"[0] == 'p';
  }

  lemma HoldsWithDefs(fuel: nat, s: Schema, k: string, defs: Json, inst: Json, rd: Reading, w: World)
    requires !rd.openApi && k in s.fields && k != "$defs"
    ensures Holds(fuel, Obj(s.fields["$defs" := defs]), k, inst, rd, w) == Holds(fuel, s, k, inst, rd, w)
  {
    hide WordOf, Named, MadeNullable, ChildValid;
    if inst.Obj? {
      forall n | n in inst.fields
        ensures Named(Obj(s.fields["$defs" := defs]), n, w) == Named(s, n, w)
      {
        NamedWithDefs(s, defs, n, w);
      }
    }
  }

  /** The table of definitions is not itself a condition on values. */
  lemma DefsAreSilent(fuel: nat, s: Schema, defs: map<string, Json>, inst: Json, rd: Reading, w: World)
    requires !rd.openApi
    ensures Valid(fuel, WithDefs(s, defs), inst, rd, w) == Valid(fuel, s, inst, rd, w)
  {
    hide WordOf, Holds;
    if defs != map[] {
      var t := Obj(s.fields["$defs" := Obj(defs)]);
      DefsWord();
      SilentHolds(fuel, t, "$defs", inst, rd, w);
      if "$defs" in s.fields { SilentHolds(fuel, s, "$defs", inst, rd, w); }
      forall k | k in s.fields && k != "$defs"
        ensures Holds(fuel, t, k, inst, rd, w) == Holds(fuel, s, k, inst, rd, w)
      {
        HoldsWithDefs(fuel, s, k, Obj(defs), inst, rd, w);
      }
    }
  }

  lemma DefsWord()
    ensures WordOf("$defs") == Silent
  {
  }

  // --------------------------------------------------------- main results

  /** Responses: a value is accepted by the closed document exactly when the schema with its
      components accepts it, however many references are followed. */
  lemma OutputMeaningKept(comps: map<string, Schema>, root: Schema, fuel: nat, inst: Json, w: World)
    requires var m := Mode(KeywordKind, false); Closable(m, comps, root) && AllFit(m, comps, root)
    ensures var closed := Bundle(Mode(KeywordKind, false), comps, root);
      Valid(fuel, closed, inst, Reading(closed, false), w) <==>
      Valid(fuel, root, inst, Reading(Source(comps), true), w)
  {
    hide KeywordKind, Closable, Fit, Reaches, Valid, Linked, Part, Bundle, Close, Source;
    var m := Mode(KeywordKind, false);
    var l := LinkOf(m, comps, root, w, w, true);
    DocumentsLinked(m, comps, root, w, w, true);
    Same(l, fuel, root, inst);
    BundleValid(m, comps, root, fuel, inst, w);
  }

  /** Requests: where assertions are left to the service, everything it might accept is let through. */
  lemma InputMeaningWidened(comps: map<string, Schema>, root: Schema, fuel: nat, inst: Json, w: World)
    requires var m := Mode(KeywordKind, true); Closable(m, comps, root) && AllFit(m, comps, root)
    requires Valid(fuel, root, inst, Reading(Source(comps), true), w)
    ensures var closed := Bundle(Mode(KeywordKind, true), comps, root);
      Valid(fuel, closed, inst, Reading(closed, false), w)
  {
    hide KeywordKind, Closable, Fit, Reaches, Valid, Linked, Part, Bundle, Close, Source;
    var m := Mode(KeywordKind, true);
    var l := LinkOf(m, comps, root, w, w, false);
    DocumentsLinked(m, comps, root, w, w, false);
    Same(l, fuel, root, inst);
    BundleValid(m, comps, root, fuel, inst, w);
  }

  /** The assertions that are left to the service. */
  predicate LeftToService(k: string) {
    || k == "required" || k == "minimum" || k == "maximum" || k == "exclusiveMinimum" || k == "exclusiveMaximum"
    || k == "minLength" || k == "maxLength" || k == "minItems" || k == "maxItems" || k == "pattern"
    || k == "enum" || k == "const"
  }

  /** The world in which the service is not yet asked. */
  function Lenient(w: World): World {
    World((k, v, inst) => LeftToService(k) || w.assertion(k, v, inst), w.matches, w.limit)
  }

  lemma DroppedIsLeft(k: string)
    ensures KeywordKind(k) == Dropped <==> LeftToService(k)
  {
  }

  lemma LenientAlike(comps: map<string, Schema>, root: Schema, w: World)
    ensures Alike(LinkOf(Mode(KeywordKind, true), comps, root, Lenient(w), w, true))
  {
    hide KeywordKind, LeftToService, Bundle, Source, Reaches;
    forall k: string ensures KeywordKind(k) == Dropped <==> LeftToService(k) { DroppedIsLeft(k); }
  }

  /** Requests, exactly: the closed document accepts what the schema with its components accepts when the twelve
      assertions left to the service are read as true, below `not` and `oneOf` too. */
  lemma InputMeaningExact(comps: map<string, Schema>, root: Schema, fuel: nat, inst: Json, w: World)
    requires Closable(Mode(KeywordKind, true), comps, root)
    requires Fit(Mode(KeywordKind, false), root)
    requires forall n :: n in comps && Reaches(Mode(KeywordKind, true), comps, root, n) ==>
      Fit(Mode(KeywordKind, false), comps[n])
    ensures var closed := Bundle(Mode(KeywordKind, true), comps, root);
      Valid(fuel, closed, inst, Reading(closed, false), w) <==>
      Valid(fuel, root, inst, Reading(Source(comps), true), Lenient(w))
  {
    hide KeywordKind, Closable, Fit, Reaches, Valid, Linked, Part, Bundle, Close, Source, Alike, Lenient;
    var m := Mode(KeywordKind, true);
    var l := LinkOf(m, comps, root, Lenient(w), w, true);
    LenientAlike(comps, root, w);
    DocumentsLinked(m, comps, root, Lenient(w), w, true);
    Same(l, fuel, root, inst);
    BundleValid(m, comps, root, fuel, inst, w);
  }

  lemma BundleValid(m: Mode, comps: map<string, Schema>, root: Schema, fuel: nat, inst: Json, w: World)
    ensures var closed := Bundle(m, comps, root);
      Valid(fuel, closed, inst, Reading(closed, false), w) ==
      Valid(fuel, Close(m, root), inst, Reading(closed, false), w)
  {
    hide Valid, Close, Definitions, WithDefs;
    DefsAreSilent(fuel, Close(m, root), Definitions(m, comps, root), inst, Reading(Bundle(m, comps, root), false), w);
  }

  lemma RefKeyOf(key: string)
    ensures RefKey(PREFIX + key) == Some(key)
  {
    assert (PREFIX + key)[|PREFIX|..] == key;
  }
}
