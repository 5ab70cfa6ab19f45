/**
 Two independent resolvers of type names: the one that decides which methods are
 served (`Bundle.isStruct`) and the one that documents them (`structFields`).
 */
module TypeResolvers {
  import opened Prelude
  import opened ThriftAst
  import IncludeGraph
  import GoPath

  /** `strings.Cut(name, ".")`: the index of the first dot, or the length. */
  function DotAt(name: string): (i: nat)
    ensures i <= |name|
    ensures forall k | 0 <= k < i :: name[k] != '.'
    ensures i < |name| ==> name[i] == '.'
  {
    if name == "" || name[0] == '.' then 0 else 1 + DotAt(name[1..])
  }

  predicate Dotted(name: string) { DotAt(name) < |name| }

  function Prefix(name: string): string { name[..DotAt(name)] }

  function Rest(name: string): string
    requires Dotted(name)
  {
    name[DotAt(name) + 1..]
  }

  /** The name an include goes by in the route extractor ... */
  function RouteStem(inc: string): string {
    var b := GoPath.Base(inc);
    GoPath.TrimSuffix(b, GoPath.Ext(b))
  }

  /** ... and in the documentation generator, which takes the extension of the whole path. */
  function DocStem(inc: string): string { GoPath.TrimSuffix(GoPath.Base(inc), GoPath.Ext(inc)) }

  function FindInclude(includes: seq<string>, prefix: string, stem: string -> string): Option<string> {
    if includes == [] then None
    else if stem(includes[0]) == prefix then Some(includes[0])
    else FindInclude(includes[1..], prefix, stem)
  }

  function FindStruct(structs: seq<StructLike>, name: string): Option<StructLike> {
    if structs == [] then None else if structs[0].name == name then Some(structs[0]) else FindStruct(structs[1..], name)
  }

  function FindTypedef(typedefs: seq<Typedef>, name: string): Option<Typedef> {
    if typedefs == [] then None else if typedefs[0].alias == name then Some(typedefs[0]) else FindTypedef(typedefs[1..], name)
  }

  /** A file that is not in the bundle parses as an empty one. */
  function Parse(asts: Archive, path: string): Thrift {
    if path in asts then asts[path] else Thrift([], [], [], [], [], [], 0)
  }

  /** `Bundle.isStruct`, returning the declaration on whose account it answers true. */
  function IsStruct(asts: Archive, path: string, name: string, depth: nat): Option<(string, StructLike)>
    decreases 33 - depth
  {
    if depth > 32 then None
    else
      var ast := Parse(asts, path);
      if Dotted(name) then
        var inc := FindInclude(ast.includes, Prefix(name), RouteStem);
        if inc.None? then None else IsStruct(asts, Target(path, inc.value), Rest(name), depth + 1)
      else
        var s := FindStruct(ast.structs, name);
        if s.Some? then Some((path, s.value))
        else
          var t := FindTypedef(ast.typedefs, name);
          if t.None? then None else IsStruct(asts, path, t.value.typ.name, depth + 1)
  }

  /** `generator.resolve` */
  function Resolve(asts: Archive, file: string, name: string): (string, string)
    requires file in asts
  {
    if !Dotted(name) then (file, name)
    else
      var inc := FindInclude(asts[file].includes, Prefix(name), DocStem);
      if inc.None? then (file, name) else (Target(file, inc.value), Rest(name))
  }

  /** `generator.structFields`, returning the declaration whose fields it yields. */
  function StructFields(asts: Archive, file: string, name: string, depth: nat): (r: Option<(string, StructLike)>)
    requires file in asts
    ensures r.Some? ==> r.value.0 in asts
    decreases 33 - depth
  {
    if depth > 32 then None
    else
      var (f, n) := Resolve(asts, file, name);
      if f !in asts then None
      else
        var s := FindStruct(asts[f].structs, n);
        if s.Some? then Some((f, s.value))
        else
          var t := FindTypedef(asts[f].typedefs, n);
          if t.None? then None else StructFields(asts, f, t.value.typ.name, depth + 1)
  }

  // ------------------------------------------------------------- agreement

  predicate OneDot(name: string) { Dotted(name) ==> !Dotted(Rest(name)) }

  predicate PlainInclude(inc: string) { inc != "" && inc[|inc| - 1] != '/' }

  /** An include that goes by one name in both resolvers (`StemsCoincide`). */
  predicate Consistent(inc: string) { PlainInclude(inc) || GoPath.Ext(GoPath.Base(inc)) == "" }

  /** No reference can tell the two names of the include apart: they are the same, or the extractor's has a
      dot, which the part of a type name before its first dot never has. */
  predicate Harmless(inc: string) { Consistent(inc) || '.' in RouteStem(inc) }

  /** Names in type references carry at most one dot, and every include is harmless, save perhaps `spared`. */
  ghost predicate RegularBut(asts: Archive, spared: set<string>) {
    forall f | f in asts ::
      && (forall i | 0 <= i < |asts[f].typedefs| :: OneDot(asts[f].typedefs[i].typ.name))
      && (forall i | 0 <= i < |asts[f].includes| :: asts[f].includes[i] in spared || Harmless(asts[f].includes[i]))
  }

  ghost predicate Regular(asts: Archive) { RegularBut(asts, {}) }

  lemma {:induction false} ExtOfLast(p: string)
    ensures GoPath.Ext(p) == GoPath.Ext(GoPath.LastElement(p))
  {
    if p != "" && p[|p| - 1] != '/' {
      ExtOfLast(p[..|p| - 1]);
      var last := GoPath.LastElement(p);
      assert last[..|last| - 1] == GoPath.LastElement(p[..|p| - 1]);
    }
  }

  lemma {:induction false} NoSlashInLast(p: string)
    ensures '/' !in GoPath.LastElement(p)
  {
    if p != "" { NoSlashInLast(p[..|p| - 1]); }
  }

  /** The two stems of an include coincide exactly when the include is plain, or when its base name
      has no extension to begin with. */
  lemma StemsCoincide(inc: string)
    ensures RouteStem(inc) == DocStem(inc) <==> Consistent(inc)
  {
    var b := GoPath.Base(inc);
    if PlainInclude(inc) {
      ExtOfLast(inc);
      assert b == GoPath.LastElement(inc);
    } else {
      assert GoPath.Ext(inc) == "";
      assert DocStem(inc) == b;
      ExtIsSuffix(b);
      assert RouteStem(inc) == b[..|b| - |GoPath.Ext(b)|];
    }
  }

  lemma {:induction false} ExtIsSuffix(p: string)
    ensures GoPath.HasSuffix(p, GoPath.Ext(p))
  {
    if p != "" && p[|p| - 1] != '/' && p[|p| - 1] != '.' {
      ExtIsSuffix(p[..|p| - 1]);
      var e := GoPath.Ext(p[..|p| - 1]);
      if e != "" { assert p[|p| - |e + [p[|p| - 1]]|..] == p[..|p| - 1][|p| - 1 - |e|..] + [p[|p| - 1]]; }
    }
  }

  lemma PrefixHasNoDot(name: string)
    ensures '.' !in Prefix(name)
  {
  }

  lemma HarmlessStems(inc: string, prefix: string)
    requires Harmless(inc) && '.' !in prefix
    ensures RouteStem(inc) == prefix <==> DocStem(inc) == prefix
  {
    hide GoPath.Base;
    StemsCoincide(inc);
    if !Consistent(inc) {
      var b := GoPath.Base(inc);
      ExtIsSuffix(b);
      assert GoPath.Ext(inc) == "" && DocStem(inc) == b;
      assert forall c | c in RouteStem(inc) :: c in b;
    }
  }

  lemma {:induction false} SameInclude(includes: seq<string>, prefix: string)
    requires '.' !in prefix && forall i | 0 <= i < |includes| :: Harmless(includes[i])
    ensures FindInclude(includes, prefix, RouteStem) == FindInclude(includes, prefix, DocStem)
  {
    if includes != [] {
      HarmlessStems(includes[0], prefix);
      SameInclude(includes[1..], prefix);
    }
  }

  lemma {:induction false} FoundTypedef(typedefs: seq<Typedef>, name: string)
    ensures var t := FindTypedef(typedefs, name); t.Some? ==> t.value in typedefs && t.value.alias == name
  {
    if typedefs != [] { FoundTypedef(typedefs[1..], name); }
  }

  /** Whatever struct the route extractor accepts within its depth bound, the generator reaches the
      same declaration in the same file: it never needs more depth, since an include hop costs it none. */
  lemma {:induction false} ResolversAgree(asts: Archive, file: string, name: string, depth: nat, docDepth: nat)
    requires Regular(asts) && file in asts && OneDot(name) && docDepth <= depth
    requires IsStruct(asts, file, name, depth).Some?
    ensures StructFields(asts, file, name, docDepth) == IsStruct(asts, file, name, depth)
    decreases 33 - depth
  {
    if Dotted(name) {
      PrefixHasNoDot(name);
      SameInclude(asts[file].includes, Prefix(name));
      var inc := FindInclude(asts[file].includes, Prefix(name), RouteStem).value;
      ResolversAgreeIn(asts, Target(file, inc), Rest(name), depth + 1, docDepth);
    } else {
      ResolversAgreeIn(asts, file, name, depth, docDepth);
    }
  }

  /** After the include hop both look in file `f` for the undotted name `n`. */
  lemma {:induction false} ResolversAgreeIn(asts: Archive, f: string, n: string, depth: nat, docDepth: nat)
    requires Regular(asts) && !Dotted(n) && docDepth <= depth
    requires IsStruct(asts, f, n, depth).Some?
    ensures f in asts
    ensures (var s := FindStruct(asts[f].structs, n);
             if s.Some? then Some((f, s.value))
             else
               var t := FindTypedef(asts[f].typedefs, n);
               if t.None? then None else StructFields(asts, f, t.value.typ.name, docDepth + 1))
            == IsStruct(asts, f, n, depth)
    decreases 33 - depth, 0
  {
    assert f in asts;
    if FindStruct(asts[f].structs, n).None? {
      FoundTypedef(asts[f].typedefs, n);
      var t := FindTypedef(asts[f].typedefs, n).value;
      ResolversAgree(asts, f, t.typ.name, depth + 1, docDepth + 1);
    }
  }

  /** Wherever the extractor accepts, the generator reaches the same declaration. */
  ghost predicate Agree(asts: Archive) {
    forall file, name, depth: nat, docDepth: nat |
      file in asts && OneDot(name) && docDepth <= depth && IsStruct(asts, file, name, depth).Some? ::
      StructFields(asts, file, name, docDepth) == IsStruct(asts, file, name, depth)
  }

  /** The text of an include decides whether the resolvers agree through it: they do so in every archive whose
      other includes are harmless exactly when this one is. */
  lemma IncludeExact(inc: string)
    ensures (forall asts | RegularBut(asts, {inc}) :: Agree(asts)) <==> Harmless(inc)
  {
    hide Harmless, Agree, Parting;
    if Harmless(inc) {
      forall asts | RegularBut(asts, {inc}) ensures Agree(asts) {
        assert Regular(asts);
        RegularAgrees(asts);
      }
    } else {
      OneDisagrees("idl/main.thrift", inc, "S");
    }
  }

  lemma RegularAgrees(asts: Archive)
    requires Regular(asts)
    ensures Agree(asts)
  {
    hide RegularBut, IsStruct, StructFields;
    forall file, name, depth: nat, docDepth: nat |
      file in asts && OneDot(name) && docDepth <= depth && IsStruct(asts, file, name, depth).Some?
      ensures StructFields(asts, file, name, docDepth) == IsStruct(asts, file, name, depth)
    {
      ResolversAgree(asts, file, name, depth, docDepth);
    }
  }

  lemma OneDisagrees(file: string, inc: string, s: string)
    requires !Harmless(inc) && '.' !in s
    ensures RegularBut(Parting(file, inc, s), {inc}) && !Agree(Parting(file, inc, s))
  {
    hide RouteStem, Harmless, Target, IncludeGraph.Sound, IncludeGraph.Escapes, IsStruct, StructFields, OneDot;
    HarmfulParts(file, inc, s);
  }

  /** A file with one include, whose target declares one struct. */
  function Parting(file: string, inc: string, s: string): Archive {
    var main, target := Thrift([inc], [], [], [], [], [], 1), Target(file, inc);
    if target == file then map[file := main.(structs := [StructLike(s, [])])]
    else map[file := main, target := Thrift([], [], [], [StructLike(s, [])], [], [], 0)]
  }

  /** With any other include the resolvers part, whatever file it stands in: the extractor serves a method that
      takes `<its name>.<s>`, and the generator finds no such struct. The archive passes the include check
      exactly when the include stays under `idl/` and leads to another file. */
  lemma HarmfulParts(file: string, inc: string, s: string)
    requires !Harmless(inc) && '.' !in s
    ensures var asts, name := Parting(file, inc, s), RouteStem(inc) + "." + s;
      && OneDot(name)
      && IsStruct(asts, file, name, 0) == Some((Target(file, inc), StructLike(s, [])))
      && StructFields(asts, file, name, 0) == None
      && (IncludeGraph.Sound(asts) <==> !IncludeGraph.Escapes(file, inc) && Target(file, inc) != file)
  {
    hide RouteStem, DocStem, Consistent, Target, IncludeGraph.Sound, IncludeGraph.Escapes;
    var asts, stem := Parting(file, inc, s), RouteStem(inc);
    var name := stem + "." + s;
    StemsCoincide(inc);
    DotAtDot(stem, s);
    DotAtNone(s);
    assert Prefix(name) == stem && Rest(name) == s;
    assert FindStruct([StructLike(s, [])][1..], name).None? && FindStruct([], name).None?;
    Misses(asts, file, inc, name);
    Accepts(asts, file, inc, name, StructLike(s, []));
    PartingSound(file, inc, s);
  }

  lemma PartingSound(file: string, inc: string, s: string)
    ensures IncludeGraph.Sound(Parting(file, inc, s)) <==> !IncludeGraph.Escapes(file, inc) && Target(file, inc) != file
  {
    hide Target, IncludeGraph.Escapes;
    var asts, target := Parting(file, inc, s), Target(file, inc);
    IncludeGraph.IncludeAt(asts, file, 0);
    if target == file {
      assert IncludeGraph.Cycle(asts, [file, file]);
    } else if !IncludeGraph.Escapes(file, inc) {
      IncludeGraph.RankedIsSound(asts, map[target := 0, file := 1], 2);
    }
  }

  /** Such archives that pass the include check: every file written with a trailing slash, under whatever names. */
  lemma TrailingSlashDisagrees(main: string, stem: string, s: string)
    requires GoPath.Plain(stem) && '.' !in stem && '/' !in main && '.' !in s && main != stem + ".thrift"
    ensures var (file, inc, target) := ("idl/" + main, stem + ".thrift/", "idl/" + stem + ".thrift");
            var asts := map[file := Thrift([inc], [], [], [], [], [], 1),
                            target := Thrift([], [], [], [StructLike(s, [])], [], [], 0)];
            && Target(file, inc) == target && GoPath.HasPrefix(target, "idl/")
            && ('\\' !in stem ==> IncludeGraph.Sound(asts))
            && IsStruct(asts, file, stem + "." + s, 0) == Some((target, StructLike(s, [])))
            && StructFields(asts, file, stem + "." + s, 0) == None
  {
    hide RouteStem, DocStem, Target, IncludeGraph.Sound, IsStruct, StructFields, OneDot;
    var (file, inc, target) := ("idl/" + main, stem + ".thrift/", "idl/" + stem + ".thrift");
    Apart(main, stem + ".thrift");
    SlashTarget(main, stem + ".thrift");
    assert inc == stem + ".thrift" + "/" && target == "idl/" + (stem + ".thrift");
    StemsOfSlash(stem);
    StemsCoincide(inc);
    HarmfulParts(file, inc, s);
  }

  lemma Accepts(asts: Archive, file: string, inc: string, name: string, s: StructLike)
    requires file in asts && asts[file].includes == [inc] && Dotted(name) && RouteStem(inc) == Prefix(name)
    requires Target(file, inc) in asts && asts[Target(file, inc)].structs == [s] && s.name == Rest(name) && !Dotted(s.name)
    ensures IsStruct(asts, file, name, 0) == Some((Target(file, inc), s))
  {
    assert IsStruct(asts, Target(file, inc), s.name, 1) == Some((Target(file, inc), s));
  }

  lemma Misses(asts: Archive, file: string, inc: string, name: string)
    requires file in asts && asts[file].includes == [inc] && asts[file].typedefs == []
    requires FindStruct(asts[file].structs, name).None?
    requires Dotted(name) && DocStem(inc) != Prefix(name)
    ensures StructFields(asts, file, name, 0) == None
  {
    assert FindInclude([inc][1..], Prefix(name), DocStem) == None;
  }

  lemma {:induction false} DotAtDot(a: string, b: string)
    requires '.' !in a
    ensures DotAt(a + "." + b) == |a|
  {
    if a != "" {
      DotAtDot(a[1..], b);
      assert (a + "." + b)[1..] == a[1..] + "." + b;
    }
  }

  lemma {:induction false} DotAtNone(a: string)
    requires '.' !in a
    ensures !Dotted(a)
  {
    if a != "" { DotAtNone(a[1..]); }
  }

  lemma SlashTarget(main: string, b: string)
    requires '/' !in main && GoPath.Plain(b)
    ensures Target("idl/" + main, b + "/") == "idl/" + b && GoPath.HasPrefix("idl/" + b, "idl/")
  {
    GoPath.DirOne("idl", main);
    assert "idl/" + main == "idl" + "/" + main;
    GoPath.CleanTwo("idl", b);
    assert "idl" + "/" + (b + "/") == "idl" + "/" + b + "/" && "idl" + "/" + b == "idl/" + b;
  }

  lemma Apart(a: string, b: string)
    requires a != b
    ensures "idl/" + a != "idl/" + b
  {
    assert ("idl/" + a)[4..] == a && ("idl/" + b)[4..] == b;
  }

  lemma StemsOfSlash(stem: string)
    requires GoPath.Plain(stem)
    ensures RouteStem(stem + ".thrift/") == stem && DocStem(stem + ".thrift/") == stem + ".thrift"
  {
    hide GoPath.Base;
    var inc, b := stem + ".thrift/", stem + ".thrift";
    GoPath.ExtAtDot(stem, "thrift");
    assert stem + "." + "thrift" == b && "." + "thrift" == ".thrift";
    BaseOfSlashed(b);
    assert b + "/" == inc;
    assert b[|b| - 7..] == ".thrift" && b[..|b| - 7] == stem;
    assert inc[|inc| - 1] == '/' && GoPath.Ext(inc) == "";
  }

  lemma BaseOfSlashed(b: string)
    requires GoPath.Plain(b)
    ensures GoPath.Base(b + "/") == b
  {
    BaseOfPlain(b);
    assert (b + "/")[..|b|] == b;
    assert GoPath.TrimSlashes(b + "/") == GoPath.TrimSlashes(b);
  }

  // ------------------------------------------------- names with several dots

  function Dots(name: string): nat { if Dotted(name) then 1 + Dots(Rest(name)) else 0 }

  function LastPart(name: string): string { if Dotted(name) then LastPart(Rest(name)) else name }

  /** Includes that go by the parts of a name before its last. */
  function IncludesFor(name: string): seq<string> {
    if Dotted(name) then [Prefix(name) + ".thrift"] + IncludesFor(Rest(name)) else []
  }

  function Everywhere(name: string): Thrift {
    Thrift(IncludesFor(name), [], [], [StructLike(LastPart(name), [])], [], [], 1)
  }

  function ChainFiles(name: string): set<string> {
    {"idl/main.thrift"} + set i | i in IncludesFor(name) :: "idl/" + i
  }

  /** Files of that content, to be reached one by one along the name. */
  function Chain(name: string): Archive {
    map f | f in ChainFiles(name) :: Everywhere(name)
  }

  /** A later part of `name`. */
  ghost predicate Ends(name: string, tail: string) {
    (forall i | i in IncludesFor(tail) :: i in IncludesFor(name)) && LastPart(tail) == LastPart(name) && '/' !in tail
  }

  lemma BaseOfPlain(b: string)
    requires GoPath.Plain(b)
    ensures GoPath.Base(b) == b && PlainInclude(b)
  {
    GoPath.LastOfPlain(b);
    assert b[|b| - 1] in b;
    assert GoPath.TrimSlashes(b) == b;
  }

  lemma StemOfThrift(x: string)
    requires '/' !in x && '.' !in x
    ensures RouteStem(x + ".thrift") == x && DocStem(x + ".thrift") == x && Harmless(x + ".thrift")
  {
    hide GoPath.Base;
    var inc := x + ".thrift";
    GoPath.ExtAtDot(x, "thrift");
    assert x + "." + "thrift" == inc && "." + "thrift" == ".thrift";
    BaseOfPlain(inc);
    StemsCoincide(inc);
    assert inc[|inc| - 7..] == ".thrift" && inc[..|inc| - 7] == x;
  }

  /** What is needed of an include `<x>.thrift`. */
  lemma ThriftInclude(main: string, x: string)
    requires '/' !in main && '/' !in x && '.' !in x
    ensures var inc := x + ".thrift";
      && RouteStem(inc) == x && DocStem(inc) == x && Harmless(inc)
      && Target("idl/" + main, inc) == "idl/" + inc && '/' !in inc
  {
    hide RouteStem, DocStem, Harmless, GoPath.Clean, GoPath.Dir;
    var inc := x + ".thrift";
    StemOfThrift(x);
    GoPath.DirOne("idl", main);
    assert "idl/" + main == "idl" + "/" + main;
    assert |inc| >= 7 && GoPath.Plain(inc);
    GoPath.CleanTwo("idl", inc);
    assert "idl" + "/" + inc == "idl/" + inc;
  }

  lemma {:induction false} IncludesAre(name: string, i: nat)
    requires i < |IncludesFor(name)| && '/' !in name
    ensures exists x :: IncludesFor(name)[i] == x + ".thrift" && '/' !in x && '.' !in x
  {
    PrefixHasNoDot(name);
    if i > 0 {
      IncludesAre(Rest(name), i - 1);
    } else {
      assert IncludesFor(name)[0] == Prefix(name) + ".thrift";
    }
  }

  lemma {:induction false} FoundIn(includes: seq<string>, prefix: string, stem: string -> string)
    requires prefix + ".thrift" in includes
    requires forall i | 0 <= i < |includes| :: exists x :: includes[i] == x + ".thrift" && stem(x + ".thrift") == x
    requires stem(prefix + ".thrift") == prefix
    ensures FindInclude(includes, prefix, stem) == Some(prefix + ".thrift")
  {
    var x :| includes[0] == x + ".thrift" && stem(x + ".thrift") == x;
    if x != prefix { FoundIn(includes[1..], prefix, stem); }
  }

  /** Both resolvers take the first hop of a dotted name. */
  lemma Hop(name: string, tail: string, main: string)
    requires '/' !in name && Ends(name, tail) && Dotted(tail) && '/' !in main
    ensures var inc := Prefix(tail) + ".thrift";
      && FindInclude(IncludesFor(name), Prefix(tail), RouteStem) == Some(inc)
      && FindInclude(IncludesFor(name), Prefix(tail), DocStem) == Some(inc)
      && Target("idl/" + main, inc) == "idl/" + inc && '/' !in inc && "idl/" + inc in Chain(name)
      && Ends(name, Rest(tail))
  {
    hide RouteStem, DocStem, Target, Harmless;
    PrefixHasNoDot(tail);
    ThriftInclude(main, Prefix(tail));
    assert IncludesFor(tail)[0] == Prefix(tail) + ".thrift";
    assert IncludesFor(tail) == [Prefix(tail) + ".thrift"] + IncludesFor(Rest(tail));
    forall i | 0 <= i < |IncludesFor(name)|
      ensures exists x ::
        IncludesFor(name)[i] == x + ".thrift" && RouteStem(x + ".thrift") == x && DocStem(x + ".thrift") == x
    {
      IncludesAre(name, i);
      var x :| IncludesFor(name)[i] == x + ".thrift" && '/' !in x && '.' !in x;
      ThriftInclude(main, x);
    }
    FoundIn(IncludesFor(name), Prefix(tail), RouteStem);
    FoundIn(IncludesFor(name), Prefix(tail), DocStem);
  }

  /** The extractor follows every hop. */
  lemma {:induction false} Follows(name: string, tail: string, main: string, depth: nat)
    requires '/' !in name && Ends(name, tail) && '/' !in main && "idl/" + main in Chain(name)
    requires depth + Dots(tail) <= 32
    ensures IsStruct(Chain(name), "idl/" + main, tail, depth).Some?
    decreases |tail|
  {
    hide RouteStem, Target, Ends;
    if Dotted(tail) {
      Hop(name, tail, main);
      Follows(name, Rest(tail), Prefix(tail) + ".thrift", depth + 1);
    } else {
      assert LastPart(name) == tail by { LastOfEnd(name, tail); }
    }
  }

  lemma LastOfEnd(name: string, tail: string)
    requires Ends(name, tail) && !Dotted(tail)
    ensures LastPart(name) == tail
  {
  }

  lemma {:induction false} LastUndotted(name: string)
    ensures !Dotted(LastPart(name))
  {
    if Dotted(name) { LastUndotted(Rest(name)); }
  }

  /** The generator takes one hop, and then looks for a struct with a dot in its name. */
  lemma StopsAfterOne(name: string)
    requires '/' !in name && !OneDot(name)
    ensures StructFields(Chain(name), "idl/main.thrift", name, 0) == None
  {
    hide RouteStem, DocStem, Target;
    assert "idl/" + "main.thrift" == "idl/main.thrift" && Ends(name, name);
    Hop(name, name, "main.thrift");
    LastUndotted(name);
    var last := StructLike(LastPart(name), []);
    assert FindStruct([last][1..], Rest(name)).None?;
  }

  lemma ChainIsRegular(name: string)
    requires '/' !in name
    ensures Regular(Chain(name))
  {
    hide Harmless;
    forall i | 0 <= i < |IncludesFor(name)| ensures Harmless(IncludesFor(name)[i]) {
      IncludesAre(name, i);
      var x :| IncludesFor(name)[i] == x + ".thrift" && '/' !in x && '.' !in x;
      ThriftInclude("", x);
    }
  }

  /** The extractor gives up on more dots than its depth bound. */
  lemma {:induction false} TooManyDots(asts: Archive, file: string, name: string, depth: nat)
    requires depth + Dots(name) > 32
    ensures IsStruct(asts, file, name, depth).None?
    decreases |name|
  {
    if depth <= 32 && Dotted(name) {
      var inc := FindInclude(Parse(asts, file).includes, Prefix(name), RouteStem);
      if inc.Some? { TooManyDots(asts, Target(file, inc.value), Rest(name), depth + 1); }
    }
  }

  /** The text of a name decides whether the resolvers agree on it: they do so in every regular archive exactly
      when it has at most one dot, or more than the extractor follows. */
  lemma NameExact(name: string)
    requires '/' !in name
    ensures (forall asts, file | Regular(asts) && file in asts && IsStruct(asts, file, name, 0).Some? ::
               StructFields(asts, file, name, 0) == IsStruct(asts, file, name, 0))
      <==> OneDot(name) || Dots(name) > 32
  {
    hide Regular, IsStruct, StructFields, Chain, Ends;
    if OneDot(name) {
      forall asts, file | Regular(asts) && file in asts && IsStruct(asts, file, name, 0).Some?
        ensures StructFields(asts, file, name, 0) == IsStruct(asts, file, name, 0)
      {
        ResolversAgree(asts, file, name, 0, 0);
      }
    } else if Dots(name) > 32 {
      forall asts, file | Regular(asts) && file in asts ensures IsStruct(asts, file, name, 0).None? {
        TooManyDots(asts, file, name, 0);
      }
    } else {
      ChainIsRegular(name);
      StartsChain(name);
      Follows(name, name, "main.thrift", 0);
      StopsAfterOne(name);
    }
  }

  lemma StartsChain(name: string)
    requires '/' !in name
    ensures "idl/" + "main.thrift" == "idl/main.thrift" && "idl/main.thrift" in Chain(name) && Ends(name, name)
  {
  }
}
