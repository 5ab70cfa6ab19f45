/** The include check of an archive and the order of its bundles and routes. */
module IncludeGraph {
  import opened Prelude
  import opened ThriftAst
  import GoPath
  import StringOrder

  // ------------------------------------------------------- specification

  predicate Escapes(file: string, inc: string) {
    GoPath.IsAbs(inc) || '\\' in inc || !GoPath.HasPrefix(Target(file, inc), "idl/")
  }

  predicate Edge(asts: Archive, a: string, b: string) {
    a in asts && exists i | 0 <= i < |asts[a].includes| :: Target(a, asts[a].includes[i]) == b
  }

  /** Every include stays under `idl/` and names a file of the archive. */
  ghost predicate Closed(asts: Archive) {
    forall f, i | f in asts && 0 <= i < |asts[f].includes| ::
      !Escapes(f, asts[f].includes[i]) && Target(f, asts[f].includes[i]) in asts
  }

  ghost predicate Path(asts: Archive, p: seq<string>) {
    forall i | 0 <= i < |p| - 1 :: Edge(asts, p[i], p[i + 1])
  }

  ghost predicate Cycle(asts: Archive, p: seq<string>) {
    |p| >= 2 && p[0] == p[|p| - 1] && Path(asts, p)
  }

  ghost predicate Sound(asts: Archive) {
    Closed(asts) && forall p :: !Cycle(asts, p)
  }

  // ------------------------------------------------------- depth-first search

  /** `rank` records the order in which files were finished. */
  ghost predicate Ranked(asts: Archive, done: set<string>, rank: map<string, nat>, next: nat) {
    && rank.Keys == done && done <= asts.Keys
    && (forall f | f in done :: rank[f] < next)
    && (forall f, i | f in done && 0 <= i < |asts[f].includes| ::
          && !Escapes(f, asts[f].includes[i])
          && Target(f, asts[f].includes[i]) in done
          && rank[Target(f, asts[f].includes[i])] < rank[f])
  }

  lemma Finish(asts: Archive, done: set<string>, rank: map<string, nat>, next: nat, name: string)
    requires Ranked(asts, done, rank, next) && name in asts && name !in done
    requires forall k | 0 <= k < |asts[name].includes| ::
               !Escapes(name, asts[name].includes[k]) && Target(name, asts[name].includes[k]) in done
    ensures Ranked(asts, done + {name}, rank[name := next], next + 1)
  {
  }

  lemma Missing(asts: Archive, from: string, name: string)
    requires Edge(asts, from, name) && name !in asts
    ensures !Sound(asts)
  {
  }

  lemma PathExtends(asts: Archive, stack: seq<string>, name: string)
    requires Path(asts, stack) && (stack != [] ==> Edge(asts, stack[|stack| - 1], name))
    ensures Path(asts, stack + [name])
  {
    var p := stack + [name];
    forall i | 0 <= i < |p| - 1 ensures Edge(asts, p[i], p[i + 1]) {
      if i < |stack| - 1 { assert Edge(asts, stack[i], stack[i + 1]); }
    }
  }

  lemma {:induction false} RankFalls(asts: Archive, done: set<string>, rank: map<string, nat>, next: nat, p: seq<string>, i: nat)
    requires Ranked(asts, done, rank, next) && Path(asts, p) && i < |p| && p[0] in done
    ensures p[i] in done && (i > 0 ==> rank[p[i]] < rank[p[0]])
  {
    if i > 0 {
      RankFalls(asts, done, rank, next, p, i - 1);
      assert Edge(asts, p[i - 1], p[i - 1 + 1]);
    }
  }

  lemma RankedIsSound(asts: Archive, rank: map<string, nat>, next: nat)
    requires Ranked(asts, asts.Keys, rank, next)
    ensures Sound(asts)
  {
    forall p ensures !Cycle(asts, p) {
      if Cycle(asts, p) {
        assert Edge(asts, p[0], p[1]);
        RankFalls(asts, asts.Keys, rank, next, p, |p| - 1);
      }
    }
  }

  /** Coming back to a file on the current path closes a cycle. */
  lemma BackEdge(asts: Archive, stack: seq<string>, name: string)
    requires Path(asts, stack) && stack != [] && Edge(asts, stack[|stack| - 1], name) && name in stack
    ensures !Sound(asts)
  {
    var i :| 0 <= i < |stack| && stack[i] == name;
    var p := stack[i..] + [name];
    forall k | 0 <= k < |p| - 1 ensures Edge(asts, p[k], p[k + 1]) {
      assert p[k] == stack[i + k];
      if k < |p| - 2 { assert Edge(asts, stack[i + k], stack[i + k + 1]); }
    }
    assert Cycle(asts, p);
  }

  lemma IncludeAt(asts: Archive, name: string, i: nat)
    requires name in asts && i < |asts[name].includes|
    ensures Edge(asts, name, Target(name, asts[name].includes[i]))
    ensures Escapes(name, asts[name].includes[i]) ==> !Sound(asts)
  {
    hide Target, Escapes;
  }

  class Checker {
    const asts: Archive
    var visiting: set<string>
    var done: set<string>

    ghost var rank: map<string, nat>
    ghost var next: nat

    ghost predicate Valid() reads this {
      visiting <= asts.Keys && visiting !! done && Ranked(asts, done, rank, next)
    }

    constructor (asts: Archive)
      ensures this.asts == asts && Valid() && visiting == {} && done == {}
    {
      this.asts := asts;
      visiting, done, rank, next := {}, {}, map[], 0;
    }

    /** `stack` is the chain of calls that led here. */
    method Check(name: string, ghost stack: seq<string>) returns (ok: bool)
      requires Valid() && visiting == (set f | f in stack) && Path(asts, stack)
      requires stack != [] ==> Edge(asts, stack[|stack| - 1], name)
      modifies this
      ensures ok ==> Valid() && visiting == old(visiting) && old(done) <= done && name in done
      ensures !ok && (name in asts || stack != []) ==> !Sound(asts)
      decreases asts.Keys - visiting, 0
    {
      if name in visiting {
        BackEdge(asts, stack, name);
        return false;
      }
      if name in done { return true; }
      if name !in asts {
        if stack != [] { Missing(asts, stack[|stack| - 1], name); }
        return false;
      }
      var ast := asts[name];
      visiting := visiting + {name};
      ghost var here := stack + [name];
      PathExtends(asts, stack, name);
      var sub := CheckIncludes(name, ast.includes, here);
      if !sub { return false; }
      Finish(asts, done, rank, next, name);
      visiting := visiting - {name};
      done := done + {name};
      rank, next := rank[name := next], next + 1;
      return true;
    }

    /** The loop over the includes of `name`, which stands on top of the stack. */
    method CheckIncludes(name: string, includes: seq<string>, ghost stack: seq<string>) returns (ok: bool)
      requires Valid() && name in visiting && includes == asts[name].includes
      requires visiting == (set f | f in stack) && Path(asts, stack) && stack != [] && stack[|stack| - 1] == name
      modifies this
      ensures ok ==> Valid() && visiting == old(visiting) && old(done) <= done
      ensures ok ==> forall k | 0 <= k < |includes| :: !Escapes(name, includes[k]) && Target(name, includes[k]) in done
      ensures !ok ==> !Sound(asts)
      decreases asts.Keys - visiting, 1
    {
      hide Ranked, Path, Target, Escapes, Sound;
      for i := 0 to |includes|
        invariant Valid() && visiting == old(visiting) && old(done) <= done
        invariant forall k | 0 <= k < i :: !Escapes(name, includes[k]) && Target(name, includes[k]) in done
      {
        var target := Target(name, includes[i]);
        IncludeAt(asts, name, i);
        if Escapes(name, includes[i]) { return false; }
        var sub := Check(target, stack);
        if !sub { return false; }
      }
      ok := true;
    }
  }

  // ------------------------------------------------------------ LoadArchive

  datatype Route = Route(httpMethod: string, path: string, rpcService: string, rpcMethod: string, idlPath: string)

  predicate Serves(asts: Archive, extract: string -> Result<seq<Route>>, n: string)
    requires n in asts
  {
    asts[n].services > 0 && extract(n).Ok? && extract(n).value != []
  }

  /** The files whose routes are served, in the order given. */
  function Bundles(asts: Archive, extract: string -> Result<seq<Route>>, names: seq<string>): seq<string>
    requires forall n | n in names :: n in asts
  {
    if names == [] then []
    else
      var (init, last) := (names[..|names| - 1], names[|names| - 1]);
      Bundles(asts, extract, init) + if Serves(asts, extract, last) then [last] else []
  }

  function Routes(asts: Archive, extract: string -> Result<seq<Route>>, names: seq<string>): seq<Route>
    requires forall n | n in names :: n in asts
  {
    if names == [] then []
    else
      var (init, last) := (names[..|names| - 1], names[|names| - 1]);
      Routes(asts, extract, init) + if Serves(asts, extract, last) then extract(last).value else []
  }

  /** An archive is accepted when every file parses, the include graph is sound, routes can be
      extracted from every file with a service, and there is a route at all. */
  ghost predicate Accepted(parsed: map<string, Option<Thrift>>, asts: Archive, extract: string -> Result<seq<Route>>) {
    && (forall n | n in parsed :: n in asts && parsed[n] == Some(asts[n]))
    && Sound(asts)
    && (forall n | n in asts && asts[n].services > 0 :: extract(n).Ok?)
    && exists n :: n in asts && Serves(asts, extract, n)
  }

  lemma {:induction false} SomeRoute(asts: Archive, extract: string -> Result<seq<Route>>, names: seq<string>)
    requires forall n | n in names :: n in asts
    ensures Routes(asts, extract, names) != [] <==> exists n :: n in names && Serves(asts, extract, n)
  {
    if names != [] {
      var (init, last) := (names[..|names| - 1], names[|names| - 1]);
      assert names == init + [last];
      SomeRoute(asts, extract, init);
    }
  }

  lemma OneMore(asts: Archive, extract: string -> Result<seq<Route>>, names: seq<string>, i: nat)
    requires i < |names| && forall n | n in names :: n in asts
    ensures Bundles(asts, extract, names[..i + 1])
         == Bundles(asts, extract, names[..i]) + if Serves(asts, extract, names[i]) then [names[i]] else []
    ensures Routes(asts, extract, names[..i + 1])
         == Routes(asts, extract, names[..i]) + if Serves(asts, extract, names[i]) then extract(names[i]).value else []
  {
    assert names[..i + 1][..i] == names[..i] && names[..i + 1][i] == names[i];
  }

  /** The parsing loop, in the order in which Go happens to range over the file map. */
  method ParseAll(parsed: map<string, Option<Thrift>>, iteration: seq<string>) returns (ok: bool, asts: Archive)
    requires StringOrder.Members(iteration) == parsed.Keys
    ensures ok <==> forall n | n in parsed :: parsed[n].Some?
    ensures ok ==> asts == map n | n in parsed :: if parsed[n].Some? then parsed[n].value else Thrift([], [], [], [], [], [], 0)
  {
    asts := map[];
    for i := 0 to |iteration|
      invariant forall k | 0 <= k < i :: iteration[k] in asts
      invariant forall n | n in asts :: n in parsed && parsed[n] == Some(asts[n])
    {
      var n := iteration[i];
      assert n in StringOrder.Members(iteration);
      if parsed[n].None? { return false, asts; }
      asts := asts[n := parsed[n].value];
    }
    forall n | n in parsed ensures n in asts { assert n in StringOrder.Members(iteration); }
    ok := true;
  }

  /** The main loop: check a file, skip it without service or routes, otherwise serve it. */
  method ServeAll(asts: Archive, extract: string -> Result<seq<Route>>, order: seq<string>)
    returns (ok: bool, bundles: seq<string>, routes: seq<Route>)
    requires forall n :: n in order <==> n in asts
    ensures ok <==> Sound(asts) && forall n | n in asts && asts[n].services > 0 :: extract(n).Ok?
    ensures ok ==> bundles == Bundles(asts, extract, order) && routes == Routes(asts, extract, order)
  {
    ok, bundles, routes := false, [], [];
    var c := new Checker(asts);
    for i := 0 to |order|
      invariant c.asts == asts && c.Valid() && c.visiting == {}
      invariant forall k | 0 <= k < i :: order[k] in c.done && (asts[order[k]].services > 0 ==> extract(order[k]).Ok?)
      invariant bundles == Bundles(asts, extract, order[..i]) && routes == Routes(asts, extract, order[..i])
    {
      var n := order[i];
      OneMore(asts, extract, order, i);
      var good := c.Check(n, []);
      if !good { return; }
      if asts[n].services == 0 { continue; }
      if extract(n).Err? { return; }
      var rs := extract(n).value;
      if rs == [] { continue; }
      bundles := bundles + [n];
      routes := routes + rs;
    }
    assert order[..|order|] == order;
    assert c.done == asts.Keys;
    RankedIsSound(asts, c.rank, c.next);
    ok := true;
  }

  /** The syntax trees of an archive whose files all parse. */
  function Trees(parsed: map<string, Option<Thrift>>): Archive {
    map n | n in parsed && parsed[n].Some? :: parsed[n].value
  }

  predicate InTrees(parsed: map<string, Option<Thrift>>, names: seq<string>) {
    forall i | 0 <= i < |names| :: names[i] in Trees(parsed)
  }

  /** The files in ascending order, all of them parsed. */
  ghost predicate Lists(parsed: map<string, Option<Thrift>>, names: seq<string>)
    ensures Lists(parsed, names) ==> forall n | n in names :: n in Trees(parsed)
  {
    StringOrder.Ascending(names) && StringOrder.Members(names) == parsed.Keys && InTrees(parsed, names)
  }

  // ------------------------------------------------------ spelled out

  lemma EdgeMeans(asts: Archive, a: string, b: string)
    ensures Edge(asts, a, b) <==>
      a in asts && exists inc :: inc in asts[a].includes && b == GoPath.Clean(GoPath.Join(GoPath.Dir(a), inc))
  {
    if Edge(asts, a, b) {
      var i :| 0 <= i < |asts[a].includes| && Target(a, asts[a].includes[i]) == b;
      assert asts[a].includes[i] in asts[a].includes;
    }
  }

  lemma EscapesMeans(file: string, inc: string)
    ensures Target(file, inc) == GoPath.Clean(GoPath.Join(GoPath.Dir(file), inc))
    ensures Escapes(file, inc) <==> "/" <= inc || '\\' in inc || !("idl/" <= Target(file, inc))
  {
    assert GoPath.IsAbs(inc) ==> "/" <= inc;
  }

  /** Every include is relative, without backslash, and leads to a file of the archive below `idl/`. */
  lemma ClosedMeans(asts: Archive)
    ensures Closed(asts) <==> forall f, inc :: f in asts && inc in asts[f].includes ==>
      !("/" <= inc) && '\\' !in inc && "idl/" <= Target(f, inc) && Target(f, inc) in asts
  {
    hide Target, Escapes;
    forall f, inc
      ensures Escapes(f, inc) <==> "/" <= inc || '\\' in inc || !("idl/" <= Target(f, inc))
    {
      EscapesMeans(f, inc);
    }
    if Closed(asts) {
      forall f, inc | f in asts && inc in asts[f].includes ensures !Escapes(f, inc) && Target(f, inc) in asts {
        var i :| 0 <= i < |asts[f].includes| && asts[f].includes[i] == inc;
      }
    } else {
      var f, i :| f in asts && 0 <= i < |asts[f].includes|
                  && (Escapes(f, asts[f].includes[i]) || Target(f, asts[f].includes[i]) !in asts);
      assert asts[f].includes[i] in asts[f].includes;
    }
  }

  /** Some file of the sequence does not include the next. */
  ghost predicate Broken(asts: Archive, p: seq<string>) {
    exists k :: 0 <= k < |p| - 1 && !Edge(asts, p[k], p[k + 1])
  }

  /** Sound: no include leads astray, and no sequence of files, each including the next, comes back to where
      it began. */
  lemma SoundMeans(asts: Archive)
    ensures Sound(asts) ==> Closed(asts)
    ensures Sound(asts) ==> forall p: seq<string> :: |p| >= 2 && p[0] == p[|p| - 1] ==> Broken(asts, p)
    ensures !Sound(asts) && Closed(asts) ==> exists p: seq<string> :: |p| >= 2 && p[0] == p[|p| - 1] && !Broken(asts, p)
  {
    hide Edge, Closed;
    if Sound(asts) {
      forall p: seq<string> | |p| >= 2 && p[0] == p[|p| - 1] ensures Broken(asts, p) { assert !Cycle(asts, p); }
    } else if Closed(asts) {
      var p :| Cycle(asts, p);
      assert !Broken(asts, p);
    }
  }

  /** Accepted: every file parses, the includes are sound, the routes of every file with a service can be
      extracted, and one of these has a route. */
  lemma AcceptedMeans(parsed: map<string, Option<Thrift>>, extract: string -> Result<seq<Route>>)
    ensures Accepted(parsed, Trees(parsed), extract) <==>
      && (forall n :: n in parsed ==> parsed[n].Some?)
      && Sound(Trees(parsed))
      && (forall n :: n in parsed && parsed[n].value.services > 0 ==> extract(n).Ok?)
      && (exists n :: n in parsed && parsed[n].value.services > 0 && |extract(n).value| > 0)
  {
    hide Sound;
    assert forall n :: n in Trees(parsed) <==> n in parsed && parsed[n].Some?;
    if n :| n in parsed && parsed[n].Some? && parsed[n].value.services > 0 && extract(n).Ok? && |extract(n).value| > 0 {
      assert n in Trees(parsed) && Serves(Trees(parsed), extract, n);
    }
  }

  /** Served are the files with a service and a route, in the order given. */
  lemma {:induction false} BundlesMean(asts: Archive, extract: string -> Result<seq<Route>>, names: seq<string>)
    requires forall n | n in names :: n in asts
    ensures forall n :: n in Bundles(asts, extract, names) <==>
      n in names && asts[n].services > 0 && extract(n).Ok? && |extract(n).value| > 0
    ensures StringOrder.Ascending(names) ==> StringOrder.Ascending(Bundles(asts, extract, names))
  {
    if names != [] {
      var (init, last) := (names[..|names| - 1], names[|names| - 1]);
      assert names == init + [last];
      BundlesMean(asts, extract, init);
      if StringOrder.Ascending(names) {
        assert StringOrder.Ascending(init);
        ExtendAscending(Bundles(asts, extract, init), names);
      }
    }
  }

  lemma ExtendAscending(bundles: seq<string>, names: seq<string>)
    requires StringOrder.Ascending(names) && names != [] && StringOrder.Ascending(bundles)
    requires forall n | n in bundles :: n in names[..|names| - 1]
    ensures StringOrder.Ascending(bundles + [names[|names| - 1]])
  {
    forall i | 0 <= i < |bundles| ensures StringOrder.Less(bundles[i], names[|names| - 1]) {
      assert bundles[i] in bundles;
      var k :| 0 <= k < |names| - 1 && names[..|names| - 1][k] == bundles[i];
    }
  }

  /** How many routes the files with a service have together. */
  function Lengths(asts: Archive, extract: string -> Result<seq<Route>>, names: seq<string>): nat
    requires forall n | n in names :: n in asts
  {
    if names == [] then 0
    else
      var last := names[|names| - 1];
      Lengths(asts, extract, names[..|names| - 1])
      + if asts[last].services > 0 && extract(last).Ok? then |extract(last).value| else 0
  }

  /** Each served file brings all its routes, after those of the files before it, and nothing else comes in. */
  lemma {:induction false} RoutesMean(asts: Archive, extract: string -> Result<seq<Route>>, names: seq<string>, i: nat)
    requires i < |names| && forall n | n in names :: n in asts
    ensures asts[names[i]].services > 0 && extract(names[i]).Ok? ==>
      Routes(asts, extract, names[..i]) + extract(names[i]).value <= Routes(asts, extract, names)
    ensures |Routes(asts, extract, names)| == Lengths(asts, extract, names)
  {
    var (init, last) := (names[..|names| - 1], names[|names| - 1]);
    if i < |init| {
      RoutesMean(asts, extract, init, i);
      assert init[..i] == names[..i];
    } else if init != [] {
      RoutesMean(asts, extract, init, 0);
    }
  }

  /** Neither acceptance nor the resulting lists depend on `iteration`: they follow the ascending
      listing of the files, and there is only one. */
  method LoadArchive(parsed: map<string, Option<Thrift>>, iteration: seq<string>, extract: string -> Result<seq<Route>>)
    returns (r: Result<(seq<string>, seq<Route>)>)
    requires Distinct(iteration) && StringOrder.Members(iteration) == parsed.Keys
    ensures r.Ok? <==> Accepted(parsed, Trees(parsed), extract)
    ensures r.Ok? ==> exists names :: Lists(parsed, names)
    ensures r.Ok? ==> forall names :: Lists(parsed, names) ==>
      r.value == (Bundles(Trees(parsed), extract, names), Routes(Trees(parsed), extract, names))
  {
    StringOrder.SortAscends(iteration);
    var order := StringOrder.Sort(iteration);
    forall n ensures n in order <==> n in parsed { assert n in StringOrder.Members(order) <==> n in parsed.Keys; }
    var parses, trees := ParseAll(parsed, iteration);
    if !parses { return Err; }
    assert trees == Trees(parsed) && Lists(parsed, order);
    var ok, bundles, routes := ServeAll(trees, extract, order);
    if !ok { return Err; }
    SomeRoute(trees, extract, order);
    if |routes| == 0 { return Err; }
    forall names | Lists(parsed, names) ensures names == order {
      StringOrder.AscendingUnique(names, order);
    }
    r := Ok((bundles, routes));
  }
}
