/** Compiling MCP servers, reusing compiled ones, and publishing catalog changes (internal/mcp/service.go). */
module McpService {
  import opened Prelude
  import opened McpCatalog
  import opened McpEdits

  datatype Runtime = Runtime(revision: string, routes: string)

  datatype Published = Published(version: nat, runtimes: map<string, Runtime>)

  datatype Binding = Binding(text: string)

  /** The contract reader and the tool compiler: the document generated for a stored revision, the
      binding of a tool to it, and the encoded size of that binding. */
  datatype Compiler = Compiler(generate: (string, string) -> Option<string>,
                               compile: (Tool, string, Runtime, string) -> Option<Binding>, size: Binding -> nat)

  /** A server as requests meet it; `views` holds the tools each key sees. */
  datatype Compiled = Compiled(config: Server, revision: string, bindings: map<string, Binding>,
                               views: map<string, set<string>>, failed: bool)

  datatype Snapshot = Snapshot(catalog: Catalog, servers: map<string, Compiled>, endpoints: map<string, string>,
                               runtimeVersion: nat)

  const MAX_TOOLS_PER_SERVER := 100
  const MAX_DEFINITIONS := 4 * 1024 * 1024

  // ------------------------------------------------------- specification

  datatype Work = Work(bindings: map<string, Binding>, count: nat, bytes: nat, failed: bool)

  /** One tool more, unless an earlier one failed. */
  function Advance(k: Compiler, w: Work, t: Tool, cfg: Server, doc: string, r: Runtime): Work {
    if w.failed || t.serverId != cfg.id then w
    else if w.count + 1 > MAX_TOOLS_PER_SERVER then w.(count := w.count + 1, failed := true)
    else
      var b := k.compile(t, doc, r, cfg.header);
      if b.None? then w.(count := w.count + 1, failed := true)
      else
        var bytes := w.bytes + k.size(b.value);
        if bytes > MAX_DEFINITIONS then w.(count := w.count + 1, bytes := bytes, failed := true)
        else Work(w.bindings[t.id := b.value], w.count + 1, bytes, false)
  }

  function Worked(k: Compiler, ts: seq<Tool>, cfg: Server, doc: string, r: Runtime): Work {
    if ts == [] then Work(map[], 0, 0, false)
    else Advance(k, Worked(k, ts[..|ts| - 1], cfg, doc, r), ts[|ts| - 1], cfg, doc, r)
  }

  function View(bindings: map<string, Binding>, g: Grant): set<string> {
    set id | id in bindings && id in g.toolIds
  }

  function GrantViews(gs: seq<Grant>, keyId: string, cfg: Server, bindings: map<string, Binding>,
                      views: map<string, set<string>>): map<string, set<string>> {
    if gs == [] then views
    else
      var before := GrantViews(gs[..|gs| - 1], keyId, cfg, bindings, views);
      var g := gs[|gs| - 1];
      if g.serverId == cfg.id then before[keyId := View(bindings, g)] else before
  }

  function KeyViews(ks: seq<Key>, cfg: Server, bindings: map<string, Binding>): map<string, set<string>> {
    if ks == [] then map[]
    else
      var before := KeyViews(ks[..|ks| - 1], cfg, bindings);
      var k := ks[|ks| - 1];
      if k.enabled then GrantViews(k.grants, k.id, cfg, bindings, before) else before
  }

  /** A server compiled from scratch; `on` says whether its app is enabled, `readable` whether its
      contract can be read. */
  function FreshServer(k: Compiler, c: Catalog, cfg: Server, p: Published, on: bool, readable: bool): Compiled {
    var cs := Compiled(cfg, "", map[], map[], false);
    if !cfg.enabled then cs
    else if cfg.app !in p.runtimes || !on then cs.(failed := true)
    else
      var r := p.runtimes[cfg.app];
      var doc := if readable then k.generate(cfg.app, r.revision) else None;
      if doc.None? then cs.(revision := r.revision, failed := true)
      else
        var w := Worked(k, c.tools, cfg, doc.value, r);
        Compiled(cfg, r.revision, w.bindings, if w.failed then map[] else KeyViews(c.keys, cfg, w.bindings), w.failed)
  }

  /** The compiled server that may be taken over as it is. */
  predicate Reusable(prior: Option<Snapshot>, c: Catalog, cfg: Server, p: Published, on: bool) {
    && cfg.enabled && cfg.app in p.runtimes && on
    && prior.Some? && prior.value.catalog.version == c.version && prior.value.runtimeVersion == p.version
    && cfg.id in prior.value.servers && !prior.value.servers[cfg.id].failed
    && prior.value.servers[cfg.id].revision == p.runtimes[cfg.app].revision
  }

  function ServerFor(k: Compiler, prior: Option<Snapshot>, c: Catalog, cfg: Server, p: Published, on: bool,
                     readable: bool): Compiled {
    if Reusable(prior, c, cfg, p, on) then prior.value.servers[cfg.id] else FreshServer(k, c, cfg, p, on, readable)
  }

  // ------------------------------------------------- what a key gets to see

  /** Unless a tool failed, every tool of the server is bound, and nothing else. */
  lemma {:induction false} AllToolsBound(k: Compiler, ts: seq<Tool>, cfg: Server, doc: string, r: Runtime)
    requires !Worked(k, ts, cfg, doc, r).failed
    ensures forall id :: id in Worked(k, ts, cfg, doc, r).bindings <==> HasTool(ts, id, cfg.id)
    ensures Worked(k, ts, cfg, doc, r).count <= MAX_TOOLS_PER_SERVER
    ensures Worked(k, ts, cfg, doc, r).bytes <= MAX_DEFINITIONS
  {
    if ts != [] {
      var front, last := ts[..|ts| - 1], ts[|ts| - 1];
      AllToolsBound(k, front, cfg, doc, r);
      forall id ensures HasTool(ts, id, cfg.id) <==> HasTool(front, id, cfg.id) || (last.id == id && last.serverId == cfg.id) {
        if HasTool(front, id, cfg.id) {
          var i :| 0 <= i < |front| && front[i].id == id && front[i].serverId == cfg.id;
          assert ts[i].id == id;
        }
        if last.id == id && last.serverId == cfg.id { assert ts[|ts| - 1].id == id; }
      }
    }
  }

  /** The tools of one server, in order. */
  function Own(ts: seq<Tool>, serverId: string): seq<Tool> {
    if ts == [] then []
    else Own(ts[..|ts| - 1], serverId) + if ts[|ts| - 1].serverId == serverId then [ts[|ts| - 1]] else []
  }

  /** The encoded size of all bindings together. */
  function Weight(k: Compiler, own: seq<Tool>, doc: string, r: Runtime, header: string): nat {
    if own == [] then 0
    else
      var b := k.compile(own[|own| - 1], doc, r, header);
      Weight(k, own[..|own| - 1], doc, r, header) + if b.Some? then k.size(b.value) else 0
  }

  /** Why the tools of a server cannot be served: there are more than a hundred, one does not compile, or
      their definitions take more than 4 MiB. */
  ghost predicate Excessive(k: Compiler, own: seq<Tool>, doc: string, r: Runtime, header: string) {
    || |own| > 100
    || (exists i :: 0 <= i < |own| && k.compile(own[i], doc, r, header).None?)
    || Weight(k, own, doc, r, header) > 4194304
  }

  /** Every tool is bound to what it compiles to, with the server's own header, and nothing else is bound. */
  ghost predicate BoundTo(k: Compiler, own: seq<Tool>, doc: string, r: Runtime, header: string, bindings: map<string, Binding>) {
    && (forall i :: 0 <= i < |own| ==>
          own[i].id in bindings && k.compile(own[i], doc, r, header) == Some(bindings[own[i].id]))
    && forall id :: id in bindings ==> exists i :: 0 <= i < |own| && own[i].id == id
  }

  ghost predicate ToolsApart(ts: seq<Tool>) {
    forall i, j :: 0 <= i < j < |ts| ==> ts[i].id != ts[j].id
  }

  lemma {:induction false} OwnIs(ts: seq<Tool>, serverId: string)
    ensures forall t :: t in Own(ts, serverId) <==> t in ts && t.serverId == serverId
    ensures ToolsApart(ts) ==> ToolsApart(Own(ts, serverId))
  {
    if ts != [] {
      var front, last := ts[..|ts| - 1], ts[|ts| - 1];
      OwnIs(front, serverId);
      assert forall t :: t in ts <==> t in front || t == last;
      if ToolsApart(ts) {
        forall t | t in front ensures t.id != last.id {
          var i :| 0 <= i < |front| && front[i] == t;
          assert ts[i].id != ts[|ts| - 1].id;
        }
      }
    }
  }

  /** The outcome of the tool loop, spelled out. */
  ghost predicate Tooled(k: Compiler, w: Work, own: seq<Tool>, doc: string, r: Runtime, header: string) {
    && (w.failed <==> Excessive(k, own, doc, r, header))
    && (!w.failed ==> w.count == |own| && w.bytes == Weight(k, own, doc, r, header))
    && (!w.failed && ToolsApart(own) ==> BoundTo(k, own, doc, r, header, w.bindings))
  }

  lemma {:induction false} WorkedMeans(k: Compiler, ts: seq<Tool>, cfg: Server, doc: string, r: Runtime)
    ensures Tooled(k, Worked(k, ts, cfg, doc, r), Own(ts, cfg.id), doc, r, cfg.header)
  {
    if ts != [] {
      hide Tooled, Advance;
      var front, last := ts[..|ts| - 1], ts[|ts| - 1];
      WorkedMeans(k, front, cfg, doc, r);
      AdvanceMeans(k, Worked(k, front, cfg, doc, r), Own(front, cfg.id), last, cfg, doc, r);
    } else {
      assert Own(ts, cfg.id) == [];
    }
  }

  lemma AdvanceMeans(k: Compiler, w: Work, own: seq<Tool>, t: Tool, cfg: Server, doc: string, r: Runtime)
    requires Tooled(k, w, own, doc, r, cfg.header)
    ensures Tooled(k, Advance(k, w, t, cfg, doc, r), own + if t.serverId == cfg.id then [t] else [], doc, r, cfg.header)
  {
    hide Excessive, BoundTo, ToolsApart, Weight;
    if t.serverId == cfg.id {
      OneToolMore(k, own, t, doc, r, cfg.header);
      FewerApart(own + [t]);
      assert (own + [t])[..|own|] == own;
      var b := k.compile(t, doc, r, cfg.header);
      if b.Some? && ToolsApart(own + [t]) && BoundTo(k, own, doc, r, cfg.header, w.bindings) {
        OneBindingMore(k, own, t, doc, r, cfg.header, w.bindings, b.value);
      }
    } else {
      assert own + [] == own;
    }
  }

  lemma FewerApart(ts: seq<Tool>)
    requires ts != []
    ensures ToolsApart(ts) ==> ToolsApart(ts[..|ts| - 1])
  {
  }

  lemma OneBindingMore(k: Compiler, own: seq<Tool>, t: Tool, doc: string, r: Runtime, header: string,
                       bindings: map<string, Binding>, b: Binding)
    requires BoundTo(k, own, doc, r, header, bindings) && ToolsApart(own + [t]) && k.compile(t, doc, r, header) == Some(b)
    ensures BoundTo(k, own + [t], doc, r, header, bindings[t.id := b])
  {
    var more := own + [t];
    forall i | 0 <= i < |own| ensures more[i] == own[i] && own[i].id != t.id { assert more[i].id != more[|own|].id; }
    assert more[|own|].id == t.id;
    forall id ensures id in bindings ==> exists i :: 0 <= i < |more| && more[i].id == id {
      if id in bindings {
        var i :| 0 <= i < |own| && own[i].id == id;
        assert more[i].id == id;
      }
    }
  }

  lemma OneToolMore(k: Compiler, own: seq<Tool>, t: Tool, doc: string, r: Runtime, header: string)
    ensures Weight(k, own + [t], doc, r, header) ==
      Weight(k, own, doc, r, header) + match k.compile(t, doc, r, header) case Some(b) => k.size(b) case None => 0
    ensures Excessive(k, own + [t], doc, r, header) <==>
      || Excessive(k, own, doc, r, header) || |own| + 1 > 100 || k.compile(t, doc, r, header).None?
      || Weight(k, own + [t], doc, r, header) > 4194304
  {
    OneWeightMore(k, own, t, doc, r, header);
    hide Weight;
    var more := own + [t];
    assert more[|own|] == t && forall i :: 0 <= i < |own| ==> more[i] == own[i];
  }

  lemma OneWeightMore(k: Compiler, own: seq<Tool>, t: Tool, doc: string, r: Runtime, header: string)
    ensures Weight(k, own + [t], doc, r, header) ==
      Weight(k, own, doc, r, header) + match k.compile(t, doc, r, header) case Some(b) => k.size(b) case None => 0
  {
    assert (own + [t])[..|own|] == own;
  }

  function GrantOn(gs: seq<Grant>, serverId: string): Option<Grant> {
    if gs == [] then None
    else if gs[|gs| - 1].serverId == serverId then Some(gs[|gs| - 1]) else GrantOn(gs[..|gs| - 1], serverId)
  }

  lemma {:induction false} GrantOnIs(gs: seq<Grant>, serverId: string)
    ensures GrantOn(gs, serverId).Some? ==> GrantOn(gs, serverId).value in gs && GrantOn(gs, serverId).value.serverId == serverId
    ensures GrantOn(gs, serverId).None? ==> forall i :: 0 <= i < |gs| ==> gs[i].serverId != serverId
  {
    if gs != [] { GrantOnIs(gs[..|gs| - 1], serverId); }
  }

  lemma {:induction false} GrantViewsIs(gs: seq<Grant>, keyId: string, cfg: Server, bindings: map<string, Binding>,
                                        views: map<string, set<string>>)
    ensures GrantViews(gs, keyId, cfg, bindings, views) ==
      if GrantOn(gs, cfg.id).Some? then views[keyId := View(bindings, GrantOn(gs, cfg.id).value)] else views
  {
    if gs != [] { GrantViewsIs(gs[..|gs| - 1], keyId, cfg, bindings, views); }
  }

  lemma {:induction false} KeyViewsIs(ks: seq<Key>, cfg: Server, bindings: map<string, Binding>, i: nat)
    requires i < |ks| && forall a, b :: 0 <= a < b < |ks| ==> ks[a].id != ks[b].id
    ensures var (v, g) := (KeyViews(ks, cfg, bindings), GrantOn(ks[i].grants, cfg.id));
      && (ks[i].id in v <==> ks[i].enabled && g.Some?)
      && (ks[i].id in v ==> v[ks[i].id] == View(bindings, g.value))
  {
    hide View, GrantOn;
    var front, last := ks[..|ks| - 1], ks[|ks| - 1];
    if last.enabled { GrantViewsIs(last.grants, last.id, cfg, bindings, KeyViews(front, cfg, bindings)); }
    if i < |front| {
      KeyViewsIs(front, cfg, bindings, i);
    } else {
      NoViewYet(front, cfg, bindings, last.id);
    }
  }

  lemma {:induction false} NoViewYet(ks: seq<Key>, cfg: Server, bindings: map<string, Binding>, id: string)
    requires forall a :: 0 <= a < |ks| ==> ks[a].id != id
    ensures id !in KeyViews(ks, cfg, bindings)
  {
    hide View, GrantOn;
    if ks != [] {
      var front, last := ks[..|ks| - 1], ks[|ks| - 1];
      if last.enabled { GrantViewsIs(last.grants, last.id, cfg, bindings, KeyViews(front, cfg, bindings)); }
      NoViewYet(front, cfg, bindings, id);
    }
  }

  /** On a compiled server of a consistent catalog a key sees exactly the tools granted to it there; a
      disabled key, or one without a grant, sees nothing. */
  lemma KeySeesItsGrants(rules: Rules, k: Compiler, c: Catalog, s: nat, i: nat, p: Published, on: bool, readable: bool)
    requires Valid(rules, c) && s < |c.servers| && i < |c.keys| && c.servers[s].enabled
    requires !FreshServer(k, c, c.servers[s], p, on, readable).failed
    ensures var (cs, key) := (FreshServer(k, c, c.servers[s], p, on, readable), c.keys[i]);
      && (key.id in cs.views <==> key.enabled && exists g :: g in key.grants && g.serverId == c.servers[s].id)
      && forall g :: g in key.grants && g.serverId == c.servers[s].id && key.enabled ==>
           cs.views[key.id] == set id | id in g.toolIds
  {
    hide Valid, Worked, KeyViews, GrantOn;
    var cfg, key := c.servers[s], c.keys[i];
    var r := p.runtimes[cfg.app];
    var doc := k.generate(cfg.app, r.revision).value;
    var bindings := Worked(k, c.tools, cfg, doc, r).bindings;
    ValidParts(rules, c);
    AllToolsBound(k, c.tools, cfg, doc, r);
    KeyViewsIs(c.keys, cfg, bindings, i);
    GrantOnIs(key.grants, cfg.id);
    forall g | g in key.grants && g.serverId == cfg.id
      ensures GrantOn(key.grants, cfg.id) == Some(g)
      ensures View(bindings, g) == set id | id in g.toolIds
    {
      GrantIsOnly(c, key.grants, g);
    }
  }

  /** Every enabled key with a grant on the server sees just the tools granted there, and no other key anything. */
  ghost predicate ViewsTold(ks: seq<Key>, serverId: string, views: map<string, set<string>>) {
    && (forall i :: 0 <= i < |ks| ==>
          (ks[i].id in views <==> ks[i].enabled && exists g :: g in ks[i].grants && g.serverId == serverId))
    && (forall i, g :: 0 <= i < |ks| && ks[i].enabled && g in ks[i].grants && g.serverId == serverId ==>
          ks[i].id in views && views[ks[i].id] == set id | id in g.toolIds)
    && forall id :: id in views ==> exists i :: 0 <= i < |ks| && ks[i].id == id
  }

  /** What a compiled server is, without saying how it is computed. */
  ghost predicate Told(k: Compiler, c: Catalog, cfg: Server, p: Published, on: bool, readable: bool, cs: Compiled) {
    && cs.config == cfg
    && (!cfg.enabled ==> !cs.failed && cs.bindings == map[] && cs.views == map[])
    && (cfg.enabled && !(cfg.app in p.runtimes && on) ==> cs.failed && cs.bindings == map[] && cs.views == map[])
    && (cfg.enabled && cfg.app in p.runtimes && on ==>
          var r := p.runtimes[cfg.app];
          var doc := k.generate(cfg.app, r.revision);
          var own := Own(c.tools, cfg.id);
          && cs.revision == r.revision
          && (cs.failed <==> !readable || doc.None? || Excessive(k, own, doc.value, r, cfg.header))
          && (cs.failed ==> cs.views == map[])
          && (!cs.failed ==> BoundTo(k, own, doc.value, r, cfg.header, cs.bindings) && ViewsTold(c.keys, cfg.id, cs.views)))
  }

  lemma FreshIsTold(rules: Rules, k: Compiler, c: Catalog, s: nat, p: Published, on: bool, readable: bool)
    requires Valid(rules, c) && s < |c.servers|
    ensures Told(k, c, c.servers[s], p, on, readable, FreshServer(k, c, c.servers[s], p, on, readable))
  {
    hide Valid, Worked, KeyViews, ViewsTold, Excessive, BoundTo, Own;
    var cfg := c.servers[s];
    if cfg.enabled && cfg.app in p.runtimes && on && readable && k.generate(cfg.app, p.runtimes[cfg.app].revision).Some? {
      var r := p.runtimes[cfg.app];
      var doc := k.generate(cfg.app, r.revision).value;
      WorkedMeans(k, c.tools, cfg, doc, r);
      OwnIs(c.tools, cfg.id);
      ToolsOfValid(rules, c);
      if !Worked(k, c.tools, cfg, doc, r).failed { ViewsAreTold(rules, k, c, s, p, on, readable); }
    }
  }

  lemma ToolsOfValid(rules: Rules, c: Catalog)
    requires Valid(rules, c)
    ensures ToolsApart(c.tools)
  {
    ValidParts(rules, c);
  }

  lemma ViewsAreTold(rules: Rules, k: Compiler, c: Catalog, s: nat, p: Published, on: bool, readable: bool)
    requires Valid(rules, c) && s < |c.servers| && c.servers[s].enabled
    requires !FreshServer(k, c, c.servers[s], p, on, readable).failed
    ensures ViewsTold(c.keys, c.servers[s].id, FreshServer(k, c, c.servers[s], p, on, readable).views)
  {
    hide Valid, Worked, KeyViews;
    var cs := FreshServer(k, c, c.servers[s], p, on, readable);
    forall i | 0 <= i < |c.keys|
      ensures c.keys[i].id in cs.views <==>
                c.keys[i].enabled && exists g :: g in c.keys[i].grants && g.serverId == c.servers[s].id
      ensures forall g :: g in c.keys[i].grants && g.serverId == c.servers[s].id && c.keys[i].enabled ==>
                cs.views[c.keys[i].id] == set id | id in g.toolIds
    {
      KeySeesItsGrants(rules, k, c, s, i, p, on, readable);
    }
    forall id | id in cs.views ensures exists i :: 0 <= i < |c.keys| && c.keys[i].id == id {
      OnlyKeysView(c.keys, c.servers[s], cs.bindings, id);
    }
  }

  lemma {:induction false} OnlyKeysView(ks: seq<Key>, cfg: Server, bindings: map<string, Binding>, id: string)
    requires id in KeyViews(ks, cfg, bindings)
    ensures exists i :: 0 <= i < |ks| && ks[i].id == id
  {
    hide View, GrantOn;
    if forall i :: 0 <= i < |ks| ==> ks[i].id != id { NoViewYet(ks, cfg, bindings, id); }
  }

  lemma GrantIsOnly(c: Catalog, gs: seq<Grant>, g: Grant)
    requires GrantsOk(c.servers, c.tools, gs) && g in gs
    ensures GrantOn(gs, g.serverId) == Some(g)
    ensures forall id :: id in g.toolIds ==> HasTool(c.tools, id, g.serverId)
  {
    GrantOnIs(gs, g.serverId);
    var j :| 0 <= j < |gs| && gs[j] == g;
    assert GrantOk(c.servers, c.tools, gs[j]);
  }

  // --------------------------------------------------- versions and reuse

  /** A store version names one content (0: nothing stored), and so does a runtime version. */
  datatype History = History(catalogAt: nat -> Catalog, runtimeAt: nat -> Published)

  ghost predicate Stored(h: History, c: Catalog) {
    c == h.catalogAt(c.version) && (c.version == 0 ==> c.servers == [])
  }

  ghost predicate FromHistory(k: Compiler, h: History, s: Snapshot, cfg: Server) {
    cfg.id in s.servers && exists on, readable ::
      s.servers[cfg.id] == FreshServer(k, s.catalog, cfg, h.runtimeAt(s.runtimeVersion), on, readable)
  }

  ghost predicate Consistent(k: Compiler, h: History, s: Snapshot) {
    && Stored(h, s.catalog)
    && s.servers.Keys == (set i | 0 <= i < |s.catalog.servers| :: s.catalog.servers[i].id)
    && forall i :: 0 <= i < |s.catalog.servers| ==> FromHistory(k, h, s, s.catalog.servers[i])
  }

  lemma ReadableFresh(k: Compiler, c: Catalog, cfg: Server, p: Published, on: bool, readable: bool)
    requires cfg.enabled && !FreshServer(k, c, cfg, p, on, readable).failed
    ensures on && FreshServer(k, c, cfg, p, on, readable) == FreshServer(k, c, cfg, p, true, true)
  {
  }

  /** A compiled server that is taken over is the one a fresh build would produce with its contract at hand. */
  lemma ReuseIsTransparent(k: Compiler, h: History, prior: Snapshot, c: Catalog, i: nat, p: Published, on: bool)
    requires Consistent(k, h, prior) && Stored(h, c) && p == h.runtimeAt(p.version)
    requires i < |c.servers| && Reusable(Some(prior), c, c.servers[i], p, on)
    ensures prior.servers[c.servers[i].id] == FreshServer(k, c, c.servers[i], p, on, true)
  {
    hide FreshServer;
    var cfg := c.servers[i];
    assert prior.catalog == c && FromHistory(k, h, prior, cfg);
    var on', readable :| prior.servers[cfg.id] == FreshServer(k, c, cfg, p, on', readable);
    ReadableFresh(k, c, cfg, p, on', readable);
  }

  /** A change that is not stored yet carries version 0 and never takes anything over. */
  lemma PendingNeverReuses(k: Compiler, h: History, prior: Option<Snapshot>, c: Catalog, cfg: Server, p: Published, on: bool)
    requires prior.Some? ==> Consistent(k, h, prior.value)
    requires c.version == 0
    ensures !Reusable(prior, c, cfg, p, on)
  {
    if prior.Some? && prior.value.catalog.version == 0 {
      assert prior.value.servers.Keys == {};
    }
  }

  // ---------------------------------------------------------- the service

  /** What one build meets: the enabled apps, the pinned runtimes, and which contract reads succeed. */
  datatype Surroundings = Surroundings(enabled: set<string>, published: Published, readable: nat -> bool)

  /** The build generates (or looks up) the document of this server's app. */
  predicate Compiles(k: Compiler, prior: Option<Snapshot>, c: Catalog, u: Surroundings, j: nat)
    requires j < |c.servers|
  {
    var cfg := c.servers[j];
    cfg.enabled && cfg.app in u.published.runtimes && cfg.app in u.enabled &&
    !Reusable(prior, c, cfg, u.published, cfg.app in u.enabled)
  }

  /** A document generated for an earlier server of the same app is used again. */
  predicate Readable(k: Compiler, prior: Option<Snapshot>, c: Catalog, u: Surroundings, i: nat)
    requires i < |c.servers|
  {
    u.readable(i) ||
    exists j :: 0 <= j < i && c.servers[j].app == c.servers[i].app && Compiles(k, prior, c, u, j) && u.readable(j)
  }

  ghost function BuiltServer(k: Compiler, prior: Option<Snapshot>, c: Catalog, u: Surroundings, i: nat): Compiled
    requires i < |c.servers|
  {
    var cfg := c.servers[i];
    ServerFor(k, prior, c, cfg, u.published, cfg.app in u.enabled, Readable(k, prior, c, u, i))
  }

  /** The path is one of the first `n` servers or the first `m` of the next. */
  ghost predicate Leads(rules: Rules, ss: seq<Server>, n: nat, m: nat, e: string) {
    exists i: nat, a: nat ::
      i < |ss| && a < |ss[i].endpoints| && (i < n || (i == n && a < m)) && EndpointAt(rules, ss, i, a) == Some(e)
  }

  /** The snapshot that `build` returns. */
  ghost predicate Built(k: Compiler, rules: Rules, prior: Option<Snapshot>, c: Catalog, u: Surroundings, s: Snapshot) {
    && s.catalog == c && s.runtimeVersion == u.published.version
    && s.servers.Keys == (set i | 0 <= i < |c.servers| :: c.servers[i].id)
    && (forall i :: 0 <= i < |c.servers| ==> s.servers[c.servers[i].id] == BuiltServer(k, prior, c, u, i))
    && (forall i: nat, a: nat :: i < |c.servers| && a < |c.servers[i].endpoints| && EndpointAt(rules, c.servers, i, a).Some? ==>
          var e := EndpointAt(rules, c.servers, i, a).value;
          e in s.endpoints && s.endpoints[e] == c.servers[i].id)
    && forall e :: e in s.endpoints ==> Leads(rules, c.servers, |c.servers|, 0, e)
  }

  lemma BuiltIsConsistent(k: Compiler, rules: Rules, h: History, prior: Option<Snapshot>, c: Catalog, u: Surroundings,
                          s: Snapshot)
    requires prior.Some? ==> Consistent(k, h, prior.value)
    requires Stored(h, c) && u.published == h.runtimeAt(u.published.version)
    requires Built(k, rules, prior, c, u, s)
    ensures Consistent(k, h, s)
  {
    hide FreshServer, Readable, EndpointAt;
    forall i | 0 <= i < |c.servers| ensures FromHistory(k, h, s, c.servers[i]) {
      var cfg := c.servers[i];
      if Reusable(prior, c, cfg, u.published, cfg.app in u.enabled) {
        ReuseIsTransparent(k, h, prior.value, c, i, u.published, cfg.app in u.enabled);
      }
    }
  }

  /** Every server of a build is what its configuration says; one that is taken over needs no contract. */
  ghost predicate AllTold(k: Compiler, prior: Option<Snapshot>, c: Catalog, u: Surroundings, s: Snapshot) {
    forall i :: 0 <= i < |c.servers| ==>
      var (cfg, on) := (c.servers[i], c.servers[i].app in u.enabled);
      && cfg.id in s.servers
      && Told(k, c, cfg, u.published, on, Readable(k, prior, c, u, i) || Reusable(prior, c, cfg, u.published, on),
              s.servers[cfg.id])
  }

  lemma BuiltIsTold(k: Compiler, rules: Rules, h: History, prior: Option<Snapshot>, c: Catalog, u: Surroundings, s: Snapshot)
    requires prior.Some? ==> Consistent(k, h, prior.value)
    requires Stored(h, c) || c.version == 0
    requires u.published == h.runtimeAt(u.published.version)
    requires Built(k, rules, prior, c, u, s) && Valid(rules, c)
    ensures AllTold(k, prior, c, u, s)
  {
    hide FreshServer, Readable, EndpointAt, Valid, Told, Consistent, Reusable;
    forall i | 0 <= i < |c.servers|
      ensures var (cfg, on) := (c.servers[i], c.servers[i].app in u.enabled);
        && cfg.id in s.servers
        && Told(k, c, cfg, u.published, on, Readable(k, prior, c, u, i) || Reusable(prior, c, cfg, u.published, on),
                s.servers[cfg.id])
    {
      var (cfg, on) := (c.servers[i], c.servers[i].app in u.enabled);
      if c.version == 0 { PendingNeverReuses(k, h, prior, c, cfg, u.published, on); }
      if Reusable(prior, c, cfg, u.published, on) {
        ReusableHasPrior(prior, c, cfg, u.published, on);
        ReuseIsTransparent(k, h, prior.value, c, i, u.published, on);
        FreshIsTold(rules, k, c, i, u.published, on, true);
      } else {
        FreshIsTold(rules, k, c, i, u.published, on, Readable(k, prior, c, u, i));
      }
    }
  }

  /** Nothing stands in the way of the server: its app is up, its contract can be read and described, and
      its tools compile within the limits. */
  ghost predicate Compilable(k: Compiler, c: Catalog, cfg: Server, u: Surroundings, i: nat) {
    && cfg.app in u.published.runtimes && cfg.app in u.enabled
    && i < |c.servers| && Readable(k, None, c, u, i)
    && var r := u.published.runtimes[cfg.app];
      && k.generate(cfg.app, r.revision).Some?
      && !Excessive(k, Own(c.tools, cfg.id), k.generate(cfg.app, r.revision).value, r, cfg.header)
  }

  /** The server a tool or server change is about compiles from scratch, unless it is switched off. */
  ghost predicate TargetCompiles(k: Compiler, prior: Option<Snapshot>, c: Catalog, m: Mutation, id: string, u: Surroundings) {
    !m.delete && (m.kind == "tool" || m.kind == "server") ==>
      var target := if m.kind == "tool" then m.tool.serverId else id;
      forall i :: 0 <= i < |c.servers| && c.servers[i].enabled && c.servers[i].id == target ==>
        !FreshServer(k, c, c.servers[i], u.published, c.servers[i].app in u.enabled, Readable(k, prior, c, u, i)).failed
  }

  lemma TargetIsCompilable(rules: Rules, k: Compiler, h: History, prior: Option<Snapshot>, c: Catalog, m: Mutation, id: string,
                           u: Surroundings, i: nat)
    requires prior.Some? ==> Consistent(k, h, prior.value)
    requires Valid(rules, c) && c.version == 0 && TargetCompiles(k, prior, c, m, id, u) && !m.delete
    requires i < |c.servers| && c.servers[i].enabled
    requires (m.kind == "server" && c.servers[i].id == id) || (m.kind == "tool" && c.servers[i].id == m.tool.serverId)
    ensures Compilable(k, c, c.servers[i], u, i)
  {
    hide Valid, FreshServer, Excessive, Own, BoundTo, ViewsTold, Consistent, Compiles;
    FreshIsTold(rules, k, c, i, u.published, c.servers[i].app in u.enabled, Readable(k, prior, c, u, i));
    PriorIsNoMatter(k, h, prior, c, u, i);
  }

  lemma AllTargetsCompilable(rules: Rules, k: Compiler, h: History, prior: Option<Snapshot>, c: Catalog, m: Mutation,
                             id: string, u: Surroundings)
    requires prior.Some? ==> Consistent(k, h, prior.value)
    requires Valid(rules, c) && c.version == 0 && TargetCompiles(k, prior, c, m, id, u)
    ensures !m.delete ==> forall i :: 0 <= i < |c.servers| && c.servers[i].enabled ==>
      && (m.kind == "server" && c.servers[i].id == id ==> Compilable(k, c, c.servers[i], u, i))
      && (m.kind == "tool" && c.servers[i].id == m.tool.serverId ==> Compilable(k, c, c.servers[i], u, i))
  {
    hide Valid, Consistent, TargetCompiles, Compilable;
    if !m.delete {
      forall i | 0 <= i < |c.servers| && c.servers[i].enabled
        ensures m.kind == "server" && c.servers[i].id == id ==> Compilable(k, c, c.servers[i], u, i)
        ensures m.kind == "tool" && c.servers[i].id == m.tool.serverId ==> Compilable(k, c, c.servers[i], u, i)
      {
        if (m.kind == "server" && c.servers[i].id == id) || (m.kind == "tool" && c.servers[i].id == m.tool.serverId) {
          TargetIsCompilable(rules, k, h, prior, c, m, id, u, i);
        }
      }
    }
  }

  /** A creation is about the fresh id, any other edit about the one it names. */
  lemma EditedId(c: Catalog, m: Mutation, freshId: string, freshHash: string)
    requires Edited(c, m, freshId, freshHash).Some? && !m.delete && m.kind == "server"
    ensures Edited(c, m, freshId, freshHash).value.1 == if m.id == "" then freshId else m.id
  {
  }

  lemma PriorIsNoMatter(k: Compiler, h: History, prior: Option<Snapshot>, c: Catalog, u: Surroundings, i: nat)
    requires prior.Some? ==> Consistent(k, h, prior.value)
    requires c.version == 0 && i < |c.servers|
    ensures Readable(k, prior, c, u, i) == Readable(k, None, c, u, i)
  {
    hide Reusable, Consistent;
    forall j | 0 <= j < |c.servers|
      ensures Compiles(k, prior, c, u, j) == Compiles(k, None, c, u, j)
    {
      PendingNeverReuses(k, h, prior, c, c.servers[j], u.published, c.servers[j].app in u.enabled);
      NothingToReuse(c, c.servers[j], u.published, c.servers[j].app in u.enabled);
    }
  }

  lemma NothingToReuse(c: Catalog, cfg: Server, p: Published, on: bool)
    ensures !Reusable(None, c, cfg, p, on)
  {
  }

  lemma ReusableHasPrior(prior: Option<Snapshot>, c: Catalog, cfg: Server, p: Published, on: bool)
    requires Reusable(prior, c, cfg, p, on)
    ensures prior.Some?
  {
  }

  /** With every contract readable, a build that takes servers over equals one that compiles them all. */
  lemma CacheIsTransparent(k: Compiler, rules: Rules, h: History, prior: Snapshot, c: Catalog, u: Surroundings,
                           s: Snapshot, i: nat)
    requires Consistent(k, h, prior) && Stored(h, c) && u.published == h.runtimeAt(u.published.version)
    requires Built(k, rules, Some(prior), c, u, s) && i < |c.servers| && forall j :: u.readable(j)
    ensures s.servers[c.servers[i].id] == BuiltServer(k, None, c, u, i)
  {
    hide FreshServer, EndpointAt;
    var cfg := c.servers[i];
    if Reusable(Some(prior), c, cfg, u.published, cfg.app in u.enabled) {
      ReuseIsTransparent(k, h, prior, c, i, u.published, cfg.app in u.enabled);
    }
  }

  /** The paths of the first `n` servers and the first `m` of the next lead to their servers. */
  ghost predicate Routed(rules: Rules, ss: seq<Server>, n: nat, m: nat, endpoints: map<string, string>)
    requires n <= |ss| && (n < |ss| ==> m <= |ss[n].endpoints|)
  {
    && (forall i: nat, a: nat ::
          i < |ss| && (i < n || (i == n && a < m)) && a < |ss[i].endpoints| && EndpointAt(rules, ss, i, a).Some? ==>
          EndpointAt(rules, ss, i, a).value in endpoints && endpoints[EndpointAt(rules, ss, i, a).value] == ss[i].id)
    && forall e :: e in endpoints ==> Leads(rules, ss, n, m, e)
  }

  lemma LeadsFurther(rules: Rules, ss: seq<Server>, n: nat, m: nat, n': nat, m': nat, e: string)
    requires Leads(rules, ss, n, m, e) && (n < n' || (n == n' && m <= m'))
    ensures Leads(rules, ss, n', m', e)
  {
    var i: nat, a: nat :|
      i < |ss| && a < |ss[i].endpoints| && (i < n || (i == n && a < m)) && EndpointAt(rules, ss, i, a) == Some(e);
    assert i < n' || (i == n' && a < m');
  }

  /** What a snapshot is of: this catalog on the runtimes of that version, with its servers and their paths, and
      no others. */
  ghost predicate Covers(rules: Rules, c: Catalog, version: nat, s: Snapshot) {
    && s.catalog == c && s.runtimeVersion == version
    && (forall id :: id in s.servers <==> exists v :: v in c.servers && v.id == id)
    && (forall v, e :: v in c.servers && e in v.endpoints && rules.endpointKey(e).Some? ==>
          rules.endpointKey(e).value in s.endpoints && s.endpoints[rules.endpointKey(e).value] == v.id)
    && forall p :: p in s.endpoints ==>
         exists v, e :: v in c.servers && e in v.endpoints && rules.endpointKey(e) == Some(p)
  }

  lemma BuiltNames(k: Compiler, rules: Rules, prior: Option<Snapshot>, c: Catalog, u: Surroundings, s: Snapshot, id: string)
    requires Built(k, rules, prior, c, u, s)
    ensures id in s.servers <==> exists v :: v in c.servers && v.id == id
  {
    hide BuiltServer, EndpointAt, Leads;
    if id in s.servers {
      var i :| 0 <= i < |c.servers| && c.servers[i].id == id;
      assert c.servers[i] in c.servers;
    }
    if v :| v in c.servers && v.id == id { var i :| 0 <= i < |c.servers| && c.servers[i] == v; }
  }

  lemma BuiltLeads(k: Compiler, rules: Rules, prior: Option<Snapshot>, c: Catalog, u: Surroundings, s: Snapshot, v: Server,
                   e: string)
    requires Built(k, rules, prior, c, u, s) && v in c.servers && e in v.endpoints && rules.endpointKey(e).Some?
    ensures rules.endpointKey(e).value in s.endpoints && s.endpoints[rules.endpointKey(e).value] == v.id
  {
    hide BuiltServer, Leads;
    var i :| 0 <= i < |c.servers| && c.servers[i] == v;
    var a :| 0 <= a < |v.endpoints| && v.endpoints[a] == e;
    assert EndpointAt(rules, c.servers, i, a) == rules.endpointKey(e);
  }

  lemma SomeoneLeads(rules: Rules, c: Catalog, p: string)
    requires Leads(rules, c.servers, |c.servers|, 0, p)
    ensures exists v, e :: v in c.servers && e in v.endpoints && rules.endpointKey(e) == Some(p)
  {
    var i: nat, a: nat :| i < |c.servers| && a < |c.servers[i].endpoints| && EndpointAt(rules, c.servers, i, a) == Some(p);
    assert c.servers[i] in c.servers && c.servers[i].endpoints[a] in c.servers[i].endpoints;
  }

  lemma BuiltCovers(k: Compiler, rules: Rules, prior: Option<Snapshot>, c: Catalog, u: Surroundings, s: Snapshot)
    requires Built(k, rules, prior, c, u, s)
    ensures Covers(rules, c, u.published.version, s)
  {
    hide BuiltServer, EndpointAt, Leads;
    forall id ensures id in s.servers <==> exists v :: v in c.servers && v.id == id {
      BuiltNames(k, rules, prior, c, u, s, id);
    }
    forall v, e | v in c.servers && e in v.endpoints && rules.endpointKey(e).Some?
      ensures rules.endpointKey(e).value in s.endpoints && s.endpoints[rules.endpointKey(e).value] == v.id
    {
      BuiltLeads(k, rules, prior, c, u, s, v, e);
    }
    forall p | p in s.endpoints
      ensures exists v, e :: v in c.servers && e in v.endpoints && rules.endpointKey(e) == Some(p)
    {
      SomeoneLeads(rules, c, p);
    }
  }

  ghost predicate Documents(k: Compiler, prior: Option<Snapshot>, c: Catalog, u: Surroundings, i: nat, docs: map<string, string>)
    requires i <= |c.servers|
  {
    && (forall app :: app in docs ==>
          && app in u.published.runtimes && k.generate(app, u.published.runtimes[app].revision) == Some(docs[app])
          && exists j :: 0 <= j < i && c.servers[j].app == app && Compiles(k, prior, c, u, j) && u.readable(j))
    && forall j :: 0 <= j < i && Compiles(k, prior, c, u, j) && u.readable(j) ==>
         k.generate(c.servers[j].app, u.published.runtimes[c.servers[j].app].revision).Some? ==> c.servers[j].app in docs
  }

  class Service {
    const compiler: Compiler
    const rules: Rules
    ghost const history: History
    var current: Option<Snapshot>

    ghost predicate Sane()
      reads this
    {
      current.Some? ==> Consistent(compiler, history, current.value)
    }

    constructor (compiler: Compiler, rules: Rules, ghost history: History)
      ensures this.compiler == compiler && this.rules == rules && this.history == history
      ensures Sane() && current.None?
    {
      this.compiler, this.rules, this.history := compiler, rules, history;
      current := None;
    }

    /** The tools of one server: bound to what they compile to, or refused for one of three reasons. */
    method CompileTools(c: Catalog, cfg: Server, doc: string, r: Runtime) returns (w: Work)
      ensures w == Worked(compiler, c.tools, cfg, doc, r)
      ensures w.failed <==> Excessive(compiler, Own(c.tools, cfg.id), doc, r, cfg.header)
      ensures !w.failed && ToolsApart(c.tools) ==>
        BoundTo(compiler, Own(c.tools, cfg.id), doc, r, cfg.header, w.bindings)
    {
      hide Excessive, BoundTo, ToolsApart;
      w := ToolLoop(c, cfg, doc, r);
      WorkedMeans(compiler, c.tools, cfg, doc, r);
      OwnIs(c.tools, cfg.id);
    }

    /** The tool loop of `build`, with its `break`s. */
    method ToolLoop(c: Catalog, cfg: Server, doc: string, r: Runtime) returns (w: Work)
      ensures w == Worked(compiler, c.tools, cfg, doc, r)
    {
      var bindings: map<string, Binding> := map[];
      var count: nat, bytes: nat := 0, 0;
      for i := 0 to |c.tools|
        invariant Worked(compiler, c.tools[..i], cfg, doc, r) == Work(bindings, count, bytes, false)
      {
        var t := c.tools[i];
        assert c.tools[..i + 1][..i] == c.tools[..i];
        if t.serverId == cfg.id {
          count := count + 1;
          if count > MAX_TOOLS_PER_SERVER {
            StaysFailed(compiler, c.tools, cfg, doc, r, i + 1);
            return Work(bindings, count, bytes, true);
          }
          var b := compiler.compile(t, doc, r, cfg.header);
          if b.None? {
            StaysFailed(compiler, c.tools, cfg, doc, r, i + 1);
            return Work(bindings, count, bytes, true);
          }
          bytes := bytes + compiler.size(b.value);
          if bytes > MAX_DEFINITIONS {
            StaysFailed(compiler, c.tools, cfg, doc, r, i + 1);
            return Work(bindings, count, bytes, true);
          }
          bindings := bindings[t.id := b.value];
        }
      }
      assert c.tools[..|c.tools|] == c.tools;
      w := Work(bindings, count, bytes, false);
    }

    /** The key and grant loops of `build`. */
    method CompileViews(ks: seq<Key>, cfg: Server, bindings: map<string, Binding>) returns (views: map<string, set<string>>)
      ensures views == KeyViews(ks, cfg, bindings)
    {
      views := map[];
      for i := 0 to |ks|
        invariant views == KeyViews(ks[..i], cfg, bindings)
      {
        var key := ks[i];
        assert ks[..i + 1][..i] == ks[..i];
        if key.enabled {
          ghost var before := views;
          for j := 0 to |key.grants|
            invariant views == GrantViews(key.grants[..j], key.id, cfg, bindings, before)
          {
            var g := key.grants[j];
            assert key.grants[..j + 1][..j] == key.grants[..j];
            if g.serverId == cfg.id { views := views[key.id := View(bindings, g)]; }
          }
          assert key.grants[..|key.grants|] == key.grants;
        }
      }
      assert ks[..|ks|] == ks;
    }

    /** One server of `build`; `docs` holds the documents generated so far in this build. */
    method CompileServer(c: Catalog, u: Surroundings, i: nat, docs: map<string, string>)
        returns (cs: Compiled, docs': map<string, string>)
      requires i < |c.servers| && Documents(compiler, current, c, u, i, docs)
      ensures cs == BuiltServer(compiler, current, c, u, i)
      ensures Documents(compiler, current, c, u, i + 1, docs')
    {
      hide Worked, KeyViews;
      var cfg := c.servers[i];
      cs, docs' := Compiled(cfg, "", map[], map[], false), docs;
      DocumentsStep(compiler, current, c, u, i, docs);
      if !cfg.enabled { return; }
      if cfg.app !in u.published.runtimes || cfg.app !in u.enabled {
        cs := cs.(failed := true);
        return;
      }
      var r := u.published.runtimes[cfg.app];
      cs := cs.(revision := r.revision);
      if current.Some? && current.value.catalog.version == c.version &&
         current.value.runtimeVersion == u.published.version && cfg.id in current.value.servers {
        var previous := current.value.servers[cfg.id];
        if !previous.failed && previous.revision == r.revision { return previous, docs; }
      }
      if cfg.app !in docs {
        if !u.readable(i) {
          cs := cs.(failed := true);
          return;
        }
        var d := compiler.generate(cfg.app, r.revision);
        if d.None? {
          cs := cs.(failed := true);
          return;
        }
        docs' := docs[cfg.app := d.value];
      }
      var w := CompileTools(c, cfg, docs'[cfg.app], r);
      cs := cs.(bindings := w.bindings);
      if w.failed {
        cs := cs.(failed := true);
        return;
      }
      var views := CompileViews(c.keys, cfg, w.bindings);
      cs := cs.(views := views);
    }

    method Build(c: Catalog, u: Surroundings) returns (s: Snapshot)
      requires Valid(rules, c)
      ensures Built(compiler, rules, current, c, u, s)
    {
      hide BuiltServer, Documents, ServerOk, ToolOk, KeyOk, GrantsOk, Distinct;
      var servers: map<string, Compiled> := map[];
      var endpoints: map<string, string> := map[];
      var docs: map<string, string> := map[];
      NoDocuments(compiler, current, c, u);
      DistinctServers(rules, c);
      for i := 0 to |c.servers|
        invariant servers.Keys == set j | 0 <= j < i :: c.servers[j].id
        invariant forall j :: 0 <= j < i ==> servers[c.servers[j].id] == BuiltServer(compiler, current, c, u, j)
        invariant Documents(compiler, current, c, u, i, docs)
        invariant Routed(rules, c.servers, i, 0, endpoints)
      {
        endpoints := AddEndpoints(c.servers, i, endpoints);
        var cs, more := CompileServer(c, u, i, docs);
        servers := servers[c.servers[i].id := cs];
        docs := more;
      }
      s := Snapshot(c, servers, endpoints, u.published.version);
    }

    method Refresh(loaded: Option<Catalog>, enabled: Option<set<string>>, published: Option<Published>, readable: nat -> bool)
        returns (ok: bool)
      requires Sane()
      requires loaded.Some? ==> Stored(history, loaded.value)
      requires published.Some? ==> published.value == history.runtimeAt(published.value.version)
      modifies this`current
      ensures Sane()
      ensures ok <==> loaded.Some? && Valid(rules, loaded.value) && enabled.Some? && published.Some?
      ensures !ok ==> current == old(current)
      ensures ok ==> current.Some? && Built(compiler, rules, old(current), loaded.value,
                                            Surroundings(enabled.value, published.value, readable), current.value)
      ensures ok ==> Covers(rules, loaded.value, published.value.version, current.value)
      ensures ok ==> AllTold(compiler, old(current), loaded.value,
                             Surroundings(enabled.value, published.value, readable), current.value)
    {
      hide Valid, Built, AllTold, Covers;
      if loaded.None? { return false; }
      var valid := Validate(rules, loaded.value);
      if !valid || enabled.None? || published.None? { return false; }
      var u := Surroundings(enabled.value, published.value, readable);
      var next := Build(loaded.value, u);
      BuiltIsConsistent(compiler, rules, history, current, loaded.value, u, next);
      BuiltIsTold(compiler, rules, history, current, loaded.value, u, next);
      BuiltCovers(compiler, rules, current, loaded.value, u, next);
      current := Some(next);
      ok := true;
    }

    /** `written` is what was handed to the store; `saved` and `reloaded` are its answers. */
    method Mutate(m: Mutation, loaded: Option<Catalog>, freshId: string, freshHash: string, enabled: Option<set<string>>,
                  published: Option<Published>, pending: nat -> bool, saved: bool, reloaded: Option<Catalog>,
                  readable: nat -> bool)
        returns (r: Result<(string, nat)>, written: Option<Catalog>)
      requires Sane()
      requires reloaded.Some? ==> Stored(history, reloaded.value)
      requires published.Some? ==> published.value == history.runtimeAt(published.value.version)
      modifies this`current
      ensures Sane()
      ensures written.Some? ==>
        && loaded.Some? && loaded.value.version == m.version && Valid(rules, written.value)
        && Edited(loaded.value, m, freshId, freshHash).Some?
        && written.value == Edited(loaded.value, m, freshId, freshHash).value.0.(version := 0)
        && enabled.Some? && published.Some?
        && TargetCompiles(compiler, old(current), written.value, m, Edited(loaded.value, m, freshId, freshHash).value.1,
                          Surroundings(enabled.value, published.value, pending))
      ensures written.Some? && !m.delete ==> forall i :: 0 <= i < |written.value.servers| && written.value.servers[i].enabled ==>
        var (cfg, u) := (written.value.servers[i], Surroundings(enabled.value, published.value, pending));
        && (m.kind == "server" && cfg.id == (if m.id == "" then freshId else m.id) ==>
              Compilable(compiler, written.value, cfg, u, i))
        && (m.kind == "tool" && cfg.id == m.tool.serverId ==> Compilable(compiler, written.value, cfg, u, i))
      ensures r.Ok? <==> written.Some? && saved && reloaded.Some? && Valid(rules, reloaded.value)
      ensures r.Ok? ==> r.value == (Edited(loaded.value, m, freshId, freshHash).value.1, reloaded.value.version)
      ensures r.Ok? ==> current.Some? && Built(compiler, rules, old(current), reloaded.value,
                                               Surroundings(enabled.value, published.value, readable), current.value)
      ensures r.Ok? ==> Covers(rules, reloaded.value, published.value.version, current.value)
      ensures r.Ok? ==> AllTold(compiler, old(current), reloaded.value,
                                Surroundings(enabled.value, published.value, readable), current.value)
      ensures written.Some? && saved && r.Err? ==> current.None?
      ensures written.None? || !saved ==> current == old(current)
    {
      hide Valid, Edited, FreshServer, Readable, AllTold, Built, Compilable, Covers;
      written := None;
      if loaded.None? || loaded.value.version != m.version { return Err, None; }
      var edited := Edit(loaded.value, m, freshId, freshHash);
      if edited.None? { return Err, None; }
      var (c, id) := edited.value;
      var valid := Validate(rules, c);
      if !valid || enabled.None? || published.None? { return Err, None; }
      c := c.(version := 0);
      VersionIsNoMatter(rules, edited.value.0);
      var u := Surroundings(enabled.value, published.value, pending);
      var candidate := Build(c, u);
      if !m.delete && (m.kind == "tool" || m.kind == "server") {
        var serverId := if m.kind == "tool" then m.tool.serverId else id;
        if serverId in candidate.servers {
          var cs := candidate.servers[serverId];
          if cs.config.enabled && cs.failed { return Err, None; }
        }
      }
      CandidateCompiles(compiler, rules, history, current, c, m, id, u, candidate);
      AllTargetsCompilable(rules, compiler, history, current, c, m, id, u);
      if !m.delete && m.kind == "server" { EditedId(loaded.value, m, freshId, freshHash); }
      written := Some(c);
      if !saved { return Err, written; }
      if reloaded.None? {
        current := None;
        return Err, written;
      }
      valid := Validate(rules, reloaded.value);
      if !valid {
        current := None;
        return Err, written;
      }
      var v := Surroundings(enabled.value, published.value, readable);
      var next := Build(reloaded.value, v);
      BuiltIsConsistent(compiler, rules, history, current, reloaded.value, v, next);
      BuiltIsTold(compiler, rules, history, current, reloaded.value, v, next);
      BuiltCovers(compiler, rules, current, reloaded.value, v, next);
      current := Some(next);
      r := Ok((id, reloaded.value.version));
    }

    method AddEndpoints(ss: seq<Server>, i: nat, before: map<string, string>) returns (endpoints: map<string, string>)
      requires i < |ss| && UniqueEndpoints(rules, ss, |ss|) && Routed(rules, ss, i, 0, before)
      ensures Routed(rules, ss, i + 1, 0, endpoints)
    {
      endpoints := before;
      for a := 0 to |ss[i].endpoints|
        invariant Routed(rules, ss, i, a, endpoints)
      {
        var k := rules.endpointKey(ss[i].endpoints[a]);
        ghost var earlier := endpoints;
        if k.Some? {
          ghost var e := EndpointAt(rules, ss, i, a);
          endpoints := endpoints[k.value := ss[i].id];
          assert Leads(rules, ss, i, a + 1, k.value);
        }
        forall e | e in earlier ensures Leads(rules, ss, i, a + 1, e) { LeadsFurther(rules, ss, i, a, i, a + 1, e); }
      }
      forall e | e in endpoints ensures Leads(rules, ss, i + 1, 0, e) {
        LeadsFurther(rules, ss, i, |ss[i].endpoints|, i + 1, 0, e);
      }
    }
  }

  lemma CandidateCompiles(k: Compiler, rules: Rules, h: History, prior: Option<Snapshot>, c: Catalog, m: Mutation, id: string,
                          u: Surroundings, s: Snapshot)
    requires prior.Some? ==> Consistent(k, h, prior.value)
    requires Built(k, rules, prior, c, u, s) && c.version == 0
    requires !m.delete && (m.kind == "tool" || m.kind == "server") ==>
      var t := if m.kind == "tool" then m.tool.serverId else id;
      t in s.servers ==> !(s.servers[t].config.enabled && s.servers[t].failed)
    ensures TargetCompiles(k, prior, c, m, id, u)
  {
    hide Readable, Consistent, EndpointAt;
    forall i | 0 <= i < |c.servers|
      ensures s.servers[c.servers[i].id] == FreshServer(k, c, c.servers[i], u.published, c.servers[i].app in u.enabled,
                                                        Readable(k, prior, c, u, i))
      ensures s.servers[c.servers[i].id].config == c.servers[i]
    {
      PendingNeverReuses(k, h, prior, c, c.servers[i], u.published, c.servers[i].app in u.enabled);
    }
  }

  lemma VersionIsNoMatter(rules: Rules, c: Catalog)
    requires Valid(rules, c)
    ensures Valid(rules, c.(version := 0))
  {
    assert Ids(c.(version := 0)) == Ids(c);
  }

  lemma NoDocuments(k: Compiler, prior: Option<Snapshot>, c: Catalog, u: Surroundings)
    ensures Documents(k, prior, c, u, 0, map[])
  {
  }

  /** A server that generates nothing new leaves the table right. */
  lemma DocumentsStep(k: Compiler, prior: Option<Snapshot>, c: Catalog, u: Surroundings, i: nat, docs: map<string, string>)
    requires i < |c.servers| && Documents(k, prior, c, u, i, docs)
    ensures !(Compiles(k, prior, c, u, i) && u.readable(i)) || c.servers[i].app in docs ||
            k.generate(c.servers[i].app, u.published.runtimes[c.servers[i].app].revision).None? ==>
            Documents(k, prior, c, u, i + 1, docs)
  {
    hide Compiles;
  }

  lemma DistinctServers(rules: Rules, c: Catalog)
    requires Valid(rules, c)
    ensures forall i, j :: 0 <= i < j < |c.servers| ==> c.servers[i].id != c.servers[j].id
  {
    DistinctIsApart(c);
  }

  lemma {:induction false} StaysFailed(k: Compiler, ts: seq<Tool>, cfg: Server, doc: string, r: Runtime, n: nat)
    requires n <= |ts| && Worked(k, ts[..n], cfg, doc, r).failed
    ensures Worked(k, ts, cfg, doc, r) == Worked(k, ts[..n], cfg, doc, r)
    decreases |ts|
  {
    if n < |ts| {
      var front := ts[..|ts| - 1];
      assert front[..n] == ts[..n];
      StaysFailed(k, front, cfg, doc, r, n);
    } else {
      assert ts[..n] == ts;
    }
  }
}
