/** Edits of the MCP catalog (the switch of `Mutate` in internal/mcp/service.go). */
module McpEdits {
  import opened Prelude
  import opened McpCatalog

  /** `access` lists, per key, the tools it may use on the server `id`. */
  datatype Mutation = Mutation(version: nat, kind: string, id: string, delete: bool, rotate: bool,
                               access: seq<(string, seq<string>)>, server: Server, tool: Tool, key: Key)

  // ------------------------------------------------------- specification

  /** `slices.DeleteFunc`, saying what stays. */
  function Filter<T>(s: seq<T>, keep: T -> bool): seq<T> {
    if s == [] then []
    else Filter(s[..|s| - 1], keep) + if keep(s[|s| - 1]) then [s[|s| - 1]] else []
  }

  function IndexOf(ids: seq<string>, id: string): (r: Option<nat>)
    ensures r.Some? ==> r.value < |ids| && ids[r.value] == id
    ensures r.None? ==> id !in ids
  {
    if ids == [] then None
    else if ids[0] == id then Some(0)
    else
      var r := IndexOf(ids[1..], id);
      if r.None? then None else Some(r.value + 1)
  }

  function RemoveAt<T>(s: seq<T>, i: nat): seq<T>
    requires i < |s|
  {
    s[..i] + s[i + 1..]
  }

  function ServerIdsOf(c: Catalog): seq<string> { seq(|c.servers|, i requires 0 <= i < |c.servers| => c.servers[i].id) }

  function ToolIdsOf(c: Catalog): seq<string> { seq(|c.tools|, i requires 0 <= i < |c.tools| => c.tools[i].id) }

  function KeyIdsOf(c: Catalog): seq<string> { seq(|c.keys|, i requires 0 <= i < |c.keys| => c.keys[i].id) }

  function OtherGrants(gs: seq<Grant>, serverId: string): seq<Grant> {
    Filter(gs, (g: Grant) => g.serverId != serverId)
  }

  function DropServer(k: Key, serverId: string): Key {
    k.(grants := OtherGrants(k.grants, serverId))
  }

  function WithoutTool(g: Grant, toolId: string): Grant {
    g.(toolIds := Filter(g.toolIds, (t: string) => t != toolId))
  }

  function DropTool(k: Key, toolId: string): Key {
    k.(grants := seq(|k.grants|, j requires 0 <= j < |k.grants| => WithoutTool(k.grants[j], toolId)))
  }

  function Regrant(k: Key, serverId: string, access: map<string, seq<string>>): Key {
    k.(grants := OtherGrants(k.grants, serverId) + if k.id in access then [Grant(serverId, access[k.id])] else [])
  }

  function Each(ks: seq<Key>, edit: Key -> Key): seq<Key> {
    seq(|ks|, i requires 0 <= i < |ks| => edit(ks[i]))
  }

  /** One entry per existing key. */
  function AccessMap(c: Catalog, access: seq<(string, seq<string>)>): Option<map<string, seq<string>>> {
    if access == [] then Some(map[])
    else
      var before := AccessMap(c, access[..|access| - 1]);
      var (k, toolIds) := access[|access| - 1];
      if before.None? || k in before.value || IndexOf(KeyIdsOf(c), k).None? then None
      else Some(before.value[k := toolIds])
  }

  function ServerRemoved(c: Catalog, i: nat): Catalog
    requires i < |c.servers|
  {
    var id := c.servers[i].id;
    c.(servers := RemoveAt(c.servers, i),
       tools := Filter(c.tools, (t: Tool) => t.serverId != id),
       keys := Each(c.keys, k => DropServer(k, id)))
  }

  function ToolRemoved(c: Catalog, i: nat): Catalog
    requires i < |c.tools|
  {
    var id := c.tools[i].id;
    c.(tools := RemoveAt(c.tools, i), keys := Each(c.keys, k => DropTool(k, id)))
  }

  function Regranted(c: Catalog, serverId: string, access: map<string, seq<string>>): Catalog {
    c.(keys := Each(c.keys, k => Regrant(k, serverId, access)))
  }

  // ----------------------------------------------------- picked sublists

  /** Increasing positions below `n`. */
  ghost predicate Picks(f: seq<nat>, n: nat) {
    (forall i :: 0 <= i < |f| ==> f[i] < n) && forall i, j :: 0 <= i < j < |f| ==> f[i] < f[j]
  }

  ghost predicate Picked<T>(a: seq<T>, b: seq<T>, f: seq<nat>) {
    |a| == |f| && Picks(f, |b|) && forall i :: 0 <= i < |f| ==> a[i] == b[f[i]]
  }

  /** Where a filtered list comes from. */
  function Positions<T>(s: seq<T>, keep: T -> bool): seq<nat> {
    if s == [] then []
    else Positions(s[..|s| - 1], keep) + if keep(s[|s| - 1]) then [|s| - 1] else []
  }

  lemma {:induction false} PositionsPick<T>(s: seq<T>, keep: T -> bool)
    ensures Picked(Filter(s, keep), s, Positions(s, keep))
  {
    if s != [] {
      var front := s[..|s| - 1];
      PositionsPick(front, keep);
      var f := Positions(front, keep);
      forall i | 0 <= i < |f| ensures front[f[i]] == s[f[i]] {}
    }
  }

  lemma {:induction false} PositionKept<T>(s: seq<T>, keep: T -> bool, i: nat)
    requires i < |Positions(s, keep)|
    ensures Positions(s, keep)[i] < |s| && keep(s[Positions(s, keep)[i]])
  {
    var front := s[..|s| - 1];
    if i < |Positions(front, keep)| { PositionKept(front, keep, i); }
  }

  lemma {:induction false} KeptHasPosition<T>(s: seq<T>, keep: T -> bool, j: nat)
    requires j < |s| && keep(s[j])
    ensures j in Positions(s, keep)
  {
    var front := s[..|s| - 1];
    if j < |front| {
      KeptHasPosition(front, keep, j);
    } else {
      assert Positions(s, keep)[|Positions(front, keep)|] == j;
    }
  }

  lemma FilterPicks<T>(s: seq<T>, keep: T -> bool) returns (f: seq<nat>)
    ensures Picked(Filter(s, keep), s, f)
    ensures forall i :: 0 <= i < |f| ==> keep(s[f[i]])
    ensures forall j :: 0 <= j < |s| && keep(s[j]) ==> j in f
  {
    hide Filter, Positions;
    f := Positions(s, keep);
    PositionsPick(s, keep);
    forall i | 0 <= i < |f| ensures keep(s[f[i]]) { PositionKept(s, keep, i); }
    forall j | 0 <= j < |s| && keep(s[j]) ensures j in f { KeptHasPosition(s, keep, j); }
  }

  lemma RemovePicks<T>(s: seq<T>, i: nat) returns (f: seq<nat>)
    requires i < |s|
    ensures Picked(RemoveAt(s, i), s, f)
    ensures forall j :: 0 <= j < |s| && j != i ==> j in f
    ensures i !in f
  {
    f := seq(|s| - 1, (k: nat) => if k < i then k else k + 1);
    forall j | 0 <= j < |s| && j != i ensures j in f {
      assert f[if j < i then j else j - 1] == j;
    }
  }

  // ------------------------------------------------ smaller stays valid

  /** The ids of a catalog, list by list. */
  ghost predicate IdsApart(c: Catalog) {
    && (forall i, j :: 0 <= i < j < |c.servers| ==> c.servers[i].id != c.servers[j].id)
    && (forall i, j :: 0 <= i < j < |c.tools| ==> c.tools[i].id != c.tools[j].id)
    && (forall i, j :: 0 <= i < j < |c.keys| ==> c.keys[i].id != c.keys[j].id)
    && (forall i, j :: 0 <= i < |c.servers| && 0 <= j < |c.tools| ==> c.servers[i].id != c.tools[j].id)
    && (forall i, j :: 0 <= i < |c.servers| && 0 <= j < |c.keys| ==> c.servers[i].id != c.keys[j].id)
    && (forall i, j :: 0 <= i < |c.tools| && 0 <= j < |c.keys| ==> c.tools[i].id != c.keys[j].id)
  }

  lemma IdsAt(c: Catalog)
    ensures |Ids(c)| == |c.servers| + |c.tools| + |c.keys|
    ensures forall i :: 0 <= i < |c.servers| ==> Ids(c)[i] == c.servers[i].id
    ensures forall i :: 0 <= i < |c.tools| ==> Ids(c)[|c.servers| + i] == c.tools[i].id
    ensures forall i :: 0 <= i < |c.keys| ==> Ids(c)[|c.servers| + |c.tools| + i] == c.keys[i].id
  {
  }

  /** The id at a position of the joined list. */
  function IdAt(c: Catalog, i: nat): string
    requires i < |c.servers| + |c.tools| + |c.keys|
  {
    var s, t := |c.servers|, |c.servers| + |c.tools|;
    if i < s then c.servers[i].id else if i < t then c.tools[i - s].id else c.keys[i - t].id
  }

  lemma IdsAreAt(c: Catalog, i: nat)
    requires i < |Ids(c)|
    ensures |Ids(c)| == |c.servers| + |c.tools| + |c.keys| && Ids(c)[i] == IdAt(c, i)
  {
    IdsAt(c);
  }

  lemma ApartAt(c: Catalog, i: nat, j: nat)
    requires IdsApart(c) && i < j < |c.servers| + |c.tools| + |c.keys|
    ensures IdAt(c, i) != IdAt(c, j)
  {
  }

  lemma DistinctAt(c: Catalog, i: nat, j: nat)
    requires Distinct(Ids(c)) && i < j < |c.servers| + |c.tools| + |c.keys|
    ensures IdAt(c, i) != IdAt(c, j)
  {
    hide Ids, IdAt;
    IdsAt(c);
    IdsAreAt(c, i);
    IdsAreAt(c, j);
  }

  lemma DistinctIsApart(c: Catalog)
    ensures Distinct(Ids(c)) <==> IdsApart(c)
  {
    hide Ids;
    var s, t := |c.servers|, |c.servers| + |c.tools|;
    if Distinct(Ids(c)) {
      hide Distinct;
      forall i, j | 0 <= i < j < s ensures c.servers[i].id != c.servers[j].id { DistinctAt(c, i, j); }
      forall i, j | 0 <= i < j < |c.tools| ensures c.tools[i].id != c.tools[j].id { DistinctAt(c, s + i, s + j); }
      forall i, j | 0 <= i < j < |c.keys| ensures c.keys[i].id != c.keys[j].id { DistinctAt(c, t + i, t + j); }
      forall i, j | 0 <= i < s && 0 <= j < |c.tools| ensures c.servers[i].id != c.tools[j].id { DistinctAt(c, i, s + j); }
      forall i, j | 0 <= i < s && 0 <= j < |c.keys| ensures c.servers[i].id != c.keys[j].id { DistinctAt(c, i, t + j); }
      forall i, j | 0 <= i < |c.tools| && 0 <= j < |c.keys| ensures c.tools[i].id != c.keys[j].id {
        DistinctAt(c, s + i, t + j);
      }
    }
    if IdsApart(c) { ApartIsDistinct(c); }
  }

  lemma ApartIsDistinct(c: Catalog)
    requires IdsApart(c)
    ensures Distinct(Ids(c))
  {
    hide Ids, IdsApart, IdAt;
    IdsAt(c);
    forall i, j | 0 <= i < j < |Ids(c)| ensures Ids(c)[i] != Ids(c)[j] {
      IdsAreAt(c, i);
      IdsAreAt(c, j);
      ApartAt(c, i, j);
    }
  }

  /** A catalog made of parts of a valid one is valid if what is left still refers to what is left. */
  lemma PartIsValid(r: Rules, c: Catalog, d: Catalog, fs: seq<nat>, ft: seq<nat>, fk: seq<nat>)
    requires Valid(r, c)
    requires Picked(d.servers, c.servers, fs) && Picked(d.tools, c.tools, ft)
    requires |d.keys| == |fk| && Picks(fk, |c.keys|)
    requires forall i :: 0 <= i < |d.keys| ==> d.keys[i] == c.keys[fk[i]].(grants := d.keys[i].grants)
    requires forall i :: 0 <= i < |d.tools| ==> HasServer(d.servers, d.tools[i].serverId)
    requires forall i :: 0 <= i < |d.keys| ==> GrantsOk(d.servers, d.tools, d.keys[i].grants)
    ensures Valid(r, d)
  {
    hide ServerOk, ToolOk, GrantsOk, HasServer, Ids;
    DistinctIsApart(c);
    DistinctIsApart(d);
    PicksFit(fs, |c.servers|);
    PicksFit(ft, |c.tools|);
    PicksFit(fk, |c.keys|);
    forall i: nat, a: nat, j: nat, b: nat | i < |d.servers| && a < |d.servers[i].endpoints| && j < |d.servers| &&
                                            b < |d.servers[j].endpoints| && (i != j || a != b)
      ensures EndpointAt(r, d.servers, i, a) != EndpointAt(r, d.servers, j, b)
    {
      assert EndpointAt(r, c.servers, fs[i], a) != EndpointAt(r, c.servers, fs[j], b);
    }
    forall i | 0 <= i < |d.keys| ensures KeyOk(r, d.keys[i]) {
      assert KeyOk(r, c.keys[fk[i]]);
    }
  }

  lemma {:induction false} PicksFit(f: seq<nat>, n: nat)
    requires Picks(f, n)
    ensures |f| <= n
  {
    if f != [] { PicksFit(f[..|f| - 1], f[|f| - 1]); }
  }

  lemma All(n: nat) returns (f: seq<nat>)
    ensures |f| == n && Picks(f, n) && forall i :: 0 <= i < n ==> f[i] == i
  {
    f := seq(n, (k: nat) => k);
  }

  lemma ValidParts(r: Rules, c: Catalog)
    requires Valid(r, c)
    ensures IdsApart(c)
    ensures forall i :: 0 <= i < |c.tools| ==> HasServer(c.servers, c.tools[i].serverId)
    ensures forall i :: 0 <= i < |c.keys| ==> GrantsOk(c.servers, c.tools, c.keys[i].grants)
  {
    DistinctIsApart(c);
  }

  predicate ServerMeans(r: Rules, v: Server) {
    && v.id != "" && r.named(v.name) && v.app != "" && 1 <= |v.endpoints| <= 10 && r.headerOk(v.header, v.bearer)
    && forall e :: e in v.endpoints ==> r.endpointKey(e).Some?
  }

  predicate ToolMeans(t: Tool) {
    && t.id != "" && t.operationId != "" && |t.description| <= 4000 && 1 <= |t.name| <= 64
    && ('A' <= t.name[0] <= 'Z' || 'a' <= t.name[0] <= 'z')
    && forall x :: x in t.name ==>
         'A' <= x <= 'Z' || 'a' <= x <= 'z' || '0' <= x <= '9' || x == '_' || x == '-'
  }

  /** At most one grant per server; each is of a server that exists, and its tools are tools of that server. */
  ghost predicate GrantsMean(c: Catalog, gs: seq<Grant>) {
    && (forall i, j :: 0 <= i < j < |gs| ==> gs[i].serverId != gs[j].serverId)
    && forall g :: g in gs ==>
         && (exists v :: v in c.servers && v.id == g.serverId)
         && forall id :: id in g.toolIds ==> exists t :: t in c.tools && t.id == id && t.serverId == g.serverId
  }

  /** A consistent catalog, spelled out in numbers. */
  lemma ValidMeans(r: Rules, c: Catalog)
    ensures Valid(r, c) <==>
      && |c.servers| <= 50 && |c.tools| <= 500 && |c.keys| <= 100 && IdsApart(c)
      && (forall v :: v in c.servers ==> ServerMeans(r, v))
      && (forall i: nat, a: nat, j: nat, b: nat ::
            i < |c.servers| && a < |c.servers[i].endpoints| && j < |c.servers| && b < |c.servers[j].endpoints| &&
            (i != j || a != b) ==>
              r.endpointKey(c.servers[i].endpoints[a]) != r.endpointKey(c.servers[j].endpoints[b]))
      && (forall t :: t in c.tools ==> ToolMeans(t) && exists v :: v in c.servers && v.id == t.serverId)
      && (forall i, j :: 0 <= i < j < |c.tools| ==>
            c.tools[i].serverId != c.tools[j].serverId || c.tools[i].name != c.tools[j].name)
      && forall k :: k in c.keys ==> k.id != "" && r.named(k.name) && |k.hash| == 64 && GrantsMean(c, k.grants)
  {
    hide UniqueEndpoints, IdsApart, Ids, ServerOk, ToolOk, HasServer, GrantsOk, ServerMeans, ToolMeans, GrantsMean;
    DistinctIsApart(c);
    EndpointsMean(r, c.servers);
    forall v ensures ServerOk(r, v) <==> ServerMeans(r, v) { ServerIsOk(r, v); }
    forall t ensures ToolOk(t) <==> ToolMeans(t) { ToolIsOk(t); }
    forall id ensures HasServer(c.servers, id) <==> exists v :: v in c.servers && v.id == id { HasMeans(c, id, id); }
    forall gs ensures GrantsOk(c.servers, c.tools, gs) <==> GrantsMean(c, gs) { GrantsAreOk(c, gs); }
    assert (forall v :: v in c.servers ==> ServerMeans(r, v)) <==>
           (forall i :: 0 <= i < |c.servers| ==> ServerMeans(r, c.servers[i]));
  }

  lemma EndpointsMean(r: Rules, ss: seq<Server>)
    ensures UniqueEndpoints(r, ss, |ss|) <==>
      forall i: nat, a: nat, j: nat, b: nat ::
        i < |ss| && a < |ss[i].endpoints| && j < |ss| && b < |ss[j].endpoints| && (i != j || a != b) ==>
          r.endpointKey(ss[i].endpoints[a]) != r.endpointKey(ss[j].endpoints[b])
  {
    if UniqueEndpoints(r, ss, |ss|) {
      forall i: nat, a: nat, j: nat, b: nat |
        i < |ss| && a < |ss[i].endpoints| && j < |ss| && b < |ss[j].endpoints| && (i != j || a != b)
        ensures r.endpointKey(ss[i].endpoints[a]) != r.endpointKey(ss[j].endpoints[b])
      {
        assert EndpointAt(r, ss, i, a) != EndpointAt(r, ss, j, b);
      }
    }
  }

  lemma ServerIsOk(r: Rules, v: Server)
    ensures ServerOk(r, v) <==> ServerMeans(r, v)
  {
    assert (forall e :: e in v.endpoints ==> r.endpointKey(e).Some?) <==>
           (forall a :: 0 <= a < |v.endpoints| ==> r.endpointKey(v.endpoints[a]).Some?);
  }

  lemma ToolIsOk(t: Tool)
    ensures ToolOk(t) <==> ToolMeans(t)
  {
    if ToolOk(t) {
      forall x | x in t.name ensures 'A' <= x <= 'Z' || 'a' <= x <= 'z' || '0' <= x <= '9' || x == '_' || x == '-' {
        var i :| 0 <= i < |t.name| && t.name[i] == x;
      }
    }
    if ToolMeans(t) {
      forall i | 0 < i < |t.name| ensures Letter(t.name[i]) || '0' <= t.name[i] <= '9' || t.name[i] in "_-" {
        assert t.name[i] in t.name;
      }
    }
  }

  lemma HasMeans(c: Catalog, id: string, serverId: string)
    ensures HasServer(c.servers, serverId) <==> exists v :: v in c.servers && v.id == serverId
    ensures HasTool(c.tools, id, serverId) <==> exists t :: t in c.tools && t.id == id && t.serverId == serverId
  {
    if i :| 0 <= i < |c.servers| && c.servers[i].id == serverId { assert c.servers[i] in c.servers; }
    if i :| 0 <= i < |c.tools| && c.tools[i].id == id && c.tools[i].serverId == serverId {
      assert c.tools[i] in c.tools;
    }
  }

  lemma GrantsAreOk(c: Catalog, gs: seq<Grant>)
    ensures GrantsOk(c.servers, c.tools, gs) <==> GrantsMean(c, gs)
  {
    hide HasServer, HasTool;
    forall id, serverId
      ensures HasServer(c.servers, serverId) <==> exists v :: v in c.servers && v.id == serverId
      ensures HasTool(c.tools, id, serverId) <==> exists t :: t in c.tools && t.id == id && t.serverId == serverId
    {
      HasMeans(c, id, serverId);
    }
    if GrantsOk(c.servers, c.tools, gs) {
      forall g | g in gs ensures GrantOk(c.servers, c.tools, g) {
        var i :| 0 <= i < |gs| && gs[i] == g;
      }
      forall g | g in gs ensures HasServer(c.servers, g.serverId) { assert GrantOk(c.servers, c.tools, g); }
      forall g | g in gs ensures exists v :: v in c.servers && v.id == g.serverId { HasMeans(c, "", g.serverId); }
      forall g, id | g in gs && id in g.toolIds ensures HasTool(c.tools, id, g.serverId) {
        assert GrantOk(c.servers, c.tools, g);
        HasMeans(c, id, g.serverId);
        var j :| 0 <= j < |g.toolIds| && g.toolIds[j] == id;
      }
    }
    if GrantsMean(c, gs) {
      forall i | 0 <= i < |gs| ensures GrantOk(c.servers, c.tools, gs[i]) {
        assert gs[i] in gs;
        HasMeans(c, "", gs[i].serverId);
        forall j | 0 <= j < |gs[i].toolIds| ensures HasTool(c.tools, gs[i].toolIds[j], gs[i].serverId) {
          assert gs[i].toolIds[j] in gs[i].toolIds;
        }
      }
    }
  }

  // ------------------------------------------------------------ deletions

  /** A server that stays is still there. */
  lemma StillServed(c: Catalog, i: nat, id: string)
    requires i < |c.servers| && HasServer(c.servers, id) && id != c.servers[i].id
    ensures HasServer(RemoveAt(c.servers, i), id)
  {
    var j :| 0 <= j < |c.servers| && c.servers[j].id == id;
    var k := if j < i then j else j - 1;
    assert RemoveAt(c.servers, i)[k].id == id;
  }

  lemma OtherGrantsOk(c: Catalog, d: Catalog, gs: seq<Grant>, id: string)
    requires GrantsOk(c.servers, c.tools, gs)
    requires forall g :: g in gs && g.serverId != id && GrantOk(c.servers, c.tools, g) ==> GrantOk(d.servers, d.tools, g)
    ensures GrantsOk(d.servers, d.tools, OtherGrants(gs, id))
  {
    hide GrantOk;
    var f := FilterPicks(gs, (g: Grant) => g.serverId != id);
    forall j | 0 <= j < |f| ensures GrantOk(d.servers, d.tools, OtherGrants(gs, id)[j]) {
      assert GrantOk(c.servers, c.tools, gs[f[j]]);
    }
  }

  /** Deleting a server with its tools and grants leaves a consistent catalog. */
  lemma ServerDeletionStaysValid(r: Rules, c: Catalog, i: nat)
    requires Valid(r, c) && i < |c.servers|
    ensures Valid(r, ServerRemoved(c, i))
  {
    hide Valid, IdsApart, GrantsOk, GrantOk, HasServer, HasTool;
    var d, id := ServerRemoved(c, i), c.servers[i].id;
    ValidParts(r, c);
    var fs := RemovePicks(c.servers, i);
    var ft := FilterPicks(c.tools, (t: Tool) => t.serverId != id);
    var fk := All(|c.keys|);
    forall j | 0 <= j < |d.tools| ensures HasServer(d.servers, d.tools[j].serverId) {
      StillServed(c, i, c.tools[ft[j]].serverId);
    }
    forall k | 0 <= k < |d.keys| ensures GrantsOk(d.servers, d.tools, d.keys[k].grants) {
      forall g | g in c.keys[k].grants && g.serverId != id && GrantOk(c.servers, c.tools, g)
        ensures GrantOk(d.servers, d.tools, g)
      {
        GrantSurvivesServer(c, i, ft, g);
      }
      OtherGrantsOk(c, d, c.keys[k].grants, id);
    }
    PartIsValid(r, c, d, fs, ft, fk);
  }

  lemma GrantSurvivesServer(c: Catalog, i: nat, ft: seq<nat>, g: Grant)
    requires i < |c.servers| && g.serverId != c.servers[i].id && GrantOk(c.servers, c.tools, g)
    requires Picked(ServerRemoved(c, i).tools, c.tools, ft)
    requires forall j :: 0 <= j < |c.tools| && c.tools[j].serverId != c.servers[i].id ==> j in ft
    ensures GrantOk(ServerRemoved(c, i).servers, ServerRemoved(c, i).tools, g)
  {
    hide Filter;
    var d := ServerRemoved(c, i);
    StillServed(c, i, g.serverId);
    forall j | 0 <= j < |g.toolIds| ensures HasTool(d.tools, g.toolIds[j], g.serverId) {
      var t :| 0 <= t < |c.tools| && c.tools[t].id == g.toolIds[j] && c.tools[t].serverId == g.serverId;
      var k :| 0 <= k < |ft| && ft[k] == t;
      assert d.tools[k].id == g.toolIds[j];
    }
  }

  /** Deleting a tool takes it out of every grant and leaves a consistent catalog. */
  lemma ToolDeletionStaysValid(r: Rules, c: Catalog, i: nat)
    requires Valid(r, c) && i < |c.tools|
    ensures Valid(r, ToolRemoved(c, i))
  {
    hide Valid, IdsApart, GrantsOk, GrantOk, HasServer, HasTool;
    var d, id := ToolRemoved(c, i), c.tools[i].id;
    ValidParts(r, c);
    var fs := All(|c.servers|);
    var ft := RemovePicks(c.tools, i);
    var fk := All(|c.keys|);
    forall j | 0 <= j < |d.tools| ensures HasServer(d.servers, d.tools[j].serverId) {
      assert d.tools[j] == c.tools[ft[j]];
    }
    forall k | 0 <= k < |d.keys| ensures GrantsOk(d.servers, d.tools, d.keys[k].grants) {
      var gs := c.keys[k].grants;
      GrantsSurviveTool(c, i, ft, gs);
      assert d.keys[k].grants == seq(|gs|, j requires 0 <= j < |gs| => WithoutTool(gs[j], id));
    }
    PartIsValid(r, c, d, fs, ft, fk);
  }

  lemma GrantsSurviveTool(c: Catalog, i: nat, ft: seq<nat>, gs: seq<Grant>)
    requires i < |c.tools| && GrantsOk(c.servers, c.tools, gs)
    requires Picked(RemoveAt(c.tools, i), c.tools, ft) && forall j :: 0 <= j < |c.tools| && j != i ==> j in ft
    ensures GrantsOk(c.servers, RemoveAt(c.tools, i),
                     seq(|gs|, j requires 0 <= j < |gs| => WithoutTool(gs[j], c.tools[i].id)))
  {
    hide RemoveAt, HasServer;
    var id := c.tools[i].id;
    forall j | 0 <= j < |gs| ensures GrantOk(c.servers, RemoveAt(c.tools, i), WithoutTool(gs[j], id)) {
      assert GrantOk(c.servers, c.tools, gs[j]);
      var f := FilterPicks(gs[j].toolIds, (t: string) => t != id);
      forall k | 0 <= k < |f| ensures HasTool(RemoveAt(c.tools, i), gs[j].toolIds[f[k]], gs[j].serverId) {
        var t :| 0 <= t < |c.tools| && c.tools[t].id == gs[j].toolIds[f[k]] && c.tools[t].serverId == gs[j].serverId;
        assert gs[j].toolIds[f[k]] != id && t in ft;
        var x :| 0 <= x < |ft| && ft[x] == t;
        assert RemoveAt(c.tools, i)[x].id == c.tools[t].id;
      }
    }
  }

  lemma KeyDeletionStaysValid(r: Rules, c: Catalog, i: nat)
    requires Valid(r, c) && i < |c.keys|
    ensures Valid(r, c.(keys := RemoveAt(c.keys, i)))
  {
    hide Valid, IdsApart, GrantsOk, HasServer;
    ValidParts(r, c);
    var fs := All(|c.servers|);
    var ft := All(|c.tools|);
    var fk := RemovePicks(c.keys, i);
    var d := c.(keys := RemoveAt(c.keys, i));
    forall k | 0 <= k < |d.keys| ensures GrantsOk(d.servers, d.tools, d.keys[k].grants) {
      assert d.keys[k] == c.keys[fk[k]];
    }
    PartIsValid(r, c, d, fs, ft, fk);
  }

  // ------------------------------------------------------------- access

  lemma {:induction false} FilterTwice<T>(s: seq<T>, keep: T -> bool)
    ensures Filter(Filter(s, keep), keep) == Filter(s, keep)
  {
    if s != [] {
      FilterTwice(s[..|s| - 1], keep);
      var rest := Filter(s[..|s| - 1], keep);
      if keep(s[|s| - 1]) {
        assert (rest + [s[|s| - 1]])[..|rest|] == rest;
      } else {
        assert rest + [] == rest;
      }
    }
  }

  /** An access edit leaves servers, tools and every grant on another server as they are, and gives each
      key exactly the listed tools on this one. */
  lemma AccessTouchesOneServer(c: Catalog, id: string, access: map<string, seq<string>>, i: nat)
    requires i < |c.keys|
    ensures var d := Regranted(c, id, access);
      && d.servers == c.servers && d.tools == c.tools && |d.keys| == |c.keys|
      && d.keys[i] == c.keys[i].(grants := d.keys[i].grants)
      && OtherGrants(d.keys[i].grants, id) == OtherGrants(c.keys[i].grants, id)
      && forall g :: g in d.keys[i].grants && g.serverId == id <==>
           c.keys[i].id in access && g == Grant(id, access[c.keys[i].id])
  {
    hide OtherGrants;
    assert Regranted(c, id, access).keys[i] == Regrant(c.keys[i], id, access);
    RegrantTouchesOneServer(c.keys[i], id, access);
  }

  lemma OthersOnly(gs: seq<Grant>, id: string)
    ensures OtherGrants(OtherGrants(gs, id), id) == OtherGrants(gs, id)
    ensures forall g :: g in OtherGrants(gs, id) ==> g.serverId != id
  {
    FilterTwice(gs, (g: Grant) => g.serverId != id);
    var f := FilterPicks(gs, (g: Grant) => g.serverId != id);
  }

  lemma RegrantTouchesOneServer(k: Key, id: string, access: map<string, seq<string>>)
    ensures var gs := Regrant(k, id, access).grants;
      && OtherGrants(gs, id) == OtherGrants(k.grants, id)
      && forall g :: g in gs && g.serverId == id <==> k.id in access && g == Grant(id, access[k.id])
  {
    hide Filter;
    var others := OtherGrants(k.grants, id);
    OthersOnly(k.grants, id);
    if k.id in access {
      OneMoreGrant(others, Grant(id, access[k.id]));
    } else {
      assert others + [] == others;
    }
  }

  lemma OneMoreGrant(gs: seq<Grant>, last: Grant)
    ensures OtherGrants(gs + [last], last.serverId) == OtherGrants(gs, last.serverId)
  {
    assert (gs + [last])[..|gs|] == gs;
    assert OtherGrants(gs, last.serverId) + [] == OtherGrants(gs, last.serverId);
  }

  /** Starting from a consistent catalog, the edit is accepted exactly when it grants tools of this server only. */
  lemma AccessIsValid(r: Rules, c: Catalog, id: string, access: map<string, seq<string>>)
    requires Valid(r, c) && HasServer(c.servers, id)
    requires forall k :: k in access ==> exists i :: 0 <= i < |c.keys| && c.keys[i].id == k
    ensures Valid(r, Regranted(c, id, access)) <==> forall k :: k in access ==> GrantOk(c.servers, c.tools, Grant(id, access[k]))
  {
    hide Valid, GrantOk, IdsApart;
    var d := Regranted(c, id, access);
    ValidParts(r, c);
    if Valid(r, d) {
      ValidParts(r, d);
      forall k | k in access ensures GrantOk(c.servers, c.tools, Grant(id, access[k])) {
        var i :| 0 <= i < |c.keys| && c.keys[i].id == k;
        var gs := d.keys[i].grants;
        assert gs[|gs| - 1] == Grant(id, access[k]);
        assert GrantsOk(d.servers, d.tools, gs);
      }
    }
    if forall k :: k in access ==> GrantOk(c.servers, c.tools, Grant(id, access[k])) {
      var fs := All(|c.servers|);
      var ft := All(|c.tools|);
      var fk := All(|c.keys|);
      forall i | 0 <= i < |d.keys| ensures GrantsOk(d.servers, d.tools, d.keys[i].grants) {
        RegrantOk(c, c.keys[i], id, access);
      }
      PartIsValid(r, c, d, fs, ft, fk);
    }
  }

  lemma RegrantOk(c: Catalog, k: Key, id: string, access: map<string, seq<string>>)
    requires GrantsOk(c.servers, c.tools, k.grants)
    requires k.id in access ==> GrantOk(c.servers, c.tools, Grant(id, access[k.id]))
    ensures GrantsOk(c.servers, c.tools, Regrant(k, id, access).grants)
  {
    hide GrantOk;
    OtherGrantsOk(c, c, k.grants, id);
    var f := FilterPicks(k.grants, (g: Grant) => g.serverId != id);
  }

  // ------------------------------------------------------- the operation

  /** The edited catalog and the id it is about; `freshId` and `freshHash` come from the random source. */
  function Edited(c: Catalog, m: Mutation, freshId: string, freshHash: string): Option<(Catalog, string)> {
    if m.kind == "access" then
      var access := AccessMap(c, m.access);
      if access.None? || IndexOf(ServerIdsOf(c), m.id).None? then None
      else Some((Regranted(c, m.id, access.value), m.id))
    else if m.kind == "server" then
      var at := IndexOf(ServerIdsOf(c), m.id);
      if m.delete then (if at.None? then None else Some((ServerRemoved(c, at.value), m.id)))
      else
        var ss := if at.Some? then c.servers[at.value := m.server.(id := m.id)] else c.servers;
        if m.id == "" then Some((c.(servers := ss + [m.server.(id := freshId)]), freshId))
        else if at.Some? then Some((c.(servers := ss), m.id)) else None
    else if m.kind == "tool" then
      var at := IndexOf(ToolIdsOf(c), m.id);
      if m.delete then (if at.None? then None else Some((ToolRemoved(c, at.value), m.id)))
      else
        var ts := if at.Some? then c.tools[at.value := m.tool.(id := m.id)] else c.tools;
        if m.id == "" then Some((c.(tools := ts + [m.tool.(id := freshId)]), freshId))
        else if at.Some? then Some((c.(tools := ts), m.id)) else None
    else if m.kind == "key" then
      var at := IndexOf(KeyIdsOf(c), m.id);
      if m.delete then (if at.None? then None else Some((c.(keys := RemoveAt(c.keys, at.value)), m.id)))
      else
        var ks := if at.Some? then
                    c.keys[at.value := m.key.(id := m.id, hash := if m.rotate then freshHash else c.keys[at.value].hash)]
                  else c.keys;
        if m.id == "" then Some((c.(keys := ks + [m.key.(id := freshId, hash := freshHash)]), freshId))
        else if at.Some? then Some((c.(keys := ks), m.id)) else None
    else None
  }

  predicate Named(ids: seq<string>, id: string) {
    exists i :: 0 <= i < |ids| && ids[i] == id
  }

  predicate AccessListed(c: Catalog, access: seq<(string, seq<string>)>) {
    && (forall i :: 0 <= i < |access| ==> Named(KeyIdsOf(c), access[i].0))
    && forall i, j :: 0 <= i < j < |access| ==> access[i].0 != access[j].0
  }

  predicate Addressed(ids: seq<string>, m: Mutation) {
    (m.id == "" && !m.delete) || Named(ids, m.id)
  }

  /** What a mutation must name: a kind, an existing entry (a creation names none), and for an access edit
      existing keys, none of them twice. */
  predicate Accepts(c: Catalog, m: Mutation) {
    match m.kind
    case "access" => Named(ServerIdsOf(c), m.id) && AccessListed(c, m.access)
    case "server" => Addressed(ServerIdsOf(c), m)
    case "tool" => Addressed(ToolIdsOf(c), m)
    case "key" => Addressed(KeyIdsOf(c), m)
    case _ => false
  }

  lemma NamedAt(ids: seq<string>, id: string)
    ensures Named(ids, id) <==> IndexOf(ids, id).Some?
  {
    if IndexOf(ids, id).Some? { assert ids[IndexOf(ids, id).value] == id; }
  }

  lemma {:induction false} AccessIsListed(c: Catalog, access: seq<(string, seq<string>)>)
    ensures AccessMap(c, access).Some? <==> AccessListed(c, access)
    ensures AccessMap(c, access).Some? ==>
      && (forall i :: 0 <= i < |access| ==>
            access[i].0 in AccessMap(c, access).value && AccessMap(c, access).value[access[i].0] == access[i].1)
      && forall k :: k in AccessMap(c, access).value ==> exists i :: 0 <= i < |access| && access[i].0 == k
  {
    hide KeyIdsOf, Named, IndexOf;
    if access != [] {
      var front, k := access[..|access| - 1], access[|access| - 1].0;
      AccessIsListed(c, front);
      NamedAt(KeyIdsOf(c), k);
      assert forall i :: 0 <= i < |front| ==> front[i] == access[i];
    }
  }

  /** An edit is refused exactly when it names something that is not there, or a key twice. */
  lemma RefusedExactly(c: Catalog, m: Mutation, freshId: string, freshHash: string)
    ensures Edited(c, m, freshId, freshHash).Some? <==> Accepts(c, m)
  {
    hide Named, IndexOf, AccessMap, AccessListed, ServerIdsOf, ToolIdsOf, KeyIdsOf;
    AccessIsListed(c, m.access);
    NamedAt(ServerIdsOf(c), m.id);
    NamedAt(ToolIdsOf(c), m.id);
    NamedAt(KeyIdsOf(c), m.id);
  }

  /** Spelled out: an access edit names an existing server and existing keys, none twice; any other edit an
      existing entry of its kind, unless it creates one. */
  lemma AcceptsMeans(c: Catalog, m: Mutation)
    ensures Accepts(c, m) <==>
      || (m.kind == "access"
          && (exists v :: v in c.servers && v.id == m.id)
          && (forall i :: 0 <= i < |m.access| ==> exists k :: k in c.keys && k.id == m.access[i].0)
          && forall i, j :: 0 <= i < j < |m.access| ==> m.access[i].0 != m.access[j].0)
      || ((m.kind == "server" || m.kind == "tool" || m.kind == "key") && m.id == "" && !m.delete)
      || (m.kind == "server" && exists v :: v in c.servers && v.id == m.id)
      || (m.kind == "tool" && exists t :: t in c.tools && t.id == m.id)
      || (m.kind == "key" && exists k :: k in c.keys && k.id == m.id)
  {
    hide Named, ServerIdsOf, ToolIdsOf, KeyIdsOf;
    NamedMeans(c, m.id);
    forall i | 0 <= i < |m.access|
      ensures Named(KeyIdsOf(c), m.access[i].0) <==> exists k :: k in c.keys && k.id == m.access[i].0
    {
      NamedMeans(c, m.access[i].0);
    }
    assert AccessListed(c, m.access) <==>
      && (forall i :: 0 <= i < |m.access| ==> exists k :: k in c.keys && k.id == m.access[i].0)
      && forall i, j :: 0 <= i < j < |m.access| ==> m.access[i].0 != m.access[j].0;
  }

  lemma NamedMeans(c: Catalog, id: string)
    ensures Named(ServerIdsOf(c), id) <==> exists v :: v in c.servers && v.id == id
    ensures Named(ToolIdsOf(c), id) <==> exists t :: t in c.tools && t.id == id
    ensures Named(KeyIdsOf(c), id) <==> exists k :: k in c.keys && k.id == id
  {
    if v :| v in c.servers && v.id == id {
      var i :| 0 <= i < |c.servers| && c.servers[i] == v;
      assert ServerIdsOf(c)[i] == id;
    }
    if t :| t in c.tools && t.id == id {
      var i :| 0 <= i < |c.tools| && c.tools[i] == t;
      assert ToolIdsOf(c)[i] == id;
    }
    if k :| k in c.keys && k.id == id {
      var i :| 0 <= i < |c.keys| && c.keys[i] == k;
      assert KeyIdsOf(c)[i] == id;
    }
    if i :| 0 <= i < |ServerIdsOf(c)| && ServerIdsOf(c)[i] == id { assert c.servers[i] in c.servers; }
    if i :| 0 <= i < |ToolIdsOf(c)| && ToolIdsOf(c)[i] == id { assert c.tools[i] in c.tools; }
    if i :| 0 <= i < |KeyIdsOf(c)| && KeyIdsOf(c)[i] == id { assert c.keys[i] in c.keys; }
  }

  /** One entry added at the end, or the entry of that id replaced; every other entry as before. */
  predicate Upserted<T(==)>(ids: seq<string>, before: seq<T>, id: string, entry: T, after: seq<T>)
    requires |ids| == |before|
  {
    if id == "" then after == before + [entry]
    else
      && Named(ids, id) && |after| == |before|
      && forall i :: 0 <= i < |before| ==> after[i] == if ids[i] == id then entry else before[i]
  }

  lemma UpsertedMeans<T>(ids: seq<string>, before: seq<T>, id: string, entry: T, after: seq<T>)
    requires |ids| == |before| && Upserted(ids, before, id, entry, after)
    ensures id == "" ==> after == before + [entry]
    ensures id != "" ==> |after| == |before| && id in ids
    ensures id != "" ==> forall i ::
      0 <= i < |ids| ==> (ids[i] == id ==> after[i] == entry) && (ids[i] != id ==> after[i] == before[i])
  {
  }

  ghost predicate AllApart(ids: seq<string>) {
    forall i, j :: 0 <= i < j < |ids| ==> ids[i] != ids[j]
  }

  lemma Replaced<T>(ids: seq<string>, before: seq<T>, id: string, entry: T)
    requires |ids| == |before| && AllApart(ids) && id != "" && IndexOf(ids, id).Some?
    ensures Upserted(ids, before, id, entry, before[IndexOf(ids, id).value := entry])
  {
    NamedAt(ids, id);
    var at := IndexOf(ids, id).value;
    forall i | 0 <= i < |ids| && i != at ensures ids[i] != id {
      if i < at { assert ids[i] != ids[at]; } else { assert ids[at] != ids[i]; }
    }
  }

  lemma ValidIds(r: Rules, c: Catalog)
    requires Valid(r, c)
    ensures AllApart(ServerIdsOf(c)) && AllApart(ToolIdsOf(c)) && AllApart(KeyIdsOf(c))
    ensures !Named(ServerIdsOf(c), "") && !Named(ToolIdsOf(c), "") && !Named(KeyIdsOf(c), "")
  {
    ValidParts(r, c);
    hide IdsApart;
    NoneNameless(r, c);
    assert IdsApart(c);
    IdsApartEach(c);
  }

  lemma NoneNameless(r: Rules, c: Catalog)
    requires Valid(r, c)
    ensures !Named(ServerIdsOf(c), "") && !Named(ToolIdsOf(c), "") && !Named(KeyIdsOf(c), "")
  {
    forall i | 0 <= i < |c.servers| ensures c.servers[i].id != "" { assert ServerOk(r, c.servers[i]); }
    forall i | 0 <= i < |c.tools| ensures c.tools[i].id != "" { assert ToolOk(c.tools[i]); }
    forall i | 0 <= i < |c.keys| ensures c.keys[i].id != "" { assert KeyOk(r, c.keys[i]); }
  }

  lemma IdsApartEach(c: Catalog)
    requires IdsApart(c)
    ensures AllApart(ServerIdsOf(c)) && AllApart(ToolIdsOf(c)) && AllApart(KeyIdsOf(c))
  {
  }

  /** The secret of the written key: a new one for a new key and on rotation, else the stored one. */
  predicate SecretKept(c: Catalog, m: Mutation, freshHash: string, hash: string) {
    if m.id == "" || m.rotate then hash == freshHash
    else exists i :: 0 <= i < |c.keys| && c.keys[i].id == m.id && c.keys[i].hash == hash
  }

  /** Creating or updating a server, tool or key touches that one entry: it keeps its id or gets the fresh
      one, all others and both other lists stay as they are. */
  lemma UpsertTouchesOne(r: Rules, c: Catalog, m: Mutation, freshId: string, freshHash: string)
    requires Valid(r, c) && !m.delete && Accepts(c, m) && m.kind != "access"
    ensures var e := Edited(c, m, freshId, freshHash);
      && e.Some? && e.value.1 == (if m.id == "" then freshId else m.id)
      && var (d, id) := e.value;
        && (m.kind == "server" ==>
              && d == c.(servers := d.servers)
              && Upserted(ServerIdsOf(c), c.servers, m.id, m.server.(id := id), d.servers))
        && (m.kind == "tool" ==>
              && d == c.(tools := d.tools)
              && Upserted(ToolIdsOf(c), c.tools, m.id, m.tool.(id := id), d.tools))
        && (m.kind == "key" ==>
              && d == c.(keys := d.keys)
              && exists hash ::
                   && SecretKept(c, m, freshHash, hash)
                   && Upserted(KeyIdsOf(c), c.keys, m.id, m.key.(id := id, hash := hash), d.keys))
  {
    hide Valid, IndexOf, Named, AllApart, Upserted, AccessMap, AccessListed;
    RefusedExactly(c, m, freshId, freshHash);
    ValidIds(r, c);
    NamedAt(ServerIdsOf(c), "");
    NamedAt(ToolIdsOf(c), "");
    NamedAt(KeyIdsOf(c), "");
    match m.kind
    case "server" => ServerUpserted(c, m, freshId, freshHash);
    case "tool" => ToolUpserted(c, m, freshId, freshHash);
    case _ => KeyUpserted(c, m, freshId, freshHash);
  }

  lemma ServerUpserted(c: Catalog, m: Mutation, freshId: string, freshHash: string)
    requires m.kind == "server" && !m.delete && AllApart(ServerIdsOf(c)) && IndexOf(ServerIdsOf(c), "").None?
    requires Edited(c, m, freshId, freshHash).Some?
    ensures var (d, id) := Edited(c, m, freshId, freshHash).value;
      && d == c.(servers := d.servers) && id == (if m.id == "" then freshId else m.id)
      && Upserted(ServerIdsOf(c), c.servers, m.id, m.server.(id := id), d.servers)
  {
    hide IndexOf, AllApart, ServerIdsOf;
    assert |ServerIdsOf(c)| == |c.servers| by { IdCounts(c); }
    if m.id != "" { Replaced(ServerIdsOf(c), c.servers, m.id, m.server.(id := m.id)); }
  }

  lemma ToolUpserted(c: Catalog, m: Mutation, freshId: string, freshHash: string)
    requires m.kind == "tool" && !m.delete && AllApart(ToolIdsOf(c)) && IndexOf(ToolIdsOf(c), "").None?
    requires Edited(c, m, freshId, freshHash).Some?
    ensures var (d, id) := Edited(c, m, freshId, freshHash).value;
      && d == c.(tools := d.tools) && id == (if m.id == "" then freshId else m.id)
      && Upserted(ToolIdsOf(c), c.tools, m.id, m.tool.(id := id), d.tools)
  {
    hide IndexOf, AllApart, ToolIdsOf;
    assert |ToolIdsOf(c)| == |c.tools| by { IdCounts(c); }
    if m.id != "" { Replaced(ToolIdsOf(c), c.tools, m.id, m.tool.(id := m.id)); }
  }

  lemma KeyUpserted(c: Catalog, m: Mutation, freshId: string, freshHash: string)
    requires m.kind == "key" && !m.delete && AllApart(KeyIdsOf(c)) && IndexOf(KeyIdsOf(c), "").None?
    requires Edited(c, m, freshId, freshHash).Some?
    ensures var (d, id) := Edited(c, m, freshId, freshHash).value;
      && d == c.(keys := d.keys) && id == (if m.id == "" then freshId else m.id)
      && exists hash ::
           && SecretKept(c, m, freshHash, hash)
           && Upserted(KeyIdsOf(c), c.keys, m.id, m.key.(id := id, hash := hash), d.keys)
  {
    hide IndexOf, AllApart, KeyIdsOf, Upserted;
    assert |KeyIdsOf(c)| == |c.keys| by { IdCounts(c); }
    if m.id == "" {
      assert SecretKept(c, m, freshHash, freshHash);
      NewKey(KeyIdsOf(c), c.keys, m.key.(id := freshId, hash := freshHash));
    } else {
      var at := IndexOf(KeyIdsOf(c), m.id).value;
      assert c.keys[at].id == m.id by { KeyIdAt(c, at); }
      var hash := if m.rotate then freshHash else c.keys[at].hash;
      assert SecretKept(c, m, freshHash, hash);
      Replaced(KeyIdsOf(c), c.keys, m.id, m.key.(id := m.id, hash := hash));
    }
  }

  lemma NewKey(ids: seq<string>, before: seq<Key>, entry: Key)
    requires |ids| == |before|
    ensures Upserted(ids, before, "", entry, before + [entry])
  {
  }

  lemma IdCounts(c: Catalog)
    ensures |ServerIdsOf(c)| == |c.servers| && |ToolIdsOf(c)| == |c.tools| && |KeyIdsOf(c)| == |c.keys|
  {
  }

  lemma KeyIdAt(c: Catalog, i: nat)
    requires i < |c.keys|
    ensures i < |KeyIdsOf(c)| && KeyIdsOf(c)[i] == c.keys[i].id
  {
  }

  /** The keys themselves stay; only what they are granted may change. */
  ghost predicate OnlyGrants(before: seq<Key>, after: seq<Key>) {
    |after| == |before| && forall i :: 0 <= i < |before| ==> after[i] == before[i].(grants := after[i].grants)
  }

  /** The same grants without one tool. */
  ghost predicate Untooled(before: seq<Grant>, after: seq<Grant>, toolId: string) {
    |after| == |before| && forall j :: 0 <= j < |before| ==>
      && after[j].serverId == before[j].serverId
      && forall t :: t in after[j].toolIds <==> t in before[j].toolIds && t != toolId
  }

  /** Deleting takes away exactly the named entry and what hangs on it: with a server its tools and every
      grant on it, with a tool its mention in any grant, with a key nothing else. */
  lemma DeletionRemovesExactly(r: Rules, c: Catalog, m: Mutation, freshId: string, freshHash: string)
    requires Valid(r, c) && m.delete && Accepts(c, m) && m.kind != "access"
    ensures var e := Edited(c, m, freshId, freshHash);
      && e.Some? && e.value.1 == m.id
      && var d := e.value.0;
        && (m.kind == "server" ==>
              && (forall v :: v in d.servers <==> v in c.servers && v.id != m.id)
              && (forall t :: t in d.tools <==> t in c.tools && t.serverId != m.id)
              && OnlyGrants(c.keys, d.keys)
              && forall i, g :: 0 <= i < |c.keys| ==> (g in d.keys[i].grants <==> g in c.keys[i].grants && g.serverId != m.id))
        && (m.kind == "tool" ==>
              && d.servers == c.servers && (forall t :: t in d.tools <==> t in c.tools && t.id != m.id)
              && OnlyGrants(c.keys, d.keys)
              && forall i :: 0 <= i < |c.keys| ==> Untooled(c.keys[i].grants, d.keys[i].grants, m.id))
        && (m.kind == "key" ==>
              d == c.(keys := d.keys) && forall k :: k in d.keys <==> k in c.keys && k.id != m.id)
  {
    hide Valid, IndexOf, Named, AllApart, AccessMap, AccessListed, Filter, RemoveAt, ServerIdsOf, ToolIdsOf, KeyIdsOf, Untooled;
    RefusedExactly(c, m, freshId, freshHash);
    ValidIds(r, c);
    match m.kind
    case "server" =>
      var at := IndexOf(ServerIdsOf(c), m.id).value;
      IdsAlong(c);
      OneRemoved(c.servers, ServerIdsOf(c), at);
      assert forall v: Server :: v in c.servers ==> (v.id == m.id <==> v == c.servers[at]) by { WhichServer(c, at); }
      FilterMembers(c.tools, (t: Tool) => t.serverId != m.id);
      forall i, g | 0 <= i < |c.keys|
        ensures g in DropServer(c.keys[i], m.id).grants <==> g in c.keys[i].grants && g.serverId != m.id
      {
        FilterMembers(c.keys[i].grants, (x: Grant) => x.serverId != m.id);
      }
    case "tool" =>
      var at := IndexOf(ToolIdsOf(c), m.id).value;
      IdsAlong(c);
      OneRemoved(c.tools, ToolIdsOf(c), at);
      assert forall t: Tool :: t in c.tools ==> (t.id == m.id <==> t == c.tools[at]) by { WhichTool(c, at); }
      forall i | 0 <= i < |c.keys| ensures Untooled(c.keys[i].grants, DropTool(c.keys[i], m.id).grants, m.id) {
        ToolDropped(c.keys[i], m.id);
      }
    case _ =>
      var at := IndexOf(KeyIdsOf(c), m.id).value;
      IdsAlong(c);
      OneRemoved(c.keys, KeyIdsOf(c), at);
      assert forall k: Key :: k in c.keys ==> (k.id == m.id <==> k == c.keys[at]) by { WhichKey(c, at); }
  }

  lemma ToolDropped(k: Key, toolId: string)
    ensures Untooled(k.grants, DropTool(k, toolId).grants, toolId)
  {
    forall j, t | 0 <= j < |k.grants|
      ensures t in DropTool(k, toolId).grants[j].toolIds <==> t in k.grants[j].toolIds && t != toolId
    {
      FilterMembers(k.grants[j].toolIds, (x: string) => x != toolId);
    }
  }

  lemma {:induction false} FilterMembers<T>(s: seq<T>, keep: T -> bool)
    ensures forall x :: x in Filter(s, keep) <==> x in s && keep(x)
  {
    if s != [] {
      FilterMembers(s[..|s| - 1], keep);
      assert s == s[..|s| - 1] + [s[|s| - 1]];
    }
  }

  lemma IdsAlong(c: Catalog)
    ensures |ServerIdsOf(c)| == |c.servers| && forall i :: 0 <= i < |c.servers| ==> ServerIdsOf(c)[i] == c.servers[i].id
    ensures |ToolIdsOf(c)| == |c.tools| && forall i :: 0 <= i < |c.tools| ==> ToolIdsOf(c)[i] == c.tools[i].id
    ensures |KeyIdsOf(c)| == |c.keys| && forall i :: 0 <= i < |c.keys| ==> KeyIdsOf(c)[i] == c.keys[i].id
  {
  }

  /** What is left besides the entry at `at`; entries with ids of their own are different. */
  lemma OneRemoved<T>(s: seq<T>, ids: seq<string>, at: nat)
    requires |ids| == |s| && at < |s| && AllApart(ids)
    requires forall i, j :: 0 <= i < |s| && 0 <= j < |s| && s[i] == s[j] ==> ids[i] == ids[j]
    ensures forall x :: x in RemoveAt(s, at) <==> x in s && x != s[at]
  {
    var rest := RemoveAt(s, at);
    forall x ensures x in rest <==> x in s && x != s[at] {
      if x in rest {
        var i :| 0 <= i < |rest| && rest[i] == x;
        var j := if i < at then i else i + 1;
        assert s[j] == x && ids[j] != ids[at];
      }
      if x in s && x != s[at] {
        var j :| 0 <= j < |s| && s[j] == x;
        assert rest[if j < at then j else j - 1] == x;
      }
    }
  }

  lemma OnePlace(ids: seq<string>, i: nat, j: nat)
    requires AllApart(ids) && i < |ids| && j < |ids| && ids[i] == ids[j]
    ensures i == j
  {
  }

  lemma WhichServer(c: Catalog, at: nat)
    requires at < |c.servers| && AllApart(ServerIdsOf(c))
    ensures forall v :: v in c.servers ==> (v.id == c.servers[at].id <==> v == c.servers[at])
  {
    IdsAlong(c);
    forall v | v in c.servers && v.id == c.servers[at].id ensures v == c.servers[at] {
      var j :| 0 <= j < |c.servers| && c.servers[j] == v;
      OnePlace(ServerIdsOf(c), j, at);
    }
  }

  lemma WhichTool(c: Catalog, at: nat)
    requires at < |c.tools| && AllApart(ToolIdsOf(c))
    ensures forall t :: t in c.tools ==> (t.id == c.tools[at].id <==> t == c.tools[at])
  {
    IdsAlong(c);
    forall t | t in c.tools && t.id == c.tools[at].id ensures t == c.tools[at] {
      var j :| 0 <= j < |c.tools| && c.tools[j] == t;
      OnePlace(ToolIdsOf(c), j, at);
    }
  }

  lemma WhichKey(c: Catalog, at: nat)
    requires at < |c.keys| && AllApart(KeyIdsOf(c))
    ensures forall k :: k in c.keys ==> (k.id == c.keys[at].id <==> k == c.keys[at])
  {
    IdsAlong(c);
    forall k | k in c.keys && k.id == c.keys[at].id ensures k == c.keys[at] {
      var j :| 0 <= j < |c.keys| && c.keys[j] == k;
      OnePlace(KeyIdsOf(c), j, at);
    }
  }

  /** Deleting a server, tool or key of a consistent catalog always gives a consistent catalog. */
  lemma DeletionStaysValid(r: Rules, c: Catalog, m: Mutation, freshId: string, freshHash: string)
    requires Valid(r, c) && m.delete && m.kind != "access" && Edited(c, m, freshId, freshHash).Some?
    ensures Valid(r, Edited(c, m, freshId, freshHash).value.0)
  {
    hide Valid, ServerRemoved, ToolRemoved;
    if m.kind == "server" {
      ServerDeletionStaysValid(r, c, IndexOf(ServerIdsOf(c), m.id).value);
    } else if m.kind == "tool" {
      ToolDeletionStaysValid(r, c, IndexOf(ToolIdsOf(c), m.id).value);
    } else {
      KeyDeletionStaysValid(r, c, IndexOf(KeyIdsOf(c), m.id).value);
    }
  }

  /** Updating a key changes that key alone, and its secret only when asked to. */
  lemma KeyUpdateKeepsSecret(r: Rules, c: Catalog, m: Mutation, freshId: string, freshHash: string, i: nat)
    requires Valid(r, c) && m.kind == "key" && !m.delete && i < |c.keys| && c.keys[i].id == m.id
    ensures Edited(c, m, freshId, freshHash).Some?
    ensures var d := Edited(c, m, freshId, freshHash).value.0;
      && d == c.(keys := d.keys) && |d.keys| == |c.keys|
      && (forall j :: 0 <= j < |c.keys| && j != i ==> d.keys[j] == c.keys[j])
      && d.keys[i] == m.key.(id := m.id, hash := if m.rotate then freshHash else c.keys[i].hash)
  {
    hide Valid;
    ValidParts(r, c);
    KeyNamed(r, c, i);
    var ids := KeyIdsOf(c);
    assert ids[i] == m.id;
    var at := IndexOf(ids, m.id).value;
    assert ids[at] == c.keys[at].id;
    assert at == i;
  }

  lemma KeyNamed(r: Rules, c: Catalog, i: nat)
    requires Valid(r, c) && i < |c.keys|
    ensures c.keys[i].id != ""
  {
    assert KeyOk(r, c.keys[i]);
  }

  function Shifted(at: Option<nat>, i: nat): Option<nat> {
    if at.None? then None else Some(at.value + i)
  }

  /** The first entry with the id. */
  method Locate(ids: seq<string>, id: string) returns (at: Option<nat>)
    ensures at == IndexOf(ids, id)
  {
    for i := 0 to |ids|
      invariant IndexOf(ids, id) == Shifted(IndexOf(ids[i..], id), i)
    {
      if ids[i] == id { return Some(i); }
      assert ids[i..][1..] == ids[i + 1..];
    }
    assert ids[|ids|..] == [];
    at := None;
  }

  /** `for i := range c.Keys`: every key edited in place. */
  method EditKeys(ks: seq<Key>, edit: Key -> Key) returns (out: seq<Key>)
    ensures out == Each(ks, edit)
  {
    out := ks;
    for i := 0 to |ks|
      invariant |out| == |ks|
      invariant forall j :: 0 <= j < |ks| ==> out[j] == if j < i then edit(ks[j]) else ks[j]
    {
      out := out[i := edit(out[i])];
    }
  }

  method ReadAccess(c: Catalog, entries: seq<(string, seq<string>)>) returns (r: Option<map<string, seq<string>>>)
    ensures r == AccessMap(c, entries)
  {
    var access: map<string, seq<string>> := map[];
    for i := 0 to |entries|
      invariant AccessMap(c, entries[..i]) == Some(access)
    {
      assert entries[..i + 1][..i] == entries[..i];
      var (k, toolIds) := entries[i];
      var found := Locate(KeyIdsOf(c), k);
      if k in access || found.None? {
        Refused(c, entries, i + 1);
        return None;
      }
      access := access[k := toolIds];
    }
    assert entries[..|entries|] == entries;
    r := Some(access);
  }

  lemma {:induction false} Refused(c: Catalog, entries: seq<(string, seq<string>)>, n: nat)
    requires n <= |entries| && AccessMap(c, entries[..n]).None?
    ensures AccessMap(c, entries).None?
    decreases |entries|
  {
    if n < |entries| {
      var front := entries[..|entries| - 1];
      assert front[..n] == entries[..n];
      Refused(c, front, n);
    } else {
      assert entries[..n] == entries;
    }
  }

  method Edit(c: Catalog, m: Mutation, freshId: string, freshHash: string) returns (r: Option<(Catalog, string)>)
    ensures r == Edited(c, m, freshId, freshHash) && (r.Some? <==> Accepts(c, m))
  {
    RefusedExactly(c, m, freshId, freshHash);
    hide Accepts;
    if m.kind == "access" {
      var server := Locate(ServerIdsOf(c), m.id);
      var access := ReadAccess(c, m.access);
      if access.None? || server.None? { return None; }
      var keys := EditKeys(c.keys, k => Regrant(k, m.id, access.value));
      return Some((c.(keys := keys), m.id));
    }
    if m.kind == "server" {
      var at := Locate(ServerIdsOf(c), m.id);
      if m.delete {
        if at.None? { return None; }
        var keys := EditKeys(c.keys, k => DropServer(k, m.id));
        return Some((c.(servers := RemoveAt(c.servers, at.value),
                        tools := Filter(c.tools, (t: Tool) => t.serverId != m.id), keys := keys), m.id));
      }
      var servers := c.servers;
      if at.Some? { servers := servers[at.value := m.server.(id := m.id)]; }
      if m.id == "" { return Some((c.(servers := servers + [m.server.(id := freshId)]), freshId)); }
      return if at.Some? then Some((c.(servers := servers), m.id)) else None;
    }
    if m.kind == "tool" {
      var at := Locate(ToolIdsOf(c), m.id);
      if m.delete {
        if at.None? { return None; }
        var keys := EditKeys(c.keys, k => DropTool(k, m.id));
        return Some((c.(tools := RemoveAt(c.tools, at.value), keys := keys), m.id));
      }
      var tools := c.tools;
      if at.Some? { tools := tools[at.value := m.tool.(id := m.id)]; }
      if m.id == "" { return Some((c.(tools := tools + [m.tool.(id := freshId)]), freshId)); }
      return if at.Some? then Some((c.(tools := tools), m.id)) else None;
    }
    if m.kind != "key" { return None; }
    var at := Locate(KeyIdsOf(c), m.id);
    if m.delete { return if at.None? then None else Some((c.(keys := RemoveAt(c.keys, at.value)), m.id)); }
    var keys := c.keys;
    if at.Some? {
      var hash := if m.rotate then freshHash else keys[at.value].hash;
      keys := keys[at.value := m.key.(id := m.id, hash := hash)];
    }
    if m.id == "" { return Some((c.(keys := keys + [m.key.(id := freshId, hash := freshHash)]), freshId)); }
    r := if at.Some? then Some((c.(keys := keys), m.id)) else None;
  }
}
