/** The MCP catalog and its consistency check (internal/mcp/model.go). */
module McpCatalog {
  import opened Prelude

  datatype Server = Server(id: string, name: string, app: string, endpoints: seq<string>, header: string,
                           bearer: bool, enabled: bool)

  datatype Tool = Tool(id: string, serverId: string, name: string, description: string, operationId: string)

  datatype Grant = Grant(serverId: string, toolIds: seq<string>)

  datatype Key = Key(id: string, name: string, enabled: bool, hash: string, grants: seq<Grant>)

  datatype Catalog = Catalog(version: nat, servers: seq<Server>, tools: seq<Tool>, keys: seq<Key>)

  /** URL parsing, blank trimming and the header rules: the endpoint's canonical path if it has one,
      whether a display name is acceptable, whether a header may carry the key. */
  datatype Rules = Rules(endpointKey: string -> Option<string>, named: string -> bool, headerOk: (string, bool) -> bool)

  const MAX_SERVERS := 50
  const MAX_TOOLS := 500
  const MAX_KEYS := 100

  predicate Letter(c: char) { 'A' <= c <= 'Z' || 'a' <= c <= 'z' }

  /** `^[A-Za-z][A-Za-z0-9_-]{0,63}$` */
  predicate ToolName(n: string) {
    1 <= |n| <= 64 && Letter(n[0]) &&
    forall i :: 0 < i < |n| ==> Letter(n[i]) || '0' <= n[i] <= '9' || n[i] == '_' || n[i] == '-'
  }

  // ------------------------------------------------------- specification

  predicate ServerOk(r: Rules, s: Server) {
    && s.id != "" && r.named(s.name) && s.app != "" && 1 <= |s.endpoints| <= 10 && r.headerOk(s.header, s.bearer)
    && forall a :: 0 <= a < |s.endpoints| ==> r.endpointKey(s.endpoints[a]).Some?
  }

  predicate ToolOk(t: Tool) {
    t.id != "" && ToolName(t.name) && t.operationId != "" && |t.description| <= 4000
  }

  predicate KeyOk(r: Rules, k: Key) {
    k.id != "" && r.named(k.name) && |k.hash| == 64
  }

  predicate HasServer(ss: seq<Server>, id: string) {
    exists i :: 0 <= i < |ss| && ss[i].id == id
  }

  /** A tool of that id, on that server. */
  predicate HasTool(ts: seq<Tool>, id: string, serverId: string) {
    exists i :: 0 <= i < |ts| && ts[i].id == id && ts[i].serverId == serverId
  }

  /** Endpoint `a` of server `i`. */
  function EndpointAt(r: Rules, ss: seq<Server>, i: nat, a: nat): Option<string>
    requires i < |ss| && a < |ss[i].endpoints|
  {
    r.endpointKey(ss[i].endpoints[a])
  }

  /** No path is used twice by the first `n` servers. */
  ghost predicate UniqueEndpoints(r: Rules, ss: seq<Server>, n: nat)
    requires n <= |ss|
  {
    forall i: nat, a: nat, j: nat, b: nat ::
      i < n && a < |ss[i].endpoints| && j < n && b < |ss[j].endpoints| && (i != j || a != b) ==>
        EndpointAt(r, ss, i, a) != EndpointAt(r, ss, j, b)
  }

  ghost predicate UniqueNames(ts: seq<Tool>, n: nat)
    requires n <= |ts|
  {
    forall i, j :: 0 <= i < j < n ==> ts[i].serverId != ts[j].serverId || ts[i].name != ts[j].name
  }

  ghost predicate GrantOk(ss: seq<Server>, ts: seq<Tool>, g: Grant) {
    HasServer(ss, g.serverId) && forall j :: 0 <= j < |g.toolIds| ==> HasTool(ts, g.toolIds[j], g.serverId)
  }

  ghost predicate GrantsOk(ss: seq<Server>, ts: seq<Tool>, gs: seq<Grant>) {
    && (forall i, j :: 0 <= i < j < |gs| ==> gs[i].serverId != gs[j].serverId)
    && forall i :: 0 <= i < |gs| ==> GrantOk(ss, ts, gs[i])
  }

  function Ids(c: Catalog): seq<string> {
    seq(|c.servers|, i requires 0 <= i < |c.servers| => c.servers[i].id) +
    seq(|c.tools|, i requires 0 <= i < |c.tools| => c.tools[i].id) +
    seq(|c.keys|, i requires 0 <= i < |c.keys| => c.keys[i].id)
  }

  ghost predicate Valid(r: Rules, c: Catalog) {
    && |c.servers| <= MAX_SERVERS && |c.tools| <= MAX_TOOLS && |c.keys| <= MAX_KEYS
    && Distinct(Ids(c))
    && (forall i :: 0 <= i < |c.servers| ==> ServerOk(r, c.servers[i]))
    && UniqueEndpoints(r, c.servers, |c.servers|)
    && (forall i :: 0 <= i < |c.tools| ==> ToolOk(c.tools[i]) && HasServer(c.servers, c.tools[i].serverId))
    && UniqueNames(c.tools, |c.tools|)
    && forall i :: 0 <= i < |c.keys| ==> KeyOk(r, c.keys[i]) && GrantsOk(c.servers, c.tools, c.keys[i].grants)
  }

  // ------------------------------------------------------------ the check

  function Elements(s: seq<string>): set<string> {
    set x | x in s
  }

  function JoinedKey(serverId: string, name: string): string { serverId + ":" + name }

  /** A tool name has no colon, so the last colon of the joined key separates its parts. */
  lemma JoinedKeyIsInjective(s: string, n: string, s': string, n': string)
    requires ToolName(n) && ToolName(n') && JoinedKey(s, n) == JoinedKey(s', n')
    ensures s == s' && n == n'
  {
    LaterColon(s, n, s', n');
    LaterColon(s', n', s, n);
    assert JoinedKey(s, n)[..|s|] == s && JoinedKey(s', n')[..|s'|] == s';
    assert JoinedKey(s, n)[|s| + 1..] == n && JoinedKey(s', n')[|s'| + 1..] == n';
  }

  lemma LaterColon(s: string, n: string, s': string, n': string)
    requires ToolName(n)
    ensures |s| < |s'| ==> JoinedKey(s, n) != JoinedKey(s', n')
  {
    if |s| < |s'| && |JoinedKey(s, n)| == |JoinedKey(s', n')| {
      assert JoinedKey(s, n)[|s'|] == n[|s'| - |s| - 1];
      assert JoinedKey(s', n')[|s'|] == ':';
    }
  }

  /** The endpoint keys of the first `n` servers and the first `m` endpoints of the next. */
  ghost function KeysBefore(r: Rules, ss: seq<Server>, n: nat, m: nat): set<Option<string>>
    requires n <= |ss| && (n < |ss| ==> m <= |ss[n].endpoints|) && (n == |ss| ==> m == 0)
  {
    (set i: nat, a: nat | i < n && a < |ss[i].endpoints| :: EndpointAt(r, ss, i, a)) +
    (set a: nat | a < m :: EndpointAt(r, ss, n, a))
  }

  ghost predicate FreshEndpoints(r: Rules, ss: seq<Server>, n: nat)
    requires n < |ss|
  {
    forall a: nat :: a < |ss[n].endpoints| ==>
      EndpointAt(r, ss, n, a).Some? && EndpointAt(r, ss, n, a) !in KeysBefore(r, ss, n, a)
  }

  lemma OneMoreKey(r: Rules, ss: seq<Server>, n: nat, a: nat)
    requires n < |ss| && a < |ss[n].endpoints|
    ensures KeysBefore(r, ss, n, a + 1) == KeysBefore(r, ss, n, a) + {EndpointAt(r, ss, n, a)}
  {
    forall k | k in KeysBefore(r, ss, n, a + 1)
      ensures k in KeysBefore(r, ss, n, a) + {EndpointAt(r, ss, n, a)}
    {
    }
    assert EndpointAt(r, ss, n, a) in KeysBefore(r, ss, n, a + 1);
    forall k | k in KeysBefore(r, ss, n, a) ensures k in KeysBefore(r, ss, n, a + 1) {
      if b: nat :| b < a && k == EndpointAt(r, ss, n, b) {
        assert b < a + 1;
      }
    }
  }

  lemma NextServerKeys(r: Rules, ss: seq<Server>, n: nat)
    requires n < |ss|
    ensures KeysBefore(r, ss, n, |ss[n].endpoints|) == KeysBefore(r, ss, n + 1, 0)
  {
  }

  lemma EndpointsStep(r: Rules, ss: seq<Server>, n: nat)
    requires n < |ss|
    requires forall a: nat :: a < |ss[n].endpoints| ==> EndpointAt(r, ss, n, a).Some?
    ensures UniqueEndpoints(r, ss, n + 1) <==> UniqueEndpoints(r, ss, n) && FreshEndpoints(r, ss, n)
  {
    if UniqueEndpoints(r, ss, n + 1) {
      forall a: nat | a < |ss[n].endpoints| ensures EndpointAt(r, ss, n, a) !in KeysBefore(r, ss, n, a) {
      }
    }
    if UniqueEndpoints(r, ss, n) && FreshEndpoints(r, ss, n) {
      forall i: nat, a: nat, j: nat, b: nat | i < n + 1 && a < |ss[i].endpoints| && j < n + 1 &&
                                              b < |ss[j].endpoints| && (i != j || a != b)
        ensures EndpointAt(r, ss, i, a) != EndpointAt(r, ss, j, b)
      {
        if i < n || (i == n && j == n && a < b) {
          Apart(r, ss, n, i, a, j, b);
        } else {
          Apart(r, ss, n, j, b, i, a);
        }
      }
    }
  }

  lemma Apart(r: Rules, ss: seq<Server>, n: nat, i: nat, a: nat, j: nat, b: nat)
    requires n < |ss| && UniqueEndpoints(r, ss, n) && FreshEndpoints(r, ss, n)
    requires i < n + 1 && a < |ss[i].endpoints| && j < n + 1 && b < |ss[j].endpoints|
    requires i < n || (i == n && j == n && a < b)
    requires i != j || a != b
    ensures EndpointAt(r, ss, i, a) != EndpointAt(r, ss, j, b)
  {
    if j == n { assert EndpointAt(r, ss, i, a) in KeysBefore(r, ss, n, b); }
  }

  /** The inner loop over one server's paths. */
  method CheckEndpoints(r: Rules, ss: seq<Server>, n: nat, used: set<Option<string>>)
      returns (ok: bool, after: set<Option<string>>)
    requires n < |ss| && used == KeysBefore(r, ss, n, 0)
    ensures ok <==> FreshEndpoints(r, ss, n)
    ensures ok ==> after == KeysBefore(r, ss, n + 1, 0)
  {
    after := used;
    for a := 0 to |ss[n].endpoints|
      invariant after == KeysBefore(r, ss, n, a)
      invariant forall b: nat :: b < a ==>
        EndpointAt(r, ss, n, b).Some? && EndpointAt(r, ss, n, b) !in KeysBefore(r, ss, n, b)
    {
      var k := r.endpointKey(ss[n].endpoints[a]);
      if k.None? { return false, after; }
      if k in after {
        assert EndpointAt(r, ss, n, a) in KeysBefore(r, ss, n, a);
        return false, after;
      }
      after := after + {k};
      OneMoreKey(r, ss, n, a);
    }
    NextServerKeys(r, ss, n);
    ok := true;
  }

  ghost predicate ServersValid(r: Rules, c: Catalog, n: nat)
    requires n <= |c.servers|
  {
    && Distinct(Ids(c)[..n])
    && (forall i :: 0 <= i < n ==> ServerOk(r, c.servers[i]))
    && UniqueEndpoints(r, c.servers, n)
  }

  method CheckServers(r: Rules, c: Catalog) returns (ok: bool, ids: set<string>)
    ensures ok <==> ServersValid(r, c, |c.servers|)
    ensures ids == Elements(Ids(c)[..|c.servers|])
  {
    ids := Elements(Ids(c)[..|c.servers|]);
    var seen: set<string> := {};
    var endpoints: set<Option<string>> := {};
    for i := 0 to |c.servers|
      invariant ServersValid(r, c, i)
      invariant seen == Elements(Ids(c)[..i])
      invariant endpoints == KeysBefore(r, c.servers, i, 0)
    {
      var s := c.servers[i];
      assert Ids(c)[i] == s.id;
      NextId(c, i);
      if s.id == "" || s.id in seen || !r.named(s.name) || s.app == "" || |s.endpoints| == 0 || |s.endpoints| > 10 {
        NotDistinct(c, i, |c.servers|);
        return false, ids;
      }
      seen := seen + {s.id};
      if !r.headerOk(s.header, s.bearer) { return false, ids; }
      var unused, after := CheckEndpoints(r, c.servers, i, endpoints);
      if !unused {
        BadEndpoints(r, c.servers, i);
        return false, ids;
      }
      forall a | 0 <= a < |s.endpoints| ensures r.endpointKey(s.endpoints[a]).Some? {
        assert EndpointAt(r, c.servers, i, a).Some?;
      }
      EndpointsStep(r, c.servers, i);
      endpoints := after;
    }
    ok := true;
  }

  /** Ids seen so far, one more. */
  lemma NextId(c: Catalog, i: nat)
    requires i < |Ids(c)|
    ensures Elements(Ids(c)[..i + 1]) == Elements(Ids(c)[..i]) + {Ids(c)[i]}
    ensures Distinct(Ids(c)[..i + 1]) <==> Distinct(Ids(c)[..i]) && Ids(c)[i] !in Ids(c)[..i]
  {
    var ids := Ids(c);
    assert ids[..i + 1] == ids[..i] + [ids[i]];
    if Distinct(ids[..i + 1]) {
      forall j, k | 0 <= j < k < i ensures ids[..i][j] != ids[..i][k] {
        assert ids[..i + 1][j] != ids[..i + 1][k];
      }
    }
    if ids[i] in ids[..i] {
      var j :| 0 <= j < i && ids[..i][j] == ids[i];
      assert ids[..i + 1][j] == ids[..i + 1][i];
    }
  }

  lemma NotDistinct(c: Catalog, i: nat, n: nat)
    requires i < n <= |Ids(c)|
    ensures Ids(c)[i] in Ids(c)[..i] ==> !Distinct(Ids(c)[..n])
  {
    var ids := Ids(c);
    if ids[i] in ids[..i] {
      var j :| 0 <= j < i && ids[..i][j] == ids[i];
      assert ids[..n][j] == ids[..n][i];
    }
  }

  lemma BadEndpoints(r: Rules, ss: seq<Server>, n: nat)
    requires n < |ss| && !FreshEndpoints(r, ss, n)
    ensures UniqueEndpoints(r, ss, |ss|) ==> exists a :: 0 <= a < |ss[n].endpoints| && r.endpointKey(ss[n].endpoints[a]).None?
  {
    if (forall a: nat :: a < |ss[n].endpoints| ==> EndpointAt(r, ss, n, a).Some?) && UniqueEndpoints(r, ss, |ss|) {
      assert UniqueEndpoints(r, ss, n + 1);
      EndpointsStep(r, ss, n);
    }
  }

  ghost predicate ToolsValid(c: Catalog, n: nat)
    requires n <= |c.tools|
  {
    && (forall i :: 0 <= i < n ==> ToolOk(c.tools[i]) && HasServer(c.servers, c.tools[i].serverId))
    && UniqueNames(c.tools, n)
  }

  ghost predicate KeysValid(r: Rules, c: Catalog, n: nat)
    requires n <= |c.keys|
  {
    forall i :: 0 <= i < n ==> KeyOk(r, c.keys[i]) && GrantsOk(c.servers, c.tools, c.keys[i].grants)
  }

  /** The second loop: `names` holds the joined key of every tool so far. */
  method CheckTools(c: Catalog, serverIds: set<string>) returns (ok: bool)
    requires serverIds == Elements(Ids(c)[..|c.servers|])
    requires Distinct(Ids(c)[..|c.servers|])
    ensures ok <==> Distinct(Ids(c)[..|c.servers| + |c.tools|]) && ToolsValid(c, |c.tools|)
  {
    hide Ids, Distinct, ToolName, HasServer, JoinedKey;
    var seen := serverIds;
    var names: set<string> := {};
    ghost var m := |c.servers|;
    ToolIdsAt(c);
    for i := 0 to |c.tools|
      invariant seen == Elements(Ids(c)[..m + i])
      invariant names == set j | 0 <= j < i :: JoinedKey(c.tools[j].serverId, c.tools[j].name)
      invariant Distinct(Ids(c)[..m + i]) && ToolsValid(c, i)
    {
      var t := c.tools[i];
      NextId(c, m + i);
      ServerIds(c, t.serverId);
      if t.id == "" || t.id in seen || !ToolName(t.name) || t.serverId !in serverIds || t.operationId == "" ||
         |t.description| > 4000 {
        NotDistinct(c, m + i, m + |c.tools|);
        return false;
      }
      seen := seen + {t.id};
      var key := JoinedKey(t.serverId, t.name);
      if key in names {
        var j :| 0 <= j < i && JoinedKey(c.tools[j].serverId, c.tools[j].name) == key;
        JoinedKeyIsInjective(c.tools[j].serverId, c.tools[j].name, t.serverId, t.name);
        return false;
      }
      NewName(c.tools, i);
      names := names + {key};
    }
    ok := true;
  }

  lemma ToolIdsAt(c: Catalog)
    ensures |Ids(c)| == |c.servers| + |c.tools| + |c.keys|
    ensures forall i :: 0 <= i < |c.tools| ==> Ids(c)[|c.servers| + i] == c.tools[i].id
  {
  }

  lemma NewName(ts: seq<Tool>, i: nat)
    requires i < |ts| && UniqueNames(ts, i)
    requires forall j :: 0 <= j < i ==> JoinedKey(ts[j].serverId, ts[j].name) != JoinedKey(ts[i].serverId, ts[i].name)
    ensures UniqueNames(ts, i + 1)
  {
  }

  /** `servers[id].Id == ""` asks whether there is a server of that id. */
  lemma ServerIds(c: Catalog, id: string)
    ensures id in Ids(c)[..|c.servers|] <==> HasServer(c.servers, id)
  {
    var ids := Ids(c)[..|c.servers|];
    if id in ids { var i :| 0 <= i < |ids| && ids[i] == id; assert c.servers[i].id == id; }
    if HasServer(c.servers, id) {
      var i :| 0 <= i < |c.servers| && c.servers[i].id == id;
      assert ids[i] == id;
    }
  }

  /** Looking a tool up by id, and then comparing its server. */
  function ToolsById(ts: seq<Tool>): map<string, Tool> {
    if ts == [] then map[] else ToolsById(ts[..|ts| - 1])[ts[|ts| - 1].id := ts[|ts| - 1]]
  }

  lemma {:induction false} LookedUp(ts: seq<Tool>, id: string, serverId: string)
    requires forall i, j :: 0 <= i < j < |ts| ==> ts[i].id != ts[j].id
    ensures id in ToolsById(ts) && ToolsById(ts)[id].serverId == serverId <==> HasTool(ts, id, serverId)
    ensures id in ToolsById(ts) ==> exists i :: 0 <= i < |ts| && ts[i] == ToolsById(ts)[id] && ts[i].id == id
  {
    if ts != [] {
      var front, last := ts[..|ts| - 1], ts[|ts| - 1];
      LookedUp(front, id, serverId);
      if id in ToolsById(front) && id != last.id {
        var i :| 0 <= i < |front| && front[i] == ToolsById(front)[id] && front[i].id == id;
        assert ts[i] == ToolsById(ts)[id];
      }
      if HasTool(ts, id, serverId) {
        var i :| 0 <= i < |ts| && ts[i].id == id && ts[i].serverId == serverId;
        if i < |front| { assert front[i] == ts[i]; }
      }
      if HasTool(front, id, serverId) {
        var i :| 0 <= i < |front| && front[i].id == id && front[i].serverId == serverId;
        assert ts[i] == front[i];
      }
    }
  }

  method CheckGrants(c: Catalog, serverIds: set<string>, tools: map<string, Tool>, gs: seq<Grant>) returns (ok: bool)
    requires serverIds == Elements(Ids(c)[..|c.servers|])
    requires tools == ToolsById(c.tools) && forall i, j :: 0 <= i < j < |c.tools| ==> c.tools[i].id != c.tools[j].id
    ensures ok <==> GrantsOk(c.servers, c.tools, gs)
  {
    var seen: set<string> := {};
    for i := 0 to |gs|
      invariant seen == set j | 0 <= j < i :: gs[j].serverId
      invariant forall j, k :: 0 <= j < k < i ==> gs[j].serverId != gs[k].serverId
      invariant forall j :: 0 <= j < i ==> GrantOk(c.servers, c.tools, gs[j])
    {
      var g := gs[i];
      ServerIds(c, g.serverId);
      if g.serverId !in serverIds || g.serverId in seen {
        assert g.serverId !in serverIds ==> !GrantOk(c.servers, c.tools, gs[i]);
        return false;
      }
      seen := seen + {g.serverId};
      for j := 0 to |g.toolIds|
        invariant forall k :: 0 <= k < j ==> HasTool(c.tools, g.toolIds[k], g.serverId)
      {
        var id := g.toolIds[j];
        LookedUp(c.tools, id, g.serverId);
        if id !in tools || tools[id].serverId != g.serverId {
          assert !GrantOk(c.servers, c.tools, gs[i]);
          return false;
        }
      }
    }
    ok := true;
  }

  method CheckKeys(r: Rules, c: Catalog, serverIds: set<string>) returns (ok: bool)
    requires serverIds == Elements(Ids(c)[..|c.servers|])
    requires Distinct(Ids(c)[..|c.servers| + |c.tools|])
    ensures ok <==> Distinct(Ids(c)) && KeysValid(r, c, |c.keys|)
  {
    hide KeyOk, GrantsOk, Ids, Distinct, ToolsById;
    ghost var m := |c.servers| + |c.tools|;
    WholeIds(c);
    var seen := Elements(Ids(c)[..|c.servers| + |c.tools|]);
    var tools := ToolsById(c.tools);
    DistinctTools(c);
    for i := 0 to |c.keys|
      invariant seen == Elements(Ids(c)[..m + i])
      invariant Distinct(Ids(c)[..m + i]) && KeysValid(r, c, i)
    {
      var k := c.keys[i];
      NextId(c, m + i);
      if k.id in seen {
        NotDistinct(c, m + i, m + |c.keys|);
        return false;
      }
      if !KeyOk(r, k) { return false; }
      seen := seen + {k.id};
      var granted := CheckGrants(c, serverIds, tools, k.grants);
      if !granted { return false; }
    }
    ok := true;
  }

  lemma WholeIds(c: Catalog)
    ensures |Ids(c)| == |c.servers| + |c.tools| + |c.keys|
    ensures forall i :: 0 <= i < |c.keys| ==> Ids(c)[|c.servers| + |c.tools| + i] == c.keys[i].id
    ensures Ids(c)[..|c.servers| + |c.tools| + |c.keys|] == Ids(c)
  {
  }

  lemma DistinctTools(c: Catalog)
    requires Distinct(Ids(c)[..|c.servers| + |c.tools|])
    ensures forall i, j :: 0 <= i < j < |c.tools| ==> c.tools[i].id != c.tools[j].id
  {
    var ids := Ids(c)[..|c.servers| + |c.tools|];
    forall i, j | 0 <= i < j < |c.tools| ensures c.tools[i].id != c.tools[j].id {
      assert ids[|c.servers| + i] == c.tools[i].id && ids[|c.servers| + j] == c.tools[j].id;
    }
  }

  lemma {:induction false} PrefixDistinct(s: seq<string>, n: nat)
    requires n <= |s| && Distinct(s)
    ensures Distinct(s[..n])
  {
    forall i, j | 0 <= i < j < n ensures s[..n][i] != s[..n][j] {
      assert s[i] != s[j];
    }
  }

  /** Exactly the consistent catalogs pass. */
  method Validate(r: Rules, c: Catalog) returns (ok: bool)
    ensures ok <==> Valid(r, c)
  {
    hide Distinct, ServerOk, UniqueEndpoints, ToolOk, UniqueNames, KeyOk, GrantsOk, HasServer;
    if |c.servers| > MAX_SERVERS || |c.tools| > MAX_TOOLS || |c.keys| > MAX_KEYS { return false; }
    var servers, ids := CheckServers(r, c);
    if Distinct(Ids(c)) {
      PrefixDistinct(Ids(c), |c.servers|);
      PrefixDistinct(Ids(c), |c.servers| + |c.tools|);
    }
    if !servers { return false; }
    var tools := CheckTools(c, ids);
    if !tools { return false; }
    ok := CheckKeys(r, c, ids);
  }
}
