/** Bringing the published runtimes in line with the app catalog (internal/admin/service.go). */
module Reconcile {
  import opened Prelude
  import RuntimeProtocol
  import ContractStore

  /** An app record; the download URL is never stored. */
  datatype App = App(name: string, domain: string, serviceName: string, enabled: bool, rpcTimeout: string,
                     idlType: string, revision: string, catalogIndex: nat, modifyIndex: nat)

  /** A built runtime; `id` stands for the identity of the object. */
  datatype Runtime = Runtime(id: nat, config: App)

  datatype Health = Ready | Disabled | Degraded | Unconfigured

  datatype Status = Status(current: string, target: string, health: Health)

  type Published = map<string, Runtime>

  /** What has become of a runtime that was built: still with its builder, published, or closed unpublished. */
  datatype Fate = Pending | InService | Discarded

  /** Equality up to the two store indexes. */
  predicate Same(a: App, b: App) {
    a.(catalogIndex := 0, modifyIndex := 0) == b.(catalogIndex := 0, modifyIndex := 0)
  }

  lemma SameMeans(a: App, b: App)
    ensures Same(a, b) <==>
      && a.name == b.name && a.domain == b.domain && a.serviceName == b.serviceName && a.enabled == b.enabled
      && a.rpcTimeout == b.rpcTimeout && a.idlType == b.idlType && a.revision == b.revision
  {
  }

  ghost predicate DistinctNames(apps: seq<App>) {
    forall i, j :: 0 <= i < j < |apps| ==> apps[i].name != apps[j].name
  }

  function Find(apps: seq<App>, n: string): (r: Option<App>)
    ensures r.Some? ==> r.value in apps && r.value.name == n
    ensures r.None? ==> forall i :: 0 <= i < |apps| ==> apps[i].name != n
  {
    if apps == [] then None
    else if apps[|apps| - 1].name == n then Some(apps[|apps| - 1])
    else Find(apps[..|apps| - 1], n)
  }

  lemma {:induction false} FindAt(apps: seq<App>, i: nat)
    requires DistinctNames(apps) && i < |apps|
    ensures Find(apps, apps[i].name) == Some(apps[i])
  {
    if i < |apps| - 1 { FindAt(apps[..|apps| - 1], i); }
  }

  // ------------------------------------------------------- specification

  /** What one pass works with: the catalog; for which records reading the contract, building and
      publication succeed this time; and, if the manager is shut down on the way, the names whose
      revocation and the names whose round came too late. */
  datatype Pass = Pass(apps: seq<App>, kept: set<string>, missed: set<string>, builds: App -> bool)

  /** The manager was open all the time. */
  predicate Undisturbed(p: Pass) { p.kept == {} && p.missed == {} }

  predicate Entitles(apps: seq<App>, n: string, r: Runtime) {
    var a := Find(apps, n);
    a.Some? && a.value.enabled && a.value.domain == r.config.domain
  }

  /** Every binding belongs to an enabled app of the catalog with the same domain. */
  ghost predicate Entitled(apps: seq<App>, published: Published) {
    forall n :: n in published ==> Entitles(apps, n, published[n])
  }

  /** The earlier runtime of an app may stay: same domain, not disabled, or revoked too late. */
  predicate Stays(p: Pass, before: Published, a: App) {
    a.name in before && (a.name in p.kept || (a.enabled && before[a.name].config.domain == a.domain))
  }

  predicate UpToDate(p: Pass, before: Published, a: App) {
    Stays(p, before, a) && Same(before[a.name].config, a)
  }

  /** A new runtime takes over. */
  predicate Renews(p: Pass, before: Published, a: App) {
    a.name !in p.missed && a.enabled && !UpToDate(p, before, a) && ContractStore.IsRevision(a.revision) && p.builds(a)
  }

  /** What a pass makes of one name; runtimes built by it have identities from `id0` on. */
  predicate Settled(p: Pass, before: Published, id0: nat, after: Published, n: string) {
    var a := Find(p.apps, n);
    if a.None? then
      (n in after <==> n in before && n in p.kept) && (n in after ==> after[n] == before[n])
    else
      && (n in after <==> Stays(p, before, a.value) || Renews(p, before, a.value))
      && (n in after ==>
            if Renews(p, before, a.value) then after[n].config == a.value && after[n].id >= id0
            else after[n] == before[n])
  }

  ghost predicate Reconciled(p: Pass, before: Published, id0: nat, after: Published) {
    forall n :: Settled(p, before, id0, after, n)
  }

  function Record(published: Published, a: App, failed: bool): Status {
    Status(if a.name in published then published[a.name].config.revision else "", a.revision,
           if failed then (if a.idlType == "zip" && a.domain == "" then Unconfigured else Degraded)
           else if !a.enabled then Disabled else Ready)
  }

  /** The pass touches the status of this app; did it fail? */
  predicate Fails(p: Pass, before: Published, a: App) {
    if a.enabled then !Renews(p, before, a) else a.name in p.missed
  }

  function StatusAfter(p: Pass, before: Published, after: Published, status: map<string, Status>, a: App): Option<Status> {
    if a.enabled && UpToDate(p, before, a) then (if a.name in status then Some(status[a.name]) else None)
    else Some(Record(after, a, Fails(p, before, a)))
  }

  ghost predicate StatusesSettled(p: Pass, before: Published, after: Published,
                                  status0: map<string, Status>, status: map<string, Status>) {
    forall n ::
      var a := Find(p.apps, n);
      var expected := if a.None? then None else StatusAfter(p, before, after, status0, a.value);
      (n in status <==> expected.Some?) && (n in status ==> status[n] == expected.value)
  }

  /** Every snapshot from the `from`-th on binds only what is entitled. */
  ghost predicate EntitledSince(apps: seq<App>, history: seq<Published>, from: int) {
    forall i :: 0 <= from <= i < |history| ==> Entitled(apps, history[i])
  }

  /** What `refresh` insists on before anything is written. */
  predicate Ripe(a: App, replacing: string) {
    a.domain != "" && a.idlType == "zip" && a.name != replacing && a.enabled
  }

  ghost predicate Converged(apps: seq<App>, replacing: string, published: Published) {
    forall i :: 0 <= i < |apps| && Ripe(apps[i], replacing) ==>
      apps[i].name in published && Same(published[apps[i].name].config, apps[i])
  }

  /** What a successful write does to the published runtimes: the record's runtime, or nothing. */
  ghost predicate Swapped(before: Published, a: App, after: Published) {
    if a.enabled then a.name in after && after[a.name].config == a && after == before[a.name := after[a.name]]
    else after == before - {a.name}
  }

  ghost predicate OnlyRemoves(s: Published, t: Published) {
    forall n :: n in t ==> n in s && t[n] == s[n]
  }

  /** From the `from`-th snapshot on each only removes. */
  ghost predicate Shrinks(history: seq<Published>, from: nat) {
    forall i :: 0 < from <= i < |history| ==> OnlyRemoves(history[i - 1], history[i])
  }

  /** Nothing that was built since is left in between: it was published, or closed unpublished. */
  ghost predicate Resolved(before: seq<Fate>, after: seq<Fate>) {
    before <= after && forall i :: |before| <= i < |after| ==> after[i] != Pending
  }

  /** How a failure is reported: a zip application without a domain is not configured, any other is degraded. */
  function FailedHealth(a: App): Health {
    if a.idlType == "zip" && a.domain == "" then Unconfigured else Degraded
  }

  predicate HexDigest(d: string) {
    |d| == 64 && forall c :: c in d ==> c in "0123456789abcdef"
  }

  /** What becomes of one app in a pass, and what is said about it. */
  ghost predicate Outcome(a: App, builds: bool, before: Published, id0: nat, after: Published,
                          status0: map<string, Status>, status: map<string, Status>) {
    var n := a.name;
    // switched off: not served, and reported so
    && (!a.enabled ==> n !in after && n in status && status[n] == Status("", a.revision, Disabled))
    // switched on: served if the earlier runtime has its domain or a new one can be built
    && (a.enabled ==>
          (n in after <==> (n in before && before[n].config.domain == a.domain) || (HexDigest(a.revision) && builds)))
    // nothing to serve with: failed, without a current revision
    && (a.enabled && n !in after ==> n in status && status[n] == Status("", a.revision, FailedHealth(a)))
    // rebuilt: exactly as stored, and ready
    && (a.enabled && n in after && after[n].id >= id0 ==>
          after[n].config == a && n in status && status[n] == Status(a.revision, a.revision, Ready))
    // an outdated runtime is kept: failed, with the revision that is served
    && (a.enabled && n in after && after[n].id < id0 && !Same(after[n].config, a) ==>
          && n in before && after[n] == before[n]
          && n in status && status[n] == Status(before[n].config.revision, a.revision, FailedHealth(a)))
    // an up-to-date one is kept, and so is what was said about it
    && (a.enabled && n in after && after[n].id < id0 && Same(after[n].config, a) ==>
          && n in before && after[n] == before[n]
          && (n in status <==> n in status0) && (n in status ==> status[n] == status0[n]))
  }

  /** A pass of an open manager, over runtimes built earlier. */
  ghost predicate Passed(p: Pass, before: Published, id0: nat, after: Published,
                         status0: map<string, Status>, status: map<string, Status>) {
    && DistinctNames(p.apps) && Undisturbed(p)
    && (forall n :: n in before ==> before[n].id < id0)
    && Reconciled(p, before, id0, after) && StatusesSettled(p, before, after, status0, status)
  }

  // -------------------------------------------------------- round by round

  /** What is entitled, or in `spared`. */
  function Spared(apps: seq<App>, before: Published, spared: set<string>): Published {
    map n | n in before && (n in spared || Entitles(apps, n, before[n])) :: before[n]
  }

  /** What the first loop leaves. */
  function RevokedBase(p: Pass, before: Published): Published {
    Spared(p.apps, before, p.kept)
  }

  /** The first `i` apps are settled; other names are as the first loop left them. */
  ghost predicate Advanced(p: Pass, before: Published, id0: nat, cur: Published, i: nat)
    requires i <= |p.apps|
  {
    forall n :: if Find(p.apps[..i], n).Some? then Settled(p, before, id0, cur, n)
                else (n in cur <==> n in RevokedBase(p, before)) && (n in cur ==> cur[n] == RevokedBase(p, before)[n])
  }

  ghost predicate StatusSettled(p: Pass, before: Published, cur: Published,
                                status0: map<string, Status>, status: map<string, Status>, a: App) {
    var expected := StatusAfter(p, before, cur, status0, a);
    (a.name in status <==> expected.Some?) && (a.name in status ==> status[a.name] == expected.value)
  }

  ghost predicate StatusesAdvanced(p: Pass, before: Published, cur: Published,
                                   status0: map<string, Status>, status: map<string, Status>, i: nat)
    requires i <= |p.apps|
  {
    forall n ::
      var a := Find(p.apps[..i], n);
      if a.Some? then StatusSettled(p, before, cur, status0, status, a.value)
      else (n in status <==> n in status0) && (n in status ==> status[n] == status0[n])
  }

  /** One round of the second loop, as a relation; `open` tells whether the manager still published. */
  ghost predicate Brought(open: bool, a: App, builds: bool, before: Published, id: nat, after: Published,
                          status: map<string, Status>, status': map<string, Status>) {
    var current := a.name in before && Same(before[a.name].config, a);
    var renews := open && a.enabled && !current && ContractStore.IsRevision(a.revision) && builds;
    && (forall n :: n != a.name ==> (n in after <==> n in before) && (n in after ==> after[n] == before[n]))
    && (a.name in after <==> renews || (a.name in before && (!open || a.enabled)))
    && (a.name in after ==>
          if renews then after[a.name].config == a && after[a.name].id >= id else after[a.name] == before[a.name])
    && status' == (if a.enabled && current then status
                   else status[a.name := Record(after, a, if a.enabled then !renews else !open)])
  }

  /** The pass after one more round. */
  function Round(p: Pass, a: App, open: bool): Pass {
    if open then p else p.(missed := p.missed + {a.name})
  }

  lemma SpareOne(apps: seq<App>, before: Published, todo: set<string>, kept: set<string>, n: string)
    requires n in todo && n in before && todo !! kept
    ensures var a, now := Find(apps, n), Spared(apps, before, todo + kept);
      && n in now && now[n] == before[n]
      && Spared(apps, before, todo - {n} + (kept + {n})) == now
      && Spared(apps, before, todo - {n} + kept)
         == if a.None? || !a.value.enabled || a.value.domain != now[n].config.domain then now - {n} else now
  {
    assert todo - {n} + (kept + {n}) == todo + kept;
  }

  lemma AllSpared(apps: seq<App>, history: seq<Published>, before: Published)
    ensures Spared(apps, before, before.Keys + {}) == before
    ensures Shrinks(history, |history|)
  {
  }

  lemma ShrinksOn(h: seq<Published>, from: seq<Published>, t: Published)
    requires h != [] && from <= h
    ensures Shrinks(h, |from|) && OnlyRemoves(h[|h| - 1], t) ==> Shrinks(h + [t], |from|)
  {
  }

  // ---------------------------------------------------------- the service

  class Service {
    const normalize: string -> Option<string>
    var runtimes: Published            // the current snapshot of the manager
    var closed: bool                   // the manager is shut down
    var status: map<string, Status>
    var loaded: bool
    var stopping: bool
    var nextId: nat                    // identities given out so far
    ghost var history: seq<Published>  // every snapshot published, oldest first
    ghost var fates: seq<Fate>         // of every runtime built, by identity

    ghost predicate Valid()
      reads this
    {
      && history != [] && history[|history| - 1] == runtimes
      && |fates| == nextId
      && forall n :: n in runtimes ==>
           runtimes[n].id < nextId && fates[runtimes[n].id] == InService && runtimes[n].config.name == n
    }

    constructor (normalize: string -> Option<string>)
      ensures Valid() && this.normalize == normalize
      ensures runtimes == map[] && status == map[] && !closed && !loaded && !stopping && fates == []
    {
      this.normalize := normalize;
      runtimes, closed, status, loaded, stopping, nextId := map[], false, map[], false, false, 0;
      history, fates := [map[]], [];
    }

    /** `Stop` may come at any time. */
    method IsStopping() returns (yes: bool)
      modifies this`stopping
      ensures old(stopping) ==> stopping
      ensures yes == stopping
    {
      if * { stopping := true; }
      yes := stopping;
    }

    /** `Builder.Build`. */
    method Build(a: App) returns (candidate: Runtime)
      requires Valid()
      modifies this`nextId, this`fates
      ensures Valid() && candidate == Runtime(old(nextId), a) && nextId == old(nextId) + 1
      ensures fates == old(fates) + [Pending]
    {
      candidate := Runtime(nextId, a);
      nextId, fates := nextId + 1, fates + [Pending];
    }

    /** `candidate.Close()`: at most once, and never of a runtime that was published. */
    method Discard(ghost candidate: Runtime)
      requires Valid() && candidate.id < nextId && fates[candidate.id] == Pending
      modifies this`fates
      ensures Valid() && fates == old(fates)[candidate.id := Discarded]
    {
      fates := fates[candidate.id := Discarded];
    }

    /** `Publish` up to `persist`; `Manager.Close` may have come first. */
    method Admit(next: Option<Runtime>, acceptable: bool) returns (ok: bool)
      modifies this`closed
      ensures old(closed) ==> closed
      ensures ok <==> !closed && (next.Some? ==> acceptable)
    {
      if * { closed := true; }
      ok := !closed && (next.Some? ==> acceptable);
    }

    /** The rest of it; `publishMu` is still held, so the manager is still open. */
    method Swap(name: string, next: Option<Runtime>, persisted: bool)
      requires Valid() && !closed
      requires next.Some? ==> next.value.config.name == name && next.value.id < nextId && fates[next.value.id] == Pending
      modifies this`runtimes, this`history, this`fates
      ensures Valid()
      ensures (persisted, runtimes) == RuntimeProtocol.Summary(old(runtimes), false, name, next, true, persisted)
      ensures history == if persisted then old(history) + [runtimes] else old(history)
      ensures fates == if persisted && next.Some? then old(fates)[next.value.id := InService] else old(fates)
    {
      if persisted {
        runtimes := RuntimeProtocol.Candidate(runtimes, name, next);
        history := history + [runtimes];
        if next.Some? { fates := fates[next.value.id := InService]; }
      }
    }

    /** A whole `Publish`: what `RuntimeSafety.PublishIsSummary` proves of every run of the manager. A
        candidate that was never published before is what the manager needs. */
    method Publish(name: string, next: Option<Runtime>, acceptable: bool) returns (ok: bool)
      requires Valid()
      requires next.Some? ==> next.value.config.name == name && next.value.id < nextId && fates[next.value.id] == Pending
      modifies this`runtimes, this`history, this`fates, this`closed
      ensures Valid() && (old(closed) ==> closed)
      ensures (ok, runtimes) == RuntimeProtocol.Summary(old(runtimes), closed, name, next, acceptable, true)
      ensures history == if ok then old(history) + [runtimes] else old(history)
      ensures fates == if ok && next.Some? then old(fates)[next.value.id := InService] else old(fates)
    {
      ok := Admit(next, acceptable);
      if ok { Swap(name, next, true); }
    }

    method RemoveApp(n: string) returns (ok: bool)
      requires Valid()
      modifies this`runtimes, this`history, this`fates, this`closed
      ensures Valid() && fates == old(fates) && (old(closed) ==> closed) && ok == !closed
      ensures runtimes == if ok then old(runtimes) - {n} else old(runtimes)
      ensures history == if ok then old(history) + [runtimes] else old(history)
      ensures old(history) != [] && OnlyRemoves(old(history)[|old(history)| - 1], runtimes)
    {
      ok := Publish(n, None, true);
    }

    /** Build and publish; a candidate that is refused, or comes too late, is closed. */
    method Renew(a: App, builds: bool) returns (ok: bool)
      requires Valid()
      modifies this`runtimes, this`history, this`nextId, this`fates, this`closed
      ensures Valid() && (old(closed) ==> closed) && (ok <==> builds && !closed) && nextId >= old(nextId)
      ensures runtimes == if ok then old(runtimes)[a.name := Runtime(old(nextId), a)] else old(runtimes)
      ensures history == if ok then old(history) + [runtimes] else old(history)
      ensures Resolved(old(fates), fates)
    {
      ok := false;
      if builds {
        var candidate := Build(a);
        ok := Publish(a.name, Some(candidate), true);
        if !ok { Discard(candidate); }
      } else if * {  // built, but refused for its domain or its routes
        var candidate := Build(a);
        Discard(candidate);
      }
    }

    method SetRecord(a: App, failed: bool)
      modifies this`status
      ensures status == old(status)[a.name := Record(runtimes, a, failed)]
    {
      var current := if a.name in runtimes then runtimes[a.name].config.revision else "";
      var health := if !a.enabled then Disabled else Ready;
      if failed {
        health := Degraded;
        if a.idlType == "zip" && a.domain == "" { health := Unconfigured; }
      }
      status := status[a.name := Status(current, a.revision, health)];
    }

    /** First loop: whatever lost its entitlement goes before anything new is built, unless the manager
        was shut down before its turn came. */
    method Revoke(apps: seq<App>) returns (ghost kept: set<string>)
      requires Valid()
      modifies this`runtimes, this`history, this`closed, this`fates
      ensures Valid() && fates == old(fates) && (old(closed) ==> closed)
      ensures kept != {} ==> closed
      ensures runtimes == Spared(apps, old(runtimes), kept)
      ensures old(history) <= history && Shrinks(history, |old(history)|)
    {
      hide Find, Entitles, Shrinks, Spared, Valid, OnlyRemoves;
      ghost var before := runtimes;
      kept := {};
      var todo := runtimes.Keys;
      AllSpared(apps, history, before);
      while todo != {}
        invariant Valid() && fates == old(fates) && todo <= before.Keys && todo !! kept
        invariant (old(closed) ==> closed) && (kept != {} ==> closed)
        invariant runtimes == Spared(apps, before, todo + kept)
        invariant old(history) <= history && Shrinks(history, |old(history)|)
        decreases todo
      {
        var n :| n in todo;
        var a := Find(apps, n);
        SpareOne(apps, before, todo, kept, n);
        if a.None? || !a.value.enabled || a.value.domain != runtimes[n].config.domain {
          ghost var h := history;
          var ok := RemoveApp(n);
          if ok { ShrinksOn(h, old(history), runtimes); } else { kept := kept + {n}; }
        }
        todo := todo - {n};
      }
      assert todo + kept == kept;
    }

    /** Third loop: a name that is not in the catalog at all. */
    method DropUnwanted(wanted: set<string>)
      requires Valid()
      modifies this`runtimes, this`history, this`closed, this`fates
      ensures Valid() && fates == old(fates) && (old(closed) ==> closed)
      ensures forall n :: n in wanted ==>
        (n in runtimes <==> n in old(runtimes)) && (n in runtimes ==> runtimes[n] == old(runtimes)[n])
      ensures OnlyRemoves(old(runtimes), runtimes)
      ensures !closed ==> runtimes.Keys <= wanted
      ensures old(closed) || old(runtimes).Keys <= wanted ==> runtimes == old(runtimes) && history == old(history)
    {
      ghost var before := runtimes;
      var todo := runtimes.Keys;
      while todo != {}
        invariant Valid() && fates == old(fates) && todo <= before.Keys && (old(closed) ==> closed)
        invariant OnlyRemoves(before, runtimes) && todo <= runtimes.Keys
        invariant forall n :: n in wanted && n in before ==> n in runtimes
        invariant !closed ==> runtimes.Keys <= wanted + todo
        invariant old(closed) || before.Keys <= wanted ==> runtimes == before && history == old(history)
        decreases todo
      {
        var n :| n in todo;
        if n !in wanted { var _ := RemoveApp(n); }
        todo := todo - {n};
      }
    }

    /** The branches of one round of the second loop. */
    method Bring(a: App, builds: bool)
      requires Valid()
      modifies this`runtimes, this`history, this`status, this`nextId, this`closed, this`fates
      ensures Valid() && nextId >= old(nextId) && (old(closed) ==> closed)
      ensures Brought(!closed, a, builds, old(runtimes), old(nextId), runtimes, old(status), status)
      ensures history == old(history) + [runtimes] || (history == old(history) && runtimes == old(runtimes))
      ensures Resolved(old(fates), fates)
    {
      hide Same, Record, Resolved, ContractStore.IsRevision;
      NothingBuilt(fates);
      if !a.enabled {
        var ok := RemoveApp(a.name);
        SetRecord(a, !ok);
        return;
      }
      if a.name in runtimes && Same(runtimes[a.name].config, a) { return; }
      if !ContractStore.IsRevision(a.revision) {
        SetRecord(a, true);
        return;
      }
      var ok := Renew(a, builds);
      SetRecord(a, !ok);
    }

    /** One round: what it says about the app is what it did to it. */
    method BringUp(a: App, builds: bool)
      requires Valid()
      modifies this`runtimes, this`history, this`status, this`nextId, this`closed, this`fates
      ensures Valid() && nextId >= old(nextId) && (old(closed) ==> closed)
      ensures Brought(!closed, a, builds, old(runtimes), old(nextId), runtimes, old(status), status)
      ensures !a.enabled && !closed ==>
        a.name !in runtimes && a.name in status && status[a.name] == Status("", a.revision, Disabled)
      ensures a.enabled && a.name !in runtimes ==>
        a.name in status
        && status[a.name] == Status("", a.revision, if a.idlType == "zip" && a.domain == "" then Unconfigured else Degraded)
      ensures a.enabled && a.name in runtimes && !(a.name in old(runtimes) && runtimes[a.name] == old(runtimes)[a.name]) ==>
        runtimes[a.name].config == a && a.name in status && status[a.name] == Status(a.revision, a.revision, Ready)
      ensures history == old(history) + [runtimes] || (history == old(history) && runtimes == old(runtimes))
      ensures Resolved(old(fates), fates)
    {
      hide Brought;
      ghost var before, id, st := runtimes, nextId, status;
      Bring(a, builds);
      RoundTold(!closed, a, builds, before, id, runtimes, st, status);
    }

    /** Second loop: whatever the catalog asks for, one app after the other. */
    method BringUpAll(apps: seq<App>, builds: App -> bool, ghost kept: set<string>, ghost before: Published, ghost id0: nat,
                      ghost status0: map<string, Status>) returns (wanted: set<string>, ghost p: Pass)
      requires Valid() && DistinctNames(apps) && id0 <= nextId && (kept != {} ==> closed)
      requires var p := Pass(apps, kept, {}, builds);
        Advanced(p, before, id0, runtimes, 0) && StatusesAdvanced(p, before, runtimes, status0, status, 0)
      modifies this`runtimes, this`history, this`status, this`nextId, this`closed, this`fates
      ensures Valid() && nextId >= old(nextId) && (old(closed) ==> closed)
      ensures p.apps == apps && p.builds == builds && p.kept == kept && (p.missed != {} ==> closed)
      ensures kept != {} ==> p.missed == wanted
      ensures wanted == set i | 0 <= i < |apps| :: apps[i].name
      ensures Advanced(p, before, id0, runtimes, |apps|) && StatusesAdvanced(p, before, runtimes, status0, status, |apps|)
      ensures old(history) <= history
      ensures kept == {} && Entitled(apps, old(runtimes)) ==> EntitledSince(apps, history, |old(history)| - 1)
      ensures Resolved(old(fates), fates)
    {
      hide Settled, Entitled, StatusAfter, Advanced, StatusesAdvanced, StatusSettled, Brought, RevokedBase, Resolved,
           Find, Record, Renews, UpToDate, DistinctNames;
      p, wanted := Pass(apps, kept, {}, builds), {};
      NothingBuilt(fates);
      ghost var h := history;
      for i := 0 to |apps|
        invariant Valid() && nextId >= old(nextId) && (old(closed) ==> closed) && (p.missed != {} ==> closed)
        invariant p.apps == apps && p.builds == builds && p.kept == kept
        invariant p.missed <= wanted && (kept != {} ==> p.missed == wanted)
        invariant wanted == set j | 0 <= j < i :: apps[j].name
        invariant Advanced(p, before, id0, runtimes, i)
        invariant StatusesAdvanced(p, before, runtimes, status0, status, i)
        invariant h <= history && Resolved(old(fates), fates)
        invariant kept == {} && Entitled(apps, old(runtimes)) ==> EntitledSince(apps, history, |h| - 1)
      {
        ghost var cur, st, id, made := runtimes, status, nextId, fates;
        NewName(apps, i);
        BringUp(apps[i], builds(apps[i]));
        AdvancedStep(p, before, id0, cur, runtimes, id, i, st, status, !closed);
        StatusStep(p, before, id0, cur, runtimes, id, status0, st, status, i, !closed);
        if Entitled(apps, cur) { EntitledStep(p, cur, runtimes, id, st, status, i, !closed); }
        StillResolved(old(fates), made, fates);
        p, wanted := Round(p, apps[i], !closed), wanted + {apps[i].name};
      }
    }

    /** The three loops. */
    method ThreeLoops(apps: seq<App>, builds: App -> bool) returns (ghost p: Pass, ghost revoked: nat)
      requires Valid() && DistinctNames(apps)
      modifies this`runtimes, this`history, this`status, this`nextId, this`closed, this`fates
      ensures Valid() && nextId >= old(nextId) && (old(closed) ==> closed)
      ensures p.apps == apps && p.builds == builds && (!closed ==> Undisturbed(p))
      ensures p.kept != {} ==> forall i :: 0 <= i < |apps| ==> apps[i].name in p.missed
      ensures Reconciled(p, old(runtimes), old(nextId), runtimes)
      ensures StatusesSettled(p, old(runtimes), runtimes, old(status), status)
      ensures |old(history)| - 1 <= revoked < |history| && Shrinks(history[..revoked + 1], |old(history)|)
      ensures p.kept == {} ==> EntitledSince(apps, history, revoked)
      ensures Resolved(old(fates), fates)
    {
      hide Settled, Entitled, Entitles, StatusAfter, Advanced, StatusesAdvanced, StatusSettled, Spared,
           Reconciled, StatusesSettled, OnlyRemoves, Find, DistinctNames, Shrinks, Resolved, EntitledSince;
      ghost var before, id0, status0 := runtimes, nextId, status;
      ghost var kept := Revoke(apps);
      p, revoked := Pass(apps, kept, {}, builds), |history| - 1;
      ghost var h := history;
      Start(p, before, id0, status0);
      assert history[..|history|] == history;
      var wanted;
      wanted, p := BringUpAll(apps, builds, kept, before, id0, status0);
      Finish(p, before, id0, runtimes, status0, status, wanted);
      DropUnwanted(wanted);
      assert history[..revoked + 1] == h;
      status := map n | n in status && n in wanted :: status[n];
    }

    method ReconcileLocked(apps: seq<App>, builds: App -> bool) returns (ghost p: Pass, ghost revoked: nat)
      requires Valid() && DistinctNames(apps)
      modifies this`runtimes, this`history, this`status, this`nextId, this`loaded, this`closed, this`stopping, this`fates
      ensures Valid() && nextId >= old(nextId) && (old(closed) ==> closed) && (old(stopping) ==> stopping)
      ensures stopping ==> runtimes == old(runtimes) && status == old(status) && loaded == old(loaded)
      ensures p.apps == apps && p.builds == builds && (!closed ==> Undisturbed(p))
      ensures !stopping && p.kept != {} ==> forall i :: 0 <= i < |apps| ==> apps[i].name in p.missed
      ensures !stopping ==> loaded && Reconciled(p, old(runtimes), old(nextId), runtimes)
      ensures !stopping ==> StatusesSettled(p, old(runtimes), runtimes, old(status), status)
      ensures !stopping && !closed ==> forall i :: 0 <= i < |apps| ==>
        Outcome(apps[i], builds(apps[i]), old(runtimes), old(nextId), runtimes, old(status), status)
      ensures !stopping && !closed ==>
        forall n :: n in runtimes || n in status ==> exists i :: 0 <= i < |apps| && apps[i].name == n
      ensures |old(history)| - 1 <= revoked < |history| && Shrinks(history[..revoked + 1], |old(history)|)
      ensures !stopping && p.kept == {} ==> EntitledSince(apps, history, revoked)
      ensures Resolved(old(fates), fates)
    {
      hide Settled, StatusAfter, Reconciled, StatusesSettled, OnlyRemoves, Find, DistinctNames, Resolved, EntitledSince, Outcome;
      NothingBuilt(fates);
      p, revoked := Pass(apps, {}, {}, builds), |history| - 1;
      var stop := IsStopping();
      if stop { return; }
      ghost var before, id0, status0 := runtimes, nextId, status;
      p, revoked := ThreeLoops(apps, builds);
      loaded := true;
      if !closed {
        AllOutcomes(p, before, id0, runtimes, status0, status);
        OnlyListed(p, before, id0, runtimes, status0, status);
      }
    }
  }

  // --------------------------------------------------------------- proofs

  lemma PassOutcome(p: Pass, before: Published, id0: nat, after: Published, status0: map<string, Status>,
                    status: map<string, Status>, i: nat)
    requires i < |p.apps| && Passed(p, before, id0, after, status0, status)
    ensures Outcome(p.apps[i], p.builds(p.apps[i]), before, id0, after, status0, status)
  {
    hide Find, ContractStore.IsRevision, Same, HexDigest;
    var a := p.apps[i];
    FindAt(p.apps, i);
    RevisionIsDigest(a.revision);
    assert Settled(p, before, id0, after, a.name);
  }

  lemma RevisionIsDigest(d: string)
    ensures ContractStore.IsRevision(d) <==> HexDigest(d)
  {
    ContractStore.RevisionExact(d);
  }

  lemma OnlyListed(p: Pass, before: Published, id0: nat, after: Published, status0: map<string, Status>,
                   status: map<string, Status>)
    requires Passed(p, before, id0, after, status0, status)
    ensures forall n :: n in after || n in status ==> exists i :: 0 <= i < |p.apps| && p.apps[i].name == n
  {
    hide Find;
    forall n | n in after || n in status ensures exists i :: 0 <= i < |p.apps| && p.apps[i].name == n {
      assert Settled(p, before, id0, after, n);
      assert Find(p.apps, n).Some?;
      var i :| 0 <= i < |p.apps| && p.apps[i] == Find(p.apps, n).value;
    }
  }

  lemma AllOutcomes(p: Pass, before: Published, id0: nat, after: Published, status0: map<string, Status>,
                    status: map<string, Status>)
    requires Passed(p, before, id0, after, status0, status)
    ensures forall i :: 0 <= i < |p.apps| ==>
      Outcome(p.apps[i], p.builds(p.apps[i]), before, id0, after, status0, status)
  {
    hide Passed, Outcome;
    forall i | 0 <= i < |p.apps|
      ensures Outcome(p.apps[i], p.builds(p.apps[i]), before, id0, after, status0, status)
    {
      PassOutcome(p, before, id0, after, status0, status, i);
    }
  }


  /** Publishing nothing under a name. */
  lemma NothingSwapped(before: Published, n: string, persisted: bool)
    ensures RuntimeProtocol.Summary(before, false, n, None, true, persisted)
         == (persisted, if persisted then before - {n} else before)
  {
  }

  lemma FindPrefix(apps: seq<App>, i: nat, n: string)
    requires DistinctNames(apps) && i < |apps|
    ensures Find(apps[..i + 1], n) == if n == apps[i].name then Some(apps[i]) else Find(apps[..i], n)
    ensures Find(apps[..i], apps[i].name).None? && Find(apps, apps[i].name) == Some(apps[i])
  {
    assert apps[..i + 1][..i] == apps[..i];
    FindAt(apps, i);
    forall a | a in apps[..i] ensures a.name != apps[i].name {
      var j :| 0 <= j < i && apps[..i][j] == a;
      assert apps[j].name != apps[i].name;
    }
  }

  /** How an app is found when its turn comes. */
  lemma BeforeTurn(p: Pass, before: Published, id0: nat, cur: Published, i: nat)
    requires i < |p.apps| && DistinctNames(p.apps) && Advanced(p, before, id0, cur, i)
    ensures p.apps[i].name in cur <==> Stays(p, before, p.apps[i])
    ensures p.apps[i].name in cur ==> cur[p.apps[i].name] == before[p.apps[i].name]
  {
    hide Find, Settled;
    FindPrefix(p.apps, i, p.apps[i].name);
  }

  /** A round leaves the fate of other names alone. */
  lemma OtherRounds(p: Pass, a: App, open: bool, before: Published, b: App)
    requires b.name != a.name
    ensures var q := Round(p, a, open);
      && Stays(q, before, b) == Stays(p, before, b) && UpToDate(q, before, b) == UpToDate(p, before, b)
      && Renews(q, before, b) == Renews(p, before, b) && Fails(q, before, b) == Fails(p, before, b)
  {
    hide ContractStore.IsRevision, Same;
  }

  lemma AdvancedStep(p: Pass, before: Published, id0: nat, cur: Published, next: Published, id: nat, i: nat,
                     st: map<string, Status>, st': map<string, Status>, open: bool)
    requires i < |p.apps| && DistinctNames(p.apps) && id0 <= id && Advanced(p, before, id0, cur, i)
    requires Brought(open, p.apps[i], p.builds(p.apps[i]), cur, id, next, st, st')
    requires (p.kept != {} ==> !open) && p.apps[i].name !in p.missed
    ensures Advanced(Round(p, p.apps[i], open), before, id0, next, i + 1)
  {
    hide Find, Settled, Brought, RevokedBase, Same;
    var a, q := p.apps[i], Round(p, p.apps[i], open);
    assert RevokedBase(q, before) == RevokedBase(p, before) by { BaseKept(p, q, before); }
    BeforeTurn(p, before, id0, cur, i);
    NewlySettled(p, before, id0, cur, next, id, i, st, st', open);
    forall n
      ensures if Find(p.apps[..i + 1], n).Some? then Settled(q, before, id0, next, n)
              else (n in next <==> n in RevokedBase(q, before)) && (n in next ==> next[n] == RevokedBase(q, before)[n])
    {
      FindPrefix(p.apps, i, n);
      if n != a.name {
        OtherStatus(open, a, p.builds(a), cur, id, next, st, st', n);
        if Find(p.apps[..i], n).Some? { SettledStays(p, a, open, before, id0, cur, next, n); }
      }
    }
  }

  lemma StillResolved(a: seq<Fate>, b: seq<Fate>, c: seq<Fate>)
    requires Resolved(a, b) && Resolved(b, c)
    ensures Resolved(a, c)
  {
  }

  lemma NothingBuilt(a: seq<Fate>)
    ensures Resolved(a, a)
  {
  }

  lemma NewName(apps: seq<App>, i: nat)
    requires DistinctNames(apps) && i < |apps|
    ensures apps[i].name !in set j | 0 <= j < i :: apps[j].name
  {
  }

  lemma BaseKept(p: Pass, q: Pass, before: Published)
    requires q == p.(missed := q.missed)
    ensures RevokedBase(q, before) == RevokedBase(p, before)
  {
  }

  lemma SettledStays(p: Pass, a: App, open: bool, before: Published, id0: nat, cur: Published, next: Published, n: string)
    requires Settled(p, before, id0, cur, n) && n != a.name
    requires (n in next <==> n in cur) && (n in next ==> next[n] == cur[n])
    ensures Settled(Round(p, a, open), before, id0, next, n)
  {
    hide Renews, Stays;
    if Find(p.apps, n).Some? { OtherRounds(p, a, open, before, Find(p.apps, n).value); }
  }

  lemma NewlySettled(p: Pass, before: Published, id0: nat, cur: Published, next: Published, id: nat, i: nat,
                     st: map<string, Status>, st': map<string, Status>, open: bool)
    requires i < |p.apps| && DistinctNames(p.apps) && id0 <= id
    requires p.apps[i].name in cur <==> Stays(p, before, p.apps[i])
    requires p.apps[i].name in cur ==> cur[p.apps[i].name] == before[p.apps[i].name]
    requires Brought(open, p.apps[i], p.builds(p.apps[i]), cur, id, next, st, st')
    requires (p.kept != {} ==> !open) && p.apps[i].name !in p.missed
    ensures Settled(Round(p, p.apps[i], open), before, id0, next, p.apps[i].name)
  {
    hide Find, Record, ContractStore.IsRevision, Same;
    FindPrefix(p.apps, i, p.apps[i].name);
  }

  lemma StatusStep(p: Pass, before: Published, id0: nat, cur: Published, next: Published, id: nat,
                   status0: map<string, Status>, st: map<string, Status>, st': map<string, Status>, i: nat, open: bool)
    requires i < |p.apps| && DistinctNames(p.apps) && Advanced(p, before, id0, cur, i)
    requires StatusesAdvanced(p, before, cur, status0, st, i)
    requires Brought(open, p.apps[i], p.builds(p.apps[i]), cur, id, next, st, st')
    requires p.apps[i].name !in p.missed
    ensures StatusesAdvanced(Round(p, p.apps[i], open), before, next, status0, st', i + 1)
  {
    hide Find, Settled, StatusSettled, Brought, Advanced;
    var a, q := p.apps[i], Round(p, p.apps[i], open);
    FindPrefix(p.apps, i, a.name);
    BeforeTurn(p, before, id0, cur, i);
    NewStatus(p, before, cur, next, id, status0, st, st', a, open);
    forall n
      ensures var b := Find(p.apps[..i + 1], n);
        if b.Some? then StatusSettled(q, before, next, status0, st', b.value)
        else (n in st' <==> n in status0) && (n in st' ==> st'[n] == status0[n])
    {
      FindPrefix(p.apps, i, n);
      if n != a.name {
        var b := Find(p.apps[..i], n);
        OtherStatus(open, a, p.builds(a), cur, id, next, st, st', n);
        if b.Some? { SameStatus(p, a, open, before, cur, next, status0, st, st', b.value); }
      }
    }
  }

  lemma RoundTold(open: bool, a: App, builds: bool, before: Published, id: nat, after: Published,
                  status: map<string, Status>, status': map<string, Status>)
    requires Brought(open, a, builds, before, id, after, status, status')
    ensures !a.enabled && open ==>
      a.name !in after && a.name in status' && status'[a.name] == Status("", a.revision, Disabled)
    ensures a.enabled && a.name !in after ==>
      a.name in status'
      && status'[a.name] == Status("", a.revision, if a.idlType == "zip" && a.domain == "" then Unconfigured else Degraded)
    ensures a.enabled && a.name in after && !(a.name in before && after[a.name] == before[a.name]) ==>
      after[a.name].config == a && a.name in status' && status'[a.name] == Status(a.revision, a.revision, Ready)
  {
    hide Same, ContractStore.IsRevision;
  }

  lemma OtherStatus(open: bool, a: App, builds: bool, cur: Published, id: nat, next: Published,
                    st: map<string, Status>, st': map<string, Status>, n: string)
    requires Brought(open, a, builds, cur, id, next, st, st') && n != a.name
    ensures (n in st' <==> n in st) && (n in st' ==> st'[n] == st[n])
    ensures (n in next <==> n in cur) && (n in next ==> next[n] == cur[n])
  {
  }

  lemma SameStatus(p: Pass, a: App, open: bool, before: Published, cur: Published, next: Published,
                   status0: map<string, Status>, st: map<string, Status>, st': map<string, Status>, b: App)
    requires StatusSettled(p, before, cur, status0, st, b) && b.name != a.name
    requires (b.name in st' <==> b.name in st) && (b.name in st' ==> st'[b.name] == st[b.name])
    requires (b.name in next <==> b.name in cur) && (b.name in next ==> next[b.name] == cur[b.name])
    ensures StatusSettled(Round(p, a, open), before, next, status0, st', b)
  {
    hide UpToDate, Fails;
    OtherRounds(p, a, open, before, b);
  }

  lemma NewStatus(p: Pass, before: Published, cur: Published, next: Published, id: nat,
                  status0: map<string, Status>, st: map<string, Status>, st': map<string, Status>, a: App, open: bool)
    requires a.name in cur <==> Stays(p, before, a)
    requires a.name in cur ==> cur[a.name] == before[a.name]
    requires (a.name in st <==> a.name in status0) && (a.name in st ==> st[a.name] == status0[a.name])
    requires Brought(open, a, p.builds(a), cur, id, next, st, st') && a.name !in p.missed
    ensures StatusSettled(Round(p, a, open), before, next, status0, st', a)
  {
    hide Record, ContractStore.IsRevision, Same;
  }

  lemma EntitledStep(p: Pass, cur: Published, next: Published, id: nat,
                     st: map<string, Status>, st': map<string, Status>, i: nat, open: bool)
    requires i < |p.apps| && DistinctNames(p.apps) && Entitled(p.apps, cur)
    requires Brought(open, p.apps[i], p.builds(p.apps[i]), cur, id, next, st, st')
    ensures Entitled(p.apps, next)
  {
    hide Find;
    FindPrefix(p.apps, i, p.apps[i].name);
  }

  lemma Start(p: Pass, before: Published, id0: nat, status: map<string, Status>)
    ensures Advanced(p, before, id0, RevokedBase(p, before), 0)
    ensures StatusesAdvanced(p, before, RevokedBase(p, before), status, status, 0)
    ensures p.kept == {} ==> Entitled(p.apps, RevokedBase(p, before))
  {
  }

  lemma Finish(p: Pass, before: Published, id0: nat, cur: Published,
               status0: map<string, Status>, status: map<string, Status>, wanted: set<string>)
    requires Advanced(p, before, id0, cur, |p.apps|) && StatusesAdvanced(p, before, cur, status0, status, |p.apps|)
    requires wanted == set j | 0 <= j < |p.apps| :: p.apps[j].name
    ensures Reconciled(p, before, id0, cur)
    ensures p.kept == {} ==> cur.Keys <= wanted
    ensures StatusesSettled(p, before, cur, status0, map n | n in status && n in wanted :: status[n])
  {
    hide Find, StatusAfter, Settled, RevokedBase, StatusSettled;
    assert p.apps[..|p.apps|] == p.apps;
    forall n
      ensures Settled(p, before, id0, cur, n)
      ensures n in wanted <==> Find(p.apps, n).Some?
      ensures n in cur && p.kept == {} ==> n in wanted
      ensures Find(p.apps, n).Some? ==> StatusSettled(p, before, cur, status0, status, Find(p.apps, n).value)
    {
      if Find(p.apps[..|p.apps|], n).None? { BaseWanted(p, before, id0, cur, n); }
    }
    FilteredStatuses(p, before, cur, status0, status, wanted);
  }

  /** A name outside the catalog is gone already, unless its revocation came too late. */
  lemma BaseWanted(p: Pass, before: Published, id0: nat, cur: Published, n: string)
    requires Find(p.apps, n).None?
    requires (n in cur <==> n in RevokedBase(p, before)) && (n in cur ==> cur[n] == RevokedBase(p, before)[n])
    ensures Settled(p, before, id0, cur, n) && (n in cur ==> n in p.kept)
  {
  }

  lemma FilteredStatuses(p: Pass, before: Published, cur: Published,
                         status0: map<string, Status>, status: map<string, Status>, wanted: set<string>)
    requires forall n :: n in wanted <==> Find(p.apps, n).Some?
    requires forall n :: Find(p.apps, n).Some? ==> StatusSettled(p, before, cur, status0, status, Find(p.apps, n).value)
    ensures StatusesSettled(p, before, cur, status0, map n | n in status && n in wanted :: status[n])
  {
    hide StatusAfter;
  }
}
