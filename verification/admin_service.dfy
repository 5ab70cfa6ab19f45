/** Administrative operations: refresh, create, update, delete and readiness (internal/admin/service.go). */
module AdminService {
  import opened Prelude
  import opened Reconcile
  import opened CatalogCommit
  import CatalogStore
  import RuntimeProtocol
  import ContractStore

  // ------------------------------------------- what a pass guarantees

  /** After a pass every binding is an app's exact configuration, or the earlier runtime of an app whose
      rebuild failed or came after shutdown, or one whose revocation came after shutdown; while the manager
      was open nothing revoked, disabled or moved to another domain is bound. */
  lemma PassIsSafe(p: Pass, before: Published, id0: nat, after: Published, n: string)
    requires Reconciled(p, before, id0, after) && n in after
    ensures n in p.kept || Entitles(p.apps, n, after[n])
    ensures var a := Find(p.apps, n);
      || (a.Some? && Same(after[n].config, a.value))
      || (n in before && after[n] == before[n] &&
          (n in p.kept || n in p.missed || !(ContractStore.IsRevision(a.value.revision) && p.builds(a.value))))
  {
    hide Find, ContractStore.IsRevision;
    assert Settled(p, before, id0, after, n);
  }

  /** Every enabled app can be built this time. */
  ghost predicate AllBuild(p: Pass) {
    Undisturbed(p) && forall a :: a in p.apps && a.enabled ==> ContractStore.IsRevision(a.revision) && p.builds(a)
  }

  /** Then what is published is a function of the catalog alone, up to store indexes. */
  lemma PassForgetsHistory(p: Pass, before: Published, id0: nat, after: Published, n: string)
    requires AllBuild(p) && Reconciled(p, before, id0, after)
    ensures n in after <==> var a := Find(p.apps, n); a.Some? && a.value.enabled
    ensures n in after ==> Same(after[n].config, Find(p.apps, n).value)
  {
    hide Find, ContractStore.IsRevision;
    assert Settled(p, before, id0, after, n);
  }

  /** Two replicas with the same catalog agree, whatever they served before. */
  lemma ReplicasAgree(p: Pass, q: Pass, before: Published, before': Published, id: nat, id': nat,
                      after: Published, after': Published)
    requires p.apps == q.apps && AllBuild(p) && AllBuild(q)
    requires Reconciled(p, before, id, after) && Reconciled(q, before', id', after')
    ensures after.Keys == after'.Keys && forall n :: n in after ==> Same(after[n].config, after'[n].config)
  {
    hide Find, Reconciled, AllBuild;
    forall n
      ensures n in after <==> n in after'
      ensures n in after ==> Same(after[n].config, after'[n].config)
    {
      PassForgetsHistory(p, before, id, after, n);
      PassForgetsHistory(q, before', id', after', n);
    }
  }

  /** Two catalogs that differ in store indexes only. */
  ghost predicate SameCatalog(apps: seq<App>, apps': seq<App>) {
    forall n :: Find(apps, n).Some? == Find(apps', n).Some? &&
      (Find(apps, n).Some? ==> Same(Find(apps, n).value, Find(apps', n).value))
  }

  /** A second pass rebuilds nothing and keeps every runtime object, whether or not building works. */
  lemma SecondPassKeepsAll(p: Pass, q: Pass, before: Published, id: nat, after: Published, id': nat, again: Published)
    requires AllBuild(p) && Undisturbed(q) && SameCatalog(p.apps, q.apps)
    requires Reconciled(p, before, id, after) && Reconciled(q, after, id', again)
    ensures again == after
  {
    hide Find, AllBuild, ContractStore.IsRevision;
    forall n ensures (n in again <==> n in after) && (n in after ==> again[n] == after[n]) {
      PassForgetsHistory(p, before, id, after, n);
      assert Settled(q, after, id', again, n);
      assert Find(p.apps, n).Some? == Find(q.apps, n).Some?;
    }
  }

  /** So a gateway is not ready after a pass that left a configured, enabled app without a runtime. */
  lemma UnservedIsNotReady(p: Pass, before: Published, id0: nat, after: Published, status0: map<string, Status>,
                           status: map<string, Status>, i: nat, ok: bool, degraded: map<string, Status>)
    requires i < |p.apps| && Passed(p, before, id0, after, status0, status)
    requires p.apps[i].enabled && p.apps[i].domain != "" && p.apps[i].name !in after
    requires degraded == map n | n in status && status[n].health == Degraded :: status[n]
    requires ok <==> forall n :: n in degraded ==> degraded[n].current != ""
    ensures !ok && p.apps[i].name in degraded && degraded[p.apps[i].name].current == ""
  {
    hide Passed;
    PassOutcome(p, before, id0, after, status0, status, i);
  }

  // ---------------------------------------------------------- operations

  /** The outside world during one operation: which rebuilds of a pass work, whether the reads of Consul are
      answered, what a download brings, whether the contract can be loaded and built, the fortunes of the
      contract store, whether the transaction reaches Consul and its answer comes back, and what other
      replicas do meanwhile. */
  datatype World = World(builds: App -> bool, lists: bool, looks: bool, archive: Option<Bytes>, built: bool,
                         acceptable: bool, fates: nat -> ContractStore.Fate, fails: nat -> bool,
                         reaches: bool, answered: bool,
                         others: (nat, ContractStore.Kv) -> ContractStore.Kv, meanwhile: (nat, Store) -> Store)

  ghost predicate Fair(w: World, lib: ContractStore.Library) {
    ContractStore.Honest(w.others, lib.hash) && CatalogStore.Lawful(w.meanwhile)
  }

  ghost predicate InOrder(s: Service, contracts: ContractStore.ConsulStore, catalog: CatalogStore.ConsulCatalog,
                          lib: ContractStore.Library)
    reads s, contracts, catalog
  {
    s.Valid() && Sound(catalog.View()) && catalog.Proper() && ContractStore.Sealed(contracts.kv, lib.hash)
  }

  /** What an operation has seen: the pass of its refresh, if it came to one, the runtimes after it, and the
      store as the refresh read it, at its `Get`, and when its transaction got there. */
  datatype Seen = Seen(pass: Option<Pass>, refreshed: Published, read: Store, saw: Store, at: Store)

  ghost predicate Refreshed(seen: Seen, w: World, before: Published, id0: nat) {
    match seen.pass
    case None => seen.refreshed == before
    case Some(p) =>
      CatalogStore.Lists(p.apps, seen.read) && p.builds == w.builds && Reconciled(p, before, id0, seen.refreshed)
  }

  method Refresh(s: Service, catalog: CatalogStore.ConsulCatalog, replacing: string, w: World)
      returns (epoch: Result<nat>, ghost seen: Seen)
    requires s.Valid() && Sound(catalog.View()) && CatalogStore.Lawful(w.meanwhile)
    modifies s`runtimes, s`history, s`status, s`nextId, s`loaded, s`closed, s`stopping, s`fates
    modifies catalog`index, catalog`catalog, catalog`marker
    ensures s.Valid() && Resolved(old(s.fates), s.fates) && (old(s.closed) ==> s.closed)
    ensures seen.read == seen.saw == seen.at == catalog.View()
    ensures Sound(seen.read) && Later(old(catalog.View()), seen.read)
    ensures seen.refreshed == s.runtimes && Refreshed(seen, w, old(s.runtimes), old(s.nextId))
    ensures seen.pass.Some? <==> w.lists && catalog.Readable(catalog.catalog) && !s.stopping
    ensures seen.pass.Some? && !s.closed ==> Undisturbed(seen.pass.value)
    ensures epoch.Ok? <==> w.lists && catalog.Readable(catalog.catalog) && Serves(seen.read.catalog, replacing, s.runtimes)
    ensures epoch.Ok? ==> epoch.value == Epoch(seen.read)
  {
    hide Reconciled, StatusesSettled, Entitled, Same, Resolved, Shrinks, EntitledSince, Serves, DistinctNames,
         CatalogStore.Lists;
    NothingBuilt(s.fates);
    catalog.Wait(0, w.meanwhile);
    seen := Seen(None, s.runtimes, catalog.View(), catalog.View(), catalog.View());
    if !w.lists { return Err, seen; }
    var listing := catalog.Read();
    if listing.Err? { return Err, seen; }
    var (apps, index) := listing.value;
    CatalogStore.ListNames(apps, seen.read);
    ghost var p, revoked := s.ReconcileLocked(apps, w.builds);
    seen := seen.(pass := if s.stopping then None else Some(p), refreshed := s.runtimes);
    CatalogStore.ConvergedIsServing(apps, seen.read, replacing, s.runtimes);
    for i := 0 to |apps|
      invariant forall j :: 0 <= j < i && Ripe(apps[j], replacing) ==>
        apps[j].name in s.runtimes && Same(s.runtimes[apps[j].name].config, apps[j])
    {
      var a := apps[i];
      if Ripe(a, replacing) && (a.name !in s.runtimes || !Same(s.runtimes[a.name].config, a)) { return Err, seen; }
    }
    epoch := Ok(index);
  }

  /** When everything can be rebuilt, refreshing never refuses an open gateway. */
  lemma RefreshSucceeds(p: Pass, before: Published, id0: nat, after: Published, replacing: string)
    requires AllBuild(p) && DistinctNames(p.apps) && Reconciled(p, before, id0, after)
    ensures Converged(p.apps, replacing, after)
  {
    hide Find, AllBuild, Reconciled;
    forall i | 0 <= i < |p.apps| && Ripe(p.apps[i], replacing)
      ensures p.apps[i].name in after && Same(after[p.apps[i].name].config, p.apps[i])
    {
      FindAt(p.apps, i);
      PassForgetsHistory(p, before, id0, after, p.apps[i].name);
    }
  }

  /** `Store.Get` after the refresh. */
  method Look(catalog: CatalogStore.ConsulCatalog, name: string, w: World, ghost read: Store) returns (r: Result<Option<App>>)
    requires Sound(catalog.View()) && CatalogStore.Lawful(w.meanwhile) && Later(read, catalog.View())
    modifies catalog`index, catalog`catalog, catalog`marker
    ensures Sound(catalog.View()) && Later(read, catalog.View())
    ensures r.Ok? <==> w.looks && catalog.named(name) && (name in catalog.catalog ==> catalog.decodes(catalog.catalog[name].app))
    ensures r.Ok? ==> (r.value.Some? <==> name in catalog.catalog)
    ensures r.Ok? && r.value.Some? ==>
      r.value.value == catalog.catalog[name].app.(modifyIndex := catalog.catalog[name].stamp) && r.value.value.name == name
  {
    ghost var view := catalog.View();
    catalog.Wait(1, w.meanwhile);
    LaterAdds(read, view, catalog.View());
    if !w.looks { return Err; }
    r := catalog.Get(name);
  }

  /** The beginning of a creation or an update: refresh, then `Get`. */
  method Prepare(s: Service, catalog: CatalogStore.ConsulCatalog, name: string, replacing: string, w: World)
      returns (epoch: nat, found: Result<Option<App>>, ghost seen: Seen)
    requires s.Valid() && Sound(catalog.View()) && CatalogStore.Lawful(w.meanwhile)
    modifies s`runtimes, s`history, s`status, s`nextId, s`loaded, s`closed, s`stopping, s`fates
    modifies catalog`index, catalog`catalog, catalog`marker
    ensures s.Valid() && Resolved(old(s.fates), s.fates) && Sound(catalog.View()) && Sound(seen.read)
    ensures Later(old(catalog.View()), seen.read) && Later(seen.read, seen.saw) && seen.saw == seen.at == catalog.View()
    ensures Later(old(catalog.View()), catalog.View())
    ensures seen.refreshed == s.runtimes && Refreshed(seen, w, old(s.runtimes), old(s.nextId))
    ensures found.Ok? ==> epoch == Epoch(seen.read) && Serves(seen.read.catalog, replacing, s.runtimes)
    ensures found.Ok? ==> (found.value.Some? <==> name in catalog.catalog)
    ensures found.Ok? && found.value.Some? ==>
      && found.value.value == catalog.catalog[name].app.(modifyIndex := catalog.catalog[name].stamp)
      && found.value.value.name == name
  {
    hide Serves, Refreshed, Resolved, Sound, Later, Epoch;
    epoch, found := 0, Err;
    var e;
    e, seen := Refresh(s, catalog, replacing, w);
    Unmoved(catalog.View());
    if e.Err? { return; }
    epoch := e.value;
    found := Look(catalog, name, w, seen.read);
    seen := seen.(saw := catalog.View(), at := catalog.View());
    SeenMore(seen, w, old(s.runtimes), old(s.nextId));
    LaterAdds(old(catalog.View()), seen.read, catalog.View());
  }

  /** A record has been given to the store: the transaction met `at` and has or has not taken effect; the answer
      is only good if it has. */
  ghost predicate Sent(at: Store, now: Store, a: App, index: nat, ok: bool) {
    && (now == at || (now == Transacted(at, Put(a, index), a.catalogIndex) && a.name != "" && a.idlType == "zip"))
    && (ok ==> now == Transacted(at, Put(a, index), a.catalogIndex) && a.name != "" && a.idlType == "zip")
    && (ok ==> Fenced(at, a.catalogIndex) && Applies(at, Put(a, index)))
  }

  /** The `persist` callback: `at` is the store when the transaction gets there. Without an answer the write
      may have taken effect. */
  method Persist(catalog: CatalogStore.ConsulCatalog, a: App, index: nat, w: World) returns (ok: bool, ghost at: Store)
    requires Sound(catalog.View()) && catalog.Proper() && CatalogStore.Lawful(w.meanwhile)
    modifies catalog`index, catalog`catalog, catalog`marker
    ensures Sound(catalog.View()) && Later(old(catalog.View()), at)
    ensures Sent(at, catalog.View(), a, index, ok)
    ensures !w.reaches ==> catalog.View() == at
    ensures !w.reaches || !w.answered ==> !ok
  {
    hide Transacted, Fenced, Applies, Sound;
    catalog.Wait(2, w.meanwhile);
    at := catalog.View();
    if !w.reaches { return false, at; }
    ok := catalog.CompareAndSwap(a, index);
    if ok { MarkerAdvances(at, Put(a, index), a.catalogIndex); }
    ok := ok && w.answered;
  }

  /** A successful write: it went through on the catalog that was read, and what is published then is the
      whole catalog that it left. */
  ghost predicate Took(read: Store, now: Store, a: App, published: Published) {
    && Epoch(now) > Epoch(read)
    && (exists index :: now.catalog == Written(read.catalog, Put(a, index), now.index))
    && Serves(now.catalog, "", published)
  }

  /** The record just written is served, or nothing in its place if it is disabled; and so it is reported. */
  ghost predicate Serving(a: App, before: Published, after: Published, status: map<string, Status>) {
    if a.enabled then
      && a.name in after && after[a.name].config == a && after == before[a.name := after[a.name]]
      && a.name in status && status[a.name] == Status(a.revision, a.revision, Ready)
    else
      && after == before - {a.name} && a.name in status && status[a.name] == Status("", a.revision, Disabled)
  }

  /** A failure is reported, with the revision that is served. */
  ghost predicate Failing(a: App, published: Published, status: map<string, Status>) {
    && a.name in status
    && status[a.name] == Status(if a.name in published then published[a.name].config.revision else "", a.revision,
                                if a.idlType == "zip" && a.domain == "" then Unconfigured else Degraded)
  }

  /** The catalog has that record now, and is otherwise what it was. */
  ghost predicate Stored(before: Catalog, after: Catalog, a: App) {
    && a.name in after && after[a.name].app == a.(catalogIndex := 0, modifyIndex := 0)
    && forall n :: n != a.name ==> (n in after <==> n in before) && (n in before ==> after[n] == before[n])
  }

  lemma TookIsStored(read: Store, now: Store, a: App, published: Published)
    requires Took(read, now, a, published)
    ensures Stored(read.catalog, now.catalog, a)
  {
  }

  lemma WriteTakes(read: Store, at: Store, a: App, index: nat, replacing: string, before: Published, after: Published)
    requires Sound(read) && Later(read, at) && a.catalogIndex == Epoch(read) && a.name != ""
    requires Fenced(at, a.catalogIndex) && Applies(at, Put(a, index))
    requires Serves(read.catalog, replacing, before) && (replacing == "" || replacing == a.name) && Swapped(before, a, after)
    ensures Took(read, Transacted(at, Put(a, index), a.catalogIndex), a, after)
  {
    hide Serves, Written, Applies, Swapped;
    MarkerAdvances(at, Put(a, index), a.catalogIndex);
    LaterFenced(read, at);
    SwapServes(read.catalog, Put(a, index), before, after, at.index + 1, replacing);
  }

  /** `Manager.Publish` of a candidate with the catalog write as `persist`, and the deferred
      `candidate.Close()`; `tried` tells whether the write was attempted. */
  method Adopt(s: Service, catalog: CatalogStore.ConsulCatalog, candidate: Runtime, index: nat, w: World,
               ghost read: Store, ghost replacing: string) returns (ok: bool, tried: bool, ghost at: Store)
    requires s.Valid() && candidate.id < s.nextId && s.fates[candidate.id] == Pending
    requires Sound(catalog.View()) && catalog.Proper() && CatalogStore.Lawful(w.meanwhile)
    requires Sound(read) && Later(read, catalog.View()) && candidate.config.catalogIndex == Epoch(read)
    requires Serves(read.catalog, replacing, s.runtimes) && (replacing == "" || replacing == candidate.config.name)
    modifies s`runtimes, s`history, s`closed, s`fates, catalog`index, catalog`catalog, catalog`marker
    ensures s.Valid() && (old(s.closed) ==> s.closed) && Sound(catalog.View()) && Later(read, catalog.View())
    ensures s.fates == old(s.fates)[candidate.id := if ok && candidate.config.enabled then InService else Discarded]
    ensures tried <==> !s.closed && (candidate.config.enabled ==> w.acceptable)
    ensures !tried ==> catalog.View() == old(catalog.View())
    ensures Later(old(catalog.View()), at) && (tried ==> Sent(at, catalog.View(), candidate.config, index, ok))
    ensures !ok ==> s.runtimes == old(s.runtimes)
    ensures ok ==> tried && w.answered && Swapped(old(s.runtimes), candidate.config, s.runtimes)
    ensures ok ==> Took(read, catalog.View(), candidate.config, s.runtimes)
  {
    hide Serves, Applies, Transacted, Fenced, Sound, Later, Took, Resolved;
    var a := candidate.config;
    var next := if a.enabled then Some(candidate) else None;
    tried := s.Admit(next, w.acceptable);
    ok, at := false, catalog.View();
    ghost var view := at;
    Unmoved(at);
    if tried {
      ok, at := Persist(catalog, a, index, w);
      LaterAdds(read, view, at);
      s.Swap(a.name, next, ok);
      if ok { WriteTakes(read, at, a, index, replacing, old(s.runtimes), s.runtimes); }
      AfterPersist(read, at, catalog.View(), a, index);
    }
    if !ok || !a.enabled { s.Discard(candidate); }
  }

  lemma AfterPersist(read: Store, at: Store, now: Store, a: App, index: nat)
    requires Later(read, at) && Sound(now) && (now == at || now == Transacted(at, Put(a, index), a.catalogIndex))
    ensures Later(read, now)
  {
  }

  /** The last part of a creation or an update: build the runtime, store a new archive, write the record and
      publish. When the write is attempted the contract is complete. */
  method Install(s: Service, contracts: ContractStore.ConsulStore, catalog: CatalogStore.ConsulCatalog, a: App,
                 archive: Bytes, upload: bool, index: nat, w: World, lib: ContractStore.Library,
                 ghost read: Store, ghost replacing: string)
      returns (ok: bool, tried: bool, ghost at: Store)
    requires InOrder(s, contracts, catalog, lib) && Fair(w, lib)
    requires lib.unpackable(archive) && (!upload ==> ContractStore.Kept(contracts.kv, a.revision, archive, lib))
    requires Sound(read) && Later(read, catalog.View()) && a.catalogIndex == Epoch(read)
    requires Serves(read.catalog, replacing, s.runtimes) && (replacing == "" || replacing == a.name)
    modifies s`runtimes, s`history, s`nextId, s`closed, s`fates
    modifies contracts`kv, catalog`index, catalog`catalog, catalog`marker
    ensures s.Valid() && Resolved(old(s.fates), s.fates) && Sound(catalog.View()) && Later(read, catalog.View())
    ensures ContractStore.Extends(old(contracts.kv), contracts.kv) && ContractStore.Sealed(contracts.kv, lib.hash)
    ensures tried ==> ContractStore.Kept(contracts.kv, a.revision, archive, lib)
    ensures Later(old(catalog.View()), at) && (tried ==> Sent(at, catalog.View(), a, index, ok))
    ensures !tried ==> catalog.View() == old(catalog.View())
    ensures !ok ==> s.runtimes == old(s.runtimes)
    ensures ok ==> tried && !s.closed && Swapped(old(s.runtimes), a, s.runtimes)
    ensures ok ==> Took(read, catalog.View(), a, s.runtimes)
  {
    hide Serves, Resolved, Sound, Later, Took, Swapped, Sent, ContractStore.Sealed, ContractStore.Stored,
         ContractStore.IsRevision,
         ContractStore.Honest;
    ok, tried, at := false, false, catalog.View();
    Unmoved(at);
    NothingBuilt(s.fates);
    if !w.built { return; }
    ghost var made := s.fates;
    var candidate := s.Build(a);
    if upload {
      var put := contracts.PutContract(a.revision, archive, lib.hash, w.fates, w.others);
      if !put {
        s.Discard(candidate);
        OneBuilt(made, made, Discarded);
        return;
      }
    }
    ok, tried, at := Adopt(s, catalog, candidate, index, w, read, replacing);
    OneBuilt(made, made, if ok && a.enabled then InService else Discarded);
  }

  /** A creation from its download on. */
  method Introduce(s: Service, contracts: ContractStore.ConsulStore, catalog: CatalogStore.ConsulCatalog, draft: App,
                   w: World, lib: ContractStore.Library, ghost read: Store)
      returns (r: Result<App>, written: Option<App>, ghost at: Store)
    requires InOrder(s, contracts, catalog, lib) && Fair(w, lib)
    requires Sound(read) && Later(read, catalog.View()) && draft.catalogIndex == Epoch(read)
    requires Serves(read.catalog, "", s.runtimes)
    modifies s`runtimes, s`history, s`status, s`nextId, s`closed, s`fates
    modifies contracts`kv, catalog`index, catalog`catalog, catalog`marker
    ensures s.Valid() && Resolved(old(s.fates), s.fates) && Sound(catalog.View()) && Later(read, catalog.View())
    ensures ContractStore.Extends(old(contracts.kv), contracts.kv) && ContractStore.Sealed(contracts.kv, lib.hash)
    ensures r.Err? ==> s.runtimes == old(s.runtimes)
    ensures r.Ok? ==> written == Some(r.value) && !s.closed && Swapped(old(s.runtimes), r.value, s.runtimes)
    ensures r.Ok? ==> Took(read, catalog.View(), r.value, s.runtimes)
    ensures r.Ok? ==> s.status[r.value.name := Record(s.runtimes, r.value, false)] == s.status
    ensures written.Some? ==> w.archive.Some? && ContractStore.Kept(contracts.kv, written.value.revision, w.archive.value, lib)
    ensures written.Some? ==> written.value == draft.(revision := written.value.revision)
    ensures written.Some? ==> written.value.revision == lib.hash(w.archive.value)
    ensures Later(old(catalog.View()), at) && (written.Some? ==> Sent(at, catalog.View(), written.value, 0, r.Ok?))
  {
    hide Serves, Record, Same, Resolved, Sound, Later, Took, Swapped, ContractStore.Sealed, Epoch,
         ContractStore.Kept, ContractStore.Honest, Sent;
    NothingBuilt(s.fates);
    r, written, at := Err, None, catalog.View();
    Unmoved(at);
    if w.archive.None? || !lib.unpackable(w.archive.value) { return; }
    var a := draft.(revision := lib.hash(w.archive.value));
    var ok, tried;
    ok, tried, at := Install(s, contracts, catalog, a, w.archive.value, true, 0, w, lib, read, "");
    if tried { written := Some(a); }
    if ok {
      s.SetRecord(a, false);
      r := Ok(a);
    }
  }

  /** `written` is the record given to the store, if any. */
  method CreateApp(s: Service, contracts: ContractStore.ConsulStore, catalog: CatalogStore.ConsulCatalog, req: App,
                   valid: App -> bool, w: World, lib: ContractStore.Library)
      returns (r: Result<App>, ghost seen: Seen, written: Option<App>)
    requires InOrder(s, contracts, catalog, lib) && Fair(w, lib)
    modifies s`runtimes, s`history, s`status, s`nextId, s`loaded, s`closed, s`stopping, s`fates
    modifies contracts`kv, catalog`index, catalog`catalog, catalog`marker
    ensures s.Valid() && Resolved(old(s.fates), s.fates)
    ensures Sound(catalog.View()) && Later(old(catalog.View()), catalog.View())
    ensures ContractStore.Extends(old(contracts.kv), contracts.kv) && ContractStore.Sealed(contracts.kv, lib.hash)
    ensures Refreshed(seen, w, old(s.runtimes), old(s.nextId))
    ensures r.Err? ==> s.runtimes == seen.refreshed
    ensures r.Ok? ==> written == Some(r.value) && !s.closed && Swapped(seen.refreshed, r.value, s.runtimes)
    ensures r.Ok? ==> Took(seen.read, catalog.View(), r.value, s.runtimes)
    ensures r.Ok? ==> s.status[r.value.name := Record(s.runtimes, r.value, false)] == s.status
    ensures written.Some? ==> w.archive.Some? && ContractStore.Kept(contracts.kv, written.value.revision, w.archive.value, lib)
    ensures written.Some? ==> written.value.catalogIndex == Epoch(seen.read) && Serves(seen.read.catalog, "", seen.refreshed)
    ensures Later(old(catalog.View()), seen.read) && Later(seen.read, seen.saw) && Later(seen.saw, seen.at)
    ensures written.Some? ==>
      written.value.name !in seen.saw.catalog && Sent(seen.at, catalog.View(), written.value, 0, r.Ok?)
    // what was asked for is what is written ...
    ensures written.Some? ==>
      && written.value.name == req.name && written.value.serviceName == req.serviceName
      && written.value.rpcTimeout == req.rpcTimeout && written.value.enabled == req.enabled
      && s.normalize(req.domain) == Some(written.value.domain)
      && written.value.idlType == (if req.idlType == "" then "zip" else req.idlType)
      && written.value.revision == lib.hash(w.archive.value)
    // ... and what is stored, served and reported
    ensures r.Ok? ==> r.value.name !in seen.read.catalog && Stored(seen.read.catalog, catalog.catalog, r.value)
    ensures r.Ok? ==> Serving(r.value, seen.refreshed, s.runtimes, s.status)
  {
    hide Serves, Record, Refreshed, Same, Resolved, Sound, Later, Took, Swapped, ContractStore.Sealed, Epoch, Stored, Serving,
         ContractStore.Kept, ContractStore.Honest, Sent;
    NothingBuilt(s.fates);
    Unmoved(catalog.View());
    seen, written := Seen(None, s.runtimes, catalog.View(), catalog.View(), catalog.View()), None;
    NoPass(seen, w, s.runtimes, s.nextId);
    var stop := s.IsStopping();
    if stop { return Err, seen, None; }
    var a := req.(revision := "", idlType := if req.idlType == "" then "zip" else req.idlType);
    var domain := s.normalize(a.domain);
    if domain.None? { return Err, seen, None; }
    a := a.(domain := domain.value);
    if !valid(a) { return Err, seen, None; }
    var epoch, found;
    epoch, found, seen := Prepare(s, catalog, a.name, "", w);
    Unmoved(seen.saw);
    a := a.(catalogIndex := epoch);
    if found.Err? || found.value.Some? { return Err, seen, None; }
    ghost var made := s.fates;
    ghost var at;
    r, written, at := Introduce(s, contracts, catalog, a, w, lib, seen.read);
    SeenMore(seen, w, old(s.runtimes), old(s.nextId));
    seen := seen.(at := at);
    StillResolved(old(s.fates), made, s.fates);
    LaterAdds(old(catalog.View()), seen.read, catalog.View());
    if r.Ok? {
      SentOnRead(seen, catalog.View(), r.value, 0);
      TookIsStored(seen.read, catalog.View(), r.value, s.runtimes);
      SwappedIsServing(seen.refreshed, r.value, s.runtimes, s.status);
    }
  }

  /** What happens to the store later does not change what the pass was. */
  lemma SeenMore(seen: Seen, w: World, before: Published, id0: nat)
    ensures forall saw, at :: Refreshed(seen.(saw := saw, at := at), w, before, id0) == Refreshed(seen, w, before, id0)
  {
  }

  lemma NoPass(seen: Seen, w: World, before: Published, id0: nat)
    requires seen.pass.None? && seen.refreshed == before
    ensures Refreshed(seen, w, before, id0)
  {
  }

  lemma SentOnRead(seen: Seen, now: Store, a: App, index: nat)
    requires Sent(seen.at, now, a, index, true) && Sound(seen.read) && Later(seen.read, seen.saw) && Later(seen.saw, seen.at)
    requires a.catalogIndex == Epoch(seen.read)
    ensures seen.at.catalog == seen.read.catalog
    ensures if index == 0 then a.name !in seen.read.catalog
            else a.name in seen.read.catalog && seen.read.catalog[a.name].stamp == index
  {
    hide Transacted;
    LaterAdds(seen.read, seen.saw, seen.at);
    LaterFenced(seen.read, seen.at);
  }

  lemma SwappedIsServing(before: Published, a: App, after: Published, status: map<string, Status>)
    requires Swapped(before, a, after) && status[a.name := Record(after, a, false)] == status
    ensures Serving(a, before, after, status)
  {
    assert a.name in status[a.name := Record(after, a, false)];
  }

  /** A candidate built on the way and settled. */
  lemma OneBuilt(before: seq<Fate>, made: seq<Fate>, fate: Fate)
    requires Resolved(before, made) && fate != Pending
    ensures Resolved(before, made + [fate])
    ensures (made + [Pending])[|made| := fate] == made + [fate]
  {
  }

  /** Only the given parts of a record change; a new download link is checked for its form. */
  datatype UpdateRequest = UpdateRequest(domain: Option<string>, serviceName: Option<string>, rpcTimeout: Option<string>,
                                         enabled: Option<bool>, idl: Option<(string, bool)>)

  function Or<T>(o: Option<T>, t: T): T {
    if o.Some? then o.value else t
  }

  function Edited(a: App, req: UpdateRequest): App {
    a.(domain := Or(req.domain, a.domain), serviceName := Or(req.serviceName, a.serviceName),
       rpcTimeout := Or(req.rpcTimeout, a.rpcTimeout), enabled := Or(req.enabled, a.enabled),
       idlType := if req.idl.None? then a.idlType else if req.idl.value.0 == "" then "zip" else req.idl.value.0)
  }

  /** Each part is the requested one where there is one, else the stored one. */
  ghost predicate AsAsked(req: UpdateRequest, stored: App, written: App, normalize: string -> Option<string>) {
    && written.name == stored.name
    && written.serviceName == (if req.serviceName.Some? then req.serviceName.value else stored.serviceName)
    && written.rpcTimeout == (if req.rpcTimeout.Some? then req.rpcTimeout.value else stored.rpcTimeout)
    && written.enabled == (if req.enabled.Some? then req.enabled.value else stored.enabled)
    && normalize(if req.domain.Some? then req.domain.value else stored.domain) == Some(written.domain)
    && written.idlType == (if req.idl.None? then stored.idlType
                           else if req.idl.value.0 == "" then "zip" else req.idl.value.0)
  }

  /** Every requested part is what is stored. */
  ghost predicate AsksNothing(req: UpdateRequest, stored: App, normalize: string -> Option<string>) {
    && (req.serviceName.Some? ==> req.serviceName.value == stored.serviceName)
    && (req.rpcTimeout.Some? ==> req.rpcTimeout.value == stored.rpcTimeout)
    && (req.enabled.Some? ==> req.enabled.value == stored.enabled)
    && normalize(if req.domain.Some? then req.domain.value else stored.domain) == Some(stored.domain)
    && (req.idl.Some? ==> (if req.idl.value.0 == "" then "zip" else req.idl.value.0) == stored.idlType)
  }

  datatype UpdateResult = UpdateResult(changed: bool, oldRevision: string, newRevision: string)

  /** The branch that reports success without publishing anything. */
  predicate NothingToDo(original: App, a: App, digest: string, published: Published) {
    digest == original.revision && Same(original, a) && (a.name in published || !a.enabled)
  }

  /** The archive an update works with: a new download, or the stored one. */
  method Obtain(contracts: ContractStore.ConsulStore, fetch: bool, revision: string, w: World, lib: ContractStore.Library)
      returns (archive: Option<Bytes>, digest: string)
    requires ContractStore.Sealed(contracts.kv, lib.hash) && ContractStore.Honest(w.others, lib.hash)
    modifies contracts`kv
    ensures ContractStore.Extends(old(contracts.kv), contracts.kv) && ContractStore.Sealed(contracts.kv, lib.hash)
    ensures archive.Some? ==> digest == lib.hash(archive.value) && lib.unpackable(archive.value)
    ensures archive.Some? && fetch ==> archive == w.archive
    ensures archive.Some? && !fetch ==> digest == revision && ContractStore.Kept(contracts.kv, revision, archive.value, lib)
  {
    archive, digest := None, "";
    if fetch {
      if w.archive.Some? && lib.unpackable(w.archive.value) { archive, digest := w.archive, lib.hash(w.archive.value); }
    } else {
      var r := contracts.GetContract(revision, lib, w.fails, w.others);
      if r.Ok? { archive, digest := Some(r.value), revision; }
    }
  }

  /** An update from the edited record `a` on. */
  method Change(s: Service, contracts: ContractStore.ConsulStore, catalog: CatalogStore.ConsulCatalog, original: App,
                edited: App, fetch: bool, w: World, lib: ContractStore.Library, ghost read: Store)
      returns (r: Result<UpdateResult>, written: Option<App>, ghost at: Store)
    requires InOrder(s, contracts, catalog, lib) && Fair(w, lib)
    requires Sound(read) && Later(read, catalog.View()) && edited.catalogIndex == Epoch(read)
    requires Serves(read.catalog, edited.name, s.runtimes) && edited.name == original.name
    modifies s`runtimes, s`history, s`status, s`nextId, s`closed, s`fates
    modifies contracts`kv, catalog`index, catalog`catalog, catalog`marker
    ensures s.Valid() && Resolved(old(s.fates), s.fates) && Sound(catalog.View()) && Later(read, catalog.View())
    ensures ContractStore.Extends(old(contracts.kv), contracts.kv) && ContractStore.Sealed(contracts.kv, lib.hash)
    ensures r.Err? || !r.value.changed ==> s.runtimes == old(s.runtimes)
    ensures r.Ok? && r.value.changed ==> !s.closed && written.Some? && Swapped(old(s.runtimes), written.value, s.runtimes)
    ensures r.Ok? && r.value.changed ==> Took(read, catalog.View(), written.value, s.runtimes)
    ensures r.Ok? && !r.value.changed ==> written.None? && (edited.name in s.runtimes || !original.enabled)
    ensures written.Some? ==>
      && written.value == edited.(revision := written.value.revision)
      && (!fetch ==> written.value.revision == original.revision)
      && (fetch ==> w.archive.Some? && written.value.revision == lib.hash(w.archive.value))
      && exists archive :: ContractStore.Kept(contracts.kv, written.value.revision, archive, lib)
    ensures r.Ok? && !r.value.changed ==>
      Same(original, edited) && (fetch ==> w.archive.Some? && lib.hash(w.archive.value) == original.revision)
    ensures r.Ok? ==>
      && r.value.oldRevision == original.revision
      && r.value.newRevision == if r.value.changed then written.value.revision else original.revision
    ensures r.Ok? && r.value.changed ==> s.status[edited.name := Record(s.runtimes, written.value, false)] == s.status
    ensures r.Err? && written.Some? ==> s.status[edited.name := Record(s.runtimes, written.value, true)] == s.status
    ensures Later(old(catalog.View()), at)
    ensures written.Some? ==> Sent(at, catalog.View(), written.value, written.value.modifyIndex, r.Ok?)
  {
    hide Serves, Record, Same, Resolved, Sound, Later, Took, Swapped, ContractStore.Sealed, NothingToDo, Epoch,
         ContractStore.Kept, ContractStore.Honest, Sent;
    NothingBuilt(s.fates);
    written, at := None, catalog.View();
    Unmoved(at);
    var archive, digest := Obtain(contracts, fetch, original.revision, w, lib);
    if archive.None? {
      s.SetRecord(edited, true);
      return Err, None, at;
    }
    if NothingToDo(original, edited, digest, s.runtimes) {
      NothingIsNothing(original, edited, digest, s.runtimes);
      s.SetRecord(edited, false);
      return Ok(UpdateResult(false, original.revision, original.revision)), None, at;
    }
    var a := edited.(revision := digest);
    var ok, tried;
    ok, tried, at := Install(s, contracts, catalog, a, archive.value, fetch, a.modifyIndex, w, lib, read, a.name);
    if tried { written := Some(a); }
    s.SetRecord(a, !ok);
    r := if ok then Ok(UpdateResult(true, original.revision, digest)) else Err;
  }

  method UpdateApp(s: Service, contracts: ContractStore.ConsulStore, catalog: CatalogStore.ConsulCatalog, name: string,
                   req: UpdateRequest, valid: App -> bool, w: World, lib: ContractStore.Library)
      returns (r: Result<UpdateResult>, ghost seen: Seen, ghost stored: Option<App>, written: Option<App>)
    requires InOrder(s, contracts, catalog, lib) && Fair(w, lib)
    modifies s`runtimes, s`history, s`status, s`nextId, s`loaded, s`closed, s`stopping, s`fates
    modifies contracts`kv, catalog`index, catalog`catalog, catalog`marker
    ensures s.Valid() && Resolved(old(s.fates), s.fates)
    ensures Sound(catalog.View()) && Later(old(catalog.View()), catalog.View())
    ensures ContractStore.Extends(old(contracts.kv), contracts.kv) && ContractStore.Sealed(contracts.kv, lib.hash)
    ensures Refreshed(seen, w, old(s.runtimes), old(s.nextId))
    ensures r.Err? ==> s.runtimes == seen.refreshed
    ensures r.Ok? ==> stored.Some? && stored.value.name == name && Serves(seen.read.catalog, name, seen.refreshed)
    ensures r.Ok? && r.value.changed ==> !s.closed && written.Some? && Swapped(seen.refreshed, written.value, s.runtimes)
    ensures r.Ok? && r.value.changed ==> Took(seen.read, catalog.View(), written.value, s.runtimes)
    ensures r.Ok? && !r.value.changed ==>
      s.runtimes == seen.refreshed && written.None? && (name in seen.refreshed || !stored.value.enabled)
    ensures written.Some? ==>
      && stored.Some? && written.value.name == name && written.value.catalogIndex == Epoch(seen.read)
      && (req.idl.None? ==> written.value.revision == stored.value.revision)
      && exists archive :: ContractStore.Kept(contracts.kv, written.value.revision, archive, lib)
    ensures Later(old(catalog.View()), seen.read) && Later(seen.read, seen.saw) && Later(seen.saw, seen.at)
    ensures stored.Some? ==>
      name in seen.saw.catalog
      && stored.value == seen.saw.catalog[name].app.(modifyIndex := seen.saw.catalog[name].stamp)
    ensures written.Some? ==> Sent(seen.at, catalog.View(), written.value, stored.value.modifyIndex, r.Ok?)
    // what is written is what was asked for, and what is stored, served and reported
    ensures written.Some? ==> AsAsked(req, stored.value, written.value, s.normalize)
    ensures written.Some? && req.idl.Some? ==> w.archive.Some? && written.value.revision == lib.hash(w.archive.value)
    ensures r.Ok? && r.value.changed ==> Stored(seen.read.catalog, catalog.catalog, written.value)
    ensures r.Ok? && r.value.changed ==> Serving(written.value, seen.refreshed, s.runtimes, s.status)
    // no change is reported only if none was asked for
    ensures r.Ok? && !r.value.changed ==> AsksNothing(req, stored.value, s.normalize)
    ensures r.Ok? && !r.value.changed && req.idl.Some? ==>
      w.archive.Some? && lib.hash(w.archive.value) == stored.value.revision
    ensures r.Ok? ==>
      && r.value.oldRevision == stored.value.revision
      && r.value.newRevision == if r.value.changed then written.value.revision else stored.value.revision
    // a failed write is reported as such, with the revision that is served
    ensures r.Err? && written.Some? ==> Failing(written.value, s.runtimes, s.status)
  {
    hide Serves, Record, Refreshed, Same, Resolved, Sound, Later, Took, Swapped, ContractStore.Sealed, Edited, Epoch, Stored,
         AsAsked, AsksNothing, Serving, Failing,
         ContractStore.Kept, ContractStore.Honest, Sent;
    NothingBuilt(s.fates);
    Unmoved(catalog.View());
    seen, stored, written := Seen(None, s.runtimes, catalog.View(), catalog.View(), catalog.View()), None, None;
    NoPass(seen, w, s.runtimes, s.nextId);
    var stop := s.IsStopping();
    if stop { return Err, seen, None, None; }
    var epoch, found;
    epoch, found, seen := Prepare(s, catalog, name, name, w);
    Unmoved(seen.saw);
    if found.Err? || found.value.None? { return Err, seen, None, None; }
    stored := found.value;
    var original := found.value.value.(catalogIndex := epoch);
    var a := Edited(original, req);
    EditedKeeps(original, req);
    if req.idl.Some? && !req.idl.value.1 { return Err, seen, stored, None; }
    var domain := s.normalize(a.domain);
    if domain.None? { return Err, seen, stored, None; }
    a := a.(domain := domain.value);
    if !valid(a) { return Err, seen, stored, None; }
    ghost var made := s.fates;
    ghost var at;
    r, written, at := Change(s, contracts, catalog, original, a, req.idl.Some?, w, lib, seen.read);
    SeenMore(seen, w, old(s.runtimes), old(s.nextId));
    seen := seen.(at := at);
    StillResolved(old(s.fates), made, s.fates);
    LaterAdds(old(catalog.View()), seen.read, catalog.View());
    if written.Some? { EditIsAsked(original, req, a.domain, written.value, s.normalize); }
    if r.Ok? && r.value.changed {
      TookIsStored(seen.read, catalog.View(), written.value, s.runtimes);
      SwappedIsServing(seen.refreshed, written.value, s.runtimes, s.status);
    } else if r.Ok? {
      SameAsksNothing(original, req, a.domain, s.normalize);
    } else if written.Some? {
      FailureTold(s.runtimes, written.value, s.status);
    }
  }

  lemma FailureTold(published: Published, a: App, status: map<string, Status>)
    requires status[a.name := Record(published, a, true)] == status
    ensures Failing(a, published, status)
  {
    assert a.name in status[a.name := Record(published, a, true)];
  }

  lemma EditedKeeps(a: App, req: UpdateRequest)
    ensures var b := Edited(a, req);
      b.name == a.name && b.catalogIndex == a.catalogIndex && b.modifyIndex == a.modifyIndex && b.revision == a.revision
    ensures Edited(a, req).domain == if req.domain.Some? then req.domain.value else a.domain
  {
  }

  lemma EditIsAsked(original: App, req: UpdateRequest, domain: string, written: App, normalize: string -> Option<string>)
    requires normalize(Edited(original, req).domain) == Some(domain)
    requires written == Edited(original, req).(domain := domain, revision := written.revision)
    ensures forall stored: App | stored == original.(catalogIndex := stored.catalogIndex) ::
      AsAsked(req, stored, written, normalize)
  {
  }

  lemma SameAsksNothing(original: App, req: UpdateRequest, domain: string, normalize: string -> Option<string>)
    requires normalize(Edited(original, req).domain) == Some(domain)
    requires Same(original, Edited(original, req).(domain := domain))
    ensures forall stored: App | stored == original.(catalogIndex := stored.catalogIndex) ::
      AsksNothing(req, stored, normalize)
  {
    SameMeans(original, Edited(original, req).(domain := domain));
  }

  lemma NothingIsNothing(original: App, a: App, digest: string, published: Published)
    requires NothingToDo(original, a, digest, published)
    ensures (a.name in published || !original.enabled) && a.name == original.name
    ensures Same(original, a) && digest == original.revision
  {
  }

  /** The stores that a deletion meets: at its `Get`, at its reading of the epoch, and when its transaction
      gets there. */
  datatype Met = Met(saw: Store, readAt: Store, at: Store)

  /** The transaction of a deletion, sent after reading `readAt`, has or has not taken effect. */
  ghost predicate Removed(met: Met, name: string, index: nat, now: Store) {
    now == met.at || now == Transacted(met.at, Remove(name, index), Epoch(met.readAt))
  }

  /** What Consul asks of a deletion: the catalog can be read, nobody has committed since, and the record's
      own index is the one found. */
  ghost predicate Goes(catalog: CatalogStore.ConsulCatalog, w: World, met: Met, name: string, index: nat) {
    && w.lists && w.reaches && catalog.named(name) && catalog.Readable(met.readAt.catalog)
    && Fenced(met.at, Epoch(met.readAt)) && Applies(met.at, Remove(name, index))
  }

  /** The `persist` callback of a deletion, with other replicas at work before and inside it. */
  method Erase(catalog: CatalogStore.ConsulCatalog, name: string, index: nat, w: World, ghost saw: Store)
      returns (ok: bool, ghost met: Met)
    requires Sound(catalog.View()) && name != "" && CatalogStore.Lawful(w.meanwhile) && Later(saw, catalog.View())
    modifies catalog`index, catalog`catalog, catalog`marker
    ensures Sound(catalog.View()) && met.saw == saw && Later(saw, met.readAt) && Later(met.readAt, met.at)
    ensures ok <==> w.answered && Goes(catalog, w, met, name, index)
    ensures ok ==> met.at.catalog == met.readAt.catalog && catalog.catalog == met.readAt.catalog - {name}
    ensures ok && name in met.at.catalog ==> met.at.catalog[name].stamp == index
    ensures Removed(met, name, index, catalog.View())
  {
    hide Transacted, Fenced, Applies, Sound, Epoch, Later;
    ghost var view := catalog.View();
    catalog.Wait(2, w.meanwhile);
    LaterAdds(saw, view, catalog.View());
    Unmoved(catalog.View());
    met := Met(saw, catalog.View(), catalog.View());
    if !w.lists { return false, met; }
    ghost var readAt, at;
    ok, readAt, at := catalog.Delete(name, index, w.reaches, 3, w.meanwhile);
    met := Met(saw, readAt, at);
    RemovalKeeps(readAt, at, name, index);
    ok := ok && w.answered;
  }

  /** `Manager.Publish` of nothing with the deletion as `persist`. */
  method Withdraw(s: Service, catalog: CatalogStore.ConsulCatalog, name: string, index: nat, w: World, ghost saw: Store)
      returns (ok: bool, ghost met: Met)
    requires s.Valid() && Sound(catalog.View()) && name != "" && CatalogStore.Lawful(w.meanwhile) && saw == catalog.View()
    modifies s`runtimes, s`history, s`closed, s`fates, catalog`index, catalog`catalog, catalog`marker
    ensures s.Valid() && s.fates == old(s.fates) && Sound(catalog.View())
    ensures met.saw == saw && Later(saw, met.readAt) && Later(met.readAt, met.at)
    ensures ok <==> !s.closed && w.answered && Goes(catalog, w, met, name, index)
    ensures ok ==> met.at.catalog == met.readAt.catalog && catalog.catalog == met.readAt.catalog - {name}
    ensures ok && name in met.at.catalog ==> met.at.catalog[name].stamp == index
    ensures Removed(met, name, index, catalog.View())
    ensures s.runtimes == if ok then old(s.runtimes) - {name} else old(s.runtimes)
  {
    hide Sound, Later, Transacted, Goes, Epoch, RuntimeProtocol.Summary, CatalogStore.Lawful;
    Unmoved(saw);
    ok, met := false, Met(saw, saw, saw);
    var open := s.Admit(None, true);
    if !open { return; }
    ok, met := Erase(catalog, name, index, w, saw);
    NothingSwapped(s.runtimes, name, ok);
    s.Swap(name, None, ok);
  }

  /** The record may have changed since the epoch of any refresh; but from the reading of its own epoch on,
      a commit of any other app makes a deletion fail. */
  method DeleteApp(s: Service, catalog: CatalogStore.ConsulCatalog, name: string, w: World)
      returns (ok: bool, ghost met: Met)
    requires s.Valid() && Sound(catalog.View()) && catalog.Proper() && CatalogStore.Lawful(w.meanwhile)
    modifies s`runtimes, s`history, s`status, s`closed, s`stopping, s`fates
    modifies catalog`index, catalog`catalog, catalog`marker
    ensures s.Valid() && s.fates == old(s.fates)
    ensures Later(old(catalog.View()), met.saw) && Later(met.saw, met.readAt) && Later(met.readAt, met.at)
    ensures Sound(catalog.View())
    ensures ok <==>
      && !s.stopping && w.looks && name in met.saw.catalog && catalog.named(name)
      && catalog.decodes(met.saw.catalog[name].app)
      && !s.closed && w.answered && Goes(catalog, w, met, name, met.saw.catalog[name].stamp)
    ensures ok ==> met.at.catalog == met.readAt.catalog && catalog.catalog == met.readAt.catalog - {name}
    ensures ok ==> name in met.saw.catalog && (name in met.at.catalog ==> met.at.catalog[name] == met.saw.catalog[name])
    ensures catalog.View() == met.at ||
      (name in met.saw.catalog && Removed(met, name, met.saw.catalog[name].stamp, catalog.View()))
    ensures s.runtimes == if ok then old(s.runtimes) - {name} else old(s.runtimes)
    ensures s.status == if ok then old(s.status) - {name} else old(s.status)
  {
    hide Sound, Later, Goes, Removed, CatalogStore.Lawful;
    Unmoved(catalog.View());
    ok, met := false, Met(catalog.View(), catalog.View(), catalog.View());
    var stop := s.IsStopping();
    if stop { return; }
    var found := Look(catalog, name, w, catalog.View());
    ghost var saw := catalog.View();
    met := Met(saw, saw, saw);
    Unmoved(saw);
    if found.Err? || found.value.None? { return; }
    ok, met := Withdraw(s, catalog, name, found.value.value.modifyIndex, w, saw);
    LaterAdds(saw, met.readAt, met.at);
    if ok && name in met.at.catalog { StampNamesRecord(saw, met.at, name); }
    if ok { s.status := s.status - {name}; }
  }

  lemma RemovalKeeps(readAt: Store, at: Store, name: string, index: nat)
    requires Sound(at) && name != ""
    ensures Sound(Transacted(at, Remove(name, index), Epoch(readAt)))
    ensures Fenced(at, Epoch(readAt)) && Applies(at, Remove(name, index)) ==>
      Transacted(at, Remove(name, index), Epoch(readAt)).catalog == at.catalog - {name}
  {
    if Fenced(at, Epoch(readAt)) && Applies(at, Remove(name, index)) {
      MarkerAdvances(at, Remove(name, index), Epoch(readAt));
    }
  }

  method IsReady(s: Service) returns (ok: bool, degraded: map<string, Status>)
    ensures degraded == map n | n in s.status && s.status[n].health == Degraded :: s.status[n]
    ensures ok <==> s.loaded && !s.stopping && forall n :: n in degraded ==> degraded[n].current != ""
  {
    ok := s.loaded && !s.stopping;
    degraded := map[];
    var todo := s.status.Keys;
    while todo != {}
      invariant todo <= s.status.Keys
      invariant degraded == map n | n in s.status && n !in todo && s.status[n].health == Degraded :: s.status[n]
      invariant ok <==> s.loaded && !s.stopping && forall n :: n in degraded ==> degraded[n].current != ""
      decreases todo
    {
      var n :| n in todo;
      var v := s.status[n];
      if v.health == Degraded {
        ghost var before := degraded;
        degraded := degraded[n := v];
        assert degraded[n] == v && forall k :: k in before ==> degraded[k] == before[k];
        if v.current == "" { ok := false; }
      }
      todo := todo - {n};
    }
  }

  // -------------------------------------------- what an update may report

  /** An update that changes nothing reports success for an enabled app. The runtime it leaves in place
      is the stored configuration exactly when the refresh found it current or could rebuild it. */
  lemma NothingToDoIsCurrent(p: Pass, before: Published, id0: nat, refreshed: Published, stored: App)
    requires Undisturbed(p) && Reconciled(p, before, id0, refreshed) && stored.name in refreshed
    requires Find(p.apps, stored.name).Some? && Same(Find(p.apps, stored.name).value, stored)
    ensures var a := Find(p.apps, stored.name).value;
      Same(refreshed[stored.name].config, stored) <==>
      UpToDate(p, before, a) || (ContractStore.IsRevision(a.revision) && p.builds(a))
  {
    hide Find, ContractStore.IsRevision;
    assert Settled(p, before, id0, refreshed, stored.name);
  }

  /** Such a success with an outdated runtime: the stored record asks for another timeout, the rebuild
      fails, and the update finds the digest unchanged and some runtime in place. */
  lemma NothingToDoMayBeStale(stored: App, outdated: App, id: nat)
    requires stored.enabled && !Same(outdated, stored) && outdated.domain == stored.domain && outdated.name == stored.name
    ensures var p := Pass([stored], {}, {}, _ => false);
      var before := map[stored.name := Runtime(id, outdated)];
      && Reconciled(p, before, id + 1, before)
      && NothingToDo(stored, stored, stored.revision, before)
      && !Same(before[stored.name].config, stored)
  {
    hide ContractStore.IsRevision;
    var p := Pass([stored], {}, {}, _ => false);
    var before := map[stored.name := Runtime(id, outdated)];
    FindAt([stored], 0);
    var id0 := id + 1;
    forall n ensures Settled(p, before, id0, before, n) {
      var a := Find([stored], n);
      if n == stored.name { assert a == Some(stored); }
    }
  }
}
