/**
 The app catalog in Consul, shared by any number of gateway replicas. A write is
 one transaction that checks the `_catalog` marker, changes one record and moves
 the marker on. Requests may be served after their sender gave up or crashed.
 */
module CatalogCommit {
  import opened Prelude
  import opened Reconcile
  import ContractStore

  /** A stored record (without indexes) and the index of the write that last changed it. */
  datatype Entry = Entry(app: App, stamp: nat)

  type Catalog = map<string, Entry>

  datatype Marker = Marker(value: nat, stamp: nat)

  datatype Store = Store(index: nat, catalog: Catalog, marker: Option<Marker>)

  datatype Write = Put(app: App, index: nat) | Remove(name: string, index: nat)

  function Bare(a: App): App {
    a.(catalogIndex := 0, modifyIndex := 0)
  }

  function NameOf(w: Write): string {
    match w case Put(a, _) => a.name case Remove(n, _) => n
  }

  // --------------------------------------------------------- transactions

  /** The epoch a reader sees: the marker's index, 0 while there is no marker. */
  function Epoch(st: Store): nat {
    if st.marker.None? then 0 else st.marker.value.stamp
  }

  predicate Fenced(st: Store, epoch: nat) {
    if epoch == 0 then st.marker.None? else st.marker.Some? && st.marker.value.stamp == epoch
  }

  /** Compare-and-swap with index 0 only creates; deleting what is gone already is no conflict. */
  predicate Applies(st: Store, w: Write) {
    match w
    case Put(a, index) =>
      if index == 0 then a.name !in st.catalog else a.name in st.catalog && st.catalog[a.name].stamp == index
    case Remove(n, index) => n in st.catalog ==> st.catalog[n].stamp == index
  }

  /** Writing the value that is there already does not count as a change. */
  function Written(c: Catalog, w: Write, now: nat): Catalog {
    match w
    case Put(a, _) => if a.name in c && c[a.name].app == Bare(a) then c else c[a.name := Entry(Bare(a), now)]
    case Remove(n, _) => c - {n}
  }

  function Marked(m: Option<Marker>, value: nat, now: nat): Option<Marker> {
    if m.Some? && m.value.value == value then m else Some(Marker(value, now))
  }

  /** All three operations or none. */
  function Transacted(st: Store, w: Write, epoch: nat): Store {
    if Fenced(st, epoch) && Applies(st, w) then
      Store(st.index + 1, Written(st.catalog, w, st.index + 1), Marked(st.marker, epoch + 1, st.index + 1))
    else st
  }

  /** Records are stored under their own, nonempty names. */
  predicate Keyed(c: Catalog) {
    "" !in c && forall n :: n in c ==> c[n].app.name == n
  }

  /** The marker's value never runs ahead of its index, and every index has been given out. */
  predicate Sound(st: Store) {
    && (st.marker.Some? ==> st.marker.value.value <= st.marker.value.stamp && 1 <= st.marker.value.stamp <= st.index)
    && Keyed(st.catalog)
    && forall n :: n in st.catalog ==> 1 <= st.catalog[n].stamp <= st.index
  }

  /** So the new value differs from the stored one, the write is not elided, and the marker advances
      past every index seen before. */
  lemma MarkerAdvances(st: Store, w: Write, epoch: nat)
    requires Sound(st) && Fenced(st, epoch) && Applies(st, w) && NameOf(w) != ""
    ensures var st' := Transacted(st, w, epoch);
      && Sound(st') && st'.index == st.index + 1
      && st'.marker == Some(Marker(epoch + 1, st'.index)) && Epoch(st') > Epoch(st)
  {
  }

  // ------------------------------------------------------------- replicas

  /** A transaction on its way: `seen` and `published` are what the sender had read and was serving. */
  datatype Request = Request(owner: nat, write: Write, epoch: nat, seen: Catalog, replacing: string, published: Published)

  /** Where the contract of a new record comes from: the call's own upload of a downloaded archive, or a
      read of the stored revision. */
  datatype Source = Upload(writer: nat, archive: Bytes) | Readback(reader: nat, digest: string)

  /** A call between its refresh and its transaction, holding the service mutex: `found` is the answer to
      its `Get`. An update replaces the app of that name, a creation nothing. */
  datatype Draft = Draft(name: string, creates: bool, epoch: nat, seen: Catalog,
                         found: Option<Option<Entry>>, source: Option<Source>)

  datatype Phase =
    | Idle
    | Drafting(draft: Draft)
    | Deleting(name: string, index: nat)  // `DeleteApp` after its `Get`
    | Waiting(id: nat)                    // inside `persist`

  datatype Replica = Replica(published: Published, phase: Phase)

  datatype Commit = Commit(seen: Catalog, write: Write, before: Catalog, after: Catalog)

  datatype State = State(store: Store, contracts: ContractStore.System, replicas: map<nat, Replica>,
                         sent: map<nat, Request>, answers: map<nat, bool>, log: seq<Commit>)

  function Replacing(d: Draft): string {
    if d.creates then "" else d.name
  }

  /** Every app that must be served, except the one being replaced, is served exactly as stored. */
  predicate Serves(c: Catalog, replacing: string, published: Published) {
    forall n :: n in c && Ripe(c[n].app, replacing) ==> n in published && Same(published[n].config, c[n].app)
  }

  /** The runtimes after a successful write. */
  ghost predicate Swaps(before: Published, w: Write, after: Published) {
    match w
    case Put(a, _) => Swapped(before, a, after)
    case Remove(n, _) => after == before - {n}
  }

  function Lookup(c: Catalog, n: string): Option<Entry> {
    if n in c then Some(c[n]) else None
  }

  /** The call has its contract: its own upload returned nil, or its read returned the archive. */
  ghost predicate Obtained(contracts: ContractStore.System, source: Source, revision: string) {
    match source
    case Upload(w, archive) =>
      && w in contracts.writers && ContractStore.Finished(contracts.writers[w])
      && contracts.writers[w].archive == archive && contracts.writers[w].digest == revision
    case Readback(r, digest) =>
      && r in contracts.readers && contracts.readers[r].Answer?
      && contracts.readers[r].digest == digest == revision
  }

  /** What a call may hand to the store: the draft's name and epoch with an index that its `Get` justifies. */
  ghost predicate Drafted(d: Draft, contracts: ContractStore.System, a: App, index: nat) {
    && d.found.Some? && d.source.Some? && Obtained(contracts, d.source.value, a.revision)
    && a.name == d.name != "" && a.idlType == "zip"
    && (if d.creates then d.found.value.None? && index == 0
        else d.found.value.Some? && index == d.found.value.value.stamp)
  }

  datatype Action =
    | Reconciles(i: nat, published: Published)                    // a watch wakes an idle replica
    | Refreshes(i: nat, name: string, creates: bool, published: Published)  // read, reconcile, converged
    | Looks(i: nat)                                               // `Get` of a creation or an update
    | Downloads(i: nat, w: nat, archive: Bytes)                   // resolved and unpacked; `PutContract` begins
    | ReadsBack(i: nat, r: nat)                                   // `GetContract` of the stored revision begins
    | Submits(i: nat, id: nat, app: App, index: nat)              // the transaction is sent
    | LooksToDelete(i: nat, name: string)                         // `Get` of a deletion
    | SubmitsDelete(i: nat, id: nat)                              // reads the epoch itself
    | Served(id: nat)                                             // Consul executes a transaction
    | Learns(i: nat, published: Published)                        // the answer reaches its sender
    | GivesUp(i: nat)                                             // any error, timeouts included
    | Crashes(i: nat)
    | Contracts(m: ContractStore.Move)                            // any part of any upload or read by anyone
    | Ticks                                                       // unrelated writes in Consul

  ghost predicate Step(s: State, a: Action, t: State, lib: ContractStore.Library) {
    match a
    case Reconciles(i, published) =>
      && i in s.replicas && s.replicas[i].phase.Idle?
      && t == s.(replicas := s.replicas[i := Replica(published, Idle)])
    case Refreshes(i, name, creates, published) =>
      && i in s.replicas && s.replicas[i].phase.Idle?
      && var d := Draft(name, creates, Epoch(s.store), s.store.catalog, None, None);
        && Serves(s.store.catalog, Replacing(d), published)
        && t == s.(replicas := s.replicas[i := Replica(published, Drafting(d))])
    case Looks(i) =>
      && i in s.replicas && s.replicas[i].phase.Drafting? && s.replicas[i].phase.draft.found.None?
      && var r, d := s.replicas[i], s.replicas[i].phase.draft;
        var looked := d.(found := Some(Lookup(s.store.catalog, d.name)));
        t == s.(replicas := s.replicas[i := r.(phase := Drafting(looked))])
    case Downloads(i, w, archive) =>
      && i in s.replicas && s.replicas[i].phase.Drafting? && lib.unpackable(archive)
      && var d := s.replicas[i].phase.draft;
        && d.found.Some? && d.source.None?
        && t.replicas == s.replicas[i := s.replicas[i].(phase := Drafting(d.(source := Some(Upload(w, archive)))))]
        && t == s.(replicas := t.replicas, contracts := t.contracts)
        && ContractStore.Step(s.contracts, ContractStore.Begin(w, ContractStore.Writer(lib.hash(archive), archive, 0)),
                              t.contracts, lib)
    case ReadsBack(i, r) =>
      && i in s.replicas && s.replicas[i].phase.Drafting?
      && var d := s.replicas[i].phase.draft;
        && d.found.Some? && d.found.value.Some? && d.source.None? && !d.creates
        && var revision := d.found.value.value.app.revision;
          && t.replicas == s.replicas[i := s.replicas[i].(phase := Drafting(d.(source := Some(Readback(r, revision)))))]
          && t == s.(replicas := t.replicas, contracts := t.contracts)
          && ContractStore.Step(s.contracts, ContractStore.Ask(r, revision), t.contracts, lib)
    case Submits(i, id, app, index) =>
      && i in s.replicas && s.replicas[i].phase.Drafting? && id !in s.sent
      && var r, d := s.replicas[i], s.replicas[i].phase.draft;
        && Drafted(d, s.contracts, app, index)
        && t == s.(replicas := s.replicas[i := r.(phase := Waiting(id))],
                   sent := s.sent[id := Request(i, Put(app, index), d.epoch, d.seen, Replacing(d), r.published)])
    case LooksToDelete(i, name) =>
      && i in s.replicas && s.replicas[i].phase.Idle? && name != "" && name in s.store.catalog
      && t == s.(replicas := s.replicas[i := s.replicas[i].(phase := Deleting(name, s.store.catalog[name].stamp))])
    case SubmitsDelete(i, id) =>
      && i in s.replicas && s.replicas[i].phase.Deleting? && id !in s.sent
      && var r, name := s.replicas[i], s.replicas[i].phase.name;
        t == s.(replicas := s.replicas[i := r.(phase := Waiting(id))],
                sent := s.sent[id :=
                  Request(i, Remove(name, r.phase.index), Epoch(s.store), s.store.catalog, name, r.published)])
    case Served(id) =>
      && id in s.sent && id !in s.answers
      && var r := s.sent[id];
      var ok := Fenced(s.store, r.epoch) && Applies(s.store, r.write);
      var after := Transacted(s.store, r.write, r.epoch);
      t == s.(store := after, answers := s.answers[id := ok],
              log := if ok then s.log + [Commit(r.seen, r.write, s.store.catalog, after.catalog)] else s.log)
    case Learns(i, published) =>
      && i in s.replicas && s.replicas[i].phase.Waiting? && s.replicas[i].phase.id in s.answers
      && var r := s.replicas[i];
      && r.phase.id in s.sent
      && (if s.answers[r.phase.id] then Swaps(r.published, s.sent[r.phase.id].write, published)
          else published == r.published)
      && t == s.(replicas := s.replicas[i := Replica(published, Idle)])
    case GivesUp(i) =>
      i in s.replicas && t == s.(replicas := s.replicas[i := s.replicas[i].(phase := Idle)])
    case Crashes(i) =>
      t == s.(replicas := s.replicas[i := Replica(map[], Idle)])
    case Contracts(m) =>
      t == s.(contracts := t.contracts) && ContractStore.Step(s.contracts, m, t.contracts, lib)
    case Ticks => t == s.(store := s.store.(index := s.store.index + 1))
  }

  /** Nothing written by the gateway yet: only records of the retired git kind, no marker, no contract. */
  ghost predicate Init(s: State) {
    && Sound(s.store) && s.store.marker.None? && s.sent == map[] && s.answers == map[] && s.log == []
    && s.contracts == ContractStore.System(map[], map[], map[])
    && (forall n :: n in s.store.catalog ==> s.store.catalog[n].app.idlType != "zip")
    && forall i :: i in s.replicas ==> s.replicas[i] == Replica(map[], Idle)
  }

  ghost predicate StepAt(states: seq<State>, actions: seq<Action>, i: nat, lib: ContractStore.Library)
    requires i < |actions| < |states|
  {
    Step(states[i], actions[i], states[i + 1], lib)
  }

  ghost predicate Run(states: seq<State>, actions: seq<Action>, lib: ContractStore.Library) {
    && |states| == |actions| + 1
    && Init(states[0])
    && forall i :: 0 <= i < |actions| ==> StepAt(states, actions, i, lib)
  }

  // ------------------------------------------------------------ invariant

  /** The fence: while the marker still shows the epoch that was read, the catalog is what was read. */
  ghost predicate Current(st: Store, epoch: nat, seen: Catalog) {
    epoch <= st.index && (Fenced(st, epoch) ==> st.catalog == seen)
  }

  /** The contract of a zip record is complete, and passes every check a read makes. */
  ghost predicate Rebuildable(kv: ContractStore.Kv, a: App, lib: ContractStore.Library) {
    a.idlType == "zip" ==> exists archive :: ContractStore.Kept(kv, a.revision, archive, lib)
  }

  ghost predicate RequestInv(s: State, id: nat, lib: ContractStore.Library)
    requires id in s.sent
  {
    var r := s.sent[id];
    && NameOf(r.write) != ""
    && (id !in s.answers ==> Current(s.store, r.epoch, r.seen))
    && (r.write.Put? ==>
          && Serves(r.seen, r.replacing, r.published) && (r.replacing == "" || r.replacing == r.write.app.name)
          && Rebuildable(s.contracts.kv, r.write.app, lib))
  }

  ghost predicate ReplicaInv(s: State, i: nat, lib: ContractStore.Library)
    requires i in s.replicas
  {
    var r := s.replicas[i];
    match r.phase
    case Idle => true
    case Drafting(d) =>
      && Current(s.store, d.epoch, d.seen) && Serves(d.seen, Replacing(d), r.published)
      && (d.source.Some? && d.source.value.Upload? ==> lib.unpackable(d.source.value.archive))
    case Deleting(name, _) => name != ""
    case Waiting(id) => id in s.sent && s.sent[id].owner == i && s.sent[id].published == r.published
  }

  /** Commits form one history: each starts from what the one before left. */
  ghost predicate Chained(c0: Catalog, log: seq<Commit>, c: Catalog) {
    if log == [] then c == c0
    else
      var last := log[|log| - 1];
      && last.after == c && last.seen == last.before && Chained(c0, log[..|log| - 1], last.before)
  }

  ghost predicate RecordsRebuildable(kv: ContractStore.Kv, c: Catalog, lib: ContractStore.Library) {
    forall n :: n in c ==> Rebuildable(kv, c[n].app, lib)
  }

  ghost predicate Inv(c0: Catalog, s: State, lib: ContractStore.Library) {
    && Sound(s.store)
    && (forall id :: id in s.sent ==> RequestInv(s, id, lib))
    && (forall i :: i in s.replicas ==> ReplicaInv(s, i, lib))
    && Chained(c0, s.log, s.store.catalog)
    && ContractStore.Inv(s.contracts, lib) && RecordsRebuildable(s.contracts.kv, s.store.catalog, lib)
  }

  lemma InitHolds(s: State, lib: ContractStore.Library)
    requires Init(s)
    ensures Inv(s.store.catalog, s, lib)
  {
    ContractStore.NothingStored(lib);
  }

  /** A step of one replica that leaves everything else alone. */
  ghost predicate Local(s: State, t: State, i: nat) {
    && t.store == s.store && t.contracts == s.contracts && t.log == s.log && t.answers == s.answers
    && (forall id :: id in s.sent ==> id in t.sent && t.sent[id] == s.sent[id])
    && forall j :: j in t.replicas && j != i ==> j in s.replicas && t.replicas[j] == s.replicas[j]
  }

  lemma LocalKeeps(c0: Catalog, s: State, t: State, i: nat, lib: ContractStore.Library)
    requires Inv(c0, s, lib) && Local(s, t, i)
    requires i in t.replicas ==> ReplicaInv(t, i, lib)
    requires forall id :: id in t.sent && id !in s.sent ==> RequestInv(t, id, lib)
    ensures Inv(c0, t, lib)
  {
    hide Sound, Chained, Serves, Rebuildable, RecordsRebuildable, Current, ContractStore.Inv;
    forall id | id in t.sent ensures RequestInv(t, id, lib) {
      if id in s.sent { assert RequestInv(s, id, lib); }
    }
    forall j | j in t.replicas ensures ReplicaInv(t, j, lib) {
      if j != i { assert ReplicaInv(s, j, lib); }
    }
  }

  /** An epoch read before a commit is out of date after it. */
  lemma CommitOutdates(st: Store, w: Write, epoch: nat, earlier: nat, seen: Catalog)
    requires Sound(st) && Fenced(st, epoch) && Applies(st, w) && NameOf(w) != "" && Current(st, earlier, seen)
    ensures Current(Transacted(st, w, epoch), earlier, seen)
  {
    MarkerAdvances(st, w, epoch);
  }

  lemma RebuildableForever(k: ContractStore.Kv, k': ContractStore.Kv, a: App, lib: ContractStore.Library)
    requires ContractStore.Extends(k, k') && Rebuildable(k, a, lib)
    ensures Rebuildable(k', a, lib)
  {
    if a.idlType == "zip" {
      var archive :| ContractStore.Kept(k, a.revision, archive, lib);
      ContractStore.StoredForever(k, k', a.revision, archive);
      assert ContractStore.Kept(k', a.revision, archive, lib);
    }
  }

  /** A call that has its contract can rely on it: the upload's confirmations, or the checks of the read,
      and the truthful markers make it complete. */
  lemma ObtainedIsKept(contracts: ContractStore.System, source: Source, a: App, lib: ContractStore.Library)
    requires ContractStore.Inv(contracts, lib) && Obtained(contracts, source, a.revision)
    requires source.Upload? ==> lib.unpackable(source.archive)
    ensures Rebuildable(contracts.kv, a, lib)
  {
    hide ContractStore.Sealed, ContractStore.Stored, ContractStore.HasChunks, ContractStore.ReadTo;
    match source
    case Upload(w, archive) =>
      assert ContractStore.Progress(contracts.kv, contracts.writers[w]);
      assert ContractStore.Kept(contracts.kv, a.revision, archive, lib);
    case Readback(r, digest) =>
      assert ContractStore.Gathered(contracts.kv, contracts.readers[r], lib);
      assert ContractStore.Kept(contracts.kv, a.revision, contracts.readers[r].data, lib);
  }

  lemma RequestsKept(s: State, id: nat, t: State, lib: ContractStore.Library)
    requires Sound(s.store) && (forall x :: x in s.sent ==> RequestInv(s, x, lib))
    requires Step(s, Served(id), t, lib) && t.answers[id]
    ensures forall x :: x in t.sent ==> RequestInv(t, x, lib)
  {
    hide Serves, Rebuildable, Sound, Fenced, Applies, Current, Transacted, Written;
    forall x | x in t.sent ensures RequestInv(t, x, lib) {
      assert RequestInv(s, x, lib);
      if x !in t.answers {
        CommitOutdates(s.store, s.sent[id].write, s.sent[id].epoch, s.sent[x].epoch, s.sent[x].seen);
      }
    }
  }

  lemma ReplicasKept(s: State, id: nat, t: State, lib: ContractStore.Library)
    requires Sound(s.store) && (forall i :: i in s.replicas ==> ReplicaInv(s, i, lib))
    requires Step(s, Served(id), t, lib) && t.answers[id] && NameOf(s.sent[id].write) != ""
    ensures forall i :: i in t.replicas ==> ReplicaInv(t, i, lib)
  {
    hide Serves, Sound, Fenced, Applies, Current, Transacted, Written;
    forall i | i in t.replicas ensures ReplicaInv(t, i, lib) {
      assert ReplicaInv(s, i, lib);
      if s.replicas[i].phase.Drafting? {
        var earlier := s.replicas[i].phase.draft;
        CommitOutdates(s.store, s.sent[id].write, s.sent[id].epoch, earlier.epoch, earlier.seen);
      }
    }
  }

  lemma RefusedKeeps(c0: Catalog, s: State, id: nat, t: State, lib: ContractStore.Library)
    requires Inv(c0, s, lib) && Step(s, Served(id), t, lib) && !t.answers[id]
    ensures Inv(c0, t, lib)
  {
    hide Serves, Rebuildable, RecordsRebuildable, ContractStore.Inv, Sound, Fenced, Applies, Current, Chained;
    forall x | x in t.sent ensures RequestInv(t, x, lib) {
      assert RequestInv(s, x, lib);
    }
    forall i | i in t.replicas ensures ReplicaInv(t, i, lib) {
      assert ReplicaInv(s, i, lib);
    }
  }

  lemma CommittedKeeps(c0: Catalog, s: State, id: nat, t: State, lib: ContractStore.Library)
    requires Inv(c0, s, lib) && Step(s, Served(id), t, lib) && t.answers[id]
    ensures Inv(c0, t, lib)
  {
    hide Serves, Rebuildable, RecordsRebuildable, ContractStore.Inv, RequestInv, ReplicaInv;
    var r := s.sent[id];
    CommitOnWhatWasRead(c0, s, id, lib);
    RequestsKept(s, id, t, lib);
    ReplicasKept(s, id, t, lib);
    MarkerAdvances(s.store, r.write, r.epoch);
    assert t.log[..|s.log|] == s.log;
    RecordsKept(s.store.catalog, r.write, s.store.index + 1, s.contracts.kv, lib);
  }

  /** The transaction that goes through finds the catalog its sender read. */
  lemma CommitOnWhatWasRead(c0: Catalog, s: State, id: nat, lib: ContractStore.Library)
    requires Inv(c0, s, lib) && id in s.sent && id !in s.answers && Fenced(s.store, s.sent[id].epoch)
    ensures s.store.catalog == s.sent[id].seen && NameOf(s.sent[id].write) != ""
    ensures s.sent[id].write.Put? ==> Rebuildable(s.contracts.kv, s.sent[id].write.app, lib)
  {
    hide Serves, Rebuildable, RecordsRebuildable, ContractStore.Inv, Sound, Fenced, Chained;
    assert RequestInv(s, id, lib);
  }

  lemma ServedKeeps(c0: Catalog, s: State, id: nat, t: State, lib: ContractStore.Library)
    requires Inv(c0, s, lib) && Step(s, Served(id), t, lib)
    ensures Inv(c0, t, lib)
  {
    hide Inv;
    if t.answers[id] { CommittedKeeps(c0, s, id, t, lib); } else { RefusedKeeps(c0, s, id, t, lib); }
  }

  lemma RecordsKept(c: Catalog, w: Write, now: nat, k: ContractStore.Kv, lib: ContractStore.Library)
    requires RecordsRebuildable(k, c, lib)
    requires w.Put? ==> Rebuildable(k, w.app, lib)
    ensures RecordsRebuildable(k, Written(c, w, now), lib)
  {
    if w.Put? { assert Rebuildable(k, Bare(w.app), lib); }
  }

  /** Whatever uploads and reads do meanwhile. */
  lemma ContractsKeep(c0: Catalog, s: State, t: State, lib: ContractStore.Library)
    requires Inv(c0, s, lib) && t == s.(contracts := t.contracts)
    requires ContractStore.Inv(t.contracts, lib) && ContractStore.Extends(s.contracts.kv, t.contracts.kv)
    ensures Inv(c0, t, lib)
  {
    hide Serves, Rebuildable, Chained, Sound, Current, ContractStore.Inv, ContractStore.Extends;
    var k, k' := s.contracts.kv, t.contracts.kv;
    forall id | id in t.sent ensures RequestInv(t, id, lib) {
      assert RequestInv(s, id, lib);
      if t.sent[id].write.Put? { RebuildableForever(k, k', t.sent[id].write.app, lib); }
    }
    forall i | i in t.replicas ensures ReplicaInv(t, i, lib) {
      assert ReplicaInv(s, i, lib);
    }
    forall n | n in t.store.catalog ensures Rebuildable(k', t.store.catalog[n].app, lib) {
      RebuildableForever(k, k', t.store.catalog[n].app, lib);
    }
  }

  lemma TicksKeep(c0: Catalog, s: State, t: State, lib: ContractStore.Library)
    requires Inv(c0, s, lib) && Step(s, Ticks, t, lib)
    ensures Inv(c0, t, lib)
  {
    hide Serves, Rebuildable, RecordsRebuildable, ContractStore.Inv, Chained;
    forall id | id in t.sent ensures RequestInv(t, id, lib) {
      assert RequestInv(s, id, lib);
    }
    forall i | i in t.replicas ensures ReplicaInv(t, i, lib) {
      assert ReplicaInv(s, i, lib);
    }
  }

  lemma StepKeeps(c0: Catalog, s: State, a: Action, t: State, lib: ContractStore.Library)
    requires Inv(c0, s, lib) && Step(s, a, t, lib)
    ensures Inv(c0, t, lib)
  {
    hide Inv, Step;
    match a
    case Reconciles(i, _) => IdleKeeps(c0, s, a, t, lib);
    case Refreshes(i, _, _, _) => DraftKeeps(c0, s, a, t, lib);
    case Looks(i) => DraftKeeps(c0, s, a, t, lib);
    case Downloads(i, _, _) => SourceKeeps(c0, s, a, t, lib);
    case ReadsBack(i, _) => SourceKeeps(c0, s, a, t, lib);
    case Submits(i, id, _, _) => SubmitKeeps(c0, s, a, t, lib);
    case LooksToDelete(i, _) => IdleKeeps(c0, s, a, t, lib);
    case SubmitsDelete(i, id) => SubmitDeleteKeeps(c0, s, a, t, lib);
    case Served(id) => ServedKeeps(c0, s, id, t, lib);
    case Learns(i, _) => IdleKeeps(c0, s, a, t, lib);
    case GivesUp(i) => IdleKeeps(c0, s, a, t, lib);
    case Crashes(i) => IdleKeeps(c0, s, a, t, lib);
    case Contracts(m) => UploadsKeep(c0, s, m, t, lib);
    case Ticks => TicksKeep(c0, s, t, lib);
  }

  lemma IdleKeeps(c0: Catalog, s: State, a: Action, t: State, lib: ContractStore.Library)
    requires Inv(c0, s, lib) && Step(s, a, t, lib)
    requires a.Reconciles? || a.LooksToDelete? || a.Learns? || a.GivesUp? || a.Crashes?
    ensures Inv(c0, t, lib)
  {
    hide Inv, RequestInv;
    LocalKeeps(c0, s, t, a.i, lib);
  }

  lemma DraftKeeps(c0: Catalog, s: State, a: Action, t: State, lib: ContractStore.Library)
    requires Inv(c0, s, lib) && Step(s, a, t, lib) && (a.Refreshes? || a.Looks?)
    ensures Inv(c0, t, lib)
  {
    hide Serves, Rebuildable, RecordsRebuildable, ContractStore.Inv, RequestInv, Chained;
    if a.Looks? { assert ReplicaInv(s, a.i, lib); }
    LocalKeeps(c0, s, t, a.i, lib);
  }

  lemma UploadsKeep(c0: Catalog, s: State, m: ContractStore.Move, t: State, lib: ContractStore.Library)
    requires Inv(c0, s, lib) && Step(s, Contracts(m), t, lib)
    ensures Inv(c0, t, lib)
  {
    hide Serves, RecordsRebuildable, ContractStore.Inv, RequestInv, ReplicaInv, Chained, Sound, ContractStore.Step;
    ContractStore.StepKeeps(s.contracts, m, t.contracts, lib);
    ContractsKeep(c0, s, t, lib);
  }

  /** The call's own upload or read begins. */
  lemma SourceKeeps(c0: Catalog, s: State, a: Action, t: State, lib: ContractStore.Library)
    requires Inv(c0, s, lib) && Step(s, a, t, lib) && (a.Downloads? || a.ReadsBack?)
    ensures Inv(c0, t, lib)
  {
    hide Serves, Rebuildable, RecordsRebuildable, ContractStore.Inv, RequestInv, Chained, Sound, Current, ContractStore.Step;
    var m := if a.Downloads? then ContractStore.Begin(a.w, ContractStore.Writer(lib.hash(a.archive), a.archive, 0))
             else ContractStore.Ask(a.r, s.replicas[a.i].phase.draft.found.value.value.app.revision);
    ContractStore.StepKeeps(s.contracts, m, t.contracts, lib);
    var u := s.(contracts := t.contracts);
    ContractsKeep(c0, s, u, lib);
    assert ReplicaInv(u, a.i, lib);
    LocalKeeps(c0, u, t, a.i, lib);
  }

  lemma SubmitKeeps(c0: Catalog, s: State, a: Action, t: State, lib: ContractStore.Library)
    requires Inv(c0, s, lib) && Step(s, a, t, lib) && a.Submits?
    ensures Inv(c0, t, lib)
  {
    hide Serves, Rebuildable, RecordsRebuildable, ContractStore.Inv, Chained, Applies, Obtained, Sound, Current;
    assert ReplicaInv(s, a.i, lib);
    ObtainedIsKept(s.contracts, s.replicas[a.i].phase.draft.source.value, a.app, lib);
    LocalKeeps(c0, s, t, a.i, lib);
  }

  lemma SubmitDeleteKeeps(c0: Catalog, s: State, a: Action, t: State, lib: ContractStore.Library)
    requires Inv(c0, s, lib) && Step(s, a, t, lib) && a.SubmitsDelete?
    ensures Inv(c0, t, lib)
  {
    hide Serves, Rebuildable, RecordsRebuildable, ContractStore.Inv, Chained;
    assert ReplicaInv(s, a.i, lib);
    LocalKeeps(c0, s, t, a.i, lib);
  }

  lemma {:induction false} RunKeeps(states: seq<State>, actions: seq<Action>, i: nat, lib: ContractStore.Library)
    requires Run(states, actions, lib) && i < |states|
    ensures Inv(states[0].store.catalog, states[i], lib)
  {
    hide Inv, Step, Init;
    if i == 0 {
      InitHolds(states[0], lib);
    } else {
      RunKeeps(states, actions, i - 1, lib);
      assert StepAt(states, actions, i - 1, lib);
      StepKeeps(states[0].store.catalog, states[i - 1], actions[i - 1], states[i], lib);
    }
  }

  // --------------------------------------------------------- main results

  /** In every run: a transaction goes through only on the catalog its sender read, and each commit
      starts from what the commit before it left, so the commits are one serial history. */
  lemma Serialisable(states: seq<State>, actions: seq<Action>, i: nat, k: nat, lib: ContractStore.Library)
    requires Run(states, actions, lib) && i < |states| && k < |states[i].log|
    ensures var log := states[i].log;
      && log[k].seen == log[k].before
      && log[k].before == (if k == 0 then states[0].store.catalog else log[k - 1].after)
      && states[i].store.catalog == log[|log| - 1].after
  {
    RunKeeps(states, actions, i, lib);
    ChainedAt(states[0].store.catalog, states[i].log, states[i].store.catalog, k);
  }

  lemma {:induction false} ChainedAt(c0: Catalog, log: seq<Commit>, c: Catalog, k: nat)
    requires Chained(c0, log, c) && k < |log|
    ensures log[k].seen == log[k].before && log[k].before == (if k == 0 then c0 else log[k - 1].after)
    decreases |log|
  {
    var front := log[..|log| - 1];
    if k < |front| {
      ChainedAt(c0, front, log[|log| - 1].before, k);
    } else if front != [] {
      assert front[|front| - 1].after == log[k].before;
    }
  }

  /** When a Create or Update commits while its sender still waits, the sender's runtimes are those of
      the whole catalog, and with the new runtime swapped in they still are. */
  lemma CommitIsServed(states: seq<State>, actions: seq<Action>, i: nat, id: nat, after: Published,
                       lib: ContractStore.Library)
    requires Run(states, actions, lib) && i < |actions| && actions[i] == Served(id)
    requires id in states[i].sent && states[i].sent[id].write.Put?
    requires id in states[i + 1].answers && states[i + 1].answers[id]
    ensures var (s, t, r) := (states[i], states[i + 1], states[i].sent[id]);
      && s.store.catalog == r.seen
      && Serves(s.store.catalog, r.write.app.name, r.published)
      && (r.owner in s.replicas && s.replicas[r.owner].phase == Waiting(id) ==>
            s.replicas[r.owner].published == r.published)
      && (Swaps(r.published, r.write, after) ==> Serves(t.store.catalog, "", after))
  {
    hide Inv, Chained, Rebuildable, Serves, Swaps, Written, Run;
    RunStep(states, actions, i, lib);
    RunKeeps(states, actions, i, lib);
    var s, r := states[i], states[i].sent[id];
    CommitOnWhatWasRead(states[0].store.catalog, s, id, lib);
    RequestOf(states[0].store.catalog, s, id, lib);
    KeepsServing(r.seen, r.write, r.published, r.replacing);
    if Swaps(r.published, r.write, after) {
      SwapServes(r.seen, r.write, r.published, after, s.store.index + 1, r.replacing);
    }
  }

  lemma RunStep(states: seq<State>, actions: seq<Action>, i: nat, lib: ContractStore.Library)
    requires Run(states, actions, lib) && i < |actions|
    ensures |states| == |actions| + 1 && Step(states[i], actions[i], states[i + 1], lib)
  {
    assert StepAt(states, actions, i, lib);
  }

  lemma KeepsServing(c: Catalog, w: Write, before: Published, replacing: string)
    requires w.Put? && Serves(c, replacing, before) && Keyed(c) && (replacing == "" || replacing == w.app.name)
    ensures Serves(c, w.app.name, before)
  {
    hide Same;
  }

  lemma RequestOf(c0: Catalog, s: State, id: nat, lib: ContractStore.Library)
    requires Inv(c0, s, lib) && id in s.sent
    ensures RequestInv(s, id, lib) && Sound(s.store)
    ensures s.sent[id].owner in s.replicas ==> ReplicaInv(s, s.sent[id].owner, lib)
  {
  }

  /** Field by field: everything enabled, of the zip kind and with a domain has a runtime of just its text. */
  lemma ServesMeans(c: Catalog, replacing: string, published: Published)
    ensures Serves(c, replacing, published) <==> forall n :: n in c ==>
      var a := c[n].app;
      a.enabled && a.idlType == "zip" && a.domain != "" && a.name != replacing ==>
        && n in published
        && var r := published[n].config;
          && r.name == a.name && r.domain == a.domain && r.serviceName == a.serviceName && r.enabled == a.enabled
          && r.rpcTimeout == a.rpcTimeout && r.idlType == a.idlType && r.revision == a.revision
  {
    hide Same;
    forall n | n in c && n in published { SameMeans(published[n].config, c[n].app); }
  }

  /** Swapping in the runtime of the record just written keeps the whole catalog served. */
  lemma SwapServes(c: Catalog, w: Write, before: Published, after: Published, now: nat, replacing: string)
    requires w.Put? && Serves(c, replacing, before) && Swaps(before, w, after)
    requires Keyed(c) && w.app.name != "" && (replacing == "" || replacing == w.app.name)
    ensures Serves(Written(c, w, now), "", after)
  {
    hide Same;
    SameAsBare(w.app);
  }

  lemma SameAsBare(a: App)
    ensures Same(a, Bare(a)) && Bare(a).enabled == a.enabled
  {
  }

  /** Every record of a zip application names a revision whose contract is completely stored under its own
      digest and passes the ZIP checks, in every state of every run, whatever crashed or timed out; and
      from then on the archive stays what it is. */
  lemma RecordsCanBeRebuilt(states: seq<State>, actions: seq<Action>, i: nat, j: nat, n: string, lib: ContractStore.Library)
    requires Run(states, actions, lib) && i <= j < |states| && n in states[i].store.catalog
    requires states[i].store.catalog[n].app.idlType == "zip"
    ensures var revision := states[i].store.catalog[n].app.revision;
      exists archive :: ContractStore.Kept(states[i].contracts.kv, revision, archive, lib)
                     && ContractStore.Kept(states[j].contracts.kv, revision, archive, lib)
  {
    hide Sound, Chained, RequestInv, ReplicaInv, ContractStore.Inv, ContractStore.Stored;
    RunKeeps(states, actions, i, lib);
    var a := states[i].store.catalog[n].app;
    assert Rebuildable(states[i].contracts.kv, a, lib);
    var archive :| ContractStore.Kept(states[i].contracts.kv, a.revision, archive, lib);
    ContractsGrow(states, actions, i, j, lib);
    ContractStore.StoredForever(states[i].contracts.kv, states[j].contracts.kv, a.revision, archive);
  }

  lemma {:induction false} ContractsGrow(states: seq<State>, actions: seq<Action>, i: nat, j: nat, lib: ContractStore.Library)
    requires Run(states, actions, lib) && i <= j < |states|
    ensures ContractStore.Extends(states[i].contracts.kv, states[j].contracts.kv)
  {
    hide Init, Inv, ContractStore.Inv, ContractStore.Step;
    if i < j {
      ContractsGrow(states, actions, i, j - 1, lib);
      RunStep(states, actions, j - 1, lib);
      RunKeeps(states, actions, j - 1, lib);
      StepGrows(states[0].store.catalog, states[j - 1], actions[j - 1], states[j], lib);
    }
  }

  lemma StepGrows(c0: Catalog, s: State, a: Action, t: State, lib: ContractStore.Library)
    requires Inv(c0, s, lib) && Step(s, a, t, lib)
    ensures ContractStore.Extends(s.contracts.kv, t.contracts.kv)
  {
    hide Sound, Chained, RequestInv, ReplicaInv, RecordsRebuildable, ContractStore.Inv, ContractStore.Step, Obtained;
    if m :| ContractStore.Step(s.contracts, m, t.contracts, lib) {
      ContractStore.StepKeeps(s.contracts, m, t.contracts, lib);
    }
  }

  /** Reading the contract of a stored record, as every rebuild does, with other replicas at work: what it
      returns has the record's revision, and when every answer arrives it returns it. */
  method ReadRecord(contracts: ContractStore.ConsulStore, record: App, fails: nat -> bool,
                    others: (nat, ContractStore.Kv) -> ContractStore.Kv, lib: ContractStore.Library,
                    ghost states: seq<State>, ghost actions: seq<Action>, ghost i: nat) returns (r: Result<Bytes>)
    requires Run(states, actions, lib) && i < |states| && contracts.kv == states[i].contracts.kv
    requires record.name in states[i].store.catalog && states[i].store.catalog[record.name].app == record
    requires record.idlType == "zip" && ContractStore.Monotone(others)
    modifies contracts`kv
    ensures r.Ok? ==> ContractStore.Kept(contracts.kv, record.revision, r.value, lib)
    ensures (forall k :: !fails(k)) ==> r.Ok?
  {
    hide Run, ContractStore.Stored, ContractStore.IsRevision;
    RecordsCanBeRebuilt(states, actions, i, i, record.name, lib);
    ghost var archive :| ContractStore.Kept(contracts.kv, record.revision, archive, lib);
    r := contracts.GetContract(record.revision, lib, fails, others);
  }

  /** Two commits never carry the same epoch: whoever read before another commit is refused. */
  lemma StaleReadersAreRefused(c0: Catalog, s: State, id: nat, t: State, other: nat, lib: ContractStore.Library)
    requires Inv(c0, s, lib) && Step(s, Served(id), t, lib) && t.answers[id]
    requires other in s.sent && other !in t.answers
    ensures !Fenced(t.store, s.sent[other].epoch)
  {
    hide Serves, Rebuildable, RecordsRebuildable, ContractStore.Inv, Chained;
    assert RequestInv(s, other, lib);
    MarkerAdvances(s.store, s.sent[id].write, s.sent[id].epoch);
  }

  // ------------------------------------------------- the store seen from outside

  /** What can become of the store while somebody does not look: the marker moves on with every change, and a
      record with an old stamp is the record of then. */
  ghost predicate Later(st: Store, st': Store) {
    && Sound(st') && st.index <= st'.index
    && (forall n :: n in st'.catalog && st'.catalog[n].stamp <= st.index ==>
          n in st.catalog && st.catalog[n] == st'.catalog[n])
    && ((st'.catalog == st.catalog && st'.marker == st.marker) || (st'.marker.Some? && st'.marker.value.stamp > st.index))
  }

  lemma Unmoved(st: Store)
    requires Sound(st)
    ensures Later(st, st)
  {
  }

  lemma LaterAdds(a: Store, b: Store, c: Store)
    requires Later(a, b) && Later(b, c)
    ensures Later(a, c)
  {
  }

  /** The fence as a sender sees it: while its epoch is still shown, the catalog is the one it read. */
  lemma LaterFenced(st: Store, st': Store)
    requires Sound(st) && Later(st, st') && Fenced(st', Epoch(st))
    ensures st'.catalog == st.catalog
  {
  }

  lemma {:induction false} RunLater(states: seq<State>, actions: seq<Action>, i: nat, j: nat, lib: ContractStore.Library)
    requires Run(states, actions, lib) && i <= j < |states|
    ensures Later(states[i].store, states[j].store)
  {
    hide Init, Later, RequestInv, ReplicaInv, Chained, RecordsRebuildable, ContractStore.Inv, Sound;
    RunKeeps(states, actions, j, lib);
    if i == j {
      Unmoved(states[i].store);
    } else {
      RunLater(states, actions, i, j - 1, lib);
      RunKeeps(states, actions, j - 1, lib);
      RunStep(states, actions, j - 1, lib);
      StepLater(states[0].store.catalog, states[j - 1], actions[j - 1], states[j], lib);
      LaterAdds(states[i].store, states[j - 1].store, states[j].store);
    }
  }

  lemma StepLater(c0: Catalog, s: State, a: Action, t: State, lib: ContractStore.Library)
    requires Inv(c0, s, lib) && Inv(c0, t, lib) && Step(s, a, t, lib)
    ensures Later(s.store, t.store)
  {
    hide Chained, ReplicaInv, RecordsRebuildable, ContractStore.Inv, ContractStore.Step, Obtained, Serves, Rebuildable, Sound,
         Written, Fenced, Applies, Transacted;
    if a.Served? && t.answers[a.id] {
      assert RequestInv(s, a.id, lib);
      MarkerAdvances(s.store, s.sent[a.id].write, s.sent[a.id].epoch);
      EpochMoves(s.store, s.sent[a.id].write, s.sent[a.id].epoch);
    }
    if a.Served? && !t.answers[a.id] { Refused(s.store, s.sent[a.id].write, s.sent[a.id].epoch); }
  }

  /** The index of a record names its text: who finds the stamp that he saw finds the record that he saw. */
  lemma StampNamesRecord(st: Store, st': Store, n: string)
    requires Sound(st) && Later(st, st') && n in st.catalog && n in st'.catalog
    ensures st'.catalog[n].stamp == st.catalog[n].stamp <==> st'.catalog[n] == st.catalog[n]
  {
  }

  /** Where a deletion on its way comes from: its sender looked the record up, and the index it sends is that
      of the record it found. */
  ghost predicate Found(states: seq<State>, actions: seq<Action>, j: nat, i: nat, n: string, index: nat)
    requires |states| == |actions| + 1
  {
    && j < |actions| && actions[j] == LooksToDelete(i, n)
    && n in states[j].store.catalog && states[j].store.catalog[n].stamp == index
  }

  lemma {:induction false} DeletingHasFound(states: seq<State>, actions: seq<Action>, k: nat, i: nat,
                                            lib: ContractStore.Library) returns (j: nat)
    requires Run(states, actions, lib) && k < |states| && i in states[k].replicas && states[k].replicas[i].phase.Deleting?
    ensures j < k && Found(states, actions, j, i, states[k].replicas[i].phase.name, states[k].replicas[i].phase.index)
  {
    hide Serves, Obtained, ContractStore.Step, Transacted, Swaps;
    RunStep(states, actions, k - 1, lib);
    if i in states[k - 1].replicas && states[k - 1].replicas[i] == states[k].replicas[i] {
      j := DeletingHasFound(states, actions, k - 1, i, lib);
    } else {
      j := k - 1;
    }
  }

  lemma {:induction false} RemovalHasFound(states: seq<State>, actions: seq<Action>, k: nat, id: nat,
                                           lib: ContractStore.Library) returns (j: nat)
    requires Run(states, actions, lib) && k < |states| && id in states[k].sent && states[k].sent[id].write.Remove?
    ensures j < k && Found(states, actions, j, states[k].sent[id].owner,
                           states[k].sent[id].write.name, states[k].sent[id].write.index)
  {
    hide Serves, Obtained, ContractStore.Step, Transacted, Swaps;
    RunStep(states, actions, k - 1, lib);
    if id in states[k - 1].sent && states[k - 1].sent[id] == states[k].sent[id] {
      j := RemovalHasFound(states, actions, k - 1, id, lib);
    } else {
      j := DeletingHasFound(states, actions, k - 1, actions[k - 1].i, lib);
    }
  }

  /** In every run: a deletion that commits takes away exactly the record that its sender had looked up,
      whatever other replicas wrote in between, and leaves all others as they are. */
  lemma DeletionTakesWhatItSaw(states: seq<State>, actions: seq<Action>, k: nat, id: nat, lib: ContractStore.Library)
      returns (j: nat)
    requires Run(states, actions, lib) && k < |actions| && actions[k] == Served(id)
    requires id in states[k].sent && states[k].sent[id].write.Remove?
    requires id in states[k + 1].answers && states[k + 1].answers[id]
    ensures var (n, before, after) := (states[k].sent[id].write.name, states[k].store.catalog, states[k + 1].store.catalog);
      && j < k && actions[j] == LooksToDelete(states[k].sent[id].owner, n) && n in states[j].store.catalog
      && (n in before ==> before[n] == states[j].store.catalog[n])
      && n !in after && (forall m :: m != n ==> (m in after <==> m in before) && (m in before ==> after[m] == before[m]))
  {
    hide Run, Later, Sound;
    RunStep(states, actions, k, lib);
    j := RemovalHasFound(states, actions, k, id, lib);
    RunLater(states, actions, j, k, lib);
    SoundAt(states, actions, j, lib);
    var n := states[k].sent[id].write.name;
    if n in states[k].store.catalog { StampNamesRecord(states[j].store, states[k].store, n); }
  }

  lemma SoundAt(states: seq<State>, actions: seq<Action>, i: nat, lib: ContractStore.Library)
    requires Run(states, actions, lib) && i < |states|
    ensures Sound(states[i].store)
  {
    hide Run, RequestInv, ReplicaInv, Chained, RecordsRebuildable, ContractStore.Inv, Sound;
    RunKeeps(states, actions, i, lib);
  }

  lemma EpochMoves(st: Store, w: Write, epoch: nat)
    requires Sound(st) && Fenced(st, epoch) && Applies(st, w) && NameOf(w) != ""
    ensures Later(st, Transacted(st, w, epoch))
  {
    MarkerAdvances(st, w, epoch);
  }

  lemma Refused(st: Store, w: Write, epoch: nat)
    requires !(Fenced(st, epoch) && Applies(st, w))
    ensures Transacted(st, w, epoch) == st
  {
  }
}
