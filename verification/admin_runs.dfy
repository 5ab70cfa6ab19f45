/**
 The operations of `AdminService` as parts of runs of the commit protocol: what their contracts say is what the
 guards of one replica's steps ask for, while everybody else goes on in between.
 */
module AdminRuns {
  import opened Prelude
  import opened Reconcile
  import opened CatalogCommit
  import opened AdminService
  import ContractStore

  /** Whose step it is, if it is a replica's. */
  function Actor(a: Action): Option<nat> {
    match a
    case Served(_) => None
    case Contracts(_) => None
    case Ticks => None
    case _ => Some(a.i)
  }

  /** What others leave to replica `i`: its own state, and the requests and answers there are. */
  ghost predicate LeavesAlone(i: nat, s: State, t: State) {
    && i in s.replicas && i in t.replicas && t.replicas[i] == s.replicas[i]
    && (forall id :: id in s.sent ==> id in t.sent && t.sent[id] == s.sent[id])
    && (forall id :: id in s.answers ==> id in t.answers && t.answers[id] == s.answers[id])
  }

  /** Any steps of others do that. */
  lemma {:induction false} OthersLeaveAlone(states: seq<State>, actions: seq<Action>, i: nat, from: nat, to: nat,
                                            lib: ContractStore.Library)
    requires |states| == |actions| + 1 && from <= to < |states| && i in states[from].replicas
    requires forall k :: from <= k < to ==> StepAt(states, actions, k, lib) && Actor(actions[k]) != Some(i)
    ensures LeavesAlone(i, states[from], states[to])
  {
    hide ContractStore.Step, Obtained, Serves, Fenced, Applies, Transacted, Swaps;
    if from < to {
      OthersLeaveAlone(states, actions, i, from, to - 1, lib);
      assert StepAt(states, actions, to - 1, lib);
      OtherLeavesAlone(i, states[to - 1], actions[to - 1], states[to], lib);
    }
  }

  lemma OtherLeavesAlone(i: nat, s: State, a: Action, t: State, lib: ContractStore.Library)
    requires Step(s, a, t, lib) && Actor(a) != Some(i) && i in s.replicas
    ensures LeavesAlone(i, s, t)
  {
    hide ContractStore.Step, Drafted, Serves, Fenced, Applies, Transacted, Swaps;
  }

  // ------------------------------------------------- creations and updates

  /** Which replica does it, under which request, what it writes, and where the contract comes from. */
  datatype Plan = Plan(i: nat, id: nat, a: App, index: nat, creates: bool, source: Source)

  /** The states in which the steps of the call are made; `contracts` is what its upload or read begins with. */
  datatype Course = Course(refreshing: State, looking: State, obtaining: State, contracts: ContractStore.System,
                           submitting: State, serving: State, learning: State)

  function Fresh(p: Plan, seen: Seen): Draft {
    Draft(p.a.name, p.creates, Epoch(seen.read), seen.read.catalog, None, None)
  }

  function Looked(p: Plan, seen: Seen): Draft {
    Fresh(p, seen).(found := Some(Lookup(seen.saw.catalog, p.a.name)))
  }

  function At(s: State, i: nat, published: Published, phase: Phase): State {
    s.(replicas := s.replicas[i := Replica(published, phase)])
  }

  function AfterRefresh(c: Course, p: Plan, seen: Seen): State {
    At(c.refreshing, p.i, seen.refreshed, Drafting(Fresh(p, seen)))
  }

  function AfterLook(c: Course, p: Plan, seen: Seen): State {
    At(c.looking, p.i, seen.refreshed, Drafting(Looked(p, seen)))
  }

  function AfterBegin(c: Course, p: Plan, seen: Seen): State {
    At(c.obtaining, p.i, seen.refreshed, Drafting(Looked(p, seen).(source := Some(p.source)))).(contracts := c.contracts)
  }

  function AskedBy(p: Plan, seen: Seen): Request {
    Request(p.i, Put(p.a, p.index), Epoch(seen.read), seen.read.catalog, Replacing(Fresh(p, seen)), seen.refreshed)
  }

  function AfterSubmit(c: Course, p: Plan, seen: Seen): State {
    At(c.submitting, p.i, seen.refreshed, Waiting(p.id)).(sent := c.submitting.sent[p.id := AskedBy(p, seen)])
  }

  /** The state after Consul has executed a request. */
  function Executed(s: State, r: Request, id: nat): State {
    var ok := Fenced(s.store, r.epoch) && Applies(s.store, r.write);
    var after := Transacted(s.store, r.write, r.epoch);
    s.(store := after, answers := s.answers[id := ok],
       log := if ok then s.log + [Commit(r.seen, r.write, s.store.catalog, after.catalog)] else s.log)
  }

  lemma ServedIs(s: State, r: Request, id: nat, lib: ContractStore.Library)
    requires id in s.sent && s.sent[id] == r && id !in s.answers
    ensures Step(s, Served(id), Executed(s, r, id), lib)
  {
    hide Fenced, Applies, Transacted;
  }

  /** An answer changes the runtimes as the write says; without one the sender gives up. */
  lemma AnswerIs(s: State, i: nat, id: nat, r: Request, ok: bool, after: Published, lib: ContractStore.Library)
    requires i in s.replicas && s.replicas[i] == Replica(r.published, Waiting(id)) && id in s.sent && s.sent[id] == r
    requires if ok then id in s.answers && s.answers[id] && Swaps(r.published, r.write, after) else after == r.published
    ensures Step(s, if ok then Learns(i, after) else GivesUp(i), At(s, i, after, Idle), lib)
  {
    hide Swaps;
  }

  function BeginOf(source: Source, lib: ContractStore.Library): ContractStore.Move {
    match source
    case Upload(w, archive) => ContractStore.Begin(w, ContractStore.Writer(lib.hash(archive), archive, 0))
    case Readback(r, digest) => ContractStore.Ask(r, digest)
  }

  /** Others act between the steps; the stores are the ones that the call has seen, and its contract has been
      obtained by the time it writes. */
  ghost predicate Interleaved(c: Course, p: Plan, seen: Seen, lib: ContractStore.Library) {
    && p.i in c.refreshing.replicas && c.refreshing.replicas[p.i].phase.Idle? && c.refreshing.store == seen.read
    && LeavesAlone(p.i, AfterRefresh(c, p, seen), c.looking) && c.looking.store == seen.saw
    && LeavesAlone(p.i, AfterLook(c, p, seen), c.obtaining)
    && ContractStore.Step(c.obtaining.contracts, BeginOf(p.source, lib), c.contracts, lib)
    && LeavesAlone(p.i, AfterBegin(c, p, seen), c.submitting) && p.id !in c.submitting.sent
    && Obtained(c.submitting.contracts, p.source, p.a.revision)
    && LeavesAlone(p.i, AfterSubmit(c, p, seen), c.serving) && c.serving.store == seen.at && p.id !in c.serving.answers
    && LeavesAlone(p.i, Executed(c.serving, AskedBy(p, seen), p.id), c.learning)
  }

  /** What the contracts of `CreateApp` and `UpdateApp` say of a call that gave its record to the store. */
  ghost predicate Reported(p: Plan, seen: Seen, now: Store, ok: bool, runtimes: Published, lib: ContractStore.Library) {
    && Serves(seen.read.catalog, if p.creates then "" else p.a.name, seen.refreshed)
    && p.a.catalogIndex == Epoch(seen.read)
    && (if p.creates then p.a.name !in seen.saw.catalog && p.index == 0
        else p.a.name in seen.saw.catalog && p.index == seen.saw.catalog[p.a.name].stamp)
    && (p.source.Upload? ==> lib.unpackable(p.source.archive))
    && (p.source.Readback? ==> !p.creates && p.source.digest == seen.saw.catalog[p.a.name].app.revision)
    && Sent(seen.at, now, p.a, p.index, ok)
    && (if ok then Swapped(seen.refreshed, p.a, runtimes) else runtimes == seen.refreshed)
  }

  /** The beginning of such a call: refresh, `Get`, and the beginning of its own upload or read. */
  lemma BeginsAsRun(c: Course, p: Plan, seen: Seen, now: Store, ok: bool, runtimes: Published, lib: ContractStore.Library)
    requires Interleaved(c, p, seen, lib) && Reported(p, seen, now, ok, runtimes, lib)
    ensures Step(c.refreshing, Refreshes(p.i, p.a.name, p.creates, seen.refreshed), AfterRefresh(c, p, seen), lib)
    ensures Step(c.looking, Looks(p.i), AfterLook(c, p, seen), lib)
    ensures match p.source
      case Upload(w, archive) => Step(c.obtaining, Downloads(p.i, w, archive), AfterBegin(c, p, seen), lib)
      case Readback(r, _) => Step(c.obtaining, ReadsBack(p.i, r), AfterBegin(c, p, seen), lib)
  {
    hide ContractStore.Step, Obtained, Serves, Fenced, Applies, Transacted, Swapped;
  }

  /** Its transaction that took effect, and what it makes of the answer: these are the protocol's steps, with
      the store and the runtimes that the contract names, so that what is proved of runs is true of the call. */
  lemma EndsAsRun(c: Course, p: Plan, seen: Seen, now: Store, ok: bool, runtimes: Published, lib: ContractStore.Library)
    requires Interleaved(c, p, seen, lib) && Reported(p, seen, now, ok, runtimes, lib)
    requires p.a.name != "" && p.a.idlType == "zip" && now == Transacted(seen.at, Put(p.a, p.index), p.a.catalogIndex)
    ensures Step(c.submitting, Submits(p.i, p.id, p.a, p.index), AfterSubmit(c, p, seen), lib)
    ensures var t := Executed(c.serving, AskedBy(p, seen), p.id);
      Step(c.serving, Served(p.id), t, lib) && t.store == now && (ok ==> t.answers[p.id])
    ensures Step(c.learning, if ok then Learns(p.i, runtimes) else GivesUp(p.i), At(c.learning, p.i, runtimes, Idle), lib)
  {
    hide Step, Obtained, Serves, Fenced, Applies, Transacted, Swapped, ContractStore.Step;
    SubmitsAsRun(c, p, seen, now, ok, runtimes, lib);
    ServedIs(c.serving, AskedBy(p, seen), p.id, lib);
    AnswerIs(c.learning, p.i, p.id, AskedBy(p, seen), ok, runtimes, lib);
  }

  lemma SubmitsAsRun(c: Course, p: Plan, seen: Seen, now: Store, ok: bool, runtimes: Published, lib: ContractStore.Library)
    requires Interleaved(c, p, seen, lib) && Reported(p, seen, now, ok, runtimes, lib)
    requires p.a.name != "" && p.a.idlType == "zip"
    ensures Step(c.submitting, Submits(p.i, p.id, p.a, p.index), AfterSubmit(c, p, seen), lib)
  {
    hide ContractStore.Step, Obtained, Serves, Fenced, Applies, Transacted, Swapped, Executed;
  }

  // --------------------------------------------------------------- deletions

  /** The states in which the steps of a deletion are made. */
  datatype Removal = Removal(looking: State, reading: State, serving: State, learning: State)

  /** Who deletes what, under which request, and what it was serving. */
  datatype Order = Order(i: nat, id: nat, name: string, index: nat, published: Published)

  function AskedFor(o: Order, met: Met): Request {
    Request(o.i, Remove(o.name, o.index), Epoch(met.readAt), met.readAt.catalog, o.name, o.published)
  }

  function AfterGet(r: Removal, o: Order): State {
    At(r.looking, o.i, o.published, Deleting(o.name, o.index))
  }

  function AfterSending(r: Removal, o: Order, met: Met): State {
    At(r.reading, o.i, o.published, Waiting(o.id)).(sent := r.reading.sent[o.id := AskedFor(o, met)])
  }

  /** Others act between the steps; the stores are the ones the deletion met. */
  ghost predicate Spread(r: Removal, o: Order, met: Met) {
    && o.i in r.looking.replicas && r.looking.replicas[o.i] == Replica(o.published, Idle) && r.looking.store == met.saw
    && o.name != "" && o.name in met.saw.catalog && o.index == met.saw.catalog[o.name].stamp
    && LeavesAlone(o.i, AfterGet(r, o), r.reading) && r.reading.store == met.readAt && o.id !in r.reading.sent
    && LeavesAlone(o.i, AfterSending(r, o, met), r.serving) && r.serving.store == met.at && o.id !in r.serving.answers
    && LeavesAlone(o.i, Executed(r.serving, AskedFor(o, met), o.id), r.learning)
  }

  /** A deletion whose transaction took effect is this run of steps, and leaves what `DeleteApp` says. */
  lemma DeletionIsRun(r: Removal, o: Order, met: Met, now: Store, ok: bool, lib: ContractStore.Library)
    requires Spread(r, o, met) && now == Transacted(met.at, Remove(o.name, o.index), Epoch(met.readAt))
    requires ok ==> Fenced(met.at, Epoch(met.readAt)) && Applies(met.at, Remove(o.name, o.index))
    ensures Step(r.looking, LooksToDelete(o.i, o.name), AfterGet(r, o), lib)
    ensures Step(r.reading, SubmitsDelete(o.i, o.id), AfterSending(r, o, met), lib)
    ensures var t := Executed(r.serving, AskedFor(o, met), o.id);
      Step(r.serving, Served(o.id), t, lib) && t.store == now && (ok ==> t.answers[o.id])
    ensures var after := if ok then o.published - {o.name} else o.published;
      Step(r.learning, if ok then Learns(o.i, after) else GivesUp(o.i), At(r.learning, o.i, after, Idle), lib)
  {
    hide Step, Fenced, Applies, Transacted;
    DeletionIsSent(r, o, met, lib);
    ServedIs(r.serving, AskedFor(o, met), o.id, lib);
    AnswerIs(r.learning, o.i, o.id, AskedFor(o, met), ok, if ok then o.published - {o.name} else o.published, lib);
  }

  lemma DeletionIsSent(r: Removal, o: Order, met: Met, lib: ContractStore.Library)
    requires Spread(r, o, met)
    ensures Step(r.looking, LooksToDelete(o.i, o.name), AfterGet(r, o), lib)
    ensures Step(r.reading, SubmitsDelete(o.i, o.id), AfterSending(r, o, met), lib)
  {
    hide Fenced, Applies, Transacted, Executed;
  }
}
