/**
 The publication protocol of the runtime manager as a state machine. Every
 critical section of `Manager` and every `ServiceRuntime.Close` call is one
 atomic step; a run is any interleaving of such steps by any number of threads.

 `R` identifies runtimes and `L` identifies leases, so that the class in
 `RuntimeManager` can instantiate both with its own objects.
 */
module RuntimeProtocol {
  import opened Prelude

  datatype Route = Route(httpMethod: string, path: string)

  /** What publication looks at in a runtime: its normalized domain (None when
      `NormalizeDomain` rejects it), its routes, and the router's verdict on them. */
  datatype Info = Info(domain: Option<string>, routes: seq<Route>, routable: bool)

  predicate Acceptable(i: Info) { i.domain.Some? && i.routable }

  /** A runtime: static data, the two fields the manager owns, and two counters
      recording how often it was put on a close list and how often closed. */
  datatype Rt = Rt(info: Info, refs: int, retired: bool, chosen: nat, closes: nat)

  datatype Table = Table(app: string, routes: seq<Route>)

  datatype Snapshot<R(==)> = Snapshot(version: nat, routes: map<string, Table>,
                                      domains: map<string, set<string>>, runtimes: map<string, R>)

  predicate HasApp<R(==)>(s: Snapshot<R>, domain: string, app: string) {
    domain in s.domains && app in s.domains[domain]
  }

  /** `Held` until the first half of Release; then the close list still to be worked off. */
  datatype Phase<R(==)> = Held | Draining(pending: set<R>)

  datatype Ticket<R(==)> = Ticket(snapshot: Snapshot<R>, phase: Phase<R>)

  /** Who owns `publishMu`: nobody, a Publish between its two sections, or a
      Publish or Close that still has runtimes to close. */
  datatype Publisher<R(==)> =
    | Idle
    | Swapping(base: Snapshot<R>, name: string, next: Option<R>, info: Info)
    | Closing(pending: set<R>)

  datatype State<R(==), L(==)> = State(
    current: Snapshot<R>, closed: bool, active: int, drained: nat,
    rts: map<R, Rt>, tickets: map<L, Ticket<R>>, publisher: Publisher<R>)

  // ------------------------------------------------------------- indexes

  /** The domain index recomputed from the runtimes. */
  function DomainIndex<R(==)>(rs: map<string, R>, rts: map<R, Rt>): map<string, set<string>>
    requires rs.Values <= rts.Keys
  {
    map d | d in (set n | n in rs && rts[rs[n]].info.domain.Some? :: rts[rs[n]].info.domain.value)
      :: set n | n in rs && rts[rs[n]].info.domain == Some(d)
  }

  /** One route table per app, recomputed from the runtimes. */
  function RouteIndex<R(==)>(rs: map<string, R>, rts: map<R, Rt>): map<string, Table>
    requires rs.Values <= rts.Keys
  {
    map n | n in rs :: Table(n, rts[rs[n]].info.routes)
  }

  ghost predicate Indexed<R>(s: Snapshot<R>, rts: map<R, Rt>) {
    && s.runtimes.Values <= rts.Keys
    && s.domains == DomainIndex(s.runtimes, rts)
    && s.routes == RouteIndex(s.runtimes, rts)
    && forall n | n in s.runtimes :: Acceptable(rts[s.runtimes[n]].info)
  }

  // --------------------------------------------------------------- steps

  function Bump<R(==)>(rts: map<R, Rt>, targets: set<R>, delta: int): map<R, Rt> {
    map r | r in rts :: if r in targets then rts[r].(refs := rts[r].refs + delta) else rts[r]
  }

  function Choose<R(==)>(rts: map<R, Rt>, targets: set<R>): map<R, Rt> {
    map r | r in rts :: if r in targets then rts[r].(chosen := rts[r].chosen + 1) else rts[r]
  }

  function Retire<R(==)>(rts: map<R, Rt>, targets: set<R>): map<R, Rt> {
    map r | r in rts :: if r in targets then rts[r].(retired := true) else rts[r]
  }

  function Initial<R(==), L(==)>(): State<R, L> {
    State(Snapshot(0, map[], map[], map[]), false, 0, 0, map[], map[], Idle)
  }

  /** `Acquire`: nothing after shutdown, otherwise pin every runtime of the snapshot. */
  ghost function Acquire<R, L>(s: State<R, L>, l: L): State<R, L> {
    if s.closed then s
    else s.(rts := Bump(s.rts, s.current.runtimes.Values, 1), active := s.active + 1,
            tickets := s.tickets[l := Ticket(s.current, Held)])
  }

  ghost predicate Holds<R, L>(s: State<R, L>, l: L) {
    l in s.tickets && s.tickets[l].phase.Held?
  }

  /** The runtimes whose last reference the first half of `Release` drops. */
  ghost function Dropped<R, L>(s: State<R, L>, l: L): set<R>
    requires Holds(s, l)
  {
    set r | r in s.tickets[l].snapshot.runtimes.Values && r in s.rts && s.rts[r].refs == 1 && s.rts[r].retired
  }

  ghost function ReleaseRefs<R, L>(s: State<R, L>, l: L): State<R, L>
    requires Holds(s, l)
  {
    var t := s.tickets[l];
    var rts := Choose(Bump(s.rts, t.snapshot.runtimes.Values, -1), Dropped(s, l));
    s.(rts := rts, tickets := s.tickets[l := t.(phase := Draining(Dropped(s, l)))])
  }

  ghost function CloseRt<R>(rts: map<R, Rt>, r: R): map<R, Rt>
    requires r in rts
  {
    rts[r := rts[r].(closes := rts[r].closes + 1)]
  }

  /** One `r.Close()` of a releasing thread, outside every lock. */
  ghost function ReleaseCloses<R, L>(s: State<R, L>, l: L, r: R): State<R, L>
    requires l in s.tickets && s.tickets[l].phase.Draining? && r in s.tickets[l].phase.pending && r in s.rts
  {
    var t := s.tickets[l];
    s.(rts := CloseRt(s.rts, r), tickets := s.tickets[l := t.(phase := Draining(t.phase.pending - {r}))])
  }

  ghost function ReleaseActive<R, L>(s: State<R, L>, l: L): State<R, L>
    requires l in s.tickets && s.tickets[l].phase == Draining({})
  {
    s.(active := s.active - 1, tickets := s.tickets - {l},
       drained := if s.closed && s.active - 1 == 0 then s.drained + 1 else s.drained)
  }

  /** What callers promise about `next`: nothing to publish, a runtime never
      published before, or the one already published under that name. */
  ghost predicate FreshOrSame<R, L>(s: State<R, L>, name: string, next: Option<R>, info: Info) {
    next.Some? ==>
      || next.value !in s.rts
      || (name in s.current.runtimes && s.current.runtimes[name] == next.value && s.rts[next.value].info == info)
  }

  /** The runtimes the candidate snapshot would hold. */
  function Candidate<R(==)>(from: map<string, R>, name: string, next: Option<R>): map<string, R> {
    var kept := from - {name};
    if next.Some? then kept[name := next.value] else kept
  }

  function Known<R(==)>(rts: map<R, Rt>, next: Option<R>, info: Info): map<R, Rt> {
    if next.Some? && next.value !in rts then rts[next.value := Rt(info, 0, false, 0, 0)] else rts
  }

  /** The validation loop of `Publish`: every runtime of the candidate snapshot is examined. */
  ghost predicate Validates<R>(from: map<string, R>, rts: map<R, Rt>, name: string, next: Option<R>, info: Info) {
    var rs, all := Candidate(from, name, next), Known(rts, next, info);
    forall n | n in rs :: rs[n] in all && Acceptable(all[rs[n]].info)
  }

  /** First section of `Publish` and the validation after it; on refusal `publishMu` is free again. */
  ghost function PublishBegin<R, L>(s: State<R, L>, name: string, next: Option<R>, info: Info): State<R, L>
    requires s.publisher.Idle?
  {
    if s.closed || !Validates(s.current.runtimes, s.rts, name, next, info) then s
    else s.(publisher := Swapping(s.current, name, next, info))
  }

  /** `persist` failed. */
  ghost function PublishAbort<R, L>(s: State<R, L>): State<R, L>
    requires s.publisher.Swapping?
  {
    s.(publisher := Idle)
  }

  /** What its caller sees of one whole `Publish`: whether it succeeds, and the runtimes afterwards. */
  function Summary<R(==)>(from: map<string, R>, closed: bool, name: string, next: Option<R>, acceptable: bool,
                          persisted: bool): (bool, map<string, R>) {
    var ok := !closed && (next.Some? ==> acceptable) && persisted;
    (ok, if ok then Candidate(from, name, next) else from)
  }

  /** The runtime a swap takes out of service, if any. */
  function Replaced<R(==)>(from: map<string, R>, name: string, next: Option<R>): set<R> {
    if name in from && Some(from[name]) != next then {from[name]} else {}
  }

  ghost function Unused<R>(rts: map<R, Rt>, rs: set<R>): set<R> {
    set r | r in rs && r in rts && rts[r].refs == 0
  }

  /** Second section of `Publish`, after `persist` succeeded. */
  ghost function PublishSwap<R, L>(s: State<R, L>): State<R, L>
    requires s.publisher.Swapping?
    requires Candidate(s.publisher.base.runtimes, s.publisher.name, s.publisher.next).Values
          <= Known(s.rts, s.publisher.next, s.publisher.info).Keys
  {
    var p := s.publisher;
    var rs, all := Candidate(p.base.runtimes, p.name, p.next), Known(s.rts, p.next, p.info);
    var gone := Replaced(p.base.runtimes, p.name, p.next);
    var closeNow := Unused(all, gone);
    s.(current := Snapshot(p.base.version + 1, RouteIndex(rs, all), DomainIndex(rs, all), rs),
       rts := Choose(Retire(all, gone), closeNow), publisher := Closing(closeNow))
  }

  /** One `Close()` made by a Publish or a Close that still owns `publishMu`. */
  ghost function PublisherCloses<R, L>(s: State<R, L>, r: R): State<R, L>
    requires s.publisher.Closing? && r in s.publisher.pending && r in s.rts
  {
    s.(rts := CloseRt(s.rts, r), publisher := Closing(s.publisher.pending - {r}))
  }

  ghost function PublisherDone<R, L>(s: State<R, L>): State<R, L>
    requires s.publisher == Closing({})
  {
    s.(publisher := Idle)
  }

  /** The section of `Manager.Close`; a second call finds the flag set and changes nothing. */
  ghost function Shutdown<R, L>(s: State<R, L>): State<R, L>
    requires s.publisher.Idle?
  {
    if s.closed then s
    else
      var unused := Unused(s.rts, s.current.runtimes.Values);
      s.(closed := true, rts := Choose(Retire(s.rts, s.current.runtimes.Values), unused),
         drained := if s.active == 0 then s.drained + 1 else s.drained, publisher := Closing(unused))
  }

  /** One atomic action of one thread. */
  datatype Action<R(==), L(==)> =
    | DoAcquire(l: L)
    | DoReleaseRefs(l: L)
    | DoReleaseCloses(l: L, r: R)
    | DoReleaseActive(l: L)
    | DoPublishBegin(name: string, next: Option<R>, info: Info)
    | DoPublishAbort
    | DoPublishSwap
    | DoPublisherCloses(r: R)
    | DoPublisherDone
    | DoShutdown

  ghost predicate Step<R, L>(s: State<R, L>, a: Action<R, L>, s': State<R, L>) {
    match a
    case DoAcquire(l) => l !in s.tickets && s' == Acquire(s, l)
    case DoReleaseRefs(l) => Holds(s, l) && s' == ReleaseRefs(s, l)
    case DoReleaseCloses(l, r) =>
      && l in s.tickets && s.tickets[l].phase.Draining? && r in s.tickets[l].phase.pending && r in s.rts
      && s' == ReleaseCloses(s, l, r)
    case DoReleaseActive(l) => l in s.tickets && s.tickets[l].phase == Draining({}) && s' == ReleaseActive(s, l)
    case DoPublishBegin(name, next, info) =>
      s.publisher.Idle? && FreshOrSame(s, name, next, info) && s' == PublishBegin(s, name, next, info)
    case DoPublishAbort => s.publisher.Swapping? && s' == PublishAbort(s)
    case DoPublishSwap =>
      && s.publisher.Swapping?
      && Candidate(s.publisher.base.runtimes, s.publisher.name, s.publisher.next).Values
         <= Known(s.rts, s.publisher.next, s.publisher.info).Keys
      && s' == PublishSwap(s)
    case DoPublisherCloses(r) =>
      s.publisher.Closing? && r in s.publisher.pending && r in s.rts && s' == PublisherCloses(s, r)
    case DoPublisherDone => s.publisher == Closing({}) && s' == PublisherDone(s)
    case DoShutdown => s.publisher.Idle? && s' == Shutdown(s)
  }

  ghost predicate StepAt<R, L>(states: seq<State<R, L>>, actions: seq<Action<R, L>>, i: nat)
    requires i < |actions| < |states|
  {
    Step(states[i], actions[i], states[i + 1])
  }

  /** A run from the initial state; `actions` names the action behind every transition. */
  ghost predicate Run<R, L>(states: seq<State<R, L>>, actions: seq<Action<R, L>>) {
    && |states| == |actions| + 1
    && states[0] == Initial()
    && forall i | 0 <= i < |actions| :: StepAt(states, actions, i)
  }

  // ----------------------------------------------------------- invariant

  /** The leases that have not yet done their decrement and whose snapshot contains `r`. */
  ghost function Holders<R, L>(s: State<R, L>, r: R): set<L> {
    set l | l in s.tickets && s.tickets[l].phase.Held? && r in s.tickets[l].snapshot.runtimes.Values
  }

  /** The releasing threads that still have to close `r`. */
  ghost function Closers<R, L>(s: State<R, L>, r: R): set<L> {
    set l | l in s.tickets && s.tickets[l].phase.Draining? && r in s.tickets[l].phase.pending
  }

  ghost function Owed<R, L>(s: State<R, L>, r: R): nat {
    |Closers(s, r)| + if s.publisher.Closing? && r in s.publisher.pending then 1 else 0
  }

  ghost predicate RtInv<R, L>(s: State<R, L>, r: R)
    requires r in s.rts
  {
    var rt := s.rts[r];
    && rt.refs == |Holders(s, r)|
    && (rt.retired <==> s.closed || r !in s.current.runtimes.Values)
    && rt.chosen == (if rt.retired && rt.refs == 0 then 1 else 0)
    && rt.chosen == rt.closes + Owed(s, r)
  }

  /** Everything named anywhere is known. */
  ghost predicate Scoped<R, L>(s: State<R, L>) {
    && s.current.runtimes.Values <= s.rts.Keys
    && Injective(s.current.runtimes)
    && (forall l | l in s.tickets ::
          s.tickets[l].snapshot.runtimes.Values <= s.rts.Keys && Injective(s.tickets[l].snapshot.runtimes))
    && (forall l | l in s.tickets && s.tickets[l].phase.Draining? :: s.tickets[l].phase.pending <= s.rts.Keys)
    && (s.publisher.Closing? ==> s.publisher.pending <= s.rts.Keys)
    && (s.publisher.Swapping? ==>
          && !s.closed && s.publisher.base == s.current
          && FreshOrSame(s, s.publisher.name, s.publisher.next, s.publisher.info))
  }

  /** Reference counts, retirement, close lists and the drain counter. */
  ghost predicate CountInv<R, L>(s: State<R, L>) {
    && Scoped(s)
    && (forall r | r in s.rts :: RtInv(s, r))
    && s.active == |s.tickets|
    && s.drained == (if s.closed && s.active == 0 then 1 else 0)
  }

  /** Every snapshot in use carries the indexes of its own runtimes, all of them acceptable. */
  ghost predicate IndexInv<R, L>(s: State<R, L>) {
    && Indexed(s.current, s.rts)
    && (forall l | l in s.tickets :: Indexed(s.tickets[l].snapshot, s.rts))
    && (s.publisher.Swapping? ==>
          Validates(s.publisher.base.runtimes, s.rts, s.publisher.name, s.publisher.next, s.publisher.info))
  }

  ghost predicate Inv<R, L>(s: State<R, L>) {
    CountInv(s) && IndexInv(s)
  }
}
