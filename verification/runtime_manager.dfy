/**
 The runtime manager itself. Each method below is one critical section (or one
 unlocked `Close` call) of the source; each is proved to perform exactly the
 matching step of `RuntimeProtocol` on the manager's abstract state, so every
 theorem of `RuntimeSafety` about runs holds of these objects.
 */
module RuntimeManager {
  import opened Prelude
  import opened RuntimeProtocol
  import RuntimeSafety

  class ServiceRuntime {
    const info: Info
    const hasClient: bool
    var refs: int
    var retired: bool
    var onceDone: bool            // closeOnce has fired
    var failed: bool              // closeErr
    ghost var chosen: nat         // how often put on a close list
    ghost var closes: nat         // how often Close was called
    ghost var clientCloses: nat   // how often the client was closed

    /** The client, if there is one, is closed by the first call and by no other. */
    ghost predicate Once() reads this {
      (onceDone <==> closes > 0) && clientCloses == if onceDone && hasClient then 1 else 0
    }

    constructor (info: Info, hasClient: bool)
      ensures this.info == info && this.hasClient == hasClient
      ensures refs == 0 && !retired && chosen == 0 && closes == 0 && Once()
    {
      this.info, this.hasClient := info, hasClient;
      refs, retired, onceDone, failed := 0, false, false, false;
      chosen, closes, clientCloses := 0, 0, 0;
    }

    ghost function Value(): Rt reads this { Rt(info, refs, retired, chosen, closes) }

    /** However often it is called, the client is closed once, and every call returns what that said. */
    method Close() returns (err: bool)
      modifies this`onceDone, this`failed, this`closes, this`clientCloses
      ensures closes == old(closes) + 1 && err == failed
      ensures old(Once()) ==> Once()
      ensures old(onceDone) || !hasClient ==> failed == old(failed) && clientCloses == old(clientCloses)
    {
      closes := closes + 1;
      if !onceDone {
        onceDone := true;
        if hasClient {
          clientCloses := clientCloses + 1;
          if * { failed := true; } else { failed := false; }
        }
      }
      err := failed;
    }
  }

  type Published = Snapshot<ServiceRuntime>

  class Lease {
    const snapshot: Published

    constructor (snapshot: Published) ensures this.snapshot == snapshot {
      this.snapshot := snapshot;
    }
  }

  function Opt(r: ServiceRuntime?): Option<ServiceRuntime> { if r == null then None else Some(r) }

  function AtMostOne(r: ServiceRuntime?): set<ServiceRuntime> { if r == null then {} else {r as ServiceRuntime} }

  /** The static data of the candidate; irrelevant when there is none. */
  function InfoOf(r: ServiceRuntime?): Info { if r == null then Info(None, [], false) else r.info }

  ghost function Values(known: set<ServiceRuntime>): map<ServiceRuntime, Rt> reads known {
    map r | r in known :: r.Value()
  }

  lemma RetireEffect(before: map<ServiceRuntime, Rt>, after: map<ServiceRuntime, Rt>,
                     gone: set<ServiceRuntime>, listed: set<ServiceRuntime>)
    requires after.Keys == before.Keys
    requires forall r | r in before ::
               after[r] == before[r].(retired := before[r].retired || r in gone,
                                      chosen := before[r].chosen + if r in listed then 1 else 0)
    ensures after == Choose(Retire(before, gone), listed)
  {
  }

  lemma AddValue(known: set<ServiceRuntime>, next: ServiceRuntime?)
    requires next == null || next in known || next.Value() == Rt(next.info, 0, false, 0, 0)
    ensures Values(known + AtMostOne(next)) == Known(Values(known), Opt(next), InfoOf(next))
  {
  }

  /** The loop of `Acquire`. */
  method PinAll(runtimes: map<string, ServiceRuntime>, ghost known: set<ServiceRuntime>)
    requires Injective(runtimes)
    modifies runtimes.Values`refs
    ensures Values(known) == Bump(old(Values(known)), runtimes.Values, 1)
  {
    var names := runtimes.Keys;
    while names != {}
      invariant names <= runtimes.Keys
      invariant forall n | n in runtimes :: runtimes[n].refs == old(runtimes[n].refs) + if n in names then 0 else 1
      decreases names
    {
      var n :| n in names;
      runtimes[n].refs := runtimes[n].refs + 1;
      names := names - {n};
    }
  }

  /** The loop of `Release`: drop the references and list what this release must close. */
  method UnpinAll(runtimes: map<string, ServiceRuntime>, ghost known: set<ServiceRuntime>)
    returns (closeList: seq<ServiceRuntime>)
    requires Injective(runtimes) && runtimes.Values <= known
    modifies runtimes.Values`refs, runtimes.Values`chosen
    ensures Distinct(closeList)
    ensures var listed := set r | r in runtimes.Values && old(r.refs) == 1 && old(r.retired);
            && (set r | r in closeList) == listed
            && Values(known) == Choose(Bump(old(Values(known)), runtimes.Values, -1), listed)
  {
    closeList := [];
    var names := runtimes.Keys;
    while names != {}
      invariant names <= runtimes.Keys
      invariant forall n | n in runtimes :: runtimes[n].refs == old(runtimes[n].refs) - if n in names then 0 else 1
      invariant forall n | n in runtimes ::
                  runtimes[n].chosen == old(runtimes[n].chosen) + if runtimes[n] in closeList then 1 else 0
      invariant Distinct(closeList)
      invariant forall r | r in closeList :: r in runtimes.Values
      invariant forall n | n in runtimes ::
                  runtimes[n] in closeList <==> n !in names && old(runtimes[n].refs) == 1 && runtimes[n].retired
      decreases names
    {
      var n :| n in names;
      var r := runtimes[n];
      r.refs := r.refs - 1;
      names := names - {n};
      if r.refs == 0 && r.retired {
        closeList := closeList + [r];
        r.chosen := r.chosen + 1;
      }
    }
  }

  /** The indexes of a snapshot that holds these runtimes. */
  function DomainsOf(rs: map<string, ServiceRuntime>): map<string, set<string>> {
    map d | d in (set n | n in rs && rs[n].info.domain.Some? :: rs[n].info.domain.value)
      :: set n | n in rs && rs[n].info.domain == Some(d)
  }

  function TablesOf(rs: map<string, ServiceRuntime>): map<string, Table> {
    map n | n in rs :: Table(n, rs[n].info.routes)
  }

  lemma IndexesMatch(rs: map<string, ServiceRuntime>, rts: map<ServiceRuntime, Rt>)
    requires rs.Values <= rts.Keys && forall r | r in rs.Values :: rts[r].info == r.info
    ensures DomainsOf(rs) == DomainIndex(rs, rts)
    ensures TablesOf(rs) == RouteIndex(rs, rts)
  {
    forall n | n in rs ensures rts[rs[n]].info == rs[n].info { assert rs[n] in rs.Values; }
    var d, d' := DomainsOf(rs), DomainIndex(rs, rts);
    forall k ensures k in d <==> k in d' {
      if k in d { var n :| n in rs && rs[n].info.domain == Some(k); assert rts[rs[n]].info.domain == Some(k); }
      if k in d' { var n :| n in rs && rts[rs[n]].info.domain == Some(k); assert rs[n].info.domain == Some(k); }
    }
    forall k | k in d ensures d[k] == d'[k] { }
  }

  /** The indexes built for a candidate snapshot are those recomputed from its runtimes. */
  lemma CandidateIndexes(from: map<string, ServiceRuntime>, name: string, next: ServiceRuntime?, known: set<ServiceRuntime>)
    requires from.Values <= known
    ensures var rs, all := Candidate(from, name, Opt(next)), Known(Values(known), Opt(next), InfoOf(next));
      rs.Values <= all.Keys && DomainsOf(rs) == DomainIndex(rs, all) && TablesOf(rs) == RouteIndex(rs, all)
  {
    hide DomainIndex, RouteIndex, DomainsOf, TablesOf;
    var rs, all := Candidate(from, name, Opt(next)), Known(Values(known), Opt(next), InfoOf(next));
    forall r | r in rs.Values ensures r in all && all[r].info == r.info {
      var n :| n in rs && rs[n] == r;
    }
    IndexesMatch(rs, all);
  }

  lemma CandidateIs(from: map<string, ServiceRuntime>, name: string, next: ServiceRuntime?)
    ensures Candidate(from, name, Opt(next)) == if next == null then from - {name} else (from - {name})[name := next]
  {
  }

  /** The validation loop, spelled out for the runtimes themselves. */
  lemma ValidatesMeans(from: map<string, ServiceRuntime>, name: string, next: ServiceRuntime?, known: set<ServiceRuntime>)
    requires from.Values <= known
    ensures var rs := Candidate(from, name, Opt(next));
      && (Validates(from, Values(known), name, Opt(next), InfoOf(next)) <==>
            forall n | n in rs :: rs[n].info.domain.Some? && rs[n].info.routable)
      && (next != null ==> name in rs && rs[name] == next)
  {
    var rs, all := Candidate(from, name, Opt(next)), Known(Values(known), Opt(next), InfoOf(next));
    forall n | n in rs ensures rs[n] in all && all[rs[n]].info == rs[n].info { }
  }

  /** The swap, field by field. */
  lemma SwapIs<R, L>(s: State<R, L>, t: State<R, L>, closeNow: set<R>)
    requires s.publisher.Swapping?
    requires var p := s.publisher;
      var rs, all := Candidate(p.base.runtimes, p.name, p.next), Known(s.rts, p.next, p.info);
      var gone := Replaced(p.base.runtimes, p.name, p.next);
      && rs.Values <= all.Keys && closeNow == Unused(all, gone)
      && t == s.(current := Snapshot(p.base.version + 1, RouteIndex(rs, all), DomainIndex(rs, all), rs),
                 rts := Choose(Retire(all, gone), closeNow), publisher := Closing(closeNow))
    ensures t == RuntimeProtocol.PublishSwap(s)
  {
    hide DomainIndex, RouteIndex, Choose, Retire, Unused, Known, Candidate, Replaced;
  }

  lemma DomainsExtend(rs: map<string, ServiceRuntime>, n: string, r: ServiceRuntime, d: string)
    requires n !in rs && r.info.domain == Some(d)
    ensures DomainsOf(rs[n := r])
         == DomainsOf(rs)[d := (if d in DomainsOf(rs) then DomainsOf(rs)[d] else {}) + {n}]
  {
    var a, b := DomainsOf(rs[n := r]), DomainsOf(rs)[d := (if d in DomainsOf(rs) then DomainsOf(rs)[d] else {}) + {n}];
    assert rs[n := r][n].info.domain == Some(d);
    forall m | m in rs ensures rs[n := r][m] == rs[m] { }
    forall k ensures k in a <==> k in b {
      if k in DomainsOf(rs) { var m :| m in rs && rs[m].info.domain == Some(k); assert rs[n := r][m].info.domain == Some(k); }
    }
    forall k | k in a ensures a[k] == b[k] { }
  }

  /** The part of a map that a loop over its keys has visited. */
  ghost function Visited(rs: map<string, ServiceRuntime>, rest: set<string>): map<string, ServiceRuntime> {
    map n | n in rs && n !in rest :: rs[n]
  }

  lemma VisitOne(rs: map<string, ServiceRuntime>, rest: set<string>, n: string)
    requires n in rest && n in rs && Acceptable(rs[n].info)
    ensures Visited(rs, rest - {n}) == Visited(rs, rest)[n := rs[n]]
    ensures var done, d := Visited(rs, rest), rs[n].info.domain.value;
            && DomainsOf(Visited(rs, rest - {n}))
               == DomainsOf(done)[d := (if d in DomainsOf(done) then DomainsOf(done)[d] else {}) + {n}]
            && TablesOf(Visited(rs, rest - {n})) == TablesOf(done)[n := Table(n, rs[n].info.routes)]
  {
    assert Visited(rs, rest - {n}) == Visited(rs, rest)[n := rs[n]];
    DomainsExtend(Visited(rs, rest), n, rs[n], rs[n].info.domain.value);
  }

  /** The validation loop of `Publish`: stop at the first unacceptable runtime, otherwise
      produce the indexes of the candidate snapshot. */
  method BuildIndexes(rs: map<string, ServiceRuntime>)
    returns (ok: bool, domains: map<string, set<string>>, tables: map<string, Table>)
    ensures ok <==> forall n | n in rs :: rs[n].info.domain.Some? && rs[n].info.routable
    ensures ok ==> domains == DomainsOf(rs) && tables == TablesOf(rs)
  {
    ok, domains, tables := true, map[], map[];
    var names := rs.Keys;
    assert DomainsOf(Visited(rs, names)) == map[];
    while names != {}
      invariant names <= rs.Keys
      invariant forall n | n in rs && n !in names :: Acceptable(rs[n].info)
      invariant domains == DomainsOf(Visited(rs, names)) && tables == TablesOf(Visited(rs, names))
      decreases names
    {
      var n :| n in names;
      var r := rs[n];
      if r.info.domain.None? { return false, domains, tables; }
      var domain := r.info.domain.value;
      if !r.info.routable { return false, domains, tables; }
      VisitOne(rs, names, n);
      domains := domains[domain := (if domain in domains then domains[domain] else {}) + {n}];
      tables := tables[n := Table(n, r.info.routes)];
      names := names - {n};
    }
    assert Visited(rs, names) == rs;
  }

  class Manager {
    var current: Published
    var closed: bool
    var active: int
    var drained: nat  // how often the drained channel was closed; a second time would panic

    ghost var known: set<ServiceRuntime>               // every runtime ever published
    ghost var tickets: map<Lease, Ticket<ServiceRuntime>>  // every lease not yet finished
    ghost var publisher: Publisher<ServiceRuntime>     // who owns publishMu

    ghost function View(): State<ServiceRuntime, Lease> reads this, known {
      State(current, closed, active, drained, Values(known), tickets, publisher)
    }

    constructor ()
      ensures View() == Initial() && Inv(View())
    {
      current := Snapshot(0, map[], map[], map[]);
      closed, active, drained := false, 0, 0;
      known, tickets, publisher := {}, map[], Idle;
      new;
      assert DomainIndex(current.runtimes, View().rts) == map[];
      assert RouteIndex(current.runtimes, View().rts) == map[];
    }

    method Acquire() returns (l: Lease?)
      requires Scoped(View())
      modifies this, current.runtimes.Values
      ensures known == old(known)
      ensures l == null <==> old(closed)
      ensures l == null ==> View() == old(View())
      ensures l != null ==>
                && fresh(l) && l !in old(tickets) && l.snapshot == old(current)
                && View() == RuntimeProtocol.Acquire(old(View()), l)
    {
      if closed { return null; }
      var s := current;
      PinAll(s.runtimes, known);
      active := active + 1;
      l := new Lease(s);
      tickets := tickets[l := Ticket(s, Held)];
    }

    /** First section of Release. */
    method ReleaseRefs(l: Lease) returns (closeList: seq<ServiceRuntime>)
      requires Holds(View(), l) && tickets[l].snapshot == l.snapshot
      requires l.snapshot.runtimes.Values <= known && Injective(l.snapshot.runtimes)
      modifies this`tickets, l.snapshot.runtimes.Values
      ensures known == old(known)
      ensures View() == RuntimeProtocol.ReleaseRefs(old(View()), l)
      ensures Distinct(closeList) && (set r | r in closeList) == Dropped(old(View()), l)
    {
      ghost var before := View();
      closeList := UnpinAll(l.snapshot.runtimes, known);
      ghost var listed := set r | r in closeList;
      assert listed == Dropped(before, l);
      tickets := tickets[l := Ticket(l.snapshot, Draining(listed))];
    }

    /** One `r.Close()` of a releasing thread. */
    method ReleaseCloses(l: Lease, r: ServiceRuntime)
      requires l in tickets && tickets[l].phase.Draining? && r in tickets[l].phase.pending && r in known
      modifies this`tickets, r`onceDone, r`failed, r`closes, r`clientCloses
      ensures known == old(known)
      ensures View() == RuntimeProtocol.ReleaseCloses(old(View()), l, r) && (old(r.Once()) ==> r.Once())
    {
      var _ := r.Close();
      tickets := tickets[l := tickets[l].(phase := Draining(tickets[l].phase.pending - {r}))];
      assert View().rts == CloseRt(old(View()).rts, r);
    }

    /** Last section of Release: the request is over; the last one after shutdown opens the drain. */
    method ReleaseActive(l: Lease)
      requires l in tickets && tickets[l].phase == Draining({})
      modifies this`active, this`drained, this`tickets
      ensures known == old(known)
      ensures View() == RuntimeProtocol.ReleaseActive(old(View()), l)
    {
      active := active - 1;
      if closed && active == 0 { drained := drained + 1; }
      tickets := tickets - {l};
    }

    /** First section of `Publish` together with the building of the candidate snapshot; `ok` is
        false when the manager is shut down or the candidate is refused. */
    method PublishBegin(name: string, next: ServiceRuntime?)
      returns (ok: bool, rs: map<string, ServiceRuntime>, domains: map<string, set<string>>, tables: map<string, Table>)
      requires publisher.Idle? && current.runtimes.Values <= known
      modifies this`publisher
      ensures View() == RuntimeProtocol.PublishBegin(old(View()), name, Opt(next), InfoOf(next))
      ensures ok ==> publisher == Swapping(current, name, Opt(next), InfoOf(next))
      ensures !ok ==> publisher == Idle
      ensures ok ==> !closed && (next != null ==> next.info.domain.Some? && next.info.routable)
      ensures ok ==> rs == Candidate(current.runtimes, name, Opt(next)) && domains == DomainsOf(rs) && tables == TablesOf(rs)
    {
      hide Candidate, Validates, DomainsOf, TablesOf, Values;
      rs, domains, tables := map[], map[], map[];
      if closed { return false, rs, domains, tables; }
      rs := KeepOthers(current.runtimes, name);
      if next != null { rs := rs[name := next]; }
      ok, domains, tables := BuildIndexes(rs);
      CandidateIs(current.runtimes, name, next);
      ValidatesMeans(current.runtimes, name, next, known);
      if ok { publisher := Swapping(current, name, Opt(next), InfoOf(next)); }
    }

    /** `persist` returned an error. */
    method PublishAbort()
      requires publisher.Swapping?
      modifies this`publisher
      ensures View() == RuntimeProtocol.PublishAbort(old(View()))
    {
      publisher := Idle;
    }

    /** Second section of `Publish`, entered once `persist` has succeeded; the result is the
        replaced runtime when nobody holds it any more. */
    method PublishSwap(base: Published, name: string, next: ServiceRuntime?, rs: map<string, ServiceRuntime>,
                       domains: map<string, set<string>>, tables: map<string, Table>)
      returns (closeNow: ServiceRuntime?)
      requires publisher == Swapping(base, name, Opt(next), InfoOf(next))
      requires rs == Candidate(base.runtimes, name, Opt(next)) && domains == DomainsOf(rs) && tables == TablesOf(rs)
      requires base.runtimes.Values <= known
      requires next == null || next in known || next.Value() == Rt(next.info, 0, false, 0, 0)
      modifies this, base.runtimes.Values
      ensures known == old(known) + AtMostOne(next)
      ensures rs.Values <= Known(old(View().rts), Opt(next), InfoOf(next)).Keys
      ensures View() == RuntimeProtocol.PublishSwap(old(View()))
      ensures publisher == Closing(AtMostOne(closeNow))
    {
      hide DomainIndex, RouteIndex, DomainsOf, TablesOf, Choose, Retire, Unused, Known, Candidate, Replaced,
           RuntimeProtocol.PublishSwap, AtMostOne;
      CandidateIndexes(base.runtimes, name, next, known);
      ghost var before := View();
      closeNow := TakeOut(base.runtimes, name, next, known);
      known := known + AtMostOne(next);
      current := Snapshot(base.version + 1, tables, domains, rs);
      publisher := Closing(AtMostOne(closeNow));
      SwapIs(before, View(), AtMostOne(closeNow));
    }

    /** `Close()` on a runtime that this Publish or Close put on its list. */
    method PublisherCloses(r: ServiceRuntime)
      requires publisher.Closing? && r in publisher.pending && r in known
      modifies this`publisher, r`onceDone, r`failed, r`closes, r`clientCloses
      ensures known == old(known)
      ensures View() == RuntimeProtocol.PublisherCloses(old(View()), r) && (old(r.Once()) ==> r.Once())
    {
      var _ := r.Close();
      publisher := Closing(publisher.pending - {r});
      assert View().rts == CloseRt(old(View()).rts, r);
    }

    method PublisherDone()
      requires publisher == Closing({})
      modifies this`publisher
      ensures View() == RuntimeProtocol.PublisherDone(old(View()))
    {
      publisher := Idle;
    }

    /** The section of `Close`. */
    method Shutdown() returns (closeList: seq<ServiceRuntime>)
      requires publisher.Idle? && current.runtimes.Values <= known && Injective(current.runtimes)
      modifies this, current.runtimes.Values
      ensures known == old(known)
      ensures View() == RuntimeProtocol.Shutdown(old(View()))
      ensures Distinct(closeList)
      ensures old(closed) ==> closeList == []
      ensures !old(closed) ==> publisher == Closing(set r | r in closeList)
    {
      closeList := [];
      if !closed {
        closed := true;
        closeList := RetireAll(current.runtimes, known);
        if active == 0 { drained := drained + 1; }
        publisher := Closing(set r | r in closeList);
      }
    }
  }

  /** The replaced runtime leaves service; it is closed now unless a lease still holds it. */
  method TakeOut(from: map<string, ServiceRuntime>, name: string, next: ServiceRuntime?, ghost known: set<ServiceRuntime>)
    returns (closeNow: ServiceRuntime?)
    requires from.Values <= known
    requires next == null || next in known || next.Value() == Rt(next.info, 0, false, 0, 0)
    modifies from.Values`retired, from.Values`chosen
    ensures var all, gone := Known(old(Values(known)), Opt(next), InfoOf(next)), Replaced(from, name, Opt(next));
            && AtMostOne(closeNow) == Unused(all, gone)
            && Values(known + AtMostOne(next)) == Choose(Retire(all, gone), AtMostOne(closeNow))
  {
    AddValue(known, next);
    closeNow := null;
    if name in from && from[name] != next {
      var retired := from[name];
      retired.retired := true;
      if retired.refs == 0 {
        retired.chosen := retired.chosen + 1;
        closeNow := retired;
      }
    }
    RetireEffect(old(Values(known + AtMostOne(next))), Values(known + AtMostOne(next)),
                 Replaced(from, name, Opt(next)), AtMostOne(closeNow));
  }

  /** The loop of `Close`: retire everything published and list what nobody holds. */
  method RetireAll(runtimes: map<string, ServiceRuntime>, ghost known: set<ServiceRuntime>)
    returns (closeList: seq<ServiceRuntime>)
    requires Injective(runtimes) && runtimes.Values <= known
    modifies runtimes.Values`retired, runtimes.Values`chosen
    ensures Distinct(closeList)
    ensures (set r | r in closeList) == Unused(old(Values(known)), runtimes.Values)
    ensures Values(known)
         == Choose(Retire(old(Values(known)), runtimes.Values), Unused(old(Values(known)), runtimes.Values))
  {
    closeList := [];
    var names := runtimes.Keys;
    while names != {}
      invariant names <= runtimes.Keys
      invariant forall n | n in runtimes && n !in names :: runtimes[n].retired
      invariant forall n | n in runtimes ::
                  runtimes[n].chosen == old(runtimes[n].chosen) + if runtimes[n] in closeList then 1 else 0
      invariant Distinct(closeList)
      invariant forall r | r in closeList :: r in runtimes.Values
      invariant forall n | n in runtimes :: runtimes[n] in closeList <==> n !in names && runtimes[n].refs == 0
      decreases names
    {
      var n :| n in names;
      var r := runtimes[n];
      r.retired := true;
      names := names - {n};
      if r.refs == 0 {
        closeList := closeList + [r];
        r.chosen := r.chosen + 1;
      }
    }
    assert forall r :: r in closeList <==> r in runtimes.Values && r.refs == 0;
    RetireEffect(old(Values(known)), Values(known), runtimes.Values, Unused(old(Values(known)), runtimes.Values));
  }

  /** The copying loop of `Publish`: every app but the one being published. */
  method KeepOthers(from: map<string, ServiceRuntime>, name: string) returns (rs: map<string, ServiceRuntime>)
    ensures rs == from - {name}
  {
    rs := map[];
    var names := from.Keys;
    while names != {}
      invariant names <= from.Keys && rs == map n | n in from && n !in names && n != name :: from[n]
      decreases names
    {
      var n :| n in names;
      if n != name { rs := rs[n := from[n]]; }
      names := names - {n};
    }
  }
}
