/** What every interleaving of the publication protocol keeps. */
module RuntimeSafety {
  import opened Prelude
  import opened RuntimeProtocol

  // ---------------------------------------- counts, one step at a time

  lemma SameTickets<R, L>(s: State<R, L>, s': State<R, L>, r: R)
    requires s'.tickets == s.tickets
    ensures Holders(s', r) == Holders(s, r) && Closers(s', r) == Closers(s, r)
  {
  }

  lemma AcquireSets<R, L>(s: State<R, L>, l: L, r: R)
    requires !s.closed && l !in s.tickets
    ensures Holders(Acquire(s, l), r) == Holders(s, r) + if r in s.current.runtimes.Values then {l} else {}
    ensures l !in Holders(s, r)
    ensures Closers(Acquire(s, l), r) == Closers(s, r)
  {
  }

  lemma AcquireRt<R, L>(s: State<R, L>, l: L, r: R)
    requires !s.closed && l !in s.tickets && r in s.rts && RtInv(s, r)
    ensures RtInv(Acquire(s, l), r)
  {
    var before, after := s.rts[r], Acquire(s, l).rts[r];
    AcquireSets(s, l, r);
    if r in s.current.runtimes.Values {
      assert |Holders(s, r) + {l}| == |Holders(s, r)| + 1;
      assert after.refs == before.refs + 1;
    } else {
      assert after == before;
    }
  }

  lemma AcquireScoped<R, L>(s: State<R, L>, l: L)
    requires Scoped(s) && !s.closed && l !in s.tickets
    ensures Scoped(Acquire(s, l))
  {
    assert Acquire(s, l).rts.Keys == s.rts.Keys;
  }

  lemma AcquireKeeps<R, L>(s: State<R, L>, l: L)
    requires CountInv(s) && l !in s.tickets
    ensures CountInv(Acquire(s, l))
  {
    hide RtInv;
    var s' := Acquire(s, l);
    if !s.closed {
      assert s'.rts.Keys == s.rts.Keys;
      AcquireScoped(s, l);
      hide Scoped;
      forall r | r in s'.rts ensures RtInv(s', r) { AcquireRt(s, l, r); }
    }
  }

  lemma ReleaseRefsSets<R, L>(s: State<R, L>, l: L, r: R)
    requires Holds(s, l)
    ensures Holders(ReleaseRefs(s, l), r) == Holders(s, r) - {l}
    ensures l in Holders(s, r) <==> r in s.tickets[l].snapshot.runtimes.Values
    ensures l !in Closers(s, r)
    ensures Closers(ReleaseRefs(s, l), r) == Closers(s, r) + if r in Dropped(s, l) then {l} else {}
  {
  }

  lemma ReleaseRefsRt<R, L>(s: State<R, L>, l: L, r: R)
    requires Holds(s, l) && r in s.rts && RtInv(s, r)
    ensures RtInv(ReleaseRefs(s, l), r)
  {
    var before, after := s.rts[r], ReleaseRefs(s, l).rts[r];
    ReleaseRefsSets(s, l, r);
    if r in s.tickets[l].snapshot.runtimes.Values {
      assert |Holders(s, r) - {l}| == |Holders(s, r)| - 1;
      assert after.refs == before.refs - 1;
    } else {
      assert after == before;
    }
    if r in Dropped(s, l) {
      assert |Closers(s, r) + {l}| == |Closers(s, r)| + 1;
      assert after.chosen == before.chosen + 1;
    }
  }

  lemma ReleaseRefsKeeps<R, L>(s: State<R, L>, l: L)
    requires CountInv(s) && Holds(s, l)
    ensures CountInv(ReleaseRefs(s, l))
  {
    var s' := ReleaseRefs(s, l);
    assert s'.rts.Keys == s.rts.Keys;
    assert s'.tickets.Keys == s.tickets.Keys;
    forall r | r in s'.rts ensures RtInv(s', r) { ReleaseRefsRt(s, l, r); }
  }

  lemma ReleaseClosesSets<R, L>(s: State<R, L>, l: L, r: R, q: R)
    requires l in s.tickets && s.tickets[l].phase.Draining? && r in s.tickets[l].phase.pending && r in s.rts
    ensures Holders(ReleaseCloses(s, l, r), q) == Holders(s, q)
    ensures l in Closers(s, r)
    ensures Closers(ReleaseCloses(s, l, r), q) == if q == r then Closers(s, q) - {l} else Closers(s, q)
  {
  }

  lemma ReleaseClosesRt<R, L>(s: State<R, L>, l: L, r: R, q: R)
    requires l in s.tickets && s.tickets[l].phase.Draining? && r in s.tickets[l].phase.pending && r in s.rts
    requires q in s.rts && RtInv(s, q)
    ensures RtInv(ReleaseCloses(s, l, r), q)
  {
    ReleaseClosesSets(s, l, r, q);
    if q == r { assert |Closers(s, q) - {l}| == |Closers(s, q)| - 1; }
  }

  lemma ReleaseClosesKeeps<R, L>(s: State<R, L>, l: L, r: R)
    requires CountInv(s)
    requires l in s.tickets && s.tickets[l].phase.Draining? && r in s.tickets[l].phase.pending && r in s.rts
    ensures CountInv(ReleaseCloses(s, l, r))
  {
    hide RtInv;
    var s' := ReleaseCloses(s, l, r);
    assert s'.rts.Keys == s.rts.Keys && s'.tickets.Keys == s.tickets.Keys;
    forall q | q in s'.rts ensures RtInv(s', q) { ReleaseClosesRt(s, l, r, q); }
  }

  lemma ReleaseActiveRt<R, L>(s: State<R, L>, l: L, r: R)
    requires l in s.tickets && s.tickets[l].phase == Draining({}) && r in s.rts && RtInv(s, r)
    ensures RtInv(ReleaseActive(s, l), r)
  {
    assert Holders(ReleaseActive(s, l), r) == Holders(s, r);
    assert Closers(ReleaseActive(s, l), r) == Closers(s, r);
  }

  lemma ReleaseActiveKeeps<R, L>(s: State<R, L>, l: L)
    requires CountInv(s) && l in s.tickets && s.tickets[l].phase == Draining({})
    ensures CountInv(ReleaseActive(s, l))
  {
    var s' := ReleaseActive(s, l);
    assert s'.tickets.Keys == s.tickets.Keys - {l};
    assert |s.tickets| == |s.tickets.Keys| && |s'.tickets| == |s'.tickets.Keys|;
    forall r | r in s'.rts ensures RtInv(s', r) { ReleaseActiveRt(s, l, r); }
  }

  /** The candidate snapshot holds exactly the kept runtimes and `next`. */
  lemma CandidateValues<R>(from: map<string, R>, name: string, next: Option<R>)
    requires Injective(from)
    requires next.Some? && next.value in from.Values ==> name in from && from[name] == next.value
    ensures Injective(Candidate(from, name, next))
    ensures Candidate(from, name, next).Values
         == from.Values - Replaced(from, name, next) + if next.Some? then {next.value} else {}
  {
    var rs := Candidate(from, name, next);
    forall r | r in from.Values && r !in Replaced(from, name, next) ensures r in rs.Values {
      var n :| n in from && from[n] == r;
      if n == name { assert rs[name] == r; } else { assert rs[n] == r; }
    }
    if next.Some? { assert rs[name] == next.value; }
    forall n | n in rs ensures rs[n] !in Replaced(from, name, next) {
      if n != name { assert rs[n] == from[n]; }
    }
  }

  /** In a valid state the second section of Publish is always possible. */
  lemma SwapPossible<R, L>(s: State<R, L>)
    requires Scoped(s) && s.publisher.Swapping?
    ensures Candidate(s.publisher.base.runtimes, s.publisher.name, s.publisher.next).Values
         <= Known(s.rts, s.publisher.next, s.publisher.info).Keys
  {
    var p := s.publisher;
    if p.next.Some? && p.next.value in s.current.runtimes.Values { assert p.next.value in s.rts; }
    CandidateValues(p.base.runtimes, p.name, p.next);
  }

  lemma SwapRt<R, L>(s: State<R, L>, r: R)
    requires Scoped(s) && s.publisher.Swapping?
    requires Candidate(s.publisher.base.runtimes, s.publisher.name, s.publisher.next).Values
          <= Known(s.rts, s.publisher.next, s.publisher.info).Keys
    requires r in PublishSwap(s).rts && (r in s.rts ==> RtInv(s, r))
    ensures RtInv(PublishSwap(s), r)
  {
    var s', p := PublishSwap(s), s.publisher;
    if p.next.Some? && p.next.value in s.current.runtimes.Values { assert p.next.value in s.rts; }
    CandidateValues(p.base.runtimes, p.name, p.next);
    SameTickets(s, s', r);
    if r !in s.rts { assert Holders(s, r) == {} && Closers(s, r) == {}; }
  }

  lemma SwapKeeps<R, L>(s: State<R, L>)
    requires CountInv(s) && s.publisher.Swapping?
    requires Candidate(s.publisher.base.runtimes, s.publisher.name, s.publisher.next).Values
          <= Known(s.rts, s.publisher.next, s.publisher.info).Keys
    ensures CountInv(PublishSwap(s))
  {
    var s', p := PublishSwap(s), s.publisher;
    if p.next.Some? && p.next.value in s.current.runtimes.Values { assert p.next.value in s.rts; }
    CandidateValues(p.base.runtimes, p.name, p.next);
    assert s'.rts.Keys == Known(s.rts, p.next, p.info).Keys;
    forall r | r in s'.rts ensures RtInv(s', r) { SwapRt(s, r); }
  }

  lemma PublisherClosesKeeps<R, L>(s: State<R, L>, r: R)
    requires CountInv(s) && s.publisher.Closing? && r in s.publisher.pending && r in s.rts
    ensures CountInv(PublisherCloses(s, r))
  {
    var s' := PublisherCloses(s, r);
    assert s'.rts.Keys == s.rts.Keys;
    forall q | q in s'.rts ensures RtInv(s', q) { assert RtInv(s, q); SameTickets(s, s', q); }
  }

  /** Taking or giving back `publishMu` with nothing left to close. */
  lemma LockKeeps<R, L>(s: State<R, L>, s': State<R, L>)
    requires CountInv(s) && s' == s.(publisher := s'.publisher)
    requires s.publisher.Closing? ==> s.publisher.pending == {}
    requires s'.publisher.Closing? ==> s'.publisher.pending == {}
    requires Scoped(s')
    ensures CountInv(s')
  {
    forall r | r in s'.rts ensures RtInv(s', r) { assert RtInv(s, r); SameTickets(s, s', r); }
  }

  lemma ShutdownRt<R, L>(s: State<R, L>, r: R)
    requires Scoped(s) && s.publisher.Idle? && !s.closed && r in s.rts && RtInv(s, r)
    ensures RtInv(Shutdown(s), r)
  {
    SameTickets(s, Shutdown(s), r);
  }

  lemma ShutdownKeeps<R, L>(s: State<R, L>)
    requires CountInv(s) && s.publisher.Idle?
    ensures CountInv(Shutdown(s))
  {
    var s' := Shutdown(s);
    if !s.closed {
      assert s'.rts.Keys == s.rts.Keys;
      forall r | r in s'.rts ensures RtInv(s', r) { ShutdownRt(s, r); }
    }
  }

  lemma StepKeepsCounts<R, L>(s: State<R, L>, a: Action<R, L>, s': State<R, L>)
    requires CountInv(s) && Step(s, a, s')
    ensures CountInv(s')
  {
    match a
    case DoAcquire(l) => AcquireKeeps(s, l);
    case DoReleaseRefs(l) => ReleaseRefsKeeps(s, l);
    case DoReleaseCloses(l, r) => ReleaseClosesKeeps(s, l, r);
    case DoReleaseActive(l) => ReleaseActiveKeeps(s, l);
    case DoPublishBegin(name, next, info) => if s' != s { LockKeeps(s, s'); }
    case DoPublishAbort => LockKeeps(s, s');
    case DoPublishSwap => SwapKeeps(s);
    case DoPublisherCloses(r) => PublisherClosesKeeps(s, r);
    case DoPublisherDone => LockKeeps(s, s');
    case DoShutdown => ShutdownKeeps(s);
  }

  // -------------------------------------------------------------- indexes

  ghost predicate InfoKept<R>(rts: map<R, Rt>, rts': map<R, Rt>) {
    rts.Keys <= rts'.Keys && forall r | r in rts :: rts'[r].info == rts[r].info
  }

  lemma DomainIndexStable<R>(rs: map<string, R>, rts: map<R, Rt>, rts': map<R, Rt>)
    requires rs.Values <= rts.Keys && InfoKept(rts, rts')
    ensures DomainIndex(rs, rts') == DomainIndex(rs, rts)
  {
    forall n | n in rs ensures rts'[rs[n]].info == rts[rs[n]].info { assert rs[n] in rs.Values; }
    var d, d' := DomainIndex(rs, rts), DomainIndex(rs, rts');
    forall k ensures k in d <==> k in d' {
      if k in d { var n :| n in rs && rts[rs[n]].info.domain == Some(k); assert rts'[rs[n]].info.domain == Some(k); }
      if k in d' { var n :| n in rs && rts'[rs[n]].info.domain == Some(k); assert rts[rs[n]].info.domain == Some(k); }
    }
    forall k | k in d ensures d[k] == d'[k] { }
  }

  lemma IndexedStable<R>(s: Snapshot<R>, rts: map<R, Rt>, rts': map<R, Rt>)
    requires Indexed(s, rts) && InfoKept(rts, rts')
    ensures Indexed(s, rts')
  {
    DomainIndexStable(s.runtimes, rts, rts');
    forall n | n in s.runtimes ensures rts'[s.runtimes[n]].info == rts[s.runtimes[n]].info {
      assert s.runtimes[n] in s.runtimes.Values;
    }
  }

  lemma StepKeepsInfo<R, L>(s: State<R, L>, a: Action<R, L>, s': State<R, L>)
    requires Step(s, a, s')
    ensures InfoKept(s.rts, s'.rts)
  {
  }

  lemma SwapIndexed<R, L>(s: State<R, L>)
    requires CountInv(s) && IndexInv(s) && s.publisher.Swapping?
    requires Candidate(s.publisher.base.runtimes, s.publisher.name, s.publisher.next).Values
          <= Known(s.rts, s.publisher.next, s.publisher.info).Keys
    ensures Indexed(PublishSwap(s).current, PublishSwap(s).rts)
  {
    var s', all := PublishSwap(s), Known(s.rts, s.publisher.next, s.publisher.info);
    IndexedStable(s'.current, all, s'.rts);
  }

  lemma TicketsIndexed<R, L>(s: State<R, L>, a: Action<R, L>, s': State<R, L>, l: L)
    requires IndexInv(s) && Step(s, a, s') && InfoKept(s.rts, s'.rts) && l in s'.tickets
    ensures Indexed(s'.tickets[l].snapshot, s'.rts)
  {
    if a == DoAcquire(l) {
      IndexedStable(s.current, s.rts, s'.rts);
    } else {
      assert l in s.tickets && s'.tickets[l].snapshot == s.tickets[l].snapshot;
      IndexedStable(s.tickets[l].snapshot, s.rts, s'.rts);
    }
  }

  lemma ValidatesStable<R>(from: map<string, R>, rts: map<R, Rt>, rts': map<R, Rt>,
                           name: string, next: Option<R>, info: Info)
    requires Validates(from, rts, name, next, info)
    requires InfoKept(rts, rts') && rts'.Keys == rts.Keys
    ensures Validates(from, rts', name, next, info)
  {
    var rs, all, all' := Candidate(from, name, next), Known(rts, next, info), Known(rts', next, info);
    forall n | n in rs ensures rs[n] in all' && Acceptable(all'[rs[n]].info) {
      assert rs[n] in all && all'[rs[n]].info == all[rs[n]].info;
    }
  }

  lemma CurrentIndexed<R, L>(s: State<R, L>, a: Action<R, L>, s': State<R, L>)
    requires CountInv(s) && IndexInv(s) && Step(s, a, s') && InfoKept(s.rts, s'.rts)
    ensures Indexed(s'.current, s'.rts)
  {
    if a.DoPublishSwap? {
      SwapIndexed(s);
    } else {
      assert s'.current == s.current;
      IndexedStable(s.current, s.rts, s'.rts);
    }
  }

  lemma PublisherValidated<R, L>(s: State<R, L>, a: Action<R, L>, s': State<R, L>)
    requires IndexInv(s) && Step(s, a, s') && InfoKept(s.rts, s'.rts) && s'.publisher.Swapping?
    ensures Validates(s'.publisher.base.runtimes, s'.rts, s'.publisher.name, s'.publisher.next, s'.publisher.info)
  {
    var p := s'.publisher;
    if !a.DoPublishBegin? {
      assert s.publisher == p && s'.rts.Keys == s.rts.Keys;
      ValidatesStable(p.base.runtimes, s.rts, s'.rts, p.name, p.next, p.info);
    }
  }

  lemma StepKeepsIndexes<R, L>(s: State<R, L>, a: Action<R, L>, s': State<R, L>)
    requires CountInv(s) && IndexInv(s) && Step(s, a, s')
    ensures IndexInv(s')
  {
    StepKeepsInfo(s, a, s');
    CurrentIndexed(s, a, s');
    forall l | l in s'.tickets ensures Indexed(s'.tickets[l].snapshot, s'.rts) { TicketsIndexed(s, a, s', l); }
    if s'.publisher.Swapping? { PublisherValidated(s, a, s'); }
  }

  // ----------------------------------------------------------- whole runs

  lemma StepKeeps<R, L>(s: State<R, L>, a: Action<R, L>, s': State<R, L>)
    requires Inv(s) && Step(s, a, s')
    ensures Inv(s')
  {
    StepKeepsCounts(s, a, s');
    StepKeepsIndexes(s, a, s');
  }

  lemma InitialHolds<R, L>()
    ensures Inv(Initial<R, L>())
  {
    var s := Initial<R, L>();
    assert DomainIndex(s.current.runtimes, s.rts) == map[];
    assert RouteIndex(s.current.runtimes, s.rts) == map[];
  }

  lemma {:induction false} RunKeeps<R, L>(states: seq<State<R, L>>, actions: seq<Action<R, L>>, i: nat)
    requires Run(states, actions) && i < |states|
    ensures Inv(states[i])
  {
    hide Inv, Step, Initial;
    if i == 0 {
      InitialHolds<R, L>();
    } else {
      RunKeeps(states, actions, i - 1);
      assert StepAt(states, actions, i - 1);
      StepKeeps(states[i - 1], actions[i - 1], states[i]);
    }
  }

  /** Reference counts are exact at every point of every run. */
  lemma RefsCountHolders<R, L>(states: seq<State<R, L>>, actions: seq<Action<R, L>>, i: nat, r: R)
    requires Run(states, actions) && i < |states| && r in states[i].rts
    ensures states[i].rts[r].refs == |Holders(states[i], r)|
  {
    RunKeeps(states, actions, i);
    assert RtInv(states[i], r);
  }

  /** A runtime reachable from a held lease has not been closed, nor even put on a close list. */
  lemma LeasedRuntimeIsOpen<R, L>(states: seq<State<R, L>>, actions: seq<Action<R, L>>, i: nat, l: L, r: R)
    requires Run(states, actions) && i < |states|
    requires Holds(states[i], l) && r in states[i].tickets[l].snapshot.runtimes.Values
    ensures r in states[i].rts && states[i].rts[r].chosen == 0 && states[i].rts[r].closes == 0
  {
    RunKeeps(states, actions, i);
    assert RtInv(states[i], r);
    assert l in Holders(states[i], r);
  }

  /** Publish, Release and Close together pick a runtime for closing at most once,
      and have done so exactly when it is out of service and no lease holds it. */
  lemma ChosenOnce<R, L>(states: seq<State<R, L>>, actions: seq<Action<R, L>>, i: nat, r: R)
    requires Run(states, actions) && i < |states| && r in states[i].rts
    ensures states[i].rts[r].closes <= states[i].rts[r].chosen <= 1
    ensures states[i].rts[r].chosen == 1 <==>
              && (states[i].closed || r !in states[i].current.runtimes.Values)
              && Holders(states[i], r) == {}
  {
    RunKeeps(states, actions, i);
    assert RtInv(states[i], r);
  }

  /** `drained` is closed once, exactly when the manager is shut down and no request is active. */
  lemma DrainedOnce<R, L>(states: seq<State<R, L>>, actions: seq<Action<R, L>>, i: nat)
    requires Run(states, actions) && i < |states|
    ensures states[i].drained <= 1
    ensures states[i].drained == 1 <==> states[i].closed && states[i].tickets == map[]
  {
    RunKeeps(states, actions, i);
  }

  lemma {:induction false} StaysShut<R, L>(states: seq<State<R, L>>, actions: seq<Action<R, L>>, i: nat, j: nat)
    requires Run(states, actions) && i <= j < |states|
    requires states[i].closed && states[i].publisher.Idle?
    ensures states[j].closed && states[j].publisher.Idle?
  {
    if i < j {
      StaysShut(states, actions, i, j - 1);
      assert StepAt(states, actions, j - 1);
    }
  }

  lemma {:induction false} KnownForever<R, L>(states: seq<State<R, L>>, actions: seq<Action<R, L>>, i: nat, j: nat)
    requires Run(states, actions) && i <= j < |states|
    ensures states[i].rts.Keys <= states[j].rts.Keys
  {
    if i < j {
      KnownForever(states, actions, i, j - 1);
      assert StepAt(states, actions, j - 1);
      StepKeepsInfo(states[j - 1], actions[j - 1], states[j]);
    }
  }

  /** `Close` gives `publishMu` back at some point `i` after shutdown and returns nil once it
      observes `drained` at `j`: then no lease is outstanding and every runtime published at
      any time has been closed, once. */
  lemma CloseReturnsClean<R, L>(states: seq<State<R, L>>, actions: seq<Action<R, L>>, k: nat, i: nat, j: nat, r: R)
    requires Run(states, actions) && k <= j && i <= j < |states|
    requires states[i].closed && states[i].publisher.Idle?
    requires states[j].drained > 0
    requires r in states[k].rts
    ensures states[j].tickets == map[]
    ensures r in states[j].rts && states[j].rts[r].closes == 1
  {
    StaysShut(states, actions, i, j);
    KnownForever(states, actions, k, j);
    RunKeeps(states, actions, j);
    assert RtInv(states[j], r);
    assert Holders(states[j], r) == {} && Closers(states[j], r) == {};
  }

  // ------------------------------------------------ what one Publish does

  /** Between its two sections nothing another thread does changes the snapshot `Publish`
      read, and the manager cannot be shut down: once `persist` succeeds the swap happens. */
  lemma SwapOnSnapshotRead<R, L>(states: seq<State<R, L>>, actions: seq<Action<R, L>>, i: nat)
    requires Run(states, actions) && i < |states| && states[i].publisher.Swapping?
    ensures states[i].current == states[i].publisher.base && !states[i].closed
    ensures exists s' :: Step(states[i], DoPublishSwap, s')
  {
    RunKeeps(states, actions, i);
    SwapPossible(states[i]);
    assert Step(states[i], DoPublishSwap, PublishSwap(states[i]));
  }

  /** The swap advances the version by one, binds `name` to `next`, and leaves every other
      app with the very runtime it had. */
  lemma SwapIsIsolated<R, L>(s: State<R, L>, s': State<R, L>, n: string)
    requires Scoped(s) && Step(s, DoPublishSwap, s')
    ensures s'.current.version == s.current.version + 1
    ensures n != s.publisher.name ==>
              && (n in s'.current.runtimes <==> n in s.current.runtimes)
              && (n in s.current.runtimes ==> s'.current.runtimes[n] == s.current.runtimes[n])
    ensures n == s.publisher.name ==>
              if s.publisher.next.Some? then n in s'.current.runtimes && s'.current.runtimes[n] == s.publisher.next.value
              else n !in s'.current.runtimes
  {
    var rs := s'.current.runtimes;
    assert rs == Candidate(s.current.runtimes, s.publisher.name, s.publisher.next);
  }

  /** Validation examines every runtime of the candidate snapshot, but it can refuse the
      candidate only for the domain or the routes of `next` itself. */
  lemma RefusedOnlyForItself<R, L>(s: State<R, L>, name: string, next: Option<R>, info: Info)
    requires Inv(s) && FreshOrSame(s, name, next, info)
    ensures Validates(s.current.runtimes, s.rts, name, next, info) <==>
      (next.Some? ==> info.domain.Some? && info.routable)
  {
    ValidatesIff(s.current, s.rts, name, next, info);
  }

  lemma ValidatesIff<R>(snap: Snapshot<R>, rts: map<R, Rt>, name: string, next: Option<R>, info: Info)
    requires Indexed(snap, rts)
    requires next.Some? && next.value in rts ==> rts[next.value].info == info
    ensures Validates(snap.runtimes, rts, name, next, info) <==> (next.Some? ==> Acceptable(info))
  {
    var rs, all := Candidate(snap.runtimes, name, next), Known(rts, next, info);
    if next.Some? {
      assert name in rs && rs[name] == next.value && all[rs[name]].info == info;
    }
    forall n | n in rs && n != name ensures rs[n] in all && Acceptable(all[rs[n]].info) {
      assert rs[n] == snap.runtimes[n] && rs[n] in rts;
    }
  }

  /** Lookup through the domain index and the route tables agrees with the runtimes themselves,
      in the current snapshot and in every snapshot still leased. */
  lemma IndexesAgree<R>(snap: Snapshot<R>, rts: map<R, Rt>, domain: string, app: string)
    requires Indexed(snap, rts)
    ensures HasApp(snap, domain, app) <==>
              app in snap.runtimes && rts[snap.runtimes[app]].info.domain == Some(domain)
    ensures app in snap.routes <==> app in snap.runtimes
    ensures app in snap.routes ==> snap.routes[app] == Table(app, rts[snap.runtimes[app]].info.routes)
  {
    if app in snap.runtimes && rts[snap.runtimes[app]].info.domain == Some(domain) {
      assert domain in DomainIndex(snap.runtimes, rts);
    }
  }

  /** A `Publish` that owns `publishMu` since `i`: waiting for `persist`, or swapped. */
  ghost predicate Publishing<R, L>(states: seq<State<R, L>>, actions: seq<Action<R, L>>, i: nat, k: nat,
                                   name: string, next: Option<R>, info: Info)
    requires i < k < |states| && |states| == |actions| + 1
  {
    var from, now := states[i].current, states[k];
    if exists m | i < m < k :: actions[m].DoPublishSwap? then
      && (now.publisher.Idle? || now.publisher.Closing?)
      && now.current.version == from.version + 1 && now.current.runtimes == Candidate(from.runtimes, name, next)
    else
      && (now.publisher.Idle? || now.publisher == Swapping(from, name, next, info))
      && now.current == from
  }

  ghost predicate Owned<R, L>(states: seq<State<R, L>>, i: nat, j: nat)
    requires i < j < |states|
  {
    forall k | i < k < j :: !states[k].publisher.Idle?
  }

  lemma {:induction false} PublishingAt<R, L>(states: seq<State<R, L>>, actions: seq<Action<R, L>>, i: nat, k: nat,
                                              name: string, next: Option<R>, info: Info)
    requires Run(states, actions) && i < k < |states| && Owned(states, i, k)
    requires actions[i] == DoPublishBegin(name, next, info)
    requires !states[i].closed && (next.Some? ==> Acceptable(info))
    ensures Publishing(states, actions, i, k, name, next, info)
  {
    hide Inv, Initial;
    assert StepAt(states, actions, k - 1);
    if k == i + 1 {
      RunKeeps(states, actions, i);
      RefusedOnlyForItself(states[i], name, next, info) by { assert StepAt(states, actions, i); }
    } else {
      PublishingAt(states, actions, i, k - 1, name, next, info);
      assert !states[k - 1].publisher.Idle?;
      RunKeeps(states, actions, k - 1);
      OwnerStep(states[k - 1], actions[k - 1], states[k]);
      assert (exists m | i < m < k :: actions[m].DoPublishSwap?) <==>
             (exists m | i < m < k - 1 :: actions[m].DoPublishSwap?) || actions[k - 1].DoPublishSwap?;
    }
  }

  /** Only the owner of `publishMu` goes on with it. */
  lemma OwnerStep<R, L>(s: State<R, L>, a: Action<R, L>, s': State<R, L>)
    requires Step(s, a, s') && !s.publisher.Idle? && Inv(s)
    ensures a.DoPublishSwap? ==>
              && s.publisher.Swapping? && s.publisher.base == s.current && s'.publisher.Closing?
              && s'.current.version == s.current.version + 1
              && s'.current.runtimes == Candidate(s.current.runtimes, s.publisher.name, s.publisher.next)
    ensures !a.DoPublishSwap? ==> s'.current == s.current
    ensures !a.DoPublishSwap? && s.publisher.Swapping? ==> s'.publisher == s.publisher || s'.publisher.Idle?
    ensures s.publisher.Closing? ==> !a.DoPublishSwap? && (s'.publisher.Closing? || s'.publisher.Idle?)
  {
  }

  /** Whatever other threads do meanwhile, one whole `Publish`, from its first section at `i` until it gives
      `publishMu` back at `j`, does what `Summary` says; `persist` succeeded exactly if there was a swap. */
  lemma PublishIsSummary<R, L>(states: seq<State<R, L>>, actions: seq<Action<R, L>>, i: nat, j: nat,
                               name: string, next: Option<R>, info: Info)
    requires Run(states, actions) && i < j < |states| && actions[i] == DoPublishBegin(name, next, info)
    requires Owned(states, i, j) && states[j].publisher.Idle?
    ensures var persisted := exists k | i < k < j :: actions[k].DoPublishSwap?;
      var acceptable := info.domain.Some? && info.routable;
      var (ok, rs) := Summary(states[i].current.runtimes, states[i].closed, name, next, acceptable, persisted);
      && states[j].current.runtimes == rs
      && (if ok then states[j].current.version == states[i].current.version + 1 else states[j].current == states[i].current)
  {
    hide Inv, Initial;
    assert StepAt(states, actions, i);
    if !states[i].closed && (next.Some? ==> Acceptable(info)) {
      PublishingAt(states, actions, i, j, name, next, info);
    } else {
      RunKeeps(states, actions, i);
      RefusedOnlyForItself(states[i], name, next, info);
      assert states[i + 1] == states[i];
      assert j == i + 1;
    }
  }

  /** So nothing is published without a domain or with routes that the router refuses, or after shutdown. */
  lemma OnlyRoutableIsPublished<R, L>(states: seq<State<R, L>>, actions: seq<Action<R, L>>, i: nat, j: nat,
                                      name: string, next: R, info: Info)
    requires Run(states, actions) && i < j < |states| && actions[i] == DoPublishBegin(name, Some(next), info)
    requires Owned(states, i, j) && states[j].publisher.Idle?
    ensures info.domain.None? || !info.routable || states[i].closed ==> states[j].current == states[i].current
    ensures states[j].current != states[i].current ==>
      && info.domain.Some? && info.routable && !states[i].closed
      && states[j].current.runtimes == states[i].current.runtimes[name := next]
  {
    PublishIsSummary(states, actions, i, j, name, Some(next), info);
    assert states[i].current.runtimes - {name} + map[name := next] == states[i].current.runtimes[name := next];
  }

  /** In every state of every run each runtime of the current snapshot, and of every snapshot still leased, has
      a domain and routes that the router accepts. */
  lemma AllPublishedAreRoutable<R, L>(states: seq<State<R, L>>, actions: seq<Action<R, L>>, i: nat)
    requires Run(states, actions) && i < |states|
    ensures forall n :: n in states[i].current.runtimes ==>
      && states[i].current.runtimes[n] in states[i].rts
      && var info := states[i].rts[states[i].current.runtimes[n]].info; info.domain.Some? && info.routable
    ensures forall l, n :: l in states[i].tickets && n in states[i].tickets[l].snapshot.runtimes ==>
      && states[i].tickets[l].snapshot.runtimes[n] in states[i].rts
      && var info := states[i].rts[states[i].tickets[l].snapshot.runtimes[n]].info; info.domain.Some? && info.routable
  {
    hide CountInv, DomainIndex, RouteIndex;
    RunKeeps(states, actions, i);
    var s := states[i];
    assert Indexed(s.current, s.rts);
    forall l, n | l in s.tickets && n in s.tickets[l].snapshot.runtimes
      ensures s.tickets[l].snapshot.runtimes[n] in s.rts
      ensures var info := s.rts[s.tickets[l].snapshot.runtimes[n]].info; info.domain.Some? && info.routable
    {
      assert Indexed(s.tickets[l].snapshot, s.rts);
      assert s.tickets[l].snapshot.runtimes[n] in s.tickets[l].snapshot.runtimes.Values;
    }
    forall n | n in s.current.runtimes ensures s.current.runtimes[n] in s.rts {
      assert s.current.runtimes[n] in s.current.runtimes.Values;
    }
  }

  /** Between two calls of `Publish` nothing else changes what is published, and shutdown is final. */
  lemma {:induction false} OnlySwapsPublish<R, L>(states: seq<State<R, L>>, actions: seq<Action<R, L>>, i: nat, j: nat)
    requires Run(states, actions) && i <= j < |states| && forall k | i <= k < j :: !actions[k].DoPublishSwap?
    ensures states[j].current == states[i].current && (states[i].closed ==> states[j].closed)
  {
    if i < j {
      OnlySwapsPublish(states, actions, i, j - 1);
      assert StepAt(states, actions, j - 1);
    }
  }

  lemma StepVersion<R, L>(s: State<R, L>, a: Action<R, L>, s': State<R, L>)
    requires Scoped(s) && Step(s, a, s')
    ensures s'.current == s.current || s'.current.version == s.current.version + 1
  {
  }

  lemma RunVersion<R, L>(states: seq<State<R, L>>, actions: seq<Action<R, L>>, i: nat)
    requires Run(states, actions) && i < |actions|
    ensures states[i + 1].current == states[i].current
         || states[i + 1].current.version == states[i].current.version + 1
  {
    RunKeeps(states, actions, i);
    assert StepAt(states, actions, i);
    StepVersion(states[i], actions[i], states[i + 1]);
  }

  /** The version never goes back, and one version names one snapshot for ever. */
  lemma {:induction false} VersionsGrow<R, L>(states: seq<State<R, L>>, actions: seq<Action<R, L>>, i: nat, j: nat)
    requires Run(states, actions) && i <= j < |states|
    ensures states[i].current.version <= states[j].current.version
    ensures states[i].current.version == states[j].current.version ==> states[i].current == states[j].current
  {
    if i < j {
      VersionsGrow(states, actions, i, j - 1);
      RunVersion(states, actions, j - 1);
    }
  }
}
