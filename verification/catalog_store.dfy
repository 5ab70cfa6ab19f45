/** The catalog store itself: reading the catalog and the three-operation transaction (internal/metadata/consul_store.go). */
module CatalogStore {
  import opened Prelude
  import opened Reconcile
  import opened CatalogCommit
  import ContractStore
  import StringOrder

  function Filled(st: Store, n: string): App
    requires n in st.catalog
  {
    st.catalog[n].app.(catalogIndex := Epoch(st), modifyIndex := st.catalog[n].stamp)
  }

  predicate Listed(a: App, st: Store) {
    a.name in st.catalog && a == Filled(st, a.name)
  }

  /** The catalog as `refresh` gets it: every record once, by ascending name, with both indexes filled in. */
  ghost predicate Lists(apps: seq<App>, st: Store) {
    && |apps| == |st.catalog|
    && StringOrder.Ascending(seq(|apps|, i requires 0 <= i < |apps| => apps[i].name))
    && forall i :: 0 <= i < |apps| ==> Listed(apps[i], st)
  }

  /** What other replicas do to the store while a call waits: `meanwhile(i, st)` is the store after the
      `i`-th such pause if it was `st` before. `CatalogCommit.RunLater` shows that the protocol allows no more. */
  ghost predicate Lawful(meanwhile: (nat, Store) -> Store) {
    forall i: nat, st: Store :: Sound(st) ==> Later(st, meanwhile(i, st))
  }

  class ConsulCatalog {
    const valid: App -> bool     // App.Validate
    const named: string -> bool  // NamePattern
    const decodes: App -> bool   // what `decode` accepts
    var index: nat
    var catalog: Catalog
    var marker: Option<Marker>

    function View(): Store
      reads this
    {
      Store(index, catalog, marker)
    }

    constructor (valid: App -> bool, named: string -> bool, decodes: App -> bool)
      ensures this.valid == valid && this.named == named && this.decodes == decodes
      ensures View() == Store(0, map[], None)
    {
      this.valid, this.named, this.decodes := valid, named, decodes;
      index, catalog, marker := 0, map[], None;
    }

    /** Names are never empty, and only zip records are valid. */
    ghost predicate Proper() {
      !named("") && forall a :: valid(a) ==> named(a.name) && a.idlType == "zip"
    }

    /** Other replicas go on. */
    method Wait(i: nat, meanwhile: (nat, Store) -> Store)
      requires Sound(View()) && Lawful(meanwhile)
      modifies this`index, this`catalog, this`marker
      ensures View() == meanwhile(i, old(View())) && Later(old(View()), View())
    {
      var next := meanwhile(i, Store(index, catalog, marker));
      index, catalog, marker := next.index, next.catalog, next.marker;
    }

    /** The keys of the catalog in whatever order. */
    method Names() returns (order: seq<string>)
      ensures Distinct(order) && StringOrder.Members(order) == catalog.Keys
    {
      order := [];
      var todo := catalog.Keys;
      while todo != {}
        invariant todo <= catalog.Keys && Distinct(order) && StringOrder.Members(order) == catalog.Keys - todo
        decreases todo
      {
        var n :| n in todo;
        assert n !in StringOrder.Members(order);
        OneMore(order, n);
        order, todo := order + [n], todo - {n};
      }
    }

    method Get(n: string) returns (r: Result<Option<App>>)
      requires Keyed(catalog)
      ensures r.Err? <==> !named(n) || (n in catalog && !decodes(catalog[n].app))
      ensures r.Ok? ==> (r.value.Some? <==> n in catalog)
      ensures r.Ok? && n in catalog ==>
        r.value.value == catalog[n].app.(modifyIndex := catalog[n].stamp) && r.value.value.name == n
    {
      if !named(n) { return Err; }
      if n !in catalog { return Ok(None); }
      if !decodes(catalog[n].app) { return Err; }
      r := Ok(Some(catalog[n].app.(modifyIndex := catalog[n].stamp)));
    }

    /** Every record decodes. */
    ghost predicate Readable(c: Catalog) {
      forall n :: n in c ==> decodes(c[n].app)
    }

    method Read() returns (r: Result<(seq<App>, nat)>)
      requires Keyed(catalog)
      ensures r.Ok? <==> Readable(catalog)
      ensures r.Ok? ==> Lists(r.value.0, View()) && r.value.1 == Epoch(View())
    {
      hide StringOrder.Ascending, StringOrder.Sort, StringOrder.Members, Distinct, Listed, Keyed;
      ghost var st := View();
      var epoch := 0;
      if marker.Some? { epoch := marker.value.stamp; }
      var order := Names();
      var names := StringOrder.Sort(order);
      StringOrder.SortAscends(order);
      Counted(names, catalog.Keys);
      var apps: seq<App> := [];
      for i := 0 to |names|
        invariant |apps| == i
        invariant forall j :: 0 <= j < i ==> apps[j].name == names[j] && Listed(apps[j], st)
        invariant forall j :: 0 <= j < i ==> names[j] in catalog && decodes(catalog[names[j]].app)
      {
        Member(names, i);
        var e := catalog[names[i]];
        if !decodes(e.app) { return Err; }
        FilledIsListed(st, names[i]);
        apps := apps + [e.app.(catalogIndex := epoch, modifyIndex := e.stamp)];
      }
      AllDecode(names, catalog, decodes);
      assert seq(|apps|, i requires 0 <= i < |apps| => apps[i].name) == names;
      r := Ok((apps, epoch));
    }

    /** The second operation of a transaction; a conflict changes nothing. */
    method Operate(w: Write, now: nat) returns (ok: bool)
      modifies this`catalog
      ensures ok <==> Applies(old(View()), w)
      ensures catalog == if ok then Written(old(catalog), w, now) else old(catalog)
    {
      match w
      case Put(a, i) =>
        if i == 0 {
          if a.name in catalog { return false; }
        } else {
          if a.name !in catalog || catalog[a.name].stamp != i { return false; }
        }
        if a.name !in catalog || catalog[a.name].app != Bare(a) {
          catalog := catalog[a.name := Entry(Bare(a), now)];
        }
        ok := true;
      case Remove(n, i) =>
        if n in catalog && catalog[n].stamp != i { return false; }
        catalog := catalog - {n};
        ok := true;
    }

    method Transact(w: Write, epoch: nat) returns (ok: bool)
      modifies this`index, this`catalog, this`marker
      ensures ok <==> Fenced(old(View()), epoch) && Applies(old(View()), w)
      ensures ok ==> if epoch == 0 then old(marker).None? else old(marker).Some? && old(marker).value.stamp == epoch
      ensures ok && w.Put? ==>
        if w.index == 0 then w.app.name !in old(catalog)
        else w.app.name in old(catalog) && old(catalog)[w.app.name].stamp == w.index
      ensures ok && w.Remove? ==> w.name in old(catalog) ==> old(catalog)[w.name].stamp == w.index
      ensures View() == Transacted(old(View()), w, epoch)
      ensures !ok ==> View() == old(View())
    {
      if epoch == 0 {
        if marker.Some? { return false; }
      } else {
        if marker.None? || marker.value.stamp != epoch { return false; }
      }
      ok := Operate(w, index + 1);
      if !ok { return; }
      index := index + 1;
      if marker.None? || marker.value.value != epoch + 1 { marker := Some(Marker(epoch + 1, index)); }
    }

    method CompareAndSwap(a: App, i: nat) returns (ok: bool)
      modifies this`index, this`catalog, this`marker
      ensures ok <==> valid(a) && ContractStore.IsRevision(a.revision) &&
                      Fenced(old(View()), a.catalogIndex) && Applies(old(View()), Put(a, i))
      ensures ok ==> |a.revision| == 64 && forall c :: c in a.revision ==> c in "0123456789abcdef"
      ensures ok ==> if i == 0 then a.name !in old(catalog) else a.name in old(catalog) && old(catalog)[a.name].stamp == i
      ensures View() == if ok then Transacted(old(View()), Put(a, i), a.catalogIndex) else old(View())
    {
      ContractStore.RevisionExact(a.revision);
      if !valid(a) || !ContractStore.IsRevision(a.revision) { return false; }
      ok := Transact(Put(a, i), a.catalogIndex);
    }

    /** Deleting reads the epoch itself, at `readAt`, and then sends the transaction, which gets there at `at`
        if it `reaches` Consul. Its fence covers what happens in between, and nothing before. */
    method Delete(n: string, i: nat, reaches: bool, pause: nat, meanwhile: (nat, Store) -> Store)
      returns (ok: bool, ghost readAt: Store, ghost at: Store)
      requires Sound(View()) && Lawful(meanwhile)
      modifies this`index, this`catalog, this`marker
      ensures readAt == old(View()) && Later(readAt, at)
      ensures ok <==>
        && named(n) && Readable(readAt.catalog) && reaches
        && Fenced(at, Epoch(readAt)) && Applies(at, Remove(n, i))
      ensures View() == if ok then Transacted(at, Remove(n, i), Epoch(readAt)) else at
      ensures ok ==> at.catalog == readAt.catalog && (n in at.catalog ==> at.catalog[n].stamp == i)
    {
      ok, readAt, at := false, View(), View();
      Unmoved(readAt);
      if !named(n) { return; }
      var read := Read();
      if read.Err? { return; }
      Wait(pause, meanwhile);
      at := View();
      if !reaches { return; }
      ok := Transact(Remove(n, i), read.value.1);
      if ok { LaterFenced(readAt, at); }
    }
  }

  /** Spelled out: as many as there are, each stored under its name and carrying the marker's index and its own. */
  lemma ListsMeans(apps: seq<App>, st: Store)
    requires Lists(apps, st)
    ensures |apps| == |st.catalog| && forall i :: 0 <= i < |apps| ==>
      && apps[i].name in st.catalog
      && var e := st.catalog[apps[i].name];
         apps[i] == e.app.(catalogIndex := if st.marker.None? then 0 else st.marker.value.stamp,
                           modifyIndex := e.stamp)
    ensures forall i, j :: 0 <= i < j < |apps| ==> StringOrder.Less(apps[i].name, apps[j].name)
  {
    assert forall i :: 0 <= i < |apps| ==> Listed(apps[i], st);
    var names := seq(|apps|, i requires 0 <= i < |apps| => apps[i].name);
    forall i, j | 0 <= i < j < |apps| ensures StringOrder.Less(apps[i].name, apps[j].name) {
      assert StringOrder.Less(names[i], names[j]);
    }
  }

  lemma FilledIsListed(st: Store, n: string)
    requires n in st.catalog && Keyed(st.catalog)
    ensures Filled(st, n).name == n && Listed(Filled(st, n), st)
  {
  }

  lemma OneMore(names: seq<string>, n: string)
    ensures StringOrder.Members(names + [n]) == StringOrder.Members(names) + {n}
  {
    forall x ensures x in names + [n] <==> x in names || x == n { }
  }

  lemma Member(names: seq<string>, i: nat)
    requires i < |names|
    ensures names[i] in StringOrder.Members(names)
  {
  }

  lemma AllDecode(names: seq<string>, c: Catalog, decodes: App -> bool)
    requires StringOrder.Members(names) == c.Keys
    requires forall j :: 0 <= j < |names| ==> names[j] in c && decodes(c[names[j]].app)
    ensures forall n :: n in c ==> decodes(c[n].app)
  {
    forall n | n in c ensures decodes(c[n].app) {
      assert n in StringOrder.Members(names);
      var j :| 0 <= j < |names| && names[j] == n;
    }
  }

  lemma {:induction false} Counted(names: seq<string>, keys: set<string>)
    requires StringOrder.Ascending(names) && StringOrder.Members(names) == keys
    ensures |names| == |keys|
  {
    if names != [] {
      var front, last := names[..|names| - 1], names[|names| - 1];
      forall x ensures x in StringOrder.Members(front) <==> x in keys - {last} {
        if x in front {
          var j :| 0 <= j < |front| && front[j] == x;
          StringOrder.Total(names[j], last);
          assert x in names;
        }
        if x in keys && x != last {
          var j :| 0 <= j < |names| && names[j] == x;
          assert front[j] == x;
        }
      }
      assert last in names;
      Counted(front, keys - {last});
    } else {
      assert keys == {};
    }
  }

  // ---------------------------------------------- reading and the protocol

  lemma ListNames(apps: seq<App>, st: Store)
    requires Lists(apps, st) && Keyed(st.catalog)
    ensures DistinctNames(apps)
    ensures forall n :: n in st.catalog ==> exists i :: 0 <= i < |apps| && apps[i] == Filled(st, n)
  {
    var names := seq(|apps|, i requires 0 <= i < |apps| => apps[i].name);
    forall i, j | 0 <= i < j < |apps| ensures apps[i].name != apps[j].name {
      assert StringOrder.Less(names[i], names[j]);
      StringOrder.Total(names[i], names[j]);
    }
    forall n | n in StringOrder.Members(names) ensures n in st.catalog {
      var i :| 0 <= i < |names| && names[i] == n;
      assert Listed(apps[i], st);
    }
    Counted(names, StringOrder.Members(names));
    SameSize(StringOrder.Members(names), st.catalog.Keys);
    forall n | n in st.catalog ensures exists i :: 0 <= i < |apps| && apps[i] == Filled(st, n) {
      assert n in StringOrder.Members(names);
      var i :| 0 <= i < |names| && names[i] == n;
      assert Listed(apps[i], st);
    }
  }

  lemma SameSize<T>(a: set<T>, b: set<T>)
    requires a <= b && |a| == |b|
    ensures a == b
  {
    if x :| x in b && x !in a {
      assert a <= b - {x};
      Smaller(a, b - {x});
    }
  }

  lemma {:induction false} Smaller<T>(a: set<T>, b: set<T>)
    requires a <= b
    ensures |a| <= |b|
    decreases b
  {
    if x :| x in b {
      Smaller(a - {x}, b - {x});
    }
  }

  /** The convergence check of `refresh` over the list read is the condition the commit protocol needs. */
  lemma ConvergedIsServing(apps: seq<App>, st: Store, replacing: string, published: Published)
    requires Lists(apps, st) && Keyed(st.catalog)
    ensures Converged(apps, replacing, published) <==> Serves(st.catalog, replacing, published)
  {
    ListNames(apps, st);
    if Converged(apps, replacing, published) {
      forall n | n in st.catalog && Ripe(st.catalog[n].app, replacing)
        ensures n in published && Same(published[n].config, st.catalog[n].app)
      {
        var i :| 0 <= i < |apps| && apps[i] == Filled(st, n);
        assert Ripe(apps[i], replacing);
      }
    }
    if Serves(st.catalog, replacing, published) {
      forall i | 0 <= i < |apps| && Ripe(apps[i], replacing)
        ensures apps[i].name in published && Same(published[apps[i].name].config, apps[i])
      {
        assert Listed(apps[i], st);
      }
    }
  }
}
