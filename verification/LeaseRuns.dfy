// All interleavings of publishes with the cleanup of silent nodes. A sweep holds the lease lock from start to
// end, so no lease is entered meanwhile, but registrations still reach the store.
module LeaseRuns {
  import opened Options
  import opened MemStore
  import opened Leases

  datatype Sweep = NoSweep | Choosing(rest: set<string>) | Deleting(rest: set<string>, node: string, services: set<string>)

  // inFlight: what the store has and the lease table is still to learn.
  datatype Endpoint = Endpoint(
    current: Services, clients: map<string, Lease>, inFlight: multiset<Item>, sweep: Sweep)

  datatype Event =
    | StorePublish(item: Item)
    | LeaseInsert(item: Item, now: int)
    | SweepBegins(now: int)
    | SweepTakes(node: string)
    | SweepDeletes(service: string)
    | SweepDrops
    | SweepEnds

  predicate Enabled(h: Endpoint, e: Event) {
    match e
    case StorePublish(_) => true
    case LeaseInsert(item, _) => h.sweep.NoSweep? && item in h.inFlight
    case SweepBegins(_) => h.sweep.NoSweep?
    case SweepTakes(n) => h.sweep.Choosing? && n in h.sweep.rest && n in h.clients
    case SweepDeletes(s) => h.sweep.Deleting? && s in h.sweep.services
    case SweepDrops => h.sweep.Deleting? && h.sweep.services == {}
    case SweepEnds => h.sweep == Choosing({})
  }

  function Next(h: Endpoint, e: Event): Endpoint
    requires Enabled(h, e)
  {
    match e
    case StorePublish(item) =>
      h.(current := PutAt(h.current, item.key, item.addr), inFlight := h.inFlight + multiset{item})
    case LeaseInsert(item, now) =>
      h.(clients := Leased(h.clients, item, now), inFlight := h.inFlight - multiset{item})
    case SweepBegins(now) => h.(sweep := Choosing(Expired(h.clients, now)))
    case SweepTakes(n) =>
      h.(sweep := Deleting(h.sweep.rest - {n}, n, h.clients[n].publishment.Keys))
    case SweepDeletes(s) =>
      h.(current := RemoveAt(h.current, Key(s, h.sweep.node)),
         sweep := Deleting(h.sweep.rest, h.sweep.node, h.sweep.services - {s}))
    case SweepDrops => h.(clients := h.clients - {h.sweep.node}, sweep := Choosing(h.sweep.rest))
    case SweepEnds => h.(sweep := NoSweep)
  }

  predicate CanRun(h: Endpoint, es: seq<Event>)
    decreases |es|
  {
    es == [] || (Enabled(h, es[0]) && CanRun(Next(h, es[0]), es[1..]))
  }

  function Run(h: Endpoint, es: seq<Event>): Endpoint
    requires CanRun(h, es)
    decreases |es|
  {
    if es == [] then h else Run(Next(h, es[0]), es[1..])
  }

  ghost predicate InFlight(h: Endpoint, k: Key) {
    exists item :: item in h.inFlight && item.key == k
  }

  // The running sweep has deleted the registration of a lease that it has not dropped yet.
  ghost predicate Swept(h: Endpoint, k: Key) {
    h.sweep.Deleting? && k.node == h.sweep.node && k.service !in h.sweep.services
  }

  // A lease on the registration, or a publish that is about to enter one.
  ghost predicate Accounted(h: Endpoint, k: Key) {
    (HasLease(h.clients, k) && !Swept(h, k)) || InFlight(h, k)
  }

  ghost predicate Covered(h: Endpoint) {
    forall k :: Lookup(h.current, k).Some? ==> Accounted(h, k)
  }

  ghost predicate Exact(h: Endpoint) {
    forall k :: Lookup(h.current, k).Some? <==> Accounted(h, k)
  }

  lemma PublishAccounts(h: Endpoint, item: Item, k: Key)
    ensures var h' := Next(h, StorePublish(item));
            Lookup(h'.current, k) == (if k == item.key then Some(item.addr) else Lookup(h.current, k))
            && (Accounted(h', k) <==> k == item.key || Accounted(h, k))
  {
    var h' := Next(h, StorePublish(item));
    assert item in h'.inFlight;
    assert forall i :: i in h'.inFlight <==> i == item || i in h.inFlight;
  }

  lemma InsertAccounts(h: Endpoint, item: Item, now: int, k: Key)
    requires Enabled(h, LeaseInsert(item, now))
    ensures Accounted(Next(h, LeaseInsert(item, now)), k) <==> Accounted(h, k)
  {
    var h' := Next(h, LeaseInsert(item, now));
    assert forall i :: i in h.inFlight <==> i in h'.inFlight || i == item;
    assert HasLease(h'.clients, k) <==> k == item.key || HasLease(h.clients, k);
  }

  // What a sweep's own steps do to the two sides.
  lemma SweepAccounts(h: Endpoint, e: Event, k: Key)
    requires Enabled(h, e) && !e.StorePublish? && !e.LeaseInsert?
    ensures var h' := Next(h, e);
            var hit := e.SweepDeletes? && k == Key(e.service, h.sweep.node);
            Lookup(h'.current, k) == (if hit then None else Lookup(h.current, k))
            && (hit ==> (Accounted(h', k) <==> InFlight(h, k)))
            && (!hit ==> (Accounted(h', k) <==> Accounted(h, k)))
  {
    if e.SweepDeletes? {
      LookupRemove(h.current, Key(e.service, h.sweep.node), k);
    }
  }

  lemma CoveredStep(h: Endpoint, e: Event)
    requires Covered(h) && Enabled(h, e)
    ensures Covered(Next(h, e))
  {
    forall k | Lookup(Next(h, e).current, k).Some? ensures Accounted(Next(h, e), k) {
      if e.StorePublish? {
        PublishAccounts(h, e.item, k);
      } else if e.LeaseInsert? {
        InsertAccounts(h, e.item, e.now, k);
      } else {
        SweepAccounts(h, e, k);
      }
    }
  }

  // In every interleaving, every registration has a lease or belongs to a publish that is still in flight.
  lemma {:induction false} RunCovered(h: Endpoint, es: seq<Event>)
    requires Covered(h) && CanRun(h, es)
    ensures Covered(Run(h, es))
    decreases |es|
  {
    if es != [] {
      CoveredStep(h, es[0]);
      RunCovered(Next(h, es[0]), es[1..]);
    }
  }

  // ---- silent nodes go, others stay ----

  // The node publishes nothing, and if it has leases the running sweep will drop them.
  ghost predicate Doomed(h: Endpoint, n: string) {
    && (forall item :: item in h.inFlight ==> item.key.node != n)
    && (n in h.clients ==>
          !h.sweep.NoSweep? && (n in h.sweep.rest || (h.sweep.Deleting? && n == h.sweep.node)))
  }

  lemma DoomedStep(h: Endpoint, e: Event, n: string)
    requires Doomed(h, n) && Enabled(h, e)
    requires e.StorePublish? ==> e.item.key.node != n
    ensures Doomed(Next(h, e), n)
  {
  }

  lemma {:induction false} DoomedRun(h: Endpoint, es: seq<Event>, n: string)
    requires Doomed(h, n) && CanRun(h, es)
    requires forall e :: e in es && e.StorePublish? ==> e.item.key.node != n
    ensures Doomed(Run(h, es), n)
    decreases |es|
  {
    if es != [] {
      assert es[0] in es;
      DoomedStep(h, es[0], n);
      DoomedRun(Next(h, es[0]), es[1..], n);
    }
  }

  // A node that has been silent for over ten seconds and has nothing in flight when a sweep begins has no
  // lease and no registration once the sweep has ended, and none until it publishes again.
  lemma SilentNodeGone(h: Endpoint, now: int, es: seq<Event>, n: string)
    requires Covered(h) && h.sweep.NoSweep? && CanRun(Next(h, SweepBegins(now)), es)
    requires n in h.clients ==> h.clients[n].lastUpdate < now - 10000
    requires forall item :: item in h.inFlight ==> item.key.node != n
    requires forall e :: e in es && e.StorePublish? ==> e.item.key.node != n
    ensures var h' := Run(Next(h, SweepBegins(now)), es);
            h'.sweep.NoSweep? ==> n !in h'.clients && forall k: Key :: k.node == n ==> Lookup(h'.current, k).None?
  {
    var h1 := Next(h, SweepBegins(now));
    CoveredStep(h, SweepBegins(now));
    RunCovered(h1, es);
    DoomedRun(h1, es, n);
  }

  ghost predicate Spared(h: Endpoint, n: string) {
    !h.sweep.NoSweep? ==> n !in h.sweep.rest && (h.sweep.Deleting? ==> n != h.sweep.node)
  }

  lemma {:induction false} SparedKeeps(h: Endpoint, es: seq<Event>, k: Key)
    requires Spared(h, k.node) && CanRun(h, es)
    requires forall e :: e in es ==> !e.SweepBegins?
    ensures Lookup(h.current, k).Some? ==> Lookup(Run(h, es).current, k).Some?
    ensures HasLease(h.clients, k) ==> HasLease(Run(h, es).clients, k)
    decreases |es|
  {
    if es != [] {
      var e := es[0];
      assert e in es;
      if e.StorePublish? {
        PublishAccounts(h, e.item, k);
      } else if e.SweepDeletes? {
        LookupRemove(h.current, Key(e.service, h.sweep.node), k);
      }
      SparedKeeps(Next(h, e), es[1..], k);
    }
  }

  // A sweep takes neither a lease nor a registration from a node that was heard of within ten seconds before it
  // began, whatever is published meanwhile.
  lemma SweepSpares(h: Endpoint, now: int, es: seq<Event>, k: Key)
    requires h.sweep.NoSweep? && k.node in h.clients && h.clients[k.node].lastUpdate >= now - 10000
    requires CanRun(Next(h, SweepBegins(now)), es) && forall e :: e in es ==> !e.SweepBegins?
    ensures var h' := Run(Next(h, SweepBegins(now)), es);
            (Lookup(h.current, k).Some? ==> Lookup(h'.current, k).Some?)
            && (HasLease(h.clients, k) ==> HasLease(h'.clients, k))
  {
    SparedKeeps(Next(h, SweepBegins(now)), es, k);
  }

  // ---- steps and methods ----

  lemma RunOne(h: Endpoint, e: Event, rest: seq<Event>)
    requires Enabled(h, e) && CanRun(Next(h, e), rest)
    ensures CanRun(h, [e] + rest) && Run(h, [e] + rest) == Run(Next(h, e), rest)
  {
    assert ([e] + rest)[1..] == rest;
  }

  // The two steps of a publish add up to what the method does.
  lemma PublishSteps(h: Endpoint, item: Item, now: int)
    requires h.sweep.NoSweep?
    ensures var es := [StorePublish(item), LeaseInsert(item, now)];
            CanRun(h, es)
            && Run(h, es)
               == h.(current := PutAt(h.current, item.key, item.addr), clients := Leased(h.clients, item, now))
  {
    var h1 := Next(h, StorePublish(item));
    RunOne(h1, LeaseInsert(item, now), []);
    assert [LeaseInsert(item, now)] + [] == [LeaseInsert(item, now)];
    RunOne(h, StorePublish(item), [LeaseInsert(item, now)]);
    assert [StorePublish(item)] + [LeaseInsert(item, now)] == [StorePublish(item), LeaseInsert(item, now)];
    assert h.inFlight + multiset{item} - multiset{item} == h.inFlight;
  }

  // What a stretch of a sweep removes, and nothing else.
  ghost predicate Removes(h: Endpoint, h': Endpoint, gone: set<Key>) {
    h'.inFlight == h.inFlight
    && forall k :: Lookup(h'.current, k) == if k in gone then None else Lookup(h.current, k)
  }

  function KeysOfNode(n: string, services: set<string>): set<Key> {
    set s | s in services :: Key(s, n)
  }

  lemma {:induction false} SweepNode(h: Endpoint) returns (es: seq<Event>)
    requires h.sweep.Deleting?
    ensures CanRun(h, es)
    ensures var h' := Run(h, es);
            h'.sweep == Choosing(h.sweep.rest) && h'.clients == h.clients - {h.sweep.node}
            && Removes(h, h', KeysOfNode(h.sweep.node, h.sweep.services))
    decreases h.sweep.services
  {
    if h.sweep.services == {} {
      RunOne(h, SweepDrops, []);
      es := [SweepDrops] + [];
    } else {
      var n, services := h.sweep.node, h.sweep.services;
      var s :| s in services;
      var h1 := Next(h, SweepDeletes(s));
      var rest := SweepNode(h1);
      RunOne(h, SweepDeletes(s), rest);
      es := [SweepDeletes(s)] + rest;
      forall k ensures Lookup(Run(h1, rest).current, k)
                       == if k in KeysOfNode(n, services) then None else Lookup(h.current, k)
      {
        LookupRemove(h.current, Key(s, n), k);
        assert k in KeysOfNode(n, services) <==> k in KeysOfNode(n, services - {s}) || k == Key(s, n);
      }
    }
  }

  lemma {:induction false} RunBoth(h: Endpoint, a: seq<Event>, b: seq<Event>)
    requires CanRun(h, a) && CanRun(Run(h, a), b)
    ensures CanRun(h, a + b) && Run(h, a + b) == Run(Run(h, a), b)
    decreases a
  {
    if a == [] {
      assert a + b == b;
    } else {
      assert (a + b)[1..] == a[1..] + b;
      RunBoth(Next(h, a[0]), a[1..], b);
    }
  }

  function LeasedBy(clients: map<string, Lease>, nodes: set<string>): set<Key> {
    set n, s | n in nodes && n in clients && s in clients[n].publishment :: Key(s, n)
  }

  lemma {:induction false} SweepRest(h: Endpoint) returns (es: seq<Event>)
    requires h.sweep.Choosing? && h.sweep.rest <= h.clients.Keys
    ensures CanRun(h, es)
    ensures var h' := Run(h, es);
            h'.sweep == NoSweep && h'.clients == h.clients - h.sweep.rest
            && Removes(h, h', LeasedBy(h.clients, h.sweep.rest))
    decreases h.sweep.rest
  {
    if h.sweep.rest == {} {
      RunOne(h, SweepEnds, []);
      es := [SweepEnds] + [];
    } else {
      var nodes := h.sweep.rest;
      var n :| n in nodes;
      var h1 := Next(h, SweepTakes(n));
      var first := SweepNode(h1);
      var h2 := Run(h1, first);
      var others := SweepRest(h2);
      RunBoth(h1, first, others);
      RunOne(h, SweepTakes(n), first + others);
      es := [SweepTakes(n)] + (first + others);
      SweptNodes(h.clients, h2.clients, nodes, n);
    }
  }

  lemma SweptNodes(clients: map<string, Lease>, rest: map<string, Lease>, nodes: set<string>, n: string)
    requires n in nodes && nodes <= clients.Keys && rest == clients - {n}
    ensures LeasedBy(clients, nodes)
            == KeysOfNode(n, clients[n].publishment.Keys) + LeasedBy(rest, nodes - {n})
    ensures rest - (nodes - {n}) == clients - nodes
  {
    var all := KeysOfNode(n, clients[n].publishment.Keys) + LeasedBy(rest, nodes - {n});
    forall k ensures k in LeasedBy(clients, nodes) <==> k in all {
      assert k == Key(k.service, k.node);
    }
  }

  // The nodes not heard of for more than ten seconds.
  function Silent(clients: map<string, Lease>, now: int): set<string> {
    set n | n in clients && now - clients[n].lastUpdate > 10000
  }

  // The steps of an undisturbed sweep add up to what a round of the cleanup does: the silent nodes lose their
  // leases, and the store what they had leased.
  lemma WholeSweep(h: Endpoint, now: int) returns (es: seq<Event>)
    requires h.sweep.NoSweep?
    ensures CanRun(h, [SweepBegins(now)] + es)
    ensures var h' := Run(h, [SweepBegins(now)] + es);
            h'.sweep.NoSweep? && h'.inFlight == h.inFlight && h'.clients == h.clients - Silent(h.clients, now)
            && forall k :: Lookup(h'.current, k)
                 == if k.node in Silent(h.clients, now) && HasLease(h.clients, k) then None else Lookup(h.current, k)
  {
    es := SweepRest(Next(h, SweepBegins(now)));
    RunOne(h, SweepBegins(now), es);
    forall k ensures k in LeasedBy(h.clients, Expired(h.clients, now))
                     <==> k.node in Expired(h.clients, now) && HasLease(h.clients, k)
    {
      assert k == Key(k.service, k.node);
    }
  }

  // ---- when a lease has its registration ----

  // The sweep deletes no registration that a publish in flight has just refreshed.
  ghost predicate Clean(h: Endpoint, e: Event) {
    e.SweepDeletes? && h.sweep.Deleting? ==> !InFlight(h, Key(e.service, h.sweep.node))
  }

  ghost predicate CleanRun(h: Endpoint, es: seq<Event>)
    requires CanRun(h, es)
    decreases |es|
  {
    es == [] || (Clean(h, es[0]) && CleanRun(Next(h, es[0]), es[1..]))
  }

  // A step from an exact state keeps it exact exactly if it is clean.
  lemma ExactStep(h: Endpoint, e: Event)
    requires Exact(h) && Enabled(h, e)
    ensures Exact(Next(h, e)) <==> Clean(h, e)
  {
    forall k ensures !Clean(h, e) || (Lookup(Next(h, e).current, k).Some? <==> Accounted(Next(h, e), k)) {
      if e.StorePublish? {
        PublishAccounts(h, e.item, k);
      } else if e.LeaseInsert? {
        InsertAccounts(h, e.item, e.now, k);
      } else {
        SweepAccounts(h, e, k);
      }
    }
    if !Clean(h, e) {
      SweepAccounts(h, e, Key(e.service, h.sweep.node));
    }
  }

  // Then the registrations are those with a lease or a publish in flight.
  lemma {:induction false} RunExact(h: Endpoint, es: seq<Event>)
    requires Exact(h) && CanRun(h, es) && CleanRun(h, es)
    ensures Exact(Run(h, es))
    decreases |es|
  {
    if es != [] {
      ExactStep(h, es[0]);
      RunExact(Next(h, es[0]), es[1..]);
    }
  }

  lemma {:induction false} MissingStays(h: Endpoint, es: seq<Event>, k: Key)
    requires Lookup(h.current, k).None? && CanRun(h, es)
    requires forall e :: e in es && e.StorePublish? ==> e.item.key != k
    ensures Lookup(Run(h, es).current, k).None?
    decreases |es|
  {
    if es != [] {
      var e := es[0];
      assert e in es;
      if e.StorePublish? {
        PublishAccounts(h, e.item, k);
      } else if e.SweepDeletes? {
        LookupRemove(h.current, Key(e.service, h.sweep.node), k);
      }
      MissingStays(Next(h, e), es[1..], k);
    }
  }

  // A publish between the beginning of a sweep and its deletion of the same registration is lost: it ends
  // with a fresh lease and no registration, until the node publishes the service again.
  lemma RefreshLost(h: Endpoint, es: seq<Event>, item: Item, now: int)
    requires h.sweep.Deleting? && item.key.node == h.sweep.node && item.key.service in h.sweep.services
    requires CanRun(Next(h, SweepDeletes(item.key.service)), es)
    requires forall e :: e in es && e.StorePublish? ==> e.item.key != item.key
    ensures var h' := Run(Next(h, SweepDeletes(item.key.service)), es);
            Lookup(h'.current, item.key).None?
            && (Enabled(h', LeaseInsert(item, now)) ==>
                  var h'' := Next(h', LeaseInsert(item, now));
                  HasLease(h''.clients, item.key) && Lookup(h''.current, item.key).None?)
  {
    LookupRemove(h.current, item.key, item.key);
    MissingStays(Next(h, SweepDeletes(item.key.service)), es, item.key);
  }

  // The rest of such a sweep over one node with one service, and the lease of the lost publish after it.
  lemma RefreshLostEnds(h: Endpoint, item: Item, later: int)
    requires h.sweep == Deleting({}, item.key.node, {item.key.service}) && item in h.inFlight
    requires item.key.node in h.clients
    ensures var es := [SweepDeletes(item.key.service), SweepDrops, SweepEnds, LeaseInsert(item, later)];
            CanRun(h, es) && Run(h, es).sweep.NoSweep?
            && HasLease(Run(h, es).clients, item.key) && Lookup(Run(h, es).current, item.key).None?
  {
    var n, s := item.key.node, item.key.service;
    var h1 := Next(h, SweepDeletes(s));
    assert h1.sweep == Deleting({}, n, {});
    var h2 := Next(h1, SweepDrops);
    var h3 := Next(h2, SweepEnds);
    var e4, e3 := [LeaseInsert(item, later)], [SweepEnds, LeaseInsert(item, later)];
    var e2 := [SweepDrops, SweepEnds, LeaseInsert(item, later)];
    RunOne(h3, LeaseInsert(item, later), []);
    assert e4 + [] == e4 && [SweepEnds] + e4 == e3 && [SweepDrops] + e3 == e2;
    RunOne(h2, SweepEnds, e4);
    RunOne(h1, SweepDrops, e3);
    RunOne(h, SweepDeletes(s), e2);
    assert [SweepDeletes(s)] + e2 == [SweepDeletes(s), SweepDrops, SweepEnds, LeaseInsert(item, later)];
    LookupRemove(h.current, item.key, item.key);
  }

  const NO_ENTRIES := Endpoint(map[], map[], multiset{}, NoSweep)

  // The whole run, from an empty endpoint: a node publishes, is silent for over ten seconds, and publishes again
  // between the beginning of a sweep and its deletion.
  lemma RefreshLostRun(item: Item, now: int, later: int)
    requires later > now + 10000
    ensures var n, s := item.key.node, item.key.service;
            var es := [StorePublish(item), LeaseInsert(item, now), SweepBegins(later), SweepTakes(n), StorePublish(item)]
                      + [SweepDeletes(s), SweepDrops, SweepEnds, LeaseInsert(item, later)];
            CanRun(NO_ENTRIES, es)
            && var h := Run(NO_ENTRIES, es);
               h.sweep.NoSweep? && HasLease(h.clients, item.key) && Lookup(h.current, item.key).None?
  {
    var n, s := item.key.node, item.key.service;
    var tail := [SweepDeletes(s), SweepDrops, SweepEnds, LeaseInsert(item, later)];
    var h1 := Next(NO_ENTRIES, StorePublish(item));
    var h2 := Next(h1, LeaseInsert(item, now));
    var h3 := Next(h2, SweepBegins(later));
    assert h3.sweep == Choosing({n});
    var h4 := Next(h3, SweepTakes(n));
    assert h4.sweep == Deleting({}, n, {s});
    var h5 := Next(h4, StorePublish(item));
    RefreshLostEnds(h5, item, later);
    RunOne(h4, StorePublish(item), tail);
    var e4 := [StorePublish(item)] + tail;
    RunOne(h3, SweepTakes(n), e4);
    var e3 := [SweepTakes(n)] + e4;
    RunOne(h2, SweepBegins(later), e3);
    var e2 := [SweepBegins(later)] + e3;
    RunOne(h1, LeaseInsert(item, now), e2);
    var e1 := [LeaseInsert(item, now)] + e2;
    RunOne(NO_ENTRIES, StorePublish(item), e1);
    assert [StorePublish(item)] + e1
        == [StorePublish(item), LeaseInsert(item, now), SweepBegins(later), SweepTakes(n), StorePublish(item)] + tail;
  }
}
