// How long a lease lasts: a publish refreshes it, and it falls to the first sweep that begins more than ten seconds
// after the last one.
module LeaseTimes {
  import opened Options
  import opened MemStore
  import opened Leases
  import opened LeaseRuns

  // The time of the node's last publish in a run that begins with one at time t.
  function LastPublish(es: seq<Event>, n: string, t: int): int
    decreases |es|
  {
    if es == [] then t
    else LastPublish(es[1..], n, if es[0].LeaseInsert? && es[0].item.key.node == n then es[0].now else t)
  }

  // No sweep of the run begins more than ten seconds after the node's last publish before it.
  predicate KeptFresh(es: seq<Event>, n: string, t: int)
    decreases |es|
  {
    es == [] ||
    match es[0]
    case SweepBegins(now) => now - t <= 10000 && KeptFresh(es[1..], n, t)
    case LeaseInsert(item, now) => KeptFresh(es[1..], n, if item.key.node == n then now else t)
    case _ => KeptFresh(es[1..], n, t)
  }

  ghost predicate HeardAt(h: Endpoint, n: string, t: int) {
    n in h.clients && h.clients[n].lastUpdate == t && Spared(h, n)
  }

  lemma HeardStep(h: Endpoint, e: Event, n: string, t: int)
    requires HeardAt(h, n, t) && Enabled(h, e) && (e.SweepBegins? ==> e.now - t <= 10000)
    ensures HeardAt(Next(h, e), n, if e.LeaseInsert? && e.item.key.node == n then e.now else t)
  {
  }

  lemma SparedStep(h: Endpoint, e: Event, k: Key, t: int)
    requires HeardAt(h, k.node, t) && Enabled(h, e) && (e.SweepBegins? ==> e.now - t <= 10000)
    ensures Lookup(h.current, k).Some? ==> Lookup(Next(h, e).current, k).Some?
    ensures HasLease(h.clients, k) ==> HasLease(Next(h, e).clients, k)
  {
    if e.StorePublish? {
      PublishAccounts(h, e.item, k);
    } else if e.SweepDeletes? {
      LookupRemove(h.current, Key(e.service, h.sweep.node), k);
    }
  }

  lemma {:induction false} HeardRun(h: Endpoint, es: seq<Event>, k: Key, t: int)
    requires HeardAt(h, k.node, t) && CanRun(h, es) && KeptFresh(es, k.node, t)
    ensures HeardAt(Run(h, es), k.node, LastPublish(es, k.node, t))
    ensures Lookup(h.current, k).Some? ==> Lookup(Run(h, es).current, k).Some?
    ensures HasLease(h.clients, k) ==> HasLease(Run(h, es).clients, k)
    decreases |es|
  {
    if es != [] {
      var e := es[0];
      HeardStep(h, e, k.node, t);
      SparedStep(h, e, k, t);
      HeardRun(Next(h, e), es[1..], k, if e.LeaseInsert? && e.item.key.node == k.node then e.now else t);
    }
  }

  // A lease that a publish has entered stays through every run in which no sweep begins more than ten seconds after
  // the node's last publish, and carries the time of that; so does the registration, unless it was gone before.
  lemma FreshLeaseStays(h: Endpoint, item: Item, t: int, es: seq<Event>)
    requires Enabled(h, LeaseInsert(item, t)) && CanRun(Next(h, LeaseInsert(item, t)), es)
    requires KeptFresh(es, item.key.node, t)
    ensures var h' := Run(Next(h, LeaseInsert(item, t)), es);
            HasLease(h'.clients, item.key)
            && h'.clients[item.key.node].lastUpdate == LastPublish(es, item.key.node, t)
            && (Lookup(h.current, item.key).Some? ==> Lookup(h'.current, item.key).Some?)
  {
    HeardRun(Next(h, LeaseInsert(item, t)), es, item.key, t);
  }

  // So a publish with no sweep under way ends with a lease and a registration that last as long.
  lemma PublishLasts(h: Endpoint, item: Item, t: int, es: seq<Event>)
    requires h.sweep.NoSweep? && KeptFresh(es, item.key.node, t)
    requires CanRun(AfterPublish(h, item, t), es)
    ensures var h' := Run(AfterPublish(h, item, t), es);
            HasLease(h'.clients, item.key) && Lookup(h'.current, item.key).Some?
  {
    var h1 := Next(h, StorePublish(item));
    PublishAccounts(h, item, item.key);
    FreshLeaseStays(h1, item, t, es);
  }

  function AfterPublish(h: Endpoint, item: Item, t: int): Endpoint
    requires h.sweep.NoSweep?
  {
    Next(Next(h, StorePublish(item)), LeaseInsert(item, t))
  }

  // One sweep: whatever the node had registered and leased stays, if it begins at most ten seconds after a publish.
  lemma PublishThenSweep(h: Endpoint, item: Item, t: int, now: int, es: seq<Event>, k: Key)
    requires Enabled(h, LeaseInsert(item, t)) && now - t <= 10000 && k.node == item.key.node
    requires CanRun(Next(Next(h, LeaseInsert(item, t)), SweepBegins(now)), es)
    requires forall e :: e in es ==> !e.SweepBegins?
    ensures var before := Next(h, LeaseInsert(item, t));
            var h' := Run(Next(before, SweepBegins(now)), es);
            (Lookup(before.current, k).Some? ==> Lookup(h'.current, k).Some?)
            && (HasLease(before.clients, k) ==> HasLease(h'.clients, k))
  {
    SweepSpares(Next(h, LeaseInsert(item, t)), now, es, k);
  }

  // And a node whose last publish lies more than ten seconds before an undisturbed sweep loses both.
  lemma StaleLeaseFalls(h: Endpoint, item: Item, t: int, es: seq<Event>, now: int) returns (sweep: seq<Event>)
    requires Enabled(h, LeaseInsert(item, t)) && CanRun(Next(h, LeaseInsert(item, t)), es)
    requires KeptFresh(es, item.key.node, t) && now - LastPublish(es, item.key.node, t) > 10000
    requires Run(Next(h, LeaseInsert(item, t)), es).sweep.NoSweep?
    ensures CanRun(Run(Next(h, LeaseInsert(item, t)), es), [SweepBegins(now)] + sweep)
    ensures var h' := Run(Run(Next(h, LeaseInsert(item, t)), es), [SweepBegins(now)] + sweep);
            item.key.node !in h'.clients && Lookup(h'.current, item.key).None?
  {
    FreshLeaseStays(h, item, t, es);
    sweep := WholeSweep(Run(Next(h, LeaseInsert(item, t)), es), now);
  }
}
