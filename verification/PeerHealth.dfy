// The health table of a node: when each peer was last heard of, and the sweep that stops watching for
// peers that have gone silent.
module PeerHealth {
  import opened Options
  import M = MemStore

  const INTERVAL_MS := 20000

  function Expired(peers: map<string, int>, now: int): set<string> {
    set p | p in peers && peers[p] < now - INTERVAL_MS
  }

  class PeerTable {
    var peers: map<string, int>
    const storage: M.MemStore

    // What the interleavings below see between requests.
    ghost function Abstract(): Health
      reads this, storage
    {
      Health(peers, storage.dataTo.Keys, multiset{})
    }

    constructor (storage: M.MemStore)
      ensures peers == map[] && this.storage == storage
    {
      peers := map[];
      this.storage := storage;
    }

    // An incremental request needs a record that is already there; every other request makes one.
    method UpdateClientTime(node: string, failure: bool, now: int) returns (ok: bool)
      modifies `peers
      ensures ok <==> node in old(peers) || !failure
      ensures peers == if ok then old(peers)[node := now] else old(peers)
      ensures Abstract() == Next(old(Abstract()), Heard(node, now, failure))
    {
      if node !in peers {
        if failure {
          return false;
        }
        peers := peers[node := 0];
      }
      peers := peers[node := now];
      ok := true;
    }

    method ClusterFull(node: string, now: int) returns (full: M.Services)
      modifies `peers, storage
      ensures peers == old(peers)[node := now]
      ensures storage.State() == M.Watched(old(storage.State()), node) && full == old(storage.State()).current
      ensures Abstract() == Next(Next(old(Abstract()), FullBegins(node, now)), FullWatches(node))
    {
      var ok := UpdateClientTime(node, false, now);
      full := storage.FetchFullAndWatch(node);
    }

    method ClusterIncremental(node: string, now: int) returns (r: Option<M.Pending>)
      modifies `peers, storage
      ensures r.Some? <==> node in old(peers) && node in old(storage.State()).dataTo
      ensures r.Some? <==> Answered(old(Abstract()), node)
      ensures r.Some? ==> r.value == old(storage.State()).dataTo[node]
      ensures peers == if node in old(peers) then old(peers)[node := now] else old(peers)
      ensures storage.State()
              == if node in old(peers) then M.Drained(old(storage.State()), node) else old(storage.State())
      ensures Abstract() == Next(old(Abstract()), Heard(node, now, true))
    {
      var ok := UpdateClientTime(node, true, now);
      if !ok {
        return None;
      }
      r := storage.FetchChangesForPeerNodeRequest(node);
    }

    // One round of the health check: exactly the peers not heard of for over 20 seconds lose record and watch.
    method Sweep(now: int)
      modifies `peers, storage
      ensures peers == old(peers) - Expired(old(peers), now)
      ensures forall p :: p in old(peers) ==> (p in peers <==> now - old(peers)[p] <= 20000)
      ensures forall p :: p in old(storage.State()).dataTo ==>
                (p in storage.dataTo <==> p !in old(peers) || now - old(peers)[p] <= 20000)
      ensures var s := old(storage.State());
              storage.State() == s.(dataTo := s.dataTo - Expired(old(peers), now))
      ensures Abstract() == Next(old(Abstract()), Sweeps(now))
    {
      var barrier := now - INTERVAL_MS;
      var rest, gone: set<string> := peers.Keys, {};
      ghost var s := storage.State();
      while rest != {}
        invariant rest <= peers.Keys && peers == old(peers)
        invariant gone == Expired(peers, now) - rest
        invariant storage.State() == s.(dataTo := s.dataTo - gone)
      {
        var p :| p in rest;
        if peers[p] < barrier {
          gone := gone + {p};
          storage.Unwatch(p);
        }
        rest := rest - {p};
      }
      while gone != {}
        invariant gone <= Expired(old(peers), now)
        invariant peers == old(peers) - (Expired(old(peers), now) - gone)
        invariant storage.State() == s.(dataTo := s.dataTo - Expired(old(peers), now))
      {
        var p :| p in gone;
        peers := peers - {p};
        gone := gone - {p};
      }
    }
  }

  // ---- interleavings: the record and the watch are under different locks ----

  // answering: full requests that have made their record and not yet their watch.
  datatype Health = Health(peers: map<string, int>, watched: set<string>, answering: multiset<string>)

  datatype Event =
    | Heard(node: string, now: int, failure: bool)
    | FullBegins(node: string, now: int)
    | FullWatches(node: string)
    | Sweeps(now: int)

  predicate Enabled(h: Health, e: Event) {
    e.FullWatches? ==> e.node in h.answering
  }

  function Next(h: Health, e: Event): Health {
    match e
    case Heard(n, now, failure) => if n !in h.peers && failure then h else h.(peers := h.peers[n := now])
    case FullBegins(n, now) => h.(peers := h.peers[n := now], answering := h.answering + multiset{n})
    case FullWatches(n) => h.(watched := h.watched + {n}, answering := h.answering - multiset{n})
    case Sweeps(now) =>
      h.(peers := h.peers - Expired(h.peers, now), watched := h.watched - Expired(h.peers, now))
  }

  // An incremental request of the peer would be answered.
  predicate Answered(h: Health, n: string) {
    n in h.peers && n in h.watched
  }

  predicate CanRun(h: Health, es: seq<Event>)
    decreases |es|
  {
    es == [] || (Enabled(h, es[0]) && CanRun(Next(h, es[0]), es[1..]))
  }

  function Run(h: Health, es: seq<Event>): Health
    decreases |es|
  {
    if es == [] then h else Run(Next(h, es[0]), es[1..])
  }

  // No full request is still between its record and its watch when the record expires.
  ghost predicate Prompt(h: Health, e: Event) {
    e.Sweeps? ==> forall n :: n in Expired(h.peers, e.now) ==> n !in h.answering
  }

  ghost predicate PromptRun(h: Health, es: seq<Event>)
    decreases |es|
  {
    es == [] || (Prompt(h, es[0]) && PromptRun(Next(h, es[0]), es[1..]))
  }

  // Every watch has a record that a sweep will find.
  ghost predicate Recorded(h: Health) {
    forall n :: n in h.watched || n in h.answering ==> n in h.peers
  }

  // A step from a state where every watch has a record keeps that exactly if it is prompt.
  lemma RecordedStep(h: Health, e: Event)
    requires Recorded(h) && Enabled(h, e)
    ensures Recorded(Next(h, e)) <==> Prompt(h, e)
  {
    if !Prompt(h, e) {
      var n :| n in Expired(h.peers, e.now) && n in h.answering;
      assert n in Next(h, e).answering && n !in Next(h, e).peers;
    }
  }

  lemma {:induction false} PromptRunRecords(h: Health, es: seq<Event>)
    requires Recorded(h) && CanRun(h, es) && PromptRun(h, es)
    ensures Recorded(Run(h, es))
    decreases |es|
  {
    if es != [] {
      RecordedStep(h, es[0]);
      PromptRunRecords(Next(h, es[0]), es[1..]);
    }
  }

  // When no request is slow, a peer that has been silent for over 20 seconds is neither watched nor known
  // after the next sweep, so its incremental requests are refused until a full one.
  lemma SilentPeerForgotten(h: Health, es: seq<Event>, n: string, now: int)
    requires Recorded(h) && CanRun(h, es) && PromptRun(h, es)
    requires n in Run(h, es).peers ==> Run(h, es).peers[n] < now - 20000
    ensures var h' := Next(Run(h, es), Sweeps(now));
            n !in h'.watched && n !in h'.peers && Next(h', Heard(n, now, true)) == h'
  {
    PromptRunRecords(h, es);
  }

  // The events that make a record for a peer.
  predicate Records(e: Event, n: string) {
    (e.Heard? && e.node == n && !e.failure) || (e.FullBegins? && e.node == n)
  }

  // With a slow request it is not so: its watch has no record, and no sweep takes it away, however often the
  // peer asks for increments.
  lemma {:induction false} StrayWatchStays(h: Health, es: seq<Event>, n: string)
    requires n in h.watched && n !in h.peers && CanRun(h, es)
    requires forall e :: e in es ==> !Records(e, n)
    ensures n in Run(h, es).watched && n !in Run(h, es).peers
    decreases |es|
  {
    if es != [] {
      assert !Records(es[0], n);
      StrayWatchStays(Next(h, es[0]), es[1..], n);
    }
  }

  lemma SlowFullStrays(h: Health, n: string, now: int, later: int, es: seq<Event>)
    requires later > now + 20000
    requires forall e :: e in es ==> !Records(e, n)
    ensures var h' := Next(Next(Next(h, FullBegins(n, now)), Sweeps(later)), FullWatches(n));
            Enabled(Next(Next(h, FullBegins(n, now)), Sweeps(later)), FullWatches(n))
            && (CanRun(h', es) ==> n in Run(h', es).watched && n !in Run(h', es).peers)
  {
    var h' := Next(Next(Next(h, FullBegins(n, now)), Sweeps(later)), FullWatches(n));
    if CanRun(h', es) {
      StrayWatchStays(h', es, n);
    }
  }

  // ---- a peer that keeps asking stays ----

  // A sweep spares whoever was heard of within twenty seconds before it.
  lemma RecentPeerSpared(h: Health, n: string, now: int)
    requires n in h.peers && now - h.peers[n] <= 20000
    ensures var h' := Next(h, Sweeps(now));
            n in h'.peers && h'.peers[n] == h.peers[n] && (n in h'.watched <==> n in h.watched)
  {
  }

  // The event is a request of the peer.
  predicate Asks(e: Event, n: string) {
    (e.Heard? && e.node == n) || (e.FullBegins? && e.node == n)
  }

  // The time of the last request of a peer that was heard of at t.
  function LastAsked(es: seq<Event>, n: string, t: int): int
    decreases |es|
  {
    if es == [] then t else LastAsked(es[1..], n, if Asks(es[0], n) then es[0].now else t)
  }

  // No sweep runs more than twenty seconds after the last request before it.
  predicate KeepsAsking(es: seq<Event>, n: string, t: int)
    decreases |es|
  {
    es == []
    || ((es[0].Sweeps? ==> es[0].now - t <= 20000)
        && KeepsAsking(es[1..], n, if Asks(es[0], n) then es[0].now else t))
  }

  lemma {:induction false} AskingPeerStays(h: Health, es: seq<Event>, n: string, t: int)
    requires n in h.peers && h.peers[n] == t && CanRun(h, es) && KeepsAsking(es, n, t)
    ensures n in Run(h, es).peers && Run(h, es).peers[n] == LastAsked(es, n, t)
    ensures n in h.watched ==> n in Run(h, es).watched
    decreases |es|
  {
    if es != [] {
      if es[0].Sweeps? {
        RecentPeerSpared(h, n, es[0].now);
      }
      AskingPeerStays(Next(h, es[0]), es[1..], n, if Asks(es[0], n) then es[0].now else t);
    }
  }

  // After a full request, a peer whose requests are never more than twenty seconds older than a sweep has its
  // incremental requests answered, in every run.
  lemma AskingPeerAnswered(h: Health, es: seq<Event>, n: string, t: int)
    requires CanRun(Next(Next(h, FullBegins(n, t)), FullWatches(n)), es) && KeepsAsking(es, n, t)
    ensures Answered(Run(Next(Next(h, FullBegins(n, t)), FullWatches(n)), es), n)
  {
    AskingPeerStays(Next(Next(h, FullBegins(n, t)), FullWatches(n)), es, n, t);
  }
}
