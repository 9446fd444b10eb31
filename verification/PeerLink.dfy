// One source of registrations and one node that copies it: the source's own registrations and its pending
// list for the peer, the peer's copy, and the one response that may be under way between them.
module PeerLink {
  import opened Options
  import opened MemStore
  import opened Deltas

  // A worker has one request out at a time. Broken: its full fetch failed, and it is about to start over.
  datatype Flight = Idle | FullResponse(snapshot: Services) | DeltaResponse(delta: Pending) | Broken

  // lost: the keys whose changes since the copy was taken will not come with any delta.
  // gone: the same for the response under way.
  datatype Link = Link(
    current: Services, pending: Option<Pending>, replica: Option<Services>, flight: Flight,
    lost: set<Key>, gone: set<Key>)

  // A Late event is a request that the source handles after the worker has given it up.
  datatype Event =
    | Change(change: Change)
    | AnswerFull
    | AnswerDelta
    | LateFull
    | LateDelta
    | Deliver
    | Lose
    | Abandon
    | Unwatch
    | SourceRestarts
    | WatcherRestarts

  function AllKeys(m: Services): set<Key> {
    set s, n | s in m && n in m[s] :: Key(s, n)
  }

  function Waiting(l: Link): set<Key> {
    if l.pending.Some? then PendingKeys(l.pending.value) else {}
  }

  function Arriving(l: Link): set<Key> {
    if l.flight.DeltaResponse? then PendingKeys(l.flight.delta) else {}
  }

  // These keys will not come with a delta any more.
  function Forget(l: Link, keys: set<Key>): Link {
    l.(lost := l.lost + keys, gone := l.gone + keys)
  }

  // ---- steps ----

  function AfterChange(l: Link, c: Change): Link {
    var l1 := l.(current := Changed(l.current, c));
    if l.pending.Some? then l1.(pending := Some(Recorded(l.pending.value, c))) else Forget(l1, {c.key})
  }

  // A watch that is already there keeps its list.
  function Watch(l: Link): Link {
    if l.pending.Some? then l else l.(pending := Some(NOTHING_PENDING))
  }

  function AfterAnswerFull(l: Link): Link {
    Watch(l).(flight := FullResponse(l.current), gone := {})
  }

  function AfterAnswerDelta(l: Link): Link
    requires l.pending.Some?
  {
    l.(pending := Some(NOTHING_PENDING), flight := DeltaResponse(l.pending.value), gone := {})
  }

  function AfterLateDelta(l: Link): Link {
    if l.pending.Some? then Forget(l, Waiting(l)).(pending := Some(NOTHING_PENDING)) else l
  }

  function AfterDeliver(l: Link): Link {
    match l.flight
    case FullResponse(snapshot) => l.(replica := Some(snapshot), flight := Idle, lost := l.gone)
    case DeltaResponse(delta) =>
      if l.replica.Some? then
        l.(replica := Some(Synced(l.replica.value, delta)), flight := Idle,
           lost := (l.lost - PendingKeys(delta)) + l.gone)
      else l.(flight := Broken)
    case _ => l
  }

  function AfterLose(l: Link): Link {
    match l.flight
    case FullResponse(_) => l.(flight := Broken)
    case DeltaResponse(delta) => l.(flight := Idle, lost := l.lost + PendingKeys(delta))
    case _ => l
  }

  function AfterUnwatch(l: Link): Link {
    Forget(l, Waiting(l)).(pending := None)
  }

  function AfterSourceRestarts(l: Link): Link {
    Forget(l, Waiting(l) + AllKeys(l.current)).(current := map[], pending := None)
  }

  function NoReplica(l: Link): Link {
    l.(replica := None, flight := Idle)
  }

  // An incremental request is made only by a worker that holds a copy, and refused by a source without a watch.
  predicate Enabled(l: Link, e: Event) {
    match e
    case AnswerFull => l.flight.Idle?
    case AnswerDelta => l.flight.Idle? && l.replica.Some? && l.pending.Some?
    case Deliver => l.flight.FullResponse? || l.flight.DeltaResponse?
    case Lose => l.flight.FullResponse? || l.flight.DeltaResponse?
    case Abandon => l.flight.Idle? || l.flight.Broken?
    case _ => true
  }

  function Next(l: Link, e: Event): Link
    requires Enabled(l, e)
  {
    match e
    case Change(c) => AfterChange(l, c)
    case AnswerFull => AfterAnswerFull(l)
    case AnswerDelta => AfterAnswerDelta(l)
    case LateFull => Watch(l)
    case LateDelta => AfterLateDelta(l)
    case Deliver => AfterDeliver(l)
    case Lose => AfterLose(l)
    case Abandon => NoReplica(l)
    case Unwatch => AfterUnwatch(l)
    case SourceRestarts => AfterSourceRestarts(l)
    case WatcherRestarts => NoReplica(l)
  }

  predicate CanRun(l: Link, es: seq<Event>)
    decreases |es|
  {
    es == [] || (Enabled(l, es[0]) && CanRun(Next(l, es[0]), es[1..]))
  }

  function Run(l: Link, es: seq<Event>): Link
    requires CanRun(l, es)
    decreases |es|
  {
    if es == [] then l else Run(Next(l, es[0]), es[1..])
  }

  // ---- the invariant ----

  ghost predicate EffectsAgree(delta: Pending, current: Services, except: set<Key>) {
    forall k :: Touches(delta, k) && k !in except ==> Effect(delta, k) == Lookup(current, k)
  }

  ghost predicate FlightInv(l: Link) {
    match l.flight
    case FullResponse(snapshot) => NoEmpty(snapshot) && AgreeOutside(snapshot, l.current, Waiting(l) + l.gone)
    case DeltaResponse(delta) => l.replica.Some? && EffectsAgree(delta, l.current, Waiting(l) + l.gone)
    case _ => true
  }

  // The copy agrees with the source outside the keys that are pending, under way or lost.
  ghost predicate ReplicaInv(l: Link) {
    l.replica.Some? ==>
      NoEmpty(l.replica.value) && AgreeOutside(l.replica.value, l.current, Waiting(l) + Arriving(l) + l.lost)
  }

  ghost predicate Inv(l: Link) {
    && NoEmpty(l.current)
    && (l.pending.Some? ==> Exact(l.pending.value, l.current))
    && FlightInv(l)
    && ReplicaInv(l)
  }

  ghost predicate Initial(l: Link) {
    NoEmpty(l.current) && l.pending.None? && l.replica.None? && l.flight.Idle?
  }

  lemma ChangeInv(l: Link, c: Change)
    requires Inv(l)
    ensures Inv(AfterChange(l, c))
  {
    var l1 := AfterChange(l, c);
    LookupChanged(l.current, c, c.key);
    if l.pending.Some? {
      ChangeKeeps(l.pending.value, l.current, c);
      RecordedKeys(l.pending.value, c);
    }
    if l.replica.Some? {
      AgreeKeeps(l.replica.value, l.current, Waiting(l) + Arriving(l) + l.lost, c);
      assert Waiting(l1) + Arriving(l1) + l1.lost == Waiting(l) + Arriving(l) + l.lost + {c.key};
    }
    if l.flight.FullResponse? {
      AgreeKeeps(l.flight.snapshot, l.current, Waiting(l) + l.gone, c);
      assert Waiting(l1) + l1.gone == Waiting(l) + l.gone + {c.key};
    }
    if l.flight.DeltaResponse? {
      forall k | Touches(l.flight.delta, k) && k !in Waiting(l1) + l1.gone
        ensures Effect(l.flight.delta, k) == Lookup(l1.current, k)
      {
        LookupChanged(l.current, c, k);
      }
    }
  }

  lemma AnswerInv(l: Link)
    requires Inv(l)
    ensures Inv(Watch(l)) && Inv(AfterLateDelta(l)) && Inv(AfterUnwatch(l))
    ensures l.flight.Idle? ==> Inv(AfterAnswerFull(l))
    ensures l.flight.Idle? && l.replica.Some? && l.pending.Some? ==> Inv(AfterAnswerDelta(l))
  {
    assert PendingKeys(NOTHING_PENDING) == {};
  }

  lemma DeliverInv(l: Link)
    requires Inv(l)
    ensures Inv(AfterDeliver(l))
  {
    var l1 := AfterDeliver(l);
    if l.flight.DeltaResponse? {
      var delta := l.flight.delta;
      SyncedNoEmpty(l.replica.value, delta);
      forall k | k !in Waiting(l1) + l1.lost ensures Lookup(l1.replica.value, k) == Lookup(l.current, k) {
        LookupSynced(l.replica.value, delta, k);
      }
    }
  }

  lemma SourceRestartsInv(l: Link)
    requires Inv(l)
    ensures Inv(AfterSourceRestarts(l))
  {
    var l1 := AfterSourceRestarts(l);
    forall k | Lookup(l.current, k).Some? ensures k in AllKeys(l.current) {
      assert k == Key(k.service, k.node);
    }
  }

  lemma StepKeeps(l: Link, e: Event)
    requires Inv(l) && Enabled(l, e)
    ensures Inv(Next(l, e))
  {
    match e
    case Change(c) => ChangeInv(l, c);
    case Deliver => DeliverInv(l);
    case SourceRestarts => SourceRestartsInv(l);
    case Lose =>
    case Abandon =>
    case WatcherRestarts =>
    case _ => AnswerInv(l);
  }

  // In every run the copy agrees with the source outside the pending, arriving and lost keys, and every
  // pending list is exact.
  lemma {:induction false} RunKeeps(l: Link, es: seq<Event>)
    requires Inv(l) && CanRun(l, es)
    ensures Inv(Run(l, es))
    decreases es
  {
    if es != [] {
      StepKeeps(l, es[0]);
      RunKeeps(Next(l, es[0]), es[1..]);
    }
  }

  lemma InitialInv(l: Link)
    requires Initial(l)
    ensures Inv(l)
  {
  }

  // With nothing pending, under way or lost, the copy is the source.
  lemma QuietReplica(l: Link)
    requires Inv(l) && l.replica.Some? && Waiting(l) + Arriving(l) + l.lost == {}
    ensures l.replica.value == l.current
  {
    SameLookups(l.replica.value, l.current);
  }
}
