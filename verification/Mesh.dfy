// Every node of a cluster copying every other one: stores that act by themselves, and one link for each
// ordered pair of nodes.
module Mesh {
  import opened Options
  import opened MemStore
  import opened Deltas
  import opened PeerLink
  import opened Merge

  datatype Pair = Pair(source: string, watcher: string)

  datatype Wire = Wire(flight: Flight, lost: set<Key>, gone: set<Key>)

  datatype Mesh = Mesh(stores: map<string, Store>, wires: map<Pair, Wire>)

  datatype MeshEvent =
    | Local(node: string, change: Change)
    | Restart(node: string)
    | Exchange(pair: Pair, event: Event)

  datatype NodeMove = Stay | Fresh | Does(op: Operation)

  const EMPTY_STORE := Store(map[], map[], map[], map[])

  function StoreOf(m: Mesh, n: string): Store {
    if n in m.stores then m.stores[n] else EMPTY_STORE
  }

  function WireOf(m: Mesh, pr: Pair): Wire {
    if pr in m.wires then m.wires[pr] else Wire(Idle, {}, {})
  }

  predicate IsPair(m: Mesh, pr: Pair) {
    pr.source in m.stores && pr.watcher in m.stores && pr.source != pr.watcher
  }

  function PendingFor(s: Store, watcher: string): Option<Pending> {
    if watcher in s.dataTo then Some(s.dataTo[watcher]) else None
  }

  function CopyOf(s: Store, source: string): Option<Services> {
    if source in s.dataFrom then Some(s.dataFrom[source]) else None
  }

  function LinkAt(source: Store, watcher: Store, wire: Wire, pr: Pair): Link {
    Link(source.current, PendingFor(source, pr.watcher), CopyOf(watcher, pr.source), wire.flight, wire.lost, wire.gone)
  }

  // What one pair sees of the mesh.
  function LinkOf(m: Mesh, pr: Pair): Link {
    LinkAt(StoreOf(m, pr.source), StoreOf(m, pr.watcher), WireOf(m, pr), pr)
  }

  // What a mesh event is to a pair, if anything.
  function LinkEvent(me: MeshEvent, pr: Pair): Option<Event> {
    match me
    case Local(n, c) => if n == pr.source then Some(Change(c)) else None
    case Restart(n) =>
      if n == pr.source then Some(SourceRestarts) else if n == pr.watcher then Some(WatcherRestarts) else None
    case Exchange(pair, e) => if pair == pr then Some(e) else None
  }

  // What it makes a node's store do.
  function Move(me: MeshEvent, n: string, flight: Flight): NodeMove {
    match me
    case Local(node, c) => if n == node then Does(Operation.Local(c)) else Stay
    case Restart(node) => if n == node then Fresh else Stay
    case Exchange(pair, e) =>
      if n == pair.source then SourceMove(e, pair.watcher)
      else if n == pair.watcher then WatcherMove(flight, e, pair.source)
      else Stay
  }

  function SourceMove(e: Event, watcher: string): NodeMove {
    if e.AnswerFull? || e.LateFull? then Does(Operation.Watch(watcher))
    else if e.AnswerDelta? || e.LateDelta? then Does(Operation.Drain(watcher))
    else if e.Unwatch? then Does(Operation.Unwatch(watcher))
    else Stay
  }

  function WatcherMove(flight: Flight, e: Event, source: string): NodeMove {
    if e.Deliver? && flight.FullResponse? then Does(Operation.Full(source, flight.snapshot))
    else if e.Deliver? && flight.DeltaResponse? then Does(Operation.Sync(source, flight.delta))
    else if e.Abandon? then Does(Operation.Abandon(source))
    else Stay
  }

  // Events of a link that are its own; changes and restarts concern all links of a node.
  predicate Own(e: Event) {
    !e.Change? && !e.SourceRestarts? && !e.WatcherRestarts?
  }

  predicate MayHappen(m: Mesh, me: MeshEvent) {
    match me
    case Local(n, _) => n in m.stores
    case Restart(n) => n in m.stores
    case Exchange(pair, e) => IsPair(m, pair) && Own(e) && Enabled(LinkOf(m, pair), e)
  }

  // The flight on the pair that an event concerns.
  function FlightOf(m: Mesh, me: MeshEvent): Flight {
    if me.Exchange? then WireOf(m, me.pair).flight else Idle
  }

  ghost predicate NodeStep(s: Store, move: NodeMove, s': Store) {
    match move
    case Stay => s' == s
    case Fresh => s' == EMPTY_STORE
    case Does(op) => StoreStep(s, op, s')
  }

  function NextLink(l: Link, e: Option<Event>): Link {
    if e.Some? && Enabled(l, e.value) then Next(l, e.value) else l
  }

  function NextWire(l: Link, e: Option<Event>): Wire {
    var l' := NextLink(l, e);
    Wire(l'.flight, l'.lost, l'.gone)
  }

  // The stores do what the code does; only the flights and the two bookkeeping sets follow the links.
  ghost predicate MeshStep(m: Mesh, me: MeshEvent, m': Mesh) {
    && MayHappen(m, me)
    && m'.stores.Keys == m.stores.Keys
    && (forall n :: n in m.stores ==> NodeStep(StoreOf(m, n), Move(me, n, FlightOf(m, me)), StoreOf(m', n)))
    && (forall pr :: IsPair(m, pr) ==> WireOf(m', pr) == NextWire(LinkOf(m, pr), LinkEvent(me, pr)))
  }

  // ---- every mesh step is a step of each link, or none ----

  lemma SourceSide(s: Store, e: Event, watcher: string, s': Store, l: Link)
    requires NodeStep(s, SourceMove(e, watcher), s')
    requires Enabled(l, e) && Own(e)
    requires l.current == s.current && l.pending == PendingFor(s, watcher)
    ensures Next(l, e).current == s'.current && Next(l, e).pending == PendingFor(s', watcher)
  {
  }

  lemma WatcherSide(s: Store, e: Event, source: string, s': Store, l: Link)
    requires NodeStep(s, WatcherMove(l.flight, e, source), s')
    requires Enabled(l, e) && Own(e)
    requires l.replica == CopyOf(s, source)
    ensures Next(l, e).replica == CopyOf(s', source)
  {
  }

  // What an exchange leaves alone at a node.
  lemma ExchangeLeaves(s: Store, pair: Pair, e: Event, flight: Flight, n: string, s': Store, p: string)
    requires NodeStep(s, Move(Exchange(pair, e), n, flight), s')
    ensures s'.current == s.current
    ensures !(n == pair.source && p == pair.watcher) ==> PendingFor(s', p) == PendingFor(s, p)
    ensures pair.source != pair.watcher && !(n == pair.watcher && p == pair.source) ==> CopyOf(s', p) == CopyOf(s, p)
  {
  }

  // What a local change or a restart does to the two ends of a pair.
  lemma OthersProject(
      source: Store, watcher: Store, source': Store, watcher': Store, wire: Wire, wire': Wire, pr: Pair, me: MeshEvent)
    requires !me.Exchange? && pr.source != pr.watcher
    requires NodeStep(source, Move(me, pr.source, Idle), source')
    requires NodeStep(watcher, Move(me, pr.watcher, Idle), watcher')
    requires wire' == NextWire(LinkAt(source, watcher, wire, pr), LinkEvent(me, pr))
    ensures LinkAt(source', watcher', wire', pr) == NextLink(LinkAt(source, watcher, wire, pr), LinkEvent(me, pr))
  {
    if me.Local? {
      LocalChangeParts(source, me.change);
      LocalChangeParts(watcher, me.change);
    }
  }

  lemma ExchangeProjects(
      source: Store, watcher: Store, source': Store, watcher': Store, wire: Wire, wire': Wire, pr: Pair,
      pair: Pair, e: Event, flight: Flight)
    requires pr.source != pr.watcher && pair.source != pair.watcher && Own(e)
    requires NodeStep(source, Move(Exchange(pair, e), pr.source, flight), source')
    requires NodeStep(watcher, Move(Exchange(pair, e), pr.watcher, flight), watcher')
    requires pr == pair ==> flight == wire.flight && Enabled(LinkAt(source, watcher, wire, pr), e)
    requires wire' == NextWire(LinkAt(source, watcher, wire, pr), LinkEvent(Exchange(pair, e), pr))
    ensures LinkAt(source', watcher', wire', pr)
            == NextLink(LinkAt(source, watcher, wire, pr), LinkEvent(Exchange(pair, e), pr))
  {
    var l := LinkAt(source, watcher, wire, pr);
    if pr == pair {
      SourceSide(source, e, pr.watcher, source', l);
      WatcherSide(watcher, e, pr.source, watcher', l);
    } else {
      assert !(pr.source == pair.source && pr.watcher == pair.watcher);
      ExchangeLeaves(source, pair, e, flight, pr.source, source', pr.watcher);
      ExchangeLeaves(watcher, pair, e, flight, pr.watcher, watcher', pr.source);
    }
  }

  lemma StepProjects(m: Mesh, me: MeshEvent, m': Mesh, pr: Pair)
    requires MeshStep(m, me, m') && IsPair(m, pr)
    ensures LinkOf(m', pr) == NextLink(LinkOf(m, pr), LinkEvent(me, pr))
    ensures LinkEvent(me, pr).Some? ==> Enabled(LinkOf(m, pr), LinkEvent(me, pr).value)
  {
    var s, w, s', w' := StoreOf(m, pr.source), StoreOf(m, pr.watcher), StoreOf(m', pr.source), StoreOf(m', pr.watcher);
    if me.Exchange? {
      ExchangeProjects(s, w, s', w', WireOf(m, pr), WireOf(m', pr), pr, me.pair, me.event, FlightOf(m, me));
    } else {
      OthersProject(s, w, s', w', WireOf(m, pr), WireOf(m', pr), pr, me);
    }
  }

  // ---- runs ----

  ghost predicate StepAt(states: seq<Mesh>, events: seq<MeshEvent>, i: nat)
    requires |states| == |events| + 1 && i < |events|
  {
    MeshStep(states[i], events[i], states[i + 1])
  }

  ghost predicate MeshRun(states: seq<Mesh>, events: seq<MeshEvent>) {
    |states| == |events| + 1 && forall i :: 0 <= i < |events| ==> StepAt(states, events, i)
  }

  // Nothing registered, nothing copied, nothing under way.
  ghost predicate Start(m: Mesh) {
    && (forall n :: StoreOf(m, n) == EMPTY_STORE)
    && (forall pr :: WireOf(m, pr).flight == Idle)
  }

  ghost predicate LinksInv(m: Mesh) {
    forall pr :: IsPair(m, pr) ==> Inv(LinkOf(m, pr))
  }

  lemma StepLinksInv(m: Mesh, me: MeshEvent, m': Mesh)
    requires LinksInv(m) && MeshStep(m, me, m')
    ensures LinksInv(m')
  {
    forall pr | IsPair(m', pr) ensures Inv(LinkOf(m', pr)) {
      assert IsPair(m, pr);
      StepProjects(m, me, m', pr);
      LinkKeeps(LinkOf(m, pr), LinkEvent(me, pr));
    }
  }

  lemma LinkKeeps(l: Link, e: Option<Event>)
    requires Inv(l)
    ensures Inv(NextLink(l, e))
  {
    if e.Some? && Enabled(l, e.value) {
      StepKeeps(l, e.value);
    }
  }

  lemma StartLinksInv(m: Mesh)
    requires Start(m)
    ensures LinksInv(m)
  {
    forall pr | IsPair(m, pr) ensures Inv(LinkOf(m, pr)) {
      InitialInv(LinkOf(m, pr));
    }
  }

  // In every run of the mesh every link keeps the invariant of the two-node protocol.
  lemma {:induction false} RunLinksInv(states: seq<Mesh>, events: seq<MeshEvent>, i: nat)
    requires MeshRun(states, events) && Start(states[0]) && i < |states|
    ensures LinksInv(states[i])
    decreases i
  {
    if i == 0 {
      StartLinksInv(states[0]);
    } else {
      RunLinksInv(states, events, i - 1);
      assert StepAt(states, events, i - 1);
      StepLinksInv(states[i - 1], events[i - 1], states[i]);
    }
  }
}
