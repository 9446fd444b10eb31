// When every (service, node) key is registered with one node of the mesh only, each view is at all times a
// true merge, and after the nodes have caught up with each other all views are the union of all registrations.
module MeshConvergence {
  import opened Options
  import opened MemStore
  import opened Deltas
  import opened PeerLink
  import opened PeerLinkTheorems
  import opened Merge
  import opened Mesh

  // ---- ownership ----

  ghost predicate OwnedBy(m: Services, owner: Key -> string, n: string) {
    forall k :: Lookup(m, k).Some? ==> owner(k) == n
  }

  ghost predicate OwnedKeys(keys: set<Key>, owner: Key -> string, n: string) {
    forall k :: k in keys ==> owner(k) == n
  }

  // Everything a link carries belongs to its source.
  ghost predicate LinkOwned(l: Link, owner: Key -> string, n: string) {
    && OwnedBy(l.current, owner, n)
    && OwnedKeys(Waiting(l) + Arriving(l), owner, n)
    && (l.replica.Some? ==> OwnedBy(l.replica.value, owner, n))
    && (l.flight.FullResponse? ==> OwnedBy(l.flight.snapshot, owner, n))
  }

  ghost predicate Respects(me: MeshEvent, owner: Key -> string) {
    me.Local? ==> owner(me.change.key) == me.node
  }

  lemma LinkOwnedStep(l: Link, e: Event, owner: Key -> string, n: string)
    requires LinkOwned(l, owner, n) && Enabled(l, e)
    requires e.Change? ==> owner(e.change.key) == n
    ensures LinkOwned(Next(l, e), owner, n)
  {
    assert PendingKeys(NOTHING_PENDING) == {};
    if e.Change? {
      forall k ensures Lookup(Changed(l.current, e.change), k).Some? ==> owner(k) == n {
        LookupChanged(l.current, e.change, k);
      }
      if l.pending.Some? {
        RecordedKeys(l.pending.value, e.change);
      }
    }
    if e.Deliver? && l.flight.DeltaResponse? && l.replica.Some? {
      forall k ensures Lookup(Synced(l.replica.value, l.flight.delta), k).Some? ==> owner(k) == n {
        LookupSynced(l.replica.value, l.flight.delta, k);
      }
    }
  }

  // ---- the invariant of the mesh ----

  // A node copies other nodes of the mesh only.
  ghost predicate Peers(m: Mesh) {
    forall n :: n in m.stores ==> StoreOf(m, n).dataFrom.Keys <= m.stores.Keys - {n}
  }

  ghost predicate LinksOwned(m: Mesh, owner: Key -> string) {
    forall pr :: IsPair(m, pr) ==> LinkOwned(LinkOf(m, pr), owner, pr.source)
  }

  ghost predicate Views(m: Mesh) {
    forall n :: n in m.stores ==> Rebuilt(StoreOf(m, n)) && NoEmptyStore(StoreOf(m, n))
  }

  ghost predicate MeshInv(m: Mesh, owner: Key -> string) {
    LinksInv(m) && Peers(m) && LinksOwned(m, owner) && Views(m)
  }

  lemma NodeStepPeers(s: Store, me: MeshEvent, n: string, flight: Flight, s': Store)
    requires NodeStep(s, Move(me, n, flight), s')
    ensures s'.dataFrom.Keys
            <= s.dataFrom.Keys + if me.Exchange? && me.pair.watcher == n != me.pair.source then {me.pair.source} else {}
  {
    if me.Local? {
      LocalChangeParts(s, me.change);
    }
  }

  lemma StepPeers(m: Mesh, me: MeshEvent, m': Mesh)
    requires Peers(m) && MeshStep(m, me, m')
    ensures Peers(m')
  {
    forall n | n in m'.stores ensures StoreOf(m', n).dataFrom.Keys <= m'.stores.Keys - {n} {
      NodeStepPeers(StoreOf(m, n), me, n, FlightOf(m, me), StoreOf(m', n));
    }
  }

  lemma StepLinksOwned(m: Mesh, me: MeshEvent, m': Mesh, owner: Key -> string)
    requires LinksOwned(m, owner) && MeshStep(m, me, m') && Respects(me, owner)
    ensures LinksOwned(m', owner)
  {
    forall pr | IsPair(m', pr) ensures LinkOwned(LinkOf(m', pr), owner, pr.source) {
      assert IsPair(m, pr);
      StepProjects(m, me, m', pr);
      var e := LinkEvent(me, pr);
      if e.Some? {
        LinkOwnedStep(LinkOf(m, pr), e.value, owner, pr.source);
      }
    }
  }

  lemma StoreView(s: Store, move: NodeMove, s': Store)
    requires Rebuilt(s) && NoEmptyStore(s) && NodeStep(s, move, s')
    requires move.Does? ==> Separate(s, move.op)
    ensures Rebuilt(s') && NoEmptyStore(s')
  {
    if move.Does? {
      StoreStepRebuilt(s, move.op, s');
    } else if move.Fresh? {
      EmptyStoreRebuilt();
    }
  }

  // A key that a node owns is in none of its copies.
  lemma OwnKeyNotCopied(m: Mesh, owner: Key -> string, k: Key, p: string)
    requires Peers(m) && LinksOwned(m, owner) && owner(k) in m.stores
    ensures !Holds(StoreOf(m, owner(k)).dataFrom, p, k)
  {
    var n := owner(k);
    if p in StoreOf(m, n).dataFrom {
      assert IsPair(m, Pair(p, n));
      assert LinkOwned(LinkOf(m, Pair(p, n)), owner, p);
    }
  }

  lemma StepSeparate(m: Mesh, me: MeshEvent, owner: Key -> string, n: string)
    requires MeshInv(m, owner) && MayHappen(m, me) && Respects(me, owner) && n in m.stores
    ensures var move := Move(me, n, FlightOf(m, me));
            move.Does? ==> Separate(StoreOf(m, n), move.op)
  {
    if me.Local? {
      forall p ensures !Holds(StoreOf(m, me.node).dataFrom, p, me.change.key) {
        OwnKeyNotCopied(m, owner, me.change.key, p);
      }
    } else if me.Exchange? {
      assert Inv(LinkOf(m, me.pair));
      ExchangeSeparate(StoreOf(m, n), me.pair, me.event, n, LinkOf(m, me.pair));
    }
  }

  lemma ExchangeSeparate(s: Store, pair: Pair, e: Event, n: string, l: Link)
    requires Inv(l)
    ensures var move := Move(Exchange(pair, e), n, l.flight);
            move.Does? ==> Separate(s, move.op)
  {
  }

  lemma StepViews(m: Mesh, me: MeshEvent, m': Mesh, owner: Key -> string)
    requires MeshInv(m, owner) && MeshStep(m, me, m') && Respects(me, owner)
    ensures Views(m')
  {
    forall n | n in m'.stores ensures Rebuilt(StoreOf(m', n)) && NoEmptyStore(StoreOf(m', n)) {
      StepSeparate(m, me, owner, n);
      StoreView(StoreOf(m, n), Move(me, n, FlightOf(m, me)), StoreOf(m', n));
    }
  }

  lemma StepMeshInv(m: Mesh, me: MeshEvent, m': Mesh, owner: Key -> string)
    requires MeshInv(m, owner) && MeshStep(m, me, m') && Respects(me, owner)
    ensures MeshInv(m', owner)
  {
    StepLinksInv(m, me, m');
    StepPeers(m, me, m');
    StepLinksOwned(m, me, m', owner);
    StepViews(m, me, m', owner);
  }

  lemma StartMeshInv(m: Mesh, owner: Key -> string)
    requires Start(m)
    ensures MeshInv(m, owner)
  {
    StartLinksInv(m);
    EmptyStoreRebuilt();
  }

  ghost predicate OwnerRun(states: seq<Mesh>, events: seq<MeshEvent>, owner: Key -> string) {
    MeshRun(states, events) && Start(states[0]) && forall i :: 0 <= i < |events| ==> Respects(events[i], owner)
  }

  // In every run with one owner for each key, every node's view is always the merge of what it has.
  lemma {:induction false} RunMeshInv(states: seq<Mesh>, events: seq<MeshEvent>, owner: Key -> string, i: nat)
    requires OwnerRun(states, events, owner) && i < |states|
    ensures MeshInv(states[i], owner)
    decreases i
  {
    if i == 0 {
      StartMeshInv(states[0], owner);
    } else {
      RunMeshInv(states, events, owner, i - 1);
      assert StepAt(states, events, i - 1);
      StepMeshInv(states[i - 1], events[i - 1], states[i], owner);
    }
  }

  // ---- views of settled copies ----

  ghost predicate Registered(m: Mesh, k: Key, addr: string) {
    exists s :: s in m.stores && Lookup(StoreOf(m, s).current, k) == Some(addr)
  }

  // All views are the union of all registrations.
  ghost predicate Converged(m: Mesh) {
    && (forall n, n' :: n in m.stores && n' in m.stores ==> StoreOf(m, n).services == StoreOf(m, n').services)
    && (forall n, k, addr :: n in m.stores ==>
         (Lookup(StoreOf(m, n).services, k) == Some(addr) <==> Registered(m, k, addr)))
  }

  ghost predicate CopiesCurrent(m: Mesh) {
    forall pr :: IsPair(m, pr) ==> LinkOf(m, pr).replica == Some(LinkOf(m, pr).current)
  }

  ghost predicate SourcesAgree(m: Mesh) {
    forall s, s', k :: s in m.stores && s' in m.stores
      && Lookup(StoreOf(m, s).current, k).Some? && Lookup(StoreOf(m, s').current, k).Some?
      ==> Lookup(StoreOf(m, s).current, k) == Lookup(StoreOf(m, s').current, k)
  }

  lemma ViewShows(m: Mesh, n: string, k: Key)
    requires Peers(m) && CopiesCurrent(m) && n in m.stores && Rebuilt(StoreOf(m, n))
    ensures var v := Lookup(StoreOf(m, n).services, k);
            (v.Some? ==> Registered(m, k, v.value))
            && (v.None? ==> forall s :: s in m.stores ==> Lookup(StoreOf(m, s).current, k).None?)
  {
    var s := StoreOf(m, n);
    var order :| IsOrder(order, s.dataFrom.Keys) && s.services == Build(s.current, s.dataFrom, order);
    BuildLookup(s.current, s.dataFrom, order, k);
    forall p | p in m.stores && p != n ensures p in s.dataFrom && s.dataFrom[p] == StoreOf(m, p).current {
      assert IsPair(m, Pair(p, n));
      assert LinkOf(m, Pair(p, n)).replica == Some(LinkOf(m, Pair(p, n)).current);
    }
  }

  // Up-to-date copies of sources that agree make all views the same union.
  lemma CurrentCopiesConverge(m: Mesh)
    requires Peers(m) && CopiesCurrent(m) && SourcesAgree(m) && Views(m)
    ensures Converged(m)
  {
    forall n, k, addr | n in m.stores
      ensures Lookup(StoreOf(m, n).services, k) == Some(addr) <==> Registered(m, k, addr)
    {
      ViewShows(m, n, k);
    }
    forall n, n' | n in m.stores && n' in m.stores ensures StoreOf(m, n).services == StoreOf(m, n').services {
      forall k ensures Lookup(StoreOf(m, n).services, k) == Lookup(StoreOf(m, n').services, k) {
        ViewShows(m, n, k);
        ViewShows(m, n', k);
      }
      SameLookups(StoreOf(m, n).services, StoreOf(m, n').services);
    }
  }

  // ---- catching up ----

  ghost predicate UndisturbedAt(m: Mesh, me: MeshEvent, pr: Pair) {
    var e := LinkEvent(me, pr);
    e.Some? ==> Quiet(e.value) && !(e.value.Lose? && WireOf(m, pr).flight.FullResponse?)
  }

  // The peer takes a full response, or a delta with nothing lost before it, that was answered at step j and
  // delivered at step d; after step j the source changes nothing and the peer keeps its copy.
  ghost predicate CatchesUp(states: seq<Mesh>, events: seq<MeshEvent>, pr: Pair, j: nat, d: nat)
    requires |states| == |events| + 1
  {
    && j < d < |events|
    && (events[j] == Exchange(pr, AnswerFull)
        || (events[j] == Exchange(pr, AnswerDelta) && WireOf(states[j], pr).lost == {}))
    && events[d] == Exchange(pr, Deliver)
    && (forall t :: j < t < d ==> events[t] != Exchange(pr, Lose))
    && (forall t :: j < t < |events| ==> UndisturbedAt(states[t], events[t], pr))
  }

  lemma UndisturbedStep(l: Link, e: Option<Event>, delivers: bool)
    requires Inv(l) && (e.Some? ==> Enabled(l, e.value) && Quiet(e.value))
    requires e.Some? ==> !(e.value.Lose? && l.flight.FullResponse?)
    requires Settled(l) || (Settling(l) && e != Some(Lose))
    requires delivers ==> e == Some(Deliver)
    ensures Settled(NextLink(l, e)) || (Settling(NextLink(l, e)) && !delivers && !Settled(l))
  {
    if e.Some? {
      if Settled(l) {
        SettledStep(l, e.value);
      } else {
        SettlingStep(l, e.value);
      }
    }
  }

  // The link of a pair is settled, or still on its way there.
  ghost predicate Nearing(m: Mesh, pr: Pair, arrived: bool) {
    Settled(LinkOf(m, pr)) || (Settling(LinkOf(m, pr)) && !arrived)
  }

  lemma UndisturbedMeshStep(m: Mesh, me: MeshEvent, m': Mesh, pr: Pair, arrived: bool, delivers: bool)
    requires MeshStep(m, me, m') && IsPair(m, pr) && LinksInv(m) && UndisturbedAt(m, me, pr)
    requires Nearing(m, pr, arrived) && (!arrived ==> me != Exchange(pr, Lose))
    requires delivers ==> me == Exchange(pr, Deliver)
    ensures Nearing(m', pr, arrived || delivers)
  {
    StepProjects(m, me, m', pr);
    LinkInvAt(m, pr);
    UndisturbedStep(LinkOf(m, pr), LinkEvent(me, pr), delivers);
  }

  lemma AnswerMeshStep(m: Mesh, me: MeshEvent, m': Mesh, pr: Pair)
    requires MeshStep(m, me, m') && IsPair(m, pr) && LinksInv(m)
    requires me == Exchange(pr, AnswerFull) || (me == Exchange(pr, AnswerDelta) && WireOf(m, pr).lost == {})
    ensures Nearing(m', pr, false)
  {
    StepProjects(m, me, m', pr);
    LinkInvAt(m, pr);
    AnswersSettle(LinkOf(m, pr));
  }

  lemma NearingStep(states: seq<Mesh>, events: seq<MeshEvent>, pr: Pair, j: nat, d: nat, t: nat)
    requires MeshRun(states, events) && CatchesUp(states, events, pr, j, d) && j <= t < |events|
    requires IsPair(states[t], pr) && LinksInv(states[t])
    requires j < t ==> Nearing(states[t], pr, t > d)
    ensures Nearing(states[t + 1], pr, t + 1 > d)
  {
    assert StepAt(states, events, t);
    if t == j {
      AnswerMeshStep(states[t], events[t], states[t + 1], pr);
    } else {
      assert UndisturbedAt(states[t], events[t], pr);
      UndisturbedMeshStep(states[t], events[t], states[t + 1], pr, t > d, t == d);
    }
  }

  // From its answer on the link is settling or settled, and from the delivery on it is settled.
  lemma {:induction false} SettledAt(
      states: seq<Mesh>, events: seq<MeshEvent>, pr: Pair, j: nat, d: nat, t: nat)
    requires MeshRun(states, events) && Start(states[0]) && IsPair(states[0], pr)
    requires CatchesUp(states, events, pr, j, d) && j < t < |states|
    ensures Nearing(states[t], pr, t > d)
    decreases t
  {
    if t - 1 > j {
      SettledAt(states, events, pr, j, d, t - 1);
    }
    SamePairs(states, events, t - 1);
    RunLinksInv(states, events, t - 1);
    NearingStep(states, events, pr, j, d, t - 1);
  }

  lemma LinkInvAt(m: Mesh, pr: Pair)
    requires LinksInv(m) && IsPair(m, pr)
    ensures Inv(LinkOf(m, pr))
  {
  }

  lemma {:induction false} SamePairs(states: seq<Mesh>, events: seq<MeshEvent>, t: nat)
    requires MeshRun(states, events) && t < |states|
    ensures states[t].stores.Keys == states[0].stores.Keys
    decreases t
  {
    if t > 0 {
      SamePairs(states, events, t - 1);
      assert StepAt(states, events, t - 1);
    }
  }

  lemma OwnerOf(m: Mesh, owner: Key -> string, s: string, other: string, k: Key)
    requires LinksOwned(m, owner) && s in m.stores && other in m.stores
    ensures s != other && Lookup(StoreOf(m, s).current, k).Some? ==> owner(k) == s
  {
    if s != other {
      assert IsPair(m, Pair(s, other));
      assert LinkOwned(LinkOf(m, Pair(s, other)), owner, s);
    }
  }

  lemma OwnersAgree(m: Mesh, owner: Key -> string)
    requires LinksOwned(m, owner)
    ensures SourcesAgree(m)
  {
    forall s, s', k | s in m.stores && s' in m.stores
      && Lookup(StoreOf(m, s).current, k).Some? && Lookup(StoreOf(m, s').current, k).Some?
      ensures Lookup(StoreOf(m, s).current, k) == Lookup(StoreOf(m, s').current, k)
    {
      OwnerOf(m, owner, s, s', k);
      OwnerOf(m, owner, s', s, k);
    }
  }

  // A run with one owner for each key, in which every node catches up with every other one, ends with all
  // views equal to the union of all registrations.
  lemma MeshConverges(states: seq<Mesh>, events: seq<MeshEvent>, owner: Key -> string)
    requires OwnerRun(states, events, owner)
    requires forall pr :: IsPair(states[0], pr) ==> exists j: nat, d: nat :: CatchesUp(states, events, pr, j, d)
    ensures Converged(states[|events|])
  {
    var m := states[|events|];
    RunMeshInv(states, events, owner, |events|);
    OwnersAgree(m, owner);
    forall pr | IsPair(m, pr) ensures LinkOf(m, pr).replica == Some(LinkOf(m, pr).current) {
      SamePairs(states, events, |events|);
      assert IsPair(states[0], pr);
      var j: nat, d: nat :| CatchesUp(states, events, pr, j, d);
      SettledAt(states, events, pr, j, d, |events|);
    }
    CurrentCopiesConverge(m);
  }
}
