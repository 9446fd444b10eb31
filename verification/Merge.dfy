// The merged view of a node: what a rebuild shows, when its order matters, and when the view that
// publishes and deletes update in place is the one that a rebuild would give.
module Merge {
  import opened Options
  import opened Folds
  import opened MemStore
  import opened Deltas

  ghost predicate Holds(dataFrom: map<string, Services>, p: string, k: Key) {
    p in dataFrom && Lookup(dataFrom[p], k).Some?
  }

  // The value of the last peer in the order that has the key.
  function LastHeld(dataFrom: map<string, Services>, order: seq<string>, k: Key): (r: Option<string>)
    ensures r.Some? ==> exists p :: p in order && Holds(dataFrom, p, k) && Lookup(dataFrom[p], k) == r
    ensures r.None? ==> forall p :: p in order ==> !Holds(dataFrom, p, k)
    decreases |order|
  {
    if order == [] then None
    else
      var before, p := order[..|order| - 1], order[|order| - 1];
      assert order == before + [p];
      if p in dataFrom && Lookup(dataFrom[p], k).Some? then Lookup(dataFrom[p], k)
      else LastHeld(dataFrom, before, k)
  }

  lemma LookupOverlay(dst: Services, src: Services, k: Key)
    ensures Lookup(Overlay(dst, src), k) == if Lookup(src, k).Some? then Lookup(src, k) else Lookup(dst, k)
  {
  }

  // A rebuild shows for each key the value of the last peer that has it, and the own one if none has it.
  lemma {:induction false} BuildLookup(current: Services, dataFrom: map<string, Services>, order: seq<string>, k: Key)
    requires forall p :: p in order ==> p in dataFrom
    ensures Lookup(Build(current, dataFrom, order), k)
            == if LastHeld(dataFrom, order, k).Some? then LastHeld(dataFrom, order, k) else Lookup(current, k)
    decreases |order|
  {
    if order == [] {
      LookupOverlay(map[], current, k);
    } else {
      var before, p := order[..|order| - 1], order[|order| - 1];
      assert before + [p] == order;
      BuildLookup(current, dataFrom, before, k);
      BuildSnoc(current, dataFrom, before, p);
      LookupOverlay(Build(current, dataFrom, before), dataFrom[p], k);
    }
  }

  lemma {:induction false} BuildServices(
      current: Services, dataFrom: map<string, Services>, order: seq<string>, s: string)
    requires forall p :: p in order ==> p in dataFrom
    ensures s in Build(current, dataFrom, order) <==> s in current || exists p :: p in order && s in dataFrom[p]
    decreases |order|
  {
    if order != [] {
      var before, p := order[..|order| - 1], order[|order| - 1];
      assert before + [p] == order;
      BuildServices(current, dataFrom, before, s);
      BuildSnoc(current, dataFrom, before, p);
      assert forall q :: q in order <==> q in before || q == p;
    }
  }

  ghost predicate NoEmptyCopies(dataFrom: map<string, Services>) {
    forall p :: p in dataFrom ==> NoEmpty(dataFrom[p])
  }

  lemma {:induction false} BuildNoEmpty(current: Services, dataFrom: map<string, Services>, order: seq<string>)
    requires forall p :: p in order ==> p in dataFrom
    requires NoEmpty(current) && NoEmptyCopies(dataFrom)
    ensures NoEmpty(Build(current, dataFrom, order))
    decreases |order|
  {
    if order == [] {
      OverlayNoEmpty(map[], current);
    } else {
      var before, p := order[..|order| - 1], order[|order| - 1];
      assert before + [p] == order;
      BuildNoEmpty(current, dataFrom, before);
      BuildSnoc(current, dataFrom, before, p);
      OverlayNoEmpty(Build(current, dataFrom, before), dataFrom[p]);
    }
  }

  lemma OverlayNoEmpty(dst: Services, src: Services)
    requires NoEmpty(dst) && NoEmpty(src)
    ensures NoEmpty(Overlay(dst, src))
  {
    forall s | s in Overlay(dst, src) ensures Overlay(dst, src)[s] != map[] {
      var n :| n in Row(dst, s) || n in Row(src, s);
      assert n in Overlay(dst, src)[s];
    }
  }

  // ---- when the order of a rebuild matters ----

  ghost predicate AgreeOnShared(dataFrom: map<string, Services>) {
    forall p, q, k :: Holds(dataFrom, p, k) && Holds(dataFrom, q, k)
      ==> Lookup(dataFrom[p], k) == Lookup(dataFrom[q], k)
  }

  ghost predicate OrderFree(current: Services, dataFrom: map<string, Services>) {
    forall o, o' :: IsOrder(o, dataFrom.Keys) && IsOrder(o', dataFrom.Keys)
      ==> Build(current, dataFrom, o) == Build(current, dataFrom, o')
  }

  lemma SameServices(a: Services, b: Services)
    requires a.Keys == b.Keys && forall k :: Lookup(a, k) == Lookup(b, k)
    ensures a == b
  {
    forall s | s in a ensures a[s] == b[s] {
      forall n ensures (n in a[s] <==> n in b[s]) && (n in a[s] ==> a[s][n] == b[s][n]) {
        assert Lookup(a, Key(s, n)) == Lookup(b, Key(s, n));
      }
    }
  }

  lemma AgreeingOrders(current: Services, dataFrom: map<string, Services>, o: seq<string>, o': seq<string>)
    requires AgreeOnShared(dataFrom) && IsOrder(o, dataFrom.Keys) && IsOrder(o', dataFrom.Keys)
    ensures Build(current, dataFrom, o) == Build(current, dataFrom, o')
  {
    var a, b := Build(current, dataFrom, o), Build(current, dataFrom, o');
    forall s ensures s in a <==> s in b {
      BuildServices(current, dataFrom, o, s);
      BuildServices(current, dataFrom, o', s);
    }
    assert a.Keys == b.Keys;
    forall k ensures Lookup(a, k) == Lookup(b, k) {
      BuildLookup(current, dataFrom, o, k);
      BuildLookup(current, dataFrom, o', k);
    }
    SameServices(a, b);
  }

  lemma {:induction false} SomeOrder(peers: set<string>) returns (order: seq<string>)
    ensures IsOrder(order, peers)
    decreases peers
  {
    if peers == {} {
      order := [];
    } else {
      var p :| p in peers;
      var before := SomeOrder(peers - {p});
      order := before + [p];
    }
  }

  // Some order ends with any given peer, whose values then win.
  lemma OrderEndingWith(current: Services, dataFrom: map<string, Services>, p: string, k: Key)
      returns (order: seq<string>)
    requires Holds(dataFrom, p, k)
    ensures IsOrder(order, dataFrom.Keys)
    ensures Lookup(Build(current, dataFrom, order), k) == Lookup(dataFrom[p], k)
  {
    var before := SomeOrder(dataFrom.Keys - {p});
    order := before + [p];
    BuildLookup(current, dataFrom, order, k);
  }

  // A rebuild gives the same view for every order of the peers exactly if their copies agree on shared keys.
  lemma RebuildOrder(current: Services, dataFrom: map<string, Services>)
    ensures OrderFree(current, dataFrom) <==> AgreeOnShared(dataFrom)
  {
    if AgreeOnShared(dataFrom) {
      forall o, o' | IsOrder(o, dataFrom.Keys) && IsOrder(o', dataFrom.Keys)
        ensures Build(current, dataFrom, o) == Build(current, dataFrom, o')
      {
        AgreeingOrders(current, dataFrom, o, o');
      }
    }
    if OrderFree(current, dataFrom) {
      forall p, q, k | Holds(dataFrom, p, k) && Holds(dataFrom, q, k)
        ensures Lookup(dataFrom[p], k) == Lookup(dataFrom[q], k)
      {
        var o := OrderEndingWith(current, dataFrom, p, k);
        var o' := OrderEndingWith(current, dataFrom, q, k);
      }
    }
  }

  // ---- the view in place and the view rebuilt ----

  // The view shows a peer's value for every key that some peer has, and else the own one.
  ghost predicate MergedAt(s: Store, k: Key) {
    if exists p :: Holds(s.dataFrom, p, k)
    then exists p :: Holds(s.dataFrom, p, k) && Lookup(s.services, k) == Lookup(s.dataFrom[p], k)
    else Lookup(s.services, k) == Lookup(s.current, k)
  }

  function LocalChange(s: Store, c: Change): Store {
    match c
    case Publish(k, addr) => Published(s, k, addr)
    case Delete(k, addr) => Deleted(s, k, addr)
  }

  lemma LocalChangeParts(s: Store, c: Change)
    ensures var s' := LocalChange(s, c);
            s'.services == Changed(s.services, c) && s'.current == Changed(s.current, c)
            && s'.dataFrom == s.dataFrom && s'.dataTo.Keys == s.dataTo.Keys
            && forall p :: p in s.dataTo ==> s'.dataTo[p] == Recorded(s.dataTo[p], c)
  {
  }

  lemma RebuiltMerged(s: Store, k: Key)
    requires Rebuilt(s)
    ensures MergedAt(s, k)
  {
    var order :| IsOrder(order, s.dataFrom.Keys) && s.services == Build(s.current, s.dataFrom, order);
    BuildLookup(s.current, s.dataFrom, order, k);
  }

  // A local change shows through exactly if no peer's copy has the key, or one has it with the new address;
  // what is shown for other keys is as right as before.
  lemma LocalChangeMerged(s: Store, c: Change, k: Key)
    ensures var s' := LocalChange(s, c);
            if k != c.key then MergedAt(s', k) <==> MergedAt(s, k)
            else MergedAt(s', k) <==>
                   (forall p :: !Holds(s.dataFrom, p, k))
                   || (c.Publish? && exists p :: Holds(s.dataFrom, p, k) && Lookup(s.dataFrom[p], k) == Some(c.addr))
  {
    LookupChanged(s.services, c, k);
    LookupChanged(s.current, c, k);
    LocalChangeParts(s, c);
  }

  ghost predicate NoEmptyStore(s: Store) {
    NoEmpty(s.current) && NoEmpty(s.services) && NoEmptyCopies(s.dataFrom)
  }

  // If no copy has the key, then changing the view in place is the same as rebuilding it.
  lemma LocalChangeRebuilt(s: Store, c: Change)
    requires Rebuilt(s) && NoEmptyStore(s)
    requires forall p :: !Holds(s.dataFrom, p, c.key)
    ensures Rebuilt(LocalChange(s, c)) && NoEmptyStore(LocalChange(s, c))
  {
    var order :| IsOrder(order, s.dataFrom.Keys) && s.services == Build(s.current, s.dataFrom, order);
    var s' := LocalChange(s, c);
    LocalChangeParts(s, c);
    LookupChanged(s.current, c, c.key);
    LookupChanged(s.services, c, c.key);
    var rebuilt := Build(s'.current, s.dataFrom, order);
    BuildNoEmpty(s'.current, s.dataFrom, order);
    forall k ensures Lookup(rebuilt, k) == Lookup(s'.services, k) {
      BuildLookup(s.current, s.dataFrom, order, k);
      BuildLookup(s'.current, s.dataFrom, order, k);
      LookupChanged(s.current, c, k);
      LookupChanged(s.services, c, k);
    }
    SameLookups(rebuilt, s'.services);
  }

  lemma RebuildNoEmpty(s: Store)
    requires Rebuilt(s) && NoEmpty(s.current) && NoEmptyCopies(s.dataFrom)
    ensures NoEmptyStore(s)
  {
    var order :| IsOrder(order, s.dataFrom.Keys) && s.services == Build(s.current, s.dataFrom, order);
    BuildNoEmpty(s.current, s.dataFrom, order);
  }

  // ---- every run of one node ----

  datatype Operation =
    | Local(change: Change)
    | Full(node: string, data: Services)
    | Sync(node: string, delta: Pending)
    | Abandon(node: string)
    | Watch(node: string)
    | Drain(node: string)
    | Unwatch(node: string)

  ghost predicate StoreStep(s: Store, op: Operation, s': Store) {
    match op
    case Local(c) => s' == LocalChange(s, c)
    case Full(node, data) => FullTaken(s, s', node, data)
    case Sync(node, delta) => if node in s.dataFrom then DeltaTaken(s, s', node, delta) else s' == s
    case Abandon(node) => Abandoned(s, s', node)
    case Watch(node) => s' == Watched(s, node)
    case Drain(node) => s' == Drained(s, node)
    case Unwatch(node) => s' == Unwatched(s, node)
  }

  // No key is changed locally while a peer's copy has it, and peers send no empty services.
  ghost predicate Separate(s: Store, op: Operation) {
    match op
    case Local(c) => forall p :: !Holds(s.dataFrom, p, c.key)
    case Full(_, data) => NoEmpty(data)
    case _ => true
  }

  ghost predicate StoreRun(states: seq<Store>, ops: seq<Operation>) {
    |states| == |ops| + 1 && forall i :: 0 <= i < |ops| ==> StoreStep(states[i], ops[i], states[i + 1])
  }

  lemma StoreStepRebuilt(s: Store, op: Operation, s': Store)
    requires Rebuilt(s) && NoEmptyStore(s) && StoreStep(s, op, s') && Separate(s, op)
    ensures Rebuilt(s') && NoEmptyStore(s')
  {
    match op
    case Local(c) => LocalChangeRebuilt(s, c);
    case Full(node, data) => CopyTaken(s, s', node, data);
    case Sync(node, delta) =>
      if node in s.dataFrom {
        SyncedNoEmpty(s.dataFrom[node], delta);
        CopyTaken(s, s', node, Synced(s.dataFrom[node], delta));
      }
    case Abandon(node) => CopyDropped(s, s', node);
    case _ => SameView(s, s');
  }

  lemma CopyTaken(s: Store, s': Store, node: string, copy: Services)
    requires NoEmptyStore(s) && NoEmpty(copy)
    requires s' == s.(services := s'.services, dataFrom := s.dataFrom[node := copy]) && Rebuilt(s')
    ensures NoEmptyStore(s')
  {
    RebuildNoEmpty(s');
  }

  lemma CopyDropped(s: Store, s': Store, node: string)
    requires Rebuilt(s) && NoEmptyStore(s) && Abandoned(s, s', node)
    ensures Rebuilt(s') && NoEmptyStore(s')
  {
    if node in s.dataFrom {
      RebuildNoEmpty(s');
    }
  }

  lemma SameView(s: Store, s': Store)
    requires Rebuilt(s) && s' == s.(dataTo := s'.dataTo)
    ensures Rebuilt(s')
  {
    var order :| IsOrder(order, s.dataFrom.Keys) && s.services == Build(s.current, s.dataFrom, order);
    assert IsOrder(order, s'.dataFrom.Keys) && s'.services == Build(s'.current, s'.dataFrom, order);
  }

  lemma EmptyStoreRebuilt()
    ensures Rebuilt(Store(map[], map[], map[], map[])) && NoEmptyStore(Store(map[], map[], map[], map[]))
  {
    var s := Store(map[], map[], map[], map[]);
    assert IsOrder([], s.dataFrom.Keys) && s.services == Build(s.current, s.dataFrom, []);
  }

  // After every operation of every such run the view is the merge of the own registrations and all copies.
  lemma {:induction false} RunRebuilt(states: seq<Store>, ops: seq<Operation>)
    requires StoreRun(states, ops) && states[0] == Store(map[], map[], map[], map[])
    requires forall i :: 0 <= i < |ops| ==> Separate(states[i], ops[i])
    ensures Rebuilt(states[|ops|]) && NoEmptyStore(states[|ops|])
    ensures forall k :: MergedAt(states[|ops|], k)
    decreases |ops|
  {
    if ops == [] {
      EmptyStoreRebuilt();
    } else {
      var n := |ops| - 1;
      RunRebuilt(states[..n + 1], ops[..n]);
      StoreStepRebuilt(states[n], ops[n], states[n + 1]);
    }
    forall k ensures MergedAt(states[|ops|], k) {
      RebuiltMerged(states[|ops|], k);
    }
  }
}
