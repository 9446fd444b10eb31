// The registry of services on one node: its own registrations, copies of its peers', the deltas
// that its peers have not fetched yet, and the merged view.
module MemStore {
  import opened Options
  import opened Folds

  // Service name, then node id, to address.
  type Services = map<string, map<string, string>>

  datatype Key = Key(service: string, node: string)

  // One element of an Add or Del list.
  datatype Item = Item(key: Key, addr: string)

  datatype Pending = Pending(add: seq<Item>, del: seq<Item>)

  const NOTHING_PENDING := Pending([], [])

  datatype Store = Store(
    services: Services, current: Services, dataFrom: map<string, Services>, dataTo: map<string, Pending>)

  // ---- nested maps ----

  function Lookup(m: Services, k: Key): Option<string> {
    if k.service in m && k.node in m[k.service] then Some(m[k.service][k.node]) else None
  }

  function PutAt(m: Services, k: Key, addr: string): Services {
    m[k.service := Row(m, k.service)[k.node := addr]]
  }

  // An inner map that becomes empty goes away.
  function RemoveAt(m: Services, k: Key): Services {
    if k.service !in m then m
    else
      var nodes := m[k.service] - {k.node};
      if nodes == map[] then m - {k.service} else m[k.service := nodes]
  }

  ghost predicate NoEmpty(m: Services) {
    forall s :: s in m ==> m[s] != map[]
  }

  lemma LookupPut(m: Services, k: Key, addr: string, q: Key)
    ensures Lookup(PutAt(m, k, addr), q) == if q == k then Some(addr) else Lookup(m, q)
  {
  }

  lemma LookupRemove(m: Services, k: Key, q: Key)
    ensures Lookup(RemoveAt(m, k), q) == if q == k then None else Lookup(m, q)
  {
    if k.service in m && q.service == k.service && q != k && q.node in m[k.service] {
      assert q.node in m[k.service] - {k.node};
    }
  }

  lemma PutRemoveNoEmpty(m: Services, k: Key, addr: string)
    requires NoEmpty(m)
    ensures NoEmpty(PutAt(m, k, addr)) && NoEmpty(RemoveAt(m, k))
  {
    assert k.node in PutAt(m, k, addr)[k.service];
  }

  // Without empty inner maps, a registry is what its lookups say.
  lemma SameLookups(a: Services, b: Services)
    requires NoEmpty(a) && NoEmpty(b)
    requires forall k :: Lookup(a, k) == Lookup(b, k)
    ensures a == b
  {
    SubLookups(a, b);
    SubLookups(b, a);
    forall s | s in a ensures a[s] == b[s] {
      forall n ensures (n in a[s] <==> n in b[s]) && (n in a[s] ==> a[s][n] == b[s][n]) {
        assert Lookup(a, Key(s, n)) == Lookup(b, Key(s, n));
      }
    }
  }

  lemma SubLookups(a: Services, b: Services)
    requires NoEmpty(a) && forall k :: Lookup(a, k) == Lookup(b, k)
    ensures forall s :: s in a ==> s in b
  {
    forall s | s in a ensures s in b {
      var n :| n in a[s];
      assert Lookup(a, Key(s, n)).Some?;
      assert Lookup(b, Key(s, n)).Some?;
    }
  }

  // ---- pending lists ----

  function Without(items: seq<Item>, k: Key): seq<Item> {
    if items == [] then []
    else if items[0].key == k then Without(items[1..], k)
    else [items[0]] + Without(items[1..], k)
  }

  function PublishPending(p: Pending, k: Key, addr: string): Pending {
    Pending(p.add + [Item(k, addr)], Without(p.del, k))
  }

  function DeletePending(p: Pending, k: Key, addr: string): Pending {
    Pending(Without(p.add, k), p.del + [Item(k, addr)])
  }

  function RemoveItem(m: Services, item: Item): Services {
    RemoveAt(m, item.key)
  }

  function PutItem(m: Services, item: Item): Services {
    PutAt(m, item.key, item.addr)
  }

  // What a peer makes of a delta: all deletions, then all additions.
  function Synced(m: Services, delta: Pending): Services {
    FoldLeft(PutItem, FoldLeft(RemoveItem, m, delta.del), delta.add)
  }

  // ---- the merged view ----

  function Row(m: Services, s: string): map<string, string> {
    if s in m then m[s] else map[]
  }

  // All of src copied over dst.
  function Overlay(dst: Services, src: Services): Services {
    map s | s in dst.Keys + src.Keys :: Row(dst, s) + Row(src, s)
  }

  function OverlayFrom(dataFrom: map<string, Services>): (Services, string) -> Services {
    (m, peer) => if peer in dataFrom then Overlay(m, dataFrom[peer]) else m
  }

  // The own registrations, then each peer's, in an order that the runtime picks.
  function Build(current: Services, dataFrom: map<string, Services>, order: seq<string>): Services {
    FoldLeft(OverlayFrom(dataFrom), Overlay(map[], current), order)
  }

  ghost predicate IsOrder(order: seq<string>, peers: set<string>) {
    && (forall p :: p in order <==> p in peers)
    && (forall i, j :: 0 <= i < j < |order| ==> order[i] != order[j])
  }

  ghost predicate Rebuilt(s: Store) {
    exists order :: IsOrder(order, s.dataFrom.Keys) && s.services == Build(s.current, s.dataFrom, order)
  }

  // ---- the operations ----

  function Published(s: Store, k: Key, addr: string): Store {
    s.(services := PutAt(s.services, k, addr), current := PutAt(s.current, k, addr),
       dataTo := map p | p in s.dataTo :: PublishPending(s.dataTo[p], k, addr))
  }

  function Deleted(s: Store, k: Key, addr: string): Store {
    s.(services := RemoveAt(s.services, k), current := RemoveAt(s.current, k),
       dataTo := map p | p in s.dataTo :: DeletePending(s.dataTo[p], k, addr))
  }

  // What arrives in the one slot of a message: nothing, unreadable bytes, or the value.
  datatype Payload<T> = Missing | Malformed | Data(value: T)

  ghost predicate FullTaken(s: Store, s': Store, node: string, data: Services) {
    s' == s.(services := s'.services, dataFrom := s.dataFrom[node := data]) && Rebuilt(s')
  }

  ghost predicate DeltaTaken(s: Store, s': Store, node: string, delta: Pending)
    requires node in s.dataFrom
  {
    s' == s.(services := s'.services, dataFrom := s.dataFrom[node := Synced(s.dataFrom[node], delta)]) && Rebuilt(s')
  }

  ghost predicate Abandoned(s: Store, s': Store, node: string) {
    if node in s.dataFrom then
      s' == s.(services := s'.services, dataFrom := s.dataFrom - {node}) && Rebuilt(s')
    else s' == s
  }

  function Watched(s: Store, node: string): Store {
    if node in s.dataTo then s else s.(dataTo := s.dataTo[node := NOTHING_PENDING])
  }

  function Drained(s: Store, node: string): Store {
    if node in s.dataTo then s.(dataTo := s.dataTo[node := NOTHING_PENDING]) else s
  }

  function Unwatched(s: Store, node: string): Store {
    s.(dataTo := s.dataTo - {node})
  }

  method RebuildServiceItemList(items: seq<Item>, k: Key) returns (kept: seq<Item>)
    ensures kept == Without(items, k)
  {
    kept := [];
    var i := 0;
    while i < |items|
      invariant 0 <= i <= |items|
      invariant kept + Without(items[i..], k) == Without(items, k)
    {
      assert items[i..][1..] == items[i + 1..];
      if items[i].key != k {
        kept := kept + [items[i]];
      }
      i := i + 1;
    }
  }

  // The part of m whose keys are no longer waiting in rest.
  function Seen<V>(m: map<string, V>, rest: set<string>): map<string, V> {
    map s | s in m && s !in rest :: m[s]
  }

  lemma OverlayNothing(dst: Services)
    ensures Overlay(dst, map[]) == dst
  {
    forall s | s in dst ensures Overlay(dst, map[])[s] == dst[s] {
      assert dst[s] + map[] == dst[s];
    }
  }

  lemma OverlayOne(dst: Services, src: Services, rest: set<string>, s: string)
    requires s in rest && s in src
    ensures var r := Overlay(dst, Seen(src, rest));
            Overlay(dst, Seen(src, rest - {s})) == r[s := Row(r, s) + src[s]]
  {
    var before, after := Seen(src, rest), Seen(src, rest - {s});
    var r, r' := Overlay(dst, before), Overlay(dst, after);
    assert after == before[s := src[s]] && s !in before;
    OverlayRow(dst, before, s);
    OverlayRow(dst, after, s);
    forall q | q != s ensures (q in r' <==> q in r) && Row(r', q) == Row(r, q) {
      OverlayRow(dst, before, q);
      OverlayRow(dst, after, q);
    }
  }

  lemma OverlayRow(dst: Services, src: Services, s: string)
    ensures s in Overlay(dst, src) <==> s in dst || s in src
    ensures Row(Overlay(dst, src), s) == Row(dst, s) + Row(src, s)
    ensures s !in src ==> Row(Overlay(dst, src), s) == Row(dst, s)
  {
    assert Row(dst, s) + map[] == Row(dst, s);
  }

  method CopyMap(src: Services, dst: Services) returns (r: Services)
    ensures r == Overlay(dst, src)
  {
    r := dst;
    var rest := src.Keys;
    OverlayNothing(dst);
    assert Seen(src, rest) == map[];
    while rest != {}
      invariant rest <= src.Keys
      invariant r == Overlay(dst, Seen(src, rest))
    {
      var s :| s in rest;
      var nodes := CopyNodes(src[s], Row(r, s));
      OverlayOne(dst, src, rest, s);
      r := r[s := nodes];
      rest := rest - {s};
    }
    assert Seen(src, rest) == src;
  }

  method CopyNodes(src: map<string, string>, dst: map<string, string>) returns (r: map<string, string>)
    ensures r == dst + src
  {
    r := dst;
    var rest := src.Keys;
    while rest != {}
      invariant rest <= src.Keys
      invariant r == dst + Seen(src, rest)
    {
      var n :| n in rest;
      r := r[n := src[n]];
      rest := rest - {n};
    }
    assert Seen(src, rest) == src;
  }

  class MemStore {
    var services: Services
    var currentServices: Services
    var dataFrom: map<string, Services>
    var dataTo: map<string, Pending>

    constructor ()
      ensures State() == Store(map[], map[], map[], map[])
    {
      services, currentServices, dataFrom, dataTo := map[], map[], map[], map[];
    }

    ghost function State(): Store
      reads this
    {
      Store(services, currentServices, dataFrom, dataTo)
    }

    method PublishService(k: Key, addr: string)
      modifies this
      ensures State() == Published(old(State()), k, addr)
    {
      services := PutAt(services, k, addr);
      currentServices := PutAt(currentServices, k, addr);
      var rest := dataTo.Keys;
      while rest != {}
        invariant rest <= dataTo.Keys == old(dataTo).Keys
        invariant State() == old(State()).(services := services, current := currentServices, dataTo := dataTo)
        invariant services == PutAt(old(services), k, addr) && currentServices == PutAt(old(currentServices), k, addr)
        invariant forall p :: p in rest ==> dataTo[p] == old(dataTo)[p]
        invariant forall p :: p in dataTo && p !in rest ==> dataTo[p] == PublishPending(old(dataTo)[p], k, addr)
      {
        var p :| p in rest;
        var del := RebuildServiceItemList(dataTo[p].del, k);
        dataTo := dataTo[p := Pending(dataTo[p].add + [Item(k, addr)], del)];
        rest := rest - {p};
      }
    }

    method DeleteService(k: Key, addr: string)
      modifies this
      ensures State() == Deleted(old(State()), k, addr)
    {
      services := RemoveAt(services, k);
      currentServices := RemoveAt(currentServices, k);
      var rest := dataTo.Keys;
      while rest != {}
        invariant rest <= dataTo.Keys == old(dataTo).Keys
        invariant State() == old(State()).(services := services, current := currentServices, dataTo := dataTo)
        invariant services == RemoveAt(old(services), k) && currentServices == RemoveAt(old(currentServices), k)
        invariant forall p :: p in rest ==> dataTo[p] == old(dataTo)[p]
        invariant forall p :: p in dataTo && p !in rest ==> dataTo[p] == DeletePending(old(dataTo)[p], k, addr)
      {
        var p :| p in rest;
        var add := RebuildServiceItemList(dataTo[p].add, k);
        dataTo := dataTo[p := Pending(add, dataTo[p].del + [Item(k, addr)])];
        rest := rest - {p};
      }
    }

    method BuildMemData()
      modifies this`services
      ensures Rebuilt(State())
    {
      var newServiceMap := CopyMap(currentServices, map[]);
      ghost var order: seq<string> := [];
      var rest := dataFrom.Keys;
      while rest != {}
        invariant rest <= dataFrom.Keys
        invariant IsOrder(order, dataFrom.Keys - rest)
        invariant newServiceMap == Build(currentServices, dataFrom, order)
      {
        var p :| p in rest;
        BuildSnoc(currentServices, dataFrom, order, p);
        newServiceMap := CopyMap(dataFrom[p], newServiceMap);
        order := order + [p];
        rest := rest - {p};
      }
      services := newServiceMap;
      assert IsOrder(order, State().dataFrom.Keys);
    }

    method FullFrom(node: string, data: Payload<Services>) returns (ok: bool)
      modifies this
      ensures ok == data.Data?
      ensures if ok then FullTaken(old(State()), State(), node, data.value) else State() == old(State())
    {
      ok := data.Data?;
      if ok {
        dataFrom := dataFrom[node := data.value];
        BuildMemData();
      }
    }

    method SyncFrom(node: string, add: Payload<seq<Item>>, del: Payload<seq<Item>>) returns (ok: bool)
      modifies this
      ensures ok == (add.Data? && del.Data? && node in old(dataFrom))
      ensures if ok then DeltaTaken(old(State()), State(), node, Pending(add.value, del.value))
              else State() == old(State())
    {
      if !add.Data? || !del.Data? || node !in dataFrom {
        return false;
      }
      var mapping := dataFrom[node];
      var i := 0;
      while i < |del.value|
        invariant 0 <= i <= |del.value|
        invariant FoldLeft(RemoveItem, mapping, del.value[i..]) == FoldLeft(RemoveItem, dataFrom[node], del.value)
      {
        assert del.value[i..][1..] == del.value[i + 1..];
        mapping := RemoveAt(mapping, del.value[i].key);
        i := i + 1;
      }
      ghost var kept := mapping;
      i := 0;
      while i < |add.value|
        invariant 0 <= i <= |add.value|
        invariant FoldLeft(PutItem, mapping, add.value[i..]) == FoldLeft(PutItem, kept, add.value)
      {
        assert add.value[i..][1..] == add.value[i + 1..];
        mapping := PutAt(mapping, add.value[i].key, add.value[i].addr);
        i := i + 1;
      }
      dataFrom := dataFrom[node := mapping];
      BuildMemData();
      ok := true;
    }

    method Abandon(node: string)
      modifies this
      ensures Abandoned(old(State()), State(), node)
    {
      if node in dataFrom {
        dataFrom := dataFrom - {node};
        BuildMemData();
      }
    }

    method FetchFullAndWatch(node: string) returns (full: Services)
      modifies this
      ensures State() == Watched(old(State()), node) && full == State().current
    {
      if node !in dataTo {
        dataTo := dataTo[node := NOTHING_PENDING];
      }
      full := currentServices;
    }

    method FetchChangesForPeerNodeRequest(node: string) returns (r: Option<Pending>)
      modifies this
      ensures State() == Drained(old(State()), node)
      ensures r == if node in old(dataTo) then Some(old(dataTo)[node]) else None
    {
      if node !in dataTo {
        return None;
      }
      r := Some(dataTo[node]);
      dataTo := dataTo[node := NOTHING_PENDING];
    }

    method Unwatch(node: string)
      modifies this
      ensures State() == Unwatched(old(State()), node)
    {
      dataTo := dataTo - {node};
    }
  }

  lemma BuildSnoc(current: Services, dataFrom: map<string, Services>, order: seq<string>, p: string)
    requires p in dataFrom
    ensures Build(current, dataFrom, order + [p]) == Overlay(Build(current, dataFrom, order), dataFrom[p])
  {
    var f := OverlayFrom(dataFrom);
    FoldLeftConcat(f, Overlay(map[], current), order, [p]);
    var m := Build(current, dataFrom, order);
    assert FoldLeft(f, m, [p]) == FoldLeft(f, f(m, p), []);
  }
}
