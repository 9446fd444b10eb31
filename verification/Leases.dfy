// The leases of the nodes that register over HTTP, on top of the store. The store and the lease table have
// locks of their own, so a publish is two steps, and a sweep interleaves with publishes in the store.
module Leases {
  import opened Options
  import opened Folds
  import opened MemStore

  datatype Lease = Lease(lastUpdate: int, publishment: map<string, string>)

  const INTERVAL_MS := 10000

  function Expired(clients: map<string, Lease>, now: int): set<string> {
    set n | n in clients && clients[n].lastUpdate < now - INTERVAL_MS
  }

  // The entry a publish makes or refreshes, with any earlier ones of the node kept.
  function Leased(clients: map<string, Lease>, item: Item, now: int): map<string, Lease> {
    var n := item.key.node;
    var before := if n in clients then clients[n].publishment else map[];
    clients[n := Lease(now, before[item.key.service := item.addr])]
  }

  ghost predicate HasLease(clients: map<string, Lease>, k: Key) {
    k.node in clients && k.service in clients[k.node].publishment
  }

  function DeleteItem(s: Store, item: Item): Store {
    Deleted(s, item.key, item.addr)
  }

  // The leased items of some nodes, each once.
  ghost predicate Lists(items: seq<Item>, clients: map<string, Lease>, nodes: set<string>) {
    && (forall i :: 0 <= i < |items| ==>
         var k := items[i].key;
         k.node in nodes && HasLease(clients, k) && clients[k.node].publishment[k.service] == items[i].addr)
    && (forall i, j :: 0 <= i < j < |items| ==> items[i].key != items[j].key)
    && (forall k: Key :: k.node in nodes && HasLease(clients, k) ==> exists i :: 0 <= i < |items| && items[i].key == k)
  }

  class HttpEndpoint {
    var publicClients: map<string, Lease>
    const storage: MemStore

    constructor (storage: MemStore)
      ensures publicClients == map[] && this.storage == storage
    {
      publicClients := map[];
      this.storage := storage;
    }

    method PublishService(k: Key, addr: string, now: int)
      modifies `publicClients, storage
      ensures storage.State() == Published(old(storage.State()), k, addr)
      ensures publicClients == Leased(old(publicClients), Item(k, addr), now)
      ensures k.node in publicClients && publicClients[k.node].lastUpdate == now
      ensures forall s :: s in publicClients[k.node].publishment <==>
                s == k.service || HasLease(old(publicClients), Key(s, k.node))
      ensures publicClients[k.node].publishment[k.service] == addr
      ensures forall s :: s != k.service && HasLease(old(publicClients), Key(s, k.node)) ==>
                publicClients[k.node].publishment[s] == old(publicClients)[k.node].publishment[s]
      ensures publicClients - {k.node} == old(publicClients) - {k.node}
    {
      storage.PublishService(k, addr);
      if k.node !in publicClients {
        publicClients := publicClients[k.node := Lease(now, map[])];
      }
      var lease := publicClients[k.node];
      publicClients := publicClients[k.node := Lease(now, lease.publishment[k.service := addr])];
    }

    // One round of the cleanup: the nodes silent for over ten seconds lose their leases, and the store
    // deletes exactly what they had leased.
    method CheckPublishClients(now: int) returns (ghost items: seq<Item>)
      modifies `publicClients, storage
      ensures publicClients == old(publicClients) - Expired(old(publicClients), now)
      ensures forall n :: n in old(publicClients) ==>
                (n in publicClients <==> now - old(publicClients)[n].lastUpdate <= 10000)
      ensures Lists(items, old(publicClients), Expired(old(publicClients), now))
      ensures storage.State() == FoldLeft(DeleteItem, old(storage.State()), items)
    {
      ghost var s, leases := storage.State(), publicClients;
      var expired := set n | n in publicClients && publicClients[n].lastUpdate < now - INTERVAL_MS;
      var rest := expired;
      ghost var done: set<string> := {};
      items := [];
      while rest != {}
        invariant expired == Expired(leases, now) && done + rest == expired && done !! rest
        invariant publicClients == leases - done
        invariant Lists(items, leases, done)
        invariant storage.State() == FoldLeft(DeleteItem, s, items)
      {
        var n :| n in rest;
        ghost var deleted := DeleteAll(n, publicClients[n].publishment);
        ListsMore(items, deleted, leases, done, n);
        FoldLeftConcat(DeleteItem, s, items, deleted);
        WithoutOneMore(leases, done, n);
        items := items + deleted;
        publicClients := publicClients - {n};
        rest, done := rest - {n}, done + {n};
      }
    }

    method DeleteAll(n: string, publishment: map<string, string>) returns (ghost items: seq<Item>)
      modifies storage
      ensures ListsOne(items, n, publishment)
      ensures storage.State() == FoldLeft(DeleteItem, old(storage.State()), items)
    {
      ghost var s := storage.State();
      var rest := publishment.Keys;
      ghost var done: map<string, string> := map[];
      items := [];
      while rest != {}
        invariant rest <= publishment.Keys && done == publishment - rest
        invariant ListsOne(items, n, done)
        invariant storage.State() == FoldLeft(DeleteItem, s, items)
      {
        var service :| service in rest;
        storage.DeleteService(Key(service, n), publishment[service]);
        ghost var item := Item(Key(service, n), publishment[service]);
        FoldLeftConcat(DeleteItem, s, items, [item]);
        ListsOneMore(items, n, done, service, publishment[service]);
        rest := rest - {service};
        done := done[service := publishment[service]];
        items := items + [item];
      }
      assert publishment - rest == publishment;
    }
  }

  lemma WithoutOneMore<K, V>(m: map<K, V>, done: set<K>, k: K)
    ensures m - done - {k} == m - (done + {k})
  {
  }

  // The items of one node.
  ghost predicate ListsOne(items: seq<Item>, n: string, publishment: map<string, string>) {
    && (forall i :: 0 <= i < |items| ==>
         items[i].key.node == n && items[i].key.service in publishment
         && publishment[items[i].key.service] == items[i].addr)
    && (forall i, j :: 0 <= i < j < |items| ==> items[i].key != items[j].key)
    && (forall s :: s in publishment ==> exists i :: 0 <= i < |items| && items[i].key == Key(s, n))
  }

  lemma ListsOneMore(items: seq<Item>, n: string, publishment: map<string, string>, service: string, addr: string)
    requires ListsOne(items, n, publishment) && service !in publishment
    ensures ListsOne(items + [Item(Key(service, n), addr)], n, publishment[service := addr])
  {
    var more := items + [Item(Key(service, n), addr)];
    forall s | s in publishment[service := addr] ensures exists i :: 0 <= i < |more| && more[i].key == Key(s, n) {
      if s == service {
        assert more[|items|].key == Key(s, n);
      } else {
        var i :| 0 <= i < |items| && items[i].key == Key(s, n);
        assert more[i].key == Key(s, n);
      }
    }
  }

  lemma ListsMore(items: seq<Item>, deleted: seq<Item>, clients: map<string, Lease>, nodes: set<string>, n: string)
    requires Lists(items, clients, nodes) && n !in nodes && n in clients
    requires ListsOne(deleted, n, clients[n].publishment)
    ensures Lists(items + deleted, clients, nodes + {n})
  {
    var all := items + deleted;
    forall k: Key | k.node in nodes + {n} && HasLease(clients, k)
      ensures exists i :: 0 <= i < |all| && all[i].key == k
    {
      if k.node == n {
        var i :| 0 <= i < |deleted| && deleted[i].key == Key(k.service, n);
        assert all[|items| + i].key == k;
      } else {
        var i :| 0 <= i < |items| && items[i].key == k;
        assert all[i].key == k;
      }
    }
  }

  lemma {:induction false} LookupDeleted(s: Store, items: seq<Item>, k: Key)
    ensures Lookup(FoldLeft(DeleteItem, s, items).current, k)
            == if exists i :: 0 <= i < |items| && items[i].key == k then None else Lookup(s.current, k)
    decreases items
  {
    if items != [] {
      LookupRemove(s.current, items[0].key, k);
      LookupDeleted(DeleteItem(s, items[0]), items[1..], k);
      assert forall i :: 0 <= i < |items| - 1 ==> items[1..][i] == items[i + 1];
      assert forall i :: 0 < i < |items| ==> items[i] == items[1..][i - 1];
    }
  }

  // What a round of the cleanup removes is what the silent nodes had leased, and nothing else.
  lemma CleanupRemovesLeased(s: Store, clients: map<string, Lease>, now: int, items: seq<Item>, k: Key)
    requires Lists(items, clients, Expired(clients, now))
    ensures Lookup(FoldLeft(DeleteItem, s, items).current, k)
            == if HasLease(clients, k) && now - clients[k.node].lastUpdate > 10000 then None else Lookup(s.current, k)
  {
    LookupDeleted(s, items, k);
  }

  // Every watcher's list of deletions gets the removed items, with the addresses they were leased for.
  lemma {:induction false} CleanupRecorded(s: Store, items: seq<Item>, peer: string)
    requires peer in s.dataTo
    ensures peer in FoldLeft(DeleteItem, s, items).dataTo
    ensures FoldLeft(DeleteItem, s, items).dataTo[peer].del == s.dataTo[peer].del + items
    decreases items
  {
    if items == [] {
      assert s.dataTo[peer].del + [] == s.dataTo[peer].del;
    } else {
      CleanupRecorded(DeleteItem(s, items[0]), items[1..], peer);
      assert s.dataTo[peer].del + [items[0]] + items[1..] == s.dataTo[peer].del + items;
    }
  }
}
