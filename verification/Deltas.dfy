// The Add and Del lists that a node keeps for a watching peer, and what the peer makes of them.
module Deltas {
  import opened Options
  import opened Folds
  import opened MemStore

  // The address of the last item for a key.
  function LastAddr(items: seq<Item>, k: Key): (r: Option<string>)
    ensures r.Some? <==> exists i :: 0 <= i < |items| && items[i].key == k
  {
    if items == [] then None
    else
      var later := LastAddr(items[1..], k);
      assert forall i :: 0 < i < |items| ==> items[i] == items[1..][i - 1];
      assert forall i :: 0 <= i < |items| - 1 ==> items[1..][i] == items[i + 1];
      if later.Some? then later
      else if items[0].key == k then Some(items[0].addr)
      else None
  }

  function KeysOf(items: seq<Item>): set<Key> {
    set i | 0 <= i < |items| :: items[i].key
  }

  function PendingKeys(p: Pending): set<Key> {
    KeysOf(p.add) + KeysOf(p.del)
  }

  ghost predicate Touches(p: Pending, k: Key) {
    k in PendingKeys(p)
  }

  // What a delta makes of a key it touches: additions come after deletions.
  function Effect(p: Pending, k: Key): Option<string> {
    LastAddr(p.add, k)
  }

  lemma {:induction false} LastAddrSnoc(items: seq<Item>, item: Item, k: Key)
    ensures LastAddr(items + [item], k) == if item.key == k then Some(item.addr) else LastAddr(items, k)
    decreases items
  {
    if items == [] {
      assert (items + [item])[1..] == [];
    } else {
      assert (items + [item])[1..] == items[1..] + [item];
      LastAddrSnoc(items[1..], item, k);
    }
  }

  lemma {:induction false} LastAddrWithout(items: seq<Item>, k: Key, q: Key)
    ensures LastAddr(Without(items, k), q) == if q == k then None else LastAddr(items, q)
    decreases items
  {
    if items != [] {
      LastAddrWithout(items[1..], k, q);
      if items[0].key != k {
        assert Without(items, k)[1..] == Without(items[1..], k);
      }
    }
  }

  lemma {:induction false} LookupRemoved(m: Services, items: seq<Item>, k: Key)
    ensures Lookup(FoldLeft(RemoveItem, m, items), k) == if k in KeysOf(items) then None else Lookup(m, k)
    decreases items
  {
    if items != [] {
      LookupRemove(m, items[0].key, k);
      LookupRemoved(RemoveItem(m, items[0]), items[1..], k);
      assert k in KeysOf(items) <==> k == items[0].key || k in KeysOf(items[1..]) by {
        assert forall i :: 0 < i < |items| ==> items[i] == items[1..][i - 1];
        assert forall i :: 0 <= i < |items| - 1 ==> items[1..][i] == items[i + 1];
      }
    }
  }

  lemma {:induction false} LookupAdded(m: Services, items: seq<Item>, k: Key)
    ensures Lookup(FoldLeft(PutItem, m, items), k)
            == if LastAddr(items, k).Some? then LastAddr(items, k) else Lookup(m, k)
    decreases items
  {
    if items != [] {
      LookupPut(m, items[0].key, items[0].addr, k);
      LookupAdded(PutItem(m, items[0]), items[1..], k);
    }
  }

  // A delta decides the keys it touches and leaves the others alone.
  lemma LookupSynced(m: Services, p: Pending, k: Key)
    ensures Lookup(Synced(m, p), k) == if Touches(p, k) then Effect(p, k) else Lookup(m, k)
  {
    LookupRemoved(m, p.del, k);
    LookupAdded(FoldLeft(RemoveItem, m, p.del), p.add, k);
  }

  lemma SyncedNoEmpty(m: Services, p: Pending)
    requires NoEmpty(m)
    ensures NoEmpty(Synced(m, p))
  {
    FoldNoEmpty(RemoveItem, m, p.del);
    FoldNoEmpty(PutItem, FoldLeft(RemoveItem, m, p.del), p.add);
  }

  lemma {:induction false} FoldNoEmpty(f: (Services, Item) -> Services, m: Services, items: seq<Item>)
    requires f == RemoveItem || f == PutItem
    requires NoEmpty(m)
    ensures NoEmpty(FoldLeft(f, m, items))
    decreases items
  {
    if items != [] {
      PutRemoveNoEmpty(m, items[0].key, items[0].addr);
      FoldNoEmpty(f, f(m, items[0]), items[1..]);
    }
  }

  // ---- exactness ----

  // A pending list gives the present value of every key it touches.
  ghost predicate Exact(p: Pending, current: Services) {
    forall k :: Touches(p, k) ==> Effect(p, k) == Lookup(current, k)
  }

  ghost predicate AgreeOutside(a: Services, b: Services, keys: set<Key>) {
    forall k :: k !in keys ==> Lookup(a, k) == Lookup(b, k)
  }

  // A delta turns a copy into the source exactly if the list gives the source's value of each touched key
  // and the copy already has the source's value of every other one.
  lemma CoalescingExact(base: Services, p: Pending, current: Services)
    requires NoEmpty(base) && NoEmpty(current)
    ensures Synced(base, p) == current <==> Exact(p, current) && AgreeOutside(base, current, PendingKeys(p))
  {
    SyncedNoEmpty(base, p);
    forall k ensures Lookup(Synced(base, p), k) == if Touches(p, k) then Effect(p, k) else Lookup(base, k) {
      LookupSynced(base, p, k);
    }
    if Exact(p, current) && AgreeOutside(base, current, PendingKeys(p)) {
      SameLookups(Synced(base, p), current);
    }
  }

  // ---- a history of changes ----

  datatype Change = Publish(key: Key, addr: string) | Delete(key: Key, addr: string)

  function Changed(m: Services, c: Change): Services {
    match c
    case Publish(k, addr) => PutAt(m, k, addr)
    case Delete(k, _) => RemoveAt(m, k)
  }

  function Recorded(p: Pending, c: Change): Pending {
    match c
    case Publish(k, addr) => PublishPending(p, k, addr)
    case Delete(k, addr) => DeletePending(p, k, addr)
  }

  lemma LookupChanged(m: Services, c: Change, q: Key)
    ensures q != c.key ==> Lookup(Changed(m, c), q) == Lookup(m, q)
    ensures Lookup(Changed(m, c), c.key) == if c.Publish? then Some(c.addr) else None
    ensures NoEmpty(m) ==> NoEmpty(Changed(m, c))
  {
    LookupRemove(m, c.key, q);
    LookupRemove(m, c.key, c.key);
    if NoEmpty(m) {
      PutRemoveNoEmpty(m, c.key, c.addr);
    }
  }

  lemma TouchesRecorded(p: Pending, c: Change, q: Key)
    ensures Touches(Recorded(p, c), q) <==> q == c.key || Touches(p, q)
    ensures Effect(Recorded(p, c), q)
            == if q != c.key then Effect(p, q) else if c.Publish? then Some(c.addr) else None
  {
    LastAddrSnoc(p.add, Item(c.key, c.addr), q);
    LastAddrSnoc(p.del, Item(c.key, c.addr), q);
    LastAddrWithout(p.add, c.key, q);
    LastAddrWithout(p.del, c.key, q);
    TouchesLast(p, q);
    TouchesLast(Recorded(p, c), q);
  }

  lemma TouchesLast(p: Pending, q: Key)
    ensures Touches(p, q) <==> LastAddr(p.add, q).Some? || LastAddr(p.del, q).Some?
  {
  }

  lemma RecordedKeys(p: Pending, c: Change)
    ensures PendingKeys(Recorded(p, c)) == PendingKeys(p) + {c.key}
  {
    forall q ensures q in PendingKeys(Recorded(p, c)) <==> q in PendingKeys(p) + {c.key} {
      TouchesRecorded(p, c, q);
    }
  }

  // One more change, made and recorded: the list stays exact, and a base goes on agreeing outside it.
  lemma ChangeKeeps(p: Pending, current: Services, c: Change)
    requires Exact(p, current)
    ensures Exact(Recorded(p, c), Changed(current, c))
  {
    forall k | Touches(Recorded(p, c), k) ensures Effect(Recorded(p, c), k) == Lookup(Changed(current, c), k) {
      TouchesRecorded(p, c, k);
      LookupChanged(current, c, k);
    }
  }

  lemma AgreeKeeps(base: Services, current: Services, keys: set<Key>, c: Change)
    requires AgreeOutside(base, current, keys)
    ensures AgreeOutside(base, Changed(current, c), keys + {c.key})
  {
    forall k | k !in keys + {c.key} ensures Lookup(base, k) == Lookup(Changed(current, c), k) {
      LookupChanged(current, c, k);
    }
  }

  lemma {:induction false} ChangesKeep(base: Services, p: Pending, current: Services, cs: seq<Change>)
    requires NoEmpty(current) && Exact(p, current) && AgreeOutside(base, current, PendingKeys(p))
    ensures var p', current' := FoldLeft(Recorded, p, cs), FoldLeft(Changed, current, cs);
            NoEmpty(current') && Exact(p', current') && AgreeOutside(base, current', PendingKeys(p'))
    decreases cs
  {
    if cs != [] {
      var c := cs[0];
      LookupChanged(current, c, c.key);
      ChangeKeeps(p, current, c);
      AgreeKeeps(base, current, PendingKeys(p), c);
      RecordedKeys(p, c);
      ChangesKeep(base, Recorded(p, c), Changed(current, c), cs[1..]);
    }
  }

  // However many publishes and deletes of the same keys a list has coalesced, draining it onto a copy
  // taken at any moment of that history gives the present registrations: a list that is older than the
  // copy does no harm.
  lemma CoalescedHistory(start: Services, cs: seq<Change>, taken: nat)
    requires NoEmpty(start) && taken <= |cs|
    ensures Synced(FoldLeft(Changed, start, cs[..taken]), FoldLeft(Recorded, NOTHING_PENDING, cs))
            == FoldLeft(Changed, start, cs)
  {
    var before, after := cs[..taken], cs[taken..];
    assert before + after == cs;
    FoldLeftConcat(Changed, start, before, after);
    FoldLeftConcat(Recorded, NOTHING_PENDING, before, after);
    ChangesKeep(start, NOTHING_PENDING, start, before);
    var snapshot := FoldLeft(Changed, start, before);
    ChangesKeep(snapshot, FoldLeft(Recorded, NOTHING_PENDING, before), snapshot, after);
    CoalescingExact(snapshot, FoldLeft(Recorded, NOTHING_PENDING, cs), FoldLeft(Changed, start, cs));
  }

  // ---- what the lists hold ----

  function ItemOf(c: Change): Item {
    Item(c.key, c.addr)
  }

  predicate DeletedIn(cs: seq<Change>, k: Key) {
    exists i :: 0 <= i < |cs| && cs[i].Delete? && cs[i].key == k
  }

  predicate PublishedIn(cs: seq<Change>, k: Key) {
    exists i :: 0 <= i < |cs| && cs[i].Publish? && cs[i].key == k
  }

  // The publishes that no later delete of their key undid, and the deletes that no later publish undid, in order.
  function StandingPublishes(cs: seq<Change>): seq<Item> {
    if cs == [] then []
    else (if cs[0].Publish? && !DeletedIn(cs[1..], cs[0].key) then [ItemOf(cs[0])] else []) + StandingPublishes(cs[1..])
  }

  function StandingDeletes(cs: seq<Change>): seq<Item> {
    if cs == [] then []
    else (if cs[0].Delete? && !PublishedIn(cs[1..], cs[0].key) then [ItemOf(cs[0])] else []) + StandingDeletes(cs[1..])
  }

  lemma InSnoc(cs: seq<Change>, c: Change, k: Key)
    ensures DeletedIn(cs + [c], k) <==> DeletedIn(cs, k) || (c.Delete? && c.key == k)
    ensures PublishedIn(cs + [c], k) <==> PublishedIn(cs, k) || (c.Publish? && c.key == k)
  {
    assert forall i :: 0 <= i < |cs| ==> (cs + [c])[i] == cs[i];
    assert (cs + [c])[|cs|] == c;
  }

  lemma WithoutFirst(first: seq<Item>, rest: seq<Item>, k: Key)
    requires |first| <= 1
    ensures Without(first + rest, k)
            == if first == [] || first[0].key == k then Without(rest, k) else first + Without(rest, k)
  {
    if first == [] {
      assert first + rest == rest;
    } else {
      assert (first + rest)[1..] == rest;
    }
  }

  // One more change, behind a list whose first item may fall away.
  lemma OneMoreChange(first: seq<Item>, rest: seq<Item>, first': seq<Item>, rest': seq<Item>, item: Item, grows: bool)
    requires |first| <= 1 && rest' == if grows then rest + [item] else Without(rest, item.key)
    requires first' == if !grows && first != [] && first[0].key == item.key then [] else first
    ensures first' + rest' == if grows then first + rest + [item] else Without(first + rest, item.key)
  {
    WithoutFirst(first, rest, item.key);
    assert first + (rest + [item]) == first + rest + [item];
    assert [] + rest' == rest';
  }

  lemma {:induction false} PublishesSnoc(cs: seq<Change>, c: Change)
    ensures StandingPublishes(cs + [c])
            == if c.Publish? then StandingPublishes(cs) + [ItemOf(c)] else Without(StandingPublishes(cs), c.key)
    decreases cs
  {
    if cs == [] {
      assert cs + [c] == [c] && [c][1..] == [];
    } else {
      assert (cs + [c])[0] == cs[0] && (cs + [c])[1..] == cs[1..] + [c];
      PublishesSnoc(cs[1..], c);
      InSnoc(cs[1..], c, cs[0].key);
      var first := if cs[0].Publish? && !DeletedIn(cs[1..], cs[0].key) then [ItemOf(cs[0])] else [];
      var first' := if cs[0].Publish? && !DeletedIn(cs[1..] + [c], cs[0].key) then [ItemOf(cs[0])] else [];
      OneMoreChange(first, StandingPublishes(cs[1..]), first', StandingPublishes(cs[1..] + [c]), ItemOf(c), c.Publish?);
    }
  }

  lemma {:induction false} DeletesSnoc(cs: seq<Change>, c: Change)
    ensures StandingDeletes(cs + [c])
            == if c.Delete? then StandingDeletes(cs) + [ItemOf(c)] else Without(StandingDeletes(cs), c.key)
    decreases cs
  {
    if cs == [] {
      assert cs + [c] == [c] && [c][1..] == [];
    } else {
      assert (cs + [c])[0] == cs[0] && (cs + [c])[1..] == cs[1..] + [c];
      DeletesSnoc(cs[1..], c);
      InSnoc(cs[1..], c, cs[0].key);
      var first := if cs[0].Delete? && !PublishedIn(cs[1..], cs[0].key) then [ItemOf(cs[0])] else [];
      var first' := if cs[0].Delete? && !PublishedIn(cs[1..] + [c], cs[0].key) then [ItemOf(cs[0])] else [];
      OneMoreChange(first, StandingDeletes(cs[1..]), first', StandingDeletes(cs[1..] + [c]), ItemOf(c), c.Delete?);
    }
  }

  // The two lists are, in order and with their addresses, the publishes and the deletes since the last drain that no
  // later change of the other kind has undone.
  lemma {:induction false} PendingIsHistory(cs: seq<Change>)
    ensures FoldLeft(Recorded, NOTHING_PENDING, cs) == Pending(StandingPublishes(cs), StandingDeletes(cs))
    decreases |cs|
  {
    if cs != [] {
      var before, c := cs[..|cs| - 1], cs[|cs| - 1];
      assert before + [c] == cs;
      PendingIsHistory(before);
      FoldLeftConcat(Recorded, NOTHING_PENDING, before, [c]);
      var p := FoldLeft(Recorded, NOTHING_PENDING, before);
      assert FoldLeft(Recorded, p, [c]) == FoldLeft(Recorded, Recorded(p, c), []);
      PublishesSnoc(before, c);
      DeletesSnoc(before, c);
    }
  }
}
