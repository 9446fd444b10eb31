// Runs of the store machine: how the steps make up whole puts and whole starts, and one run for each way to fail.
module RecoveryRuns {
  import opened Bytes
  import opened Folds
  import opened WalPage
  import opened WalNames
  import opened WalEntries
  import opened DiskWal
  import opened WalRuns
  import opened WalReplay
  import opened Cbor
  import opened SoleStorage
  import opened Recovery
  import opened RecoveryExact
  import opened Options

  // ---- reachable states ----

  ghost predicate Reachable(m: Machine) {
    Inv(m) && exists steps :: Reaches(INITIAL, steps, m)
  }

  // What every enabled step keeps, and what gives the invariant.
  ghost predicate Closed(r: Machine -> bool) {
    && (forall m :: r(m) ==> Inv(m))
    && (forall m, step :: r(m) && Enabled(m, step) ==> r(After(m, step)))
  }

  lemma {:induction false} ReachesMore(m: Machine, steps: seq<Step>, m': Machine, step: Step)
    requires Reaches(m, steps, m') && Enabled(m', step)
    ensures Reaches(m, steps + [step], After(m', step))
    decreases steps
  {
    if steps == [] {
      assert [step][1..] == [];
    } else {
      assert (steps + [step])[1..] == steps[1..] + [step];
      ReachesMore(After(m, steps[0]), steps[1..], m', step);
    }
  }

  lemma ReachableStep(m: Machine, step: Step)
    requires Reachable(m) && Enabled(m, step)
    ensures Reachable(After(m, step))
  {
    var steps :| Reaches(INITIAL, steps, m);
    StepKeeps(m, step);
    ReachesMore(INITIAL, steps, m, step);
  }

  lemma ReachableClosed()
    ensures Closed(Reachable)
  {
    forall m, step | Reachable(m) && Enabled(m, step) ensures Reachable(After(m, step)) {
      ReachableStep(m, step);
    }
  }

  lemma InitialReachable()
    ensures Reachable(INITIAL)
  {
    InitialInv();
    assert Reaches(INITIAL, [], INITIAL);
  }

  // ---- whole puts and whole starts ----

  // The three steps of a put that no crash cuts and no other put interrupts add up to what the whole of Put does.
  lemma WholePut(m: Machine, e: Entry)
    requires Enabled(m, Append(e))
    ensures var wal, c := EntryWritten(m.phase.wal, LoggedEntry(e.k, e.v)), |m.log|;
            var logged := After(m, Append(e));
            Enabled(logged, StoreEntry(c))
            && var stored := After(logged, StoreEntry(c));
               if Storable(e.k) then
                 Enabled(stored, StoreVersion(c))
                 && var done := After(stored, StoreVersion(c));
                    done.phase.wal == wal && done.kv == VersionWritten(m.kv[e.k := e.v], wal.Position())
               else stored.phase.wal == wal && stored.kv == m.kv
  {
    CellsOk(e);
    assert After(m, Append(e)).log[|m.log|] == CellsOf(e)[0];
  }

  // A run of recovery steps leaves the store as the whole of Initialize does.
  lemma {:induction false} RecoverAll(m: Machine, steps: seq<Step>, m': Machine)
    requires Reaches(m, steps, m') && m.phase.Recovering? && |steps| == |m.phase.calls|
    requires forall i :: 0 <= i < |steps| ==> steps[i] == RecoverOne
    ensures m'.phase.Recovering? && m'.phase.calls == [] && m'.phase.result == m.phase.result
    ensures m'.kv == FoldLeft(Recovered, m.kv, m.phase.calls)
    decreases steps
  {
    if steps != [] {
      RecoverAll(After(m, steps[0]), steps[1..], m');
    }
  }

  // What a start leaves behind.
  ghost predicate StartedAs(m: Machine, m': Machine) {
    && m'.phase.Serving? && m'.phase.puts == map[] && m'.log == m.log && !m'.garbled
    && m'.version == (if m.log == [] then 1 else |m.log|)
    && forall k :: Owner(m'.owner, k) == Held(m, k)
  }

  lemma FinishStep(r: Machine -> bool, m: Machine)
    requires Closed(r) && r(m) && m.phase.Recovering? && m.phase.result.Replayed? && m.phase.calls == []
    ensures r(After(m, FinishBoot)) && StartedAs(m, After(m, FinishBoot))
  {
    var m' := After(m, FinishBoot);
    assert Inv(m) && Enabled(m, FinishBoot);
    forall k ensures Owner(m'.owner, k) == Held(m, k) {
      StartHeld(m, FinishBoot, k);
    }
  }

  lemma RecoverStep(r: Machine -> bool, m: Machine) returns (m': Machine)
    requires Closed(r) && r(m) && m.phase.Recovering? && m.phase.result.Replayed? && m.phase.calls != []
    ensures r(m') && m'.phase.Recovering? && m'.phase.result.Replayed? && |m'.phase.calls| < |m.phase.calls|
    ensures m'.log == m.log && forall k :: Held(m', k) == Held(m, k)
  {
    m' := After(m, RecoverOne);
    assert Inv(m) && Enabled(m, RecoverOne);
    forall k ensures Held(m', k) == Held(m, k) {
      StartHeld(m, RecoverOne, k);
    }
  }

  lemma {:induction false} FinishRecovery(r: Machine -> bool, m: Machine) returns (m': Machine)
    requires Closed(r) && r(m) && m.phase.Recovering? && m.phase.result.Replayed?
    ensures r(m') && StartedAs(m, m')
    decreases |m.phase.calls|
  {
    if m.phase.calls == [] {
      FinishStep(r, m);
      m' := After(m, FinishBoot);
    } else {
      var m1 := RecoverStep(r, m);
      m' := FinishRecovery(r, m1);
    }
  }

  lemma BootStep(r: Machine -> bool, m: Machine) returns (m': Machine)
    requires Closed(r) && r(m) && m.phase.Down? && !m.garbled
    ensures r(m') && m'.phase.Recovering? && m'.log == m.log && m'.version == m.version
    ensures (m'.phase.result.Replayed? <==> !Stuck(m)) && forall k :: Held(m', k) == Held(m, k)
  {
    assert Inv(m);
    BootKeeps(m);
    assert Enabled(m, Boot);
    m' := After(m, Boot);
    forall k ensures Held(m', k) == Held(m, k) {
      StartHeld(m, Boot, k);
    }
  }

  // A start that does not fail gets to serve.
  lemma FinishStart(r: Machine -> bool, m: Machine) returns (m': Machine)
    requires Closed(r) && r(m) && m.phase.Down? && !m.garbled && !Stuck(m)
    ensures r(m') && StartedAs(m, m')
  {
    var booted := BootStep(r, m);
    m' := FinishRecovery(r, booted);
  }

  lemma Started(r: Machine -> bool) returns (m: Machine)
    requires Closed(r) && r(INITIAL)
    ensures r(m) && m.phase.Serving? && m.phase.puts == map[] && m.log == []
    ensures m.version == 1 && !m.garbled && m.owner == map[]
  {
    m := FinishStart(r, INITIAL);
    forall k ensures k !in m.owner {
      assert Owner(m.owner, k) == Held(INITIAL, k);
    }
  }

  // ---- one-page puts ----

  predicate Short(e: Entry) {
    OnePage(e) && Loggable(e)
  }

  function CellOf(e: Entry): Cell
    requires OnePage(e)
  {
    Cell(Record(WHOLE, LoggedEntry(e.k, e.v)), Some(e), StoredBy(e), StoredBy(e))
  }

  lemma ShortCells(e: Entry)
    requires Short(e)
    ensures CellsOf(e) == [CellOf(e)]
  {
    FirstPage(e);
    assert CellsOf(e)[0] == CellOf(e);
  }

  // What an append changes.
  ghost predicate LoggedAs(m: Machine, m': Machine, more: seq<Cell>) {
    && m'.phase.Serving? && m.phase.Serving?
    && m'.log == m.log + more
    && m'.phase.puts.Keys == m.phase.puts.Keys + {|m.log|}
    && (forall c :: c in m.phase.puts && c != |m.log| ==> m'.phase.puts[c] == m.phase.puts[c])
    && !m'.phase.puts[|m.log|].stored && m'.phase.puts[|m.log|].end == |m.log| + |more|
    && m'.kv == m.kv && m'.version == m.version && m'.garbled == m.garbled && m'.owner == m.owner
  }

  lemma LoggedChanges(m: Machine, e: Entry, more: seq<Cell>)
    requires m.phase.Serving? && CellsOf(e) == more
    ensures LoggedAs(m, EntryLogged(m, e), more)
  {
  }

  lemma AppendAny(r: Machine -> bool, m: Machine, e: Entry) returns (m': Machine)
    requires Closed(r) && r(m) && m.phase.Serving? && Loggable(e) && Room(|m.log| + |CellsOf(e)|)
    ensures r(m') && LoggedAs(m, m', CellsOf(e))
  {
    assert Enabled(m, Append(e));
    LoggedChanges(m, e, CellsOf(e));
    m' := After(m, Append(e));
  }

  lemma AppendStep(r: Machine -> bool, m: Machine, e: Entry) returns (m': Machine)
    requires Closed(r) && r(m) && m.phase.Serving? && Short(e) && Room(|m.log| + 1)
    ensures r(m') && LoggedAs(m, m', [CellOf(e)])
  {
    ShortCells(e);
    m' := AppendAny(r, m, e);
  }

  ghost predicate StoredAs(m: Machine, m': Machine, c: nat, e: Entry) {
    && m'.phase.Serving? && m.phase.Serving? && c in m.phase.puts
    && m'.log == m.log && m'.version == m.version && m'.garbled == (m.garbled || e.k == VERSION_KEY)
    && m'.phase.puts == m.phase.puts[c := m.phase.puts[c].(stored := true)]
    && m'.kv == m.kv[e.k := e.v] && m'.owner == m.owner[e.k := c]
  }

  lemma StoreStep(r: Machine -> bool, m: Machine, c: nat, e: Entry) returns (m': Machine)
    requires Closed(r) && r(m) && m.phase.Serving? && c in m.phase.puts && !m.phase.puts[c].stored
    requires c < |m.log| && m.log[c].put == Some(e) && Storable(e.k)
    ensures r(m') && StoredAs(m, m', c, e)
  {
    assert Enabled(m, StoreEntry(c));
    m' := After(m, StoreEntry(c));
  }

  lemma RefuseStep(r: Machine -> bool, m: Machine, c: nat, e: Entry) returns (m': Machine)
    requires Closed(r) && r(m) && m.phase.Serving? && c in m.phase.puts && !m.phase.puts[c].stored
    requires c < |m.log| && m.log[c].put == Some(e) && !Storable(e.k)
    ensures r(m') && m' == m.(phase := m.phase.(puts := m.phase.puts - {c}))
  {
    assert Enabled(m, StoreEntry(c));
    m' := After(m, StoreEntry(c));
  }

  ghost predicate VersionedAs(m: Machine, m': Machine, c: nat) {
    && m'.phase.Serving? && m.phase.Serving? && c in m.phase.puts
    && m'.log == m.log && m'.version == m.phase.puts[c].end && m'.phase.puts == m.phase.puts - {c}
    && !m'.garbled && m'.owner == m.owner && UserData(m'.kv) == UserData(m.kv)
  }

  lemma VersionChanges(m: Machine, c: nat)
    requires m.phase.Serving? && c in m.phase.puts
    ensures VersionedAs(m, VersionStored(m, c), c)
  {
    VersionIsNoUserData(m.kv, m.phase.puts[c].id);
  }

  lemma VersionIsNoUserData(kv: Store, id: SequenceId)
    ensures UserData(VersionWritten(kv, id)) == UserData(kv)
  {
  }

  lemma VersionStep(r: Machine -> bool, m: Machine, c: nat) returns (m': Machine)
    requires Closed(r) && r(m) && m.phase.Serving? && c in m.phase.puts && m.phase.puts[c].stored
    ensures r(m') && VersionedAs(m, m', c)
  {
    assert Enabled(m, StoreVersion(c));
    VersionChanges(m, c);
    m' := After(m, StoreVersion(c));
  }

  ghost predicate CrashedAs(m: Machine, m': Machine) {
    && m'.phase.Down? && m'.log == m.log && m'.version == m.version && m'.garbled == m.garbled
    && m'.owner == m.owner && m'.kv == m.kv
  }

  lemma CrashStep(r: Machine -> bool, m: Machine) returns (m': Machine)
    requires Closed(r) && r(m)
    ensures r(m') && CrashedAs(m, m')
  {
    assert Enabled(m, Crash);
    m' := After(m, Crash);
  }

  // A whole put that the store accepts.
  lemma PutStep(r: Machine -> bool, m: Machine, e: Entry) returns (m': Machine)
    requires Closed(r) && r(m) && m.phase.Serving? && m.phase.puts == map[]
    requires Short(e) && Storable(e.k) && Room(|m.log| + 1)
    ensures r(m') && m'.phase.Serving? && m'.phase.puts == map[] && !m'.garbled
    ensures m'.log == m.log + [CellOf(e)] && m'.version == |m'.log| && m'.owner == m.owner[e.k := |m.log|]
  {
    var m1 := AppendStep(r, m, e);
    var m2 := StoreStep(r, m1, |m.log|, e);
    m' := VersionStep(r, m2, |m.log|);
  }

  lemma NotOwned(m: Machine, k: ByteString)
    requires Inv(m) && k !in m.owner && k != VERSION_KEY
    ensures k !in m.kv
  {
    assert OwnedAt(m.kv, m.log, m.owner, k);
  }

  lemma OwnedValue(m: Machine, k: ByteString)
    requires Inv(m) && k in m.owner && k != VERSION_KEY
    ensures k in m.kv && m.owner[k] < |m.log| && Written(m.log[m.owner[k]]) == Some(Entry(k, m.kv[k]))
  {
    assert OwnedAt(m.kv, m.log, m.owner, k);
  }

  lemma FoldKey(log: seq<Cell>, c: nat, e: Entry)
    requires e.k != VERSION_KEY && c < |log| && log[c].stored == Some(e)
    requires forall d :: c < d < |log| ==> !Marks(log[d].stored, e.k)
    ensures e.k in Applied(log) && Applied(log)[e.k] == e.v
  {
    FoldLast(Stores(log), e.k);
    assert Marks(Stores(log)[c], e.k);
  }

  // ---- one run for each failure ----

  // The first put of all, cut between log and store: the next start serves without it.
  lemma FirstPutLost(e: Entry) returns (m: Machine)
    requires Short(e) && Storable(e.k) && e.k != VERSION_KEY
    ensures Reachable(m) && m.phase.Serving? && m.phase.puts == map[] && m.log == [CellOf(e)]
    ensures e.k !in m.kv && e.k in Applied(m.log) && Applied(m.log)[e.k] == e.v
  {
    ReachableClosed();
    InitialReachable();
    m := FirstPutCut(Reachable, e);
    NotOwned(m, e.k);
    FoldKey(m.log, 0, e);
  }

  lemma FirstPutCut(r: Machine -> bool, e: Entry) returns (m: Machine)
    requires Closed(r) && r(INITIAL) && Short(e)
    ensures r(m) && m.phase.Serving? && m.phase.puts == map[] && m.log == [CellOf(e)] && e.k !in m.owner
  {
    var s := Started(r);
    var logged := AppendStep(r, s, e);
    var down := CrashStep(r, logged);
    m := StartWithout(r, down, e.k);
  }

  // A start with nothing to replay brings no key back.
  lemma StartWithout(r: Machine -> bool, down: Machine, k: ByteString) returns (m: Machine)
    requires Closed(r) && r(down) && down.phase.Down? && !down.garbled
    requires down.version >= |down.log| && k !in down.owner
    ensures r(m) && m.phase.Serving? && m.phase.puts == map[] && m.log == down.log && k !in m.owner
  {
    m := FinishStart(r, down);
    assert Owner(m.owner, k) == Held(down, k);
  }

  // Two puts of one key that overtake each other: the later one reaches the store first.
  lemma OvertakenPut(first: Entry, second: Entry) returns (m: Machine)
    requires Short(first) && Short(second) && Storable(first.k) && first.k == second.k && first.k != VERSION_KEY
    ensures Reachable(m) && m.phase.Serving? && m.phase.puts == map[]
    ensures first.k in m.kv && m.kv[first.k] == first.v
    ensures first.k in Applied(m.log) && Applied(m.log)[first.k] == second.v
  {
    ReachableClosed();
    InitialReachable();
    m := OvertakenOwner(Reachable, first, second);
    OwnedValue(m, first.k);
    FoldKey(m.log, 1, second);
  }

  lemma OvertakenOwner(r: Machine -> bool, first: Entry, second: Entry) returns (m: Machine)
    requires Closed(r) && r(INITIAL)
    requires Short(first) && Short(second) && Storable(first.k) && first.k == second.k
    ensures r(m) && m.phase.Serving? && m.phase.puts == map[]
    ensures m.log == [CellOf(first), CellOf(second)] && first.k in m.owner && m.owner[first.k] == 0
  {
    var s2 := TwoLogged(r, first, second);
    var s3 := StoreStep(r, s2, 1, second);
    var s4 := VersionStep(r, s3, 1);
    var s5 := StoreStep(r, s4, 0, first);
    m := VersionStep(r, s5, 0);
  }

  lemma TwoLogged(r: Machine -> bool, first: Entry, second: Entry) returns (m: Machine)
    requires Closed(r) && r(INITIAL) && Short(first) && Short(second)
    ensures r(m) && m.phase.Serving? && m.log == [CellOf(first), CellOf(second)] && m.owner == map[]
    ensures m.phase.puts.Keys == {0, 1} && !m.phase.puts[0].stored && !m.phase.puts[1].stored
  {
    var s := Started(r);
    var s1 := AppendStep(r, s, first);
    m := AppendStep(r, s1, second);
  }

  // Two puts of different keys and a crash: the later one's version is written, and the earlier one, which has
  // not reached the store, is never replayed.
  lemma CutOffPut(before: Entry, a: Entry, b: Entry) returns (m: Machine)
    requires Short(before) && Short(a) && Short(b) && Storable(before.k) && Storable(a.k) && Storable(b.k)
    requires a.k != b.k && a.k != before.k && a.k != VERSION_KEY
    ensures Reachable(m) && m.phase.Serving? && m.phase.puts == map[]
    ensures a.k !in m.kv && a.k in Applied(m.log) && Applied(m.log)[a.k] == a.v
  {
    ReachableClosed();
    InitialReachable();
    m := CutOffOwner(Reachable, before, a, b);
    NotOwned(m, a.k);
    MiddleOfThree(CellOf(before), CellOf(a), CellOf(b), a);
  }

  lemma MiddleOfThree(x: Cell, y: Cell, z: Cell, e: Entry)
    requires y.stored == Some(e) && !Marks(z.stored, e.k) && e.k != VERSION_KEY
    ensures var fold := Applied([x] + [y] + [z]); e.k in fold && fold[e.k] == e.v
  {
    FoldKey([x] + [y] + [z], 1, e);
  }

  lemma CutOffOwner(r: Machine -> bool, before: Entry, a: Entry, b: Entry) returns (m: Machine)
    requires Closed(r) && r(INITIAL)
    requires Short(before) && Short(a) && Short(b) && Storable(before.k) && Storable(b.k)
    requires a.k != b.k && a.k != before.k
    ensures r(m) && m.phase.Serving? && m.phase.puts == map[]
    ensures m.log == [CellOf(before)] + [CellOf(a)] + [CellOf(b)] && a.k !in m.owner
  {
    var s := FirstPut(r, before, a.k);
    m := CutOffStart(r, s, a, b);
  }

  lemma FirstPut(r: Machine -> bool, e: Entry, other: ByteString) returns (m: Machine)
    requires Closed(r) && r(INITIAL) && Short(e) && Storable(e.k) && other != e.k
    ensures r(m) && m.phase.Serving? && m.phase.puts == map[] && m.log == [CellOf(e)] && other !in m.owner
  {
    var s := Started(r);
    m := PutStep(r, s, e);
  }

  lemma CutOffStart(r: Machine -> bool, s: Machine, a: Entry, b: Entry) returns (m: Machine)
    requires Closed(r) && r(s) && s.phase.Serving? && s.phase.puts == map[] && Room(|s.log| + 2)
    requires Short(a) && Short(b) && Storable(b.k) && a.k != b.k && a.k !in s.owner
    ensures r(m) && m.phase.Serving? && m.phase.puts == map[]
    ensures m.log == s.log + [CellOf(a)] + [CellOf(b)] && a.k !in m.owner
  {
    var down := CutOffCrash(r, s, a, b);
    m := StartWithout(r, down, a.k);
  }

  lemma CutOffCrash(r: Machine -> bool, m: Machine, a: Entry, b: Entry) returns (down: Machine)
    requires Closed(r) && r(m) && m.phase.Serving? && m.phase.puts == map[] && Room(|m.log| + 2)
    requires Short(a) && Short(b) && Storable(b.k) && a.k != b.k
    ensures r(down) && down.phase.Down? && down.log == m.log + [CellOf(a)] + [CellOf(b)]
    ensures !down.garbled && down.version == |down.log| && (a.k !in m.owner ==> a.k !in down.owner)
  {
    var n := |m.log|;
    var s2 := AppendStep(r, m, a);
    var s3 := AppendStep(r, s2, b);
    var s4 := StoreStep(r, s3, n + 1, b);
    var s5 := VersionStep(r, s4, n + 1);
    down := CrashStep(r, s5);
  }

  // Two puts of a key that the store refuses: the second stays behind the version, and every later start fails.
  lemma RefusedPutBlocks(e: Entry) returns (m: Machine)
    requires Short(e) && !Storable(e.k)
    ensures Reachable(m) && m.phase.Recovering? && m.phase.result.ReplayFailed? && Failing(m)
  {
    ReachableClosed();
    InitialReachable();
    m := RefusedTwice(Reachable, e);
  }

  lemma RefusedTwice(r: Machine -> bool, e: Entry) returns (m: Machine)
    requires Closed(r) && r(INITIAL) && Short(e) && !Storable(e.k)
    ensures r(m) && m.phase.Recovering? && m.phase.result.ReplayFailed? && Failing(m)
  {
    var s := RefusedFirst(r, e);
    var logged := AppendStep(r, s, e);
    var down := CrashStep(r, logged);
    FileOfPosition(1, 1);
    assert down.log[0] == CellOf(e);
    m := BootStep(r, down);
  }

  lemma RefusedFirst(r: Machine -> bool, e: Entry) returns (m: Machine)
    requires Closed(r) && r(INITIAL) && Short(e) && !Storable(e.k)
    ensures r(m) && m.phase.Serving? && m.log == [CellOf(e)] && m.version == 1 && !m.garbled
  {
    var s := Started(r);
    var logged := AppendStep(r, s, e);
    m := RefuseStep(r, logged, 0, e);
  }

  // A first put of more than one page, cut between log and store: every later start fails.
  lemma LongPutBlocks(e: Entry) returns (m: Machine)
    requires Loggable(e) && !OnePage(e) && Room(|CellsOf(e)|)
    ensures Reachable(m) && m.phase.Recovering? && m.phase.result.ReplayFailed? && Failing(m)
  {
    ReachableClosed();
    InitialReachable();
    m := LongPutCut(Reachable, e);
  }

  lemma LongPutCut(r: Machine -> bool, e: Entry) returns (m: Machine)
    requires Closed(r) && r(INITIAL) && Loggable(e) && !OnePage(e) && Room(|CellsOf(e)|)
    ensures r(m) && m.phase.Recovering? && m.phase.result.ReplayFailed? && Failing(m)
  {
    var s := Started(r);
    var logged := AppendAny(r, s, e);
    var down := CrashStep(r, logged);
    LongCells(e);
    FileOfPosition(1, 1);
    assert down.log[0] == CellsOf(e)[0];
    m := BootStep(r, down);
  }

  lemma LongCells(e: Entry)
    requires Loggable(e) && !OnePage(e)
    ensures |CellsOf(e)| > 1 && CellsOf(e)[0].replayed == None
  {
    FirstPage(e);
    FragmentsFit(LoggedEntry(e.k, e.v));
  }

  // A put of the store's own key, cut between store and version: its value is what the next start takes for the
  // version, so that the start fails unless the value decodes to one.
  lemma VersionKeyCut(val: ByteString) returns (m: Machine)
    requires Short(Entry(VERSION_KEY, val))
    ensures Reachable(m) && m.phase.Down? && VersionRead(m.kv) == DecodeVersion(val)
    ensures Initialized(m.phase.files, 0, CurrentFile.Closed).Ready? && (val == [] ==> VersionRead(m.kv) == Malformed)
  {
    ReachableClosed();
    InitialReachable();
    VersionKeyStorable();
    m := StoredThenCut(Reachable, Entry(VERSION_KEY, val));
    VersionKeyPut(m.kv, val);
    assert Inv(m);
    var s := Reopened(m);
  }

  lemma StoredThenCut(r: Machine -> bool, e: Entry) returns (m: Machine)
    requires Closed(r) && r(INITIAL) && Short(e) && Storable(e.k)
    ensures r(m) && m.phase.Down? && m.kv == m.kv[e.k := e.v]
  {
    var s := Started(r);
    var s1 := AppendStep(r, s, e);
    var s2 := StoreStep(r, s1, 0, e);
    m := CrashStep(r, s2);
  }

  // ---- a page inside an entry that decodes by itself ----

  const KEY_A: ByteString := [0x61]

  // What precedes the flag in a short encoded entry.
  function Body(e: Entry): ByteString {
    MAP_K + (EncodeBytes(e.k) + (FIELD_V + EncodeBytes(e.v)))
  }

  // An entry of two pages whose second page is itself the log record of the inner entry.
  function Nested(inner: Entry): Entry {
    Entry(KEY_A, Zeroes(4078) + Body(inner))
  }

  lemma NestedBytes(inner: Entry, front: ByteString)
    requires |Body(inner)| < 4000
    requires var v := Nested(inner).v;
             front == MAP_K + (EncodeBytes(KEY_A) + (FIELD_V + (Head(BYTE_STRING, |v|) + Zeroes(4078))))
    ensures |front| == RECORD_MAX && LoggedEntry(KEY_A, Nested(inner).v) == front + LoggedEntry(inner.k, inner.v)
  {
    var v, flag := Nested(inner).v, FIELD_D + EncodeBool(false);
    assert |EncodeBytes(KEY_A)| == 2 && |Head(BYTE_STRING, |v|)| == 3;
    assert Body(inner) + flag == LoggedEntry(inner.k, inner.v);
    assert front + (Body(inner) + flag)
        == MAP_K + (EncodeBytes(KEY_A) + (FIELD_V + (Head(BYTE_STRING, |v|) + (Zeroes(4078) + Body(inner)) + flag)));
  }

  lemma TwoFragments(whole: ByteString, front: ByteString, back: ByteString)
    requires whole == front + back && |front| == RECORD_MAX && 0 < |back| <= RECORD_MAX
    ensures Fragments(whole) == [Record(START, front), Record(END, back)]
  {
    assert whole[0..RECORD_MAX] == front && whole[RECORD_MAX..] == back;
    assert FragmentsFrom(whole, RECORD_MAX) == [Record(END, back)];
  }

  lemma NestedFragments(inner: Entry) returns (front: ByteString)
    requires |Body(inner)| < 4000
    ensures var whole := LoggedEntry(KEY_A, Nested(inner).v);
            Fragments(whole) == [Record(START, front), Record(END, LoggedEntry(inner.k, inner.v))]
  {
    var v := Nested(inner).v;
    front := MAP_K + (EncodeBytes(KEY_A) + (FIELD_V + (Head(BYTE_STRING, |v|) + Zeroes(4078))));
    var back := LoggedEntry(inner.k, inner.v);
    NestedBytes(inner, front);
    BodyAndFlag(inner);
    TwoFragments(LoggedEntry(KEY_A, v), front, back);
  }

  lemma BodyAndFlag(e: Entry)
    ensures LoggedEntry(e.k, e.v) == Body(e) + (FIELD_D + EncodeBool(false))
  {
  }

  lemma InnerDecodes(inner: Entry)
    requires Storable(inner.k) && Loggable(inner)
    ensures WriteOf(LoggedEntry(inner.k, inner.v)) == Some(inner)
  {
    EntryRoundTrip(WalEntry(inner.k, inner.v, false));
  }

  lemma TwoCells(e: Entry, front: ByteString, back: ByteString, w: Option<Entry>)
    requires Fragments(LoggedEntry(e.k, e.v)) == [Record(START, front), Record(END, back)] && WriteOf(back) == w
    ensures var cells := CellsOf(e);
            |cells| == 2 && cells[0].put == Some(e) && cells[0].stored == StoredBy(e)
            && cells[1].put == None && cells[1].stored == None && cells[1].replayed == w
  {
  }

  lemma KeyAStorable()
    ensures Storable(KEY_A) && KEY_A != VERSION_KEY
  {
  }

  lemma NestedUser(inner: Entry)
    requires |Body(inner)| < 4000
    ensures Loggable(Nested(inner)) && StoredBy(Nested(inner)) == Some(Nested(inner))
  {
    KeyAStorable();
  }

  lemma NestedCells(inner: Entry)
    requires |Body(inner)| < 4000 && Storable(inner.k) && Loggable(inner)
    ensures var e, cells := Nested(inner), CellsOf(Nested(inner));
            |cells| == 2 && cells[0].put == Some(e) && cells[0].stored == Some(e)
            && cells[1].put == None && cells[1].stored == None && cells[1].replayed == Some(inner)
  {
    var front := NestedFragments(inner);
    InnerDecodes(inner);
    TwoCells(Nested(inner), front, LoggedEntry(inner.k, inner.v), Some(inner));
    NestedUser(inner);
  }

  // A log of so many one-page puts of one key.
  lemma {:induction false} Filled(r: Machine -> bool, e: Entry, n: nat) returns (m: Machine)
    requires Closed(r) && r(INITIAL) && Short(e) && Storable(e.k) && Room(n)
    ensures r(m) && m.phase.Serving? && m.phase.puts == map[] && |m.log| == n
    ensures forall c :: 0 <= c < n ==> m.log[c] == CellOf(e)
    decreases n
  {
    if n == 0 {
      m := Started(r);
    } else {
      var before := Filled(r, e, n - 1);
      m := PutStep(r, before, e);
    }
  }

  // The nested entry put over the end of a file, then a put that a crash cuts before its store write.
  lemma NestedCrash(r: Machine -> bool, m: Machine, inner: Entry, e: Entry) returns (down: Machine)
    requires Closed(r) && r(m) && m.phase.Serving? && m.phase.puts == map[] && Room(|m.log| + 3)
    requires Short(e) && |Body(inner)| < 4000 && Storable(inner.k) && Loggable(inner)
    ensures r(down) && down.phase.Down? && down.log == m.log + CellsOf(Nested(inner)) + [CellOf(e)]
    ensures |CellsOf(Nested(inner))| == 2 && !down.garbled && down.version == |m.log| + 2
  {
    var long, n := Nested(inner), |m.log|;
    NestedCells(inner);
    var s1 := AppendAny(r, m, long);
    assert s1.log[n] == CellsOf(long)[0] && Storable(long.k);
    var s2 := StoreStep(r, s1, n, long);
    var s3 := VersionStep(r, s2, n);
    var s4 := AppendStep(r, s3, e);
    down := CrashStep(r, s4);
  }

  // A start then succeeds, by a replay that begins inside the nested entry, and writes a key that nobody put.
  lemma NobodysKey(inner: Entry, e: Entry, pages: nat) returns (m: Machine)
    requires pages == PAGES_PER_FILE
    requires |Body(inner)| < 4000 && Storable(inner.k) && Loggable(inner) && inner.k != KEY_A && inner.k != VERSION_KEY
    requires Short(e) && e.k == KEY_A
    ensures Reachable(m) && m.phase.Serving? && m.phase.puts == map[]
    ensures inner.k in m.kv && m.kv[inner.k] == inner.v && inner.k !in Applied(m.log)
  {
    ReachableClosed();
    InitialReachable();
    m := NobodysOwner(Reachable, inner, e, pages);
  }

  lemma NobodysOwner(r: Machine -> bool, inner: Entry, e: Entry, pages: nat) returns (m: Machine)
    requires Closed(r) && r(INITIAL) && pages == PAGES_PER_FILE
    requires |Body(inner)| < 4000 && Storable(inner.k) && Loggable(inner)
    requires inner.k != KEY_A && inner.k != VERSION_KEY && Short(e) && e.k == KEY_A
    ensures r(m) && m.phase.Serving? && m.phase.puts == map[]
    ensures inner.k in m.kv && m.kv[inner.k] == inner.v && inner.k !in Applied(m.log)
  {
    KeyAStorable();
    var full := Filled(r, e, pages - 1);
    NestedCells(inner);
    var down := NestedCrash(r, full, inner, e);
    NestedLog(full.log, CellsOf(Nested(inner)), e, down.log, inner.k);
    m := NestedStart(r, down, inner, e, pages);
  }

  lemma NestedLog(log: seq<Cell>, cells: seq<Cell>, e: Entry, all: seq<Cell>, k: ByteString)
    requires Short(e) && all == log + cells + [CellOf(e)] && |cells| == 2 && k != e.k
    requires forall c :: 0 <= c < |log| ==> log[c] == CellOf(e)
    requires cells[0].stored.Some? && cells[0].stored.value.k != k && cells[1].stored == None
    ensures k !in Applied(all)
    ensures all[|log| + 1] == cells[1] && all[|log| + 2] == CellOf(e)
  {
    forall c | 0 <= c < |all| ensures !Marks(all[c].stored, k) {
      assert c < |log| ==> all[c] == CellOf(e);
    }
    NobodyPut(all, k);
  }

  lemma ReplayedInner(down: Machine, inner: Entry, e: Entry, pages: nat)
    requires down.phase.Down? && pages == PAGES_PER_FILE
    requires |down.log| == pages + 2 && down.version == pages + 1
    requires down.log[pages].replayed == Some(inner) && down.log[pages + 1].replayed == Some(e) && e.k != inner.k
    ensures !Stuck(down) && Held(down, inner.k) == Some(pages)
  {
    assert ReplayStart(down) == pages;
    var marks := Replays(down.log);
    assert Marks(marks[pages], inner.k) && !Marks(marks[pages + 1], inner.k);
  }

  lemma NestedStart(r: Machine -> bool, down: Machine, inner: Entry, e: Entry, pages: nat) returns (m: Machine)
    requires Closed(r) && r(down) && down.phase.Down? && pages == PAGES_PER_FILE
    requires |down.log| == pages + 2 && down.version == pages + 1
    requires down.log[pages].put == None && down.log[pages].replayed == Some(inner)
    requires down.log[pages + 1].replayed == Some(e) && e.k != inner.k && inner.k != VERSION_KEY
    requires !down.garbled
    ensures r(m) && m.phase.Serving? && m.phase.puts == map[] && m.log == down.log
    ensures inner.k in m.kv && m.kv[inner.k] == inner.v
  {
    ReplayedInner(down, inner, e, pages);
    m := FinishStart(r, down);
    assert Owner(m.owner, inner.k) == Held(down, inner.k);
    OwnerValue(r, m, inner.k);
  }

  lemma OwnerValue(r: Machine -> bool, m: Machine, k: ByteString)
    requires Closed(r) && r(m) && k in m.owner && k != VERSION_KEY
    ensures k in m.kv && m.owner[k] < |m.log| && Written(m.log[m.owner[k]]) == Some(Entry(k, m.kv[k]))
  {
    OwnedValue(m, k);
  }

  lemma NobodyPut(log: seq<Cell>, k: ByteString)
    requires forall c :: 0 <= c < |log| ==> !Marks(log[c].stored, k)
    ensures k !in Applied(log)
  {
    FoldLast(Stores(log), k);
  }
}
