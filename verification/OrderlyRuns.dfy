// Runs in which overlapping puts keep to an order: then the store is the fold of the log, the very first put aside.
module OrderlyRuns {
  import opened Bytes
  import opened DiskWal
  import opened SoleStorage
  import opened WalReplay
  import opened Recovery
  import opened RecoveryExact
  import opened Options

  // No page inside an entry decodes by itself; a put reaches the store before any later put of its key; and a
  // version is written only when all puts logged before it are done. Crashes may come at any time.
  ghost predicate Orderly(m: Machine, step: Step)
    requires Enabled(m, step)
  {
    match step
    case Append(e) => forall i :: 1 <= i < |CellsOf(e)| ==> CellsOf(e)[i].replayed == None
    case StoreEntry(c) => m.log[c].stored.Some? ==> !Overtaken(m, c)
    case StoreVersion(c) => forall d :: d in m.phase.puts && d < c ==> m.phase.puts[d].stored
    case _ => true
  }

  ghost predicate OrderlyRun(m: Machine, steps: seq<Step>)
    decreases steps
  {
    steps != [] && Enabled(m, steps[0]) ==> Orderly(m, steps[0]) && OrderlyRun(After(m, steps[0]), steps[1..])
  }

  predicate PlainLog(log: seq<Cell>) {
    forall c :: 0 <= c < |log| && log[c].put.None? ==> log[c].replayed.None?
  }

  // What is not done yet lies after the version, or is the very first put.
  ghost predicate Ahead(puts: map<nat, InFlight>, version: nat) {
    forall d :: d in puts && !puts[d].stored ==> d >= version || (d == 0 && version == 1)
  }

  // The first put was cut short, nothing later has its key, and no replay will reach it.
  ghost predicate TornAt(m: Machine, k: ByteString) {
    && m.torn && Intended(m, k) == Some(0)
    && match m.phase
       case Down(_) => ReplayStart(m) > 0
       case Recovering(_, next, _, _) => next > 0
       case Serving(_, _) => true
  }

  ghost predicate OrderInv(m: Machine) {
    && PlainLog(m.log)
    && (m.torn ==> m.log != [])
    && (m.phase.Serving? ==> Ahead(m.phase.puts, m.version) && (m.torn ==> 0 !in m.phase.puts))
    && (m.phase.Recovering? && m.torn && m.phase.next > 0 ==> ReplayStart(m) > 0)
  }

  ghost predicate TornOnly(m: Machine) {
    forall k :: ExactAt(m, k) <==> !TornAt(m, k)
  }

  ghost predicate OrderlyInv(m: Machine) {
    OrderInv(m) && (Failing(m) || TornOnly(m))
  }

  // ---- the steps ----

  lemma PlainGrows(log: seq<Cell>, more: seq<Cell>)
    requires PlainLog(log) && more != [] && more[0].put.Some?
    requires forall i :: 1 <= i < |more| ==> more[i].replayed == None
    ensures PlainLog(log + more)
  {
    var all := log + more;
    forall c | 0 <= c < |all| && all[c].put.None? ensures all[c].replayed.None? {
      assert c < |log| ==> all[c] == log[c];
      assert c >= |log| ==> all[c] == more[c - |log|];
    }
  }

  lemma AppendOrder(m: Machine, e: Entry)
    requires Inv(m) && OrderInv(m) && Enabled(m, Append(e)) && Orderly(m, Append(e))
    ensures OrderInv(EntryLogged(m, e))
  {
    CellsOk(e);
    PlainGrows(m.log, CellsOf(e));
  }

  lemma AppendTorn(m: Machine, e: Entry, k: ByteString)
    requires Enabled(m, Append(e))
    ensures TornAt(EntryLogged(m, e), k) <==> TornAt(m, k)
  {
    TailStoresNothing(e);
    PendingAppended(m.log, CellsOf(e), m.phase.puts, EntryLogged(m, e).phase.puts[|m.log|], k);
  }

  lemma AppendOrderly(m: Machine, e: Entry)
    requires Inv(m) && OrderlyInv(m) && Enabled(m, Append(e)) && Orderly(m, Append(e))
    ensures OrderlyInv(EntryLogged(m, e))
  {
    AppendOrder(m, e);
    forall k ensures ExactAt(EntryLogged(m, e), k) <==> !TornAt(EntryLogged(m, e), k) {
      AppendExact(m, e, k);
      AppendTorn(m, e, k);
      assert ExactAt(m, k) <==> !TornAt(m, k);
    }
  }

  lemma StoreTorn(m: Machine, c: nat, k: ByteString)
    requires Enabled(m, StoreEntry(c)) && Orderly(m, StoreEntry(c)) && PutInv(m, c, m.phase.puts[c]) && CellOk(m.log[c])
    requires m.torn ==> c != 0
    ensures TornAt(EntryStored(m, c), k) <==> TornAt(m, k) && !Marks(m.log[c].stored, k)
  {
    var puts := m.phase.puts;
    if Storable(m.log[c].put.value.k) {
      PutStored(m.log, puts, puts[c].(stored := true), c, k);
    } else {
      PutRemoved(m.log, puts, c, k);
    }
  }

  lemma StoreOrder(m: Machine, c: nat)
    requires OrderInv(m) && Enabled(m, StoreEntry(c))
    ensures OrderInv(EntryStored(m, c)) && (m.torn ==> c != 0)
  {
  }

  lemma StoreTornOnly(m: Machine, c: nat, k: ByteString)
    requires Enabled(m, StoreEntry(c)) && Orderly(m, StoreEntry(c)) && PutInv(m, c, m.phase.puts[c]) && CellOk(m.log[c])
    requires (m.torn ==> c != 0) && (ExactAt(m, k) <==> !TornAt(m, k))
    ensures ExactAt(EntryStored(m, c), k) <==> !TornAt(EntryStored(m, c), k)
  {
    StoreExact(m, c, k);
    StoreTorn(m, c, k);
  }

  lemma StoreOrderly(m: Machine, c: nat)
    requires Inv(m) && OrderlyInv(m) && Enabled(m, StoreEntry(c)) && Orderly(m, StoreEntry(c))
    ensures OrderlyInv(EntryStored(m, c))
  {
    PutsInv(m, c);
    StoreOrder(m, c);
    forall k ensures ExactAt(EntryStored(m, c), k) <==> !TornAt(EntryStored(m, c), k) {
      assert ExactAt(m, k) <==> !TornAt(m, k);
      StoreTornOnly(m, c, k);
    }
  }

  lemma LaterPut(m: Machine, c: nat, d: nat)
    requires Inv(m) && m.phase.Serving? && c in m.phase.puts && d in m.phase.puts && d > c
    ensures d >= m.phase.puts[c].end
  {
    PutsInv(m, c);
    PutsInv(m, d);
  }

  lemma AheadOfPut(puts: map<nat, InFlight>, c: nat)
    requires c in puts && (forall d :: d in puts && d < c ==> puts[d].stored)
    requires forall d :: d in puts && d > c ==> d >= puts[c].end
    ensures Ahead(puts - {c}, puts[c].end)
  {
  }

  lemma VersionAhead(m: Machine, c: nat)
    requires Inv(m) && OrderInv(m) && Enabled(m, StoreVersion(c)) && Orderly(m, StoreVersion(c))
    ensures OrderInv(VersionStored(m, c))
  {
    var puts := m.phase.puts;
    forall d | d in puts && d > c ensures d >= puts[c].end {
      LaterPut(m, c, d);
    }
    AheadOfPut(puts, c);
  }

  lemma VersionOrderly(m: Machine, c: nat)
    requires Inv(m) && OrderlyInv(m) && Enabled(m, StoreVersion(c)) && Orderly(m, StoreVersion(c))
    ensures OrderlyInv(VersionStored(m, c))
  {
    VersionAhead(m, c);
    forall k ensures ExactAt(VersionStored(m, c), k) <==> !TornAt(VersionStored(m, c), k) {
      VersionExact(m, c, k);
      PutRemoved(m.log, m.phase.puts, c, k);
      assert ExactAt(m, k) <==> !TornAt(m, k);
    }
  }

  // ---- crashes ----

  // A replay that gets through writes what the puts wrote.
  lemma PlainReplay(m: Machine, k: ByteString, c: nat)
    requires LogOk(m.log) && PlainLog(m.log) && !Stuck(m) && ReplayStart(m) <= c < |m.log|
    ensures m.log[c].replayed == m.log[c].stored
  {
    assert CellOk(m.log[c]) && m.log[c].replayed.Some?;
    PutCell(m.log[c]);
  }

  lemma SameAbove(some: seq<Option<Entry>>, all: seq<Option<Entry>>, lo: nat, k: ByteString)
    requires |some| == |all| && forall c :: lo <= c < |all| ==> some[c] == all[c]
    ensures var last := LastOf(all, 0, k);
            if last.Some? && last.value >= lo then LastOf(some, lo, k) == last else LastOf(some, lo, k) == None
  {
  }

  lemma PlainLast(m: Machine, k: ByteString)
    requires LogOk(m.log) && PlainLog(m.log) && !Stuck(m)
    ensures var replayed, last := LastOf(Replays(m.log), ReplayStart(m), k), LastPut(m.log, k);
            if last.Some? && last.value >= ReplayStart(m) then replayed == last else replayed == None
  {
    var replays, stores := Replays(m.log), Stores(m.log);
    forall c | ReplayStart(m) <= c < |m.log| ensures replays[c] == stores[c] {
      PlainReplay(m, k, c);
    }
    SameAbove(replays, stores, ReplayStart(m), k);
  }

  // A put that is not done and that no replay reaches is the very first.
  lemma CutIsFirst(m: Machine, d: nat)
    requires m.phase.Serving? && Ahead(m.phase.puts, m.version) && m.version >= 1
    requires d in m.phase.puts && !m.phase.puts[d].stored && d < ReplayStart(m) <= |m.log|
    ensures d == 0 && TearsFirstPut(m)
  {
    StartBefore(m.version);
    FileOfPosition(1, 1);
  }

  lemma LogInRange(m: Machine)
    requires Inv(m)
    ensures LogOk(m.log) && ReplayStart(m) <= |m.log| && (m.phase.Serving? ==> m.version >= 1)
  {
    StartBefore(m.version);
  }

  // The last put is cut.
  lemma CutTorn(m: Machine, k: ByteString, last: nat)
    requires m.phase.Serving? && Ahead(m.phase.puts, m.version) && m.version >= 1 && ReplayStart(m) <= |m.log|
    requires LastPut(m.log, k) == Some(last) && !Finished(m.phase.puts, last)
    requires var replayed := LastOf(Replays(m.log), ReplayStart(m), k);
             if last >= ReplayStart(m) then replayed == Some(last) else replayed == None
    ensures Survives(m, k, ExactAt(m, k)) <==> !TornAt(Crashed(m), k)
  {
    if last < ReplayStart(m) {
      CutIsFirst(m, last);
    }
  }

  // The last put is done, or there is none.
  lemma DoneTorn(m: Machine, k: ByteString)
    requires m.phase.Serving? && (m.torn ==> 0 !in m.phase.puts) && (ExactAt(m, k) <==> !TornAt(m, k))
    requires LastPut(m.log, k).Some? ==> Finished(m.phase.puts, LastPut(m.log, k).value)
    requires var replayed, last := LastOf(Replays(m.log), ReplayStart(m), k), LastPut(m.log, k);
             if last.Some? && last.value >= ReplayStart(m) then replayed == last else replayed == None
    ensures Survives(m, k, ExactAt(m, k)) <==> !TornAt(Crashed(m), k)
  {
    LastDoneIsLast(m.log, m.phase.puts, k);
  }

  lemma CrashTorn(m: Machine, k: ByteString)
    requires Inv(m) && OrderInv(m) && m.phase.Serving? && !Stuck(m) && (ExactAt(m, k) <==> !TornAt(m, k))
    ensures Survives(m, k, ExactAt(m, k)) <==> !TornAt(Crashed(m), k)
  {
    LogInRange(m);
    PlainLast(m, k);
    var last := LastPut(m.log, k);
    if last.Some? && !Finished(m.phase.puts, last.value) {
      CutTorn(m, k, last.value);
    } else {
      DoneTorn(m, k);
    }
  }

  lemma CrashOrder(m: Machine)
    requires OrderInv(m)
    ensures OrderInv(Crashed(m))
  {
  }

  lemma ServingCrashOrderly(m: Machine)
    requires Inv(m) && OrderlyInv(m) && m.phase.Serving?
    ensures OrderlyInv(Crashed(m))
  {
    CrashOrder(m);
    if !Stuck(m) {
      forall k ensures ExactAt(Crashed(m), k) <==> !TornAt(Crashed(m), k) {
        assert ExactAt(m, k) <==> !TornAt(m, k);
        ServingCrash(m, k);
        CrashTorn(m, k);
      }
    }
  }

  lemma OtherCrashOrderly(m: Machine)
    requires Inv(m) && OrderlyInv(m) && !m.phase.Serving?
    ensures OrderlyInv(Crashed(m))
  {
    CrashOrder(m);
    if !Failing(m) {
      forall k ensures ExactAt(Crashed(m), k) <==> !TornAt(Crashed(m), k) {
        assert ExactAt(m, k) <==> !TornAt(m, k);
        if m.phase.Recovering? {
          NextInLog(m);
          RecoveringCrash(m, k);
        }
      }
    }
  }

  // ---- starts ----

  lemma StartTorn(m: Machine, step: Step, k: ByteString)
    requires Inv(m) && OrderInv(m) && Enabled(m, step) && (step.Boot? || step.RecoverOne? || step.FinishBoot?)
    ensures TornAt(After(m, step), k) <==> TornAt(m, k)
  {
    StartIntended(m, step, k);
    match step
    case Boot => BootKeeps(m);
    case RecoverOne =>
    case FinishBoot => FinishBootKeeps(m);
  }

  lemma StartOrder(m: Machine, step: Step)
    requires Inv(m) && OrderInv(m) && Enabled(m, step) && (step.Boot? || step.RecoverOne? || step.FinishBoot?)
    ensures OrderInv(After(m, step))
  {
    if step.Boot? {
      BootKeeps(m);
    }
  }

  lemma StartOrderly(m: Machine, step: Step)
    requires Inv(m) && OrderlyInv(m) && Enabled(m, step) && (step.Boot? || step.RecoverOne? || step.FinishBoot?)
    ensures OrderlyInv(After(m, step))
  {
    StartOrder(m, step);
    if Failing(m) {
      FailingStep(m, step);
    } else {
      forall k ensures ExactAt(After(m, step), k) <==> !TornAt(After(m, step), k) {
        assert ExactAt(m, k) <==> !TornAt(m, k);
        StartHeld(m, step, k);
        StartIntended(m, step, k);
        StartTorn(m, step, k);
      }
    }
  }

  lemma OrderlyStep(m: Machine, step: Step)
    requires Inv(m) && OrderlyInv(m) && Enabled(m, step) && Orderly(m, step)
    ensures OrderlyInv(After(m, step))
  {
    match step
    case Append(e) => AppendOrderly(m, e);
    case StoreEntry(c) => StoreOrderly(m, c);
    case StoreVersion(c) => VersionOrderly(m, c);
    case Crash =>
      if m.phase.Serving? {
        ServingCrashOrderly(m);
      } else {
        OtherCrashOrderly(m);
      }
    case _ => StartOrderly(m, step);
  }

  lemma {:induction false} OrderlyRunKeeps(m: Machine, steps: seq<Step>, m': Machine)
    requires Inv(m) && OrderlyInv(m) && Reaches(m, steps, m') && OrderlyRun(m, steps)
    ensures Inv(m') && OrderlyInv(m')
    decreases steps
  {
    if steps != [] {
      StepKeeps(m, steps[0]);
      OrderlyStep(m, steps[0]);
      OrderlyRunKeeps(After(m, steps[0]), steps[1..], m');
    }
  }

  lemma InitialOrderly()
    ensures Inv(INITIAL) && OrderlyInv(INITIAL)
  {
    InitialInv();
  }

  // ---- the store ----

  // The first put is missing, and no later put has its key.
  predicate FirstMissing(m: Machine) {
    m.torn && m.log != [] && m.log[0].stored.Some? && m.log[0].stored.value.k != VERSION_KEY
    && LastPut(m.log, m.log[0].stored.value.k) == Some(0)
  }

  lemma TornKey(m: Machine, k: ByteString)
    requires m.phase.Serving? && m.phase.puts == map[] && TornAt(m, k) && k != VERSION_KEY
    ensures FirstMissing(m) && k == m.log[0].stored.value.k
  {
    IdleIntends(m, k);
  }

  // In a plain log a page that owns a key is a put of it.
  lemma OwnerIsPut(m: Machine, k: ByteString)
    requires LogInv(m) && PlainLog(m.log) && k in m.owner && k != VERSION_KEY
    ensures m.owner[k] < |m.log| && Marks(m.log[m.owner[k]].stored, k)
  {
    assert OwnedAt(m.kv, m.log, m.owner, k);
  }

  lemma MissingNotExact(m: Machine)
    requires m.phase.Serving? && m.phase.puts == map[] && FirstMissing(m) && TornOnly(m)
    ensures Owner(m.owner, m.log[0].stored.value.k) != Some(0)
  {
    var k := m.log[0].stored.value.k;
    IdleIntends(m, k);
    assert TornAt(m, k);
    assert !ExactAt(m, k);
  }

  lemma MissingDiffers(m: Machine)
    requires LogInv(m) && PlainLog(m.log) && m.phase.Serving? && m.phase.puts == map[] && FirstMissing(m)
    requires TornOnly(m)
    ensures var k := m.log[0].stored.value.k;
            !SameWrite(m.log, Owner(m.owner, k), LastPut(m.log, k))
  {
    var k := m.log[0].stored.value.k;
    MissingNotExact(m);
    if k in m.owner {
      OwnerIsPut(m, k);
      assert Marks(Stores(m.log)[m.owner[k]], k);
    }
  }

  // Over every orderly run, with entries of any length: a store that serves with nothing in flight is the fold of
  // the log, unless the very first put was cut between log and store and has not been replayed or overwritten.
  lemma StartedStoreExact(steps: seq<Step>, m: Machine)
    requires Reaches(INITIAL, steps, m) && OrderlyRun(INITIAL, steps) && m.phase.Serving? && m.phase.puts == map[]
    ensures UserData(m.kv) == Applied(m.log) <==> !FirstMissing(m)
  {
    InitialOrderly();
    OrderlyRunKeeps(INITIAL, steps, m);
    StoreIsFold(m);
    if FirstMissing(m) {
      MissingDiffers(m);
    } else {
      forall k | k != VERSION_KEY ensures SameWrite(m.log, Owner(m.owner, k), LastPut(m.log, k)) {
        IdleIntends(m, k);
        if TornAt(m, k) {
          TornKey(m, k);
        } else {
          assert ExactAt(m, k);
        }
      }
    }
  }

  // No crash of the run falls between the log append and the store write of the very first put.
  ghost predicate FirstPutWhole(m: Machine, steps: seq<Step>)
    decreases steps
  {
    steps != [] && Enabled(m, steps[0]) ==>
      !(steps[0].Crash? && TearsFirstPut(m)) && FirstPutWhole(After(m, steps[0]), steps[1..])
  }

  lemma {:induction false} NeverTorn(m: Machine, steps: seq<Step>, m': Machine)
    requires Reaches(m, steps, m') && FirstPutWhole(m, steps) && !m.torn
    ensures !m'.torn
    decreases steps
  {
    if steps != [] {
      NeverTorn(After(m, steps[0]), steps[1..], m');
    }
  }

  lemma StartedStoreIsFold(steps: seq<Step>, m: Machine)
    requires Reaches(INITIAL, steps, m) && OrderlyRun(INITIAL, steps) && m.phase.Serving? && m.phase.puts == map[]
    requires FirstPutWhole(INITIAL, steps)
    ensures UserData(m.kv) == Applied(m.log)
  {
    NeverTorn(INITIAL, steps, m);
    StartedStoreExact(steps, m);
  }
}
