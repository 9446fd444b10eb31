// When the store is the fold of the log: which steps of overlapping puts, crashes and restarts decide it, key by
// key, and what a start makes of it.
module RecoveryExact {
  import opened Bytes
  import opened DiskWal
  import opened SoleStorage
  import opened Recovery
  import opened Options

  function Owner(owner: map<ByteString, nat>, k: ByteString): Option<nat> {
    if k in owner then Some(owner[k]) else None
  }

  // A put is done unless it is still between its log append and its store write.
  predicate Finished(puts: map<nat, InFlight>, c: nat) {
    c in puts ==> puts[c].stored
  }

  function DoneStores(log: seq<Cell>, puts: map<nat, InFlight>): (marks: seq<Option<Entry>>)
    ensures |marks| == |log|
  {
    seq(|log|, i requires 0 <= i < |log| => if Finished(puts, i) then log[i].stored else None)
  }

  function LastDone(log: seq<Cell>, puts: map<nat, InFlight>, k: ByteString): Option<nat> {
    LastOf(DoneStores(log, puts), 0, k)
  }

  function LastPut(log: seq<Cell>, k: ByteString): Option<nat> {
    LastOf(Stores(log), 0, k)
  }

  // The page of the last write to the key after a replay from page lo.
  function Expected(log: seq<Cell>, owner: map<ByteString, nat>, lo: nat, k: ByteString): Option<nat> {
    var replayed := LastOf(Replays(log), lo, k);
    if replayed.Some? then replayed else Owner(owner, k)
  }

  // The page whose value the store holds for a key, once what is due has been replayed.
  function Held(m: Machine, k: ByteString): Option<nat> {
    match m.phase
    case Down(_) => Expected(m.log, m.owner, ReplayStart(m), k)
    case Recovering(_, next, _, _) => Expected(m.log, m.owner, next, k)
    case Serving(_, _) => Owner(m.owner, k)
  }

  // The page whose value it should hold: the last put of the key that is done.
  function Intended(m: Machine, k: ByteString): Option<nat> {
    if m.phase.Serving? then LastDone(m.log, m.phase.puts, k) else LastPut(m.log, k)
  }

  predicate ExactAt(m: Machine, k: ByteString) {
    Held(m, k) == Intended(m, k)
  }

  // ---- the steps that decide ----

  // A later put of the same key is done already.
  ghost predicate Overtaken(m: Machine, c: nat)
    requires m.phase.Serving? && c < |m.log| && m.log[c].stored.Some?
  {
    exists d :: c < d < |m.log| && Finished(m.phase.puts, d) && Marks(m.log[d].stored, m.log[c].stored.value.k)
  }

  // A crash now does no harm to the key: of the pages that the next start replays, the last that writes the key
  // is its last put; or none writes it, its last put is done, and the key was exact.
  predicate Survives(m: Machine, k: ByteString, exact: bool)
    requires m.phase.Serving?
  {
    var replayed, last := LastOf(Replays(m.log), ReplayStart(m), k), LastPut(m.log, k);
    if replayed.Some? then replayed == last
    else exact && (last.Some? ==> Finished(m.phase.puts, last.value))
  }

  // Whether a key is exact after a step, from what is known before it: the log, the puts in flight, the version,
  // and whether the key was exact.
  ghost predicate Upheld(m: Machine, step: Step, k: ByteString, exact: bool)
    requires Enabled(m, step)
  {
    match step
    case StoreEntry(c) => if Marks(m.log[c].stored, k) then !Overtaken(m, c) else exact
    case Crash => if m.phase.Serving? then Survives(m, k, exact) else exact
    case _ => exact
  }

  // ---- marks ----

  // Marks with the same meaning for a key have the same last page.
  lemma LastSame(a: seq<Option<Entry>>, b: seq<Option<Entry>>, lo: nat, k: ByteString)
    requires |a| <= |b|
    requires forall c :: lo <= c < |a| ==> (Marks(a[c], k) <==> Marks(b[c], k))
    requires forall c :: |a| <= c < |b| ==> !Marks(b[c], k)
    ensures LastOf(a, lo, k) == LastOf(b, lo, k)
  {
  }

  lemma SameFromLast(some: seq<Option<Entry>>, all: seq<Option<Entry>>, k: ByteString)
    requires |some| == |all| && forall c :: 0 <= c < |all| && Marks(some[c], k) ==> Marks(all[c], k)
    requires LastOf(all, 0, k).Some? ==> Marks(some[LastOf(all, 0, k).value], k)
    ensures LastOf(some, 0, k) == LastOf(all, 0, k)
  {
  }

  // Marking one more page makes it the last exactly if no later page is marked.
  lemma OneMark(before: seq<Option<Entry>>, after: seq<Option<Entry>>, c: nat, k: ByteString)
    requires |before| == |after| && c < |after| && forall d :: 0 <= d < |after| && d != c ==> before[d] == after[d]
    requires Marks(after[c], k)
    ensures LastOf(after, 0, k) == Some(c) <==> forall d :: c < d < |after| ==> !Marks(after[d], k)
  {
  }

  lemma PendingAppended(log: seq<Cell>, more: seq<Cell>, puts: map<nat, InFlight>, put: InFlight, k: ByteString)
    requires !put.stored && more != [] && forall i :: 1 <= i < |more| ==> more[i].stored == None
    ensures LastDone(log + more, puts[|log| := put], k) == LastDone(log, puts, k)
  {
    var before, after := DoneStores(log, puts), DoneStores(log + more, puts[|log| := put]);
    forall c | |log| <= c < |after| ensures after[c] == None {
      assert (log + more)[c] == more[c - |log|];
    }
    LastSame(before, after, 0, k);
  }

  lemma PutRemoved(log: seq<Cell>, puts: map<nat, InFlight>, c: nat, k: ByteString)
    requires c in puts && (puts[c].stored || (c < |log| && log[c].stored == None))
    ensures LastDone(log, puts - {c}, k) == LastDone(log, puts, k)
  {
    LastSame(DoneStores(log, puts), DoneStores(log, puts - {c}), 0, k);
  }

  lemma PutStored(log: seq<Cell>, puts: map<nat, InFlight>, put: InFlight, c: nat, k: ByteString)
    requires c < |log| && log[c].stored.Some? && put.stored
    ensures var last := LastDone(log, puts[c := put], k);
            if Marks(log[c].stored, k)
            then last == Some(c) <==> !exists d :: c < d < |log| && Finished(puts, d) && Marks(log[d].stored, k)
            else last == LastDone(log, puts, k)
  {
    var before, after := DoneStores(log, puts), DoneStores(log, puts[c := put]);
    if Marks(log[c].stored, k) {
      OneMark(before, after, c, k);
      assert forall d :: c < d < |log| ==> (Marks(after[d], k) <==> Finished(puts, d) && Marks(log[d].stored, k));
    } else {
      LastSame(before, after, 0, k);
    }
  }

  lemma ExpectedStep(log: seq<Cell>, owner: map<ByteString, nat>, next: nat, k: ByteString)
    requires next < |log|
    ensures Expected(log, OwnerAfter(owner, log, next), next + 1, k) == Expected(log, owner, next, k)
  {
    var marks := Replays(log);
    assert marks[next] == log[next].replayed;
    var here, later := LastOf(marks, next, k), LastOf(marks, next + 1, k);
    assert later.Some? ==> here == later;
    assert later.None? ==> here == if Marks(marks[next], k) then Some(next) else None;
  }

  lemma ExpectedAgain(log: seq<Cell>, owner: map<ByteString, nat>, lo: nat, next: nat, k: ByteString)
    requires lo <= next <= |log| && ReplayedSoFar(log, owner, lo, next)
    ensures Expected(log, owner, lo, k) == Expected(log, owner, next, k)
  {
    var early, late := LastOf(Replays(log), lo, k), LastOf(Replays(log), next, k);
    if late.None? && early.Some? {
      var c := early.value;
      assert c < next && log[c].replayed.value.k == k;
      assert Marks(Replays(log)[owner[k]], k);
    }
  }

  // ---- one step ----

  lemma TailStoresNothing(e: Entry)
    requires Loggable(e)
    ensures CellsOf(e) != [] && forall i :: 1 <= i < |CellsOf(e)| ==> CellsOf(e)[i].stored == None
  {
    CellsOk(e);
  }

  lemma AppendExact(m: Machine, e: Entry, k: ByteString)
    requires Enabled(m, Append(e))
    ensures ExactAt(EntryLogged(m, e), k) <==> ExactAt(m, k)
  {
    TailStoresNothing(e);
    PendingAppended(m.log, CellsOf(e), m.phase.puts, EntryLogged(m, e).phase.puts[|m.log|], k);
  }

  lemma PutsInv(m: Machine, c: nat)
    requires Inv(m) && m.phase.Serving? && c in m.phase.puts
    ensures PutInv(m, c, m.phase.puts[c]) && CellOk(m.log[c])
  {
  }

  lemma StoreExact(m: Machine, c: nat, k: ByteString)
    requires Enabled(m, StoreEntry(c)) && PutInv(m, c, m.phase.puts[c]) && CellOk(m.log[c])
    ensures ExactAt(EntryStored(m, c), k) <==> Upheld(m, StoreEntry(c), k, ExactAt(m, k))
  {
    var puts := m.phase.puts;
    if Storable(m.log[c].put.value.k) {
      PutStored(m.log, puts, puts[c].(stored := true), c, k);
    } else {
      PutRemoved(m.log, puts, c, k);
    }
  }

  lemma VersionExact(m: Machine, c: nat, k: ByteString)
    requires Enabled(m, StoreVersion(c))
    ensures ExactAt(VersionStored(m, c), k) <==> ExactAt(m, k)
  {
    PutRemoved(m.log, m.phase.puts, c, k);
  }

  lemma NextInLog(m: Machine)
    requires Inv(m) && m.phase.Recovering?
    ensures ReplayStart(m) <= m.phase.next <= |m.log|
    ensures ReplayedSoFar(m.log, m.owner, ReplayStart(m), m.phase.next)
    ensures m.phase.calls != [] ==> m.phase.next < |m.log|
  {
    if m.phase.calls != [] {
      RemainingStep(Records(m.log), Recoverable, m.phase.next);
    }
  }

  lemma RecoverOneHeld(m: Machine, k: ByteString)
    requires Inv(m) && m.phase.Recovering? && m.phase.calls != []
    ensures Held(OneRecovered(m), k) == Held(m, k)
  {
    NextInLog(m);
    ExpectedStep(m.log, m.owner, m.phase.next, k);
  }

  predicate OfStart(step: Step) {
    step.Boot? || step.RecoverOne? || step.FinishBoot?
  }

  lemma StartHeld(m: Machine, step: Step, k: ByteString)
    requires Inv(m) && Enabled(m, step) && OfStart(step)
    ensures Held(After(m, step), k) == Held(m, k)
  {
    match step
    case Boot => BootKeeps(m);
    case RecoverOne => RecoverOneHeld(m, k);
    case FinishBoot => FinishBootKeeps(m);
  }

  lemma StartIntended(m: Machine, step: Step, k: ByteString)
    requires Enabled(m, step) && OfStart(step)
    ensures Intended(After(m, step), k) == Intended(m, k)
  {
    if step.FinishBoot? {
      LastDoneIsLast(m.log, map[], k);
    }
  }

  lemma RecoveringCrash(m: Machine, k: ByteString)
    requires Inv(m) && m.phase.Recovering?
    ensures Held(Crashed(m), k) == Held(m, k)
  {
    NextInLog(m);
    ExpectedAgain(m.log, m.owner, ReplayStart(m), m.phase.next, k);
  }

  lemma LastDoneIsLast(log: seq<Cell>, puts: map<nat, InFlight>, k: ByteString)
    requires LastPut(log, k).Some? ==> Finished(puts, LastPut(log, k).value)
    ensures LastDone(log, puts, k) == LastPut(log, k)
  {
    SameFromLast(DoneStores(log, puts), Stores(log), k);
  }

  lemma ServingCrash(m: Machine, k: ByteString)
    requires Inv(m) && m.phase.Serving?
    ensures ExactAt(Crashed(m), k) <==> Survives(m, k, ExactAt(m, k))
  {
    var last := LastPut(m.log, k);
    if last.Some? && !Finished(m.phase.puts, last.value) {
      PutsInv(m, last.value);
      assert Owner(m.owner, k) != last;
    } else {
      LastDoneIsLast(m.log, m.phase.puts, k);
    }
  }

  lemma CrashExact(m: Machine, k: ByteString)
    requires Inv(m) && Enabled(m, Crash)
    ensures ExactAt(After(m, Crash), k) <==> Upheld(m, Crash, k, ExactAt(m, k))
  {
    if m.phase.Serving? {
      ServingCrash(m, k);
    } else if m.phase.Recovering? {
      RecoveringCrash(m, k);
    }
  }

  lemma StartExact(m: Machine, step: Step, k: ByteString)
    requires Inv(m) && Enabled(m, step) && OfStart(step)
    ensures ExactAt(After(m, step), k) <==> ExactAt(m, k)
  {
    StartHeld(m, step, k);
    StartIntended(m, step, k);
    assert After(m, step).log == m.log;
  }

  // In every state of every run, a step leaves a key exact if and only if it upholds it: a store write must not
  // have been overtaken, and a crash must not cut off the last put.
  lemma StepExact(m: Machine, step: Step, k: ByteString)
    requires Inv(m) && Enabled(m, step)
    ensures ExactAt(After(m, step), k) <==> Upheld(m, step, k, ExactAt(m, k))
  {
    match step
    case Append(e) => AppendExact(m, e, k);
    case StoreEntry(c) =>
      PutsInv(m, c);
      StoreExact(m, c, k);
    case StoreVersion(c) => VersionExact(m, c, k);
    case Crash => CrashExact(m, k);
    case _ => StartExact(m, step, k);
  }

  // The same over a whole run: the order of its log, store and version steps and its crashes decides.
  ghost predicate Verdict(m: Machine, steps: seq<Step>, k: ByteString, exact: bool)
    decreases steps
  {
    if steps == [] || !Enabled(m, steps[0]) then exact
    else Verdict(After(m, steps[0]), steps[1..], k, Upheld(m, steps[0], k, exact))
  }

  lemma {:induction false} RunExact(m: Machine, steps: seq<Step>, m': Machine, k: ByteString)
    requires Inv(m) && Reaches(m, steps, m')
    ensures ExactAt(m', k) <==> Verdict(m, steps, k, ExactAt(m, k))
    decreases steps
  {
    if steps != [] {
      StepKeeps(m, steps[0]);
      StepExact(m, steps[0], k);
      RunExact(After(m, steps[0]), steps[1..], m', k);
    }
  }

  // ---- the store as a whole ----

  // Two pages, or none, that write the same value.
  predicate SameWrite(log: seq<Cell>, a: Option<nat>, b: Option<nat>) {
    && (a.Some? <==> b.Some?)
    && (a.Some? ==> a.value < |log| && b.value < |log| && (a == b || Written(log[a.value]) == log[b.value].stored))
  }

  lemma PutWrites(m: Machine, k: ByteString)
    requires LogInv(m) && LastPut(m.log, k).Some?
    ensures var c := LastPut(m.log, k).value; m.log[c].stored == Written(m.log[c])
  {
    assert CellOk(m.log[LastPut(m.log, k).value]);
  }

  lemma FoldAt(m: Machine, k: ByteString)
    requires LogInv(m) && k != VERSION_KEY
    ensures var a, b := UserData(m.kv), Applied(m.log);
            (k in a <==> k in b) && (k in a ==> a[k] == b[k]) <==> SameWrite(m.log, Owner(m.owner, k), LastPut(m.log, k))
  {
    FoldLast(Stores(m.log), k);
    if LastPut(m.log, k).Some? {
      PutWrites(m, k);
    }
    assert OwnedAt(m.kv, m.log, m.owner, k);
  }

  // For each user key, the page that wrote it last is its last put, or has its value.
  ghost predicate LastWritesStand(m: Machine) {
    forall k :: k != VERSION_KEY ==> SameWrite(m.log, Owner(m.owner, k), LastPut(m.log, k))
  }

  lemma StoreIsFold(m: Machine)
    requires LogInv(m)
    ensures UserData(m.kv) == Applied(m.log) <==> LastWritesStand(m)
  {
    forall k | k != VERSION_KEY ensures
      (var a, b := UserData(m.kv), Applied(m.log); (k in a <==> k in b) && (k in a ==> a[k] == b[k]))
      <==> SameWrite(m.log, Owner(m.owner, k), LastPut(m.log, k))
    {
      FoldAt(m, k);
    }
  }

  lemma IdleIntends(m: Machine, k: ByteString)
    requires m.phase.Serving? && m.phase.puts == map[]
    ensures Intended(m, k) == LastPut(m.log, k)
  {
    LastDoneIsLast(m.log, map[], k);
  }

  // Over every run: a store that serves with nothing in flight is the in-order fold of the log if and only if
  // for each key the page that wrote it last, by a put or by a replay, is the last put of the key or has its value.
  lemma ServingStoreExact(steps: seq<Step>, m: Machine)
    requires Reaches(INITIAL, steps, m) && m.phase.Serving? && m.phase.puts == map[]
    ensures UserData(m.kv) == Applied(m.log) <==> LastWritesStand(m)
  {
    ReachedLog(steps, m);
    StoreIsFold(m);
  }

  // No two pages write the same value to a key.
  ghost predicate DistinctWrites(log: seq<Cell>) {
    forall a, b :: 0 <= a < |log| && 0 <= b < |log| && log[b].stored.Some? && Written(log[a]) == log[b].stored ==> a == b
  }

  lemma InitialExact(k: ByteString)
    ensures ExactAt(INITIAL, k)
  {
  }

  lemma ExactIsSame(m: Machine, k: ByteString)
    requires LogInv(m) && m.phase.Serving? && m.phase.puts == map[]
    ensures ExactAt(m, k) ==> SameWrite(m.log, Owner(m.owner, k), LastPut(m.log, k))
    ensures DistinctWrites(m.log) && SameWrite(m.log, Owner(m.owner, k), LastPut(m.log, k)) ==> ExactAt(m, k)
  {
    IdleIntends(m, k);
  }

  lemma VerdictIsExact(m0: Machine, steps: seq<Step>, m: Machine, k: ByteString)
    requires m0 == INITIAL && Reaches(m0, steps, m)
    ensures Verdict(m0, steps, k, true) <==> ExactAt(m, k)
  {
    InitialInv();
    InitialExact(k);
    RunExact(m0, steps, m, k);
  }

  ghost predicate AllExact(m: Machine) {
    forall k :: k != VERSION_KEY ==> ExactAt(m, k)
  }

  lemma ExactStoreIsFold(m: Machine)
    requires LogInv(m) && m.phase.Serving? && m.phase.puts == map[]
    ensures AllExact(m) ==> UserData(m.kv) == Applied(m.log)
    ensures DistinctWrites(m.log) ==> (UserData(m.kv) == Applied(m.log) <==> AllExact(m))
  {
    StoreIsFold(m);
    forall k ensures
      (ExactAt(m, k) ==> SameWrite(m.log, Owner(m.owner, k), LastPut(m.log, k)))
      && (DistinctWrites(m.log) && SameWrite(m.log, Owner(m.owner, k), LastPut(m.log, k)) ==> ExactAt(m, k))
    {
      ExactIsSame(m, k);
    }
  }

  lemma ReachedLog(steps: seq<Step>, m: Machine)
    requires Reaches(INITIAL, steps, m)
    ensures LogInv(m)
  {
    InitialInv();
    RunKeeps(INITIAL, steps, m);
  }

  ghost predicate AllUpheld(m0: Machine, steps: seq<Step>) {
    forall k :: k != VERSION_KEY ==> Verdict(m0, steps, k, true)
  }

  lemma ExactIsUpheld(m0: Machine, steps: seq<Step>, m: Machine)
    requires m0 == INITIAL && Reaches(m0, steps, m) && AllExact(m)
    ensures AllUpheld(m0, steps)
  {
    forall k | k != VERSION_KEY ensures Verdict(m0, steps, k, true) {
      VerdictIsExact(m0, steps, m, k);
      assert ExactAt(m, k);
    }
  }

  lemma UpheldIsExact(m0: Machine, steps: seq<Step>, m: Machine)
    requires m0 == INITIAL && Reaches(m0, steps, m) && AllUpheld(m0, steps)
    ensures AllExact(m)
  {
    forall k | k != VERSION_KEY ensures ExactAt(m, k) {
      assert Verdict(m0, steps, k, true);
      VerdictIsExact(m0, steps, m, k);
    }
  }

  // So over every run: if the order of the steps upholds every key, a store that serves with nothing in flight is
  // the fold of the log; and only then, unless two pages happen to write the same value to a key.
  lemma ServingStoreVerdict(m0: Machine, steps: seq<Step>, m: Machine)
    requires m0 == INITIAL && Reaches(m0, steps, m) && m.phase.Serving? && m.phase.puts == map[]
    ensures AllUpheld(m0, steps) ==> UserData(m.kv) == Applied(m.log)
    ensures DistinctWrites(m.log) ==> (UserData(m.kv) == Applied(m.log) <==> AllUpheld(m0, steps))
  {
    ReachedLog(steps, m);
    ExactStoreIsFold(m);
    if AllUpheld(m0, steps) {
      UpheldIsExact(m0, steps, m);
    }
    if AllExact(m) {
      ExactIsUpheld(m0, steps, m);
    }
  }

  // ---- what a start makes of a store ----

  predicate Starting(steps: seq<Step>) {
    forall i :: 0 <= i < |steps| ==> OfStart(steps[i])
  }

  // What no step of a start changes, the whole start does not change.
  lemma {:induction false} StartingKeeps<T(!new)>(
      inv: Machine -> bool, view: Machine -> T, m: Machine, steps: seq<Step>, m': Machine)
    requires forall x, step :: inv(x) && Enabled(x, step) && OfStart(step) ==>
               inv(After(x, step)) && view(After(x, step)) == view(x)
    requires inv(m) && Reaches(m, steps, m') && Starting(steps)
    ensures view(m') == view(m)
    decreases steps
  {
    if steps != [] {
      assert OfStart(steps[0]);
      StartingKeeps(inv, view, After(m, steps[0]), steps[1..], m');
    }
  }

  lemma StartingHeld(m: Machine, steps: seq<Step>, m': Machine, k: ByteString)
    requires Inv(m) && Reaches(m, steps, m') && Starting(steps)
    ensures Held(m', k) == Held(m, k)
  {
    var inv, view := (x: Machine) => Inv(x), (x: Machine) => Held(x, k);
    forall x, step | inv(x) && Enabled(x, step) && OfStart(step)
      ensures inv(After(x, step)) && view(After(x, step)) == view(x)
    {
      StepKeeps(x, step);
      StartHeld(x, step, k);
    }
    StartingKeeps(inv, view, m, steps, m');
  }

  lemma StartingLog(m: Machine, steps: seq<Step>, m': Machine)
    requires Reaches(m, steps, m') && Starting(steps)
    ensures m'.log == m.log
  {
    StartingKeeps(_ => true, (x: Machine) => x.log, m, steps, m');
  }

  ghost predicate ExpectedStand(log: seq<Cell>, owner: map<ByteString, nat>, j: nat) {
    forall k :: k != VERSION_KEY ==> SameWrite(log, Expected(log, owner, j, k), LastPut(log, k))
  }

  lemma OwnersExpected(m: Machine, owner: map<ByteString, nat>, j: nat)
    requires forall k :: Owner(m.owner, k) == Expected(m.log, owner, j, k)
    ensures LastWritesStand(m) <==> ExpectedStand(m.log, owner, j)
  {
  }

  // A start gives the fold if and only if for each key the last page that the replay writes it from, or else the
  // page that wrote it before, is the last put of the key or has its value.
  lemma StartGivesFold(m: Machine, steps: seq<Step>, m': Machine)
    requires Inv(m) && m.phase.Down? && Reaches(m, steps, m') && Starting(steps) && m'.phase.Serving?
    ensures UserData(m'.kv) == Applied(m.log) <==> ExpectedStand(m.log, m.owner, ReplayStart(m))
  {
    StartingLog(m, steps, m');
    RunKeeps(m, steps, m');
    forall k ensures Owner(m'.owner, k) == Expected(m.log, m.owner, ReplayStart(m), k) {
      StartingHeld(m, steps, m', k);
    }
    StoreIsFold(m');
    OwnersExpected(m', m.owner, ReplayStart(m));
  }

  // In terms of the puts: every page to be replayed is the only page of a put with a key that the store accepts,
  // or a page inside a longer entry that happens to decode by itself.
  ghost predicate Replayable(log: seq<Cell>, j: nat) {
    forall c :: j <= c < |log| ==>
      match log[c].put
      case Some(e) => OnePage(e) && Storable(e.k)
      case None => Recoverable(log[c].record.data)
  }

  lemma ReplayableExactly(log: seq<Cell>, j: nat)
    requires LogOk(log)
    ensures AllRecoverable(log, j) <==> Replayable(log, j)
  {
    forall c | 0 <= c < |log|
      ensures log[c].replayed.Some? <==> match log[c].put
                                         case Some(e) => OnePage(e) && Storable(e.k)
                                         case None => Recoverable(log[c].record.data)
    {
      assert CellOk(log[c]);
      if log[c].put.Some? {
        PutCell(log[c]);
      }
    }
  }

  // Unless a put has overwritten the version, the log always opens; the replay then succeeds exactly when there is
  // nothing to replay or every page from the start of the version's file on can be replayed.
  lemma StartSucceeds(steps: seq<Step>, m: Machine)
    requires Reaches(INITIAL, steps, m) && m.phase.Down?
    ensures Enabled(m, Boot) <==> !m.garbled
    ensures !m.garbled ==>
      (After(m, Boot).phase.result.Replayed? <==> m.version >= |m.log| || Replayable(m.log, Start(m.version)))
  {
    InitialInv();
    RunKeeps(INITIAL, steps, m);
    if !m.garbled {
      BootKeeps(m);
      ReplayableExactly(m.log, Start(m.version));
    }
  }

  // ---- a start that fails ----

  ghost predicate Failing(m: Machine) {
    Stuck(m) && (m.phase.Down? || (m.phase.Recovering? && m.phase.result.ReplayFailed?))
  }

  lemma FailingStep(m: Machine, step: Step)
    requires Inv(m) && Failing(m) && Enabled(m, step)
    ensures Failing(After(m, step)) && After(m, step).log == m.log && After(m, step).version == m.version
  {
    if step.Boot? {
      BootKeeps(m);
    }
  }

  // No page that the next start replays overwrites the version.
  ghost predicate VersionSafe(m: Machine) {
    !m.garbled && forall c :: ReplayStart(m) <= c < |m.log| ==> !GarblesAt(m.log, c)
  }

  lemma SafeStep(m: Machine, step: Step)
    requires Inv(m) && Failing(m) && VersionSafe(m) && Enabled(m, step)
    ensures VersionSafe(After(m, step))
  {
    FailingStep(m, step);
    if step.RecoverOne? {
      NextInLog(m);
    }
  }

  lemma {:induction false} FailingLasts(m: Machine, steps: seq<Step>, m': Machine)
    requires Inv(m) && Failing(m) && VersionSafe(m) && Reaches(m, steps, m')
    ensures Inv(m') && Failing(m') && VersionSafe(m') && m'.log == m.log
    decreases steps
  {
    if steps != [] {
      FailingStep(m, steps[0]);
      SafeStep(m, steps[0]);
      StepKeeps(m, steps[0]);
      FailingLasts(After(m, steps[0]), steps[1..], m');
    }
  }

  // A start that fails once fails for ever, as long as no record that it replays overwrites the version: no step,
  // crash or further start ever gets the store to serve again, and every further start fails too.
  lemma FailsForEver(m: Machine, steps: seq<Step>, m': Machine)
    requires Inv(m) && m.phase.Recovering? && m.phase.result.ReplayFailed? && VersionSafe(m) && Reaches(m, steps, m')
    ensures !m'.phase.Serving? && m'.log == m.log
    ensures m'.phase.Down? ==> Enabled(m', Boot) && After(m', Boot).phase.result.ReplayFailed?
  {
    FailingLasts(m, steps, m');
    if m'.phase.Down? {
      BootKeeps(m');
    }
  }
}
