// What runs of a peer link can and cannot do to the copy.
module PeerLinkTheorems {
  import opened Options
  import opened MemStore
  import opened Deltas
  import opened PeerLink

  // ---- no loss without cause ----

  // No request is handled late, no delta response is lost, and the watch stays while there is a copy.
  predicate Gentle(l: Link, e: Event) {
    match e
    case LateDelta => false
    case Lose => !l.flight.DeltaResponse?
    case Unwatch => false
    case SourceRestarts => false
    case _ => true
  }

  predicate GentleRun(l: Link, es: seq<Event>)
    requires CanRun(l, es)
    decreases |es|
  {
    es == [] || (Gentle(l, es[0]) && GentleRun(Next(l, es[0]), es[1..]))
  }

  ghost predicate NothingLost(l: Link) {
    && (l.replica.Some? ==> l.pending.Some? && l.lost == {})
    && (l.flight.FullResponse? || l.flight.DeltaResponse? ==> l.pending.Some? && l.gone == {})
  }

  lemma {:induction false} GentleRunLosesNothing(l: Link, es: seq<Event>)
    requires Inv(l) && NothingLost(l) && CanRun(l, es) && GentleRun(l, es)
    ensures NothingLost(Run(l, es))
    decreases es
  {
    if es != [] {
      StepKeeps(l, es[0]);
      assert NothingLost(Next(l, es[0]));
      GentleRunLosesNothing(Next(l, es[0]), es[1..]);
    }
  }

  // ---- after an unwatch ----

  // No delta is under way, and none can be asked for.
  ghost predicate NoDelta(l: Link) {
    !l.flight.DeltaResponse? && (l.pending.None? || l.replica.None? || l.flight.FullResponse? || l.flight.Broken?)
  }

  // The events after which a delta may be asked for again.
  predicate Rewatches(l: Link, e: Event) {
    e.LateFull? || (e.Deliver? && l.flight.FullResponse?)
  }

  predicate NoRewatch(l: Link, es: seq<Event>)
    requires CanRun(l, es)
    decreases |es|
  {
    es == [] || (!Rewatches(l, es[0]) && NoRewatch(Next(l, es[0]), es[1..]))
  }

  lemma {:induction false} NoDeltaStays(l: Link, es: seq<Event>)
    requires NoDelta(l) && CanRun(l, es) && NoRewatch(l, es)
    ensures NoDelta(Run(l, es))
    ensures AnswerDelta !in es
    decreases es
  {
    if es != [] {
      assert NoDelta(Next(l, es[0]));
      NoDeltaStays(Next(l, es[0]), es[1..]);
    }
  }

  // After an unwatch no delta is answered, and none is under way that was not already, until a full fetch is
  // delivered or one that was given up is handled.
  lemma NoDeltaBeforeFull(l: Link, es: seq<Event>)
    requires !l.flight.DeltaResponse? && CanRun(l, [Unwatch] + es) && NoRewatch(l, [Unwatch] + es)
    ensures AnswerDelta !in es && !Run(l, [Unwatch] + es).flight.DeltaResponse?
  {
    assert ([Unwatch] + es)[1..] == es;
    NoDeltaStays(Next(l, Unwatch), es);
  }

  // The same with a delta already under way: it is the only one that can still be delivered.
  lemma LastDeltaBeforeFull(l: Link, es: seq<Event>)
    requires l.pending.None? && l.flight.DeltaResponse? && CanRun(l, es) && NoRewatch(l, es)
    ensures AnswerDelta !in es
    decreases es
  {
    if es != [] {
      var l1 := Next(l, es[0]);
      if l1.flight.DeltaResponse? {
        LastDeltaBeforeFull(l1, es[1..]);
      } else {
        NoDeltaStays(l1, es[1..]);
      }
    }
  }

  // ---- how long a divergence lasts ----

  // The copy is wrong about a key that no delta is going to mention.
  ghost predicate Diverged(l: Link, k: Key) {
    && l.replica.Some?
    && Lookup(l.replica.value, k) != Lookup(l.current, k)
    && k !in Waiting(l) + Arriving(l)
    && !l.flight.FullResponse?
  }

  // Only these can put a divergence right: a full fetch, a new start on either side, or another change of
  // the same key.
  predicate Repairs(e: Event, k: Key) {
    match e
    case AnswerFull => true
    case Abandon => true
    case WatcherRestarts => true
    case SourceRestarts => true
    case Change(c) => c.key == k
    case _ => false
  }

  lemma DivergenceStep(l: Link, e: Event, k: Key)
    requires Inv(l) && Enabled(l, e) && Diverged(l, k) && !Repairs(e, k)
    ensures Diverged(Next(l, e), k)
  {
    assert PendingKeys(NOTHING_PENDING) == {};
    match e
    case Change(c) =>
      LookupChanged(l.current, c, k);
      if l.pending.Some? {
        RecordedKeys(l.pending.value, c);
      }
    case Deliver =>
      LookupSynced(l.replica.value, l.flight.delta, k);
    case _ =>
  }

  lemma {:induction false} DivergenceLasts(l: Link, es: seq<Event>, k: Key)
    requires Inv(l) && CanRun(l, es) && Diverged(l, k)
    requires forall e :: e in es ==> !Repairs(e, k)
    ensures Diverged(Run(l, es), k)
    decreases es
  {
    if es != [] {
      DivergenceStep(l, es[0], k);
      StepKeeps(l, es[0]);
      DivergenceLasts(Next(l, es[0]), es[1..], k);
    }
  }

  // ---- when a copy diverges, exactly ----

  // The copy is wrong about the key at this moment.
  ghost predicate Wrong(l: Link, k: Key) {
    l.replica.Some? && Lookup(l.replica.value, k) != Lookup(l.current, k)
  }

  // The response under way decides the key, with a value that is wrong by now.
  ghost predicate ArrivesWrong(l: Link, k: Key) {
    match l.flight
    case FullResponse(snapshot) => Lookup(snapshot, k) != Lookup(l.current, k)
    case DeltaResponse(delta) => Touches(delta, k) && Effect(delta, k) != Lookup(l.current, k)
    case _ => false
  }

  // What makes a key wrong with nothing to come that puts it right: its change goes unrecorded; the list or the
  // response that carries it is dropped; a response arrives that an unrecorded change has overtaken; or the source
  // forgets a key that the copy has.
  ghost predicate Starts(l: Link, e: Event, k: Key) {
    match e
    case Change(c) =>
      c.key == k && l.pending.None? && l.replica.Some?
      && Lookup(l.replica.value, k) != (if c.Publish? then Some(c.addr) else None)
      && k !in Arriving(l) && !l.flight.FullResponse?
    case LateDelta => k in Waiting(l) && Wrong(l, k) && k !in Arriving(l) && !l.flight.FullResponse?
    case Unwatch => k in Waiting(l) && Wrong(l, k) && k !in Arriving(l) && !l.flight.FullResponse?
    case Lose => (k in Arriving(l) || l.flight.FullResponse?) && Wrong(l, k) && k !in Waiting(l)
    case Deliver => ArrivesWrong(l, k) && k in l.gone && k !in Waiting(l)
    case SourceRestarts =>
      l.replica.Some? && Lookup(l.replica.value, k).Some? && k !in Arriving(l) && !l.flight.FullResponse?
    case _ => false
  }

  lemma ChangeDiverges(l: Link, c: Change, k: Key)
    ensures Diverged(AfterChange(l, c), k) <==> Starts(l, Change(c), k) || (Diverged(l, k) && c.key != k)
  {
    LookupChanged(l.current, c, k);
    if l.pending.Some? {
      RecordedKeys(l.pending.value, c);
    }
  }

  lemma DeliverDiverges(l: Link, k: Key)
    requires Inv(l) && Enabled(l, Deliver)
    ensures Diverged(AfterDeliver(l), k) <==> Starts(l, Deliver, k) || Diverged(l, k)
  {
    if l.flight.DeltaResponse? {
      LookupSynced(l.replica.value, l.flight.delta, k);
    }
  }

  // In every state of every run, a copy is wrong for good after a step if and only if the step makes it so, or it
  // was and the step is no repair.
  lemma DivergedStep(l: Link, e: Event, k: Key)
    requires Inv(l) && Enabled(l, e)
    ensures Diverged(Next(l, e), k) <==> Starts(l, e, k) || (Diverged(l, k) && !Repairs(e, k))
  {
    assert PendingKeys(NOTHING_PENDING) == {};
    match e
    case Change(c) => ChangeDiverges(l, c, k);
    case Deliver => DeliverDiverges(l, k);
    case SourceRestarts => assert Lookup(map[], k) == None;
    case _ =>
  }

  lemma {:induction false} RunSnoc(l: Link, es: seq<Event>, e: Event)
    requires CanRun(l, es + [e])
    ensures CanRun(l, es) && Enabled(Run(l, es), e) && Run(l, es + [e]) == Next(Run(l, es), e)
    decreases es
  {
    if es == [] {
      assert [e][1..] == [];
      assert es + [e] == [e];
    } else {
      assert (es + [e])[1..] == es[1..] + [e] && (es + [e])[0] == es[0];
      RunSnoc(Next(l, es[0]), es[1..], e);
    }
  }

  // The step that makes a key wrong, with no repair after it.
  ghost predicate StartsAt(l: Link, es: seq<Event>, k: Key, i: nat)
    requires CanRun(l, es) && i < |es|
  {
    CanRun(l, es[..i]) && Starts(Run(l, es[..i]), es[i], k) && NoRepairAfter(es, k, i)
  }

  predicate NoRepairAfter(es: seq<Event>, k: Key, i: int)
    requires i >= -1
  {
    forall j :: i < j < |es| ==> !Repairs(es[j], k)
  }

  // Over every run: at its end the copy is wrong for good about a key if and only if some step made it so, or it was
  // so at the beginning, and no repair came after that.
  lemma {:induction false} DivergedExactly(l: Link, es: seq<Event>, k: Key)
    requires Inv(l) && CanRun(l, es)
    ensures Diverged(Run(l, es), k) <==>
              (Diverged(l, k) && NoRepairAfter(es, k, -1)) || exists i :: 0 <= i < |es| && StartsAt(l, es, k, i)
    decreases |es|
  {
    if es != [] {
      var n := |es| - 1;
      var before, e := es[..n], es[n];
      assert es == before + [e];
      RunSnoc(l, before, e);
      RunKeeps(l, before);
      DivergedExactly(l, before, k);
      DivergedStep(Run(l, before), e, k);
      StartsSnoc(l, before, e, k);
      assert NoRepairAfter(es, k, -1) <==> NoRepairAfter(before, k, -1) && !Repairs(e, k);
    }
  }

  lemma StartsSnoc(l: Link, es: seq<Event>, e: Event, k: Key)
    requires CanRun(l, es + [e]) && CanRun(l, es)
    ensures (exists i :: 0 <= i <= |es| && StartsAt(l, es + [e], k, i))
            <==> Starts(Run(l, es), e, k) || ((exists i :: 0 <= i < |es| && StartsAt(l, es, k, i)) && !Repairs(e, k))
  {
    var all := es + [e];
    assert all[..|es|] == es;
    assert StartsAt(l, all, k, |es|) <==> Starts(Run(l, es), e, k);
    forall i | 0 <= i < |es| ensures StartsAt(l, all, k, i) <==> StartsAt(l, es, k, i) && !Repairs(e, k) {
      assert all[..i] == es[..i];
      assert all[|es|] == e;
      assert forall j :: 0 <= j < |es| ==> all[j] == es[j];
    }
  }

  // Losing one response is enough: from any state at rest with a copy and a watch, a publish of a new
  // address whose delta is lost leaves the copy wrong until one of the repairs.
  lemma LostDeltaDiverges(l: Link, k: Key, addr: string, es: seq<Event>)
    requires Inv(l) && l.flight.Idle? && l.replica.Some? && l.pending.Some?
    requires Lookup(l.replica.value, k) != Some(addr)
    requires forall e :: e in es ==> !Repairs(e, k)
    ensures var l1 := Next(l, Change(Publish(k, addr)));
            var l3 := Next(Next(l1, AnswerDelta), Lose);
            k in l3.lost && (CanRun(l3, es) ==> Diverged(Run(l3, es), k))
  {
    var l1 := Next(l, Change(Publish(k, addr)));
    var l2 := Next(l1, AnswerDelta);
    var l3 := Next(l2, Lose);
    StepKeeps(l, Change(Publish(k, addr)));
    StepKeeps(l1, AnswerDelta);
    StepKeeps(l2, Lose);
    RecordedKeys(l.pending.value, Publish(k, addr));
    LookupChanged(l.current, Publish(k, addr), k);
    assert PendingKeys(NOTHING_PENDING) == {};
    if CanRun(l3, es) {
      DivergenceLasts(l3, es, k);
    }
  }

  // A full request that is handled after the worker gave it up brings the watch back without a full fetch:
  // a delta is then applied to a copy that missed a change, and the copy stays wrong.
  lemma LateFullHidesLoss(l: Link, k: Key, other: Key, addr: string)
    requires Inv(l) && l.flight.Idle? && l.pending.None? && Diverged(l, k) && other != k
    ensures var l2 := Next(Next(l, LateFull), Change(Publish(other, addr)));
            Enabled(l2, AnswerDelta)
            && var l4 := Next(Next(l2, AnswerDelta), Deliver);
               Diverged(l4, k) && Lookup(l4.replica.value, other) == Some(addr)
  {
    var l1 := Next(l, LateFull);
    var l2 := Next(l1, Change(Publish(other, addr)));
    var l3 := Next(l2, AnswerDelta);
    DivergenceStep(l, LateFull, k);
    StepKeeps(l, LateFull);
    DivergenceStep(l1, Change(Publish(other, addr)), k);
    StepKeeps(l1, Change(Publish(other, addr)));
    DivergenceStep(l2, AnswerDelta, k);
    StepKeeps(l2, AnswerDelta);
    DivergenceStep(l3, Deliver, k);
    LookupSynced(l.replica.value, l3.flight.delta, other);
    TouchesRecorded(NOTHING_PENDING, Publish(other, addr), other);
  }

  // And such a copy is reached: a full fetch, an unwatch, and a publish that no list records.
  lemma UnwatchedPublishDiverges(l: Link, k: Key, other: Key, addr: string)
    requires Initial(l) && Lookup(l.current, k) != Some(addr) && other != k
    ensures var es := [AnswerFull, Deliver, Unwatch, Change(Publish(k, addr))];
            CanRun(l, es)
            && var l4 := Run(l, es);
               Inv(l4) && l4.flight.Idle? && l4.pending.None? && Diverged(l4, k)
  {
    var e4 := [Change(Publish(k, addr))];
    var e3, e2 := [Unwatch] + e4, [Deliver] + ([Unwatch] + e4);
    var l1 := Next(l, AnswerFull);
    var l2 := Next(l1, Deliver);
    var l3 := Next(l2, Unwatch);
    InitialInv(l);
    RunOne(l3, Change(Publish(k, addr)), []);
    RunOne(l2, Unwatch, e4);
    RunOne(l1, Deliver, e3);
    RunOne(l, AnswerFull, e2);
    assert [AnswerFull] + e2 == [AnswerFull, Deliver, Unwatch, Change(Publish(k, addr))];
    assert e4 + [] == e4;
    RunKeeps(l, [AnswerFull] + e2);
    LookupChanged(l.current, Publish(k, addr), k);
  }

  lemma RunOne(l: Link, e: Event, rest: seq<Event>)
    requires Enabled(l, e) && CanRun(Next(l, e), rest)
    ensures CanRun(l, [e] + rest) && Run(l, [e] + rest) == Run(Next(l, e), rest)
  {
    assert ([e] + rest)[1..] == rest;
  }

  // ---- catching up ----

  // Neither end changes its registrations, restarts, or starts over.
  predicate Quiet(e: Event) {
    !e.Change? && !e.Abandon? && !e.SourceRestarts? && !e.WatcherRestarts?
  }

  // The copy is the source, and what is under way will not change that.
  ghost predicate Settled(l: Link) {
    && l.replica == Some(l.current)
    && (l.flight.FullResponse? ==> l.flight.snapshot == l.current)
    && (l.flight.DeltaResponse? ==> Exact(l.flight.delta, l.current))
    && !l.flight.Broken?
  }

  // The response under way will settle the link: a full one taken since the last change, or a delta with
  // nothing lost and nothing more to come.
  ghost predicate Settling(l: Link) {
    || l.flight == FullResponse(l.current)
    || (l.flight.DeltaResponse? && l.replica.Some? && Waiting(l) + l.lost + l.gone == {})
  }

  lemma AnswersSettle(l: Link)
    requires Inv(l)
    ensures Enabled(l, AnswerFull) ==> Settling(Next(l, AnswerFull))
    ensures Enabled(l, AnswerDelta) && l.lost == {} ==> Settling(Next(l, AnswerDelta))
  {
    assert PendingKeys(NOTHING_PENDING) == {};
  }

  lemma SettlingStep(l: Link, e: Event)
    requires Inv(l) && Enabled(l, e) && Settling(l) && Quiet(e) && !e.Lose?
    ensures if e.Deliver? then Settled(Next(l, e)) else Settling(Next(l, e))
  {
    assert PendingKeys(NOTHING_PENDING) == {};
    StepKeeps(l, e);
    if e.Deliver? {
      QuietReplicaAfter(l);
    }
  }

  lemma QuietReplicaAfter(l: Link)
    requires Inv(l) && Settling(l)
    ensures Next(l, Deliver).replica == Some(l.current)
  {
    if l.flight.DeltaResponse? {
      StepKeeps(l, Deliver);
      QuietReplica(Next(l, Deliver));
    }
  }

  // Draining a list that is older than the copy does not unsettle it; nor does losing it. Only a full fetch
  // that fails makes the worker drop its copy.
  lemma SettledStep(l: Link, e: Event)
    requires Inv(l) && Enabled(l, e) && Settled(l) && Quiet(e)
    requires !(e.Lose? && l.flight.FullResponse?)
    ensures Settled(Next(l, e))
  {
    if e.Deliver? && l.flight.DeltaResponse? {
      CoalescingExact(l.current, l.flight.delta, l.current);
    }
  }

  // A quiet run in which no full fetch fails.
  predicate QuietRun(l: Link, es: seq<Event>)
    requires CanRun(l, es)
    decreases |es|
  {
    es == [] || (Quiet(es[0]) && !(es[0].Lose? && l.flight.FullResponse?) && QuietRun(Next(l, es[0]), es[1..]))
  }

  lemma {:induction false} SettledLasts(l: Link, es: seq<Event>)
    requires Inv(l) && Settled(l) && CanRun(l, es) && QuietRun(l, es)
    ensures Settled(Run(l, es))
    decreases es
  {
    if es != [] {
      StepKeeps(l, es[0]);
      SettledStep(l, es[0]);
      SettledLasts(Next(l, es[0]), es[1..]);
    }
  }

  // Once the source is quiet, one full fetch - or one delta, with nothing lost before - makes the copy equal
  // to the source for as long as the quiet lasts, whatever stale lists are drained, lost or forgotten after it.
  // `d` is the step of its delivery; only up to there must nothing be lost.
  lemma {:induction false} OneAnswerSettles(l: Link, es: seq<Event>, d: nat)
    requires Inv(l) && Settling(l) && CanRun(l, es) && QuietRun(l, es)
    requires d < |es| && es[d] == Deliver && Lose !in es[..d]
    ensures Settled(Run(l, es)) && Run(l, es).replica == Some(l.current)
    decreases es
  {
    assert d > 0 ==> es[0] in es[..d];
    StepKeeps(l, es[0]);
    SettlingStep(l, es[0]);
    var l1 := Next(l, es[0]);
    assert l1.current == l.current;
    if es[0].Deliver? {
      SettledLasts(l1, es[1..]);
      SameCurrent(l1, es[1..]);
    } else {
      assert es[..d][1..] == es[1..][..d - 1];
      OneAnswerSettles(l1, es[1..], d - 1);
    }
  }

  lemma {:induction false} SameCurrent(l: Link, es: seq<Event>)
    requires CanRun(l, es) && QuietRun(l, es)
    ensures Run(l, es).current == l.current
    decreases es
  {
    if es != [] {
      SameCurrent(Next(l, es[0]), es[1..]);
    }
  }
}
