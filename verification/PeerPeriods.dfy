// The worker's attempts on the link that they drive: a copy that went wrong stays so for one period at most.
module PeerPeriods {
  import opened Options
  import opened MemStore
  import opened PeerLink
  import opened PeerLinkTheorems
  import opened PeerSync

  // An attempt at an increment, and everything that happens on the link up to the next one.
  datatype Attempt = Attempt(outcome: Outcome, events: seq<Event>)

  function Outcomes(attempts: seq<Attempt>): (outcomes: seq<Outcome>)
    ensures |outcomes| == |attempts|
  {
    seq(|attempts|, i requires 0 <= i < |attempts| => attempts[i].outcome)
  }

  function EventsOf(attempts: seq<Attempt>): seq<Event> {
    if attempts == [] then [] else attempts[0].events + EventsOf(attempts[1..])
  }

  // A full fetch that fails is followed by a new start, and every new start drops the copy.
  predicate Ends(end: End, events: seq<Event>) {
    Abandon in events || (end == FullFetch && AnswerFull in events)
  }

  // However many responses were lost, at the end of a period, that is after at most 6699 attempts, the copy is wrong
  // for good about a key only if it became so during the full fetch or the new start that ends the period.
  lemma DivergenceLastsOnePeriod(
      l: Link, carried: nat, attempts: seq<Attempt>, end: End, last: seq<Event>, k: Key)
    requires Inv(l) && Legal(carried, Outcomes(attempts)) && Ends(end, last)
    requires CanRun(l, EventsOf(attempts) + last)
    ensures |attempts| <= 6699
    ensures var es := EventsOf(attempts) + last;
            Diverged(Run(l, es), k) ==> exists i :: |EventsOf(attempts)| <= i < |es| && StartsAt(l, es, k, i)
  {
    PeriodBounds(carried, Outcomes(attempts));
    var n, es := |EventsOf(attempts)|, EventsOf(attempts) + last;
    DivergedExactly(l, es, k);
    var j :| 0 <= j < |last| && (last[j] == Abandon || last[j] == AnswerFull);
    assert es[n + j] == last[j] && Repairs(es[n + j], k);
  }
}
