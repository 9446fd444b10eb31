// The worker that copies one peer: incremental fetches until a counter with a random limit says it is time
// for a full one, or until too many failures in a row make it start over.
module PeerSync {
  datatype Outcome = FetchFailed | StoreFailed | Stored

  datatype End = FullFetch | Restart

  // A random number below 20.
  type Roll = x: nat | x < 20

  const MAX_RETRY := 10
  const MIN_QUERIES := 590
  const MAX_QUERIES := 609
  const MAX_ATTEMPTS := 6699

  // ---- what the two counters mean ----

  function Successes(trace: seq<Outcome>): nat {
    if trace == [] then 0
    else Successes(trace[..|trace| - 1]) + if trace[|trace| - 1] == Stored then 1 else 0
  }

  // Failed fetches since the last success, on top of those carried over when there was none.
  function FailStreak(carried: nat, trace: seq<Outcome>): nat {
    if trace == [] then carried
    else if trace[|trace| - 1] == FetchFailed then FailStreak(carried, trace[..|trace| - 1]) + 1
    else 0
  }

  // The worker tries again only while this holds.
  predicate GoesOn(carried: nat, trace: seq<Outcome>) {
    StoreFailed !in trace && FailStreak(carried, trace) <= MAX_RETRY && Successes(trace) < MAX_QUERIES
  }

  ghost predicate Legal(carried: nat, trace: seq<Outcome>) {
    forall i :: 0 <= i < |trace| ==> GoesOn(carried, trace[..i])
  }

  lemma {:induction false} AttemptsCounted(carried: nat, trace: seq<Outcome>)
    requires StoreFailed !in trace && Legal(carried, trace)
    ensures |trace| <= 11 * Successes(trace) + FailStreak(carried, trace)
    decreases |trace|
  {
    if trace != [] {
      var before := trace[..|trace| - 1];
      LegalPrefix(carried, trace, |before|);
      AttemptsCounted(carried, before);
      assert trace[..|before|] == before;
      assert GoesOn(carried, before);
    }
  }

  lemma LegalPrefix(carried: nat, trace: seq<Outcome>, n: nat)
    requires Legal(carried, trace) && n <= |trace|
    ensures Legal(carried, trace[..n])
  {
    forall i | 0 <= i < n ensures GoesOn(carried, trace[..n][..i]) {
      assert trace[..n][..i] == trace[..i];
    }
  }

  // However the random limits fall, one period has at most 6699 attempts, 609 of them successful.
  lemma PeriodBounds(carried: nat, trace: seq<Outcome>)
    requires Legal(carried, trace)
    ensures |trace| <= 6699 && Successes(trace) <= 609
    ensures carried <= 10 ==> FailStreak(carried, trace) <= 11
  {
    if trace != [] {
      var before := trace[..|trace| - 1];
      assert GoesOn(carried, before);
      LegalPrefix(carried, trace, |before|);
      AttemptsCounted(carried, before);
    }
  }

  // ---- the bound is reached ----

  function Failures(n: nat): seq<Outcome> {
    seq(n, _ => FetchFailed)
  }

  // Ten failures before every success.
  function Worst(n: nat): seq<Outcome> {
    if n == 0 then [] else Worst(n - 1) + (Failures(MAX_RETRY) + [Stored])
  }

  lemma {:induction false} FailuresAfter(trace: seq<Outcome>, n: nat)
    requires StoreFailed !in trace
    ensures Successes(trace + Failures(n)) == Successes(trace)
    ensures FailStreak(0, trace + Failures(n)) == FailStreak(0, trace) + n
    decreases n
  {
    if n == 0 {
      assert trace + Failures(0) == trace;
    } else {
      FailuresAfter(trace, n - 1);
      OneFailure(trace + Failures(n - 1));
      assert trace + Failures(n) == trace + Failures(n - 1) + [FetchFailed];
    }
  }

  lemma OneFailure(trace: seq<Outcome>)
    ensures Successes(trace + [FetchFailed]) == Successes(trace)
    ensures FailStreak(0, trace + [FetchFailed]) == FailStreak(0, trace) + 1
  {
    assert (trace + [FetchFailed])[..|trace|] == trace;
  }

  lemma {:induction false} WorstLegal(n: nat)
    requires n <= MAX_QUERIES
    ensures Legal(0, Worst(n)) && StoreFailed !in Worst(n)
    ensures |Worst(n)| == (MAX_RETRY + 1) * n && Successes(Worst(n)) == n && FailStreak(0, Worst(n)) == 0
    decreases n
  {
    if n > 0 {
      var before, trace := Worst(n - 1), Worst(n);
      WorstLegal(n - 1);
      FailuresAfter(before, MAX_RETRY);
      assert trace[..|trace| - 1] == before + Failures(MAX_RETRY);
      forall i | 0 <= i < |trace| ensures GoesOn(0, trace[..i]) {
        if i < |before| {
          assert trace[..i] == before[..i];
        } else {
          FailuresAfter(before, i - |before|);
          assert trace[..i] == before + Failures(i - |before|);
        }
      }
    }
  }

  // ---- the loop ----

  // Every attempt was below the limit drawn for it, and had the outcome that the environment chose.
  ghost predicate Follows(roll: nat -> Roll, outcome: nat -> Outcome, trace: seq<Outcome>) {
    forall i :: 0 <= i < |trace| ==> trace[i] == outcome(i) && Successes(trace[..i]) < roll(i) + MIN_QUERIES
  }

  // In numbers: before each attempt there were fewer successes than 590 and the random number, and at most ten
  // failures in a row.
  lemma AttemptsAllowed(carried: nat, roll: nat -> Roll, outcome: nat -> Outcome, trace: seq<Outcome>, i: nat)
    requires Follows(roll, outcome, trace) && Legal(carried, trace) && i < |trace|
    ensures Successes(trace[..i]) < roll(i) + 590 && FailStreak(carried, trace[..i]) <= 10
    ensures StoreFailed !in trace[..i]
  {
    assert GoesOn(carried, trace[..i]);
  }

  // 6699 attempts do happen in the loop, when every random number is 19 and ten fetches fail before each success:
  // no smaller bound holds for all outcomes and limits.
  lemma BoundReached(queries: nat, outcome: nat -> Outcome)
    requires queries == 609 && forall i :: 0 <= i < |Worst(queries)| ==> outcome(i) == Worst(queries)[i]
    ensures |Worst(queries)| == 6699 && Legal(0, Worst(queries))
    ensures Follows(_ => 19, outcome, Worst(queries)) && Successes(Worst(queries)) == 609
  {
    WorstLegal(queries);
    var trace := Worst(queries);
    forall i | 0 <= i < |trace| ensures Successes(trace[..i]) < 19 + MIN_QUERIES {
      assert GoesOn(0, trace[..i]);
    }
  }

  lemma OneMore(carried: nat, roll: nat -> Roll, outcome: nat -> Outcome, trace: seq<Outcome>)
    requires Legal(carried, trace) && GoesOn(carried, trace) && Follows(roll, outcome, trace)
    requires Successes(trace) < roll(|trace|) + MIN_QUERIES
    ensures var longer := trace + [outcome(|trace|)];
            Legal(carried, longer) && Follows(roll, outcome, longer) && |longer| <= MAX_ATTEMPTS
            && Successes(longer) == Successes(trace) + (if outcome(|trace|) == Stored then 1 else 0)
            && FailStreak(carried, longer)
               == if outcome(|trace|) == FetchFailed then FailStreak(carried, trace) + 1 else 0
  {
    var longer := trace + [outcome(|trace|)];
    assert longer[..|longer| - 1] == trace;
    forall i | 0 <= i < |longer| ensures longer[..i] == trace[..i] {
    }
    assert trace[..|trace|] == trace;
    PeriodBounds(carried, longer);
  }

  // From one full fetch to the next attempt at one, or to a restart. The outcome of the i-th attempt and the
  // random number drawn before it are parameters; the retry counter carries over from the period before.
  method Period(carried: nat, roll: nat -> Roll, outcome: nat -> Outcome)
      returns (trace: seq<Outcome>, retryCnt: nat, end: End)
    requires carried <= 10
    ensures Follows(roll, outcome, trace)
    ensures Legal(carried, trace) && |trace| <= 6699
    ensures retryCnt == FailStreak(carried, trace)
    ensures end == Restart <==> StoreFailed in trace || retryCnt > 10
    ensures end == FullFetch ==> roll(|trace|) + 590 <= Successes(trace) <= 609 && retryCnt <= 10
  {
    var queryCount := 0;
    retryCnt := carried;
    trace := [];
    while true
      invariant Follows(roll, outcome, trace)
      invariant Legal(carried, trace) && |trace| <= MAX_ATTEMPTS
      invariant StoreFailed !in trace
      invariant queryCount == Successes(trace) <= MAX_QUERIES
      invariant retryCnt == FailStreak(carried, trace) <= MAX_RETRY
      decreases MAX_ATTEMPTS - |trace|
    {
      if queryCount >= roll(|trace|) + MIN_QUERIES {
        end := FullFetch;
        return;
      }
      var result := outcome(|trace|);
      OneMore(carried, roll, outcome, trace);
      trace := trace + [result];
      match result {
        case FetchFailed =>
          retryCnt := retryCnt + 1;
          if retryCnt > MAX_RETRY {
            end := Restart;
            return;
          }
        case StoreFailed =>
          retryCnt := 0;
          end := Restart;
          return;
        case Stored =>
          retryCnt := 0;
          queryCount := queryCount + 1;
      }
    }
  }
}
