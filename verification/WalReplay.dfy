// What a replay hands to its callback.
module WalReplay {
  import opened Bytes
  import opened WalPage
  import opened WalNames
  import opened WalEntries
  import opened DiskWal
  import opened WalRuns

  function Payloads(records: seq<PageResult>): (data: seq<ByteString>)
    requires AllRecords(records)
    ensures |data| == |records|
  {
    if records == [] then [] else [records[0].data] + Payloads(records[1..])
  }

  ghost predicate AllAccepted(records: seq<PageResult>, accepts: ByteString -> bool)
    requires AllRecords(records)
  {
    forall i :: 0 <= i < |records| ==> accepts(records[i].data)
  }

  // The callback gets every record once, in order, exactly when all pages are good and it refuses none.
  lemma {:induction false} ReplayComplete(records: seq<PageResult>, accepts: ByteString -> bool, calls: seq<ByteString>)
    ensures ReplayRecords(records, accepts, calls).outcome.Done? <==> AllRecords(records) && AllAccepted(records, accepts)
    ensures AllRecords(records) && AllAccepted(records, accepts) ==>
      ReplayRecords(records, accepts, calls) == Replay(calls + Payloads(records), Done)
    decreases |records|
  {
    if records != [] && records[0].Record? {
      ReplayComplete(records[1..], accepts, calls + [records[0].data]);
      AllRecordsSplit(records, accepts);
    }
  }

  // The first page that is bad, or whose record the callback refuses.
  ghost predicate StopsAt(records: seq<PageResult>, accepts: ByteString -> bool, i: int) {
    && 0 <= i < |records| && (records[i].Rejected? || !accepts(records[i].data))
    && forall j :: 0 <= j < i ==> records[j].Record? && accepts(records[j].data)
  }

  // Then the records before it have been handed over, and its own too if it has one, and the error tells which.
  lemma {:induction false} ReplayStops(
      records: seq<PageResult>, accepts: ByteString -> bool, calls: seq<ByteString>, i: nat)
    requires StopsAt(records, accepts, i)
    ensures AllRecords(records[..i])
    ensures ReplayRecords(records, accepts, calls)
            == if records[i].Rejected? then
                 Replay(calls + Payloads(records[..i]), Stopped(UnreadablePage(records[i].error)))
               else Replay(calls + Payloads(records[..i]) + [records[i].data], Stopped(CallbackFailed))
    decreases i
  {
    if i == 0 {
      assert calls + Payloads(records[..0]) == calls;
    } else {
      assert forall j :: 0 <= j < i - 1 ==> records[1..][j] == records[j + 1];
      ReplayStops(records[1..], accepts, calls + [records[0].data], i - 1);
      assert records[..i][0] == records[0] && records[..i][1..] == records[1..][..i - 1];
      assert calls + [records[0].data] + Payloads(records[1..][..i - 1]) == calls + Payloads(records[..i]);
    }
  }

  lemma AllRecordsSplit(records: seq<PageResult>, accepts: ByteString -> bool)
    requires records != [] && records[0].Record?
    ensures AllRecords(records) <==> AllRecords(records[1..])
    ensures AllRecords(records) ==>
      (AllAccepted(records, accepts) <==> accepts(records[0].data) && AllAccepted(records[1..], accepts))
  {
    assert forall i :: 0 < i < |records| ==> records[i] == records[1..][i - 1];
  }

  lemma {:induction false} NamesUpToSplit(names: seq<string>, target: string)
    ensures var n := NamesUpTo(names, target);
            && (forall i :: 0 <= i < n ==> !Less(target, names[i]))
            && (n < |names| ==> Less(target, names[n]))
  {
    if names != [] && !Less(target, names[0]) {
      NamesUpToSplit(names[1..], target);
    }
  }

  // The name that the writer would give the file.
  predicate Canonical(name: string) {
    var p := WalFilename(name);
    p.Parsed? && name == Filename(p.term, p.collection)
  }

  ghost predicate Before(name: string, from: SequenceId) {
    var p := WalFilename(name);
    p.Parsed? && forall k :: SequenceId(p.term, p.collection, k).Compare(from) == -1
  }

  // A file before the start holds no position from `from` on.
  lemma SkippedBefore(names: seq<string>, start: nat, i: nat, from: SequenceId)
    requires Sorted(names) && i < start < |names| && Canonical(names[i])
    requires ValidNumber(from.term) && ValidNumber(from.collection)
    requires !Less(Filename(from.term, from.collection), names[start])
    ensures Before(names[i], from)
  {
    var p := WalFilename(names[i]);
    var target := Filename(from.term, from.collection);
    LessTotal(names[start], target);
    if names[start] != target {
      LessTransitive(names[i], names[start], target);
    }
    FilenameOrder(p.term, p.collection, from.term, from.collection);
  }

  lemma SkippedAllBefore(names: seq<string>, start: nat, from: SequenceId)
    requires Sorted(names) && start < |names| && forall name :: name in names ==> Canonical(name)
    requires ValidNumber(from.term) && ValidNumber(from.collection)
    requires !Less(Filename(from.term, from.collection), names[start])
    ensures forall i :: 0 <= i < start ==> Before(names[i], from)
  {
    forall i | 0 <= i < start ensures Before(names[i], from) {
      SkippedBefore(names, start, i, from);
    }
  }

  lemma ReplayCallsAll(s: WalState, from: SequenceId, accepts: ByteString -> bool, names: seq<string>, n: nat)
    requires names == Listing(s.files) && n == NamesUpTo(names, Filename(from.term, from.collection))
    requires ReplayingFiles(s, from, accepts).0.Replayed?
    ensures n > 0 && AllRecords(Readings(PagesIn(names[n - 1..], s.files)))
    ensures ReplayingFiles(s, from, accepts) == (Replayed(s.Position()), Payloads(Readings(PagesIn(names[n - 1..], s.files))))
  {
    ReplayPagesDone(PagesIn(names[n - 1..], s.files), accepts);
  }

  lemma ReplayPagesDone(pages: seq<Page>, accepts: ByteString -> bool)
    ensures ReplayPages(pages, accepts, []).outcome.Done? ==>
      AllRecords(Readings(pages)) && ReplayPages(pages, accepts, []).calls == Payloads(Readings(pages))
  {
    ReplayComplete(Readings(pages), accepts, []);
    if AllRecords(Readings(pages)) {
      assert [] + Payloads(Readings(pages)) == Payloads(Readings(pages));
    }
  }

  // A replay that ran to its end called back with every page from the start of one file to the end
  // of the log, and every file that it skipped holds earlier positions only.
  lemma ReplayCovers(s: WalState, from: SequenceId, accepts: ByteString -> bool) returns (start: nat)
    requires !ReplayUnneeded(s, from) && !NoWal(s)
    requires ValidNumber(from.term) && ValidNumber(from.collection)
    requires forall name :: name in Listing(s.files) ==> Canonical(name)
    requires Replaying(s, from, accepts).0.Replayed?
    ensures var names := Listing(s.files);
            && start < |names|
            && (forall x :: x in names[start..] ==> x in s.files)
            && AllRecords(Readings(PagesIn(names[start..], s.files)))
            && Replaying(s, from, accepts) == (Replayed(s.Position()), Payloads(Readings(PagesIn(names[start..], s.files))))
            && forall i :: 0 <= i < start ==> Before(names[i], from)
  {
    var names, target := Listing(s.files), Filename(from.term, from.collection);
    var n := NamesUpTo(names, target);
    NamesUpToSplit(names, target);
    ReplayCallsAll(s, from, accepts, names, n);
    start := n - 1;
    SkippedAllBefore(names, start, from);
  }

  // ---- replay of a log written from an empty folder ----

  // The index of the first page of the file that holds the i-th page.
  function FileStart(i: nat): nat
    requires i >= 1
  {
    (i - 1) / PAGES_PER_FILE * PAGES_PER_FILE
  }

  lemma {:induction false} NamesUpToNames(term: int, count: nat, c: nat, i: nat)
    requires ValidNumber(term) && 1 <= c <= count <= MAX_INT64 && i <= c
    ensures NamesUpTo(Names(term, count)[i..], Filename(term, c)) == c - i
    decreases c - i
  {
    var rest := Names(term, count)[i..];
    if i == c {
      if c < count {
        assert rest[0] == Filename(term, c + 1);
        FilenameOrder(term, c, term, c + 1);
      }
    } else {
      assert rest[0] == Filename(term, i + 1) && rest[1..] == Names(term, count)[i + 1..];
      FilenameOrder(term, c, term, i + 1);
      NamesUpToNames(term, count, c, i + 1);
    }
  }

  lemma FileOfPosition(term: int, i: nat)
    requires i >= 1
    ensures FileStart(i) == (PositionAfter(term, i).collection - 1) * PAGES_PER_FILE
    ensures FileStart(i) < i
  {
  }

  // From the i-th position, a writer at the end of n > i pages replays all pages from the start of
  // the file that holds the i-th page.
  lemma ReplayFromPosition(s: WalState, pages: seq<Page>, i: nat, accepts: ByteString -> bool)
    requires WriterAt(s, pages) && Room(|pages|) && 1 <= i < |pages|
    ensures FileStart(i) < i
    ensures var r := ReplayPages(pages[FileStart(i)..], accepts, []);
            Replaying(s, PositionAfter(s.term, i), accepts) ==
            (if r.outcome.Done? then Replayed(s.Position()) else ReplayFailed(r.outcome.error), r.calls)
  {
    var term := s.term;
    var count, from := FileCount(|pages|), PositionAfter(term, i);
    var c := from.collection;
    NextPosition(term, i);
    PositionOrder(term, i, |pages|);
    ListingOfHolds(s.files, pages, term);
    assert 1 <= c <= count;
    assert Names(term, count)[0..] == Names(term, count);
    NamesUpToNames(term, count, c, 0);
    PagesFromFile(s.files, pages, term, c - 1);
    FileOfPosition(term, i);
    assert !ReplayUnneeded(s, from) && !NoWal(s);
  }

  // ---- every outcome ----

  predicate Int64Fields(id: SequenceId) {
    && -MAX_INT64 - 1 <= id.term <= MAX_INT64 && -MAX_INT64 - 1 <= id.collection <= MAX_INT64
    && -MAX_INT64 - 1 <= id.seqNo <= MAX_INT64
  }

  // Numbers that are not positive are printed before all that are.
  lemma PrintedBefore(n: int, m: int)
    requires n <= 0 && ValidNumber(m)
    ensures Less(Printed(n), Printed(m)) && forall rest, rest' :: Less(Printed(n) + rest, Printed(m) + rest')
  {
    NumbersFit();
    if n == 0 {
      HexOrder(0, m, HALF);
      forall rest, rest' ensures Less(Printed(n) + rest, Printed(m) + rest') {
        LessConcat(Printed(n), Printed(m), rest, rest');
      }
    } else {
      HexAt(m, HALF, HALF - 1);
      assert Printed(n)[0] == '-' && Printed(m)[0] > '-';
      forall rest, rest' ensures Less(Printed(n) + rest, Printed(m) + rest') {
        assert (Printed(n) + rest)[0] == '-' && (Printed(m) + rest')[0] == Printed(m)[0];
      }
    }
  }

  // The name that a position before every file of the log would have.
  lemma BeforeFirstFile(from: SequenceId, term: int)
    requires ValidNumber(term) && Int64Fields(from) && (from.term < term || (from.term == term && from.collection < 1))
    ensures Less(Filename(from.term, from.collection), Filename(term, 1))
  {
    NumbersFit();
    if from.term <= 0 {
      PrintedBefore(from.term, term);
    } else if from.term < term {
      HexOrder(from.term, term, HALF);
      LessConcat(Printed(from.term), Printed(term), Printed(from.collection), Printed(1));
    } else {
      PrintedBefore(from.collection, 1);
      LessConcat(Printed(term), Printed(term), Printed(from.collection), Printed(1));
    }
  }

  lemma MissingHistory(s: WalState, from: SequenceId, accepts: ByteString -> bool, names: seq<string>, target: string)
    requires names == Listing(s.files) && names != [] && target == Filename(from.term, from.collection)
    requires Less(target, names[0])
    ensures ReplayingFiles(s, from, accepts) == (ReplayFailed(HistoryMissing), [])
  {
    assert NamesUpTo(names, target) == 0;
  }

  lemma FirstName(term: int, count: nat)
    requires count > 0
    ensures Names(term, count)[0] == Filename(term, 1)
  {
  }

  lemma NothingBefore(s: WalState, pages: seq<Page>, from: SequenceId, accepts: ByteString -> bool)
    requires WriterAt(s, pages) && Room(|pages|) && pages != [] && Int64Fields(from)
    requires from.term < s.term || (from.term == s.term && from.collection < 1)
    ensures ReplayingFiles(s, from, accepts) == (ReplayFailed(HistoryMissing), [])
  {
    ListingOfHolds(s.files, pages, s.term);
    BeforeFirstFile(from, s.term);
    FirstName(s.term, FileCount(|pages|));
    MissingHistory(s, from, accepts, Listing(s.files), Filename(from.term, from.collection));
  }

  lemma ReplayFromFile(s: WalState, pages: seq<Page>, from: SequenceId, accepts: ByteString -> bool)
    requires WriterAt(s, pages) && Room(|pages|) && from.term == s.term && 1 <= from.collection <= FileCount(|pages|)
    ensures (from.collection - 1) * PAGES_PER_FILE <= |pages|
    ensures var r := ReplayPages(pages[(from.collection - 1) * PAGES_PER_FILE..], accepts, []);
            ReplayingFiles(s, from, accepts) ==
            (if r.outcome.Done? then Replayed(s.Position()) else ReplayFailed(r.outcome.error), r.calls)
  {
    var term, count, c := s.term, FileCount(|pages|), from.collection;
    ListingOfHolds(s.files, pages, term);
    assert Names(term, count)[0..] == Names(term, count);
    NamesUpToNames(term, count, c, 0);
    PagesFromFile(s.files, pages, term, c - 1);
  }

  // The order of the early answers, in any state of the counters: at the end, without a log, after the end.
  lemma EarlyAnswers(s: WalState, from: SequenceId, accepts: ByteString -> bool)
    ensures Replaying(s, from, accepts)
            == if from == s.Position() then (Replayed(from), [])
               else if s.Position() == SequenceId(1, 0, 0) then (Replayed(SequenceId(1, 1, 1)), [])
               else if Earlier(s.Position(), from) then (ReplayFailed(NewerThanLog), [])
               else ReplayingFiles(s, from, accepts)
  {
  }

  // What a replay of a log of n pages does, for every position that it can be asked for: nothing at the log's end or
  // when there is no log, no call but an error after the end and before the first file, and else all the pages from
  // the first of the position's file on, as far as they are good and the callback takes them.
  lemma ReplayOutcomes(s: WalState, pages: seq<Page>, from: SequenceId, accepts: ByteString -> bool)
    requires WriterAt(s, pages) && Room(|pages|) && Int64Fields(from)
    ensures from == s.Position() ==> Replaying(s, from, accepts) == (Replayed(from), [])
    ensures from != s.Position() && pages == [] ==>
              Replaying(s, from, accepts) == (Replayed(SequenceId(1, 1, 1)), [])
    ensures pages != [] && Earlier(s.Position(), from) ==>
              Replaying(s, from, accepts) == (ReplayFailed(NewerThanLog), [])
    ensures pages != [] && (from.term < s.term || (from.term == s.term && from.collection < 1)) ==>
              Replaying(s, from, accepts) == (ReplayFailed(HistoryMissing), [])
    ensures pages != [] && from != s.Position() && !Earlier(s.Position(), from)
            && from.term == s.term && from.collection >= 1 ==>
              (from.collection - 1) * 262144 <= |pages|
              && var r := ReplayPages(pages[(from.collection - 1) * 262144..], accepts, []);
                 Replaying(s, from, accepts)
                 == (if r.outcome.Done? then Replayed(s.Position()) else ReplayFailed(r.outcome.error), r.calls)
  {
    if pages != [] {
      if from.term < s.term || (from.term == s.term && from.collection < 1) {
        NothingBefore(s, pages, from, accepts);
      } else if from != s.Position() && !Earlier(s.Position(), from) {
        ReplayFromFile(s, pages, from, accepts);
      }
    }
  }
}
