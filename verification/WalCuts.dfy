// Logs that are written, cut short and opened again any number of times: how their files grow, and when they can
// be read.
module WalCuts {
  import opened Bytes
  import opened Folds
  import opened WalPage
  import opened WalNames
  import opened WalEntries
  import opened DiskWal
  import opened WalRuns
  import opened WalRepair
  import opened Options

  // The pages of each file, in the order of the files.
  type Chunks = seq<seq<Page>>

  function Last(chunks: Chunks): seq<Page>
    requires chunks != []
  {
    chunks[|chunks| - 1]
  }

  function Flatten(chunks: Chunks): seq<Page> {
    if chunks == [] then [] else Flatten(chunks[..|chunks| - 1]) + Last(chunks)
  }

  ghost predicate HoldsChunks(files: Files, chunks: Chunks, term: int) {
    && (forall name :: name in files && WalFilename(name).Parsed? ==>
          exists c :: 1 <= c <= |chunks| && name == Filename(term, c))
    && (forall c :: 1 <= c <= |chunks| ==>
          Filename(term, c) in files && files[Filename(term, c)] == chunks[c - 1])
  }

  // A writer at the end of these files.
  ghost predicate StandsAt(s: WalState, chunks: Chunks) {
    && ValidNumber(s.term) && |chunks| <= MAX_INT64 && HoldsChunks(s.files, chunks, s.term)
    && if chunks == [] then s == WalState(1, 0, 0, 0, Closed, s.files)
       else
         && s.collection == |chunks| && s.seqNo == s.occupied == |Last(chunks)| > 0
         && s.file == Open(Filename(s.term, |chunks|))
  }

  // ---- one page ----

  function AddPage(chunks: Chunks, page: Page): (r: Chunks)
    ensures r != [] && |r| >= |chunks|
  {
    if chunks == [] || |Last(chunks)| >= PAGES_PER_FILE then chunks + [[page]]
    else chunks[..|chunks| - 1] + [Last(chunks) + [page]]
  }

  lemma NewName(files: Files, chunks: Chunks, term: int, name: string)
    requires ValidNumber(term) && HoldsChunks(files, chunks, term) && |chunks| + 1 <= MAX_INT64
    requires name == Filename(term, |chunks| + 1)
    ensures name !in files
  {
    forall c | 1 <= c <= |chunks| ensures Filename(term, c) != name {
      FilenamesDiffer(term, c, |chunks| + 1);
    }
    FilenameRoundTrip(term, |chunks| + 1);
  }

  lemma InNewFile(files: Files, chunks: Chunks, page: Page, term: int, name: string)
    requires ValidNumber(term) && HoldsChunks(files, chunks, term) && |chunks| + 1 <= MAX_INT64
    requires name == Filename(term, |chunks| + 1)
    ensures name !in files && HoldsChunks(files[name := [page]], chunks + [[page]], term)
  {
    var next, files' := |chunks| + 1, files[name := [page]];
    NewName(files, chunks, term, name);
    forall c | 1 <= c <= next
      ensures Filename(term, c) in files' && files'[Filename(term, c)] == (chunks + [[page]])[c - 1]
    {
      assert c < next ==> Filename(term, c) in files;
    }
    assert Filename(term, next) == name;
  }

  lemma InLastFile(files: Files, chunks: Chunks, pages: seq<Page>, term: int, name: string)
    requires ValidNumber(term) && HoldsChunks(files, chunks, term) && 0 < |chunks| <= MAX_INT64
    requires name == Filename(term, |chunks|)
    ensures HoldsChunks(files[name := pages], chunks[..|chunks| - 1] + [pages], term)
  {
    var last, files' := |chunks|, files[name := pages];
    forall c | 1 <= c <= last
      ensures Filename(term, c) in files' && files'[Filename(term, c)] == (chunks[..last - 1] + [pages])[c - 1]
    {
      FilenameOrder(term, c, term, last);
    }
  }

  lemma PageAdded(s: WalState, chunks: Chunks, page: Page)
    requires StandsAt(s, chunks) && |AddPage(chunks, page)| <= MAX_INT64
    ensures StandsAt(PageAppended(s, page), AddPage(chunks, page))
    ensures PageAppended(s, page).term == s.term
  {
    if chunks == [] || |Last(chunks)| >= PAGES_PER_FILE {
      var name := Filename(s.term, s.collection + 1);
      InNewFile(s.files, chunks, page, s.term, name);
      Rotated(s, page, name);
    } else {
      var name := Filename(s.term, |chunks|);
      InLastFile(s.files, chunks, Last(chunks) + [page], s.term, name);
      NotRotated(s, page);
      assert s.files[name] == Last(chunks);
    }
  }

  lemma {:induction false} AddPagesLonger(chunks: Chunks, pages: seq<Page>)
    ensures |FoldLeft(AddPage, chunks, pages)| >= |chunks|
    ensures pages != [] ==> FoldLeft(AddPage, chunks, pages) != []
    decreases pages
  {
    if pages != [] {
      AddPagesLonger(AddPage(chunks, pages[0]), pages[1..]);
    }
  }

  lemma {:induction false} PagesAdded(s: WalState, chunks: Chunks, pages: seq<Page>)
    requires StandsAt(s, chunks) && |FoldLeft(AddPage, chunks, pages)| <= MAX_INT64
    ensures StandsAt(Appended(s, pages), FoldLeft(AddPage, chunks, pages))
    decreases pages
  {
    if pages != [] {
      AddPagesLonger(AddPage(chunks, pages[0]), pages[1..]);
      PageAdded(s, chunks, pages[0]);
      PagesAdded(PageAppended(s, pages[0]), AddPage(chunks, pages[0]), pages[1..]);
    }
  }

  // ---- opening ----

  // A broken end goes to the last file, however full that is.
  function Reopened(chunks: Chunks): Chunks {
    if chunks == [] then [] else chunks[..|chunks| - 1] + [Repaired(Last(chunks))]
  }

  lemma ChunksListed(files: Files, chunks: Chunks, term: int)
    requires ValidNumber(term) && HoldsChunks(files, chunks, term) && |chunks| <= MAX_INT64
    ensures Listing(files) == Names(term, |chunks|)
  {
    NamesSorted(term, |chunks|);
    forall c | 1 <= c <= |chunks|
      ensures Filename(term, c) in files && WalFilename(Filename(term, c)).Parsed?
    {
      FilenameRoundTrip(term, c);
    }
    forall x ensures x in Names(term, |chunks|) <==> x in Listing(files) {
      MembersOfNames(files, term, |chunks|, x);
    }
    SortedUnique(Listing(files), Names(term, |chunks|));
  }

  lemma LastOpens(files: Files, last: string, term: int, collection: int)
    requires last in files && WalFilename(last) == Parsed(term, collection)
    requires files[last] != [] && FirstRejection(Readings(files[last])) == None
    ensures var kept := Repaired(files[last]);
            LastFileOpened(files, 0, last)
            == Ready(WalState(term, collection, |kept|, |kept|, Open(last), files[last := kept]))
  {
  }

  lemma ListedLast(files: Files, chunks: Chunks, term: int, last: string)
    requires ValidNumber(term) && HoldsChunks(files, chunks, term) && 0 < |chunks| <= MAX_INT64
    requires last == Filename(term, |chunks|)
    ensures last in files && files[last] == Last(chunks) && WalFilename(last) == Parsed(term, |chunks|)
    ensures Initialized(files, 0, Closed) == LastFileOpened(files, 0, last)
  {
    ChunksListed(files, chunks, term);
    LastName(term, |chunks|);
    InitializedBy(files, 0, Closed, Listing(files));
    FilenameRoundTrip(term, |chunks|);
  }

  lemma FilesReopen(files: Files, chunks: Chunks, term: int) returns (s: WalState)
    requires ValidNumber(term) && HoldsChunks(files, chunks, term) && 0 < |chunks| <= MAX_INT64
    requires Last(chunks) != [] && AllRecords(Readings(Last(chunks)))
    ensures Initialized(files, 0, Closed) == Ready(s) && StandsAt(s, Reopened(chunks)) && s.term == term
  {
    var last := Filename(term, |chunks|);
    ListedLast(files, chunks, term, last);
    NoRejection(Readings(Last(chunks)));
    LastOpens(files, last, term, |chunks|);
    InLastFile(files, chunks, Repaired(Last(chunks)), term, last);
    s := LastFileOpened(files, 0, last).state;
  }

  lemma Reopens(s: WalState, chunks: Chunks) returns (s': WalState)
    requires StandsAt(s, chunks) && (chunks != [] ==> AllRecords(Readings(Last(chunks))))
    ensures Initialized(s.files, 0, Closed) == Ready(s') && StandsAt(s', Reopened(chunks))
  {
    if chunks == [] {
      ChunksListed(s.files, chunks, s.term);
      InitializedBy(s.files, 0, Closed, Listing(s.files));
      s' := WalState(1, 0, 0, 0, Closed, s.files);
    } else {
      s' := FilesReopen(s.files, chunks, s.term);
    }
  }

  // ---- runs ----

  datatype CutEvent = Write(entry: ByteString) | Reopen | CutAndReopen(entry: ByteString, k: nat)

  // A cut leaves some pages of an entry of several pages, and not all.
  predicate Possible(e: CutEvent) {
    e.CutAndReopen? ==> |e.entry| > RECORD_MAX && 1 <= e.k < PageCount(|e.entry|) && e.k <= |EntryPages(e.entry)|
  }

  predicate AllPossible(events: seq<CutEvent>) {
    forall e :: e in events ==> Possible(e)
  }

  function PagesWritten(e: CutEvent): seq<Page>
    requires Possible(e)
  {
    match e
    case Write(entry) => EntryPages(entry)
    case Reopen => []
    case CutAndReopen(entry, k) => EntryPages(entry)[..k]
  }

  ghost function NextState(r: InitResult, e: CutEvent): InitResult
    requires Possible(e)
  {
    if r.InitFailed? then r
    else
      var s := Appended(r.state, PagesWritten(e));
      if e.Write? then Ready(s) else Initialized(s.files, 0, Closed)
  }

  ghost function StateAfter(events: seq<CutEvent>): InitResult
    requires AllPossible(events)
  {
    if events == [] then Ready(EMPTY_FOLDER_WRITER)
    else NextState(StateAfter(events[..|events| - 1]), events[|events| - 1])
  }

  function NextChunks(chunks: Chunks, e: CutEvent): Chunks
    requires Possible(e)
  {
    var written := FoldLeft(AddPage, chunks, PagesWritten(e));
    if e.Write? then written else Reopened(written)
  }

  function ChunksAfter(events: seq<CutEvent>): Chunks
    requires AllPossible(events)
  {
    if events == [] then [] else NextChunks(ChunksAfter(events[..|events| - 1]), events[|events| - 1])
  }

  // ---- what the pages say ----

  function EventRecords(e: CutEvent): seq<Fragment>
    requires Possible(e)
  {
    match e
    case Write(entry) => Fragments(entry)
    case Reopen => []
    case CutAndReopen(entry, k) => RepairedCut(entry, k)
  }

  function RecordsOf(events: seq<CutEvent>): seq<Fragment>
    requires AllPossible(events)
  {
    if events == [] then [] else EventRecords(events[0]) + RecordsOf(events[1..])
  }

  lemma PossibleSnoc(events: seq<CutEvent>, e: CutEvent)
    requires AllPossible(events + [e])
    ensures AllPossible(events) && Possible(e)
  {
    assert e in events + [e] && forall x :: x in events ==> x in events + [e];
  }

  lemma {:induction false} RecordsSnoc(events: seq<CutEvent>, e: CutEvent)
    requires AllPossible(events + [e])
    ensures AllPossible(events) && Possible(e) && RecordsOf(events + [e]) == RecordsOf(events) + EventRecords(e)
    decreases |events|
  {
    PossibleSnoc(events, e);
    if events == [] {
      assert events + [e] == [e] && [e][1..] == [];
    } else {
      var first, rest := events[0], events[1..];
      assert (events + [e])[0] == first && (events + [e])[1..] == rest + [e];
      RecordsSnoc(rest, e);
      Reassociate(EventRecords(first), RecordsOf(rest), EventRecords(e));
    }
  }

  lemma FlattenUpdate(chunks: Chunks, pages: seq<Page>)
    requires chunks != []
    ensures Flatten(chunks[..|chunks| - 1] + [pages]) == Flatten(chunks[..|chunks| - 1]) + pages
  {
    var all := chunks[..|chunks| - 1] + [pages];
    assert all[..|all| - 1] == chunks[..|chunks| - 1];
  }

  lemma FlattenAdd(chunks: Chunks, page: Page)
    ensures Flatten(AddPage(chunks, page)) == Flatten(chunks) + [page]
  {
    if chunks == [] || |Last(chunks)| >= PAGES_PER_FILE {
      assert (chunks + [[page]])[..|chunks|] == chunks;
    } else {
      FlattenUpdate(chunks, Last(chunks) + [page]);
    }
  }

  lemma FlattenAddAll(chunks: Chunks, pages: seq<Page>)
    ensures Flatten(FoldLeft(AddPage, chunks, pages)) == Flatten(chunks) + pages
  {
    forall c: Chunks, page: Page ensures Flatten(AddPage(c, page)) == Flatten(c) + [page] {
      FlattenAdd(c, page);
    }
    FoldCollects(AddPage, Flatten, chunks, pages);
  }

  // Every file has a page.
  predicate NoEmptyFile(chunks: Chunks) {
    forall c :: 0 <= c < |chunks| ==> chunks[c] != []
  }

  lemma {:induction false} AddNoEmpty(chunks: Chunks, pages: seq<Page>)
    requires NoEmptyFile(chunks)
    ensures NoEmptyFile(FoldLeft(AddPage, chunks, pages))
    decreases pages
  {
    if pages != [] {
      AddNoEmpty(AddPage(chunks, pages[0]), pages[1..]);
    }
  }

  lemma LastRecords(before: seq<PageResult>, last: seq<PageResult>)
    requires last != [] && AllRecords(before + last)
    ensures AllRecords(last) && (EndsInMiddle(last) <==> EndsInMiddle(before + last))
  {
    assert forall i :: 0 <= i < |last| ==> (before + last)[|before| + i] == last[i];
  }

  // The last file has the last records of the log.
  lemma LastReadings(chunks: Chunks, all: seq<Page>)
    requires chunks != [] && Last(chunks) != [] && all == Flatten(chunks) && AllRecords(Readings(all))
    ensures AllRecords(Readings(Last(chunks)))
    ensures EndsInMiddle(Readings(Last(chunks))) <==> EndsInMiddle(Readings(all))
  {
    var before := Flatten(chunks[..|chunks| - 1]);
    ReadingsConcat(before, Last(chunks));
    LastRecords(Readings(before), Readings(Last(chunks)));
  }

  lemma RepairedLike(last: seq<Page>, all: seq<Page>)
    requires EndsInMiddle(Readings(last)) <==> EndsInMiddle(Readings(all))
    ensures Repaired(last) == last + BrokenEnd(all)
  {
  }

  lemma FlattenExtended(chunks: Chunks, end: seq<Page>)
    requires chunks != []
    ensures Flatten(chunks[..|chunks| - 1] + [Last(chunks) + end]) == Flatten(chunks) + end
  {
    FlattenUpdate(chunks, Last(chunks) + end);
    Reassociate(Flatten(chunks[..|chunks| - 1]), Last(chunks), end);
  }

  lemma FlattenReopened(chunks: Chunks, all: seq<Page>)
    requires all == Flatten(chunks) && (chunks == [] || (Last(chunks) != [] && AllRecords(Readings(all))))
    ensures Flatten(Reopened(chunks)) == all + BrokenEnd(all)
  {
    if chunks != [] {
      LastReadings(chunks, all);
      RepairedLike(Last(chunks), all);
      FlattenExtended(chunks, BrokenEnd(all));
    }
  }

  // The records that these pages hold are all good, and the last is no Middle.
  ghost predicate ReadsAs(pages: seq<Page>, records: seq<Fragment>) {
    Readings(pages) == records && !EndsInMiddle(records)
  }

  lemma WrittenReads(pages: seq<Page>, records: seq<Fragment>, e: CutEvent)
    requires ReadsAs(pages, records) && Possible(e)
    ensures var all := pages + PagesWritten(e);
            AllRecords(Readings(all))
            && if e.Write? then ReadsAs(all, records + EventRecords(e))
               else ReadsAs(all + BrokenEnd(all), records + EventRecords(e))
  {
    if e.Write? {
      WholeReads(pages, records, e.entry);
    } else if e.Reopen? {
      assert pages + [] == pages && records + [] == records;
    } else {
      CutReads(pages, records, e.entry, e.k);
    }
  }

  lemma WholeReads(pages: seq<Page>, records: seq<Fragment>, entry: ByteString)
    requires ReadsAs(pages, records)
    ensures ReadsAs(pages + EntryPages(entry), records + Fragments(entry))
  {
    ReadingsConcat(pages, EntryPages(entry));
    FragmentsFit(entry);
    ReadingsOfPages(Fragments(entry));
  }

  lemma CutReads(pages: seq<Page>, records: seq<Fragment>, entry: ByteString, k: nat)
    requires ReadsAs(pages, records) && Possible(CutAndReopen(entry, k))
    ensures var all := pages + EntryPages(entry)[..k];
            AllRecords(Readings(all)) && ReadsAs(all + BrokenEnd(all), records + RepairedCut(entry, k))
  {
    CutPrefixReads(entry, k);
    CutLastKind(entry, k);
    CutRepaired(pages, records, EntryPages(entry)[..k], Fragments(entry)[..k], k);
  }

  lemma CutRepaired(pages: seq<Page>, records: seq<Fragment>, written: seq<Page>, cut: seq<Fragment>, k: nat)
    requires ReadsAs(pages, records) && Readings(written) == cut
    requires |cut| == k >= 1 && cut[k - 1].kind == if k >= 2 then MIDDLE else START
    ensures var all := pages + written;
            AllRecords(Readings(all))
            && ReadsAs(all + BrokenEnd(all), records + (cut + if k >= 2 then [BROKEN_RECORD] else []))
  {
    ReadingsConcat(pages, written);
    EndsLikeCut(records, cut, k);
    RepairedReads(pages + written, records + cut, k);
    Reassociate(records, cut, if k >= 2 then [BROKEN_RECORD] else []);
  }

  lemma CutLastKind(entry: ByteString, k: nat)
    requires |entry| > RECORD_MAX && 1 <= k < PageCount(|entry|)
    ensures k <= |Fragments(entry)| && Fragments(entry)[k - 1].kind == if k >= 2 then MIDDLE else START
  {
    CutKinds(entry, k);
    if k >= 2 {
      assert Fragments(entry)[1..k][k - 2] == Fragments(entry)[k - 1];
    }
  }

  lemma EndsLikeCut(records: seq<Fragment>, cut: seq<Fragment>, k: nat)
    requires |cut| == k >= 1 && cut[k - 1].kind == if k >= 2 then MIDDLE else START
    ensures EndsInMiddle(records + cut) <==> k >= 2
  {
    assert (records + cut)[|records + cut| - 1] == cut[k - 1];
  }

  lemma RepairedReads(pages: seq<Page>, records: seq<Fragment>, k: nat)
    requires Readings(pages) == records && (EndsInMiddle(records) <==> k >= 2)
    ensures ReadsAs(pages + BrokenEnd(pages), records + if k >= 2 then [BROKEN_RECORD] else [])
  {
    ReadingsConcat(pages, BrokenEnd(pages));
    if k >= 2 {
      BrokenReadBack();
    }
  }

  lemma CutPrefixReads(entry: ByteString, k: nat)
    requires k <= |EntryPages(entry)|
    ensures k <= |Fragments(entry)| && Readings(EntryPages(entry)[..k]) == Fragments(entry)[..k]
  {
    FragmentsFit(entry);
    PagesOfPrefix(Fragments(entry), k);
    ReadingsOfPages(Fragments(entry)[..k]);
  }

  // ---- every run ----

  lemma RunPrefix(events: seq<CutEvent>)
    requires AllPossible(events) && events != []
    ensures AllPossible(events[..|events| - 1]) && Possible(events[|events| - 1])
  {
  }

  lemma LastEvent(events: seq<CutEvent>, before: seq<CutEvent>, e: CutEvent)
    requires events == before + [e] && AllPossible(events)
    ensures AllPossible(before) && Possible(e)
    ensures RecordsOf(events) == RecordsOf(before) + EventRecords(e)
    ensures ChunksAfter(events) == NextChunks(ChunksAfter(before), e)
  {
    RecordsSnoc(before, e);
    assert events[..|events| - 1] == before;
  }

  lemma {:induction false} RunReads(events: seq<CutEvent>)
    requires AllPossible(events)
    ensures ReadsAs(Flatten(ChunksAfter(events)), RecordsOf(events)) && NoEmptyFile(ChunksAfter(events))
    decreases |events|
  {
    if events != [] {
      var before, e := events[..|events| - 1], events[|events| - 1];
      LastEvent(events, before, e);
      RunReads(before);
      NextReads(ChunksAfter(before), RecordsOf(before), e);
    }
  }

  lemma ReopenReads(written: Chunks, all: seq<Page>, records: seq<Fragment>)
    requires NoEmptyFile(written) && all == Flatten(written) && AllRecords(Readings(all))
    requires ReadsAs(all + BrokenEnd(all), records)
    ensures ReadsAs(Flatten(Reopened(written)), records) && NoEmptyFile(Reopened(written))
  {
    FlattenReopened(written, all);
  }

  lemma NextReads(chunks: Chunks, records: seq<Fragment>, e: CutEvent)
    requires ReadsAs(Flatten(chunks), records) && NoEmptyFile(chunks) && Possible(e)
    ensures ReadsAs(Flatten(NextChunks(chunks, e)), records + EventRecords(e)) && NoEmptyFile(NextChunks(chunks, e))
  {
    var written := FoldLeft(AddPage, chunks, PagesWritten(e));
    FlattenAddAll(chunks, PagesWritten(e));
    AddNoEmpty(chunks, PagesWritten(e));
    WrittenReads(Flatten(chunks), records, e);
    if !e.Write? {
      ReopenReads(written, Flatten(written), records + EventRecords(e));
    }
  }

  lemma ReopenStands(s: WalState, written: Chunks)
    requires StandsAt(s, written) && NoEmptyFile(written) && AllRecords(Readings(Flatten(written)))
    ensures Initialized(s.files, 0, Closed).Ready?
            && StandsAt(Initialized(s.files, 0, Closed).state, Reopened(written))
  {
    if written != [] {
      LastReadings(written, Flatten(written));
    }
    var s' := Reopens(s, written);
  }

  lemma WrittenReopens(s: WalState, chunks: Chunks, pages: seq<Page>, written: Chunks)
    requires StandsAt(s, chunks) && written == FoldLeft(AddPage, chunks, pages) && |written| <= MAX_INT64
    requires NoEmptyFile(chunks) && AllRecords(Readings(Flatten(chunks) + pages))
    ensures Initialized(Appended(s, pages).files, 0, Closed).Ready?
            && StandsAt(Initialized(Appended(s, pages).files, 0, Closed).state, Reopened(written))
  {
    PagesAdded(s, chunks, pages);
    FlattenAddAll(chunks, pages);
    AddNoEmpty(chunks, pages);
    ReopenStands(Appended(s, pages), written);
  }

  lemma NextStands(s: WalState, chunks: Chunks, e: CutEvent)
    requires StandsAt(s, chunks) && Possible(e) && |NextChunks(chunks, e)| <= MAX_INT64
    requires NoEmptyFile(chunks) && AllRecords(Readings(Flatten(chunks) + PagesWritten(e)))
    ensures NextState(Ready(s), e).Ready? && StandsAt(NextState(Ready(s), e).state, NextChunks(chunks, e))
  {
    var pages := PagesWritten(e);
    if e.Write? {
      PagesAdded(s, chunks, pages);
    } else {
      WrittenReopens(s, chunks, pages, FoldLeft(AddPage, chunks, pages));
    }
  }

  lemma {:induction false} RunStands(events: seq<CutEvent>)
    requires AllPossible(events) && |ChunksAfter(events)| <= MAX_INT64
    ensures StateAfter(events).Ready? && StandsAt(StateAfter(events).state, ChunksAfter(events))
    decreases |events|
  {
    if events != [] {
      var before, e := events[..|events| - 1], events[|events| - 1];
      RunPrefix(events);
      AddPagesLonger(ChunksAfter(before), PagesWritten(e));
      RunStands(before);
      RunReads(before);
      WrittenReads(Flatten(ChunksAfter(before)), RecordsOf(before), e);
      NextStands(StateAfter(before).state, ChunksAfter(before), e);
    }
  }

  // ---- what the files read as ----

  lemma {:induction false} PagesInSnoc(names: seq<string>, last: string, files: Files)
    requires last in files && forall x :: x in names ==> x in files
    ensures PagesIn(names + [last], files) == PagesIn(names, files) + files[last]
    decreases names
  {
    if names == [] {
      assert names + [last] == [last] && [last][1..] == [];
    } else {
      assert (names + [last])[1..] == names[1..] + [last];
      PagesInSnoc(names[1..], last, files);
    }
  }

  lemma {:induction false} PagesFlatten(names: seq<string>, files: Files, chunks: Chunks)
    requires |names| == |chunks| && forall i :: 0 <= i < |names| ==> names[i] in files && files[names[i]] == chunks[i]
    ensures (forall x :: x in names ==> x in files) && PagesIn(names, files) == Flatten(chunks)
    decreases |names|
  {
    if names != [] {
      var n := |names| - 1;
      PagesFlatten(names[..n], files, chunks[..n]);
      PagesInSnoc(names[..n], names[n], files);
      assert names == names[..n] + [names[n]];
    }
  }

  // The entries that were written whole.
  function Completed(events: seq<CutEvent>): seq<ByteString> {
    if events == [] then []
    else (if events[0].Write? then [events[0].entry] else []) + Completed(events[1..])
  }

  // No entry was cut after its first page.
  predicate CutLate(events: seq<CutEvent>) {
    forall e :: e in events && e.CutAndReopen? ==> e.k >= 2
  }

  lemma {:induction false} FirstRecord(events: seq<CutEvent>)
    requires AllPossible(events)
    ensures RecordsOf(events) == [] || RecordsOf(events)[0].kind in {WHOLE, START}
    decreases events
  {
    if events != [] {
      assert Possible(events[0]);
      match events[0]
      case Write(entry) => FragmentsFit(entry);
      case Reopen => FirstRecord(events[1..]);
      case CutAndReopen(entry, k) => CutKinds(entry, k);
    }
  }

  lemma StartThenFirst(first: Fragment, rest: seq<Fragment>)
    requires first.kind == START && (rest == [] || rest[0].kind in {WHOLE, START})
    ensures Reassemble(Nothing, [first] + rest) == Broken
  {
    assert ([first] + rest)[1..] == rest;
  }

  lemma CutThenRest(entry: ByteString, k: nat, rest: seq<Fragment>)
    requires Possible(CutAndReopen(entry, k)) && (rest == [] || rest[0].kind in {WHOLE, START})
    ensures Reassemble(Nothing, RepairedCut(entry, k) + rest) == if k >= 2 then Reassemble(Nothing, rest) else Broken
  {
    CutKinds(entry, k);
    if k >= 2 {
      BrokenGroups(Fragments(entry), k, rest);
    } else {
      assert RepairedCut(entry, k) == [Fragments(entry)[0]];
      StartThenFirst(Fragments(entry)[0], rest);
    }
  }

  lemma {:induction false} RunGroups(events: seq<CutEvent>)
    requires AllPossible(events)
    ensures Reassemble(Nothing, RecordsOf(events)) == if CutLate(events) then Entries(Completed(events)) else Broken
    decreases events
  {
    if events != [] {
      var e, rest := events[0], events[1..];
      RunGroups(rest);
      FirstRecord(rest);
      LateSplit(events);
      FirstGroups(e, RecordsOf(rest));
    }
  }

  lemma LateSplit(events: seq<CutEvent>)
    requires events != []
    ensures CutLate(events) <==> CutLate(events[1..]) && (events[0].CutAndReopen? ==> events[0].k >= 2)
  {
    assert forall e :: e in events <==> e == events[0] || e in events[1..];
  }

  lemma FirstGroups(e: CutEvent, rest: seq<Fragment>)
    requires Possible(e) && (rest == [] || rest[0].kind in {WHOLE, START})
    ensures Reassemble(Nothing, EventRecords(e) + rest)
            == if e.Write? then Put(e.entry, Reassemble(Nothing, rest))
               else if e.Reopen? || e.k >= 2 then Reassemble(Nothing, rest)
               else Broken
  {
    if e.Write? {
      ReassembleEntry(e.entry, rest);
    } else if e.Reopen? {
      assert [] + rest == rest;
    } else {
      CutThenRest(e.entry, e.k, rest);
    }
  }

  // Over every run of writes, cuts and restarts: the log always opens again, and its files, read in the order of
  // their names, group to exactly the entries that were written whole - unless an entry was cut after its first
  // page, and then they cannot be grouped at all.
  lemma CutRunReadBack(events: seq<CutEvent>)
    requires AllPossible(events) && |ChunksAfter(events)| <= MAX_INT64
    ensures StateAfter(events).Ready?
    ensures var files := StateAfter(events).state.files;
            (forall x :: x in Listing(files) ==> x in files)
            && Reassemble(Nothing, Readings(PagesIn(Listing(files), files)))
               == if CutLate(events) then Entries(Completed(events)) else Broken
  {
    RunStands(events);
    RunReads(events);
    RunGroups(events);
    var s, chunks := StateAfter(events).state, ChunksAfter(events);
    ChunksListed(s.files, chunks, s.term);
    PagesFlatten(Names(s.term, |chunks|), s.files, chunks);
  }

  // ---- the sizes of the files ----

  // A file within the limit, or a full one that ended in a Middle page when it was opened.
  ghost predicate SizeOk(pages: seq<Page>) {
    || |pages| <= PAGES_PER_FILE
    || (|pages| == PAGES_PER_FILE + 1 && EndsInMiddle(Readings(pages[..PAGES_PER_FILE]))
        && pages[PAGES_PER_FILE] == PageOf(BROKEN_RECORD))
  }

  ghost predicate SizesOk(chunks: Chunks) {
    forall c :: 0 <= c < |chunks| ==> SizeOk(chunks[c])
  }

  lemma AddSizes(chunks: Chunks, page: Page)
    requires SizesOk(chunks)
    ensures SizesOk(AddPage(chunks, page))
  {
  }

  lemma {:induction false} AddAllSizes(chunks: Chunks, pages: seq<Page>)
    requires SizesOk(chunks)
    ensures SizesOk(FoldLeft(AddPage, chunks, pages))
    decreases pages
  {
    if pages != [] {
      AddSizes(chunks, pages[0]);
      AddAllSizes(AddPage(chunks, pages[0]), pages[1..]);
    }
  }

  // Opening a file makes it exceed the limit exactly if it was full and ended in a Middle page.
  lemma RepairOverfills(pages: seq<Page>)
    requires |pages| * PAGE_SIZE <= MAX_FILE_SIZE
    ensures |Repaired(pages)| * PAGE_SIZE > MAX_FILE_SIZE
            <==> |pages| == PAGES_PER_FILE && EndsInMiddle(Readings(pages))
  {
  }

  lemma BrokenEndIsLast(full: seq<Page>)
    ensures Repaired(full + [PageOf(BROKEN_RECORD)]) == full + [PageOf(BROKEN_RECORD)]
  {
    BrokenReadBack();
    ReadingsConcat(full, [PageOf(BROKEN_RECORD)]);
  }

  lemma RepairSize(pages: seq<Page>)
    requires SizeOk(pages)
    ensures SizeOk(Repaired(pages))
  {
    if |pages| > PAGES_PER_FILE {
      assert pages == pages[..PAGES_PER_FILE] + [PageOf(BROKEN_RECORD)];
      BrokenEndIsLast(pages[..PAGES_PER_FILE]);
    } else if EndsInMiddle(Readings(pages)) {
      assert Repaired(pages)[..|pages|] == pages;
    }
  }

  lemma {:induction false} RunSizes(events: seq<CutEvent>)
    requires AllPossible(events)
    ensures SizesOk(ChunksAfter(events))
    decreases |events|
  {
    if events != [] {
      var before, e := events[..|events| - 1], events[|events| - 1];
      RunPrefix(events);
      RunSizes(before);
      NextSizes(ChunksAfter(before), e);
    }
  }

  lemma ReopenedSizes(written: Chunks)
    requires SizesOk(written)
    ensures SizesOk(Reopened(written))
  {
    if written != [] {
      RepairSize(Last(written));
    }
  }

  lemma NextSizes(chunks: Chunks, e: CutEvent)
    requires SizesOk(chunks) && Possible(e)
    ensures SizesOk(NextChunks(chunks, e))
  {
    var written := FoldLeft(AddPage, chunks, PagesWritten(e));
    AddAllSizes(chunks, PagesWritten(e));
    if !e.Write? {
      ReopenedSizes(written);
    }
  }

  // After any such run no file has more than one page too many, and that is a broken end behind a full file that
  // ended in a Middle page.
  lemma CutFileSizes(events: seq<CutEvent>, c: nat)
    requires AllPossible(events) && |ChunksAfter(events)| <= MAX_INT64 && 1 <= c <= |ChunksAfter(events)|
    ensures StateAfter(events).Ready?
    ensures var s := StateAfter(events).state;
            Filename(s.term, c) in s.files
            && var pages := s.files[Filename(s.term, c)];
               0 < |pages| && |pages| <= PAGES_PER_FILE + 1
               && (|pages| * PAGE_SIZE > MAX_FILE_SIZE ==>
                     EndsInMiddle(Readings(pages[..PAGES_PER_FILE])) && pages[PAGES_PER_FILE] == PageOf(BROKEN_RECORD))
  {
    RunStands(events);
    RunReads(events);
    RunSizes(events);
    assert SizeOk(ChunksAfter(events)[c - 1]);
  }
}
