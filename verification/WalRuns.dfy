// Whole runs of the log: where a writer stands after so many pages, that a clean restart puts it
// back exactly there, and what a replay covers.
module WalRuns {
  import opened Bytes
  import opened WalPage
  import opened WalNames
  import opened WalEntries
  import opened DiskWal
  import opened Folds
  import opened Options

  const PAGES_PER_FILE: nat := 262144

  function FileCount(n: nat): nat {
    (n + PAGES_PER_FILE - 1) / PAGES_PER_FILE
  }

  // The position after n pages of a log begun in an empty folder.
  function PositionAfter(term: int, n: nat): SequenceId
    requires n >= 1
  {
    SequenceId(term, (n - 1) / PAGES_PER_FILE + 1, (n - 1) % PAGES_PER_FILE + 1)
  }

  // The pages of the c-th file.
  function Chunk(pages: seq<Page>, c: int): seq<Page>
    requires 1 <= c <= FileCount(|pages|)
  {
    pages[(c - 1) * PAGES_PER_FILE..if c * PAGES_PER_FILE <= |pages| then c * PAGES_PER_FILE else |pages|]
  }

  // The folder holds exactly these pages, in files of one term; other names in it are not log files.
  ghost predicate Holds(files: Files, pages: seq<Page>, term: int) {
    && (forall name :: name in files && WalFilename(name).Parsed? ==>
          exists c :: 1 <= c <= FileCount(|pages|) && name == Filename(term, c))
    && (forall c :: 1 <= c <= FileCount(|pages|) ==>
          Filename(term, c) in files && files[Filename(term, c)] == Chunk(pages, c))
  }

  // A writer that stands at the end of these pages.
  ghost predicate WriterAt(s: WalState, pages: seq<Page>) {
    && ValidNumber(s.term) && Holds(s.files, pages, s.term)
    && if pages == [] then s == WalState(1, 0, 0, 0, Closed, s.files)
       else
         && s.Position() == PositionAfter(s.term, |pages|)
         && s.occupied == s.seqNo && s.file == Open(Filename(s.term, s.collection))
  }

  // The collection number stays a positive 64-bit number.
  predicate Room(n: nat) {
    FileCount(n) <= MAX_INT64
  }

  lemma LastChunk(pages: seq<Page>, term: int)
    requires pages != []
    ensures var p := PositionAfter(term, |pages|);
            && p.collection == FileCount(|pages|)
            && |Chunk(pages, p.collection)| == p.seqNo
  {
  }

  // ---- appending one page ----

  lemma EarlierChunk(pages: seq<Page>, page: Page, c: int)
    requires 1 <= c <= FileCount(|pages|) && (c < FileCount(|pages|) || |pages| % PAGES_PER_FILE == 0)
    ensures c < FileCount(|pages| + 1) && Chunk(pages + [page], c) == Chunk(pages, c)
  {
  }

  lemma GrownChunk(pages: seq<Page>, page: Page)
    requires |pages| % PAGES_PER_FILE != 0
    ensures FileCount(|pages| + 1) == FileCount(|pages|)
    ensures var c := FileCount(|pages|); Chunk(pages + [page], c) == Chunk(pages, c) + [page]
  {
  }

  lemma NewChunk(pages: seq<Page>, page: Page)
    requires |pages| % PAGES_PER_FILE == 0
    ensures FileCount(|pages| + 1) == FileCount(|pages|) + 1
    ensures Chunk(pages + [page], FileCount(|pages|) + 1) == [page]
  {
  }

  lemma HoldsInFile(files: Files, pages: seq<Page>, page: Page, term: int, name: string)
    requires ValidNumber(term) && Holds(files, pages, term) && Room(|pages|) && |pages| % PAGES_PER_FILE != 0
    requires name == Filename(term, FileCount(|pages|))
    ensures name in files && Holds(files[name := files[name] + [page]], pages + [page], term)
  {
    var last, files' := FileCount(|pages|), files[name := files[name] + [page]];
    GrownChunk(pages, page);
    forall c | 1 <= c <= last ensures Filename(term, c) in files' && files'[Filename(term, c)] == Chunk(pages + [page], c) {
      if c < last {
        FilenamesDiffer(term, c, last);
        EarlierChunk(pages, page, c);
      }
    }
  }

  lemma HoldsInNewFile(files: Files, pages: seq<Page>, page: Page, term: int, name: string)
    requires ValidNumber(term) && Holds(files, pages, term) && Room(|pages| + 1) && |pages| % PAGES_PER_FILE == 0
    requires name == Filename(term, FileCount(|pages|) + 1)
    ensures name !in files && Holds(files[name := [page]], pages + [page], term)
  {
    var next, files' := FileCount(|pages|) + 1, files[name := [page]];
    NewChunk(pages, page);
    FilenameRoundTrip(term, next);
    if name in files {
      var c :| 1 <= c <= FileCount(|pages|) && name == Filename(term, c);
      FilenamesDiffer(term, c, next);
    }
    forall c | 1 <= c <= next ensures Filename(term, c) in files' && files'[Filename(term, c)] == Chunk(pages + [page], c) {
      if c < next {
        FilenamesDiffer(term, c, next);
        EarlierChunk(pages, page, c);
      }
    }
    assert Filename(term, next) == name;
  }

  lemma Rotated(s: WalState, page: Page, name: string)
    requires s.file.Closed? || s.occupied >= PAGES_PER_FILE
    requires name == Filename(s.term, s.collection + 1) && name !in s.files
    ensures PageAppended(s, page) ==
            WalState(s.term, s.collection + 1, 1, if s.file.Closed? then s.occupied + 1 else 1, Open(name),
                     s.files[name := [page]])
  {
    assert [] + [page] == [page];
    assert s.files[name := []][name := [page]] == s.files[name := [page]];
  }

  lemma NotRotated(s: WalState, page: Page)
    requires s.file.Open? && s.occupied < PAGES_PER_FILE
    ensures PageAppended(s, page) == PageWritten(s, page)
  {
  }

  lemma NextPosition(term: int, n: nat)
    ensures n == 0 ==> PositionAfter(term, n + 1) == SequenceId(term, 1, 1)
    ensures n > 0 && n % PAGES_PER_FILE == 0 ==>
      PositionAfter(term, n).seqNo == PAGES_PER_FILE
      && PositionAfter(term, n + 1) == SequenceId(term, PositionAfter(term, n).collection + 1, 1)
    ensures n % PAGES_PER_FILE != 0 ==>
      PositionAfter(term, n).seqNo < PAGES_PER_FILE
      && PositionAfter(term, n + 1) == SequenceId(term, PositionAfter(term, n).collection, PositionAfter(term, n).seqNo + 1)
    ensures n > 0 ==> PositionAfter(term, n).collection == FileCount(n)
  {
  }

  lemma AppendedInNewFile(s: WalState, pages: seq<Page>, page: Page)
    requires WriterAt(s, pages) && Room(|pages| + 1) && |pages| % PAGES_PER_FILE == 0
    ensures WriterAt(PageAppended(s, page), pages + [page])
  {
    var name := Filename(s.term, s.collection + 1);
    NextPosition(s.term, |pages|);
    HoldsInNewFile(s.files, pages, page, s.term, name);
    Rotated(s, page, name);
  }

  lemma AppendedInFile(s: WalState, pages: seq<Page>, page: Page)
    requires WriterAt(s, pages) && Room(|pages| + 1) && |pages| % PAGES_PER_FILE != 0
    ensures WriterAt(PageAppended(s, page), pages + [page])
  {
    NextPosition(s.term, |pages|);
    HoldsInFile(s.files, pages, page, s.term, Filename(s.term, s.collection));
    NotRotated(s, page);
  }

  lemma PageAppendedAt(s: WalState, pages: seq<Page>, page: Page)
    requires WriterAt(s, pages) && Room(|pages| + 1)
    ensures WriterAt(PageAppended(s, page), pages + [page])
  {
    if |pages| % PAGES_PER_FILE == 0 {
      AppendedInNewFile(s, pages, page);
    } else {
      AppendedInFile(s, pages, page);
    }
  }

  lemma AppendedAt(s: WalState, pages: seq<Page>, more: seq<Page>)
    requires WriterAt(s, pages) && Room(|pages| + |more|)
    ensures WriterAt(Appended(s, more), pages + more)
    ensures Appended(s, more).term == s.term
  {
    var inv := (x: WalState, done: seq<Page>) => Room(|done|) ==> WriterAt(x, done) && x.term == s.term;
    forall x, done, page | inv(x, done) ensures inv(PageAppended(x, page), done + [page]) {
      if Room(|done| + 1) {
        PageAppendedAt(x, done, page);
      }
    }
    FoldLeftKeeps(PageAppended, inv, s, pages, more);
  }

  // ---- the files, listed and read in order ----

  ghost function Names(term: int, count: nat): (names: seq<string>)
    ensures |names| == count
  {
    seq(count, i => Filename(term, i + 1))
  }

  lemma NamesSorted(term: int, count: nat)
    requires ValidNumber(term) && count <= MAX_INT64
    ensures Sorted(Names(term, count))
  {
    forall i, j | 0 <= i < j < count ensures Less(Names(term, count)[i], Names(term, count)[j]) {
      FilenameOrder(term, i + 1, term, j + 1);
    }
  }

  lemma NameListed(term: int, count: nat, c: int)
    requires 1 <= c <= count
    ensures Filename(term, c) in Names(term, count)
  {
    assert Names(term, count)[c - 1] == Filename(term, c);
  }

  lemma NameHeld(files: Files, pages: seq<Page>, term: int, c: int)
    requires ValidNumber(term) && Holds(files, pages, term) && Room(|pages|) && 1 <= c <= FileCount(|pages|)
    ensures Filename(term, c) in files && WalFilename(Filename(term, c)).Parsed?
  {
    FilenameRoundTrip(term, c);
  }

  lemma MembersOfNames(files: Files, term: int, count: nat, x: string)
    requires forall name :: name in files && WalFilename(name).Parsed? ==>
               exists c :: 1 <= c <= count && name == Filename(term, c)
    requires forall c :: 1 <= c <= count ==> Filename(term, c) in files && WalFilename(Filename(term, c)).Parsed?
    ensures x in Names(term, count) <==> x in files && WalFilename(x).Parsed?
  {
    if x in files && WalFilename(x).Parsed? {
      var c :| 1 <= c <= count && x == Filename(term, c);
      NameListed(term, count, c);
    }
  }

  lemma NamesMembers(files: Files, pages: seq<Page>, term: int, x: string)
    requires ValidNumber(term) && Holds(files, pages, term) && Room(|pages|)
    ensures x in Names(term, FileCount(|pages|)) <==> x in files && WalFilename(x).Parsed?
  {
    forall c | 1 <= c <= FileCount(|pages|)
      ensures Filename(term, c) in files && WalFilename(Filename(term, c)).Parsed?
    {
      NameHeld(files, pages, term, c);
    }
    MembersOfNames(files, term, FileCount(|pages|), x);
  }

  lemma ListingOfHolds(files: Files, pages: seq<Page>, term: int)
    requires ValidNumber(term) && Holds(files, pages, term) && Room(|pages|)
    ensures Listing(files) == Names(term, FileCount(|pages|))
  {
    NamesSorted(term, FileCount(|pages|));
    forall x ensures x in Names(term, FileCount(|pages|)) <==> x in Listing(files) {
      NamesMembers(files, pages, term, x);
    }
    SortedUnique(Listing(files), Names(term, FileCount(|pages|)));
  }

  lemma {:induction false} PagesFromFile(files: Files, pages: seq<Page>, term: int, i: nat)
    requires ValidNumber(term) && Holds(files, pages, term) && i <= FileCount(|pages|)
    ensures forall x :: x in Names(term, FileCount(|pages|))[i..] ==> x in files
    ensures PagesIn(Names(term, FileCount(|pages|))[i..], files)
            == if i == FileCount(|pages|) then [] else pages[i * PAGES_PER_FILE..]
    decreases FileCount(|pages|) - i
  {
    var count := FileCount(|pages|);
    var names := Names(term, count);
    if i < count {
      PagesFromFile(files, pages, term, i + 1);
      assert names[i..][0] == Filename(term, i + 1) && names[i..][1..] == names[i + 1..];
      ChunkAndRest(pages, i);
    }
  }

  lemma ChunkAndRest(pages: seq<Page>, i: nat)
    requires i < FileCount(|pages|)
    ensures Chunk(pages, i + 1) + (if i + 1 == FileCount(|pages|) then [] else pages[(i + 1) * PAGES_PER_FILE..])
            == pages[i * PAGES_PER_FILE..]
  {
  }

  // No file exceeds the limit, and every file but the last is exactly full.
  lemma FileSizes(files: Files, pages: seq<Page>, term: int, c: int)
    requires ValidNumber(term) && Holds(files, pages, term) && 1 <= c <= FileCount(|pages|)
    ensures |files[Filename(term, c)]| * PAGE_SIZE <= MAX_FILE_SIZE
    ensures c < FileCount(|pages|) ==> |files[Filename(term, c)]| * PAGE_SIZE == MAX_FILE_SIZE
    ensures 0 < |files[Filename(term, c)]|
  {
    assert files[Filename(term, c)] == Chunk(pages, c);
  }

  // ---- restarting ----

  ghost predicate AllRecords(records: seq<PageResult>) {
    forall i :: 0 <= i < |records| ==> records[i].Record?
  }

  lemma {:induction false} NoRejection(records: seq<PageResult>)
    requires AllRecords(records)
    ensures FirstRejection(records) == None
  {
    if records != [] {
      NoRejection(records[1..]);
    }
  }

  lemma LastFileReadings(pages: seq<Page>)
    requires pages != []
    ensures var last := Chunk(pages, FileCount(|pages|));
            && last != [] && last == pages[|pages| - |last|..]
            && Readings(last) == Readings(pages)[|pages| - |last|..]
  {
    var last := Chunk(pages, FileCount(|pages|));
    var before := pages[..|pages| - |last|];
    assert before + last == pages;
    ReadingsConcat(before, last);
  }

  lemma CleanFileOpened(files: Files, last: string, term: int, collection: int)
    requires last in files && WalFilename(last) == Parsed(term, collection)
    requires files[last] != [] && FirstRejection(Readings(files[last])) == None && !EndsInMiddle(Readings(files[last]))
    ensures LastFileOpened(files, 0, last) ==
            Ready(WalState(term, collection, |files[last]|, |files[last]|, Open(last), files))
  {
    assert files[last := files[last]] == files;
  }

  lemma LastFileClean(pages: seq<Page>)
    requires pages != []
    requires AllRecords(Readings(pages)) && !EndsInMiddle(Readings(pages))
    ensures var last := Chunk(pages, FileCount(|pages|));
            last != [] && FirstRejection(Readings(last)) == None && !EndsInMiddle(Readings(last))
  {
    LastFileReadings(pages);
    SuffixClean(Readings(pages), |pages| - |Chunk(pages, FileCount(|pages|))|);
  }

  lemma SuffixClean(records: seq<PageResult>, k: nat)
    requires k < |records| && AllRecords(records) && !EndsInMiddle(records)
    ensures FirstRejection(records[k..]) == None && !EndsInMiddle(records[k..])
  {
    NoRejection(records[k..]);
  }

  lemma LastFileReopened(s: WalState, pages: seq<Page>, last: string)
    requires WriterAt(s, pages) && Room(|pages|) && pages != []
    requires AllRecords(Readings(pages)) && !EndsInMiddle(Readings(pages))
    requires last == Filename(s.term, FileCount(|pages|))
    ensures last in s.files && WalFilename(last).Parsed? && LastFileOpened(s.files, 0, last) == Ready(s)
  {
    var count := FileCount(|pages|);
    FilenameRoundTrip(s.term, count);
    LastFileClean(pages);
    LastChunk(pages, s.term);
    CleanFileOpened(s.files, last, s.term, count);
  }

  lemma NothingRestored(s: WalState)
    requires WriterAt(s, [])
    ensures Initialized(s.files, 0, Closed) == Ready(s)
  {
    ListingOfHolds(s.files, [], s.term);
  }

  lemma OpensTheLast(files: Files, names: seq<string>, last: string, s: WalState)
    requires Listing(files) == names && names != [] && names[|names| - 1] == last
    requires last in files && WalFilename(last).Parsed? && LastFileOpened(files, 0, last) == Ready(s)
    ensures Initialized(files, 0, Closed) == Ready(s)
  {
    InitializedBy(files, 0, Closed, names);
  }

  lemma LastListed(files: Files, pages: seq<Page>, term: int)
    requires ValidNumber(term) && Holds(files, pages, term) && Room(|pages|) && pages != []
    ensures var names := Listing(files);
            names != [] && names[|names| - 1] == Filename(term, FileCount(|pages|))
  {
    ListingOfHolds(files, pages, term);
    LastChunk(pages, term);
    LastName(term, FileCount(|pages|));
  }

  lemma LastName(term: int, count: nat)
    requires count > 0
    ensures Names(term, count) != [] && Names(term, count)[count - 1] == Filename(term, count)
  {
  }

  lemma FilesRestored(s: WalState, pages: seq<Page>)
    requires WriterAt(s, pages) && Room(|pages|) && pages != []
    requires AllRecords(Readings(pages)) && !EndsInMiddle(Readings(pages))
    ensures Initialized(s.files, 0, Closed) == Ready(s)
  {
    var last := Filename(s.term, FileCount(|pages|));
    LastListed(s.files, pages, s.term);
    LastFileReopened(s, pages, last);
    OpensTheLast(s.files, Listing(s.files), last, s);
  }

  // Restarting a writer whose log ends with a complete entry gives the same writer back.
  lemma RestartRestores(s: WalState, pages: seq<Page>)
    requires WriterAt(s, pages) && Room(|pages|)
    requires AllRecords(Readings(pages)) && !EndsInMiddle(Readings(pages))
    ensures Initialized(s.files, 0, Closed) == Ready(s)
  {
    if pages == [] {
      NothingRestored(s);
    } else {
      FilesRestored(s, pages);
    }
  }

  lemma {:induction false} AllPagesSnoc(entries: seq<ByteString>, entry: ByteString)
    ensures AllPages(entries + [entry]) == AllPages(entries) + EntryPages(entry)
    decreases |entries|
  {
    if entries == [] {
      assert entries + [entry] == [entry];
      assert AllPages([entry]) == EntryPages(entry) + AllPages([]);
    } else {
      assert (entries + [entry])[1..] == entries[1..] + [entry];
      AllPagesSnoc(entries[1..], entry);
    }
  }

  lemma {:induction false} AllFragmentsEnd(entries: seq<ByteString>)
    requires entries != []
    ensures AllFragments(entries) != []
    ensures AllFragments(entries)[|AllFragments(entries)| - 1].kind in {WHOLE, END}
    decreases |entries|
  {
    FragmentsFit(entries[0]);
    if |entries| > 1 {
      AllFragmentsEnd(entries[1..]);
    }
  }

  lemma EndsComplete(entries: seq<ByteString>)
    ensures AllRecords(Readings(AllPages(entries)))
    ensures !EndsInMiddle(Readings(AllPages(entries)))
  {
    PagesGiveEntries(entries);
    if entries != [] {
      AllFragmentsEnd(entries);
    }
  }

  // ---- runs of writes and clean restarts ----

  datatype Event = Write(entry: ByteString) | Restart

  datatype Run = Running(state: WalState, ids: seq<SequenceId>) | RunFailed

  const EMPTY_FOLDER_WRITER := WalState(1, 0, 0, 0, Closed, map[])

  ghost function Next(run: Run, event: Event): Run {
    if run.RunFailed? then RunFailed
    else match event
      case Write(entry) =>
        var s := EntryWritten(run.state, entry);
        Running(s, run.ids + [s.Position()])
      case Restart =>
        match Initialized(run.state.files, 0, Closed)
        case Ready(s) => Running(s, run.ids)
        case InitFailed(_) => RunFailed
  }

  function EntriesOf(events: seq<Event>): seq<ByteString> {
    if events == [] then []
    else
      var last, before := events[|events| - 1], EntriesOf(events[..|events| - 1]);
      if last.Write? then before + [last.entry] else before
  }

  function Writes(entries: seq<ByteString>): (events: seq<Event>)
    ensures |events| == |entries|
  {
    seq(|entries|, i requires 0 <= i < |entries| => Write(entries[i]))
  }

  // The pages that the first k entries take.
  function PagesUpTo(entries: seq<ByteString>, k: nat): (n: nat)
    requires k <= |entries|
    ensures k > 0 ==> n > 0
  {
    if k == 0 then 0 else PagesUpTo(entries, k - 1) + PageCount(|entries[k - 1]|)
  }

  // The ids of the first k entries: each is the position after the pages up to it.
  function IdsUpTo(term: int, entries: seq<ByteString>, k: nat): (ids: seq<SequenceId>)
    requires k <= |entries|
    ensures |ids| == k
  {
    if k == 0 then [] else IdsUpTo(term, entries, k - 1) + [PositionAfter(term, PagesUpTo(entries, k))]
  }

  function Ids(term: int, entries: seq<ByteString>): (ids: seq<SequenceId>)
    ensures |ids| == |entries|
  {
    IdsUpTo(term, entries, |entries|)
  }

  lemma {:induction false} IdAt(term: int, entries: seq<ByteString>, k: nat, i: nat)
    requires i < k <= |entries|
    ensures IdsUpTo(term, entries, k)[i] == PositionAfter(term, PagesUpTo(entries, i + 1))
  {
    if i < k - 1 {
      IdAt(term, entries, k - 1, i);
    }
  }

  lemma {:induction false} IdsUpToPrefix(term: int, entries: seq<ByteString>, more: seq<ByteString>, k: nat)
    requires k <= |entries|
    ensures IdsUpTo(term, entries + more, k) == IdsUpTo(term, entries, k)
  {
    if k > 0 {
      PagesUpToPrefix(entries, more, k);
      IdsUpToPrefix(term, entries, more, k - 1);
    }
  }

  lemma {:induction false} PagesUpToPrefix(entries: seq<ByteString>, more: seq<ByteString>, k: nat)
    requires k <= |entries|
    ensures PagesUpTo(entries + more, k) == PagesUpTo(entries, k)
  {
    if k > 0 {
      PagesUpToPrefix(entries, more, k - 1);
    }
  }

  lemma PagesUpToSnoc(entries: seq<ByteString>, entry: ByteString)
    ensures PagesUpTo(entries + [entry], |entries| + 1) == PagesUpTo(entries, |entries|) + PageCount(|entry|)
  {
    PagesUpToPrefix(entries, [entry], |entries|);
    assert (entries + [entry])[|entries|] == entry;
  }

  lemma IdsSnoc(term: int, entries: seq<ByteString>, entry: ByteString, n: nat)
    requires n == PagesUpTo(entries + [entry], |entries| + 1)
    ensures n > 0 && Ids(term, entries + [entry]) == Ids(term, entries) + [PositionAfter(term, n)]
  {
    IdsUpToPrefix(term, entries, [entry], |entries|);
    assert IdsUpTo(term, entries + [entry], |entries| + 1)
        == IdsUpTo(term, entries + [entry], |entries|) + [PositionAfter(term, PagesUpTo(entries + [entry], |entries| + 1))];
  }

  ghost function RunOf(events: seq<Event>): Run {
    FoldLeft(Next, Running(EMPTY_FOLDER_WRITER, []), events)
  }

  ghost predicate RunMatches(run: Run, events: seq<Event>) {
    var entries := EntriesOf(events);
    Room(|AllPages(entries)|) ==>
      && run.Running?
      && WriterAt(run.state, AllPages(entries))
      && |AllPages(entries)| == PagesUpTo(entries, |entries|)
      && run.ids == Ids(run.state.term, entries)
      && run == RunOf(Writes(entries))
  }

  lemma EntryWrittenAt(s: WalState, entries: seq<ByteString>, entry: ByteString)
    requires WriterAt(s, AllPages(entries)) && Room(|AllPages(entries + [entry])|)
    ensures WriterAt(EntryWritten(s, entry), AllPages(entries + [entry])) && EntryWritten(s, entry).term == s.term
    ensures |AllPages(entries + [entry])| == |AllPages(entries)| + PageCount(|entry|)
  {
    AllPagesSnoc(entries, entry);
    FragmentsFit(entry);
    AppendedAt(s, AllPages(entries), EntryPages(entry));
  }

  lemma RestartMatches(run: Run, events: seq<Event>)
    requires RunMatches(run, events)
    ensures RunMatches(Next(run, Restart), events + [Restart])
  {
    assert (events + [Restart])[..|events|] == events;
    var entries := EntriesOf(events);
    assert EntriesOf(events + [Restart]) == entries;
    if Room(|AllPages(entries)|) {
      EndsComplete(entries);
      RestartRestores(run.state, AllPages(entries));
      assert Next(run, Restart) == run;
    }
  }

  lemma RunOfSnoc(entries: seq<ByteString>, entry: ByteString)
    ensures RunOf(Writes(entries + [entry])) == Next(RunOf(Writes(entries)), Write(entry))
  {
    assert Writes(entries + [entry]) == Writes(entries) + [Write(entry)];
    FoldLeftConcat(Next, Running(EMPTY_FOLDER_WRITER, []), Writes(entries), [Write(entry)]);
    var run := RunOf(Writes(entries));
    assert FoldLeft(Next, run, [Write(entry)]) == FoldLeft(Next, Next(run, Write(entry)), []);
  }

  lemma EntriesSnoc(events: seq<Event>, entry: ByteString)
    ensures EntriesOf(events + [Write(entry)]) == EntriesOf(events) + [entry]
  {
    assert (events + [Write(entry)])[..|events|] == events;
  }

  lemma CountsMatch(entries: seq<ByteString>, entry: ByteString, run: Run, s: WalState)
    requires |AllPages(entries)| == PagesUpTo(entries, |entries|) && run.Running? && run.ids == Ids(run.state.term, entries)
    requires |AllPages(entries + [entry])| == |AllPages(entries)| + PageCount(|entry|)
    requires WriterAt(s, AllPages(entries + [entry])) && s.term == run.state.term
    ensures |AllPages(entries + [entry])| == PagesUpTo(entries + [entry], |entries| + 1)
    ensures run.ids + [s.Position()] == Ids(s.term, entries + [entry])
  {
    PagesUpToSnoc(entries, entry);
    IdsSnoc(run.state.term, entries, entry, |AllPages(entries + [entry])|);
  }

  lemma WriteMatches(run: Run, events: seq<Event>, entry: ByteString)
    requires RunMatches(run, events)
    ensures RunMatches(Next(run, Write(entry)), events + [Write(entry)])
  {
    var entries := EntriesOf(events);
    EntriesSnoc(events, entry);
    AllPagesSnoc(entries, entry);
    if Room(|AllPages(entries + [entry])|) {
      EntryWrittenAt(run.state, entries, entry);
      RunOfSnoc(entries, entry);
      CountsMatch(entries, entry, run, EntryWritten(run.state, entry));
    }
  }

  lemma NextMatches(run: Run, events: seq<Event>, event: Event)
    requires RunMatches(run, events)
    ensures RunMatches(Next(run, event), events + [event])
  {
    match event
    case Restart => RestartMatches(run, events);
    case Write(entry) => WriteMatches(run, events, entry);
  }

  lemma EmptyMatches()
    ensures RunMatches(Running(EMPTY_FOLDER_WRITER, []), [])
  {
  }

  lemma RunMatchesAll(events: seq<Event>)
    ensures RunMatches(RunOf(events), events)
  {
    forall run, done, event | RunMatches(run, done) ensures RunMatches(Next(run, event), done + [event]) {
      NextMatches(run, done, event);
    }
    EmptyMatches();
    FoldLeftKeeps(Next, RunMatches, Running(EMPTY_FOLDER_WRITER, []), [], events);
    assert [] + events == events;
  }

  lemma {:induction false} WritesKeepTerm(entries: seq<ByteString>)
    ensures RunOf(Writes(entries)).Running? && RunOf(Writes(entries)).state.term == 1
    decreases |entries|
  {
    if entries != [] {
      var before, entry := entries[..|entries| - 1], entries[|entries| - 1];
      assert before + [entry] == entries;
      WritesKeepTerm(before);
      RunOfSnoc(before, entry);
      AppendedKeepsTerm(RunOf(Writes(before)).state, EntryPages(entry));
    }
  }

  lemma {:induction false} AppendedKeepsTerm(s: WalState, pages: seq<Page>)
    ensures Appended(s, pages).term == s.term
    decreases |pages|
  {
    if pages != [] {
      AppendedKeepsTerm(PageAppended(s, pages[0]), pages[1..]);
    }
  }

  // From an empty folder, any run of complete entries and clean restarts leaves exactly the pages of
  // the entries, returns the ids of their last pages, and ends in the same state as without the restarts.
  lemma CleanRun(events: seq<Event>)
    requires Room(|AllPages(EntriesOf(events))|)
    ensures var run, entries := RunOf(events), EntriesOf(events);
            && run == RunOf(Writes(entries))
            && run.Running? && WriterAt(run.state, AllPages(entries)) && run.ids == Ids(1, entries)
  {
    RunMatchesAll(events);
    WritesKeepTerm(EntriesOf(events));
  }

  // ---- positions are ordered as page counts ----

  lemma HeldPages(files: Files, pages: seq<Page>, term: int)
    requires ValidNumber(term) && Holds(files, pages, term) && Room(|pages|)
    ensures forall x :: x in Listing(files) ==> x in files
    ensures PagesIn(Listing(files), files) == pages
  {
    ListingOfHolds(files, pages, term);
    PagesFromFile(files, pages, term, 0);
    assert Names(term, FileCount(|pages|))[0..] == Names(term, FileCount(|pages|));
  }

  // Reading the files of such a run in the order of their names, and grouping the records by their tags, gives
  // exactly the entries, also those that lie across two files.
  lemma FilesGiveEntries(events: seq<Event>)
    requires Room(|AllPages(EntriesOf(events))|)
    ensures RunOf(events).Running?
    ensures var files := RunOf(events).state.files;
            (forall x :: x in Listing(files) ==> x in files)
            && Reassemble(Nothing, Readings(PagesIn(Listing(files), files))) == Entries(EntriesOf(events))
  {
    CleanRun(events);
    var s := RunOf(events).state;
    HeldPages(s.files, AllPages(EntriesOf(events)), s.term);
    PagesGiveEntries(EntriesOf(events));
  }

  lemma PositionOrder(term: int, m: nat, n: nat)
    requires m >= 1 && n >= 1
    ensures PositionAfter(term, m).Compare(PositionAfter(term, n)) == if m < n then -1 else if m == n then 0 else 1
  {
  }

  lemma EarlierPosition(term: int, m: nat, n: nat)
    requires 1 <= m < n
    ensures PositionAfter(term, m).Compare(PositionAfter(term, n)) == -1
  {
  }

  lemma {:induction false} PagesGrow(entries: seq<ByteString>, i: nat, j: nat)
    requires i < j <= |entries|
    ensures PagesUpTo(entries, i) < PagesUpTo(entries, j)
  {
    if i < j - 1 {
      PagesGrow(entries, i, j - 1);
    }
  }

  // Ids returned later compare greater.
  lemma IdsIncrease(term: int, entries: seq<ByteString>, i: nat, j: nat)
    requires i < j < |entries|
    ensures Ids(term, entries)[i].Compare(Ids(term, entries)[j]) == -1
  {
    IdAt(term, entries, |entries|, i);
    IdAt(term, entries, |entries|, j);
    PagesGrow(entries, i + 1, j + 1);
    EarlierPosition(term, PagesUpTo(entries, i + 1), PagesUpTo(entries, j + 1));
  }
}
