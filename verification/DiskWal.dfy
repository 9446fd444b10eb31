// The write-ahead log on disk: appending entries, rotating files, restarting, and replaying.
module DiskWal {
  import opened Bytes
  import opened WalPage
  import opened WalNames
  import opened WalEntries
  import opened Folds
  import opened Options

  const MAX_FILE_SIZE: int := 1024 * 1024 * 1024
  const START_WAL_SEQUENCE := SequenceId(1, 1, 1)

  // The folder: whole pages, by file name. Names that are not log files may be present too.
  type Files = map<string, seq<Page>>

  datatype CurrentFile = Closed | Open(name: string)

  // Everything that the writer knows, together with the folder it writes to.
  datatype WalState = WalState(
    term: int, collection: int, seqNo: int, occupied: int, file: CurrentFile, files: Files)
  {
    function Position(): SequenceId {
      SequenceId(term, collection, seqNo)
    }
  }

  // ---- appending ----

  // O_CREATE | O_APPEND: an existing file is kept.
  function FileOrEmpty(files: Files, name: string): seq<Page> {
    if name in files then files[name] else []
  }

  function OpenedFile(s: WalState, occupied: int): WalState {
    var name := Filename(s.term, s.collection + 1);
    WalState(s.term, s.collection + 1, 0, occupied, Open(name), s.files[name := FileOrEmpty(s.files, name)])
  }

  function Guaranteed(s: WalState, pageCount: int): (r: WalState)
    ensures r.file.Open?
  {
    if s.file.Closed? then OpenedFile(s, s.occupied)
    else if (s.occupied + pageCount) * PAGE_SIZE > MAX_FILE_SIZE then OpenedFile(s, 0)
    else s
  }

  function PageWritten(s: WalState, page: Page): WalState
    requires s.file.Open?
  {
    s.(seqNo := s.seqNo + 1, occupied := s.occupied + 1,
       files := s.files[s.file.name := FileOrEmpty(s.files, s.file.name) + [page]])
  }

  function PageAppended(s: WalState, page: Page): WalState {
    PageWritten(Guaranteed(s, 1), page)
  }

  function Appended(s: WalState, pages: seq<Page>): WalState {
    FoldLeft(PageAppended, s, pages)
  }

  function EntryWritten(s: WalState, entry: ByteString): WalState {
    Appended(s, EntryPages(entry))
  }

  // ---- restarting ----

  lemma {:induction false} SomeSorted(names: set<string>) returns (r: seq<string>)
    ensures Sorted(r)
    ensures forall x :: x in r <==> x in names
    decreases names
  {
    if names == {} {
      r := [];
    } else {
      var name :| name in names;
      var others := SomeSorted(names - {name});
      InsertSorted(name, others);
      r := Insert(name, others);
    }
  }

  ghost predicate IsListing(names: seq<string>, files: Files) {
    Sorted(names) && forall x :: x in names <==> x in files && WalFilename(x).Parsed?
  }

  lemma SomeListing(files: Files)
    ensures exists names :: IsListing(names, files)
  {
    var names := SomeSorted(set name | name in files && WalFilename(name).Parsed?);
    assert IsListing(names, files);
  }

  // The log files of a folder, in the order of their names; SortedUnique says that there is only one such listing.
  ghost function Listing(files: Files): (names: seq<string>)
    ensures IsListing(names, files)
  {
    SomeListing(files);
    var names :| IsListing(names, files);
    names
  }

  function FirstRejection(records: seq<PageResult>): Option<PageError> {
    if records == [] then None
    else match records[0]
      case Rejected(error) => Some(error)
      case Record(_, _) => FirstRejection(records[1..])
  }

  predicate EndsInMiddle(records: seq<PageResult>) {
    records != [] && records[|records| - 1].Record? && records[|records| - 1].kind == MIDDLE
  }

  // A file whose last page is a Middle gets a broken end.
  function Repaired(pages: seq<Page>): seq<Page> {
    if EndsInMiddle(Readings(pages)) then pages + [EncodePage([], BROKEN_END)] else pages
  }

  datatype InitError =
    | BadPage(error: PageError)
    | EmptyFile // an index out of range in the program

  datatype InitResult = Ready(state: WalState) | InitFailed(error: InitError)

  // What the pages of the last file make of the counters and of that file.
  function LastFileOpened(files: Files, occupied: int, last: string): InitResult
    requires last in files && WalFilename(last).Parsed?
  {
    match FirstRejection(Readings(files[last]))
    case Some(error) => InitFailed(BadPage(error))
    case None =>
      if files[last] == [] then InitFailed(EmptyFile)
      else
        var name, kept := WalFilename(last), Repaired(files[last]);
        Ready(WalState(name.term, name.collection, |kept|, occupied + |kept|, Open(last), files[last := kept]))
  }

  // `occupied` is zero for a new object; nothing resets it.
  ghost function Initialized(files: Files, occupied: int, file: CurrentFile): InitResult {
    var names := Listing(files);
    if names == [] then Ready(WalState(1, 0, 0, occupied, file, files))
    else
      assert names[|names| - 1] in names;
      LastFileOpened(files, occupied, names[|names| - 1])
  }

  lemma InitializedBy(files: Files, occupied: int, file: CurrentFile, names: seq<string>)
    requires names == Listing(files)
    ensures names == [] ==> Initialized(files, occupied, file) == Ready(WalState(1, 0, 0, occupied, file, files))
    ensures names != [] ==>
      var last := names[|names| - 1];
      last in files && WalFilename(last).Parsed?
      && Initialized(files, occupied, file) == LastFileOpened(files, occupied, last)
  {
    if names != [] {
      assert names[|names| - 1] in names;
    }
  }

  // ---- replaying ----

  datatype ReplayError = UnreadablePage(error: PageError) | CallbackFailed | NewerThanLog | HistoryMissing

  datatype Outcome = Done | Stopped(error: ReplayError)

  // The arguments of the callback in the order of the calls, and how it ended.
  datatype Replay = Replay(calls: seq<ByteString>, outcome: Outcome)

  function ReplayRecords(records: seq<PageResult>, accepts: ByteString -> bool, calls: seq<ByteString>): Replay
    decreases records
  {
    if records == [] then Replay(calls, Done)
    else match records[0]
      case Rejected(error) => Replay(calls, Stopped(UnreadablePage(error)))
      case Record(_, data) =>
        if accepts(data) then ReplayRecords(records[1..], accepts, calls + [data])
        else Replay(calls + [data], Stopped(CallbackFailed))
  }

  function ReplayPages(pages: seq<Page>, accepts: ByteString -> bool, calls: seq<ByteString>): Replay {
    ReplayRecords(Readings(pages), accepts, calls)
  }

  function PagesIn(names: seq<string>, files: Files): seq<Page>
    requires forall x :: x in names ==> x in files
  {
    if names == [] then [] else files[names[0]] + PagesIn(names[1..], files)
  }

  // How many leading names do not come after the target.
  function NamesUpTo(names: seq<string>, target: string): (n: nat)
    ensures n <= |names|
  {
    if names == [] || Less(target, names[0]) then 0 else 1 + NamesUpTo(names[1..], target)
  }

  datatype ReplayResult = Replayed(id: SequenceId) | ReplayFailed(error: ReplayError)

  predicate ReplayUnneeded(s: WalState, from: SequenceId) {
    s.Position() == from
  }

  predicate NoWal(s: WalState) {
    s.term == 1 && s.collection == 0 && s.seqNo == 0
  }

  ghost function ReplayingFiles(s: WalState, from: SequenceId, accepts: ByteString -> bool)
    : (ReplayResult, seq<ByteString>)
  {
    var names := Listing(s.files);
    var n := NamesUpTo(names, Filename(from.term, from.collection));
    if n == 0 then (ReplayFailed(HistoryMissing), [])
    else
      var r := ReplayPages(PagesIn(names[n - 1..], s.files), accepts, []);
      if r.outcome.Done? then (Replayed(s.Position()), r.calls) else (ReplayFailed(r.outcome.error), r.calls)
  }

  ghost function Replaying(s: WalState, from: SequenceId, accepts: ByteString -> bool)
    : (ReplayResult, seq<ByteString>)
  {
    if ReplayUnneeded(s, from) then (Replayed(from), [])
    else if NoWal(s) then (Replayed(START_WAL_SEQUENCE), [])
    else if from.Compare(s.Position()) > 0 then (ReplayFailed(NewerThanLog), [])
    else ReplayingFiles(s, from, accepts)
  }

  lemma {:induction false} ReplayConcat(
      a: seq<PageResult>, b: seq<PageResult>, accepts: ByteString -> bool, calls: seq<ByteString>)
    ensures var first := ReplayRecords(a, accepts, calls);
            ReplayRecords(a + b, accepts, calls)
            == if first.outcome.Done? then ReplayRecords(b, accepts, first.calls) else first
    decreases |a|
  {
    if a == [] {
      assert a + b == b;
    } else {
      assert (a + b)[0] == a[0] && (a + b)[1..] == a[1..] + b;
      if a[0].Record? && accepts(a[0].data) {
        ReplayConcat(a[1..], b, accepts, calls + [a[0].data]);
      }
    }
  }

  // ---- the log object ----

  class Folder {
    var files: Files

    constructor ()
      ensures files == map[]
    {
      files := map[];
    }
  }

  class DiskWal {
    var curTerm: int
    var curCollection: int
    var curSeq: int
    var pageOccupied: int
    var curFile: CurrentFile
    const folder: Folder

    constructor (folder: Folder)
      ensures this.folder == folder
      ensures State() == WalState(1, 0, 0, 0, Closed, folder.files)
    {
      this.folder := folder;
      curTerm, curCollection, curSeq, pageOccupied, curFile := 1, 0, 0, 0, Closed;
    }

    ghost function State(): WalState
      reads this, folder
    {
      WalState(curTerm, curCollection, curSeq, pageOccupied, curFile, folder.files)
    }

    method CurrentSequence() returns (id: SequenceId)
      ensures id == State().Position()
    {
      id := SequenceId(curTerm, curCollection, curSeq);
    }

    method OpenNextFile()
      modifies this, folder
      ensures State() == OpenedFile(old(State()), old(pageOccupied))
    {
      curCollection := curCollection + 1;
      curSeq := 0;
      var name := Filename(curTerm, curCollection);
      folder.files := folder.files[name := FileOrEmpty(folder.files, name)];
      curFile := Open(name);
    }

    method GuaranteePage(pageCount: int)
      modifies this, folder
      ensures State() == Guaranteed(old(State()), pageCount)
    {
      if curFile.Closed? {
        OpenNextFile();
      } else if (pageOccupied + pageCount) * PAGE_SIZE > MAX_FILE_SIZE {
        pageOccupied := 0;
        OpenNextFile();
      }
    }

    method WriteDataPage(data: ByteString, kind: byte)
      requires curFile.Open?
      modifies this, folder
      ensures State() == PageWritten(old(State()), EncodePage(data, kind))
    {
      var buf := PrepareDataBufByPage(data, kind);
      folder.files := folder.files[curFile.name := FileOrEmpty(folder.files, curFile.name) + [buf[..]]];
      curSeq := curSeq + 1;
      pageOccupied := pageOccupied + 1;
    }

    method WriteEntryWithFullPage(entry: ByteString) returns (id: SequenceId)
      modifies this, folder
      ensures State() == EntryWritten(old(State()), entry)
      ensures id == State().Position()
    {
      if RECORD_MAX >= |entry| {
        GuaranteePage(1);
        WriteDataPage(entry, WHOLE);
        OnePageWritten(old(State()), entry);
      } else {
        WriteFragments(entry);
      }
      id := SequenceId(curTerm, curCollection, curSeq);
    }

    // The branch for entries of several pages.
    method WriteFragments(entry: ByteString)
      requires |entry| > RECORD_MAX
      modifies this, folder
      ensures State() == EntryWritten(old(State()), entry)
    {
      var offset := 0;
      ghost var goal := Goal(entry);
      while offset < |entry|
        invariant 0 <= offset <= |entry|
        invariant goal(State(), offset) == goal(old(State()), 0)
      {
        var n := WriteFragment(entry, offset, goal);
        offset := offset + n;
      }
      AllWritten(old(State()), State(), entry, goal);
    }

    // One turn of that loop.
    method WriteFragment(entry: ByteString, offset: nat, ghost goal: (WalState, nat) -> WalState) returns (n: nat)
      requires |entry| > RECORD_MAX && offset < |entry| && IsGoal(goal, entry)
      modifies this, folder
      ensures 0 < n <= |entry| - offset
      ensures goal(State(), offset + n) == goal(old(State()), offset)
    {
      var kind := if offset == 0 then START else MIDDLE;
      if offset + RECORD_MAX >= |entry| {
        n := |entry| - offset;
        kind := END;
      } else {
        n := RECORD_MAX;
      }
      RestWrittenStep(State(), entry, offset, n, kind);
      GuaranteePage(1);
      WriteDataPage(entry[offset..offset + n], kind);
    }

    method ListWalFiles() returns (names: seq<string>)
      ensures names == Listing(folder.files)
    {
      names := [];
      var rest := folder.files.Keys;
      while rest != {}
        invariant rest <= folder.files.Keys
        invariant Sorted(names)
        invariant forall x :: x in names <==> x in folder.files && x !in rest && WalFilename(x).Parsed?
      {
        var name :| name in rest;
        rest := rest - {name};
        if WalFilename(name).Parsed? {
          InsertSorted(name, names);
          names := Insert(name, names);
        }
      }
      SortedUnique(names, Listing(folder.files));
    }

    // Reads every page of a file, and writes a broken end after a last Middle.
    method ReadWalFileInfo(file: string) returns (error: Option<InitError>, totalValidSeq: int)
      requires file in folder.files
      modifies folder
      ensures match FirstRejection(Readings(old(folder.files[file])))
              case Some(e) => error == Some(BadPage(e)) && folder.files == old(folder.files)
              case None =>
                if old(folder.files[file]) == [] then error == Some(EmptyFile) && folder.files == old(folder.files)
                else
                  && error == None
                  && folder.files == old(folder.files[file := Repaired(folder.files[file])])
                  && totalValidSeq == |folder.files[file]|
    {
      var pages := folder.files[file];
      var rejection, lastKind;
      rejection, lastKind, totalValidSeq := ScanRecords(pages);
      if rejection != None {
        return Some(BadPage(rejection.value)), 0;
      }
      if lastKind == None {
        return Some(EmptyFile), 0;
      }
      if lastKind.value == MIDDLE {
        var dat := PrepareDataBufByPage([], BROKEN_END);
        folder.files := folder.files[file := pages + [dat[..]]];
        totalValidSeq := totalValidSeq + 1;
      } else {
        assert folder.files == folder.files[file := pages];
      }
      error := None;
    }

    // The reading loop: the tag of the last record, and how many there are, unless a page is rejected.
    method ScanRecords(pages: seq<Page>) returns (rejection: Option<PageError>, lastKind: Option<byte>, count: int)
      ensures rejection == FirstRejection(Readings(pages))
      ensures rejection == None ==> count == |pages|
      ensures rejection == None && pages == [] ==> lastKind == None
      ensures rejection == None && pages != [] ==>
        Readings(pages)[|pages| - 1].Record? && lastKind == Some(Readings(pages)[|pages| - 1].kind)
    {
      ghost var records := Readings(pages);
      var pageBuf := new byte[PAGE_SIZE](_ => 0);
      lastKind := None;
      count := 0;
      while count < |pages|
        invariant 0 <= count <= |pages|
        invariant FirstRejection(records) == FirstRejection(records[count..])
        invariant count == 0 ==> lastKind == None
        invariant count > 0 ==> records[count - 1].Record? && lastKind == Some(records[count - 1].kind)
      {
        var info := ReadRecord(pageBuf, pages, count);
        assert records[count..][1..] == records[count + 1..];
        if info.Rejected? {
          return Some(info.error), None, 0;
        }
        lastKind := Some(info.kind);
        count := count + 1;
      }
      rejection := None;
    }

    // Opens the file for appending and counts its pages.
    method SeekWalFileWritePoint(file: string)
      requires file in folder.files
      modifies this
      ensures pageOccupied == old(pageOccupied) + |folder.files[file]| && curFile == Open(file)
      ensures curTerm == old(curTerm) && curCollection == old(curCollection) && curSeq == old(curSeq)
    {
      var i := 0;
      while i < |folder.files[file]|
        invariant 0 <= i <= |folder.files[file]| && pageOccupied == old(pageOccupied) + i
        invariant curTerm == old(curTerm) && curCollection == old(curCollection) && curSeq == old(curSeq)
      {
        pageOccupied := pageOccupied + 1;
        i := i + 1;
      }
      curFile := Open(file);
    }

    method Initialize() returns (error: Option<InitError>)
      modifies this, folder
      ensures match Initialized(old(folder.files), old(pageOccupied), old(curFile))
              case Ready(state) => error == None && State() == state
              case InitFailed(e) => error == Some(e) && State() == old(State())
    {
      var names := ListWalFiles();
      InitializedBy(folder.files, pageOccupied, curFile, names);
      if names == [] {
        curTerm, curCollection, curSeq := 1, 0, 0;
        return None;
      }
      error := OpenLastFile(names[|names| - 1]);
    }

    method OpenLastFile(last: string) returns (error: Option<InitError>)
      requires last in folder.files && WalFilename(last).Parsed?
      modifies this, folder
      ensures match LastFileOpened(old(folder.files), old(pageOccupied), last)
              case Ready(state) => error == None && State() == state
              case InitFailed(e) => error == Some(e) && State() == old(State())
    {
      var totalValidSeq;
      error, totalValidSeq := ReadWalFileInfo(last);
      if error == None {
        var name := WalFilename(last);
        curSeq := totalValidSeq;
        curTerm := name.term;
        curCollection := name.collection;
        SeekWalFileWritePoint(last);
      }
    }

    // Hands every page's record to the callback, which may refuse one and so end the replay.
    method ReplayFile(file: string, accepts: ByteString -> bool, before: seq<ByteString>) returns (r: Replay)
      requires file in folder.files
      ensures r == ReplayPages(folder.files[file], accepts, before)
    {
      var pages := folder.files[file];
      ghost var records := Readings(pages);
      var pageBuf := new byte[PAGE_SIZE](_ => 0);
      var calls := before;
      var i := 0;
      while i < |pages|
        invariant 0 <= i <= |pages|
        invariant ReplayRecords(records[i..], accepts, calls) == ReplayRecords(records, accepts, before)
      {
        var info := ReadRecord(pageBuf, pages, i);
        assert records[i..][1..] == records[i + 1..];
        if info.Rejected? {
          return Replay(calls, Stopped(UnreadablePage(info.error)));
        }
        calls := calls + [info.data];
        if !accepts(info.data) {
          return Replay(calls, Stopped(CallbackFailed));
        }
        i := i + 1;
      }
      r := Replay(calls, Done);
    }

    method ReplayIncomplete(from: SequenceId, accepts: ByteString -> bool)
      returns (r: ReplayResult, calls: seq<ByteString>)
      ensures (r, calls) == Replaying(State(), from, accepts)
    {
      calls := [];
      if curTerm == from.term && curCollection == from.collection && curSeq == from.seqNo {
        return Replayed(from), [];
      }
      if curTerm == 1 && curCollection == 0 && curSeq == 0 {
        return Replayed(START_WAL_SEQUENCE), [];
      }
      if from.Compare(SequenceId(curTerm, curCollection, curSeq)) > 0 {
        return ReplayFailed(NewerThanLog), [];
      }
      r, calls := ReplayFilesFrom(from, accepts);
    }

    method ReplayFilesFrom(from: SequenceId, accepts: ByteString -> bool)
      returns (r: ReplayResult, calls: seq<ByteString>)
      ensures (r, calls) == ReplayingFiles(State(), from, accepts)
    {
      var names := ListWalFiles();
      var idx := FindStart(names, Filename(from.term, from.collection));
      if idx == -1 {
        return ReplayFailed(HistoryMissing), [];
      }
      var all := ReplayFiles(names[idx..], accepts);
      calls := all.calls;
      if all.outcome.Stopped? {
        return ReplayFailed(all.outcome.error), all.calls;
      }
      r := Replayed(SequenceId(curTerm, curCollection, curSeq));
    }

    // The last file that does not come after the target, or -1.
    method FindStart(names: seq<string>, target: string) returns (idx: int)
      ensures idx == NamesUpTo(names, target) - 1
    {
      idx := -1;
      while idx + 1 < |names| && !Less(target, names[idx + 1])
        invariant -1 <= idx < |names|
        invariant NamesUpTo(names, target) == idx + 1 + NamesUpTo(names[idx + 1..], target)
      {
        assert names[idx + 1..][1..] == names[idx + 2..];
        idx := idx + 1;
      }
    }

    method ReplayFiles(names: seq<string>, accepts: ByteString -> bool) returns (r: Replay)
      requires forall x :: x in names ==> x in folder.files
      ensures r == ReplayPages(PagesIn(names, folder.files), accepts, [])
    {
      r := Replay([], Done);
      var i := 0;
      ghost var all := ReplayPages(PagesIn(names, folder.files), accepts, []);
      while i < |names|
        invariant 0 <= i <= |names|
        invariant r.outcome == Done
        invariant ReplayPages(PagesIn(names[i..], folder.files), accepts, r.calls) == all
      {
        FirstFileReplayed(names[i..], folder.files, accepts, r.calls);
        assert names[i..][1..] == names[i + 1..];
        r := ReplayFile(names[i], accepts, r.calls);
        if r.outcome.Stopped? {
          return;
        }
        i := i + 1;
      }
    }
  }

  lemma FirstFileReplayed(names: seq<string>, files: Files, accepts: ByteString -> bool, calls: seq<ByteString>)
    requires names != [] && forall x :: x in names ==> x in files
    ensures var first := ReplayPages(files[names[0]], accepts, calls);
            ReplayPages(PagesIn(names, files), accepts, calls)
            == if first.outcome.Done? then ReplayPages(PagesIn(names[1..], files), accepts, first.calls) else first
  {
    ReadingsConcat(files[names[0]], PagesIn(names[1..], files));
    ReplayConcat(Readings(files[names[0]]), Readings(PagesIn(names[1..], files)), accepts, calls);
  }

  method ReadRecord(buf: array<byte>, pages: seq<Page>, i: nat) returns (r: PageResult)
    requires buf.Length == PAGE_SIZE && i < |pages|
    modifies buf
    ensures r == Readings(pages)[i]
  {
    ReadFull(buf, pages[i]);
    r := PageRecordsInfo(buf);
    ReadingsAt(pages, i);
  }

  method ReadFull(buf: array<byte>, page: Page)
    requires buf.Length == PAGE_SIZE
    modifies buf
    ensures buf[..] == page
  {
    forall i | 0 <= i < PAGE_SIZE {
      buf[i] := page[i];
    }
  }

  // ---- the writer's loop against the list of fragments ----

  ghost function PagesFrom(entry: ByteString, offset: nat): seq<Page> {
    if offset < |entry| then PagesOf(FragmentsFrom(entry, offset)) else []
  }

  lemma AppendedStep(s: WalState, page: Page, rest: seq<Page>)
    ensures Appended(s, [page] + rest) == Appended(PageAppended(s, page), rest)
  {
    assert ([page] + rest)[1..] == rest;
  }

  // The state when the rest of the entry from `offset` on is written, too.
  ghost function RestWritten(s: WalState, entry: ByteString, offset: nat): WalState {
    Appended(s, PagesFrom(entry, offset))
  }

  lemma RestWrittenStep(s: WalState, entry: ByteString, offset: nat, n: nat, kind: byte)
    requires |entry| > RECORD_MAX && offset < |entry|
    requires n == if offset + RECORD_MAX >= |entry| then |entry| - offset else RECORD_MAX
    requires kind == KindAt(entry, offset)
    ensures RestWritten(s, entry, offset)
            == RestWritten(PageAppended(s, EncodePage(entry[offset..offset + n], kind)), entry, offset + n)
  {
    PagesFromStep(entry, offset, n, kind);
    AppendedStep(s, EncodePage(entry[offset..offset + n], kind), PagesFrom(entry, offset + n));
  }

  // The same as a value, whose definition only the trigger brings in.
  ghost predicate IsGoal(goal: (WalState, nat) -> WalState, entry: ByteString) {
    forall s, offset {:trigger RestWritten(s, entry, offset)} :: goal(s, offset) == RestWritten(s, entry, offset)
  }

  lemma Goal(entry: ByteString) returns (goal: (WalState, nat) -> WalState)
    ensures IsGoal(goal, entry)
  {
    goal := (s, offset: nat) => RestWritten(s, entry, offset);
  }

  lemma AllWritten(s: WalState, s': WalState, entry: ByteString, goal: (WalState, nat) -> WalState)
    requires |entry| > RECORD_MAX && IsGoal(goal, entry) && goal(s', |entry|) == goal(s, 0)
    ensures s' == EntryWritten(s, entry)
  {
    assert RestWritten(s', entry, |entry|) == RestWritten(s, entry, 0);
  }

  lemma OnePageWritten(s: WalState, entry: ByteString)
    requires |entry| <= RECORD_MAX
    ensures PageAppended(s, EncodePage(entry, WHOLE)) == EntryWritten(s, entry)
  {
    var page := EncodePage(entry, WHOLE);
    assert Fragments(entry)[1..] == [];
    assert EntryPages(entry) == [page] + [];
    AppendedStep(s, page, []);
  }

  lemma PagesFromStep(entry: ByteString, offset: nat, n: nat, kind: byte)
    requires |entry| > RECORD_MAX && offset < |entry|
    requires n == if offset + RECORD_MAX >= |entry| then |entry| - offset else RECORD_MAX
    requires kind == KindAt(entry, offset)
    ensures PagesFrom(entry, offset) == [EncodePage(entry[offset..offset + n], kind)] + PagesFrom(entry, offset + n)
  {
    if offset + RECORD_MAX >= |entry| {
      assert entry[offset..offset + n] == entry[offset..];
      assert FragmentsFrom(entry, offset)[1..] == [];
    } else {
      assert FragmentsFrom(entry, offset)[1..] == FragmentsFrom(entry, offset + RECORD_MAX);
    }
  }
}
