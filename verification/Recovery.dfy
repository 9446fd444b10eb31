// Crash recovery of the store: every run of overlapping puts, crashes between durable steps, and restarts.
module Recovery {
  import opened Bytes
  import opened WalPage
  import opened WalNames
  import opened WalEntries
  import opened DiskWal
  import opened WalRuns
  import opened WalReplay
  import opened Cbor
  import opened SoleStorage
  import opened Options

  datatype Entry = Entry(k: ByteString, v: ByteString)

  // One page of the log: its record; the put whose first page it is; what that put writes to the store, if the
  // store accepts its key; and what a replay of the page writes, if recovery accepts its record.
  datatype Cell = Cell(record: Fragment, put: Option<Entry>, stored: Option<Entry>, replayed: Option<Entry>)

  function CellsOf(e: Entry): (cells: seq<Cell>)
    ensures |cells| == |Fragments(LoggedEntry(e.k, e.v))|
  {
    var fragments := Fragments(LoggedEntry(e.k, e.v));
    seq(|fragments|, i requires 0 <= i < |fragments| =>
      if i == 0 then Cell(fragments[i], Some(e), StoredBy(e), WriteOf(fragments[i].data))
      else Cell(fragments[i], None, None, WriteOf(fragments[i].data)))
  }

  function StoredBy(e: Entry): Option<Entry> {
    if Storable(e.k) then Some(e) else None
  }

  // What recovery makes of one record.
  function WriteOf(data: ByteString): Option<Entry> {
    if Recoverable(data) then Some(Entry(DecodeEntry(data).value.k, DecodeEntry(data).value.v)) else None
  }

  function Records(log: seq<Cell>): (records: seq<Fragment>)
    ensures |records| == |log|
  {
    seq(|log|, i requires 0 <= i < |log| => log[i].record)
  }

  function LogPages(log: seq<Cell>): (pages: seq<Page>)
    ensures |pages| == |log|
  {
    PagesOf(Records(log))
  }

  predicate OnePage(e: Entry) {
    |LoggedEntry(e.k, e.v)| <= RECORD_MAX
  }

  predicate Loggable(e: Entry) {
    Encodable(WalEntry(e.k, e.v, false))
  }

  // ---- the fold of a log ----

  // The writes of the puts that the store accepts, each at its first page.
  function Stores(log: seq<Cell>): (marks: seq<Option<Entry>>)
    ensures |marks| == |log|
  {
    seq(|log|, i requires 0 <= i < |log| => log[i].stored)
  }

  function Replays(log: seq<Cell>): (marks: seq<Option<Entry>>)
    ensures |marks| == |log|
  {
    seq(|log|, i requires 0 <= i < |log| => log[i].replayed)
  }

  function Fold(marks: seq<Option<Entry>>): Store {
    if marks == [] then map[]
    else
      var before, last := Fold(marks[..|marks| - 1]), marks[|marks| - 1];
      if last.Some? then before[last.value.k := last.value.v] else before
  }

  // All puts of the log that the store accepts, in log order; the store's own key is not user data.
  function Applied(log: seq<Cell>): Store {
    UserData(Fold(Stores(log)))
  }

  function UserData(kv: Store): Store {
    kv - {VERSION_KEY}
  }

  predicate Marks(mark: Option<Entry>, k: ByteString) {
    mark.Some? && mark.value.k == k
  }

  // The last page from lo on that is marked with the key.
  function LastOf(marks: seq<Option<Entry>>, lo: nat, k: ByteString): (r: Option<nat>)
    ensures r.Some? ==>
      lo <= r.value < |marks| && Marks(marks[r.value], k) && forall c :: r.value < c < |marks| ==> !Marks(marks[c], k)
    ensures r.None? ==> forall c :: lo <= c < |marks| ==> !Marks(marks[c], k)
    decreases |marks|
  {
    if |marks| <= lo then None
    else if Marks(marks[|marks| - 1], k) then Some(|marks| - 1)
    else
      assert forall c :: 0 <= c < |marks| - 1 ==> marks[..|marks| - 1][c] == marks[c];
      LastOf(marks[..|marks| - 1], lo, k)
  }

  lemma {:induction false} FoldLast(marks: seq<Option<Entry>>, k: ByteString)
    ensures k in Fold(marks) <==> LastOf(marks, 0, k).Some?
    ensures LastOf(marks, 0, k).Some? ==> Fold(marks)[k] == marks[LastOf(marks, 0, k).value].value.v
    decreases |marks|
  {
    if marks != [] {
      FoldLast(marks[..|marks| - 1], k);
    }
  }

  // ---- the state machine ----

  // A put between its log append and its end. `id` is the position that the append returned, `end` the number of
  // pages that it stands for.
  datatype InFlight = InFlight(stored: bool, id: SequenceId, end: nat)

  // Puts in flight go by the index of their first page. `next` is the page whose record is the first of the calls
  // still to be applied.
  datatype Phase =
    | Down(files: Files)
    | Recovering(wal: WalState, next: nat, calls: seq<ByteString>, result: ReplayResult)
    | Serving(wal: WalState, puts: map<nat, InFlight>)

  // History: the pages of the log; how many of them the last version that the store wrote stands for, 0 for none;
  // whether a put has overwritten that version since; for each key the page of its last write to the store; whether
  // the very first put was cut short; and the term of the log.
  datatype Machine = Machine(
    phase: Phase, kv: Store, log: seq<Cell>, version: nat, garbled: bool, owner: map<ByteString, nat>, torn: bool,
    term: int)

  datatype Step =
    | Boot | RecoverOne | FinishBoot | Append(entry: Entry) | StoreEntry(put: nat) | StoreVersion(put: nat) | Crash

  const INITIAL := Machine(Down(map[]), map[], [], 0, false, map[], false, 1)

  function FilesOf(phase: Phase): Files {
    if phase.Down? then phase.files else phase.wal.files
  }

  // A start from a version that a put has overwritten is not modelled.
  ghost predicate Enabled(m: Machine, step: Step) {
    match step
    case Boot => m.phase.Down? && !m.garbled && Initialized(m.phase.files, 0, Closed).Ready? && VersionRead(m.kv).Value?
    case RecoverOne => m.phase.Recovering? && m.phase.calls != []
    case FinishBoot => m.phase.Recovering? && m.phase.calls == [] && m.phase.result.Replayed?
    case Append(e) => m.phase.Serving? && Loggable(e) && Room(|m.log| + |CellsOf(e)|)
    case StoreEntry(c) =>
      m.phase.Serving? && c in m.phase.puts && !m.phase.puts[c].stored && c < |m.log| && m.log[c].put.Some?
    case StoreVersion(c) => m.phase.Serving? && c in m.phase.puts && m.phase.puts[c].stored
    case Crash => true
  }

  // The page where a replay for a version starts, when there is one.
  function Start(version: nat): nat {
    if version == 0 then 0 else FileStart(version)
  }

  // The first page that the next start replays.
  function ReplayStart(m: Machine): nat {
    if m.version >= |m.log| then |m.log| else Start(m.version)
  }

  ghost function Opened(m: Machine, wal: WalState, from: SequenceId): Machine {
    var (result, calls) := Replaying(wal, from, Recoverable);
    m.(phase := Recovering(wal, if calls == [] then |m.log| else Start(m.version), calls, result))
  }

  ghost function Booted(m: Machine): Machine
    requires m.phase.Down? && Initialized(m.phase.files, 0, Closed).Ready? && VersionRead(m.kv).Value?
  {
    Opened(m, Initialized(m.phase.files, 0, Closed).state, VersionRead(m.kv).value)
  }

  function OwnerAfter(owner: map<ByteString, nat>, log: seq<Cell>, page: nat): map<ByteString, nat> {
    if page < |log| && log[page].replayed.Some? then owner[log[page].replayed.value.k := page] else owner
  }

  // The page's replay overwrites the version.
  predicate GarblesAt(log: seq<Cell>, page: nat) {
    page < |log| && Marks(log[page].replayed, VERSION_KEY)
  }

  function OneRecovered(m: Machine): Machine
    requires m.phase.Recovering? && m.phase.calls != []
  {
    m.(garbled := m.garbled || GarblesAt(m.log, m.phase.next),
       phase := m.phase.(calls := m.phase.calls[1..], next := m.phase.next + 1),
       kv := Recovered(m.kv, m.phase.calls[0]),
       owner := OwnerAfter(m.owner, m.log, m.phase.next),
       torn := m.torn && m.phase.next != 0)
  }

  function BootFinished(m: Machine): Machine
    requires m.phase.Recovering? && m.phase.result.Replayed?
  {
    m.(garbled := false, phase := Serving(m.phase.wal, map[]), kv := VersionWritten(m.kv, m.phase.result.id),
       version := if m.log == [] then 1 else |m.log|)
  }

  function EntryLogged(m: Machine, e: Entry): Machine
    requires m.phase.Serving?
  {
    var wal := EntryWritten(m.phase.wal, LoggedEntry(e.k, e.v));
    var log := m.log + CellsOf(e);
    m.(phase := Serving(wal, m.phase.puts[|m.log| := InFlight(false, wal.Position(), |log|)]), log := log)
  }

  function EntryStored(m: Machine, c: nat): Machine
    requires m.phase.Serving? && c in m.phase.puts && c < |m.log| && m.log[c].put.Some?
  {
    var e, puts := m.log[c].put.value, m.phase.puts;
    if Storable(e.k) then
      m.(garbled := m.garbled || e.k == VERSION_KEY, phase := m.phase.(puts := puts[c := puts[c].(stored := true)]),
         kv := m.kv[e.k := e.v], owner := m.owner[e.k := c])
    else m.(phase := m.phase.(puts := puts - {c}))
  }

  function VersionStored(m: Machine, c: nat): Machine
    requires m.phase.Serving? && c in m.phase.puts
  {
    var put := m.phase.puts[c];
    m.(garbled := false, phase := m.phase.(puts := m.phase.puts - {c}), kv := VersionWritten(m.kv, put.id),
       version := put.end)
  }

  // A crash between the log append and the store write of the very first put.
  predicate TearsFirstPut(m: Machine) {
    m.phase.Serving? && 0 in m.phase.puts && !m.phase.puts[0].stored && |m.log| == 1 && m.version == 1
  }

  function Crashed(m: Machine): Machine {
    m.(phase := Down(FilesOf(m.phase)), torn := m.torn || TearsFirstPut(m))
  }

  ghost function After(m: Machine, step: Step): Machine
    requires Enabled(m, step)
  {
    match step
    case Boot => Booted(m)
    case RecoverOne => OneRecovered(m)
    case FinishBoot => BootFinished(m)
    case Append(e) => EntryLogged(m, e)
    case StoreEntry(c) => EntryStored(m, c)
    case StoreVersion(c) => VersionStored(m, c)
    case Crash => Crashed(m)
  }

  ghost predicate Reaches(m: Machine, steps: seq<Step>, m': Machine)
    decreases steps
  {
    if steps == [] then m == m'
    else Enabled(m, steps[0]) && Reaches(After(m, steps[0]), steps[1..], m')
  }

  // ---- the log as pages ----

  predicate CellOk(cell: Cell) {
    && Fits(cell.record) && cell.replayed == WriteOf(cell.record.data)
    && match cell.put
       case Some(e) => Loggable(e) && cell.stored == StoredBy(e) && cell.record == Fragments(LoggedEntry(e.k, e.v))[0]
       case None => cell.stored == None
  }

  ghost predicate LogOk(log: seq<Cell>) {
    && (forall c :: 0 <= c < |log| ==> CellOk(log[c]))
    && (log != [] ==> log[|log| - 1].record.kind != MIDDLE)
  }

  // A replay does what the put of a page did exactly if that is its only page.
  lemma FirstPage(e: Entry)
    requires Loggable(e)
    ensures WriteOf(Fragments(LoggedEntry(e.k, e.v))[0].data) == if OnePage(e) then StoredBy(e) else None
  {
    var whole := LoggedEntry(e.k, e.v);
    if OnePage(e) {
      EntryRoundTrip(WalEntry(e.k, e.v, false));
    } else {
      assert whole[0..RECORD_MAX] == whole[..RECORD_MAX];
      TruncatedEntry(WalEntry(e.k, e.v, false), RECORD_MAX);
    }
  }

  lemma PutCell(cell: Cell)
    requires CellOk(cell) && cell.put.Some?
    ensures cell.replayed == if OnePage(cell.put.value) then cell.stored else None
  {
    FirstPage(cell.put.value);
  }

  lemma CellsOk(e: Entry)
    requires Loggable(e)
    ensures |CellsOf(e)| >= 1 && LogOk(CellsOf(e))
    ensures CellsOf(e)[0].put == Some(e) && forall i :: 1 <= i < |CellsOf(e)| ==> CellsOf(e)[i].put == None
  {
    FragmentsFit(LoggedEntry(e.k, e.v));
    FirstPage(e);
  }

  lemma LogReadings(log: seq<Cell>)
    requires LogOk(log)
    ensures Readings(LogPages(log)) == Records(log)
  {
    ReadingsOfPages(Records(log));
  }

  lemma LogEndsComplete(log: seq<Cell>)
    requires LogOk(log)
    ensures AllRecords(Readings(LogPages(log))) && !EndsInMiddle(Readings(LogPages(log)))
  {
    LogReadings(log);
  }

  ghost predicate AllRecoverable(log: seq<Cell>, j: nat) {
    forall c :: j <= c < |log| ==> log[c].replayed.Some?
  }

  // The records that a replay from page j hands over: up to the first that is refused.
  function HandedOver(records: seq<Fragment>, accepts: ByteString -> bool, j: nat): seq<ByteString>
    requires j <= |records|
    decreases |records| - j
  {
    if j == |records| then []
    else if !accepts(records[j].data) then [records[j].data]
    else [records[j].data] + HandedOver(records, accepts, j + 1)
  }

  ghost predicate AcceptedFrom(records: seq<Fragment>, accepts: ByteString -> bool, j: nat) {
    forall c :: j <= c < |records| ==> accepts(records[c].data)
  }

  function Remaining(log: seq<Cell>, j: nat): seq<ByteString>
    requires j <= |log|
  {
    HandedOver(Records(log), Recoverable, j)
  }

  lemma {:induction false} ReplayHandsOver(
      records: seq<Fragment>, accepts: ByteString -> bool, j: nat, calls: seq<ByteString>)
    requires j <= |records|
    ensures ReplayRecords(records[j..], accepts, calls)
            == Replay(calls + HandedOver(records, accepts, j),
                      if AcceptedFrom(records, accepts, j) then Done else Stopped(CallbackFailed))
    decreases |records| - j
  {
    if j < |records| {
      var data := records[j].data;
      assert records[j..][1..] == records[j + 1..];
      if accepts(data) {
        ReplayHandsOver(records, accepts, j + 1, calls + [data]);
        assert calls + [data] + HandedOver(records, accepts, j + 1)
            == calls + ([data] + HandedOver(records, accepts, j + 1));
      }
    }
  }

  lemma ReadingsFrom(pages: seq<Page>, j: nat)
    requires j <= |pages|
    ensures Readings(pages[j..]) == Readings(pages)[j..]
  {
    assert pages == pages[..j] + pages[j..];
    ReadingsConcat(pages[..j], pages[j..]);
  }

  lemma ReplayOfPages(records: seq<Fragment>, pages: seq<Page>, accepts: ByteString -> bool, j: nat)
    requires Readings(pages) == records && j <= |pages|
    ensures ReplayPages(pages[j..], accepts, [])
            == Replay(HandedOver(records, accepts, j),
                      if AcceptedFrom(records, accepts, j) then Done else Stopped(CallbackFailed))
  {
    ReadingsFrom(pages, j);
    ReplayHandsOver(records, accepts, j, []);
    assert [] + HandedOver(records, accepts, j) == HandedOver(records, accepts, j);
  }

  lemma AcceptedIsRecoverable(log: seq<Cell>, j: nat)
    requires LogOk(log)
    ensures AcceptedFrom(Records(log), Recoverable, j) <==> AllRecoverable(log, j)
  {
    var records := Records(log);
    forall c | 0 <= c < |log| ensures Recoverable(records[c].data) <==> log[c].replayed.Some? {
      assert CellOk(log[c]) && records[c] == log[c].record;
    }
  }

  lemma ReplayOfLog(log: seq<Cell>, j: nat)
    requires LogOk(log) && j <= |log|
    ensures ReplayPages(LogPages(log)[j..], Recoverable, [])
            == Replay(Remaining(log, j), if AllRecoverable(log, j) then Done else Stopped(CallbackFailed))
  {
    LogReadings(log);
    ReplayOfPages(Records(log), LogPages(log), Recoverable, j);
    AcceptedIsRecoverable(log, j);
  }

  lemma {:induction false} PagesOfConcat(a: seq<Fragment>, b: seq<Fragment>)
    ensures PagesOf(a + b) == PagesOf(a) + PagesOf(b)
    decreases |a|
  {
    if a == [] {
      assert a + b == b;
    } else {
      assert (a + b)[0] == a[0] && (a + b)[1..] == a[1..] + b;
      PagesOfConcat(a[1..], b);
    }
  }

  lemma RecordsConcat(log: seq<Cell>, more: seq<Cell>)
    ensures Records(log + more) == Records(log) + Records(more)
  {
  }

  lemma LogPagesConcat(log: seq<Cell>, more: seq<Cell>, fragments: seq<Fragment>)
    requires Records(more) == fragments
    ensures LogPages(log + more) == LogPages(log) + PagesOf(fragments)
  {
    RecordsConcat(log, more);
    PagesOfConcat(Records(log), fragments);
  }

  lemma LogPagesAppend(log: seq<Cell>, e: Entry)
    ensures LogPages(log + CellsOf(e)) == LogPages(log) + EntryPages(LoggedEntry(e.k, e.v))
  {
    LogPagesConcat(log, CellsOf(e), Fragments(LoggedEntry(e.k, e.v)));
  }

  lemma AppendedData(wal: WalState, pages: seq<Page>, data: ByteString, more: seq<Page>, all: seq<Page>)
    requires WriterAt(wal, pages) && more == EntryPages(data) && more != [] && all == pages + more && Room(|all|)
    ensures WriterAt(EntryWritten(wal, data), all) && EntryWritten(wal, data).term == wal.term
    ensures EntryWritten(wal, data).Position() == PositionAfter(wal.term, |all|)
  {
    AppendedAt(wal, pages, more);
  }

  lemma AppendedCells(wal: WalState, log: seq<Cell>, data: ByteString, cells: seq<Cell>)
    requires WriterAt(wal, LogPages(log)) && cells != [] && Room(|log| + |cells|)
    requires LogPages(log + cells) == LogPages(log) + EntryPages(data) && |EntryPages(data)| == |cells|
    ensures WriterAt(EntryWritten(wal, data), LogPages(log + cells)) && EntryWritten(wal, data).term == wal.term
    ensures EntryWritten(wal, data).Position() == PositionAfter(wal.term, |log| + |cells|)
  {
    AppendedData(wal, LogPages(log), data, EntryPages(data), LogPages(log + cells));
  }

  lemma AppendedEntry(wal: WalState, log: seq<Cell>, e: Entry)
    requires WriterAt(wal, LogPages(log)) && Loggable(e) && Room(|log| + |CellsOf(e)|)
    ensures var wal' := EntryWritten(wal, LoggedEntry(e.k, e.v));
            WriterAt(wal', LogPages(log + CellsOf(e))) && wal'.term == wal.term
            && wal'.Position() == PositionAfter(wal.term, |log| + |CellsOf(e)|)
  {
    LogPagesAppend(log, e);
    CellsOk(e);
    AppendedCells(wal, log, LoggedEntry(e.k, e.v), CellsOf(e));
  }

  // ---- what every step keeps ----

  ghost predicate VersionStands(kv: Store, version: nat, term: int) {
    if version == 0 then VERSION_KEY !in kv
    else VERSION_KEY in kv && kv[VERSION_KEY] == EncodeVersion(PositionAfter(term, version))
  }

  // That many pages end with the last page of an entry.
  predicate EntryEnd(log: seq<Cell>, n: nat) {
    0 < n <= |log| && (n < |log| ==> log[n].put.Some?)
  }

  // What a page writes to the store, by its put or else by its replay.
  function Written(cell: Cell): Option<Entry> {
    if cell.put.Some? then cell.stored else cell.replayed
  }

  ghost predicate OwnedAt(kv: Store, log: seq<Cell>, owner: map<ByteString, nat>, k: ByteString) {
    && (k in kv <==> k in owner)
    && (k in owner ==> owner[k] < |log| && Written(log[owner[k]]) == Some(Entry(k, kv[k])))
  }

  // Every user key in the store has the value of the page that wrote it last.
  ghost predicate Owned(kv: Store, log: seq<Cell>, owner: map<ByteString, nat>) {
    && (forall k :: k in owner ==> owner[k] < |log|)
    && (forall k :: k != VERSION_KEY ==> OwnedAt(kv, log, owner, k))
  }

  ghost predicate WalAt(wal: WalState, m: Machine) {
    WriterAt(wal, LogPages(m.log)) && wal.term == m.term
  }

  // The part of a replay that has been applied wrote last what it writes at all.
  ghost predicate ReplayedSoFar(log: seq<Cell>, owner: map<ByteString, nat>, lo: nat, next: nat)
    requires next <= |log|
  {
    forall c :: lo <= c < next && log[c].replayed.Some? ==>
      var k := log[c].replayed.value.k;
      k in owner && c <= owner[k] < next && Marks(log[owner[k]].replayed, k)
  }

  ghost predicate RecoveringInv(m: Machine)
    requires m.phase.Recovering?
  {
    var Recovering(wal, next, calls, result) := m.phase;
    && WalAt(wal, m)
    && ReplayStart(m) <= next <= |m.log| && ReplayedSoFar(m.log, m.owner, ReplayStart(m), next)
    && (calls == [] || calls == Remaining(m.log, next))
    && (result.Replayed? ==>
          && AllRecoverable(m.log, next) && calls == Remaining(m.log, next)
          && result.id == PositionAfter(m.term, if m.log == [] then 1 else |m.log|))
    && (result.ReplayFailed? ==> Stuck(m))
  }

  // The next start has to replay a page that recovery refuses.
  ghost predicate Stuck(m: Machine) {
    m.version < |m.log| && !AllRecoverable(m.log, Start(m.version))
  }

  ghost predicate PutInv(m: Machine, c: nat, put: InFlight) {
    && c < put.end && EntryEnd(m.log, put.end)
    && m.log[c].put.Some? && (forall d :: c < d < put.end ==> m.log[d].put.None?)
    && put.id == PositionAfter(m.term, put.end)
    && (put.stored ==> m.log[c].stored.Some?)
    && (!put.stored ==> forall k :: k in m.owner ==> m.owner[k] != c)
  }

  ghost predicate ServingInv(m: Machine)
    requires m.phase.Serving?
  {
    WalAt(m.phase.wal, m) && m.version >= 1 && AllPutsInv(m)
  }

  ghost predicate AllPutsInv(m: Machine)
    requires m.phase.Serving?
  {
    forall c :: c in m.phase.puts ==> PutInv(m, c, m.phase.puts[c])
  }

  // The part of the log invariant that does not look into the pages.
  ghost predicate VersionInv(m: Machine) {
    && Room(|m.log|) && ValidNumber(m.term)
    && (m.log == [] ==> m.term == 1)
    && (m.version == 0 ==> m.log == []) && (m.version <= |m.log| || m.version == 1)
    && (m.garbled || VersionStands(m.kv, m.version, m.term))
    && (m.version <= 1 || EntryEnd(m.log, m.version))
  }

  ghost predicate LogInv(m: Machine) {
    LogOk(m.log) && VersionInv(m) && Owned(m.kv, m.log, m.owner)
  }

  ghost predicate Inv(m: Machine) {
    && LogInv(m)
    && match m.phase
       case Down(files) => Holds(files, LogPages(m.log), m.term)
       case Recovering(_, _, _, _) => RecoveringInv(m)
       case Serving(_, _) => ServingInv(m)
  }

  // ---- the steps ----

  lemma WriterExists(files: Files, pages: seq<Page>, term: int) returns (s: WalState)
    requires ValidNumber(term) && Holds(files, pages, term) && (pages == [] ==> term == 1)
    ensures WriterAt(s, pages) && s.term == term && s.files == files
  {
    if pages == [] {
      s := WalState(1, 0, 0, 0, Closed, files);
    } else {
      var p := PositionAfter(term, |pages|);
      s := WalState(term, p.collection, p.seqNo, p.seqNo, Open(Filename(term, p.collection)), files);
    }
  }

  lemma Reopened(m: Machine) returns (s: WalState)
    requires Inv(m) && m.phase.Down?
    ensures WalAt(s, m) && Initialized(m.phase.files, 0, Closed) == InitResult.Ready(s)
  {
    s := WriterExists(m.phase.files, LogPages(m.log), m.term);
    LogEndsComplete(m.log);
    RestartRestores(s, LogPages(m.log));
  }

  lemma VersionReadBack(m: Machine)
    requires LogInv(m) && !m.garbled
    ensures VersionRead(m.kv) == Value(if m.version == 0 then START_WAL_SEQUENCE else PositionAfter(m.term, m.version))
  {
    if m.version >= 1 {
      VersionInRange(m.term, m.version, |m.log|);
      VersionRoundTrip(PositionAfter(m.term, m.version));
    }
  }

  lemma VersionInRange(term: int, version: nat, n: nat)
    requires ValidNumber(term) && Room(n) && 1 <= version && (version <= n || version == 1)
    ensures Int64s(PositionAfter(term, version))
  {
  }

  lemma BootIdle(log: seq<Cell>, version: nat, s: WalState)
    requires WriterAt(s, LogPages(log)) && (log == [] ==> s.term == 1)
    requires version >= |log| && (version <= |log| || version == 1) && (version == 0 ==> log == [])
    ensures Replaying(s, if version == 0 then START_WAL_SEQUENCE else PositionAfter(s.term, version), Recoverable)
            == (Replayed(PositionAfter(s.term, if log == [] then 1 else |log|)), [])
  {
  }

  lemma BootReplays(log: seq<Cell>, version: nat, s: WalState)
    requires LogOk(log) && WriterAt(s, LogPages(log)) && Room(|log|) && 1 <= version < |log|
    ensures Start(version) <= |log|
            && Replaying(s, PositionAfter(s.term, version), Recoverable)
               == (if AllRecoverable(log, Start(version)) then Replayed(s.Position()) else ReplayFailed(CallbackFailed),
                   Remaining(log, Start(version)))
  {
    ReplayFromPosition(s, LogPages(log), version, Recoverable);
    ReplayOfLog(log, Start(version));
  }

  // What Initialize finds to do, by the log.
  ghost function Found(m: Machine, s: WalState): (ReplayResult, seq<ByteString>)
    requires LogInv(m)
  {
    var n, from := |m.log|, Start(m.version);
    if m.version >= n then (Replayed(PositionAfter(m.term, if n == 0 then 1 else n)), [])
    else
      StartBefore(m.version);
      (if AllRecoverable(m.log, from) then Replayed(s.Position()) else ReplayFailed(CallbackFailed),
       Remaining(m.log, from))
  }

  lemma BootFinds(m: Machine, s: WalState, from: SequenceId)
    requires LogInv(m) && WalAt(s, m)
    requires from == if m.version == 0 then START_WAL_SEQUENCE else PositionAfter(m.term, m.version)
    ensures Replaying(s, from, Recoverable) == Found(m, s)
  {
    if m.version < |m.log| {
      BootReplays(m.log, m.version, s);
    } else {
      BootIdle(m.log, m.version, s);
    }
  }

  lemma LogInvPhase(m: Machine, m': Machine)
    requires LogInv(m) && m' == m.(phase := m'.phase)
    ensures LogInv(m')
  {
  }

  lemma OpenedRecovering(m: Machine, s: WalState, result: ReplayResult, calls: seq<ByteString>, m': Machine)
    requires LogInv(m) && WalAt(s, m) && (result, calls) == Found(m, s)
    requires m' == m.(phase := Recovering(s, if calls == [] then |m.log| else Start(m.version), calls, result))
    ensures RecoveringInv(m') && m'.phase.next == ReplayStart(m) && (result.Replayed? <==> !Stuck(m))
  {
    StartBefore(m.version);
  }

  lemma OpenedInv(m: Machine, s: WalState, result: ReplayResult, calls: seq<ByteString>, m': Machine)
    requires Inv(m) && m.phase.Down? && WalAt(s, m)
    requires (result, calls) == Found(m, s)
    requires m' == m.(phase := Recovering(s, if calls == [] then |m.log| else Start(m.version), calls, result))
    ensures Inv(m') && m'.phase.next == ReplayStart(m) && (result.Replayed? <==> !Stuck(m))
  {
    LogInvPhase(m, m');
    OpenedRecovering(m, s, result, calls, m');
  }

  lemma OpenedKeeps(m: Machine, s: WalState, from: SequenceId)
    requires Inv(m) && m.phase.Down? && WalAt(s, m)
    requires from == if m.version == 0 then START_WAL_SEQUENCE else PositionAfter(m.term, m.version)
    ensures Inv(Opened(m, s, from)) && Opened(m, s, from).phase.next == ReplayStart(m)
    ensures Opened(m, s, from).phase.result.Replayed? <==> !Stuck(m)
  {
    var (result, calls) := Replaying(s, from, Recoverable);
    BootFinds(m, s, from);
    OpenedInv(m, s, result, calls, Opened(m, s, from));
  }

  lemma StartBefore(version: nat)
    ensures Start(version) <= version
  {
    if version > 0 {
      FileOfPosition(1, version);
    }
  }

  lemma BootKeeps(m: Machine)
    requires Inv(m) && m.phase.Down? && !m.garbled
    ensures Initialized(m.phase.files, 0, Closed).Ready? && VersionRead(m.kv).Value? && Inv(Booted(m))
    ensures Booted(m).phase.next == ReplayStart(m) && (Booted(m).phase.result.Replayed? <==> !Stuck(m))
  {
    var s := Reopened(m);
    VersionReadBack(m);
    OpenedKeeps(m, s, VersionRead(m.kv).value);
  }

  lemma RemainingStep(records: seq<Fragment>, accepts: ByteString -> bool, j: nat)
    requires j <= |records| && HandedOver(records, accepts, j) != []
    ensures j < |records| && HandedOver(records, accepts, j)[0] == records[j].data
    ensures HandedOver(records, accepts, j)[1..]
            == if accepts(records[j].data) then HandedOver(records, accepts, j + 1) else []
    ensures AcceptedFrom(records, accepts, j) ==> accepts(records[j].data)
  {
  }

  // A replayed page writes what it stands for.
  lemma CellWrites(cell: Cell)
    requires CellOk(cell) && cell.replayed.Some?
    ensures Written(cell) == cell.replayed
  {
    if cell.put.Some? {
      PutCell(cell);
    }
  }

  lemma OwnedUpdate(kv: Store, log: seq<Cell>, owner: map<ByteString, nat>, c: nat, w: Entry)
    requires Owned(kv, log, owner) && c < |log| && Written(log[c]) == Some(w)
    ensures Owned(kv[w.k := w.v], log, owner[w.k := c])
  {
    var kv', owner' := kv[w.k := w.v], owner[w.k := c];
    forall k | k != VERSION_KEY ensures OwnedAt(kv', log, owner', k) {
      assert OwnedAt(kv, log, owner, k);
    }
  }

  lemma RecoveredWrites(kv: Store, cell: Cell)
    requires CellOk(cell)
    ensures Recovered(kv, cell.record.data)
            == if cell.replayed.Some? then kv[cell.replayed.value.k := cell.replayed.value.v] else kv
  {
  }

  lemma ReplayedOneMore(log: seq<Cell>, owner: map<ByteString, nat>, lo: nat, next: nat)
    requires next < |log| && ReplayedSoFar(log, owner, lo, next)
    ensures ReplayedSoFar(log, OwnerAfter(owner, log, next), lo, next + 1)
  {
  }

  lemma LogInvWritten(m: Machine, c: nat, e: Entry, m': Machine)
    requires LogInv(m) && c < |m.log| && Written(m.log[c]) == Some(e)
    requires m' == m.(phase := m'.phase, torn := m'.torn, garbled := m.garbled || e.k == VERSION_KEY,
                      kv := m.kv[e.k := e.v], owner := m.owner[e.k := c])
    ensures LogInv(m')
  {
    OwnedUpdate(m.kv, m.log, m.owner, c, e);
  }

  lemma RecoverOneLog(m: Machine)
    requires Inv(m) && m.phase.Recovering? && m.phase.calls != []
    ensures LogInv(OneRecovered(m))
  {
    var j := m.phase.next;
    RemainingStep(Records(m.log), Recoverable, j);
    assert CellOk(m.log[j]);
    RecoveredWrites(m.kv, m.log[j]);
    if m.log[j].replayed.Some? {
      CellWrites(m.log[j]);
      LogInvWritten(m, j, m.log[j].replayed.value, OneRecovered(m));
    }
  }

  lemma RecoverOneReplay(m: Machine)
    requires LogOk(m.log) && m.phase.Recovering? && RecoveringInv(m) && m.phase.calls != []
    ensures RecoveringInv(OneRecovered(m))
  {
    RemainingStep(Records(m.log), Recoverable, m.phase.next);
    AcceptedIsRecoverable(m.log, m.phase.next);
    ReplayedOneMore(m.log, m.owner, ReplayStart(m), m.phase.next);
  }

  lemma RecoverOneKeeps(m: Machine)
    requires Inv(m) && m.phase.Recovering? && m.phase.calls != []
    ensures Inv(OneRecovered(m))
  {
    RecoverOneLog(m);
    RecoverOneReplay(m);
  }

  lemma VersionWrittenKeeps(
      kv: Store, id: SequenceId, log: seq<Cell>, owner: map<ByteString, nat>, version: nat, term: int)
    requires Owned(kv, log, owner) && version >= 1 && id == PositionAfter(term, version)
    ensures Owned(VersionWritten(kv, id), log, owner) && VersionStands(VersionWritten(kv, id), version, term)
  {
    forall k | k != VERSION_KEY ensures OwnedAt(VersionWritten(kv, id), log, owner, k) {
      assert OwnedAt(kv, log, owner, k);
    }
  }

  lemma FinishedLog(m: Machine)
    requires LogInv(m) && m.phase.Recovering? && RecoveringInv(m) && m.phase.result.Replayed?
    ensures LogInv(BootFinished(m))
  {
    VersionWrittenKeeps(m.kv, m.phase.result.id, m.log, m.owner, if m.log == [] then 1 else |m.log|, m.term);
  }

  lemma FinishBootKeeps(m: Machine)
    requires Inv(m) && m.phase.Recovering? && m.phase.calls == [] && m.phase.result.Replayed?
    ensures Inv(BootFinished(m)) && m.phase.next == |m.log|
  {
    FinishedLog(m);
  }

  lemma OwnedGrows(kv: Store, log: seq<Cell>, owner: map<ByteString, nat>, more: seq<Cell>)
    requires Owned(kv, log, owner)
    ensures Owned(kv, log + more, owner)
  {
    forall k | k != VERSION_KEY ensures OwnedAt(kv, log + more, owner, k) {
      assert OwnedAt(kv, log, owner, k);
    }
  }

  lemma LogOkAppend(log: seq<Cell>, more: seq<Cell>)
    requires LogOk(log) && LogOk(more) && more != []
    ensures LogOk(log + more)
  {
    var all := log + more;
    assert all[|all| - 1] == more[|more| - 1];
  }

  lemma EntryEndGrows(log: seq<Cell>, more: seq<Cell>, n: nat)
    requires EntryEnd(log, n) && more != [] && more[0].put.Some?
    ensures EntryEnd(log + more, n)
  {
  }

  lemma VersionInvGrows(m: Machine, more: seq<Cell>, m': Machine)
    requires VersionInv(m) && m.version >= 1 && more != [] && more[0].put.Some? && Room(|m.log| + |more|)
    requires m'.log == m.log + more && m'.version == m.version && m'.garbled == m.garbled
    requires m'.kv == m.kv && m'.term == m.term
    ensures VersionInv(m')
  {
    if m.version > 1 {
      EntryEndGrows(m.log, more, m.version);
    }
  }

  lemma AppendLog(m: Machine, e: Entry)
    requires LogInv(m) && m.version >= 1 && Enabled(m, Append(e))
    ensures LogInv(EntryLogged(m, e))
  {
    CellsOk(e);
    LogOkAppend(m.log, CellsOf(e));
    OwnedGrows(m.kv, m.log, m.owner, CellsOf(e));
    VersionInvGrows(m, CellsOf(e), EntryLogged(m, e));
  }

  lemma OldPutKept(m: Machine, more: seq<Cell>, c: nat, put: InFlight, m': Machine)
    requires PutInv(m, c, put) && more != [] && more[0].put.Some?
    requires m'.log == m.log + more && m'.term == m.term && m'.owner == m.owner
    ensures PutInv(m', c, put)
  {
    EntryEndGrows(m.log, more, put.end);
    assert forall d :: 0 <= d < |m.log| ==> m'.log[d] == m.log[d];
  }

  lemma NewPut(m: Machine, more: seq<Cell>, put: InFlight, m': Machine)
    requires Owned(m.kv, m.log, m.owner) && more != [] && more[0].put.Some?
    requires forall i :: 1 <= i < |more| ==> more[i].put == None
    requires m'.log == m.log + more && m'.term == m.term && m'.owner == m.owner
    requires put == InFlight(false, PositionAfter(m.term, |m'.log|), |m'.log|)
    ensures PutInv(m', |m.log|, put)
  {
    forall d | |m.log| < d < |m'.log| ensures m'.log[d].put.None? {
      assert m'.log[d] == more[d - |m.log|];
    }
  }

  lemma AppendPuts(m: Machine, e: Entry)
    requires Inv(m) && Enabled(m, Append(e))
    ensures AllPutsInv(EntryLogged(m, e))
  {
    var m', n := EntryLogged(m, e), |m.log|;
    CellsOk(e);
    AppendedEntry(m.phase.wal, m.log, e);
    NewPut(m, CellsOf(e), m'.phase.puts[n], m');
    forall c | c in m'.phase.puts && c != n ensures PutInv(m', c, m'.phase.puts[c]) {
      OldPutKept(m, CellsOf(e), c, m.phase.puts[c], m');
    }
  }

  lemma AppendKeeps(m: Machine, e: Entry)
    requires Inv(m) && Enabled(m, Append(e))
    ensures Inv(EntryLogged(m, e))
  {
    AppendLog(m, e);
    AppendPuts(m, e);
    AppendedEntry(m.phase.wal, m.log, e);
  }

  lemma PutKept(m: Machine, m': Machine, c: nat, put: InFlight)
    requires PutInv(m, c, put) && m'.log == m.log && m'.term == m.term
    requires put.stored || forall k :: k in m'.owner && m'.owner[k] == c ==> k in m.owner && m.owner[k] == c
    ensures PutInv(m', c, put)
  {
  }

  lemma OwnPutKept(m: Machine, m': Machine, c: nat, put: InFlight)
    requires PutInv(m, c, put) && m'.log == m.log && m'.term == m.term && m.log[c].stored.Some?
    ensures PutInv(m', c, put.(stored := true))
  {
  }

  // A put that the store accepts is stored as it is.
  lemma StoredCell(cell: Cell)
    requires CellOk(cell) && cell.put.Some? && Storable(cell.put.value.k)
    ensures cell.stored == cell.put && Written(cell) == cell.put
  {
  }

  lemma StoredPutsKept(m: Machine, c: nat, k: ByteString, m': Machine)
    requires m.phase.Serving? && AllPutsInv(m) && c in m.phase.puts && m.log[c].stored.Some?
    requires m'.log == m.log && m'.term == m.term && m'.owner == m.owner[k := c]
    requires m'.phase == m.phase.(puts := m.phase.puts[c := m.phase.puts[c].(stored := true)])
    ensures AllPutsInv(m')
  {
    OwnPutKept(m, m', c, m.phase.puts[c]);
    forall d | d in m.phase.puts && d != c ensures PutInv(m', d, m.phase.puts[d]) {
      PutKept(m, m', d, m.phase.puts[d]);
    }
  }

  lemma RemainingPutsKept(m: Machine, c: nat, m': Machine)
    requires m.phase.Serving? && AllPutsInv(m)
    requires m'.log == m.log && m'.term == m.term && m'.owner == m.owner
    requires m'.phase == m.phase.(puts := m.phase.puts - {c})
    ensures AllPutsInv(m')
  {
    forall d | d in m'.phase.puts ensures PutInv(m', d, m'.phase.puts[d]) {
      PutKept(m, m', d, m.phase.puts[d]);
    }
  }

  lemma PutsKept(m: Machine, c: nat)
    requires Inv(m) && Enabled(m, StoreEntry(c))
    ensures AllPutsInv(EntryStored(m, c))
  {
    assert PutInv(m, c, m.phase.puts[c]) && CellOk(m.log[c]);
    var k := m.log[c].put.value.k;
    if Storable(k) {
      StoredCell(m.log[c]);
      StoredPutsKept(m, c, k, EntryStored(m, c));
    } else {
      RemainingPutsKept(m, c, EntryStored(m, c));
    }
  }

  lemma StoredLog(m: Machine, c: nat)
    requires LogInv(m) && Enabled(m, StoreEntry(c))
    ensures LogInv(EntryStored(m, c))
  {
    assert CellOk(m.log[c]);
    if Storable(m.log[c].put.value.k) {
      StoredCell(m.log[c]);
      LogInvWritten(m, c, m.log[c].put.value, EntryStored(m, c));
    }
  }

  lemma ServingOn(m: Machine, m': Machine)
    requires Inv(m) && m.phase.Serving? && m'.phase.Serving? && m'.phase.wal == m.phase.wal
    requires m'.log == m.log && m'.term == m.term && m'.version >= 1
    requires LogInv(m') && AllPutsInv(m')
    ensures Inv(m')
  {
  }

  lemma StoreEntryKeeps(m: Machine, c: nat)
    requires Inv(m) && Enabled(m, StoreEntry(c))
    ensures Inv(EntryStored(m, c))
  {
    StoredLog(m, c);
    PutsKept(m, c);
    ServingOn(m, EntryStored(m, c));
  }

  lemma StoreVersionKeeps(m: Machine, c: nat)
    requires Inv(m) && Enabled(m, StoreVersion(c))
    ensures Inv(VersionStored(m, c))
  {
    var m', put := VersionStored(m, c), m.phase.puts[c];
    assert PutInv(m, c, put);
    VersionWrittenKeeps(m.kv, put.id, m.log, m.owner, put.end, m.term);
    RemainingPutsKept(m, c, m');
  }

  lemma CrashKeeps(m: Machine)
    requires Inv(m)
    ensures Inv(Crashed(m))
  {
  }

  lemma StepKeeps(m: Machine, step: Step)
    requires Inv(m) && Enabled(m, step)
    ensures Inv(After(m, step))
  {
    match step
    case Boot => BootKeeps(m);
    case RecoverOne => RecoverOneKeeps(m);
    case FinishBoot => FinishBootKeeps(m);
    case Append(e) => AppendKeeps(m, e);
    case StoreEntry(c) => StoreEntryKeeps(m, c);
    case StoreVersion(c) => StoreVersionKeeps(m, c);
    case Crash => CrashKeeps(m);
  }

  // In every run of puts of any key and length, overlapping in any way, with crashes at any durable step: the files
  // hold the log; the version that the store wrote last ends an entry, or is the position after the first page, and
  // it stands unless a put has overwritten it; and each other key has the value of the page that wrote it last.
  lemma {:induction false} RunKeeps(m: Machine, steps: seq<Step>, m': Machine)
    requires Inv(m) && Reaches(m, steps, m')
    ensures Inv(m')
    decreases steps
  {
    if steps != [] {
      StepKeeps(m, steps[0]);
      RunKeeps(After(m, steps[0]), steps[1..], m');
    }
  }

  lemma InitialInv()
    ensures Inv(INITIAL)
  {
    assert LogPages([]) == [];
  }
}
