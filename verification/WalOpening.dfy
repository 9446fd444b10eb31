// When a log can be opened, and that damage to its last file keeps it closed.
module WalOpening {
  import opened Bytes
  import opened WalPage
  import opened WalNames
  import opened WalEntries
  import opened DiskWal
  import opened WalRuns
  import opened WalRepair
  import opened Options

  // The file that the program opens: the one whose name comes last.
  ghost predicate IsLastFile(files: Files, last: string) {
    && last in files && WalFilename(last).Parsed?
    && forall x :: x in files && WalFilename(x).Parsed? ==> x == last || Less(x, last)
  }

  ghost predicate NoLogFile(files: Files) {
    forall x :: x in files ==> WalFilename(x).Unknown?
  }

  lemma LastOfListing(files: Files)
    requires Listing(files) != []
    ensures IsLastFile(files, Listing(files)[|Listing(files)| - 1])
  {
    var names := Listing(files);
    assert names[|names| - 1] in names;
  }

  lemma OnlyOneLast(files: Files, a: string, b: string)
    requires IsLastFile(files, a) && IsLastFile(files, b)
    ensures a == b
  {
    LessTotal(a, b);
  }

  lemma EmptyListing(files: Files)
    ensures Listing(files) == [] <==> NoLogFile(files)
  {
    forall x ensures x in Listing(files) <==> x in files && WalFilename(x).Parsed? {
    }
    if Listing(files) != [] {
      assert Listing(files)[0] in Listing(files);
    }
  }

  lemma {:induction false} RejectionExactly(records: seq<PageResult>)
    ensures FirstRejection(records).None? <==> AllRecords(records)
    decreases records
  {
    if records != [] {
      RejectionExactly(records[1..]);
      assert forall i :: 0 < i < |records| ==> records[i] == records[1..][i - 1];
    }
  }

  // The error of a rejected page behind good ones.
  lemma {:induction false} RejectionAt(records: seq<PageResult>, i: nat)
    requires i < |records| && records[i].Rejected? && forall j :: 0 <= j < i ==> records[j].Record?
    ensures FirstRejection(records) == Some(records[i].error)
    decreases records
  {
    if i > 0 {
      RejectionAt(records[1..], i - 1);
    }
  }

  // The pages of a file and, after a last Middle, a broken end.
  ghost predicate Kept(pages: seq<Page>, kept: seq<Page>)
    requires pages != []
  {
    var last := DecodePage(pages[|pages| - 1]);
    kept == pages + if last.Record? && last.kind == MIDDLE then [EncodePage([], BROKEN_END)] else []
  }

  lemma KeptPages(pages: seq<Page>)
    requires pages != []
    ensures Kept(pages, Repaired(pages))
  {
    ReadingsAt(pages, |pages| - 1);
    assert pages + [] == pages;
  }

  // A log opens if and only if the folder has no log file, or the last one has a page and every one of its pages
  // holds a record. Then the counters are those of that file's name and of its pages.
  lemma OpensExactly(files: Files, occupied: int, file: CurrentFile)
    ensures NoLogFile(files) ==>
              Initialized(files, occupied, file) == Ready(WalState(1, 0, 0, occupied, file, files))
    ensures forall last :: IsLastFile(files, last) ==>
              (Initialized(files, occupied, file).Ready?
               <==> files[last] != [] && forall i :: 0 <= i < |files[last]| ==> DecodePage(files[last][i]).Record?)
    ensures forall last :: IsLastFile(files, last) && Initialized(files, occupied, file).Ready? ==>
              var s := Initialized(files, occupied, file).state;
              && last in s.files && Kept(files[last], s.files[last]) && s.files == files[last := s.files[last]]
              && Parsed(s.term, s.collection) == WalFilename(last) && s.file == Open(last)
              && s.seqNo == |s.files[last]| && s.occupied == occupied + |s.files[last]|
    ensures forall last :: IsLastFile(files, last) && files[last] == [] ==>
              Initialized(files, occupied, file) == InitFailed(EmptyFile)
    ensures forall last, i :: IsLastFile(files, last) && FirstBad(files[last], i) ==>
              Initialized(files, occupied, file) == InitFailed(BadPage(DecodePage(files[last][i]).error))
    ensures NoLogFile(files) || exists last :: IsLastFile(files, last)
  {
    EmptyListing(files);
    InitializedBy(files, occupied, file, Listing(files));
    if Listing(files) != [] {
      var last := Listing(files)[|Listing(files)| - 1];
      LastOfListing(files);
      forall x | IsLastFile(files, x) ensures x == last {
        OnlyOneLast(files, x, last);
      }
      FileOpensExactly(files, occupied, last);
      forall i | FirstBad(files[last], i)
        ensures LastFileOpened(files, occupied, last) == InitFailed(BadPage(DecodePage(files[last][i]).error))
      {
        FirstBadDecides(files, occupied, last, i);
      }
    }
  }

  ghost predicate FirstBad(pages: seq<Page>, i: int) {
    0 <= i < |pages| && DecodePage(pages[i]).Rejected? && forall j :: 0 <= j < i ==> DecodePage(pages[j]).Record?
  }

  lemma FirstBadDecides(files: Files, occupied: int, last: string, i: nat)
    requires last in files && WalFilename(last).Parsed? && FirstBad(files[last], i)
    ensures LastFileOpened(files, occupied, last) == InitFailed(BadPage(DecodePage(files[last][i]).error))
  {
    forall j | 0 <= j <= i ensures Readings(files[last])[j] == DecodePage(files[last][j]) {
      ReadingsAt(files[last], j);
    }
    RejectionAt(Readings(files[last]), i);
  }

  lemma AllRecordPages(pages: seq<Page>)
    ensures AllRecords(Readings(pages)) <==> forall i :: 0 <= i < |pages| ==> DecodePage(pages[i]).Record?
  {
    forall i | 0 <= i < |pages| ensures Readings(pages)[i] == DecodePage(pages[i]) {
      ReadingsAt(pages, i);
    }
  }

  lemma FileOpensExactly(files: Files, occupied: int, last: string)
    requires last in files && WalFilename(last).Parsed?
    ensures LastFileOpened(files, occupied, last).Ready?
            <==> files[last] != [] && forall i :: 0 <= i < |files[last]| ==> DecodePage(files[last][i]).Record?
    ensures LastFileOpened(files, occupied, last).Ready? ==>
              var s := LastFileOpened(files, occupied, last).state;
              && last in s.files && Kept(files[last], s.files[last]) && s.files == files[last := s.files[last]]
              && Parsed(s.term, s.collection) == WalFilename(last) && s.file == Open(last)
              && s.seqNo == |s.files[last]| && s.occupied == occupied + |s.files[last]|
  {
    RejectionExactly(Readings(files[last]));
    AllRecordPages(files[last]);
    if files[last] != [] {
      KeptPages(files[last]);
    }
  }

  function Replaced(pages: seq<Page>, i: nat, page: Page): (r: seq<Page>)
    requires i < |pages|
    ensures |r| == |pages| && forall j :: 0 <= j < |pages| ==> r[j] == if j == i then page else pages[j]
  {
    seq(|pages|, j requires 0 <= j < |pages| => if j == i then page else pages[j])
  }

  ghost predicate DamagedAt(pages: seq<Page>, at: nat, damaged: Page, from: nat, to: nat) {
    && at < |pages| && pages[at] != damaged && ConfinedTo(pages[at], damaged, from, to) && to - from <= 4
    && (to <= 3 || 7 <= from || (3 <= from && to <= 7))
  }

  lemma DamagedFileStaysClosed(files: Files, occupied: int, last: string, damaged: seq<Page>)
    requires Listing(files) != [] && Listing(files)[|Listing(files)| - 1] == last && last in files
    requires FirstRejection(Readings(damaged)) == Some(ChecksumMismatch)
    ensures Initialized(files[last := damaged], occupied, Closed) == InitFailed(BadPage(ChecksumMismatch))
  {
    var files' := files[last := damaged];
    SameListing(files, last, damaged);
    InitializedBy(files', occupied, Closed, Listing(files));
    RejectedFile(files', occupied, last, ChecksumMismatch);
  }

  lemma RejectedFile(files: Files, occupied: int, last: string, error: PageError)
    requires last in files && WalFilename(last).Parsed? && FirstRejection(Readings(files[last])) == Some(error)
    ensures LastFileOpened(files, occupied, last) == InitFailed(BadPage(error))
  {
  }

  lemma LastFilePages(files: Files, pages: seq<Page>, term: int)
    requires ValidNumber(term) && Holds(files, pages, term) && Room(|pages|) && pages != []
    ensures var last := Filename(term, FileCount(|pages|));
            last in files && files[last] == pages[(FileCount(|pages|) - 1) * PAGES_PER_FILE..]
            && Listing(files) != [] && Listing(files)[|Listing(files)| - 1] == last
  {
    ListingOfHolds(files, pages, term);
    assert files[Filename(term, FileCount(|pages|))] == Chunk(pages, FileCount(|pages|));
  }

  lemma DamagedPages(pages: seq<Page>, skipped: nat, at: nat, damaged: Page, from: nat, to: nat)
      returns (file: seq<Page>)
    requires AllRecords(Readings(pages)) && DamagedAt(pages, at, damaged, from, to) && skipped <= at
    ensures file == Replaced(pages[skipped..], at - skipped, damaged)
    ensures FirstRejection(Readings(file)) == Some(ChecksumMismatch)
  {
    file := Replaced(pages[skipped..], at - skipped, damaged);
    GoodPages(pages, skipped);
    DamageNoticed(pages[at], damaged, from, to);
    DamagedFile(pages[skipped..], at - skipped, damaged);
  }

  // Damage to any page of the last file, in at most four adjacent bytes on one side of its checksum field, keeps
  // the log closed, and nothing is changed: the error is a checksum that does not match.
  lemma DamagedLogStaysClosed(
      s: WalState, pages: seq<Page>, last: string, first: nat, at: nat, damaged: Page, from: nat, to: nat, occupied: int)
    requires WriterAt(s, pages) && Room(|pages|) && AllRecords(Readings(pages))
    requires last == Filename(s.term, FileCount(|pages|)) && first == (FileCount(|pages|) - 1) * 262144 <= at
    requires DamagedAt(pages, at, damaged, from, to)
    ensures last in s.files && s.files[last] == pages[first..]
    ensures Initialized(s.files[last := Replaced(pages[first..], at - first, damaged)], occupied, Closed)
            == InitFailed(BadPage(ChecksumMismatch))
  {
    LastFilePages(s.files, pages, s.term);
    var file := DamagedPages(pages, first, at, damaged, from, to);
    DamagedFileStaysClosed(s.files, occupied, last, file);
  }

  lemma GoodPages(pages: seq<Page>, skipped: nat)
    requires AllRecords(Readings(pages)) && skipped <= |pages|
    ensures forall i :: 0 <= i < |pages| ==> ChecksumHolds(pages[i])
    ensures forall j :: 0 <= j < |pages[skipped..]| ==> DecodePage(pages[skipped..][j]).Record?
  {
    AllRecordPages(pages);
  }

  lemma DamagedFile(kept: seq<Page>, i: nat, damaged: Page)
    requires i < |kept| && DecodePage(damaged) == Rejected(ChecksumMismatch)
    requires forall j :: 0 <= j < |kept| ==> DecodePage(kept[j]).Record?
    ensures FirstRejection(Readings(Replaced(kept, i, damaged))) == Some(ChecksumMismatch)
  {
    var file := Replaced(kept, i, damaged);
    forall j | 0 <= j < |file| ensures Readings(file)[j] == DecodePage(file[j]) {
      ReadingsAt(file, j);
    }
    RejectionAt(Readings(file), i);
  }
}
