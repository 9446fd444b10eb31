// Opening a log whose last entry was cut short: when the broken end that is added makes it readable again.
module WalRepair {
  import opened Bytes
  import opened WalPage
  import opened WalNames
  import opened WalEntries
  import opened DiskWal
  import opened WalRuns
  import opened Options

  const BROKEN_RECORD: Fragment := Record(BROKEN_END, [])

  // ---- grouping ----

  function PutAll(entries: seq<ByteString>, rest: Parse): Parse {
    if entries == [] then rest else Put(entries[0], PutAll(entries[1..], rest))
  }

  lemma {:induction false} PutAllEntries(entries: seq<ByteString>, rest: Parse)
    ensures PutAll(entries, rest) == if rest.Entries? then Entries(entries + rest.entries) else Broken
  {
    if entries == [] {
      assert rest.Entries? ==> [] + rest.entries == rest.entries;
    } else {
      PutAllEntries(entries[1..], rest);
      if rest.Entries? {
        assert entries == [entries[0]] + entries[1..];
        assert [entries[0]] + (entries[1..] + rest.entries) == entries + rest.entries;
      }
    }
  }

  lemma {:induction false} ReassembleEntries(entries: seq<ByteString>, rest: seq<PageResult>)
    ensures Reassemble(Nothing, AllFragments(entries) + rest) == PutAll(entries, Reassemble(Nothing, rest))
    decreases entries
  {
    if entries == [] {
      assert AllFragments(entries) + rest == rest;
    } else {
      var first, others := Fragments(entries[0]), AllFragments(entries[1..]);
      assert AllFragments(entries) + rest == first + (others + rest);
      ReassembleEntry(entries[0], others + rest);
      ReassembleEntries(entries[1..], rest);
    }
  }

  ghost predicate AllMiddle(records: seq<PageResult>) {
    forall i :: 0 <= i < |records| ==> records[i].Record? && records[i].kind == MIDDLE
  }

  lemma {:induction false} BrokenEndDiscards(open: ByteString, middles: seq<PageResult>, rest: seq<PageResult>)
    requires AllMiddle(middles)
    ensures Reassemble(Prefix(open), middles + [BROKEN_RECORD] + rest) == Reassemble(Nothing, rest)
    decreases |middles|
  {
    var all := middles + [BROKEN_RECORD] + rest;
    if middles == [] {
      assert all[0] == BROKEN_RECORD && all[1..] == rest;
    } else {
      assert all[0] == middles[0] && all[1..] == middles[1..] + [BROKEN_RECORD] + rest;
      BrokenEndDiscards(open + middles[0].data, middles[1..], rest);
    }
  }

  // ---- the pages of an entry that was cut short ----

  lemma {:induction false} MiddleKinds(entry: ByteString, offset: nat, i: nat)
    requires 0 < offset < |entry| && i + 1 < |FragmentsFrom(entry, offset)|
    ensures FragmentsFrom(entry, offset)[i].kind == MIDDLE
    decreases i
  {
    if i > 0 {
      MiddleKinds(entry, offset + RECORD_MAX, i - 1);
    }
  }

  lemma CutKinds(entry: ByteString, k: nat)
    requires |entry| > RECORD_MAX && 1 <= k < PageCount(|entry|)
    ensures |Fragments(entry)| == PageCount(|entry|)
    ensures Fragments(entry)[0].kind == START && AllMiddle(Fragments(entry)[1..k])
  {
    FragmentsFit(entry);
    var fragments := Fragments(entry);
    forall i | 1 <= i < k ensures fragments[i].kind == MIDDLE {
      MiddleKinds(entry, RECORD_MAX, i - 1);
    }
  }

  // The records of a reopened log: what was cut, and a broken end if the last page was a Middle.
  function RepairedCut(cut: ByteString, k: nat): seq<Fragment>
    requires k <= |Fragments(cut)|
  {
    Fragments(cut)[..k] + if k >= 2 then [BROKEN_RECORD] else []
  }

  lemma BrokenGroups(fragments: seq<Fragment>, k: nat, rest: seq<PageResult>)
    requires 2 <= k <= |fragments| && fragments[0].kind == START && AllMiddle(fragments[1..k])
    ensures Reassemble(Nothing, fragments[..k] + [BROKEN_RECORD] + rest) == Reassemble(Nothing, rest)
  {
    var all := fragments[..k] + [BROKEN_RECORD] + rest;
    assert all[0] == fragments[0];
    assert all[1..] == fragments[1..k] + [BROKEN_RECORD] + rest;
    BrokenEndDiscards(fragments[0].data, fragments[1..k], rest);
  }

  lemma StartGroups(first: Fragment, more: seq<ByteString>)
    requires first.kind == START
    ensures Reassemble(Nothing, [first] + AllFragments(more)) == Broken
  {
    var all := [first] + AllFragments(more);
    assert all[1..] == AllFragments(more);
    if more != [] {
      FirstKind(more);
    }
  }

  lemma CutGroups(cut: ByteString, k: nat, more: seq<ByteString>)
    requires |cut| > RECORD_MAX && 1 <= k < PageCount(|cut|)
    ensures k <= |Fragments(cut)|
    ensures Reassemble(Nothing, RepairedCut(cut, k) + AllFragments(more)) == if k >= 2 then Entries(more) else Broken
  {
    CutKinds(cut, k);
    var fragments := Fragments(cut);
    if k >= 2 {
      BrokenGroups(fragments, k, AllFragments(more));
      ReassembleAll(more);
    } else {
      assert RepairedCut(cut, k) == [fragments[0]];
      StartGroups(fragments[0], more);
    }
  }

  lemma FirstKind(entries: seq<ByteString>)
    requires entries != []
    ensures AllFragments(entries) != [] && AllFragments(entries)[0].kind in {WHOLE, START}
  {
    FragmentsFit(entries[0]);
  }

  // Complete entries, a longer one of which only the first k pages were written, and any complete entries after
  // the log was opened again: all complete entries are read back exactly if k is at least 2. A log cut after the
  // first page of an entry stays unreadable.
  lemma CutLogGroups(entries: seq<ByteString>, cut: ByteString, k: nat, more: seq<ByteString>)
    requires |cut| > RECORD_MAX && 1 <= k < PageCount(|cut|)
    ensures k <= |Fragments(cut)|
    ensures Reassemble(Nothing, AllFragments(entries) + (RepairedCut(cut, k) + AllFragments(more)))
            == if k >= 2 then Entries(entries + more) else Broken
  {
    CutGroups(cut, k, more);
    ReassembleEntries(entries, RepairedCut(cut, k) + AllFragments(more));
    PutAllEntries(entries, if k >= 2 then Entries(more) else Broken);
  }

  // ---- opening the files ----

  lemma {:induction false} PagesInGrown(names: seq<string>, files: Files, last: string, extra: seq<Page>)
    requires Sorted(names) && names != [] && names[|names| - 1] == last
    requires forall x :: x in names ==> x in files
    ensures PagesIn(names, files[last := files[last] + extra]) == PagesIn(names, files) + extra
    decreases names
  {
    var files' := files[last := files[last] + extra];
    if |names| == 1 {
      assert names[1..] == [];
    } else {
      assert Less(names[0], last) && names[0] != last by {
        LessTotal(names[0], last);
      }
      assert names[1..][|names[1..]| - 1] == last;
      PagesInGrown(names[1..], files, last, extra);
      assert PagesIn(names, files') == files[names[0]] + PagesIn(names[1..], files');
    }
  }

  lemma SameListing(files: Files, last: string, pages: seq<Page>)
    requires last in files
    ensures Listing(files[last := pages]) == Listing(files)
  {
    SortedUnique(Listing(files[last := pages]), Listing(files));
  }

  lemma LastFileScanned(pages: seq<Page>)
    requires pages != [] && AllRecords(Readings(pages))
    ensures var last := Chunk(pages, FileCount(|pages|));
            last != [] && FirstRejection(Readings(last)) == None
            && (EndsInMiddle(Readings(last)) <==> EndsInMiddle(Readings(pages)))
  {
    LastFileReadings(pages);
    SuffixScanned(Readings(pages), |pages| - |Chunk(pages, FileCount(|pages|))|);
  }

  lemma SuffixScanned(records: seq<PageResult>, k: nat)
    requires k < |records| && AllRecords(records)
    ensures FirstRejection(records[k..]) == None && (EndsInMiddle(records[k..]) <==> EndsInMiddle(records))
  {
    NoRejection(records[k..]);
  }

  // Opening a log of good pages adds a broken end after a last Middle page, and changes nothing else.
  lemma OpenedPages(files: Files, pages: seq<Page>, term: int) returns (s: WalState)
    requires ValidNumber(term) && Holds(files, pages, term) && Room(|pages|) && pages != []
    requires AllRecords(Readings(pages))
    ensures Initialized(files, 0, Closed) == Ready(s)
    ensures forall x :: x in Listing(s.files) ==> x in s.files
    ensures PagesIn(Listing(s.files), s.files) == pages + BrokenEnd(pages)
  {
    var last := LastOpened(files, pages, term);
    HeldPages(files, pages, term);
    s := Initialized(files, 0, Closed).state;
    GrownFiles(files, last, BrokenEnd(pages), s.files);
  }

  function BrokenEnd(pages: seq<Page>): seq<Page> {
    if EndsInMiddle(Readings(pages)) then [PageOf(BROKEN_RECORD)] else []
  }

  lemma GrownFiles(files: Files, last: string, extra: seq<Page>, files': Files)
    requires Listing(files) != [] && Listing(files)[|Listing(files)| - 1] == last && last in files
    requires files' == files[last := files[last] + extra]
    ensures forall x :: x in Listing(files') ==> x in files'
    ensures PagesIn(Listing(files'), files') == PagesIn(Listing(files), files) + extra
  {
    SameListing(files, last, files[last] + extra);
    PagesInGrown(Listing(files), files, last, extra);
  }

  lemma LastOpened(files: Files, pages: seq<Page>, term: int) returns (last: string)
    requires ValidNumber(term) && Holds(files, pages, term) && Room(|pages|) && pages != []
    requires AllRecords(Readings(pages))
    ensures Listing(files) != [] && Listing(files)[|Listing(files)| - 1] == last && last in files
    ensures Initialized(files, 0, Closed).Ready?
            && Initialized(files, 0, Closed).state.files == files[last := files[last] + BrokenEnd(pages)]
  {
    last := Filename(term, FileCount(|pages|));
    LastChunk(pages, term);
    LastListed(files, pages, term);
    NameHeld(files, pages, term, FileCount(|pages|));
    LastFileScanned(pages);
    OpensAs(files, Listing(files), last);
    OpenedWith(files, last, BrokenEnd(pages));
  }

  lemma OpenedWith(files: Files, last: string, extra: seq<Page>)
    requires last in files && WalFilename(last).Parsed? && files[last] != []
    requires FirstRejection(Readings(files[last])) == None
    requires extra == if EndsInMiddle(Readings(files[last])) then [PageOf(BROKEN_RECORD)] else []
    ensures var r := LastFileOpened(files, 0, last);
            r.Ready? && r.state.files == files[last := files[last] + extra]
  {
    assert Repaired(files[last]) == files[last] + extra;
  }

  lemma OpensAs(files: Files, names: seq<string>, last: string)
    requires Listing(files) == names && names != [] && names[|names| - 1] == last
    requires last in files && WalFilename(last).Parsed?
    ensures Initialized(files, 0, Closed) == LastFileOpened(files, 0, last)
  {
    InitializedBy(files, 0, Closed, names);
  }

  lemma BrokenReadBack()
    ensures Readings([PageOf(BROKEN_RECORD)]) == [BROKEN_RECORD]
  {
    RecordReadBack([], BROKEN_END);
    assert [PageOf(BROKEN_RECORD)][1..] == [];
  }

  lemma PagesOfPrefix(fragments: seq<Fragment>, k: nat)
    requires k <= |fragments|
    ensures PagesOf(fragments)[..k] == PagesOf(fragments[..k])
    decreases k
  {
    if k > 0 {
      PagesOfPrefix(fragments[1..], k - 1);
      assert fragments[..k][1..] == fragments[1..][..k - 1];
    }
  }

  function CutPages(entries: seq<ByteString>, cut: ByteString, k: nat): seq<Page>
    requires k <= |EntryPages(cut)|
  {
    AllPages(entries) + EntryPages(cut)[..k]
  }

  lemma CutReadings(entries: seq<ByteString>, cut: ByteString, k: nat)
    requires |cut| > RECORD_MAX && 1 <= k < PageCount(|cut|)
    ensures k <= |EntryPages(cut)| && k <= |Fragments(cut)|
    ensures Readings(CutPages(entries, cut, k)) == AllFragments(entries) + Fragments(cut)[..k]
  {
    FragmentsFit(cut);
    PagesOfPrefix(Fragments(cut), k);
    ReadingsOfPages(Fragments(cut)[..k]);
    PagesGiveEntries(entries);
    ReadingsConcat(AllPages(entries), EntryPages(cut)[..k]);
  }

  lemma CutEndsInMiddle(entries: seq<ByteString>, cut: ByteString, k: nat)
    requires |cut| > RECORD_MAX && 1 <= k < PageCount(|cut|) && k <= |EntryPages(cut)|
    ensures AllRecords(Readings(CutPages(entries, cut, k)))
    ensures EndsInMiddle(Readings(CutPages(entries, cut, k))) <==> k >= 2
  {
    CutReadings(entries, cut, k);
    CutKinds(cut, k);
    var records := AllFragments(entries) + Fragments(cut)[..k];
    assert records[|records| - 1] == Fragments(cut)[k - 1];
    if k >= 2 {
      assert Fragments(cut)[1..k][k - 2] == Fragments(cut)[k - 1];
    }
  }

  // The files of complete entries and the first k pages of a longer one, opened again: they group to exactly the
  // complete entries if and only if k is at least 2.
  lemma ReopenedCutLog(files: Files, entries: seq<ByteString>, cut: ByteString, k: nat, term: int) returns (s: WalState)
    requires |cut| > RECORD_MAX && 1 <= k < PageCount(|cut|) && k <= |EntryPages(cut)|
    requires ValidNumber(term) && Holds(files, CutPages(entries, cut, k), term) && Room(|CutPages(entries, cut, k)|)
    ensures Initialized(files, 0, Closed) == Ready(s)
    ensures forall x :: x in Listing(s.files) ==> x in s.files
    ensures Reassemble(Nothing, Readings(PagesIn(Listing(s.files), s.files))) == Entries(entries) <==> k >= 2
  {
    var pages := CutPages(entries, cut, k);
    CutEndsInMiddle(entries, cut, k);
    s := OpenedPages(files, pages, term);
    CutReopens(entries, cut, k);
  }

  lemma CutReopens(entries: seq<ByteString>, cut: ByteString, k: nat)
    requires |cut| > RECORD_MAX && 1 <= k < PageCount(|cut|) && k <= |EntryPages(cut)|
    ensures var pages := CutPages(entries, cut, k);
            Reassemble(Nothing, Readings(pages + BrokenEnd(pages))) == if k >= 2 then Entries(entries) else Broken
  {
    RepairedReadings(entries, cut, k);
    CutLogGroups(entries, cut, k, []);
    assert RepairedCut(cut, k) + AllFragments([]) == RepairedCut(cut, k);
    assert entries + [] == entries;
  }

  lemma RepairedReadings(entries: seq<ByteString>, cut: ByteString, k: nat)
    requires |cut| > RECORD_MAX && 1 <= k < PageCount(|cut|) && k <= |EntryPages(cut)|
    ensures k <= |Fragments(cut)|
    ensures var pages := CutPages(entries, cut, k);
            Readings(pages + BrokenEnd(pages)) == AllFragments(entries) + RepairedCut(cut, k)
  {
    var pages := CutPages(entries, cut, k);
    CutReadings(entries, cut, k);
    CutEndsInMiddle(entries, cut, k);
    ReadingsConcat(pages, BrokenEnd(pages));
    if k >= 2 {
      BrokenReadBack();
    }
    Reassociate(AllFragments(entries), Fragments(cut)[..k], if k >= 2 then [BROKEN_RECORD] else []);
  }

  lemma Reassociate<T>(a: seq<T>, b: seq<T>, c: seq<T>)
    ensures a + b + c == a + (b + c)
  {
  }
}
