// Entries of any length, cut into the tagged fragments that the log stores one to a page.
module WalEntries {
  import opened Bytes
  import opened WalPage

  type Fragment = r: PageResult | r.Record? witness Record(WHOLE, [])

  // The tag of the fragment that starts at offset, in the order in which the writer decides it.
  function KindAt(entry: ByteString, offset: nat): byte {
    if offset + RECORD_MAX >= |entry| then END
    else if offset == 0 then START
    else MIDDLE
  }

  function FragmentsFrom(entry: ByteString, offset: nat): (fragments: seq<Fragment>)
    requires offset < |entry|
    decreases |entry| - offset
  {
    if offset + RECORD_MAX >= |entry| then [Record(END, entry[offset..])]
    else [Record(KindAt(entry, offset), entry[offset..offset + RECORD_MAX])] + FragmentsFrom(entry, offset + RECORD_MAX)
  }

  function Fragments(entry: ByteString): seq<Fragment> {
    if |entry| <= RECORD_MAX then [Record(WHOLE, entry)] else FragmentsFrom(entry, 0)
  }

  function AllFragments(entries: seq<ByteString>): seq<Fragment> {
    if entries == [] then [] else Fragments(entries[0]) + AllFragments(entries[1..])
  }

  // ---- the reader's side: (Whole | Start Middle* (End | BrokenEnd))* ----

  datatype Parse = Entries(entries: seq<ByteString>) | Broken

  // `open` is what has been collected of an entry whose Start has been seen. A broken end makes that invalid.
  datatype Collected = Nothing | Prefix(data: ByteString)

  function Put(entry: ByteString, rest: Parse): Parse {
    if rest.Entries? then Entries([entry] + rest.entries) else Broken
  }

  function Reassemble(open: Collected, records: seq<PageResult>): Parse
    decreases records
  {
    if records == [] then (if open.Nothing? then Entries([]) else Broken)
    else
      var rest := records[1..];
      match records[0]
      case Rejected(_) => Broken
      case Record(kind, data) =>
        if open.Nothing? then
          if kind == WHOLE then Put(data, Reassemble(Nothing, rest))
          else if kind == START then Reassemble(Prefix(data), rest)
          else Broken
        else
          if kind == MIDDLE then Reassemble(Prefix(open.data + data), rest)
          else if kind == END then Put(open.data + data, Reassemble(Nothing, rest))
          else if kind == BROKEN_END then Reassemble(Nothing, rest)
          else Broken
  }

  lemma {:induction false} ReassembleRest(entry: ByteString, offset: nat, rest: seq<PageResult>)
    requires 0 < offset < |entry|
    ensures Reassemble(Prefix(entry[..offset]), FragmentsFrom(entry, offset) + rest) == Put(entry, Reassemble(Nothing, rest))
    decreases |entry| - offset
  {
    var fragments := FragmentsFrom(entry, offset);
    assert (fragments + rest)[0] == fragments[0];
    assert (fragments + rest)[1..] == fragments[1..] + rest;
    if offset + RECORD_MAX >= |entry| {
      assert entry[..offset] + entry[offset..] == entry;
      assert fragments[1..] + rest == rest;
    } else {
      assert entry[..offset] + entry[offset..offset + RECORD_MAX] == entry[..offset + RECORD_MAX];
      ReassembleRest(entry, offset + RECORD_MAX, rest);
    }
  }

  lemma ReassembleEntry(entry: ByteString, rest: seq<PageResult>)
    ensures Reassemble(Nothing, Fragments(entry) + rest) == Put(entry, Reassemble(Nothing, rest))
  {
    var fragments := Fragments(entry);
    assert (fragments + rest)[0] == fragments[0];
    assert (fragments + rest)[1..] == fragments[1..] + rest;
    if |entry| <= RECORD_MAX {
      assert fragments[1..] + rest == rest;
    } else {
      assert entry[..RECORD_MAX] == entry[0..RECORD_MAX];
      ReassembleRest(entry, RECORD_MAX, rest);
    }
  }

  // Grouping the tags gives back the entries, whatever their lengths.
  lemma {:induction false} ReassembleAll(entries: seq<ByteString>)
    ensures Reassemble(Nothing, AllFragments(entries)) == Entries(entries)
  {
    if entries != [] {
      ReassembleEntry(entries[0], AllFragments(entries[1..]));
      ReassembleAll(entries[1..]);
    }
  }

  // ---- fragments fit their pages, and how many there are ----

  function PageCount(length: nat): nat {
    if length == 0 then 1 else (length + RECORD_MAX - 1) / RECORD_MAX
  }

  predicate EntryKind(kind: byte) {
    kind == WHOLE || kind == START || kind == MIDDLE || kind == END
  }

  predicate Fits(f: Fragment) {
    |f.data| <= RECORD_MAX && EntryKind(f.kind)
  }

  lemma {:induction false} FragmentsFromCount(entry: ByteString, offset: nat)
    requires offset < |entry|
    ensures |FragmentsFrom(entry, offset)| == PageCount(|entry| - offset)
    ensures FragmentsFrom(entry, offset)[|FragmentsFrom(entry, offset)| - 1].kind == END
    decreases |entry| - offset
  {
    if offset + RECORD_MAX < |entry| {
      FragmentsFromCount(entry, offset + RECORD_MAX);
    }
  }

  lemma {:induction false} FragmentsFromFit(entry: ByteString, offset: nat)
    requires offset < |entry|
    ensures forall i :: 0 <= i < |FragmentsFrom(entry, offset)| ==> Fits(FragmentsFrom(entry, offset)[i])
    decreases |entry| - offset
  {
    if offset + RECORD_MAX < |entry| {
      FragmentsFromFit(entry, offset + RECORD_MAX);
    }
  }

  // An entry of n bytes takes max(1, ceil(n / 4088)) pages, and its last page is Whole or End.
  lemma FragmentsFit(entry: ByteString)
    ensures |Fragments(entry)| == PageCount(|entry|)
    ensures forall i :: 0 <= i < |Fragments(entry)| ==> Fits(Fragments(entry)[i])
    ensures Fragments(entry)[|Fragments(entry)| - 1].kind in {WHOLE, END}
  {
    if |entry| > RECORD_MAX {
      FragmentsFromCount(entry, 0);
      FragmentsFromFit(entry, 0);
    }
  }

  // ---- pages ----

  function PageOf(f: Fragment): Page {
    EncodePage(f.data, f.kind)
  }

  function PagesOf(fragments: seq<Fragment>): (pages: seq<Page>)
    ensures |pages| == |fragments|
  {
    if fragments == [] then [] else [PageOf(fragments[0])] + PagesOf(fragments[1..])
  }

  lemma {:induction false} PagesOfSnoc(fragments: seq<Fragment>, f: Fragment)
    ensures PagesOf(fragments + [f]) == PagesOf(fragments) + [PageOf(f)]
    decreases |fragments|
  {
    if fragments == [] {
      assert fragments + [f] == [f] && [f][1..] == [];
    } else {
      assert (fragments + [f])[1..] == fragments[1..] + [f];
      PagesOfSnoc(fragments[1..], f);
    }
  }

  function EntryPages(entry: ByteString): seq<Page> {
    PagesOf(Fragments(entry))
  }

  function AllPages(entries: seq<ByteString>): seq<Page> {
    if entries == [] then [] else EntryPages(entries[0]) + AllPages(entries[1..])
  }

  lemma ReadingsOne(f: Fragment, rest: seq<Page>)
    requires Fits(f)
    ensures Readings([PageOf(f)] + rest) == [f] + Readings(rest)
  {
    RecordReadBack(f.data, f.kind);
    assert ([PageOf(f)] + rest)[1..] == rest;
  }

  lemma {:induction false} ReadingsOfPages(fragments: seq<Fragment>)
    requires forall i :: 0 <= i < |fragments| ==> Fits(fragments[i])
    ensures Readings(PagesOf(fragments)) == fragments
  {
    if fragments != [] {
      ReadingsOne(fragments[0], PagesOf(fragments[1..]));
      ReadingsOfPages(fragments[1..]);
    }
  }

  // The pages of a list of entries give back exactly that list.
  lemma {:induction false} PagesGiveEntries(entries: seq<ByteString>)
    ensures Readings(AllPages(entries)) == AllFragments(entries)
    ensures Reassemble(Nothing, Readings(AllPages(entries))) == Entries(entries)
  {
    if entries != [] {
      FragmentsFit(entries[0]);
      ReadingsOfPages(Fragments(entries[0]));
      ReadingsConcat(EntryPages(entries[0]), AllPages(entries[1..]));
      PagesGiveEntries(entries[1..]);
    }
    ReassembleAll(entries);
  }

  // So a log cannot be read in two ways.
  lemma PagesInjective(a: seq<ByteString>, b: seq<ByteString>)
    requires AllPages(a) == AllPages(b)
    ensures a == b
  {
    PagesGiveEntries(a);
    PagesGiveEntries(b);
  }
}
