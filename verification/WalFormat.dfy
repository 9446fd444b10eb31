// The format of the log, byte by byte and in numbers: what stands where in a page, when a page can be read, how an
// entry is cut, and how large files get.
module WalFormat {
  import opened Bytes
  import Crc32
  import opened WalPage
  import opened WalEntries
  import opened WalNames
  import opened DiskWal
  import opened WalRuns

  // ---- one page ----

  // The page with its checksum field cleared.
  function Cleared(page: Page): Page {
    page[..3] + [0, 0, 0, 0] + page[7..]
  }

  lemma TagBytes()
    ensures ENTRY_HEADER | WHOLE == 0xa9 && ENTRY_HEADER | START == 0xaa && ENTRY_HEADER | MIDDLE == 0xab
    ensures ENTRY_HEADER | END == 0xac && ENTRY_HEADER | BROKEN_END == 0xad
  {
  }

  // What the program writes for some data: 4096 bytes, of which the first tells the tag, two the length, four the
  // CRC-32 of the page without them, one is zero, and the rest is the data, as far as it fits, and zeros.
  lemma PageLayout(dat: ByteString, kind: byte)
    ensures var page := EncodePage(dat, kind);
            && |page| == 4096
            && page[1] as nat == |dat| / 256 % 256 && page[2] as nat == |dat| % 256
            && page[3..7] == BigEndian32(Crc32.Checksum(Cleared(page))) && page[7] == 0
            && (forall k :: 8 <= k < 4096 ==> page[k] == if k - 8 < |dat| then dat[k - 8] else 0)
    ensures kind == WHOLE ==> EncodePage(dat, kind)[0] == 0xa9
    ensures kind == START ==> EncodePage(dat, kind)[0] == 0xaa
    ensures kind == MIDDLE ==> EncodePage(dat, kind)[0] == 0xab
    ensures kind == END ==> EncodePage(dat, kind)[0] == 0xac
    ensures kind == BROKEN_END ==> EncodePage(dat, kind)[0] == 0xad
  {
    var page, unchecked := EncodePage(dat, kind), Unchecked(dat, kind);
    TagBytes();
    UncheckedBytes(dat, kind);
    EncodedChecksumHolds(dat, kind);
    assert Cleared(page) == unchecked;
    assert page[..3] == unchecked[..3] && page[7..] == unchecked[7..];
    assert page[0] == unchecked[0] && page[1] == unchecked[1..3][0] && page[2] == unchecked[1..3][1];
    BigEndianAt(|dat|, 2, 0);
    BigEndianAt(|dat|, 2, 1);
    forall k | 8 <= k < 4096 ensures page[k] == if k - 8 < |dat| then dat[k - 8] else 0 {
      assert page[k] == page[7..][k - 7] == unchecked[k];
      if k - 8 < |Stored(dat)| {
        assert unchecked[k] == unchecked[8..8 + |Stored(dat)|][k - 8];
      }
    }
  }

  // The number in the length field, by its two bytes.
  function LengthBytes(page: Page): nat {
    256 * (page[1] as nat) + page[2] as nat
  }

  lemma LengthOfBytes(page: Page)
    ensures LengthField(page) == LengthBytes(page)
  {
    var s := page[1..3];
    assert s[..1] == [page[1]] && s[..1][..0] == [];
    assert FromBigEndian(s) == 256 * FromBigEndian(s[..1]) + s[1] as nat;
    assert FromBigEndian(s[..1]) == 256 * FromBigEndian([]) + page[1] as nat;
  }

  ghost predicate Intact(page: Page) {
    Crc32.Checksum(Cleared(page)) == FromBigEndian32(page[3..7])
  }

  lemma DecodedBy(page: Page, n: nat)
    requires LengthField(page) == n
    ensures DecodePage(page)
            == if !ChecksumHolds(page) then Rejected(ChecksumMismatch)
               else if n <= 4088 then Record(page[0] & 0x0f, page[8..8 + n])
               else if n < 65528 then Rejected(LengthExceeded)
               else Rejected(SliceOutOfRange)
  {
  }

  // What becomes of any 4096 bytes: they hold one record exactly if the checksum is right and the length is at most
  // 4088; a length from 4089 to 65527 is refused, and a longer one makes the program fail.
  lemma DecodedExactly(page: Page)
    ensures DecodePage(page) == Rejected(ChecksumMismatch) <==> !Intact(page)
    ensures DecodePage(page).Record? <==> Intact(page) && LengthBytes(page) <= 4088
    ensures DecodePage(page) == Rejected(LengthExceeded) <==> Intact(page) && 4088 < LengthBytes(page) < 65528
    ensures DecodePage(page) == Rejected(SliceOutOfRange) <==> Intact(page) && 65528 <= LengthBytes(page)
    ensures Intact(page) && LengthBytes(page) <= 4088 ==>
              DecodePage(page) == Record(page[0] & 0x0f, page[8..8 + LengthBytes(page)])
  {
    assert Cleared(page) == Blanked(page);
    LengthOfBytes(page);
    DecodedBy(page, LengthBytes(page));
  }

  // ---- one entry ----

  // The tags and the data of all the pages of an entry, by their places.
  lemma {:induction false} FragmentsAt(entry: ByteString, i: nat)
    ensures |entry| <= 4088 ==> Fragments(entry) == [Record(WHOLE, entry)]
    ensures |entry| > 4088 ==> |Fragments(entry)| == (|entry| + 4087) / 4088
    ensures |entry| > 4088 && i < (|entry| + 4087) / 4088 ==>
              var end := if 4088 * (i + 1) < |entry| then 4088 * (i + 1) else |entry|;
              Fragments(entry)[i]
              == Record(if end == |entry| then END else if i == 0 then START else MIDDLE, entry[4088 * i..end])
  {
    if |entry| > 4088 {
      FragmentsFromCount(entry, 0);
      if i < (|entry| + 4087) / 4088 {
        FragmentsFromAt(entry, 0, i, 4088 * i);
      }
    }
  }

  // The fragment that begins at this place.
  function FragmentAt(entry: ByteString, from: nat): Fragment
    requires from < |entry|
  {
    Record(KindAt(entry, from), entry[from..if from + RECORD_MAX < |entry| then from + RECORD_MAX else |entry|])
  }

  lemma FirstOfRest(entry: ByteString, offset: nat)
    requires offset < |entry|
    ensures FragmentsFrom(entry, offset) != [] && FragmentsFrom(entry, offset)[0] == FragmentAt(entry, offset)
    ensures offset + RECORD_MAX < |entry| ==>
              FragmentsFrom(entry, offset)[1..] == FragmentsFrom(entry, offset + RECORD_MAX)
  {
    assert entry[offset..|entry|] == entry[offset..];
  }

  lemma {:induction false} FragmentsFromAt(entry: ByteString, offset: nat, i: nat, from: nat)
    requires from == offset + RECORD_MAX * i && from < |entry|
    ensures i < |FragmentsFrom(entry, offset)| && FragmentsFrom(entry, offset)[i] == FragmentAt(entry, from)
    decreases i
  {
    FirstOfRest(entry, offset);
    if i > 0 {
      FragmentsFromAt(entry, offset + RECORD_MAX, i - 1, from);
      assert FragmentsFrom(entry, offset)[i] == FragmentsFrom(entry, offset)[1..][i - 1];
    }
  }

  // ---- files and positions ----

  // In numbers: a file of at most 1 GiB has 262144 pages, and the positions of the first pages count from (1, 1, 1).
  lemma PositionNumbers(term: int, n: nat)
    requires n >= 1
    ensures PositionAfter(term, n) == SequenceId(term, (n - 1) / 262144 + 1, (n - 1) % 262144 + 1)
    ensures FileCount(n) == (n - 1) / 262144 + 1
    ensures START_WAL_SEQUENCE == PositionAfter(1, 1) == SequenceId(1, 1, 1)
  {
  }
}
