// One page of the write-ahead log: how it is filled, how it is read back, and what damage is noticed.
module WalPage {
  import opened Bytes
  import Crc32

  const PAGE_SIZE: nat := 4096
  const RECORD_HEADER_SIZE: nat := 8
  const RECORD_MAX: nat := PAGE_SIZE - RECORD_HEADER_SIZE

  const ENTRY_HEADER: byte := 0xa0
  const ENTRY_TYPE_MASK: byte := 0x0f

  const WHOLE: byte := 0x09
  const START: byte := 0x0a
  const MIDDLE: byte := 0x0b
  const END: byte := 0x0c
  const BROKEN_END: byte := 0x0d

  type Page = p: ByteString | |p| == PAGE_SIZE witness seq(PAGE_SIZE, _ => 0)

  datatype PageError =
    | ChecksumMismatch
    | LengthExceeded
    | SliceOutOfRange // a run-time panic in the program

  // A readable page always holds exactly one record.
  datatype PageResult = Record(kind: byte, data: ByteString) | Rejected(error: PageError)

  function Zeroes(n: nat): (s: ByteString)
    ensures |s| == n
  {
    seq(n, _ => 0)
  }

  // The bytes of dat that the page has room for.
  function Stored(dat: ByteString): (s: ByteString)
    ensures |s| <= RECORD_MAX
  {
    if |dat| <= RECORD_MAX then dat else dat[..RECORD_MAX]
  }

  // The page before its checksum is filled in.
  function Unchecked(dat: ByteString, kind: byte): Page {
    [ENTRY_HEADER | kind] + BigEndian(|dat|, 2) + Zeroes(5) + Stored(dat) + Zeroes(RECORD_MAX - |Stored(dat)|)
  }

  function WithChecksum(page: Page, checksum: ByteString): Page
    requires |checksum| == 4
  {
    page[..3] + checksum + page[7..]
  }

  function Blanked(page: Page): Page {
    WithChecksum(page, Zeroes(4))
  }

  function EncodePage(dat: ByteString, kind: byte): Page {
    var page := Unchecked(dat, kind);
    WithChecksum(page, BigEndian32(Crc32.Checksum(page)))
  }

  function LengthField(page: Page): (n: nat)
    ensures n < 0x1_0000
  {
    assert Power256(2) == 0x1_0000;
    FromBigEndian(page[1..3])
  }

  predicate ChecksumHolds(page: Page) {
    Crc32.Checksum(Blanked(page)) == FromBigEndian32(page[3..7])
  }

  // Sums with the length field are taken in sixteen bits.
  function DecodePage(page: Page): PageResult {
    if !ChecksumHolds(page) then Rejected(ChecksumMismatch)
    else
      var end := (LengthField(page) + RECORD_HEADER_SIZE) % 0x1_0000;
      if end > PAGE_SIZE then Rejected(LengthExceeded)
      else if end < RECORD_HEADER_SIZE then Rejected(SliceOutOfRange)
      else Record(page[0] & ENTRY_TYPE_MASK, page[RECORD_HEADER_SIZE..end])
  }

  // The records of a run of pages, in order.
  function Readings(pages: seq<Page>): (records: seq<PageResult>)
    ensures |records| == |pages|
  {
    if pages == [] then [] else [DecodePage(pages[0])] + Readings(pages[1..])
  }

  lemma {:induction false} ReadingsAt(pages: seq<Page>, i: nat)
    requires i < |pages|
    ensures Readings(pages)[i] == DecodePage(pages[i])
  {
    if i > 0 {
      ReadingsAt(pages[1..], i - 1);
    }
  }

  lemma {:induction false} ReadingsConcat(a: seq<Page>, b: seq<Page>)
    ensures Readings(a + b) == Readings(a) + Readings(b)
    decreases |a|
  {
    if a == [] {
      assert a + b == b;
    } else {
      assert (a + b)[0] == a[0] && (a + b)[1..] == a[1..] + b;
      ReadingsConcat(a[1..], b);
    }
  }

  method PrepareDataBufByPage(dat: ByteString, kind: byte) returns (buf: array<byte>)
    ensures fresh(buf) && buf[..] == EncodePage(dat, kind)
  {
    buf := new byte[PAGE_SIZE](_ => 0);
    FillUnchecked(buf, dat, kind);
    var checksum := BigEndian32(Crc32.Checksum(buf[..]));
    PutChecksum(buf, checksum);
  }

  method FillUnchecked(buf: array<byte>, dat: ByteString, kind: byte)
    requires buf.Length == PAGE_SIZE && buf[..] == Zeroes(PAGE_SIZE)
    modifies buf
    ensures buf[..] == Unchecked(dat, kind)
  {
    assert forall k :: 0 <= k < PAGE_SIZE ==> buf[k] == buf[..][k] == 0;
    buf[0] := ENTRY_HEADER | kind;
    PutUint16(buf, |dat|);
    assert buf[..8] == [ENTRY_HEADER | kind] + BigEndian(|dat|, 2) + Zeroes(5);
    var data := Stored(dat);
    assert buf[8 + |data|..] == Zeroes(RECORD_MAX - |data|);
    CopyInto(buf, data);
    assert buf[..] == buf[..8] + buf[8..8 + |data|] + buf[8 + |data|..];
  }

  method PutUint16(buf: array<byte>, n: nat)
    requires buf.Length == PAGE_SIZE
    modifies buf
    ensures buf[1..3] == BigEndian(n, 2)
    ensures forall k :: 0 <= k < PAGE_SIZE && k != 1 && k != 2 ==> buf[k] == old(buf[k])
  {
    var field := BigEndian(n, 2);
    buf[1], buf[2] := field[0], field[1];
  }

  // Go's copy into buf[8:].
  method CopyInto(buf: array<byte>, data: ByteString)
    requires buf.Length == PAGE_SIZE && |data| <= RECORD_MAX
    modifies buf
    ensures buf[..RECORD_HEADER_SIZE] == old(buf[..RECORD_HEADER_SIZE])
    ensures buf[RECORD_HEADER_SIZE..RECORD_HEADER_SIZE + |data|] == data
    ensures buf[RECORD_HEADER_SIZE + |data|..] == old(buf[RECORD_HEADER_SIZE + |data|..])
  {
    var i := 0;
    while i < |data|
      invariant i <= |data|
      invariant forall k :: 0 <= k < RECORD_HEADER_SIZE ==> buf[k] == old(buf[k])
      invariant forall k :: 0 <= k < i ==> buf[RECORD_HEADER_SIZE + k] == data[k]
      invariant forall k :: RECORD_HEADER_SIZE + i <= k < PAGE_SIZE ==> buf[k] == old(buf[k])
    {
      buf[RECORD_HEADER_SIZE + i] := data[i];
      i := i + 1;
    }
  }

  method PutChecksum(buf: array<byte>, checksum: ByteString)
    requires buf.Length == PAGE_SIZE && |checksum| == 4
    modifies buf
    ensures buf[..] == WithChecksum(old(buf[..]), checksum)
  {
    buf[3], buf[4], buf[5], buf[6] := checksum[0], checksum[1], checksum[2], checksum[3];
  }

  lemma UncheckedBytes(dat: ByteString, kind: byte)
    ensures var page := Unchecked(dat, kind); var n := |Stored(dat)|;
            && page[0] == ENTRY_HEADER | kind
            && page[1..3] == BigEndian(|dat|, 2)
            && (forall k :: 3 <= k < 8 ==> page[k] == 0)
            && page[8..8 + n] == Stored(dat)
            && (forall k :: 8 + n <= k < PAGE_SIZE ==> page[k] == 0)
  {
  }

  // Reads the record of a page; the checksum field of the caller's buffer is cleared on the way.
  method PageRecordsInfo(buf: array<byte>) returns (r: PageResult)
    requires buf.Length == PAGE_SIZE
    modifies buf
    ensures r == DecodePage(old(buf[..]))
    ensures buf[..] == Blanked(old(buf[..]))
  {
    ghost var page := buf[..];
    var crc32dat := buf[3..7];
    assert crc32dat == page[3..7];
    PutChecksum(buf, Zeroes(4));
    assert buf[..] == Blanked(page);
    KeptByBlanking(page);
    assert buf[1..3] == page[1..3] && buf[0] == page[0];
    if Crc32.Checksum(buf[..]) != FromBigEndian32(crc32dat) {
      return Rejected(ChecksumMismatch);
    }
    var length := FromBigEndian(buf[1..3]);
    var end := (length + RECORD_HEADER_SIZE) % 0x1_0000;
    if end > PAGE_SIZE {
      return Rejected(LengthExceeded);
    }
    if end < RECORD_HEADER_SIZE {
      return Rejected(SliceOutOfRange);
    }
    assert buf[RECORD_HEADER_SIZE..end] == Blanked(page)[RECORD_HEADER_SIZE..][..end - RECORD_HEADER_SIZE];
    assert page[RECORD_HEADER_SIZE..end] == page[RECORD_HEADER_SIZE..][..end - RECORD_HEADER_SIZE];
    r := Record(buf[0] & ENTRY_TYPE_MASK, buf[RECORD_HEADER_SIZE..end]);
  }

  // Clearing the checksum field leaves everything else.
  lemma KeptByBlanking(page: Page)
    ensures Blanked(page)[0] == page[0] && Blanked(page)[1..3] == page[1..3]
    ensures Blanked(page)[RECORD_HEADER_SIZE..] == page[RECORD_HEADER_SIZE..]
  {
  }

  // ---- reading back what was written ----

  lemma EncodedChecksumHolds(dat: ByteString, kind: byte)
    ensures ChecksumHolds(EncodePage(dat, kind))
    ensures Blanked(EncodePage(dat, kind)) == Unchecked(dat, kind)
  {
    var page := Unchecked(dat, kind);
    var checksum := BigEndian32(Crc32.Checksum(page));
    assert EncodePage(dat, kind)[3..7] == checksum;
    assert Blanked(EncodePage(dat, kind)) == page;
    BigEndian32RoundTrip(Crc32.Checksum(page));
  }

  lemma EncodedFields(dat: ByteString, kind: byte)
    requires |dat| <= RECORD_MAX
    ensures var page := EncodePage(dat, kind);
            && LengthField(page) == |dat|
            && page[0] & ENTRY_TYPE_MASK == kind & ENTRY_TYPE_MASK
            && page[8..8 + |dat|] == dat
  {
    var page, unchecked := EncodePage(dat, kind), Unchecked(dat, kind);
    UncheckedBytes(dat, kind);
    HeaderNibble(kind);
    assert page[..3] == unchecked[..3] && page[7..] == unchecked[7..];
    assert page[0] == unchecked[0];
    assert page[1..3] == page[..3][1..] == BigEndian(|dat|, 2);
    assert page[8..8 + |dat|] == unchecked[8..8 + |dat|];
    assert Power256(2) == 0x1_0000;
    BigEndianRoundTrip(|dat|, 2);
  }

  lemma HeaderNibble(kind: byte)
    ensures (ENTRY_HEADER | kind) & ENTRY_TYPE_MASK == kind & ENTRY_TYPE_MASK
  {
  }

  lemma RecordReadBack(dat: ByteString, kind: byte)
    requires |dat| <= RECORD_MAX
    ensures DecodePage(EncodePage(dat, kind)) == Record(kind & ENTRY_TYPE_MASK, dat)
  {
    EncodedChecksumHolds(dat, kind);
    EncodedFields(dat, kind);
    ReadsRecord(EncodePage(dat, kind), |dat|);
  }

  lemma ReadsRecord(page: Page, length: nat)
    requires ChecksumHolds(page) && LengthField(page) == length <= RECORD_MAX
    ensures DecodePage(page) == Record(page[0] & ENTRY_TYPE_MASK, page[8..8 + length])
  {
  }

  lemma RecordBound(page: Page)
    ensures DecodePage(page).Record? ==> |DecodePage(page).data| <= RECORD_MAX
  {
  }

  // A page gives its record back exactly when the record fits.
  lemma PageRoundTrip(dat: ByteString, kind: byte)
    ensures DecodePage(EncodePage(dat, kind)) == Record(kind & ENTRY_TYPE_MASK, dat) <==> |dat| <= RECORD_MAX
  {
    if |dat| <= RECORD_MAX {
      RecordReadBack(dat, kind);
    } else {
      RecordBound(EncodePage(dat, kind));
    }
  }

  // The sixteen-bit sum lets the eight largest length fields past the check, into a panic.
  lemma SlicePanics(page: Page)
    ensures DecodePage(page) == Rejected(SliceOutOfRange) <==> ChecksumHolds(page) && LengthField(page) >= 0x1_0000 - 8
  {
  }

  // Such a page exists: it is what becomes of 65535 bytes, more than the writer ever passes.
  lemma OverlongPagePanics(dat: ByteString, kind: byte)
    requires |dat| == 0xffff
    ensures ChecksumHolds(EncodePage(dat, kind)) && DecodePage(EncodePage(dat, kind)) == Rejected(SliceOutOfRange)
  {
    var page, unchecked := EncodePage(dat, kind), Unchecked(dat, kind);
    EncodedChecksumHolds(dat, kind);
    assert page[..3] == unchecked[..3];
    assert page[1..3] == page[..3][1..] == BigEndian(|dat|, 2);
    assert Power256(2) == 0x1_0000;
    BigEndianRoundTrip(|dat|, 2);
    SlicePanics(page);
  }

  // ---- damage ----

  predicate ConfinedTo(page: Page, damaged: Page, from: nat, to: nat) {
    from <= to <= PAGE_SIZE && page[..from] == damaged[..from] && page[to..] == damaged[to..]
  }

  // Damage to a good page inside at most four adjacent bytes, all of them in the checksum field or
  // none of them, is always noticed.
  lemma DamageNoticed(page: Page, damaged: Page, from: nat, to: nat)
    requires ChecksumHolds(page) && page != damaged
    requires ConfinedTo(page, damaged, from, to) && to - from <= 4
    requires to <= 3 || 7 <= from || (3 <= from && to <= 7)
    ensures DecodePage(damaged) == Rejected(ChecksumMismatch)
  {
    if 3 <= from && to <= 7 {
      DamagedChecksumField(page, damaged, from, to);
    } else {
      DamagedContents(page, damaged, from, to);
    }
  }

  lemma DamagedChecksumField(page: Page, damaged: Page, from: nat, to: nat)
    requires ChecksumHolds(page) && page != damaged
    requires ConfinedTo(page, damaged, from, to) && 3 <= from && to <= 7
    ensures !ChecksumHolds(damaged)
  {
    assert page[..3] == page[..from][..3] == damaged[..from][..3] == damaged[..3];
    assert page[7..] == page[to..][7 - to..] == damaged[to..][7 - to..] == damaged[7..];
    assert page == WithChecksum(page, page[3..7]) && damaged == WithChecksum(damaged, damaged[3..7]);
    if page[3..7] != damaged[3..7] {
      if FromBigEndian32(page[3..7]) == FromBigEndian32(damaged[3..7]) {
        FromBigEndian32Injective(page[3..7], damaged[3..7]);
      }
    }
  }

  // Outside the damage, and outside the checksum field, nothing differs.
  lemma SameElsewhere(page: Page, damaged: Page, from: nat, to: nat, k: nat)
    requires ConfinedTo(page, damaged, from, to) && k < PAGE_SIZE && !(from <= k < to)
    ensures page[k] == damaged[k] && Blanked(page)[k] == Blanked(damaged)[k]
  {
    if k < from {
      assert page[..from][k] == damaged[..from][k];
    } else {
      assert page[to..][k - to] == damaged[to..][k - to];
    }
    BlankedAt(page, k);
    BlankedAt(damaged, k);
  }

  lemma BlankedAt(page: Page, k: nat)
    requires k < PAGE_SIZE
    ensures Blanked(page)[k] == if 3 <= k < 7 then 0 else page[k]
  {
  }

  lemma DamagedContents(page: Page, damaged: Page, from: nat, to: nat)
    requires ChecksumHolds(page) && page != damaged
    requires ConfinedTo(page, damaged, from, to) && to - from <= 4
    requires to <= 3 || 7 <= from
    ensures !ChecksumHolds(damaged)
  {
    var at := if from + 4 <= PAGE_SIZE then from else PAGE_SIZE - 4;
    var p, d := Blanked(page), Blanked(damaged);
    forall k | 0 <= k < PAGE_SIZE && !(from <= k < to) ensures page[k] == damaged[k] && p[k] == d[k] {
      SameElsewhere(page, damaged, from, to, k);
    }
    var k :| 0 <= k < PAGE_SIZE && page[k] != damaged[k];
    BlankedAt(page, k);
    BlankedAt(damaged, k);
    SamePieces(p, d, at);
    Crc32.FourByteDamageChangesChecksum(p, d, at);
    assert page[3..7] == damaged[3..7];
  }

  lemma SamePieces(p: Page, d: Page, at: nat)
    requires at + 4 <= PAGE_SIZE && forall k :: 0 <= k < PAGE_SIZE && !(at <= k < at + 4) ==> p[k] == d[k]
    ensures p[..at] == d[..at] && p[at + 4..] == d[at + 4..]
  {
  }
}
