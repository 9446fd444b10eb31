// The encoding (RFC 8949) of the two records that the store keeps: a log entry and the version.
// The decoder accepts the layout that the encoder writes.
module Cbor {
  import opened Bytes
  import opened WalNames

  datatype Parsed<T> = Fail | Got(value: T, rest: ByteString)

  const UNSIGNED: nat := 0
  const NEGATIVE: nat := 1
  const BYTE_STRING: nat := 2

  function InitialByte(major: nat, info: nat): ByteString {
    [ToByte(32 * major + info)]
  }

  // The head of a data item: section 3 of RFC 8949.
  function Head(major: nat, n: nat): ByteString {
    if n < 24 then InitialByte(major, n)
    else if n < 0x100 then InitialByte(major, 24) + BigEndian(n, 1)
    else if n < 0x1_0000 then InitialByte(major, 25) + BigEndian(n, 2)
    else if n < 0x1_0000_0000 then InitialByte(major, 26) + BigEndian(n, 4)
    else InitialByte(major, 27) + BigEndian(n, 8)
  }

  function Argument(s: ByteString, width: nat): Parsed<nat> {
    if |s| < width then Fail else Got(FromBigEndian(s[..width]), s[width..])
  }

  function ArgumentWidth(info: nat): nat {
    if info == 24 then 1 else if info == 25 then 2 else if info == 26 then 4 else 8
  }

  function ParseHead(s: ByteString, major: nat): Parsed<nat> {
    if s == [] || (s[0] as nat) / 32 != major then Fail
    else
      var info := s[0] as nat % 32;
      if info < 24 then Got(info, s[1..])
      else if info <= 27 then Argument(s[1..], ArgumentWidth(info))
      else Fail
  }

  predicate Length64(n: nat) {
    n < 0x1_0000_0000_0000_0000
  }

  function EncodeBytes(b: ByteString): ByteString {
    Head(BYTE_STRING, |b|) + b
  }

  function ParseBytes(s: ByteString): Parsed<ByteString> {
    var head := ParseHead(s, BYTE_STRING);
    if head.Fail? || |head.rest| < head.value then Fail
    else Got(head.rest[..head.value], head.rest[head.value..])
  }

  function ParseLiteral(s: ByteString, literal: ByteString): Parsed<()> {
    if literal <= s then Got((), s[|literal|..]) else Fail
  }

  // ---- round trips, and parses that do not depend on what follows ----

  lemma ArgumentRoundTrip(n: nat, width: nat, rest: ByteString)
    requires n < Power256(width)
    ensures Argument(BigEndian(n, width) + rest, width) == Got(n, rest)
  {
    BigEndianRoundTrip(n, width);
    assert (BigEndian(n, width) + rest)[..width] == BigEndian(n, width);
    assert (BigEndian(n, width) + rest)[width..] == rest;
  }

  lemma MajorAndInfo(n: nat, major: nat, info: nat)
    requires n == 32 * major + info && info < 32
    ensures n / 32 == major && n % 32 == info
  {
  }

  lemma InitialByteParts(major: nat, info: nat, rest: ByteString)
    requires major < 8 && info < 32
    ensures var s := InitialByte(major, info) + rest;
            (s[0] as nat) / 32 == major && s[0] as nat % 32 == info && s[1..] == rest
  {
    var b := ToByte(32 * major + info);
    SmallModulus(32 * major + info, b as nat);
    assert InitialByte(major, info) == [b];
    FirstByteParts(b, major, info, rest);
  }

  lemma SmallModulus(n: nat, b: nat)
    requires n < 256 && b == n % 256
    ensures b == n
  {
  }

  lemma FirstByteParts(b: byte, major: nat, info: nat, rest: ByteString)
    requires b as nat == 32 * major + info && info < 32
    ensures (([b] + rest)[0] as nat) / 32 == major && ([b] + rest)[0] as nat % 32 == info && ([b] + rest)[1..] == rest
  {
    MajorAndInfo(b as nat, major, info);
  }

  lemma HeadRoundTrip(major: nat, n: nat, rest: ByteString)
    requires major < 8 && Length64(n)
    ensures ParseHead(Head(major, n) + rest, major) == Got(n, rest)
  {
    if n < 24 {
      InitialByteParts(major, n, rest);
    } else {
      var info, width := if n < 0x100 then 24 else if n < 0x1_0000 then 25 else if n < 0x1_0000_0000 then 26 else 27,
                         if n < 0x100 then 1 else if n < 0x1_0000 then 2 else if n < 0x1_0000_0000 then 4 else 8;
      assert Power256(1) == 0x100 && Power256(2) == 0x1_0000 && Power256(4) == 0x1_0000_0000;
      assert Power256(8) == 0x1_0000_0000_0000_0000;
      HeadWithArgument(major, info, width, n, rest);
    }
  }

  lemma HeadWithArgument(major: nat, info: nat, width: nat, n: nat, rest: ByteString)
    requires major < 8 && 24 <= info < 32 && n < Power256(width)
    ensures var s := InitialByte(major, info) + BigEndian(n, width) + rest;
            && (s[0] as nat) / 32 == major && s[0] as nat % 32 == info
            && Argument(s[1..], width) == Got(n, rest)
  {
    InitialByteParts(major, info, BigEndian(n, width) + rest);
    assert InitialByte(major, info) + BigEndian(n, width) + rest == InitialByte(major, info) + (BigEndian(n, width) + rest);
    ArgumentRoundTrip(n, width, rest);
  }

  lemma BytesRoundTrip(b: ByteString, rest: ByteString)
    requires Length64(|b|)
    ensures ParseBytes(EncodeBytes(b) + rest) == Got(b, rest)
  {
    assert EncodeBytes(b) + rest == Head(BYTE_STRING, |b|) + (b + rest);
    HeadRoundTrip(BYTE_STRING, |b|, b + rest);
  }

  lemma TakeExtends(s: ByteString, n: nat, more: ByteString)
    requires n <= |s|
    ensures (s + more)[..n] == s[..n] && (s + more)[n..] == s[n..] + more
  {
  }

  lemma ArgumentExtends(s: ByteString, width: nat, more: ByteString)
    requires Argument(s, width).Got?
    ensures Argument(s + more, width) == Got(Argument(s, width).value, Argument(s, width).rest + more)
  {
    TakeExtends(s, width, more);
  }

  lemma HeadExtends(s: ByteString, major: nat, more: ByteString)
    requires ParseHead(s, major).Got?
    ensures ParseHead(s + more, major) == Got(ParseHead(s, major).value, ParseHead(s, major).rest + more)
  {
    assert (s + more)[0] == s[0] && (s + more)[1..] == s[1..] + more;
    var info := s[0] as nat % 32;
    if info >= 24 {
      ArgumentExtends(s[1..], ArgumentWidth(info), more);
    }
  }

  lemma BytesExtend(s: ByteString, more: ByteString)
    requires ParseBytes(s).Got?
    ensures ParseBytes(s + more) == Got(ParseBytes(s).value, ParseBytes(s).rest + more)
  {
    HeadExtends(s, BYTE_STRING, more);
    var head := ParseHead(s, BYTE_STRING);
    TakeExtends(head.rest, head.value, more);
  }

  lemma LiteralExtends(s: ByteString, literal: ByteString, more: ByteString)
    requires ParseLiteral(s, literal).Got?
    ensures ParseLiteral(s + more, literal) == Got((), ParseLiteral(s, literal).rest + more)
  {
    assert (s + more)[..|literal|] == s[..|literal|];
  }

  lemma LiteralRoundTrip(literal: ByteString, rest: ByteString)
    ensures ParseLiteral(literal + rest, literal) == Got((), rest)
  {
    assert (literal + rest)[|literal|..] == rest;
  }

  // ---- log entries: a map of "K", "V" and "D" ----

  datatype WalEntry = WalEntry(k: ByteString, v: ByteString, d: bool)

  const MAP_K: ByteString := [0xa3, 0x61, 0x4b]
  const FIELD_V: ByteString := [0x61, 0x56]
  const FIELD_D: ByteString := [0x61, 0x44]

  function EncodeBool(d: bool): ByteString {
    if d then [0xf5] else [0xf4]
  }

  function EncodeEntry(e: WalEntry): ByteString {
    MAP_K + (EncodeBytes(e.k) + (FIELD_V + (EncodeBytes(e.v) + (FIELD_D + EncodeBool(e.d)))))
  }

  function ParseField(s: ByteString, name: ByteString): Parsed<ByteString> {
    var field := ParseLiteral(s, name);
    if field.Fail? then Fail else ParseBytes(field.rest)
  }

  function ParseFlag(s: ByteString): Parsed<bool> {
    var field := ParseLiteral(s, FIELD_D);
    if field.Fail? || field.rest == [] then Fail
    else if field.rest[0] == 0xf4 then Got(false, field.rest[1..])
    else if field.rest[0] == 0xf5 then Got(true, field.rest[1..])
    else Fail
  }

  function ParseEntry(s: ByteString): Parsed<WalEntry> {
    var k := ParseField(s, MAP_K);
    if k.Fail? then Fail
    else
      var v := ParseField(k.rest, FIELD_V);
      if v.Fail? then Fail
      else
        var d := ParseFlag(v.rest);
        if d.Fail? then Fail else Got(WalEntry(k.value, v.value, d.value), d.rest)
  }

  datatype Decoded<T> = Malformed | Value(value: T)

  // Bytes after the item are an error.
  function DecodeEntry(s: ByteString): Decoded<WalEntry> {
    var e := ParseEntry(s);
    if e.Got? && e.rest == [] then Value(e.value) else Malformed
  }

  predicate Encodable(e: WalEntry) {
    Length64(|e.k|) && Length64(|e.v|)
  }

  lemma FieldRoundTrip(name: ByteString, b: ByteString, rest: ByteString)
    requires Length64(|b|)
    ensures ParseField(name + (EncodeBytes(b) + rest), name) == Got(b, rest)
  {
    LiteralRoundTrip(name, EncodeBytes(b) + rest);
    BytesRoundTrip(b, rest);
  }

  lemma FieldExtends(s: ByteString, name: ByteString, more: ByteString)
    requires ParseField(s, name).Got?
    ensures ParseField(s + more, name) == Got(ParseField(s, name).value, ParseField(s, name).rest + more)
  {
    LiteralExtends(s, name, more);
    BytesExtend(ParseLiteral(s, name).rest, more);
  }

  lemma FlagRoundTrip(d: bool, rest: ByteString)
    ensures ParseFlag(FIELD_D + EncodeBool(d) + rest) == Got(d, rest)
  {
    assert FIELD_D + EncodeBool(d) + rest == FIELD_D + (EncodeBool(d) + rest);
    LiteralRoundTrip(FIELD_D, EncodeBool(d) + rest);
  }

  lemma FlagExtends(s: ByteString, more: ByteString)
    requires ParseFlag(s).Got?
    ensures ParseFlag(s + more) == Got(ParseFlag(s).value, ParseFlag(s).rest + more)
  {
    LiteralExtends(s, FIELD_D, more);
    var rest := ParseLiteral(s, FIELD_D).rest;
    assert (rest + more)[1..] == rest[1..] + more;
  }

  lemma EntryParses(e: WalEntry)
    requires Encodable(e)
    ensures ParseEntry(EncodeEntry(e)) == Got(e, [])
  {
    var flag := FIELD_D + EncodeBool(e.d);
    var tail := FIELD_V + (EncodeBytes(e.v) + flag);
    FieldRoundTrip(MAP_K, e.k, tail);
    FieldRoundTrip(FIELD_V, e.v, flag);
    FlagRoundTrip(e.d, []);
    assert flag + [] == flag;
  }

  lemma EntryRoundTrip(e: WalEntry)
    requires Encodable(e)
    ensures DecodeEntry(EncodeEntry(e)) == Value(e)
  {
    EntryParses(e);
  }

  lemma EntryExtends(s: ByteString, more: ByteString)
    requires ParseEntry(s).Got?
    ensures ParseEntry(s + more) == Got(ParseEntry(s).value, ParseEntry(s).rest + more)
  {
    var k := ParseField(s, MAP_K);
    var v := ParseField(k.rest, FIELD_V);
    FieldExtends(s, MAP_K, more);
    FieldExtends(k.rest, FIELD_V, more);
    FlagExtends(v.rest, more);
  }

  lemma CutShort(whole: ByteString, e: WalEntry, n: nat)
    requires ParseEntry(whole) == Got(e, []) && n < |whole|
    ensures DecodeEntry(whole[..n]) == Malformed
  {
    assert whole[..n] + whole[n..] == whole;
    if DecodeEntry(whole[..n]).Value? {
      EntryExtends(whole[..n], whole[n..]);
    }
  }

  // An entry that is cut short does not decode.
  lemma TruncatedEntry(e: WalEntry, n: nat)
    requires Encodable(e) && n < |EncodeEntry(e)|
    ensures DecodeEntry(EncodeEntry(e)[..n]) == Malformed
  {
    EntryParses(e);
    CutShort(EncodeEntry(e), e, n);
  }

  // Nor does an entry with anything behind it.
  lemma ExtendedEntry(e: WalEntry, more: ByteString)
    requires Encodable(e) && more != []
    ensures DecodeEntry(EncodeEntry(e) + more) == Malformed
  {
    EntryParses(e);
    EntryExtends(EncodeEntry(e), more);
    assert [] + more == more;
  }

  // ---- the version: a map of "Term", "Collection" and "Seq" ----

  const MAP_TERM: ByteString := [0xa3, 0x64, 0x54, 0x65, 0x72, 0x6d]
  const FIELD_COLLECTION: ByteString := [0x6a, 0x43, 0x6f, 0x6c, 0x6c, 0x65, 0x63, 0x74, 0x69, 0x6f, 0x6e]
  const FIELD_SEQ: ByteString := [0x63, 0x53, 0x65, 0x71]

  function EncodeInt(n: int): ByteString {
    if n >= 0 then Head(UNSIGNED, n) else Head(NEGATIVE, -1 - n)
  }

  // A number that does not fit the 64-bit field is an error.
  function ParseInt(s: ByteString): Parsed<int> {
    var unsigned, negative := ParseHead(s, UNSIGNED), ParseHead(s, NEGATIVE);
    if unsigned.Got? && unsigned.value <= MAX_INT64 then Got(unsigned.value, unsigned.rest)
    else if negative.Got? && negative.value <= MAX_INT64 then Got(-1 - negative.value, negative.rest)
    else Fail
  }

  predicate Int64(n: int) {
    -MAX_INT64 - 1 <= n <= MAX_INT64
  }

  predicate Int64s(id: SequenceId) {
    Int64(id.term) && Int64(id.collection) && Int64(id.seqNo)
  }

  function EncodeVersion(id: SequenceId): ByteString {
    MAP_TERM + (EncodeInt(id.term) + (FIELD_COLLECTION + (EncodeInt(id.collection) + (FIELD_SEQ + EncodeInt(id.seqNo)))))
  }

  function ParseNumber(s: ByteString, name: ByteString): Parsed<int> {
    var field := ParseLiteral(s, name);
    if field.Fail? then Fail else ParseInt(field.rest)
  }

  function DecodeVersion(s: ByteString): Decoded<SequenceId> {
    var term := ParseNumber(s, MAP_TERM);
    if term.Fail? then Malformed
    else
      var collection := ParseNumber(term.rest, FIELD_COLLECTION);
      if collection.Fail? then Malformed
      else
        var number := ParseNumber(collection.rest, FIELD_SEQ);
        if number.Fail? || number.rest != [] then Malformed
        else Value(SequenceId(term.value, collection.value, number.value))
  }

  lemma OtherMajor(major: nat, other: nat, n: nat, rest: ByteString)
    requires major < 8 && Length64(n) && other != major
    ensures ParseHead(Head(major, n) + rest, other).Fail?
  {
    HeadRoundTrip(major, n, rest);
  }

  lemma ParsesUnsigned(s: ByteString, n: nat, rest: ByteString)
    requires ParseHead(s, UNSIGNED) == Got(n, rest)
    ensures n <= MAX_INT64 ==> ParseInt(s) == Got(n, rest)
  {
  }

  lemma ParsesNegative(s: ByteString, n: nat, rest: ByteString)
    requires ParseHead(s, UNSIGNED).Fail? && ParseHead(s, NEGATIVE) == Got(n, rest)
    ensures n <= MAX_INT64 ==> ParseInt(s) == Got(-1 - n, rest)
  {
  }

  lemma IntRoundTrip(n: int, rest: ByteString)
    requires Int64(n)
    ensures ParseInt(EncodeInt(n) + rest) == Got(n, rest)
  {
    if n >= 0 {
      HeadRoundTrip(UNSIGNED, n, rest);
      ParsesUnsigned(Head(UNSIGNED, n) + rest, n, rest);
    } else {
      HeadRoundTrip(NEGATIVE, -1 - n, rest);
      OtherMajor(NEGATIVE, UNSIGNED, -1 - n, rest);
      ParsesNegative(Head(NEGATIVE, -1 - n) + rest, -1 - n, rest);
    }
  }

  lemma NumberRoundTrip(name: ByteString, n: int, rest: ByteString)
    requires Int64(n)
    ensures ParseNumber(name + (EncodeInt(n) + rest), name) == Got(n, rest)
  {
    LiteralRoundTrip(name, EncodeInt(n) + rest);
    IntRoundTrip(n, rest);
  }

  lemma VersionParts(s: ByteString, id: SequenceId, tail: ByteString, last: ByteString, more: ByteString)
    requires ParseNumber(s, MAP_TERM) == Got(id.term, tail)
    requires ParseNumber(tail, FIELD_COLLECTION) == Got(id.collection, last)
    requires ParseNumber(last, FIELD_SEQ) == Got(id.seqNo, more)
    ensures DecodeVersion(s) == if more == [] then Value(id) else Malformed
  {
  }

  // A version decodes to itself, and not with anything behind it.
  lemma VersionThen(id: SequenceId, more: ByteString)
    requires Int64s(id)
    ensures DecodeVersion(EncodeVersion(id) + more) == if more == [] then Value(id) else Malformed
  {
    var end := EncodeInt(id.seqNo) + more;
    var last := FIELD_SEQ + end;
    var tail := FIELD_COLLECTION + (EncodeInt(id.collection) + last);
    NumberRoundTrip(MAP_TERM, id.term, tail);
    NumberRoundTrip(FIELD_COLLECTION, id.collection, last);
    NumberRoundTrip(FIELD_SEQ, id.seqNo, more);
    JoinMore(MAP_TERM, EncodeInt(id.term), FIELD_COLLECTION, EncodeInt(id.collection), FIELD_SEQ, EncodeInt(id.seqNo),
             more);
    VersionParts(EncodeVersion(id) + more, id, tail, last, more);
  }

  lemma JoinMore(k1: ByteString, v1: ByteString, k2: ByteString, v2: ByteString, k3: ByteString, v3: ByteString,
                 more: ByteString)
    ensures k1 + (v1 + (k2 + (v2 + (k3 + v3)))) + more == k1 + (v1 + (k2 + (v2 + (k3 + (v3 + more)))))
  {
  }

  lemma VersionRoundTrip(id: SequenceId)
    requires Int64s(id)
    ensures DecodeVersion(EncodeVersion(id)) == Value(id)
  {
    VersionThen(id, []);
    assert EncodeVersion(id) + [] == EncodeVersion(id);
  }

  // A number too large for its field is no version.
  lemma LargeNumber(n: nat, rest: ByteString)
    requires MAX_INT64 < n && Length64(n)
    ensures ParseInt(Head(UNSIGNED, n) + rest).Fail? && ParseInt(Head(NEGATIVE, n) + rest).Fail?
  {
    HeadRoundTrip(UNSIGNED, n, rest);
    HeadRoundTrip(NEGATIVE, n, rest);
    OtherMajor(UNSIGNED, NEGATIVE, n, rest);
    OtherMajor(NEGATIVE, UNSIGNED, n, rest);
    OverInt64(Head(UNSIGNED, n) + rest);
    OverInt64(Head(NEGATIVE, n) + rest);
  }

  lemma OverInt64(s: ByteString)
    requires ParseHead(s, UNSIGNED).Got? ==> ParseHead(s, UNSIGNED).value > MAX_INT64
    requires ParseHead(s, NEGATIVE).Got? ==> ParseHead(s, NEGATIVE).value > MAX_INT64
    ensures ParseInt(s).Fail?
  {
  }

  // ---- the bytes ----

  // How many bytes follow the first one of a head, and what the first one says: section 3 of RFC 8949.
  function HeadWidth(n: nat): nat {
    if n < 24 then 0 else if n < 0x100 then 1 else if n < 0x1_0000 then 2 else if n < 0x1_0000_0000 then 4 else 8
  }

  function HeadInfo(n: nat): nat {
    if n < 24 then n else if n < 0x100 then 24 else if n < 0x1_0000 then 25 else if n < 0x1_0000_0000 then 26 else 27
  }

  lemma HeadShape(major: nat, n: nat, info: nat, width: nat)
    requires info == HeadInfo(n) && width == HeadWidth(n)
    ensures Head(major, n) == InitialByte(major, info) + BigEndian(n, width)
  {
    assert width == 0 ==> InitialByte(major, info) + BigEndian(n, width) == InitialByte(major, info);
  }

  lemma FirstByte(major: nat, info: nat, tail: ByteString)
    requires major < 8 && info < 32
    ensures (InitialByte(major, info) + tail)[0] as nat == 32 * major + info
  {
    SmallModulus(32 * major + info, ToByte(32 * major + info) as nat);
  }

  lemma HeadBytes(major: nat, n: nat, i: nat)
    requires major < 8 && Length64(n)
    ensures |Head(major, n)| == 1 + HeadWidth(n) && Head(major, n)[0] as nat == 32 * major + HeadInfo(n)
    ensures i < HeadWidth(n) ==> Head(major, n)[HeadWidth(n) - i] as nat == Dropped(n, i) % 256
  {
    HeadShape(major, n, HeadInfo(n), HeadWidth(n));
    ShapeBytes(Head(major, n), major, n, HeadInfo(n), HeadWidth(n), i);
  }

  lemma ShapeBytes(head: ByteString, major: nat, n: nat, info: nat, width: nat, i: nat)
    requires major < 8 && info < 32 && head == InitialByte(major, info) + BigEndian(n, width)
    ensures |head| == 1 + width && head[0] as nat == 32 * major + info
    ensures i < width ==> head[width - i] as nat == Dropped(n, i) % 256
  {
    FirstByte(major, info, BigEndian(n, width));
    if i < width {
      ArgumentByte(InitialByte(major, info), n, width, i);
    }
  }

  lemma ArgumentByte(first: ByteString, n: nat, width: nat, i: nat)
    requires |first| == 1 && i < width
    ensures (first + BigEndian(n, width))[width - i] as nat == Dropped(n, i) % 256
  {
    BigEndianAt(n, width, i);
    TailAt(first, BigEndian(n, width), width - 1 - i);
  }

  lemma TailAt(first: ByteString, tail: ByteString, i: nat)
    requires |first| == 1 && i < |tail|
    ensures (first + tail)[i + 1] == tail[i]
  {
  }

  // Byte strings and whole numbers.
  lemma ItemBytes(b: ByteString, n: int)
    ensures EncodeBytes(b) == Head(2, |b|) + b
    ensures EncodeInt(n) == if n >= 0 then Head(0, n) else Head(1, -1 - n)
  {
  }

  // The two records: a map of three, with the keys "K", "V" and "D", or "Term", "Collection" and "Seq", each after
  // its length.
  lemma EntryBytes(e: WalEntry)
    ensures EncodeEntry(e) == [0xa3, 0x61, 0x4b] + EncodeBytes(e.k) + [0x61, 0x56] + EncodeBytes(e.v)
                              + [0x61, 0x44] + [if e.d then 0xf5 else 0xf4]
  {
    JoinThree(MAP_K, EncodeBytes(e.k), FIELD_V, EncodeBytes(e.v), FIELD_D, EncodeBool(e.d));
  }

  lemma VersionBytes(id: SequenceId)
    ensures EncodeVersion(id)
            == [0xa3, 0x64, 0x54, 0x65, 0x72, 0x6d] + EncodeInt(id.term)
               + [0x6a, 0x43, 0x6f, 0x6c, 0x6c, 0x65, 0x63, 0x74, 0x69, 0x6f, 0x6e] + EncodeInt(id.collection)
               + [0x63, 0x53, 0x65, 0x71] + EncodeInt(id.seqNo)
  {
    JoinThree(MAP_TERM, EncodeInt(id.term), FIELD_COLLECTION, EncodeInt(id.collection), FIELD_SEQ, EncodeInt(id.seqNo));
  }

  lemma JoinThree(k1: ByteString, v1: ByteString, k2: ByteString, v2: ByteString, k3: ByteString, v3: ByteString)
    ensures k1 + (v1 + (k2 + (v2 + (k3 + v3)))) == k1 + v1 + k2 + v2 + k3 + v3
  {
  }
}
