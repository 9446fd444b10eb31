// Positions in the log, the names of its files, and why sorting the names sorts the files.
module WalNames {
  import opened Numerals
  // The program's counters are 64-bit signed.
  const MAX_INT64: int := 0x7fff_ffff_ffff_ffff
  const HALF: nat := 16
  const NAME_LENGTH: nat := 32

  datatype SequenceId = SequenceId(term: int, collection: int, seqNo: int) {
    function Compare(to: SequenceId): int {
      if term < to.term then -1
      else if term > to.term then 1
      else if collection < to.collection then -1
      else if collection > to.collection then 1
      else if seqNo < to.seqNo then -1
      else if seqNo == to.seqNo then 0
      else 1
    }
  }

  // Terms decide first, then collections, then sequence numbers.
  predicate Earlier(a: SequenceId, b: SequenceId) {
    || a.term < b.term
    || (a.term == b.term && a.collection < b.collection)
    || (a.term == b.term && a.collection == b.collection && a.seqNo < b.seqNo)
  }

  // Compare is the sign of that total order.
  lemma CompareIsTotalOrder(a: SequenceId, b: SequenceId, c: SequenceId)
    ensures a.Compare(b) == 0 <==> a == b
    ensures a.Compare(b) == -b.Compare(a)
    ensures a.Compare(b) <= 0 && b.Compare(c) <= 0 ==> a.Compare(c) <= 0
    ensures a.Compare(b) < 0 <==> Earlier(a, b)
  {
  }

  // ---- strings in the order of Go's < ----

  predicate Less(a: string, b: string) {
    if b == [] then false
    else if a == [] then true
    else a[0] < b[0] || (a[0] == b[0] && Less(a[1..], b[1..]))
  }

  lemma {:induction false} LessConcat(a: string, b: string, c: string, d: string)
    requires |a| == |b|
    ensures Less(a + c, b + d) <==> Less(a, b) || (a == b && Less(c, d))
    decreases |a|
  {
    if a == [] {
      assert a + c == c && b + d == d;
    } else {
      assert (a + c)[1..] == a[1..] + c && (b + d)[1..] == b[1..] + d;
      LessConcat(a[1..], b[1..], c, d);
      assert a == [a[0]] + a[1..] && b == [b[0]] + b[1..];
    }
  }

  lemma {:induction false} LessTransitive(a: string, b: string, c: string)
    requires Less(a, b) && Less(b, c)
    ensures Less(a, c)
    decreases |a|
  {
    if a != [] && a[0] == b[0] && b[0] == c[0] {
      LessTransitive(a[1..], b[1..], c[1..]);
    }
  }

  lemma {:induction false} LessTotal(a: string, b: string)
    ensures Less(a, b) || a == b || Less(b, a)
    ensures !(Less(a, b) && Less(b, a))
    ensures !Less(a, a)
    decreases |a|
  {
    if a != [] && b != [] {
      LessTotal(a[1..], b[1..]);
      LessTotal(a[1..], a[1..]);
      assert a == [a[0]] + a[1..] && b == [b[0]] + b[1..];
    } else if a != [] {
      LessTotal(a[1..], a[1..]);
    }
  }

  // ---- the order of fixed-width numerals ----

  lemma {:induction false} HexOrder(m: nat, n: nat, width: nat)
    requires m < Power16(width) && n < Power16(width)
    ensures Less(Hex(m, width), Hex(n, width)) <==> m < n
    ensures Hex(m, width) == Hex(n, width) <==> m == n
  {
    if width != 0 {
      HexOrder(m / 16, n / 16, width - 1);
      DigitRoundTrip(m % 16, n % 16);
      var s, t := Hex(m / 16, width - 1), Hex(n / 16, width - 1);
      LessConcat(s, t, [Digit(m % 16)], [Digit(n % 16)]);
      SameConcat(s, t, [Digit(m % 16)], [Digit(n % 16)]);
    }
  }

  lemma SameConcat(a: string, b: string, c: string, d: string)
    requires |a| == |b|
    ensures a + c == b + d <==> a == b && c == d
  {
    if a + c == b + d {
      assert a == (a + c)[..|a|] && c == (a + c)[|a|..];
      assert b == (b + d)[..|b|] && d == (b + d)[|b|..];
    }
  }

  // ---- file names ----

  // A number in sixteen places; the sign of a negative one takes up a place, unless all sixteen are needed.
  function Printed(n: int): (s: string)
    ensures n >= 0 ==> |s| == HALF
  {
    if n >= 0 then Hex(n, HALF)
    else if -n < 0x1000_0000_0000_0000 then "-" + Hex(-n, HALF - 1)
    else "-" + Hex(-n, HALF)
  }

  function Filename(term: int, collection: int): (name: string)
    ensures term >= 0 && collection >= 0 ==> |name| == NAME_LENGTH
  {
    Printed(term) + Printed(collection)
  }

  datatype ParsedName = Parsed(term: int, collection: int) | Unknown

  // Any thirty-two hexadecimal digits whose halves are positive 64-bit numbers.
  function WalFilename(name: string): ParsedName {
    if |name| != NAME_LENGTH then Unknown
    else
      var term, collection := HexValue(name[..HALF]), HexValue(name[HALF..]);
      if term <= 0 || collection <= 0 || term > MAX_INT64 || collection > MAX_INT64 then Unknown
      else Parsed(term, collection)
  }

  predicate ValidNumber(n: int) {
    1 <= n <= MAX_INT64
  }

  lemma NumbersFit()
    ensures MAX_INT64 < Power16(HALF)
  {
    assert Power16(4) == 0x1_0000;
    assert Power16(8) == 0x1_0000_0000;
    assert Power16(12) == 0x1_0000_0000_0000;
  }

  lemma FilenameRoundTrip(term: int, collection: int)
    requires ValidNumber(term) && ValidNumber(collection)
    ensures WalFilename(Filename(term, collection)) == Parsed(term, collection)
  {
    NumbersFit();
    HexRoundTrip(term, HALF);
    HexRoundTrip(collection, HALF);
    assert Filename(term, collection)[..HALF] == Hex(term, HALF);
    assert Filename(term, collection)[HALF..] == Hex(collection, HALF);
  }

  // Names compare as the pairs they stand for.
  lemma FilenameOrder(term: int, collection: int, term': int, collection': int)
    requires ValidNumber(term) && ValidNumber(collection) && ValidNumber(term') && ValidNumber(collection')
    ensures Less(Filename(term, collection), Filename(term', collection'))
            <==> term < term' || (term == term' && collection < collection')
    ensures Filename(term, collection) == Filename(term', collection') <==> term == term' && collection == collection'
  {
    NumbersFit();
    HexOrder(term, term', HALF);
    HexOrder(collection, collection', HALF);
    LessConcat(Hex(term, HALF), Hex(term', HALF), Hex(collection, HALF), Hex(collection', HALF));
    SameConcat(Hex(term, HALF), Hex(term', HALF), Hex(collection, HALF), Hex(collection', HALF));
  }

  lemma FilenamesDiffer(term: int, c: int, c': int)
    requires ValidNumber(term) && ValidNumber(c) && ValidNumber(c') && c != c'
    ensures Filename(term, c) != Filename(term, c')
  {
    FilenameOrder(term, c, term, c');
  }

  // ---- the characters of a name ----

  const HEX_DIGITS := "0123456789abcdef"

  // n without its last i hexadecimal digits.
  function Dropped16(n: nat, i: nat): nat
    decreases i
  {
    if i == 0 then n else Dropped16(n / 16, i - 1)
  }

  lemma {:induction false} HexAt(n: nat, width: nat, i: nat)
    requires i < width
    ensures Hex(n, width)[width - 1 - i] == HEX_DIGITS[Dropped16(n, i) % 16]
    decreases width
  {
    if i > 0 {
      HexAt(n / 16, width - 1, i - 1);
      assert Hex(n, width)[width - 1 - i] == Hex(n / 16, width - 1)[width - 1 - i];
    } else {
      DigitCharacter(n % 16);
    }
  }

  lemma DigitCharacter(d: nat)
    requires d < 16
    ensures Digit(d) == HEX_DIGITS[d]
  {
  }

  // The first sixteen characters of a file's name are the digits of the term, the others those of the collection.
  lemma NameCharacters(term: int, collection: int, i: nat)
    requires ValidNumber(term) && ValidNumber(collection) && i < 16
    ensures Filename(term, collection)[15 - i] == HEX_DIGITS[Dropped16(term, i) % 16]
    ensures Filename(term, collection)[31 - i] == HEX_DIGITS[Dropped16(collection, i) % 16]
  {
    HexAt(term, HALF, i);
    HexAt(collection, HALF, i);
  }

  function LowerDigit(c: char): char {
    if 'A' <= c <= 'F' then c - 'A' + 'a' else c
  }

  function LowerDigits(s: string): (r: string)
    ensures |r| == |s|
  {
    seq(|s|, i requires 0 <= i < |s| => LowerDigit(s[i]))
  }

  lemma {:induction false} ValueIsHex(s: string)
    requires HexValue(s) >= 0
    ensures HexValue(s) < Power16(|s|) && Hex(HexValue(s), |s|) == LowerDigits(s)
    decreases |s|
  {
    if s != "" {
      var before, c := s[..|s| - 1], s[|s| - 1];
      ValueIsHex(before);
      LowerLast(s);
      DigitOfValue(c);
      var high, low := HexValue(before), DigitValue(c);
      assert HexValue(s) / 16 == high && HexValue(s) % 16 == low;
    }
  }

  lemma LowerLast(s: string)
    requires s != ""
    ensures LowerDigits(s) == LowerDigits(s[..|s| - 1]) + [LowerDigit(s[|s| - 1])]
  {
  }

  lemma DigitOfValue(c: char)
    requires DigitValue(c) >= 0
    ensures Digit(DigitValue(c)) == LowerDigit(c)
  {
  }

  lemma {:induction false} LowerValue(s: string, n: nat)
    requires n < Power16(|s|) && LowerDigits(s) == Hex(n, |s|)
    ensures HexValue(s) == n
    decreases |s|
  {
    if s != "" {
      var w := |s| - 1;
      LowerLast(s);
      assert Hex(n, |s|)[..w] == Hex(n / 16, w) && LowerDigits(s)[..w] == LowerDigits(s[..w]);
      assert LowerDigits(s)[w] == Digit(n % 16);
      LowerValue(s[..w], n / 16);
      ValueOfDigit(s[w], n % 16);
    }
  }

  lemma ValueOfDigit(c: char, d: nat)
    requires d < 16 && LowerDigit(c) == Digit(d)
    ensures DigitValue(c) == d
  {
  }

  // Exactly these names are those of log files: what the program prints for two positive 64-bit numbers, in digits
  // of either case.
  lemma NameParsesExactly(name: string, term: int, collection: int)
    ensures WalFilename(name) == Parsed(term, collection)
            <==> ValidNumber(term) && ValidNumber(collection) && LowerDigits(name) == Filename(term, collection)
  {
    NumbersFit();
    if |name| == NAME_LENGTH {
      var first, second := name[..HALF], name[HALF..];
      assert LowerDigits(name) == LowerDigits(first) + LowerDigits(second);
      if WalFilename(name) == Parsed(term, collection) {
        ValueIsHex(first);
        ValueIsHex(second);
      }
      if ValidNumber(term) && ValidNumber(collection) && LowerDigits(name) == Filename(term, collection) {
        SameConcat(LowerDigits(first), Hex(term, HALF), LowerDigits(second), Hex(collection, HALF));
        LowerValue(first, term);
        LowerValue(second, collection);
      }
    }
  }

  // ---- sorted listings ----

  ghost predicate Sorted(names: seq<string>) {
    forall i, j :: 0 <= i < j < |names| ==> Less(names[i], names[j])
  }

  function Insert(name: string, names: seq<string>): (r: seq<string>) {
    if names == [] || Less(name, names[0]) then [name] + names
    else [names[0]] + Insert(name, names[1..])
  }

  lemma {:induction false} InsertSorted(name: string, names: seq<string>)
    requires Sorted(names) && name !in names
    ensures Sorted(Insert(name, names))
    ensures forall x :: x in Insert(name, names) <==> x == name || x in names
    decreases |names|
  {
    if names != [] {
      LessTotal(name, names[0]);
      if Less(name, names[0]) {
        forall j | 0 <= j < |names| ensures Less(name, names[j]) {
          if j > 0 {
            LessTransitive(name, names[0], names[j]);
          }
        }
      } else {
        assert Sorted(names[1..]);
        InsertSorted(name, names[1..]);
        var rest := Insert(name, names[1..]);
        forall j | 0 <= j < |rest| ensures Less(names[0], rest[j]) {
          assert rest[j] in rest;
        }
      }
    }
  }

  // A set of names has one sorted listing.
  lemma {:induction false} SortedUnique(a: seq<string>, b: seq<string>)
    requires Sorted(a) && Sorted(b)
    requires forall x :: x in a <==> x in b
    ensures a == b
    decreases |a|
  {
    assert a != [] ==> a[0] in b;
    assert b != [] ==> b[0] in a;
    if a != [] {
      FirstIsLeast(a, b[0]);
      FirstIsLeast(b, a[0]);
      LessTotal(a[0], b[0]);
      forall x ensures x in a[1..] <==> x in b[1..] {
        TailMembers(a, x);
        TailMembers(b, x);
      }
      SortedUnique(a[1..], b[1..]);
      assert a == [a[0]] + a[1..] && b == [b[0]] + b[1..];
    }
  }

  lemma FirstIsLeast(names: seq<string>, x: string)
    requires Sorted(names) && x in names
    ensures names[0] == x || Less(names[0], x)
  {
  }

  lemma TailMembers(names: seq<string>, x: string)
    requires Sorted(names) && names != []
    ensures x in names[1..] <==> x in names && x != names[0]
  {
    LessTotal(x, x);
  }
}
