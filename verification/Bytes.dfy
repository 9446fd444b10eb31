// Bytes, and the numbers that the log and its entries store in them.
module Bytes {
  type byte = bv8
  type ByteString = seq<byte>

  function Nibble(n: nat): (b: byte)
    requires n < 16
    ensures b as nat == n && b < 16
  {
    if n < 8 then
      if n < 4 then (if n < 2 then (if n < 1 then 0 else 1) else if n < 3 then 2 else 3)
      else (if n < 6 then (if n < 5 then 4 else 5) else if n < 7 then 6 else 7)
    else
      if n < 12 then (if n < 10 then (if n < 9 then 8 else 9) else if n < 11 then 10 else 11)
      else (if n < 14 then (if n < 13 then 12 else 13) else if n < 15 then 14 else 15)
  }

  function Join(high: byte, low: byte): (b: byte)
    requires high < 16 && low < 16
    ensures b as nat == 16 * (high as nat) + low as nat
  {
    (high << 4) | low
  }

  lemma JoinNibbles(n: nat)
    ensures 16 * (n / 16 % 16) + n % 16 == n % 256
  {
  }

  // The low eight bits of n, joined from two halves.
  function ToByte(n: nat): (b: byte)
    ensures b as nat == n % 256
  {
    var high, low := Nibble(n / 16 % 16), Nibble(n % 16);
    JoinNibbles(n);
    Join(high, low)
  }

  // n in `width` bytes, highest first, as encoding/binary.BigEndian writes it.
  function BigEndian(n: nat, width: nat): (s: ByteString)
    ensures |s| == width
    decreases width, n
  {
    if width == 0 then [] else BigEndian(n / 256, width - 1) + [ToByte(n)]
  }

  function Power256(width: nat): nat {
    if width == 0 then 1 else 256 * Power256(width - 1)
  }

  function FromBigEndian(s: ByteString): (n: nat)
    ensures n < Power256(|s|)
  {
    if s == [] then 0 else 256 * FromBigEndian(s[..|s| - 1]) + s[|s| - 1] as nat
  }

  lemma {:induction false} BigEndianRoundTrip(n: nat, width: nat)
    requires n < Power256(width)
    ensures FromBigEndian(BigEndian(n, width)) == n
  {
    if width != 0 {
      BigEndianRoundTrip(n / 256, width - 1);
      var s := BigEndian(n, width);
      assert s[..|s| - 1] == BigEndian(n / 256, width - 1);
    }
  }

  function BigEndian32(c: bv32): (s: ByteString)
    ensures |s| == 4
  {
    [(c >> 24) as byte, ((c >> 16) & 0xff) as byte, ((c >> 8) & 0xff) as byte, (c & 0xff) as byte]
  }

  function FromBigEndian32(s: ByteString): bv32
    requires |s| == 4
  {
    ((s[0] as bv32) << 24) | ((s[1] as bv32) << 16) | ((s[2] as bv32) << 8) | (s[3] as bv32)
  }

  lemma BigEndian32RoundTrip(c: bv32)
    ensures FromBigEndian32(BigEndian32(c)) == c
  {
  }

  lemma FromBigEndian32Injective(s: ByteString, t: ByteString)
    requires |s| == |t| == 4
    requires FromBigEndian32(s) == FromBigEndian32(t)
    ensures s == t
  {
    SameFourBytes(s[0], s[1], s[2], s[3], t[0], t[1], t[2], t[3]);
  }

  lemma SameFourBytes(a: byte, b: byte, c: byte, d: byte, a': byte, b': byte, c': byte, d': byte)
    requires ((a as bv32) << 24) | ((b as bv32) << 16) | ((c as bv32) << 8) | (d as bv32)
          == ((a' as bv32) << 24) | ((b' as bv32) << 16) | ((c' as bv32) << 8) | (d' as bv32)
    ensures a == a' && b == b' && c == c' && d == d'
  {
  }

  // ---- the bytes of a number, highest first ----

  // n without its last i bytes.
  function Dropped(n: nat, i: nat): nat
    decreases i
  {
    if i == 0 then n else Dropped(n / 256, i - 1)
  }

  lemma {:induction false} BigEndianAt(n: nat, width: nat, i: nat)
    requires i < width
    ensures BigEndian(n, width)[width - 1 - i] as nat == Dropped(n, i) % 256
    decreases width
  {
    if i > 0 {
      BigEndianAt(n / 256, width - 1, i - 1);
      assert BigEndian(n, width)[width - 1 - i] == BigEndian(n / 256, width - 1)[width - 1 - i];
    }
  }

  lemma HighestFirst(a: byte, b: byte, c: byte, d: byte, n: bv32)
    requires n == ((a as bv32) << 24) | ((b as bv32) << 16) | ((c as bv32) << 8) | (d as bv32)
    ensures BigEndian32(n) == [a, b, c, d] && FromBigEndian32([a, b, c, d]) == n
  {
  }
}
