// Names for reverse lookups: section 3.5 of RFC 1035 and section 2.5 of RFC 3596.
module Ptr {
  import opened Options
  import opened Numerals
  import opened DnsNames

  type octet = x: nat | x < 256

  // net.IP in its 16-byte form.
  type Address = s: seq<octet> | |s| == 16 witness seq(16, _ => 0)

  // An IPv4 address has ten zeros and two 255s before its own four bytes.
  predicate IsV4(ip: Address) {
    (forall i :: 0 <= i < 10 ==> ip[i] == 0) && ip[10] == 255 && ip[11] == 255
  }

  const V4_SUFFIX := "in-addr.arpa"
  const V6_SUFFIX := "ip6.arpa"

  // ---- printing ----

  function Encoded(bytes: seq<octet>): (s: string)
    ensures |s| == 2 * |bytes|
    ensures forall i :: 0 <= i < |bytes| ==> s[2 * i] == Digit(bytes[i] / 16) && s[2 * i + 1] == Digit(bytes[i] % 16)
    decreases |bytes|
  {
    if bytes == [] then ""
    else
      var n := |bytes| - 1;
      Encoded(bytes[..n]) + [Digit(bytes[n] / 16), Digit(bytes[n] % 16)]
  }

  function Reversed(s: string): (r: string)
    ensures |r| == |s| && forall i :: 0 <= i < |s| ==> r[i] == s[|s| - 1 - i]
  {
    seq(|s|, i requires 0 <= i < |s| => s[|s| - 1 - i])
  }

  function Dotted(s: string): (r: string)
    ensures |r| == 2 * |s|
    ensures forall i :: 0 <= i < |s| ==> r[2 * i] == s[i] && r[2 * i + 1] == '.'
    decreases |s|
  {
    if s == "" then "" else Dotted(s[..|s| - 1]) + [s[|s| - 1], '.']
  }

  function V4Name(a: octet, b: octet, c: octet, d: octet): string {
    Decimal(d) + "." + Decimal(c) + "." + Decimal(b) + "." + Decimal(a) + "." + V4_SUFFIX
  }

  function PtrFqdn(ip: Address): string {
    if IsV4(ip) then Fqdn(V4Name(ip[12], ip[13], ip[14], ip[15]))
    else Fqdn(Dotted(Reversed(Encoded(ip))) + V6_SUFFIX)
  }

  method ReverseInPlace(r: array<char>)
    modifies r
    ensures r[..] == Reversed(old(r[..]))
  {
    var i, j := 0, r.Length - 1;
    while i < j
      invariant 0 <= i <= r.Length && i + j == r.Length - 1
      invariant forall k :: 0 <= k < i || j < k < r.Length ==> r[k] == old(r[r.Length - 1 - k])
      invariant forall k :: i <= k <= j ==> r[k] == old(r[k])
    {
      r[i], r[j] := r[j], r[i];
      i, j := i + 1, j - 1;
    }
    assert forall k :: 0 <= k < r.Length ==> r[k] == old(r[r.Length - 1 - k]);
  }

  method FromIPAddressToPtrFqdn(ip: Address) returns (name: string)
    ensures name == PtrFqdn(ip)
  {
    if IsV4(ip) {
      name := Fqdn(V4Name(ip[12], ip[13], ip[14], ip[15]));
    } else {
      var digits := Encoded(ip);
      var r := new char[|digits|](i requires 0 <= i < |digits| => digits[i]);
      assert r[..] == digits;
      ReverseInPlace(r);
      var built := WithDots(r);
      name := Fqdn(built + V6_SUFFIX);
    }
  }

  method WithDots(r: array<char>) returns (built: string)
    ensures built == Dotted(r[..])
  {
    built := "";
    for i := 0 to r.Length
      invariant built == Dotted(r[..i])
    {
      assert r[..i + 1][..i] == r[..i];
      built := built + [r[i]] + ['.'];
    }
    assert r[..r.Length] == r[..];
  }

  // ---- parsing ----

  function ParseOctet(s: string): (r: Option<(octet, string)>)
    ensures r.Some? ==> |r.value.1| < |s|
  {
    var digits := Digits(s);
    if digits == "" || |digits| == |s| || s[|digits|] != '.' then None
    else
      var n := DecimalValue(digits);
      if n < 256 then Some((n, s[|digits| + 1..])) else None
  }

  function Mapped(a: octet, b: octet, c: octet, d: octet): Address {
    seq(10, _ => 0) + [255, 255, a, b, c, d]
  }

  function ParseV4(s: string): Option<Address> {
    var r1 := ParseOctet(s);
    if r1.None? then None
    else
      var r2 := ParseOctet(r1.value.1);
      if r2.None? then None
      else
        var r3 := ParseOctet(r2.value.1);
        if r3.None? then None
        else
          var r4 := ParseOctet(r3.value.1);
          if r4.None? || r4.value.1 != V4_SUFFIX + "." then None
          else Some(Mapped(r4.value.0, r3.value.0, r2.value.0, r1.value.0))
  }

  function NibbleAt(s: string, i: nat): (d: int)
    requires i < 32 && |s| == 64
    ensures -1 <= d < 16
  {
    DigitValue(s[2 * (31 - i)])
  }

  function ParseV6(s: string): Option<Address> {
    if |s| == 73 && s[64..] == V6_SUFFIX + "." && forall i :: 0 <= i < 32 ==> NibbleAt(s[..64], i) >= 0 then
      Some(seq(16, j requires 0 <= j < 16 =>
        assert NibbleAt(s[..64], 2 * j) >= 0 && NibbleAt(s[..64], 2 * j + 1) >= 0;
        16 * NibbleAt(s[..64], 2 * j) + NibbleAt(s[..64], 2 * j + 1)))
    else None
  }

  function ParsePtr(s: string): Option<Address> {
    if ParseV6(s).Some? then ParseV6(s) else ParseV4(s)
  }

  // ---- the round trip ----

  lemma NotYetQualified(s: string, suffix: string)
    requires suffix == V4_SUFFIX || suffix == V6_SUFFIX
    ensures Fqdn(s + suffix) == s + (suffix + ".")
  {
    assert (s + suffix)[|s + suffix| - 1] == 'a';
    assert s + suffix + "." == s + (suffix + ".");
  }

  lemma ParsePrinted(n: octet, rest: string)
    ensures ParseOctet(Decimal(n) + ("." + rest)) == Some((n, rest))
  {
    DigitsStop(Decimal(n), "." + rest);
    DecimalRoundTrip(n);
    var s := Decimal(n) + ("." + rest);
    assert s[|Decimal(n)|] == '.' && s[|Decimal(n)| + 1..] == rest;
  }

  // The four numbers, with the text after them a parameter.
  function FourOctets(a: octet, b: octet, c: octet, d: octet, end: string): string {
    Decimal(d) + ("." + (Decimal(c) + ("." + (Decimal(b) + ("." + (Decimal(a) + ("." + end)))))))
  }

  lemma V4Parses(a: octet, b: octet, c: octet, d: octet, end: string)
    requires end == V4_SUFFIX + "."
    ensures ParseV4(FourOctets(a, b, c, d, end)) == Some(Mapped(a, b, c, d))
  {
    var t1 := Decimal(a) + ("." + end);
    var t2 := Decimal(b) + ("." + t1);
    var t3 := Decimal(c) + ("." + t2);
    ParsePrinted(d, t3);
    ParsePrinted(c, t2);
    ParsePrinted(b, t1);
    ParsePrinted(a, end);
  }

  lemma V4IsNotV6(a: octet, b: octet, c: octet, d: octet, end: string)
    requires end == V4_SUFFIX + "."
    ensures ParseV6(FourOctets(a, b, c, d, end)).None?
  {
    var start := Decimal(d) + "." + Decimal(c) + "." + Decimal(b) + "." + Decimal(a) + ".";
    var s := start + end;
    AssociateFour(Decimal(d), Decimal(c), Decimal(b), Decimal(a), ".", end);
    if |s| == 73 {
      assert s[64] == end[4];
    }
  }

  lemma V4Text(a: octet, b: octet, c: octet, d: octet)
    ensures Fqdn(V4Name(a, b, c, d)) == FourOctets(a, b, c, d, V4_SUFFIX + ".")
  {
    var s := Decimal(d) + "." + Decimal(c) + "." + Decimal(b) + "." + Decimal(a) + ".";
    NotYetQualified(s, V4_SUFFIX);
    AssociateFour(Decimal(d), Decimal(c), Decimal(b), Decimal(a), ".", V4_SUFFIX + ".");
  }

  lemma AssociateFour(d: string, c: string, b: string, a: string, dot: string, end: string)
    ensures d + dot + c + dot + b + dot + a + dot + end
            == d + (dot + (c + (dot + (b + (dot + (a + (dot + end)))))))
  {
  }

  lemma OnlyV4Parses(name: string, ip: Address)
    requires ParseV6(name).None? && ParseV4(name) == Some(ip)
    ensures ParsePtr(name) == Some(ip)
  {
  }

  lemma V4NameParses(a: octet, b: octet, c: octet, d: octet)
    ensures ParsePtr(Fqdn(V4Name(a, b, c, d))) == Some(Mapped(a, b, c, d))
  {
    var end := V4_SUFFIX + ".";
    V4Text(a, b, c, d);
    V4Parses(a, b, c, d, end);
    V4IsNotV6(a, b, c, d, end);
    OnlyV4Parses(FourOctets(a, b, c, d, end), Mapped(a, b, c, d));
  }

  lemma V4RoundTrip(ip: Address)
    requires IsV4(ip)
    ensures ParsePtr(PtrFqdn(ip)) == Some(ip)
  {
    var a, b, c, d := ip[12], ip[13], ip[14], ip[15];
    V4NameParses(a, b, c, d);
    V4Bytes(ip, a, b, c, d);
  }

  lemma V4Bytes(ip: Address, a: octet, b: octet, c: octet, d: octet)
    requires IsV4(ip) && ip[12] == a && ip[13] == b && ip[14] == c && ip[15] == d
    ensures ip == Mapped(a, b, c, d) && PtrFqdn(ip) == Fqdn(V4Name(a, b, c, d))
  {
  }

  lemma NibblesPrinted(ip: Address, dotted: string, j: nat)
    requires j < 16 && dotted == Dotted(Reversed(Encoded(ip)))
    ensures NibbleAt(dotted, 2 * j) == ip[j] / 16 && NibbleAt(dotted, 2 * j + 1) == ip[j] % 16
  {
    var enc := Encoded(ip);
    var rev := Reversed(enc);
    assert dotted[2 * (31 - 2 * j)] == rev[31 - 2 * j] == enc[2 * j];
    assert dotted[2 * (31 - (2 * j + 1))] == rev[31 - (2 * j + 1)] == enc[2 * j + 1];
    DigitRoundTrip(ip[j] / 16, ip[j] % 16);
    DigitRoundTrip(ip[j] % 16, ip[j] / 16);
  }

  lemma V6Parses(ip: Address, dotted: string, name: string)
    requires |dotted| == 64 && name == dotted + (V6_SUFFIX + ".")
    requires forall j :: 0 <= j < 16 ==> NibbleAt(dotted, 2 * j) == ip[j] / 16
    requires forall j :: 0 <= j < 16 ==> NibbleAt(dotted, 2 * j + 1) == ip[j] % 16
    ensures ParseV6(name) == Some(ip)
  {
    assert name[..64] == dotted && name[64..] == V6_SUFFIX + ".";
    forall i | 0 <= i < 32 ensures NibbleAt(dotted, i) >= 0 {
      var j := i / 2;
      assert NibbleAt(dotted, 2 * j) == ip[j] / 16 && NibbleAt(dotted, 2 * j + 1) == ip[j] % 16;
      assert i == 2 * j || i == 2 * j + 1;
    }
    assert |name| == 73;
    assert ParseV6(name).Some?;
    var parsed := ParseV6(name).value;
    assert |parsed| == 16;
    forall j | 0 <= j < 16 ensures parsed[j] == ip[j] {
      assert parsed[j] == 16 * NibbleAt(dotted, 2 * j) + NibbleAt(dotted, 2 * j + 1);
    }
    assert parsed == ip;
  }

  lemma V6RoundTrip(ip: Address)
    requires !IsV4(ip)
    ensures ParsePtr(PtrFqdn(ip)) == Some(ip)
  {
    var dotted := Dotted(Reversed(Encoded(ip)));
    NotYetQualified(dotted, V6_SUFFIX);
    forall j | 0 <= j < 16
      ensures NibbleAt(dotted, 2 * j) == ip[j] / 16 && NibbleAt(dotted, 2 * j + 1) == ip[j] % 16
    {
      NibblesPrinted(ip, dotted, j);
    }
    V6Parses(ip, dotted, dotted + (V6_SUFFIX + "."));
  }

  // The name gives the address back.
  lemma PtrRoundTrip(ip: Address)
    ensures ParsePtr(PtrFqdn(ip)) == Some(ip)
  {
    if IsV4(ip) {
      V4RoundTrip(ip);
    } else {
      V6RoundTrip(ip);
    }
  }

  // Two addresses share a name exactly if their 16-byte forms are the same.
  lemma PtrInjective(a: Address, b: Address)
    ensures PtrFqdn(a) == PtrFqdn(b) <==> a == b
  {
    PtrRoundTrip(a);
    PtrRoundTrip(b);
  }

  // ---- the characters of a name ----

  const HEX_DIGITS := "0123456789abcdef"

  lemma DigitCharacter(d: nat)
    requires d < 16
    ensures Digit(d) == HEX_DIGITS[d]
  {
  }

  // The k-th half byte of the address, the high half of a byte first.
  function Nibble(ip: Address, k: nat): (n: nat)
    requires k < 32
    ensures n < 16
  {
    if k % 2 == 0 then ip[k / 2] / 16 else ip[k / 2] % 16
  }

  lemma EncodedAt(ip: Address, k: nat)
    requires k < 32
    ensures Encoded(ip)[k] == HEX_DIGITS[Nibble(ip, k)]
  {
    DigitCharacter(Nibble(ip, k));
    assert Encoded(ip)[2 * (k / 2)] == Digit(ip[k / 2] / 16) && Encoded(ip)[2 * (k / 2) + 1] == Digit(ip[k / 2] % 16);
  }

  // A name of 73 characters: the 32 half bytes from the last to the first, each followed by a dot, and "ip6.arpa.".
  lemma V6Characters(ip: Address, i: nat)
    requires i < 32 && !((forall j :: 0 <= j < 10 ==> ip[j] == 0) && ip[10] == 255 && ip[11] == 255)
    ensures var name := PtrFqdn(ip);
            && |name| == 73 && name[64..] == "ip6.arpa."
            && name[2 * i] == HEX_DIGITS[Nibble(ip, 31 - i)] && name[2 * i + 1] == '.'
  {
    var dotted := Dotted(Reversed(Encoded(ip)));
    NotYetQualified(dotted, V6_SUFFIX);
    EncodedAt(ip, 31 - i);
    assert dotted[2 * i] == Reversed(Encoded(ip))[i] == Encoded(ip)[31 - i];
  }

  // A number below 256 without leading zeros.
  function OctetText(n: octet): string {
    if n < 10 then [HEX_DIGITS[n]]
    else if n < 100 then [HEX_DIGITS[n / 10], HEX_DIGITS[n % 10]]
    else [HEX_DIGITS[n / 100], HEX_DIGITS[n / 10 % 10], HEX_DIGITS[n % 10]]
  }

  lemma DecimalCharacter(d: nat)
    requires d < 10
    ensures DigitChar(d) == HEX_DIGITS[d]
  {
  }

  lemma OneDigit(n: nat)
    requires n < 10
    ensures Decimal(n) == [HEX_DIGITS[n]]
  {
    DecimalCharacter(n);
  }

  lemma OneMoreDigit(n: nat, high: nat, low: nat, before: string)
    requires n >= 10 && high == n / 10 && low == n % 10 && Decimal(high) == before
    ensures Decimal(n) == before + [HEX_DIGITS[low]]
  {
    DecimalCharacter(low);
  }

  lemma TwoDigits(n: nat)
    requires 10 <= n < 100
    ensures Decimal(n) == [HEX_DIGITS[n / 10], HEX_DIGITS[n % 10]]
  {
    OneDigit(n / 10);
    OneMoreDigit(n, n / 10, n % 10, [HEX_DIGITS[n / 10]]);
  }

  lemma OctetPrinted(n: octet)
    ensures Decimal(n) == OctetText(n)
  {
    if n < 10 {
      OneDigit(n);
    } else if n < 100 {
      TwoDigits(n);
    } else {
      TwoDigits(n / 10);
      assert n / 10 / 10 == n / 100;
      OneMoreDigit(n, n / 10, n % 10, [HEX_DIGITS[n / 100], HEX_DIGITS[n / 10 % 10]]);
    }
  }

  // The four numbers from the last to the first, each followed by a dot, and "in-addr.arpa.".
  lemma V4Characters(ip: Address)
    requires (forall j :: 0 <= j < 10 ==> ip[j] == 0) && ip[10] == 255 && ip[11] == 255
    ensures PtrFqdn(ip) == OctetText(ip[15]) + "." + OctetText(ip[14]) + "." + OctetText(ip[13]) + "."
                           + OctetText(ip[12]) + ".in-addr.arpa."
  {
    var a, b, c, d := ip[12], ip[13], ip[14], ip[15];
    OctetPrinted(a);
    OctetPrinted(b);
    OctetPrinted(c);
    OctetPrinted(d);
    V4Text(a, b, c, d);
    AssociateFour(Decimal(d), Decimal(c), Decimal(b), Decimal(a), ".", V4_SUFFIX + ".");
    var start := Decimal(d) + "." + Decimal(c) + "." + Decimal(b) + "." + Decimal(a);
    assert start + "." + (V4_SUFFIX + ".") == start + ".in-addr.arpa.";
  }
}
