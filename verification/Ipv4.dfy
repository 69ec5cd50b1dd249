/** Reading IPv4 text, and the ranges that are public. */
module Ipv4 {
  import opened Wrappers
  import opened Text

  // ----- IPv4 text -----

  predicate IsOctetText(s: string)
  {
    1 <= |s| <= 3 && AllDigits(s) && Number(s) <= 255
  }

  predicate AllOctets(parts: seq<string>)
  {
    forall i :: 0 <= i < |parts| ==> IsOctetText(parts[i])
  }

  /** The value of octet texts, most significant first. */
  function OctetsValue(parts: seq<string>): nat
    requires AllOctets(parts)
  {
    if parts == [] then 0
    else OctetsValue(parts[..|parts| - 1]) * 256 + Number(parts[|parts| - 1])
  }

  /** What the IPv4 reader returns: four dot-separated octets and nothing else. */
  function ReadIpv4(s: string): Option<nat>
  {
    var parts := Split(s, '.');
    if |parts| == 4 && AllOctets(parts) then Some(OctetsValue(parts)) else None
  }

  method ParseIpv4Address(hostname: string) returns (address: Option<nat>)
    ensures address == ReadIpv4(hostname)
  {
    var parts := Split(hostname, '.');
    if |parts| != 4 {
      return None;
    }
    var value := 0;
    for i := 0 to |parts|
      invariant AllOctets(parts[..i])
      invariant value == OctetsValue(parts[..i])
    {
      var part := parts[i];
      assert parts[..i + 1] == parts[..i] + [part];
      if !(1 <= |part| <= 3) || !AllDigits(part) {
        return None;
      }
      var octet := Number(part);
      if octet > 255 {
        return None;
      }
      value := value * 256 + octet;
    }
    assert parts[..|parts|] == parts;
    return Some(value);
  }

  type Octet = b: nat | b < 256

  /** Shifts and masks on a 32-bit value. */
  function Ipv4Octets(value: nat): (Octet, Octet, Octet, Octet)
  {
    (value / 0x100_0000 % 256, value / 0x1_0000 % 256, value / 0x100 % 256, value % 256)
  }

  function Ipv4Value(a: Octet, b: Octet, c: Octet, d: Octet): nat
  {
    ((a * 256 + b) * 256 + c) * 256 + d
  }

  lemma ShiftsCompose(value: nat)
    ensures value / 0x1_0000 == value / 256 / 256
    ensures value / 0x100_0000 == value / 256 / 256 / 256
  {
  }

  lemma LowOctet(high: nat, low: Octet)
    ensures (high * 256 + low) / 256 == high && (high * 256 + low) % 256 == low
  {
  }

  /** Taking apart the address put together from four octets gives them back. */
  lemma OctetsOfValue(a: Octet, b: Octet, c: Octet, d: Octet)
    ensures Ipv4Value(a, b, c, d) < 0x1_0000_0000
    ensures Ipv4Octets(Ipv4Value(a, b, c, d)) == (a, b, c, d)
  {
    ShiftsCompose(Ipv4Value(a, b, c, d));
    LowOctet((a * 256 + b) * 256 + c, d);
    LowOctet(a * 256 + b, c);
    LowOctet(a, b);
  }

  /** Putting together the octets of a 32-bit address gives it back. */
  lemma ValueOfOctets(value: nat)
    requires value < 0x1_0000_0000
    ensures var (a, b, c, d) := Ipv4Octets(value); Ipv4Value(a, b, c, d) == value
  {
    ShiftsCompose(value);
    var x, y := value / 256, value / 256 / 256;
    assert value == x * 256 + value % 256 && x == y * 256 + x % 256 && y == y / 256 * 256 + y % 256;
    assert y / 256 < 256;
  }

  function Dotted(a: Octet, b: Octet, c: Octet, d: Octet): string
  {
    Join([Decimal(a), Decimal(b), Decimal(c), Decimal(d)], '.')
  }

  lemma OctetTextOf(n: Octet)
    ensures IsOctetText(Decimal(n)) && Number(Decimal(n)) == n && '.' !in Decimal(n)
  {
    NumberDecimal(n);
    if n >= 100 {
      assert Decimal(n) == Decimal(n / 10 / 10) + [Digit(n / 10 % 10)] + [Digit(n % 10)];
    } else if n >= 10 {
      assert Decimal(n) == Decimal(n / 10) + [Digit(n % 10)];
    }
  }

  lemma DottedValue(a: Octet, b: Octet, c: Octet, d: Octet)
    ensures ReadIpv4(Dotted(a, b, c, d)) == Some(Ipv4Value(a, b, c, d))
  {
    OctetTextOf(a);
    OctetTextOf(b);
    OctetTextOf(c);
    OctetTextOf(d);
    var parts := [Decimal(a), Decimal(b), Decimal(c), Decimal(d)];
    SplitJoin(parts, '.');
    FourOctets(parts);
  }

  lemma ValueIsSum(a: Octet, b: Octet, c: Octet, d: Octet)
    ensures Ipv4Value(a, b, c, d) == a * 0x100_0000 + b * 0x1_0000 + c * 0x100 + d
  {
  }

  /** Dotted decimal reads back as the sum of its octets at their places. */
  lemma DottedReads(a: Octet, b: Octet, c: Octet, d: Octet)
    ensures ReadIpv4(Dotted(a, b, c, d)) == Some(a * 0x100_0000 + b * 0x1_0000 + c * 0x100 + d)
  {
    DottedValue(a, b, c, d);
    ValueIsSum(a, b, c, d);
  }

  lemma NextOctet(parts: seq<string>, n: nat)
    requires n < |parts| && AllOctets(parts)
    ensures OctetsValue(parts[..n + 1]) == OctetsValue(parts[..n]) * 256 + Number(parts[n])
  {
    assert parts[..n + 1] == parts[..n] + [parts[n]];
  }

  lemma FourOctets(parts: seq<string>)
    requires |parts| == 4 && AllOctets(parts)
    ensures OctetsValue(parts) ==
            Ipv4Value(Number(parts[0]), Number(parts[1]), Number(parts[2]), Number(parts[3]))
  {
    assert parts == parts[..4] && OctetsValue(parts[..0]) == 0;
    NextOctet(parts, 0);
    NextOctet(parts, 1);
    NextOctet(parts, 2);
    NextOctet(parts, 3);
  }

  lemma Ipv4InRange(s: string)
    ensures ReadIpv4(s).Some? ==> ReadIpv4(s).value < 0x1_0000_0000
  {
    if ReadIpv4(s).Some? {
      var parts := Split(s, '.');
      FourOctets(parts);
      OctetsOfValue(Number(parts[0]), Number(parts[1]), Number(parts[2]), Number(parts[3]));
    }
  }

  predicate IsPublicIpv4Address(value: nat)
  {
    var (a, b, c, d) := Ipv4Octets(value);
    if a == 0 || a == 10 || a == 127 then false
    else if a == 100 && 64 <= b <= 127 then false
    else if a == 169 && b == 254 then false
    else if a == 172 && 16 <= b <= 31 then false
    else if a == 192 && b == 0 && (c == 0 || c == 2) then false
    else if a == 192 && b == 88 && c == 99 then false
    else if a == 192 && b == 168 then false
    else if a == 192 && b == 31 && c == 196 then false
    else if a == 192 && b == 52 && c == 193 then false
    else if a == 198 && (b == 18 || b == 19) then false
    else if a == 198 && b == 51 && c == 100 then false
    else if a == 203 && b == 0 && c == 113 then false
    else if a >= 224 then false
    else true
  }

  const SLASH_24 := 0x100
  const SLASH_16 := 0x1_0000
  const SLASH_8 := 0x100_0000

  /** The run of `size` addresses that starts at a.b.c.0. */
  predicate InIpv4Block(value: nat, a: Octet, b: Octet, c: Octet, size: nat)
  {
    Ipv4Value(a, b, c, 0) <= value < Ipv4Value(a, b, c, 0) + size
  }

  lemma BlockOfFirst(a: Octet, b: Octet, c: Octet, d: Octet, p: Octet, n: nat)
    ensures InIpv4Block(Ipv4Value(a, b, c, d), p, 0, 0, n * SLASH_8) <==> p <= a < p + n
  {
  }

  lemma BlockOfSecond(a: Octet, b: Octet, c: Octet, d: Octet, p: Octet, q: Octet, n: nat)
    requires q + n <= 256
    ensures InIpv4Block(Ipv4Value(a, b, c, d), p, q, 0, n * SLASH_16) <==> a == p && q <= b < q + n
  {
    var x, y := a * 256 + b, p * 256 + q;
    assert InIpv4Block(Ipv4Value(a, b, c, d), p, q, 0, n * SLASH_16) <==> y <= x < y + n;
  }

  lemma BlockOfThird(a: Octet, b: Octet, c: Octet, d: Octet, p: Octet, q: Octet, r: Octet)
    ensures InIpv4Block(Ipv4Value(a, b, c, d), p, q, r, SLASH_24) <==> a == p && b == q && c == r
  {
    var x, y := (a * 256 + b) * 256 + c, (p * 256 + q) * 256 + r;
    assert InIpv4Block(Ipv4Value(a, b, c, d), p, q, r, SLASH_24) <==> x == y;
    LowOctet(a * 256 + b, c);
    LowOctet(p * 256 + q, r);
    LowOctet(a, b);
    LowOctet(p, q);
  }

  /** The special-use blocks of IPv4, by first address and length. */
  predicate InSpecialIpv4Block(value: nat)
  {
    || InIpv4Block(value, 0, 0, 0, 1 * SLASH_8) || InIpv4Block(value, 10, 0, 0, 1 * SLASH_8)
    || InIpv4Block(value, 127, 0, 0, 1 * SLASH_8) || InIpv4Block(value, 100, 64, 0, 64 * SLASH_16)
    || InIpv4Block(value, 169, 254, 0, 1 * SLASH_16) || InIpv4Block(value, 172, 16, 0, 16 * SLASH_16)
    || InIpv4Block(value, 192, 0, 0, SLASH_24) || InIpv4Block(value, 192, 0, 2, SLASH_24)
    || InIpv4Block(value, 192, 88, 99, SLASH_24) || InIpv4Block(value, 192, 168, 0, 1 * SLASH_16)
    || InIpv4Block(value, 192, 31, 196, SLASH_24) || InIpv4Block(value, 192, 52, 193, SLASH_24)
    || InIpv4Block(value, 198, 18, 0, 2 * SLASH_16) || InIpv4Block(value, 198, 51, 100, SLASH_24)
    || InIpv4Block(value, 203, 0, 113, SLASH_24) || InIpv4Block(value, 224, 0, 0, 32 * SLASH_8)
  }

  /** The branches on octets exclude exactly the special-use blocks. */
  lemma PublicIpv4IsOutsideBlocks(value: nat)
    requires value < 0x1_0000_0000
    ensures IsPublicIpv4Address(value) <==> !InSpecialIpv4Block(value)
  {
    var (a, b, c, d) := Ipv4Octets(value);
    ValueOfOctets(value);
    BlockOfFirst(a, b, c, d, 0, 1);
    BlockOfFirst(a, b, c, d, 10, 1);
    BlockOfFirst(a, b, c, d, 127, 1);
    BlockOfFirst(a, b, c, d, 224, 32);
    BlockOfSecond(a, b, c, d, 100, 64, 64);
    BlockOfSecond(a, b, c, d, 169, 254, 1);
    BlockOfSecond(a, b, c, d, 172, 16, 16);
    BlockOfSecond(a, b, c, d, 192, 168, 1);
    BlockOfSecond(a, b, c, d, 198, 18, 2);
    BlockOfThird(a, b, c, d, 192, 0, 0);
    BlockOfThird(a, b, c, d, 192, 0, 2);
    BlockOfThird(a, b, c, d, 192, 88, 99);
    BlockOfThird(a, b, c, d, 192, 31, 196);
    BlockOfThird(a, b, c, d, 192, 52, 193);
    BlockOfThird(a, b, c, d, 198, 51, 100);
    BlockOfThird(a, b, c, d, 203, 0, 113);
  }
}
