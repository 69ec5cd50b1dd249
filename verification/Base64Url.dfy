/** base64url (section 5 of RFC 4648) over the runtime's btoa and atob. */
module Base64Url {
  import opened Wrappers

  type Byte = b: nat | b < 256
  type Sextet = q: nat | q < 64

  // ----- the alphabet -----

  predicate InAlphabet(c: char)
  {
    'A' <= c <= 'Z' || 'a' <= c <= 'z' || '0' <= c <= '9' || c == '+' || c == '/'
  }

  predicate InUrlAlphabet(c: char)
  {
    'A' <= c <= 'Z' || 'a' <= c <= 'z' || '0' <= c <= '9' || c == '-' || c == '_'
  }

  function Symbol(q: Sextet): (c: char)
    ensures InAlphabet(c)
  {
    if q < 26 then ('A' as int + q) as char
    else if q < 52 then ('a' as int + q - 26) as char
    else if q < 62 then ('0' as int + q - 52) as char
    else if q == 62 then '+' else '/'
  }

  function Rank(c: char): (q: Sextet)
    requires InAlphabet(c)
    ensures Symbol(q) == c
  {
    if 'A' <= c <= 'Z' then c as int - 'A' as int
    else if 'a' <= c <= 'z' then c as int - 'a' as int + 26
    else if '0' <= c <= '9' then c as int - '0' as int + 52
    else if c == '+' then 62 else 63
  }

  function Symbols(qs: seq<Sextet>): string
  {
    seq(|qs|, i requires 0 <= i < |qs| => Symbol(qs[i]))
  }

  function Ranks(s: string): seq<Sextet>
    requires forall i :: 0 <= i < |s| ==> InAlphabet(s[i])
  {
    seq(|s|, i requires 0 <= i < |s| => Rank(s[i]))
  }

  // ----- octets and sextets -----

  function First(x: Byte): Sextet { x / 4 }

  function Second(x: Byte, y: Byte): Sextet { x % 4 * 16 + y / 16 }

  function Third(y: Byte, z: Byte): Sextet { y % 16 * 4 + z / 64 }

  function Fourth(z: Byte): Sextet { z % 64 }

  function High(a: Sextet, b: Sextet): Byte { a * 4 + b / 16 }

  function Middle(b: Sextet, c: Sextet): Byte { b % 16 * 16 + c / 4 }

  function Low(c: Sextet, d: Sextet): Byte { c % 4 * 64 + d }

  lemma SextetsReturn(a: Sextet, b: Sextet, c: Sextet, d: Sextet)
    ensures First(High(a, b)) == a
    ensures Second(High(a, b), Middle(b, c)) == b
    ensures Third(Middle(b, c), Low(c, d)) == c
    ensures Fourth(Low(c, d)) == d
    ensures Second(High(a, b), 0) == b <==> b % 16 == 0
    ensures Third(Middle(b, c), 0) == c <==> c % 4 == 0
  {
  }

  lemma OctetsReturn(x: Byte, y: Byte, z: Byte)
    ensures High(First(x), Second(x, y)) == x
    ensures Middle(Second(x, y), Third(y, z)) == y
    ensures Low(Third(y, z), Fourth(z)) == z
    ensures Second(x, 0) % 16 == 0 && Third(y, 0) % 4 == 0
  {
  }

  function Sextets(bs: seq<Byte>): (qs: seq<Sextet>)
    ensures |qs| % 4 != 1
    ensures qs == [] <==> bs == []
  {
    if bs == [] then []
    else if |bs| == 1 then [First(bs[0]), Second(bs[0], 0)]
    else if |bs| == 2 then [First(bs[0]), Second(bs[0], bs[1]), Third(bs[1], 0)]
    else [First(bs[0]), Second(bs[0], bs[1]), Third(bs[1], bs[2]), Fourth(bs[2])] + Sextets(bs[3..])
  }

  /** Bits left over at the end are dropped. */
  function Octets(qs: seq<Sextet>): (bs: seq<Byte>)
    requires |qs| % 4 != 1
    ensures bs == [] <==> qs == []
  {
    if qs == [] then []
    else if |qs| == 2 then [High(qs[0], qs[1])]
    else if |qs| == 3 then [High(qs[0], qs[1]), Middle(qs[1], qs[2])]
    else [High(qs[0], qs[1]), Middle(qs[1], qs[2]), Low(qs[2], qs[3])] + Octets(qs[4..])
  }

  /** No bit is set in the part of the last sextet that no octet uses. */
  predicate SpareBitsZero(qs: seq<Sextet>)
  {
    && (|qs| % 4 == 2 ==> qs[|qs| - 1] % 16 == 0)
    && (|qs| % 4 == 3 ==> qs[|qs| - 1] % 4 == 0)
  }

  lemma OctetsCons(a: Sextet, b: Sextet, c: Sextet, d: Sextet, rest: seq<Sextet>)
    requires |rest| % 4 != 1
    ensures (|rest| + 4) % 4 != 1
    ensures Octets([a, b, c, d] + rest) == [High(a, b), Middle(b, c), Low(c, d)] + Octets(rest)
  {
    var qs := [a, b, c, d] + rest;
    assert qs[4..] == rest && qs[0] == a && qs[1] == b && qs[2] == c && qs[3] == d;
  }

  lemma SpareBitsCons(a: Sextet, b: Sextet, c: Sextet, d: Sextet, rest: seq<Sextet>)
    ensures SpareBitsZero([a, b, c, d] + rest) <==> SpareBitsZero(rest)
  {
    var qs := [a, b, c, d] + rest;
    assert |qs| % 4 == |rest| % 4;
    assert rest != [] ==> qs[|qs| - 1] == rest[|rest| - 1];
  }

  lemma {:induction false} OctetsLength(qs: seq<Sextet>)
    requires |qs| % 4 != 1
    ensures |Octets(qs)| == |qs| * 3 / 4
  {
    if |qs| >= 4 {
      OctetsLength(qs[4..]);
      assert |Octets(qs)| == 3 + |Octets(qs[4..])|;
      assert |qs| * 3 == (|qs| - 4) * 3 + 12;
    }
  }

  lemma SextetsCons(x: Byte, y: Byte, z: Byte, rest: seq<Byte>)
    ensures Sextets([x, y, z] + rest) == [First(x), Second(x, y), Third(y, z), Fourth(z)] + Sextets(rest)
  {
    assert ([x, y, z] + rest)[3..] == rest;
  }

  lemma OneOctetReturns(x: Byte)
    ensures Octets(Sextets([x])) == [x] && SpareBitsZero(Sextets([x]))
  {
    var a, b := First(x), Second(x, 0);
    assert High(a, b) == x && b % 16 == 0;
    assert Sextets([x]) == [a, b];
    assert Octets([a, b]) == [High(a, b)];
  }

  lemma TwoOctetsReturn(x: Byte, y: Byte)
    ensures Octets(Sextets([x, y])) == [x, y] && SpareBitsZero(Sextets([x, y]))
  {
    assert Sextets([x, y]) == [First(x), Second(x, y), Third(y, 0)];
    OctetsReturn(x, y, 0);
  }

  lemma {:induction false} OctetsOfSextets(bs: seq<Byte>)
    ensures Octets(Sextets(bs)) == bs && SpareBitsZero(Sextets(bs))
  {
    if bs == [] {
    } else if |bs| == 1 {
      OneOctetReturns(bs[0]);
      assert bs == [bs[0]];
    } else if |bs| == 2 {
      TwoOctetsReturn(bs[0], bs[1]);
      assert bs == [bs[0], bs[1]];
    } else {
      OctetsOfSextets(bs[3..]);
      GroupReturns(bs[0], bs[1], bs[2], bs[3..]);
      assert bs == [bs[0], bs[1], bs[2]] + bs[3..];
    }
  }

  lemma GroupReturns(x: Byte, y: Byte, z: Byte, rest: seq<Byte>)
    requires Octets(Sextets(rest)) == rest && SpareBitsZero(Sextets(rest))
    ensures var bs := [x, y, z] + rest;
            Octets(Sextets(bs)) == bs && SpareBitsZero(Sextets(bs))
  {
    SextetsCons(x, y, z, rest);
    OctetsCons(First(x), Second(x, y), Third(y, z), Fourth(z), Sextets(rest));
    SpareBitsCons(First(x), Second(x, y), Third(y, z), Fourth(z), Sextets(rest));
    OctetsReturn(x, y, z);
  }

  lemma ShortSextetsReturn(qs: seq<Sextet>)
    requires |qs| < 4 && |qs| != 1
    ensures |Sextets(Octets(qs))| == |qs|
    ensures Sextets(Octets(qs)) == qs <==> SpareBitsZero(qs)
  {
    if |qs| == 2 {
      SextetsReturn(qs[0], qs[1], 0, 0);
    } else if |qs| == 3 {
      SextetsReturn(qs[0], qs[1], qs[2], 0);
    }
  }

  lemma FourReturn(a: Sextet, b: Sextet, c: Sextet, d: Sextet, rest: seq<Sextet>)
    requires |rest| % 4 != 1
    ensures (|rest| + 4) % 4 != 1
    ensures Sextets(Octets([a, b, c, d] + rest)) == [a, b, c, d] + Sextets(Octets(rest))
  {
    OctetsCons(a, b, c, d, rest);
    SextetsCons(High(a, b), Middle(b, c), Low(c, d), Octets(rest));
    SextetsReturn(a, b, c, d);
  }

  lemma {:induction false} SextetsOfOctets(qs: seq<Sextet>)
    requires |qs| % 4 != 1
    ensures |Sextets(Octets(qs))| == |qs|
    ensures Sextets(Octets(qs)) == qs <==> SpareBitsZero(qs)
  {
    if |qs| < 4 {
      ShortSextetsReturn(qs);
    } else {
      var four, rest := [qs[0], qs[1], qs[2], qs[3]], qs[4..];
      assert qs == four + rest;
      SextetsOfOctets(rest);
      FourReturn(qs[0], qs[1], qs[2], qs[3], rest);
      SpareBitsCons(qs[0], qs[1], qs[2], qs[3], rest);
      assert (four + Sextets(Octets(rest)))[4..] == Sextets(Octets(rest));
    }
  }

  // ----- the runtime's string functions -----

  /** `s.replace(/x/g, y)` */
  function Replace(s: string, x: char, y: char): string
  {
    seq(|s|, i requires 0 <= i < |s| => if s[i] == x then y else s[i])
  }

  function Repeat(c: char, n: nat): (s: string)
    ensures |s| == n && forall i :: 0 <= i < n ==> s[i] == c
  {
    seq(n, i requires 0 <= i < n => c)
  }

  /** `s.replace(/=+$/g, "")` */
  function StripPadding(s: string): string
  {
    if s != [] && s[|s| - 1] == '=' then StripPadding(s[..|s| - 1]) else s
  }

  lemma {:induction false} StripsExactly(s: string, n: nat)
    requires s != [] ==> s[|s| - 1] != '='
    ensures StripPadding(s + Repeat('=', n)) == s
  {
    if n > 0 {
      StripsExactly(s, n - 1);
      assert (s + Repeat('=', n))[..|s| + n - 1] == s + Repeat('=', n - 1);
    } else {
      assert s + Repeat('=', 0) == s;
    }
  }

  predicate IsBinary(s: string)
  {
    forall i :: 0 <= i < |s| ==> s[i] as int < 256
  }

  function Codes(s: string): seq<Byte>
    requires IsBinary(s)
  {
    seq(|s|, i requires 0 <= i < |s| => s[i] as int)
  }

  function Binary(bs: seq<Byte>): (s: string)
    ensures IsBinary(s) && Codes(s) == bs
  {
    seq(|bs|, i requires 0 <= i < |bs| => bs[i] as char)
  }

  /** btoa: the standard alphabet, padded to a multiple of four. */
  function Btoa(s: string): string
    requires IsBinary(s)
  {
    Symbols(Sextets(Codes(s))) + Repeat('=', if |s| % 3 == 0 then 0 else 3 - |s| % 3)
  }

  predicate IsWhitespace(c: char)
  {
    c == ' ' || c == '\t' || c == '\n' || c == '\r' || c as int == 12
  }

  function WithoutWhitespace(s: string): string
  {
    if s == [] then []
    else (if IsWhitespace(s[0]) then [] else [s[0]]) + WithoutWhitespace(s[1..])
  }

  lemma {:induction false} NothingRemoved(s: string)
    requires forall i :: 0 <= i < |s| ==> !IsWhitespace(s[i])
    ensures WithoutWhitespace(s) == s
  {
    if s != [] {
      NothingRemoved(s[1..]);
    }
  }

  /** Up to two padding characters go, and only from a length that is a multiple of four. */
  function Unpadded(s: string): string
  {
    if |s| % 4 == 0 && |s| > 0 && s[|s| - 1] == '=' then
      if s[|s| - 2] == '=' then s[..|s| - 2] else s[..|s| - 1]
    else s
  }

  /** atob: the forgiving-base64 decode of the WHATWG Infra Standard; None where it throws. */
  function Atob(s: string): (binary: Option<string>)
    ensures binary.Some? ==> IsBinary(binary.value)
  {
    var data := Unpadded(WithoutWhitespace(s));
    if |data| % 4 == 1 || exists i :: 0 <= i < |data| && !InAlphabet(data[i]) then None
    else Some(Binary(Octets(Ranks(data))))
  }

  // ----- the codec -----

  function Encode(bs: seq<Byte>): string
  {
    StripPadding(Replace(Replace(Btoa(Binary(bs)), '+', '-'), '/', '_'))
  }

  method BytesToBase64Url(bytes: array<Byte>) returns (text: string)
    ensures text == Encode(bytes[..])
  {
    var binary := "";
    for i := 0 to bytes.Length
      invariant IsBinary(binary) && Codes(binary) == bytes[..i]
    {
      binary := binary + [bytes[i] as char];
    }
    assert bytes[..bytes.Length] == bytes[..];
    CodesInjective(binary, Binary(bytes[..]));
    text := StripPadding(Replace(Replace(Btoa(binary), '+', '-'), '/', '_'));
  }

  lemma CodesInjective(s: string, t: string)
    requires IsBinary(s) && IsBinary(t) && Codes(s) == Codes(t)
    ensures s == t
  {
    assert |s| == |Codes(s)| == |t|;
    forall i | 0 <= i < |s| ensures s[i] == t[i] {
      assert Codes(s)[i] == Codes(t)[i];
    }
  }

  /** The same text in the standard alphabet. */
  function Standard(value: string): string
  {
    Replace(Replace(value, '-', '+'), '_', '/')
  }

  /** The standard spelling of a base64url string, padded to a multiple of four. */
  function Padded(value: string): string
  {
    Standard(value) + Repeat('=', (4 - |value| % 4) % 4)
  }

  predicate IsUrlText(value: string)
  {
    value != "" && forall i :: 0 <= i < |value| ==> InUrlAlphabet(value[i])
  }

  /** base64UrlToBytes; None where it throws. */
  function Decode(value: string): Option<seq<Byte>>
  {
    if !IsUrlText(value) then None
    else
      match Atob(Padded(value))
      case None => None
      case Some(binary) => if Encode(Codes(binary)) == value then Some(Codes(binary)) else None
  }

  // ----- correctness -----

  /** The url spelling of sextets. */
  function UrlSymbol(q: Sextet): (c: char)
    ensures InUrlAlphabet(c)
  {
    if q == 62 then '-' else if q == 63 then '_' else Symbol(q)
  }

  function UrlRank(c: char): (q: Sextet)
    requires InUrlAlphabet(c)
    ensures UrlSymbol(q) == c
  {
    if c == '-' then 62 else if c == '_' then 63 else Rank(c)
  }

  function UrlSymbols(qs: seq<Sextet>): string
  {
    seq(|qs|, i requires 0 <= i < |qs| => UrlSymbol(qs[i]))
  }

  function UrlRanks(s: string): (qs: seq<Sextet>)
    requires forall i :: 0 <= i < |s| ==> InUrlAlphabet(s[i])
    ensures |qs| == |s| && UrlSymbols(qs) == s
  {
    seq(|s|, i requires 0 <= i < |s| => UrlRank(s[i]))
  }

  lemma UrlRanksOfSymbols(qs: seq<Sextet>)
    ensures UrlRanks(UrlSymbols(qs)) == qs
  {
    forall i | 0 <= i < |qs| ensures UrlRank(UrlSymbol(qs[i])) == qs[i] {
    }
  }

  /** The encoder spells the bytes' sextets in the url alphabet, without padding. */
  lemma EncodeSpellsSextets(bs: seq<Byte>)
    ensures Encode(bs) == UrlSymbols(Sextets(bs))
  {
    var qs, n := Sextets(bs), if |bs| % 3 == 0 then 0 else 3 - |bs| % 3;
    assert |Binary(bs)| == |Codes(Binary(bs))| == |bs|;
    assert Replace(Replace(Btoa(Binary(bs)), '+', '-'), '/', '_') == UrlSymbols(qs) + Repeat('=', n);
    if qs != [] {
      assert InUrlAlphabet(UrlSymbols(qs)[|qs| - 1]);
    }
    StripsExactly(UrlSymbols(qs), n);
  }

  lemma StandardReads(value: string)
    requires IsUrlText(value)
    ensures forall i :: 0 <= i < |value| ==> InAlphabet(Standard(value)[i])
    ensures Ranks(Standard(value)) == UrlRanks(value)
  {
    forall i | 0 <= i < |value|
      ensures InAlphabet(Standard(value)[i]) && Rank(Standard(value)[i]) == UrlRank(value[i])
    {
    }
  }

  lemma UnpaddedKeeps(text: string, n: nat)
    requires text != "" && text[|text| - 1] != '=' && n <= 3 && (|text| + n) % 4 == 0
    ensures n != 3 ==> Unpadded(text + Repeat('=', n)) == text
    ensures n == 3 ==> Unpadded(text + Repeat('=', n)) == text + "="
  {
    var padded := text + Repeat('=', n);
    assert n > 0 ==> padded[|padded| - 1] == '=';
    assert n > 1 ==> padded[|padded| - 2] == '=';
    assert n == 1 ==> padded[|padded| - 2] == text[|text| - 1];
    assert padded[..|text|] == text;
    if n == 3 {
      assert padded[..|padded| - 2] == text + "=";
    }
  }

  /** atob drops the padding again; three padding characters are one too many. */
  lemma PaddingDropped(value: string)
    requires IsUrlText(value)
    ensures Unpadded(WithoutWhitespace(Padded(value))) ==
            if |value| % 4 == 1 then Standard(value) + "=" else Standard(value)
  {
    StandardReads(value);
    assert |Standard(value)| == |value|;
    assert InAlphabet(Standard(value)[|value| - 1]);
    NothingRemoved(Padded(value));
    UnpaddedKeeps(Standard(value), (4 - |value| % 4) % 4);
  }

  /** On url text, atob of the padded spelling drops the padding and reads the sextets. */
  lemma AtobReads(value: string)
    requires IsUrlText(value)
    ensures Atob(Padded(value)) ==
            if |value| % 4 == 1 then None else Some(Binary(Octets(UrlRanks(value))))
  {
    PaddingDropped(value);
    StandardReads(value);
    assert |Standard(value)| == |value|;
    assert !InAlphabet((Standard(value) + "=")[|value|]);
  }

  /** Url text whose length is not 1 modulo 4 and whose last character has no spare bits set. */
  predicate Canonical(value: string)
  {
    IsUrlText(value) && |value| % 4 != 1 && SpareBitsZero(UrlRanks(value))
  }

  /** The decoder accepts exactly the canonical spellings. */
  lemma DecodeIffCanonical(value: string)
    ensures Decode(value).Some? <==> Canonical(value)
    ensures Decode(value).Some? ==> Encode(Decode(value).value) == value
    ensures Decode(value).Some? ==> Decode(value).value != []
  {
    if IsUrlText(value) {
      AtobReads(value);
      if |value| % 4 != 1 {
        var qs := UrlRanks(value);
        EncodeSpellsSextets(Octets(qs));
        SextetsOfOctets(qs);
        UrlRanksOfSymbols(Sextets(Octets(qs)));
        assert Decode(value).Some? <==> UrlSymbols(Sextets(Octets(qs))) == UrlSymbols(qs);
      }
    }
  }

  /** Decoding undoes encoding for every nonempty byte string; nothing encodes to an acceptable empty text. */
  lemma DecodeEncode(bs: seq<Byte>)
    ensures Decode(Encode(bs)) == if bs == [] then None else Some(bs)
  {
    EncodeSpellsSextets(bs);
    if bs != [] {
      var qs := Sextets(bs);
      OctetsOfSextets(bs);
      UrlRanksOfSymbols(qs);
      AtobReads(Encode(bs));
    }
  }

  /** A text decodes exactly when it is what the encoder writes for some nonempty bytes. */
  lemma DecodesExactlyTheEncodings(value: string, bs: seq<Byte>)
    ensures Decode(value) == Some(bs) <==> bs != [] && Encode(bs) == value
  {
    DecodeIffCanonical(value);
    DecodeEncode(bs);
  }

  // ----- request-authentication secrets -----

  predicate IsHexDigit(c: char)
  {
    '0' <= c <= '9' || 'a' <= c <= 'f' || 'A' <= c <= 'F'
  }

  /** At least 32 pairs of hexadecimal digits. */
  predicate IsHexSecret(s: string)
  {
    |s| % 2 == 0 && |s| >= 64 && forall i :: 0 <= i < |s| ==> IsHexDigit(s[i])
  }

  /** isValidRequestAuthSecret in the Pages function. */
  predicate PagesAccepts(secret: string)
  {
    if IsHexSecret(secret) then true
    else if !IsUrlText(secret) || |secret| < 43 then false
    else
      match Decode(secret)
      case Some(bytes) => |bytes| >= 32
      case None => false
  }

  /** isValidRequestAuthSecret in the signer. */
  predicate SignerAccepts(secret: string)
  {
    if IsHexSecret(secret) then true
    else if !IsUrlText(secret) || |secret| < 43 then false
    else
      match Atob(Padded(secret))
      case Some(binary) => |binary| >= 32
      case None => false
  }

  /** The signer goes by length and alphabet alone; 43 characters already carry 32 bytes. */
  lemma SignerAcceptsIff(secret: string)
    ensures SignerAccepts(secret) <==>
              IsHexSecret(secret) || (IsUrlText(secret) && |secret| >= 43 && |secret| % 4 != 1)
  {
    if IsUrlText(secret) && |secret| >= 43 {
      AtobReads(secret);
      if |secret| % 4 != 1 {
        LongEnough(secret);
      }
    }
  }

  lemma LongEnough(secret: string)
    requires IsUrlText(secret) && |secret| >= 43 && |secret| % 4 != 1
    ensures |Octets(UrlRanks(secret))| >= 32
    ensures |Binary(Octets(UrlRanks(secret)))| >= 32
  {
    OctetsLength(UrlRanks(secret));
    assert |secret| * 3 >= 43 * 3;
  }

  lemma PagesAcceptsIff(secret: string)
    ensures PagesAccepts(secret) <==> IsHexSecret(secret) || (|secret| >= 43 && Canonical(secret))
  {
    if IsUrlText(secret) && |secret| >= 43 {
      DecodeIffCanonical(secret);
      AtobReads(secret);
      if |secret| % 4 != 1 {
        LongEnough(secret);
      }
    }
  }

  /** Whatever the Pages function accepts the signer accepts; they differ only on nonzero spare bits. */
  lemma SignerAcceptsWhatPagesAccepts(secret: string)
    ensures PagesAccepts(secret) ==> SignerAccepts(secret)
    ensures SignerAccepts(secret) && !PagesAccepts(secret) <==>
              && !IsHexSecret(secret) && IsUrlText(secret) && |secret| >= 43 && |secret| % 4 != 1
              && !SpareBitsZero(UrlRanks(secret))
  {
    SignerAcceptsIff(secret);
    PagesAcceptsIff(secret);
  }
}
