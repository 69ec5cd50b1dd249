/** application/x-www-form-urlencoded text (section 5 of the WHATWG URL Standard). */
module FormEncoding {
  import opened Text

  /** A byte string is a string of characters below 256. */
  predicate IsBytes(s: string)
  {
    forall i :: 0 <= i < |s| ==> s[i] as int < 256
  }

  predicate IsAscii(s: string)
  {
    forall i :: 0 <= i < |s| ==> s[i] as int < 128
  }

  /** UTF-8: encoding, validity, and the decoder that replaces what is not valid. */
  datatype Utf8 = Utf8(encode: string -> string, valid: string -> bool, decode: string -> string)

  /** Encoding yields bytes, leaves ASCII alone, and is undone by decoding on well-formed strings. */
  ghost predicate SoundUtf8(u: Utf8)
  {
    && (forall s :: IsBytes(u.encode(s)))
    && (forall s :: IsAscii(s) ==> u.encode(s) == s && u.decode(s) == s && u.valid(s))
  }

  /** A string that survives UTF-8: one without lone surrogates. */
  predicate Survives(u: Utf8, s: string)
  {
    u.decode(u.encode(s)) == s
  }

  // ----- percent encoding of bytes -----

  predicate IsUnreserved(c: char)
  {
    'A' <= c <= 'Z' || 'a' <= c <= 'z' || '0' <= c <= '9' || c == '*' || c == '-' || c == '.' || c == '_'
  }

  predicate IsHexDigit(c: char)
  {
    '0' <= c <= '9' || 'a' <= c <= 'f' || 'A' <= c <= 'F'
  }

  function HexDigit(n: nat): (c: char)
    requires n < 16
    ensures IsHexDigit(c) && HexValue(c) == n
  {
    if n < 10 then ('0' as int + n) as char else ('A' as int + n - 10) as char
  }

  function HexValue(c: char): (n: nat)
    requires IsHexDigit(c)
    ensures n < 16
  {
    if '0' <= c <= '9' then c as int - '0' as int
    else if 'a' <= c <= 'f' then c as int - 'a' as int + 10
    else c as int - 'A' as int + 10
  }

  function EncodeByte(b: char): string
    requires b as int < 256
  {
    if IsUnreserved(b) then [b]
    else if b == ' ' then "+"
    else ['%', HexDigit(b as int / 16), HexDigit(b as int % 16)]
  }

  function EncodeBytes(s: string): string
    requires IsBytes(s)
  {
    if s == "" then "" else EncodeByte(s[0]) + EncodeBytes(s[1..])
  }

  /** `%` and two hexadecimal digits become a byte; anything else stays. */
  function PercentDecode(s: string): string
  {
    if s == "" then ""
    else if |s| >= 3 && s[0] == '%' && IsHexDigit(s[1]) && IsHexDigit(s[2]) then
      [(HexValue(s[1]) * 16 + HexValue(s[2])) as char] + PercentDecode(s[3..])
    else [s[0]] + PercentDecode(s[1..])
  }

  function PlusToSpace(s: string): string
  {
    seq(|s|, i requires 0 <= i < |s| => if s[i] == '+' then ' ' else s[i])
  }

  function DecodeBytes(s: string): string
  {
    PercentDecode(PlusToSpace(s))
  }

  lemma DecodeEncodedByte(b: char, rest: string)
    requires b as int < 256
    ensures DecodeBytes(EncodeByte(b) + rest) == [b] + DecodeBytes(rest)
  {
    var e := EncodeByte(b);
    assert PlusToSpace(e + rest) == PlusToSpace(e) + PlusToSpace(rest);
    if IsUnreserved(b) || b == ' ' {
      assert PlusToSpace(e) == [b];
      assert ([b] + PlusToSpace(rest))[1..] == PlusToSpace(rest);
    } else {
      assert PlusToSpace(e) == e;
      assert (e + PlusToSpace(rest))[3..] == PlusToSpace(rest);
      assert (b as int / 16 * 16 + b as int % 16) as char == b;
    }
  }

  /** Decoding undoes encoding for every byte string. */
  lemma {:induction false} DecodeEncodedBytes(s: string)
    requires IsBytes(s)
    ensures DecodeBytes(EncodeBytes(s)) == s
  {
    if s != "" {
      DecodeEncodedBytes(s[1..]);
      DecodeEncodedByte(s[0], EncodeBytes(s[1..]));
      assert s == [s[0]] + s[1..];
    } else {
      assert PlusToSpace("") == "";
    }
  }

  /** The characters an encoded component may hold. */
  predicate IsEncodedChar(c: char)
  {
    IsUnreserved(c) || c == '+' || c == '%'
  }

  lemma {:induction false} EncodedChars(s: string)
    requires IsBytes(s)
    ensures forall i :: 0 <= i < |EncodeBytes(s)| ==> IsEncodedChar(EncodeBytes(s)[i])
    ensures IsAscii(EncodeBytes(s)) && '&' !in EncodeBytes(s) && '=' !in EncodeBytes(s)
  {
    if s != "" {
      EncodedChars(s[1..]);
    }
  }

  // ----- what the encoding looks like, byte by byte -----

  /** A digit, small or capital, is worth its place among the sixteen; the capital ones are written. */
  lemma DigitsHavePlaces(c: char, k: nat)
    requires k < 16
    ensures IsHexDigit(c) && HexValue(c) == k <==> c == "0123456789ABCDEF"[k] || c == "0123456789abcdef"[k]
    ensures HexDigit(k) == "0123456789ABCDEF"[k]
  {
  }

  /** Letters, digits and `*-._` stand for themselves, a space becomes `+`, and any other byte its escape. */
  lemma BytesAreSpelled(b: char)
    requires b as int < 256
    ensures 'a' <= b <= 'z' || 'A' <= b <= 'Z' || '0' <= b <= '9' || b in "*-._" ==> EncodeByte(b) == [b]
    ensures b == ' ' ==> EncodeByte(b) == "+"
    ensures EncodeByte(b) == [b] || EncodeByte(b) == "+" ||
            EncodeByte(b) == ['%', "0123456789ABCDEF"[b as int / 16], "0123456789ABCDEF"[b as int % 16]]
    ensures !('a' <= b <= 'z' || 'A' <= b <= 'Z' || '0' <= b <= '9' || b in "*-._ ") ==> |EncodeByte(b)| == 3
  {
    DigitsHavePlaces('0', b as int / 16);
    DigitsHavePlaces('0', b as int % 16);
  }

  /** An escape decodes to its byte, whatever the case of its digits. */
  lemma EscapesDecode(h: nat, l: nat, x: char, y: char, rest: string)
    requires h < 16 && l < 16
    requires x == "0123456789ABCDEF"[h] || x == "0123456789abcdef"[h]
    requires y == "0123456789ABCDEF"[l] || y == "0123456789abcdef"[l]
    ensures PercentDecode(['%', x, y] + rest) == [(16 * h + l) as char] + PercentDecode(rest)
  {
    DigitsHavePlaces(x, h);
    DigitsHavePlaces(y, l);
    assert (['%', x, y] + rest)[3..] == rest;
  }

  /** Anything else decodes to itself. */
  lemma OthersStay(c: char, rest: string)
    requires c == '%' ==> |rest| < 2 || !IsHexDigit(rest[0]) || !IsHexDigit(rest[1])
    ensures PercentDecode([c] + rest) == [c] + PercentDecode(rest)
  {
    assert ([c] + rest)[1..] == rest;
  }

  // ----- name-value lists -----

  type Params = seq<(string, string)>

  function EncodeText(u: Utf8, s: string): string
    requires SoundUtf8(u)
  {
    EncodeBytes(u.encode(s))
  }

  function DecodeText(u: Utf8, s: string): string
  {
    u.decode(DecodeBytes(u.encode(s)))
  }

  function Pieces(u: Utf8, params: Params): seq<string>
    requires SoundUtf8(u)
  {
    seq(|params|, i requires 0 <= i < |params| =>
      EncodeText(u, params[i].0) + "=" + EncodeText(u, params[i].1))
  }

  /** `new URLSearchParams(params).toString()` */
  function Serialize(u: Utf8, params: Params): string
    requires SoundUtf8(u)
  {
    Join(Pieces(u, params), '&')
  }

  /** The part before the first `=` and the part after it. */
  function SplitPair(piece: string): (string, string)
  {
    if piece == "" then ("", "")
    else if piece[0] == '=' then ("", piece[1..])
    else
      var (name, value) := SplitPair(piece[1..]);
      ([piece[0]] + name, value)
  }

  function ParsePieces(u: Utf8, pieces: seq<string>): Params
  {
    if pieces == [] then []
    else if pieces[0] == "" then ParsePieces(u, pieces[1..])
    else
      var (name, value) := SplitPair(pieces[0]);
      [(DecodeText(u, name), DecodeText(u, value))] + ParsePieces(u, pieces[1..])
  }

  /** `new URLSearchParams(raw)` */
  function Parse(u: Utf8, raw: string): Params
  {
    ParsePieces(u, Split(raw, '&'))
  }

  /** A piece is cut at its first `=`; without one it is all name. */
  lemma {:induction false} PiecesAreCut(piece: string, name: string, value: string)
    ensures SplitPair(piece) == (name, value) <==>
              '=' !in name && (piece == name + "=" + value || (piece == name && value == ""))
  {
    if piece != "" && piece[0] != '=' {
      var rest := piece[1..];
      var (n, v) := SplitPair(rest);
      PiecesAreCut(rest, n, v);
      assert piece == [piece[0]] + rest;
      if name != "" {
        PiecesAreCut(rest, name[1..], value);
        assert name == [name[0]] + name[1..];
        assert [name[0]] + name[1..] + "=" + value == [name[0]] + (name[1..] + "=" + value);
      }
    }
  }

  /** Empty pieces count for nothing, and every other piece gives one pair. */
  lemma {:induction false} PiecesGivePairs(u: Utf8, before: seq<string>, piece: string)
    ensures ParsePieces(u, before + [piece]) ==
            ParsePieces(u, before) +
            if piece == "" then []
            else [(DecodeText(u, SplitPair(piece).0), DecodeText(u, SplitPair(piece).1))]
  {
    if before == [] {
      assert [piece][1..] == [];
    } else {
      PiecesGivePairs(u, before[1..], piece);
      assert (before + [piece])[1..] == before[1..] + [piece];
    }
  }

  lemma {:induction false} SplitPairOf(name: string, value: string)
    requires '=' !in name
    ensures SplitPair(name + "=" + value) == (name, value)
  {
    var piece := name + "=" + value;
    if name == "" {
      assert piece[1..] == value;
    } else {
      assert piece[1..] == name[1..] + "=" + value;
      SplitPairOf(name[1..], value);
      assert name == [name[0]] + name[1..];
    }
  }

  lemma DecodeEncodedText(u: Utf8, s: string)
    requires SoundUtf8(u) && Survives(u, s)
    ensures DecodeText(u, EncodeText(u, s)) == s
  {
    EncodedChars(u.encode(s));
    DecodeEncodedBytes(u.encode(s));
  }

  lemma PieceParses(u: Utf8, name: string, value: string)
    requires SoundUtf8(u) && Survives(u, name) && Survives(u, value)
    ensures var (a, b) := SplitPair(EncodeText(u, name) + "=" + EncodeText(u, value));
            DecodeText(u, a) == name && DecodeText(u, b) == value
  {
    EncodedChars(u.encode(name));
    SplitPairOf(EncodeText(u, name), EncodeText(u, value));
    DecodeEncodedText(u, name);
    DecodeEncodedText(u, value);
  }

  lemma {:induction false} PiecesParse(u: Utf8, params: Params)
    requires SoundUtf8(u)
    requires forall i :: 0 <= i < |params| ==> Survives(u, params[i].0) && Survives(u, params[i].1)
    ensures ParsePieces(u, Pieces(u, params)) == params
  {
    if params != [] {
      PieceParses(u, params[0].0, params[0].1);
      PiecesParse(u, params[1..]);
      assert Pieces(u, params)[1..] == Pieces(u, params[1..]);
      assert params == [(params[0].0, params[0].1)] + params[1..];
    }
  }

  lemma PiecesHoldNoSeparator(u: Utf8, params: Params)
    requires SoundUtf8(u)
    ensures forall p :: p in Pieces(u, params) ==> '&' !in p
  {
    forall i | 0 <= i < |params| ensures '&' !in Pieces(u, params)[i] {
      EncodedChars(u.encode(params[i].0));
      EncodedChars(u.encode(params[i].1));
    }
  }

  /** Parsing undoes serialising, for every list of well-formed names and values. */
  lemma ParseSerialized(u: Utf8, params: Params)
    requires SoundUtf8(u)
    requires forall i :: 0 <= i < |params| ==> Survives(u, params[i].0) && Survives(u, params[i].1)
    ensures Parse(u, Serialize(u, params)) == params
  {
    if params != [] {
      PiecesHoldNoSeparator(u, params);
      SplitJoin(Pieces(u, params), '&');
      PiecesParse(u, params);
    } else {
      assert Split("", '&') == [""];
      assert ParsePieces(u, [""]) == [];
    }
  }

  // ----- decodeURIComponent -----

  predicate PercentsWellFormed(s: string)
  {
    forall i :: 0 <= i < |s| && s[i] == '%' ==> i + 2 < |s| && IsHexDigit(s[i + 1]) && IsHexDigit(s[i + 2])
  }

  /** Does decodeURIComponent return, and if so what? */
  predicate UriDecodes(u: Utf8, s: string)
  {
    PercentsWellFormed(s) && u.valid(PercentDecode(u.encode(s)))
  }

  function UriDecoded(u: Utf8, s: string): string
    requires UriDecodes(u, s)
  {
    u.decode(PercentDecode(u.encode(s)))
  }

  lemma {:induction false} EncodedPercents(s: string)
    requires IsBytes(s)
    ensures PercentsWellFormed(EncodeBytes(s))
  {
    if s != "" {
      EncodedPercents(s[1..]);
      var e, rest := EncodeByte(s[0]), EncodeBytes(s[1..]);
      var all := e + rest;
      forall i | 0 <= i < |all| && all[i] == '%'
        ensures i + 2 < |all| && IsHexDigit(all[i + 1]) && IsHexDigit(all[i + 2])
      {
        if i >= |e| {
          assert rest[i - |e|] == '%';
        }
      }
    }
  }

  lemma DecodedByteIsAscii(b: char, rest: string)
    requires b as int < 128
    ensures PercentDecode(EncodeByte(b) + rest) == [if b == ' ' then '+' else b] + PercentDecode(rest)
  {
    var e := EncodeByte(b);
    if IsUnreserved(b) || b == ' ' {
      assert (e + rest)[1..] == rest;
    } else {
      assert (e + rest)[3..] == rest;
      assert (b as int / 16 * 16 + b as int % 16) as char == b;
    }
  }

  lemma {:induction false} DecodedIsAscii(s: string)
    requires IsAscii(s)
    ensures IsAscii(PercentDecode(EncodeBytes(s)))
    ensures ' ' !in s ==> PercentDecode(EncodeBytes(s)) == s
  {
    if s != "" {
      DecodedIsAscii(s[1..]);
      DecodedByteIsAscii(s[0], EncodeBytes(s[1..]));
      assert s == [s[0]] + s[1..];
    }
  }

  /** What is encoded from ASCII decodes as a URI component, to itself if it has no space. */
  lemma EncodedUriDecodes(u: Utf8, s: string)
    requires SoundUtf8(u) && IsAscii(s)
    ensures UriDecodes(u, EncodeText(u, s))
    ensures ' ' !in s ==> UriDecoded(u, EncodeText(u, s)) == s
  {
    EncodedChars(s);
    EncodedPercents(s);
    DecodedIsAscii(s);
  }
}
