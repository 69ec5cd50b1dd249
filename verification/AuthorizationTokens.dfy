/** Checkout authorization tokens: a base64url payload and its HMAC, joined by a dot. */
module AuthorizationTokens {
  import opened Wrappers
  import opened Text
  import opened Base64Url

  const TOKEN_DOMAIN := "conduit-anon-zap-checkout-v1"

  datatype Payload = Payload(expiresAt: int, content: string)

  /** JSON in UTF-8, the payload's own validation, and HMAC-SHA-256. */
  datatype Library = Library(
    serialize: Payload -> seq<Byte>,
    parse: seq<Byte> -> Option<Payload>,
    hmac: (string, string) -> seq<Byte>)

  ghost predicate SoundLibrary(lib: Library)
  {
    && (forall p :: lib.serialize(p) != [])
    && (forall secret, value :: |lib.hmac(secret, value)| == 32)
  }

  datatype TokenError = Invalid | Expired

  function Signature(lib: Library, secret: string, encodedPayload: string): seq<Byte>
  {
    lib.hmac(secret, TOKEN_DOMAIN + "." + encodedPayload)
  }

  function Create(lib: Library, p: Payload, secret: string): string
  {
    var encodedPayload := Encode(lib.serialize(p));
    encodedPayload + "." + Encode(Signature(lib, secret, encodedPayload))
  }

  /** The i-th part of a destructured split; a missing part is as good as an empty one here. */
  function Part(parts: seq<string>, i: nat): string
  {
    if i < |parts| then parts[i] else ""
  }

  function Verify(lib: Library, token: string, secret: string, nowSeconds: int): Result<Payload, TokenError>
  {
    var parts := Split(token, '.');
    var encodedPayload, encodedSignature, extra := Part(parts, 0), Part(parts, 1), Part(parts, 2);
    if encodedPayload == "" || encodedSignature == "" || extra != "" then Failure(Invalid)
    else
      var actual := Decode(encodedSignature);
      if actual != Some(Signature(lib, secret, encodedPayload)) then Failure(Invalid)
      else
        match Decode(encodedPayload)
        case None => Failure(Invalid)
        case Some(bytes) =>
          match lib.parse(bytes)
          case None => Failure(Invalid)
          case Some(payload) => if payload.expiresAt < nowSeconds then Failure(Expired) else Success(payload)
  }

  lemma EncodingHasNoDot(bs: seq<Byte>)
    ensures '.' !in Encode(bs) && (bs != [] ==> Encode(bs) != "")
  {
    EncodeSpellsSextets(bs);
  }

  /** What a payload that parses, or none, is worth. */
  function Verdict(parsed: Option<Payload>, now: int): Result<Payload, TokenError>
  {
    match parsed
    case None => Failure(Invalid)
    case Some(p) => if p.expiresAt < now then Failure(Expired) else Success(p)
  }

  /** The text whose HMAC authorizes an encoded payload. */
  function SignedText(encodedPayload: string): string
  {
    "conduit-anon-zap-checkout-v1" + "." + encodedPayload
  }

  /**
    A token carries payload bytes under a secret: its first part spells them, its second part spells
    the HMAC of the domain, a dot and that first part, and a third part, if any, is empty.
   */
  ghost predicate Carries(lib: Library, token: string, secret: string, bytes: seq<Byte>)
  {
    var parts := Split(token, '.');
    && |parts| >= 2 && (|parts| >= 3 ==> parts[2] == "")
    && bytes != [] && parts[0] == Encode(bytes)
    && Decode(parts[1]) == Some(lib.hmac(secret, SignedText(parts[0])))
  }

  lemma VerifyReads(lib: Library, token: string, secret: string, now: int, bytes: seq<Byte>)
    requires SoundLibrary(lib) && Carries(lib, token, secret, bytes)
    ensures Verify(lib, token, secret, now) == Verdict(lib.parse(bytes), now)
  {
    var parts := Split(token, '.');
    DecodesExactlyTheEncodings(parts[0], bytes);
    DecodesExactlyTheEncodings(parts[1], lib.hmac(secret, SignedText(parts[0])));
    EncodingHasNoDot(bytes);
    EncodingHasNoDot(lib.hmac(secret, SignedText(parts[0])));
  }

  lemma VerifiedIsCarried(lib: Library, token: string, secret: string, now: int) returns (bytes: seq<Byte>)
    requires SoundLibrary(lib) && Verify(lib, token, secret, now) != Failure(Invalid)
    ensures Carries(lib, token, secret, bytes) && lib.parse(bytes).Some?
  {
    var parts := Split(token, '.');
    bytes := Decode(parts[0]).value;
    DecodesExactlyTheEncodings(parts[0], bytes);
  }

  /**
    Exactly which tokens are accepted, and which are reported expired: those whose first part spells
    out some bytes that parse to an unexpired (an expired) payload, and whose second part is the
    secret's HMAC of the domain, a dot and that very first part.
   */
  lemma AcceptsExactly(lib: Library, token: string, secret: string, now: int, p: Payload)
    requires SoundLibrary(lib)
    ensures Verify(lib, token, secret, now) == Success(p) <==>
            && now <= p.expiresAt
            && exists bytes :: Carries(lib, token, secret, bytes) && lib.parse(bytes) == Some(p)
    ensures Verify(lib, token, secret, now) == Failure(Expired) <==>
            exists bytes :: Carries(lib, token, secret, bytes) && lib.parse(bytes).Some? &&
                            lib.parse(bytes).value.expiresAt < now
  {
    if Verify(lib, token, secret, now) != Failure(Invalid) {
      var bytes := VerifiedIsCarried(lib, token, secret, now);
      VerifyReads(lib, token, secret, now, bytes);
    }
    forall bytes | Carries(lib, token, secret, bytes)
      ensures Verify(lib, token, secret, now) == Verdict(lib.parse(bytes), now)
    {
      VerifyReads(lib, token, secret, now, bytes);
    }
  }

  /** A signature authorizes the payload it was made for only: put under another one it is refused. */
  lemma TamperedPayloadsAreRefused(lib: Library, p: Payload, q: Payload, secret: string, now: int)
    requires SoundLibrary(lib)
    requires lib.hmac(secret, SignedText(Encode(lib.serialize(p)))) !=
             lib.hmac(secret, SignedText(Encode(lib.serialize(q))))
    ensures Verify(lib, Encode(lib.serialize(q)) + "." +
                        Encode(lib.hmac(secret, SignedText(Encode(lib.serialize(p))))), secret, now) ==
            Failure(Invalid)
  {
    var encoded, signature := Encode(lib.serialize(q)), lib.hmac(secret, SignedText(Encode(lib.serialize(p))));
    EncodingHasNoDot(lib.serialize(q));
    EncodingHasNoDot(signature);
    SplitJoin([encoded, Encode(signature)], '.');
    DecodeEncode(signature);
    if Verify(lib, encoded + "." + Encode(signature), secret, now) != Failure(Invalid) {
      var bytes := VerifiedIsCarried(lib, encoded + "." + Encode(signature), secret, now);
    }
  }

  /** A token's dot separates exactly its two parts. */
  lemma CreateSplits(lib: Library, p: Payload, secret: string, extra: seq<string>)
    requires forall x :: x in extra ==> '.' !in x
    ensures var encoded := Encode(lib.serialize(p));
            var parts := [encoded, Encode(Signature(lib, secret, encoded))];
            Create(lib, p, secret) == Join(parts, '.') && Split(Join(parts + extra, '.'), '.') == parts + extra
  {
    var encoded := Encode(lib.serialize(p));
    var signature := Signature(lib, secret, encoded);
    EncodingHasNoDot(lib.serialize(p));
    EncodingHasNoDot(signature);
    SplitJoin([encoded, Encode(signature)] + extra, '.');
  }

  /** What verification makes of the two parts of a fresh token and a third part, if any, that is empty. */
  lemma VerifyParts(lib: Library, p: Payload, secret: string, token: string, now: int)
    requires SoundLibrary(lib)
    requires var encoded := Encode(lib.serialize(p));
             var parts := Split(token, '.');
             && Part(parts, 0) == encoded && Part(parts, 1) == Encode(Signature(lib, secret, encoded))
             && Part(parts, 2) == ""
    ensures Verify(lib, token, secret, now) == Verdict(lib.parse(lib.serialize(p)), now)
  {
    var encoded := Encode(lib.serialize(p));
    EncodingHasNoDot(lib.serialize(p));
    EncodingHasNoDot(Signature(lib, secret, encoded));
    DecodeEncode(lib.serialize(p));
    DecodeEncode(Signature(lib, secret, encoded));
  }

  /** A fresh token verifies, and to its own payload, exactly when it is well formed and unexpired. */
  lemma VerifyCreate(lib: Library, p: Payload, secret: string, now: int)
    requires SoundLibrary(lib)
    ensures Verify(lib, Create(lib, p, secret), secret, now) == Success(p) <==>
              lib.parse(lib.serialize(p)) == Some(p) && now <= p.expiresAt
    ensures Verify(lib, Create(lib, p, secret), secret, now) == Failure(Expired) <==>
              lib.parse(lib.serialize(p)).Some? && lib.parse(lib.serialize(p)).value.expiresAt < now
  {
    CreateSplits(lib, p, secret, []);
    var encoded := Encode(lib.serialize(p));
    var parts := [encoded, Encode(Signature(lib, secret, encoded))];
    assert parts + [] == parts;
    VerifyParts(lib, p, secret, Create(lib, p, secret), now);
  }

  /** A token is refused under any secret whose HMAC of the payload differs. */
  lemma OtherSecretsAreRefused(lib: Library, p: Payload, secret: string, other: string, now: int)
    requires SoundLibrary(lib)
    requires lib.hmac(secret, SignedText(Encode(lib.serialize(p)))) !=
             lib.hmac(other, SignedText(Encode(lib.serialize(p))))
    ensures Verify(lib, Create(lib, p, secret), other, now) == Failure(Invalid)
  {
    var encoded := Encode(lib.serialize(p));
    CreateSplits(lib, p, secret, []);
    assert [encoded, Encode(Signature(lib, secret, encoded))] + [] ==
           [encoded, Encode(Signature(lib, secret, encoded))];
    DecodeEncode(Signature(lib, secret, encoded));
  }

  /** An empty third part is tolerated, so spellings of an accepted token are not unique. */
  lemma EmptyThirdPartIsTolerated(lib: Library, p: Payload, secret: string, now: int)
    requires SoundLibrary(lib)
    ensures var token := Create(lib, p, secret);
            Verify(lib, token + ".", secret, now) == Verify(lib, token, secret, now)
  {
    var encoded := Encode(lib.serialize(p));
    var parts := [encoded, Encode(Signature(lib, secret, encoded))];
    CreateSplits(lib, p, secret, []);
    CreateSplits(lib, p, secret, [""]);
    assert parts + [] == parts;
    JoinSnocEmpty(parts);
    VerifyParts(lib, p, secret, Create(lib, p, secret), now);
    VerifyParts(lib, p, secret, Create(lib, p, secret) + ".", now);
  }

  lemma {:induction false} JoinSnocEmpty(parts: seq<string>)
    requires parts != []
    ensures Join(parts + [""], '.') == Join(parts, '.') + "."
  {
    if |parts| == 1 {
      assert (parts + [""])[1..] == [""];
    } else {
      JoinSnocEmpty(parts[1..]);
      assert (parts + [""])[1..] == parts[1..] + [""];
    }
  }
}
