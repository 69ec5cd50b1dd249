/** Nostr events as the development relay sees them: identity, replacement key and precedence. */
module RelayEvents {
  import opened Wrappers
  import opened Text

  datatype Event = Event(
    id: string,
    pubkey: string,
    createdAt: int,
    kind: nat,
    tags: seq<seq<string>>,
    content: string,
    sig: string)
  {
    /** Everything the event id commits to: all fields but the signature. */
    function Unsigned(): Event
    {
      this.(sig := "")
    }
  }

  /** Signature and id verification is a library call; it is a parameter of every model. */
  type Verifier = Event -> bool

  predicate IsHexIdentifier(s: string)
  {
    |s| == 64 && forall i :: 0 <= i < |s| ==> '0' <= s[i] <= '9' || 'a' <= s[i] <= 'f'
  }

  /**
    What the library promises: verified ids and keys are 64 lower-case hex digits, and ids are
    collision-free, so two verified events with one id differ at most in their signature.
   */
  ghost predicate SoundVerifier(verify: Verifier)
  {
    && (forall e :: verify(e) ==> IsHexIdentifier(e.id) && IsHexIdentifier(e.pubkey))
    && (forall a, b :: verify(a) && verify(b) && a.id == b.id ==> a.Unsigned() == b.Unsigned())
  }

  predicate IsReplaceableKind(kind: nat)
  {
    kind == 0 || kind == 3 || 10_000 <= kind < 20_000
  }

  predicate IsEphemeralKind(kind: nat)
  {
    20_000 <= kind < 30_000
  }

  predicate IsAddressableKind(kind: nat)
  {
    30_000 <= kind < 40_000
  }

  /** Value of the first `d` tag; a missing tag or a tag without a value counts as the empty string. */
  function DTag(tags: seq<seq<string>>): string
  {
    if tags == [] then ""
    else if tags[0] != [] && tags[0][0] == "d" then (if |tags[0]| > 1 then tags[0][1] else "")
    else DTag(tags[1..])
  }

  /** The slot an event competes for, or None when the kind is never replaced. */
  function ReplacementKey(e: Event): Option<string>
  {
    if IsReplaceableKind(e.kind) then Some(Decimal(e.kind) + ":" + e.pubkey)
    else if IsAddressableKind(e.kind) then Some(Decimal(e.kind) + ":" + e.pubkey + ":" + DTag(e.tags))
    else None
  }

  lemma HexHasNoColon(s: string)
    requires IsHexIdentifier(s) || AllDigits(s)
    ensures ':' !in s
  {
  }

  lemma SplitReplaceable(e: Event)
    requires IsHexIdentifier(e.pubkey) && IsReplaceableKind(e.kind)
    ensures Split(ReplacementKey(e).value, ':') == [Decimal(e.kind), e.pubkey]
  {
    HexHasNoColon(e.pubkey);
    HexHasNoColon(Decimal(e.kind));
    SplitPrefix(Decimal(e.kind), e.pubkey, ':');
    SplitWhole(e.pubkey, ':');
  }

  lemma SplitAddressable(e: Event)
    requires IsHexIdentifier(e.pubkey) && IsAddressableKind(e.kind)
    ensures Split(ReplacementKey(e).value, ':') ==
            [Decimal(e.kind), e.pubkey] + Split(DTag(e.tags), ':')
  {
    HexHasNoColon(e.pubkey);
    HexHasNoColon(Decimal(e.kind));
    var tail := e.pubkey + ":" + DTag(e.tags);
    assert ReplacementKey(e).value == Decimal(e.kind) + [':'] + tail;
    SplitPrefix(Decimal(e.kind), tail, ':');
    assert tail == e.pubkey + [':'] + DTag(e.tags);
    SplitPrefix(e.pubkey, DTag(e.tags), ':');
  }

  /** The textual key never confuses two slots, although `d` values may contain the separator. */
  lemma KeysNameSlots(a: Event, b: Event)
    requires IsHexIdentifier(a.pubkey) && IsHexIdentifier(b.pubkey)
    requires ReplacementKey(a).Some? && ReplacementKey(b).Some?
    ensures ReplacementKey(a) == ReplacementKey(b) <==>
            a.kind == b.kind && a.pubkey == b.pubkey &&
            (IsAddressableKind(a.kind) ==> DTag(a.tags) == DTag(b.tags))
  {
    if ReplacementKey(a) == ReplacementKey(b) {
      var parts := Split(ReplacementKey(a).value, ':');
      if IsReplaceableKind(a.kind) { SplitReplaceable(a); } else { SplitAddressable(a); }
      if IsReplaceableKind(b.kind) { SplitReplaceable(b); } else { SplitAddressable(b); }
      assert parts[0] == Decimal(a.kind) == Decimal(b.kind);
      assert parts[1] == a.pubkey == b.pubkey;
      DecimalInjective(a.kind, b.kind);
      if IsAddressableKind(a.kind) {
        assert parts[2..] == Split(DTag(a.tags), ':') == Split(DTag(b.tags), ':');
        JoinSplit(DTag(a.tags), ':');
        JoinSplit(DTag(b.tags), ':');
      }
    }
  }

  /** Newest wins; at equal times the lower id wins. */
  predicate IsNewerReplacement(candidate: Event, current: Event)
  {
    || candidate.createdAt > current.createdAt
    || (candidate.createdAt == current.createdAt && Less(candidate.id, current.id))
  }

  lemma NewerIsStrictOrder(a: Event, b: Event, c: Event)
    ensures !IsNewerReplacement(a, a)
    ensures IsNewerReplacement(a, b) ==> !IsNewerReplacement(b, a)
    ensures IsNewerReplacement(a, b) && IsNewerReplacement(b, c) ==> IsNewerReplacement(a, c)
    ensures a.id != b.id ==> IsNewerReplacement(a, b) || IsNewerReplacement(b, a)
  {
    LessTotal(a.id, b.id);
    if Less(a.id, a.id) { LessAsymmetric(a.id, a.id); }
    if Less(a.id, b.id) { LessAsymmetric(a.id, b.id); }
    if Less(a.id, b.id) && Less(b.id, c.id) { LessTransitive(a.id, b.id, c.id); }
  }
}
