/** Building the public checkout links whose fragments CheckoutIntents reads. */
module CheckoutLinks {
  import opened Wrappers
  import opened Text
  import opened Json
  import opened FormEncoding
  import opened CheckoutIntents

  datatype Link = Link(base: string, fragment: string)

  datatype LinkError = BadOrigin | BadPartner | BadProduct | BadSource | BadItems

  datatype LinkItem = LinkItem(product: string, quantity: real)

  // ----- what goes into a fragment -----

  /** `params.set(key, value)` for a key that is not there yet, if there is a value. */
  function Optional(key: string, value: Option<string>): Params
  {
    if value.Some? then [(key, value.value)] else []
  }

  function Envelope(rows: seq<LinkItem>): Json
  {
    Obj(map["v" := Number(1.0), "items" := Arr(Rows(rows))])
  }

  function Rows(rows: seq<LinkItem>): seq<Json>
  {
    seq(|rows|, i requires 0 <= i < |rows| =>
      Obj(map["product" := Str(rows[i].product), "quantity" := Number(rows[i].quantity)]))
  }

  /** A fragment's parameters: what is bought or the cart, then the optional ones, in this order. */
  function LinkParams(first: (string, string), qty: Option<string>, partner: Option<string>, source: Option<string>)
    : Params
  {
    [first] + Optional("qty", qty) + Optional("partner", partner) + Optional("source", source)
  }

  function QuantityText(lib: Library, quantity: real): Option<string>
  {
    if quantity == 1.0 then None else Some(lib.numberText(quantity))
  }

  predicate AllAsciiRows(rows: seq<LinkItem>)
  {
    forall i :: 0 <= i < |rows| ==> IsAscii(rows[i].product)
  }

  predicate AllNumbers(lib: Library, rows: seq<LinkItem>)
  {
    forall i :: 0 <= i < |rows| ==> lib.isNumber(rows[i].quantity)
  }

  /** JSON, number text and domains: envelopes survive, canonical domains are ASCII and stand for themselves. */
  ghost predicate SoundLibrary(lib: Library)
  {
    && SoundUtf8(lib.utf8) && SoundReferences(lib)
    && (forall rows :: AllNumbers(lib, rows) ==> lib.parseJson(lib.stringify(Envelope(rows))) == Some(Envelope(rows)))
    && (forall rows :: AllAsciiRows(rows) ==> IsAscii(lib.stringify(Envelope(rows))))
    && (forall q :: IsAscii(lib.numberText(q)))
    && (forall q :: IsQuantityText(lib.numberText(q)) ==> Text.Number(lib.numberText(q)) as real == q)
    && (forall n: nat :: 1 <= n <= 99 ==> lib.isNumber(n as real) && lib.numberText(n as real) == Decimal(n))
    && (forall x :: lib.normalizeDomain(x).Some? ==>
          var d := lib.normalizeDomain(x).value;
          d != "" && IsAscii(d) && lib.normalizeDomain(d) == Some(d))
  }

  // ----- the builders -----

  /** Does the finished fragment pass the check every builder ends with? */
  predicate Checks(lib: Library, text: string)
  {
    ParseFragment(lib, text, "").Success?
  }

  /** What a builder does once it knows what is bought: add the optional parameters, then check. */
  function Finish(lib: Library, base: string, start: Params, partner: Option<string>, source: Option<string>)
    : Result<Link, LinkError>
    requires SoundUtf8(lib.utf8)
  {
    if source.Some? && NonEmptyDomain(lib, source.value).None? then Failure(BadSource)
    else
      var domain := if source.Some? then NonEmptyDomain(lib, source.value) else None;
      var text := Serialize(lib.utf8, start + Optional("partner", partner) + Optional("source", domain));
      if Checks(lib, text) then Success(Link(base, text)) else Failure(BadItems)
  }

  function NonEmptyDomain(lib: Library, source: string): Option<string>
  {
    var domain := lib.normalizeDomain(source);
    if domain.Some? && domain.value != "" then domain else None
  }

  function BuyLink(lib: Library, base: Option<string>, product: string, quantity: real, partner: Option<string>,
                   source: Option<string>): Result<Link, LinkError>
    requires SoundUtf8(lib.utf8)
  {
    if base.None? then Failure(BadOrigin)
    else if partner.Some? && !IsPartnerCode(partner.value) then Failure(BadPartner)
    else
      match lib.encodeProduct(product)
      case None => Failure(BadProduct)
      case Some(naddr) =>
        Finish(lib, base.value, [("buy", naddr)] + Optional("qty", QuantityText(lib, quantity)), partner, source)
  }

  /** Every product in canonical form, or nothing if one has none. */
  function Canonical(lib: Library, items: seq<LinkItem>): (rows: Option<seq<LinkItem>>)
    ensures rows.Some? ==> |rows.value| == |items| && forall i :: 0 <= i < |items| ==>
              lib.encodeProduct(items[i].product) == Some(rows.value[i].product) &&
              rows.value[i].quantity == items[i].quantity
  {
    if items == [] then Some([])
    else
      var n := |items| - 1;
      match Canonical(lib, items[..n])
      case None => None
      case Some(front) =>
        match lib.encodeProduct(items[n].product)
        case None => None
        case Some(naddr) => Some(front + [LinkItem(naddr, items[n].quantity)])
  }

  function CartLink(lib: Library, base: Option<string>, items: seq<LinkItem>, partner: Option<string>,
                    source: Option<string>): Result<Link, LinkError>
    requires SoundUtf8(lib.utf8)
  {
    if base.None? then Failure(BadOrigin)
    else if partner.Some? && !IsPartnerCode(partner.value) then Failure(BadPartner)
    else
      match Canonical(lib, items)
      case None => Failure(BadProduct)
      case Some(rows) => Finish(lib, base.value, [("cart", lib.stringify(Envelope(rows)))], partner, source)
  }

  predicate HasName(params: Params, key: string)
  {
    exists i :: 0 <= i < |params| && params[i].0 == key
  }

  function Without(params: Params, key: string): Params
  {
    if params == [] then []
    else (if params[0].0 == key then [] else [params[0]]) + Without(params[1..], key)
  }

  /** `params.set(key, value)`, as the WHATWG URL Standard has it. */
  function WithParam(params: Params, key: string, value: string): Params
  {
    if params == [] then [(key, value)]
    else if params[0].0 == key then [(key, value)] + Without(params[1..], key)
    else [params[0]] + WithParam(params[1..], key, value)
  }

  /** Setting a name that is not there appends it. */
  lemma {:induction false} WithAbsentParam(params: Params, key: string, value: string)
    requires !HasName(params, key)
    ensures WithParam(params, key, value) == params + [(key, value)]
  {
    if params != [] {
      assert params[0].0 != key;
      forall i | 0 <= i < |params[1..]| ensures params[1..][i].0 != key {
        assert params[i + 1].0 != key;
      }
      WithAbsentParam(params[1..], key, value);
      assert params == [params[0]] + params[1..];
    }
  }

  lemma {:induction false} WithoutSnoc(params: Params, last: (string, string), key: string)
    ensures Without(params + [last], key) == Without(params, key) + if last.0 == key then [] else [last]
  {
    if params == [] {
      assert [last][1..] == [];
    } else {
      WithoutSnoc(params[1..], last, key);
      assert (params + [last])[1..] == params[1..] + [last];
    }
  }

  /** A pair at the end: kept if the name is another, dropped if it is a repeat, or the one that is set. */
  lemma {:induction false} WithParamSnoc(params: Params, last: (string, string), key: string, value: string)
    ensures HasName(params + [last], key) <==> HasName(params, key) || last.0 == key
    ensures HasName(params, key) ==>
              WithParam(params + [last], key, value) ==
              WithParam(params, key, value) + if last.0 == key then [] else [last]
    ensures !HasName(params, key) && last.0 == key ==> WithParam(params + [last], key, value) == params + [(key, value)]
  {
    var all := params + [last];
    assert forall i :: 0 <= i < |params| ==> all[i] == params[i];
    assert all[|params|] == last;
    if params != [] {
      assert all[1..] == params[1..] + [last];
      assert params == [params[0]] + params[1..];
      WithoutSnoc(params[1..], last, key);
      WithParamSnoc(params[1..], last, key, value);
    }
  }

  /** The search parameters of a link being built, mutated one key at a time. */
  class HashBuilder {
    var params: Params

    constructor (name: string, value: string)
      ensures params == [(name, value)]
    {
      params := [(name, value)];
    }

    /** The first pair of that name takes the value, and any others of that name go; or one is appended. */
    method Set(key: string, value: string)
      modifies this
      ensures params == WithParam(old(params), key, value)
    {
      var kept: Params := [];
      var found := false;
      for i := 0 to |params|
        invariant params == old(params)
        invariant found <==> HasName(params[..i], key)
        invariant kept == if found then WithParam(params[..i], key, value) else params[..i]
      {
        assert params[..i + 1] == params[..i] + [params[i]];
        WithParamSnoc(params[..i], params[i], key, value);
        if params[i].0 != key {
          kept := kept + [params[i]];
        } else if !found {
          kept := kept + [(key, value)];
          found := true;
        }
      }
      assert params[..|params|] == params;
      if !found {
        WithAbsentParam(params, key, value);
        kept := kept + [(key, value)];
      }
      params := kept;
    }
  }

  method Complete(hash: HashBuilder, lib: Library, base: string, partner: Option<string>, source: Option<string>)
    returns (result: Result<Link, LinkError>)
    requires SoundUtf8(lib.utf8)
    requires !HasName(hash.params, "partner") && !HasName(hash.params, "source")
    modifies hash
    ensures result == Finish(lib, base, old(hash.params), partner, source)
  {
    ghost var start := hash.params;
    if partner.Some? {
      WithAbsentParam(start, "partner", partner.value);
      hash.Set("partner", partner.value);
    }
    assert hash.params == start + Optional("partner", partner);
    if source.Some? {
      var domain := lib.normalizeDomain(source.value);
      if domain.None? || domain.value == "" {
        return Failure(BadSource);
      }
      WithAbsentParam(hash.params, "source", domain.value);
      hash.Set("source", domain.value);
    }
    var text := Serialize(lib.utf8, hash.params);
    assert hash.params == start + Optional("partner", partner) +
                          Optional("source", if source.Some? then NonEmptyDomain(lib, source.value) else None);
    var check := ParseCheckoutIntentFragment(lib, text, "");
    if check.Failure? {
      return Failure(BadItems);
    }
    return Success(Link(base, text));
  }

  method BuildMarketCheckoutBuyUrl(lib: Library, base: Option<string>, product: string, quantity: real,
                                   partner: Option<string>, source: Option<string>)
    returns (result: Result<Link, LinkError>)
    requires SoundUtf8(lib.utf8)
    ensures result == BuyLink(lib, base, product, quantity, partner, source)
  {
    if base.None? {
      return Failure(BadOrigin);
    }
    if partner.Some? && !IsPartnerCode(partner.value) {
      return Failure(BadPartner);
    }
    var naddr := lib.encodeProduct(product);
    if naddr.None? {
      return Failure(BadProduct);
    }
    var hash := new HashBuilder("buy", naddr.value);
    if quantity != 1.0 {
      WithAbsentParam(hash.params, "qty", lib.numberText(quantity));
      hash.Set("qty", lib.numberText(quantity));
    }
    assert hash.params == [("buy", naddr.value)] + Optional("qty", QuantityText(lib, quantity));
    result := Complete(hash, lib, base.value, partner, source);
  }

  method BuildMarketCheckoutCartUrl(lib: Library, base: Option<string>, items: seq<LinkItem>, partner: Option<string>,
                                    source: Option<string>)
    returns (result: Result<Link, LinkError>)
    requires SoundUtf8(lib.utf8)
    ensures result == CartLink(lib, base, items, partner, source)
  {
    if base.None? {
      return Failure(BadOrigin);
    }
    if partner.Some? && !IsPartnerCode(partner.value) {
      return Failure(BadPartner);
    }
    var rows := Canonical(lib, items);
    if rows.None? {
      return Failure(BadProduct);
    }
    var hash := new HashBuilder("cart", lib.stringify(Envelope(rows.value)));
    result := Complete(hash, lib, base.value, partner, source);
  }

  // ----- what is read back from a built fragment -----

  lemma {:induction false} ValuesAppend(a: Params, b: Params, key: string)
    ensures Values(a + b, key) == Values(a, key) + Values(b, key)
  {
    if a == [] {
      assert a + b == b;
    } else {
      ValuesAppend(a[1..], b, key);
      assert (a + b)[1..] == a[1..] + b;
    }
  }

  function OptionalValues(name: string, value: Option<string>, key: string): seq<string>
  {
    if value.Some? && name == key then [value.value] else []
  }

  lemma OptionalHolds(name: string, value: Option<string>, key: string)
    ensures Values(Optional(name, value), key) == OptionalValues(name, value, key)
  {
    if value.Some? {
      assert Optional(name, value)[1..] == [];
    }
  }

  lemma LinkValues(first: (string, string), qty: Option<string>, partner: Option<string>, source: Option<string>,
                   key: string)
    ensures Values(LinkParams(first, qty, partner, source), key) ==
            OptionalValues(first.0, Some(first.1), key) + OptionalValues("qty", qty, key) +
            OptionalValues("partner", partner, key) + OptionalValues("source", source, key)
  {
    var a, b, c, d := [first], Optional("qty", qty), Optional("partner", partner), Optional("source", source);
    ValuesAppend(a + b + c, d, key);
    ValuesAppend(a + b, c, key);
    ValuesAppend(a, b, key);
    OptionalHolds("qty", qty, key);
    OptionalHolds("partner", partner, key);
    OptionalHolds("source", source, key);
    assert a == Optional(first.0, Some(first.1));
    OptionalHolds(first.0, Some(first.1), key);
  }

  function Listed(value: Option<string>): seq<string>
  {
    if value.Some? then [value.value] else []
  }

  /** What a purchase's or a cart's parameters hold under one key. */
  lemma LinkHolds(first: (string, string), qty: Option<string>, partner: Option<string>, source: Option<string>,
                  key: string)
    requires first.0 == "buy" || first.0 == "cart"
    ensures Values(LinkParams(first, qty, partner, source), key) ==
            if key == first.0 then [first.1]
            else if key == "qty" then Listed(qty)
            else if key == "partner" then Listed(partner)
            else if key == "source" then Listed(source)
            else []
  {
    LinkValues(first, qty, partner, source, key);
  }

  lemma LinkNames(first: (string, string), qty: Option<string>, partner: Option<string>, source: Option<string>)
    requires first.0 == "buy" || first.0 == "cart"
    ensures var params := LinkParams(first, qty, partner, source);
            forall i :: 0 <= i < |params| ==> params[i].0 in {"buy", "cart", "qty", "partner", "source"}
  {
  }

  /** What a purchase or a cart's parameters hold, key by key. */
  lemma LinkShape(first: (string, string), qty: Option<string>, partner: Option<string>, source: Option<string>)
    requires first.0 == "buy" || (first.0 == "cart" && qty.None?)
    ensures var params := LinkParams(first, qty, partner, source);
            && WellShaped(params) && Values(params, first.0) == [first.1]
            && (first.0 == "cart" ==> Values(params, "buy") == [])
            && First(params, "qty") == qty && First(params, "partner") == partner
            && Values(params, "source") == Listed(source)
  {
    LinkNames(first, qty, partner, source);
    LinkHolds(first, qty, partner, source, "buy");
    LinkHolds(first, qty, partner, source, "cart");
    LinkHolds(first, qty, partner, source, "qty");
    LinkHolds(first, qty, partner, source, "partner");
    LinkHolds(first, qty, partner, source, "source");
  }

  predicate AsciiParams(params: Params)
  {
    forall i :: 0 <= i < |params| ==> IsAscii(params[i].0) && IsAscii(params[i].1)
  }

  lemma AsciiAppend(a: Params, b: Params)
    requires AsciiParams(a) && AsciiParams(b)
    ensures AsciiParams(a + b)
  {
  }

  lemma AsciiOptional(key: string, value: Option<string>)
    requires IsAscii(key) && (value.Some? ==> IsAscii(value.value))
    ensures AsciiParams(Optional(key, value))
  {
  }

  lemma LinkIsAscii(first: (string, string), qty: Option<string>, partner: Option<string>, source: Option<string>)
    requires first.0 in {"buy", "cart"} && IsAscii(first.1)
    requires qty.Some? ==> IsAscii(qty.value)
    requires partner.Some? ==> IsAscii(partner.value)
    requires source.Some? ==> IsAscii(source.value)
    ensures AsciiParams(LinkParams(first, qty, partner, source))
  {
    AsciiOptional("qty", qty);
    AsciiOptional("partner", partner);
    AsciiOptional("source", source);
    AsciiAppend([first], Optional("qty", qty));
    AsciiAppend([first] + Optional("qty", qty), Optional("partner", partner));
    AsciiAppend([first] + Optional("qty", qty) + Optional("partner", partner), Optional("source", source));
  }

  /** A fragment of ASCII parameters reads back as those parameters. */
  lemma LinkParsesBack(lib: Library, params: Params)
    requires SoundUtf8(lib.utf8) && AsciiParams(params)
    ensures Parse(lib.utf8, Serialize(lib.utf8, params)) == params
  {
    ParseSerialized(lib.utf8, params);
  }

  lemma PieceIsValid(lib: Library, name: string, value: string)
    requires SoundUtf8(lib.utf8) && IsAscii(name) && IsAscii(value)
    ensures IsValidPiece(lib.utf8, EncodeText(lib.utf8, name) + "=" + EncodeText(lib.utf8, value))
  {
    var a, b := EncodeText(lib.utf8, name), EncodeText(lib.utf8, value);
    EncodedChars(name);
    EncodedChars(value);
    EncodedUriDecodes(lib.utf8, name);
    EncodedUriDecodes(lib.utf8, value);
    assert Join([a, b], '=') == a + "=" + b;
    SplitJoin([a, b], '=');
  }

  lemma LinkIsValid(lib: Library, params: Params)
    requires SoundUtf8(lib.utf8) && AsciiParams(params) && params != []
    ensures HasValidParameters(lib.utf8, Serialize(lib.utf8, params))
  {
    PiecesHoldNoSeparator(lib.utf8, params);
    SplitJoin(Pieces(lib.utf8, params), '&');
    forall i | 0 <= i < |params| ensures IsValidPiece(lib.utf8, Pieces(lib.utf8, params)[i]) {
      PieceIsValid(lib, params[i].0, params[i].1);
    }
  }

  /** A serialised link is plain ASCII and starts with its first key. */
  lemma LinkText(lib: Library, params: Params)
    requires SoundUtf8(lib.utf8) && AsciiParams(params) && params != [] && params[0].0 in {"buy", "cart"}
    ensures var text := Serialize(lib.utf8, params); text != "" && text[0] in {'b', 'c'} && IsAscii(text)
  {
    var pieces := Pieces(lib.utf8, params);
    forall i | 0 <= i < |params| ensures IsAscii(pieces[i]) {
      EncodedChars(params[i].0);
      EncodedChars(params[i].1);
    }
    JoinIsAscii(pieces);
    FirstCharacter(lib, params[0].0, params[0].1);
  }

  lemma FirstCharacter(lib: Library, name: string, value: string)
    requires SoundUtf8(lib.utf8) && name in {"buy", "cart"}
    ensures var piece := EncodeText(lib.utf8, name) + "=" + EncodeText(lib.utf8, value);
            piece != "" && piece[0] in {'b', 'c'}
  {
    assert IsAscii(name);
    assert EncodeBytes(name)[0] == name[0];
  }

  lemma {:induction false} JoinIsAscii(parts: seq<string>)
    requires forall i :: 0 <= i < |parts| ==> IsAscii(parts[i])
    ensures IsAscii(Join(parts, '&'))
  {
    if |parts| > 1 {
      JoinIsAscii(parts[1..]);
    }
  }

  /** With or without its hash sign, a built fragment is read as the parameters it was built from. */
  lemma LinkReads(lib: Library, params: Params, referrer: string)
    requires SoundUtf8(lib.utf8) && AsciiParams(params) && params != [] && params[0].0 in {"buy", "cart"}
    ensures var text := Serialize(lib.utf8, params);
            && ParseFragment(lib, "#" + text, referrer) == ParseFragment(lib, text, referrer)
            && ParseFragment(lib, text, referrer) ==
               if |text| > 8_192 then Failure(InvalidIntent) else IntentOf(lib, params, referrer)
  {
    LinkText(lib, params);
    LinkIsValid(lib, params);
    LinkParsesBack(lib, params);
    var text := Serialize(lib.utf8, params);
    assert ("#" + text)[1..] == text;
  }

  // ----- round trips -----

  function SourceRead(lib: Library, source: Option<string>, referrer: string): Option<Source>
  {
    if source.Some? then Some(Source(source.value, Claimed))
    else if lib.referrerDomain(referrer).Some? && lib.referrerDomain(referrer).value != "" then
      Some(Source(lib.referrerDomain(referrer).value, Referrer))
    else None
  }

  predicate IsClean(lib: Library, partner: Option<string>, source: Option<string>)
  {
    && (partner.Some? ==> IsPartnerCode(partner.value))
    && (source.Some? ==> source.value != "" && lib.normalizeDomain(source.value) == Some(source.value))
  }

  /** The parameters of a link mean the items its first parameter spells, its partner and its source. */
  lemma LinkMeans(lib: Library, first: (string, string), qty: Option<string>, partner: Option<string>,
                  source: Option<string>, referrer: string)
    requires first.0 == "buy" || (first.0 == "cart" && qty.None?)
    requires IsClean(lib, partner, source)
    ensures var items := if first.0 == "buy" then BuyItems(lib, first.1, qty) else CartItems(lib, first.1);
            IntentOf(lib, LinkParams(first, qty, partner, source), referrer) ==
              if items.Failure? then Failure(items.error)
              else if !DistinctCoordinates(items.value) || Units(items.value) > 100 then Failure(InvalidIntent)
              else Success(Intent(if first.0 == "buy" then Buy else Cart, items.value, partner,
                                  SourceRead(lib, source, referrer)))
  {
    var params := LinkParams(first, qty, partner, source);
    LinkShape(first, qty, partner, source);
    if ItemsOf(lib, params).Success? {
      CoordinatesAreDistinct(ItemsOf(lib, params).value);
    }
    assert SourceOf(lib, params, referrer) == SourceRead(lib, source, referrer);
  }

  /** Everything about one link: its parameters, and what they mean to a reader. */
  datatype Plan = Plan(first: (string, string), qty: Option<string>, partner: Option<string>, source: Option<string>)
  {
    function Params(): Params
    {
      LinkParams(first, qty, partner, source)
    }

    function Items(lib: Library): Result<seq<Item>, IntentError>
    {
      if first.0 == "buy" then BuyItems(lib, first.1, qty) else CartItems(lib, first.1)
    }

    predicate IsSound(lib: Library)
    {
      && (first.0 == "buy" || (first.0 == "cart" && qty.None?)) && IsClean(lib, partner, source)
      && AsciiParams(Params())
    }

    function Text(lib: Library): string
      requires SoundUtf8(lib.utf8)
    {
      Serialize(lib.utf8, Params())
    }

    /** The intent a reader arrives at, if the link is short enough and its items are in order. */
    function Outcome(lib: Library, referrer: string): Option<Intent>
      requires SoundUtf8(lib.utf8)
    {
      if |Text(lib)| > 8_192 || Items(lib).Failure? || !DistinctCoordinates(Items(lib).value) ||
         Units(Items(lib).value) > 100 then None
      else Some(Intent(if first.0 == "buy" then Buy else Cart, Items(lib).value, partner,
                       SourceRead(lib, source, referrer)))
    }
  }

  lemma PlanReads(lib: Library, plan: Plan, referrer: string)
    requires SoundUtf8(lib.utf8) && plan.IsSound(lib)
    ensures ParseFragment(lib, "#" + plan.Text(lib), referrer) == ParseFragment(lib, plan.Text(lib), referrer)
    ensures ParseFragment(lib, plan.Text(lib), referrer).Success? <==> plan.Outcome(lib, referrer).Some?
    ensures plan.Outcome(lib, referrer).Some? ==>
              ParseFragment(lib, plan.Text(lib), referrer) == Success(plan.Outcome(lib, referrer).value)
  {
    LinkReads(lib, plan.Params(), referrer);
    LinkMeans(lib, plan.first, plan.qty, plan.partner, plan.source, referrer);
  }

  lemma FinishIs(lib: Library, base: string, plan: Plan, source: Option<string>)
    requires SoundUtf8(lib.utf8)
    requires plan.source == (if source.Some? then NonEmptyDomain(lib, source.value) else None)
    requires source.Some? ==> NonEmptyDomain(lib, source.value).Some?
    ensures Finish(lib, base, [plan.first] + Optional("qty", plan.qty), plan.partner, source) ==
            if Checks(lib, plan.Text(lib)) then Success(Link(base, plan.Text(lib))) else Failure(BadItems)
  {
    assert plan.Params() ==
      [plan.first] + Optional("qty", plan.qty) + Optional("partner", plan.partner) + Optional("source", plan.source);
  }

  /** A builder succeeds exactly when its plan has an outcome, and its fragment then reads as that. */
  lemma FinishReads(lib: Library, base: string, plan: Plan, source: Option<string>, referrer: string,
                    link: Result<Link, LinkError>)
    requires SoundUtf8(lib.utf8) && plan.IsSound(lib)
    requires plan.source == (if source.Some? then NonEmptyDomain(lib, source.value) else None)
    requires source.Some? ==> NonEmptyDomain(lib, source.value).Some?
    requires link == Finish(lib, base, [plan.first] + Optional("qty", plan.qty), plan.partner, source)
    ensures link.Success? <==> plan.Outcome(lib, referrer).Some?
    ensures link.Success? ==> link.value == Link(base, plan.Text(lib))
    ensures link.Success? ==>
              ParseFragment(lib, "#" + plan.Text(lib), referrer) == Success(plan.Outcome(lib, referrer).value)
  {
    FinishIs(lib, base, plan, source);
    PlanReads(lib, plan, "");
    PlanReads(lib, plan, referrer);
  }

  lemma CleanIsAscii(lib: Library, partner: Option<string>, source: Option<string>)
    requires SoundLibrary(lib) && IsClean(lib, partner, source)
    ensures partner.Some? ==> IsAscii(partner.value)
    ensures source.Some? ==> IsAscii(source.value)
  {
  }

  function PlanOfBuy(lib: Library, product: string, quantity: real, partner: Option<string>, source: Option<string>)
    : Plan
  {
    Plan(("buy", product), QuantityText(lib, quantity), partner, source)
  }

  function PlanOfCart(lib: Library, rows: seq<LinkItem>, partner: Option<string>, source: Option<string>): Plan
  {
    Plan(("cart", lib.stringify(Envelope(rows))), None, partner, source)
  }

  lemma BuyPlanIsSound(lib: Library, product: string, quantity: real, partner: Option<string>, source: Option<string>)
    requires SoundLibrary(lib) && IsAscii(product) && IsClean(lib, partner, source)
    ensures PlanOfBuy(lib, product, quantity, partner, source).IsSound(lib)
  {
    CleanIsAscii(lib, partner, source);
    LinkIsAscii(("buy", product), QuantityText(lib, quantity), partner, source);
  }

  lemma CartPlanIsSound(lib: Library, rows: seq<LinkItem>, partner: Option<string>, source: Option<string>)
    requires SoundLibrary(lib) && AllAsciiRows(rows) && IsClean(lib, partner, source)
    ensures PlanOfCart(lib, rows, partner, source).IsSound(lib)
  {
    CleanIsAscii(lib, partner, source);
    LinkIsAscii(("cart", lib.stringify(Envelope(rows))), None, partner, source);
  }

  /** Items as a builder is given them, read back: canonical references, coordinates and quantities. */
  ghost predicate IsReadingOf(lib: Library, items: seq<Item>, given: seq<LinkItem>)
  {
    && |items| == |given|
    && forall i :: 0 <= i < |given| ==>
         && lib.encodeProduct(given[i].product) == Some(items[i].product)
         && lib.coordinateOf(given[i].product) == Some(items[i].coordinate)
         && given[i].quantity == items[i].quantity as real
  }

  lemma BoughtReads(lib: Library, product: string, quantity: real)
    requires SoundLibrary(lib) && lib.encodeProduct(product).Some?
    requires BuyItems(lib, lib.encodeProduct(product).value, QuantityText(lib, quantity)).Success?
    ensures IsReadingOf(lib, BuyItems(lib, lib.encodeProduct(product).value, QuantityText(lib, quantity)).value,
                        [LinkItem(product, quantity)])
  {
  }

  /** What was built reads back as given, from any referrer. */
  ghost predicate ReadsAsGiven(lib: Library, read: Result<Intent, IntentError>, mode: Mode, given: seq<LinkItem>,
                               partner: Option<string>, source: Option<string>, referrer: string)
  {
    && read.Success? && read.value.mode == mode && IsReadingOf(lib, read.value.items, given)
    && read.value.partner == partner
    && (source.Some? ==> lib.normalizeDomain(source.value).Some?)
    && read.value.source ==
       SourceRead(lib, if source.Some? then lib.normalizeDomain(source.value) else None, referrer)
  }

  /** Whenever the purchase builder returns, its fragment reads back as what it was given. */
  lemma BuyRoundTrip(lib: Library, base: Option<string>, product: string, quantity: real, partner: Option<string>,
                     source: Option<string>, link: Link, referrer: string)
    requires SoundLibrary(lib) && BuyLink(lib, base, product, quantity, partner, source) == Success(link)
    ensures ReadsAsGiven(lib, ParseFragment(lib, "#" + link.fragment, referrer), Buy, [LinkItem(product, quantity)],
                         partner, source, referrer)
  {
    var naddr := lib.encodeProduct(product).value;
    var domain := if source.Some? then NonEmptyDomain(lib, source.value) else None;
    BuyPlanIsSound(lib, naddr, quantity, partner, domain);
    FinishReads(lib, base.value, PlanOfBuy(lib, naddr, quantity, partner, domain), source, referrer, Success(link));
    BoughtReads(lib, product, quantity);
  }

  lemma CartRowReads(lib: Library, row: LinkItem, item: Item)
    requires lib.encodeProduct(row.product) == Some(row.product)
    requires ParseRow(lib, Obj(map["product" := Str(row.product), "quantity" := Number(row.quantity)])) == Some(item)
    ensures item.product == row.product && item.quantity as real == row.quantity
    ensures Some(item.coordinate) == lib.coordinateOf(row.product)
  {
  }

  /** A cart's rows read back item by item. */
  lemma CartReads(lib: Library, rows: seq<LinkItem>, items: seq<Item>)
    requires SoundLibrary(lib) && AllNumbers(lib, rows)
    requires CartItems(lib, lib.stringify(Envelope(rows))) == Success(items)
    requires forall i :: 0 <= i < |rows| ==> lib.encodeProduct(rows[i].product) == Some(rows[i].product)
    ensures IsReadingOf(lib, items, rows)
  {
    assert CartRows(lib, lib.stringify(Envelope(rows))) == Success(Rows(rows));
    forall i | 0 <= i < |rows|
      ensures items[i].product == rows[i].product && items[i].quantity as real == rows[i].quantity
      ensures Some(items[i].coordinate) == lib.coordinateOf(rows[i].product)
    {
      assert ParseRow(lib, Rows(rows)[i]) == Some(items[i]);
      CartRowReads(lib, rows[i], items[i]);
    }
  }

  lemma CanonicalRows(lib: Library, given: seq<LinkItem>)
    requires SoundLibrary(lib) && Canonical(lib, given).Some?
    ensures var rows := Canonical(lib, given).value;
            && AllAsciiRows(rows)
            && (forall i :: 0 <= i < |rows| ==> lib.encodeProduct(rows[i].product) == Some(rows[i].product))
            && (forall i :: 0 <= i < |rows| ==> lib.coordinateOf(rows[i].product) == lib.coordinateOf(given[i].product))
  {
  }

  lemma CartItemsRead(lib: Library, rows: seq<LinkItem>, given: seq<LinkItem>, items: seq<Item>)
    requires SoundLibrary(lib) && AllNumbers(lib, given) && Canonical(lib, given) == Some(rows)
    requires CartItems(lib, lib.stringify(Envelope(rows))) == Success(items)
    ensures IsReadingOf(lib, items, given)
  {
    CanonicalRows(lib, given);
    CartReads(lib, rows, items);
  }

  lemma CartOutcome(lib: Library, rows: seq<LinkItem>, given: seq<LinkItem>, plan: Plan, referrer: string)
    requires SoundLibrary(lib) && AllNumbers(lib, given) && Canonical(lib, given) == Some(rows)
    requires plan.first == ("cart", lib.stringify(Envelope(rows))) && plan.Outcome(lib, referrer).Some?
    ensures IsReadingOf(lib, plan.Outcome(lib, referrer).value.items, given)
  {
    CartItemsRead(lib, rows, given, plan.Outcome(lib, referrer).value.items);
  }

  lemma CartLinkPlan(lib: Library, base: Option<string>, given: seq<LinkItem>, partner: Option<string>,
                     source: Option<string>, link: Link) returns (rows: seq<LinkItem>, plan: Plan)
    requires SoundLibrary(lib) && CartLink(lib, base, given, partner, source) == Success(link)
    ensures base.Some? && Canonical(lib, given) == Some(rows) && plan.IsSound(lib)
    ensures plan.first == ("cart", lib.stringify(Envelope(rows))) && plan.partner == partner
    ensures source.Some? ==> NonEmptyDomain(lib, source.value).Some?
    ensures plan.source == (if source.Some? then NonEmptyDomain(lib, source.value) else None)
    ensures Finish(lib, base.value, [plan.first] + Optional("qty", plan.qty), plan.partner, source) == Success(link)
  {
    rows := Canonical(lib, given).value;
    plan := PlanOfCart(lib, rows, partner, if source.Some? then NonEmptyDomain(lib, source.value) else None);
    CanonicalRows(lib, given);
    CartPlanIsSound(lib, rows, partner, plan.source);
    assert [plan.first] + Optional("qty", None) == [plan.first];
  }

  /** Whenever the cart builder returns, its fragment reads back as what it was given, in order. */
  lemma CartRoundTrip(lib: Library, base: Option<string>, given: seq<LinkItem>, partner: Option<string>,
                      source: Option<string>, link: Link, referrer: string)
    requires SoundLibrary(lib) && AllNumbers(lib, given)
    requires CartLink(lib, base, given, partner, source) == Success(link)
    ensures ReadsAsGiven(lib, ParseFragment(lib, "#" + link.fragment, referrer), Cart, given, partner, source, referrer)
  {
    var rows, plan := CartLinkPlan(lib, base, given, partner, source, link);
    FinishReads(lib, base.value, plan, source, referrer, Success(link));
    CartOutcome(lib, rows, given, plan, referrer);
  }

  // ----- building again from what was read -----

  function Given(items: seq<Item>): seq<LinkItem>
  {
    seq(|items|, i requires 0 <= i < |items| => LinkItem(items[i].product, items[i].quantity as real))
  }

  function ClaimedSource(intent: Intent): Option<string>
  {
    if intent.source.Some? && intent.source.value.how == Claimed then Some(intent.source.value.domain) else None
  }

  lemma {:induction false} GivenIsCanonical(lib: Library, items: seq<Item>)
    requires forall i :: 0 <= i < |items| ==> IsAcceptable(lib, items[i])
    ensures Canonical(lib, Given(items)) == Some(Given(items))
  {
    if items != [] {
      var n := |items| - 1;
      GivenIsCanonical(lib, items[..n]);
      assert Given(items)[..n] == Given(items[..n]);
      assert Given(items) == Given(items[..n]) + [Given(items)[n]];
    }
  }

  lemma {:induction false} GivenRowsParse(lib: Library, items: seq<Item>)
    requires forall i :: 0 <= i < |items| ==> IsAcceptable(lib, items[i])
    ensures ParseRows(lib, Rows(Given(items))) == Some(items)
  {
    if items != [] {
      var n := |items| - 1;
      GivenRowsParse(lib, items[..n]);
      assert Rows(Given(items))[..n] == Rows(Given(items[..n]));
      AcceptableRowParses(lib, items[n]);
      assert items == items[..n] + [items[n]];
    }
  }

  lemma AcceptableRowParses(lib: Library, item: Item)
    requires IsAcceptable(lib, item)
    ensures ParseRow(lib, Obj(map["product" := Str(item.product), "quantity" := Number(item.quantity as real)])) ==
            Some(item)
  {
  }

  /** An accepted intent: bounded, with a valid partner and, if claimed, a canonical source. */
  ghost predicate IsAccepted(lib: Library, intent: Intent)
  {
    IsBounded(lib, intent) && IsClean(lib, intent.partner, ClaimedSource(intent))
  }

  lemma AcceptedIntent(lib: Library, fragment: string, referrer: string)
    requires SoundLibrary(lib) && ParseFragment(lib, fragment, referrer).Success?
    ensures IsAccepted(lib, ParseFragment(lib, fragment, referrer).value)
  {
    AcceptedIsBounded(lib, fragment, referrer);
    var params := Parse(lib.utf8, WithoutHash(fragment));
    var intent := ParseFragment(lib, fragment, referrer).value;
    assert intent.source == SourceOf(lib, params, referrer) && intent.partner == PartnerOf(params);
    SourceIsClean(lib, params, referrer);
  }

  lemma SourceIsClean(lib: Library, params: Params, referrer: string)
    requires SoundLibrary(lib)
    ensures var source := SourceOf(lib, params, referrer);
            source.Some? && source.value.how == Claimed ==>
              source.value.domain != "" && lib.normalizeDomain(source.value.domain) == Some(source.value.domain)
  {
  }

  lemma GivenSurvives(lib: Library, items: seq<Item>)
    requires SoundLibrary(lib) && forall i :: 0 <= i < |items| ==> IsAcceptable(lib, items[i])
    ensures AllAsciiRows(Given(items)) && AllNumbers(lib, Given(items))
  {
    forall i | 0 <= i < |items| ensures IsAscii(Given(items)[i].product) && lib.isNumber(Given(items)[i].quantity) {
      var n := items[i].quantity;
      assert IsAcceptable(lib, items[i]) && lib.numberText(n as real) == Decimal(n);
    }
  }

  lemma EnvelopeOpens(lib: Library, rows: seq<LinkItem>)
    requires SoundLibrary(lib) && AllNumbers(lib, rows) && AllAsciiRows(rows) && 1 <= |rows| <= 20
    ensures var json := lib.stringify(Envelope(rows));
            && IsAscii(json)
            && CartRows(lib, json) == if |json| <= 6_144 then Success(Rows(rows)) else Failure(InvalidIntent)
  {
    assert Envelope(rows).fields.Keys == {"v", "items"};
  }

  lemma AcceptedCartItems(lib: Library, intent: Intent)
    requires SoundLibrary(lib) && IsBounded(lib, intent)
    ensures var json := lib.stringify(Envelope(Given(intent.items)));
            && IsAscii(json)
            && CartItems(lib, json) ==
               if |json| <= 6_144 then Success(intent.items) else Failure(InvalidIntent)
  {
    GivenSurvives(lib, intent.items);
    EnvelopeOpens(lib, Given(intent.items));
    GivenRowsParse(lib, intent.items);
  }

  /** The plan of the cart link of an accepted intent, and whether its text is within the two limits. */
  function CartPlan(lib: Library, intent: Intent): Plan
  {
    PlanOfCart(lib, Given(intent.items), intent.partner, ClaimedSource(intent))
  }

  predicate CartFits(lib: Library, intent: Intent)
    requires SoundUtf8(lib.utf8)
  {
    && |lib.stringify(Envelope(Given(intent.items)))| <= 6_144
    && |CartPlan(lib, intent).Text(lib)| <= 8_192
  }

  lemma CartPlanOutcome(lib: Library, intent: Intent, again: string)
    requires SoundLibrary(lib) && IsAccepted(lib, intent) && intent.mode == Cart
    ensures CartPlan(lib, intent).IsSound(lib)
    ensures CartPlan(lib, intent).Outcome(lib, again) ==
            if CartFits(lib, intent) then Some(intent.(source := SourceRead(lib, ClaimedSource(intent), again)))
            else None
  {
    AcceptedCartItems(lib, intent);
    assert AllAsciiRows(Given(intent.items));
    CartPlanIsSound(lib, Given(intent.items), intent.partner, ClaimedSource(intent));
  }

  /**
    A cart link built again from an accepted cart intent is refused only for its size, and otherwise
    reads back as the same items, partner and claimed source.
   */
  lemma CartRebuilds(lib: Library, intent: Intent, base: string, again: string)
    requires SoundLibrary(lib) && IsAccepted(lib, intent) && intent.mode == Cart
    ensures var link := CartLink(lib, Some(base), Given(intent.items), intent.partner, ClaimedSource(intent));
            && (link.Success? <==> CartFits(lib, intent))
            && (link.Success? ==>
                  ParseFragment(lib, "#" + link.value.fragment, again) ==
                  Success(intent.(source := SourceRead(lib, ClaimedSource(intent), again))))
  {
    var plan := CartPlan(lib, intent);
    CartPlanOutcome(lib, intent, again);
    GivenIsCanonical(lib, intent.items);
    assert [plan.first] + Optional("qty", None) == [plan.first];
    FinishReads(lib, base, plan, ClaimedSource(intent), again,
                CartLink(lib, Some(base), Given(intent.items), intent.partner, ClaimedSource(intent)));
  }

  lemma QuantityTextReads(lib: Library, n: nat)
    requires SoundLibrary(lib) && 1 <= n <= 99
    ensures var qty := QuantityText(lib, n as real);
            qty.Some? ==> IsAscii(qty.value) && IsQuantityText(qty.value) && Text.Number(qty.value) == n
  {
    var s := lib.numberText(n as real);
    assert s == Decimal(n);
    NumberDecimal(n);
    if n >= 10 {
      assert s == Decimal(n / 10) + [Digit(n % 10)] && Decimal(n / 10) == [Digit(n / 10)];
    }
  }

  lemma AcceptedBuyItems(lib: Library, intent: Intent)
    requires SoundLibrary(lib) && IsBounded(lib, intent) && intent.mode == Buy
    ensures BuyItems(lib, intent.items[0].product, QuantityText(lib, intent.items[0].quantity as real)) ==
            Success(intent.items)
  {
    var item := intent.items[0];
    assert IsAcceptable(lib, item) && intent.items == [item];
    QuantityTextReads(lib, item.quantity);
  }

  function BuyPlan(lib: Library, intent: Intent): Plan
    requires intent.items != []
  {
    PlanOfBuy(lib, intent.items[0].product, intent.items[0].quantity as real, intent.partner, ClaimedSource(intent))
  }

  lemma BuyPlanOutcome(lib: Library, intent: Intent, again: string)
    requires SoundLibrary(lib) && IsAccepted(lib, intent) && intent.mode == Buy
    ensures BuyPlan(lib, intent).IsSound(lib)
    ensures BuyPlan(lib, intent).Outcome(lib, again) ==
            if |BuyPlan(lib, intent).Text(lib)| <= 8_192
            then Some(intent.(source := SourceRead(lib, ClaimedSource(intent), again))) else None
  {
    assert IsAcceptable(lib, intent.items[0]);
    AcceptedBuyItems(lib, intent);
    BuyPlanIsSound(lib, intent.items[0].product, intent.items[0].quantity as real, intent.partner,
                   ClaimedSource(intent));
  }

  /** The same for purchases, whose only limit is that of the fragment. */
  lemma BuyRebuilds(lib: Library, intent: Intent, base: string, again: string)
    requires SoundLibrary(lib) && IsAccepted(lib, intent) && intent.mode == Buy
    ensures var link := BuyLink(lib, Some(base), intent.items[0].product, intent.items[0].quantity as real,
                                intent.partner, ClaimedSource(intent));
            && (link.Success? <==> |BuyPlan(lib, intent).Text(lib)| <= 8_192)
            && (link.Success? ==>
                  ParseFragment(lib, "#" + link.value.fragment, again) ==
                  Success(intent.(source := SourceRead(lib, ClaimedSource(intent), again))))
  {
    assert IsAcceptable(lib, intent.items[0]);
    BuyPlanOutcome(lib, intent, again);
    FinishReads(lib, base, BuyPlan(lib, intent), ClaimedSource(intent), again,
                BuyLink(lib, Some(base), intent.items[0].product, intent.items[0].quantity as real, intent.partner,
                        ClaimedSource(intent)));
  }

  // ----- exactly when a builder refuses, and why -----

  /** The first complaint about a link's surroundings: its origin, then its partner, its products, its source. */
  ghost predicate IsComplaint(lib: Library, base: Option<string>, partner: Option<string>, encodable: bool,
                              source: Option<string>, error: LinkError)
  {
    if base.None? then error == BadOrigin
    else if partner.Some? && !HasCodeForm(partner.value) then error == BadPartner
    else if !encodable then error == BadProduct
    else error == BadSource && source.Some? && !HasDomain(lib, source.value)
  }

  ghost predicate HasDomain(lib: Library, source: string)
  {
    exists domain :: lib.normalizeDomain(source) == Some(domain) && domain != ""
  }

  /** The fragment of a link: what is bought or the cart, then a partner, then a canonical source. */
  ghost predicate IsFragment(lib: Library, start: Params, partner: Option<string>, source: Option<string>, text: string)
    requires SoundUtf8(lib.utf8)
  {
    exists domain: Option<string> ::
      && (domain.Some? <==> source.Some?)
      && (source.Some? ==> lib.normalizeDomain(source.value) == domain && domain.value != "")
      && text == Serialize(lib.utf8, start + Optional("partner", partner) + Optional("source", domain))
  }

  lemma FinishExactly(lib: Library, base: string, start: Params, partner: Option<string>, source: Option<string>,
                      text: string)
    requires SoundUtf8(lib.utf8) && IsFragment(lib, start, partner, source, text)
    ensures Finish(lib, base, start, partner, source) ==
            if ParseFragment(lib, text, "").Success? then Success(Link(base, text)) else Failure(BadItems)
  {
  }

  /** A purchase is refused for the first complaint, or because its fragment would not be read. */
  lemma PurchasesAreRefusedExactly(lib: Library, base: Option<string>, product: string, quantity: real,
                                   partner: Option<string>, source: Option<string>, error: LinkError, text: string)
    requires SoundUtf8(lib.utf8)
    ensures var link := BuyLink(lib, base, product, quantity, partner, source);
            && (IsComplaint(lib, base, partner, lib.encodeProduct(product).Some?, source, error) ==>
                  link == Failure(error))
            && ((forall any :: !IsComplaint(lib, base, partner, lib.encodeProduct(product).Some?, source, any)) ==>
                  base.Some? && lib.encodeProduct(product).Some? &&
                  var bought := [("buy", lib.encodeProduct(product).value)] +
                                if quantity == 1.0 then [] else [("qty", lib.numberText(quantity))];
                  IsFragment(lib, bought, partner, source, text) ==>
                    link == if ParseFragment(lib, text, "").Success? then Success(Link(base.value, text))
                            else Failure(BadItems))
  {
    if partner.Some? {
      CodesHaveForm(partner.value);
    }
    forall any | any in {BadOrigin, BadPartner, BadProduct, BadSource}
      ensures IsComplaint(lib, base, partner, lib.encodeProduct(product).Some?, source, any) ==>
                BuyLink(lib, base, product, quantity, partner, source) == Failure(any)
    {
    }
    if base.Some? && lib.encodeProduct(product).Some? {
      var bought := [("buy", lib.encodeProduct(product).value)] +
                    if quantity == 1.0 then [] else [("qty", lib.numberText(quantity))];
      assert bought == [("buy", lib.encodeProduct(product).value)] + Optional("qty", QuantityText(lib, quantity));
      if IsFragment(lib, bought, partner, source, text) {
        FinishExactly(lib, base.value, bought, partner, source, text);
      }
    }
    NoComplaint(lib, base, partner, lib.encodeProduct(product).Some?, source);
  }

  lemma NoComplaint(lib: Library, base: Option<string>, partner: Option<string>, encodable: bool,
                    source: Option<string>)
    ensures (forall any :: !IsComplaint(lib, base, partner, encodable, source, any)) <==>
              && base.Some? && (partner.Some? ==> HasCodeForm(partner.value)) && encodable
              && (source.Some? ==> HasDomain(lib, source.value))
  {
    forall any | any in {BadOrigin, BadPartner, BadProduct, BadSource, BadItems}
      ensures IsComplaint(lib, base, partner, encodable, source, any) ==>
                !(base.Some? && (partner.Some? ==> HasCodeForm(partner.value)) && encodable &&
                  (source.Some? ==> HasDomain(lib, source.value)))
    {
    }
    if base.None? {
      assert IsComplaint(lib, base, partner, encodable, source, BadOrigin);
    } else if partner.Some? && !HasCodeForm(partner.value) {
      assert IsComplaint(lib, base, partner, encodable, source, BadPartner);
    } else if !encodable {
      assert IsComplaint(lib, base, partner, encodable, source, BadProduct);
    } else if source.Some? && !HasDomain(lib, source.value) {
      assert IsComplaint(lib, base, partner, encodable, source, BadSource);
    }
  }

  /** The rows of a cart in canonical form. */
  ghost predicate AreCanonical(lib: Library, given: seq<LinkItem>, rows: seq<LinkItem>)
  {
    && |rows| == |given|
    && forall i :: 0 <= i < |given| ==>
         rows[i].quantity == given[i].quantity && lib.encodeProduct(given[i].product) == Some(rows[i].product)
  }

  lemma {:induction false} CanonicalExactly(lib: Library, given: seq<LinkItem>)
    ensures Canonical(lib, given).Some? <==> forall item :: item in given ==> lib.encodeProduct(item.product).Some?
  {
    if given != [] {
      var n := |given| - 1;
      CanonicalExactly(lib, given[..n]);
      assert forall item :: item in given <==> item in given[..n] || item == given[n];
    }
  }

  lemma CanonicalUnique(lib: Library, given: seq<LinkItem>, rows: seq<LinkItem>)
    requires AreCanonical(lib, given, rows)
    ensures Canonical(lib, given) == Some(rows)
  {
    CanonicalExactly(lib, given);
    forall item | item in given ensures lib.encodeProduct(item.product).Some? {
      var i :| 0 <= i < |given| && given[i] == item;
    }
    var made := Canonical(lib, given).value;
    forall i | 0 <= i < |given| ensures made[i] == rows[i] {
      assert Some(made[i].product) == Some(rows[i].product);
    }
    assert made == rows;
  }

  /** A cart is refused for the first complaint, or because its fragment would not be read. */
  lemma CartsAreRefusedExactly(lib: Library, base: Option<string>, given: seq<LinkItem>, partner: Option<string>,
                               source: Option<string>, error: LinkError, rows: seq<LinkItem>, text: string)
    requires SoundUtf8(lib.utf8)
    ensures var encodable := forall item :: item in given ==> lib.encodeProduct(item.product).Some?;
            var link := CartLink(lib, base, given, partner, source);
            && (IsComplaint(lib, base, partner, encodable, source, error) ==> link == Failure(error))
            && ((forall any :: !IsComplaint(lib, base, partner, encodable, source, any)) ==>
                  base.Some? && encodable &&
                  (AreCanonical(lib, given, rows) &&
                   IsFragment(lib, [("cart", lib.stringify(Envelope(rows)))], partner, source, text) ==>
                     link == if ParseFragment(lib, text, "").Success? then Success(Link(base.value, text))
                             else Failure(BadItems)))
  {
    var encodable := forall item :: item in given ==> lib.encodeProduct(item.product).Some?;
    CanonicalExactly(lib, given);
    if partner.Some? {
      CodesHaveForm(partner.value);
    }
    NoComplaint(lib, base, partner, encodable, source);
    if AreCanonical(lib, given, rows) {
      CanonicalUnique(lib, given, rows);
      var start := [("cart", lib.stringify(Envelope(rows)))];
      if base.Some? && IsFragment(lib, start, partner, source, text) {
        FinishExactly(lib, base.value, start, partner, source, text);
      }
    }
  }
}
