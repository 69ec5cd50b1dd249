/** Reading the public checkout fragment. */
module CheckoutIntents {
  import opened Wrappers
  import opened Text
  import opened Sequences
  import opened Json
  import opened FormEncoding

  const MAX_FRAGMENT_BYTES := 8 * 1024
  const MAX_JSON_BYTES := 6 * 1024
  const MAX_ITEMS := 20
  const MAX_UNITS := 100

  /**
    Libraries: UTF-8, naddr references (by coordinate), JSON, which reals are numbers of the language
    and how they print, and domain names.
   */
  datatype Library = Library(
    utf8: Utf8,
    coordinateOf: string -> Option<string>,
    encodeProduct: string -> Option<string>,
    parseJson: string -> Option<Json>,
    stringify: Json -> string,
    isNumber: real -> bool,
    numberText: real -> string,
    normalizeDomain: string -> Option<string>,
    referrerDomain: string -> Option<string>)

  datatype Item = Item(product: string, coordinate: string, quantity: nat)

  datatype Mode = Buy | Cart

  datatype Method = Claimed | Referrer

  datatype Source = Source(domain: string, how: Method)

  datatype Intent = Intent(mode: Mode, items: seq<Item>, partner: Option<string>, source: Option<Source>)

  datatype IntentError = InvalidIntent | UnsupportedVersion

  // ----- syntax -----

  /** A lower-case letter or digit, then 2 to 63 more of those, `_` or `-`. */
  predicate IsPartnerCode(s: string)
  {
    && 3 <= |s| <= 64 && IsLowerAlphanumeric(s[0])
    && forall i :: 1 <= i < |s| ==> IsLowerAlphanumeric(s[i]) || s[i] == '_' || s[i] == '-'
  }

  /** A code's form: 3 to 64 lower-case letters, digits, `_` and `-`, of which the first is a letter or a digit. */
  ghost predicate HasCodeForm(s: string)
  {
    && 3 <= |s| <= 64 && s[0] !in "_-"
    && forall c :: c in s ==> 'a' <= c <= 'z' || '0' <= c <= '9' || c in "_-"
  }

  lemma CodesHaveForm(s: string)
    ensures IsPartnerCode(s) <==> HasCodeForm(s)
  {
    if HasCodeForm(s) {
      forall i | 0 <= i < |s| ensures s[i] in s {
      }
    }
  }

  predicate IsLowerAlphanumeric(c: char)
  {
    'a' <= c <= 'z' || '0' <= c <= '9'
  }

  function Lower(c: char): char
  {
    if 'A' <= c <= 'Z' then (c as int - 'A' as int + 'a' as int) as char else c
  }

  predicate IsBech32(c: char)
  {
    (IsLowerAlphanumeric(c) && c != '1' && c != 'b' && c != 'i' && c != 'o')
  }

  predicate IsNaddrText(s: string)
  {
    && |s| > 6
    && [Lower(s[0]), Lower(s[1]), Lower(s[2]), Lower(s[3]), Lower(s[4]), Lower(s[5])] == "naddr1"
    && forall i :: 6 <= i < |s| ==> IsBech32(Lower(s[i]))
  }

  /** Two digits at most, the first not zero. */
  predicate IsQuantityText(s: string)
  {
    1 <= |s| <= 2 && AllDigits(s) && s[0] != '0'
  }

  // ----- encoded parameters -----

  predicate IsValidPiece(u: Utf8, piece: string)
  {
    var parts := Split(piece, '=');
    && UriDecodes(u, parts[0])
    && (UriDecoded(u, parts[0]) == "source" || forall i :: 0 <= i < |parts| ==> UriDecodes(u, parts[i]))
  }

  predicate HasValidParameters(u: Utf8, fragment: string)
  {
    forall i :: 0 <= i < |Split(fragment, '&')| ==> IsValidPiece(u, Split(fragment, '&')[i])
  }

  method ValidEncodedParameters(u: Utf8, fragment: string) returns (ok: bool)
    ensures ok == HasValidParameters(u, fragment)
  {
    var parameters := Split(fragment, '&');
    for i := 0 to |parameters|
      invariant forall k :: 0 <= k < i ==> IsValidPiece(u, parameters[k])
    {
      var components := Split(parameters[i], '=');
      if !UriDecodes(u, components[0]) {
        return false;
      }
      if UriDecoded(u, components[0]) != "source" {
        for j := 0 to |components|
          invariant forall k :: 0 <= k < j ==> UriDecodes(u, components[k])
        {
          if !UriDecodes(u, components[j]) {
            return false;
          }
        }
      }
    }
    return true;
  }

  // ----- items -----

  /** A missing quantity stands for one that is not a number. */
  function ParseProduct(lib: Library, value: Option<Json>, quantity: Option<Json>): Option<Item>
  {
    if value.None? || !value.value.Str? || !IsNaddrText(value.value.s) then None
    else
      var text := value.value.s;
      if lib.coordinateOf(text).None? || quantity.None? || !quantity.value.Number? then None
      else
        var n := quantity.value.n;
        if n != n.Floor as real || n < 1.0 || n > 99.0 || lib.encodeProduct(text).None? then None
        else Some(Item(lib.encodeProduct(text).value, lib.coordinateOf(text).value, n.Floor))
  }

  function FieldOf(fields: map<string, Json>, key: string): Option<Json>
  {
    if key in fields then Some(fields[key]) else None
  }

  function ParseRow(lib: Library, row: Json): Option<Item>
  {
    if !row.Obj? || !(row.fields.Keys <= {"product", "quantity"}) then None
    else ParseProduct(lib, FieldOf(row.fields, "product"), FieldOf(row.fields, "quantity"))
  }

  /** All rows, or nothing if one is refused. */
  function ParseRows(lib: Library, rows: seq<Json>): (items: Option<seq<Item>>)
    ensures items.Some? ==> |items.value| == |rows|
    ensures items.Some? ==> forall i :: 0 <= i < |rows| ==> ParseRow(lib, rows[i]) == Some(items.value[i])
  {
    if rows == [] then Some([])
    else
      var n := |rows| - 1;
      match ParseRows(lib, rows[..n])
      case None => None
      case Some(front) =>
        match ParseRow(lib, rows[n])
        case None => None
        case Some(item) => Some(front + [item])
  }

  lemma {:induction false} RowsFail(lib: Library, rows: seq<Json>, i: nat)
    requires i < |rows| && ParseRow(lib, rows[i]).None?
    ensures ParseRows(lib, rows).None?
  {
    if i < |rows| - 1 {
      RowsFail(lib, rows[..|rows| - 1], i);
    }
  }

  method ParseCartRows(lib: Library, rows: seq<Json>) returns (items: Option<seq<Item>>)
    ensures items == ParseRows(lib, rows)
  {
    var pushed: seq<Item> := [];
    for i := 0 to |rows|
      invariant ParseRows(lib, rows[..i]) == Some(pushed)
    {
      var item := ParseRow(lib, rows[i]);
      if item.None? {
        RowsFail(lib, rows, i);
        return None;
      }
      assert rows[..i + 1][..i] == rows[..i];
      pushed := pushed + [item.value];
    }
    assert rows[..|rows|] == rows;
    return Some(pushed);
  }

  /** The rows of a cart envelope. */
  function CartRows(lib: Library, json: string): Result<seq<Json>, IntentError>
  {
    if |lib.utf8.encode(json)| > MAX_JSON_BYTES || lib.parseJson(json).None? || !lib.parseJson(json).value.Obj?
    then Failure(InvalidIntent)
    else
      var body := lib.parseJson(json).value.fields;
      if "v" !in body then Failure(InvalidIntent)
      else if body["v"] != Number(1.0) then Failure(UnsupportedVersion)
      else if !(body.Keys <= {"v", "items"}) || "items" !in body || !body["items"].Arr? ||
              |body["items"].items| < 1 || |body["items"].items| > MAX_ITEMS then Failure(InvalidIntent)
      else Success(body["items"].items)
  }

  function CartItems(lib: Library, json: string): Result<seq<Item>, IntentError>
  {
    match CartRows(lib, json)
    case Failure(error) => Failure(error)
    case Success(rows) =>
      match ParseRows(lib, rows)
      case None => Failure(InvalidIntent)
      case Some(items) => Success(items)
  }

  function BuyItems(lib: Library, product: string, qty: Option<string>): Result<seq<Item>, IntentError>
  {
    var quantity: Option<Json> :=
      if qty.None? then Some(Number(1.0))
      else if IsQuantityText(qty.value) then Some(Number(Text.Number(qty.value) as real))
      else None;
    match ParseProduct(lib, Some(Str(product)), quantity)
    case None => Failure(InvalidIntent)
    case Some(item) => Success([item])
  }

  function Coordinates(items: seq<Item>): seq<string>
  {
    seq(|items|, i requires 0 <= i < |items| => items[i].coordinate)
  }

  function Units(items: seq<Item>): nat
  {
    if items == [] then 0 else Units(items[..|items| - 1]) + items[|items| - 1].quantity
  }

  // ----- the fragment -----

  /** `params.getAll(key)` */
  function Values(params: Params, key: string): seq<string>
  {
    if params == [] then []
    else (if params[0].0 == key then [params[0].1] else []) + Values(params[1..], key)
  }

  function First(params: Params, key: string): Option<string>
  {
    if Values(params, key) == [] then None else Some(Values(params, key)[0])
  }

  predicate WellShaped(params: Params)
  {
    && (forall i :: 0 <= i < |params| ==> params[i].0 in {"buy", "cart", "qty", "partner", "source"})
    && |Values(params, "buy")| <= 1 && |Values(params, "cart")| <= 1
    && |Values(params, "qty")| <= 1 && |Values(params, "partner")| <= 1
    && (Values(params, "buy") != []) != (Values(params, "cart") != [])
    && (Values(params, "qty") != [] ==> Values(params, "buy") != [])
  }

  function SourceOf(lib: Library, params: Params, referrer: string): Option<Source>
  {
    var claims := Values(params, "source");
    var domain := if claims == [] then lib.referrerDomain(referrer)
                  else if |claims| == 1 then lib.normalizeDomain(claims[0]) else None;
    if domain.Some? && domain.value != "" then Some(Source(domain.value, if claims == [] then Referrer else Claimed))
    else None
  }

  function PartnerOf(params: Params): Option<string>
  {
    var claim := First(params, "partner");
    if claim.Some? && IsPartnerCode(claim.value) then claim else None
  }

  function ItemsOf(lib: Library, params: Params): Result<seq<Item>, IntentError>
  {
    if Values(params, "buy") != [] then BuyItems(lib, Values(params, "buy")[0], First(params, "qty"))
    else CartItems(lib, if First(params, "cart").Some? then First(params, "cart").value else "")
  }

  function IntentOf(lib: Library, params: Params, referrer: string): Result<Intent, IntentError>
  {
    if !WellShaped(params) then Failure(InvalidIntent)
    else
      match ItemsOf(lib, params)
      case Failure(error) => Failure(error)
      case Success(items) =>
        if |Elements(Coordinates(items))| != |items| || Units(items) > MAX_UNITS then Failure(InvalidIntent)
        else
          var mode := if Values(params, "buy") != [] then Buy else Cart;
          Success(Intent(mode, items, PartnerOf(params), SourceOf(lib, params, referrer)))
  }

  function WithoutHash(fragment: string): string
  {
    if fragment != "" && fragment[0] == '#' then fragment[1..] else fragment
  }

  predicate IsReadable(lib: Library, raw: string)
  {
    raw != "" && |lib.utf8.encode(raw)| <= MAX_FRAGMENT_BYTES && HasValidParameters(lib.utf8, raw)
  }

  function ParseFragment(lib: Library, fragment: string, referrer: string): Result<Intent, IntentError>
  {
    var raw := WithoutHash(fragment);
    if !IsReadable(lib, raw) then Failure(InvalidIntent)
    else IntentOf(lib, Parse(lib.utf8, raw), referrer)
  }

  method ParseCheckoutIntentFragment(lib: Library, fragment: string, referrer: string)
    returns (result: Result<Intent, IntentError>)
    ensures result == ParseFragment(lib, fragment, referrer)
  {
    var raw := WithoutHash(fragment);
    if raw == "" || |lib.utf8.encode(raw)| > MAX_FRAGMENT_BYTES {
      return Failure(InvalidIntent);
    }
    var valid := ValidEncodedParameters(lib.utf8, raw);
    if !valid {
      return Failure(InvalidIntent);
    }
    var params := Parse(lib.utf8, raw);
    if !WellShaped(params) {
      return Failure(InvalidIntent);
    }
    var items: seq<Item> := [];
    var mode := Buy;
    if Values(params, "buy") != [] {
      var bought := BuyItems(lib, Values(params, "buy")[0], First(params, "qty"));
      if bought.Failure? {
        return Failure(bought.error);
      }
      items := bought.value;
    } else {
      mode := Cart;
      var rows := CartRows(lib, Values(params, "cart")[0]);
      if rows.Failure? {
        return Failure(rows.error);
      }
      var parsed := ParseCartRows(lib, rows.value);
      if parsed.None? {
        return Failure(InvalidIntent);
      }
      items := parsed.value;
    }
    if |Elements(Coordinates(items))| != |items| || Units(items) > MAX_UNITS {
      return Failure(InvalidIntent);
    }
    return Success(Intent(mode, items, PartnerOf(params), SourceOf(lib, params, referrer)));
  }

  // ----- what an accepted intent is -----

  /** The reference libraries: canonical references are ASCII naddr text and stand for themselves. */
  ghost predicate SoundReferences(lib: Library)
  {
    forall x :: lib.encodeProduct(x).Some? ==>
      var y := lib.encodeProduct(x).value;
      && lib.encodeProduct(y) == Some(y) && lib.coordinateOf(y) == lib.coordinateOf(x)
      && IsNaddrText(y) && IsAscii(y)
  }

  predicate IsAcceptable(lib: Library, item: Item)
  {
    && 1 <= item.quantity <= 99 && IsNaddrText(item.product) && IsAscii(item.product)
    && lib.encodeProduct(item.product) == Some(item.product)
    && lib.coordinateOf(item.product) == Some(item.coordinate)
  }

  lemma ParsedProductIsAcceptable(lib: Library, value: Option<Json>, quantity: Option<Json>)
    requires SoundReferences(lib) && ParseProduct(lib, value, quantity).Some?
    ensures IsAcceptable(lib, ParseProduct(lib, value, quantity).value)
  {
  }

  /** 1 to 20 acceptable items at distinct coordinates, at most 100 units, one if it is a purchase. */
  ghost predicate IsBounded(lib: Library, intent: Intent)
  {
    && 1 <= |intent.items| <= 20 && (intent.mode == Buy ==> |intent.items| == 1)
    && (forall i :: 0 <= i < |intent.items| ==> IsAcceptable(lib, intent.items[i]))
    && DistinctCoordinates(intent.items)
    && Units(intent.items) <= 100
    && (intent.partner.Some? ==> HasCodeForm(intent.partner.value))
  }

  lemma ItemsAreAcceptable(lib: Library, params: Params)
    requires SoundReferences(lib) && ItemsOf(lib, params).Success?
    ensures var items := ItemsOf(lib, params).value;
            && 1 <= |items| <= 20 && (Values(params, "buy") != [] ==> |items| == 1)
            && forall i :: 0 <= i < |items| ==> IsAcceptable(lib, items[i])
  {
    var items := ItemsOf(lib, params).value;
    if Values(params, "buy") != [] {
      var qty := First(params, "qty");
      var product := Some(Str(Values(params, "buy")[0]));
      if qty.None? {
        ParsedProductIsAcceptable(lib, product, Some(Number(1.0)));
      } else if IsQuantityText(qty.value) {
        ParsedProductIsAcceptable(lib, product, Some(Number(Text.Number(qty.value) as real)));
      }
    } else {
      var rows := CartRows(lib, if First(params, "cart").Some? then First(params, "cart").value else "").value;
      forall i | 0 <= i < |items| ensures IsAcceptable(lib, items[i]) {
        assert ParseRow(lib, rows[i]) == Some(items[i]);
        ParsedProductIsAcceptable(lib, FieldOf(rows[i].fields, "product"), FieldOf(rows[i].fields, "quantity"));
      }
    }
  }

  lemma CoordinatesAreDistinct(items: seq<Item>)
    ensures |Elements(Coordinates(items))| == |items| <==> DistinctCoordinates(items)
  {
    var coordinates := Coordinates(items);
    ElementsDistinct(coordinates);
    if Distinct(coordinates) {
      forall i, j | 0 <= i < j < |items| ensures items[i].coordinate != items[j].coordinate {
        assert coordinates[i] != coordinates[j];
      }
    }
  }

  predicate DistinctCoordinates(items: seq<Item>)
  {
    forall i, j :: 0 <= i < j < |items| ==> items[i].coordinate != items[j].coordinate
  }

  /** Every accepted intent is bounded, whatever the fragment. */
  lemma AcceptedIsBounded(lib: Library, fragment: string, referrer: string)
    requires SoundReferences(lib) && ParseFragment(lib, fragment, referrer).Success?
    ensures IsBounded(lib, ParseFragment(lib, fragment, referrer).value)
  {
    var params := Parse(lib.utf8, WithoutHash(fragment));
    ItemsAreAcceptable(lib, params);
    CoordinatesAreDistinct(ItemsOf(lib, params).value);
    if PartnerOf(params).Some? {
      CodesHaveForm(PartnerOf(params).value);
    }
  }
}
