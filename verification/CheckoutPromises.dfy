/** Exactly which fragments are read, and as what: the intent in terms of names, values, rows and limits. */
module CheckoutPromises {
  import opened Wrappers
  import opened Text
  import opened Sequences
  import opened Json
  import opened FormEncoding
  import opened CheckoutIntents

  // ----- texts -----

  lemma OneDigit(s: string)
    requires |s| == 1 && AllDigits(s)
    ensures Text.Number(s) == s[0] as int - '0' as int && Text.Number(s) < 10 && s == Decimal(Text.Number(s))
  {
    assert s[..0] == "" && s == [s[0]];
  }

  lemma TwoDigits(s: string)
    requires |s| == 2 && AllDigits(s) && s[0] != '0'
    ensures 10 <= Text.Number(s) <= 99 && s == Decimal(Text.Number(s))
  {
    var a, b := s[0] as int - '0' as int, s[1] as int - '0' as int;
    OneDigit([s[0]]);
    assert s[..1] == [s[0]];
    assert Text.Number(s) == a * 10 + b;
    DecimalOfTwo(a, b);
    assert [s[0]] + [s[1]] == s;
  }

  lemma DecimalOfTwo(a: nat, b: nat)
    requires 1 <= a <= 9 && b <= 9
    ensures Decimal(a * 10 + b) == [Digit(a), Digit(b)]
  {
    var n := a * 10 + b;
    assert n / 10 == a && n % 10 == b;
    assert Decimal(a) == [Digit(a)];
    assert Decimal(n) == Decimal(a) + [Digit(b)];
  }

  /** A quantity is spelled as the decimal text of a number from 1 to 99. */
  lemma QuantitiesAreDecimals(s: string)
    ensures IsQuantityText(s) <==> exists n: nat :: 1 <= n <= 99 && s == Decimal(n)
    ensures IsQuantityText(s) ==> 1 <= Text.Number(s) <= 99 && s == Decimal(Text.Number(s))
  {
    if IsQuantityText(s) {
      if |s| == 1 {
        OneDigit(s);
      } else {
        TwoDigits(s);
      }
      assert 1 <= Text.Number(s) <= 99;
    }
    forall n: nat | 1 <= n <= 99 && s == Decimal(n) ensures IsQuantityText(s) {
      if n >= 10 {
        DecimalOfTwo(n / 10, n % 10);
      }
    }
  }

  /** A character of the reference alphabet, in small or capital letters. */
  ghost predicate IsReferenceChar(c: char)
  {
    c in "023456789" || c in "acdefghjklmnpqrstuvwxyz" || c in "ACDEFGHJKLMNPQRSTUVWXYZ"
  }

  /** A reference: `naddr1`, in small or capital letters, and at least one character of its alphabet. */
  ghost predicate IsReference(s: string)
  {
    && |s| > 6
    && s[0] in "nN" && s[1] in "aA" && s[2] in "dD" && s[3] in "dD" && s[4] in "rR" && s[5] == '1'
    && forall i :: 6 <= i < |s| ==> IsReferenceChar(s[i])
  }

  lemma ReferenceChars(c: char)
    ensures IsBech32(Lower(c)) <==> IsReferenceChar(c)
  {
    DigitChars(c);
    SmallChars(c);
    CapitalChars(c);
  }

  lemma DigitChars(c: char)
    ensures c in "023456789" <==> '0' <= c <= '9' && c != '1'
  {
    var all := "023456789";
    if c == '0' {
      assert all[0] == c;
    } else if '2' <= c <= '9' {
      assert all[c as int - '2' as int + 1] == c;
    }
  }

  lemma SmallChars(c: char)
    ensures c in "acdefghjklmnpqrstuvwxyz" <==> 'a' <= c <= 'z' && c != 'b' && c != 'i' && c != 'o'
  {
    var all := "acdefghjklmnpqrstuvwxyz";
    if c == 'a' {
      assert all[0] == c;
    } else if 'c' <= c <= 'h' {
      assert all[c as int - 'c' as int + 1] == c;
    } else if 'j' <= c <= 'n' {
      assert all[c as int - 'j' as int + 7] == c;
    } else if 'p' <= c <= 'z' {
      assert all[c as int - 'p' as int + 12] == c;
    }
  }

  lemma CapitalChars(c: char)
    ensures c in "ACDEFGHJKLMNPQRSTUVWXYZ" <==> 'A' <= c <= 'Z' && c != 'B' && c != 'I' && c != 'O'
  {
    var all := "ACDEFGHJKLMNPQRSTUVWXYZ";
    if c == 'A' {
      assert all[0] == c;
    } else if 'C' <= c <= 'H' {
      assert all[c as int - 'C' as int + 1] == c;
    } else if 'J' <= c <= 'N' {
      assert all[c as int - 'J' as int + 7] == c;
    } else if 'P' <= c <= 'Z' {
      assert all[c as int - 'P' as int + 12] == c;
    }
  }

  lemma ReferencesAre(s: string)
    ensures IsNaddrText(s) <==> IsReference(s)
  {
    if |s| > 6 {
      var head := [Lower(s[0]), Lower(s[1]), Lower(s[2]), Lower(s[3]), Lower(s[4]), Lower(s[5])];
      HeadIs(s, head);
      forall i | 6 <= i < |s| ensures IsBech32(Lower(s[i])) <==> IsReferenceChar(s[i]) {
        ReferenceChars(s[i]);
      }
    }
  }

  lemma HeadIs(s: string, head: string)
    requires |s| > 6 && head == [Lower(s[0]), Lower(s[1]), Lower(s[2]), Lower(s[3]), Lower(s[4]), Lower(s[5])]
    ensures head == "naddr1" <==>
            s[0] in "nN" && s[1] in "aA" && s[2] in "dD" && s[3] in "dD" && s[4] in "rR" && s[5] == '1'
  {
    assert head == "naddr1" <==> head[0] == 'n' && head[1] == 'a' && head[2] == 'd' && head[3] == 'd' &&
                                 head[4] == 'r' && head[5] == '1';
  }

  // ----- what an item is read from -----

  /** The item that a reference and a quantity stand for: canonical, at its coordinate, 1 to 99 units. */
  ghost predicate IsItem(lib: Library, text: string, n: int, item: Item)
  {
    && IsReference(text) && 1 <= n <= 99
    && item.quantity == n && Some(item.product) == lib.encodeProduct(text)
    && Some(item.coordinate) == lib.coordinateOf(text)
  }

  lemma ProductIs(lib: Library, text: string, q: real, item: Item)
    ensures ParseProduct(lib, Some(Str(text)), Some(Number(q))) == Some(item) <==>
              q == q.Floor as real && IsItem(lib, text, q.Floor, item)
  {
    ReferencesAre(text);
  }

  /** A row with a reference and a whole quantity, and nothing else. */
  ghost predicate IsRow(lib: Library, row: Json, item: Item)
  {
    && row.Obj? && row.fields.Keys == {"product", "quantity"}
    && exists text, q ::
         && row.fields["product"] == Str(text) && row.fields["quantity"] == Number(q)
         && q == q.Floor as real && IsItem(lib, text, q.Floor, item)
  }

  lemma RowIs(lib: Library, row: Json, item: Item)
    ensures ParseRow(lib, row) == Some(item) <==> IsRow(lib, row, item)
  {
    if row.Obj? && "product" in row.fields && row.fields["product"].Str? && "quantity" in row.fields &&
       row.fields["quantity"].Number? {
      var text, q := row.fields["product"].s, row.fields["quantity"].n;
      ProductIs(lib, text, q, item);
      assert row.fields.Keys <= {"product", "quantity"} <==> row.fields.Keys == {"product", "quantity"};
    }
  }

  ghost predicate AreRows(lib: Library, rows: seq<Json>, items: seq<Item>)
  {
    |items| == |rows| && forall i :: 0 <= i < |rows| ==> IsRow(lib, rows[i], items[i])
  }

  lemma LastRow(lib: Library, rows: seq<Json>, items: seq<Item>)
    requires rows != [] && |items| == |rows|
    ensures AreRows(lib, rows, items) <==>
              AreRows(lib, rows[..|rows| - 1], items[..|rows| - 1]) && IsRow(lib, rows[|rows| - 1], items[|rows| - 1])
  {
    var n := |rows| - 1;
    var front, kept := rows[..n], items[..n];
    assert forall i :: 0 <= i < n ==> front[i] == rows[i] && kept[i] == items[i];
    if AreRows(lib, front, kept) && IsRow(lib, rows[n], items[n]) {
      forall i | 0 <= i < |rows| ensures IsRow(lib, rows[i], items[i]) {
        if i < n {
          assert IsRow(lib, front[i], kept[i]);
        }
      }
    }
    if AreRows(lib, rows, items) {
      forall i | 0 <= i < n ensures IsRow(lib, front[i], kept[i]) {
        assert IsRow(lib, rows[i], items[i]);
      }
    }
  }

  lemma ParsedLast(lib: Library, rows: seq<Json>, items: seq<Item>)
    requires rows != [] && |items| == |rows|
    ensures ParseRows(lib, rows) == Some(items) <==>
              && ParseRows(lib, rows[..|rows| - 1]) == Some(items[..|rows| - 1])
              && ParseRow(lib, rows[|rows| - 1]) == Some(items[|rows| - 1])
  {
    assert items == items[..|rows| - 1] + [items[|rows| - 1]];
  }

  lemma {:induction false} RowsAre(lib: Library, rows: seq<Json>, items: seq<Item>)
    ensures ParseRows(lib, rows) == Some(items) <==> AreRows(lib, rows, items)
  {
    if rows != [] && |items| == |rows| {
      var n := |rows| - 1;
      RowsAre(lib, rows[..n], items[..n]);
      RowIs(lib, rows[n], items[n]);
      LastRow(lib, rows, items);
      ParsedLast(lib, rows, items);
    }
  }

  /** The envelope of a cart: version 1, and one to twenty rows. */
  ghost predicate IsEnvelope(body: map<string, Json>, rows: seq<Json>)
  {
    && body.Keys == {"v", "items"} && body["v"] == Number(1.0) && body["items"] == Arr(rows) && 1 <= |rows| <= 20
  }

  /** The object that a short enough text spells. */
  ghost predicate SpellsObject(lib: Library, json: string, body: map<string, Json>)
  {
    |lib.utf8.encode(json)| <= 6_144 && lib.parseJson(json) == Some(Obj(body))
  }

  lemma CartRowsAre(lib: Library, json: string, rows: seq<Json>)
    ensures CartRows(lib, json) == Success(rows) <==>
              exists body :: SpellsObject(lib, json, body) && IsEnvelope(body, rows)
  {
    if lib.parseJson(json).Some? && lib.parseJson(json).value.Obj? {
      var body := lib.parseJson(json).value.fields;
      assert body.Keys <= {"v", "items"} && "v" in body && "items" in body <==> body.Keys == {"v", "items"};
      if CartRows(lib, json) == Success(rows) {
        assert body["items"] == Arr(rows) && SpellsObject(lib, json, body) && IsEnvelope(body, rows);
      }
    }
  }

  lemma VersionIs(lib: Library, json: string)
    ensures CartItems(lib, json) == Failure(UnsupportedVersion) <==>
              exists body :: SpellsObject(lib, json, body) && "v" in body && body["v"] != Number(1.0)
  {
  }

  lemma CartIs(lib: Library, json: string, items: seq<Item>)
    ensures CartItems(lib, json) == Success(items) <==>
              exists body, rows :: SpellsObject(lib, json, body) && IsEnvelope(body, rows) && AreRows(lib, rows, items)
  {
    if CartItems(lib, json) == Success(items) {
      var rows := CartRows(lib, json).value;
      CartRowsAre(lib, json, rows);
      RowsAre(lib, rows, items);
    }
    forall body, rows | SpellsObject(lib, json, body) && IsEnvelope(body, rows) && AreRows(lib, rows, items)
      ensures CartItems(lib, json) == Success(items)
    {
      CartRowsAre(lib, json, rows);
      RowsAre(lib, rows, items);
    }
  }

  // ----- the parameters of a fragment -----

  /** The text of a parameter is well encoded: every escape has its two digits, and the bytes are UTF-8. */
  ghost predicate IsWellEncoded(u: Utf8, s: string)
  {
    && (forall i :: 0 <= i < |s| && s[i] == '%' ==> i + 2 < |s| && IsDigitChar(s[i + 1]) && IsDigitChar(s[i + 2]))
    && u.valid(PercentDecode(u.encode(s)))
  }

  ghost predicate IsDigitChar(c: char)
  {
    c in "0123456789" || c in "abcdef" || c in "ABCDEF"
  }

  lemma DigitCharsAre(c: char)
    ensures IsHexDigit(c) <==> IsDigitChar(c)
  {
    var digits, small, capital := "0123456789", "abcdef", "ABCDEF";
    if '0' <= c <= '9' {
      assert digits[c as int - '0' as int] == c;
    } else if 'a' <= c <= 'f' {
      assert small[c as int - 'a' as int] == c;
    } else if 'A' <= c <= 'F' {
      assert capital[c as int - 'A' as int] == c;
    }
  }

  lemma WellEncodedDecodes(u: Utf8, s: string)
    ensures UriDecodes(u, s) <==> IsWellEncoded(u, s)
  {
    forall c ensures IsHexDigit(c) <==> IsDigitChar(c) {
      DigitCharsAre(c);
    }
  }

  /** Every parameter has a well-encoded name and, but for a source, well-encoded values. */
  ghost predicate AreWellEncoded(u: Utf8, raw: string)
  {
    forall piece :: piece in Split(raw, '&') ==>
      var parts := Split(piece, '=');
      && IsWellEncoded(u, parts[0])
      && (u.decode(PercentDecode(u.encode(parts[0]))) == "source" ||
          forall part :: part in parts ==> IsWellEncoded(u, part))
  }

  lemma PieceIsWellEncoded(u: Utf8, piece: string)
    ensures IsValidPiece(u, piece) <==>
              var parts := Split(piece, '=');
              && IsWellEncoded(u, parts[0])
              && (u.decode(PercentDecode(u.encode(parts[0]))) == "source" ||
                  forall part :: part in parts ==> IsWellEncoded(u, part))
  {
    var parts := Split(piece, '=');
    forall part ensures UriDecodes(u, part) <==> IsWellEncoded(u, part) {
      WellEncodedDecodes(u, part);
    }
    assert (forall part :: part in parts ==> UriDecodes(u, part)) <==>
           (forall i :: 0 <= i < |parts| ==> UriDecodes(u, parts[i]));
  }

  lemma ParametersAreWellEncoded(u: Utf8, raw: string)
    ensures HasValidParameters(u, raw) <==> AreWellEncoded(u, raw)
  {
    var pieces := Split(raw, '&');
    forall piece ensures IsValidPiece(u, piece) <==>
              var parts := Split(piece, '=');
              && IsWellEncoded(u, parts[0])
              && (u.decode(PercentDecode(u.encode(parts[0]))) == "source" ||
                  forall part :: part in parts ==> IsWellEncoded(u, part))
    {
      PieceIsWellEncoded(u, piece);
    }
    assert (forall piece :: piece in pieces ==> IsValidPiece(u, piece)) <==>
           (forall i :: 0 <= i < |pieces| ==> IsValidPiece(u, pieces[i]));
  }

  ghost predicate IsNamed(params: Params, key: string, i: nat)
  {
    i < |params| && params[i].0 == key
  }

  ghost predicate Named(params: Params, key: string)
  {
    exists i: nat :: IsNamed(params, key, i)
  }

  /** The name occurs at most once. */
  ghost predicate AtMostOnce(params: Params, key: string)
  {
    forall i: nat, j: nat :: IsNamed(params, key, i) && IsNamed(params, key, j) ==> i == j
  }

  /** The name occurs once, with this value. */
  ghost predicate OnlyAs(params: Params, key: string, value: string)
  {
    AtMostOnce(params, key) && exists i: nat :: IsNamed(params, key, i) && params[i].1 == value
  }

  lemma ShiftNamed(params: Params, key: string)
    requires params != []
    ensures forall i: nat :: IsNamed(params[1..], key, i) <==> IsNamed(params, key, i + 1)
    ensures forall i: nat :: IsNamed(params[1..], key, i) ==> params[1..][i] == params[i + 1]
    ensures forall i: nat :: IsNamed(params, key, i) && i > 0 ==> IsNamed(params[1..], key, i - 1)
  {
  }

  lemma HeadNamed(params: Params, key: string)
    requires params != []
    ensures Named(params, key) <==> params[0].0 == key || Named(params[1..], key)
  {
    ShiftNamed(params, key);
    if i: nat :| IsNamed(params, key, i) {
      if i > 0 {
        assert IsNamed(params[1..], key, i - 1);
      }
    }
    if params[0].0 == key {
      assert IsNamed(params, key, 0);
    }
    if i: nat :| IsNamed(params[1..], key, i) {
      assert IsNamed(params, key, i + 1);
    }
  }

  lemma HeadOnce(params: Params, key: string)
    requires params != []
    ensures AtMostOnce(params, key) <==>
              AtMostOnce(params[1..], key) && (params[0].0 == key ==> !Named(params[1..], key))
  {
    var rest := params[1..];
    ShiftNamed(params, key);
    if AtMostOnce(params, key) {
      forall i: nat, j: nat | IsNamed(rest, key, i) && IsNamed(rest, key, j) ensures i == j {
        assert IsNamed(params, key, i + 1) && IsNamed(params, key, j + 1);
      }
      assert params[0].0 == key ==> IsNamed(params, key, 0);
    }
    if AtMostOnce(rest, key) && (params[0].0 == key ==> !Named(rest, key)) {
      forall i: nat, j: nat | IsNamed(params, key, i) && IsNamed(params, key, j) ensures i == j {
        if i > 0 && j > 0 {
          assert IsNamed(rest, key, i - 1) && IsNamed(rest, key, j - 1);
        }
      }
    }
  }

  /** What is collected under a name: nothing if it does not occur, and one value if it occurs once. */
  lemma {:induction false} ValuesNamed(params: Params, key: string)
    ensures Values(params, key) == [] <==> !Named(params, key)
    ensures |Values(params, key)| <= 1 <==> AtMostOnce(params, key)
    ensures forall i: nat :: IsNamed(params, key, i) ==> params[i].1 in Values(params, key)
  {
    if params != [] {
      var rest := params[1..];
      ValuesNamed(rest, key);
      ShiftNamed(params, key);
      HeadNamed(params, key);
      HeadOnce(params, key);
      forall i: nat | IsNamed(params, key, i) ensures params[i].1 in Values(params, key) {
        if i > 0 {
          assert IsNamed(rest, key, i - 1);
        }
      }
    }
  }

  lemma OneValue(params: Params, key: string, v: string)
    ensures Values(params, key) == [v] <==> OnlyAs(params, key, v)
  {
    var values := Values(params, key);
    ValuesNamed(params, key);
    if values == [v] {
      var i: nat :| IsNamed(params, key, i);
      assert params[i].1 in values && params[i].1 == v;
    }
    if OnlyAs(params, key, v) {
      var i: nat :| IsNamed(params, key, i) && params[i].1 == v;
      assert v in values && |values| == 1;
    }
  }

  // ----- intents -----

  /** The five names, each but a source once: a purchase or a cart but not both, a quantity only with a purchase. */
  ghost predicate IsShaped(params: Params)
  {
    && (forall i :: 0 <= i < |params| ==> params[i].0 in ["buy", "cart", "qty", "partner", "source"])
    && AtMostOnce(params, "buy") && AtMostOnce(params, "cart") && AtMostOnce(params, "qty")
    && AtMostOnce(params, "partner") && (Named(params, "buy") <==> !Named(params, "cart"))
    && (Named(params, "qty") ==> Named(params, "buy"))
  }

  lemma NamesAre(key: string)
    ensures key in {"buy", "cart", "qty", "partner", "source"} <==>
            key in ["buy", "cart", "qty", "partner", "source"]
  {
  }

  lemma ShapeIs(params: Params)
    ensures WellShaped(params) <==> IsShaped(params)
  {
    forall key ensures key in {"buy", "cart", "qty", "partner", "source"} <==>
                       key in ["buy", "cart", "qty", "partner", "source"] {
      NamesAre(key);
    }
    ValuesNamed(params, "buy");
    ValuesNamed(params, "cart");
    ValuesNamed(params, "qty");
    ValuesNamed(params, "partner");
  }

  /** One unit unless a quantity is given, which is the decimal text of 1 to 99. */
  ghost predicate IsQuantity(params: Params, n: nat)
  {
    if Named(params, "qty") then 1 <= n <= 99 && OnlyAs(params, "qty", Decimal(n)) else n == 1
  }

  /** What is bought: one item, or the rows of a cart's envelope. */
  ghost predicate AreItems(lib: Library, params: Params, mode: Mode, items: seq<Item>)
  {
    match mode
    case Buy =>
      && |items| == 1
      && exists text, n: nat :: OnlyAs(params, "buy", text) && IsQuantity(params, n) && IsItem(lib, text, n, items[0])
    case Cart =>
      exists json, body, rows ::
        && OnlyAs(params, "cart", json) && SpellsObject(lib, json, body)
        && IsEnvelope(body, rows) && AreRows(lib, rows, items)
  }

  lemma QuantityIs(params: Params, n: nat)
    requires IsShaped(params)
    ensures IsQuantity(params, n) <==>
              var qty := First(params, "qty");
              if qty.None? then n == 1 else IsQuantityText(qty.value) && Text.Number(qty.value) == n
  {
    ValuesNamed(params, "qty");
    OneValue(params, "qty", Decimal(n));
    NumberDecimal(n);
    if First(params, "qty").Some? {
      QuantitiesAreDecimals(First(params, "qty").value);
      assert Values(params, "qty") == [First(params, "qty").value];
    }
  }

  lemma BuyIs(lib: Library, product: string, qty: Option<string>, item: Item)
    ensures BuyItems(lib, product, qty) == Success([item]) <==>
              && (qty.Some? ==> IsQuantityText(qty.value))
              && IsItem(lib, product, if qty.None? then 1 else Text.Number(qty.value), item)
    ensures BuyItems(lib, product, qty).Success? ==> |BuyItems(lib, product, qty).value| == 1
    ensures BuyItems(lib, product, qty).Failure? ==> BuyItems(lib, product, qty).error == InvalidIntent
  {
    var n := if qty.None? then 1 else if IsQuantityText(qty.value) then Text.Number(qty.value) else 0;
    ProductIs(lib, product, n as real, item);
    assert (n as real).Floor == n;
  }

  lemma ItemsAre(lib: Library, params: Params, items: seq<Item>)
    requires IsShaped(params)
    ensures ItemsOf(lib, params) == Success(items) <==>
              AreItems(lib, params, if Named(params, "buy") then Buy else Cart, items)
  {
    ValuesNamed(params, "buy");
    ValuesNamed(params, "cart");
    ValuesNamed(params, "qty");
    if Named(params, "buy") {
      PurchaseIs(lib, params, items);
    } else {
      var json := Values(params, "cart")[0];
      assert Values(params, "cart") == [json];
      forall x ensures OnlyAs(params, "cart", x) <==> x == json {
        OneValue(params, "cart", x);
      }
      CartIs(lib, json, items);
    }
  }

  lemma PurchaseIs(lib: Library, params: Params, items: seq<Item>)
    requires IsShaped(params) && Named(params, "buy")
    ensures ItemsOf(lib, params) == Success(items) <==> AreItems(lib, params, Buy, items)
  {
    ValuesNamed(params, "buy");
    var text, qty := Values(params, "buy")[0], First(params, "qty");
    assert Values(params, "buy") == [text];
    forall x ensures OnlyAs(params, "buy", x) <==> x == text {
      OneValue(params, "buy", x);
    }
    forall n: nat ensures IsQuantity(params, n) <==>
              if qty.None? then n == 1 else IsQuantityText(qty.value) && Text.Number(qty.value) == n {
      QuantityIs(params, n);
    }
    if |items| == 1 {
      BuyIs(lib, text, qty, items[0]);
      assert items == [items[0]];
    } else if BuyItems(lib, text, qty).Success? {
      BuyIs(lib, text, qty, BuyItems(lib, text, qty).value[0]);
    }
  }

  /** Total units of the items. */
  ghost function TotalOf(items: seq<Item>): nat
  {
    if items == [] then 0 else items[0].quantity + TotalOf(items[1..])
  }

  lemma {:induction false} TotalIsUnits(items: seq<Item>)
    ensures Units(items) == TotalOf(items)
  {
    if items != [] {
      TotalIsUnits(items[1..]);
      UnitsFromFront(items);
    }
  }

  lemma {:induction false} UnitsFromFront(items: seq<Item>)
    requires items != []
    ensures Units(items) == items[0].quantity + Units(items[1..])
  {
    var n := |items| - 1;
    if n > 0 {
      UnitsFromFront(items[..n]);
      assert items[..n][1..] == items[1..][..n - 1];
    } else {
      assert Units(items[..0]) == 0 && Units(items[1..]) == 0;
    }
  }

  /** The partner named once in the right form, if any. */
  ghost predicate IsPartner(params: Params, partner: Option<string>)
  {
    match partner
    case Some(code) => OnlyAs(params, "partner", code) && HasCodeForm(code)
    case None => forall code :: OnlyAs(params, "partner", code) ==> !HasCodeForm(code)
  }

  /** A claimed source is the one source named; the referrer counts only if none is. */
  ghost predicate IsSource(lib: Library, params: Params, referrer: string, source: Option<Source>)
  {
    match source
    case Some(Source(domain, Claimed)) =>
      domain != "" && exists claim :: OnlyAs(params, "source", claim) && lib.normalizeDomain(claim) == Some(domain)
    case Some(Source(domain, Referrer)) =>
      domain != "" && !Named(params, "source") && lib.referrerDomain(referrer) == Some(domain)
    case None =>
      if Named(params, "source") then
        forall claim, domain ::
          OnlyAs(params, "source", claim) && lib.normalizeDomain(claim) == Some(domain) ==> domain == ""
      else forall domain :: lib.referrerDomain(referrer) == Some(domain) ==> domain == ""
  }

  lemma PartnerIs(params: Params, partner: Option<string>)
    requires AtMostOnce(params, "partner")
    ensures PartnerOf(params) == partner <==> IsPartner(params, partner)
  {
    ValuesNamed(params, "partner");
    var values := Values(params, "partner");
    forall code ensures OnlyAs(params, "partner", code) <==> values == [code] {
      OneValue(params, "partner", code);
    }
    if values != [] {
      assert values == [values[0]];
      CodesHaveForm(values[0]);
    }
  }

  lemma SourceIs(lib: Library, params: Params, referrer: string, source: Option<Source>)
    ensures SourceOf(lib, params, referrer) == source <==> IsSource(lib, params, referrer, source)
  {
    ValuesNamed(params, "source");
    var values := Values(params, "source");
    forall claim ensures OnlyAs(params, "source", claim) <==> values == [claim] {
      OneValue(params, "source", claim);
    }
    if |values| == 1 {
      assert values == [values[0]];
    }
  }

  /** What parameters mean: shaped, items at distinct coordinates of at most 100 units, a partner and a source. */
  ghost predicate Means(lib: Library, params: Params, referrer: string, intent: Intent)
  {
    && IsShaped(params) && intent.mode == (if Named(params, "buy") then Buy else Cart)
    && AreItems(lib, params, intent.mode, intent.items)
    && (forall i, j :: 0 <= i < j < |intent.items| ==> intent.items[i].coordinate != intent.items[j].coordinate)
    && TotalOf(intent.items) <= 100
    && IsPartner(params, intent.partner) && IsSource(lib, params, referrer, intent.source)
  }

  lemma IntentIs(lib: Library, params: Params, referrer: string, intent: Intent)
    ensures IntentOf(lib, params, referrer) == Success(intent) <==> Means(lib, params, referrer, intent)
  {
    ShapeIs(params);
    if IsShaped(params) {
      ValuesNamed(params, "buy");
      ItemsAre(lib, params, intent.items);
      CoordinatesAreDistinct(intent.items);
      TotalIsUnits(intent.items);
      PartnerIs(params, intent.partner);
      SourceIs(lib, params, referrer, intent.source);
    }
  }

  /** The fragment without the one `#` it may start with. */
  ghost predicate IsRaw(fragment: string, raw: string)
  {
    fragment == "#" + raw || (fragment == raw && !("#" <= raw))
  }

  /**
    Exactly which fragments are read, and as what: those of at most 8192 bytes whose parameters are
    well encoded and mean that intent.
   */
  lemma IntentsAreReadExactly(lib: Library, fragment: string, referrer: string, intent: Intent)
    ensures ParseFragment(lib, fragment, referrer) == Success(intent) <==>
              exists raw ::
                && IsRaw(fragment, raw) && raw != "" && |lib.utf8.encode(raw)| <= 8_192
                && AreWellEncoded(lib.utf8, raw) && Means(lib, Parse(lib.utf8, raw), referrer, intent)
  {
    var raw := WithoutHash(fragment);
    RawIs(fragment, raw);
    ParametersAreWellEncoded(lib.utf8, raw);
    IntentIs(lib, Parse(lib.utf8, raw), referrer, intent);
    forall x | IsRaw(fragment, x) ensures x == raw {
      RawIs(fragment, x);
    }
  }

  lemma RawIs(fragment: string, raw: string)
    ensures IsRaw(fragment, raw) <==> raw == WithoutHash(fragment)
  {
    if fragment == "#" + raw {
      assert fragment[1..] == raw;
    }
    if fragment != "" && fragment[0] == '#' {
      assert fragment == "#" + fragment[1..];
    }
  }

  /** Another version is reported exactly where a well-shaped cart is an object with one. */
  lemma OtherVersionsAreReported(lib: Library, fragment: string, referrer: string)
    ensures ParseFragment(lib, fragment, referrer) == Failure(UnsupportedVersion) <==>
              exists raw, json, body ::
                && IsRaw(fragment, raw) && raw != "" && |lib.utf8.encode(raw)| <= 8_192
                && AreWellEncoded(lib.utf8, raw) && IsShaped(Parse(lib.utf8, raw))
                && OnlyAs(Parse(lib.utf8, raw), "cart", json)
                && SpellsObject(lib, json, body) && "v" in body && body["v"] != Number(1.0)
  {
    var raw := WithoutHash(fragment);
    var params := Parse(lib.utf8, raw);
    RawIs(fragment, raw);
    ParametersAreWellEncoded(lib.utf8, raw);
    ShapeIs(params);
    ValuesNamed(params, "buy");
    ValuesNamed(params, "cart");
    forall x | IsRaw(fragment, x) ensures x == raw {
      RawIs(fragment, x);
    }
    forall json ensures OnlyAs(params, "cart", json) <==> Values(params, "cart") == [json] {
      OneValue(params, "cart", json);
    }
    if IsShaped(params) && !Named(params, "buy") {
      var json := Values(params, "cart")[0];
      assert Values(params, "cart") == [json];
      VersionIs(lib, json);
    } else if IsShaped(params) {
      BuyIs(lib, Values(params, "buy")[0], First(params, "qty"), Item("", "", 0));
    }
  }
}
