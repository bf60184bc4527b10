/** JSON values, the canonicalisation of object keys and the serialiser whose
    text is hashed into the audit chain. */
module Json {
  import opened JsText

  datatype Json =
    | Null
    | Bool(b: bool)
    | Num(numeral: Text)  // the text that Number::toString gives the number
    | Str(s: Text)
    | Arr(items: Items)
    | Obj(fields: Fields)

  datatype Items = NoItems | Item(head: Json, tail: Items)

  /** Own properties in enumeration order. */
  datatype Fields = NoFields | Field(key: Text, value: Json, rest: Fields)

  predicate IsNumeralUnit(u: Unit) {
    IsDigit(u) || u == 0x2D || u == 0x2B || u == 0x2E || u == 0x65
  }

  predicate IsNumeral(t: Text) {
    t != [] && (IsDigit(t[0]) || t[0] == 0x2D) && forall i :: 0 <= i < |t| ==> IsNumeralUnit(t[i])
  }

  function Keys(f: Fields): set<Text> {
    match f
    case NoFields => {}
    case Field(k, _, rest) => {k} + Keys(rest)
  }

  function FieldMap(f: Fields): (m: map<Text, Json>)
    ensures m.Keys == Keys(f)
  {
    match f
    case NoFields => map[]
    case Field(k, v, rest) => FieldMap(rest)[k := v]
  }

  /** Numbers carry numerals and no object repeats a key. */
  predicate Valid(v: Json) {
    match v
    case Num(t) => IsNumeral(t)
    case Arr(items) => ValidItems(items)
    case Obj(fields) => ValidFields(fields)
    case _ => true
  }

  predicate ValidItems(items: Items) {
    items.Item? ==> Valid(items.head) && ValidItems(items.tail)
  }

  predicate ValidFields(f: Fields) {
    f.Field? ==> f.key !in Keys(f.rest) && Valid(f.value) && ValidFields(f.rest)
  }

  // ---------------------------------------------------------------- key order

  /** A decimal numeral without leading zeros. */
  predicate IsDecimal(k: Text) {
    && k != []
    && (forall i :: 0 <= i < |k| ==> IsDigit(k[i]))
    && (|k| > 1 ==> k[0] != 0x30)
  }

  function DecimalValue(k: Text): nat
    requires forall i :: 0 <= i < |k| ==> IsDigit(k[i])
  {
    if k == [] then 0
    else
      assert IsDigit(k[|k| - 1]);
      var last: int := k[|k| - 1];
      10 * DecimalValue(k[..|k| - 1]) + (last - 0x30)
  }

  /** An array index of section 6.1.7 of ECMA-262. */
  predicate IsArrayIndex(k: Text) {
    IsDecimal(k) && DecimalValue(k) < 0xFFFF_FFFF
  }

  /** The enumeration order of an object whose keys were inserted sorted by code
      unit: array indices first, by number, then the other keys as inserted
      (section 10.1.11 of ECMA-262). */
  predicate KeyLess(a: Text, b: Text) {
    if IsArrayIndex(a) && IsArrayIndex(b) then DecimalValue(a) < DecimalValue(b)
    else if IsArrayIndex(a) || IsArrayIndex(b) then IsArrayIndex(a)
    else TextLess(a, b)
  }

  lemma {:induction false} DecimalPositive(k: Text)
    requires IsDecimal(k) && k[0] != 0x30
    ensures DecimalValue(k) >= 1
  {
    if |k| > 1 {
      DecimalPositive(k[..|k| - 1]);
    }
  }

  lemma {:induction false} DecimalInjective(a: Text, b: Text)
    requires IsDecimal(a) && IsDecimal(b) && DecimalValue(a) == DecimalValue(b)
    ensures a == b
  {
    var a', b' := a[..|a| - 1], b[..|b| - 1];
    assert a == a' + [a[|a| - 1]] && b == b' + [b[|b| - 1]];
    if |a| > 1 { DecimalPositive(a'); }
    if |b| > 1 { DecimalPositive(b'); }
    if |a| > 1 && |b| > 1 {
      DecimalInjective(a', b');
    }
  }

  lemma KeyLessTotal(a: Text, b: Text)
    ensures a == b || KeyLess(a, b) || KeyLess(b, a)
    ensures !(KeyLess(a, b) && KeyLess(b, a))
    ensures !KeyLess(a, a)
  {
    TextLessTotal(a, b);
    if IsArrayIndex(a) && IsArrayIndex(b) && DecimalValue(a) == DecimalValue(b) {
      DecimalInjective(a, b);
    }
  }

  lemma KeyLessTransitive(a: Text, b: Text, c: Text)
    requires KeyLess(a, b) && KeyLess(b, c)
    ensures KeyLess(a, c)
  {
    if TextLess(a, b) && TextLess(b, c) {
      TextLessTransitive(a, b, c);
    }
  }

  // ---------------------------------------------------------- canonical form

  function Insert(k: Text, v: Json, f: Fields): Fields {
    match f
    case NoFields => Field(k, v, NoFields)
    case Field(k', v', rest) =>
      if KeyLess(k, k') then Field(k, v, f) else Field(k', v', Insert(k, v, rest))
  }

  function Canonicalize(v: Json): Json {
    match v
    case Arr(items) => Arr(CanonicalItems(items))
    case Obj(fields) => Obj(CanonicalFields(fields))
    case _ => v
  }

  function CanonicalItems(items: Items): Items {
    match items
    case NoItems => NoItems
    case Item(head, tail) => Item(Canonicalize(head), CanonicalItems(tail))
  }

  function CanonicalFields(f: Fields): Fields {
    match f
    case NoFields => NoFields
    case Field(k, v, rest) => Insert(k, Canonicalize(v), CanonicalFields(rest))
  }

  predicate Sorted(f: Fields) {
    f.Field? ==> (f.rest.Field? ==> KeyLess(f.key, f.rest.key)) && Sorted(f.rest)
  }

  lemma {:induction false} InsertMap(k: Text, v: Json, f: Fields)
    requires k !in Keys(f)
    ensures FieldMap(Insert(k, v, f)) == FieldMap(f)[k := v]
  {
    hide KeyLess;
    if f.Field? && !KeyLess(k, f.key) {
      InsertMap(k, v, f.rest);
      assert FieldMap(f)[k := v] == FieldMap(f.rest)[k := v][f.key := f.value];
    }
  }

  lemma {:induction false} InsertKeeps(k: Text, v: Json, f: Fields)
    requires k !in Keys(f) && Sorted(f)
    ensures Keys(Insert(k, v, f)) == Keys(f) + {k}
    ensures Sorted(Insert(k, v, f))
    ensures ValidFields(f) && Valid(v) ==> ValidFields(Insert(k, v, f))
  {
    if f.Field? {
      hide KeyLess, Valid;
      KeyLessTotal(k, f.key);
      if !KeyLess(k, f.key) {
        InsertKeeps(k, v, f.rest);
      }
    }
  }

  /** Canonicalising an object sorts its keys and canonicalises each value in place. */
  lemma {:induction false} CanonicalFieldsMap(f: Fields)
    requires ValidFields(f)
    ensures Sorted(CanonicalFields(f)) && ValidFields(CanonicalFields(f))
    ensures Keys(CanonicalFields(f)) == Keys(f)
    ensures forall k :: k in Keys(f) ==> FieldMap(CanonicalFields(f))[k] == Canonicalize(FieldMap(f)[k])
  {
    match f
    case NoFields =>
    case Field(k, v, rest) =>
      CanonicalFieldsMap(rest);
      CanonicalValid(v);
      InsertMap(k, Canonicalize(v), CanonicalFields(rest));
      InsertKeeps(k, Canonicalize(v), CanonicalFields(rest));
  }

  lemma {:induction false} CanonicalValid(v: Json)
    requires Valid(v)
    ensures Valid(Canonicalize(v))
  {
    match v
    case Arr(items) => CanonicalItemsValid(items);
    case Obj(fields) => CanonicalFieldsMap(fields);
    case _ =>
  }

  lemma {:induction false} CanonicalItemsValid(items: Items)
    requires ValidItems(items)
    ensures ValidItems(CanonicalItems(items))
  {
    if items.Item? {
      CanonicalValid(items.head);
      CanonicalItemsValid(items.tail);
    }
  }

  lemma {:induction false} SortedHeadLeast(f: Fields)
    requires f.Field? && Sorted(f)
    ensures forall k :: k in Keys(f.rest) ==> KeyLess(f.key, k)
  {
    if f.rest.Field? {
      SortedHeadLeast(f.rest);
      forall k | k in Keys(f.rest.rest) ensures KeyLess(f.key, k) {
        KeyLessTransitive(f.key, f.rest.key, k);
      }
    }
  }

  /** A sorted property list is determined by the map it denotes. */
  lemma {:induction false} SortedUnique(f: Fields, g: Fields)
    requires Sorted(f) && Sorted(g) && ValidFields(f) && ValidFields(g)
    requires FieldMap(f) == FieldMap(g)
    ensures f == g
  {
    assert Keys(f) == FieldMap(f).Keys == FieldMap(g).Keys == Keys(g);
    assert g.Field? ==> g.key in Keys(g);
    if f.Field? {
      assert f.key in Keys(g);
      SortedHeadLeast(f);
      SortedHeadLeast(g);
      KeyLessTotal(f.key, g.key);
      assert g.key in Keys(f);
      assert f.key == g.key;
      assert FieldMap(f)[f.key] == f.value && FieldMap(g)[g.key] == g.value;
      assert FieldMap(f.rest) == FieldMap(f) - {f.key};
      assert FieldMap(g.rest) == FieldMap(g) - {g.key};
      SortedUnique(f.rest, g.rest);
    }
  }

  // ------------------------------------------------- equality up to key order

  /** `v` and `w` differ at most in the order in which objects list their keys. */
  predicate SameUpToKeyOrder(v: Json, w: Json) {
    match (v, w)
    case (Arr(items), Arr(items')) => SameItems(items, items')
    case (Obj(f), Obj(g)) => Keys(f) == Keys(g) && FieldsWithin(f, FieldMap(g))
    case _ => v == w
  }

  predicate SameItems(items: Items, items': Items) {
    match (items, items')
    case (NoItems, NoItems) => true
    case (Item(head, tail), Item(head', tail')) => SameUpToKeyOrder(head, head') && SameItems(tail, tail')
    case _ => false
  }

  predicate FieldsWithin(f: Fields, m: map<Text, Json>) {
    f.Field? ==> f.key in m && SameUpToKeyOrder(f.value, m[f.key]) && FieldsWithin(f.rest, m)
  }

  lemma {:induction false} SameIffCanonicalEqual(v: Json, w: Json)
    requires Valid(v) && Valid(w)
    ensures SameUpToKeyOrder(v, w) <==> Canonicalize(v) == Canonicalize(w)
  {
    hide FieldsWithin, SameItems, CanonicalItems, CanonicalFields;
    match (v, w)
    case (Arr(items), Arr(items')) => SameItemsIffCanonicalEqual(items, items');
    case (Obj(f), Obj(g)) => FieldsIffCanonicalEqual(f, g);
    case _ =>
  }

  lemma {:induction false} FieldsIffCanonicalEqual(f: Fields, g: Fields)
    requires ValidFields(f) && ValidFields(g)
    ensures Keys(f) == Keys(g) && FieldsWithin(f, FieldMap(g)) <==> CanonicalFields(f) == CanonicalFields(g)
    decreases f, 1
  {
    hide FieldsWithin, CanonicalFields, ValidFields, Sorted, Canonicalize;
    CanonicalFieldsMap(f);
    CanonicalFieldsMap(g);
    WithinIffCanonicalEqual(f, g);
    if Keys(f) == Keys(g) && FieldsWithin(f, FieldMap(g)) {
      assert forall k :: k in Keys(f) ==> AgreeAt(f, g, k);
      assert FieldMap(CanonicalFields(f)) == FieldMap(CanonicalFields(g));
      SortedUnique(CanonicalFields(f), CanonicalFields(g));
    }
  }

  lemma {:induction false} SameItemsIffCanonicalEqual(items: Items, items': Items)
    requires ValidItems(items) && ValidItems(items')
    ensures SameItems(items, items') <==> CanonicalItems(items) == CanonicalItems(items')
  {
    if items.Item? && items'.Item? {
      SameIffCanonicalEqual(items.head, items'.head);
      SameItemsIffCanonicalEqual(items.tail, items'.tail);
    }
  }

  lemma {:induction false} FieldsWithinValid(g: Fields, k: Text)
    requires ValidFields(g) && k in Keys(g)
    ensures Valid(FieldMap(g)[k])
  {
    if g.key != k { FieldsWithinValid(g.rest, k); }
  }

  predicate AgreeAt(f: Fields, g: Fields, k: Text)
    requires k in Keys(f)
  {
    k in Keys(g) && Canonicalize(FieldMap(f)[k]) == Canonicalize(FieldMap(g)[k])
  }

  lemma {:induction false} WithinIffCanonicalEqual(f: Fields, g: Fields)
    requires ValidFields(f) && ValidFields(g)
    ensures FieldsWithin(f, FieldMap(g)) <==> forall k :: k in Keys(f) ==> AgreeAt(f, g, k)
    decreases f, 0
  {
    if f.Field? {
      hide Canonicalize, SameUpToKeyOrder;
      WithinIffCanonicalEqual(f.rest, g);
      assert forall k :: k in Keys(f.rest) ==> (AgreeAt(f, g, k) <==> AgreeAt(f.rest, g, k));
      if f.key in Keys(g) {
        FieldsWithinValid(g, f.key);
        SameIffCanonicalEqual(f.value, FieldMap(g)[f.key]);
      }
      assert AgreeAt(f, g, f.key) <==> f.key in Keys(g) && SameUpToKeyOrder(f.value, FieldMap(g)[f.key]);
    }
  }

  predicate SameKeyList(f: Fields, g: Fields) {
    if f.Field? && g.Field? then f.key == g.key && SameKeyList(f.rest, g.rest) else f == g
  }

  /** Values pairwise the same, for objects that list the same keys in the same order. */
  predicate SameFieldList(f: Fields, g: Fields) {
    f.Field? && g.Field? ==> SameUpToKeyOrder(f.value, g.value) && SameFieldList(f.rest, g.rest)
  }

  lemma {:induction false} WithinIgnoresOtherKeys(f: Fields, m: map<Text, Json>, k: Text, v: Json)
    requires k !in Keys(f)
    ensures FieldsWithin(f, m[k := v]) <==> FieldsWithin(f, m)
  {
    if f.Field? { WithinIgnoresOtherKeys(f.rest, m, k, v); }
  }

  lemma {:induction false} WithinIffSameFieldList(f: Fields, g: Fields)
    requires ValidFields(f) && SameKeyList(f, g)
    ensures FieldsWithin(f, FieldMap(g)) <==> SameFieldList(f, g)
  {
    if f.Field? {
      WithinIffSameFieldList(f.rest, g.rest);
      WithinIgnoresOtherKeys(f.rest, FieldMap(g.rest), g.key, g.value);
    }
  }

  // ------------------------------------------------------------------ printing

  const QUOTE: Unit := 0x22
  const BACKSLASH: Unit := 0x5C
  const COMMA: Unit := 0x2C
  const COLON: Unit := 0x3A
  const LBRACKET: Unit := 0x5B
  const RBRACKET: Unit := 0x5D
  const LBRACE: Unit := 0x7B
  const RBRACE: Unit := 0x7D

  predicate IsHighSurrogate(u: Unit) { 0xD800 <= u <= 0xDBFF }
  predicate IsLowSurrogate(u: Unit) { 0xDC00 <= u <= 0xDFFF }
  predicate IsSurrogate(u: Unit) { 0xD800 <= u <= 0xDFFF }

  predicate StartsWithPair(s: Text) {
    |s| >= 2 && IsHighSurrogate(s[0]) && IsLowSurrogate(s[1])
  }

  function HexDigit(n: int): Unit
    requires 0 <= n < 16
  {
    if n < 10 then 0x30 + n else 0x57 + n
  }

  /** The letter of a two-unit escape, where QuoteJSONString has one. */
  function ShortEscape(c: Unit): Option<Unit> {
    if c == 0x08 then Some(0x62) else if c == 0x09 then Some(0x74)
    else if c == 0x0A then Some(0x6E) else if c == 0x0C then Some(0x66)
    else if c == 0x0D then Some(0x72) else if c == QUOTE then Some(QUOTE)
    else if c == BACKSLASH then Some(BACKSLASH) else None
  }

  /** One code unit of a string literal, followed by `k`. */
  function EmitUnit(c: Unit, k: Text): Text {
    if ShortEscape(c).Some? then [BACKSLASH, ShortEscape(c).value] + k
    else if c < 0x20 || IsSurrogate(c) then
      [BACKSLASH, 0x75, HexDigit(c / 16 / 16 / 16), HexDigit(c / 16 / 16 % 16), HexDigit(c / 16 % 16), HexDigit(c % 16)] + k
    else [c] + k
  }

  /** The rest of a string literal (section 25.5.2.3 of ECMA-262), closing quote
      included, followed by `k`: surrogate pairs go out raw, lone ones escaped. */
  function EmitString(s: Text, k: Text): Text {
    if s == [] then [QUOTE] + k
    else if StartsWithPair(s) then [s[0]] + ([s[1]] + EmitString(s[2..], k))
    else EmitUnit(s[0], EmitString(s[1..], k))
  }

  /** JSON.stringify(v) followed by `k`. */
  function Emit(v: Json, k: Text): Text
    decreases v, 0
  {
    match v
    case Null => Lit("null") + k
    case Bool(b) => (if b then Lit("true") else Lit("false")) + k
    case Num(t) => t + k
    case Str(s) => [QUOTE] + EmitString(s, k)
    case Arr(items) => [LBRACKET] + ArrayBody(items, k)
    case Obj(f) => [LBRACE] + ObjectBody(f, k)
  }

  function ArrayBody(items: Items, k: Text): Text {
    match items
    case NoItems => [RBRACKET] + k
    case Item(head, tail) => Emit(head, EmitItems(tail, k))
  }

  function ObjectBody(f: Fields, k: Text): Text {
    match f
    case NoFields => [RBRACE] + k
    case Field(key, value, rest) => EmitField(key, value, EmitFields(rest, k))
  }

  function EmitItems(items: Items, k: Text): Text {
    match items
    case NoItems => [RBRACKET] + k
    case Item(head, tail) => [COMMA] + Emit(head, EmitItems(tail, k))
  }

  function EmitField(key: Text, value: Json, k: Text): Text
    decreases value, 1
  {
    [QUOTE] + EmitString(key, [COLON] + Emit(value, k))
  }

  function EmitFields(f: Fields, k: Text): Text {
    match f
    case NoFields => [RBRACE] + k
    case Field(key, value, rest) => [COMMA] + EmitField(key, value, EmitFields(rest, k))
  }

  /** What may follow a value inside a document. */
  predicate Delimited(k: Text) {
    k == [] || k[0] == COMMA || k[0] == RBRACKET || k[0] == RBRACE
  }

  lemma TailsEqual(c: Unit, d: Unit, x: Text, y: Text)
    requires [c] + x == [d] + y
    ensures c == d && x == y
  {
    assert ([c] + x)[0] == c && ([d] + y)[0] == d;
    assert ([c] + x)[1..] == x && ([d] + y)[1..] == y;
  }

  lemma HexInjective(c: Unit, d: Unit)
    requires HexDigit(c / 16 / 16 / 16) == HexDigit(d / 16 / 16 / 16)
    requires HexDigit(c / 16 / 16 % 16) == HexDigit(d / 16 / 16 % 16)
    requires HexDigit(c / 16 % 16) == HexDigit(d / 16 % 16) && HexDigit(c % 16) == HexDigit(d % 16)
    ensures c == d
  {
  }

  lemma EmitUnitInjective(c: Unit, d: Unit, x: Text, y: Text)
    requires EmitUnit(c, x) == EmitUnit(d, y)
    ensures c == d && x == y
  {
    var e, f := EmitUnit(c, x), EmitUnit(d, y);
    assert e[0] == f[0];
    if e[0] == BACKSLASH {
      assert e[1] == f[1];
      if ShortEscape(c).Some? {
        assert e[2..] == x && f[2..] == y;
      } else {
        assert e[2] == f[2] && e[3] == f[3] && e[4] == f[4] && e[5] == f[5];
        assert e[6..] == x && f[6..] == y;
        HexInjective(c, d);
      }
    } else {
      TailsEqual(c, d, x, y);
    }
  }

  lemma {:induction false} EmitStringInjective(s: Text, t: Text, x: Text, y: Text)
    requires EmitString(s, x) == EmitString(t, y)
    ensures s == t && x == y
    decreases |s|
  {
    var e, f := EmitString(s, x), EmitString(t, y);
    assert e[0] == f[0];
    if s == [] {
      assert t == [];
      TailsEqual(QUOTE, QUOTE, x, y);
    } else if StartsWithPair(s) {
      assert StartsWithPair(t);
      var x', y' := EmitString(s[2..], x), EmitString(t[2..], y);
      TailsEqual(s[0], t[0], [s[1]] + x', [t[1]] + y');
      TailsEqual(s[1], t[1], x', y');
      EmitStringInjective(s[2..], t[2..], x, y);
      assert s == [s[0], s[1]] + s[2..] && t == [t[0], t[1]] + t[2..];
    } else {
      assert t != [] && !StartsWithPair(t);
      EmitUnitInjective(s[0], t[0], EmitString(s[1..], x), EmitString(t[1..], y));
      EmitStringInjective(s[1..], t[1..], x, y);
      assert s == [s[0]] + s[1..] && t == [t[0]] + t[1..];
    }
  }

  lemma NumeralPrefixUnique(a: Text, b: Text, x: Text, y: Text)
    requires IsNumeral(a) && IsNumeral(b) && Delimited(x) && Delimited(y) && a + x == b + y
    ensures a == b && x == y
  {
    var e := a + x;
    assert forall i :: 0 <= i < |a| ==> e[i] == a[i];
    assert forall i :: 0 <= i < |b| ==> e[i] == b[i];
    assert x != [] ==> e[|a|] == x[0];
    assert y != [] ==> e[|b|] == y[0];
    assert |a| == |b|;
    assert a == e[..|a|] && b == e[..|b|];
    assert x == e[|a|..] && y == e[|b|..];
  }

  lemma LiteralPrefix(a: Text, x: Text, y: Text)
    requires a + x == a + y
    ensures x == y
  {
    assert (a + x)[|a|..] == x && (a + y)[|a|..] == y;
  }

  /** The first unit of a value's text tells its constructor. */
  predicate Opens(v: Json, u: Unit) {
    match v
    case Null => u == 0x6E
    case Bool(b) => u == if b then 0x74 else 0x66
    case Num(_) => IsDigit(u) || u == 0x2D
    case Str(_) => u == QUOTE
    case Arr(_) => u == LBRACKET
    case Obj(_) => u == LBRACE
  }

  lemma EmitOpens(v: Json, k: Text)
    requires Valid(v)
    ensures Emit(v, k) != [] && Opens(v, Emit(v, k)[0])
  {
  }

  /** No value's text followed by a delimiter is another value's text followed by one. */
  lemma {:induction false} EmitInjective(v: Json, w: Json, x: Text, y: Text)
    requires Valid(v) && Valid(w) && Delimited(x) && Delimited(y)
    requires Emit(v, x) == Emit(w, y)
    ensures v == w && x == y
    decreases v, 1
  {
    EmitOpens(v, x);
    EmitOpens(w, y);
    match v
    case Null => LiteralPrefix(Lit("null"), x, y);
    case Bool(b) => LiteralPrefix(if b then Lit("true") else Lit("false"), x, y);
    case Num(t) => NumeralPrefixUnique(t, w.numeral, x, y);
    case Str(s) =>
      TailsEqual(QUOTE, QUOTE, EmitString(s, x), EmitString(w.s, y));
      EmitStringInjective(s, w.s, x, y);
    case Arr(items) => ArrayBodyInjective(items, w.items, x, y);
    case Obj(f) => ObjectBodyInjective(f, w.fields, x, y);
  }

  lemma {:induction false} ArrayBodyInjective(items: Items, items': Items, x: Text, y: Text)
    requires ValidItems(items) && ValidItems(items') && Delimited(x) && Delimited(y)
    requires [LBRACKET] + ArrayBody(items, x) == [LBRACKET] + ArrayBody(items', y)
    ensures items == items' && x == y
    decreases items
  {
    var e, f := ArrayBody(items, x), ArrayBody(items', y);
    TailsEqual(LBRACKET, LBRACKET, e, f);
    if items.Item? { EmitOpens(items.head, EmitItems(items.tail, x)); }
    if items'.Item? { EmitOpens(items'.head, EmitItems(items'.tail, y)); }
    assert e[0] == f[0];
    if items.NoItems? {
      TailsEqual(RBRACKET, RBRACKET, x, y);
    } else {
      EmitInjective(items.head, items'.head, EmitItems(items.tail, x), EmitItems(items'.tail, y));
      EmitItemsInjective(items.tail, items'.tail, x, y);
    }
  }

  lemma {:induction false} EmitItemsInjective(items: Items, items': Items, x: Text, y: Text)
    requires ValidItems(items) && ValidItems(items') && Delimited(x) && Delimited(y)
    requires EmitItems(items, x) == EmitItems(items', y)
    ensures items == items' && x == y
    decreases items
  {
    assert EmitItems(items, x)[0] == EmitItems(items', y)[0];
    if items.NoItems? {
      TailsEqual(RBRACKET, RBRACKET, x, y);
    } else {
      TailsEqual(COMMA, COMMA, Emit(items.head, EmitItems(items.tail, x)), Emit(items'.head, EmitItems(items'.tail, y)));
      EmitInjective(items.head, items'.head, EmitItems(items.tail, x), EmitItems(items'.tail, y));
      EmitItemsInjective(items.tail, items'.tail, x, y);
    }
  }

  lemma {:induction false} EmitFieldInjective(k: Text, v: Json, k': Text, v': Json, x: Text, y: Text)
    requires Valid(v) && Valid(v') && Delimited(x) && Delimited(y)
    requires EmitField(k, v, x) == EmitField(k', v', y)
    ensures k == k' && v == v' && x == y
    decreases v, 2
  {
    var e, f := [COLON] + Emit(v, x), [COLON] + Emit(v', y);
    TailsEqual(QUOTE, QUOTE, EmitString(k, e), EmitString(k', f));
    EmitStringInjective(k, k', e, f);
    TailsEqual(COLON, COLON, Emit(v, x), Emit(v', y));
    EmitInjective(v, v', x, y);
  }

  lemma {:induction false} ObjectBodyInjective(f: Fields, g: Fields, x: Text, y: Text)
    requires ValidFields(f) && ValidFields(g) && Delimited(x) && Delimited(y)
    requires [LBRACE] + ObjectBody(f, x) == [LBRACE] + ObjectBody(g, y)
    ensures f == g && x == y
    decreases f
  {
    var d, e := ObjectBody(f, x), ObjectBody(g, y);
    TailsEqual(LBRACE, LBRACE, d, e);
    assert d[0] == e[0];
    if f.NoFields? {
      TailsEqual(RBRACE, RBRACE, x, y);
    } else {
      EmitFieldInjective(f.key, f.value, g.key, g.value, EmitFields(f.rest, x), EmitFields(g.rest, y));
      EmitFieldsInjective(f.rest, g.rest, x, y);
    }
  }

  lemma {:induction false} EmitFieldsInjective(f: Fields, g: Fields, x: Text, y: Text)
    requires ValidFields(f) && ValidFields(g) && Delimited(x) && Delimited(y)
    requires EmitFields(f, x) == EmitFields(g, y)
    ensures f == g && x == y
    decreases f
  {
    assert EmitFields(f, x)[0] == EmitFields(g, y)[0];
    if f.NoFields? {
      TailsEqual(RBRACE, RBRACE, x, y);
    } else {
      var d, e := EmitField(f.key, f.value, EmitFields(f.rest, x)), EmitField(g.key, g.value, EmitFields(g.rest, y));
      TailsEqual(COMMA, COMMA, d, e);
      EmitFieldInjective(f.key, f.value, g.key, g.value, EmitFields(f.rest, x), EmitFields(g.rest, y));
      EmitFieldsInjective(f.rest, g.rest, x, y);
    }
  }
}
