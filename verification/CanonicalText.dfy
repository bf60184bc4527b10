/** JSON.stringify as it reads in section 25.5.2 of ECMA-262, without indentation, and the
    canonical text whose hash goes into the audit chain. */
module CanonicalText {
  import opened JsText
  import opened Json

  /** QuoteJSONString without the quotes: a surrogate pair goes out raw. */
  function Escaped(s: Text): Text {
    if s == [] then []
    else if StartsWithPair(s) then s[..2] + Escaped(s[2..])
    else EmitUnit(s[0], []) + Escaped(s[1..])
  }

  function Quoted(s: Text): Text { [QUOTE] + Escaped(s) + [QUOTE] }

  function Stringify(v: Json): Text
    decreases v, 0
  {
    match v
    case Null => Lit("null")
    case Bool(b) => if b then Lit("true") else Lit("false")
    case Num(t) => t
    case Str(s) => Quoted(s)
    case Arr(items) => [LBRACKET] + Elements(items) + [RBRACKET]
    case Obj(fields) => [LBRACE] + Members(fields) + [RBRACE]
  }

  /** The elements, a comma between each two. */
  function Elements(items: Items): Text {
    match items
    case NoItems => []
    case Item(head, NoItems) => Stringify(head)
    case Item(head, tail) => Stringify(head) + [COMMA] + Elements(tail)
  }

  function Member(key: Text, value: Json): Text
    decreases value, 1
  {
    Quoted(key) + [COLON] + Stringify(value)
  }

  function Members(f: Fields): Text {
    match f
    case NoFields => []
    case Field(key, value, NoFields) => Member(key, value)
    case Field(key, value, rest) => Member(key, value) + [COMMA] + Members(rest)
  }

  /** canonicalJSONStringify. */
  function CanonicalJSONStringify(v: Json): Text { Stringify(Canonicalize(v)) }

  // ------------------------------------- the printer with what follows passed in

  lemma {:induction false} EmitStringQuotes(s: Text, k: Text)
    ensures EmitString(s, k) == Escaped(s) + ([QUOTE] + k)
  {
    hide ShortEscape, IsSurrogate, StartsWithPair;
    if s == [] {
      assert Escaped(s) + ([QUOTE] + k) == [QUOTE] + k;
    } else if StartsWithPair(s) {
      PairLength(s);
      EmitStringQuotes(s[2..], k);
      assert s[..2] == [s[0]] + [s[1]];
      ThreeParts([s[0]], [s[1]], Escaped(s[2..]), [QUOTE] + k);
    } else {
      EmitStringQuotes(s[1..], k);
      EmitUnitAppends(s[0], Escaped(s[1..]) + ([QUOTE] + k));
      TwoParts(EmitUnit(s[0], []), Escaped(s[1..]), [QUOTE] + k);
    }
  }

  lemma PairLength(s: Text)
    ensures StartsWithPair(s) ==> |s| >= 2
  {
  }

  lemma TwoParts(a: Text, b: Text, k: Text)
    ensures a + (b + k) == a + b + k
  {
  }

  lemma ThreeParts(a: Text, b: Text, c: Text, k: Text)
    ensures a + (b + (c + k)) == a + b + c + k
  {
  }

  lemma EmitUnitAppends(c: Unit, k: Text)
    ensures EmitUnit(c, k) == EmitUnit(c, []) + k
  {
    hide ShortEscape, IsSurrogate, HexDigit;
  }

  lemma {:induction false} EmitPrints(v: Json, k: Text)
    ensures Emit(v, k) == Stringify(v) + k
    decreases v, 0
  {
    match v
    case Str(s) =>
      EmitStringQuotes(s, k);
      ThreeParts([QUOTE], Escaped(s), [QUOTE], k);
    case Arr(items) =>
      ArrayPrints(items, k);
      ThreeParts([LBRACKET], Elements(items), [RBRACKET], k);
    case Obj(f) =>
      ObjectPrints(f, k);
      ThreeParts([LBRACE], Members(f), [RBRACE], k);
    case _ =>
  }

  lemma {:induction false} ArrayPrints(items: Items, k: Text)
    ensures ArrayBody(items, k) == Elements(items) + ([RBRACKET] + k)
    decreases items, 0
  {
    hide Emit, Stringify;
    match items
    case NoItems => assert Elements(items) + ([RBRACKET] + k) == [RBRACKET] + k;
    case Item(head, tail) =>
      EmitPrints(head, EmitItems(tail, k));
      if tail.Item? {
        ArrayPrints(tail, k);
        assert EmitItems(tail, k) == [COMMA] + ArrayBody(tail, k);
        ThreeParts(Stringify(head), [COMMA], Elements(tail), [RBRACKET] + k);
      }
  }

  lemma {:induction false} FieldPrints(key: Text, value: Json, k: Text)
    ensures EmitField(key, value, k) == Member(key, value) + k
    decreases value, 1
  {
    hide Emit, Stringify, Escaped;
    EmitPrints(value, k);
    EmitStringQuotes(key, [COLON] + Emit(value, k));
    var rest := [COLON] + Emit(value, k);
    ThreeParts([QUOTE], Escaped(key), [QUOTE], rest);
    ThreeParts(Quoted(key), [COLON], Stringify(value), k);
    assert Quoted(key) + rest == Quoted(key) + ([COLON] + (Stringify(value) + k));
  }

  lemma {:induction false} ObjectPrints(f: Fields, k: Text)
    ensures ObjectBody(f, k) == Members(f) + ([RBRACE] + k)
    decreases f, 0
  {
    hide EmitField, Member;
    match f
    case NoFields => assert Members(f) + ([RBRACE] + k) == [RBRACE] + k;
    case Field(key, value, rest) =>
      FieldPrints(key, value, EmitFields(rest, k));
      if rest.Field? {
        ObjectPrints(rest, k);
        assert EmitFields(rest, k) == [COMMA] + ObjectBody(rest, k);
        ThreeParts(Member(key, value), [COMMA], Members(rest), [RBRACE] + k);
      }
  }

  /** The serialiser is injective. */
  lemma StringifyInjective(v: Json, w: Json)
    requires Valid(v) && Valid(w) && Stringify(v) == Stringify(w)
    ensures v == w
  {
    hide Emit, Stringify, Valid;
    EmitPrints(v, []);
    EmitPrints(w, []);
    EmitInjective(v, w, [], []);
  }

  /** The canonical text identifies a JSON value exactly up to key order. */
  lemma StringifyEqualIffSame(v: Json, w: Json)
    requires Valid(v) && Valid(w)
    ensures CanonicalJSONStringify(v) == CanonicalJSONStringify(w) <==> SameUpToKeyOrder(v, w)
  {
    SameIffCanonicalEqual(v, w);
    CanonicalValid(v);
    CanonicalValid(w);
    hide Stringify, Valid, SameUpToKeyOrder;
    if CanonicalJSONStringify(v) == CanonicalJSONStringify(w) {
      StringifyInjective(Canonicalize(v), Canonicalize(w));
    }
  }

  // ------------------------------------------------------------------ the characters

  /** The code units with an escape of two units, and the ones that go out as they are. */
  lemma UnitsEscaped(c: Unit)
    ensures c == 0x08 || c == 0x09 || c == 0x0A || c == 0x0C || c == 0x0D || c == 0x22 || c == 0x5C ==>
      EmitUnit(c, []) == [0x5C, if c == 0x08 then 0x62 else if c == 0x09 then 0x74 else if c == 0x0A then 0x6E
                                else if c == 0x0C then 0x66 else if c == 0x0D then 0x72 else c]
    ensures 0x20 <= c < 0xD800 && c != 0x22 && c != 0x5C ==> EmitUnit(c, []) == [c]
    ensures 0xDFFF < c ==> EmitUnit(c, []) == [c]
  {
    assert [c] + [] == [c];
    hide HexDigit;
  }

  /** All others go out as `\u` and four lower-case digits, whose value is the unit. */
  lemma UnitsInHex(c: Unit)
    requires c < 0x20 || 0xD800 <= c <= 0xDFFF
    requires ShortEscape(c).None?
    ensures |EmitUnit(c, [])| == 6 && EmitUnit(c, [])[..2] == [0x5C, 0x75]
    ensures HexValue(EmitUnit(c, [])[2..], 4) == Some(c)
  {
    var n: int := c;
    var a, b, d, e := n / 16 / 16 / 16, n / 16 / 16 % 16, n / 16 % 16, n % 16;
    var t := [HexDigit(a), HexDigit(b), HexDigit(d), HexDigit(e)];
    assert EmitUnit(c, []) == [0x5C, 0x75] + t;
    hide EmitUnit, HexDigit, ShortEscape;
    assert EmitUnit(c, [])[2..] == t;
    FourDigits(a, b, d, e);
    assert 16 * (16 * (16 * a + b) + d) + e == n;
  }

  lemma FourDigits(a: int, b: int, d: int, e: int)
    requires 0 <= a < 16 && 0 <= b < 16 && 0 <= d < 16 && 0 <= e < 16
    ensures HexValue([HexDigit(a), HexDigit(b), HexDigit(d), HexDigit(e)], 4) == Some(16 * (16 * (16 * a + b) + d) + e)
  {
    var w, x, y, z := HexDigit(a), HexDigit(b), HexDigit(d), HexDigit(e);
    assert [] + [w] == [w] && [w] + [x] == [w, x] && [w, x] + [y] == [w, x, y] && [w, x, y] + [z] == [w, x, y, z];
    HexNext([], 0, 0, a);
    hide HexValue, HexDigit;
    HexNext([w], 1, a, b);
    HexNext([w, x], 2, 16 * a + b, d);
    HexNext([w, x, y], 3, 16 * (16 * a + b) + d, e);
  }

  lemma HexNext(t: Text, n: nat, value: int, d: int)
    requires |t| == n && HexValue(t, n) == Some(value) && 0 <= d < 16
    ensures HexValue(t + [HexDigit(d)], n + 1) == Some(16 * value + d)
  {
    HexBack(d);
    hide HexDigit;
    assert (t + [HexDigit(d)])[..n] == t;
  }

  /** The value of n lower-case hexadecimal digits. */
  function HexValue(t: Text, n: nat): Option<int>
    requires |t| == n
  {
    if n == 0 then Some(0)
    else
      var high, d := HexValue(t[..n - 1], n - 1), t[n - 1];
      if high.None? then None
      else if 0x30 <= d <= 0x39 then Some(16 * high.value + (d - 0x30))
      else if 0x61 <= d <= 0x66 then Some(16 * high.value + (d - 0x61) + 10)
      else None
  }

  lemma HexBack(n: int)
    requires 0 <= n < 16
    ensures n < 10 ==> 0x30 <= HexDigit(n) <= 0x39 && HexDigit(n) - 0x30 == n
    ensures n >= 10 ==> 0x61 <= HexDigit(n) <= 0x66 && HexDigit(n) - 0x61 + 10 == n
  {
  }

  lemma LiteralsPrinted()
    ensures Stringify(Null) == [0x6E, 0x75, 0x6C, 0x6C] && Stringify(Bool(true)) == [0x74, 0x72, 0x75, 0x65]
    ensures Stringify(Bool(false)) == [0x66, 0x61, 0x6C, 0x73, 0x65]
  {
    hide Quoted, Elements, Members;
  }

  lemma PairPrinted(v: Json, w: Json)
    ensures Stringify(Arr(Item(v, Item(w, NoItems)))) == [0x5B] + (Stringify(v) + [0x2C] + Stringify(w)) + [0x5D]
  {
    var last := Item(w, NoItems);
    ArrayIs(Item(v, last));
    hide Stringify;
    assert Elements(last) == Stringify(w);
    assert Elements(Item(v, last)) == Stringify(v) + [COMMA] + Elements(last);
  }

  lemma ArrayIs(items: Items)
    ensures Stringify(Arr(items)) == [LBRACKET] + Elements(items) + [RBRACKET]
  {
    hide Elements;
  }

  lemma ObjectIs(f: Fields)
    ensures Stringify(Obj(f)) == [LBRACE] + Members(f) + [RBRACE]
  {
    hide Members;
  }

  /** How an object of two reads, with names of one letter. */
  lemma FieldsPrinted(v: Json, w: Json, c: Unit, d: Unit)
    requires 0x60 < c < 0x7B && 0x60 < d < 0x7B
    ensures Stringify(Obj(Field([c], v, Field([d], w, NoFields))))
         == [0x7B] + (([0x22, c, 0x22] + [0x3A] + Stringify(v)) + [0x2C] + ([0x22, d, 0x22] + [0x3A] + Stringify(w))) + [0x7D]
  {
    var last := Field([d], w, NoFields);
    ObjectIs(Field([c], v, last));
    LetterQuoted(c);
    LetterQuoted(d);
    hide Stringify, Quoted;
    assert Members(last) == Member([d], w);
    assert Members(Field([c], v, last)) == Member([c], v) + [COMMA] + Members(last);
  }

  lemma LetterQuoted(c: Unit)
    requires 0x60 < c < 0x7B
    ensures Quoted([c]) == [0x22, c, 0x22]
  {
    var t := [c];
    UnitsEscaped(c);
    hide EmitUnit;
    assert t[1..] == [] && Escaped(t[1..]) == [];
    assert Escaped(t) == EmitUnit(t[0], []) + Escaped(t[1..]);
  }
}
