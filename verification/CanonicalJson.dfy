/**
 The canonical byte form of wire JSON: object keys sorted by code point, compact separators, ASCII escapes, no
 non-finite floats, negative zero collapsed. The bytes of the tool manifest are hashed to identify it.
 */
module CanonicalJson {
  import opened Basics

  /** A code point as Python strings hold it, lone surrogates included. */
  type Point = c: int | 0 <= c < 0x110000

  type Text = seq<Point>

  /** Numbers are their shortest round-trip text, so two numbers are one value exactly when their texts are equal. */
  datatype Json = Null | Bool(truth: bool) | Number(text: Bytes) | NonFinite | Str(s: Text)
                | Array(items: Items) | Object(members: Members)

  datatype Items = NoItems | Item(head: Json, tail: Items)

  datatype Members = NoMembers | Member(key: Text, value: Json, rest: Members)

  function Keys(m: Members): set<Text> {
    match m
    case NoMembers => {}
    case Member(key, _, rest) => {key} + Keys(rest)
  }

  function Lookup(m: Members, key: Text): Json
    requires key in Keys(m)
  {
    if m.key == key then m.value else Lookup(m.rest, key)
  }

  // ---- the order of keys ----

  predicate Before(a: Text, b: Text) {
    b != [] && (a == [] || a[0] < b[0] || (a[0] == b[0] && Before(a[1..], b[1..])))
  }

  lemma {:induction false} BeforeTotal(a: Text, b: Text)
    ensures a == b || Before(a, b) || Before(b, a)
    ensures !(Before(a, b) && Before(b, a)) && !Before(a, a)
  {
    if a != [] {
      if b != [] {
        BeforeTotal(a[1..], b[1..]);
        assert a == [a[0]] + a[1..] && b == [b[0]] + b[1..];
      }
      BeforeTotal(a[1..], a[1..]);
    }
  }

  lemma {:induction false} BeforeTransitive(a: Text, b: Text, c: Text)
    requires Before(a, b) && Before(b, c)
    ensures Before(a, c)
  {
    if a != [] && a[0] == b[0] && b[0] == c[0] {
      BeforeTransitive(a[1..], b[1..], c[1..]);
    }
  }

  function Insert(key: Text, value: Json, m: Members): Members {
    match m
    case NoMembers => Member(key, value, NoMembers)
    case Member(k, v, rest) => if Before(k, key) then Member(k, v, Insert(key, value, rest)) else Member(key, value, m)
  }

  function Sort(m: Members): Members {
    match m
    case NoMembers => m
    case Member(key, value, rest) => Insert(key, value, Sort(rest))
  }

  // ---- the encoder ----

  const NEGATIVE_ZERO: Bytes := [45, 48, 46, 48]
  const POSITIVE_ZERO: Bytes := [48, 46, 48]

  function CollapseZero(text: Bytes): Bytes { if text == NEGATIVE_ZERO then POSITIVE_ZERO else text }

  /** `_normalize_negative_zero`. */
  function Normalize(a: Json): Json {
    match a
    case Number(text) => Number(CollapseZero(text))
    case Array(items) => Array(NormalizeItems(items))
    case Object(members) => Object(NormalizeMembers(members))
    case _ => a
  }

  function NormalizeItems(items: Items): Items {
    match items
    case NoItems => NoItems
    case Item(head, tail) => Item(Normalize(head), NormalizeItems(tail))
  }

  function NormalizeMembers(m: Members): Members {
    match m
    case NoMembers => NoMembers
    case Member(key, value, rest) => Member(key, Normalize(value), NormalizeMembers(rest))
  }

  /** `sort_keys=True`, at every level. */
  function SortKeys(a: Json): Json {
    match a
    case Array(items) => Array(SortItems(items))
    case Object(members) => Object(Sort(SortMembers(members)))
    case _ => a
  }

  function SortItems(items: Items): Items {
    match items
    case NoItems => NoItems
    case Item(head, tail) => Item(SortKeys(head), SortItems(tail))
  }

  function SortMembers(m: Members): Members {
    match m
    case NoMembers => NoMembers
    case Member(key, value, rest) => Member(key, SortKeys(value), SortMembers(rest))
  }

  const NULL: Bytes := [110, 117, 108, 108]
  const TRUE: Bytes := [116, 114, 117, 101]
  const FALSE: Bytes := [102, 97, 108, 115, 101]
  const QUOTE: byte := 34
  const BACKSLASH: byte := 92
  const COMMA: byte := 44
  const OPEN_ARRAY: byte := 91
  const CLOSE_ARRAY: byte := 93
  const OPEN_OBJECT: byte := 123
  const CLOSE_OBJECT: byte := 125

  /** The fixed texts of JSON. */
  lemma Punctuation()
    ensures NULL == Ascii("null") && TRUE == Ascii("true") && FALSE == Ascii("false")
    ensures [QUOTE] == Ascii("\"") && [BACKSLASH] == Ascii("\\") && [COMMA] == Ascii(",") && [COLON] == Ascii(":")
    ensures [OPEN_ARRAY] == Ascii("[") && [CLOSE_ARRAY] == Ascii("]")
    ensures [OPEN_OBJECT] == Ascii("{") && [CLOSE_OBJECT] == Ascii("}")
    ensures NEGATIVE_ZERO == Ascii("-0.0") && POSITIVE_ZERO == Ascii("0.0")
  {}

  function HexDigit(d: int): byte
    requires 0 <= d < 16
  {
    if d < 10 then (48 + d) as byte else (87 + d) as byte
  }

  function UnicodeEscape(u: int): Bytes
    requires 0 <= u < 0x10000
  {
    [BACKSLASH, 117, HexDigit(u / 16 / 16 / 16), HexDigit(u / 16 / 16 % 16), HexDigit(u / 16 % 16), HexDigit(u % 16)]
  }

  /** The letter of a two-character escape, if `c` has one. */
  function ShortEscape(c: int): Option<byte> {
    if c == 34 then Some(34) else if c == 92 then Some(92) else if c == 10 then Some(110)
    else if c == 13 then Some(114) else if c == 9 then Some(116) else if c == 12 then Some(102)
    else if c == 8 then Some(98) else None
  }

  function Escape(c: Point): Bytes {
    if ShortEscape(c).Some? then [BACKSLASH, ShortEscape(c).value]
    else if 0x20 <= c <= 0x7E then [c as byte]
    else if c < 0x10000 then UnicodeEscape(c)
    else UnicodeEscape(0xD800 + (c - 0x10000) / 0x400) + UnicodeEscape(0xDC00 + (c - 0x10000) % 0x400)
  }

  /** The rest of a string literal, its closing quote, and then `after`. */
  function Characters(s: Text, after: Bytes): Bytes {
    if s == [] then [QUOTE] + after else Escape(s[0]) + Characters(s[1..], after)
  }

  /** The text of `a` followed by `after`. */
  function Print(a: Json, after: Bytes): Bytes {
    match a
    case Null => NULL + after
    case Bool(truth) => (if truth then TRUE else FALSE) + after
    case Number(text) => text + after
    case NonFinite => after
    case Str(s) => [QUOTE] + Characters(s, after)
    case Array(items) => [OPEN_ARRAY] + PrintItems(items, true, after)
    case Object(members) => [OPEN_OBJECT] + PrintMembers(members, true, after)
  }

  function PrintItems(items: Items, first: bool, after: Bytes): Bytes {
    match items
    case NoItems => [CLOSE_ARRAY] + after
    case Item(head, tail) => (if first then [] else [COMMA]) + Print(head, PrintItems(tail, false, after))
  }

  function PrintMembers(m: Members, first: bool, after: Bytes): Bytes {
    match m
    case NoMembers => [CLOSE_OBJECT] + after
    case Member(key, value, rest) =>
      (if first then [] else [COMMA])
      + ([QUOTE] + Characters(key, [COLON] + Print(value, PrintMembers(rest, false, after))))
  }

  predicate Finite(a: Json) {
    match a
    case NonFinite => false
    case Array(items) => FiniteItems(items)
    case Object(members) => FiniteMembers(members)
    case _ => true
  }

  predicate FiniteItems(items: Items) {
    items.Item? ==> Finite(items.head) && FiniteItems(items.tail)
  }

  predicate FiniteMembers(m: Members) {
    m.Member? ==> Finite(m.value) && FiniteMembers(m.rest)
  }

  /** `canonical_json_bytes`; nothing for the `ValueError` on a NaN or an infinity. */
  function CanonicalBytes(a: Json): Option<Bytes> {
    if Finite(a) then Some(Print(SortKeys(Normalize(a)), [])) else None
  }

  // ---- validated wire JSON ----

  predicate Scalar(c: Point) { !(0xD800 <= c <= 0xDFFF) }

  predicate ScalarText(s: Text) { forall i :: 0 <= i < |s| ==> Scalar(s[i]) }

  predicate NumberByte(b: byte) { 48 <= b <= 57 || b == 43 || b == 45 || b == 46 || b == 101 }

  predicate NumberText(text: Bytes) { text != [] && forall i :: 0 <= i < |text| ==> NumberByte(text[i]) }

  /** Strings of Unicode scalar values, number texts, and no key twice in one object. */
  predicate Wire(a: Json) {
    match a
    case Number(text) => NumberText(text)
    case Str(s) => ScalarText(s)
    case Array(items) => WireItems(items)
    case Object(members) => WireMembers(members)
    case _ => true
  }

  predicate WireItems(items: Items) {
    items.Item? ==> Wire(items.head) && WireItems(items.tail)
  }

  predicate WireMembers(m: Members) {
    m.Member? ==> ScalarText(m.key) && m.key !in Keys(m.rest) && Wire(m.value) && WireMembers(m.rest)
  }

  predicate ZeroText(text: Bytes) { text == POSITIVE_ZERO || text == NEGATIVE_ZERO }

  /** Equality of values: negative zero is zero, and the order of an object's keys means nothing. */
  predicate Same(a: Json, b: Json) {
    match a
    case Number(text) => b.Number? && (text == b.text || (ZeroText(text) && ZeroText(b.text)))
    case Array(items) => b.Array? && SameItems(items, b.items)
    case Object(members) => b.Object? && Keys(members) == Keys(b.members) && SameMembers(members, b.members)
    case _ => a == b
  }

  predicate SameItems(a: Items, b: Items) {
    match a
    case NoItems => b.NoItems?
    case Item(head, tail) => b.Item? && Same(head, b.head) && SameItems(tail, b.tail)
  }

  /** Every key of `a` has the same value in `b`. */
  predicate SameMembers(a: Members, b: Members) {
    a.Member? ==> a.key in Keys(b) && Same(a.value, Lookup(b, a.key)) && SameMembers(a.rest, b)
  }

  // ---- string literals identify the UTF-16 form of the string ----

  /** The UTF-16 code units of a string; a lone surrogate stands for itself. */
  function Units(s: Text): seq<int> {
    if s == [] then []
    else
      (if s[0] < 0x10000 then [s[0]]
       else [0xD800 + (s[0] - 0x10000) / 0x400, 0xDC00 + (s[0] - 0x10000) % 0x400]) + Units(s[1..])
  }

  predicate UnitRange(us: seq<int>) { forall i :: 0 <= i < |us| ==> 0 <= us[i] < 0x10000 }

  function UnitCharacters(us: seq<int>, after: Bytes): Bytes
    requires UnitRange(us)
  {
    if us == [] then [QUOTE] + after else Escape(us[0]) + UnitCharacters(us[1..], after)
  }

  lemma PairCharacters(high: int, low: int, us: seq<int>, after: Bytes)
    requires 0xD800 <= high < 0xE000 && 0xD800 <= low < 0xE000 && UnitRange(us)
    ensures UnitRange([high, low] + us)
    ensures UnitCharacters([high, low] + us, after)
         == UnicodeEscape(high) + UnicodeEscape(low) + UnitCharacters(us, after)
  {
    assert Escape(high) == UnicodeEscape(high) && Escape(low) == UnicodeEscape(low);
    hide Escape, UnicodeEscape;
    assert ([high, low] + us)[1..] == [low] + us && ([low] + us)[1..] == us;
    assert UnitCharacters([low] + us, after) == Escape(low) + UnitCharacters(us, after);
  }

  lemma EscapeOfPair(c: Point)
    requires c >= 0x10000
    ensures var high, low := 0xD800 + (c - 0x10000) / 0x400, 0xDC00 + (c - 0x10000) % 0x400;
            && 0xD800 <= high < 0xDC00 <= low < 0xE000
            && Escape(c) == UnicodeEscape(high) + UnicodeEscape(low)
  {}

  lemma {:induction false} CharactersAreUnits(s: Text, after: Bytes)
    ensures UnitRange(Units(s)) && Characters(s, after) == UnitCharacters(Units(s), after)
  {
    hide Escape, UnicodeEscape;
    if s != [] {
      CharactersAreUnits(s[1..], after);
      var us := Units(s[1..]);
      if s[0] < 0x10000 {
        assert ([s[0]] + us)[1..] == us;
      } else {
        EscapeOfPair(s[0]);
        PairCharacters(0xD800 + (s[0] - 0x10000) / 0x400, 0xDC00 + (s[0] - 0x10000) % 0x400, us, after);
      }
    }
  }

  // ---- reading string literals back, as section 7 of RFC 8259 defines them ----

  datatype Read<+T> = Read(value: T, rest: Bytes)

  function HexValue(b: byte): (d: Option<int>)
    ensures d.Some? ==> 0 <= d.value < 16
  {
    if 48 <= b <= 57 then Some(b as int - 48)
    else if 97 <= b <= 102 then Some(b as int - 87)
    else if 65 <= b <= 70 then Some(b as int - 55)
    else None
  }

  function HexNumber(b: Bytes): Option<int>
    requires |b| == 4
  {
    var w, x, y, z := HexValue(b[0]), HexValue(b[1]), HexValue(b[2]), HexValue(b[3]);
    if w.Some? && x.Some? && y.Some? && z.Some?
    then Some(((w.value * 16 + x.value) * 16 + y.value) * 16 + z.value) else None
  }

  function EscapedUnit(b: byte): Option<int> {
    if b == 34 || b == 92 || b == 47 then Some(b as int)
    else if b == 98 then Some(8) else if b == 102 then Some(12) else if b == 110 then Some(10)
    else if b == 114 then Some(13) else if b == 116 then Some(9) else None
  }

  /** The code unit that an ASCII string literal continues with. */
  function ReadUnit(b: Bytes): (r: Option<Read<int>>)
    ensures r.Some? ==> |r.value.rest| < |b|
  {
    if b == [] || b[0] == QUOTE || b[0] < 0x20 || b[0] >= 0x80 then None
    else if b[0] != BACKSLASH then Some(Read(b[0] as int, b[1..]))
    else if |b| >= 2 && b[1] != 117 then
      (match EscapedUnit(b[1]) case None => None case Some(u) => Some(Read(u, b[2..])))
    else if |b| >= 6 then
      (match HexNumber(b[2..6]) case None => None case Some(u) => Some(Read(u, b[6..])))
    else None
  }

  function ReadUnits(b: Bytes): (r: Option<Read<seq<int>>>)
    ensures r.Some? ==> |r.value.rest| < |b|
    decreases |b|
  {
    if b == [] then None
    else if b[0] == QUOTE then Some(Read([], b[1..]))
    else
      match ReadUnit(b)
      case None => None
      case Some(head) =>
        match ReadUnits(head.rest)
        case None => None
        case Some(tail) => Some(Read([head.value] + tail.value, tail.rest))
  }

  /** The string that UTF-16 code units spell. */
  function FromUnits(us: seq<int>): seq<int> {
    if us == [] then []
    else if |us| >= 2 && 0xD800 <= us[0] < 0xDC00 && 0xDC00 <= us[1] < 0xE000
    then [0x10000 + (us[0] - 0xD800) * 0x400 + (us[1] - 0xDC00)] + FromUnits(us[2..])
    else [us[0]] + FromUnits(us[1..])
  }

  lemma ReadHex(u: int)
    requires 0 <= u < 0x10000
    ensures HexNumber(UnicodeEscape(u)[2..]) == Some(u)
  {
    HexDigitValue(u / 16 / 16 / 16);
    HexDigitValue(u / 16 / 16 % 16);
    HexDigitValue(u / 16 % 16);
    HexDigitValue(u % 16);
    hide HexDigit, HexValue;
    assert u == ((u / 16 / 16 / 16 * 16 + u / 16 / 16 % 16) * 16 + u / 16 % 16) * 16 + u % 16;
  }

  lemma HexDigitValue(d: int)
    requires 0 <= d < 16
    ensures HexValue(HexDigit(d)) == Some(d)
  {}

  lemma ReadEscape(u: int, x: Bytes)
    requires 0 <= u < 0x10000
    ensures ReadUnit(Escape(u) + x) == Some(Read(u, x))
    ensures (Escape(u) + x)[0] != QUOTE
  {
    var e := Escape(u);
    var b := e + x;
    if ShortEscape(u).Some? {
      assert b[0] == BACKSLASH && b[1] == ShortEscape(u).value && b[2..] == x;
    } else if 0x20 <= u <= 0x7E {
      assert b[0] == u as byte && b[1..] == x;
    } else {
      ReadHex(u);
      assert b[0] == BACKSLASH && b[1] == 117 && b[2..6] == e[2..] && b[6..] == x;
      hide UnicodeEscape, HexNumber;
    }
  }

  lemma {:induction false} ReadUnitCharacters(us: seq<int>, x: Bytes)
    requires UnitRange(us)
    ensures ReadUnits(UnitCharacters(us, x)) == Some(Read(us, x))
  {
    if us == [] {
      assert ([QUOTE] + x)[1..] == x;
    } else {
      ReadEscape(us[0], UnitCharacters(us[1..], x));
      ReadUnitCharacters(us[1..], x);
      hide Escape, ReadUnit;
      assert us == [us[0]] + us[1..];
    }
  }

  lemma {:induction false} SpelledByUnits(s: Text)
    requires ScalarText(s)
    ensures FromUnits(Units(s)) == s
  {
    if s != [] {
      var us := Units(s);
      SpelledByUnits(s[1..]);
      if s[0] < 0x10000 {
        assert us[0] == s[0] && us[1..] == Units(s[1..]);
        assert !(0xD800 <= us[0] < 0xDC00);
      } else {
        assert us[0] == 0xD800 + (s[0] - 0x10000) / 0x400 && us[1] == 0xDC00 + (s[0] - 0x10000) % 0x400;
        assert us[2..] == Units(s[1..]);
      }
      assert s == [s[0]] + s[1..];
    }
  }

  /** Two strings print alike exactly when they have one UTF-16 form. */
  lemma LiteralExactly(s: Text, t: Text)
    ensures Print(Str(s), []) == Print(Str(t), []) <==> Units(s) == Units(t)
  {
    CharactersAreUnits(s, []);
    CharactersAreUnits(t, []);
    if Print(Str(s), []) == Print(Str(t), []) {
      assert ([QUOTE] + Characters(s, []))[1..] == Characters(s, []);
      assert ([QUOTE] + Characters(t, []))[1..] == Characters(t, []);
      ReadUnitCharacters(Units(s), []);
      ReadUnitCharacters(Units(t), []);
    }
  }

  /** Outside scalar strings the bytes do not identify the value: a surrogate pair prints as the character it spells. */
  lemma SurrogatesCollide()
    ensures CanonicalBytes(Str([0xD83D, 0xDE00])) == CanonicalBytes(Str([0x1F600]))
    ensures !Same(Str([0xD83D, 0xDE00]), Str([0x1F600]))
  {
    var pair: Text := [0xD83D, 0xDE00];
    var one: Text := [0x1F600];
    assert pair[1..] == [0xDE00] && Units([0xDE00]) == [0xDE00] && Units(pair) == [0xD83D, 0xDE00];
    assert one[1..] == [] && Units(one) == [0xD83D, 0xDE00];
    LiteralExactly(pair, one);
  }

  // ---- reading whole values back ----

  /** The digits, signs, points and exponent letters that `b` starts with. */
  function NumberLength(b: Bytes): (n: nat)
    ensures n <= |b|
  {
    if b == [] || !NumberByte(b[0]) then 0 else 1 + NumberLength(b[1..])
  }

  function Constant(word: Bytes, a: Json, b: Bytes): (r: Option<Read<Json>>)
    requires word != []
    ensures r.Some? ==> |r.value.rest| < |b|
  {
    if word <= b then Some(Read(a, b[|word|..])) else None
  }

  function ReadText(b: Bytes): (r: Option<Read<seq<int>>>)
    ensures r.Some? ==> |r.value.rest| < |b|
  {
    if b == [] || b[0] != QUOTE then None
    else match ReadUnits(b[1..]) case None => None case Some(units) => Some(Read(FromUnits(units.value), units.rest))
  }

  predicate Points(s: seq<int>) { forall i :: 0 <= i < |s| ==> 0 <= s[i] < 0x110000 }

  /** A reader of compact JSON text; objects come back in text order. */
  function ReadValue(b: Bytes): (r: Option<Read<Json>>)
    ensures r.Some? ==> |r.value.rest| < |b|
    decreases |b|, 0
  {
    if b == [] then None
    else if b[0] == 110 then Constant(NULL, Null, b)
    else if b[0] == 116 then Constant(TRUE, Bool(true), b)
    else if b[0] == 102 then Constant(FALSE, Bool(false), b)
    else if NumberByte(b[0]) then Some(Read(Number(b[..NumberLength(b)]), b[NumberLength(b)..]))
    else if b[0] == QUOTE then
      (match ReadText(b)
       case None => None
       case Some(s) => if Points(s.value) then Some(Read(Str(s.value), s.rest)) else None)
    else if b[0] == OPEN_ARRAY then
      (match ReadItems(b[1..], true) case None => None case Some(items) => Some(Read(Array(items.value), items.rest)))
    else if b[0] == OPEN_OBJECT then
      (match ReadMembers(b[1..], true) case None => None case Some(m) => Some(Read(Object(m.value), m.rest)))
    else None
  }

  /** After an opening bracket (`first`), or after an element. */
  function ReadItems(b: Bytes, first: bool): (r: Option<Read<Items>>)
    ensures r.Some? ==> |r.value.rest| < |b|
    decreases |b|, 1
  {
    if b == [] then None
    else if b[0] == CLOSE_ARRAY then Some(Read(NoItems, b[1..]))
    else if !first && b[0] != COMMA then None
    else
      match ReadValue(if first then b else b[1..])
      case None => None
      case Some(head) =>
        match ReadItems(head.rest, false)
        case None => None
        case Some(tail) => Some(Read(Item(head.value, tail.value), tail.rest))
  }

  function ReadMembers(b: Bytes, first: bool): (r: Option<Read<Members>>)
    ensures r.Some? ==> |r.value.rest| < |b|
    decreases |b|, 1
  {
    if b == [] then None
    else if b[0] == CLOSE_OBJECT then Some(Read(NoMembers, b[1..]))
    else if !first && b[0] != COMMA then None
    else
      match ReadText(if first then b else b[1..])
      case None => None
      case Some(key) =>
        if !Points(key.value) || key.rest == [] || key.rest[0] != COLON then None
        else
          match ReadValue(key.rest[1..])
          case None => None
          case Some(value) =>
            match ReadMembers(value.rest, false)
            case None => None
            case Some(rest) => Some(Read(Member(key.value, value.value, rest.value), rest.rest))
  }

  /** What may follow a number without running into it. */
  predicate Delimited(after: Bytes) { after == [] || !NumberByte(after[0]) }

  lemma {:induction false} NumberEnds(s: Bytes, x: Bytes)
    requires (forall i :: 0 <= i < |s| ==> NumberByte(s[i])) && Delimited(x)
    ensures NumberLength(s + x) == |s|
  {
    if s == [] {
      assert s + x == x;
    } else {
      assert (s + x)[1..] == s[1..] + x;
      NumberEnds(s[1..], x);
    }
  }

  lemma ReadLiteral(s: Text, x: Bytes)
    requires ScalarText(s)
    ensures ReadText([QUOTE] + Characters(s, x)) == Some(Read(s, x))
  {
    assert ([QUOTE] + Characters(s, x))[1..] == Characters(s, x);
    CharactersAreUnits(s, x);
    ReadUnitCharacters(Units(s), x);
    SpelledByUnits(s);
  }

  lemma ItemsDelimited(items: Items, x: Bytes)
    ensures Delimited(PrintItems(items, false, x))
  {}

  lemma MembersDelimited(m: Members, x: Bytes)
    ensures Delimited(PrintMembers(m, false, x))
  {}

  lemma ReadConstant(word: Bytes, a: Json, x: Bytes)
    requires word != []
    ensures Constant(word, a, word + x) == Some(Read(a, x))
  {
    assert (word + x)[|word|..] == x;
  }

  /** What was printed is read back, whatever follows it. */
  lemma {:induction false} ReadPrinted(a: Json, x: Bytes)
    requires Wire(a) && Finite(a) && Delimited(x)
    ensures Print(a, x) != [] && ReadValue(Print(a, x)) == Some(Read(a, x))
    ensures Print(a, x)[0] != CLOSE_ARRAY
    decreases a
  {
    var b := Print(a, x);
    match a
    case Null => ReadConstant(NULL, a, x);
    case Bool(truth) => ReadConstant(if truth then TRUE else FALSE, a, x);
    case Number(text) =>
      NumberEnds(text, x);
      assert b[0] == text[0] && b[..|text|] == text && b[|text|..] == x;
    case Str(s) => ReadLiteral(s, x);
    case Array(items) =>
      assert b[1..] == PrintItems(items, true, x);
      ReadPrintedItems(items, true, x);
    case Object(members) =>
      assert b[1..] == PrintMembers(members, true, x);
      ReadPrintedMembers(members, true, x);
  }

  lemma {:induction false} ReadPrintedItems(items: Items, first: bool, x: Bytes)
    requires WireItems(items) && FiniteItems(items)
    ensures ReadItems(PrintItems(items, first, x), first) == Some(Read(items, x))
    decreases items
  {
    var b := PrintItems(items, first, x);
    if items.NoItems? {
      assert b[1..] == x;
    } else {
      var after := PrintItems(items.tail, false, x);
      ItemsDelimited(items.tail, x);
      ReadPrinted(items.head, after);
      ReadPrintedItems(items.tail, false, x);
      assert (if first then b else b[1..]) == Print(items.head, after);
      hide ReadValue, Print;
    }
  }

  lemma {:induction false} ReadPrintedMembers(m: Members, first: bool, x: Bytes)
    requires WireMembers(m) && FiniteMembers(m)
    ensures ReadMembers(PrintMembers(m, first, x), first) == Some(Read(m, x))
    decreases m
  {
    var b := PrintMembers(m, first, x);
    if m.NoMembers? {
      assert b[1..] == x;
    } else {
      var after := PrintMembers(m.rest, false, x);
      var value := [COLON] + Print(m.value, after);
      MembersDelimited(m.rest, x);
      ReadLiteral(m.key, value);
      ReadPrinted(m.value, after);
      ReadPrintedMembers(m.rest, false, x);
      assert (if first then b else b[1..]) == [QUOTE] + Characters(m.key, value);
      assert value[1..] == Print(m.value, after);
      assert Points(m.key);
      hide ReadValue, ReadText, Print, Characters;
    }
  }

  lemma PrintIdentifies(a: Json, b: Json)
    requires Wire(a) && Wire(b) && Finite(a) && Finite(b) && Print(a, []) == Print(b, [])
    ensures a == b
  {
    ReadPrinted(a, []);
    ReadPrinted(b, []);
  }

  // ---- sorting ----

  predicate Sorted(m: Members) {
    m.Member? ==> Sorted(m.rest) && (m.rest.Member? ==> Before(m.key, m.rest.key))
  }

  lemma {:induction false} SortedBefore(m: Members, key: Text)
    requires Sorted(m) && m.Member? && key in Keys(m.rest)
    ensures Before(m.key, key)
  {
    if m.rest.key != key {
      SortedBefore(m.rest, key);
      BeforeTransitive(m.key, m.rest.key, key);
    }
  }

  lemma {:induction false} InsertSorted(key: Text, value: Json, m: Members)
    requires Sorted(m) && key !in Keys(m)
    ensures var r := Insert(key, value, m);
            && Sorted(r) && Keys(r) == Keys(m) + {key}
            && Lookup(r, key) == value && forall k :: k in Keys(m) ==> Lookup(r, k) == Lookup(m, k)
  {
    if m.Member? {
      BeforeTotal(m.key, key);
      if Before(m.key, key) {
        InsertSorted(key, value, m.rest);
      }
    }
  }

  lemma {:induction false} SortSorted(m: Members)
    requires UniqueKeys(m)
    ensures Sorted(Sort(m)) && Keys(Sort(m)) == Keys(m)
    ensures forall k :: k in Keys(m) ==> Lookup(Sort(m), k) == Lookup(m, k)
  {
    if m.Member? {
      SortSorted(m.rest);
      InsertSorted(m.key, m.value, Sort(m.rest));
    }
  }

  predicate UniqueKeys(m: Members) {
    m.Member? ==> m.key !in Keys(m.rest) && UniqueKeys(m.rest)
  }

  /** A sorted object is determined by its look-ups. */
  lemma {:induction false} SortedUnique(a: Members, b: Members)
    requires Sorted(a) && Sorted(b) && Keys(a) == Keys(b)
    requires forall k :: k in Keys(a) ==> Lookup(a, k) == Lookup(b, k)
    ensures a == b
  {
    if a.Member? {
      assert a.key in Keys(b);
      assert b.Member? && b.key in Keys(a);
      LeastKeys(a, b);
      forall k | k in Keys(a.rest) ensures k in Keys(b.rest) && Lookup(a.rest, k) == Lookup(b.rest, k) {
        SortedBefore(a, k);
        BeforeTotal(a.key, k);
        assert k in Keys(b) && Lookup(a, k) == Lookup(b, k);
      }
      forall k | k in Keys(b.rest) ensures k in Keys(a.rest) {
        SortedBefore(b, k);
        BeforeTotal(b.key, k);
        assert k in Keys(a);
      }
      SortedUnique(a.rest, b.rest);
    } else {
      assert Keys(b) == {};
    }
  }

  lemma LeastKeys(a: Members, b: Members)
    requires Sorted(a) && Sorted(b) && a.Member? && b.Member? && Keys(a) == Keys(b)
    ensures a.key == b.key
  {
    assert a.key in Keys(b) && b.key in Keys(a);
    if a.key != b.key {
      SortedBefore(a, b.key);
      SortedBefore(b, a.key);
      BeforeTotal(a.key, b.key);
    }
  }

  // ---- the canonical form is the value ----

  function Normal(a: Json): Json { SortKeys(Normalize(a)) }

  function NormalItems(items: Items): Items { SortItems(NormalizeItems(items)) }

  function NormalMembers(m: Members): Members { SortMembers(NormalizeMembers(m)) }

  lemma {:induction false} WireUnique(m: Members)
    requires WireMembers(m)
    ensures UniqueKeys(m)
    ensures forall k :: k in Keys(m) ==> Wire(Lookup(m, k))
  {
    if m.Member? { WireUnique(m.rest); }
  }

  lemma {:induction false} NormalLookup(m: Members)
    requires UniqueKeys(m)
    ensures Keys(NormalMembers(m)) == Keys(m) && UniqueKeys(NormalMembers(m))
    ensures forall k :: k in Keys(m) ==> Lookup(NormalMembers(m), k) == Normal(Lookup(m, k))
  {
    if m.Member? { NormalLookup(m.rest); }
  }

  lemma {:induction false} InsertWire(key: Text, value: Json, m: Members)
    requires WireMembers(m) && ScalarText(key) && key !in Keys(m) && Wire(value)
    requires FiniteMembers(m) && Finite(value)
    ensures var r := Insert(key, value, m); WireMembers(r) && FiniteMembers(r) && Keys(r) == Keys(m) + {key}
  {
    if m.Member? && Before(m.key, key) { InsertWire(key, value, m.rest); }
  }

  lemma {:induction false} SortWire(m: Members)
    requires WireMembers(m) && FiniteMembers(m)
    ensures WireMembers(Sort(m)) && FiniteMembers(Sort(m)) && Keys(Sort(m)) == Keys(m)
  {
    if m.Member? {
      SortWire(m.rest);
      InsertWire(m.key, m.value, Sort(m.rest));
    }
  }

  lemma {:induction false} NormalWire(a: Json)
    requires Wire(a) && Finite(a)
    ensures Wire(Normal(a)) && Finite(Normal(a))
  {
    match a
    case Array(items) => NormalItemsWire(items);
    case Object(members) =>
      NormalMembersWire(members);
      SortWire(NormalMembers(members));
    case _ =>
  }

  lemma {:induction false} NormalItemsWire(items: Items)
    requires WireItems(items) && FiniteItems(items)
    ensures WireItems(NormalItems(items)) && FiniteItems(NormalItems(items))
  {
    if items.Item? {
      NormalWire(items.head);
      NormalItemsWire(items.tail);
    }
  }

  lemma {:induction false} NormalMembersWire(m: Members)
    requires WireMembers(m) && FiniteMembers(m)
    ensures WireMembers(NormalMembers(m)) && FiniteMembers(NormalMembers(m)) && Keys(NormalMembers(m)) == Keys(m)
  {
    if m.Member? {
      NormalWire(m.value);
      NormalMembersWire(m.rest);
    }
  }

  /** Sorted objects are equal exactly when their look-ups are. */
  lemma SortExactly(a: Members, b: Members)
    requires UniqueKeys(a) && UniqueKeys(b)
    ensures Sort(a) == Sort(b) <==> Keys(a) == Keys(b) && forall k :: k in Keys(a) ==> Lookup(a, k) == Lookup(b, k)
  {
    SortSorted(a);
    SortSorted(b);
    if Keys(a) == Keys(b) && forall k :: k in Keys(a) ==> Lookup(a, k) == Lookup(b, k) {
      SortedUnique(Sort(a), Sort(b));
    }
  }

  lemma {:induction false} NormalExactly(a: Json, b: Json)
    requires Wire(a) && Wire(b)
    ensures Same(a, b) <==> Normal(a) == Normal(b)
    decreases a
  {
    match a
    case Array(items) => if b.Array? { NormalItemsExactly(items, b.items); }
    case Object(members) =>
      if b.Object? {
        NormalMembersExactly(members, b.members);
        WireUnique(members);
        WireUnique(b.members);
        NormalLookup(members);
        NormalLookup(b.members);
        SortExactly(NormalMembers(members), NormalMembers(b.members));
        hide Sort, NormalMembers;
      }
    case _ =>
  }

  lemma {:induction false} NormalItemsExactly(a: Items, b: Items)
    requires WireItems(a) && WireItems(b)
    ensures SameItems(a, b) <==> NormalItems(a) == NormalItems(b)
    decreases a
  {
    if a.Item? && b.Item? {
      NormalExactly(a.head, b.head);
      NormalItemsExactly(a.tail, b.tail);
    }
  }

  /** Every key of `a` has an equal canonical value in `b`. */
  predicate NormalsAgree(a: Members, b: Members) {
    forall k :: k in Keys(a) ==> k in Keys(b) && Normal(Lookup(a, k)) == Normal(Lookup(b, k))
  }

  lemma AgreeFirst(a: Members, b: Members)
    requires a.Member? && a.key !in Keys(a.rest)
    ensures NormalsAgree(a, b) <==>
            a.key in Keys(b) && Normal(a.value) == Normal(Lookup(b, a.key)) && NormalsAgree(a.rest, b)
  {
    hide Normal;
    assert a.key in Keys(a) && Lookup(a, a.key) == a.value;
    assert forall k :: k in Keys(a.rest) ==> k in Keys(a) && Lookup(a, k) == Lookup(a.rest, k);
  }

  lemma {:induction false} NormalMembersExactly(a: Members, b: Members)
    requires WireMembers(a) && WireMembers(b)
    ensures SameMembers(a, b) <==> NormalsAgree(a, b)
    decreases a
  {
    if a.Member? {
      WireUnique(b);
      if a.key in Keys(b) { NormalExactly(a.value, Lookup(b, a.key)); }
      NormalMembersExactly(a.rest, b);
      AgreeFirst(a, b);
      hide Normal, NormalsAgree, Wire;
    }
  }

  lemma SortTwice(m: Members)
    requires UniqueKeys(m)
    ensures Sort(Sort(m)) == Sort(m)
  {
    SortSorted(m);
    SortedUniqueKeys(Sort(m));
    SortSorted(Sort(m));
    SortedUnique(Sort(Sort(m)), Sort(m));
  }

  lemma {:induction false} SortedUniqueKeys(m: Members)
    requires Sorted(m)
    ensures UniqueKeys(m)
  {
    if m.Member? {
      SortedUniqueKeys(m.rest);
      if m.key in Keys(m.rest) {
        SortedBefore(m, m.key);
        BeforeTotal(m.key, m.key);
      }
    }
  }

  lemma {:induction false} InsertNormal(key: Text, value: Json, m: Members)
    ensures NormalMembers(Insert(key, value, m)) == Insert(key, Normal(value), NormalMembers(m))
  {
    if m.Member? && Before(m.key, key) { InsertNormal(key, value, m.rest); }
  }

  lemma {:induction false} SortNormal(m: Members)
    ensures NormalMembers(Sort(m)) == Sort(NormalMembers(m))
  {
    if m.Member? {
      SortNormal(m.rest);
      InsertNormal(m.key, m.value, Sort(m.rest));
    }
  }

  lemma {:induction false} NormalTwice(a: Json)
    requires Wire(a)
    ensures Normal(Normal(a)) == Normal(a)
  {
    match a
    case Array(items) => NormalItemsTwice(items);
    case Object(members) =>
      NormalMembersTwice(members);
      SortNormal(NormalMembers(members));
      WireUnique(members);
      NormalLookup(members);
      SortTwice(NormalMembers(members));
    case _ =>
  }

  lemma {:induction false} NormalItemsTwice(items: Items)
    requires WireItems(items)
    ensures NormalItems(NormalItems(items)) == NormalItems(items)
  {
    if items.Item? {
      NormalTwice(items.head);
      NormalItemsTwice(items.tail);
    }
  }

  lemma {:induction false} NormalMembersTwice(m: Members)
    requires WireMembers(m)
    ensures NormalMembers(NormalMembers(m)) == NormalMembers(m)
  {
    if m.Member? {
      NormalTwice(m.value);
      NormalMembersTwice(m.rest);
    }
  }

  /** The canonical bytes are JSON text of the value: reading them gives it back, and nothing is left over. */
  lemma BytesReadBack(a: Json)
    requires Wire(a) && Finite(a)
    ensures var r := ReadValue(CanonicalBytes(a).value); r.Some? && r.value.rest == [] && Same(a, r.value.value)
  {
    NormalWire(a);
    ReadPrinted(Normal(a), []);
    NormalTwice(a);
    NormalExactly(a, Normal(a));
  }

  /** Canonical bytes identify the value, and only a NaN or an infinity has none. */
  lemma BytesIdentifyValue(a: Json, b: Json)
    requires Wire(a) && Wire(b)
    ensures CanonicalBytes(a).Some? <==> Finite(a)
    ensures Finite(a) && Finite(b) ==> (CanonicalBytes(a) == CanonicalBytes(b) <==> Same(a, b))
  {
    if Finite(a) && Finite(b) {
      NormalExactly(a, b);
      NormalWire(a);
      NormalWire(b);
      if CanonicalBytes(a) == CanonicalBytes(b) {
        PrintIdentifies(Normal(a), Normal(b));
      }
    }
  }

  // ---- the manifest ----

  function Values(m: Members): Items {
    match m
    case NoMembers => NoItems
    case Member(_, value, rest) => Item(value, Values(rest))
  }

  /** `_manifest_snapshot`: the tools sorted by name, as one array. `tools` lists them by name, in registration order. */
  function ManifestBytes(tools: Members): Option<Bytes> {
    CanonicalBytes(Array(Values(Sort(tools))))
  }

  function Field(a: Json, key: Text): Option<Json> {
    if a.Object? && key in Keys(a.members) then Some(Lookup(a.members, key)) else None
  }

  /** The name in a registered tool: the string at `tool.name`. */
  function NameOf(a: Json): Option<Text> {
    var tool := Field(a, [116, 111, 111, 108]);
    if tool.None? then None
    else
      var name := Field(tool.value, [110, 97, 109, 101]);
      if name.Some? && name.value.Str? then Some(name.value.s) else None
  }

  predicate Named(tools: Members) {
    tools.Member? ==> NameOf(tools.value) == Some(tools.key) && Named(tools.rest)
  }

  lemma NormalField(a: Json, key: Text)
    requires Wire(a)
    ensures Field(a, key).None? ==> Field(Normal(a), key).None?
    ensures Field(a, key).Some? ==> Field(Normal(a), key) == Some(Normal(Field(a, key).value)) && Wire(Field(a, key).value)
  {
    if a.Object? {
      WireUnique(a.members);
      NormalLookup(a.members);
      SortSorted(NormalMembers(a.members));
    }
  }

  lemma NormalName(a: Json)
    requires Wire(a)
    ensures NameOf(Normal(a)) == NameOf(a)
  {
    var tool: Text, name: Text := [116, 111, 111, 108], [110, 97, 109, 101];
    NormalField(a, tool);
    if Field(a, tool).Some? {
      NormalField(Field(a, tool).value, name);
    }
    hide Field, Wire;
  }

  lemma {:induction false} NormalNamed(tools: Members)
    requires WireMembers(tools) && Named(tools)
    ensures Named(NormalMembers(tools))
  {
    if tools.Member? {
      NormalName(tools.value);
      NormalNamed(tools.rest);
    }
  }

  lemma {:induction false} SortNamed(tools: Members)
    requires Named(tools)
    ensures Named(Sort(tools))
  {
    if tools.Member? {
      SortNamed(tools.rest);
      InsertNamed(tools.key, tools.value, Sort(tools.rest));
    }
  }

  lemma {:induction false} InsertNamed(key: Text, value: Json, m: Members)
    requires Named(m) && NameOf(value) == Some(key)
    ensures Named(Insert(key, value, m))
  {
    if m.Member? && Before(m.key, key) { InsertNamed(key, value, m.rest); }
  }

  lemma {:induction false} NamedByValues(a: Members, b: Members)
    requires Named(a) && Named(b) && Values(a) == Values(b)
    ensures a == b
  {
    if a.Member? { NamedByValues(a.rest, b.rest); }
  }

  lemma {:induction false} ValuesNormal(m: Members)
    ensures NormalItems(Values(m)) == Values(NormalMembers(m))
  {
    if m.Member? { ValuesNormal(m.rest); }
  }

  lemma {:induction false} ValuesWire(m: Members)
    ensures WireMembers(m) ==> WireItems(Values(m))
    ensures FiniteMembers(m) <==> FiniteItems(Values(m))
  {
    if m.Member? { ValuesWire(m.rest); }
  }

  /** With unique names the manifest bytes identify the name-to-tool mapping: registration order means nothing, and any
      change of a tool shows. */
  lemma ManifestIdentified(p: Members, q: Members)
    requires WireMembers(p) && WireMembers(q) && FiniteMembers(p) && FiniteMembers(q) && Named(p) && Named(q)
    ensures ManifestBytes(p).Some? && (ManifestBytes(p) == ManifestBytes(q) <==> Same(Object(p), Object(q)))
  {
    ManifestNormal(p);
    ManifestNormal(q);
    NormalExactly(Object(p), Object(q));
    var a, b := Array(Values(Sort(p))), Array(Values(Sort(q)));
    BytesIdentifyValue(a, b);
    NormalExactly(a, b);
    if Normal(a) == Normal(b) {
      NamedByValues(Sort(NormalMembers(p)), Sort(NormalMembers(q)));
    }
  }

  lemma ManifestNormal(m: Members)
    requires WireMembers(m) && FiniteMembers(m) && Named(m)
    ensures var a := Array(Values(Sort(m)));
            Wire(a) && Finite(a) && Normal(a) == Array(Values(Sort(NormalMembers(m))))
    ensures Named(Sort(NormalMembers(m))) && Normal(Object(m)) == Object(Sort(NormalMembers(m)))
  {
    SortWire(m);
    ValuesWire(Sort(m));
    ValuesNormal(Sort(m));
    SortNormal(m);
    NormalNamed(m);
    SortNamed(NormalMembers(m));
  }

  // ---- which values have bytes ----

  /** Everything in a value that is neither an array nor an object. */
  function Leaves(a: Json): set<Json> {
    match a
    case Array(items) => ItemLeaves(items)
    case Object(members) => MemberLeaves(members)
    case _ => {a}
  }

  function ItemLeaves(items: Items): set<Json> {
    match items
    case NoItems => {}
    case Item(head, tail) => Leaves(head) + ItemLeaves(tail)
  }

  function MemberLeaves(m: Members): set<Json> {
    match m
    case NoMembers => {}
    case Member(_, value, rest) => Leaves(value) + MemberLeaves(rest)
  }

  /** The only values without bytes are those with a NaN or an infinity somewhere in them. */
  lemma {:induction false} HasBytesExactly(a: Json)
    ensures CanonicalBytes(a).Some? <==> NonFinite !in Leaves(a)
  {
    FiniteLeaves(a);
  }

  lemma {:induction false} FiniteLeaves(a: Json)
    ensures Finite(a) <==> NonFinite !in Leaves(a)
  {
    match a
    case Array(items) => FiniteItemLeaves(items);
    case Object(members) => FiniteMemberLeaves(members);
    case _ =>
  }

  lemma {:induction false} FiniteItemLeaves(items: Items)
    ensures FiniteItems(items) <==> NonFinite !in ItemLeaves(items)
  {
    if items.Item? {
      FiniteLeaves(items.head);
      FiniteItemLeaves(items.tail);
    }
  }

  lemma {:induction false} FiniteMemberLeaves(m: Members)
    ensures FiniteMembers(m) <==> NonFinite !in MemberLeaves(m)
  {
    if m.Member? {
      FiniteLeaves(m.value);
      FiniteMemberLeaves(m.rest);
    }
  }

  // ---- the order and the form of the bytes, without the sort or the printer ----

  /** `a` comes before `b`: it is a proper prefix, or has the smaller code point where they first differ. */
  predicate Ahead(a: Text, b: Text) {
    (|a| < |b| && a == b[..|a|]) || exists i :: 0 <= i < |a| && i < |b| && a[..i] == b[..i] && a[i] < b[i]
  }

  lemma {:induction false} BeforeIsAhead(a: Text, b: Text)
    ensures Before(a, b) ==> Ahead(a, b)
  {
    if Before(a, b) && a != [] {
      if a[0] < b[0] {
        assert a[..0] == b[..0];
      } else {
        var p, q := a[1..], b[1..];
        BeforeIsAhead(p, q);
        if |p| < |q| && p == q[..|p|] {
          assert a == [a[0]] + p && b[..|a|] == [b[0]] + q[..|p|];
        } else {
          var i :| 0 <= i < |p| && i < |q| && p[..i] == q[..i] && p[i] < q[i];
          assert a[..i + 1] == [a[0]] + p[..i] && b[..i + 1] == [b[0]] + q[..i];
          assert a[i + 1] < b[i + 1];
        }
      }
    }
  }

  /** The keys of an object in text order. */
  function KeyList(m: Members): seq<Text> {
    match m
    case NoMembers => []
    case Member(key, _, rest) => [key] + KeyList(rest)
  }

  predicate Ascending(keys: seq<Text>) { forall i, j :: 0 <= i < j < |keys| ==> Ahead(keys[i], keys[j]) }

  /** At every level, the keys come in ascending order and no zero is negative. */
  predicate InCanonicalForm(a: Json) {
    match a
    case Number(text) => text != NEGATIVE_ZERO
    case Array(items) => CanonicalItems(items)
    case Object(members) => Ascending(KeyList(members)) && CanonicalMembers(members)
    case _ => true
  }

  predicate CanonicalItems(items: Items) {
    items.Item? ==> InCanonicalForm(items.head) && CanonicalItems(items.tail)
  }

  predicate CanonicalMembers(m: Members) {
    m.Member? ==> InCanonicalForm(m.value) && CanonicalMembers(m.rest)
  }

  lemma {:induction false} KeyListKeys(m: Members, key: Text)
    ensures key in KeyList(m) <==> key in Keys(m)
  {
    if m.Member? { KeyListKeys(m.rest, key); }
  }

  lemma {:induction false} SortedAscends(m: Members)
    requires Sorted(m)
    ensures Ascending(KeyList(m))
  {
    if m.Member? {
      var keys, rest := KeyList(m), KeyList(m.rest);
      SortedAscends(m.rest);
      forall i, j | 0 <= i < j < |keys| ensures Ahead(keys[i], keys[j]) {
        if i == 0 {
          assert keys[j] == rest[j - 1] && rest[j - 1] in rest;
          KeyListKeys(m.rest, keys[j]);
          SortedBefore(m, keys[j]);
          BeforeIsAhead(keys[0], keys[j]);
        } else {
          assert keys[i] == rest[i - 1] && keys[j] == rest[j - 1];
        }
      }
    }
  }

  lemma {:induction false} InsertAscends(key: Text, value: Json, m: Members)
    requires InCanonicalForm(value) && CanonicalMembers(m)
    ensures CanonicalMembers(Insert(key, value, m))
  {
    if m.Member? && Before(m.key, key) { InsertAscends(key, value, m.rest); }
  }

  lemma {:induction false} SortAscends(m: Members)
    requires CanonicalMembers(m)
    ensures CanonicalMembers(Sort(m))
  {
    if m.Member? {
      SortAscends(m.rest);
      InsertAscends(m.key, m.value, Sort(m.rest));
    }
  }

  lemma {:induction false} NormalAscends(a: Json)
    requires Wire(a)
    ensures InCanonicalForm(Normal(a))
  {
    match a
    case Array(items) => NormalItemsAscend(items);
    case Object(members) =>
      NormalMembersAscend(members);
      SortAscends(NormalMembers(members));
      WireUnique(members);
      NormalLookup(members);
      SortSorted(NormalMembers(members));
      SortedAscends(Sort(NormalMembers(members)));
    case _ =>
  }

  lemma {:induction false} NormalItemsAscend(items: Items)
    requires WireItems(items)
    ensures CanonicalItems(NormalItems(items))
  {
    if items.Item? {
      NormalAscends(items.head);
      NormalItemsAscend(items.tail);
    }
  }

  lemma {:induction false} NormalMembersAscend(m: Members)
    requires WireMembers(m)
    ensures CanonicalMembers(NormalMembers(m))
  {
    if m.Member? {
      NormalAscends(m.value);
      NormalMembersAscend(m.rest);
    }
  }

  /** The keys of every object stand in the canonical bytes in ascending code-point order, and a zero without a sign: the
      value that is read from them has them so, at every level. */
  lemma BytesAscend(a: Json)
    requires Wire(a) && Finite(a)
    ensures var r := ReadValue(CanonicalBytes(a).value); r.Some? && r.value.rest == [] && InCanonicalForm(r.value.value)
  {
    NormalWire(a);
    ReadPrinted(Normal(a), []);
    NormalAscends(a);
  }

  /** The tool names that the items of an array carry, in order. */
  function NameList(items: Items): seq<Option<Text>> {
    match items
    case NoItems => []
    case Item(head, tail) => [NameOf(head)] + NameList(tail)
  }

  lemma {:induction false} NamedList(m: Members)
    requires Named(m)
    ensures |NameList(Values(m))| == |KeyList(m)|
    ensures forall i :: 0 <= i < |KeyList(m)| ==> NameList(Values(m))[i] == Some(KeyList(m)[i])
  {
    if m.Member? { NamedList(m.rest); }
  }

  /** The manifest bytes are one array with the tools in ascending order of their names. */
  lemma ManifestAscends(tools: Members)
    requires WireMembers(tools) && FiniteMembers(tools) && Named(tools)
    ensures ManifestBytes(tools).Some?
    ensures var r := ReadValue(ManifestBytes(tools).value);
            && r.Some? && r.value.rest == [] && r.value.value.Array?
            && var names := NameList(r.value.value.items);
               && (forall i :: 0 <= i < |names| ==> names[i].Some?)
               && (forall i, j :: 0 <= i < j < |names| ==> Ahead(names[i].value, names[j].value))
               && (forall name :: Some(name) in names <==> name in Keys(tools))
  {
    ManifestNormal(tools);
    var a, sorted := Array(Values(Sort(tools))), Sort(NormalMembers(tools));
    NormalWire(a);
    ReadPrinted(Normal(a), []);
    WireUnique(tools);
    NormalLookup(tools);
    SortSorted(NormalMembers(tools));
    hide Normal, KeyList, Sort, ReadValue, Print, Ahead, Wire, Finite;
    SortedNames(sorted);
  }

  lemma SortedNames(sorted: Members)
    requires Sorted(sorted) && Named(sorted)
    ensures var names := NameList(Values(sorted));
            && (forall i :: 0 <= i < |names| ==> names[i].Some?)
            && (forall i, j :: 0 <= i < j < |names| ==> Ahead(names[i].value, names[j].value))
            && (forall name :: Some(name) in names <==> name in Keys(sorted))
  {
    hide Ahead, Sorted, Named;
    NamedList(sorted);
    SortedAscends(sorted);
    var names, keys := NameList(Values(sorted)), KeyList(sorted);
    forall name ensures Some(name) in names <==> name in Keys(sorted) {
      KeyListKeys(sorted, name);
      if Some(name) in names {
        var i :| 0 <= i < |names| && names[i] == Some(name);
        assert keys[i] == name;
      }
      if name in keys {
        var i :| 0 <= i < |keys| && keys[i] == name;
        assert names[i] == Some(name);
      }
    }
  }

  /** Bytes that stand for one code unit in a string literal of printable ASCII. */
  predicate Spells(b: Bytes, u: int) {
    (forall i :: 0 <= i < |b| ==> 0x20 <= b[i] <= 0x7E) && ReadUnit(b) == Some(Read(u, []))
  }

  /** The escape of a code unit is the shortest printable ASCII that spells it, with hexadecimal digits in lower case: of
      the spellings that are no longer, it is the only one without a capital letter. */
  lemma EscapeIsShortest(u: int, b: Bytes)
    requires 0 <= u < 0x10000 && Spells(b, u)
    ensures Spells(Escape(u), u) && |Escape(u)| <= |b|
    ensures |b| == |Escape(u)| && (|b| > 1 ==> forall i :: 0 <= i < |b| ==> !(65 <= b[i] <= 90)) ==> b == Escape(u)
  {
    EscapePrintable(u);
    if |b| == 6 {
      HexUnique(u, b);
    }
  }

  lemma EscapePrintable(u: int)
    requires 0 <= u < 0x10000
    ensures Spells(Escape(u), u)
  {
    ReadEscape(u, []);
    assert Escape(u) + [] == Escape(u);
    assert forall d :: 0 <= d < 16 ==> 48 <= HexDigit(d) <= 102;
  }

  lemma LowerCaseDigit(b: byte)
    requires HexValue(b).Some? && !(65 <= b <= 90)
    ensures HexDigit(HexValue(b).value) == b
  {}

  lemma HexParts(w: int, x: int, y: int, z: int)
    requires 0 <= w < 16 && 0 <= x < 16 && 0 <= y < 16 && 0 <= z < 16
    ensures var u := ((w * 16 + x) * 16 + y) * 16 + z;
            u / 16 / 16 / 16 == w && u / 16 / 16 % 16 == x && u / 16 % 16 == y && u % 16 == z
  {}

  lemma HexUnique(u: int, b: Bytes)
    requires 0 <= u < 0x10000 && |b| == 6 && ReadUnit(b) == Some(Read(u, []))
    ensures (forall i :: 0 <= i < |b| ==> !(65 <= b[i] <= 90)) ==> b == UnicodeEscape(u)
  {
    if forall i :: 0 <= i < |b| ==> !(65 <= b[i] <= 90) {
      assert b[0] == BACKSLASH && b[1] == 117 && HexNumber(b[2..6]) == Some(u);
      var h := b[2..6];
      assert h[0] == b[2] && h[1] == b[3] && h[2] == b[4] && h[3] == b[5];
      LowerCaseDigit(b[2]);
      LowerCaseDigit(b[3]);
      LowerCaseDigit(b[4]);
      LowerCaseDigit(b[5]);
      HexParts(HexValue(b[2]).value, HexValue(b[3]).value, HexValue(b[4]).value, HexValue(b[5]).value);
      hide HexDigit, HexValue;
      assert b == [b[0], b[1], b[2], b[3], b[4], b[5]];
    }
  }
}
