/** Bytes, text on bytes, and the few Python string operations the SDK applies to them. */
module Basics {

  datatype Option<+T> = None | Some(value: T)

  newtype byte = b: int | 0 <= b < 0x100

  type Bytes = seq<byte>

  const LF: byte := 10
  const CR: byte := 13
  const SPACE: byte := 32
  const COLON: byte := 58

  function Min(a: int, b: int): int { if a <= b then a else b }

  function Max(a: int, b: int): int { if a <= b then b else a }

  /** Index of the first `x` in `s`, or `|s|` when there is none (`bytearray.find` with -1 read as the end). */
  function Find(s: Bytes, x: byte): (n: nat)
    ensures n <= |s|
    ensures forall i :: 0 <= i < n ==> s[i] != x
    ensures n < |s| ==> s[n] == x
  {
    if s == [] || s[0] == x then 0 else 1 + Find(s[1..], x)
  }

  lemma FindIsFirst(s: Bytes, x: byte, n: nat)
    requires n <= |s| && (forall i :: 0 <= i < n ==> s[i] != x) && (n < |s| ==> s[n] == x)
    ensures Find(s, x) == n
  {
    var m := Find(s, x);
  }

  /** `"\n".join(lines)` on bytes. */
  function Join(lines: seq<Bytes>): Bytes {
    if lines == [] then []
    else if |lines| == 1 then lines[0]
    else Join(lines[..|lines| - 1]) + [LF] + lines[|lines| - 1]
  }

  lemma JoinLength(lines: seq<Bytes>, line: Bytes)
    ensures |Join(lines + [line])| == |Join(lines)| + |line| + if lines != [] then 1 else 0
  {
    assert (lines + [line])[..|lines|] == lines;
  }

  /** `str.rstrip("\r")`: drops every trailing carriage return, not only one. */
  function StripCr(s: Bytes): Bytes {
    if s != [] && s[|s| - 1] == CR then StripCr(s[..|s| - 1]) else s
  }

  /** ASCII text as bytes. */
  function Ascii(s: string): Bytes
    requires forall i :: 0 <= i < |s| ==> s[i] < 128 as char
  {
    seq(|s|, i requires 0 <= i < |s| => s[i] as int as byte)
  }

  /** Flat content of a list of chunks. */
  function Flatten(chunks: seq<Bytes>): Bytes {
    if chunks == [] then [] else Flatten(chunks[..|chunks| - 1]) + chunks[|chunks| - 1]
  }

  predicate Continuation(b: byte) { 0x80 <= b <= 0xBF }

  /** Length of the well-formed UTF-8 sequence that starts `s`; 0 when there is none. */
  function Utf8Width(s: Bytes): (n: nat)
    ensures n <= |s|
  {
    if s == [] then 0
    else if s[0] < 0x80 then 1
    else if |s| < 2 then 0
    else if 0xC2 <= s[0] <= 0xDF then (if Continuation(s[1]) then 2 else 0)
    else if |s| < 3 then 0
    else if 0xE0 <= s[0] <= 0xEF then
      var low: byte := if s[0] == 0xE0 then 0xA0 else 0x80;
      var high: byte := if s[0] == 0xED then 0x9F else 0xBF;
      if low <= s[1] <= high && Continuation(s[2]) then 3 else 0
    else if |s| < 4 then 0
    else if 0xF0 <= s[0] <= 0xF4 then
      var low: byte := if s[0] == 0xF0 then 0x90 else 0x80;
      var high: byte := if s[0] == 0xF4 then 0x8F else 0xBF;
      if low <= s[1] <= high && Continuation(s[2]) && Continuation(s[3]) then 4 else 0
    else 0
  }

  /** The byte strings that `bytes.decode("utf-8")` accepts. */
  predicate Utf8(s: Bytes) {
    s == [] || (Utf8Width(s) > 0 && Utf8(s[Utf8Width(s)..]))
  }

  lemma WidthOfPrefix(a: Bytes, b: Bytes)
    requires Utf8Width(a) > 0
    ensures Utf8Width(a + b) == Utf8Width(a)
  {
    var c := a + b;
    assert c[0] == a[0];
    if |a| >= 2 { assert c[1] == a[1]; }
    if |a| >= 3 { assert c[2] == a[2]; }
    if |a| >= 4 { assert c[3] == a[3]; }
  }

  lemma {:induction false} Utf8Concat(a: Bytes, b: Bytes)
    requires Utf8(a) && Utf8(b)
    ensures Utf8(a + b)
  {
    hide Utf8Width;
    if a == [] {
      assert a + b == b;
    } else {
      var n := Utf8Width(a);
      WidthOfPrefix(a, b);
      assert (a + b)[n..] == a[n..] + b;
      Utf8Concat(a[n..], b);
    }
  }

  /** Width of the white-space character (as `str.isspace` sees it) that starts `s`; 0 when there is none. */
  function SpaceWidth(s: Bytes): (n: nat)
    ensures n <= |s|
  {
    if s == [] then 0
    else if 0x09 <= s[0] <= 0x0D || 0x1C <= s[0] <= 0x20 then 1
    else if |s| >= 2 && s[0] == 0xC2 && (s[1] == 0x85 || s[1] == 0xA0) then 2
    else if |s| >= 3 && (
              || s[..3] == [0xE1, 0x9A, 0x80]
              || (s[0] == 0xE2 && s[1] == 0x80 && (0x80 <= s[2] <= 0x8A || s[2] == 0xA8 || s[2] == 0xA9 || s[2] == 0xAF))
              || s[..3] == [0xE2, 0x81, 0x9F]
              || s[..3] == [0xE3, 0x80, 0x80]) then 3
    else 0
  }

  /** `str.lstrip()`. */
  function LStrip(s: Bytes): Bytes
    decreases |s|
  {
    if SpaceWidth(s) > 0 then LStrip(s[SpaceWidth(s)..]) else s
  }

  // ---- the same in code points ----

  predicate ScalarValue(c: int) { 0 <= c < 0xD800 || 0xE000 <= c < 0x110000 }

  /** The UTF-8 form of a Unicode scalar value. */
  function EncodePoint(c: int): Bytes
    requires ScalarValue(c)
  {
    if c < 0x80 then [c as byte]
    else if c < 0x800 then [(0xC0 + c / 64) as byte, (0x80 + c % 64) as byte]
    else if c < 0x10000 then [(0xE0 + c / 64 / 64) as byte, (0x80 + c / 64 % 64) as byte, (0x80 + c % 64) as byte]
    else [(0xF0 + c / 64 / 64 / 64) as byte, (0x80 + c / 64 / 64 % 64) as byte, (0x80 + c / 64 % 64) as byte,
          (0x80 + c % 64) as byte]
  }

  lemma EncodedWidth(c: int, x: Bytes)
    requires ScalarValue(c)
    ensures Utf8Width(EncodePoint(c) + x) == |EncodePoint(c)|
  {
    var e := EncodePoint(c);
    assert forall i :: 0 <= i < |e| ==> (e + x)[i] == e[i];
  }

  /** The scalar value that starts a byte string. */
  function DecodePoint(s: Bytes): int {
    var n := Utf8Width(s);
    if n == 1 then s[0] as int
    else if n == 2 then (s[0] as int - 0xC0) * 64 + (s[1] as int - 0x80)
    else if n == 3 then ((s[0] as int - 0xE0) * 64 + (s[1] as int - 0x80)) * 64 + (s[2] as int - 0x80)
    else if n == 4 then (((s[0] as int - 0xF0) * 64 + (s[1] as int - 0x80)) * 64 + (s[2] as int - 0x80)) * 64
                        + (s[3] as int - 0x80)
    else 0
  }

  lemma SixBitParts(a: int, x: int, y: int, z: int)
    requires 0 <= a && 0 <= x < 64 && 0 <= y < 64 && 0 <= z < 64
    ensures (a * 64 + x) / 64 == a && (a * 64 + x) % 64 == x
    ensures var c := (a * 64 + x) * 64 + y; c / 64 / 64 == a && c / 64 % 64 == x && c % 64 == y
    ensures var c := ((a * 64 + x) * 64 + y) * 64 + z;
            c / 64 / 64 / 64 == a && c / 64 / 64 % 64 == x && c / 64 % 64 == y && c % 64 == z
  {}

  lemma EncodedTwo(a: int, x: int)
    requires 2 <= a < 32 && 0 <= x < 64
    ensures EncodePoint(a * 64 + x) == [(0xC0 + a) as byte, (0x80 + x) as byte]
  {
    SixBitParts(a, x, 0, 0);
  }

  lemma EncodedThree(a: int, x: int, y: int)
    requires 0 <= a < 16 && 0 <= x < 64 && 0 <= y < 64
    requires var c := (a * 64 + x) * 64 + y; 0x800 <= c && ScalarValue(c)
    ensures EncodePoint((a * 64 + x) * 64 + y) == [(0xE0 + a) as byte, (0x80 + x) as byte, (0x80 + y) as byte]
  {
    SixBitParts(a, x, y, 0);
  }

  lemma EncodedFour(a: int, x: int, y: int, z: int)
    requires 0 <= a < 5 && 0 <= x < 64 && 0 <= y < 64 && 0 <= z < 64
    requires var c := ((a * 64 + x) * 64 + y) * 64 + z; 0x10000 <= c < 0x110000
    ensures EncodePoint(((a * 64 + x) * 64 + y) * 64 + z)
         == [(0xF0 + a) as byte, (0x80 + x) as byte, (0x80 + y) as byte, (0x80 + z) as byte]
  {
    SixBitParts(a, x, y, z);
  }

  lemma DecodedPoint(s: Bytes)
    requires Utf8Width(s) > 0
    ensures ScalarValue(DecodePoint(s)) && EncodePoint(DecodePoint(s)) == s[..Utf8Width(s)]
  {
    var n := Utf8Width(s);
    if n == 1 {
      DecodedOne(s);
    } else if n == 2 {
      EncodedTwo(s[0] as int - 0xC0, s[1] as int - 0x80);
      hide EncodePoint;
      assert s[..n] == [s[0], s[1]];
    } else if n == 3 {
      EncodedThree(s[0] as int - 0xE0, s[1] as int - 0x80, s[2] as int - 0x80);
      hide EncodePoint;
      assert s[..n] == [s[0], s[1], s[2]];
    } else {
      EncodedFour(s[0] as int - 0xF0, s[1] as int - 0x80, s[2] as int - 0x80, s[3] as int - 0x80);
      hide EncodePoint;
      assert s[..n] == [s[0], s[1], s[2], s[3]];
    }
  }

  lemma DecodedOne(s: Bytes)
    requires Utf8Width(s) == 1
    ensures ScalarValue(DecodePoint(s)) && EncodePoint(DecodePoint(s)) == s[..1]
  {
    assert s[..1] == [s[0]];
  }

  function EncodeAll(points: seq<int>): Bytes
    requires forall i :: 0 <= i < |points| ==> ScalarValue(points[i])
  {
    if points == [] then [] else EncodePoint(points[0]) + EncodeAll(points[1..])
  }

  lemma {:induction false} EncodedIsUtf8(points: seq<int>)
    requires forall i :: 0 <= i < |points| ==> ScalarValue(points[i])
    ensures Utf8(EncodeAll(points))
  {
    if points != [] {
      var e, rest := EncodePoint(points[0]), EncodeAll(points[1..]);
      EncodedWidth(points[0], rest);
      EncodedIsUtf8(points[1..]);
      assert (e + rest)[|e|..] == rest;
      assert |e| > 0;
      hide Utf8Width, EncodePoint;
    }
  }

  /** What decodes as UTF-8 is exactly what encodes some scalar values: no surrogates, no overlong forms, nothing cut. */
  lemma {:induction false} Utf8Decodes(s: Bytes) returns (points: seq<int>)
    requires Utf8(s)
    ensures (forall i :: 0 <= i < |points| ==> ScalarValue(points[i])) && EncodeAll(points) == s
  {
    hide Utf8Width, EncodePoint, DecodePoint;
    if s == [] {
      points := [];
    } else {
      var n := Utf8Width(s);
      DecodedPoint(s);
      var rest := Utf8Decodes(s[n..]);
      points := [DecodePoint(s)] + rest;
      assert points[1..] == rest;
      assert s == s[..n] + s[n..];
    }
  }

  /** White space as `str.isspace` has it, by code point. */
  predicate SpacePoint(c: int) {
    0x09 <= c <= 0x0D || 0x1C <= c <= 0x20 || c == 0x85 || c == 0xA0 || c == 0x1680 || 0x2000 <= c <= 0x200A
    || c == 0x2028 || c == 0x2029 || c == 0x202F || c == 0x205F || c == 0x3000
  }

  lemma SpaceExactly(c: int, x: Bytes)
    requires ScalarValue(c)
    ensures SpaceWidth(EncodePoint(c) + x) == if SpacePoint(c) then |EncodePoint(c)| else 0
  {
    var e := EncodePoint(c);
    assert forall i :: 0 <= i < |e| ==> (e + x)[i] == e[i];
    if |e| >= 3 {
      assert (e + x)[..3] == [e[0], e[1], e[2]];
    }
  }
}
