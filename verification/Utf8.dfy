/** UTF-8 as str.encode and bytes.decode use it. */
module Utf8 {

  type byte = b: int | 0 <= b < 256

  function EncodeChar(c: char): (b: seq<byte>)
    ensures 1 <= |b| <= 4
  {
    var n := c as int;
    if n < 0x80 then [n]
    else if n < 0x800 then [0xC0 + n / 64, 0x80 + n % 64]
    else if n < 0x10000 then [0xE0 + n / 4096, 0x80 + n / 64 % 64, 0x80 + n % 64]
    else [0xF0 + n / 262144, 0x80 + n / 4096 % 64, 0x80 + n / 64 % 64, 0x80 + n % 64]
  }

  function Encode(s: string): seq<byte> {
    if s == [] then [] else EncodeChar(s[0]) + Encode(s[1..])
  }

  predicate IsTail(b: byte) {
    0x80 <= b < 0xC0
  }

  function TailBits(b: byte): int {
    b - 0x80
  }

  datatype Decoded = Invalid | Char(c: char, size: nat)

  /** The well-formed sequence at the start of b, if there is one: no overlong forms, no surrogates,
      nothing above U+10FFFF. */
  function DecodeFirst(b: seq<byte>): (d: Decoded)
    requires b != []
    ensures d.Char? ==> 1 <= d.size <= |b|
  {
    if b[0] < 0x80 then Char(b[0] as char, 1)
    else if 0xC2 <= b[0] < 0xE0 && |b| >= 2 && IsTail(b[1]) then
      Char((64 * (b[0] - 0xC0) + TailBits(b[1])) as char, 2)
    else if 0xE0 <= b[0] < 0xF0 && |b| >= 3 && IsTail(b[1]) && IsTail(b[2]) then
      var n := 4096 * (b[0] - 0xE0) + 64 * TailBits(b[1]) + TailBits(b[2]);
      if n < 0x800 || 0xD800 <= n < 0xE000 then Invalid else Char(n as char, 3)
    else if 0xF0 <= b[0] < 0xF5 && |b| >= 4 && IsTail(b[1]) && IsTail(b[2]) && IsTail(b[3]) then
      var n := 262144 * (b[0] - 0xF0) + 4096 * TailBits(b[1]) + 64 * TailBits(b[2]) + TailBits(b[3]);
      if n < 0x10000 || n >= 0x110000 then Invalid else Char(n as char, 4)
    else Invalid
  }

  datatype Text = Failed | Decoded(text: string)

  /** b.decode("utf-8"): the first malformed sequence raises. */
  function Decode(b: seq<byte>): Text {
    if b == [] then Decoded([])
    else match DecodeFirst(b)
      case Invalid => Failed
      case Char(c, size) =>
        match Decode(b[size..])
        case Failed => Failed
        case Decoded(rest) => Decoded([c] + rest)
  }

  /** b.decode("utf-8", errors="ignore"): a malformed byte is dropped; the tail bytes that Python
      drops together with it are malformed on their own as well. */
  function DecodeIgnoring(b: seq<byte>): string {
    if b == [] then []
    else match DecodeFirst(b)
      case Invalid => DecodeIgnoring(b[1..])
      case Char(c, size) => [c] + DecodeIgnoring(b[size..])
  }

  lemma DecodeFirstOfTwo(n: int, rest: seq<byte>)
    requires 0x80 <= n < 0x800
    ensures DecodeFirst([0xC0 + n / 64, 0x80 + n % 64] + rest) == Char(n as char, 2)
  {
    var b: seq<byte> := [0xC0 + n / 64, 0x80 + n % 64] + rest;
    assert b[0] == 0xC0 + n / 64 && b[1] == 0x80 + n % 64;
  }

  lemma DecodeFirstOfThree(n: int, rest: seq<byte>)
    requires 0x800 <= n < 0x10000 && !(0xD800 <= n < 0xE000)
    ensures DecodeFirst([0xE0 + n / 4096, 0x80 + n / 64 % 64, 0x80 + n % 64] + rest) == Char(n as char, 3)
  {
    var x, y, z := n / 4096, n / 64 % 64, n % 64;
    assert n == 4096 * x + 64 * y + z;
    var b: seq<byte> := [0xE0 + x, 0x80 + y, 0x80 + z] + rest;
    assert b[0] == 0xE0 + x && b[1] == 0x80 + y && b[2] == 0x80 + z;
  }

  lemma FourBytes(w: nat, x: nat, y: nat, z: nat, rest: seq<byte>)
    requires x < 64 && y < 64 && z < 64
    requires 0x10000 <= 262144 * w + 4096 * x + 64 * y + z < 0x110000
    ensures w < 5 && DecodeFirst([0xF0 + w, 0x80 + x, 0x80 + y, 0x80 + z] + rest)
                  == Char((262144 * w + 4096 * x + 64 * y + z) as char, 4)
  {
    var b: seq<byte> := [0xF0 + w, 0x80 + x, 0x80 + y, 0x80 + z] + rest;
    assert b[0] == 0xF0 + w && b[1] == 0x80 + x && b[2] == 0x80 + y && b[3] == 0x80 + z;
  }

  lemma DecodeFirstOfFour(n: int, rest: seq<byte>)
    requires 0x10000 <= n < 0x110000
    ensures DecodeFirst([0xF0 + n / 262144, 0x80 + n / 4096 % 64, 0x80 + n / 64 % 64, 0x80 + n % 64] + rest)
         == Char(n as char, 4)
  {
    var w, x, y, z := n / 262144, n / 4096 % 64, n / 64 % 64, n % 64;
    assert n == 262144 * w + 4096 * x + 64 * y + z;
    FourBytes(w, x, y, z, rest);
  }

  lemma DecodeFirstOfEncode(c: char, rest: seq<byte>)
    ensures DecodeFirst(EncodeChar(c) + rest) == Char(c, |EncodeChar(c)|)
  {
    var n := c as int;
    if n < 0x80 {
    } else if n < 0x800 {
      DecodeFirstOfTwo(n, rest);
    } else if n < 0x10000 {
      DecodeFirstOfThree(n, rest);
    } else {
      DecodeFirstOfFour(n, rest);
    }
  }

  lemma {:induction false} RoundTrip(s: string)
    ensures Decode(Encode(s)) == Decoded(s)
  {
    if s != [] {
      var rest := Encode(s[1..]);
      DecodeFirstOfEncode(s[0], rest);
      assert (EncodeChar(s[0]) + rest)[|EncodeChar(s[0])|..] == rest;
      RoundTrip(s[1..]);
      assert s == [s[0]] + s[1..];
    }
  }

  /** The two decoders agree on everything that is well formed. */
  lemma {:induction false} IgnoringAgrees(b: seq<byte>)
    requires Decode(b).Decoded?
    ensures DecodeIgnoring(b) == Decode(b).text
    decreases |b|
  {
    if b != [] { IgnoringAgrees(b[DecodeFirst(b).size..]); }
  }

  /** A decoded text is never longer than its bytes, and non-empty text has bytes. */
  lemma EncodeNonEmpty(s: string)
    requires s != []
    ensures Encode(s) != []
  {
  }

  lemma {:induction false} EncodeAscii(s: string)
    requires forall i :: 0 <= i < |s| ==> s[i] as int < 128
    ensures |Encode(s)| == |s| && forall i :: 0 <= i < |s| ==> Encode(s)[i] == s[i] as int
  {
    if s != [] {
      EncodeAscii(s[1..]);
      assert Encode(s) == [s[0] as int] + Encode(s[1..]);
    }
  }

  /** What decodes at all with an encoded text in front starts with that text. */
  lemma {:induction false} DecodeStartsWith(s: string, more: seq<byte>)
    requires Decode(Encode(s) + more).Decoded?
    ensures s <= Decode(Encode(s) + more).text
  {
    if s != [] {
      var rest := Encode(s[1..]) + more;
      assert Encode(s) + more == EncodeChar(s[0]) + rest;
      DecodeFirstOfEncode(s[0], rest);
      assert (EncodeChar(s[0]) + rest)[|EncodeChar(s[0])|..] == rest;
      DecodeStartsWith(s[1..], more);
      assert s == [s[0]] + s[1..];
    }
  }
}
