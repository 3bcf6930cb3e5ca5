/** Base64 (RFC 4648, section 4): base64.b64encode, base64.b64decode, and the padding repair that the
    code puts in front of the decoder. */
module Base64 {
  import opened Utf8

  type sextet = n: int | 0 <= n < 64

  function SextetChar(n: sextet): char {
    if n < 26 then (65 + n) as char
    else if n < 52 then (71 + n) as char
    else if n < 62 then (n - 4) as char
    else if n == 62 then '+' else '/'
  }

  predicate IsAlphabet(c: char) {
    'A' <= c <= 'Z' || 'a' <= c <= 'z' || '0' <= c <= '9' || c == '+' || c == '/'
  }

  function CharSextet(c: char): sextet
    requires IsAlphabet(c)
  {
    if 'A' <= c <= 'Z' then c as int - 65
    else if 'a' <= c <= 'z' then c as int - 71
    else if '0' <= c <= '9' then c as int + 4
    else if c == '+' then 62 else 63
  }

  lemma SextetRoundTrip(n: sextet)
    ensures IsAlphabet(SextetChar(n)) && CharSextet(SextetChar(n)) == n
  {
  }

  /** base64.b64encode */
  function Encode(b: seq<byte>): string {
    if |b| == 0 then []
    else if |b| == 1 then [SextetChar(b[0] / 4), SextetChar(b[0] % 4 * 16), '=', '=']
    else if |b| == 2 then
      [SextetChar(b[0] / 4), SextetChar(b[0] % 4 * 16 + b[1] / 16), SextetChar(b[1] % 16 * 4), '=']
    else
      [SextetChar(b[0] / 4), SextetChar(b[0] % 4 * 16 + b[1] / 16),
       SextetChar(b[1] % 16 * 4 + b[2] / 64), SextetChar(b[2] % 64)] + Encode(b[3..])
  }

  datatype Bytes = Malformed | Bytes(b: seq<byte>)

  function Emit(b: byte, rest: Bytes): Bytes {
    match rest
    case Malformed => Malformed
    case Bytes(bs) => Bytes([b] + bs)
  }

  /** binascii.a2b_base64 in its default, lenient mode: characters outside the alphabet are skipped,
      and a complete padding ends the data, whatever follows.  `quad` counts the characters of the
      current group, `left` holds the bits not yet emitted. */
  function Scan(s: string, quad: nat, left: nat, pads: nat): Bytes
    requires quad < 4
    requires left < (if quad == 0 then 1 else if quad == 1 then 64 else if quad == 2 then 16 else 4)
    decreases |s|
  {
    if s == [] then (if quad == 0 then Bytes([]) else Malformed)
    else if s[0] == '=' then
      if quad >= 2 && quad + pads + 1 >= 4 then Bytes([])
      else Scan(s[1..], quad, left, if quad >= 2 then pads + 1 else pads)
    else if !IsAlphabet(s[0]) then Scan(s[1..], quad, left, pads)
    else
      var n := CharSextet(s[0]);
      if quad == 0 then Scan(s[1..], 1, n, 0)
      else if quad == 1 then Emit(left * 4 + n / 16, Scan(s[1..], 2, n % 16, 0))
      else if quad == 2 then Emit(left * 16 + n / 4, Scan(s[1..], 3, n % 4, 0))
      else Emit(left * 64 + n, Scan(s[1..], 0, 0, 0))
  }

  /** base64.b64decode on a str: non-ASCII text raises. */
  function Decode(s: string): Bytes {
    if exists i :: 0 <= i < |s| && s[i] as int >= 128 then Malformed else Scan(s, 0, 0, 0)
  }

  /** The code's repair: bring the length up to a multiple of four. */
  function Repair(s: string): string {
    if |s| % 4 == 0 then s else s + Padding(4 - |s| % 4)
  }

  function Padding(n: nat): (r: string)
    ensures |r| == n && forall i :: 0 <= i < n ==> r[i] == '='
  {
    seq(n, _ => '=')
  }

  /** How many '=' the encoding of b ends with. */
  function PadCount(b: seq<byte>): nat {
    (3 - |b| % 3) % 3
  }

  /** Alphabet only, then `pads` times '='. */
  ghost predicate Shaped(e: string, pads: nat) {
    && |e| % 4 == 0 && pads <= |e|
    && (forall i :: 0 <= i < |e| - pads ==> IsAlphabet(e[i]))
    && (forall i :: |e| - pads <= i < |e| ==> e[i] == '=')
  }

  lemma ShapedGroup(a: sextet, b: sextet, c: sextet, d: sextet, e: string, pads: nat)
    requires Shaped(e, pads)
    ensures Shaped([SextetChar(a), SextetChar(b), SextetChar(c), SextetChar(d)] + e, pads)
  {
    SextetRoundTrip(a);
    SextetRoundTrip(b);
    SextetRoundTrip(c);
    SextetRoundTrip(d);
  }

  lemma {:induction false} EncodeShape(b: seq<byte>)
    ensures Shaped(Encode(b), PadCount(b))
    ensures b != [] ==> |Encode(b)| > PadCount(b)
  {
    if |b| >= 3 {
      EncodeShape(b[3..]);
      FullGroupShape(b);
    } else {
      LastGroupShape(b);
    }
  }

  lemma PadCountStep(b: seq<byte>)
    requires |b| >= 3
    ensures PadCount(b) == PadCount(b[3..])
  {
    assert |b[3..]| == |b| - 3;
  }

  lemma FullGroupShape(b: seq<byte>)
    requires |b| >= 3 && Shaped(Encode(b[3..]), PadCount(b[3..]))
    ensures Shaped(Encode(b), PadCount(b)) && |Encode(b)| > PadCount(b)
  {
    PadCountStep(b);
    var rest, pads := Encode(b[3..]), PadCount(b);
    var w: sextet, x: sextet := b[0] / 4, b[0] % 4 * 16 + b[1] / 16;
    var y: sextet, z: sextet := b[1] % 16 * 4 + b[2] / 64, b[2] % 64;
    ShapedGroup(w, x, y, z, rest, pads);
    assert Encode(b) == [SextetChar(w), SextetChar(x), SextetChar(y), SextetChar(z)] + rest;
  }

  lemma LastGroupShape(b: seq<byte>)
    requires |b| < 3
    ensures Shaped(Encode(b), PadCount(b))
    ensures b != [] ==> |Encode(b)| > PadCount(b)
  {
    if |b| == 1 {
      assert PadCount(b) == 2;
      SextetRoundTrip(b[0] / 4);
      SextetRoundTrip(b[0] % 4 * 16);
    } else if |b| == 2 {
      assert PadCount(b) == 1;
      SextetRoundTrip(b[0] / 4);
      SextetRoundTrip(b[0] % 4 * 16 + b[1] / 16);
      SextetRoundTrip(b[1] % 16 * 4);
    }
  }

  lemma ScanStep(n: sextet, t: string, quad: nat, left: nat)
    requires quad < 4
    requires left < (if quad == 0 then 1 else if quad == 1 then 64 else if quad == 2 then 16 else 4)
    ensures Scan([SextetChar(n)] + t, quad, left, 0) ==
            if quad == 0 then Scan(t, 1, n, 0)
            else if quad == 1 then Emit(left * 4 + n / 16, Scan(t, 2, n % 16, 0))
            else if quad == 2 then Emit(left * 16 + n / 4, Scan(t, 3, n % 4, 0))
            else Emit(left * 64 + n, Scan(t, 0, 0, 0))
  {
    SextetRoundTrip(n);
    var s := [SextetChar(n)] + t;
    assert s[0] == SextetChar(n) && s[1..] == t;
  }

  lemma Bits(x: byte, y: byte, z: byte)
    ensures x / 4 * 4 + (x % 4 * 16 + y / 16) / 16 == x
    ensures (x % 4 * 16 + y / 16) % 16 * 16 + (y % 16 * 4 + z / 64) / 4 == y
    ensures (y % 16 * 4 + z / 64) % 4 * 64 + z % 64 == z
  {
  }

  lemma ScanFirstTwo(a: sextet, b: sextet, rest: string)
    ensures Scan([SextetChar(a)] + ([SextetChar(b)] + rest), 0, 0, 0)
         == Emit(a * 4 + b / 16, Scan(rest, 2, b % 16, 0))
  {
    ScanStep(a, [SextetChar(b)] + rest, 0, 0);
    ScanStep(b, rest, 1, a);
  }

  lemma ScanSecondTwo(c: sextet, d: sextet, left: nat, rest: string)
    requires left < 16
    ensures Scan([SextetChar(c)] + ([SextetChar(d)] + rest), 2, left, 0)
         == Emit(left * 16 + c / 4, Emit(c % 4 * 64 + d, Scan(rest, 0, 0, 0)))
  {
    ScanStep(c, [SextetChar(d)] + rest, 2, left);
    ScanStep(d, rest, 3, c % 4);
  }

  lemma ScanFour(a: sextet, b: sextet, c: sextet, d: sextet, rest: string)
    ensures Scan([SextetChar(a), SextetChar(b), SextetChar(c), SextetChar(d)] + rest, 0, 0, 0)
         == Emit(a * 4 + b / 16, Emit(b % 16 * 16 + c / 4, Emit(c % 4 * 64 + d, Scan(rest, 0, 0, 0))))
  {
    var s2 := [SextetChar(c)] + ([SextetChar(d)] + rest);
    ScanFirstTwo(a, b, s2);
    ScanSecondTwo(c, d, b % 16, rest);
    assert [SextetChar(a), SextetChar(b), SextetChar(c), SextetChar(d)] + rest
        == [SextetChar(a)] + ([SextetChar(b)] + s2);
  }

  /** One full group decodes to its three bytes. */
  lemma ScanGroup(x: byte, y: byte, z: byte, rest: string)
    ensures Scan([SextetChar(x / 4), SextetChar(x % 4 * 16 + y / 16),
                  SextetChar(y % 16 * 4 + z / 64), SextetChar(z % 64)] + rest, 0, 0, 0)
         == Emit(x, Emit(y, Emit(z, Scan(rest, 0, 0, 0))))
  {
    ScanFour(x / 4, x % 4 * 16 + y / 16, y % 16 * 4 + z / 64, z % 64, rest);
    Bits(x, y, z);
  }

  lemma ScanOfEncode(b: seq<byte>)
    ensures Scan(Encode(b), 0, 0, 0) == Bytes(b)
  {
    assert Encode(b) + [] == Encode(b);
    ScanEncodeThen(b, []);
    assert b + [] == b;
  }

  lemma RoundTrip(b: seq<byte>)
    ensures Decode(Encode(b)) == Bytes(b)
  {
    ScanOfEncode(b);
    EncodeShape(b);
  }

  lemma PaddingIs(s: string)
    requires |s| < 4 && forall i :: 0 <= i < |s| ==> s[i] == '='
    ensures Padding(|s|) == s
  {
  }

  lemma PaddingRestores(e: string, dropped: nat)
    requires |e| % 4 == 0 && dropped <= |e| && dropped < 4
    requires forall i :: |e| - dropped <= i < |e| ==> e[i] == '='
    ensures Repair(e[..|e| - dropped]) == e
  {
    var cut, rest := e[..|e| - dropped], e[|e| - dropped..];
    assert e == cut + rest;
    assert |cut| == |e| - dropped;
    if dropped > 0 {
      PaddingIs(rest);
      assert |cut| % 4 == 4 - dropped;
    }
  }

  /** Padding repair: however many of the trailing '=' were dropped, the repaired text is the
      original encoding again, and so decodes to the original bytes. */
  lemma RepairRestores(b: seq<byte>, dropped: nat)
    requires dropped <= PadCount(b)
    ensures |Encode(b)| >= dropped
    ensures Repair(Encode(b)[..|Encode(b)| - dropped]) == Encode(b)
    ensures Decode(Repair(Encode(b)[..|Encode(b)| - dropped])) == Bytes(b)
  {
    EncodeShape(b);
    PaddingRestores(Encode(b), dropped);
    RoundTrip(b);
  }

  /** The bytes, followed by whatever comes. */
  function EmitAll(b: seq<byte>, rest: Bytes): Bytes {
    match rest
    case Malformed => Malformed
    case Bytes(more) => Bytes(b + more)
  }

  lemma EmitAllCons(x: byte, y: byte, z: byte, b: seq<byte>, rest: Bytes)
    ensures Emit(x, Emit(y, Emit(z, EmitAll(b, rest)))) == EmitAll([x, y, z] + b, rest)
  {
    if rest.Bytes? {
      assert [x] + ([y] + ([z] + (b + rest.b))) == [x, y, z] + b + rest.b;
    }
  }

  lemma EncodeTwo(x: byte, y: byte, t: string)
    ensures Encode([x, y]) + t
         == [SextetChar(x / 4)] + ([SextetChar(x % 4 * 16 + y / 16)] + ([SextetChar(y % 16 * 4)] + (['='] + t)))
  {
    var a, b, c := SextetChar(x / 4), SextetChar(x % 4 * 16 + y / 16), SextetChar(y % 16 * 4);
    assert Encode([x, y]) == [a, b, c, '='];
    assert [a, b, c, '='] + t == [a] + ([b] + ([c] + (['='] + t)));
  }

  lemma ScanTwoThen(x: byte, y: byte, t: string)
    ensures Scan(Encode([x, y]) + t, 0, 0, 0) == Bytes([x, y])
  {
    var a: sextet, b: sextet, c: sextet := x / 4, x % 4 * 16 + y / 16, y % 16 * 4;
    EncodeTwo(x, y, t);
    Bits(x, y, 0);
    ScanFirstTwo(a, b, [SextetChar(c)] + (['='] + t));
    ScanStep(c, ['='] + t, 2, b % 16);
  }

  lemma ScanOneThen(x: byte, t: string)
    ensures Scan(Encode([x]) + t, 0, 0, 0) == Bytes([x])
  {
    var a: sextet, b: sextet := x / 4, x % 4 * 16;
    var s2 := ['=', '='] + t;
    var s1 := [SextetChar(b)] + s2;
    Bits(x, 0, 0);
    ScanStep(a, s1, 0, 0);
    ScanStep(b, s2, 1, a);
    assert s2[1..] == ['='] + t;
    assert Encode([x]) + t == [SextetChar(a)] + s1;
  }

  lemma ScanGroupThen(b: seq<byte>, t: string)
    requires |b| >= 3
    ensures Scan(Encode(b) + t, 0, 0, 0) == Emit(b[0], Emit(b[1], Emit(b[2], Scan(Encode(b[3..]) + t, 0, 0, 0))))
  {
    var quad := [SextetChar(b[0] / 4), SextetChar(b[0] % 4 * 16 + b[1] / 16),
                 SextetChar(b[1] % 16 * 4 + b[2] / 64), SextetChar(b[2] % 64)];
    assert Encode(b) == quad + Encode(b[3..]);
    assert Encode(b) + t == quad + (Encode(b[3..]) + t);
    ScanGroup(b[0], b[1], b[2], Encode(b[3..]) + t);
  }

  lemma EmitThree(b: seq<byte>)
    requires |b| >= 3
    ensures Emit(b[0], Emit(b[1], Emit(b[2], Bytes(b[3..])))) == Bytes(b)
    ensures b == [b[0], b[1], b[2]] + b[3..]
  {
    assert [b[0]] + ([b[1]] + ([b[2]] + b[3..])) == b;
  }

  /** What scanning gives for an encoding and the text behind it. */
  function Thereafter(b: seq<byte>, rest: Bytes): Bytes {
    if |b| % 3 != 0 then Bytes(b) else EmitAll(b, rest)
  }

  lemma ThereafterStep(b: seq<byte>, rest: Bytes)
    requires |b| >= 3
    ensures Emit(b[0], Emit(b[1], Emit(b[2], Thereafter(b[3..], rest)))) == Thereafter(b, rest)
  {
    EmitThree(b);
    EmitAllCons(b[0], b[1], b[2], b[3..], rest);
  }

  /** Text after an encoding: ignored if the encoding ends with padding, else decoded after it. */
  lemma {:induction false} ScanEncodeThen(b: seq<byte>, t: string)
    ensures Scan(Encode(b) + t, 0, 0, 0) == Thereafter(b, Scan(t, 0, 0, 0))
  {
    if b == [] {
      ScanNothingThen(t);
    } else if |b| == 1 {
      assert b == [b[0]];
      ScanOneThen(b[0], t);
    } else if |b| == 2 {
      assert b == [b[0], b[1]];
      ScanTwoThen(b[0], b[1], t);
    } else {
      ScanGroupThen(b, t);
      ScanEncodeThen(b[3..], t);
      ThereafterStep(b, Scan(t, 0, 0, 0));
    }
  }

  lemma ScanNothingThen(t: string)
    ensures Scan(Encode([]) + t, 0, 0, 0) == Thereafter([], Scan(t, 0, 0, 0))
  {
    assert Encode([]) + t == t;
    if Scan(t, 0, 0, 0).Bytes? { assert [] + Scan(t, 0, 0, 0).b == Scan(t, 0, 0, 0).b; }
  }

  /** What decodes at all with an encoding in front starts with the encoded bytes. */
  lemma DecodeStartsWith(b: seq<byte>, t: string)
    requires Decode(Repair(Encode(b) + t)).Bytes?
    ensures b <= Decode(Repair(Encode(b) + t)).b
  {
    var s := Encode(b) + t;
    var u := if |s| % 4 == 0 then t else t + Padding(4 - |s| % 4);
    assert Repair(s) == Encode(b) + u;
    ScanEncodeThen(b, u);
  }

  lemma ScanForeign(c: char, t: string)
    requires !IsAlphabet(c) && c != '='
    ensures Scan([c] + t, 0, 0, 0) == Scan(t, 0, 0, 0)
  {
    assert ([c] + t)[1..] == t;
  }

  lemma {:induction false} ScanOnlyPadding(n: nat)
    ensures Scan(Padding(n), 0, 0, 0) == Bytes([])
  {
    if n > 0 {
      assert Padding(n)[1..] == Padding(n - 1);
      ScanOnlyPadding(n - 1);
    }
  }

  /** Two encodings of whole groups, with a foreign character between them, decode as one. */
  lemma ScanAcross(a: seq<byte>, c: char, b: seq<byte>, n: nat)
    requires |a| % 3 == 0 && |b| % 3 == 0 && !IsAlphabet(c) && c != '='
    ensures Scan(Encode(a) + ([c] + (Encode(b) + Padding(n))), 0, 0, 0) == Bytes(a + b)
  {
    ScanOnlyPadding(n);
    ScanEncodeThen(b, Padding(n));
    assert b + [] == b;
    ScanForeign(c, Encode(b) + Padding(n));
    ScanEncodeThen(a, [c] + (Encode(b) + Padding(n)));
  }

  predicate IsAscii(s: string) {
    forall i :: 0 <= i < |s| ==> s[i] as int < 128
  }

  lemma EncodeIsAscii(b: seq<byte>)
    ensures IsAscii(Encode(b))
  {
    EncodeShape(b);
  }

  lemma DecodeAcross(a: seq<byte>, c: char, b: seq<byte>)
    requires |a| % 3 == 0 && |b| % 3 == 0 && !IsAlphabet(c) && c != '=' && c as int < 128
    ensures Decode(Repair(Encode(a) + ([c] + Encode(b)))) == Bytes(a + b)
  {
    var s := Encode(a) + ([c] + Encode(b));
    var n := |Repair(s)| - |s|;
    assert Repair(s) == Encode(a) + ([c] + (Encode(b) + Padding(n)));
    EncodeIsAscii(a);
    EncodeIsAscii(b);
    assert IsAscii(Repair(s));
    ScanAcross(a, c, b, n);
  }
}
