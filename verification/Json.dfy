/** JSON objects (RFC 8259) as json.loads and json.dumps(..., ensure_ascii=False) treat them, for
    flat objects: every value is a string, an integer, a boolean or null. */
module Json {
  import Text


  datatype Value = Null | Bool(b: bool) | Int(n: int) | Str(s: string)
  datatype Field = Field(key: string, value: Value)
  type Object = seq<Field>

  // ---------------------------------------------------------------------------------------------
  // Ordered objects (a Python dict)
  // ---------------------------------------------------------------------------------------------

  datatype Lookup = Absent | Present(value: Value)

  /** data.get(key) */
  function Get(o: Object, key: string): Lookup {
    if o == [] then Absent
    else if o[0].key == key then Present(o[0].value)
    else Get(o[1..], key)
  }

  predicate HasKey(o: Object, key: string) {
    Get(o, key).Present?
  }

  predicate DistinctKeys(o: Object) {
    o == [] || (!HasKey(o[1..], o[0].key) && DistinctKeys(o[1..]))
  }

  /** data[key] = value: an existing key keeps its place, a new one goes to the end. */
  function Put(o: Object, key: string, value: Value): Object {
    if o == [] then [Field(key, value)]
    else if o[0].key == key then [Field(key, value)] + o[1..]
    else [o[0]] + Put(o[1..], key, value)
  }

  /** Exactly the named field changes. */
  lemma {:induction false} GetAfterPut(o: Object, key: string, value: Value, k: string)
    ensures Get(Put(o, key, value), k) == if k == key then Present(value) else Get(o, k)
  {
    if o != [] && o[0].key != key { GetAfterPut(o[1..], key, value, k); }
  }

  /** Assigning what is there changes nothing, and nothing else does. */
  lemma {:induction false} PutSame(o: Object, key: string, value: Value)
    ensures Put(o, key, value) == o <==> Get(o, key) == Present(value)
  {
    if o != [] {
      PutSame(o[1..], key, value);
      assert o == [o[0]] + o[1..];
    }
  }

  lemma {:induction false} PutKeepsDistinct(o: Object, key: string, value: Value)
    requires DistinctKeys(o)
    ensures DistinctKeys(Put(o, key, value))
  {
    if o != [] && o[0].key != key {
      PutKeepsDistinct(o[1..], key, value);
      GetAfterPut(o[1..], key, value, o[0].key);
    }
  }

  lemma {:induction false} PutTwice(o: Object, key: string, a: Value, b: Value)
    ensures Put(Put(o, key, a), key, b) == Put(o, key, b)
  {
    if o != [] && o[0].key != key { PutTwice(o[1..], key, a, b); }
  }

  lemma {:induction false} PutAbsent(o: Object, key: string, value: Value)
    requires !HasKey(o, key)
    ensures Put(o, key, value) == o + [Field(key, value)]
  {
    if o != [] { PutAbsent(o[1..], key, value); }
  }

  lemma {:induction false} PutsCommuteIf(o: Object, k1: string, v1: Value, k2: string, v2: Value)
    requires k1 != k2 && (HasKey(o, k1) || HasKey(o, k2))
    ensures Put(Put(o, k1, v1), k2, v2) == Put(Put(o, k2, v2), k1, v1)
  {
    if o[0].key != k1 && o[0].key != k2 { PutsCommuteIf(o[1..], k1, v1, k2, v2); }
  }

  /** Two assignments to different keys commute, order of fields included, exactly when at least one
      of the keys was there before. */
  lemma PutsCommute(o: Object, k1: string, v1: Value, k2: string, v2: Value)
    requires k1 != k2
    ensures Put(Put(o, k1, v1), k2, v2) == Put(Put(o, k2, v2), k1, v1) <==> HasKey(o, k1) || HasKey(o, k2)
  {
    if HasKey(o, k1) || HasKey(o, k2) {
      PutsCommuteIf(o, k1, v1, k2, v2);
    } else {
      GetAfterPut(o, k1, v1, k2);
      GetAfterPut(o, k2, v2, k1);
      PutAbsent(o, k1, v1);
      PutAbsent(o, k2, v2);
      PutAbsent(o + [Field(k1, v1)], k2, v2);
      PutAbsent(o + [Field(k2, v2)], k1, v1);
      assert Put(Put(o, k1, v1), k2, v2)[|o|].key == k1;
      assert Put(Put(o, k2, v2), k1, v1)[|o|].key == k2;
    }
  }

  // ---------------------------------------------------------------------------------------------
  // Writing
  // ---------------------------------------------------------------------------------------------

  function HexDigit(n: nat): char
    requires n < 16
  {
    if n < 10 then (48 + n) as char else (87 + n) as char
  }

  /** The escapes of json.dumps with ensure_ascii=False; everything else is written as it is. */
  function EscapeChar(c: char): (e: string)
    ensures e != []
  {
    if c == '"' then "\\\"" else if c == '\\' then "\\\\"
    else if c == '\n' then "\\n" else if c == '\r' then "\\r" else if c == '\t' then "\\t"
    else if c == '\U{8}' then "\\b" else if c == '\U{C}' then "\\f"
    else if c < ' ' then "\\u00" + [HexDigit(c as int / 16), HexDigit(c as int % 16)]
    else [c]
  }

  function Escape(s: string): string {
    if s == [] then [] else EscapeChar(s[0]) + Escape(s[1..])
  }

  function Quote(s: string): string {
    "\"" + Escape(s) + "\""
  }

  function Digits(n: nat): (d: string)
    ensures d != []
  {
    if n < 10 then [(48 + n) as char] else Digits(n / 10) + [(48 + n % 10) as char]
  }

  function DumpValue(v: Value): string {
    match v
    case Null => "null"
    case Bool(b) => if b then "true" else "false"
    case Int(n) => if n < 0 then "-" + Digits(-n) else Digits(n)
    case Str(s) => Quote(s)
  }

  function DumpField(f: Field): string {
    Quote(f.key) + (": " + DumpValue(f.value))
  }

  function DumpFields(o: Object): string {
    if o == [] then []
    else if |o| == 1 then DumpField(o[0])
    else DumpField(o[0]) + (", " + DumpFields(o[1..]))
  }

  /** json.dumps(data, ensure_ascii=False) */
  function Dump(o: Object): string {
    "{" + DumpFields(o) + "}"
  }

  // ---------------------------------------------------------------------------------------------
  // Reading
  // ---------------------------------------------------------------------------------------------

  /** A parser consumes a prefix and returns the rest, or fails. */
  datatype Parsed<T> = Fail | Ok(value: T, rest: string)

  function SkipSpace(s: string): (r: string)
    ensures |r| <= |s|
  {
    if s != [] && s[0] in " \t\n\r" then SkipSpace(s[1..]) else s
  }

  function HexValue(c: char): int {
    if '0' <= c <= '9' then c as int - 48
    else if 'a' <= c <= 'f' then c as int - 87
    else if 'A' <= c <= 'F' then c as int - 55
    else -1
  }

  /** Four hexadecimal digits, or -1. */
  function Hex4(s: string): (n: int)
    ensures -1 <= n < 0x10000
  {
    if |s| < 4 || HexValue(s[0]) < 0 || HexValue(s[1]) < 0 || HexValue(s[2]) < 0 || HexValue(s[3]) < 0 then -1
    else HexValue(s[0]) * 4096 + HexValue(s[1]) * 256 + HexValue(s[2]) * 16 + HexValue(s[3])
  }

  /** What follows a backslash. */
  function ParseEscape(s: string): (p: Parsed<char>)
    ensures p.Ok? ==> |p.rest| < |s|
  {
    if s == [] then Fail
    else if s[0] == '"' || s[0] == '\\' || s[0] == '/' then Ok(s[0], s[1..])
    else if s[0] == 'b' then Ok('\U{8}', s[1..])
    else if s[0] == 'f' then Ok('\U{C}', s[1..])
    else if s[0] == 'n' then Ok('\n', s[1..])
    else if s[0] == 'r' then Ok('\r', s[1..])
    else if s[0] == 't' then Ok('\t', s[1..])
    else if s[0] == 'u' && Hex4(s[1..]) >= 0 then
      var n := Hex4(s[1..]);
      if !(0xD800 <= n < 0xE000) then Ok(n as char, s[5..])
      else if n < 0xDC00 && |s| >= 11 && s[5] == '\\' && s[6] == 'u' && 0xDC00 <= Hex4(s[7..]) < 0xE000 then
        Ok((0x10000 + (n - 0xD800) * 1024 + (Hex4(s[7..]) - 0xDC00)) as char, s[11..])
      else Fail
    else Fail
  }

  /** The characters of a string up to and including the closing quote. */
  function ParseChars(s: string): (p: Parsed<string>)
    ensures p.Ok? ==> |p.rest| < |s|
    decreases |s|
  {
    if s == [] || s[0] < ' ' then Fail
    else if s[0] == '"' then Ok([], s[1..])
    else if s[0] == '\\' then
      match ParseEscape(s[1..])
      case Fail => Fail
      case Ok(c, rest) => Prepend(c, ParseChars(rest))
    else Prepend(s[0], ParseChars(s[1..]))
  }

  function Prepend(c: char, p: Parsed<string>): Parsed<string> {
    match p
    case Fail => Fail
    case Ok(s, rest) => Ok([c] + s, rest)
  }

  predicate IsDigit(c: char) {
    '0' <= c <= '9'
  }

  function DigitRun(s: string): (n: nat)
    ensures n <= |s| && forall i :: 0 <= i < n ==> IsDigit(s[i])
  {
    if s != [] && IsDigit(s[0]) then 1 + DigitRun(s[1..]) else 0
  }

  function DigitOf(c: char): nat
    requires IsDigit(c)
  {
    c as int - 48
  }

  function NatOf(d: string): nat
    requires forall i :: 0 <= i < |d| ==> IsDigit(d[i])
  {
    if d == [] then 0 else NatOf(d[..|d| - 1]) * 10 + DigitOf(d[|d| - 1])
  }

  /** 0 | [1-9][0-9]* */
  function ParseNat(s: string): (p: Parsed<nat>)
    ensures p.Ok? ==> |p.rest| < |s|
  {
    if s == [] || !IsDigit(s[0]) then Fail
    else if s[0] == '0' then Ok(0, s[1..])
    else Ok(NatOf(s[..DigitRun(s)]), s[DigitRun(s)..])
  }

  function ParseValue(s: string): (p: Parsed<Value>)
    ensures p.Ok? ==> |p.rest| < |s|
  {
    if s == [] then Fail
    else if s[0] == '"' then
      (match ParseChars(s[1..])
       case Fail => Fail
       case Ok(t, rest) => Ok(Str(t), rest))
    else if s[0] == '-' then
      (match ParseNat(s[1..])
       case Fail => Fail
       case Ok(n, rest) => Ok(Int(-(n as int)), rest))
    else if "null" <= s then Ok(Null, s[4..])
    else if "true" <= s then Ok(Bool(true), s[4..])
    else if "false" <= s then Ok(Bool(false), s[5..])
    else
      match ParseNat(s)
      case Fail => Fail
      case Ok(n, rest) => Ok(Int(n), rest)
  }

  /** ": value" after a key. */
  function ParseAfterKey(key: string, afterKey: string): (p: Parsed<Field>)
    ensures p.Ok? ==> |p.rest| < |afterKey|
  {
    var t := SkipSpace(afterKey);
    if t == [] || t[0] != ':' then Fail
    else match ParseValue(SkipSpace(t[1..]))
      case Fail => Fail
      case Ok(value, rest) => Ok(Field(key, value), SkipSpace(rest))
  }

  /** One "key": value. */
  function ParseField(s: string): (p: Parsed<Field>)
    ensures p.Ok? ==> |p.rest| < |s|
  {
    if s == [] || s[0] != '"' then Fail
    else match ParseChars(s[1..])
      case Fail => Fail
      case Ok(key, afterKey) => ParseAfterKey(key, afterKey)
  }

  /** The fields up to and including the closing brace; a repeated key overwrites. */
  function ParseFields(s: string, done: Object): (p: Parsed<Object>)
    decreases |s|
  {
    match ParseField(s)
    case Fail => Fail
    case Ok(f, rest) =>
      var o := Put(done, f.key, f.value);
      if rest == [] then Fail
      else if rest[0] == '}' then Ok(o, rest[1..])
      else if rest[0] == ',' then ParseFields(SkipSpace(rest[1..]), o)
      else Fail
  }

  datatype Loaded = Failure | Success(o: Object)

  /** json.loads, for a top-level object. */
  function Load(text: string): Loaded {
    var s := SkipSpace(text);
    if s == [] || s[0] != '{' then Failure
    else
      var t := SkipSpace(s[1..]);
      var p := if t != [] && t[0] == '}' then Ok([], t[1..]) else ParseFields(t, []);
      match p
      case Fail => Failure
      case Ok(o, rest) => if SkipSpace(rest) == [] then Success(o) else Failure
  }

  // ---------------------------------------------------------------------------------------------
  // Round trip
  // ---------------------------------------------------------------------------------------------

  lemma ParseEscapeOf(c: char, rest: string)
    requires |EscapeChar(c)| > 1
    ensures EscapeChar(c)[0] == '\\' && ParseEscape(EscapeChar(c)[1..] + rest) == Ok(c, rest)
  {
    var e := EscapeChar(c)[1..] + rest;
    if e[0] == 'u' {
      var n := c as int;
      assert e[1..] == ['0', '0', HexDigit(n / 16), HexDigit(n % 16)] + rest;
      assert HexValue(HexDigit(n / 16)) == n / 16 && HexValue(HexDigit(n % 16)) == n % 16;
      assert Hex4(e[1..]) == n;
    }
  }

  lemma ParseAfterBackslash(e: string, c: char, more: string)
    requires ParseEscape(e + more) == Ok(c, more)
    ensures ParseChars("\\" + (e + more)) == Prepend(c, ParseChars(more))
  {
    assert ("\\" + (e + more))[1..] == e + more;
  }

  lemma ParsePlainChar(c: char, more: string)
    requires EscapeChar(c) == [c]
    ensures ParseChars([c] + more) == Prepend(c, ParseChars(more))
  {
    assert ([c] + more)[1..] == more;
  }

  lemma ParseLongEscape(c: char, more: string)
    requires |EscapeChar(c)| > 1
    ensures ParseChars(EscapeChar(c) + more) == Prepend(c, ParseChars(more))
  {
    var e := EscapeChar(c);
    ParseEscapeOf(c, more);
    assert e + more == "\\" + (e[1..] + more);
    ParseAfterBackslash(e[1..], c, more);
  }

  lemma ParseEscapedChar(c: char, more: string)
    ensures ParseChars(EscapeChar(c) + more) == Prepend(c, ParseChars(more))
  {
    if |EscapeChar(c)| > 1 {
      ParseLongEscape(c, more);
    } else {
      assert EscapeChar(c) == [c];
      ParsePlainChar(c, more);
    }
  }

  lemma {:induction false} ParseCharsOfEscape(t: string, rest: string)
    ensures ParseChars(Escape(t) + "\"" + rest) == Ok(t, rest)
  {
    if t == [] {
      assert Escape(t) + "\"" + rest == "\"" + rest;
    } else {
      var more := Escape(t[1..]) + "\"" + rest;
      assert Escape(t) + "\"" + rest == EscapeChar(t[0]) + more;
      ParseEscapedChar(t[0], more);
      ParseCharsOfEscape(t[1..], rest);
      assert t == [t[0]] + t[1..];
    }
  }

  lemma ParseQuoted(t: string, rest: string)
    ensures (Quote(t) + rest)[0] == '"' && ParseChars((Quote(t) + rest)[1..]) == Ok(t, rest)
  {
    assert (Quote(t) + rest)[1..] == Escape(t) + "\"" + rest;
    ParseCharsOfEscape(t, rest);
  }

  lemma {:induction false} DigitsAreDigits(n: nat)
    ensures forall i :: 0 <= i < |Digits(n)| ==> IsDigit(Digits(n)[i])
    ensures NatOf(Digits(n)) == n
    ensures Digits(n)[0] == '0' ==> n == 0 && Digits(n) == "0"
  {
    if n >= 10 {
      DigitsAreDigits(n / 10);
      assert Digits(n)[..|Digits(n)| - 1] == Digits(n / 10);
    } else {
      assert Digits(n)[..0] == [];
    }
  }

  lemma {:induction false} DigitRunStops(d: string, rest: string)
    requires forall i :: 0 <= i < |d| ==> IsDigit(d[i])
    requires rest == [] || !IsDigit(rest[0])
    ensures DigitRun(d + rest) == |d|
  {
    if d == [] {
      assert d + rest == rest;
    } else {
      assert (d + rest)[0] == d[0] && (d + rest)[1..] == d[1..] + rest;
      DigitRunStops(d[1..], rest);
    }
  }

  lemma ParseNatOfDigits(n: nat, rest: string)
    requires rest == [] || !IsDigit(rest[0])
    ensures ParseNat(Digits(n) + rest) == Ok(n, rest)
  {
    DigitsAreDigits(n);
    DigitRunStops(Digits(n), rest);
    var s := Digits(n) + rest;
    assert s[0] == Digits(n)[0];
    assert s[..|Digits(n)|] == Digits(n) && s[|Digits(n)|..] == rest;
  }

  lemma DigitStartsNumber(s: string)
    requires s != [] && IsDigit(s[0])
    ensures ParseValue(s) == (match ParseNat(s) case Fail => Fail case Ok(n, rest) => Ok(Int(n), rest))
  {
    assert "null"[0] == 'n' && "true"[0] == 't' && "false"[0] == 'f';
  }

  lemma ParseMinus(s: string)
    ensures ParseValue("-" + s) == (match ParseNat(s) case Fail => Fail case Ok(n, rest) => Ok(Int(-(n as int)), rest))
  {
    assert ("-" + s)[1..] == s;
  }

  lemma ParseDumpedInt(n: int, rest: string)
    requires rest == [] || !IsDigit(rest[0])
    ensures ParseValue(DumpValue(Int(n)) + rest) == Ok(Int(n), rest)
  {
    if n < 0 {
      Text.Assoc("-", Digits(-n), rest);
      ParseMinus(Digits(-n) + rest);
      ParseNatOfDigits(-n, rest);
    } else {
      DigitsAreDigits(n);
      assert (Digits(n) + rest)[0] == Digits(n)[0];
      DigitStartsNumber(Digits(n) + rest);
      ParseNatOfDigits(n, rest);
    }
  }

  lemma ParseNull(rest: string)
    ensures ParseValue("null" + rest) == Ok(Null, rest)
  {
    assert ("null" + rest)[4..] == rest;
  }

  lemma ParseTrue(rest: string)
    ensures ParseValue("true" + rest) == Ok(Bool(true), rest)
  {
    assert ("true" + rest)[4..] == rest && "null"[0] == 'n';
  }

  lemma ParseFalse(rest: string)
    ensures ParseValue("false" + rest) == Ok(Bool(false), rest)
  {
    assert ("false" + rest)[5..] == rest && "null"[0] == 'n' && "true"[0] == 't';
  }

  lemma ParseDumpedValue(v: Value, rest: string)
    requires rest == [] || !IsDigit(rest[0])
    ensures ParseValue(DumpValue(v) + rest) == Ok(v, rest)
  {
    match v
    case Null => ParseNull(rest);
    case Bool(b) =>
      if b { ParseTrue(rest); } else { ParseFalse(rest); }
    case Int(n) => ParseDumpedInt(n, rest);
    case Str(s) => ParseQuoted(s, rest);
  }

  lemma DumpedValueStart(v: Value, rest: string)
    ensures SkipSpace(DumpValue(v) + rest) == DumpValue(v) + rest
  {
    match v {
      case Null =>
      case Bool(b) =>
      case Int(n) => if n >= 0 { DigitsAreDigits(n); }
      case Str(s) =>
    }
  }

  lemma SkipOneSpace(s: string)
    ensures SkipSpace(" " + s) == SkipSpace(s)
  {
    assert (" " + s)[1..] == s;
  }

  lemma ParseAfterColon(key: string, value: string)
    requires SkipSpace(value) == value
    ensures ParseAfterKey(key, ": " + value)
         == (match ParseValue(value) case Fail => Fail case Ok(v, rest) => Ok(Field(key, v), SkipSpace(rest)))
  {
    var t := ": " + value;
    assert t[0] == ':' && SkipSpace(t) == t;
    assert t[1..] == " " + value;
    SkipOneSpace(value);
    assert SkipSpace(t[1..]) == value;
  }

  lemma ParseDumpedField(f: Field, rest: string)
    requires rest != [] && (rest[0] == ',' || rest[0] == '}')
    ensures ParseField(DumpField(f) + rest) == Ok(f, rest)
  {
    var value := DumpValue(f.value) + rest;
    Text.Assoc(Quote(f.key), ": " + DumpValue(f.value), rest);
    Text.Assoc(": ", DumpValue(f.value), rest);
    ParseQuoted(f.key, ": " + value);
    DumpedValueStart(f.value, rest);
    ParseAfterColon(f.key, value);
    ParseDumpedValue(f.value, rest);
    assert SkipSpace(rest) == rest;
  }

  /** Assigning the fields one by one. */
  function PutAll(done: Object, o: Object): Object
    decreases |o|
  {
    if o == [] then done else PutAll(Put(done, o[0].key, o[0].value), o[1..])
  }

  lemma {:induction false} PutAllDistinct(done: Object, o: Object)
    requires DistinctKeys(o)
    requires forall i :: 0 <= i < |o| ==> !HasKey(done, o[i].key)
    ensures PutAll(done, o) == done + o
    decreases |o|
  {
    if o != [] {
      PutAbsent(done, o[0].key, o[0].value);
      var next := Put(done, o[0].key, o[0].value);
      forall i | 0 <= i < |o[1..]| ensures !HasKey(next, o[1..][i].key) {
        assert o[1..][i] == o[i + 1];
        if o[i + 1].key == o[0].key { KeyAt(o[1..], i); }
        GetAfterPut(done, o[0].key, o[0].value, o[i + 1].key);
      }
      PutAllDistinct(next, o[1..]);
    }
  }

  lemma {:induction false} KeyAt(o: Object, i: nat)
    requires i < |o|
    ensures HasKey(o, o[i].key)
  {
    if i > 0 { KeyAt(o[1..], i - 1); }
  }

  lemma DumpedFieldsStart(o: Object, rest: string)
    requires o != []
    ensures (DumpFields(o) + rest)[0] == '"'
    ensures SkipSpace(DumpFields(o) + rest) == DumpFields(o) + rest
  {
    assert DumpField(o[0])[0] == '"';
  }

  lemma AfterComma(tail: string)
    requires SkipSpace(tail) == tail
    ensures (", " + tail)[0] == ',' && SkipSpace((", " + tail)[1..]) == tail
  {
    assert (", " + tail)[1..] == " " + tail;
    SkipOneSpace(tail);
  }

  lemma ParseFieldsStep(f: Field, tail: string, done: Object)
    requires SkipSpace(tail) == tail
    ensures ParseFields(DumpField(f) + (", " + tail), done) == ParseFields(tail, Put(done, f.key, f.value))
  {
    ParseDumpedField(f, ", " + tail);
    AfterComma(tail);
  }

  lemma {:induction false} ParseDumpedFields(o: Object, done: Object, rest: string)
    requires o != []
    ensures ParseFields(DumpFields(o) + ("}" + rest), done) == Ok(PutAll(done, o), rest)
    decreases |o|
  {
    var next := Put(done, o[0].key, o[0].value);
    var close := "}" + rest;
    assert close[1..] == rest;
    assert PutAll(done, o) == PutAll(next, o[1..]);
    if |o| == 1 {
      ParseDumpedField(o[0], close);
      assert PutAll(next, o[1..]) == next;
    } else {
      var fields := DumpFields(o[1..]);
      Text.Assoc(DumpField(o[0]), ", " + fields, close);
      Text.Assoc(", ", fields, close);
      DumpedFieldsStart(o[1..], close);
      ParseFieldsStep(o[0], fields + close, done);
      ParseDumpedFields(o[1..], next, rest);
    }
  }

  lemma LoadObject(text: string)
    requires text != [] && text[0] == '{' && text[1..] != [] && text[1..][0] == '"'
    ensures Load(text) ==
      (match ParseFields(text[1..], [])
       case Fail => Failure
       case Ok(o, rest) => if SkipSpace(rest) == [] then Success(o) else Failure)
  {
  }

  lemma DumpTail(o: Object, rest: string)
    ensures (Dump(o) + rest)[0] == '{' && (Dump(o) + rest)[1..] == DumpFields(o) + ("}" + rest)
  {
  }

  /** Reading a written object with text behind it: only whitespace is allowed there. */
  lemma LoadThen(o: Object, rest: string)
    requires DistinctKeys(o)
    ensures Load(Dump(o) + rest) == if SkipSpace(rest) == [] then Success(o) else Failure
  {
    DumpTail(o, rest);
    if o == [] {
      LoadEmpty(rest);
    } else {
      DumpedFieldsStart(o, "}" + rest);
      LoadObject(Dump(o) + rest);
      ParseDumpedFields(o, [], rest);
      PutAllDistinct([], o);
    }
  }

  lemma LoadEmpty(rest: string)
    ensures Load(Dump([]) + rest) == if SkipSpace(rest) == [] then Success([]) else Failure
  {
    var s := Dump([]) + rest;
    assert s[1..] == "}" + rest && ("}" + rest)[1..] == rest;
    assert SkipSpace(s) == s && SkipSpace(s[1..]) == s[1..];
  }

  /** What was written is read back, field order included. */
  lemma RoundTrip(o: Object)
    requires DistinctKeys(o)
    ensures Load(Dump(o)) == Success(o)
  {
    LoadThen(o, []);
    assert Dump(o) + [] == Dump(o);
  }

  lemma {:induction false} ParsedFieldsDistinct(s: string, done: Object)
    requires DistinctKeys(done)
    ensures ParseFields(s, done).Ok? ==> DistinctKeys(ParseFields(s, done).value)
    decreases |s|
  {
    var p := ParseField(s);
    if p.Ok? {
      PutKeepsDistinct(done, p.value.key, p.value.value);
      if p.rest != [] && p.rest[0] == ',' {
        ParsedFieldsDistinct(SkipSpace(p.rest[1..]), Put(done, p.value.key, p.value.value));
      }
    }
  }

  /** A loaded object has no repeated keys, so writing and reading it again changes nothing. */
  lemma LoadedIsDistinct(text: string)
    ensures Load(text).Success? ==> DistinctKeys(Load(text).o)
  {
    var s := SkipSpace(text);
    if s != [] { ParsedFieldsDistinct(SkipSpace(s[1..]), []); }
  }
}
