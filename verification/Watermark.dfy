/** The channel watermark (processor/parser.py, inject_watermark).

    The watermark text is arbitrary here; the source builds it from a flag and the channel name. */
module Watermark {
  import opened Text
  import opened Regex
  import opened ConfigPattern
  import opened Extraction
  import opened ConfigUtils
  import opened HostPattern
  import Utf8
  import Base64
  import Dedup
  import IpManager
  import Json
  import PortPattern
  import Vmess

  // ---------------------------------------------------------------------------------------------
  // Percent-encoding (RFC 3986, sections 2.1 and 2.3)
  // ---------------------------------------------------------------------------------------------

  predicate IsUnreserved(b: Utf8.byte) {
    var c := b as char;
    'A' <= c <= 'Z' || 'a' <= c <= 'z' || '0' <= c <= '9' || c == '-' || c == '.' || c == '_' || c == '~'
  }

  function UpperHex(n: nat): char
    requires n < 16
  {
    if n < 10 then (48 + n) as char else (55 + n) as char
  }

  function QuoteByte(b: Utf8.byte): (q: string)
    ensures q != []
  {
    if IsUnreserved(b) then [b as char] else ['%', UpperHex(b / 16), UpperHex(b % 16)]
  }

  function QuoteBytes(b: seq<Utf8.byte>): string {
    if b == [] then [] else QuoteByte(b[0]) + QuoteBytes(b[1..])
  }

  /** urllib.parse.quote(text, safe="") */
  function Quote(text: string): string {
    QuoteBytes(Utf8.Encode(text))
  }

  function FromUpperHex(c: char): nat
    requires '0' <= c <= '9' || 'A' <= c <= 'F'
    ensures FromUpperHex(c) < 16
  {
    if c <= '9' then c as int - 48 else c as int - 55
  }

  predicate IsUpperHex(c: char) {
    '0' <= c <= '9' || 'A' <= c <= 'F'
  }

  /** Reading a percent-encoded remark back, byte by byte. */
  function Unquote(q: string): seq<Utf8.byte>
    requires forall i :: 0 <= i < |q| ==> q[i] as int < 256
  {
    if q == [] then []
    else if q[0] == '%' && |q| >= 3 && IsUpperHex(q[1]) && IsUpperHex(q[2]) then
      [FromUpperHex(q[1]) * 16 + FromUpperHex(q[2])] + Unquote(q[3..])
    else [q[0] as int] + Unquote(q[1..])
  }

  /** Characters that a quoted text is made of. */
  predicate IsQuoted(q: string) {
    forall i :: 0 <= i < |q| ==> q[i] as int < 128 && !IsSpace(q[i]) && q[i] !in "#@:"
  }

  lemma QuotedByte(b: Utf8.byte)
    ensures IsQuoted(QuoteByte(b))
  {
  }

  lemma {:induction false} QuotedBytes(b: seq<Utf8.byte>)
    ensures IsQuoted(QuoteBytes(b))
  {
    if b != [] {
      QuotedByte(b[0]);
      QuotedBytes(b[1..]);
    }
  }

  lemma UnquoteByte(b: Utf8.byte, rest: string)
    requires IsQuoted(rest)
    ensures IsQuoted(QuoteByte(b) + rest)
    ensures Unquote(QuoteByte(b) + rest) == [b] + Unquote(rest)
  {
    QuotedByte(b);
    var q := QuoteByte(b) + rest;
    if IsUnreserved(b) {
      assert q[1..] == rest;
    } else {
      assert q[0] == '%' && q[1] == UpperHex(b / 16) && q[2] == UpperHex(b % 16) && q[3..] == rest;
    }
  }

  lemma {:induction false} UnquoteBytes(b: seq<Utf8.byte>)
    ensures IsQuoted(QuoteBytes(b)) && Unquote(QuoteBytes(b)) == b
  {
    QuotedBytes(b);
    if b != [] {
      UnquoteBytes(b[1..]);
      UnquoteByte(b[0], QuoteBytes(b[1..]));
      assert b == [b[0]] + b[1..];
    }
  }

  /** The remark a client shows is the watermark that was put in. */
  lemma QuoteRoundTrip(text: string)
    ensures IsQuoted(Quote(text))
    ensures Utf8.Decode(Unquote(Quote(text))) == Utf8.Decoded(text)
  {
    UnquoteBytes(Utf8.Encode(text));
    Utf8.RoundTrip(text);
  }

  // ---------------------------------------------------------------------------------------------
  // The watermark
  // ---------------------------------------------------------------------------------------------

  function WithRemark(config: string, watermark: string): string {
    Dedup.Key(config) + "#" + Quote(watermark)
  }

  /** inject_watermark; a vmess link that does not decode gets a remark like all others. */
  function Inject(config: string, watermark: string): string {
    if VMESS <= config then
      match Vmess.DecodeStrict(config)
      case Failure => WithRemark(config, watermark)
      case Success(o) => Vmess.Encode(Json.Put(o, "ps", Json.Str(watermark)))
    else WithRemark(config, watermark)
  }

  /** The config gets its watermark as a remark. */
  predicate TakesRemark(config: string) {
    VMESS <= config ==> Vmess.DecodeStrict(config).Failure?
  }

  lemma KeyIsTrimmed(config: string)
    ensures Trimmed(Dedup.Key(config)) && '#' !in Dedup.Key(config)
  {
    StripTrims(BeforeHash(config));
    IpManager.KeyHasNoHash(config);
  }

  /** A remark never changes what the dedup hash looks at. */
  lemma RemarkKeepsKey(config: string, watermark: string)
    ensures Dedup.Key(WithRemark(config, watermark)) == Dedup.Key(config)
  {
    KeyIsTrimmed(config);
    AfterHashAppend(Dedup.Key(config), Quote(watermark));
    TrimmedIsFixed(Dedup.Key(config));
  }

  lemma KeyOfConfig(c: string)
    requires IsConfig(c)
    ensures Dedup.Key(c) == BeforeHash(c)
  {
    ConfigHasNoSpace(c);
    assert NoSpace(BeforeHash(c));
    LStripKeepsNoSpace(BeforeHash(c));
  }

  /** What is left of a remark-free part when a '#' follows: everything if there is no '#'. */
  lemma BeforeHashOf(front: string, tail: string)
    requires '#' !in front
    requires tail == [] || tail[0] == '#'
    ensures BeforeHash(front + tail) == front
  {
    BeforeHashAppend(front, tail);
    assert front + [] == front;
  }

  /** A '#' and a remark without whitespace. */
  predicate IsRemark(r: string) {
    r != [] && r[0] == '#' && NoSpace(r)
  }

  lemma UriRemarkIsConfig(scheme: string, rest: string, r: string)
    requires scheme == VLESS || scheme == TROJAN
    requires NoSpace(rest) && IsRemark(r)
    ensures IsConfig(BeforeHash(scheme + rest) + r)
  {
    assert '#' !in scheme;
    BeforeHashAppend(scheme, rest);
    Assoc(scheme, BeforeHash(rest), r);
    WordIsConfig(scheme, BeforeHash(rest) + r);
  }

  /** A key of Base64 characters. */
  predicate IsKey(key: string) {
    key != [] && Run(Base64ish, key) == |key|
  }

  lemma KeyHasNoHash(key: string)
    requires IsKey(key)
    ensures '#' !in key
  {
  }

  lemma KeyOf(s: string)
    requires Run(Base64ish, s) > 0
    ensures IsKey(s[..Run(Base64ish, s)])
  {
    RunOfAll(Base64ish, s[..Run(Base64ish, s)]);
  }

  lemma KeyedIsScanned(key: string, r: string)
    requires IsKey(key) && IsRemark(r)
    ensures ScanVmess(key + r) == Length(|key + r|) == ScanSs(key + r)
  {
    RunSplit(Base64ish, key, r);
    assert (key + r)[|key|] == '#' && (key + r)[|key| + 1..] == r[1..];
    RunOfAll(NonSpace, r[1..]);
  }

  lemma KeyedAtIsScanned(key: string, word: string)
    requires IsKey(key) && word != [] && NoSpace(word)
    ensures ScanSs(key + ("@" + word)) == Length(|key| + 1 + |word|)
  {
    var t := "@" + word;
    RunSplit(Base64ish, key, t);
    assert (key + t)[|key|] == '@' && (key + t)[|key| + 1..] == word;
    RunOfAll(NonSpace, word);
  }

  lemma SchemeIsConfig(scheme: string, t: string)
    requires scheme == VMESS || scheme == SS
    requires if scheme == VMESS then ScanVmess(t) == Length(|t|) else ScanSs(t) == Length(|t|)
    ensures IsConfig(scheme + t)
  {
    PrefixesExclude(scheme + t);
    assert (scheme + t)[|scheme|..] == t;
  }

  /** "vmess://" or "ss://" and a key, followed by nothing or an old remark. */
  lemma KeyedRemarkIsConfig(scheme: string, key: string, previous: string, r: string)
    requires scheme == VMESS || scheme == SS
    requires IsKey(key) && (previous == [] || previous[0] == '#') && IsRemark(r)
    ensures IsConfig(BeforeHash(scheme + key + previous) + r)
  {
    KeyHasNoHash(key);
    assert '#' !in scheme + key;
    BeforeHashOf(scheme + key, previous);
    Assoc(scheme, key, r);
    KeyedIsScanned(key, r);
    SchemeIsConfig(scheme, key + r);
  }

  lemma AtRemarkIsConfig(key: string, rest: string, r: string)
    requires IsKey(key) && NoSpace(rest) && IsRemark(r)
    ensures IsConfig(BeforeHash(SS + key + ("@" + rest)) + r)
  {
    KeyHasNoHash(key);
    var front, word := SS + key + "@", BeforeHash(rest) + r;
    AtFrontHasNoHash(key);
    Assoc(SS + key, "@", rest);
    BeforeHashAppend(front, rest);
    Assoc(front, BeforeHash(rest), r);
    Assoc(SS + key, "@", word);
    Assoc(SS, key, "@" + word);
    assert NoSpace(BeforeHash(rest));
    KeyedAtIsScanned(key, word);
    SchemeIsConfig(SS, key + ("@" + word));
  }

  lemma AtFrontHasNoHash(key: string)
    requires '#' !in key
    ensures '#' !in SS + key + "@"
  {
  }

  lemma Parts(scheme: string, c: string) returns (key: string, tail: string)
    requires scheme == VMESS || scheme == SS
    requires IsConfig(c) && scheme <= c
    ensures c == scheme + key + tail && IsKey(key) && NoSpace(tail)
    ensures tail == [] || tail[0] == '#' || (scheme == SS && tail[0] == '@')
  {
    ConfigHasNoSpace(c);
    var rest := c[|scheme|..];
    var n := Run(Base64ish, rest);
    ScannedRest(scheme, c);
    KeyOf(rest);
    assert NoSpace(rest);
    key, tail := SplitRest(scheme, c, rest, n);
  }

  lemma SplitRest(scheme: string, c: string, rest: string, n: nat) returns (key: string, tail: string)
    requires scheme <= c && rest == c[|scheme|..] && n <= |rest| && NoSpace(rest)
    ensures c == scheme + key + tail && key == rest[..n] && NoSpace(tail)
    ensures |tail| == |rest| - n && (tail != [] ==> tail[0] == rest[n])
  {
    key, tail := rest[..n], rest[n..];
    assert rest == key + tail;
    Assoc(scheme, key, tail);
  }

  /** What follows the key in a config. */
  lemma ScannedRest(scheme: string, c: string)
    requires scheme == VMESS || scheme == SS
    requires IsConfig(c) && scheme <= c
    ensures var rest := c[|scheme|..];
            var n := Run(Base64ish, rest);
            0 < n <= |rest| && (n < |rest| ==> IsSpace(rest[n]) || rest[n] == '#' || (scheme == SS && rest[n] == '@'))
  {
    PrefixesExclude(c);
  }

  lemma SchemedRemarkIsConfig(scheme: string, c: string, r: string)
    requires scheme == VMESS || scheme == SS
    requires IsConfig(c) && scheme <= c && IsRemark(r)
    ensures IsConfig(BeforeHash(c) + r)
  {
    var key, tail := Parts(scheme, c);
    if scheme == SS && tail != [] && tail[0] == '@' {
      assert tail == "@" + tail[1..];
      AtRemarkIsConfig(key, tail[1..], r);
    } else {
      KeyedRemarkIsConfig(scheme, key, tail, r);
    }
  }

  lemma RemarkedIsConfig(c: string, r: string)
    requires IsConfig(c) && IsRemark(r)
    ensures IsConfig(BeforeHash(c) + r)
  {
    ConfigHasNoSpace(c);
    if VMESS <= c {
      SchemedRemarkIsConfig(VMESS, c, r);
    } else if VLESS <= c {
      assert c == VLESS + c[8..];
      UriRemarkIsConfig(VLESS, c[8..], r);
    } else if TROJAN <= c {
      assert c == TROJAN + c[9..];
      UriRemarkIsConfig(TROJAN, c[9..], r);
    } else {
      SchemedRemarkIsConfig(SS, c, r);
    }
  }

  lemma RemarkIsConfig(c: string, watermark: string)
    requires IsConfig(c)
    ensures IsConfig(WithRemark(c, watermark))
  {
    KeyOfConfig(c);
    QuotedBytes(Utf8.Encode(watermark));
    var r := "#" + Quote(watermark);
    Assoc(BeforeHash(c), "#", Quote(watermark));
    RemarkedIsConfig(c, r);
  }

  lemma EncodedIsConfig(o: Json.Object)
    ensures IsConfig(Vmess.Encode(o))
  {
    var bytes := Utf8.Encode(Json.Dump(o));
    var e := Base64.Encode(bytes);
    Utf8.EncodeNonEmpty(Json.Dump(o));
    Base64.EncodeShape(bytes);
    RunOfAll(Base64ish, e);
    assert Vmess.Encode(o)[8..] == e;
  }

  lemma ConfigIsKnown(c: string)
    requires IsConfig(c)
    ensures DetectProtocol(c) != Unknown
  {
    if VMESS <= c { SchemeIsKnown(VMESS, c); } else { UriHasProtocol(c); }
  }

  /** Watermarking is closed under extraction: a watermarked config is again a config, so it has no
      whitespace and a known protocol. */
  lemma WatermarkedIsConfig(c: string, watermark: string)
    requires IsConfig(c)
    ensures IsConfig(Inject(c, watermark))
    ensures NoSpace(Inject(c, watermark))
    ensures DetectProtocol(Inject(c, watermark)) != Unknown
  {
    if TakesRemark(c) {
      RemarkIsConfig(c, watermark);
    } else {
      EncodedIsConfig(Json.Put(Vmess.DecodeStrict(c).o, "ps", Json.Str(watermark)));
    }
    ConfigHasNoSpace(Inject(c, watermark));
    ConfigIsKnown(Inject(c, watermark));
  }

  /** ... and an export of watermarked configs is read back whole, in order. */
  lemma {:induction false} ExportIsReadBack(configs: seq<string>, watermarks: seq<string>)
    requires |configs| == |watermarks| && forall i :: 0 <= i < |configs| ==> IsConfig(configs[i])
    ensures var out := seq(|configs|, i requires 0 <= i < |configs| => Inject(configs[i], watermarks[i]));
            Extract(JoinLines(out)) == out
  {
    var out := seq(|configs|, i requires 0 <= i < |configs| => Inject(configs[i], watermarks[i]));
    forall i | 0 <= i < |out| ensures IsConfig(out[i]) {
      WatermarkedIsConfig(configs[i], watermarks[i]);
    }
    ExtractOfJoin(out);
  }

  /** Where the watermark is a remark the dedup hash stays the same. */
  lemma WatermarkKeepsHash(md5: string -> string, c: string, watermark: string)
    requires TakesRemark(c)
    ensures Dedup.Hash(md5, Inject(c, watermark)) == Dedup.Hash(md5, c)
  {
    RemarkKeepsKey(c, watermark);
  }

  lemma EncodedIsItsKey(o: Json.Object)
    ensures Dedup.Key(Vmess.Encode(o)) == Vmess.Encode(o)
  {
    var e := Vmess.Encode(o);
    Vmess.EncodedIsStripped(o);
    Base64.EncodeShape(Utf8.Encode(Json.Dump(o)));
    forall i | 0 <= i < |e| ensures e[i] != '#' {
      if i < |VMESS| { assert e[i] == VMESS[i]; }
      else { assert e[i] == Base64.Encode(Utf8.Encode(Json.Dump(o)))[i - |VMESS|]; }
    }
    BeforeHashFixed(e);
  }

  lemma KeyBegins(c: string)
    requires VMESS <= c
    ensures Dedup.Key(c) <= c
  {
    assert c == VMESS + c[|VMESS|..];
    BeforeHashAppend(VMESS, c[|VMESS|..]);
    assert BeforeHash(c)[0] == 'v' && !IsSpace('v');
  }

  /** The key of a decodable vmess link already is what the link decodes to, with this watermark. */
  predicate HasThisMark(c: string, watermark: string)
    requires !TakesRemark(c)
  {
    var o := Vmess.DecodeStrict(c).o;
    Dedup.Key(c) == Vmess.Encode(o) && Json.Get(o, "ps") == Json.Present(Json.Str(watermark))
  }

  /** ... and only there, unless the link has this very watermark: any other decodable vmess link gets a
      new key. */
  lemma WatermarkKeepsKeyIff(c: string, watermark: string)
    ensures Dedup.Key(Inject(c, watermark)) == Dedup.Key(c) <==> TakesRemark(c) || HasThisMark(c, watermark)
  {
    if TakesRemark(c) {
      RemarkKeepsKey(c, watermark);
    } else {
      var o := Vmess.DecodeStrict(c).o;
      var next := Json.Put(o, "ps", Json.Str(watermark));
      EncodedIsItsKey(next);
      Json.PutSame(o, "ps", Json.Str(watermark));
      if Dedup.Key(c) == Vmess.Encode(next) {
        KeyBegins(c);
        Vmess.StrictIsDistinct(c);
        Json.PutKeepsDistinct(o, "ps", Json.Str(watermark));
        Vmess.DecodeStartsWith(next, c);
      }
    }
  }

  /** A link without "ps" is such a link, for every watermark. */
  lemma KeyChangesWithoutPs(o: Json.Object, watermark: string)
    requires Json.DistinctKeys(o) && !Json.HasKey(o, "ps")
    ensures Dedup.Key(Inject(Vmess.Encode(o), watermark)) != Dedup.Key(Vmess.Encode(o))
  {
    Vmess.RoundTrip(o);
    WatermarkKeepsKeyIff(Vmess.Encode(o), watermark);
  }

  const ADD_ONLY := [Json.Field("add", Json.Str("1.2.3.4"))]

  lemma AddOnlyHasNoPs()
    ensures Json.DistinctKeys(ADD_ONLY) && !Json.HasKey(ADD_ONLY, "ps")
  {
    assert ADD_ONLY[1..] == [] && "add"[0] != "ps"[0];
  }

  lemma KeyChangesExample(watermark: string)
    ensures var link := Vmess.Encode(ADD_ONLY); Dedup.Key(Inject(link, watermark)) != Dedup.Key(link)
  {
    AddOnlyHasNoPs();
    KeyChangesWithoutPs(ADD_ONLY, watermark);
  }

  // ---------------------------------------------------------------------------------------------
  // What the watermark leaves alone
  // ---------------------------------------------------------------------------------------------

  lemma OtherFieldsKept(config: string, watermark: string, k: string)
    requires VMESS <= config && Vmess.DecodeStrict(config).Success? && k != "ps"
    ensures VMESS <= Inject(config, watermark)
    ensures FieldOf(Vmess.DecodeLenient(Inject(config, watermark)), k) == FieldOf(Vmess.DecodeLenient(config), k)
  {
    FieldsAfterPut(config, "ps", Json.Str(watermark), k);
  }

  lemma WatermarkedVmessReads(config: string, watermark: string)
    requires VMESS <= config && Strip(config) == config && Vmess.DecodeStrict(config).Success?
    ensures ExtractHost(Inject(config, watermark)) == ExtractHost(config)
  {
    Vmess.EncodedIsStripped(Json.Put(Vmess.DecodeStrict(config).o, "ps", Json.Str(watermark)));
    VmessHost(config);
    VmessHost(Inject(config, watermark));
    assert "add"[0] != "ps"[0];
    OtherFieldsKept(config, watermark, "add");
  }

  lemma WatermarkedVmessPort(config: string, watermark: string)
    requires VMESS <= config && Vmess.DecodeStrict(config).Success?
    ensures VMESS <= Inject(config, watermark)
    ensures ExtractVmessPort(Inject(config, watermark)) == ExtractVmessPort(config)
  {
    assert "port"[1] != "ps"[1];
    OtherFieldsKept(config, watermark, "port");
  }

  /** On a decodable vmess link exactly "ps" changes: the server and the port stay. */
  lemma WatermarkedVmess(config: string, watermark: string)
    requires VMESS <= config && Strip(config) == config && Vmess.DecodeStrict(config).Success?
    ensures var r := Inject(config, watermark);
            && VMESS <= r
            && Vmess.DecodeStrict(r) == Json.Success(Json.Put(Vmess.DecodeStrict(config).o, "ps", Json.Str(watermark)))
            && ExtractHost(r) == ExtractHost(config)
            && ExtractVmessPort(r) == ExtractVmessPort(config)
  {
    Vmess.PutRoundTrip(config, "ps", Json.Str(watermark));
    WatermarkedVmessReads(config, watermark);
    WatermarkedVmessPort(config, watermark);
  }

  lemma WatermarkedVmessKeepsFields(config: string, watermark: string, key: string)
    requires VMESS <= config && Vmess.DecodeStrict(config).Success?
    requires key != "ps"
    ensures var r := Inject(config, watermark);
            && VMESS <= r && Vmess.DecodeStrict(r).Success?
            && Json.Get(Vmess.DecodeStrict(r).o, key) == Json.Get(Vmess.DecodeStrict(config).o, key)
  {
    Vmess.PutRoundTrip(config, "ps", Json.Str(watermark));
    Json.GetAfterPut(Vmess.DecodeStrict(config).o, "ps", Json.Str(watermark), key);
  }

  /** The last watermark wins on vmess links, byte for byte. */
  lemma LastWatermarkWins(config: string, a: string, b: string)
    requires VMESS <= config && Vmess.DecodeStrict(config).Success?
    ensures Inject(Inject(config, a), b) == Inject(config, b)
  {
    Vmess.PutRoundTrip(config, "ps", Json.Str(a));
    Json.PutTwice(Vmess.DecodeStrict(config).o, "ps", Json.Str(a), Json.Str(b));
  }

  lemma SchemeIsInKey(key: string, q: string)
    ensures VMESS <= key + ("#" + q) ==> VMESS <= key
  {
    assert (key + ("#" + q))[|key|] == '#';
  }

  lemma KeyIsPrefix(c: string)
    requires Trimmed(c)
    ensures Dedup.Key(c) <= c
  {
    if BeforeHash(c) != [] { assert !IsSpace(BeforeHash(c)[0]); }
  }

  lemma EncodedHasNoRemark(o: Json.Object)
    ensures '#' !in Vmess.Encode(o)
  {
    EncodedIsItsKey(o);
    KeyIsTrimmed(Vmess.Encode(o));
  }

  /** Where the first watermark is a remark, the second replaces it exactly when it is a remark as well,
      that is, unless the first one made a vmess link decodable. */
  lemma LastRemarkWinsIff(config: string, a: string, b: string)
    requires TakesRemark(config)
    ensures Inject(Inject(config, a), b) == Inject(config, b) <==> TakesRemark(WithRemark(config, a))
  {
    RemarkKeepsKey(config, a);
    if !TakesRemark(WithRemark(config, a)) {
      EncodedHasNoRemark(Json.Put(Vmess.DecodeStrict(WithRemark(config, a)).o, "ps", Json.Str(b)));
      assert WithRemark(config, b)[|Dedup.Key(config)|] == '#';
    }
  }

  /** So the last watermark wins on all other schemes. */
  lemma LastRemarkWins(config: string, a: string, b: string)
    requires Trimmed(config) && !(VMESS <= config)
    ensures Inject(Inject(config, a), b) == Inject(config, b)
  {
    KeyIsPrefix(config);
    Assoc(Dedup.Key(config), "#", Quote(a));
    SchemeIsInKey(Dedup.Key(config), Quote(a));
    LastRemarkWinsIff(config, a, b);
  }

  /** The link of two whole groups of Base64 with a '#' between them. */
  lemma PayloadAcross(x: seq<Utf8.byte>, y: seq<Utf8.byte>)
    requires |x| % 3 == 0 && |y| % 3 == 0
    ensures VMESS <= VMESS + (Base64.Encode(x) + ("#" + Base64.Encode(y)))
    ensures Vmess.Payload(VMESS + (Base64.Encode(x) + ("#" + Base64.Encode(y)))) == Base64.Bytes(x + y)
  {
    var s := Base64.Encode(x) + ("#" + Base64.Encode(y));
    assert (VMESS + s)[8..] == s;
    Vmess.Base64HasNoSpace(x);
    Vmess.Base64HasNoSpace(y);
    assert NoSpace(s);
    LStripKeepsNoSpace(s);
    Base64.DecodeAcross(x, '#', y);
  }

  lemma PayloadAlone(x: seq<Utf8.byte>)
    requires |x| % 3 == 0
    ensures VMESS <= VMESS + Base64.Encode(x)
    ensures Vmess.Payload(VMESS + Base64.Encode(x)) == Base64.Bytes(x)
  {
    var s := Base64.Encode(x);
    assert (VMESS + s)[8..] == s;
    Vmess.Base64HasNoSpace(x);
    LStripKeepsNoSpace(s);
    Base64.EncodeShape(x);
    Base64.RoundTrip(x);
  }

  // "{  " and "}  "
  const OPENING: seq<Utf8.byte> := [123, 32, 32]
  const CLOSING: seq<Utf8.byte> := [125, 32, 32]
  const OPENING_TEXT := "eyAg"
  const CLOSING_TEXT := "fSAg"
  const OPEN_LINK := VMESS + OPENING_TEXT

  lemma Groups()
    ensures Base64.Encode(OPENING) == OPENING_TEXT && Base64.Encode(CLOSING) == CLOSING_TEXT
  {
    assert OPENING[3..] == [] && CLOSING[3..] == [];
  }

  lemma OpeningFails()
    ensures Json.Load("{  ") == Json.Failure
  {
    assert "{  "[1..] == "  " && "  "[1..] == " " && " "[1..] == "";
  }

  lemma SpacesSkipped()
    ensures Json.SkipSpace("  }  ") == "}  " && Json.SkipSpace("  ") == []
  {
    assert "  }  "[1..] == " }  " && " }  "[1..] == "}  ";
    assert "  "[1..] == " " && " "[1..] == "";
  }

  lemma SpacesLoad()
    ensures Json.Load("{  }  ") == Json.Success([])
  {
    SpacesSkipped();
    assert "{  }  "[1..] == "  }  " && "}  "[1..] == "  ";
  }

  lemma OpeningDecodes()
    ensures Utf8.Decode(OPENING) == Utf8.Decoded("{  ")
  {
    Utf8.EncodeAscii("{  ");
    assert Utf8.Encode("{  ") == OPENING;
    Utf8.RoundTrip("{  ");
  }

  lemma BothDecode()
    ensures Utf8.Decode(OPENING + CLOSING) == Utf8.Decoded("{  }  ")
  {
    Utf8.EncodeAscii("{  }  ");
    assert Utf8.Encode("{  }  ") == OPENING + CLOSING;
    Utf8.RoundTrip("{  }  ");
  }

  lemma QuoteOfClosing()
    ensures Quote(CLOSING_TEXT) == CLOSING_TEXT
  {
    Utf8.EncodeAscii(CLOSING_TEXT);
    assert Utf8.Encode(CLOSING_TEXT) == [102, 83, 65, 103];
    assert QuoteBytes([102, 83, 65, 103]) == CLOSING_TEXT;
  }

  /** A link of whole groups of Base64 whose remark happens to be Base64 as well. */
  lemma RemarkAfterGroups(x: seq<Utf8.byte>, y: seq<Utf8.byte>, watermark: string)
    requires |x| % 3 == 0 && |y| % 3 == 0 && Quote(watermark) == Base64.Encode(y)
    ensures var remarked := WithRemark(VMESS + Base64.Encode(x), watermark);
            VMESS <= remarked && Vmess.Payload(remarked) == Base64.Bytes(x + y)
  {
    var link := VMESS + Base64.Encode(x);
    EncodedIsFree(x);
    BeforeHashFixed(link);
    LStripKeepsNoSpace(link);
    Assoc(VMESS, Base64.Encode(x), "#" + Quote(watermark));
    Assoc(link, "#", Quote(watermark));
    PayloadAcross(x, y);
  }

  lemma EncodedIsFree(x: seq<Utf8.byte>)
    ensures NoSpace(VMESS + Base64.Encode(x)) && '#' !in VMESS + Base64.Encode(x)
  {
    Vmess.Base64HasNoSpace(x);
    Base64.EncodeShape(x);
    assert NoSpace(VMESS) && '#' !in VMESS;
    assert '#' !in Base64.Encode(x);
  }

  lemma OpenLinkFails()
    ensures TakesRemark(OPEN_LINK)
  {
    Groups();
    PayloadAlone(OPENING);
    OpeningDecodes();
    OpeningFails();
  }

  lemma RemarkDecodes(link: string, x: seq<Utf8.byte>, y: seq<Utf8.byte>, watermark: string, text: string)
    requires link == VMESS + Base64.Encode(x) && Quote(watermark) == Base64.Encode(y)
    requires |x| % 3 == 0 && |y| % 3 == 0
    requires Utf8.Decode(x + y) == Utf8.Decoded(text) && Json.Load(text).Success?
    ensures !TakesRemark(WithRemark(link, watermark))
  {
    RemarkAfterGroups(x, y, watermark);
  }

  lemma ClosingIsQuoted()
    ensures Quote(CLOSING_TEXT) == Base64.Encode(CLOSING)
  {
    Groups();
    QuoteOfClosing();
  }

  lemma OpenLinkIs()
    ensures OPEN_LINK == VMESS + Base64.Encode(OPENING)
  {
    Groups();
  }

  /** What the link and the watermark are made of. */
  lemma OpenLinkParts() returns (x: seq<Utf8.byte>, y: seq<Utf8.byte>, text: string)
    ensures OPEN_LINK == VMESS + Base64.Encode(x) && Quote(CLOSING_TEXT) == Base64.Encode(y)
    ensures |x| == 3 == |y|
    ensures Utf8.Decode(x + y) == Utf8.Decoded(text) && Json.Load(text).Success?
  {
    x, y, text := OPENING, CLOSING, "{  }  ";
    assert |x| == 3 == |y|;
    OpenLinkIs();
    ClosingIsQuoted();
    BothDecode();
    SpacesLoad();
  }

  lemma OpenLinkDecodes()
    ensures !TakesRemark(WithRemark(OPEN_LINK, CLOSING_TEXT))
  {
    var x, y, text := OpenLinkParts();
    RemarkDecodes(OPEN_LINK, x, y, CLOSING_TEXT, text);
  }

  /** The link vmess://eyAg and the watermark fSAg: together they are the Base64 of an object. */
  lemma LastRemarkExample(b: string)
    ensures TakesRemark(OPEN_LINK) && !TakesRemark(WithRemark(OPEN_LINK, CLOSING_TEXT))
    ensures Inject(Inject(OPEN_LINK, CLOSING_TEXT), b) != Inject(OPEN_LINK, b)
  {
    OpenLinkFails();
    OpenLinkDecodes();
    LastRemarkWinsIff(OPEN_LINK, CLOSING_TEXT, b);
  }

  lemma IpOfEncoded(o: Json.Object, ip: string)
    requires '\\' !in ip && Json.DistinctKeys(o)
    ensures IpManager.Outcome(Vmess.Encode(o), ip) == Vmess.Encode(Json.Put(o, "add", Json.Str(ip)))
  {
    Vmess.RoundTrip(o);
    Vmess.EncodedIsStripped(o);
  }

  lemma WatermarkOfEncoded(o: Json.Object, watermark: string)
    requires Json.DistinctKeys(o)
    ensures Inject(Vmess.Encode(o), watermark) == Vmess.Encode(Json.Put(o, "ps", Json.Str(watermark)))
  {
    Vmess.RoundTrip(o);
  }

  lemma EncodeIsInjective(a: Json.Object, b: Json.Object)
    requires Json.DistinctKeys(a) && Json.DistinctKeys(b)
    ensures Vmess.Encode(a) == Vmess.Encode(b) <==> a == b
  {
    Vmess.RoundTrip(a);
    Vmess.RoundTrip(b);
  }

  /** On vmess links watermarking and applying an ip commute, byte for byte, exactly when the link
      already has at least one of the two fields. */
  lemma WatermarkAndIpCommute(config: string, watermark: string, ip: string)
    requires VMESS <= config && Strip(config) == config && Vmess.DecodeStrict(config).Success?
    requires '\\' !in ip
    ensures IpManager.Outcome(Inject(config, watermark), ip) == Inject(IpManager.Outcome(config, ip), watermark)
       <==> Json.HasKey(Vmess.DecodeStrict(config).o, "ps") || Json.HasKey(Vmess.DecodeStrict(config).o, "add")
  {
    var o := Vmess.DecodeStrict(config).o;
    var ps, add := Json.Put(o, "ps", Json.Str(watermark)), Json.Put(o, "add", Json.Str(ip));
    Vmess.StrictIsDistinct(config);
    Json.PutKeepsDistinct(o, "ps", Json.Str(watermark));
    Json.PutKeepsDistinct(o, "add", Json.Str(ip));
    IpOfEncoded(ps, ip);
    WatermarkOfEncoded(add, watermark);
    Json.PutKeepsDistinct(ps, "add", Json.Str(ip));
    Json.PutKeepsDistinct(add, "ps", Json.Str(watermark));
    EncodeIsInjective(Json.Put(ps, "add", Json.Str(ip)), Json.Put(add, "ps", Json.Str(watermark)));
    assert "ps" != "add";
    Json.PutsCommute(o, "ps", Json.Str(watermark), "add", Json.Str(ip));
  }

  lemma {:induction false} QuotedNamesNoHost(base: string, q: string)
    requires SearchHost(base).None? && IsQuoted(q)
    ensures SearchHost(base + "#" + q).None?
    decreases |base|
  {
    var s := base + "#" + q;
    if ':' !in base {
      NoColonNoHost(s, []);
    } else {
      assert s == [base[0]] + (base[1..] + "#" + q);
      assert base == [base[0]] + base[1..];
      SubHostCons(base[0], base[1..], []);
      QuotedNamesNoHost(base[1..], q);
      if base[0] == '@' {
        assert base[1..][0] == ':';
        assert s[1..][0] == ':';
      }
      assert HostHere(s).None?;
      SubHostCons(base[0], base[1..] + "#" + q, []);
    }
  }

  lemma HostWithRemark(scheme: string, base: string, q: string)
    requires scheme == VLESS || scheme == TROJAN || scheme == SS
    requires scheme <= base && Trimmed(base) && IsQuoted(q)
    ensures ExtractHost(base + ("#" + q))
         == match SearchHost(base) case None => NoHost case Some(h) => Host(Json.Str(h))
  {
    if SearchHost(base).Some? {
      IpManager.HostFromFront(base, "#" + q, scheme);
    } else {
      var w := base + ("#" + q);
      assert base + "#" + q == w;
      QuotedNamesNoHost(base, q);
      RemarkedIsTrimmed(base, q);
      PrefixesExclude(w);
    }
  }

  lemma RemarkedIsTrimmed(base: string, q: string)
    requires base != [] && Trimmed(base) && IsQuoted(q)
    ensures Strip(base + ("#" + q)) == base + ("#" + q)
  {
    var w := base + ("#" + q);
    assert w[0] == base[0] && w[|w| - 1] == (if q == [] then '#' else q[|q| - 1]);
    TrimmedIsFixed(w);
  }

  /** On URI links the server read from the watermarked config is the one its base names: a server
      that was only found in the old remark is gone, any other is kept. */
  lemma WatermarkedUriHost(c: string, watermark: string)
    requires IsUri(c) && Trimmed(c)
    ensures ExtractHost(Inject(c, watermark))
         == match SearchHost(Dedup.Key(c)) case None => NoHost case Some(h) => Host(Json.Str(h))
  {
    PrefixesExclude(c);
    var scheme := IpManager.BaseIsUri(c);
    QuotedBytes(Utf8.Encode(watermark));
    KeyIsTrimmed(c);
    Assoc(Dedup.Key(c), "#", Quote(watermark));
    HostWithRemark(scheme, Dedup.Key(c), Quote(watermark));
  }

  lemma NoPortInRemark(q: string)
    requires IsQuoted(q)
    ensures PortPattern.SearchPort("#" + q).None?
  {
    PortPattern.SkipToColon("#" + q, []);
    assert "#" + q + [] == "#" + q;
  }

  lemma UriRemark(c: string, watermark: string)
    requires IsUri(c) && IsConfig(c)
    ensures Inject(c, watermark) == Dedup.Key(c) + ("#" + Quote(watermark))
    ensures IsUri(Dedup.Key(c)) && NoSpace(Dedup.Key(c))
  {
    ConfigHasNoSpace(c);
    PrefixesExclude(c);
    var scheme := IpManager.BaseIsUri(c);
    var tail := IpManager.SplitAtHash(c);
    Assoc(Dedup.Key(c), "#", Quote(watermark));
  }

  lemma PortWithRemark(base: string, q: string)
    requires IsUri(base) && NoSpace(base) && IsQuoted(q)
    ensures ExtractPort(base + ("#" + q)) == PortOfMatch(PortPattern.SearchPort(base))
  {
    PrefixesExclude(base + ("#" + q));
    assert base <= base + ("#" + q);
    PortPattern.PortBeforeRemark(base, "#" + q);
    NoPortInRemark(q);
  }

  /** ... and the port is the one its base names: a port that was only found in the old remark is
      gone, any other is kept. */
  lemma WatermarkedUriPort(c: string, watermark: string)
    requires IsUri(c) && IsConfig(c)
    ensures ExtractPort(Inject(c, watermark)) == PortOfMatch(PortPattern.SearchPort(Dedup.Key(c)))
    ensures PortPattern.SearchPort(Dedup.Key(c)).Some? ==> ExtractPort(Inject(c, watermark)) == ExtractPort(c)
  {
    UriRemark(c, watermark);
    QuotedBytes(Utf8.Encode(watermark));
    PortWithRemark(Dedup.Key(c), Quote(watermark));
    if PortPattern.SearchPort(Dedup.Key(c)).Some? {
      ConfigHasNoSpace(c);
      var tail := IpManager.SplitAtHash(c);
      IpManager.PortOfBase(Dedup.Key(c), tail);
    }
  }

  lemma RemarkKeepsScheme(scheme: string, c: string, watermark: string)
    requires '#' !in scheme && scheme <= c && IsConfig(c)
    ensures scheme <= WithRemark(c, watermark)
  {
    KeyOfConfig(c);
    SchemeBeforeHash(scheme, c);
    Assoc(BeforeHash(c), "#", Quote(watermark));
  }

  lemma RemarkKeepsProtocol(c: string, watermark: string)
    requires IsConfig(c)
    ensures DetectProtocol(WithRemark(c, watermark)) == DetectProtocol(c)
  {
    var scheme := SchemeOf(c);
    RemarkKeepsScheme(scheme, c, watermark);
    SchemeDecidesProtocol(c, WithRemark(c, watermark), scheme);
  }

  lemma EncodedKeepsProtocol(c: string, o: Json.Object)
    requires VMESS <= c
    ensures DetectProtocol(Vmess.Encode(o)) == DetectProtocol(c)
  {
    SchemeDecidesProtocol(c, Vmess.Encode(o), VMESS);
  }

  /** A config keeps its protocol when it is watermarked. */
  lemma WatermarkedProtocol(c: string, watermark: string)
    requires IsConfig(c)
    ensures DetectProtocol(Inject(c, watermark)) == DetectProtocol(c) != Unknown
  {
    ConfigIsKnown(c);
    if TakesRemark(c) {
      RemarkKeepsProtocol(c, watermark);
    } else {
      EncodedKeepsProtocol(c, Json.Put(Vmess.DecodeStrict(c).o, "ps", Json.Str(watermark)));
    }
  }

  lemma SchemeOf(c: string) returns (scheme: string)
    requires IsConfig(c)
    ensures scheme == VLESS || scheme == VMESS || scheme == TROJAN || scheme == SS
    ensures scheme <= c && '#' !in scheme
  {
    scheme := if VMESS <= c then VMESS else if VLESS <= c then VLESS else if TROJAN <= c then TROJAN else SS;
  }

  lemma SchemeBeforeHash(scheme: string, c: string)
    requires '#' !in scheme && scheme <= c
    ensures scheme <= BeforeHash(c)
  {
    assert c == scheme + c[|scheme|..];
    BeforeHashAppend(scheme, c[|scheme|..]);
  }
}
