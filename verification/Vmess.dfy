/** vmess links: "vmess://" and the Base64 of a JSON object (core/utils.py, core/ip_manager.py,
    processor/parser.py). */
module Vmess {
  import opened Text
  import opened ConfigPattern
  import opened Json
  import Utf8
  import Base64

  /** The bytes behind the prefix, with the padding repaired. */
  function Payload(config: string): Base64.Bytes
    requires VMESS <= config
  {
    Base64.Decode(Base64.Repair(Strip(config[8..])))
  }

  /** The object that the rewriting functions see: they decode strictly. */
  function DecodeStrict(config: string): Loaded
    requires VMESS <= config
  {
    match Payload(config)
    case Malformed => Failure
    case Bytes(b) =>
      match Utf8.Decode(b)
      case Failed => Failure
      case Decoded(text) => Load(text)
  }

  /** The object that extract_host and extract_port see: they drop malformed UTF-8. */
  function DecodeLenient(config: string): Loaded
    requires VMESS <= config
  {
    match Payload(config)
    case Malformed => Failure
    case Bytes(b) => Load(Utf8.DecodeIgnoring(b))
  }

  function Encode(o: Object): string {
    VMESS + Base64.Encode(Utf8.Encode(Dump(o)))
  }

  lemma StrictIsLenient(config: string)
    requires VMESS <= config && DecodeStrict(config).Success?
    ensures DecodeLenient(config) == DecodeStrict(config)
  {
    Utf8.IgnoringAgrees(Payload(config).b);
  }

  lemma Base64HasNoSpace(b: seq<Utf8.byte>)
    ensures NoSpace(Base64.Encode(b))
  {
    Base64.EncodeShape(b);
  }

  lemma StrictIsDistinct(config: string)
    requires VMESS <= config && DecodeStrict(config).Success?
    ensures DistinctKeys(DecodeStrict(config).o)
  {
    LoadedIsDistinct(Utf8.Decode(Payload(config).b).text);
  }

  /** Writing a link and reading it gives the same object. */
  lemma RoundTrip(o: Object)
    requires DistinctKeys(o)
    ensures VMESS <= Encode(o)
    ensures DecodeStrict(Encode(o)) == Success(o) == DecodeLenient(Encode(o))
  {
    var bytes := Utf8.Encode(Dump(o));
    var e := Base64.Encode(bytes);
    assert Encode(o)[8..] == e;
    Base64HasNoSpace(bytes);
    LStripKeepsNoSpace(e);
    Base64.EncodeShape(bytes);
    Base64.RoundTrip(bytes);
    Utf8.RoundTrip(Dump(o));
    Json.RoundTrip(o);
    StrictIsLenient(Encode(o));
  }

  /** A link rewritten by assigning one field decodes to the object with that field assigned. */
  lemma PutRoundTrip(config: string, key: string, value: Value)
    requires VMESS <= config && DecodeStrict(config).Success?
    ensures var next := Put(DecodeStrict(config).o, key, value);
            && VMESS <= Encode(next)
            && DecodeStrict(Encode(next)) == Success(next) == DecodeLenient(Encode(next))
  {
    var o := DecodeStrict(config).o;
    StrictIsDistinct(config);
    PutKeepsDistinct(o, key, value);
    RoundTrip(Put(o, key, value));
  }

  lemma EncodedIsStripped(o: Object)
    ensures VMESS <= Encode(o) && Strip(Encode(o)) == Encode(o)
  {
    Base64HasNoSpace(Utf8.Encode(Dump(o)));
    assert NoSpace(VMESS);
    LStripKeepsNoSpace(Encode(o));
  }

  /** A decodable link that begins with a written one decodes to the written object, whatever follows. */
  lemma DecodeStartsWith(o: Object, config: string)
    requires DistinctKeys(o) && Encode(o) <= config && DecodeStrict(config).Success?
    ensures DecodeStrict(config).o == o
  {
    var bytes := Utf8.Encode(Dump(o));
    var u := PayloadStartsWith(o, config);
    Base64.DecodeStartsWith(bytes, u);
    LoadedStartsWith(o, Payload(config).b);
  }

  lemma LoadedStartsWith(o: Object, all: seq<Utf8.byte>)
    requires DistinctKeys(o) && Utf8.Encode(Dump(o)) <= all
    requires Utf8.Decode(all).Decoded? && Load(Utf8.Decode(all).text).Success?
    ensures Load(Utf8.Decode(all).text).o == o
  {
    var more := all[|Utf8.Encode(Dump(o))|..];
    assert all == Utf8.Encode(Dump(o)) + more;
    Utf8.DecodeStartsWith(Dump(o), more);
    TextStartsWith(o, Utf8.Decode(all).text);
  }

  lemma TextStartsWith(o: Object, text: string)
    requires DistinctKeys(o) && Dump(o) <= text && Load(text).Success?
    ensures Load(text).o == o
  {
    var rest := text[|Dump(o)|..];
    assert text == Dump(o) + rest;
    Json.LoadThen(o, rest);
  }

  lemma PayloadStartsWith(o: Object, config: string) returns (u: string)
    requires Encode(o) <= config
    ensures VMESS <= config
    ensures Payload(config) == Base64.Decode(Base64.Repair(Base64.Encode(Utf8.Encode(Dump(o))) + u))
  {
    var e := Base64.Encode(Utf8.Encode(Dump(o)));
    Utf8.EncodeNonEmpty(Dump(o));
    Base64HasNoSpace(Utf8.Encode(Dump(o)));
    assert Encode(o) == VMESS + e;
    assert e <= config[8..];
    StripPrefix(e, config[8..]);
    u := Strip(config[8..])[|e|..];
    assert Strip(config[8..]) == e + u;
  }
}
