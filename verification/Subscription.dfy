/** Subscription sources (scraper/subscription.py): plain or Base64 content, extraction, dedup.

    html.unescape is a parameter.  Of it only one fact is used, and only where stated: text without
    '&' is returned unchanged, which is the first line of its implementation. */
module Subscription {
  import opened Text
  import opened ConfigPattern
  import opened Extraction
  import opened Dedup
  import Utf8
  import Base64

  const LINE_BREAKS: set<char> := {'\n', '\r', ' '}

  predicate MentionsScheme(s: string) {
    Contains(s, VMESS) || Contains(s, VLESS) || Contains(s, TROJAN) || Contains(s, SS)
  }

  /** _decode_base64_content */
  function DecodeContent(raw: string): string {
    var content := Strip(raw);
    if VMESS <= content || VLESS <= content || TROJAN <= content || SS <= content then content
    else if MentionsScheme(content) then content
    else
      match Base64.Decode(Base64.Repair(Without(content, LINE_BREAKS)))
      case Malformed => content
      case Bytes(b) =>
        var decoded := Utf8.DecodeIgnoring(b);
        if MentionsScheme(decoded) then decoded else content
  }

  /** _extract_configs */
  method ExtractConfigs(md5: string -> string, unescape: string -> string, content: string)
    returns (configs: seq<string>)
    ensures var text := DecodeContent(content);
            configs == FirstOccurrences(md5, Extract(text) + Extract(unescape(text)))
    ensures DistinctHashes(md5, configs)
  {
    var text := DecodeContent(content);
    var found := Extract(text);
    var more := Extract(unescape(text));
    var seen: set<string>;
    assert [] + (found + more) == found + more;
    configs, seen := KeepUnseen(md5, found + more, [], {}, []);
    KeptAreDistinct(md5, found + more);
  }

  // ---------------------------------------------------------------------------------------------
  // Round trip
  // ---------------------------------------------------------------------------------------------

  /** `content` is the Base64 of the text, broken by any line breaks and spaces, with up to all of
      its trailing '=' missing. */
  ghost predicate Wraps(content: string, text: string) {
    var bytes := Utf8.Encode(text);
    exists dropped: nat :: dropped <= Base64.PadCount(bytes) && WrapsDropping(content, bytes, dropped)
  }

  ghost predicate WrapsDropping(content: string, bytes: seq<Utf8.byte>, dropped: nat)
    requires dropped <= Base64.PadCount(bytes)
  {
    var e := Base64.Encode(bytes);
    && dropped <= |e|
    && Without(content, LINE_BREAKS) == e[..|e| - dropped]
  }

  lemma WrappedChars(content: string, bytes: seq<Utf8.byte>, dropped: nat)
    requires dropped <= Base64.PadCount(bytes) && WrapsDropping(content, bytes, dropped)
    ensures ':' !in content
    ensures forall i :: 0 <= i < |content| && IsSpace(content[i]) ==> content[i] in LINE_BREAKS
  {
    Base64.EncodeShape(bytes);
    var kept := Without(content, LINE_BREAKS);
    forall c | c in content && c !in LINE_BREAKS ensures c != ':' && !IsSpace(c) {
      assert c in kept;
      assert Base64.IsAlphabet(c) || c == '=';
    }
  }

  lemma NoColonNoScheme(s: string)
    requires ':' !in s
    ensures !MentionsScheme(s)
  {
    assert VMESS[5] == ':' && VLESS[5] == ':' && TROJAN[6] == ':' && SS[2] == ':';
    ContainsUsesChars(s, VMESS, ':');
    ContainsUsesChars(s, VLESS, ':');
    ContainsUsesChars(s, TROJAN, ':');
    ContainsUsesChars(s, SS, ':');
  }

  lemma StripNoColon(s: string)
    requires ':' !in s
    ensures ':' !in Strip(s)
  {
    LStripSubset(s);
  }

  lemma DecodesTo(content: string, bytes: seq<Utf8.byte>, text: string)
    requires !MentionsScheme(Strip(content))
    requires Base64.Decode(Base64.Repair(Without(Strip(content), LINE_BREAKS))) == Base64.Bytes(bytes)
    requires Utf8.DecodeIgnoring(bytes) == text && MentionsScheme(text)
    ensures DecodeContent(content) == text
  {
  }

  lemma StripIsHarmless(content: string, bytes: seq<Utf8.byte>, dropped: nat)
    requires dropped <= Base64.PadCount(bytes) && WrapsDropping(content, bytes, dropped)
    ensures Without(Strip(content), LINE_BREAKS) == Without(content, LINE_BREAKS)
  {
    WrappedChars(content, bytes, dropped);
    WithoutIgnoresStrip(content, LINE_BREAKS);
  }

  lemma RepairedBytes(bytes: seq<Utf8.byte>, dropped: nat, kept: string)
    requires dropped <= Base64.PadCount(bytes) && dropped <= |Base64.Encode(bytes)|
    requires kept == Base64.Encode(bytes)[..|Base64.Encode(bytes)| - dropped]
    ensures Base64.Decode(Base64.Repair(kept)) == Base64.Bytes(bytes)
  {
    Base64.RepairRestores(bytes, dropped);
  }

  lemma WrappedBytes(content: string, bytes: seq<Utf8.byte>, dropped: nat)
    requires dropped <= Base64.PadCount(bytes) && WrapsDropping(content, bytes, dropped)
    ensures Base64.Decode(Base64.Repair(Without(Strip(content), LINE_BREAKS))) == Base64.Bytes(bytes)
  {
    StripIsHarmless(content, bytes, dropped);
    RepairedBytes(bytes, dropped, Without(content, LINE_BREAKS));
  }

  lemma WrappedNamesNoScheme(content: string, bytes: seq<Utf8.byte>, dropped: nat)
    requires dropped <= Base64.PadCount(bytes) && WrapsDropping(content, bytes, dropped)
    ensures !MentionsScheme(Strip(content))
  {
    WrappedChars(content, bytes, dropped);
    StripNoColon(content);
    NoColonNoScheme(Strip(content));
  }

  lemma WrappedIsDecoded(content: string, text: string)
    requires Wraps(content, text) && MentionsScheme(text)
    ensures DecodeContent(content) == text
  {
    var bytes := Utf8.Encode(text);
    var dropped: nat :| dropped <= Base64.PadCount(bytes) && WrapsDropping(content, bytes, dropped);
    WrappedBytes(content, bytes, dropped);
    WrappedNamesNoScheme(content, bytes, dropped);
    Utf8.RoundTrip(text);
    Utf8.IgnoringAgrees(bytes);
    DecodesTo(content, bytes, text);
  }

  lemma ConfigMentionsScheme(c: string, rest: string)
    requires IsConfig(c)
    ensures MentionsScheme(c + rest)
  {
  }

  lemma JoinMentionsScheme(configs: seq<string>)
    requires configs != [] && IsConfig(configs[0])
    ensures MentionsScheme(JoinLines(configs))
  {
    if |configs| == 1 {
      assert configs[0] + [] == configs[0];
      ConfigMentionsScheme(configs[0], []);
    } else {
      JoinFirst(configs);
      ConfigMentionsScheme(configs[0], "\n\n" + JoinLines(configs[1..]));
    }
  }

  lemma {:induction false} AllSpaceStrips(s: string)
    requires forall i :: 0 <= i < |s| ==> IsSpace(s[i])
    ensures Strip(s) == []
  {
    if s != [] { AllSpaceStrips(s[1..]); }
  }

  lemma WrappedNothing(content: string)
    requires Wraps(content, [])
    ensures DecodeContent(content) == []
  {
    forall i | 0 <= i < |content| ensures IsSpace(content[i]) {
      assert content[i] !in Without(content, LINE_BREAKS);
    }
    AllSpaceStrips(content);
    NoColonNoScheme([]);
  }

  /** The content of a subscription that lists the configs: their blank-line-joined text as it is, or
      wrapped in Base64. */
  ghost predicate Lists(content: string, configs: seq<string>) {
    Strip(content) == JoinLines(configs) || Wraps(content, JoinLines(configs))
  }

  lemma DecodeNothing()
    ensures Base64.Decode(Base64.Repair(Without([], LINE_BREAKS))) == Base64.Bytes([])
    ensures Utf8.DecodeIgnoring([]) == []
  {
  }

  lemma NothingIsDecoded(content: string)
    requires Strip(content) == []
    ensures DecodeContent(content) == []
  {
    NoColonNoScheme([]);
    DecodeNothing();
  }

  lemma ListIsDecoded(content: string, configs: seq<string>)
    requires forall i :: 0 <= i < |configs| ==> IsConfig(configs[i])
    requires Lists(content, configs)
    ensures DecodeContent(content) == JoinLines(configs)
  {
    if configs == [] {
      if Wraps(content, []) { WrappedNothing(content); } else { NothingIsDecoded(content); }
    } else {
      JoinMentionsScheme(configs);
      if Wraps(content, JoinLines(configs)) { WrappedIsDecoded(content, JoinLines(configs)); }
    }
  }

  /** What the scraper makes of a subscription, plain or encoded, for every list of configs: the list's own
      first occurrences come first, in order, and it is exactly them if and only if the second pass
      over the unescaped text finds no hash that the list does not have. */
  lemma RoundTrip(md5: string -> string, unescape: string -> string, configs: seq<string>, content: string)
    requires forall i :: 0 <= i < |configs| ==> IsConfig(configs[i])
    requires Lists(content, configs)
    ensures var text := DecodeContent(content);
            var result := FirstOccurrences(md5, Extract(text) + Extract(unescape(text)));
            && FirstOccurrences(md5, configs) <= result
            && (result == FirstOccurrences(md5, configs)
                <==> Hashes(md5, Extract(unescape(JoinLines(configs)))) <= Hashes(md5, configs))
  {
    ListIsDecoded(content, configs);
    ExtractOfJoin(configs);
    MoreInput(md5, configs, Extract(unescape(JoinLines(configs))));
  }

  // ---------------------------------------------------------------------------------------------
  // The second pass, config by config
  // ---------------------------------------------------------------------------------------------

  function Blank(a: string, b: string): string {
    a + ("\n\n" + b)
  }

  /** No entity of html.unescape reaches over a line break, so that it works on both sides alone. */
  ghost predicate LineByLine(unescape: string -> string) {
    unescape([]) == [] && forall a, b :: unescape(Blank(a, b)) == Blank(unescape(a), unescape(b))
  }

  function UnescapeEach(unescape: string -> string, configs: seq<string>): (r: seq<string>)
    ensures |r| == |configs| && forall i :: 0 <= i < |r| ==> r[i] == unescape(configs[i])
  {
    seq(|configs|, i requires 0 <= i < |configs| => unescape(configs[i]))
  }

  lemma {:induction false} UnescapeJoin(unescape: string -> string, configs: seq<string>)
    requires LineByLine(unescape)
    ensures unescape(JoinLines(configs)) == JoinLines(UnescapeEach(unescape, configs))
  {
    if |configs| > 1 {
      var rest := configs[1..];
      UnescapeJoin(unescape, rest);
      JoinFirst(configs);
      JoinFirst(UnescapeEach(unescape, configs));
      assert UnescapeEach(unescape, configs)[1..] == UnescapeEach(unescape, rest);
      assert JoinLines(configs) == Blank(configs[0], JoinLines(rest));
    }
  }

  /** The hash of every config that shows up when c is unescaped is in the list. */
  ghost predicate BringsNothing(md5: string -> string, unescape: string -> string, configs: seq<string>, c: string) {
    Hashes(md5, Extract(unescape(c))) <= Hashes(md5, configs)
  }

  lemma {:induction false} HashesOfEach(md5: string -> string, parts: seq<string>, known: set<string>)
    ensures Hashes(md5, ExtractEach(parts)) <= known <==>
              forall i :: 0 <= i < |parts| ==> Hashes(md5, Extract(parts[i])) <= known
  {
    if parts != [] {
      HashesOfEach(md5, parts[1..], known);
      HashesConcat(md5, Extract(parts[0]), ExtractEach(parts[1..]));
      assert forall i :: 0 < i < |parts| ==> parts[i] == parts[1..][i - 1];
      assert forall i :: 0 <= i < |parts[1..]| ==> parts[1..][i] == parts[i + 1];
    }
  }

  /** The round trip, exactly: the result is the list's first occurrences if and only if no config of
      the list, unescaped by itself, shows a hash that the list does not have. */
  lemma RoundTripIff(md5: string -> string, unescape: string -> string, configs: seq<string>, content: string)
    requires forall i :: 0 <= i < |configs| ==> IsConfig(configs[i])
    requires Lists(content, configs) && LineByLine(unescape)
    ensures var text := DecodeContent(content);
            FirstOccurrences(md5, Extract(text) + Extract(unescape(text))) == FirstOccurrences(md5, configs)
            <==> forall i :: 0 <= i < |configs| ==> BringsNothing(md5, unescape, configs, configs[i])
  {
    var parts := UnescapeEach(unescape, configs);
    RoundTrip(md5, unescape, configs, content);
    UnescapeJoin(unescape, configs);
    ExtractOfParts(parts);
    HashesOfEach(md5, parts, Hashes(md5, configs));
    if forall i :: 0 <= i < |parts| ==> Hashes(md5, Extract(parts[i])) <= Hashes(md5, configs) {
      forall i | 0 <= i < |configs| ensures BringsNothing(md5, unescape, configs, configs[i]) {
        assert parts[i] == unescape(configs[i]);
      }
    } else {
      var i :| 0 <= i < |parts| && !(Hashes(md5, Extract(parts[i])) <= Hashes(md5, configs));
      assert !BringsNothing(md5, unescape, configs, configs[i]);
    }
  }

  // ---------------------------------------------------------------------------------------------
  // An input on which it fails
  // ---------------------------------------------------------------------------------------------

  lemma LinkIsItsKey(word: string)
    requires word != [] && NoSpace(word) && '#' !in word
    ensures IsConfig(VLESS + word) && Key(VLESS + word) == VLESS + word
  {
    WordIsConfig(VLESS, word);
    BeforeHashFixed(VLESS + word);
    assert NoSpace(VLESS);
    TrimmedIsFixed(VLESS + word);
  }

  lemma PairIs(e: string, p: string)
    ensures [e] + [p] == [e, p]
  {
  }

  lemma FirstOfTwo(md5: string -> string, e: string, p: string)
    requires Hash(md5, e) != Hash(md5, p)
    ensures FirstOccurrences(md5, [e] + [p]) == [e, p]
  {
    PairIs(e, p);
    KeptWholeIffDistinct(md5, [e, p]);
  }

  lemma TwoSpellings(md5: string -> string, unescape: string -> string, content: string, e: string, p: string)
    requires IsConfig(e) && IsConfig(p) && Lists(content, [e]) && unescape(e) == p
    requires Hash(md5, e) != Hash(md5, p)
    ensures var text := DecodeContent(content);
            FirstOccurrences(md5, Extract(text) + Extract(unescape(text))) == [e, p]
  {
    ListIsDecoded(content, [e]);
    ExtractConfig(e);
    ExtractConfig(p);
    FirstOfTwo(md5, e, p);
  }

  function Amp(text: string): string {
    Replace(text, "&amp;", "&")
  }

  lemma AmpInLink(front: string, back: string)
    requires '&' !in front && '&' !in back
    ensures Amp(VLESS + (front + ("&amp;" + back))) == VLESS + (front + ("&" + back))
  {
    ReplaceFirst(VLESS + front, "&amp;", "&", back);
    ReplaceNothing(back, "&amp;", "&");
    Assoc(VLESS, front, "&amp;" + back);
    Assoc(VLESS, front, "&" + back);
  }

  lemma CleanConcat(a: string, b: string)
    requires NoSpace(a) && NoSpace(b) && '#' !in a && '#' !in b
    ensures NoSpace(a + b) && '#' !in a + b
  {
  }

  lemma SpelledLink(front: string, middle: string, back: string)
    requires NoSpace(front) && NoSpace(middle) && NoSpace(back) && middle != []
    requires '#' !in front && '#' !in middle && '#' !in back
    ensures var e := VLESS + (front + (middle + back)); IsConfig(e) && Key(e) == e
  {
    CleanConcat(middle, back);
    CleanConcat(front, middle + back);
    LinkIsItsKey(front + (middle + back));
  }

  lemma EscapedLink(front: string, back: string)
    requires NoSpace(front) && NoSpace(back) && '#' !in front && '#' !in back
    ensures var e := VLESS + (front + ("&amp;" + back)); IsConfig(e) && Key(e) == e
  {
    var middle := "&amp;";
    assert NoSpace(middle) && '#' !in middle;
    SpelledLink(front, middle, back);
  }

  lemma PlainLink(front: string, back: string)
    requires NoSpace(front) && NoSpace(back) && '#' !in front && '#' !in back
    ensures var p := VLESS + (front + ("&" + back)); IsConfig(p) && Key(p) == p
  {
    var middle := "&";
    assert NoSpace(middle) && '#' !in middle;
    SpelledLink(front, middle, back);
  }

  /** A subscription of one link that is written with &amp; gives two configs, for every hash that
      tells the two spellings apart. */
  lemma EntityComesTwice(md5: string -> string, content: string, front: string, back: string)
    requires NoSpace(front) && NoSpace(back) && '&' !in front && '&' !in back && '#' !in front && '#' !in back
    requires Lists(content, [VLESS + (front + ("&amp;" + back))])
    requires md5(VLESS + (front + ("&amp;" + back))) != md5(VLESS + (front + ("&" + back)))
    ensures var text := DecodeContent(content);
            FirstOccurrences(md5, Extract(text) + Extract(Amp(text)))
            == [VLESS + (front + ("&amp;" + back)), VLESS + (front + ("&" + back))]
  {
    EscapedLink(front, back);
    PlainLink(front, back);
    AmpInLink(front, back);
    TwoSpellings(md5, Amp, content, VLESS + (front + ("&amp;" + back)), VLESS + (front + ("&" + back)));
  }

  lemma SpellingsDiffer(front: string, back: string)
    ensures VLESS + (front + ("&amp;" + back)) != VLESS + (front + ("&" + back))
  {
    var e, p := front + ("&amp;" + back), front + ("&" + back);
    assert |e| == |p| + 4;
    assert |VLESS + e| == |VLESS + p| + 4;
  }

  // vless://u@h:1?x=1&amp;y=2 and vless://u@h:1?x=1&y=2
  const ESCAPED := VLESS + ("u@h:1?x=1" + ("&amp;" + "y=2"))
  const PLAIN := VLESS + ("u@h:1?x=1" + ("&" + "y=2"))

  /** With the text itself in place of its MD5. */
  lemma EntityExample()
    ensures FirstOccurrences(x => x, Extract(DecodeContent(ESCAPED)) + Extract(Amp(DecodeContent(ESCAPED))))
         == [ESCAPED, PLAIN]
  {
    SpellingsDiffer("u@h:1?x=1", "y=2");
    TrimmedIsFixed(ESCAPED);
    EntityComesTwice(x => x, ESCAPED, "u@h:1?x=1", "y=2");
  }

  /** Without '&' in the text the second pass adds nothing. */
  lemma RoundTripWithoutEntities(md5: string -> string, unescape: string -> string,
                                 configs: seq<string>, content: string)
    requires forall i :: 0 <= i < |configs| ==> IsConfig(configs[i]) && '&' !in configs[i]
    requires Lists(content, configs)
    requires forall t: string {:trigger unescape(t)} :: '&' !in t ==> unescape(t) == t
    ensures var text := DecodeContent(content);
            FirstOccurrences(md5, Extract(text) + Extract(unescape(text))) == FirstOccurrences(md5, configs)
  {
    RoundTrip(md5, unescape, configs, content);
    JoinKeepsOut(configs, '&');
    assert unescape(JoinLines(configs)) == JoinLines(configs);
    ExtractOfJoin(configs);
  }

  lemma {:induction false} JoinKeepsOut(configs: seq<string>, c: char)
    requires c != '\n' && forall i :: 0 <= i < |configs| ==> c !in configs[i]
    ensures c !in JoinLines(configs)
  {
    if |configs| > 1 {
      JoinKeepsOut(configs[1..], c);
      JoinFirst(configs);
    }
  }
}
