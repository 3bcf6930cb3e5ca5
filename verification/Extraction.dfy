/** Extraction of configs from text (core/utils.py, extract_configs_from_text) and the text that the
    exporter joins (core/ip_manager.py, format_configs_as_text). */
module Extraction {
  import opened Text
  import opened Regex
  import opened ConfigPattern

  /** re.findall(CONFIG_PATTERN, s) */
  function Extract(s: string): seq<string> {
    FindAll(CONFIG_PATTERN, s)
  }

  /** c is matched from its first to its last character. */
  predicate IsConfig(c: string) {
    Scan(c) == Length(|c|)
  }

  lemma RunOfPart(cls: CharClass, s: string, m: nat)
    requires m <= |s|
    ensures Run(cls, s[..m]) == if m <= Run(cls, s) then m else Run(cls, s)
  {
    var n := Run(cls, s);
    if m <= n {
      RunOfAll(cls, s[..m]);
    } else {
      assert s[..m] == s[..n] + s[n..m];
      RunOfAll(cls, s[..n]);
      RunSplit(cls, s[..n], s[n..m]);
    }
  }

  lemma WordOfPart(s: string)
    requires Word(s).Length?
    ensures Word(s[..Word(s).n]) == Word(s)
  {
    RunOfPart(NonSpace, s, Word(s).n);
  }

  lemma ScanVmessOfPart(s: string)
    requires ScanVmess(s).Length?
    ensures ScanVmess(s[..ScanVmess(s).n]) == ScanVmess(s)
  {
    var n, m := Run(Base64ish, s), ScanVmess(s).n;
    RunOfPart(Base64ish, s, m);
    if m > n {
      RunOfPart(NonSpace, s[n + 1..], m - n - 1);
      assert s[..m][n + 1..] == s[n + 1..][..m - n - 1];
    }
  }

  lemma ScanSsShort(s: string, m: nat)
    requires ScanSs(s) == Length(m) && m == Run(Base64ish, s)
    ensures ScanSs(s[..m]) == Length(m)
  {
    RunOfPart(Base64ish, s, m);
  }

  lemma PartOfRest(s: string, m: nat, k: nat)
    requires k < m <= |s|
    ensures s[..m][k] == s[k] && s[..m][k + 1..] == s[k + 1..][..m - k - 1]
  {
  }

  lemma WordOfRest(s: string, m: nat, n: nat)
    requires n < m <= |s| && m - n - 1 <= Run(NonSpace, s[n + 1..])
    ensures s[..m][n] == s[n] && Run(NonSpace, s[..m][n + 1..]) == m - n - 1
  {
    PartOfRest(s, m, n);
    RunOfPart(NonSpace, s[n + 1..], m - n - 1);
  }

  lemma ScanSsLong(s: string, m: nat)
    requires ScanSs(s) == Length(m) && m > Run(Base64ish, s)
    ensures ScanSs(s[..m]) == Length(m)
  {
    RunOfPart(Base64ish, s, m);
    WordOfRest(s, m, Run(Base64ish, s));
  }

  lemma ScanSsOfPart(s: string)
    requires ScanSs(s).Length?
    ensures ScanSs(s[..ScanSs(s).n]) == ScanSs(s)
  {
    var m := ScanSs(s).n;
    if m > Run(Base64ish, s) { ScanSsLong(s, m); } else { ScanSsShort(s, m); }
  }

  lemma PrefixOfPart(p: string, s: string, m: nat)
    requires |p| <= m <= |s|
    ensures p <= s[..m] <==> p <= s
  {
  }

  lemma VmessMatch(s: string)
    requires VMESS <= s && Scan(s).Length?
    ensures IsConfig(s[..Scan(s).n])
  {
    var m := Scan(s).n;
    PrefixOfPart(VMESS, s, m);
    ScanVmessOfPart(s[8..]);
    assert s[..m][8..] == s[8..][..m - 8];
  }

  lemma WordMatch(scheme: string, s: string)
    requires scheme == VLESS || scheme == TROJAN
    requires scheme <= s && Scan(s).Length?
    ensures IsConfig(s[..Scan(s).n])
  {
    var m, k := Scan(s).n, |scheme|;
    PrefixesExclude(s);
    PrefixOfPart(scheme, s, m);
    PrefixesExclude(s[..m]);
    WordOfPart(s[k..]);
    assert s[..m][k..] == s[k..][..m - k];
  }

  lemma SsMatch(s: string)
    requires SS <= s && Scan(s).Length?
    ensures IsConfig(s[..Scan(s).n])
  {
    var m := Scan(s).n;
    PrefixesExclude(s);
    PrefixOfPart(SS, s, m);
    PrefixesExclude(s[..m]);
    ScanSsOfPart(s[5..]);
    assert s[..m][5..] == s[5..][..m - 5];
  }

  /** A match is matched from its first to its last character. */
  lemma MatchIsConfig(s: string)
    requires Scan(s).Length?
    ensures IsConfig(s[..Scan(s).n])
  {
    if VMESS <= s {
      VmessMatch(s);
    } else if VLESS <= s {
      WordMatch(VLESS, s);
    } else if TROJAN <= s {
      WordMatch(TROJAN, s);
    } else {
      SsMatch(s);
    }
  }

  lemma {:induction false} ExtractedAreConfigs(s: string)
    ensures forall c :: c in Extract(s) ==> IsConfig(c)
  {
    if s != [] {
      ScanIsPattern(s);
      match Scan(s)
      case NoMatch => ExtractedAreConfigs(s[1..]);
      case Length(n) =>
        MatchIsConfig(s);
        ExtractedAreConfigs(s[n..]);
    }
  }

  lemma NonSpaceRun(s: string)
    requires Run(NonSpace, s) == |s|
    ensures NoSpace(s)
  {
  }

  lemma NoSpaceTail(s: string, n: nat)
    requires n <= |s| && NoSpace(s[n..]) && forall i :: 0 <= i < n ==> !IsSpace(s[i])
    ensures NoSpace(s)
  {
    forall i | 0 <= i < |s| ensures !IsSpace(s[i]) {
      if n <= i { assert s[i] == s[n..][i - n]; }
    }
  }

  lemma KeyedNoSpace(r: string)
    requires ScanVmess(r) == Length(|r|) || ScanSs(r) == Length(|r|)
    ensures NoSpace(r)
  {
    var n := Run(Base64ish, r);
    if n < |r| {
      NonSpaceRun(r[n + 1..]);
      NoSpaceTail(r, n + 1);
    }
  }

  lemma PrefixNoSpace(p: string, c: string)
    requires p == VMESS || p == VLESS || p == TROJAN || p == SS
    requires p <= c && NoSpace(c[|p|..])
    ensures NoSpace(c)
  {
    forall i | 0 <= i < |p| ensures !IsSpace(c[i]) { assert c[i] == p[i]; }
    NoSpaceTail(c, |p|);
  }

  lemma ConfigHasNoSpace(c: string)
    requires IsConfig(c)
    ensures NoSpace(c)
  {
    if VMESS <= c {
      KeyedNoSpace(c[8..]);
      PrefixNoSpace(VMESS, c);
    } else if VLESS <= c {
      NonSpaceRun(c[8..]);
      PrefixNoSpace(VLESS, c);
    } else if TROJAN <= c {
      NonSpaceRun(c[9..]);
      PrefixNoSpace(TROJAN, c);
    } else {
      KeyedNoSpace(c[5..]);
      PrefixNoSpace(SS, c);
    }
  }

  /** The end of a word in the text is the end of the match. */
  ghost predicate AtWordEnd(t: string) {
    t == [] || IsSpace(t[0])
  }

  lemma WordAppend(s: string, t: string)
    requires AtWordEnd(t)
    ensures Word(s + t) == Word(s)
  {
    RunAppend(NonSpace, s, t);
  }

  lemma TailOf(s: string, t: string, n: nat)
    requires n < |s|
    ensures (s + t)[n] == s[n] && (s + t)[n + 1..] == s[n + 1..] + t
  {
  }

  lemma SpaceEndsKey(t: string)
    requires AtWordEnd(t)
    ensures t == [] || !Base64ish.Has(t[0])
  {
  }

  lemma KeyAppend(s: string, t: string)
    requires AtWordEnd(t)
    ensures Run(Base64ish, s + t) == Run(Base64ish, s)
  {
    SpaceEndsKey(t);
    RunAppend(Base64ish, s, t);
  }

  lemma KeyedTail(s: string, t: string)
    requires AtWordEnd(t)
    ensures var n := Run(Base64ish, s);
            && Run(Base64ish, s + t) == n
            && (n < |s| ==> (s + t)[n] == s[n] && Run(NonSpace, (s + t)[n + 1..]) == Run(NonSpace, s[n + 1..]))
            && (n == |s| && t != [] ==> (s + t)[n] == t[0])
  {
    var n := Run(Base64ish, s);
    KeyAppend(s, t);
    if n < |s| { WordTail(s, t, n); } else if t != [] { NextIs(s, t); }
  }

  lemma NextIs(s: string, t: string)
    requires t != []
    ensures (s + t)[|s|] == t[0]
  {
  }

  lemma WordTail(s: string, t: string, n: nat)
    requires AtWordEnd(t) && n < |s|
    ensures (s + t)[n] == s[n] && Run(NonSpace, (s + t)[n + 1..]) == Run(NonSpace, s[n + 1..])
  {
    TailOf(s, t, n);
    RunAppend(NonSpace, s[n + 1..], t);
  }

  lemma ScanVmessAppend(s: string, t: string)
    requires AtWordEnd(t)
    ensures ScanVmess(s + t) == ScanVmess(s)
  {
    KeyedTail(s, t);
  }

  lemma ScanSsAppend(s: string, t: string)
    requires AtWordEnd(t)
    ensures ScanSs(s + t) == ScanSs(s)
  {
    KeyedTail(s, t);
  }

  lemma PrefixAppend(p: string, s: string, t: string)
    requires NoSpace(p) && AtWordEnd(t)
    ensures p <= s + t <==> p <= s
    ensures p <= s ==> (s + t)[|p|..] == s[|p|..] + t
  {
    if t != [] { assert (s + t)[|s|] == t[0]; }
    assert p <= s + t ==> forall i :: 0 <= i < |p| ==> p[i] == (s + t)[i];
  }

  /** What is matched in front of whitespace does not depend on what comes behind it. */
  lemma ScanAppend(s: string, t: string)
    requires AtWordEnd(t)
    ensures Scan(s + t) == Scan(s)
  {
    PrefixAppend(VMESS, s, t);
    PrefixAppend(VLESS, s, t);
    PrefixAppend(TROJAN, s, t);
    PrefixAppend(SS, s, t);
    if VMESS <= s {
      ScanVmessAppend(s[8..], t);
    } else if VLESS <= s {
      WordAppend(s[8..], t);
    } else if TROJAN <= s {
      WordAppend(s[9..], t);
    } else if SS <= s {
      ScanSsAppend(s[5..], t);
    }
  }

  lemma ExtractUnfolds(s: string)
    requires s != []
    ensures Extract(s) == match Scan(s)
                          case NoMatch => Extract(s[1..])
                          case Length(n) => [s[..n]] + Extract(s[n..])
  {
    ScanIsPattern(s);
  }

  /** What r matches in front of whitespace does not depend on what comes behind it. */
  ghost predicate StopsAtSpace(r: Regex) {
    forall s: string, t: string {:trigger First(r, s + t)} :: AtWordEnd(t) ==> First(r, s + t) == First(r, s)
  }

  lemma ConfigStopsAtSpace()
    ensures StopsAtSpace(CONFIG_PATTERN)
  {
    forall s: string, t: string {:trigger First(CONFIG_PATTERN, s + t)} | AtWordEnd(t)
      ensures First(CONFIG_PATTERN, s + t) == First(CONFIG_PATTERN, s)
    {
      ScanAppend(s, t);
      ScanIsPattern(s);
      ScanIsPattern(s + t);
    }
  }

  /** How far findall goes in one step, and what it finds there. */
  function Stride(r: Regex, s: string): (n: nat)
    requires s != []
    ensures 0 < n <= |s|
  {
    match First(r, s)
    case NoMatch => 1
    case Length(n) => if n == 0 then 1 else n
  }

  function Found(r: Regex, s: string): seq<string> {
    match First(r, s)
    case NoMatch => []
    case Length(n) => if n == 0 then [] else [s[..n]]
  }

  lemma FindAllStride(r: Regex, s: string)
    requires s != []
    ensures FindAll(r, s) == Found(r, s) + FindAll(r, s[Stride(r, s)..])
  {
    assert [] + FindAll(r, s[1..]) == FindAll(r, s[1..]);
  }

  lemma StrideAppend(r: Regex, s: string, t: string)
    requires StopsAtSpace(r) && AtWordEnd(t) && s != []
    ensures Stride(r, s + t) == Stride(r, s) && Found(r, s + t) == Found(r, s)
    ensures (s + t)[Stride(r, s)..] == s[Stride(r, s)..] + t
  {
    assert First(r, s + t) == First(r, s);
    var n := Stride(r, s);
    assert (s + t)[..n] == s[..n];
  }

  lemma FindAllStrideAppend(r: Regex, s: string, t: string)
    requires StopsAtSpace(r) && AtWordEnd(t) && s != []
    ensures FindAll(r, s + t) == Found(r, s) + FindAll(r, s[Stride(r, s)..] + t)
  {
    StrideAppend(r, s, t);
    FindAllStride(r, s + t);
  }

  lemma Regroup(whole: seq<string>, found: seq<string>, later: seq<string>, a: seq<string>, b: seq<string>)
    requires whole == found + later && later == a + b
    ensures whole == found + a + b
  {
  }

  lemma FindAllNothing(r: Regex, t: string)
    ensures FindAll(r, [] + t) == FindAll(r, []) + FindAll(r, t)
  {
    assert [] + t == t;
    assert [] + FindAll(r, t) == FindAll(r, t);
  }

  lemma {:induction false} FindAllAppend(r: Regex, s: string, t: string)
    requires StopsAtSpace(r) && AtWordEnd(t)
    ensures FindAll(r, s + t) == FindAll(r, s) + FindAll(r, t)
    decreases |s|
  {
    if s == [] {
      FindAllNothing(r, t);
    } else {
      var rest := s[Stride(r, s)..];
      FindAllStrideAppend(r, s, t);
      FindAllAppend(r, rest, t);
      FindAllStride(r, s);
      Regroup(FindAll(r, s + t), Found(r, s), FindAll(r, rest + t), FindAll(r, rest), FindAll(r, t));
    }
  }

  /** Whitespace separates: the configs of both sides, one after the other. */
  lemma ExtractAppend(s: string, t: string)
    requires AtWordEnd(t)
    ensures Extract(s + t) == Extract(s) + Extract(t)
  {
    ConfigStopsAtSpace();
    FindAllAppend(CONFIG_PATTERN, s, t);
  }

  lemma ExtractSkipsSpace(s: string)
    requires s != [] && IsSpace(s[0])
    ensures Extract(s) == Extract(s[1..])
  {
    ExtractUnfolds(s);
    assert VMESS[0] == 'v' && VLESS[0] == 'v' && TROJAN[0] == 't' && SS[0] == 's';
  }

  lemma ExtractBlankLine(rest: string)
    ensures AtWordEnd("\n\n" + rest) && Extract("\n\n" + rest) == Extract(rest)
  {
    var text := "\n\n" + rest;
    assert text[0] == '\n' && text[1..] == "\n" + rest;
    ExtractSkipsSpace(text);
    assert text[1..][0] == '\n' && text[1..][1..] == rest;
    ExtractSkipsSpace(text[1..]);
  }

  lemma JoinFirst(configs: seq<string>)
    requires |configs| > 1
    ensures JoinLines(configs) == configs[0] + ("\n\n" + JoinLines(configs[1..]))
  {
  }

  /** The configs in each part, part by part. */
  function ExtractEach(parts: seq<string>): seq<string> {
    if parts == [] then [] else Extract(parts[0]) + ExtractEach(parts[1..])
  }

  /** Whatever the parts are, joining them with blank lines neither makes nor breaks a config. */
  lemma {:induction false} ExtractOfParts(parts: seq<string>)
    ensures Extract(JoinLines(parts)) == ExtractEach(parts)
  {
    if parts == [] {
      assert Extract([]) == [];
    } else if |parts| == 1 {
      assert Extract(parts[0]) + [] == Extract(parts[0]);
    } else {
      var rest := JoinLines(parts[1..]);
      JoinFirst(parts);
      ExtractBlankLine(rest);
      ExtractAppend(parts[0], "\n\n" + rest);
      ExtractOfParts(parts[1..]);
    }
  }

  lemma ExtractConfig(c: string)
    requires IsConfig(c)
    ensures Extract(c) == [c]
  {
    ExtractUnfolds(c);
    assert c[..|c|] == c && c[|c|..] == [] && Extract([]) == [];
  }

  lemma {:induction false} EachIsConfig(configs: seq<string>)
    requires forall i :: 0 <= i < |configs| ==> IsConfig(configs[i])
    ensures ExtractEach(configs) == configs
  {
    if configs != [] {
      ExtractConfig(configs[0]);
      EachIsConfig(configs[1..]);
      assert configs == [configs[0]] + configs[1..];
    }
  }

  /** The exporter's text is read back whole: joining configs with blank lines and extracting gives
      the same list. */
  lemma ExtractOfJoin(configs: seq<string>)
    requires forall i :: 0 <= i < |configs| ==> IsConfig(configs[i])
    ensures Extract(JoinLines(configs)) == configs
  {
    ExtractOfParts(configs);
    EachIsConfig(configs);
  }

  lemma WordIsConfig(scheme: string, word: string)
    requires scheme == VLESS || scheme == TROJAN
    requires word != [] && NoSpace(word)
    ensures IsConfig(scheme + word)
  {
    PrefixesExclude(scheme + word);
    RunOfAll(NonSpace, word);
    assert (scheme + word)[|scheme|..] == word;
  }
}
