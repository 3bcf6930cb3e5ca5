/** Putting clean IPs into share links (core/ip_manager.py).

    `ip` stands for text without a backslash: the source hands it to re.sub as a template, and every
    caller passes addresses that is_valid_ip accepted. */
module IpManager {
  import opened Text
  import opened ConfigPattern
  import opened HostPattern
  import opened ConfigUtils
  import opened Dedup
  import Json
  import PortPattern
  import Vmess

  datatype Modified = Unchanged | Changed(config: string)

  /** _apply_ip_vmess */
  function ApplyIpVmess(config: string, ip: string): Modified
    requires VMESS <= config
  {
    match Vmess.DecodeStrict(config)
    case Failure => Unchanged
    case Success(o) => Changed(Vmess.Encode(Json.Put(o, "add", Json.Str(ip))))
  }

  /** The remark, with the old server replaced where the project's own remarks carry it. */
  function NewFragment(base: string, fragment: string, ip: string): string {
    match SearchHost(base)
    case None => fragment
    case Some(previous) => Replace(fragment, "-" + previous, "-" + ip)
  }

  /** The branch of apply_ip_to_config for everything but vmess, on a stripped config. */
  function ApplyIpUri(config: string, ip: string): Modified {
    var base := Key(config);
    var newBase := SubHost(base, ip);
    var fragment := AfterHash(config);
    if fragment != [] then
      var result := newBase + "#" + NewFragment(base, fragment, ip);
      if result != config then Changed(result) else Unchanged
    else if newBase != base then Changed(newBase) else Unchanged
  }

  /** apply_ip_to_config */
  function ApplyIp(config: string, ip: string): Modified
    requires '\\' !in ip
  {
    var s := Strip(config);
    if VMESS <= s then ApplyIpVmess(s, ip) else ApplyIpUri(s, ip)
  }

  /** What apply_ips_to_configs outputs for one config. */
  function Applied(config: string, ip: string): string
    requires '\\' !in ip
  {
    match ApplyIp(config, ip)
    case Unchanged => config
    case Changed(c) => if c == [] then config else c
  }

  // ---------------------------------------------------------------------------------------------
  // URI links
  // ---------------------------------------------------------------------------------------------

  lemma BaseKeepsScheme(scheme: string, config: string)
    requires scheme == VLESS || scheme == TROJAN || scheme == SS
    requires scheme <= config && Trimmed(config)
    ensures scheme <= Key(config) <= config
  {
    var rest := config[|scheme|..];
    assert config == scheme + rest;
    BeforeHashAppend(scheme, rest);
    assert scheme <= BeforeHash(config);
    StripPrefix(scheme, BeforeHash(config));
    assert !IsSpace(BeforeHash(config)[0]);
  }

  lemma BaseIsUri(config: string) returns (scheme: string)
    requires IsUri(config) && Trimmed(config)
    ensures scheme == VLESS || scheme == TROJAN || scheme == SS
    ensures scheme <= Key(config) <= config
  {
    scheme := if VLESS <= config then VLESS else if TROJAN <= config then TROJAN else SS;
    BaseKeepsScheme(scheme, config);
  }

  /** The first host of any text that starts with a URI scheme and a match in `front`. */
  lemma HostFromFront(front: string, rest: string, scheme: string)
    requires scheme == VLESS || scheme == TROJAN || scheme == SS
    requires scheme <= front && SearchHost(front).Some?
    ensures ExtractHost(front + rest) == Host(Json.Str(SearchHost(front).host))
  {
    var s := front + rest;
    var m := SearchInPrefix(front, rest);
    assert scheme <= s;
    StripPrefix(scheme, s);
    assert m <= s && !IsSpace(m[0]);
    StripPrefix(m, s);
    var tail := Strip(s)[|m|..];
    assert Strip(s) == m + tail;
    var m2 := SearchInPrefix(m, tail);
  }

  lemma SubHostKeepsScheme(scheme: string, base: string, ip: string)
    requires scheme == VLESS || scheme == TROJAN || scheme == SS
    requires scheme <= base
    ensures scheme <= SubHost(base, ip)
  {
    assert base == scheme + base[|scheme|..];
    assert '@' !in scheme;
    SubHostKeepsPrefix(scheme, base[|scheme|..], ip);
  }

  function Kept(m: Modified, config: string): string {
    match m
    case Unchanged => config
    case Changed(c) => c
  }

  /** The config that results, or the input when nothing changed. */
  function Outcome(config: string, ip: string): string
    requires '\\' !in ip
  {
    Kept(ApplyIp(config, ip), config)
  }

  lemma OutcomeWithRemark(s: string, ip: string)
    requires AfterHash(s) != []
    ensures Kept(ApplyIpUri(s, ip), s)
         == SubHost(Key(s), ip) + ("#" + NewFragment(Key(s), AfterHash(s), ip))
  {
    Assoc(SubHost(Key(s), ip), "#", NewFragment(Key(s), AfterHash(s), ip));
  }

  lemma OutcomeWithoutRemark(s: string, ip: string)
    requires AfterHash(s) == []
    ensures Kept(ApplyIpUri(s, ip), s) == if SubHost(Key(s), ip) != Key(s) then SubHost(Key(s), ip) else s
  {
  }

  /** On a stripped URI link the outcome always starts with the rewritten base. */
  lemma UriOutcome(s: string, ip: string) returns (rest: string)
    requires IsUri(s) && Trimmed(s)
    ensures Kept(ApplyIpUri(s, ip), s) == SubHost(Key(s), ip) + rest
  {
    if AfterHash(s) != [] {
      rest := "#" + NewFragment(Key(s), AfterHash(s), ip);
      OutcomeWithRemark(s, ip);
    } else {
      rest := UriOutcomeWithoutRemark(s, ip);
    }
  }

  lemma UriOutcomeWithoutRemark(s: string, ip: string) returns (rest: string)
    requires IsUri(s) && Trimmed(s) && AfterHash(s) == []
    ensures Kept(ApplyIpUri(s, ip), s) == SubHost(Key(s), ip) + rest
  {
    OutcomeWithoutRemark(s, ip);
    if SubHost(Key(s), ip) != Key(s) {
      rest := [];
      NothingMore(SubHost(Key(s), ip));
    } else {
      rest := RestOfBase(s);
    }
  }

  lemma RestOfBase(s: string) returns (rest: string)
    requires IsUri(s) && Trimmed(s)
    ensures s == Key(s) + rest
  {
    var scheme := BaseIsUri(s);
    rest := s[|Key(s)|..];
  }

  lemma UriBranch(config: string, ip: string)
    requires '\\' !in ip && IsUri(Strip(config))
    ensures ApplyIp(config, ip) == ApplyIpUri(Strip(config), ip)
  {
    PrefixesExclude(Strip(config));
  }

  lemma OutcomeStartsWithBase(config: string, ip: string) returns (rest: string)
    requires '\\' !in ip && IsUri(Strip(config))
    ensures Strip(Outcome(config, ip)) == Strip(SubHost(Key(Strip(config)), ip) + rest)
  {
    StripTrims(config);
    TrimmedIsFixed(Strip(config));
    UriBranch(config, ip);
    rest := UriOutcome(Strip(config), ip);
  }

  /** Host rewriting works: on a URI link whose base names a server, the server read back is the ip
      just applied, for exactly those ips that can be read back at all. */
  lemma AppliedHostIsRead(config: string, ip: string)
    requires '\\' !in ip && IsUri(Strip(config))
    requires SearchHost(Key(Strip(config))).Some?
    ensures ExtractHost(Outcome(config, ip)) == Host(Json.Str(ip)) <==> ip != [] && ':' !in ip
  {
    if ip != [] && ':' !in ip {
      var s := Strip(config);
      StripTrims(config);
      var scheme := BaseIsUri(s);
      var rest := OutcomeStartsWithBase(config, ip);
      SubHostKeepsScheme(scheme, Key(s), ip);
      NewHostIsFound(Key(s), ip);
      HostFromFront(SubHost(Key(s), ip), rest, scheme);
    } else {
      UriHostIsPlain(Outcome(config, ip));
      OutcomeIsUri(config, ip);
    }
  }

  /** A URI link whose base names a server. */
  predicate NamesServer(config: string) {
    IsUri(Strip(config)) && SearchHost(Key(Strip(config))).Some?
  }

  lemma NoHostInNothing()
    ensures ExtractHost([]) == NoHost
  {
  }

  /** The same for a line of apply_ips_to_configs. */
  lemma AppliedLineIsRead(config: string, ip: string)
    requires '\\' !in ip && NamesServer(config) && ip != [] && ':' !in ip
    ensures ExtractHost(Applied(config, ip)) == Host(Json.Str(ip))
  {
    AppliedHostIsRead(config, ip);
    NoHostInNothing();
  }

  /** In a remark of the form country-server the server is replaced along with the one in the base. */
  lemma CountryServerRemarkFollows(base: string, country: string, h: string, ip: string)
    requires '\\' !in ip && IsUri(base) && Trimmed(base) && '#' !in base
    requires SearchHost(base) == Some(h) && NoSpace(h) && '-' !in country
    ensures Outcome(base + "#" + (country + ("-" + h)), ip)
         == SubHost(base, ip) + ("#" + (country + ("-" + ip)))
  {
    var fragment := country + ("-" + h);
    var config := base + "#" + fragment;
    AfterHashAppend(base, fragment);
    TrimmedIsFixed(base);
    EndsInHost(base, fragment, h);
    TrimmedIsFixed(config);
    UriBranch(config, ip);
    OutcomeWithRemark(config, ip);
    ReplaceSuffix(country, "-" + h, "-" + ip);
  }

  lemma EndsInHost(base: string, fragment: string, h: string)
    requires IsUri(base) && Trimmed(base) && h != [] && NoSpace(h) && |h| <= |fragment|
    requires fragment[|fragment| - 1] == h[|h| - 1]
    ensures Trimmed(base + "#" + fragment) && IsUri(base + "#" + fragment)
  {
    var config := base + "#" + fragment;
    assert config == base + ("#" + fragment);
    assert config[0] == base[0] && config[|config| - 1] == h[|h| - 1];
    assert base <= config;
  }

  predicate IsRemainder(tail: string) {
    tail == [] || tail[0] == '#'
  }

  lemma SplitAtHash(config: string) returns (tail: string)
    requires NoSpace(config)
    ensures config == Key(config) + tail && IsRemainder(tail)
    ensures NoSpace(Key(config))
  {
    var front := BeforeHash(config);
    assert NoSpace(front);
    TrimmedIsFixed(front);
    tail := config[|front|..];
    if '#' in config { HashSplits(config); } else { BeforeHashFixed(config); }
  }

  /** Only the base is rewritten: the outcome is the rewritten base and then a remark, if any. */
  lemma OutcomeParts(config: string, ip: string) returns (tail: string)
    requires '\\' !in ip && IsUri(config) && NoSpace(config)
    ensures Outcome(config, ip) == SubHost(Key(config), ip) + tail && IsRemainder(tail)
  {
    TrimmedIsFixed(config);
    UriBranch(config, ip);
    if AfterHash(config) != [] {
      tail := "#" + NewFragment(Key(config), AfterHash(config), ip);
      OutcomeWithRemark(config, ip);
    } else if SubHost(Key(config), ip) != Key(config) {
      OutcomeWithoutRemark(config, ip);
      tail := [];
      assert SubHost(Key(config), ip) + [] == SubHost(Key(config), ip);
    } else {
      OutcomeWithoutRemark(config, ip);
      tail := SplitAtHash(config);
    }
  }

  /** The port that a link's base names is read from the link, whatever remark follows. */
  lemma PortOfBase(base: string, tail: string)
    requires NoSpace(base) && IsRemainder(tail) && PortPattern.SearchPort(base).Some?
    requires IsUri(base)
    ensures ExtractPort(base + tail) == PortOfMatch(PortPattern.SearchPort(base))
  {
    PrefixesExclude(base + tail);
    if tail == [] {
      assert base + tail == base;
    } else {
      PortPattern.PortBeforeRemark(base, tail);
    }
  }

  /** Applying an IP keeps the port that the base of a URI link names. */
  lemma AppliedKeepsPort(config: string, ip: string)
    requires '\\' !in ip && ':' !in ip && NoSpace(ip)
    requires IsUri(config) && NoSpace(config) && PortPattern.SearchPort(Key(config)).Some?
    ensures ExtractPort(Outcome(config, ip)) == ExtractPort(config)
         == PortOfMatch(PortPattern.SearchPort(Key(config)))
  {
    var scheme := BaseIsUri(config);
    var tail := SplitAtHash(config);
    PortOfBase(Key(config), tail);
    var newTail := OutcomeParts(config, ip);
    SubHostKeepsScheme(scheme, Key(config), ip);
    SubHostNoSpace(Key(config), ip);
    PortPattern.SubHostKeepsPort(Key(config), ip);
    PortOfBase(SubHost(Key(config), ip), newTail);
  }

  lemma {:induction false} SubHostNoSpace(s: string, ip: string)
    requires NoSpace(s) && NoSpace(ip)
    ensures NoSpace(SubHost(s, ip))
    decreases |s|
  {
    if s != [] {
      match HostHere(s)
      case None => SubHostNoSpace(s[1..], ip);
      case Some(h) => SubHostNoSpace(s[|h| + 2..], ip);
    }
  }

  lemma UriHostIsPlain(config: string)
    ensures IsUri(Strip(config)) && ExtractHost(config).Host? ==>
              exists h :: ExtractHost(config) == Host(Json.Str(h)) && h != [] && ':' !in h
  {
  }

  lemma OutcomeIsUri(config: string, ip: string)
    requires '\\' !in ip && IsUri(Strip(config))
    ensures IsUri(Strip(Outcome(config, ip)))
  {
    StripTrims(config);
    var scheme := BaseIsUri(Strip(config));
    var rest := OutcomeStartsWithBase(config, ip);
    var newBase := SubHost(Key(Strip(config)), ip);
    SubHostKeepsScheme(scheme, Key(Strip(config)), ip);
    SchemeSurvives(scheme, newBase + rest);
  }

  lemma SchemeSurvives(scheme: string, s: string)
    requires scheme == VLESS || scheme == TROJAN || scheme == SS
    requires scheme <= s
    ensures IsUri(Strip(s))
  {
    StripPrefix(scheme, s);
  }

  lemma {:induction false} SubHostEnd(s: string, ip: string)
    requires s != []
    ensures SubHost(s, ip) != []
    ensures SubHost(s, ip)[|SubHost(s, ip)| - 1] == s[|s| - 1]
    decreases |s|
  {
    match HostHere(s)
    case None =>
      if |s| > 1 { SubHostEnd(s[1..], ip); }
    case Some(h) =>
      if |s| > |h| + 2 {
        SubHostEnd(s[|h| + 2..], ip);
      } else {
        assert s[|s| - 1] == s[..|h| + 2][|h| + 1] == ':';
      }
  }

  lemma {:induction false} SubHostKeepsOut(s: string, ip: string, c: char)
    requires c !in s && c !in ip
    ensures c !in SubHost(s, ip)
    decreases |s|
  {
    if s != [] {
      match HostHere(s)
      case None => SubHostKeepsOut(s[1..], ip, c);
      case Some(h) =>
        SubHostKeepsOut(s[|h| + 2..], ip, c);
        assert s[0] == '@' && s[|h| + 1] == ':';
        assert c !in "@" + ip + ":";
    }
  }

  lemma {:induction false} ReplaceEnd(s: string, from: string, to: string)
    requires from != [] && s != [] && !IsSpace(s[|s| - 1])
    requires to != [] && !IsSpace(to[|to| - 1])
    ensures Replace(s, from, to) != []
    ensures !IsSpace(Replace(s, from, to)[|Replace(s, from, to)| - 1])
    decreases |s|
  {
    if from <= s {
      if |s| > |from| { ReplaceEnd(s[|from|..], from, to); }
    } else if |s| > 1 {
      ReplaceEnd(s[1..], from, to);
    }
  }

  lemma BaseEnds(s: string)
    requires IsUri(s) && Trimmed(s)
    ensures Key(s) != [] && !IsSpace(Key(s)[|Key(s)| - 1])
  {
    var scheme := BaseIsUri(s);
    StripTrims(BeforeHash(s));
    assert |scheme| >= 5;
  }

  lemma NewBaseIsTrimmed(scheme: string, base: string, ip: string)
    requires scheme == VLESS || scheme == TROJAN || scheme == SS
    requires scheme <= base && !IsSpace(base[|base| - 1])
    ensures scheme <= SubHost(base, ip) && SubHost(base, ip) != [] && Trimmed(SubHost(base, ip))
  {
    SubHostKeepsScheme(scheme, base, ip);
    SubHostEnd(base, ip);
    assert SubHost(base, ip)[0] == scheme[0];
  }

  /** An address as the pipeline uses it: not empty, without ':', '#', backslash or whitespace. */
  predicate PlainAddress(ip: string) {
    ip != [] && ':' !in ip && '#' !in ip && '\\' !in ip && NoSpace(ip)
  }

  lemma KeyHasNoHash(s: string)
    ensures '#' !in Key(s)
  {
    var b := BeforeHash(s);
    LStripSubset(b);
  }

  /** The rewritten base is a base again: no remark, nothing to strip, same scheme. */
  lemma NewBaseIsBase(s: string, ip: string) returns (scheme: string)
    requires IsUri(s) && Trimmed(s) && PlainAddress(ip)
    ensures scheme == VLESS || scheme == TROJAN || scheme == SS
    ensures var newBase := SubHost(Key(s), ip);
            && scheme <= newBase && newBase != [] && '#' !in newBase && Trimmed(newBase)
            && SubHost(newBase, ip) == newBase
  {
    scheme := BaseIsUri(s);
    BaseEnds(s);
    KeyHasNoHash(s);
    NewBaseIsTrimmed(scheme, Key(s), ip);
    SubHostKeepsOut(Key(s), ip, '#');
    LastHostWins(Key(s), ip, ip);
  }

  predicate EndsVisibly(s: string) {
    s != [] && !IsSpace(s[|s| - 1])
  }

  lemma FragmentEnds(s: string)
    requires Trimmed(s) && AfterHash(s) != []
    ensures EndsVisibly(AfterHash(s))
  {
    HashSplits(s);
    assert AfterHash(s)[|AfterHash(s)| - 1] == s[|s| - 1];
  }

  lemma ReplacedEnds(base: string, fragment: string, ip: string)
    requires EndsVisibly(fragment) && ip != [] && NoSpace(ip)
    ensures EndsVisibly(NewFragment(base, fragment, ip))
  {
    match SearchHost(base)
    case None =>
    case Some(h) =>
      var to := "-" + ip;
      assert to[|to| - 1] == ip[|ip| - 1];
      ReplaceEnd(fragment, "-" + h, to);
  }

  lemma FragmentIsTrimmed(s: string, ip: string)
    requires Trimmed(s) && AfterHash(s) != [] && ip != [] && NoSpace(ip)
    ensures EndsVisibly(NewFragment(Key(s), AfterHash(s), ip))
  {
    FragmentEnds(s);
    ReplacedEnds(Key(s), AfterHash(s), ip);
  }

  lemma OutcomeOfRemarked(s: string, ip: string)
    requires IsUri(s) && Trimmed(s) && AfterHash(s) != [] && '\\' !in ip
    ensures Outcome(s, ip) == SubHost(Key(s), ip) + ("#" + NewFragment(Key(s), AfterHash(s), ip))
  {
    TrimmedIsFixed(s);
    UriBranch(s, ip);
    OutcomeWithRemark(s, ip);
  }

  /** A remark as it is left on a rewritten base. */
  predicate IsRemarked(r: string, newBase: string, f: string) {
    IsUri(r) && Trimmed(r) && Key(r) == newBase && AfterHash(r) == f && f != []
  }

  lemma RemarkedIsUri(scheme: string, newBase: string, f: string)
    requires scheme == VLESS || scheme == TROJAN || scheme == SS
    requires scheme <= newBase && newBase != [] && '#' !in newBase && Trimmed(newBase)
    requires EndsVisibly(f)
    ensures var r := newBase + ("#" + f);
            IsUri(r) && Trimmed(r) && Key(r) == newBase && AfterHash(r) == f
  {
    Assoc(newBase, "#", f);
    RemarkIsTrimmed(newBase, f);
    AfterHashAppend(newBase, f);
    TrimmedIsFixed(newBase);
    assert scheme <= newBase + ("#" + f);
  }

  lemma RewrittenIs(s: string, a: string, f: string, r: string)
    requires IsUri(s) && Trimmed(s) && AfterHash(s) != [] && PlainAddress(a)
    requires f == NewFragment(Key(s), AfterHash(s), a) && r == SubHost(Key(s), a) + ("#" + f)
    ensures IsRemarked(r, SubHost(Key(s), a), f)
  {
    FragmentIsTrimmed(s, a);
    var scheme := NewBaseIsBase(s, a);
    RemarkedIsUri(scheme, SubHost(Key(s), a), f);
  }

  lemma RewrittenParts(s: string, a: string)
    requires IsUri(s) && Trimmed(s) && AfterHash(s) != [] && PlainAddress(a)
    ensures IsRemarked(Outcome(s, a), SubHost(Key(s), a), NewFragment(Key(s), AfterHash(s), a))
  {
    OutcomeOfRemarked(s, a);
    RewrittenIs(s, a, NewFragment(Key(s), AfterHash(s), a), Outcome(s, a));
  }

  lemma FragmentIsStable(base: string, fragment: string, ip: string)
    requires ip != [] && ':' !in ip
    ensures NewFragment(SubHost(base, ip), NewFragment(base, fragment, ip), ip) == NewFragment(base, fragment, ip)
  {
    NewHostIsFound(base, ip);
    ReplaceBySelf(NewFragment(base, fragment, ip), "-" + ip);
  }

  lemma StaysAsItIs(r: string, newBase: string, f: string, ip: string)
    requires IsRemarked(r, newBase, f) && r == newBase + ("#" + f)
    requires SubHost(newBase, ip) == newBase && NewFragment(newBase, f, ip) == f
    ensures ApplyIpUri(r, ip) == Unchanged
  {
    Assoc(newBase, "#", f);
  }

  lemma RemarkedApplyAgain(s: string, ip: string)
    requires IsUri(s) && Trimmed(s) && PlainAddress(ip) && AfterHash(s) != []
    ensures var r := Outcome(s, ip); IsUri(r) && Trimmed(r) && ApplyIpUri(r, ip) == Unchanged
  {
    RewrittenParts(s, ip);
    OutcomeOfRemarked(s, ip);
    FragmentIsStable(Key(s), AfterHash(s), ip);
    LastHostWins(Key(s), ip, ip);
    StaysAsItIs(Outcome(s, ip), SubHost(Key(s), ip), NewFragment(Key(s), AfterHash(s), ip), ip);
  }

  lemma ApplyAgainWithoutRemark(newBase: string, ip: string)
    requires '#' !in newBase && Trimmed(newBase) && SubHost(newBase, ip) == newBase
    ensures ApplyIpUri(newBase, ip) == Unchanged
  {
    BeforeHashFixed(newBase);
    TrimmedIsFixed(newBase);
  }

  lemma UriApplyAgain(s: string, ip: string)
    requires IsUri(s) && Trimmed(s) && PlainAddress(ip) && ApplyIp(s, ip).Changed?
    ensures var r := ApplyIp(s, ip).config; IsUri(r) && Trimmed(r) && ApplyIpUri(r, ip) == Unchanged
  {
    TrimmedIsFixed(s);
    UriBranch(s, ip);
    if AfterHash(s) == [] {
      var scheme := NewBaseIsBase(s, ip);
      ApplyAgainWithoutRemark(SubHost(Key(s), ip), ip);
    } else {
      RemarkedApplyAgain(s, ip);
    }
  }

  /** Applying the same ip again changes nothing: the second call reports no change. */
  lemma ApplyAgainIsIdle(config: string, ip: string)
    requires IsUri(Strip(config)) && PlainAddress(ip)
    requires ApplyIp(config, ip).Changed?
    ensures ApplyIp(ApplyIp(config, ip).config, ip) == Unchanged
  {
    var s := Strip(config);
    StripTrims(config);
    TrimmedIsFixed(s);
    UriApplyAgain(s, ip);
    var r := ApplyIp(s, ip).config;
    TrimmedIsFixed(r);
    UriBranch(r, ip);
  }

  lemma RemarkIsTrimmed(newBase: string, f: string)
    requires newBase != [] && Trimmed(newBase) && EndsVisibly(f)
    ensures Trimmed(newBase + "#" + f)
  {
    var r := newBase + "#" + f;
    assert r[0] == newBase[0] && r[|r| - 1] == f[|f| - 1];
  }

  // ---------------------------------------------------------------------------------------------
  // Two addresses in a row
  // ---------------------------------------------------------------------------------------------

  /** How often a remark names the address `a` itself, apart from what is replaced because it names h. */
  function Strays(remark: string, h: string, a: string): nat
    decreases |remark|
  {
    if remark == [] then 0
    else if "-" + h <= remark then Strays(remark[|h| + 1..], h, a)
    else (if "-" + a <= remark then 1 else 0) + Strays(remark[1..], h, a)
  }

  /** Text without '-' is copied. */
  lemma {:induction false} ReplaceSkips(p: string, t: string, from: string, to: string)
    requires from != [] && from[0] == '-' && '-' !in p
    ensures Replace(p + t, from, to) == p + Replace(t, from, to)
  {
    if p == [] {
      assert p + t == t;
    } else {
      assert (p + t)[0] == p[0] && (p + t)[1..] == p[1..] + t;
      ReplaceSkips(p[1..], t, from, to);
    }
  }

  /** A replacement of texts that begin with '-' neither makes nor breaks a beginning without '-'. */
  lemma {:induction false} SameBeginning(a: string, t: string, from: string, to: string)
    requires from != [] && from[0] == '-' && to != [] && to[0] == '-' && '-' !in a
    ensures a <= Replace(t, from, to) <==> a <= t
  {
    if a != [] && t != [] && !(from <= t) {
      SameBeginning(a[1..], t[1..], from, to);
      assert a <= t <==> a[0] == t[0] && a[1..] <= t[1..];
      var r := Replace(t[1..], from, to);
      assert a <= [t[0]] + r <==> a[0] == t[0] && a[1..] <= r;
    }
  }

  lemma DashedBeginning(a: string, s: string)
    ensures "-" + a <= s <==> s != [] && s[0] == '-' && a <= s[1..]
  {
    if s != [] { assert s == [s[0]] + s[1..]; }
  }

  lemma {:induction false} StraysSkip(p: string, t: string, h: string, a: string)
    requires '-' !in p
    ensures Strays(p + t, h, a) == Strays(t, h, a)
  {
    if p == [] {
      assert p + t == t;
    } else {
      assert (p + t)[0] == p[0] && (p + t)[1..] == p[1..] + t;
      DashedBeginning(h, p + t);
      DashedBeginning(a, p + t);
      StraysSkip(p[1..], t, h, a);
    }
  }

  /** The remark after h was replaced by a and then a by b, and after h was replaced by b. */
  function Twice(t: string, h: string, a: string, b: string): string {
    Replace(Replace(t, "-" + h, "-" + a), "-" + a, "-" + b)
  }

  function Once(t: string, h: string, b: string): string {
    Replace(t, "-" + h, "-" + b)
  }

  lemma ReplaceThen(from: string, to: string, t: string)
    requires from != []
    ensures Replace(from + t, from, to) == to + Replace(t, from, to)
  {
    assert (from + t)[|from|..] == t;
  }

  lemma TwiceAtHost(t: string, h: string, a: string, b: string)
    requires "-" + h <= t
    ensures Twice(t, h, a, b) == ("-" + b) + Twice(t[|h| + 1..], h, a, b)
    ensures Once(t, h, b) == ("-" + b) + Once(t[|h| + 1..], h, b)
  {
    ReplaceThen("-" + a, "-" + b, Replace(t[|h| + 1..], "-" + h, "-" + a));
  }

  lemma TwiceAtStray(u: string, h: string, a: string, b: string)
    requires '-' !in a && !("-" + h <= "-" + a + u)
    ensures Twice("-" + a + u, h, a, b) == ("-" + b) + Twice(u, h, a, b)
    ensures Once("-" + a + u, h, b) == ("-" + a) + Once(u, h, b)
    ensures Strays("-" + a + u, h, a) == 1 + Strays(u, h, a)
  {
    var t := "-" + a + u;
    assert t[1..] == a + u;
    assert "-" + a <= t;
    ReplaceSkips(a, u, "-" + h, "-" + a);
    ReplaceSkips(a, u, "-" + h, "-" + b);
    StraysSkip(a, u, h, a);
    Assoc("-", a, Replace(u, "-" + h, "-" + a));
    Assoc("-", a, Replace(u, "-" + h, "-" + b));
    ReplaceThen("-" + a, "-" + b, Replace(u, "-" + h, "-" + a));
  }

  lemma TwiceElsewhere(t: string, h: string, a: string, b: string)
    requires t != [] && '-' !in a && !("-" + h <= t) && !("-" + a <= t)
    ensures Twice(t, h, a, b) == [t[0]] + Twice(t[1..], h, a, b)
    ensures Once(t, h, b) == [t[0]] + Once(t[1..], h, b)
  {
    var r := Replace(t[1..], "-" + h, "-" + a);
    SameBeginning(a, t[1..], "-" + h, "-" + a);
    DashedBeginning(a, t);
    DashedBeginning(a, [t[0]] + r);
    assert ([t[0]] + r)[1..] == r;
  }

  /** Every stray mention makes the one text longer than the other, if the addresses differ in length. */
  lemma {:induction false} TwiceLength(t: string, h: string, a: string, b: string)
    requires '-' !in a
    ensures |a| < |b| ==> |Once(t, h, b)| + Strays(t, h, a) <= |Twice(t, h, a, b)|
    ensures |a| > |b| ==> |Twice(t, h, a, b)| + Strays(t, h, a) <= |Once(t, h, b)|
    decreases |t|
  {
    if t == [] {
    } else if "-" + h <= t {
      TwiceAtHost(t, h, a, b);
      TwiceLength(t[|h| + 1..], h, a, b);
    } else if "-" + a <= t {
      StraySplits(t, a);
      TwiceAtStray(t[|a| + 1..], h, a, b);
      TwiceLength(t[|a| + 1..], h, a, b);
    } else {
      TwiceElsewhere(t, h, a, b);
      TwiceLength(t[1..], h, a, b);
    }
  }

  lemma StraySplits(t: string, a: string)
    requires "-" + a <= t
    ensures t == "-" + a + t[|a| + 1..]
  {
  }

  lemma StrayShows(u: string, h: string, a: string, b: string)
    requires '-' !in a && a != b && !("-" + h <= "-" + a + u)
    ensures Twice("-" + a + u, h, a, b) != Once("-" + a + u, h, b)
  {
    if |a| == |b| {
      assert ("-" + a)[1..] == a && ("-" + b)[1..] == b;
      TwiceAtStray(u, h, a, b);
      DifferentHeads("-" + b, "-" + a, Twice(u, h, a, b), Once(u, h, b));
    } else {
      TwiceAtStray(u, h, a, b);
      TwiceLength("-" + a + u, h, a, b);
    }
  }

  lemma DifferentHeads(p: string, q: string, s: string, t: string)
    requires |p| == |q| && p != q
    ensures p + s != q + t
  {
    assert (p + s)[..|p|] == p && (q + t)[..|q|] == q;
  }

  lemma SameHeads(p: string, s: string, t: string)
    ensures p + s == p + t <==> s == t
  {
    assert (p + s)[|p|..] == s && (p + t)[|p|..] == t;
  }

  /** In the remark the last address wins exactly when there is no stray mention of the first. */
  lemma {:induction false} TwiceIsOnceIff(t: string, h: string, a: string, b: string)
    requires '-' !in a && a != b
    ensures Twice(t, h, a, b) == Once(t, h, b) <==> Strays(t, h, a) == 0
    decreases |t|
  {
    if t == [] {
    } else if "-" + h <= t {
      TwiceAtHost(t, h, a, b);
      SameHeads("-" + b, Twice(t[|h| + 1..], h, a, b), Once(t[|h| + 1..], h, b));
      TwiceIsOnceIff(t[|h| + 1..], h, a, b);
    } else if "-" + a <= t {
      StraySplits(t, a);
      StrayShows(t[|a| + 1..], h, a, b);
    } else {
      TwiceElsewhere(t, h, a, b);
      SameHeads([t[0]], Twice(t[1..], h, a, b), Once(t[1..], h, b));
      TwiceIsOnceIff(t[1..], h, a, b);
    }
  }

  lemma RemarkTwice(base: string, f: string, a: string, b: string)
    requires a != [] && ':' !in a && '-' !in a
    ensures NewFragment(SubHost(base, a), NewFragment(base, f, a), b) == NewFragment(base, f, b)
       <==> a == b || SearchHost(base).None? || Strays(f, SearchHost(base).host, a) == 0
  {
    NewHostIsFound(base, a);
    if SearchHost(base).Some? {
      if a == b {
        FragmentIsStable(base, f, a);
      } else {
        TwiceIsOnceIff(f, SearchHost(base).host, a, b);
      }
    }
  }

  lemma SecondOutcome(s: string, a: string, b: string)
    requires IsUri(s) && Trimmed(s) && AfterHash(s) != [] && PlainAddress(a) && '\\' !in b
    ensures Outcome(Outcome(s, a), b)
         == SubHost(Key(s), b) + ("#" + NewFragment(SubHost(Key(s), a), NewFragment(Key(s), AfterHash(s), a), b))
  {
    RewrittenParts(s, a);
    OutcomeOfRemarked(Outcome(s, a), b);
    LastHostWins(Key(s), a, b);
  }

  lemma SameRemarks(base: string, f: string, g: string)
    ensures base + ("#" + f) == base + ("#" + g) <==> f == g
  {
    SameHeads(base, "#" + f, "#" + g);
    SameHeads("#", f, g);
  }

  /** On a stripped URI link with a remark: the base takes the last address, and so does the remark unless
      it mentions the first address by itself. */
  lemma LastIpWinsWithRemark(s: string, a: string, b: string)
    requires IsUri(s) && Trimmed(s) && AfterHash(s) != [] && PlainAddress(a) && '-' !in a && '\\' !in b
    ensures Outcome(Outcome(s, a), b) == Outcome(s, b) <==>
              a == b || SearchHost(Key(s)).None? || Strays(AfterHash(s), SearchHost(Key(s)).host, a) == 0
  {
    SecondOutcome(s, a, b);
    OutcomeOfRemarked(s, b);
    RemarkTwice(Key(s), AfterHash(s), a, b);
    SameRemarks(SubHost(Key(s), b), NewFragment(SubHost(Key(s), a), NewFragment(Key(s), AfterHash(s), a), b),
                NewFragment(Key(s), AfterHash(s), b));
  }

  lemma OutcomeOfBare(s: string, ip: string)
    requires IsUri(s) && Trimmed(s) && AfterHash(s) == [] && '\\' !in ip
    ensures Outcome(s, ip) == if SubHost(Key(s), ip) != Key(s) then SubHost(Key(s), ip) else s
  {
    TrimmedIsFixed(s);
    UriBranch(s, ip);
    OutcomeWithoutRemark(s, ip);
  }

  lemma BareIsItsKey(s: string)
    requires Trimmed(s) && '#' !in s
    ensures Key(s) == s && AfterHash(s) == []
  {
    BeforeHashFixed(s);
    TrimmedIsFixed(s);
  }

  /** Without a remark only a '#' at the end is in the way: the first address drops it, and the second does
      not, if it is the one that was there. */
  lemma LastIpWinsWithoutRemark(s: string, a: string, b: string)
    requires IsUri(s) && Trimmed(s) && AfterHash(s) == [] && PlainAddress(a) && '\\' !in b
    ensures Outcome(Outcome(s, a), b) == Outcome(s, b) <==>
              '#' !in s || SubHost(Key(s), a) == Key(s) || SubHost(Key(s), b) != Key(s)
  {
    OutcomeOfBare(s, a);
    OutcomeOfBare(s, b);
    KeyHasNoHash(s);
    if SubHost(Key(s), a) != Key(s) {
      var newBase := SubHost(Key(s), a);
      var scheme := NewBaseIsBase(s, a);
      BareIsItsKey(newBase);
      OutcomeOfBare(newBase, b);
      LastHostWins(Key(s), a, b);
      if '#' !in s { BareIsItsKey(s); }
    }
  }

  lemma MentionSpoils(base: string, f: string, h: string, a: string, b: string)
    requires Trimmed(base) && '#' !in base && IsUri(base + "#" + f) && Trimmed(base + "#" + f)
    requires SearchHost(base) == Some(h) && f != [] && Strays(f, h, a) > 0
    requires PlainAddress(a) && '-' !in a && '\\' !in b && a != b
    ensures Outcome(Outcome(base + "#" + f, a), b) != Outcome(base + "#" + f, b)
  {
    AfterHashAppend(base, f);
    TrimmedIsFixed(base);
    LastIpWinsWithRemark(base + "#" + f, a, b);
  }

  lemma ExampleBase()
    ensures var base := VLESS + "u@h:1"; Trimmed(base) && '#' !in base && SearchHost(base) == Some("h")
  {
    HostHereOf("h", "1");
    assert VLESS + "u@h:1" == (VLESS + "u") + ("@" + "h" + ":" + "1");
    SearchSkips(VLESS + "u", "@" + "h" + ":" + "1");
  }

  lemma ExampleStrays()
    ensures Strays("x-9-h", "h", "9") > 0
  {
    assert "x-9-h" == "x" + ("-" + "9" + "-h");
    StraysSkip("x", "-" + "9" + "-h", "h", "9");
    assert ("-" + "9" + "-h")[1] == '9';
    TwiceAtStray("-h", "h", "9", "8");
  }

  lemma LinkIsUri(rest: string, f: string)
    requires EndsVisibly(f)
    ensures IsUri(VLESS + rest + "#" + f) && Trimmed(VLESS + rest + "#" + f)
  {
    var s := VLESS + rest + "#" + f;
    assert VLESS <= s && s[|s| - 1] == f[|f| - 1];
  }

  /** vless://u@h:1#x-9-h with 9 and then 8: the remark becomes x-9-9 and x-8-8, not x-9-8. */
  lemma LastIpExample()
    ensures var s := VLESS + "u@h:1" + "#" + "x-9-h"; Outcome(Outcome(s, "9"), "8") != Outcome(s, "8")
  {
    ExampleBase();
    ExampleStrays();
    LinkIsUri("u@h:1", "x-9-h");
    MentionSpoils(VLESS + "u@h:1", "x-9-h", "h", "9", "8");
  }

  // ---------------------------------------------------------------------------------------------
  // vmess links
  // ---------------------------------------------------------------------------------------------

  /** On a decodable vmess link exactly the field "add" changes; the server read back is ip, and the
      port is the one it was. */
  lemma AppliedVmess(config: string, ip: string)
    requires '\\' !in ip && VMESS <= Strip(config) && Vmess.DecodeStrict(Strip(config)).Success?
    ensures ApplyIp(config, ip).Changed?
    ensures var r := ApplyIp(config, ip).config;
            && VMESS <= r
            && Vmess.DecodeStrict(r) == Json.Success(Json.Put(Vmess.DecodeStrict(Strip(config)).o, "add", Json.Str(ip)))
            && ExtractHost(r) == Host(Json.Str(ip))
            && ExtractVmessPort(r) == ExtractVmessPort(Strip(config))
  {
    var s := Strip(config);
    Vmess.PutRoundTrip(s, "add", Json.Str(ip));
    Vmess.EncodedIsStripped(Json.Put(Vmess.DecodeStrict(s).o, "add", Json.Str(ip)));
    VmessHost(ApplyIp(config, ip).config);
    FieldsAfterPut(s, "add", Json.Str(ip), "add");
    assert "port" != "add";
    FieldsAfterPut(s, "add", Json.Str(ip), "port");
  }

  /** Every other field is as it was. */
  lemma AppliedVmessKeepsFields(config: string, ip: string, key: string)
    requires '\\' !in ip && VMESS <= Strip(config) && Vmess.DecodeStrict(Strip(config)).Success?
    requires key != "add"
    ensures var r := Outcome(config, ip);
            && VMESS <= r && Vmess.DecodeStrict(r).Success?
            && Json.Get(Vmess.DecodeStrict(r).o, key) == Json.Get(Vmess.DecodeStrict(Strip(config)).o, key)
  {
    AppliedVmess(config, ip);
    Json.GetAfterPut(Vmess.DecodeStrict(Strip(config)).o, "add", Json.Str(ip), key);
  }

  /** The last applied ip wins on vmess links, byte for byte. */
  lemma LastIpWinsVmess(config: string, a: string, b: string)
    requires '\\' !in a && '\\' !in b
    requires VMESS <= Strip(config) && Vmess.DecodeStrict(Strip(config)).Success?
    ensures ApplyIp(config, a).Changed?
    ensures ApplyIp(ApplyIp(config, a).config, b) == ApplyIp(config, b)
  {
    var o := Vmess.DecodeStrict(Strip(config)).o;
    Vmess.PutRoundTrip(Strip(config), "add", Json.Str(a));
    Vmess.EncodedIsStripped(Json.Put(o, "add", Json.Str(a)));
    Json.PutTwice(o, "add", Json.Str(a), Json.Str(b));
  }
}
