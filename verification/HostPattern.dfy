/** The pattern @([^:]+): that finds the server in a share link (core/utils.py, core/ip_manager.py),
    and its replacement. */
module HostPattern {
  import opened Regex
  import opened Text

  /** @[^:]+: */
  const AT_HOST := Cat(Lit("@"), Cat(Many(NotColon, 1, true), Lit(":")))

  datatype Found = None | Some(host: string)

  /** The host of a match at the very start. */
  function HostHere(s: string): (f: Found)
    ensures f.Some? ==> f.host != [] && ':' !in f.host
    ensures f.Some? ==> |f.host| + 2 <= |s| && s[..|f.host| + 2] == "@" + f.host + ":"
  {
    if s == [] || s[0] != '@' then None
    else
      var n := Run(NotColon, s[1..]);
      if n == 0 || n + 1 == |s| then None
      else
        assert s[..n + 2] == "@" + s[1..][..n] + ":";
        Some(s[1..][..n])
  }

  /** Group 1 of re.search. */
  function SearchHost(s: string): (f: Found)
    ensures f.Some? ==> f.host != [] && ':' !in f.host
  {
    if s == [] then None
    else if HostHere(s).Some? then HostHere(s)
    else SearchHost(s[1..])
  }

  /** re.sub(r"@[^:]+:", f"@{ip}:", s) */
  function SubHost(s: string, ip: string): string
    decreases |s|
  {
    if s == [] then []
    else match HostHere(s)
      case None => [s[0]] + SubHost(s[1..], ip)
      case Some(h) => "@" + ip + ":" + SubHost(s[|h| + 2..], ip)
  }

  // ---------------------------------------------------------------------------------------------
  // These are the regular expression's own answers
  // ---------------------------------------------------------------------------------------------

  lemma HostHereIsPattern(s: string)
    ensures First(AT_HOST, s)
         == match HostHere(s) case None => NoMatch case Some(h) => Length(|h| + 2)
  {
    FirstAfterLit("@", Cat(Many(NotColon, 1, true), Lit(":")), s);
    if "@" <= s {
      var t := s[1..];
      ColonRefuses();
      FirstAfterRun(NotColon, 1, true, Lit(":"), t);
      var n := Run(NotColon, t);
      if 0 < n < |t| { assert t[n] == ':'; }
    }
  }

  lemma ColonRefuses()
    ensures RefusesStart(Lit(":"), NotColon)
  {
    forall t: string {:trigger First(Lit(":"), t)} | t != [] && NotColon.Has(t[0])
      ensures First(Lit(":"), t).NoMatch?
    {
      assert !(":" <= t);
    }
  }

  lemma {:induction false} SearchHostIsPattern(s: string)
    ensures var from := SearchFrom(AT_HOST, s);
            SearchHost(s) == if from == [] then None else HostHere(from)
  {
    if s != [] {
      HostHereIsPattern(s);
      if HostHere(s).None? { SearchHostIsPattern(s[1..]); }
    }
  }

  /** r is the pattern, as far as its matches go. */
  ghost predicate FindsHosts(r: Regex) {
    forall t: string {:trigger First(r, t)} ::
      First(r, t) == match HostHere(t) case None => NoMatch case Some(h) => Length(|h| + 2)
  }

  lemma AtHostFindsHosts()
    ensures FindsHosts(AT_HOST)
  {
    forall t: string {:trigger First(AT_HOST, t)}
      ensures First(AT_HOST, t) == match HostHere(t) case None => NoMatch case Some(h) => Length(|h| + 2)
    {
      HostHereIsPattern(t);
    }
  }

  lemma SubAllAtHost(r: Regex, s: string, template: string, h: string)
    requires FindsHosts(r) && HostHere(s) == Some(h)
    ensures SubAll(r, s, template) == template + SubAll(r, s[|h| + 2..], template)
  {
    assert First(r, s) == Length(|h| + 2);
  }

  lemma SubAllNextChar(r: Regex, s: string, template: string)
    requires FindsHosts(r) && s != [] && HostHere(s) == None
    ensures SubAll(r, s, template) == [s[0]] + SubAll(r, s[1..], template)
  {
    assert First(r, s) == NoMatch;
  }

  lemma {:induction false} SubHostIsSubAll(r: Regex, s: string, ip: string)
    requires FindsHosts(r)
    ensures SubHost(s, ip) == SubAll(r, s, "@" + ip + ":")
    decreases |s|
  {
    if s != [] {
      match HostHere(s)
      case None =>
        SubHostIsSubAll(r, s[1..], ip);
        SubAllNextChar(r, s, "@" + ip + ":");
      case Some(h) =>
        SubHostIsSubAll(r, s[|h| + 2..], ip);
        SubAllAtHost(r, s, "@" + ip + ":", h);
    }
  }

  lemma SubHostIsPattern(s: string, ip: string)
    ensures SubHost(s, ip) == SubAll(AT_HOST, s, "@" + ip + ":")
  {
    AtHostFindsHosts();
    SubHostIsSubAll(AT_HOST, s, ip);
  }

  // ---------------------------------------------------------------------------------------------
  // What a replacement changes, and what it leaves alone
  // ---------------------------------------------------------------------------------------------

  /** A text, cut into the characters outside the matches and the matched hosts. */
  datatype Piece = Plain(c: char) | Matched(h: string)

  function Pieces(s: string): seq<Piece>
    decreases |s|
  {
    if s == [] then []
    else match HostHere(s)
      case None => [Plain(s[0])] + Pieces(s[1..])
      case Some(h) => [Matched(h)] + Pieces(s[|h| + 2..])
  }

  function RenderOne(p: Piece): string {
    match p
    case Plain(c) => [c]
    case Matched(h) => "@" + h + ":"
  }

  function Render(pieces: seq<Piece>): string {
    if pieces == [] then [] else RenderOne(pieces[0]) + Render(pieces[1..])
  }

  function SwapHost(p: Piece, ip: string): Piece {
    if p.Matched? then Matched(ip) else p
  }

  function WithHost(pieces: seq<Piece>, ip: string): seq<Piece> {
    if pieces == [] then []
    else [SwapHost(pieces[0], ip)] + WithHost(pieces[1..], ip)
  }

  lemma RenderCons(p: Piece, rest: seq<Piece>, ip: string)
    ensures Render([p] + rest) == RenderOne(p) + Render(rest)
    ensures Render(WithHost([p] + rest, ip)) == RenderOne(SwapHost(p, ip)) + Render(WithHost(rest, ip))
  {
    assert ([p] + rest)[1..] == rest;
    var more := [SwapHost(p, ip)] + WithHost(rest, ip);
    assert more[1..] == WithHost(rest, ip);
  }

  lemma HostHereSplits(s: string, h: string)
    requires HostHere(s) == Some(h)
    ensures s == RenderOne(Matched(h)) + s[|h| + 2..]
  {
    assert s == s[..|h| + 2] + s[|h| + 2..];
  }

  lemma {:induction false} PiecesRender(s: string)
    ensures Render(Pieces(s)) == s
    decreases |s|
  {
    if s != [] {
      match HostHere(s)
      case None =>
        PiecesRender(s[1..]);
        RenderCons(Plain(s[0]), Pieces(s[1..]), []);
        assert s == [s[0]] + s[1..];
      case Some(h) =>
        PiecesRender(s[|h| + 2..]);
        RenderCons(Matched(h), Pieces(s[|h| + 2..]), []);
        HostHereSplits(s, h);
    }
  }

  lemma {:induction false} PiecesSwap(s: string, ip: string)
    ensures Render(WithHost(Pieces(s), ip)) == SubHost(s, ip)
    decreases |s|
  {
    if s != [] {
      match HostHere(s)
      case None =>
        PiecesSwap(s[1..], ip);
        RenderCons(Plain(s[0]), Pieces(s[1..]), ip);
      case Some(h) =>
        PiecesSwap(s[|h| + 2..], ip);
        RenderCons(Matched(h), Pieces(s[|h| + 2..]), ip);
    }
  }

  /** The replacement swaps every matched host for ip and touches nothing else. */
  lemma {:induction false} OnlyHostsChange(s: string, ip: string)
    ensures Render(Pieces(s)) == s
    ensures Render(WithHost(Pieces(s), ip)) == SubHost(s, ip)
  {
    PiecesRender(s);
    PiecesSwap(s, ip);
  }

  lemma HostHereOf(h: string, rest: string)
    requires h != [] && ':' !in h
    ensures HostHere("@" + h + ":" + rest) == Some(h)
    ensures ("@" + h + ":" + rest)[|h| + 2..] == rest
  {
    var s := "@" + h + ":" + rest;
    assert s[1..] == h + (":" + rest);
    assert (":" + rest)[0] == ':';
    RunSplit(NotColon, h, ":" + rest);
    assert s[1..][..|h|] == h;
  }

  lemma {:induction false} NoColonNoHost(s: string, ip: string)
    requires ':' !in s
    ensures HostHere(s).None? && SearchHost(s).None? && SubHost(s, ip) == s
  {
    if s != [] { NoColonNoHost(s[1..], ip); }
  }

  /** Where there was no match, there is none after the replacement further on. */
  lemma StillNoHost(s: string, ip: string)
    requires s != [] && HostHere(s).None?
    ensures HostHere([s[0]] + SubHost(s[1..], ip)).None?
  {
    if s[0] == '@' {
      var n := Run(NotColon, s[1..]);
      var t := SubHost(s[1..], ip);
      assert ([s[0]] + t)[1..] == t;
      if n + 1 == |s| {
        assert ':' !in s[1..];
        NoColonNoHost(s[1..], ip);
        NoColonNoHost(s, ip);
        assert s == [s[0]] + s[1..];
      } else {
        assert s[1..][0] == ':';
        assert HostHere(s[1..]).None?;
        assert t[0] == ':';
      }
    }
  }

  lemma SubHostCons(c: char, t: string, ip: string)
    requires HostHere([c] + t).None?
    ensures SubHost([c] + t, ip) == [c] + SubHost(t, ip)
    ensures SearchHost([c] + t) == SearchHost(t)
  {
    assert ([c] + t)[1..] == t;
  }

  lemma SubAtHost(h: string, rest: string, ip: string)
    requires h != [] && ':' !in h
    ensures SubHost("@" + h + ":" + rest, ip) == "@" + ip + ":" + SubHost(rest, ip)
  {
    HostHereOf(h, rest);
  }

  lemma LastHostWinsHere(s: string, h: string, a: string, b: string)
    requires a != [] && ':' !in a && HostHere(s) == Some(h)
    requires SubHost(SubHost(s[|h| + 2..], a), b) == SubHost(s[|h| + 2..], b)
    ensures SubHost(SubHost(s, a), b) == SubHost(s, b)
  {
    var rest := s[|h| + 2..];
    assert SubHost(s, a) == "@" + a + ":" + SubHost(rest, a);
    SubAtHost(a, SubHost(rest, a), b);
    assert SubHost(s, b) == "@" + b + ":" + SubHost(rest, b);
  }

  lemma LastHostWinsLater(s: string, a: string, b: string)
    requires s != [] && HostHere(s).None?
    requires SubHost(SubHost(s[1..], a), b) == SubHost(s[1..], b)
    ensures SubHost(SubHost(s, a), b) == SubHost(s, b)
  {
    StillNoHost(s, a);
    SubHostCons(s[0], SubHost(s[1..], a), b);
  }

  /** The last replacement wins, whatever was put in before it. */
  lemma {:induction false} LastHostWins(s: string, a: string, b: string)
    requires a != [] && ':' !in a
    ensures SubHost(SubHost(s, a), b) == SubHost(s, b)
    decreases |s|
  {
    if s != [] {
      match HostHere(s)
      case None =>
        LastHostWins(s[1..], a, b);
        LastHostWinsLater(s, a, b);
      case Some(h) =>
        LastHostWins(s[|h| + 2..], a, b);
        LastHostWinsHere(s, h, a, b);
    }
  }

  /** After a replacement the first host found is the new one, if there was one at all. */
  lemma {:induction false} NewHostIsFound(s: string, ip: string)
    requires ip != [] && ':' !in ip
    ensures SearchHost(SubHost(s, ip)) == if SearchHost(s).None? then None else Some(ip)
  {
    if s != [] {
      match HostHere(s)
      case None =>
        StillNoHost(s, ip);
        SubHostCons(s[0], SubHost(s[1..], ip), ip);
        NewHostIsFound(s[1..], ip);
      case Some(h) =>
        HostHereOf(ip, SubHost(s[|h| + 2..], ip));
    }
  }

  lemma SubHostNotEmpty(s: string, ip: string)
    requires s != []
    ensures SubHost(s, ip) != []
  {
  }

  /** The text and its rewriting around a match at the start. */
  lemma SubHostAround(s: string, h: string, ip: string)
    requires HostHere(s) == Some(h)
    ensures var rest := s[|h| + 2..];
            && s == ("@" + h) + (":" + rest)
            && SubHost(s, ip) == ("@" + ip) + (":" + SubHost(rest, ip))
  {
    var rest := s[|h| + 2..];
    assert s == s[..|h| + 2] + rest;
    Assoc("@" + h, ":", rest);
    Assoc("@" + ip, ":", SubHost(rest, ip));
  }

  lemma {:induction false} SearchSkips(p: string, t: string)
    requires '@' !in p
    ensures SearchHost(p + t) == SearchHost(t)
  {
    if p == [] {
      assert p + t == t;
    } else {
      assert p + t == [p[0]] + (p[1..] + t);
      SubHostCons(p[0], p[1..] + t, []);
      SearchSkips(p[1..], t);
    }
  }

  lemma {:induction false} SubHostKeepsPrefix(p: string, t: string, ip: string)
    requires '@' !in p
    ensures SubHost(p + t, ip) == p + SubHost(t, ip)
  {
    if p == [] {
      assert p + t == t;
    } else {
      assert p + t == [p[0]] + (p[1..] + t);
      SubHostCons(p[0], p[1..] + t, ip);
      SubHostKeepsPrefix(p[1..], t, ip);
    }
  }

  /** A search that succeeds in a prefix has the same answer in the whole; `m` ends with the match. */
  lemma {:induction false} SearchInPrefix(p: string, t: string) returns (m: string)
    requires SearchHost(p).Some?
    ensures SearchHost(p + t) == SearchHost(p)
    ensures m <= p && m != [] && m[0] == p[0] && m[|m| - 1] == ':' && SearchHost(m) == SearchHost(p)
  {
    match HostHere(p)
    case Some(h) =>
      m := "@" + h + ":";
      assert p == m + p[|h| + 2..];
      assert p + t == m + (p[|h| + 2..] + t);
      HostHereOf(h, p[|h| + 2..] + t);
      HostHereOf(h, []);
      assert m + [] == m;
    case None =>
      var k := SearchInPrefix(p[1..], t);
      m := [p[0]] + k;
      assert p == [p[0]] + p[1..];
      assert p + t == [p[0]] + (p[1..] + t);
      NoHostYet(p, t);
      NoHostYet(m, p[|m|..]);
      assert m + p[|m|..] == p;
      SubHostCons(p[0], p[1..] + t, []);
      SubHostCons(p[0], k, []);
  }

  /** Whether a match starts at the front depends only on the text up to the next colon. */
  lemma NoHostYet(p: string, t: string)
    requires p != [] && SearchHost(p[1..]).Some?
    ensures HostHere(p + t).None? <==> HostHere(p).None?
  {
    if ':' !in p[1..] { NoColonNoHost(p[1..], []); }
    assert (p + t)[1..] == p[1..] + t;
    RunAppend(NotColon, p[1..], t);
  }
}
