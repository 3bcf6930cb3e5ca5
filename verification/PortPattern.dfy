/** The pattern :(\d+)(?:\?|#|$|/) that finds the port in a share link (core/utils.py). */
module PortPattern {
  import opened Text
  import opened Regex
  import HostPattern

  /** (?:\?|#|$|/) */
  const PORT_STOP := Alt(Lit("?"), Alt(Lit("#"), Alt(End, Lit("/"))))

  /** :(\d+)(?:\?|#|$|/) */
  const PORT := Cat(Lit(":"), Cat(Many(Digit, 1, true), PORT_STOP))

  datatype Found = None | Some(digits: string)

  predicate AllDigits(d: string) {
    forall i :: 0 <= i < |d| ==> '0' <= d[i] <= '9'
  }

  /** What may follow the digits; `$` also matches before a final newline. */
  predicate Stops(t: string) {
    t == [] || t == "\n" || t[0] == '?' || t[0] == '#' || t[0] == '/'
  }

  /** Group 1 of a match at the very start. */
  function PortHere(s: string): (f: Found)
    ensures f.Some? ==> f.digits != [] && AllDigits(f.digits)
  {
    if s == [] || s[0] != ':' then None
    else
      var n := Run(Digit, s[1..]);
      if n > 0 && Stops(s[1..][n..]) then Some(s[1..][..n]) else None
  }

  /** Group 1 of re.search. */
  function SearchPort(s: string): (f: Found)
    ensures f.Some? ==> f.digits != [] && AllDigits(f.digits)
  {
    if s == [] then None
    else if PortHere(s).Some? then PortHere(s)
    else SearchPort(s[1..])
  }

  // ---------------------------------------------------------------------------------------------
  // This is the regular expression's own answer
  // ---------------------------------------------------------------------------------------------

  lemma StopIsPattern(t: string)
    ensures First(PORT_STOP, t).Length? <==> Stops(t)
  {
    FirstOfAlt(Lit("?"), Alt(Lit("#"), Alt(End, Lit("/"))), t);
    FirstOfAlt(Lit("#"), Alt(End, Lit("/")), t);
    FirstOfAlt(End, Lit("/"), t);
    LitHere('?', t);
    LitHere('#', t);
    LitHere('/', t);
    EndHere(t);
  }

  lemma LitHere(c: char, t: string)
    ensures First(Lit([c]), t).Length? <==> t != [] && t[0] == c
  {
    assert [c] <= t <==> t != [] && t[0] == c;
  }

  lemma EndHere(t: string)
    ensures First(End, t).Length? <==> t == [] || t == "\n"
  {
  }

  lemma StopRefusesDigits()
    ensures RefusesStart(PORT_STOP, Digit)
  {
    forall t: string {:trigger First(PORT_STOP, t)} | t != [] && Digit.Has(t[0])
      ensures First(PORT_STOP, t).NoMatch?
    {
      StopIsPattern(t);
    }
  }

  lemma PortHereIsPattern(s: string)
    ensures First(PORT, s).Length? <==> PortHere(s).Some?
    ensures PortHere(s).Some? ==> ":" + PortHere(s).digits <= s
  {
    FirstAfterLit(":", Cat(Many(Digit, 1, true), PORT_STOP), s);
    if ":" <= s {
      StopRefusesDigits();
      FirstAfterRun(Digit, 1, true, PORT_STOP, s[1..]);
      StopIsPattern(s[1..][Run(Digit, s[1..])..]);
    }
  }

  lemma {:induction false} SearchPortIsPattern(s: string)
    ensures var from := SearchFrom(PORT, s);
            SearchPort(s) == if from == [] then None else PortHere(from)
  {
    if s != [] {
      PortHereIsPattern(s);
      if PortHere(s).None? { SearchPortIsPattern(s[1..]); }
    }
  }

  // ---------------------------------------------------------------------------------------------
  // Rewriting hosts leaves the port alone
  // ---------------------------------------------------------------------------------------------

  /** A port starts at a colon. */
  lemma {:induction false} SkipToColon(p: string, t: string)
    requires ':' !in p
    ensures SearchPort(p + t) == SearchPort(t)
  {
    if p == [] {
      assert p + t == t;
    } else {
      assert p + t == [p[0]] + (p[1..] + t);
      assert (p + t)[1..] == p[1..] + t;
      SkipToColon(p[1..], t);
    }
  }

  /** The digits after a colon, when anything but a digit or nothing follows them. */
  lemma PortOf(digits: string, t: string)
    requires AllDigits(digits)
    requires t == [] || !Digit.Has(t[0])
    ensures PortHere(":" + (digits + t)) == if digits != [] && Stops(t) then Some(digits) else None
  {
    var s := ":" + (digits + t);
    assert s[1..] == digits + t;
    if t == [] {
      assert digits + t == digits;
      RunOfAll(Digit, digits);
    } else {
      RunSplit(Digit, digits, t);
    }
    assert (digits + t)[..|digits|] == digits && (digits + t)[|digits|..] == t;
  }

  /** A rewritten text stops digits exactly when the original does. */
  lemma SubHostStops(t: string, ip: string)
    ensures Stops(HostPattern.SubHost(t, ip)) <==> Stops(t)
    ensures t != [] ==> HostPattern.SubHost(t, ip) != [] && HostPattern.SubHost(t, ip)[0] == t[0]
  {
    if t != [] && HostPattern.HostHere(t).None? && |t| > 1 {
      HostPattern.SubHostCons(t[0], t[1..], ip);
      assert t == [t[0]] + t[1..];
      HostPattern.SubHostNotEmpty(t[1..], ip);
    }
  }

  lemma PortHereAfterSub(rest: string, ip: string)
    ensures PortHere(":" + HostPattern.SubHost(rest, ip)) == PortHere(":" + rest)
  {
    var n := Run(Digit, rest);
    var digits, t := rest[..n], rest[n..];
    assert rest == digits + t;
    HostPattern.SubHostKeepsPrefix(digits, t, ip);
    SubHostStops(t, ip);
    PortOf(digits, t);
    PortOf(digits, HostPattern.SubHost(t, ip));
  }

  lemma SearchAtColon(rest: string)
    ensures SearchPort(":" + rest) == if PortHere(":" + rest).Some? then PortHere(":" + rest) else SearchPort(rest)
  {
    assert (":" + rest)[1..] == rest;
  }

  lemma SearchAtOther(c: char, rest: string)
    requires c != ':'
    ensures SearchPort([c] + rest) == SearchPort(rest)
  {
    assert ([c] + rest)[1..] == rest;
  }

  /** Two texts that agree up to their first colon, and read alike from there on. */
  lemma PortAfterPrefix(p: string, q: string, rest: string, ip: string)
    requires ':' !in p && ':' !in q
    requires SearchPort(HostPattern.SubHost(rest, ip)) == SearchPort(rest)
    ensures SearchPort(p + (":" + HostPattern.SubHost(rest, ip))) == SearchPort(q + (":" + rest))
  {
    SkipToColon(p, ":" + HostPattern.SubHost(rest, ip));
    SkipToColon(q, ":" + rest);
    PortHereAfterSub(rest, ip);
    SearchAtColon(rest);
    SearchAtColon(HostPattern.SubHost(rest, ip));
  }

  lemma PortAfterHost(s: string, h: string, ip: string)
    requires HostPattern.HostHere(s) == HostPattern.Some(h) && ':' !in ip
    requires var rest := s[|h| + 2..]; SearchPort(HostPattern.SubHost(rest, ip)) == SearchPort(rest)
    ensures SearchPort(HostPattern.SubHost(s, ip)) == SearchPort(s)
  {
    HostPattern.SubHostAround(s, h, ip);
    PortAfterPrefix("@" + ip, "@" + h, s[|h| + 2..], ip);
  }

  lemma PortAfterChar(c: char, rest: string, ip: string)
    requires SearchPort(HostPattern.SubHost(rest, ip)) == SearchPort(rest)
    ensures SearchPort([c] + HostPattern.SubHost(rest, ip)) == SearchPort([c] + rest)
  {
    if c == ':' {
      PortHereAfterSub(rest, ip);
      SearchAtColon(rest);
      SearchAtColon(HostPattern.SubHost(rest, ip));
    } else {
      SearchAtOther(c, rest);
      SearchAtOther(c, HostPattern.SubHost(rest, ip));
    }
  }

  /** Replacing the servers of a text keeps the port that is found in it. */
  lemma {:induction false} SubHostKeepsPort(s: string, ip: string)
    requires ':' !in ip
    ensures SearchPort(HostPattern.SubHost(s, ip)) == SearchPort(s)
    decreases |s|
  {
    if s != [] {
      match HostPattern.HostHere(s)
      case None =>
        SubHostKeepsPort(s[1..], ip);
        PortAfterChar(s[0], s[1..], ip);
        assert s == [s[0]] + s[1..];
      case Some(h) =>
        SubHostKeepsPort(s[|h| + 2..], ip);
        PortAfterHost(s, h, ip);
    }
  }

  // ---------------------------------------------------------------------------------------------
  // A remark does not hide the port
  // ---------------------------------------------------------------------------------------------

  lemma DigitsSplit(s: string) returns (digits: string, t: string)
    ensures s == digits + t && AllDigits(digits) && (t == [] || !Digit.Has(t[0]))
  {
    var n := Run(Digit, s);
    digits, t := s[..n], s[n..];
  }

  lemma StopsBeforeRemark(t: string, r: string)
    requires t != "\n" && r != [] && r[0] == '#'
    ensures Stops(t + r) <==> Stops(t)
    ensures t + r != [] && (t + r)[0] == if t == [] then '#' else t[0]
  {
  }

  lemma Regroup(base: string, digits: string, t: string, r: string)
    requires base == ":" + (digits + t)
    ensures base + r == ":" + (digits + (t + r))
  {
    Assoc(":", digits + t, r);
    Assoc(digits, t, r);
  }

  lemma PortHereBeforeRemark(base: string, r: string)
    requires base != [] && NoSpace(base) && r != [] && r[0] == '#'
    ensures PortHere(base + r) == PortHere(base)
  {
    if base[0] == ':' {
      var digits, t := DigitsSplit(base[1..]);
      assert base == ":" + (digits + t);
      NoNewline(base, digits, t);
      Regroup(base, digits, t, r);
      StopsBeforeRemark(t, r);
      PortOf(digits, t);
      PortOf(digits, t + r);
    } else {
      assert (base + r)[0] == base[0];
    }
  }

  lemma NoNewline(base: string, digits: string, t: string)
    requires base != [] && NoSpace(base) && base[1..] == digits + t
    ensures t != "\n"
  {
    if t != [] { assert base[|digits| + 1] == t[0]; }
    assert IsSpace('\n');
  }

  /** A port in front of the remark is the one found; otherwise the remark decides. */
  lemma {:induction false} PortBeforeRemark(base: string, r: string)
    requires NoSpace(base) && r != [] && r[0] == '#'
    ensures SearchPort(base + r) == if SearchPort(base).Some? then SearchPort(base) else SearchPort(r)
  {
    if base == [] {
      assert base + r == r;
    } else {
      PortHereBeforeRemark(base, r);
      assert (base + r)[1..] == base[1..] + r;
      PortBeforeRemark(base[1..], r);
    }
  }
}
