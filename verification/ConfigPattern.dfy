/** The grammar of extracted configs (constants.py, CONFIG_PATTERN), as the regular expression of
    the source and as a scanner that never backtracks. */
module ConfigPattern {
  import opened Text
  import opened Regex

  const VMESS := "vmess://"
  const VLESS := "vless://"
  const TROJAN := "trojan://"
  const SS := "ss://"

  // [^\s]+?#[^\s]*  and  [^\s]+?(?=\s|$)
  const LAZY_FRAGMENT := Cat(Many(NonSpace, 1, false), Cat(Lit("#"), Many(NonSpace, 0, true)))
  const LAZY_TO_END := Cat(Many(NonSpace, 1, false), SpaceOrEnd)

  function AfterKey(rest: Regex): Regex {
    Cat(Lit(SS), Cat(Many(Base64ish, 1, true), rest))
  }

  /** CONFIG_PATTERN, alternative by alternative. */
  const CONFIG_PATTERN :=
    Alt(Cat(Lit(VMESS), Cat(Many(Base64ish, 1, true), Opt(Cat(Lit("#"), Many(NonSpace, 0, true))))),
    Alt(Cat(Lit(VLESS), LAZY_FRAGMENT),
    Alt(Cat(Lit(VLESS), LAZY_TO_END),
    Alt(Cat(Lit(TROJAN), LAZY_FRAGMENT),
    Alt(Cat(Lit(TROJAN), LAZY_TO_END),
    Alt(AfterKey(Cat(Lit("@"), LAZY_FRAGMENT)),
    Alt(AfterKey(Cat(Lit("@"), LAZY_TO_END)),
    Alt(AfterKey(Cat(Lit("#"), Many(NonSpace, 0, true))),
        AfterKey(SpaceOrEnd)))))))))

  // ---------------------------------------------------------------------------------------------
  // The scanner
  // ---------------------------------------------------------------------------------------------

  /** Everything up to the next whitespace, if that is anything. */
  function Word(s: string): Match {
    var n := Run(NonSpace, s);
    if n == 0 then NoMatch else Length(n)
  }

  function ScanVmess(s: string): Match {
    var n := Run(Base64ish, s);
    if n == 0 then NoMatch
    else if n < |s| && s[n] == '#' then Length(n + 1 + Run(NonSpace, s[n + 1..]))
    else Length(n)
  }

  function ScanSs(s: string): Match {
    var n := Run(Base64ish, s);
    if n == 0 then NoMatch
    else if n == |s| || IsSpace(s[n]) then Length(n)
    else if s[n] == '#' then Length(n + 1 + Run(NonSpace, s[n + 1..]))
    else if s[n] == '@' then Skip(n + 1, Word(s[n + 1..]))
    else NoMatch
  }

  function Scan(s: string): (m: Match)
    ensures m.Length? ==> 0 < m.n <= |s|
  {
    if VMESS <= s then Skip(8, ScanVmess(s[8..]))
    else if VLESS <= s then Skip(8, Word(s[8..]))
    else if TROJAN <= s then Skip(9, Word(s[9..]))
    else if SS <= s then Skip(5, ScanSs(s[5..]))
    else NoMatch
  }

  // ---------------------------------------------------------------------------------------------
  // The scanner is the regular expression
  // ---------------------------------------------------------------------------------------------

  lemma {:induction false} LeastThat(second: Regex, s: string, ends: seq<nat>, m: nat) returns (k: nat)
    requires forall i :: 0 <= i < |ends| ==> ends[i] <= |s|
    requires m < |ends| && !Fails(second, s, ends[m])
    ensures k <= m && FailsUpTo(second, s, ends, k) && !Fails(second, s, ends[k])
  {
    if j :| 0 <= j < m && !Fails(second, s, ends[j]) {
      k := LeastThat(second, s, ends, j);
    } else {
      k := m;
      FailsEach(second, s, ends, k);
    }
  }

  lemma FirstFromSome(second: Regex, s: string, ends: seq<nat>) returns (k: nat)
    requires forall i :: 0 <= i < |ends| ==> ends[i] <= |s|
    requires Then(second, s, ends) != []
    ensures k < |ends| && First(second, s[ends[k]..]).Length?
    ensures Settles(second, s, ends, ends[k])
  {
    if m :| 0 <= m < |ends| && !Fails(second, s, ends[m]) {
      k := LeastThat(second, s, ends, m);
      FirstThat(second, s, ends, k);
    } else {
      FailsEach(second, s, ends, |ends|);
      FirstNone(second, s, ends);
      assert false;
    }
  }

  lemma {:induction false} RunFrom(cls: CharClass, s: string, e: nat)
    requires e <= Run(cls, s)
    ensures Run(cls, s[e..]) == Run(cls, s) - e
  {
    if e > 0 {
      RunFrom(cls, s[1..], e - 1);
      assert s[1..][e - 1..] == s[e..];
    }
  }

  lemma FirstOfStar(s: string)
    ensures First(Many(NonSpace, 0, true), s) == Length(Run(NonSpace, s))
  {
  }

  lemma HashThenWord(s: string, e: nat)
    requires e <= Run(NonSpace, s)
    requires First(Cat(Lit("#"), Many(NonSpace, 0, true)), s[e..]).Length?
    ensures Skip(e, First(Cat(Lit("#"), Many(NonSpace, 0, true)), s[e..])) == Length(Run(NonSpace, s))
  {
    FirstAfterLit("#", Many(NonSpace, 0, true), s[e..]);
    assert s[e..][0] == s[e] == '#';
    assert e < Run(NonSpace, s);
    FirstOfStar(s[e..][1..]);
    assert s[e..][1..] == s[e + 1..];
    RunFrom(NonSpace, s, e + 1);
  }

  /** If the lazy alternative with a fragment matches at all, it takes the whole word. */
  lemma LazyFragmentTakesWord(s: string)
    ensures First(LAZY_FRAGMENT, s).Length? ==> First(LAZY_FRAGMENT, s) == Word(s)
  {
    var tail := Cat(Lit("#"), Many(NonSpace, 0, true));
    var ends := Ends(Many(NonSpace, 1, false), s);
    if First(LAZY_FRAGMENT, s).Length? {
      assert Ends(LAZY_FRAGMENT, s) == Then(tail, s, ends);
      var k := FirstFromSome(tail, s, ends);
      HashThenWord(s, ends[k]);
    }
  }

  lemma FirstOfEnd(s: string)
    ensures First(SpaceOrEnd, s) == if s == [] || IsSpace(s[0]) then Length(0) else NoMatch
  {
  }

  lemma LazyToEndTakesWord(s: string)
    ensures First(LAZY_TO_END, s) == Word(s)
  {
    FirstAfterRun(NonSpace, 1, false, SpaceOrEnd, s);
    FirstOfEnd(s[Run(NonSpace, s)..]);
  }

  lemma LazyIsWord(prefix: string, s: string)
    ensures First(Alt(Cat(Lit(prefix), LAZY_FRAGMENT), Cat(Lit(prefix), LAZY_TO_END)), s)
         == if prefix <= s then Skip(|prefix|, Word(s[|prefix|..])) else NoMatch
  {
    FirstOfAlt(Cat(Lit(prefix), LAZY_FRAGMENT), Cat(Lit(prefix), LAZY_TO_END), s);
    FirstAfterLit(prefix, LAZY_FRAGMENT, s);
    FirstAfterLit(prefix, LAZY_TO_END, s);
    if prefix <= s {
      LazyFragmentTakesWord(s[|prefix|..]);
      LazyToEndTakesWord(s[|prefix|..]);
    }
  }

  lemma FirstOfOpt(body: Regex, s: string)
    ensures First(Opt(body), s) == if First(body, s).Length? then First(body, s) else Length(0)
  {
  }

  lemma VmessIsScanned(s: string)
    ensures First(Cat(Many(Base64ish, 1, true), Opt(Cat(Lit("#"), Many(NonSpace, 0, true)))), s)
         == ScanVmess(s)
  {
    var fragment := Cat(Lit("#"), Many(NonSpace, 0, true));
    var n := Run(Base64ish, s);
    var ends := Ends(Many(Base64ish, 1, true), s);
    assert Ends(Cat(Many(Base64ish, 1, true), Opt(fragment)), s) == Then(Opt(fragment), s, ends);
    if n > 0 {
      FirstOfOpt(fragment, s[n..]);
      FirstAfterLit("#", Many(NonSpace, 0, true), s[n..]);
      FirstThat(Opt(fragment), s, ends, 0);
      if n < |s| && s[n] == '#' {
        FirstOfStar(s[n + 1..]);
        assert s[n..][1..] == s[n + 1..];
      }
    } else {
      assert ends == [];
    }
  }

  lemma LitRefuses(c: char, second: Regex, cls: CharClass)
    requires !cls.Has(c)
    ensures RefusesStart(Cat(Lit([c]), second), cls)
  {
    forall t: string {:trigger First(Cat(Lit([c]), second), t)} | t != [] && cls.Has(t[0])
      ensures First(Cat(Lit([c]), second), t).NoMatch?
    {
      FirstAfterLit([c], second, t);
    }
  }

  lemma AfterKeyIsScanned(rest: Regex, s: string)
    requires RefusesStart(rest, Base64ish)
    ensures First(AfterKey(rest), s)
         == if SS <= s && Run(Base64ish, s[5..]) > 0
            then Skip(5 + Run(Base64ish, s[5..]), First(rest, s[5..][Run(Base64ish, s[5..])..]))
            else NoMatch
  {
    FirstAfterLit(SS, Cat(Many(Base64ish, 1, true), rest), s);
    if SS <= s { FirstAfterRun(Base64ish, 1, true, rest, s[5..]); }
  }

  /** The four ss:// alternatives together. */
  function SsAlternatives(): Regex {
    Alt(AfterKey(Cat(Lit("@"), LAZY_FRAGMENT)),
    Alt(AfterKey(Cat(Lit("@"), LAZY_TO_END)),
    Alt(AfterKey(Cat(Lit("#"), Many(NonSpace, 0, true))),
        AfterKey(SpaceOrEnd))))
  }

  /** After the key the four alternatives exclude each other, but for the two with '@'. */
  lemma SsRest(t: string)
    ensures First(Cat(Lit("@"), LAZY_FRAGMENT), t).Length?
        ==> First(Cat(Lit("@"), LAZY_FRAGMENT), t) == First(Cat(Lit("@"), LAZY_TO_END), t)
    ensures First(Cat(Lit("@"), LAZY_TO_END), t) == if t != [] && t[0] == '@' then Skip(1, Word(t[1..])) else NoMatch
    ensures First(Cat(Lit("#"), Many(NonSpace, 0, true)), t)
         == if t != [] && t[0] == '#' then Length(1 + Run(NonSpace, t[1..])) else NoMatch
  {
    FirstAfterLit("@", LAZY_FRAGMENT, t);
    FirstAfterLit("@", LAZY_TO_END, t);
    FirstAfterLit("#", Many(NonSpace, 0, true), t);
    if t != [] {
      LazyFragmentTakesWord(t[1..]);
      LazyToEndTakesWord(t[1..]);
      FirstOfStar(t[1..]);
    }
  }

  function OrElse(a: Match, b: Match): Match {
    if a.NoMatch? then b else a
  }

  /** Four ways to go on after one key: the key is scanned once, then the first way decides. */
  lemma KeyedAlternatives(a: Regex, b: Regex, c: Regex, d: Regex, s: string)
    requires RefusesStart(a, Base64ish) && RefusesStart(b, Base64ish)
    requires RefusesStart(c, Base64ish) && RefusesStart(d, Base64ish)
    ensures First(Alt(AfterKey(a), Alt(AfterKey(b), Alt(AfterKey(c), AfterKey(d)))), s)
         == if SS <= s && Run(Base64ish, s[5..]) > 0 then
              var t := s[5..][Run(Base64ish, s[5..])..];
              Skip(5 + Run(Base64ish, s[5..]),
                   OrElse(First(a, t), OrElse(First(b, t), OrElse(First(c, t), First(d, t)))))
            else NoMatch
  {
    FirstOfAlt(AfterKey(a), Alt(AfterKey(b), Alt(AfterKey(c), AfterKey(d))), s);
    FirstOfAlt(AfterKey(b), Alt(AfterKey(c), AfterKey(d)), s);
    FirstOfAlt(AfterKey(c), AfterKey(d), s);
    AfterKeyIsScanned(a, s);
    AfterKeyIsScanned(b, s);
    AfterKeyIsScanned(c, s);
    AfterKeyIsScanned(d, s);
  }

  /** What follows the key decides. */
  function SsTail(t: string): Match {
    if t == [] || IsSpace(t[0]) then Length(0)
    else if t[0] == '#' then Length(1 + Run(NonSpace, t[1..]))
    else if t[0] == '@' then Skip(1, Word(t[1..]))
    else NoMatch
  }

  lemma SsTailIsPattern(t: string)
    ensures SsTail(t)
         == OrElse(First(Cat(Lit("@"), LAZY_FRAGMENT), t),
            OrElse(First(Cat(Lit("@"), LAZY_TO_END), t),
            OrElse(First(Cat(Lit("#"), Many(NonSpace, 0, true)), t), First(SpaceOrEnd, t))))
  {
    SsRest(t);
    FirstOfEnd(t);
  }

  lemma ScanSsByTail(s: string)
    ensures ScanSs(s) == if Run(Base64ish, s) == 0 then NoMatch
                         else Skip(Run(Base64ish, s), SsTail(s[Run(Base64ish, s)..]))
  {
    var n := Run(Base64ish, s);
    if n < |s| { assert s[n..][0] == s[n] && s[n..][1..] == s[n + 1..]; }
  }

  lemma SsIsScanned(s: string)
    ensures First(SsAlternatives(), s) == if SS <= s then Skip(5, ScanSs(s[5..])) else NoMatch
  {
    LitRefuses('@', LAZY_FRAGMENT, Base64ish);
    LitRefuses('@', LAZY_TO_END, Base64ish);
    LitRefuses('#', Many(NonSpace, 0, true), Base64ish);
    KeyedAlternatives(Cat(Lit("@"), LAZY_FRAGMENT), Cat(Lit("@"), LAZY_TO_END),
                      Cat(Lit("#"), Many(NonSpace, 0, true)), SpaceOrEnd, s);
    if SS <= s {
      ScanSsByTail(s[5..]);
      SsTailIsPattern(s[5..][Run(Base64ish, s[5..])..]);
    }
  }

  lemma PrefixesExclude(s: string)
    ensures VMESS <= s ==> !(VLESS <= s) && !(TROJAN <= s) && !(SS <= s)
    ensures VLESS <= s ==> !(TROJAN <= s) && !(SS <= s)
    ensures TROJAN <= s ==> !(SS <= s)
  {
    assert VMESS[1] == 'm' && VLESS[1] == 'l' && TROJAN[0] == 't' && SS[0] == 's';
  }

  lemma FirstOfPair(a: Regex, b: Regex, rest: Regex, s: string)
    ensures First(Alt(a, Alt(b, rest)), s)
         == if First(Alt(a, b), s).NoMatch? then First(rest, s) else First(Alt(a, b), s)
  {
    FirstOfAlt(a, Alt(b, rest), s);
    FirstOfAlt(b, rest, s);
    FirstOfAlt(a, b, s);
  }

  lemma TrojanOnwards(s: string)
    ensures First(Alt(Cat(Lit(TROJAN), LAZY_FRAGMENT), Alt(Cat(Lit(TROJAN), LAZY_TO_END), SsAlternatives())), s)
         == if TROJAN <= s then (if Word(s[9..]).Length? then Skip(9, Word(s[9..])) else NoMatch)
            else if SS <= s then Skip(5, ScanSs(s[5..])) else NoMatch
  {
    PrefixesExclude(s);
    FirstOfPair(Cat(Lit(TROJAN), LAZY_FRAGMENT), Cat(Lit(TROJAN), LAZY_TO_END), SsAlternatives(), s);
    LazyIsWord(TROJAN, s);
    SsIsScanned(s);
  }

  /** At every position of every text the scanner reports what the regular expression reports. */
  lemma ScanIsPattern(s: string)
    ensures First(CONFIG_PATTERN, s) == Scan(s)
  {
    PrefixesExclude(s);
    var vmess := Cat(Many(Base64ish, 1, true), Opt(Cat(Lit("#"), Many(NonSpace, 0, true))));
    var a, b := Cat(Lit(VLESS), LAZY_FRAGMENT), Cat(Lit(VLESS), LAZY_TO_END);
    var rest := Alt(Cat(Lit(TROJAN), LAZY_FRAGMENT), Alt(Cat(Lit(TROJAN), LAZY_TO_END), SsAlternatives()));
    assert CONFIG_PATTERN == Alt(Cat(Lit(VMESS), vmess), Alt(a, Alt(b, rest)));
    FirstOfAlt(Cat(Lit(VMESS), vmess), Alt(a, Alt(b, rest)), s);
    FirstAfterLit(VMESS, vmess, s);
    if VMESS <= s { VmessIsScanned(s[8..]); }
    FirstOfPair(a, b, rest, s);
    LazyIsWord(VLESS, s);
    TrojanOnwards(s);
  }
}
