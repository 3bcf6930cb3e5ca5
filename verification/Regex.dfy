/** Backtracking regular expressions, as Python's `re` runs them on a suffix of the text.

    `Ends(r, s)` lists the lengths of the prefixes of s that r can match, in the order in which the
    backtracking engine would try them.  The engine reports the first one. */
module Regex {
  import opened Text

  datatype CharClass =
    | NonSpace   // [^\s]
    | Base64ish  // [A-Za-z0-9+/=_-]
    | NotColon   // [^:]
    | Digit      // \d, for ASCII
  {
    predicate Has(c: char) {
      match this
      case NonSpace => !IsSpace(c)
      case Base64ish => IsBase64ish(c)
      case NotColon => c != ':'
      case Digit => '0' <= c <= '9'
    }
  }

  predicate IsBase64ish(c: char) {
    || 'A' <= c <= 'Z' || 'a' <= c <= 'z' || '0' <= c <= '9'
    || c == '+' || c == '/' || c == '=' || c == '_' || c == '-'
  }

  datatype Regex =
    | Lit(text: string)
    | Many(cls: CharClass, least: nat, greedy: bool)  // cls* cls+ cls+?
    | SpaceOrEnd                                      // (?=\s|$)
    | End                                             // $
    | Opt(body: Regex)                                // (?:body)?
    | Cat(first: Regex, second: Regex)
    | Alt(left: Regex, right: Regex)

  /** The length of the longest prefix made of characters of the class. */
  function Run(cls: CharClass, s: string): (n: nat)
    ensures n <= |s|
    ensures forall i :: 0 <= i < n ==> cls.Has(s[i])
    ensures n < |s| ==> !cls.Has(s[n])
  {
    if s != [] && cls.Has(s[0]) then 1 + Run(cls, s[1..]) else 0
  }

  function Up(lo: nat, hi: nat): (r: seq<nat>)
    ensures |r| == (if lo <= hi then hi - lo + 1 else 0)
    ensures forall i :: 0 <= i < |r| ==> r[i] == lo + i
    decreases hi + 1 - lo
  {
    if lo > hi then [] else [lo] + Up(lo + 1, hi)
  }

  function Down(lo: nat, hi: nat): (r: seq<nat>)
    ensures |r| == (if lo <= hi then hi - lo + 1 else 0)
    ensures forall i :: 0 <= i < |r| ==> r[i] == hi - i
    decreases hi + 1 - lo
  {
    if lo > hi then [] else if lo == hi then [hi] else [hi] + Down(lo, hi - 1)
  }

  function Ends(r: Regex, s: string): (ends: seq<nat>)
    ensures forall i :: 0 <= i < |ends| ==> ends[i] <= |s|
    decreases r, 0
  {
    match r
    case Lit(text) => if text <= s then [|text|] else []
    case Many(cls, least, greedy) =>
      if greedy then Down(least, Run(cls, s)) else Up(least, Run(cls, s))
    case SpaceOrEnd => if s == [] || IsSpace(s[0]) then [0] else []
    case End => if s == [] || s == "\n" then [0] else []
    case Opt(body) => Ends(body, s) + [0]
    case Cat(first, second) => Then(second, s, Ends(first, s))
    case Alt(left, right) => Ends(left, s) + Ends(right, s)
  }

  /** Continue with r after each of the given prefixes in turn. */
  function Then(r: Regex, s: string, ends: seq<nat>): (all: seq<nat>)
    requires forall i :: 0 <= i < |ends| ==> ends[i] <= |s|
    ensures forall i :: 0 <= i < |all| ==> all[i] <= |s|
    decreases r, |ends| + 1
  {
    if ends == [] then []
    else Shift(ends[0], Ends(r, s[ends[0]..]), |s|) + Then(r, s, ends[1..])
  }

  function Shift(d: nat, ends: seq<nat>, limit: nat): (r: seq<nat>)
    requires d <= limit && forall i :: 0 <= i < |ends| ==> ends[i] <= limit - d
    ensures |r| == |ends| && forall i :: 0 <= i < |r| ==> r[i] == d + ends[i]
  {
    seq(|ends|, i requires 0 <= i < |ends| => d + ends[i])
  }

  datatype Match = NoMatch | Length(n: nat)

  /** What `re.match` reports at the start of s. */
  function First(r: Regex, s: string): (m: Match)
    ensures m.Length? ==> m.n <= |s|
  {
    var ends := Ends(r, s);
    if ends == [] then NoMatch else Length(ends[0])
  }

  function Skip(d: nat, m: Match): Match {
    match m
    case NoMatch => NoMatch
    case Length(n) => Length(d + n)
  }

  /** re.findall for a pattern whose matches are never empty. */
  function FindAll(r: Regex, s: string): seq<string> {
    if s == [] then []
    else match First(r, s)
      case NoMatch => FindAll(r, s[1..])
      case Length(n) => if n == 0 then FindAll(r, s[1..]) else [s[..n]] + FindAll(r, s[n..])
  }

  /** re.search: the text from the leftmost match on, or nothing. */
  function SearchFrom(r: Regex, s: string): (found: string)
    ensures found != [] ==> First(r, found).Length?
  {
    if s == [] || First(r, s).Length? then s else SearchFrom(r, s[1..])
  }

  /** re.sub for a pattern whose matches are never empty and a template without escapes. */
  function SubAll(r: Regex, s: string, template: string): string {
    if s == [] then []
    else match First(r, s)
      case NoMatch => [s[0]] + SubAll(r, s[1..], template)
      case Length(n) =>
        if n == 0 then [s[0]] + SubAll(r, s[1..], template) else template + SubAll(r, s[n..], template)
  }

  // ---------------------------------------------------------------------------------------------
  // What the engine reports for each operator
  // ---------------------------------------------------------------------------------------------

  lemma FirstOfAlt(left: Regex, right: Regex, s: string)
    ensures First(Alt(left, right), s)
         == if First(left, s).NoMatch? then First(right, s) else First(left, s)
  {
  }

  /** After a literal there is only one way to go on. */
  lemma FirstAfterLit(text: string, second: Regex, s: string)
    ensures First(Cat(Lit(text), second), s)
         == if text <= s then Skip(|text|, First(second, s[|text|..])) else NoMatch
  {
    if text <= s {
      var ends: seq<nat> := [|text|];
      assert Ends(Lit(text), s) == ends && ends[1..] == [];
      assert Then(second, s, ends) == Shift(|text|, Ends(second, s[|text|..]), |s|);
    }
  }

  /** The first of a list of prefixes either leads somewhere, and then it decides, or it does not,
      and then the others do. */
  lemma ThenStep(second: Regex, s: string, ends: seq<nat>)
    requires ends != [] && forall i :: 0 <= i < |ends| ==> ends[i] <= |s|
    ensures match First(second, s[ends[0]..])
            case NoMatch => Then(second, s, ends) == Then(second, s, ends[1..])
            case Length(n) => Then(second, s, ends) != [] && Then(second, s, ends)[0] == ends[0] + n
  {
    if First(second, s[ends[0]..]).NoMatch? {
      var rest := Then(second, s, ends[1..]);
      assert Then(second, s, ends) == [] + rest == rest;
    }
  }

  ghost predicate Fails(second: Regex, s: string, e: nat)
    requires e <= |s|
  {
    First(second, s[e..]).NoMatch?
  }

  /** None of the first k prefixes can be continued. */
  ghost predicate FailsUpTo(second: Regex, s: string, ends: seq<nat>, k: nat)
    requires k <= |ends| && forall i :: 0 <= i < |ends| ==> ends[i] <= |s|
  {
    k == 0 || (Fails(second, s, ends[0]) && FailsUpTo(second, s, ends[1..], k - 1))
  }

  lemma {:induction false} FailsEach(second: Regex, s: string, ends: seq<nat>, k: nat)
    requires k <= |ends| && forall i :: 0 <= i < |ends| ==> ends[i] <= |s|
    requires forall i :: 0 <= i < k ==> Fails(second, s, ends[i])
    ensures FailsUpTo(second, s, ends, k)
  {
    if k > 0 {
      forall i | 0 <= i < k - 1 ensures Fails(second, s, ends[1..][i]) {
        assert ends[1..][i] == ends[i + 1];
      }
      FailsEach(second, s, ends[1..], k - 1);
    }
  }

  /** The continuation after e is what the engine reports. */
  ghost predicate Settles(second: Regex, s: string, ends: seq<nat>, e: nat)
    requires e <= |s| && forall i :: 0 <= i < |ends| ==> ends[i] <= |s|
  {
    Then(second, s, ends) != [] && Length(Then(second, s, ends)[0]) == Skip(e, First(second, s[e..]))
  }

  lemma SettlesHere(second: Regex, s: string, ends: seq<nat>)
    requires ends != [] && forall i :: 0 <= i < |ends| ==> ends[i] <= |s|
    requires !Fails(second, s, ends[0])
    ensures Settles(second, s, ends, ends[0])
  {
    ThenStep(second, s, ends);
  }

  lemma SettlesLater(second: Regex, s: string, ends: seq<nat>, e: nat)
    requires ends != [] && e <= |s| && forall i :: 0 <= i < |ends| ==> ends[i] <= |s|
    requires Fails(second, s, ends[0]) && Settles(second, s, ends[1..], e)
    ensures Settles(second, s, ends, e)
  {
    ThenStep(second, s, ends);
  }

  /** The engine settles on the k-th way to match the first part when all earlier ones lead
      nowhere. */
  lemma {:induction false} FirstThat(second: Regex, s: string, ends: seq<nat>, k: nat)
    requires forall i :: 0 <= i < |ends| ==> ends[i] <= |s|
    requires k < |ends| && FailsUpTo(second, s, ends, k) && !Fails(second, s, ends[k])
    ensures Settles(second, s, ends, ends[k])
    decreases k
  {
    if k == 0 {
      SettlesHere(second, s, ends);
    } else {
      var later, e := ends[1..], ends[k];
      assert later[k - 1] == e;
      FirstThat(second, s, later, k - 1);
      SettlesLater(second, s, ends, e);
    }
  }

  lemma {:induction false} FirstNone(second: Regex, s: string, ends: seq<nat>)
    requires forall i :: 0 <= i < |ends| ==> ends[i] <= |s|
    requires FailsUpTo(second, s, ends, |ends|)
    ensures Then(second, s, ends) == []
  {
    if ends != [] {
      ThenStep(second, s, ends);
      FirstNone(second, s, ends[1..]);
    }
  }

  lemma OnlyThat(second: Regex, s: string, ends: seq<nat>, k: nat)
    requires forall i :: 0 <= i < |ends| ==> ends[i] <= |s|
    requires k < |ends|
    requires forall i :: 0 <= i < |ends| && i != k ==> Fails(second, s, ends[i])
    ensures var all := Then(second, s, ends);
            (if all == [] then NoMatch else Length(all[0])) == Skip(ends[k], First(second, s[ends[k]..]))
  {
    if Fails(second, s, ends[k]) {
      FailsEach(second, s, ends, |ends|);
      FirstNone(second, s, ends);
    } else {
      FailsEach(second, s, ends, k);
      FirstThat(second, s, ends, k);
    }
  }

  /** r can never start with a character of the class. */
  ghost predicate RefusesStart(r: Regex, cls: CharClass) {
    forall t: string {:trigger First(r, t)} :: t != [] && cls.Has(t[0]) ==> First(r, t).NoMatch?
  }

  /** The ways to match a run: all lengths between the least and the whole. */
  lemma ManyEnds(cls: CharClass, least: nat, greedy: bool, s: string) returns (k: nat)
    requires least <= Run(cls, s)
    ensures var ends := Ends(Many(cls, least, greedy), s);
            && k < |ends| && ends[k] == Run(cls, s)
            && (forall i :: 0 <= i < |ends| && i != k ==> ends[i] < Run(cls, s))
  {
    k := if greedy then 0 else Run(cls, s) - least;
  }

  lemma EarlierStopsFail(cls: CharClass, second: Regex, s: string, ends: seq<nat>, k: nat)
    requires RefusesStart(second, cls)
    requires forall i :: 0 <= i < |ends| ==> ends[i] <= |s|
    requires forall i :: 0 <= i < |ends| && i != k ==> ends[i] < Run(cls, s)
    ensures forall i :: 0 <= i < |ends| && i != k ==> Fails(second, s, ends[i])
  {
    forall i | 0 <= i < |ends| && i != k ensures Fails(second, s, ends[i]) {
      assert s[ends[i]..][0] == s[ends[i]];
    }
  }

  lemma NoEnds(cls: CharClass, least: nat, greedy: bool, second: Regex, s: string)
    requires Run(cls, s) < least
    ensures First(Cat(Many(cls, least, greedy), second), s) == NoMatch
  {
    assert Ends(Many(cls, least, greedy), s) == [];
    assert Ends(Cat(Many(cls, least, greedy), second), s) == Then(second, s, []) == [];
  }

  /** A run of class characters (greedy or lazy) followed by something that can never start with a
      class character: only the whole run can be continued. */
  lemma FirstAfterRun(cls: CharClass, least: nat, greedy: bool, second: Regex, s: string)
    requires RefusesStart(second, cls)
    ensures First(Cat(Many(cls, least, greedy), second), s)
         == if Run(cls, s) < least then NoMatch else Skip(Run(cls, s), First(second, s[Run(cls, s)..]))
  {
    if Run(cls, s) < least {
      NoEnds(cls, least, greedy, second, s);
    } else {
      var ends := Ends(Many(cls, least, greedy), s);
      var k := ManyEnds(cls, least, greedy, s);
      EarlierStopsFail(cls, second, s, ends, k);
      OnlyThat(second, s, ends, k);
      assert Ends(Cat(Many(cls, least, greedy), second), s) == Then(second, s, ends);
    }
  }

  lemma {:induction false} RunAppend(cls: CharClass, s: string, t: string)
    requires Run(cls, s) < |s| || t == [] || !cls.Has(t[0])
    ensures Run(cls, s + t) == Run(cls, s)
  {
    if s == [] {
      assert s + t == t;
    } else {
      assert (s + t)[0] == s[0] && (s + t)[1..] == s[1..] + t;
      if cls.Has(s[0]) { RunAppend(cls, s[1..], t); }
    }
  }

  lemma {:induction false} RunOfAll(cls: CharClass, s: string)
    requires forall i :: 0 <= i < |s| ==> cls.Has(s[i])
    ensures Run(cls, s) == |s|
  {
    if s != [] { RunOfAll(cls, s[1..]); }
  }

  lemma {:induction false} RunSplit(cls: CharClass, s: string, t: string)
    requires forall i :: 0 <= i < |s| ==> cls.Has(s[i])
    requires t != [] && !cls.Has(t[0])
    ensures Run(cls, s + t) == |s|
  {
    if s == [] {
      assert s + t == t;
    } else {
      assert (s + t)[0] == s[0] && (s + t)[1..] == s[1..] + t;
      RunSplit(cls, s[1..], t);
    }
  }
}
