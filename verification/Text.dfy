/** The string operations of the Python code, on strings of Unicode scalar values. */
module Text {

  /** str.isspace, which is also what \s matches. */
  predicate IsSpace(c: char) {
    || '\U{9}' <= c <= '\U{D}'
    || '\U{1C}' <= c <= '\U{20}'
    || c == '\U{85}' || c == '\U{A0}' || c == '\U{1680}'
    || '\U{2000}' <= c <= '\U{200A}'
    || c == '\U{2028}' || c == '\U{2029}' || c == '\U{202F}' || c == '\U{205F}' || c == '\U{3000}'
  }

  predicate NoSpace(s: string) {
    forall i :: 0 <= i < |s| ==> !IsSpace(s[i])
  }

  function LStrip(s: string): (r: string)
    ensures r == [] || !IsSpace(r[0])
  {
    if s != [] && IsSpace(s[0]) then LStrip(s[1..]) else s
  }

  function RStrip(s: string): (r: string)
    ensures r <= s
    ensures r == [] || !IsSpace(r[|r| - 1])
  {
    if s != [] && IsSpace(s[|s| - 1]) then RStrip(s[..|s| - 1]) else s
  }

  /** str.strip */
  function Strip(s: string): string {
    RStrip(LStrip(s))
  }

  /** Neither end is whitespace. */
  predicate Trimmed(s: string) {
    s == [] || (!IsSpace(s[0]) && !IsSpace(s[|s| - 1]))
  }

  lemma StripTrims(s: string)
    ensures Trimmed(Strip(s))
  {
    assert Strip(s) != [] ==> Strip(s)[0] == LStrip(s)[0];
  }

  lemma TrimmedIsFixed(s: string)
    requires Trimmed(s)
    ensures Strip(s) == s
  {
  }

  lemma {:induction false} LStripSubset(s: string)
    ensures forall c :: c in LStrip(s) ==> c in s
  {
    if s != [] && IsSpace(s[0]) { LStripSubset(s[1..]); }
  }

  lemma {:induction false} LStripKeepsNoSpace(s: string)
    requires NoSpace(s)
    ensures LStrip(s) == s && Strip(s) == s
  {
  }

  lemma {:induction false} RStripPrefix(p: string, s: string)
    requires p <= s && p != [] && !IsSpace(p[|p| - 1])
    ensures p <= RStrip(s)
  {
    if |s| > |p| && IsSpace(s[|s| - 1]) { RStripPrefix(p, s[..|s| - 1]); }
  }

  /** Stripping on the right cannot reach into a prefix that ends in a visible character. */
  lemma StripPrefix(p: string, s: string)
    requires p <= s && p != [] && !IsSpace(p[0]) && !IsSpace(p[|p| - 1])
    ensures p <= Strip(s)
  {
    RStripPrefix(p, s);
  }

  /** str.split("#")[0] */
  function BeforeHash(s: string): (r: string)
    ensures r <= s && '#' !in r
  {
    if s == [] || s[0] == '#' then [] else [s[0]] + BeforeHash(s[1..])
  }

  lemma {:induction false} BeforeHashAppend(s: string, t: string)
    requires '#' !in s
    ensures BeforeHash(s + t) == s + BeforeHash(t)
  {
    if s == [] {
      assert s + t == t;
    } else {
      assert (s + t)[0] == s[0];
      assert (s + t)[1..] == s[1..] + t;
      BeforeHashAppend(s[1..], t);
    }
  }

  lemma BeforeHashFixed(s: string)
    requires '#' !in s
    ensures BeforeHash(s) == s
  {
    BeforeHashAppend(s, []);
    assert s + [] == s;
  }

  /** Everything up to the first '#' is BeforeHash; the rest starts with that '#'. */
  lemma {:induction false} HashSplits(s: string)
    requires '#' in s
    ensures |BeforeHash(s)| < |s| && s[|BeforeHash(s)|] == '#'
  {
    if s[0] != '#' { HashSplits(s[1..]); }
  }

  /** str.split("#", 1)[1], or the empty string when there is no '#'. */
  function AfterHash(s: string): string {
    if '#' in s then (HashSplits(s); s[|BeforeHash(s)| + 1..]) else []
  }

  lemma AfterHashAppend(s: string, t: string)
    requires '#' !in s
    ensures BeforeHash(s + "#" + t) == s && AfterHash(s + "#" + t) == t
  {
    assert s + "#" + t == s + ("#" + t);
    BeforeHashAppend(s, "#" + t);
    assert (s + "#" + t)[|s|] == '#';
  }

  /** `sub in s` */
  predicate Contains(s: string, sub: string) {
    sub <= s || (s != [] && Contains(s[1..], sub))
  }

  lemma {:induction false} ContainsUsesChars(s: string, sub: string, c: char)
    requires c in sub && c !in s
    ensures !Contains(s, sub)
  {
    if s != [] { ContainsUsesChars(s[1..], sub, c); }
  }

  /** str.replace(from, to) for a non-empty `from`. */
  function Replace(s: string, from: string, to: string): string
    requires from != []
  {
    if s == [] then []
    else if from <= s then to + Replace(s[|from|..], from, to)
    else [s[0]] + Replace(s[1..], from, to)
  }

  lemma {:induction false} ReplaceBySelf(s: string, from: string)
    requires from != []
    ensures Replace(s, from, from) == s
  {
    if s == [] {
    } else if from <= s {
      ReplaceBySelf(s[|from|..], from);
    } else {
      ReplaceBySelf(s[1..], from);
    }
  }

  /** The first occurrence, where its first character does not occur before. */
  lemma {:induction false} ReplaceFirst(p: string, from: string, to: string, rest: string)
    requires from != [] && from[0] !in p
    ensures Replace(p + (from + rest), from, to) == p + (to + Replace(rest, from, to))
  {
    var s := p + (from + rest);
    if p == [] {
      assert s == from + rest && s[|from|..] == rest;
      assert p + (to + Replace(rest, from, to)) == to + Replace(rest, from, to);
    } else {
      assert s[0] == p[0] && s[1..] == p[1..] + (from + rest);
      ReplaceFirst(p[1..], from, to, rest);
    }
  }

  lemma ReplaceSuffix(p: string, from: string, to: string)
    requires from != [] && from[0] !in p
    ensures Replace(p + from, from, to) == p + to
  {
    ReplaceFirst(p, from, to, []);
    assert from + [] == from && to + [] == to;
  }

  lemma {:induction false} ReplaceNothing(s: string, from: string, to: string)
    requires from != [] && from[0] !in s
    ensures Replace(s, from, to) == s
  {
    if s != [] { ReplaceNothing(s[1..], from, to); }
  }

  /** "\n\n".join(parts) */
  function JoinLines(parts: seq<string>): string {
    if parts == [] then []
    else if |parts| == 1 then parts[0]
    else parts[0] + "\n\n" + JoinLines(parts[1..])
  }

  /** Repeated str.replace(c, "") for every c in `drop`. */
  function Without(s: string, drop: set<char>): (r: string)
    ensures forall c :: c in r <==> c in s && c !in drop
  {
    if s == [] then []
    else if s[0] in drop then Without(s[1..], drop)
    else [s[0]] + Without(s[1..], drop)
  }

  lemma {:induction false} WithoutNothing(s: string, drop: set<char>)
    requires forall i :: 0 <= i < |s| ==> s[i] !in drop
    ensures Without(s, drop) == s
  {
    if s != [] {
      WithoutNothing(s[1..], drop);
      assert s == [s[0]] + s[1..];
    }
  }

  lemma {:induction false} WithoutConcat(s: string, t: string, drop: set<char>)
    ensures Without(s + t, drop) == Without(s, drop) + Without(t, drop)
  {
    if s == [] {
      assert s + t == t;
    } else {
      assert (s + t)[0] == s[0] && (s + t)[1..] == s[1..] + t;
      WithoutConcat(s[1..], t, drop);
    }
  }

  /** Stripping only removes characters that `Without` removes as well, when all of the dropped
      whitespace is among them. */
  lemma {:induction false} WithoutIgnoresStrip(s: string, drop: set<char>)
    requires forall i :: 0 <= i < |s| && IsSpace(s[i]) ==> s[i] in drop
    ensures Without(Strip(s), drop) == Without(s, drop)
    decreases |s|
  {
    if s != [] && IsSpace(s[0]) {
      WithoutIgnoresStrip(s[1..], drop);
    } else {
      WithoutIgnoresRStrip(s, drop);
    }
  }

  lemma {:induction false} WithoutIgnoresRStrip(s: string, drop: set<char>)
    requires forall i :: 0 <= i < |s| && IsSpace(s[i]) ==> s[i] in drop
    ensures Without(RStrip(s), drop) == Without(s, drop)
    decreases |s|
  {
    if s != [] && IsSpace(s[|s| - 1]) {
      var n := |s| - 1;
      WithoutIgnoresRStrip(s[..n], drop);
      WithoutConcat(s[..n], [s[n]], drop);
      assert s == s[..n] + [s[n]];
    }
  }

  /** ASCII case folding; no other character lowers to a letter of a scheme name. */
  function Lower(c: char): char {
    if 'A' <= c <= 'Z' then c + 32 as char else c
  }

  predicate StartsWithLower(s: string, prefix: string) {
    |prefix| <= |s| && forall i :: 0 <= i < |prefix| ==> Lower(s[i]) == prefix[i]
  }

  /** Sequence equality is extensional, so that regrouping has to be asked for. */
  lemma Assoc(a: string, b: string, c: string)
    ensures a + b + c == a + (b + c)
  {
  }

  lemma NothingMore(s: string)
    ensures s + [] == s
  {
  }
}
