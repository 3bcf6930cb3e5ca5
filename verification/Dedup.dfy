/** Deduplication by config hash (core/utils.py, config_hash; scraper/base.py, parse_configs).

    MD5 is a parameter: nothing depends on which function it is, except where a lemma says so. */
module Dedup {
  import opened Text

  /** The base of a config, which is what the hash looks at: everything before the remark. */
  function Key(config: string): string {
    Strip(BeforeHash(config))
  }

  function Hash(md5: string -> string, config: string): string {
    md5(Key(config))
  }

  /** Two configs that differ only in the remark are duplicates of each other. */
  lemma RemarkIsIgnored(md5: string -> string, config: string, remark: string)
    requires '#' !in config
    ensures Hash(md5, config + "#" + remark) == Hash(md5, config)
  {
    AfterHashAppend(config, remark);
    BeforeHashFixed(config);
  }

  /** The hashes of a list. */
  function Hashes(md5: string -> string, configs: seq<string>): set<string> {
    if configs == [] then {}
    else Hashes(md5, configs[..|configs| - 1]) + {Hash(md5, configs[|configs| - 1])}
  }

  /** Every config whose hash does not occur before it, in order. */
  function FirstOccurrences(md5: string -> string, configs: seq<string>): seq<string> {
    if configs == [] then []
    else
      var n := |configs| - 1;
      FirstOccurrences(md5, configs[..n]) +
      (if Hash(md5, configs[n]) in Hashes(md5, configs[..n]) then [] else [configs[n]])
  }

  ghost predicate DistinctHashes(md5: string -> string, configs: seq<string>) {
    forall i, j :: 0 <= i < j < |configs| ==> Hash(md5, configs[i]) != Hash(md5, configs[j])
  }

  lemma HashesAppend(md5: string -> string, a: seq<string>, c: string)
    ensures Hashes(md5, a + [c]) == Hashes(md5, a) + {Hash(md5, c)}
    ensures FirstOccurrences(md5, a + [c])
         == if Hash(md5, c) in Hashes(md5, a) then FirstOccurrences(md5, a) else FirstOccurrences(md5, a) + [c]
  {
    assert (a + [c])[..|a|] == a;
    assert FirstOccurrences(md5, a) + [] == FirstOccurrences(md5, a);
  }

  lemma {:induction false} HashesConcat(md5: string -> string, a: seq<string>, b: seq<string>)
    ensures Hashes(md5, a + b) == Hashes(md5, a) + Hashes(md5, b)
  {
    if b == [] {
      assert a + b == a;
    } else {
      var n := |b| - 1;
      HashesConcat(md5, a, b[..n]);
      assert a + b == a + b[..n] + [b[n]];
      HashesAppend(md5, a + b[..n], b[n]);
    }
  }

  lemma {:induction false} HashOfElement(md5: string -> string, configs: seq<string>, i: nat)
    requires i < |configs|
    ensures Hash(md5, configs[i]) in Hashes(md5, configs)
  {
    var n := |configs| - 1;
    if i < n { HashOfElement(md5, configs[..n], i); }
  }

  lemma {:induction false} HashHasElement(md5: string -> string, configs: seq<string>, h: string) returns (i: nat)
    requires h in Hashes(md5, configs)
    ensures i < |configs| && Hash(md5, configs[i]) == h
  {
    i := |configs| - 1;
    if h != Hash(md5, configs[i]) { i := HashHasElement(md5, configs[..i], h); }
  }

  /** Nothing is lost: every hash of the input is still there. */
  lemma {:induction false} SameHashes(md5: string -> string, configs: seq<string>)
    ensures Hashes(md5, FirstOccurrences(md5, configs)) == Hashes(md5, configs)
  {
    if configs != [] {
      var n := |configs| - 1;
      SameHashes(md5, configs[..n]);
      var before := FirstOccurrences(md5, configs[..n]);
      if Hash(md5, configs[n]) in Hashes(md5, configs[..n]) {
        assert FirstOccurrences(md5, configs) == before + [] == before;
      } else {
        HashesAppend(md5, before, configs[n]);
      }
    }
  }

  lemma DistinctAppend(md5: string -> string, a: seq<string>, c: string)
    requires DistinctHashes(md5, a) && Hash(md5, c) !in Hashes(md5, a)
    ensures DistinctHashes(md5, a + [c])
  {
    forall i, j | 0 <= i < j < |a + [c]| ensures Hash(md5, (a + [c])[i]) != Hash(md5, (a + [c])[j]) {
      if j == |a| { HashOfElement(md5, a, i); }
    }
  }

  /** What is kept has pairwise distinct hashes. */
  lemma {:induction false} KeptAreDistinct(md5: string -> string, configs: seq<string>)
    ensures DistinctHashes(md5, FirstOccurrences(md5, configs))
  {
    if configs != [] {
      var n := |configs| - 1;
      KeptAreDistinct(md5, configs[..n]);
      if Hash(md5, configs[n]) !in Hashes(md5, configs[..n]) {
        SameHashes(md5, configs[..n]);
        DistinctAppend(md5, FirstOccurrences(md5, configs[..n]), configs[n]);
      }
    }
  }

  lemma LastIsNew(md5: string -> string, configs: seq<string>)
    requires configs != [] && DistinctHashes(md5, configs)
    ensures Hash(md5, configs[|configs| - 1]) !in Hashes(md5, configs[..|configs| - 1])
  {
    var n := |configs| - 1;
    if Hash(md5, configs[n]) in Hashes(md5, configs[..n]) {
      var i := HashHasElement(md5, configs[..n], Hash(md5, configs[n]));
    }
  }

  lemma {:induction false} DistinctIsKept(md5: string -> string, configs: seq<string>)
    requires DistinctHashes(md5, configs)
    ensures FirstOccurrences(md5, configs) == configs
  {
    if configs != [] {
      var n := |configs| - 1;
      var front, last := configs[..n], configs[n];
      assert configs == front + [last];
      DistinctIsKept(md5, front);
      LastIsNew(md5, configs);
      HashesAppend(md5, front, last);
    }
  }

  /** A list is kept whole exactly when no hash repeats in it. */
  lemma KeptWholeIffDistinct(md5: string -> string, configs: seq<string>)
    ensures FirstOccurrences(md5, configs) == configs <==> DistinctHashes(md5, configs)
  {
    if DistinctHashes(md5, configs) {
      DistinctIsKept(md5, configs);
    } else {
      KeptAreDistinct(md5, configs);
    }
  }

  lemma AssocAppend(a: seq<string>, b: seq<string>, c: string)
    ensures a + (b + [c]) == a + b + [c]
  {
  }

  lemma MoreInputStep(md5: string -> string, a: seq<string>, b: seq<string>, c: string)
    requires FirstOccurrences(md5, a) <= FirstOccurrences(md5, a + b)
    requires FirstOccurrences(md5, a + b) == FirstOccurrences(md5, a) <==> Hashes(md5, b) <= Hashes(md5, a)
    ensures FirstOccurrences(md5, a) <= FirstOccurrences(md5, a + (b + [c]))
    ensures FirstOccurrences(md5, a + (b + [c])) == FirstOccurrences(md5, a)
       <==> Hashes(md5, b + [c]) <= Hashes(md5, a)
  {
    AssocAppend(a, b, c);
    HashesAppend(md5, a + b, c);
    HashesAppend(md5, b, c);
    HashesConcat(md5, a, b);
  }

  /** More input only adds at the end, and adds nothing exactly when it brings no new hash. */
  lemma {:induction false} MoreInput(md5: string -> string, a: seq<string>, b: seq<string>)
    ensures FirstOccurrences(md5, a) <= FirstOccurrences(md5, a + b)
    ensures FirstOccurrences(md5, a + b) == FirstOccurrences(md5, a) <==> Hashes(md5, b) <= Hashes(md5, a)
  {
    if b == [] {
      assert a + b == a;
    } else {
      var n := |b| - 1;
      var front, last := b[..n], b[n];
      assert b == front + [last];
      MoreInput(md5, a, front);
      MoreInputStep(md5, a, front, last);
    }
  }

  /** The state of the loop after looking at `done`. */
  ghost predicate Tracks(md5: string -> string, kept: seq<string>, seen: set<string>, done: seq<string>) {
    kept == FirstOccurrences(md5, done) && seen == Hashes(md5, done)
  }

  lemma TracksNext(md5: string -> string, kept: seq<string>, seen: set<string>,
                   done: seq<string>, candidates: seq<string>, i: nat)
    requires i < |candidates| && Tracks(md5, kept, seen, done + candidates[..i])
    ensures var c := candidates[i];
            var isNew := Hash(md5, c) !in seen;
            Tracks(md5, if isNew then kept + [c] else kept, if isNew then seen + {Hash(md5, c)} else seen,
                   done + candidates[..i + 1])
  {
    TracksAppend(md5, kept, seen, done + candidates[..i], candidates[i]);
    assert done + candidates[..i + 1] == done + candidates[..i] + [candidates[i]];
  }

  lemma TracksAppend(md5: string -> string, kept: seq<string>, seen: set<string>, now: seq<string>, c: string)
    requires Tracks(md5, kept, seen, now)
    ensures if Hash(md5, c) !in seen then Tracks(md5, kept + [c], seen + {Hash(md5, c)}, now + [c])
            else Tracks(md5, kept, seen, now + [c])
  {
    HashesAppend(md5, now, c);
  }

  /** The loop that both scrapers use; `done` is what was looked at before. */
  method KeepUnseen(md5: string -> string, candidates: seq<string>,
                    kept0: seq<string>, seen0: set<string>, ghost done: seq<string>)
    returns (kept: seq<string>, seen: set<string>)
    requires Tracks(md5, kept0, seen0, done)
    ensures Tracks(md5, kept, seen, done + candidates)
  {
    kept, seen := kept0, seen0;
    assert done + candidates[..0] == done;
    for i := 0 to |candidates|
      invariant Tracks(md5, kept, seen, done + candidates[..i])
    {
      TracksNext(md5, kept, seen, done, candidates, i);
      var h := Hash(md5, candidates[i]);
      if h !in seen {
        seen := seen + {h};
        kept := kept + [candidates[i]];
      }
    }
    assert candidates[..|candidates|] == candidates;
  }

  /** parse_configs: the candidates of the text nodes first, then those found in the HTML directly. */
  method ParseConfigs(md5: string -> string, fromNodes: seq<string>, fromHtml: seq<string>)
    returns (configs: seq<string>)
    ensures configs == FirstOccurrences(md5, fromNodes + fromHtml)
    ensures DistinctHashes(md5, configs)
  {
    var seen: set<string>;
    configs, seen := KeepUnseen(md5, fromNodes, [], {}, []);
    assert [] + fromNodes == fromNodes;
    configs, seen := KeepUnseen(md5, fromHtml, configs, seen, fromNodes);
    KeptAreDistinct(md5, fromNodes + fromHtml);
  }
}
