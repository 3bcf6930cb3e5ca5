/** When can a batch accept one hash twice?  processor/validator.py checks the set of seen hashes before
    the network is asked (line 101) and adds to it afterwards (line 128).

    The answer is exact on both sides: no schedule of Validator can do it unless the condition holds,
    and if it holds a prompt schedule does it.  In a prompt schedule the event loop only looks at a
    network answer when no validation can start, which is how it runs when answers come one by one. */
module Races {
  import opened Validator
  import Json

  // ---------------------------------------------------------------------------------------------
  // The condition
  // ---------------------------------------------------------------------------------------------

  predicate Acceptable(b: Batch, seen0: set<string>, i: nat)
    requires b.Valid() && i < |b.configs|
  {
    b.Fit(i) && b.Hash(i) !in seen0
  }

  /** While server k is not cached, config m is waiting for it from its start on: nobody with another
      server can have taken its hash before. */
  predicate MustFetch(b: Batch, seen0: set<string>, k: Json.Value, m: nat)
    requires b.Valid() && m < |b.configs|
  {
    && Acceptable(b, seen0, m) && b.env.server(b.configs[m]) == Server(k)
    && forall x :: 0 <= x < m && Acceptable(b, seen0, x) && b.Hash(x) == b.Hash(m) ==>
         b.env.server(b.configs[x]) == Server(k)
  }

  function MustFetchBefore(b: Batch, seen0: set<string>, k: Json.Value, i: nat): nat
    requires b.Valid() && i <= |b.configs|
  {
    if i == 0 then 0
    else MustFetchBefore(b, seen0, k, i - 1) + (if MustFetch(b, seen0, k, i - 1) then 1 else 0)
  }

  /** Config i can be made to wait for the network: it is pinged, or its server is not cached and those
      that must be fetching it before leave a permit. */
  predicate Suspendable(b: Batch, seen0: set<string>, cache0: map<Json.Value, string>, i: nat)
    requires b.Valid() && i < |b.configs|
  {
    b.env.pings(b.configs[i]) ||
    match b.env.server(b.configs[i])
    case NoServer => false
    case Server(k) => k !in cache0 && MustFetchBefore(b, seen0, k, i) < b.limit
  }

  predicate FirstOfHash(b: Batch, seen0: set<string>, i: nat)
    requires b.Valid() && i < |b.configs|
  {
    Acceptable(b, seen0, i) && forall m :: 0 <= m < i && Acceptable(b, seen0, m) ==> b.Hash(m) != b.Hash(i)
  }

  /** The first acceptable config of a hash can be made to wait, and another one follows it. */
  predicate RacingPair(b: Batch, seen0: set<string>, cache0: map<Json.Value, string>, i: nat, j: nat)
    requires b.Valid()
  {
    && i < j < |b.configs| && b.Hash(i) == b.Hash(j)
    && FirstOfHash(b, seen0, i) && Acceptable(b, seen0, j) && Suspendable(b, seen0, cache0, i)
  }

  ghost predicate CanRace(b: Batch, seen0: set<string>, cache0: map<Json.Value, string>)
    requires b.Valid()
  {
    b.limit >= 2 && exists i: nat, j: nat :: RacingPair(b, seen0, cache0, i, j)
  }

  ghost predicate AcceptedOnce(b: Batch, tasks: seq<Task>)
    requires |tasks| == |b.configs|
  {
    forall i, j :: 0 <= i < j < |tasks| && tasks[i].Accepted? && tasks[j].Accepted? ==> b.Hash(i) != b.Hash(j)
  }

  /** What the dedup promises for the batch: no schedule accepts a hash twice. */
  ghost predicate NeverTwice(b: Batch, seen0: set<string>, cache0: map<Json.Value, string>)
    requires b.Valid()
  {
    forall schedule :: AcceptedOnce(b, RunBatch(b, seen0, cache0, schedule).tasks)
  }

  // ---------------------------------------------------------------------------------------------
  // What holds in every schedule
  // ---------------------------------------------------------------------------------------------

  ghost predicate InOrder(tasks: seq<Task>) {
    forall i, j :: 0 <= i < j < |tasks| && tasks[i].Waiting? ==> tasks[j].Waiting?
  }

  /** A task is where it is for a reason. */
  ghost predicate Honest(b: Batch, seen0: set<string>, st: State, i: nat)
    requires b.Valid() && |st.tasks| == |b.configs| && i < |b.configs|
  {
    match st.tasks[i]
    case Waiting => true
    case Pinging => b.env.known(b.configs[i]) && b.env.pings(b.configs[i]) && b.Hash(i) !in seen0
    case Fetching => Acceptable(b, seen0, i) && b.env.server(b.configs[i]).Server?
    case Accepted(_) =>
      && Acceptable(b, seen0, i)
      && (b.env.server(b.configs[i]).Server? ==> b.env.server(b.configs[i]).name in st.cache)
    case Rejected => Acceptable(b, seen0, i) ==> TakenBefore(b, st.tasks, i)
  }

  ghost predicate TakenBefore(b: Batch, tasks: seq<Task>, i: nat)
    requires |tasks| == |b.configs| && i < |tasks|
  {
    exists m :: 0 <= m < i && tasks[m].Accepted? && b.Hash(m) == b.Hash(i)
  }

  ghost predicate Reached(b: Batch, seen0: set<string>, cache0: map<Json.Value, string>, st: State)
    requires b.Valid() && |st.tasks| == |b.configs|
  {
    && InOrder(st.tasks) && SeenIsExact(b, seen0, st) && cache0.Keys <= st.cache.Keys
    && forall i :: 0 <= i < |b.configs| ==> Honest(b, seen0, st, i)
  }

  lemma OrderAfterStep(b: Batch, st: State, i: nat)
    requires b.Valid() && |st.tasks| == |b.configs| && Enabled(b, st, i) && InOrder(st.tasks)
    ensures InOrder(Advance(b, st, i).tasks)
  {
    assert !Effects(b, st, i).task.Waiting?;
  }

  /** The task that moves. */
  lemma MovedIsHonest(b: Batch, seen0: set<string>, st: State, i: nat)
    requires b.Valid() && |st.tasks| == |b.configs| && Enabled(b, st, i)
    requires InOrder(st.tasks) && SeenIsExact(b, seen0, st) && Honest(b, seen0, st, i)
    ensures Honest(b, seen0, Advance(b, st, i), i)
  {
    if st.tasks[i].Waiting? && Acceptable(b, seen0, i) && b.Hash(i) in st.seen {
      var m :| 0 <= m < |b.configs| && st.tasks[m].Accepted? && b.Hash(m) == b.Hash(i);
      assert Advance(b, st, i).tasks[m].Accepted?;
    }
  }

  lemma CacheGrows(b: Batch, st: State, i: nat)
    requires b.Valid() && |st.tasks| == |b.configs| && Enabled(b, st, i)
    ensures st.cache.Keys <= Advance(b, st, i).cache.Keys
  {
  }

  lemma OthersStayHonest(b: Batch, seen0: set<string>, st: State, i: nat, j: nat)
    requires b.Valid() && |st.tasks| == |b.configs| && Enabled(b, st, i) && j != i && j < |b.configs|
    requires Honest(b, seen0, st, j)
    ensures Honest(b, seen0, Advance(b, st, i), j)
  {
    CacheGrows(b, st, i);
    if st.tasks[j].Rejected? && Acceptable(b, seen0, j) {
      var m :| 0 <= m < j && st.tasks[m].Accepted? && b.Hash(m) == b.Hash(j);
      assert Advance(b, st, i).tasks[m].Accepted?;
    }
  }

  lemma ReachedStep(b: Batch, seen0: set<string>, cache0: map<Json.Value, string>, st: State, i: nat)
    requires b.Valid() && |st.tasks| == |b.configs| && Enabled(b, st, i) && Reached(b, seen0, cache0, st)
    ensures Reached(b, seen0, cache0, Advance(b, st, i))
  {
    OrderAfterStep(b, st, i);
    SeenAfterStep(b, seen0, st, i);
    CacheGrows(b, st, i);
    MovedIsHonest(b, seen0, st, i);
    forall j | 0 <= j < |b.configs| && j != i ensures Honest(b, seen0, Advance(b, st, i), j) {
      OthersStayHonest(b, seen0, st, i, j);
    }
  }

  lemma {:induction false} EveryRunReaches(b: Batch, seen: set<string>, cache: map<Json.Value, string>,
                                           schedule: seq<nat>)
    requires b.Valid()
    ensures Reached(b, seen, cache, RunBatch(b, seen, cache, schedule))
  {
    if schedule != [] {
      var n := |schedule| - 1;
      EveryRunReaches(b, seen, cache, schedule[..n]);
      var st := RunBatch(b, seen, cache, schedule[..n]);
      if Enabled(b, st, schedule[n]) { ReachedStep(b, seen, cache, st, schedule[n]); }
    }
  }

  /** Passed the check, and not thrown out since. */
  predicate Live(t: Task) {
    Suspended(t) || t.Accepted?
  }

  /** Two acceptable configs with one hash have both passed the check. */
  ghost predicate DoubledBy(b: Batch, seen0: set<string>, tasks: seq<Task>, m: nat, x: nat)
    requires b.Valid() && |tasks| == |b.configs|
  {
    && m < |tasks| && x < |tasks| && m != x && b.Hash(m) == b.Hash(x)
    && Acceptable(b, seen0, m) && Acceptable(b, seen0, x) && Live(tasks[m]) && Live(tasks[x])
  }

  ghost predicate Doubled(b: Batch, seen0: set<string>, tasks: seq<Task>)
    requires b.Valid() && |tasks| == |b.configs|
  {
    exists m: nat, x: nat :: DoubledBy(b, seen0, tasks, m, x)
  }

  /** An acceptable config that has started is live, or somebody took its hash. */
  lemma LiveOrTaken(b: Batch, seen0: set<string>, cache0: map<Json.Value, string>, st: State, x: nat)
    returns (y: nat)
    requires b.Valid() && |st.tasks| == |b.configs| && Reached(b, seen0, cache0, st)
    requires x < |b.configs| && Acceptable(b, seen0, x) && !st.tasks[x].Waiting?
    ensures y <= x && b.Hash(y) == b.Hash(x) && Acceptable(b, seen0, y) && Live(st.tasks[y])
    ensures y == x || st.tasks[y].Accepted?
  {
    y := x;
    assert Honest(b, seen0, st, x);
    if !Live(st.tasks[x]) {
      y :| 0 <= y < x && st.tasks[y].Accepted? && b.Hash(y) == b.Hash(x);
      assert Honest(b, seen0, st, y);
    }
  }

  /** A seen hash that was not seen before the batch belongs to an accepted config. */
  lemma SeenIsTaken(b: Batch, seen0: set<string>, cache0: map<Json.Value, string>, st: State, h: string)
    returns (y: nat)
    requires b.Valid() && |st.tasks| == |b.configs| && Reached(b, seen0, cache0, st)
    requires h in st.seen && h !in seen0
    ensures y < |b.configs| && b.Hash(y) == h && st.tasks[y].Accepted? && Acceptable(b, seen0, y)
  {
    y :| 0 <= y < |b.configs| && st.tasks[y].Accepted? && b.Hash(y) == h;
    assert Honest(b, seen0, st, y);
  }

  /** Without a double, whoever is in flight is the first acceptable config of its hash. */
  lemma AloneInHash(b: Batch, seen0: set<string>, cache0: map<Json.Value, string>, st: State, m: nat, x: nat)
    requires b.Valid() && |st.tasks| == |b.configs| && Reached(b, seen0, cache0, st)
    requires x < m < |b.configs| && Acceptable(b, seen0, m) && Acceptable(b, seen0, x)
    requires Suspended(st.tasks[m]) && !Doubled(b, seen0, st.tasks)
    ensures b.Hash(x) != b.Hash(m)
  {
    if b.Hash(x) == b.Hash(m) {
      var y := LiveOrTaken(b, seen0, cache0, st, x);
      assert DoubledBy(b, seen0, st.tasks, y, m);
    }
  }

  lemma AcceptedIsSeen(b: Batch, seen0: set<string>, st: State, y: nat)
    requires |st.tasks| == |b.configs| && SeenIsExact(b, seen0, st)
    requires y < |b.configs| && st.tasks[y].Accepted?
    ensures b.Hash(y) in st.seen
  {
  }

  // ---------------------------------------------------------------------------------------------
  // Counting permits
  // ---------------------------------------------------------------------------------------------

  lemma {:induction false} InFlightConcat(s: seq<Task>, t: seq<Task>)
    ensures InFlight(s + t) == InFlight(s) + InFlight(t)
  {
    if s == [] {
      assert s + t == t;
    } else {
      assert (s + t)[1..] == s[1..] + t;
      InFlightConcat(s[1..], t);
    }
  }

  lemma InFlightNext(tasks: seq<Task>, i: nat)
    requires i < |tasks|
    ensures InFlight(tasks[..i + 1]) == InFlight(tasks[..i]) + (if Suspended(tasks[i]) then 1 else 0)
  {
    InFlightConcat(tasks[..i], [tasks[i]]);
    assert tasks[..i + 1] == tasks[..i] + [tasks[i]];
    assert [tasks[i]][1..] == [];
  }

  lemma {:induction false} CountAtMostInFlight(b: Batch, seen0: set<string>, k: Json.Value, tasks: seq<Task>, i: nat)
    requires b.Valid() && |tasks| == |b.configs| && i <= |tasks|
    requires forall m :: 0 <= m < i && MustFetch(b, seen0, k, m) ==> Suspended(tasks[m])
    ensures MustFetchBefore(b, seen0, k, i) <= InFlight(tasks[..i])
  {
    if i > 0 {
      CountAtMostInFlight(b, seen0, k, tasks, i - 1);
      InFlightNext(tasks, i - 1);
    }
  }

  lemma {:induction false} InFlightAtMostCount(b: Batch, seen0: set<string>, k: Json.Value, tasks: seq<Task>, i: nat)
    requires b.Valid() && |tasks| == |b.configs| && i <= |tasks|
    requires forall m :: 0 <= m < i && Suspended(tasks[m]) ==> MustFetch(b, seen0, k, m)
    ensures InFlight(tasks[..i]) <= MustFetchBefore(b, seen0, k, i)
  {
    if i > 0 {
      InFlightAtMostCount(b, seen0, k, tasks, i - 1);
      InFlightNext(tasks, i - 1);
    }
  }

  lemma InFlightSplit(tasks: seq<Task>, i: nat)
    requires i <= |tasks|
    ensures InFlight(tasks) == InFlight(tasks[..i]) + InFlight(tasks[i..])
  {
    InFlightConcat(tasks[..i], tasks[i..]);
    assert tasks == tasks[..i] + tasks[i..];
  }

  // ---------------------------------------------------------------------------------------------
  // Without a race no hash is accepted twice
  // ---------------------------------------------------------------------------------------------

  /** Those who must be fetching k are in flight while k is not cached. */
  lemma MustFetchIsInFlight(b: Batch, seen0: set<string>, cache0: map<Json.Value, string>, st: State,
                            k: Json.Value, m: nat)
    requires b.Valid() && |st.tasks| == |b.configs| && Reached(b, seen0, cache0, st)
    requires m < |b.configs| && MustFetch(b, seen0, k, m) && !st.tasks[m].Waiting? && k !in st.cache
    ensures Suspended(st.tasks[m])
  {
    var y := LiveOrTaken(b, seen0, cache0, st, m);
    assert b.env.server(b.configs[y]) == Server(k);
    assert Honest(b, seen0, st, y);
  }

  /** Whoever waits for the geo lookup without being pinged could be made to wait. */
  ghost predicate WaitsWithReason(b: Batch, seen0: set<string>, cache0: map<Json.Value, string>, st: State, i: nat)
    requires b.Valid() && |st.tasks| == |b.configs| && i < |b.configs|
  {
    Suspended(st.tasks[i]) ==> Suspendable(b, seen0, cache0, i)
  }

  lemma StartsWithReason(b: Batch, seen0: set<string>, cache0: map<Json.Value, string>, st: State, i: nat)
    requires b.Valid() && |st.tasks| == |b.configs| && Reached(b, seen0, cache0, st)
    requires Enabled(b, st, i) && st.tasks[i].Waiting?
    ensures WaitsWithReason(b, seen0, cache0, Advance(b, st, i), i)
  {
    if Suspended(Advance(b, st, i).tasks[i]) && !b.env.pings(b.configs[i]) {
      var k := b.env.server(b.configs[i]).name;
      forall m | 0 <= m < i && MustFetch(b, seen0, k, m) ensures Suspended(st.tasks[m]) {
        MustFetchIsInFlight(b, seen0, cache0, st, k, m);
      }
      CountAtMostInFlight(b, seen0, k, st.tasks, i);
      InFlightSplit(st.tasks, i);
    }
  }

  lemma {:induction false} EveryWaitHasReason(b: Batch, seen: set<string>, cache: map<Json.Value, string>,
                                              schedule: seq<nat>, i: nat)
    requires b.Valid() && i < |b.configs|
    ensures WaitsWithReason(b, seen, cache, RunBatch(b, seen, cache, schedule), i)
  {
    if schedule != [] {
      var n := |schedule| - 1;
      EveryWaitHasReason(b, seen, cache, schedule[..n], i);
      EveryRunReaches(b, seen, cache, schedule[..n]);
      var st := RunBatch(b, seen, cache, schedule[..n]);
      if Enabled(b, st, schedule[n]) && schedule[n] == i && st.tasks[i].Waiting? {
        StartsWithReason(b, seen, cache, st, i);
      }
    }
  }

  /** The only way to a double is to start a config while the first one of its hash is in flight. */
  lemma DoubleMeansRace(b: Batch, seen0: set<string>, cache0: map<Json.Value, string>, st: State, i: nat, y: nat)
    requires b.Valid() && |st.tasks| == |b.configs| && Reached(b, seen0, cache0, st)
    requires !Doubled(b, seen0, st.tasks) && Enabled(b, st, i) && st.tasks[i].Waiting?
    requires y < |b.configs| && WaitsWithReason(b, seen0, cache0, st, y)
    requires DoubledBy(b, seen0, Advance(b, st, i).tasks, y, i)
    ensures CanRace(b, seen0, cache0)
  {
    assert b.Hash(i) !in st.seen;
    assert Honest(b, seen0, st, y);
    if st.tasks[y].Accepted? { AcceptedIsSeen(b, seen0, st, y); }
    assert Suspended(st.tasks[y]);
    InFlightAtLeast(st.tasks, y);
    assert y < i;
    forall z | 0 <= z < y && Acceptable(b, seen0, z) ensures b.Hash(z) != b.Hash(y) {
      AloneInHash(b, seen0, cache0, st, y, z);
    }
    assert RacingPair(b, seen0, cache0, y, i);
  }

  lemma DoubledSymmetric(b: Batch, seen0: set<string>, tasks: seq<Task>, m: nat, x: nat)
    requires b.Valid() && |tasks| == |b.configs|
    ensures DoubledBy(b, seen0, tasks, m, x) <==> DoubledBy(b, seen0, tasks, x, m)
  {
  }

  lemma StepWithoutRace(b: Batch, seen0: set<string>, cache0: map<Json.Value, string>, st: State, i: nat)
    requires b.Valid() && |st.tasks| == |b.configs| && Reached(b, seen0, cache0, st)
    requires forall y :: 0 <= y < |b.configs| ==> WaitsWithReason(b, seen0, cache0, st, y)
    requires !CanRace(b, seen0, cache0) && !Doubled(b, seen0, st.tasks) && Enabled(b, st, i)
    ensures !Doubled(b, seen0, Advance(b, st, i).tasks)
  {
    var next := Advance(b, st, i);
    forall m: nat, x: nat ensures !DoubledBy(b, seen0, next.tasks, m, x) {
      if DoubledBy(b, seen0, next.tasks, m, x) {
        assert !DoubledBy(b, seen0, st.tasks, m, x);
        DoubledSymmetric(b, seen0, next.tasks, m, x);
        DoubleMeansRace(b, seen0, cache0, st, i, if x == i then m else x);
      }
    }
  }

  lemma {:induction false} NoRaceNoDouble(b: Batch, seen: set<string>, cache: map<Json.Value, string>,
                                          schedule: seq<nat>)
    requires b.Valid() && !CanRace(b, seen, cache)
    ensures !Doubled(b, seen, RunBatch(b, seen, cache, schedule).tasks)
  {
    if schedule != [] {
      var n := |schedule| - 1;
      NoRaceNoDouble(b, seen, cache, schedule[..n]);
      EveryRunReaches(b, seen, cache, schedule[..n]);
      var st := RunBatch(b, seen, cache, schedule[..n]);
      forall y | 0 <= y < |b.configs| ensures WaitsWithReason(b, seen, cache, st, y) {
        EveryWaitHasReason(b, seen, cache, schedule[..n], y);
      }
      if Enabled(b, st, schedule[n]) { StepWithoutRace(b, seen, cache, st, schedule[n]); }
    }
  }

  /** Without a racing pair, or with one permit, no schedule accepts a hash twice. */
  lemma NoRaceNoDuplicate(b: Batch, seen: set<string>, cache: map<Json.Value, string>, schedule: seq<nat>)
    requires b.Valid() && !CanRace(b, seen, cache)
    ensures AcceptedOnce(b, RunBatch(b, seen, cache, schedule).tasks)
  {
    NoRaceNoDouble(b, seen, cache, schedule);
    EveryRunReaches(b, seen, cache, schedule);
    var st := RunBatch(b, seen, cache, schedule);
    forall i, j | 0 <= i < j < |st.tasks| && st.tasks[i].Accepted? && st.tasks[j].Accepted?
      ensures b.Hash(i) != b.Hash(j)
    {
      assert Honest(b, seen, st, i) && Honest(b, seen, st, j);
      assert !DoubledBy(b, seen, st.tasks, i, j);
    }
  }

  // ---------------------------------------------------------------------------------------------
  // With a race a prompt schedule accepts a hash twice
  // ---------------------------------------------------------------------------------------------

  predicate CanStart(b: Batch, st: State) {
    InFlight(st.tasks) < b.limit && exists i :: 0 <= i < |st.tasks| && st.tasks[i].Waiting?
  }

  /** A step that the event loop takes when answers come one by one. */
  predicate Prompt(b: Batch, st: State, i: nat) {
    Enabled(b, st, i) && (Suspended(st.tasks[i]) ==> !CanStart(b, st))
  }

  ghost predicate PromptRun(b: Batch, start: State, schedule: seq<nat>)
    requires b.Valid() && |start.tasks| == |b.configs|
  {
    schedule == [] ||
    (var n := |schedule| - 1;
     PromptRun(b, start, schedule[..n]) && Prompt(b, Run(b, start, schedule[..n]), schedule[n]))
  }

  lemma OneMoreStep(b: Batch, start: State, schedule: seq<nat>, i: nat)
    requires b.Valid() && |start.tasks| == |b.configs| && PromptRun(b, start, schedule)
    requires Prompt(b, Run(b, start, schedule), i)
    ensures PromptRun(b, start, schedule + [i])
    ensures Run(b, start, schedule + [i]) == Advance(b, Run(b, start, schedule), i)
  {
    assert (schedule + [i])[..|schedule|] == schedule;
  }

  lemma {:induction false} SomeSuspended(tasks: seq<Task>) returns (p: nat)
    requires InFlight(tasks) >= 1
    ensures p < |tasks| && Suspended(tasks[p])
  {
    if Suspended(tasks[0]) {
      p := 0;
    } else {
      p := SomeSuspended(tasks[1..]);
      p := p + 1;
    }
  }

  lemma AnotherSuspended(tasks: seq<Task>, i: nat) returns (p: nat)
    requires InFlight(tasks) >= 2 && i < |tasks|
    ensures p < |tasks| && p != i && Suspended(tasks[p])
  {
    InFlightUpdate(tasks, i, Waiting);
    p := SomeSuspended(tasks[i := Waiting]);
  }

  /** Config i is in flight, or it will be when it starts; j has yet to start. */
  ghost predicate HeldUp(b: Batch, st: State, i: nat, j: nat)
    requires b.Valid() && |st.tasks| == |b.configs| && i < j < |b.configs|
  {
    && st.tasks[j].Waiting?
    && (Suspended(st.tasks[i]) || (st.tasks[i].Waiting? && WillWait(b, st, i)))
  }

  ghost predicate WillWait(b: Batch, st: State, i: nat)
    requires i < |b.configs|
  {
    b.env.pings(b.configs[i]) ||
    (b.env.server(b.configs[i]).Server? && b.env.server(b.configs[i]).name !in st.cache)
  }

  /** The hash of a config that is about to start is free, unless there is a double already. */
  lemma StartingFirst(b: Batch, seen0: set<string>, cache0: map<Json.Value, string>, st: State, i: nat)
    requires b.Valid() && |st.tasks| == |b.configs| && Reached(b, seen0, cache0, st)
    requires i < |b.configs| && IsNextToStart(st.tasks, i) && FirstOfHash(b, seen0, i)
    ensures b.Hash(i) !in st.seen
  {
    if b.Hash(i) in st.seen {
      var y := SeenIsTaken(b, seen0, cache0, st, b.Hash(i));
    }
  }

  lemma StartingSecond(b: Batch, seen0: set<string>, cache0: map<Json.Value, string>, st: State, i: nat, j: nat)
    requires b.Valid() && |st.tasks| == |b.configs| && Reached(b, seen0, cache0, st)
    requires i < |b.configs| && Acceptable(b, seen0, i) && Suspended(st.tasks[i])
    requires j < |b.configs| && Acceptable(b, seen0, j) && b.Hash(i) == b.Hash(j)
    requires !Doubled(b, seen0, st.tasks)
    ensures b.Hash(j) !in st.seen
  {
    if b.Hash(j) in st.seen {
      var y := SeenIsTaken(b, seen0, cache0, st, b.Hash(j));
      assert DoubledBy(b, seen0, st.tasks, i, y);
    }
  }

  lemma BeginAcceptable(b: Batch, seen0: set<string>, st: State, i: nat)
    requires b.Valid() && |st.tasks| == |b.configs| && i < |b.configs| && Acceptable(b, seen0, i)
    requires b.Hash(i) !in st.seen
    ensures var e := Begin(b.env, b.configs[i], st.seen, st.cache);
            Live(e.task) && e.cache == st.cache && (WillWait(b, st, i) ==> Suspended(e.task))
  {
  }

  /** Starting the next config keeps i held up, or makes a double. */
  lemma StartNext(b: Batch, seen0: set<string>, cache0: map<Json.Value, string>, st: State, i: nat, j: nat, p: nat)
    requires b.Valid() && |st.tasks| == |b.configs| && Reached(b, seen0, cache0, st)
    requires RacingPair(b, seen0, cache0, i, j) && HeldUp(b, st, i, j) && !Doubled(b, seen0, st.tasks)
    requires Enabled(b, st, p) && st.tasks[p].Waiting?
    ensures Doubled(b, seen0, Advance(b, st, p).tasks) || HeldUp(b, Advance(b, st, p), i, j)
  {
    var next := Advance(b, st, p);
    assert next.cache == st.cache;
    if p == i {
      StartingFirst(b, seen0, cache0, st, i);
      BeginAcceptable(b, seen0, st, i);
    } else if p == j {
      StartingSecond(b, seen0, cache0, st, i, j);
      BeginAcceptable(b, seen0, st, j);
      assert DoubledBy(b, seen0, next.tasks, i, j);
    }
  }

  /** When only fetchers of k are in flight, there are at most as many as must be. */
  lemma OnlyFetchersOfK(b: Batch, seen0: set<string>, cache0: map<Json.Value, string>, st: State,
                        k: Json.Value, i: nat)
    requires b.Valid() && |st.tasks| == |b.configs| && Reached(b, seen0, cache0, st)
    requires i < |b.configs| && st.tasks[i].Waiting? && !Doubled(b, seen0, st.tasks)
    requires forall m :: 0 <= m < |st.tasks| && Suspended(st.tasks[m]) ==>
               st.tasks[m].Fetching? && b.env.server(b.configs[m]) == Server(k)
    ensures InFlight(st.tasks) <= MustFetchBefore(b, seen0, k, i)
  {
    forall m | 0 <= m < i && Suspended(st.tasks[m]) ensures MustFetch(b, seen0, k, m) {
      assert Honest(b, seen0, st, m);
      forall x | 0 <= x < m && Acceptable(b, seen0, x) ensures b.Hash(x) != b.Hash(m) {
        AloneInHash(b, seen0, cache0, st, m, x);
      }
    }
    InFlightAtMostCount(b, seen0, k, st.tasks, i);
    InFlightSplit(st.tasks, i);
    forall m | 0 <= m < |st.tasks[i..]| ensures !Suspended(st.tasks[i..][m]) {
      assert st.tasks[i..][m] == st.tasks[i + m];
    }
    NothingInFlight(st.tasks[i..]);
  }

  /** When all permits are taken, somebody can be resumed without letting go of i. */
  lemma ResumeAnother(b: Batch, seen0: set<string>, cache0: map<Json.Value, string>, st: State, i: nat, j: nat)
    returns (p: nat)
    requires b.Valid() && |st.tasks| == |b.configs| && Reached(b, seen0, cache0, st)
    requires b.limit >= 2 && RacingPair(b, seen0, cache0, i, j) && HeldUp(b, st, i, j) && !Doubled(b, seen0, st.tasks)
    requires InFlight(st.tasks) >= b.limit
    ensures p < |b.configs| && Suspended(st.tasks[p])
    ensures HeldUp(b, Advance(b, st, p), i, j)
  {
    if Suspended(st.tasks[i]) {
      p := AnotherSuspended(st.tasks, i);
    } else if b.env.pings(b.configs[i]) {
      p := SomeSuspended(st.tasks);
    } else {
      var k := b.env.server(b.configs[i]).name;
      if forall m :: 0 <= m < |st.tasks| && Suspended(st.tasks[m]) ==>
           st.tasks[m].Fetching? && b.env.server(b.configs[m]) == Server(k)
      {
        OnlyFetchersOfK(b, seen0, cache0, st, k, i);
        assert false;
      } else {
        p :| 0 <= p < |st.tasks| && Suspended(st.tasks[p]) &&
             !(st.tasks[p].Fetching? && b.env.server(b.configs[p]) == Server(k));
        assert k !in Effects(b, st, p).cache;
      }
    }
  }

  /** One prompt step towards the double. */
  lemma StepToDouble(b: Batch, seen0: set<string>, cache0: map<Json.Value, string>, st: State, i: nat, j: nat)
    returns (p: nat)
    requires b.Valid() && |st.tasks| == |b.configs| && Reached(b, seen0, cache0, st)
    requires b.limit >= 2 && RacingPair(b, seen0, cache0, i, j) && HeldUp(b, st, i, j) && !Doubled(b, seen0, st.tasks)
    ensures Prompt(b, st, p)
    ensures Doubled(b, seen0, Advance(b, st, p).tasks) || HeldUp(b, Advance(b, st, p), i, j)
  {
    if InFlight(st.tasks) < b.limit {
      p := FirstWaiting(st.tasks, j);
      StartNext(b, seen0, cache0, st, i, j, p);
    } else {
      p := ResumeAnother(b, seen0, cache0, st, i, j);
    }
  }

  lemma {:induction false} RunToDouble(b: Batch, seen: set<string>, cache: map<Json.Value, string>, i: nat, j: nat,
                                       schedule: seq<nat>)
    returns (longer: seq<nat>)
    requires b.Valid() && b.limit >= 2 && RacingPair(b, seen, cache, i, j)
    requires PromptRun(b, Initial(b, seen, cache), schedule)
    requires var st := RunBatch(b, seen, cache, schedule);
             Doubled(b, seen, st.tasks) || HeldUp(b, st, i, j)
    ensures PromptRun(b, Initial(b, seen, cache), longer)
    ensures Doubled(b, seen, RunBatch(b, seen, cache, longer).tasks)
    decreases Work(RunBatch(b, seen, cache, schedule).tasks)
  {
    var st := RunBatch(b, seen, cache, schedule);
    if Doubled(b, seen, st.tasks) {
      longer := schedule;
    } else {
      EveryRunReaches(b, seen, cache, schedule);
      var p := StepToDouble(b, seen, cache, st, i, j);
      OneMoreStep(b, Initial(b, seen, cache), schedule, p);
      StepDoesWork(b, st, p);
      longer := RunToDouble(b, seen, cache, i, j, schedule + [p]);
    }
  }

  /** Live and acceptable tasks never get thrown out. */
  lemma StaysLive(b: Batch, seen0: set<string>, st: State, p: nat, m: nat)
    requires b.Valid() && |st.tasks| == |b.configs| && Enabled(b, st, p)
    requires m < |b.configs| && Acceptable(b, seen0, m) && Live(st.tasks[m]) && Honest(b, seen0, st, m)
    ensures Live(Advance(b, st, p).tasks[m])
  {
  }

  lemma PromptStep(b: Batch, st: State) returns (p: nat)
    requires b.Valid() && |st.tasks| == |b.configs| && b.limit >= 1 && !Finished(st.tasks)
    ensures Prompt(b, st, p)
  {
    if CanStart(b, st) {
      var n :| 0 <= n < |st.tasks| && st.tasks[n].Waiting?;
      p := FirstWaiting(st.tasks, n);
    } else {
      p := NeverStuck(b, st);
    }
  }

  lemma {:induction false} RunToEnd(b: Batch, seen: set<string>, cache: map<Json.Value, string>, m: nat, x: nat,
                                    schedule: seq<nat>)
    returns (longer: seq<nat>)
    requires b.Valid() && b.limit >= 1 && PromptRun(b, Initial(b, seen, cache), schedule)
    requires DoubledBy(b, seen, RunBatch(b, seen, cache, schedule).tasks, m, x)
    ensures PromptRun(b, Initial(b, seen, cache), longer)
    ensures DoubledBy(b, seen, RunBatch(b, seen, cache, longer).tasks, m, x)
    ensures Finished(RunBatch(b, seen, cache, longer).tasks)
    decreases Work(RunBatch(b, seen, cache, schedule).tasks)
  {
    var st := RunBatch(b, seen, cache, schedule);
    if Finished(st.tasks) {
      longer := schedule;
    } else {
      EveryRunReaches(b, seen, cache, schedule);
      var p := PromptStep(b, st);
      OneMoreStep(b, Initial(b, seen, cache), schedule, p);
      StepDoesWork(b, st, p);
      assert Honest(b, seen, st, m) && Honest(b, seen, st, x);
      StaysLive(b, seen, st, p, m);
      StaysLive(b, seen, st, p, x);
      longer := RunToEnd(b, seen, cache, m, x, schedule + [p]);
    }
  }

  /** When two configs race, some prompt schedule ends with a hash accepted twice. */
  lemma RaceAcceptsTwice(b: Batch, seen: set<string>, cache: map<Json.Value, string>, i: nat, j: nat)
    returns (schedule: seq<nat>, m: nat, x: nat)
    requires b.Valid() && b.limit >= 2 && RacingPair(b, seen, cache, i, j)
    ensures PromptRun(b, Initial(b, seen, cache), schedule)
    ensures var tasks := RunBatch(b, seen, cache, schedule).tasks;
            && Finished(tasks) && m < |tasks| && x < |tasks| && m != x
            && tasks[m].Accepted? && tasks[x].Accepted? && b.Hash(m) == b.Hash(x)
  {
    schedule := RunToDouble(b, seen, cache, i, j, []);
    m, x :| DoubledBy(b, seen, RunBatch(b, seen, cache, schedule).tasks, m, x);
    schedule := RunToEnd(b, seen, cache, m, x, schedule);
  }

  /** The exact condition under which no schedule ever accepts a hash twice, and the same for prompt
      schedules alone, so that nothing in between changes it. */
  lemma AcceptedOnceIffNoRace(b: Batch, seen: set<string>, cache: map<Json.Value, string>)
    requires b.Valid()
    ensures NeverTwice(b, seen, cache) <==> !CanRace(b, seen, cache)
    ensures (forall schedule :: PromptRun(b, Initial(b, seen, cache), schedule) ==>
               AcceptedOnce(b, RunBatch(b, seen, cache, schedule).tasks))
       <==> !CanRace(b, seen, cache)
  {
    if CanRace(b, seen, cache) {
      var i: nat, j: nat :| RacingPair(b, seen, cache, i, j);
      var schedule, m, x := RaceAcceptsTwice(b, seen, cache, i, j);
      var tasks := RunBatch(b, seen, cache, schedule).tasks;
      TwiceIsNotOnce(b, tasks, m, x);
      assert PromptRun(b, Initial(b, seen, cache), schedule) && !AcceptedOnce(b, tasks);
    } else {
      forall schedule: seq<nat>
        ensures AcceptedOnce(b, RunBatch(b, seen, cache, schedule).tasks)
      {
        NoRaceNoDuplicate(b, seen, cache, schedule);
      }
    }
  }

  lemma TwiceIsNotOnce(b: Batch, tasks: seq<Task>, m: nat, x: nat)
    requires |tasks| == |b.configs| && m < |tasks| && x < |tasks| && m != x
    requires tasks[m].Accepted? && tasks[x].Accepted? && b.Hash(m) == b.Hash(x)
    ensures !AcceptedOnce(b, tasks)
  {
    if m < x { assert b.Hash(m) == b.Hash(x); } else { assert b.Hash(x) == b.Hash(m); }
  }
}
