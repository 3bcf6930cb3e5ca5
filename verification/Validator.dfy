/** Concurrent validation of a batch (processor/validator.py).

    validate_one runs without interruption between two awaits, so one step of the model is one task
    going from one await to the next.  A schedule lists which task moves; it is arbitrary, except
    that tasks start in the order of the batch, and only while the semaphore has a permit.  What the
    network would answer to a task (is the server alive, in which country is it) is fixed per task in
    advance; all answers are quantified over. */
module Validator {
  import Json

  datatype Server = NoServer | Server(name: Json.Value)

  /** The functions that validate_one calls, with check_ping folded into `pings`. */
  datatype Env = Env(
    known: string -> bool,                // detect_protocol(config) != "unknown"
    hash: string -> string,               // config_hash(config)
    server: string -> Server,             // extract_host(config), if truthy
    pings: string -> bool,                // check_ping and host and port
    mark: (string, string) -> string)     // inject_watermark(config, country)

  datatype Entry = Entry(raw: string, marked: string, hash: string, country: string)

  datatype Task = Waiting | Pinging | Fetching | Rejected | Accepted(entry: Entry)

  /** What a stretch between two awaits leaves behind. */
  datatype Effect = Effect(task: Task, seen: set<string>, cache: map<Json.Value, string>)

  function Finish(env: Env, config: string, country: string,
                  seen: set<string>, cache: map<Json.Value, string>): Effect
  {
    var h := env.hash(config);
    Effect(Accepted(Entry(config, env.mark(config, country), h, country)), seen + {h}, cache)
  }

  function Locate(env: Env, config: string, seen: set<string>, cache: map<Json.Value, string>): Effect {
    match env.server(config)
    case NoServer => Finish(env, config, "UN", seen, cache)
    case Server(k) =>
      if k in cache then Finish(env, config, cache[k], seen, cache) else Effect(Fetching, seen, cache)
  }

  function Begin(env: Env, config: string, seen: set<string>, cache: map<Json.Value, string>): Effect {
    if !env.known(config) || env.hash(config) in seen then Effect(Rejected, seen, cache)
    else if env.pings(config) then Effect(Pinging, seen, cache)
    else Locate(env, config, seen, cache)
  }

  function AfterPing(env: Env, config: string, alive: bool,
                     seen: set<string>, cache: map<Json.Value, string>): Effect
  {
    if alive then Locate(env, config, seen, cache) else Effect(Rejected, seen, cache)
  }

  function AfterFetch(env: Env, config: string, country: string,
                      seen: set<string>, cache: map<Json.Value, string>): Effect
  {
    var filled := match env.server(config) case NoServer => cache case Server(k) => cache[k := country];
    Finish(env, config, country, seen, filled)
  }

  /** The object that all tasks of a job share. */
  class ConfigValidator {
    var seenHashes: set<string>
    var countryCache: map<Json.Value, string>

    constructor ()
      ensures seenHashes == {} && countryCache == map[]
    {
      seenHashes, countryCache := {}, map[];
    }

    /** From the start of validate_one to its first await, or to its end. */
    method StartOne(env: Env, config: string) returns (task: Task)
      modifies this
      ensures Effect(task, seenHashes, countryCache)
           == Begin(env, config, old(seenHashes), old(countryCache))
    {
      if !env.known(config) {
        return Rejected;
      }
      var h := env.hash(config);
      if h in seenHashes {
        return Rejected;
      }
      if env.pings(config) {
        return Pinging;
      }
      task := FindCountry(env, config);
    }

    method ResumeFromPing(env: Env, config: string, alive: bool) returns (task: Task)
      modifies this
      ensures Effect(task, seenHashes, countryCache)
           == AfterPing(env, config, alive, old(seenHashes), old(countryCache))
    {
      if !alive {
        return Rejected;
      }
      task := FindCountry(env, config);
    }

    method FindCountry(env: Env, config: string) returns (task: Task)
      modifies this
      ensures Effect(task, seenHashes, countryCache)
           == Locate(env, config, old(seenHashes), old(countryCache))
    {
      var country := "UN";
      match env.server(config) {
        case NoServer =>
        case Server(k) =>
          if k in countryCache {
            country := countryCache[k];
          } else {
            return Fetching;
          }
      }
      task := Accept(env, config, country);
    }

    method ResumeFromFetch(env: Env, config: string, country: string) returns (task: Task)
      modifies this
      ensures Effect(task, seenHashes, countryCache)
           == AfterFetch(env, config, country, old(seenHashes), old(countryCache))
    {
      match env.server(config) {
        case NoServer =>
        case Server(k) => countryCache := countryCache[k := country];
      }
      task := Accept(env, config, country);
    }

    method Accept(env: Env, config: string, country: string) returns (task: Task)
      modifies this
      ensures Effect(task, seenHashes, countryCache)
           == Finish(env, config, country, old(seenHashes), old(countryCache))
    {
      var marked := env.mark(config, country);
      var h := env.hash(config);
      seenHashes := seenHashes + {h};
      task := Accepted(Entry(config, marked, h, country));
    }
  }

  // ---------------------------------------------------------------------------------------------
  // Batches and schedules
  // ---------------------------------------------------------------------------------------------

  datatype Batch = Batch(env: Env, configs: seq<string>, limit: nat, alive: seq<bool>, countries: seq<string>)
  {
    predicate Valid() {
      |alive| == |configs| == |countries|
    }

    function Hash(i: nat): string
      requires i < |configs|
    {
      env.hash(configs[i])
    }

    /** A known protocol, and alive if anybody asks. */
    predicate Fit(i: nat)
      requires Valid() && i < |configs|
    {
      env.known(configs[i]) && (env.pings(configs[i]) ==> alive[i])
    }
  }

  datatype State = State(tasks: seq<Task>, seen: set<string>, cache: map<Json.Value, string>)

  function Initial(b: Batch, seen: set<string>, cache: map<Json.Value, string>): (st: State)
    ensures |st.tasks| == |b.configs|
  {
    State(seq(|b.configs|, _ => Waiting), seen, cache)
  }

  predicate Suspended(t: Task) {
    t.Pinging? || t.Fetching?
  }

  /** How many tasks hold a permit of the semaphore while they wait for the network. */
  function InFlight(tasks: seq<Task>): nat {
    if tasks == [] then 0 else (if Suspended(tasks[0]) then 1 else 0) + InFlight(tasks[1..])
  }

  /** gather starts its tasks in order, and the semaphore wakes them in order. */
  predicate IsNextToStart(tasks: seq<Task>, i: nat)
    requires i < |tasks|
  {
    tasks[i].Waiting? && forall m :: 0 <= m < i ==> !tasks[m].Waiting?
  }

  predicate Enabled(b: Batch, st: State, i: nat) {
    i < |st.tasks| && (Suspended(st.tasks[i]) || (IsNextToStart(st.tasks, i) && InFlight(st.tasks) < b.limit))
  }

  function Effects(b: Batch, st: State, i: nat): Effect
    requires b.Valid() && |st.tasks| == |b.configs| && Enabled(b, st, i)
  {
    match st.tasks[i]
    case Waiting => Begin(b.env, b.configs[i], st.seen, st.cache)
    case Pinging => AfterPing(b.env, b.configs[i], b.alive[i], st.seen, st.cache)
    case Fetching => AfterFetch(b.env, b.configs[i], b.countries[i], st.seen, st.cache)
  }

  function Advance(b: Batch, st: State, i: nat): (next: State)
    requires b.Valid() && |st.tasks| == |b.configs| && Enabled(b, st, i)
    ensures |next.tasks| == |b.configs|
  {
    var e := Effects(b, st, i);
    State(st.tasks[i := e.task], e.seen, e.cache)
  }

  /** Where a schedule leads.  An entry whose task cannot move is passed over, so that every list of
      numbers is a schedule. */
  function Run(b: Batch, start: State, schedule: seq<nat>): (st: State)
    requires b.Valid() && |start.tasks| == |b.configs|
    ensures |st.tasks| == |b.configs|
  {
    if schedule == [] then start
    else
      var st := Run(b, start, schedule[..|schedule| - 1]);
      var i := schedule[|schedule| - 1];
      if Enabled(b, st, i) then Advance(b, st, i) else st
  }

  /** The batch, started with what the validator knows already. */
  function RunBatch(b: Batch, seen: set<string>, cache: map<Json.Value, string>, schedule: seq<nat>): (st: State)
    requires b.Valid()
    ensures |st.tasks| == |b.configs|
  {
    Run(b, Initial(b, seen, cache), schedule)
  }

  /** One step of one task, on the shared object. */
  method StepTask(v: ConfigValidator, b: Batch, tasks: seq<Task>, i: nat) returns (task: Task)
    requires b.Valid() && |tasks| == |b.configs|
    requires Enabled(b, State(tasks, v.seenHashes, v.countryCache), i)
    modifies v
    ensures State(tasks[i := task], v.seenHashes, v.countryCache)
         == Advance(b, old(State(tasks, v.seenHashes, v.countryCache)), i)
  {
    match tasks[i] {
      case Waiting => task := v.StartOne(b.env, b.configs[i]);
      case Pinging => task := v.ResumeFromPing(b.env, b.configs[i], b.alive[i]);
      case Fetching => task := v.ResumeFromFetch(b.env, b.configs[i], b.countries[i]);
    }
  }

  lemma OneMoreEntry(b: Batch, start: State, schedule: seq<nat>, k: nat)
    requires b.Valid() && |start.tasks| == |b.configs| && k < |schedule|
    ensures var st := Run(b, start, schedule[..k]);
            Run(b, start, schedule[..k + 1])
            == if Enabled(b, st, schedule[k]) then Advance(b, st, schedule[k]) else st
  {
    assert schedule[..k + 1][..k] == schedule[..k];
  }

  /** One batch, run by the event loop as the schedule says. */
  method RunTasks(v: ConfigValidator, b: Batch, schedule: seq<nat>) returns (tasks: seq<Task>)
    requires b.Valid()
    modifies v
    ensures State(tasks, v.seenHashes, v.countryCache)
         == RunBatch(b, old(v.seenHashes), old(v.countryCache), schedule)
  {
    tasks := seq(|b.configs|, _ => Waiting);
    ghost var start := State(tasks, v.seenHashes, v.countryCache);
    assert start == Initial(b, v.seenHashes, v.countryCache);
    for k := 0 to |schedule|
      invariant State(tasks, v.seenHashes, v.countryCache) == Run(b, start, schedule[..k])
      invariant |tasks| == |b.configs|
    {
      OneMoreEntry(b, start, schedule, k);
      var i := schedule[k];
      if Enabled(b, State(tasks, v.seenHashes, v.countryCache), i) {
        var task := StepTask(v, b, tasks, i);
        tasks := tasks[i := task];
      }
    }
    assert schedule[..|schedule|] == schedule;
  }

  predicate Finished(tasks: seq<Task>) {
    forall i :: 0 <= i < |tasks| ==> tasks[i].Rejected? || tasks[i].Accepted?
  }

  function Results(tasks: seq<Task>): seq<Entry> {
    if tasks == [] then []
    else (if tasks[0].Accepted? then [tasks[0].entry] else []) + Results(tasks[1..])
  }

  /** The loop over gather's outcomes at the end of validate_batch. */
  method CollectResults(outcomes: seq<Task>) returns (results: seq<Entry>)
    ensures results == Results(outcomes)
  {
    results := [];
    for i := 0 to |outcomes|
      invariant results + Results(outcomes[i..]) == Results(outcomes)
    {
      if outcomes[i].Accepted? {
        results := results + [outcomes[i].entry];
      }
    }
  }

  // ---------------------------------------------------------------------------------------------
  // The semaphore
  // ---------------------------------------------------------------------------------------------

  lemma {:induction false} InFlightUpdate(tasks: seq<Task>, i: nat, t: Task)
    requires i < |tasks|
    ensures InFlight(tasks[i := t])
         == InFlight(tasks) - (if Suspended(tasks[i]) then 1 else 0) + (if Suspended(t) then 1 else 0)
  {
    if i > 0 {
      InFlightUpdate(tasks[1..], i - 1, t);
      assert tasks[i := t][1..] == tasks[1..][i - 1 := t];
    } else {
      assert tasks[i := t][1..] == tasks[1..];
    }
  }

  lemma {:induction false} InFlightOfWaiting(tasks: seq<Task>)
    requires forall i :: 0 <= i < |tasks| ==> tasks[i].Waiting?
    ensures InFlight(tasks) == 0
  {
    if tasks != [] { InFlightOfWaiting(tasks[1..]); }
  }

  lemma {:induction false} InFlightAtLeast(tasks: seq<Task>, i: nat)
    requires i < |tasks| && Suspended(tasks[i])
    ensures InFlight(tasks) >= 1
  {
    if i > 0 { InFlightAtLeast(tasks[1..], i - 1); }
  }

  lemma {:induction false} InFlightTwo(tasks: seq<Task>, i: nat, j: nat)
    requires i < j < |tasks| && Suspended(tasks[i]) && Suspended(tasks[j])
    ensures InFlight(tasks) >= 2
  {
    if i > 0 { InFlightTwo(tasks[1..], i - 1, j - 1); } else { InFlightAtLeast(tasks[1..], j - 1); }
  }

  /** At most max_concurrent validations are ever in flight. */
  lemma {:induction false} InFlightIsBounded(b: Batch, seen: set<string>, cache: map<Json.Value, string>,
                                             schedule: seq<nat>)
    requires b.Valid()
    ensures InFlight(RunBatch(b, seen, cache, schedule).tasks) <= b.limit
  {
    if schedule == [] {
      InFlightOfWaiting(Initial(b, seen, cache).tasks);
    } else {
      var n := |schedule| - 1;
      InFlightIsBounded(b, seen, cache, schedule[..n]);
      var st := RunBatch(b, seen, cache, schedule[..n]);
      if Enabled(b, st, schedule[n]) {
        InFlightUpdate(st.tasks, schedule[n], Effects(b, st, schedule[n]).task);
      }
    }
  }

  // ---------------------------------------------------------------------------------------------
  // Progress
  // ---------------------------------------------------------------------------------------------

  function Left(t: Task): nat {
    if t.Waiting? then 3 else if t.Pinging? then 2 else if t.Fetching? then 1 else 0
  }

  function Work(tasks: seq<Task>): nat {
    if tasks == [] then 0 else Left(tasks[0]) + Work(tasks[1..])
  }

  lemma {:induction false} WorkUpdate(tasks: seq<Task>, i: nat, t: Task)
    requires i < |tasks|
    ensures Work(tasks[i := t]) == Work(tasks) - Left(tasks[i]) + Left(t)
  {
    if i > 0 {
      WorkUpdate(tasks[1..], i - 1, t);
      assert tasks[i := t][1..] == tasks[1..][i - 1 := t];
    } else {
      assert tasks[i := t][1..] == tasks[1..];
    }
  }

  /** Every step of every task brings the batch closer to its end. */
  lemma StepDoesWork(b: Batch, st: State, i: nat)
    requires b.Valid() && |st.tasks| == |b.configs| && Enabled(b, st, i)
    ensures Work(Advance(b, st, i).tasks) < Work(st.tasks)
  {
    WorkUpdate(st.tasks, i, Effects(b, st, i).task);
  }

  lemma {:induction false} NothingInFlight(tasks: seq<Task>)
    requires forall i :: 0 <= i < |tasks| ==> !Suspended(tasks[i])
    ensures InFlight(tasks) == 0
  {
    if tasks != [] { NothingInFlight(tasks[1..]); }
  }

  lemma {:induction false} FirstWaiting(tasks: seq<Task>, n: nat) returns (i: nat)
    requires n < |tasks| && tasks[n].Waiting?
    ensures i <= n && IsNextToStart(tasks, i)
  {
    if m :| 0 <= m < n && tasks[m].Waiting? {
      i := FirstWaiting(tasks, m);
    } else {
      i := n;
    }
  }

  /** With at least one permit the batch never gets stuck before it is finished. */
  lemma NeverStuck(b: Batch, st: State) returns (i: nat)
    requires b.Valid() && |st.tasks| == |b.configs| && b.limit >= 1
    requires !Finished(st.tasks)
    ensures Enabled(b, st, i)
  {
    if j :| 0 <= j < |st.tasks| && Suspended(st.tasks[j]) {
      i := j;
    } else {
      NothingInFlight(st.tasks);
      var n :| 0 <= n < |st.tasks| && !(st.tasks[n].Rejected? || st.tasks[n].Accepted?);
      i := FirstWaiting(st.tasks, n);
    }
  }

  /** So every schedule can be continued to the end of the batch. */
  lemma {:induction false} EveryScheduleCanFinish(b: Batch, seen: set<string>, cache: map<Json.Value, string>,
                                                  schedule: seq<nat>)
    returns (longer: seq<nat>)
    requires b.Valid() && b.limit >= 1
    ensures schedule <= longer && Finished(RunBatch(b, seen, cache, longer).tasks)
    decreases Work(RunBatch(b, seen, cache, schedule).tasks)
  {
    var st := RunBatch(b, seen, cache, schedule);
    if Finished(st.tasks) {
      longer := schedule;
    } else {
      var i := NeverStuck(b, st);
      StepDoesWork(b, st, i);
      assert (schedule + [i])[..|schedule|] == schedule;
      longer := EveryScheduleCanFinish(b, seen, cache, schedule + [i]);
    }
  }

  // ---------------------------------------------------------------------------------------------
  // Batches without repeated hashes
  // ---------------------------------------------------------------------------------------------

  ghost predicate DistinctBatch(b: Batch) {
    forall i, j :: 0 <= i < j < |b.configs| ==> b.Hash(i) != b.Hash(j)
  }

  /** What a task says about its config, when nobody else has its hash. */
  ghost predicate Consistent(b: Batch, seen0: set<string>, i: nat, t: Task)
    requires b.Valid() && i < |b.configs|
  {
    match t
    case Waiting => true
    case Pinging => b.env.known(b.configs[i]) && b.env.pings(b.configs[i]) && b.Hash(i) !in seen0
    case Fetching => b.Fit(i) && b.Hash(i) !in seen0
    case Rejected => !(b.Fit(i) && b.Hash(i) !in seen0)
    case Accepted(e) =>
      && b.Fit(i) && b.Hash(i) !in seen0
      && e.raw == b.configs[i] && e.hash == b.Hash(i) && e.marked == b.env.mark(e.raw, e.country)
  }

  ghost predicate AllConsistent(b: Batch, seen0: set<string>, st: State)
    requires b.Valid() && |st.tasks| == |b.configs|
  {
    forall i :: 0 <= i < |b.configs| ==> Consistent(b, seen0, i, st.tasks[i])
  }

  /** The shared set holds what it held before and the hashes of the accepted tasks. */
  ghost predicate SeenIsExact(b: Batch, seen0: set<string>, st: State)
    requires |st.tasks| == |b.configs|
  {
    forall h :: h in st.seen <==>
      h in seen0 || exists i :: 0 <= i < |b.configs| && st.tasks[i].Accepted? && b.Hash(i) == h
  }

  lemma SeenAfterStep(b: Batch, seen0: set<string>, st: State, i: nat)
    requires b.Valid() && |st.tasks| == |b.configs| && Enabled(b, st, i)
    requires SeenIsExact(b, seen0, st)
    ensures SeenIsExact(b, seen0, Advance(b, st, i))
  {
    var next := Advance(b, st, i);
    forall h ensures h in next.seen <==>
      h in seen0 || exists j :: 0 <= j < |b.configs| && next.tasks[j].Accepted? && b.Hash(j) == h
    {
      if j :| 0 <= j < |b.configs| && st.tasks[j].Accepted? && b.Hash(j) == h {
        assert next.tasks[j].Accepted?;
      }
      if next.tasks[i].Accepted? && h == b.Hash(i) {
        assert next.tasks[i].Accepted? && b.Hash(i) == h;
      }
    }
  }

  lemma ConsistentAfterStep(b: Batch, seen0: set<string>, st: State, i: nat)
    requires b.Valid() && |st.tasks| == |b.configs| && Enabled(b, st, i)
    requires DistinctBatch(b) && AllConsistent(b, seen0, st) && SeenIsExact(b, seen0, st)
    ensures AllConsistent(b, seen0, Advance(b, st, i))
  {
    assert Consistent(b, seen0, i, st.tasks[i]);
    assert st.tasks[i].Waiting? && b.Hash(i) in st.seen ==> b.Hash(i) in seen0;
    assert Consistent(b, seen0, i, Effects(b, st, i).task);
  }

  lemma {:induction false} DistinctRun(b: Batch, seen: set<string>, cache: map<Json.Value, string>,
                                       schedule: seq<nat>)
    requires b.Valid() && DistinctBatch(b)
    ensures AllConsistent(b, seen, RunBatch(b, seen, cache, schedule))
    ensures SeenIsExact(b, seen, RunBatch(b, seen, cache, schedule))
  {
    if schedule != [] {
      var n := |schedule| - 1;
      DistinctRun(b, seen, cache, schedule[..n]);
      var st := RunBatch(b, seen, cache, schedule[..n]);
      if Enabled(b, st, schedule[n]) {
        SeenAfterStep(b, seen, st, schedule[n]);
        ConsistentAfterStep(b, seen, st, schedule[n]);
      }
    }
  }

  /** The sequential filter: fit configs whose hash was not seen before the batch, in order. */
  function Filter(b: Batch, seen: set<string>, from: nat): seq<string>
    requires b.Valid() && from <= |b.configs|
    decreases |b.configs| - from
  {
    if from == |b.configs| then []
    else (if b.Fit(from) && b.Hash(from) !in seen then [b.configs[from]] else []) + Filter(b, seen, from + 1)
  }

  lemma {:induction false} FilterMembers(b: Batch, seen: set<string>, from: nat, c: string)
    requires b.Valid() && from <= |b.configs|
    ensures c in Filter(b, seen, from) <==>
              exists i :: from <= i < |b.configs| && b.configs[i] == c && b.Fit(i) && b.Hash(i) !in seen
    decreases |b.configs| - from
  {
    if from < |b.configs| { FilterMembers(b, seen, from + 1, c); }
  }

  ghost predicate DistinctUnder(hash: string -> string, s: seq<string>) {
    forall i, j :: 0 <= i < j < |s| ==> hash(s[i]) != hash(s[j])
  }

  lemma DistinctCons(hash: string -> string, c: string, rest: seq<string>)
    requires DistinctUnder(hash, rest)
    requires forall d :: d in rest ==> hash(d) != hash(c)
    ensures DistinctUnder(hash, [c] + rest)
  {
    var s := [c] + rest;
    forall i, j | 0 <= i < j < |s| ensures hash(s[i]) != hash(s[j]) {
      assert s[j] == rest[j - 1] && rest[j - 1] in rest;
      if i > 0 { assert s[i] == rest[i - 1]; }
    }
  }

  lemma LaterHashesDiffer(b: Batch, seen: set<string>, from: nat)
    requires b.Valid() && DistinctBatch(b) && from < |b.configs|
    ensures forall d :: d in Filter(b, seen, from + 1) ==> b.env.hash(d) != b.env.hash(b.configs[from])
  {
    forall d | d in Filter(b, seen, from + 1) ensures b.env.hash(d) != b.env.hash(b.configs[from]) {
      FilterMembers(b, seen, from + 1, d);
      var i :| from + 1 <= i < |b.configs| && b.configs[i] == d && b.Fit(i) && b.Hash(i) !in seen;
      assert b.Hash(from) != b.Hash(i);
    }
  }

  lemma FilterUnfolds(b: Batch, seen: set<string>, from: nat)
    requires b.Valid() && from < |b.configs|
    ensures var rest := Filter(b, seen, from + 1);
            Filter(b, seen, from) == [b.configs[from]] + rest || Filter(b, seen, from) == rest
  {
    assert [] + Filter(b, seen, from + 1) == Filter(b, seen, from + 1);
  }

  lemma {:induction false} FilterIsDistinct(b: Batch, seen: set<string>, from: nat)
    requires b.Valid() && DistinctBatch(b) && from <= |b.configs|
    ensures DistinctUnder(b.env.hash, Filter(b, seen, from))
    decreases |b.configs| - from
  {
    if from < |b.configs| {
      FilterIsDistinct(b, seen, from + 1);
      LaterHashesDiffer(b, seen, from);
      DistinctCons(b.env.hash, b.configs[from], Filter(b, seen, from + 1));
      FilterUnfolds(b, seen, from);
    }
  }

  function Raws(entries: seq<Entry>): (r: seq<string>)
    ensures |r| == |entries| && forall i :: 0 <= i < |r| ==> r[i] == entries[i].raw
  {
    seq(|entries|, i requires 0 <= i < |entries| => entries[i].raw)
  }

  lemma {:induction false} ResultsAreFiltered(b: Batch, seen: set<string>, st: State, from: nat)
    requires b.Valid() && |st.tasks| == |b.configs| && from <= |b.configs|
    requires AllConsistent(b, seen, st) && Finished(st.tasks)
    ensures Raws(Results(st.tasks[from..])) == Filter(b, seen, from)
    ensures forall e :: e in Results(st.tasks[from..]) ==>
              e.hash == b.env.hash(e.raw) && e.marked == b.env.mark(e.raw, e.country)
    decreases |b.configs| - from
  {
    if from < |b.configs| {
      ResultsAreFiltered(b, seen, st, from + 1);
      assert Consistent(b, seen, from, st.tasks[from]);
      assert st.tasks[from..][1..] == st.tasks[from + 1..];
      assert st.tasks[from..][0] == st.tasks[from];
    }
  }

  /** Every interleaving gives the sequential result: for a batch without repeated hashes, whatever
      the schedule, the accepted configs are exactly the filtered ones, in the order of the batch. */
  lemma EveryScheduleFilters(b: Batch, seen: set<string>, cache: map<Json.Value, string>, schedule: seq<nat>)
    requires b.Valid() && DistinctBatch(b)
    requires Finished(RunBatch(b, seen, cache, schedule).tasks)
    ensures var results := Results(RunBatch(b, seen, cache, schedule).tasks);
            && Raws(results) == Filter(b, seen, 0)
            && (forall e :: e in results ==>
                  e.hash == b.env.hash(e.raw) && e.marked == b.env.mark(e.raw, e.country))
  {
    DistinctRun(b, seen, cache, schedule);
    var st := RunBatch(b, seen, cache, schedule);
    ResultsAreFiltered(b, seen, st, 0);
    assert st.tasks[0..] == st.tasks;
  }

  // ---------------------------------------------------------------------------------------------
  // Where countries come from
  // ---------------------------------------------------------------------------------------------

  /** The country was cached for this server before the batch, or the network gave it for a config with
      this server. */
  ghost predicate Sourced(b: Batch, cache0: map<Json.Value, string>, server: Json.Value, country: string)
    requires b.Valid()
  {
    || (server in cache0 && cache0[server] == country)
    || exists j :: 0 <= j < |b.configs| && b.env.server(b.configs[j]) == Server(server) && b.countries[j] == country
  }

  ghost predicate CacheSourced(b: Batch, cache0: map<Json.Value, string>, cache: map<Json.Value, string>)
    requires b.Valid()
  {
    forall k :: k in cache ==> Sourced(b, cache0, k, cache[k])
  }

  /** An accepted entry has the country of its own server, or "UN" when the config names none. */
  ghost predicate CountryFits(b: Batch, cache0: map<Json.Value, string>, i: nat, t: Task)
    requires b.Valid() && i < |b.configs|
  {
    t.Accepted? ==>
      match b.env.server(b.configs[i])
      case NoServer => t.entry.country == "UN"
      case Server(k) => Sourced(b, cache0, k, t.entry.country)
  }

  lemma EffectCountry(b: Batch, cache0: map<Json.Value, string>, st: State, i: nat)
    requires b.Valid() && |st.tasks| == |b.configs| && Enabled(b, st, i)
    requires st.tasks[i].Fetching? ==> b.env.server(b.configs[i]).Server?
    requires CacheSourced(b, cache0, st.cache)
    ensures CacheSourced(b, cache0, Effects(b, st, i).cache)
    ensures CountryFits(b, cache0, i, Effects(b, st, i).task)
    ensures Effects(b, st, i).task.Fetching? ==> b.env.server(b.configs[i]).Server?
  {
    if b.env.server(b.configs[i]).Server? {
      assert Sourced(b, cache0, b.env.server(b.configs[i]).name, b.countries[i]);
    }
  }

  /** In every schedule, finished or not, countries are never mixed up between servers. */
  lemma {:induction false} CountriesFit(b: Batch, seen: set<string>, cache: map<Json.Value, string>,
                                        schedule: seq<nat>)
    requires b.Valid()
    ensures var st := RunBatch(b, seen, cache, schedule);
            && CacheSourced(b, cache, st.cache)
            && (forall i :: 0 <= i < |b.configs| ==>
                  && CountryFits(b, cache, i, st.tasks[i])
                  && (st.tasks[i].Fetching? ==> b.env.server(b.configs[i]).Server?))
  {
    if schedule != [] {
      var n := |schedule| - 1;
      CountriesFit(b, seen, cache, schedule[..n]);
      var st := RunBatch(b, seen, cache, schedule[..n]);
      if Enabled(b, st, schedule[n]) { EffectCountry(b, cache, st, schedule[n]); }
    }
  }
}
