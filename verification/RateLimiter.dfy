/** The sliding-window limiter in front of the geo lookup (core/utils.py, _GeoRateLimiter).

    Times are real seconds.  A call reads the clock once on entry and once when it records its
    grant; `late` is whatever time passes beyond the sleep that the code asks for, so any clock that
    never runs backwards, and any sleep that lasts at least as long as requested, is covered. */
module RateLimiter {

  const WINDOW: real := 60.0
  const BUFFER: real := 0.1

  /** What one acquire leaves behind: the list it stores, the sleep it asked for, the grant time. */
  datatype Acquired = Acquired(stamps: seq<real>, waited: bool, slept: real, granted: real)

  /** The stamps that are still less than a window old. */
  function Prune(stamps: seq<real>, now: real): (kept: seq<real>)
    ensures |kept| <= |stamps|
  {
    if stamps == [] then []
    else if now - stamps[0] < WINDOW then [stamps[0]] + Prune(stamps[1..], now)
    else Prune(stamps[1..], now)
  }

  function AcquireAt(limit: nat, stamps: seq<real>, now: real, late: real): Acquired
    requires limit >= 1
  {
    var kept := Prune(stamps, now);
    if |kept| >= limit then
      var slept := WINDOW - (now - kept[0]) + BUFFER;
      var granted := now + slept + late;
      Acquired([granted], true, slept, granted)
    else
      Acquired(kept + [now + late], false, 0.0, now + late)
  }

  class GeoRateLimiter {
    const callsPerMinute: nat
    var timestamps: seq<real>

    constructor (callsPerMinute: nat := 120)
      ensures this.callsPerMinute == callsPerMinute && timestamps == []
    {
      this.callsPerMinute := callsPerMinute;
      timestamps := [];
    }

    /** The lock makes calls serial, so one call is one atomic step.  A limit of 0 would index an
        empty list, hence the precondition. */
    method Acquire(now: real, late: real) returns (slept: real, granted: real)
      requires callsPerMinute >= 1
      modifies this
      ensures var a := AcquireAt(callsPerMinute, old(timestamps), now, late);
              timestamps == a.stamps && slept == a.slept && granted == a.granted
    {
      var kept: seq<real> := [];
      for i := 0 to |timestamps|
        invariant timestamps == old(timestamps)
        invariant kept + Prune(timestamps[i..], now) == Prune(timestamps, now)
      {
        if now - timestamps[i] < WINDOW {
          kept := kept + [timestamps[i]];
        }
      }
      timestamps := kept;
      slept := 0.0;
      if |timestamps| >= callsPerMinute {
        var oldest := timestamps[0];
        slept := WINDOW - (now - oldest) + BUFFER;
        timestamps := [];
      }
      granted := now + slept + late;
      timestamps := timestamps + [granted];
    }
  }

  // ---------------------------------------------------------------------------------------------
  // Whole runs
  // ---------------------------------------------------------------------------------------------

  datatype Call = Call(now: real, late: real)

  /** Everything that happened so far: the stored list, every grant in order, the positions (in
      `grants`) of the grants made right after a clear, and the sleeps requested there. */
  datatype Log = Log(stamps: seq<real>, grants: seq<real>, clears: seq<nat>, sleeps: seq<real>)

  function Record(limit: nat, log: Log, call: Call): Log
    requires limit >= 1
  {
    var a := AcquireAt(limit, log.stamps, call.now, call.late);
    Log(a.stamps, log.grants + [a.granted],
        if a.waited then log.clears + [|log.grants|] else log.clears,
        if a.waited then log.sleeps + [a.slept] else log.sleeps)
  }

  function Run(limit: nat, calls: seq<Call>): (log: Log)
    requires limit >= 1
    ensures |log.grants| == |calls|
  {
    if calls == [] then Log([], [], [], [])
    else Record(limit, Run(limit, calls[..|calls| - 1]), calls[|calls| - 1])
  }

  /** The clock never runs backwards and no sleep is cut short. */
  ghost predicate Plausible(limit: nat, calls: seq<Call>)
    requires limit >= 1
  {
    calls == [] ||
    (var n := |calls| - 1;
     var before := Run(limit, calls[..n]).grants;
     && Plausible(limit, calls[..n])
     && calls[n].late >= 0.0
     && (n > 0 ==> calls[n].now >= before[n - 1]))
  }

  ghost predicate Sorted(s: seq<real>) {
    forall i, j :: 0 <= i <= j < |s| ==> s[i] <= s[j]
  }

  /** Entries `gap` places apart are at least a window apart. */
  ghost predicate Spread(s: seq<real>, gap: nat) {
    forall i, j :: 0 <= i && i + gap == j < |s| ==> s[i] + WINDOW <= s[j]
  }

  function SegmentStart(clears: seq<nat>): nat {
    if clears == [] then 0 else clears[|clears| - 1]
  }

  /** No clear happens at a position in (i, j]. */
  ghost predicate SameSegment(clears: seq<nat>, i: int, j: int) {
    forall k :: 0 <= k < |clears| ==> !(i < clears[k] <= j)
  }

  /** Within one segment the advertised limit holds. */
  ghost predicate SpreadInSegments(limit: nat, grants: seq<real>, clears: seq<nat>) {
    forall i, j :: 0 <= i && i + limit == j < |grants| && SameSegment(clears, i, j)
      ==> grants[i] + WINDOW <= grants[j]
  }

  /** Each clear waited for the grant `limit` places before it. */
  ghost predicate ClearsWaited(limit: nat, grants: seq<real>, clears: seq<nat>) {
    forall k :: 0 <= k < |clears| ==>
      && limit <= clears[k] < |grants|
      && grants[clears[k] - limit] + WINDOW + BUFFER <= grants[clears[k]]
  }

  ghost predicate ClearsSpaced(limit: nat, clears: seq<nat>) {
    && (forall j, k :: 0 <= j < k < |clears| ==> clears[j] + limit <= clears[k])
    && (forall k :: 0 <= k < |clears| ==> limit <= clears[k] <= SegmentStart(clears))
  }

  ghost predicate SleepsBounded(sleeps: seq<real>) {
    forall k :: 0 <= k < |sleeps| ==> BUFFER < sleeps[k] <= WINDOW + BUFFER
  }

  /** `part` is a suffix of `whole`. */
  ghost predicate IsTail(part: seq<real>, whole: seq<real>) {
    && |part| <= |whole|
    && (forall i, j :: 0 <= i < |part| && 0 <= j < |whole| && j - i == |whole| - |part| ==> part[i] == whole[j])
  }

  /** The stored list is the tail of the current segment, and whatever of the segment is not in it
      is at least a window old. */
  ghost predicate TailStored(limit: nat, log: Log) {
    var n := |log.grants|;
    var kept := n - |log.stamps|;
    && |log.stamps| <= limit
    && SegmentStart(log.clears) <= kept
    && IsTail(log.stamps, log.grants)
    && (forall i :: SegmentStart(log.clears) <= i < kept ==> log.grants[i] + WINDOW <= log.grants[n - 1])
  }

  ghost predicate NotBackwards(log: Log, call: Call) {
    call.late >= 0.0 && (log.grants != [] ==> log.grants[|log.grants| - 1] <= call.now)
  }

  /** On a sorted list pruning drops a prefix. */
  lemma {:induction false} PruneIsTail(s: seq<real>, now: real)
    requires Sorted(s)
    ensures IsTail(Prune(s, now), s)
    ensures forall i :: 0 <= i < |s| ==> (s[i] + WINDOW <= now <==> i < |s| - |Prune(s, now)|)
  {
    if s == [] {
    } else if now - s[0] < WINDOW {
      PruneKeepsAll(s, now);
    } else {
      PruneIsTail(s[1..], now);
      assert forall i :: 0 < i < |s| ==> s[i] == s[1..][i - 1];
    }
  }

  lemma {:induction false} PruneKeepsAll(s: seq<real>, now: real)
    requires forall i :: 0 <= i < |s| ==> now - s[i] < WINDOW
    ensures Prune(s, now) == s
  {
    if s != [] {
      assert s == [s[0]] + s[1..];
      PruneKeepsAll(s[1..], now);
    }
  }

  lemma TailOfTail(a: seq<real>, b: seq<real>, c: seq<real>)
    requires IsTail(a, b) && IsTail(b, c)
    ensures IsTail(a, c)
  {
    forall i, j | 0 <= i < |a| && 0 <= j < |c| && j - i == |c| - |a| ensures a[i] == c[j] {
      assert a[i] == b[i + (|b| - |a|)];
    }
  }

  /** At the entry of a call the pruned list is the tail of the grants from some position on, and
      everything of the segment before that position is at least a window old. */
  lemma PrunedTail(limit: nat, log: Log, call: Call) returns (p: nat)
    requires Sorted(log.grants) && TailStored(limit, log) && NotBackwards(log, call)
    ensures SegmentStart(log.clears) <= p <= |log.grants|
    ensures p == |log.grants| - |Prune(log.stamps, call.now)| && |log.grants| - p <= limit
    ensures IsTail(Prune(log.stamps, call.now), log.grants)
    ensures forall i :: SegmentStart(log.clears) <= i < p ==> log.grants[i] + WINDOW <= call.now
    ensures forall i :: p <= i < |log.grants| ==> call.now - log.grants[i] < WINDOW
  {
    var n, m := |log.grants|, |log.stamps|;
    SortedTail(log.stamps, log.grants);
    PruneIsTail(log.stamps, call.now);
    TailOfTail(Prune(log.stamps, call.now), log.stamps, log.grants);
    p := n - |Prune(log.stamps, call.now)|;
    forall i | SegmentStart(log.clears) <= i < n
      ensures i < p ==> log.grants[i] + WINDOW <= call.now
      ensures p <= i ==> call.now - log.grants[i] < WINDOW
    {
      if n - m <= i { assert log.grants[i] == log.stamps[i - (n - m)]; }
    }
  }

  lemma SortedTail(part: seq<real>, whole: seq<real>)
    requires Sorted(whole) && IsTail(part, whole)
    ensures Sorted(part)
  {
    var d := |whole| - |part|;
    forall i, j | 0 <= i <= j < |part| ensures part[i] <= part[j] {
      assert part[i] == whole[d + i] && part[j] == whole[d + j];
    }
  }

  lemma SortedAppend(s: seq<real>, t: real)
    requires Sorted(s) && (s != [] ==> s[|s| - 1] <= t)
    ensures Sorted(s + [t])
  {
    forall i, j | 0 <= i <= j < |s| + 1 ensures (s + [t])[i] <= (s + [t])[j] {
      if j == |s| && i < j { assert s[i] <= s[|s| - 1]; }
    }
  }

  lemma SpreadAppend(s: seq<real>, gap: nat, t: real)
    requires Spread(s, gap) && gap >= 1 && (|s| >= gap ==> s[|s| - gap] + WINDOW <= t)
    ensures Spread(s + [t], gap)
  {
  }

  lemma SpreadAppendOld(s: seq<real>, limit: nat, t: real)
    requires limit >= 1 && Sorted(s) && Spread(s, 2 * limit - 1)
    requires |s| >= 2 * limit - 1 ==>
               s[|s| - limit] + WINDOW <= t || s[|s| - (2 * limit - 1)] + WINDOW <= t
    ensures Spread(s + [t], 2 * limit - 1)
  {
    var gap := 2 * limit - 1;
    if |s| >= gap { assert s[|s| - gap] <= s[|s| - limit]; }
    SpreadAppend(s, gap, t);
  }

  lemma SpreadInSegmentsAppend(limit: nat, s: seq<real>, clears: seq<nat>, next: seq<nat>, t: real)
    requires limit >= 1 && SpreadInSegments(limit, s, clears)
    requires next == clears || next == clears + [|s|]
    requires |s| >= limit && SameSegment(next, |s| - limit, |s|) ==> s[|s| - limit] + WINDOW <= t
    ensures SpreadInSegments(limit, s + [t], next)
  {
    forall i, j | 0 <= i && i + limit == j < |s| + 1 && SameSegment(next, i, j)
      ensures (s + [t])[i] + WINDOW <= (s + [t])[j]
    {
      if j < |s| {
        forall k | 0 <= k < |clears| ensures !(i < clears[k] <= j) {
          assert clears[k] == next[k];
        }
        assert SameSegment(clears, i, j);
      }
    }
  }

  lemma ClearsWaitedAppend(limit: nat, grants: seq<real>, clears: seq<nat>, t: real)
    requires limit >= 1 && ClearsWaited(limit, grants, clears)
    ensures ClearsWaited(limit, grants + [t], clears)
  {
  }

  lemma TailStoredAppend(limit: nat, kept: seq<real>, log: Log, t: real)
    requires IsTail(kept, log.grants) && |kept| < limit
    requires var p := |log.grants| - |kept|;
             && SegmentStart(log.clears) <= p
             && (forall i :: SegmentStart(log.clears) <= i < p ==> log.grants[i] + WINDOW <= t)
    ensures TailStored(limit, Log(kept + [t], log.grants + [t], log.clears, log.sleeps))
  {
  }

  /** After a grant without a wait the segment's own last N + 1 grants span a window. */
  lemma OldEnoughForSegment(limit: nat, grants: seq<real>, clears: seq<nat>, p: nat, now: real)
    requires limit >= 1 && ClearsWaited(limit, grants, clears)
    requires SegmentStart(clears) <= p <= |grants| && |grants| - p < limit
    requires forall i :: SegmentStart(clears) <= i < p ==> grants[i] + WINDOW <= now
    requires |grants| >= limit && SameSegment(clears, |grants| - limit, |grants|)
    ensures grants[|grants| - limit] + WINDOW <= now
  {
    if clears != [] { assert SegmentStart(clears) == clears[|clears| - 1] < |grants|; }
  }

  /** ... and any 2N consecutive grants do, because the last clear waited too. */
  lemma OldEnoughForSpread(limit: nat, grants: seq<real>, clears: seq<nat>, p: nat, now: real)
    requires limit >= 1 && Sorted(grants) && ClearsWaited(limit, grants, clears)
    requires grants != [] ==> grants[|grants| - 1] <= now
    requires SegmentStart(clears) <= p <= |grants| && |grants| - p < limit
    requires forall i :: SegmentStart(clears) <= i < p ==> grants[i] + WINDOW <= now
    requires |grants| >= 2 * limit - 1
    ensures grants[|grants| - (2 * limit - 1)] + WINDOW <= now
  {
    var s, n := SegmentStart(clears), |grants|;
    var j := n - (2 * limit - 1);
    if j < s {
      assert s == clears[|clears| - 1];
      if j <= s - limit {
        assert grants[j] <= grants[s - limit];
        assert grants[s] <= grants[n - 1];
      } else {
        assert grants[j] <= grants[s];
      }
    }
  }

  lemma ClearsAppend(limit: nat, grants: seq<real>, clears: seq<nat>, t: real)
    requires limit >= 1 && ClearsWaited(limit, grants, clears) && ClearsSpaced(limit, clears)
    requires SegmentStart(clears) <= |grants| - limit && grants[|grants| - limit] + WINDOW + BUFFER <= t
    ensures ClearsWaited(limit, grants + [t], clears + [|grants|])
    ensures ClearsSpaced(limit, clears + [|grants|])
  {
  }

  lemma {:induction false} RunStoresTail(limit: nat, calls: seq<Call>)
    requires limit >= 1 && Plausible(limit, calls)
    ensures Sorted(Run(limit, calls).grants) && TailStored(limit, Run(limit, calls))
  {
    if calls != [] {
      var n := |calls| - 1;
      RunStoresTail(limit, calls[..n]);
      RecordStoresTail(limit, Run(limit, calls[..n]), calls[n]);
    }
  }

  lemma RecordStoresTail(limit: nat, log: Log, call: Call)
    requires limit >= 1 && Sorted(log.grants) && TailStored(limit, log) && NotBackwards(log, call)
    ensures Sorted(Record(limit, log, call).grants) && TailStored(limit, Record(limit, log, call))
  {
    var p := PrunedTail(limit, log, call);
    var kept := Prune(log.stamps, call.now);
    if |kept| < limit {
      TailStoredAppend(limit, kept, log, call.now + call.late);
      SortedAppend(log.grants, call.now + call.late);
    } else {
      assert kept[0] == log.grants[p];
      ClearStoresTail(limit, log, call, p);
    }
  }

  lemma ClearStoresTail(limit: nat, log: Log, call: Call, p: nat)
    requires limit >= 1 && Sorted(log.grants) && NotBackwards(log, call)
    requires |Prune(log.stamps, call.now)| >= limit && p < |log.grants|
    requires Prune(log.stamps, call.now)[0] == log.grants[p] && call.now - log.grants[p] < WINDOW
    ensures Sorted(Record(limit, log, call).grants) && TailStored(limit, Record(limit, log, call))
  {
    var t := AcquireAt(limit, log.stamps, call.now, call.late).granted;
    assert log.grants[|log.grants| - 1] <= t;
    SortedAppend(log.grants, t);
  }

  /** What the last call of a run did: grants from position p on were still in the window, and
      either the call went straight through or it waited for the grant N places back. */
  lemma LastCall(limit: nat, calls: seq<Call>) returns (p: nat, t: real)
    requires limit >= 1 && Plausible(limit, calls) && calls != []
    ensures var n := |calls| - 1;
            var before, after, now := Run(limit, calls[..n]), Run(limit, calls), calls[n].now;
            && Sorted(before.grants) && SegmentStart(before.clears) <= p <= n
            && (n > 0 ==> before.grants[n - 1] <= now) && now <= t
            && after.grants == before.grants + [t]
            && (forall i :: SegmentStart(before.clears) <= i < p ==> before.grants[i] + WINDOW <= now)
            && if n - p < limit
               then after.clears == before.clears && after.sleeps == before.sleeps
               else && p == n - limit
                    && after.clears == before.clears + [n]
                    && before.grants[p] + WINDOW + BUFFER <= t
                    && (exists s :: BUFFER < s <= WINDOW + BUFFER && after.sleeps == before.sleeps + [s])
  {
    var n := |calls| - 1;
    RunStoresTail(limit, calls[..n]);
    RunStoresTail(limit, calls);
    var before := Run(limit, calls[..n]);
    var a := AcquireAt(limit, before.stamps, calls[n].now, calls[n].late);
    p := PrunedTail(limit, before, calls[n]);
    t := a.granted;
    if n - p >= limit {
      assert Prune(before.stamps, calls[n].now)[0] == before.grants[p] <= before.grants[n - 1];
      assert BUFFER < a.slept <= WINDOW + BUFFER;
    }
  }

  lemma {:induction false} RunClears(limit: nat, calls: seq<Call>)
    requires limit >= 1 && Plausible(limit, calls)
    ensures var log := Run(limit, calls);
            ClearsWaited(limit, log.grants, log.clears) && ClearsSpaced(limit, log.clears)
  {
    if calls != [] {
      var n := |calls| - 1;
      RunClears(limit, calls[..n]);
      var log := Run(limit, calls[..n]);
      var p, t := LastCall(limit, calls);
      if n - p < limit {
        ClearsWaitedAppend(limit, log.grants, log.clears, t);
      } else {
        ClearsAppend(limit, log.grants, log.clears, t);
      }
    }
  }

  lemma {:induction false} RunSleeps(limit: nat, calls: seq<Call>)
    requires limit >= 1 && Plausible(limit, calls)
    ensures var log := Run(limit, calls);
            |log.sleeps| == |log.clears| && SleepsBounded(log.sleeps)
  {
    if calls != [] {
      RunSleeps(limit, calls[..|calls| - 1]);
      var p, t := LastCall(limit, calls);
    }
  }

  lemma ShortTailInSegment(limit: nat, calls: seq<Call>, p: nat, now: real)
    requires limit >= 1 && Plausible(limit, calls)
    requires var log := Run(limit, calls);
             && SegmentStart(log.clears) <= p <= |calls|
             && (forall i :: SegmentStart(log.clears) <= i < p ==> log.grants[i] + WINDOW <= now)
    requires |calls| - p < limit <= |calls|
    requires SameSegment(Run(limit, calls).clears, |calls| - limit, |calls|)
    ensures Run(limit, calls).grants[|calls| - limit] + WINDOW <= now
  {
    RunClears(limit, calls);
    OldEnoughForSegment(limit, Run(limit, calls).grants, Run(limit, calls).clears, p, now);
  }

  lemma LastCallInSegment(limit: nat, calls: seq<Call>) returns (t: real)
    requires limit >= 1 && Plausible(limit, calls) && calls != []
    ensures var n := |calls| - 1;
            var before, next := Run(limit, calls[..n]), Run(limit, calls).clears;
            && Run(limit, calls).grants == before.grants + [t]
            && (next == before.clears || next == before.clears + [n])
            && (n >= limit && SameSegment(next, n - limit, n) ==> before.grants[n - limit] + WINDOW <= t)
  {
    var n, p := |calls| - 1, 0;
    p, t := LastCall(limit, calls);
    if n - p < limit <= n && SameSegment(Run(limit, calls).clears, n - limit, n) {
      ShortTailInSegment(limit, calls[..n], p, calls[n].now);
    }
  }

  lemma {:induction false} RunSegments(limit: nat, calls: seq<Call>)
    requires limit >= 1 && Plausible(limit, calls)
    ensures SpreadInSegments(limit, Run(limit, calls).grants, Run(limit, calls).clears)
  {
    if calls != [] {
      var n := |calls| - 1;
      RunSegments(limit, calls[..n]);
      var t := LastCallInSegment(limit, calls);
      var before := Run(limit, calls[..n]);
      SpreadInSegmentsAppend(limit, before.grants, before.clears, Run(limit, calls).clears, t);
    }
  }

  lemma ShortTailSpreads(limit: nat, calls: seq<Call>, p: nat, now: real)
    requires limit >= 1 && Plausible(limit, calls)
    requires calls != [] ==> Run(limit, calls).grants[|calls| - 1] <= now
    requires var log := Run(limit, calls);
             && SegmentStart(log.clears) <= p <= |calls|
             && (forall i :: SegmentStart(log.clears) <= i < p ==> log.grants[i] + WINDOW <= now)
    requires |calls| - p < limit && |calls| >= 2 * limit - 1
    ensures Run(limit, calls).grants[|calls| - (2 * limit - 1)] + WINDOW <= now
  {
    RunStoresTail(limit, calls);
    RunClears(limit, calls);
    OldEnoughForSpread(limit, Run(limit, calls).grants, Run(limit, calls).clears, p, now);
  }

  lemma LastCallSpreads(limit: nat, calls: seq<Call>) returns (t: real)
    requires limit >= 1 && Plausible(limit, calls) && calls != []
    ensures var n := |calls| - 1;
            var before := Run(limit, calls[..n]).grants;
            && Run(limit, calls).grants == before + [t]
            && Sorted(before)
            && (n >= 2 * limit - 1 ==>
                  before[n - limit] + WINDOW <= t || before[n - (2 * limit - 1)] + WINDOW <= t)
  {
    var n, p := |calls| - 1, 0;
    p, t := LastCall(limit, calls);
    if n - p < limit && n >= 2 * limit - 1 {
      ShortTailSpreads(limit, calls[..n], p, calls[n].now);
    }
  }

  lemma {:induction false} RunSpread(limit: nat, calls: seq<Call>)
    requires limit >= 1 && Plausible(limit, calls)
    ensures Spread(Run(limit, calls).grants, 2 * limit - 1)
  {
    if calls != [] {
      var n := |calls| - 1;
      RunSpread(limit, calls[..n]);
      var t := LastCallSpreads(limit, calls);
      SpreadAppendOld(Run(limit, calls[..n]).grants, limit, t);
    }
  }

  // ---------------------------------------------------------------------------------------------
  // Counting grants in a window
  // ---------------------------------------------------------------------------------------------

  /** How many entries fall into the half-open window [from, from + 60). */
  function InWindow(s: seq<real>, from: real): nat {
    if s == [] then 0
    else InWindow(s[..|s| - 1], from) + (if from <= s[|s| - 1] < from + WINDOW then 1 else 0)
  }

  lemma {:induction false} InWindowConcat(s: seq<real>, t: seq<real>, from: real)
    ensures InWindow(s + t, from) == InWindow(s, from) + InWindow(t, from)
  {
    if t == [] {
      assert s + t == s;
    } else {
      var m := |t| - 1;
      assert (s + t)[..|s + t| - 1] == s + t[..m];
      InWindowConcat(s, t[..m], from);
    }
  }

  lemma {:induction false} InWindowNone(s: seq<real>, from: real)
    requires forall i :: 0 <= i < |s| ==> s[i] < from
    ensures InWindow(s, from) == 0
  {
    if s != [] { InWindowNone(s[..|s| - 1], from); }
  }

  /** The grants of a window are consecutive: from some position on, up to some position. */
  lemma {:induction false} WindowIsSlice(s: seq<real>, from: real) returns (i: nat, j: nat)
    requires Sorted(s)
    ensures i <= j <= |s| && j - i == InWindow(s, from)
    ensures forall k :: 0 <= k < |s| ==> (from <= s[k] < from + WINDOW <==> i <= k < j)
    ensures forall k :: 0 <= k < i ==> s[k] < from
    ensures forall k :: j <= k < |s| ==> from + WINDOW <= s[k]
  {
    if s == [] {
      i, j := 0, 0;
    } else {
      var n := |s| - 1;
      i, j := WindowIsSlice(s[..n], from);
      assert forall k :: 0 <= k < n ==> s[..n][k] == s[k];
      if s[n] < from {
        i, j := n + 1, n + 1;
      } else if s[n] < from + WINDOW {
        j := n + 1;
      }
    }
  }

  lemma SpreadBoundsWindow(s: seq<real>, gap: nat, from: real)
    requires Sorted(s) && Spread(s, gap)
    ensures InWindow(s, from) <= gap
  {
    var i, j := WindowIsSlice(s, from);
    assert i + gap < |s| ==> s[i] + WINDOW <= s[i + gap];
  }

  // ---------------------------------------------------------------------------------------------
  // Main results
  // ---------------------------------------------------------------------------------------------

  /** The bound that really holds: not N but 2N - 1 grants in any window. */
  lemma AtMostTwiceLimitLessOne(limit: nat, calls: seq<Call>, from: real)
    requires limit >= 1 && Plausible(limit, calls)
    ensures InWindow(Run(limit, calls).grants, from) <= 2 * limit - 1
  {
    RunStoresTail(limit, calls);
    RunSpread(limit, calls);
    SpreadBoundsWindow(Run(limit, calls).grants, 2 * limit - 1, from);
  }

  lemma SegmentIsSpread(limit: nat, grants: seq<real>, clears: seq<nat>, i: nat, j: nat)
    requires Sorted(grants) && SpreadInSegments(limit, grants, clears)
    requires i < j <= |grants| && SameSegment(clears, i, j - 1)
    ensures Sorted(grants[i..j]) && Spread(grants[i..j], limit)
  {
    var part := grants[i..j];
    forall a, b | 0 <= a && a + limit == b < |part| ensures part[a] + WINDOW <= part[b] {
      assert SameSegment(clears, i + a, i + b);
    }
  }

  /** Grants i..j with no clear after the first of them obey the advertised limit N. */
  lemma AtMostLimitBetweenClears(limit: nat, calls: seq<Call>, i: nat, j: nat, from: real)
    requires limit >= 1 && Plausible(limit, calls)
    requires i < j <= |calls|
    requires SameSegment(Run(limit, calls).clears, i, j - 1)
    ensures InWindow(Run(limit, calls).grants[i..j], from) <= limit
  {
    RunStoresTail(limit, calls);
    RunSegments(limit, calls);
    var log := Run(limit, calls);
    SegmentIsSpread(limit, log.grants, log.clears, i, j);
    SpreadBoundsWindow(log.grants[i..j], limit, from);
  }

  /** Two clears are never closer than a window and the buffer. */
  lemma ClearsAreFarApart(limit: nat, calls: seq<Call>, k: nat)
    requires limit >= 1 && Plausible(limit, calls)
    requires k + 1 < |Run(limit, calls).clears|
    ensures var log := Run(limit, calls);
            && log.clears[k] < |log.grants| && log.clears[k + 1] < |log.grants|
            && log.grants[log.clears[k]] + 60.1 <= log.grants[log.clears[k + 1]]
  {
    RunStoresTail(limit, calls);
    RunClears(limit, calls);
    var log := Run(limit, calls);
    var c, d := log.clears[k], log.clears[k + 1];
    assert log.grants[c] <= log.grants[d - limit];
  }

  function Sum(s: seq<real>): real {
    if s == [] then 0.0 else Sum(s[..|s| - 1]) + s[|s| - 1]
  }

  lemma {:induction false} SumAtMost(s: seq<real>, bound: real)
    requires forall i :: 0 <= i < |s| ==> s[i] <= bound
    ensures Sum(s) <= |s| as real * bound
  {
    if s != [] { SumAtMost(s[..|s| - 1], bound); }
  }

  lemma {:induction false} ClearPosition(limit: nat, clears: seq<nat>, k: nat)
    requires limit >= 1 && ClearsSpaced(limit, clears) && k < |clears|
    ensures clears[k] >= (k + 1) * limit
  {
    if k > 0 {
      ClearPosition(limit, clears, k - 1);
      assert clears[k - 1] + limit <= clears[k];
      assert (k + 1) * limit == k * limit + limit;
    }
  }

  lemma MulMonotone(a: nat, b: nat, c: nat)
    requires a <= b
    ensures a * c <= b * c
  {
  }

  lemma AtMostQuotient(count: nat, limit: nat, total: nat)
    requires limit >= 1 && count * limit <= total
    ensures count <= total / limit
  {
    var q := total / limit;
    assert total < q * limit + limit;
    if count > q { MulMonotone(q + 1, count, limit); }
  }

  /** Waiting is amortised: the first k calls wait at most (k - 1) / N times, each requested sleep
      lies in (0.1, 60.1], and so the time asked for is bounded. */
  lemma WaitingIsAmortised(limit: nat, calls: seq<Call>)
    requires limit >= 1 && Plausible(limit, calls) && calls != []
    ensures |Run(limit, calls).sleeps| <= (|calls| - 1) / limit
    ensures forall s :: s in Run(limit, calls).sleeps ==> 0.1 < s <= 60.1
    ensures Sum(Run(limit, calls).sleeps) <= 60.1 * ((|calls| - 1) / limit) as real
  {
    RunClears(limit, calls);
    RunSleeps(limit, calls);
    var log := Run(limit, calls);
    ClearsAreFew(limit, log, |calls|);
    SumAtMost(log.sleeps, 60.1);
  }

  lemma ClearsAreFew(limit: nat, log: Log, calls: nat)
    requires limit >= 1 && calls == |log.grants| >= 1 && |log.sleeps| == |log.clears|
    requires ClearsSpaced(limit, log.clears) && ClearsWaited(limit, log.grants, log.clears)
    ensures |log.sleeps| <= (calls - 1) / limit
  {
    var m := |log.clears|;
    if m > 0 {
      ClearPosition(limit, log.clears, m - 1);
      assert m * limit <= log.clears[m - 1];
    }
    AtMostQuotient(m, limit, calls - 1);
  }

  // ---------------------------------------------------------------------------------------------
  // The bound is tight for every limit
  // ---------------------------------------------------------------------------------------------

  function Copies<T>(x: T, n: nat): (s: seq<T>)
    ensures |s| == n && forall i :: 0 <= i < n ==> s[i] == x
  {
    seq(n, _ => x)
  }

  ghost predicate AllRecent(s: seq<real>, t: real) {
    forall i :: 0 <= i < |s| ==> t - s[i] < WINDOW
  }

  /** One more call at time t, with room for it, is granted at once. */
  lemma Granted(limit: nat, log: Log, t: real)
    requires limit >= 1 && |log.stamps| < limit && AllRecent(log.stamps, t)
    ensures Record(limit, log, Call(t, 0.0)) == Log(log.stamps + [t], log.grants + [t], log.clears, log.sleeps)
    ensures AllRecent(log.stamps + [t], t)
  {
    PruneKeepsAll(log.stamps, t);
  }

  /** A burst of m calls at one instant, with room for all of them, is granted at once. */
  lemma {:induction false} Burst(limit: nat, calls: seq<Call>, t: real, m: nat) returns (all: seq<Call>)
    requires limit >= 1 && Plausible(limit, calls) && calls != []
    requires |Run(limit, calls).stamps| + m <= limit
    requires AllRecent(Run(limit, calls).stamps, t)
    requires Run(limit, calls).grants[|calls| - 1] <= t
    ensures all != [] && Plausible(limit, all)
    ensures Run(limit, all).grants == Run(limit, calls).grants + Copies(t, m)
    ensures Run(limit, all).stamps == Run(limit, calls).stamps + Copies(t, m)
    ensures AllRecent(Run(limit, all).stamps, t)
  {
    if m == 0 {
      all := calls;
    } else {
      var before := Burst(limit, calls, t, m - 1);
      all := before + [Call(t, 0.0)];
      PlausibleAppend(limit, before, Call(t, 0.0));
      Granted(limit, Run(limit, before), t);
      AppendCopy(Run(limit, calls).grants, t, m);
      AppendCopy(Run(limit, calls).stamps, t, m);
    }
  }

  lemma AppendCopy(s: seq<real>, t: real, m: nat)
    requires m > 0
    ensures s + Copies(t, m - 1) + [t] == s + Copies(t, m)
  {
  }

  lemma PlausibleAppend(limit: nat, calls: seq<Call>, call: Call)
    requires limit >= 1 && Plausible(limit, calls) && NotBackwards(Run(limit, calls), call)
    ensures Plausible(limit, calls + [call])
    ensures Run(limit, calls + [call]) == Record(limit, Run(limit, calls), call)
  {
    assert (calls + [call])[..|calls|] == calls;
  }

  lemma {:induction false} InWindowAll(s: seq<real>, from: real)
    requires forall i :: 0 <= i < |s| ==> from <= s[i] < from + WINDOW
    ensures InWindow(s, from) == |s|
  {
    if s != [] { InWindowAll(s[..|s| - 1], from); }
  }

  /** One request at 0 s, N - 1 more at 59 s; the next one waits 1.1 s, clears the list and lets
      N - 1 more through: 2N - 1 grants in [59, 119). */
  lemma BoundIsTight(limit: nat) returns (calls: seq<Call>, from: real)
    requires limit >= 1
    ensures Plausible(limit, calls)
    ensures InWindow(Run(limit, calls).grants, from) == 2 * limit - 1
  {
    var one := [] + [Call(0.0, 0.0)];
    PlausibleAppend(limit, [], Call(0.0, 0.0));
    Granted(limit, Run(limit, []), 0.0);
    var early := Burst(limit, one, 59.0, limit - 1);
    var cleared := FullListWaits(limit, early);
    calls := Burst(limit, cleared, 60.1, limit - 1);
    from := 59.0;
    CountTight(limit);
    assert Run(limit, calls).grants ==
      [0.0] + Copies(59.0, limit - 1) + [60.1] + Copies(60.1, limit - 1);
  }

  lemma CountTight(limit: nat)
    requires limit >= 1
    ensures InWindow([0.0] + Copies(59.0, limit - 1) + [60.1] + Copies(60.1, limit - 1), 59.0) == 2 * limit - 1
  {
    var late := Copies(59.0, limit - 1) + [60.1] + Copies(60.1, limit - 1);
    InWindowConcat([0.0], late, 59.0);
    InWindowNone([0.0], 59.0);
    InWindowAll(late, 59.0);
    assert [0.0] + late == [0.0] + Copies(59.0, limit - 1) + [60.1] + Copies(60.1, limit - 1);
  }

  lemma FullListWaits(limit: nat, early: seq<Call>) returns (calls: seq<Call>)
    requires limit >= 1 && Plausible(limit, early) && early != []
    requires Run(limit, early).stamps == [0.0] + Copies(59.0, limit - 1)
    requires Run(limit, early).grants[|early| - 1] <= 59.0
    ensures calls != [] && Plausible(limit, calls)
    ensures Run(limit, calls).stamps == [60.1]
    ensures Run(limit, calls).grants == Run(limit, early).grants + [60.1]
  {
    calls := early + [Call(59.0, 0.0)];
    PlausibleAppend(limit, early, Call(59.0, 0.0));
    PruneKeepsAll(Run(limit, early).stamps, 59.0);
  }

  // ---------------------------------------------------------------------------------------------
  // When the advertised limit holds
  // ---------------------------------------------------------------------------------------------

  /** In every run, any half-open window holds at most `limit` grants: what the limiter promises. */
  ghost predicate KeepsItsPromise(limit: nat)
    requires limit >= 1
  {
    forall calls, from: real {:trigger InWindow(Run(limit, calls).grants, from)} ::
      Plausible(limit, calls) ==> InWindow(Run(limit, calls).grants, from) <= limit
  }

  /** The promise is kept exactly for a limit of one call per minute. */
  lemma PromiseIffOne(limit: nat)
    requires limit >= 1
    ensures KeepsItsPromise(limit) <==> limit == 1
  {
    if limit == 1 {
      forall calls, from: real {:trigger InWindow(Run(limit, calls).grants, from)} | Plausible(limit, calls)
        ensures InWindow(Run(limit, calls).grants, from) <= limit
      {
        AtMostTwiceLimitLessOne(limit, calls, from);
      }
    } else {
      var calls, from := BoundIsTight(limit);
      assert InWindow(Run(limit, calls).grants, from) > limit;
    }
  }

  lemma SliceInWindow(s: seq<real>, from: real, i: nat, j: nat)
    requires i <= j <= |s| && forall k :: i <= k < j ==> from <= s[k] < from + WINDOW
    ensures InWindow(s[i..j], from) == j - i
  {
    InWindowAll(s[i..j], from);
  }

  lemma TooManyMeansClear(limit: nat, calls: seq<Call>, from: real) returns (k: nat)
    requires limit >= 1 && Plausible(limit, calls)
    requires InWindow(Run(limit, calls).grants, from) > limit
    ensures var log := Run(limit, calls);
            && k < |log.clears| && 0 < log.clears[k] < |log.grants|
            && from <= log.grants[log.clears[k] - 1] && log.grants[log.clears[k]] < from + WINDOW
  {
    RunStoresTail(limit, calls);
    var i, j := WindowIsSlice(Run(limit, calls).grants, from);
    k := ClearInSlice(limit, calls, from, i, j);
  }

  lemma ClearInSlice(limit: nat, calls: seq<Call>, from: real, i: nat, j: nat) returns (k: nat)
    requires limit >= 1 && Plausible(limit, calls)
    requires i <= j <= |calls| && j - i > limit
    requires forall m :: i <= m < j ==> from <= Run(limit, calls).grants[m] < from + WINDOW
    ensures k < |Run(limit, calls).clears| && i < Run(limit, calls).clears[k] < j
  {
    SliceInWindow(Run(limit, calls).grants, from, i, j);
    if SameSegment(Run(limit, calls).clears, i, j - 1) {
      AtMostLimitBetweenClears(limit, calls, i, j, from);
    }
    k :| 0 <= k < |Run(limit, calls).clears| && i < Run(limit, calls).clears[k] <= j - 1;
  }
}
