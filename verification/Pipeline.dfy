/** The scraper job (main.py, scraper_job) on top of the table of stored configs (database/crud.py):
    scrape, validate, save what is new, enqueue what was saved.

    Jobs are serial.  Within a job anything may go wrong at any place: a validation is cancelled
    half-way, the database fails on the query or on the commit, or the commit succeeds although the job
    sees it fail, only some puts complete. */
module Pipeline {
  import opened Validator
  import Dedup
  import Json
  import opened PublishQueue

  const PUBLISH_LIMIT := 20
  const MAX_CONCURRENT := 10

  datatype Row = Row(entry: Entry, source: string)

  datatype Fault = Healthy | QueryFails | CommitFails | CommitUnseen

  datatype Saved = Raised | Saved(count: nat, configs: seq<Entry>)

  function HashesOf(entries: seq<Entry>): (r: seq<string>)
    ensures |r| == |entries| && forall i :: 0 <= i < |r| ==> r[i] == entries[i].hash
  {
    seq(|entries|, i requires 0 <= i < |entries| => entries[i].hash)
  }

  predicate IsStored(rows: seq<Row>, hash: string) {
    exists i :: 0 <= i < |rows| && rows[i].entry.hash == hash
  }

  /** The entries whose hash the table does not hold. */
  function Fresh(rows: seq<Row>, entries: seq<Entry>): seq<Entry> {
    if entries == [] then []
    else Fresh(rows, entries[..|entries| - 1]) +
         (if IsStored(rows, entries[|entries| - 1].hash) then [] else [entries[|entries| - 1]])
  }

  function RowsFor(entries: seq<Entry>, source: string): (r: seq<Row>)
    ensures |r| == |entries| && forall i :: 0 <= i < |r| ==> r[i] == Row(entries[i], source)
  {
    seq(|entries|, i requires 0 <= i < |entries| => Row(entries[i], source))
  }

  /** What batch_save_configs answers. */
  function SaveAnswer(rows: seq<Row>, entries: seq<Entry>, fault: Fault): Saved {
    if entries == [] then Saved(0, [])
    else if fault.QueryFails? then Raised
    else if Fresh(rows, entries) == [] then Saved(0, [])
    else if fault.CommitFails? || fault.CommitUnseen? then Raised
    else Saved(|Fresh(rows, entries)|, Fresh(rows, entries))
  }

  /** What batch_save_configs adds to the table. */
  function Committed(rows: seq<Row>, entries: seq<Entry>, fault: Fault): seq<Entry> {
    if fault.QueryFails? || fault.CommitFails? then [] else Fresh(rows, entries)
  }

  /** The job is told of what was added, except by a commit that goes unseen. */
  lemma AnswerIsCommitted(rows: seq<Row>, entries: seq<Entry>, fault: Fault)
    ensures match SaveAnswer(rows, entries, fault)
            case Saved(count, configs) => configs == Committed(rows, entries, fault) && count == |configs|
            case Raised => fault.CommitUnseen? || Committed(rows, entries, fault) == []
  {
  }

  class ConfigTable {
    var rows: seq<Row>

    /** batch_exists_hashes */
    method BatchExistsHashes(hashes: seq<string>) returns (found: set<string>)
      ensures forall h :: h in found <==> h in hashes && IsStored(rows, h)
    {
      found := {};
      if hashes == [] {
        return;
      }
      for i := 0 to |rows|
        invariant forall h :: h in found <==> h in hashes && IsStored(rows[..i], h)
      {
        assert forall h :: IsStored(rows[..i + 1], h) <==> IsStored(rows[..i], h) || h == rows[i].entry.hash by {
          forall h ensures IsStored(rows[..i + 1], h) <==> IsStored(rows[..i], h) || h == rows[i].entry.hash {
            StoredAppend(rows[..i], [rows[i]], h);
            assert rows[..i + 1] == rows[..i] + [rows[i]];
          }
        }
        if rows[i].entry.hash in hashes {
          found := found + {rows[i].entry.hash};
        }
      }
      assert rows[..|rows|] == rows;
    }

    /** batch_save_configs; a failed transaction leaves the table alone. */
    method BatchSaveConfigs(entries: seq<Entry>, source: string, fault: Fault) returns (saved: Saved)
      modifies this
      ensures saved == SaveAnswer(old(rows), entries, fault)
      ensures rows == old(rows) + RowsFor(Committed(old(rows), entries, fault), source)
    {
      if entries == [] {
        return Saved(0, []);
      }
      if fault.QueryFails? {
        return Raised;
      }
      var existing := BatchExistsHashes(HashesOf(entries));
      var unseen: seq<Entry> := [];
      for i := 0 to |entries|
        invariant unseen == Fresh(rows, entries[..i])
      {
        assert entries[..i + 1][..i] == entries[..i];
        assert HashesOf(entries)[i] == entries[i].hash;
        if entries[i].hash !in existing {
          unseen := unseen + [entries[i]];
        }
      }
      assert entries[..|entries|] == entries;
      if unseen == [] {
        return Saved(0, []);
      }
      var added := rows;
      for i := 0 to |unseen|
        invariant added == rows + RowsFor(unseen[..i], source)
      {
        assert RowsFor(unseen[..i + 1], source) == RowsFor(unseen[..i], source) + [Row(unseen[i], source)];
        added := added + [Row(unseen[i], source)];
      }
      assert unseen[..|unseen|] == unseen;
      if fault.CommitFails? {
        return Raised;
      }
      rows := added;
      if fault.CommitUnseen? {
        return Raised;
      }
      saved := Saved(|unseen|, unseen);
    }
  }

  lemma StoredAppend(a: seq<Row>, b: seq<Row>, h: string)
    ensures IsStored(a + b, h) <==> IsStored(a, h) || IsStored(b, h)
  {
    if i :| 0 <= i < |a| && a[i].entry.hash == h {
      assert (a + b)[i] == a[i];
    }
    if i :| 0 <= i < |b| && b[i].entry.hash == h {
      assert (a + b)[|a| + i] == b[i];
    }
  }

  // ---------------------------------------------------------------------------------------------
  // Uniqueness in the table
  // ---------------------------------------------------------------------------------------------

  ghost predicate DistinctRows(rows: seq<Row>) {
    forall i, j :: 0 <= i < j < |rows| ==> rows[i].entry.hash != rows[j].entry.hash
  }

  ghost predicate DistinctEntries(entries: seq<Entry>) {
    forall i, j :: 0 <= i < j < |entries| ==> entries[i].hash != entries[j].hash
  }

  lemma {:induction false} FreshMembers(rows: seq<Row>, entries: seq<Entry>, e: Entry)
    ensures e in Fresh(rows, entries) <==> e in entries && !IsStored(rows, e.hash)
  {
    if entries != [] {
      var n := |entries| - 1;
      FreshMembers(rows, entries[..n], e);
      assert entries == entries[..n] + [entries[n]];
    }
  }

  lemma {:induction false} FreshDistinct(rows: seq<Row>, entries: seq<Entry>)
    requires DistinctEntries(entries)
    ensures DistinctEntries(Fresh(rows, entries))
  {
    if entries != [] {
      var n := |entries| - 1;
      FreshDistinct(rows, entries[..n]);
      var before := Fresh(rows, entries[..n]);
      forall i | 0 <= i < |before| ensures before[i].hash != entries[n].hash {
        FreshMembers(rows, entries[..n], before[i]);
        assert before[i] in before;
      }
    }
  }

  lemma AddedKeepDistinct(rows: seq<Row>, added: seq<Entry>, source: string)
    requires DistinctRows(rows)
    ensures DistinctRows(rows + RowsFor(added, source)) <==>
              DistinctEntries(added) && forall x :: x in added ==> !IsStored(rows, x.hash)
  {
    var all := rows + RowsFor(added, source);
    if DistinctRows(all) {
      forall i, j | 0 <= i < j < |added| ensures added[i].hash != added[j].hash {
        assert all[|rows| + i].entry == added[i] && all[|rows| + j].entry == added[j];
      }
      forall x | x in added ensures !IsStored(rows, x.hash) {
        var k :| 0 <= k < |added| && added[k] == x;
        assert all[|rows| + k].entry == x;
        forall i | 0 <= i < |rows| ensures rows[i].entry.hash != x.hash {
          assert all[i] == rows[i];
        }
      }
    }
    if DistinctEntries(added) && forall x :: x in added ==> !IsStored(rows, x.hash) {
      forall i, j | 0 <= i < j < |all| ensures all[i].entry.hash != all[j].entry.hash {
        if j >= |rows| {
          assert all[j].entry == added[j - |rows|] && added[j - |rows|] in added;
        }
      }
    }
  }

  /** The table has no unique constraint: a save keeps its hashes distinct exactly when the unseen
      part of the batch does not repeat one. */
  lemma SaveKeepsDistinct(rows: seq<Row>, entries: seq<Entry>, source: string)
    requires DistinctRows(rows)
    ensures DistinctRows(rows + RowsFor(Fresh(rows, entries), source)) <==> DistinctEntries(Fresh(rows, entries))
  {
    forall x | x in Fresh(rows, entries) ensures !IsStored(rows, x.hash) {
      FreshMembers(rows, entries, x);
    }
    AddedKeepDistinct(rows, Fresh(rows, entries), source);
  }

  /** No hash of both batches is missing from the table. */
  ghost predicate SharesNothingNew(rows: seq<Row>, a: seq<Entry>, b: seq<Entry>) {
    forall x, y :: x in a && y in b && x.hash == y.hash ==> IsStored(rows, x.hash)
  }

  /** Two jobs at once: when both look the table up before either commits, the hashes stay distinct
      exactly when the two batches share no hash that the table lacks. */
  lemma OverlappingSaves(rows: seq<Row>, a: seq<Entry>, b: seq<Entry>, s: string, t: string)
    requires DistinctRows(rows) && DistinctEntries(a) && DistinctEntries(b)
    ensures DistinctRows(rows + RowsFor(Fresh(rows, a), s) + RowsFor(Fresh(rows, b), t))
       <==> SharesNothingNew(rows, a, b)
  {
    var fa, fb := Fresh(rows, a), Fresh(rows, b);
    var first := rows + RowsFor(fa, s);
    FreshDistinct(rows, a);
    FreshDistinct(rows, b);
    SaveKeepsDistinct(rows, a, s);
    AddedKeepDistinct(first, fb, t);
    forall y ensures y in fb && IsStored(first, y.hash) <==>
      y in b && !IsStored(rows, y.hash) && exists x :: x in a && x.hash == y.hash
    {
      OverlapAt(rows, a, b, s, y);
    }
  }

  lemma OverlapAt(rows: seq<Row>, a: seq<Entry>, b: seq<Entry>, s: string, y: Entry)
    ensures y in Fresh(rows, b) && IsStored(rows + RowsFor(Fresh(rows, a), s), y.hash) <==>
              y in b && !IsStored(rows, y.hash) && exists x :: x in a && x.hash == y.hash
  {
    var fa := Fresh(rows, a);
    FreshMembers(rows, b, y);
    StoredAppend(rows, RowsFor(fa, s), y.hash);
    StoredByRows(fa, s, y.hash);
    if x :| x in a && x.hash == y.hash { FreshMembers(rows, a, x); }
    if x :| x in fa && x.hash == y.hash { FreshMembers(rows, a, x); }
  }

  /** Saving the same batch again stores and returns nothing. */
  lemma SaveTwice(rows: seq<Row>, entries: seq<Entry>, source: string)
    ensures Fresh(rows + RowsFor(Fresh(rows, entries), source), entries) == []
  {
    var unseen := Fresh(rows, entries);
    var all := rows + RowsFor(unseen, source);
    forall e | e in entries ensures IsStored(all, e.hash) {
      FreshMembers(rows, entries, e);
      StoredAppend(rows, RowsFor(unseen, source), e.hash);
      if e in unseen {
        var k :| 0 <= k < |unseen| && unseen[k] == e;
        assert RowsFor(unseen, source)[k].entry.hash == e.hash;
      }
    }
    if Fresh(all, entries) != [] {
      FreshMembers(all, entries, Fresh(all, entries)[0]);
    }
  }

  // ---------------------------------------------------------------------------------------------
  // Jobs
  // ---------------------------------------------------------------------------------------------

  /** MD5, and what validate_one runs on. */
  datatype Params = Params(md5: string -> string, env: Env)

  /** One step of a run: a job starts with a new validator, or it works on one source.  `candidates` is
      what the patterns found in the source, `countries` and `schedule` are the batch's network
      answers and interleaving, `puts` bounds how many puts complete. */
  datatype Event =
    | NewJob
    | Source(name: string, candidates: seq<string>, countries: nat -> string, schedule: seq<nat>,
             fault: Fault, puts: nat)

  datatype World = World(rows: seq<Row>, published: seq<Item>, seen: set<string>, cache: map<Json.Value, string>)

  function AtMost<T>(s: seq<T>, n: nat): (r: seq<T>)
    ensures r <= s && |r| == if |s| < n then |s| else n
  {
    if |s| < n then s else s[..n]
  }

  /** The configs of a source that the job looks at. */
  function Limited(p: Params, e: Event): seq<string>
    requires e.Source?
  {
    AtMost(Dedup.FirstOccurrences(p.md5, e.candidates), PUBLISH_LIMIT)
  }

  function BatchFor(p: Params, e: Event): (b: Batch)
    requires e.Source?
    ensures b.Valid()
  {
    var configs := Limited(p, e);
    Batch(p.env, configs, MAX_CONCURRENT, seq(|configs|, _ => true),
          seq(|configs|, i requires 0 <= i < |configs| => e.countries(i)))
  }

  function Validated(p: Params, w: World, e: Event): Validator.State
    requires e.Source?
  {
    RunBatch(BatchFor(p, e), w.seen, w.cache, e.schedule)
  }

  function ItemsFor(entries: seq<Entry>): (r: seq<Item>)
    ensures |r| == |entries|
    ensures forall i :: 0 <= i < |r| ==> r[i] == Item(entries[i].marked, entries[i].country)
  {
    seq(|entries|, i requires 0 <= i < |entries| => Item(entries[i].marked, entries[i].country))
  }

  /** What the source's turn adds to the table; nothing if the validation does not end. */
  function NewEntries(p: Params, w: World, e: Event): seq<Entry>
    requires e.Source?
  {
    var st := Validated(p, w, e);
    if !Finished(st.tasks) then [] else Committed(w.rows, Results(st.tasks), e.fault)
  }

  /** What the job learns of that, and so what it enqueues. */
  function Answered(p: Params, w: World, e: Event): (r: seq<Entry>)
    requires e.Source?
    ensures r == [] || r == NewEntries(p, w, e)
    ensures !e.fault.CommitUnseen? ==> r == NewEntries(p, w, e)
  {
    var st := Validated(p, w, e);
    if !Finished(st.tasks) then []
    else
      AnswerIsCommitted(w.rows, Results(st.tasks), e.fault);
      match SaveAnswer(w.rows, Results(st.tasks), e.fault)
      case Raised => []
      case Saved(_, configs) => configs
  }

  function Step(p: Params, w: World, e: Event): World {
    match e
    case NewJob => World(w.rows, w.published, {}, map[])
    case Source(name, _, _, _, _, puts) =>
      var st := Validated(p, w, e);
      World(w.rows + RowsFor(NewEntries(p, w, e), name),
            w.published + AtMost(ItemsFor(Answered(p, w, e)), puts), st.seen, st.cache)
  }

  function Run(p: Params, start: World, events: seq<Event>): World {
    if events == [] then start
    else Step(p, Run(p, start, events[..|events| - 1]), events[|events| - 1])
  }

  lemma RunOfOne(p: Params, start: World, e: Event)
    ensures Run(p, start, [e]) == Step(p, start, e)
  {
    assert [e][..0] == [];
  }

  function Fresh0(rows: seq<Row>): World {
    World(rows, [], {}, map[])
  }

  lemma RunNext(p: Params, start: World, events: seq<Event>, k: nat)
    requires k < |events|
    ensures Run(p, start, events[..k + 1]) == Step(p, Run(p, start, events[..k]), events[k])
  {
    assert events[..k + 1][..k] == events[..k];
  }

  /** The loop that puts the saved configs on the queue, until a put does not complete. */
  method Enqueue(configs: seq<Entry>, puts: nat) returns (put: seq<Item>)
    ensures put == AtMost(ItemsFor(configs), puts)
  {
    put := [];
    for i := 0 to |configs|
      invariant put == AtMost(ItemsFor(configs), if i < puts then i else puts)
    {
      if i < puts {
        put := put + [Item(configs[i].marked, configs[i].country)];
      }
    }
  }

  /** One source of scraper_job's loop. */
  method ProcessSource(p: Params, table: ConfigTable, v: ConfigValidator, e: Event) returns (put: seq<Item>)
    requires e.Source?
    modifies table, v
    ensures World(table.rows, put, v.seenHashes, v.countryCache)
         == Step(p, World(old(table.rows), [], old(v.seenHashes), old(v.countryCache)), e)
  {
    put := [];
    var b := BatchFor(p, e);
    var tasks := RunTasks(v, b, e.schedule);
    if !Finished(tasks) {
      return;
    }
    var validated := CollectResults(tasks);
    if validated == [] {
      return;
    }
    var saved := table.BatchSaveConfigs(validated, e.name, e.fault);
    if saved.Saved? && saved.count > 0 {
      put := Enqueue(saved.configs, e.puts);
    }
  }

  /** A turn depends on the table and on the validator only. */
  lemma SameTurn(p: Params, v: World, w: World, e: Event)
    requires e.Source? && v.rows == w.rows && v.seen == w.seen && v.cache == w.cache
    ensures Validated(p, v, e) == Validated(p, w, e) && NewEntries(p, v, e) == NewEntries(p, w, e)
    ensures Answered(p, v, e) == Answered(p, w, e)
  {
  }

  lemma AssocItems(a: seq<Item>, b: seq<Item>, c: seq<Item>)
    ensures a + b + c == a + (b + c)
  {
  }

  lemma PublishedIsLocal(p: Params, w: World, before: seq<Item>, e: Event)
    ensures Step(p, w.(published := before + w.published), e)
         == Step(p, w, e).(published := before + Step(p, w, e).published)
  {
    var moved := w.(published := before + w.published);
    if e.Source? {
      SameTurn(p, moved, w, e);
      AssocItems(before, w.published, AtMost(ItemsFor(Answered(p, w, e)), e.puts));
    }
  }

  /** scraper_job: all sources with one validator. */
  method ScraperJob(p: Params, table: ConfigTable, sources: seq<Event>) returns (put: seq<Item>)
    requires forall i :: 0 <= i < |sources| ==> sources[i].Source?
    modifies table
    ensures table.rows == Run(p, Fresh0(old(table.rows)), sources).rows
    ensures put == Run(p, Fresh0(old(table.rows)), sources).published
  {
    var v := new ConfigValidator();
    put := [];
    ghost var start := Fresh0(table.rows);
    for i := 0 to |sources|
      invariant fresh(v)
      invariant World(table.rows, put, v.seenHashes, v.countryCache) == Run(p, start, sources[..i])
    {
      RunNext(p, start, sources, i);
      PublishedIsLocal(p, World(table.rows, [], v.seenHashes, v.countryCache), put, sources[i]);
      assert put + [] == put;
      var more := ProcessSource(p, table, v, sources[i]);
      put := put + more;
    }
    assert sources[..|sources|] == sources;
  }

  // ---------------------------------------------------------------------------------------------
  // Whole runs: any sequence of jobs
  // ---------------------------------------------------------------------------------------------

  ghost predicate HashIs(hash: string -> string, md5: string -> string) {
    forall c :: hash(c) == Dedup.Hash(md5, c)
  }

  ghost predicate HashAgrees(p: Params) {
    HashIs(p.env.hash, p.md5)
  }

  ghost predicate NeverPings(pings: string -> bool) {
    forall c :: !pings(c)
  }

  lemma {:induction false} KeptAreCandidates(md5: string -> string, configs: seq<string>, c: string)
    requires c in Dedup.FirstOccurrences(md5, configs)
    ensures c in configs
  {
    if configs != [] {
      var n := |configs| - 1;
      if c in Dedup.FirstOccurrences(md5, configs[..n]) { KeptAreCandidates(md5, configs[..n], c); }
    }
  }

  /** What the scrapers hand over has no two configs with one hash. */
  lemma BatchIsDistinct(p: Params, e: Event)
    requires HashAgrees(p) && e.Source?
    ensures DistinctBatch(BatchFor(p, e))
  {
    var kept := Dedup.FirstOccurrences(p.md5, e.candidates);
    Dedup.KeptAreDistinct(p.md5, e.candidates);
    var b := BatchFor(p, e);
    forall i, j | 0 <= i < j < |b.configs| ensures b.Hash(i) != b.Hash(j) {
      assert b.configs[i] == kept[i] && b.configs[j] == kept[j];
    }
  }

  /** An entry as the validator makes it from one of the source's candidates. */
  ghost predicate Genuine(p: Params, candidates: seq<string>, entry: Entry) {
    && entry.raw in candidates && p.env.known(entry.raw)
    && entry.hash == p.env.hash(entry.raw) && entry.marked == p.env.mark(entry.raw, entry.country)
  }

  lemma ValidatedAreGenuine(p: Params, w: World, e: Event)
    requires HashAgrees(p) && e.Source? && Finished(Validated(p, w, e).tasks)
    ensures DistinctEntries(Results(Validated(p, w, e).tasks))
    ensures forall x :: x in Results(Validated(p, w, e).tasks) ==> Genuine(p, e.candidates, x)
  {
    var b := BatchFor(p, e);
    BatchIsDistinct(p, e);
    EveryScheduleFilters(b, w.seen, w.cache, e.schedule);
    FilterIsDistinct(b, w.seen, 0);
    var results := Results(Validated(p, w, e).tasks);
    var raws := Raws(results);
    forall i, j | 0 <= i < j < |results| ensures results[i].hash != results[j].hash {
      assert raws[i] == results[i].raw && raws[j] == results[j].raw;
      assert results[i] in results && results[j] in results;
    }
    forall x | x in results ensures Genuine(p, e.candidates, x) {
      var k :| 0 <= k < |results| && results[k] == x;
      assert raws[k] == x.raw;
      FilterMembers(b, w.seen, 0, x.raw);
      var i :| 0 <= i < |b.configs| && b.configs[i] == x.raw && b.Fit(i);
      assert x.raw in Dedup.FirstOccurrences(p.md5, e.candidates);
      KeptAreCandidates(p.md5, e.candidates, x.raw);
    }
  }

  lemma NewEntriesAreGenuine(p: Params, w: World, e: Event)
    requires HashAgrees(p) && e.Source?
    ensures NewEntries(p, w, e) == [] || NewEntries(p, w, e) == Fresh(w.rows, Results(Validated(p, w, e).tasks))
    ensures DistinctEntries(NewEntries(p, w, e))
    ensures forall x :: x in NewEntries(p, w, e) ==> Genuine(p, e.candidates, x)
  {
    var st := Validated(p, w, e);
    if Finished(st.tasks) {
      ValidatedAreGenuine(p, w, e);
      var results := Results(st.tasks);
      FreshDistinct(w.rows, results);
      forall x | x in Fresh(w.rows, results) ensures x in results { FreshMembers(w.rows, results, x); }
    }
  }

  /** In every run of serial jobs the stored hashes stay pairwise distinct. */
  lemma {:induction false} StoredStayDistinct(p: Params, start: World, events: seq<Event>)
    requires HashAgrees(p) && DistinctRows(start.rows)
    ensures DistinctRows(Run(p, start, events).rows)
  {
    if events != [] {
      var n := |events| - 1;
      StoredStayDistinct(p, start, events[..n]);
      var w := Run(p, start, events[..n]);
      var e := events[n];
      if e.Source? {
        NewEntriesAreGenuine(p, w, e);
        if NewEntries(p, w, e) == [] {
          assert w.rows + RowsFor([], e.name) == w.rows;
        } else {
          SaveKeepsDistinct(w.rows, Results(Validated(p, w, e).tasks), e.name);
        }
      }
    }
  }

  ghost predicate Increasing(s: seq<nat>) {
    forall i, j :: 0 <= i < j < |s| ==> s[i] < s[j]
  }

  /** Item k of the queue carries row from[k] of the table, one that was added after the first `old0`. */
  ghost predicate Carries(old0: nat, rows: seq<Row>, published: seq<Item>, from: seq<nat>) {
    && |from| == |published| && Increasing(from)
    && forall k :: 0 <= k < |from| ==>
         && old0 <= from[k] < |rows|
         && published[k] == Item(rows[from[k]].entry.marked, rows[from[k]].entry.country)
  }

  lemma CarriesAppend(old0: nat, rows: seq<Row>, published: seq<Item>, from: seq<nat>,
                      added: seq<Entry>, told: seq<Entry>, name: string, puts: nat)
    returns (longer: seq<nat>)
    requires old0 <= |rows| && Carries(old0, rows, published, from)
    requires told == [] || told == added
    ensures Carries(old0, rows + RowsFor(added, name), published + AtMost(ItemsFor(told), puts), longer)
  {
    var put := AtMost(ItemsFor(told), puts);
    longer := from + seq(|put|, k requires 0 <= k < |put| => |rows| + k);
    var all := rows + RowsFor(added, name);
    forall k | 0 <= k < |longer|
      ensures old0 <= longer[k] < |all|
      ensures (published + put)[k] == Item(all[longer[k]].entry.marked, all[longer[k]].entry.country)
    {
      if k >= |from| {
        assert all[longer[k]].entry == added[k - |from|];
      }
    }
  }

  lemma {:induction false} QueueCarriesRows(p: Params, start: World, events: seq<Event>) returns (from: seq<nat>)
    requires start.published == []
    ensures var w := Run(p, start, events);
            |start.rows| <= |w.rows| && Carries(|start.rows|, w.rows, w.published, from)
  {
    if events == [] {
      from := [];
    } else {
      var n := |events| - 1;
      from := QueueCarriesRows(p, start, events[..n]);
      var w := Run(p, start, events[..n]);
      var e := events[n];
      if e.Source? {
        from := CarriesAppend(|start.rows|, w.rows, w.published, from, NewEntries(p, w, e), Answered(p, w, e),
                              e.name, e.puts);
      }
    }
  }

  /** Every item ever put on the queue carries a row that the run stored, items come in the order of
      their rows, and no hash is put twice - whatever fails and wherever puts stop. */
  lemma PublishedAreStoredOnce(p: Params, rows: seq<Row>, events: seq<Event>) returns (from: seq<nat>)
    requires HashAgrees(p) && DistinctRows(rows)
    ensures var w := Run(p, Fresh0(rows), events);
            && Carries(|rows|, w.rows, w.published, from)
            && (forall k, l :: 0 <= k < l < |from| ==>
                  w.rows[from[k]].entry.hash != w.rows[from[l]].entry.hash)
  {
    from := QueueCarriesRows(p, Fresh0(rows), events);
    StoredStayDistinct(p, Fresh0(rows), events);
  }

  ghost predicate Undisturbed(p: Params, w: World, e: Event) {
    e.Source? ==>
      Finished(Validated(p, w, e).tasks) && e.fault.Healthy? && e.puts >= |NewEntries(p, w, e)|
  }

  ghost predicate UndisturbedRun(p: Params, start: World, events: seq<Event>) {
    forall k :: 0 <= k < |events| ==> Undisturbed(p, Run(p, start, events[..k]), events[k])
  }

  lemma UndisturbedPrefix(p: Params, start: World, events: seq<Event>, n: nat)
    requires UndisturbedRun(p, start, events) && n < |events|
    ensures UndisturbedRun(p, start, events[..n]) && Undisturbed(p, Run(p, start, events[..n]), events[n])
  {
    forall k | 0 <= k < n ensures Undisturbed(p, Run(p, start, events[..n][..k]), events[..n][k]) {
      assert events[..n][..k] == events[..k];
    }
  }

  function ItemsOfRows(rows: seq<Row>): (r: seq<Item>)
    ensures |r| == |rows|
    ensures forall i :: 0 <= i < |r| ==> r[i] == Item(rows[i].entry.marked, rows[i].entry.country)
  {
    seq(|rows|, i requires 0 <= i < |rows| => Item(rows[i].entry.marked, rows[i].entry.country))
  }

  lemma ItemsAppend(rows: seq<Row>, k: nat, added: seq<Entry>, name: string, puts: nat)
    requires k <= |rows| && puts >= |added|
    ensures ItemsOfRows((rows + RowsFor(added, name))[k..]) == ItemsOfRows(rows[k..]) + AtMost(ItemsFor(added), puts)
  {
    assert (rows + RowsFor(added, name))[k..] == rows[k..] + RowsFor(added, name);
  }

  /** Conservation: when nothing fails, the queue gets exactly the rows the run stored, in order. */
  lemma {:induction false} AllStoredArePublished(p: Params, rows: seq<Row>, events: seq<Event>)
    requires UndisturbedRun(p, Fresh0(rows), events)
    ensures var w := Run(p, Fresh0(rows), events);
            rows <= w.rows && w.published == ItemsOfRows(w.rows[|rows|..])
  {
    if events != [] {
      var n := |events| - 1;
      var start := Fresh0(rows);
      UndisturbedPrefix(p, start, events, n);
      AllStoredArePublished(p, rows, events[..n]);
      var w := Run(p, start, events[..n]);
      if events[n].Source? {
        ItemsAppend(w.rows, |rows|, NewEntries(p, w, events[n]), events[n].name, events[n].puts);
      }
    }
  }

  lemma StoredByRows(entries: seq<Entry>, name: string, h: string)
    ensures IsStored(RowsFor(entries, name), h) <==> exists x :: x in entries && x.hash == h
  {
    if k :| 0 <= k < |entries| && entries[k].hash == h {
      assert RowsFor(entries, name)[k].entry.hash == h;
    }
  }

  lemma NewEntriesAreFresh(p: Params, w: World, e: Event)
    requires e.Source? && Undisturbed(p, w, e)
    ensures NewEntries(p, w, e) == Fresh(w.rows, Results(Validated(p, w, e).tasks))
  {
  }

  lemma ValidatedIsWanted(p: Params, w: World, e: Event, x: Entry)
    requires HashAgrees(p) && e.Source? && Finished(Validated(p, w, e).tasks)
    requires x in Results(Validated(p, w, e).tasks)
    ensures x.hash !in w.seen && x.raw in Limited(p, e) && p.env.known(x.raw) && p.env.hash(x.raw) == x.hash
  {
    var b := BatchFor(p, e);
    var results := Results(Validated(p, w, e).tasks);
    BatchIsDistinct(p, e);
    EveryScheduleFilters(b, w.seen, w.cache, e.schedule);
    var k :| 0 <= k < |results| && results[k] == x;
    assert Raws(results)[k] == x.raw;
    FilterMembers(b, w.seen, 0, x.raw);
    var i :| 0 <= i < |b.configs| && b.configs[i] == x.raw && b.Fit(i) && b.Hash(i) !in w.seen;
  }

  lemma WantedIsValidated(p: Params, w: World, e: Event, c: string) returns (x: Entry)
    requires HashAgrees(p) && e.Source? && Finished(Validated(p, w, e).tasks)
    requires NeverPings(p.env.pings)
    requires c in Limited(p, e) && p.env.known(c) && p.env.hash(c) !in w.seen
    ensures x in Results(Validated(p, w, e).tasks) && x.raw == c && x.hash == p.env.hash(c)
  {
    var b := BatchFor(p, e);
    var results := Results(Validated(p, w, e).tasks);
    BatchIsDistinct(p, e);
    EveryScheduleFilters(b, w.seen, w.cache, e.schedule);
    var i :| 0 <= i < |b.configs| && b.configs[i] == c;
    assert b.Fit(i) && b.Hash(i) == p.env.hash(c);
    FilterMembers(b, w.seen, 0, c);
    var k :| 0 <= k < |Raws(results)| && Raws(results)[k] == c;
    x := results[k];
  }

  /** A known config among the first twenty has this hash, which was not accepted earlier in the job. */
  ghost predicate Wants(p: Params, w: World, e: Event, h: string)
    requires e.Source?
  {
    h !in w.seen && exists c :: c in Limited(p, e) && p.env.known(c) && p.env.hash(c) == h
  }

  lemma ValidatedHashes(p: Params, w: World, e: Event, h: string)
    requires HashAgrees(p) && e.Source? && Finished(Validated(p, w, e).tasks) && NeverPings(p.env.pings)
    ensures (exists x :: x in Results(Validated(p, w, e).tasks) && x.hash == h) <==> Wants(p, w, e, h)
  {
    if Wants(p, w, e, h) {
      var c :| c in Limited(p, e) && p.env.known(c) && p.env.hash(c) == h;
      var x := WantedIsValidated(p, w, e, c);
    }
    if x :| x in Results(Validated(p, w, e).tasks) && x.hash == h {
      ValidatedIsWanted(p, w, e, x);
    }
  }

  /** What a source's turn leaves in the table, exactly: a hash is stored afterwards if and only if it
      was stored before, or the turn wants it. */
  lemma StoredAfterTurn(p: Params, w: World, e: Event, h: string)
    requires HashAgrees(p) && e.Source? && Undisturbed(p, w, e)
    requires NeverPings(p.env.pings)
    ensures IsStored(Step(p, w, e).rows, h) <==> IsStored(w.rows, h) || Wants(p, w, e, h)
  {
    var results := Results(Validated(p, w, e).tasks);
    var added := Fresh(w.rows, results);
    NewEntriesAreFresh(p, w, e);
    StoredAppend(w.rows, RowsFor(added, e.name), h);
    StoredByRows(added, e.name, h);
    ValidatedHashes(p, w, e, h);
    if x :| x in results && x.hash == h { FreshMembers(w.rows, results, x); }
    if x :| x in added && x.hash == h { FreshMembers(w.rows, results, x); }
  }

  /** Jobs that overlap, as the first job started outside the scheduler makes possible: two turns that
      look the table up before either commits store a hash twice exactly when both want one that the
      table lacks. */
  lemma OverlappingTurns(p: Params, v: World, d: Event, w: World, e: Event)
    requires HashAgrees(p) && NeverPings(p.env.pings) && v.rows == w.rows && DistinctRows(w.rows)
    requires d.Source? && Undisturbed(p, v, d) && e.Source? && Undisturbed(p, w, e)
    ensures DistinctRows(w.rows + RowsFor(NewEntries(p, v, d), d.name) + RowsFor(NewEntries(p, w, e), e.name))
       <==> forall h :: Wants(p, v, d, h) && Wants(p, w, e, h) ==> IsStored(w.rows, h)
  {
    var a, b := Results(Validated(p, v, d).tasks), Results(Validated(p, w, e).tasks);
    NewEntriesAreFresh(p, v, d);
    NewEntriesAreFresh(p, w, e);
    ValidatedAreGenuine(p, v, d);
    ValidatedAreGenuine(p, w, e);
    OverlappingSaves(w.rows, a, b, d.name, e.name);
    SharedIsWanted(p, v, d, w, e);
  }

  lemma SharedIsWanted(p: Params, v: World, d: Event, w: World, e: Event)
    requires HashAgrees(p) && NeverPings(p.env.pings)
    requires d.Source? && Finished(Validated(p, v, d).tasks) && e.Source? && Finished(Validated(p, w, e).tasks)
    ensures SharesNothingNew(w.rows, Results(Validated(p, v, d).tasks), Results(Validated(p, w, e).tasks))
       <==> forall h :: Wants(p, v, d, h) && Wants(p, w, e, h) ==> IsStored(w.rows, h)
  {
    var a, b := Results(Validated(p, v, d).tasks), Results(Validated(p, w, e).tasks);
    if SharesNothingNew(w.rows, a, b) {
      forall h | Wants(p, v, d, h) && Wants(p, w, e, h) ensures IsStored(w.rows, h) {
        ValidatedHashes(p, v, d, h);
        ValidatedHashes(p, w, e, h);
      }
    }
    forall x | x in a ensures Wants(p, v, d, x.hash) {
      ValidatedHashes(p, v, d, x.hash);
    }
    forall y | y in b ensures Wants(p, w, e, y.hash) {
      ValidatedHashes(p, w, e, y.hash);
    }
  }

  lemma TurnAddsUnseen(p: Params, w: World, e: Event, h: string)
    requires HashAgrees(p) && e.Source? && h in w.seen
    ensures h in Step(p, w, e).seen && (IsStored(Step(p, w, e).rows, h) <==> IsStored(w.rows, h))
  {
    var b := BatchFor(p, e);
    BatchIsDistinct(p, e);
    DistinctRun(b, w.seen, w.cache, e.schedule);
    var added := NewEntries(p, w, e);
    StoredAppend(w.rows, RowsFor(added, e.name), h);
    StoredByRows(added, e.name, h);
    if x :| x in added && x.hash == h {
      NewEntriesAreGenuine(p, w, e);
      FreshMembers(w.rows, Results(Validated(p, w, e).tasks), x);
      ValidatedIsWanted(p, w, e, x);
    }
  }

  ghost predicate SameJob(events: seq<Event>) {
    forall i :: 0 <= i < |events| ==> events[i].Source?
  }

  /** A config that is wanted becomes a new row exactly when its hash is not stored yet. */
  lemma NewRowIffNotStored(p: Params, w: World, e: Event, c: string)
    requires HashAgrees(p) && e.Source? && Undisturbed(p, w, e) && NeverPings(p.env.pings)
    requires c in Limited(p, e) && p.env.known(c) && p.env.hash(c) !in w.seen
    ensures (exists x :: x in NewEntries(p, w, e) && x.raw == c) <==> !IsStored(w.rows, p.env.hash(c))
  {
    var results := Results(Validated(p, w, e).tasks);
    NewEntriesAreFresh(p, w, e);
    var y := WantedIsValidated(p, w, e, c);
    FreshMembers(w.rows, results, y);
    if x :| x in NewEntries(p, w, e) && x.raw == c {
      FreshMembers(w.rows, results, x);
      ValidatedIsWanted(p, w, e, x);
    }
  }

  lemma SingleIsKept(md5: string -> string, c: string)
    ensures Dedup.FirstOccurrences(md5, [c]) == [c]
  {
    Dedup.KeptWholeIffDistinct(md5, [c]);
  }

  /** A source with one config, wanted and not stored, adds exactly one row. */
  lemma SingleTurn(p: Params, w: World, e: Event, c: string) returns (x: Entry)
    requires HashAgrees(p) && e.Source? && Undisturbed(p, w, e) && NeverPings(p.env.pings)
    requires e.candidates == [c] && p.env.known(c) && p.env.hash(c) !in w.seen
    requires !IsStored(w.rows, p.env.hash(c))
    ensures NewEntries(p, w, e) == [x] && x.raw == c && Genuine(p, [c], x)
    ensures x in Results(Validated(p, w, e).tasks)
  {
    SingleIsKept(p.md5, c);
    NewRowIffNotStored(p, w, e, c);
    NewEntriesAreGenuine(p, w, e);
    var entries := NewEntries(p, w, e);
    x :| x in entries && x.raw == c;
    FreshMembers(w.rows, Results(Validated(p, w, e).tasks), x);
    assert |entries| > 1 ==> entries[0].hash != entries[1].hash;
    forall i | 0 <= i < |entries| ensures entries[i].hash == p.env.hash(c) {
      assert entries[i] in entries;
    }
  }

  lemma {:induction false} ResultIsAccepted(tasks: seq<Task>, x: Entry) returns (i: nat)
    requires x in Results(tasks)
    ensures i < |tasks| && tasks[i] == Accepted(x)
  {
    if tasks[0] == Accepted(x) {
      i := 0;
    } else {
      i := ResultIsAccepted(tasks[1..], x);
      i := i + 1;
    }
  }

  /** The country of a source's only config: the answer of the network, if it was asked. */
  lemma SingleCountry(p: Params, w: World, e: Event, c: string, x: Entry)
    requires e.Source? && e.candidates == [c] && w.cache == map[]
    requires x in Results(Validated(p, w, e).tasks)
    ensures x.country == "UN" || x.country == e.countries(0)
  {
    SingleIsKept(p.md5, c);
    var b := BatchFor(p, e);
    CountriesFit(b, w.seen, w.cache, e.schedule);
    var i := ResultIsAccepted(Validated(p, w, e).tasks, x);
    assert |b.configs| == 1 && CountryFits(b, w.cache, i, Accepted(x));
  }

  /** Every source can have an undisturbed turn, whatever was done before. */
  lemma TurnExists(p: Params, w: World, name: string, candidates: seq<string>, countries: nat -> string)
    returns (e: Event)
    ensures e.Source? && e.name == name && e.candidates == candidates && e.countries == countries
    ensures Undisturbed(p, w, e)
  {
    var plan := Source(name, candidates, countries, [], Healthy, 0);
    var schedule := EveryScheduleCanFinish(BatchFor(p, plan), w.seen, w.cache, []);
    var run := plan.(schedule := schedule);
    assert BatchFor(p, run) == BatchFor(p, plan);
    e := run.(puts := |NewEntries(p, w, run)|);
    assert BatchFor(p, e) == BatchFor(p, plan);
  }

  /** What the validator has seen is not stored by the rest of the job, whatever happens. */
  lemma {:induction false} SeenStaysOut(p: Params, w: World, rest: seq<Event>, h: string)
    requires HashAgrees(p) && SameJob(rest) && h in w.seen
    ensures h in Run(p, w, rest).seen
    ensures IsStored(Run(p, w, rest).rows, h) <==> IsStored(w.rows, h)
  {
    if rest != [] {
      var n := |rest| - 1;
      SeenStaysOut(p, w, rest[..n], h);
      TurnAddsUnseen(p, Run(p, w, rest[..n]), rest[n], h);
    }
  }

  lemma AcceptedIsSeen(p: Params, w: World, e: Event, c: string)
    requires HashAgrees(p) && e.Source? && NeverPings(p.env.pings)
    requires Finished(Validated(p, w, e).tasks) && c in Limited(p, e) && p.env.known(c)
    ensures p.env.hash(c) in Validated(p, w, e).seen
  {
    var b := BatchFor(p, e);
    BatchIsDistinct(p, e);
    DistinctRun(b, w.seen, w.cache, e.schedule);
    var i :| 0 <= i < |b.configs| && b.configs[i] == c;
    assert b.Fit(i) && Consistent(b, w.seen, i, Validated(p, w, e).tasks[i]);
  }

  /** A failed save hides its configs from the rest of the job: the validator remembers their hashes, so
      that no other source, disturbed or not, gets them stored. */
  lemma FailedSaveHides(p: Params, w: World, first: Event, rest: seq<Event>, c: string)
    requires HashAgrees(p) && first.Source? && SameJob(rest) && NeverPings(p.env.pings)
    requires Finished(Validated(p, w, first).tasks) && (first.fault.QueryFails? || first.fault.CommitFails?)
    requires c in Limited(p, first) && p.env.known(c) && !IsStored(w.rows, p.env.hash(c))
    ensures var end := Run(p, Step(p, w, first), rest);
            p.env.hash(c) in end.seen && !IsStored(end.rows, p.env.hash(c))
  {
    AcceptedIsSeen(p, w, first, c);
    assert w.rows + RowsFor([], first.name) == w.rows;
    SeenStaysOut(p, Step(p, w, first), rest, p.env.hash(c));
  }

  /** A config whose commit went unseen is stored, but no job ever publishes it: everything that is put
      on the queue from then on carries a later row with another hash. */
  lemma UnseenCommitIsNeverPublished(p: Params, w: World, first: Event, rest: seq<Event>)
    returns (from: seq<nat>)
    requires HashAgrees(p) && DistinctRows(w.rows) && w.published == []
    requires first.Source? && first.fault.CommitUnseen?
    ensures Step(p, w, first).rows == w.rows + RowsFor(NewEntries(p, w, first), first.name)
    ensures var end := Run(p, Step(p, w, first), rest);
            && Step(p, w, first).rows <= end.rows
            && Carries(|Step(p, w, first).rows|, end.rows, end.published, from)
            && (forall k :: 0 <= k < |from| ==> !IsStored(Step(p, w, first).rows, end.rows[from[k]].entry.hash))
  {
    var mid := Step(p, w, first);
    var end := Run(p, mid, rest);
    RunOfOne(p, w, first);
    StoredStayDistinct(p, w, [first]);
    from := QueueCarriesRows(p, mid, rest);
    StoredStayDistinct(p, mid, rest);
    RowsOnlyGrow(p, mid, rest);
    forall k | 0 <= k < |from| ensures !IsStored(mid.rows, end.rows[from[k]].entry.hash) {
      forall i | 0 <= i < |mid.rows| ensures mid.rows[i].entry.hash != end.rows[from[k]].entry.hash {
        assert end.rows[i] == mid.rows[i];
      }
    }
  }

  lemma {:induction false} RowsOnlyGrow(p: Params, start: World, events: seq<Event>)
    ensures start.rows <= Run(p, start, events).rows
  {
    if events != [] { RowsOnlyGrow(p, start, events[..|events| - 1]); }
  }

  lemma {:induction false} RunRowsAreGenuine(p: Params, rows: seq<Row>, events: seq<Event>, k: nat)
    returns (e: Event)
    requires HashAgrees(p)
    requires |rows| <= k < |Run(p, Fresh0(rows), events).rows|
    ensures e in events && e.Source? && Genuine(p, e.candidates, Run(p, Fresh0(rows), events).rows[k].entry)
  {
    var n := |events| - 1;
    var w := Run(p, Fresh0(rows), events[..n]);
    e := events[n];
    if k < |w.rows| {
      e := RunRowsAreGenuine(p, rows, events[..n], k);
    } else {
      NewEntriesAreGenuine(p, w, e);
      assert NewEntries(p, w, e)[k - |w.rows|] in NewEntries(p, w, e);
    }
  }
}
