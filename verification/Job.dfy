/** The runs of Pipeline with the functions that scraper_job passes to the validator
    (processor/validator.py:94-125), and what they mean for the links that are stored and published. */
module Job {
  import opened Validator
  import opened Pipeline
  import opened ConfigPattern
  import ConfigUtils
  import Dedup
  import Extraction
  import HostPattern
  import Json
  import Races
  import opened Text
  import Vmess
  import Watermark

  predicate Known(config: string) {
    ConfigUtils.DetectProtocol(config) != ConfigUtils.Unknown
  }

  /** `if host:` */
  function TruthyHost(config: string): Server {
    match ConfigUtils.ExtractHost(config)
    case NoHost => NoServer
    case Host(v) =>
      match v
      case Null => NoServer
      case Bool(b) => if b then Server(v) else NoServer
      case Int(n) => if n == 0 then NoServer else Server(v)
      case Str(s) => if s == [] then NoServer else Server(v)
  }

  function KnownProtocol(): string -> bool {
    c => Known(c)
  }

  function HashWith(md5: string -> string): string -> string {
    c => Dedup.Hash(md5, c)
  }

  function ServerOf(): string -> Server {
    c => TruthyHost(c)
  }

  function MarkWith(text: string -> string): (string, string) -> string {
    (c, country) => Watermark.Inject(c, text(country))
  }

  /** The job calls validate_batch with check_ping=False.  `text` is the watermark for a country. */
  function JobParams(md5: string -> string, text: string -> string): Params {
    Params(md5, Env(KnownProtocol(), HashWith(md5), ServerOf(), _ => false, MarkWith(text)))
  }

  ghost predicate KnownIs(known: string -> bool) {
    forall c :: known(c) <==> Known(c)
  }

  ghost predicate ServerIs(server: string -> Server) {
    forall c :: server(c) == TruthyHost(c)
  }

  ghost predicate MarkIs(mark: (string, string) -> string, text: string -> string) {
    forall c, country :: mark(c, country) == Watermark.Inject(c, text(country))
  }

  /** p does everything as the job does. */
  ghost predicate IsJob(p: Params, text: string -> string) {
    && KnownIs(p.env.known) && HashAgrees(p) && ServerIs(p.env.server)
    && NeverPings(p.env.pings) && MarkIs(p.env.mark, text)
  }

  lemma KnownProtocolIs()
    ensures KnownIs(KnownProtocol())
  {
  }

  lemma HashWithIs(md5: string -> string)
    ensures HashIs(HashWith(md5), md5)
  {
  }

  lemma ServerOfIs()
    ensures ServerIs(ServerOf())
  {
  }

  lemma MarkWithIs(text: string -> string)
    ensures MarkIs(MarkWith(text), text)
  {
  }

  lemma JobParamsAreJob(md5: string -> string, text: string -> string)
    ensures IsJob(JobParams(md5, text), text) && JobParams(md5, text).md5 == md5
  {
    KnownProtocolIs();
    HashWithIs(md5);
    ServerOfIs();
    MarkWithIs(text);
  }

  // ---------------------------------------------------------------------------------------------
  // What is stored and published
  // ---------------------------------------------------------------------------------------------

  /** What the job promises of an entry. */
  ghost predicate IsWatermarked(md5: string -> string, text: string -> string, x: Entry) {
    && x.hash == Dedup.Hash(md5, x.raw)
    && x.marked == Watermark.Inject(x.raw, text(x.country))
    && Extraction.IsConfig(x.marked)
    && Known(x.marked)
    && (Watermark.TakesRemark(x.raw) ==> Dedup.Hash(md5, x.marked) == x.hash)
  }

  /** The scrapers hand over what the patterns extract. */
  ghost predicate CandidatesAreConfigs(events: seq<Event>) {
    forall e: Event :: e in events && e.Source? ==> forall c :: c in e.candidates ==> Extraction.IsConfig(c)
  }

  lemma CandidateIsConfig(events: seq<Event>, e: Event, c: string)
    requires CandidatesAreConfigs(events) && e in events && e.Source? && c in e.candidates
    ensures Extraction.IsConfig(c)
  {
  }

  lemma GenuineEntry(p: Params, text: string -> string, candidates: seq<string>, x: Entry)
    requires IsJob(p, text) && Genuine(p, candidates, x)
    ensures x.hash == Dedup.Hash(p.md5, x.raw) && x.marked == Watermark.Inject(x.raw, text(x.country))
  {
  }

  lemma MarkedIsWatermarked(md5: string -> string, text: string -> string, x: Entry)
    requires x.hash == Dedup.Hash(md5, x.raw) && x.marked == Watermark.Inject(x.raw, text(x.country))
    requires Extraction.IsConfig(x.raw)
    ensures IsWatermarked(md5, text, x)
  {
    Watermark.WatermarkedIsConfig(x.raw, text(x.country));
    if Watermark.TakesRemark(x.raw) {
      Watermark.WatermarkKeepsHash(md5, x.raw, text(x.country));
    }
  }

  /** A row that the run stored. */
  lemma StoredEntry(p: Params, text: string -> string, rows: seq<Row>, events: seq<Event>, k: nat)
    requires IsJob(p, text)
    requires |rows| <= k < |Pipeline.Run(p, Fresh0(rows), events).rows|
    ensures var x := Pipeline.Run(p, Fresh0(rows), events).rows[k].entry;
            x.hash == Dedup.Hash(p.md5, x.raw) && x.marked == Watermark.Inject(x.raw, text(x.country))
  {
    var e := RunRowsAreGenuine(p, rows, events, k);
    GenuineEntry(p, text, e.candidates, Pipeline.Run(p, Fresh0(rows), events).rows[k].entry);
  }

  /** Every row a job stores comes from a scraped config: a known protocol, its dedup hash, and its
      watermarked form, which is again a config that the patterns read back whole; where the watermark
      is a remark, the stored text has the stored hash. */
  lemma StoredAreWatermarked(p: Params, text: string -> string, rows: seq<Row>, events: seq<Event>, k: nat)
    requires IsJob(p, text) && CandidatesAreConfigs(events)
    requires |rows| <= k < |Pipeline.Run(p, Fresh0(rows), events).rows|
    ensures IsWatermarked(p.md5, text, Pipeline.Run(p, Fresh0(rows), events).rows[k].entry)
  {
    var e := RunRowsAreGenuine(p, rows, events, k);
    var x := Pipeline.Run(p, Fresh0(rows), events).rows[k].entry;
    CandidateIsConfig(events, e, x.raw);
    GenuineEntry(p, text, e.candidates, x);
    MarkedIsWatermarked(p.md5, text, x);
  }

  /** Every item ever enqueued is the watermarked form of the config of a row that the run stored under
      the config's hash. */
  lemma PublishedAreWatermarked(p: Params, text: string -> string, rows: seq<Row>, events: seq<Event>)
    returns (from: seq<nat>)
    requires IsJob(p, text) && DistinctRows(rows)
    ensures var w := Pipeline.Run(p, Fresh0(rows), events);
            && Carries(|rows|, w.rows, w.published, from)
            && (forall k :: 0 <= k < |from| ==>
                  var x := w.rows[from[k]].entry;
                  && w.published[k].config == Watermark.Inject(x.raw, text(x.country))
                  && x.hash == Dedup.Hash(p.md5, x.raw))
            && (forall k, l :: 0 <= k < l < |from| ==> w.rows[from[k]].entry.hash != w.rows[from[l]].entry.hash)
  {
    from := PublishedAreStoredOnce(p, rows, events);
    var w := Pipeline.Run(p, Fresh0(rows), events);
    forall k | 0 <= k < |from|
      ensures var x := w.rows[from[k]].entry;
              && w.published[k].config == Watermark.Inject(x.raw, text(x.country))
              && x.hash == Dedup.Hash(p.md5, x.raw)
    {
      StoredEntry(p, text, rows, events, from[k]);
    }
  }

  /** Whole runs of the job itself, from any table without repeated hashes: stored hashes stay distinct,
      what is enqueued is the watermarked form of what was stored, and each stored row is in order. */
  lemma EveryJobRun(md5: string -> string, text: string -> string, rows: seq<Row>, events: seq<Event>)
    returns (from: seq<nat>)
    requires DistinctRows(rows) && CandidatesAreConfigs(events)
    ensures var w := Pipeline.Run(JobParams(md5, text), Fresh0(rows), events);
            && DistinctRows(w.rows) && Carries(|rows|, w.rows, w.published, from)
            && (forall k :: |rows| <= k < |w.rows| ==> IsWatermarked(md5, text, w.rows[k].entry))
  {
    var p := JobParams(md5, text);
    JobParamsAreJob(md5, text);
    from := PublishedAreStoredOnce(p, rows, events);
    StoredStayDistinct(p, Fresh0(rows), events);
    forall k | |rows| <= k < |Pipeline.Run(p, Fresh0(rows), events).rows|
      ensures IsWatermarked(md5, text, Pipeline.Run(p, Fresh0(rows), events).rows[k].entry)
    {
      StoredAreWatermarked(p, text, rows, events, k);
    }
  }

  /** What a source's turn leaves in the table, for extracted candidates: a hash is stored afterwards if
      and only if it was before, or it is the hash of one of the first twenty and was not accepted
      earlier in the job. */
  lemma StoredAfterJobTurn(p: Params, text: string -> string, w: World, e: Event, h: string)
    requires IsJob(p, text) && e.Source? && Undisturbed(p, w, e)
    requires forall c :: c in e.candidates ==> Extraction.IsConfig(c)
    ensures IsStored(Step(p, w, e).rows, h) <==>
              || IsStored(w.rows, h)
              || (h !in w.seen && exists c :: c in Limited(p, e) && Dedup.Hash(p.md5, c) == h)
  {
    StoredAfterTurn(p, w, e, h);
    if c :| c in Limited(p, e) && Dedup.Hash(p.md5, c) == h {
      LimitedIsConfig(p, e, c);
      assert p.env.known(c) && p.env.hash(c) == h;
    }
    if c :| c in Limited(p, e) && p.env.known(c) && p.env.hash(c) == h {
      assert Dedup.Hash(p.md5, c) == h;
    }
  }

  lemma LimitedIsConfig(p: Params, e: Event, c: string)
    requires e.Source? && c in Limited(p, e)
    requires forall d :: d in e.candidates ==> Extraction.IsConfig(d)
    ensures Extraction.IsConfig(c) && Known(c)
  {
    assert c in Dedup.FirstOccurrences(p.md5, e.candidates);
    KeptAreCandidates(p.md5, e.candidates, c);
    Watermark.ConfigIsKnown(c);
  }

  // ---------------------------------------------------------------------------------------------
  // The channel's own links, scraped again
  // ---------------------------------------------------------------------------------------------

  /** A published link with a remark is never stored again, in any later job, under any source. */
  lemma OwnRemarkLinkStaysOut(p: Params, text: string -> string, rows: seq<Row>, events: seq<Event>, k: nat, l: nat)
    requires IsJob(p, text) && DistinctRows(rows)
    requires var n := |Pipeline.Run(p, Fresh0(rows), events).rows|; |rows| <= k < n && |rows| <= l < n
    requires k != l && Watermark.TakesRemark(Pipeline.Run(p, Fresh0(rows), events).rows[k].entry.raw)
    ensures var w := Pipeline.Run(p, Fresh0(rows), events); w.rows[l].entry.raw != w.rows[k].entry.marked
  {
    var w := Pipeline.Run(p, Fresh0(rows), events);
    var x := w.rows[k].entry;
    StoredEntry(p, text, rows, events, k);
    StoredEntry(p, text, rows, events, l);
    StoredStayDistinct(p, Fresh0(rows), events);
    Watermark.WatermarkKeepsHash(p.md5, x.raw, text(x.country));
    DifferentHashes(w.rows, k, l);
  }

  lemma DifferentHashes(rows: seq<Row>, k: nat, l: nat)
    requires DistinctRows(rows) && k < |rows| && l < |rows| && k != l
    ensures rows[k].entry.hash != rows[l].entry.hash
  {
    if k < l {
      assert rows[k].entry.hash != rows[l].entry.hash;
    } else {
      assert rows[l].entry.hash != rows[k].entry.hash;
    }
  }

  lemma OwnVmessLinkIsKnown(p: Params, text: string -> string, c: string, watermark: string)
    requires IsJob(p, text) && !Watermark.TakesRemark(c)
    ensures var link := Watermark.Inject(c, watermark);
            Dedup.Key(link) == link && p.env.known(link) && p.env.hash(link) == p.md5(link)
  {
    var next := Json.Put(Vmess.DecodeStrict(c).o, "ps", Json.Str(watermark));
    Watermark.EncodedIsItsKey(next);
    VmessIsKnown(next);
  }

  /** A published vmess link that decodes is hashed whole, and the next job that finds it among the first
      twenty stores it as a new config exactly when the table does not have that hash yet. */
  lemma OwnVmessLinkComesBack(p: Params, text: string -> string, w: World, e: Event, c: string, watermark: string)
    requires IsJob(p, text) && e.Source? && Undisturbed(p, Step(p, w, NewJob), e)
    requires !Watermark.TakesRemark(c) && Watermark.Inject(c, watermark) in Limited(p, e)
    ensures var link := Watermark.Inject(c, watermark);
            && Dedup.Hash(p.md5, link) == p.md5(link)
            && ((exists x :: x in NewEntries(p, Step(p, w, NewJob), e) && x.raw == link)
                 <==> !IsStored(w.rows, p.md5(link)))
            && IsStored(Step(p, Step(p, w, NewJob), e).rows, p.md5(link))
  {
    var link := Watermark.Inject(c, watermark);
    OwnVmessLinkIsKnown(p, text, c, watermark);
    NewRowIffNotStored(p, Step(p, w, NewJob), e, link);
    assert Wants(p, Step(p, w, NewJob), e, p.md5(link));
    StoredAfterTurn(p, Step(p, w, NewJob), e, p.md5(link));
  }

  /** A row other than row k has this hash. */
  ghost predicate StoredElsewhere(rows: seq<Row>, k: nat, hash: string) {
    exists l :: 0 <= l < |rows| && l != k && rows[l].entry.hash == hash
  }

  lemma RunTwoMore(p: Params, start: World, events: seq<Event>, e: Event, f: Event)
    ensures Pipeline.Run(p, start, events + [e, f]) == Step(p, Step(p, Pipeline.Run(p, start, events), e), f)
  {
    var all := events + [e, f];
    assert all[..|all| - 1] == events + [e];
    assert (events + [e])[..|events|] == events;
  }

  /** The published form of a stored vmess link that decodes, found by a later job: it becomes a row of
      its own exactly when the watermark changed the link's key and no further row has its hash - provided
      that MD5 tells the link from its original. */
  lemma OwnVmessLinkIsStoredAgain(p: Params, text: string -> string, rows: seq<Row>, events: seq<Event>,
                                  k: nat, e: Event)
    requires IsJob(p, text) && |rows| <= k < |Pipeline.Run(p, Fresh0(rows), events).rows|
    requires var x := Pipeline.Run(p, Fresh0(rows), events).rows[k].entry;
             && !Watermark.TakesRemark(x.raw)
             && (p.md5(x.marked) == p.md5(Dedup.Key(x.raw)) ==> x.marked == Dedup.Key(x.raw))
             && e.Source? && x.marked in Limited(p, e)
    requires Undisturbed(p, Step(p, Pipeline.Run(p, Fresh0(rows), events), NewJob), e)
    ensures var before := Pipeline.Run(p, Fresh0(rows), events).rows;
            var after := Pipeline.Run(p, Fresh0(rows), events + [NewJob, e]).rows;
            var x := before[k].entry;
            (exists l :: |before| <= l < |after| && after[l].entry.raw == x.marked)
              <==> !Watermark.HasThisMark(x.raw, text(x.country)) && !StoredElsewhere(before, k, p.md5(x.marked))
  {
    var w := Pipeline.Run(p, Fresh0(rows), events);
    var x := w.rows[k].entry;
    StoredEntry(p, text, rows, events, k);
    RunTwoMore(p, Fresh0(rows), events, NewJob, e);
    OwnVmessLinkComesBack(p, text, w, e, x.raw, text(x.country));
    Watermark.WatermarkKeepsKeyIff(x.raw, text(x.country));
    OwnVmessLinkIsKnown(p, text, x.raw, text(x.country));
    NewRowHasRaw(w.rows, NewEntries(p, Step(p, w, NewJob), e), e.name, x.marked);
  }

  lemma NewRowHasRaw(rows: seq<Row>, added: seq<Entry>, name: string, raw: string)
    ensures var all := rows + RowsFor(added, name);
            (exists l :: |rows| <= l < |all| && all[l].entry.raw == raw) <==> exists x :: x in added && x.raw == raw
  {
    var all := rows + RowsFor(added, name);
    if l :| |rows| <= l < |all| && all[l].entry.raw == raw {
      assert all[l].entry == added[l - |rows|];
    }
    if x :| x in added && x.raw == raw {
      var k :| 0 <= k < |added| && added[k] == x;
      assert all[|rows| + k].entry == x;
    }
  }

  lemma StoredInOne(x: Entry, name: string, h: string)
    ensures IsStored([Row(x, name)], h) <==> x.hash == h
  {
    if x.hash == h { assert [Row(x, name)][0].entry.hash == h; }
  }

  /** One source with one config that is not stored, in a new job. */
  lemma JobForOne(p: Params, text: string -> string, w: World, c: string, countries: nat -> string)
    returns (e: Event, x: Entry)
    requires IsJob(p, text) && Known(c) && !IsStored(w.rows, Dedup.Hash(p.md5, c))
    ensures e.Source? && e.candidates == [c] && Undisturbed(p, Step(p, w, NewJob), e)
    ensures Step(p, Step(p, w, NewJob), e).rows == w.rows + [Row(x, e.name)]
    ensures x.raw == c && x.hash == Dedup.Hash(p.md5, c) && x.marked == Watermark.Inject(c, text(x.country))
    ensures x.country == "UN" || x.country == countries(0)
  {
    var v := Step(p, w, NewJob);
    e := TurnExists(p, v, [], [c], countries);
    x := SingleTurn(p, v, e, c);
    SingleCountry(p, v, e, c, x);
    assert RowsFor([x], e.name) == [Row(x, e.name)];
  }

  lemma RunOfFour(p: Params, start: World, a: Event, b: Event, c: Event, d: Event)
    ensures Pipeline.Run(p, start, [a, b, c, d]) == Step(p, Step(p, Step(p, Step(p, start, a), b), c), d)
  {
    RunTwoMore(p, start, [], a, b);
    RunTwoMore(p, start, [a, b], c, d);
    assert [] + [a, b] == [a, b];
    assert [a, b] + [c, d] == [a, b, c, d];
  }

  lemma SecondJob(p: Params, text: string -> string, w: World, x: Entry, source: string, countries: nat -> string)
    returns (e: Event, y: Entry)
    requires IsJob(p, text) && !Watermark.TakesRemark(x.raw) && x.marked == Watermark.Inject(x.raw, text(x.country))
    requires w.rows == [Row(x, source)] && Dedup.Hash(p.md5, x.marked) != x.hash
    ensures e.Source? && e.candidates == [x.marked] && y.raw == x.marked
    ensures Step(p, Step(p, w, NewJob), e).rows == [Row(x, source), Row(y, e.name)]
  {
    OwnVmessLinkIsKnown(p, text, x.raw, text(x.country));
    StoredInOne(x, source, Dedup.Hash(p.md5, x.marked));
    e, y := JobForOne(p, text, w, x.marked, countries);
  }

  /** The watermark for the country changes the hash. */
  predicate HashChanges(md5: string -> string, text: string -> string, c: string, country: string) {
    Dedup.Hash(md5, Watermark.Inject(c, text(country))) != Dedup.Hash(md5, c)
  }

  /** Two jobs: the first finds a vmess link, the second what was published for it, and both store a row,
      if the watermark changes the hash. */
  lemma LinkIsStoredTwice(p: Params, text: string -> string, c: string, countries: nat -> string)
    returns (d: Event, e: Event)
    requires IsJob(p, text) && !Watermark.TakesRemark(c)
    requires HashChanges(p.md5, text, c, "UN") && HashChanges(p.md5, text, c, countries(0))
    ensures d.Source? && d.candidates == [c] && e.Source?
    ensures var w := Pipeline.Run(p, Fresh0([]), [NewJob, d, NewJob, e]);
            && |w.rows| == 2 && w.rows[0].entry.raw == c
            && e.candidates == [w.rows[0].entry.marked] && w.rows[1].entry.raw == w.rows[0].entry.marked
  {
    var x, y: Entry;
    ConfigUtils.SchemeIsKnown(VMESS, c);
    d, x := JobForOne(p, text, Fresh0([]), c, countries);
    e, y := SecondJob(p, text, Step(p, Step(p, Fresh0([]), NewJob), d), x, d.name, countries);
    RunOfFour(p, Fresh0([]), NewJob, d, NewJob, e);
  }

  /** MD5 tells the watermarked link from the link. */
  predicate ToldApart(md5: string -> string, text: string -> string, c: string, country: string) {
    var link := Watermark.Inject(c, text(country));
    link != c ==> md5(link) != md5(c)
  }

  lemma ExampleChanges(md5: string -> string, text: string -> string, country: string)
    requires ToldApart(md5, text, Vmess.Encode(Watermark.ADD_ONLY), country)
    ensures HashChanges(md5, text, Vmess.Encode(Watermark.ADD_ONLY), country)
  {
    var o := Watermark.ADD_ONLY;
    Watermark.AddOnlyHasNoPs();
    Vmess.RoundTrip(o);
    Watermark.EncodedIsItsKey(o);
    Watermark.EncodedIsItsKey(Json.Put(o, "ps", Json.Str(text(country))));
    Watermark.KeyChangesExample(text(country));
  }

  /** The link of {"add": "1.2.3.4"} is stored twice. */
  lemma StoredTwiceExample(p: Params, text: string -> string, countries: nat -> string)
    returns (d: Event, e: Event)
    requires IsJob(p, text)
    requires ToldApart(p.md5, text, Vmess.Encode(Watermark.ADD_ONLY), "UN")
    requires ToldApart(p.md5, text, Vmess.Encode(Watermark.ADD_ONLY), countries(0))
    ensures d.Source? && d.candidates == [Vmess.Encode(Watermark.ADD_ONLY)] && e.Source?
    ensures var w := Pipeline.Run(p, Fresh0([]), [NewJob, d, NewJob, e]);
            && |w.rows| == 2 && w.rows[0].entry.raw == Vmess.Encode(Watermark.ADD_ONLY)
            && e.candidates == [w.rows[0].entry.marked] && w.rows[1].entry.raw == w.rows[0].entry.marked
  {
    Watermark.AddOnlyHasNoPs();
    Vmess.RoundTrip(Watermark.ADD_ONLY);
    ExampleChanges(p.md5, text, "UN");
    ExampleChanges(p.md5, text, countries(0));
    d, e := LinkIsStoredTwice(p, text, Vmess.Encode(Watermark.ADD_ONLY), countries);
  }

  lemma VmessIsKnown(o: Json.Object)
    ensures Known(Vmess.Encode(o))
  {
    ConfigUtils.SchemeIsKnown(VMESS, Vmess.Encode(o));
  }

  /** ... but only once for each watermark: the second time the watermark changes nothing. */
  lemma OwnVmessLinkIsFixed(p: Params, text: string -> string, rows: seq<Row>, events: seq<Event>,
                            k: nat, l: nat, m: nat)
    requires IsJob(p, text) && DistinctRows(rows)
    requires var n := |Pipeline.Run(p, Fresh0(rows), events).rows|;
             |rows| <= k < n && |rows| <= l < n && |rows| <= m < n && l != m
    requires var all := Pipeline.Run(p, Fresh0(rows), events).rows;
             && !Watermark.TakesRemark(all[k].entry.raw) && all[l].entry.raw == all[k].entry.marked
             && text(all[l].entry.country) == text(all[k].entry.country)
    ensures var all := Pipeline.Run(p, Fresh0(rows), events).rows;
            all[l].entry.marked == all[l].entry.raw && all[m].entry.raw != all[l].entry.marked
  {
    var all := Pipeline.Run(p, Fresh0(rows), events).rows;
    StoredEntry(p, text, rows, events, k);
    StoredEntry(p, text, rows, events, l);
    StoredEntry(p, text, rows, events, m);
    StoredStayDistinct(p, Fresh0(rows), events);
    Watermark.LastWatermarkWins(all[k].entry.raw, text(all[k].entry.country), text(all[l].entry.country));
    DifferentHashes(all, l, m);
  }

  // ---------------------------------------------------------------------------------------------
  // Two configs with one hash: the order decides
  // ---------------------------------------------------------------------------------------------

  /** For two acceptable configs with one hash: they can race exactly when there are two permits and the
      first is pinged or has a server that is not cached. */
  lemma PairRaces(b: Batch, seen: set<string>, cache: map<Json.Value, string>)
    requires b.Valid() && |b.configs| == 2 && b.Hash(0) == b.Hash(1)
    requires Races.Acceptable(b, seen, 0) && Races.Acceptable(b, seen, 1)
    ensures Races.CanRace(b, seen, cache) <==>
              b.limit >= 2 &&
              (b.env.pings(b.configs[0]) ||
               (b.env.server(b.configs[0]).Server? && b.env.server(b.configs[0]).name !in cache))
  {
    assert Races.FirstOfHash(b, seen, 0);
    if b.env.server(b.configs[0]).Server? {
      assert Races.MustFetchBefore(b, seen, b.env.server(b.configs[0]).name, 0) == 0;
    }
    assert Races.CanRace(b, seen, cache) <==> b.limit >= 2 && Races.RacingPair(b, seen, cache, 0, 1);
  }

  lemma BareNamesNoServer(word: string)
    requires word != [] && NoSpace(word) && '@' !in word
    ensures TruthyHost(VLESS + word) == NoServer
  {
    var config := VLESS + word;
    HostPattern.SearchSkips(config, []);
    assert config + [] == config;
    TrimmedIsFixed(config);
    PrefixesExclude(config);
  }

  lemma RemarkNamesServer(word: string, h: string, back: string)
    requires NoSpace(word) && '@' !in word && h != [] && NoSpace(h) && ':' !in h && NoSpace(back)
    ensures TruthyHost(VLESS + word + ("#@" + h + ":" + back)) == Server(Json.Str(h))
  {
    var front := VLESS + word + "#";
    var rest := "@" + h + ":" + back;
    var config := front + rest;
    assert VLESS + word + ("#@" + h + ":" + back) == config;
    HostPattern.SearchSkips(front, rest);
    HostPattern.HostHereOf(h, back);
    TrimmedIsFixed(config);
    PrefixesExclude(config);
  }

  lemma BothAcceptable(p: Params, text: string -> string, word: string, remark: string)
    requires IsJob(p, text) && '#' !in word
    ensures p.env.known(VLESS + word) && p.env.known(VLESS + word + ("#" + remark))
    ensures p.env.hash(VLESS + word) == p.env.hash(VLESS + word + ("#" + remark))
  {
    var bare := VLESS + word;
    Assoc(bare, "#", remark);
    ConfigUtils.SchemeIsKnown(VLESS, bare);
    assert VLESS <= bare + ("#" + remark);
    ConfigUtils.SchemeIsKnown(VLESS, bare + ("#" + remark));
    Dedup.RemarkIsIgnored(p.md5, bare, remark);
  }

  function PairBatch(p: Params, first: string, second: string, countries: seq<string>): (b: Batch)
    requires |countries| == 2
    ensures b.Valid()
  {
    Batch(p.env, [first, second], MAX_CONCURRENT, [true, true], countries)
  }

  lemma PairInOrder(p: Params, text: string -> string, bare: string, named: string, countries: seq<string>)
    requires IsJob(p, text) && |countries| == 2
    requires p.env.known(bare) && p.env.known(named) && p.env.hash(bare) == p.env.hash(named)
    requires TruthyHost(bare) == NoServer && TruthyHost(named).Server?
    ensures Races.NeverTwice(PairBatch(p, bare, named, countries), {}, map[])
    ensures !Races.NeverTwice(PairBatch(p, named, bare, countries), {}, map[])
  {
    var b, c := PairBatch(p, bare, named, countries), PairBatch(p, named, bare, countries);
    PairRaces(b, {}, map[]);
    PairRaces(c, {}, map[]);
    Races.AcceptedOnceIffNoRace(b, {}, map[]);
    Races.AcceptedOnceIffNoRace(c, {}, map[]);
  }

  /** A link that names no server needs no lookup: put first, it is accepted before the same link with a
      server in its remark starts, and no schedule accepts both.  Put second, some schedule does. */
  lemma OrderDecides(p: Params, text: string -> string, word: string, h: string, back: string, countries: seq<string>)
    requires IsJob(p, text) && |countries| == 2
    requires word != [] && NoSpace(word) && '@' !in word && '#' !in word
    requires h != [] && NoSpace(h) && ':' !in h && NoSpace(back)
    ensures var bare, named := VLESS + word, VLESS + word + ("#@" + h + ":" + back);
            && Races.NeverTwice(PairBatch(p, bare, named, countries), {}, map[])
            && !Races.NeverTwice(PairBatch(p, named, bare, countries), {}, map[])
  {
    var bare, named := VLESS + word, VLESS + word + ("#@" + h + ":" + back);
    BareNamesNoServer(word);
    RemarkNamesServer(word, h, back);
    assert "#@" + h + ":" + back == "#" + ("@" + h + ":" + back);
    BothAcceptable(p, text, word, "@" + h + ":" + back);
    PairInOrder(p, text, bare, named, countries);
  }

  const BARE := VLESS + "x"
  const NAMED := VLESS + "x" + ("#@" + "h" + ":" + "1")

  /** vless://x and vless://x#@h:1 */
  lemma OrderExample(p: Params, text: string -> string, countries: seq<string>)
    requires IsJob(p, text) && |countries| == 2
    ensures Races.NeverTwice(PairBatch(p, BARE, NAMED, countries), {}, map[])
    ensures !Races.NeverTwice(PairBatch(p, NAMED, BARE, countries), {}, map[])
  {
    OrderDecides(p, text, "x", "h", "1", countries);
  }
}
