/** The table of scraper sources (database/crud.py) and the loop over the active ones
    (scraper/base.py, scrape_all). */
module Sources {
  datatype Source = Source(id: nat, name: string, url: string, kind: string, active: bool)

  /** A lookup by scalar_one_or_none: it raises when two rows match. */
  datatype Lookup = NoRow | OneRow(index: nat) | MultipleResultsFound

  datatype Added = Added | DuplicateUrl | DuplicateName | AddRaised

  datatype Done = NotFound | Done | DoneRaised

  /** The rows, and the next id of the autoincrement column. */
  datatype Table = Table(rows: seq<Source>, nextId: nat)

  datatype Column = ById(id: nat) | ByUrl(url: string) | ByName(name: string)

  predicate Matches(s: Source, c: Column) {
    match c
    case ById(id) => s.id == id
    case ByUrl(url) => s.url == url
    case ByName(name) => s.name == name
  }

  function Find(rows: seq<Source>, c: Column): Lookup {
    if rows == [] then NoRow
    else
      var n := |rows| - 1;
      match Find(rows[..n], c)
      case NoRow => if Matches(rows[n], c) then OneRow(n) else NoRow
      case OneRow(i) => if Matches(rows[n], c) then MultipleResultsFound else OneRow(i)
      case MultipleResultsFound => MultipleResultsFound
  }

  /** add_scraper_source: the url is looked up before the name. */
  function AddAnswer(t: Table, name: string, url: string): Added {
    match Find(t.rows, ByUrl(url))
    case MultipleResultsFound => AddRaised
    case OneRow(_) => DuplicateUrl
    case NoRow =>
      match Find(t.rows, ByName(name))
      case MultipleResultsFound => AddRaised
      case OneRow(_) => DuplicateName
      case NoRow => Added
  }

  function Add(t: Table, name: string, url: string, kind: string): Table {
    if AddAnswer(t, name, url) == Added.Added then
      Table(t.rows + [Source(t.nextId, name, url, kind, true)], t.nextId + 1)
    else t
  }

  function ChangeAnswer(t: Table, id: nat): Done {
    match Find(t.rows, ById(id))
    case NoRow => NotFound
    case OneRow(_) => Done.Done
    case MultipleResultsFound => DoneRaised
  }

  /** remove_scraper_source */
  function Drop(t: Table, id: nat): Table {
    match Find(t.rows, ById(id))
    case OneRow(i) => if i < |t.rows| then t.(rows := t.rows[..i] + t.rows[i + 1..]) else t
    case _ => t
  }

  /** toggle_scraper_source */
  function Toggle(t: Table, id: nat): Table {
    match Find(t.rows, ById(id))
    case OneRow(i) =>
      if i < |t.rows| then t.(rows := t.rows[i := t.rows[i].(active := !t.rows[i].active)]) else t
    case _ => t
  }

  class SourceTable {
    var rows: seq<Source>
    var nextId: nat

    constructor ()
      ensures State() == Table([], 1)
    {
      rows, nextId := [], 1;
    }

    function State(): Table
      reads this
    {
      Table(rows, nextId)
    }

    /** select ... where, then scalar_one_or_none. */
    method Select(c: Column) returns (found: Lookup)
      ensures found == Find(rows, c)
    {
      found := NoRow;
      for i := 0 to |rows|
        invariant found == Find(rows[..i], c)
      {
        assert rows[..i + 1][..i] == rows[..i];
        if Matches(rows[i], c) {
          found := if found.NoRow? then OneRow(i) else MultipleResultsFound;
        }
      }
      assert rows[..|rows|] == rows;
    }

    method AddSource(name: string, url: string, kind: string) returns (answer: Added)
      modifies this
      ensures answer == AddAnswer(old(State()), name, url)
      ensures State() == Add(old(State()), name, url, kind)
    {
      var sameUrl := Select(ByUrl(url));
      match sameUrl {
        case MultipleResultsFound => return AddRaised;
        case OneRow(_) => return DuplicateUrl;
        case NoRow =>
      }
      var sameName := Select(ByName(name));
      match sameName {
        case MultipleResultsFound => return AddRaised;
        case OneRow(_) => return DuplicateName;
        case NoRow =>
      }
      rows := rows + [Source(nextId, name, url, kind, true)];
      nextId := nextId + 1;
      answer := Added.Added;
    }

    method RemoveSource(id: nat) returns (answer: Done)
      modifies this
      ensures answer == ChangeAnswer(old(State()), id)
      ensures State() == Drop(old(State()), id)
    {
      var found := Select(ById(id));
      FoundIsRow(rows, ById(id));
      match found {
        case MultipleResultsFound => return DoneRaised;
        case NoRow => return NotFound;
        case OneRow(i) =>
          rows := rows[..i] + rows[i + 1..];
          return Done.Done;
      }
    }

    method ToggleSource(id: nat) returns (answer: Done)
      modifies this
      ensures answer == ChangeAnswer(old(State()), id)
      ensures State() == Toggle(old(State()), id)
    {
      var found := Select(ById(id));
      FoundIsRow(rows, ById(id));
      match found {
        case MultipleResultsFound => return DoneRaised;
        case NoRow => return NotFound;
        case OneRow(i) =>
          rows := rows[i := rows[i].(active := !rows[i].active)];
          return Done.Done;
      }
    }
  }

  /** What a lookup finds, in terms of the rows. */
  lemma {:induction false} FoundIsRow(rows: seq<Source>, c: Column)
    ensures Find(rows, c).NoRow? <==> forall i :: 0 <= i < |rows| ==> !Matches(rows[i], c)
    ensures Find(rows, c).OneRow? ==> Find(rows, c).index < |rows| && Matches(rows[Find(rows, c).index], c)
  {
    if rows != [] { FoundIsRow(rows[..|rows| - 1], c); }
  }

  lemma {:induction false} MultipleAreTwo(rows: seq<Source>, c: Column) returns (i: nat, j: nat)
    requires Find(rows, c).MultipleResultsFound?
    ensures i < j < |rows| && Matches(rows[i], c) && Matches(rows[j], c)
  {
    var n := |rows| - 1;
    if Find(rows[..n], c).MultipleResultsFound? {
      i, j := MultipleAreTwo(rows[..n], c);
    } else {
      FoundIsRow(rows[..n], c);
      i, j := Find(rows[..n], c).index, n;
    }
  }

  // ---------------------------------------------------------------------------------------------
  // Every reachable table
  // ---------------------------------------------------------------------------------------------

  datatype Op = AddOp(name: string, url: string, kind: string) | RemoveOp(id: nat) | ToggleOp(id: nat)

  function Run(ops: seq<Op>): Table {
    if ops == [] then Table([], 1)
    else
      var t := Run(ops[..|ops| - 1]);
      match ops[|ops| - 1]
      case AddOp(name, url, kind) => Add(t, name, url, kind)
      case RemoveOp(id) => Drop(t, id)
      case ToggleOp(id) => Toggle(t, id)
  }

  ghost predicate Unique(t: Table) {
    && (forall i :: 0 <= i < |t.rows| ==> t.rows[i].id < t.nextId)
    && (forall i, j :: 0 <= i < j < |t.rows| ==>
          t.rows[i].id != t.rows[j].id && t.rows[i].url != t.rows[j].url && t.rows[i].name != t.rows[j].name)
  }

  lemma AddKeepsUnique(t: Table, name: string, url: string, kind: string)
    requires Unique(t)
    ensures Unique(Add(t, name, url, kind))
  {
    FoundIsRow(t.rows, ByUrl(url));
    FoundIsRow(t.rows, ByName(name));
  }

  lemma DropKeepsUnique(t: Table, id: nat)
    requires Unique(t)
    ensures Unique(Drop(t, id))
  {
    if Find(t.rows, ById(id)).OneRow? {
      FoundIsRow(t.rows, ById(id));
      var at := Find(t.rows, ById(id)).index;
      var rows := Drop(t, id).rows;
      assert forall k :: 0 <= k < |rows| ==> rows[k] == if k < at then t.rows[k] else t.rows[k + 1];
    }
  }

  lemma ToggleKeepsUnique(t: Table, id: nat)
    requires Unique(t)
    ensures Unique(Toggle(t, id))
  {
  }

  /** In every reachable table ids, urls and names are distinct, so that no lookup ever raises. */
  lemma {:induction false} ReachableIsUnique(ops: seq<Op>, c: Column)
    ensures Unique(Run(ops))
    ensures !Find(Run(ops).rows, c).MultipleResultsFound?
  {
    if ops != [] {
      var n := |ops| - 1;
      ReachableIsUnique(ops[..n], c);
      var t := Run(ops[..n]);
      match ops[n] {
        case AddOp(name, url, kind) => AddKeepsUnique(t, name, url, kind);
        case RemoveOp(id) => DropKeepsUnique(t, id);
        case ToggleOp(id) => ToggleKeepsUnique(t, id);
      }
    }
    NeverMultiple(Run(ops), c);
  }

  /** An addition is refused exactly when the url, or else the name, is there. */
  lemma AddAnswers(t: Table, name: string, url: string)
    requires Unique(t)
    ensures AddAnswer(t, name, url) == DuplicateUrl <==> exists s :: s in t.rows && s.url == url
    ensures AddAnswer(t, name, url) == DuplicateName <==>
              (forall s :: s in t.rows ==> s.url != url) && exists s :: s in t.rows && s.name == name
    ensures AddAnswer(t, name, url) != AddRaised
  {
    FoundIsRow(t.rows, ByUrl(url));
    FoundIsRow(t.rows, ByName(name));
    NeverMultiple(t, ByUrl(url));
    NeverMultiple(t, ByName(name));
  }

  lemma NeverMultiple(t: Table, c: Column)
    requires Unique(t)
    ensures !Find(t.rows, c).MultipleResultsFound?
  {
    if Find(t.rows, c).MultipleResultsFound? {
      var i, j := MultipleAreTwo(t.rows, c);
    }
  }

  /** The row with the id, and its position. */
  lemma FindById(t: Table, i: nat)
    requires Unique(t) && i < |t.rows|
    ensures Find(t.rows, ById(t.rows[i].id)) == OneRow(i)
  {
    NeverMultiple(t, ById(t.rows[i].id));
    FoundIsRow(t.rows, ById(t.rows[i].id));
    var k := Find(t.rows, ById(t.rows[i].id)).index;
    assert !(k < i) && !(i < k);
  }

  /** Removing takes out the row with the id; toggling flips it; all other rows stay, in order. */
  lemma ChangesOneRow(t: Table, i: nat)
    requires Unique(t) && i < |t.rows|
    ensures var r := t.rows[i];
            && Drop(t, r.id).rows == t.rows[..i] + t.rows[i + 1..]
            && Toggle(t, r.id).rows == t.rows[..i] + [r.(active := !r.active)] + t.rows[i + 1..]
  {
    FindById(t, i);
  }

  /** Toggling twice restores the table, and removing a source just added undoes the addition. */
  lemma TogglesCancel(t: Table, id: nat)
    ensures Toggle(Toggle(t, id), id) == t
  {
    var u := Toggle(t, id);
    if Find(t.rows, ById(id)).OneRow? {
      FoundIsRow(t.rows, ById(id));
      SameIdsSameFind(t.rows, u.rows, id);
      assert Toggle(u, id).rows == t.rows;
    }
  }

  lemma {:induction false} SameIdsSameFind(a: seq<Source>, b: seq<Source>, id: nat)
    requires |a| == |b| && forall i :: 0 <= i < |a| ==> a[i].id == b[i].id
    ensures Find(a, ById(id)) == Find(b, ById(id))
  {
    if a != [] { SameIdsSameFind(a[..|a| - 1], b[..|b| - 1], id); }
  }

  lemma RemoveUndoesAdd(t: Table, name: string, url: string, kind: string)
    requires Unique(t)
    ensures AddAnswer(t, name, url) == Added.Added ==> Drop(Add(t, name, url, kind), t.nextId).rows == t.rows
  {
    if AddAnswer(t, name, url) == Added.Added {
      var u := Add(t, name, url, kind);
      FoundIsRow(t.rows, ById(t.nextId));
      assert u.rows[..|t.rows|] == t.rows;
    }
  }

  // ---------------------------------------------------------------------------------------------
  // Scraping all of them
  // ---------------------------------------------------------------------------------------------

  const TELEGRAM := "telegram"
  const SUBSCRIPTION := "subscription"

  /** What scraping one source gives; the exception may come from anywhere in the try block before
      the result is stored. */
  datatype Scraped = Configs(configs: seq<string>) | ScrapeRaised

  predicate IsKnown(kind: string) {
    kind == TELEGRAM || kind == SUBSCRIPTION
  }

  function ConfigsOf(s: Scraped): seq<string> {
    match s
    case Configs(c) => c
    case ScrapeRaised => []
  }

  /** The result map, source by source. */
  function Results(sources: seq<Source>, scraped: nat -> Scraped): map<string, seq<string>> {
    if sources == [] then map[]
    else
      var n := |sources| - 1;
      var before := Results(sources[..n], scraped);
      if IsKnown(sources[n].kind) then before[sources[n].name := ConfigsOf(scraped(n))] else before
  }

  function Total(sources: seq<Source>, scraped: nat -> Scraped): nat {
    if sources == [] then 0
    else
      var n := |sources| - 1;
      Total(sources[..n], scraped) + (if IsKnown(sources[n].kind) then |ConfigsOf(scraped(n))| else 0)
  }

  /** scrape_all on the rows of the table; `scraped(i)` is what source i gives. */
  method ScrapeAll(sources: seq<Source>, scraped: nat -> Scraped)
    returns (results: map<string, seq<string>>, total: nat)
    ensures results == Results(sources, scraped) && total == Total(sources, scraped)
  {
    results, total := map[], 0;
    for i := 0 to |sources|
      invariant results == Results(sources[..i], scraped) && total == Total(sources[..i], scraped)
    {
      assert sources[..i + 1][..i] == sources[..i];
      if IsKnown(sources[i].kind) {
        match scraped(i) {
          case Configs(configs) =>
            results := results[sources[i].name := configs];
            total := total + |configs|;
          case ScrapeRaised =>
            results := results[sources[i].name := []];
        }
      }
    }
    assert sources[..|sources|] == sources;
  }

  ghost predicate DistinctNames(sources: seq<Source>) {
    forall i, j :: 0 <= i < j < |sources| ==> sources[i].name != sources[j].name
  }

  /** The lengths of the map's values, by the sources that have one. */
  function TotalLength(sources: seq<Source>, results: map<string, seq<string>>): nat {
    if sources == [] then 0
    else
      var last := sources[|sources| - 1];
      TotalLength(sources[..|sources| - 1], results) + (if last.name in results then |results[last.name]| else 0)
  }

  lemma {:induction false} ResultNames(sources: seq<Source>, scraped: nat -> Scraped, name: string)
    ensures name in Results(sources, scraped) <==>
              exists i :: 0 <= i < |sources| && sources[i].name == name && IsKnown(sources[i].kind)
  {
    if sources != [] { ResultNames(sources[..|sources| - 1], scraped, name); }
  }

  /** No source's result is overwritten: each known source finds its own under its name. */
  lemma {:induction false} NothingOverwritten(sources: seq<Source>, scraped: nat -> Scraped, i: nat)
    requires DistinctNames(sources) && i < |sources|
    ensures var results := Results(sources, scraped);
            if IsKnown(sources[i].kind) then
              sources[i].name in results && results[sources[i].name] == ConfigsOf(scraped(i))
            else sources[i].name !in results
  {
    var n := |sources| - 1;
    ResultNames(sources, scraped, sources[i].name);
    if i < n { NothingOverwritten(sources[..n], scraped, i); }
  }

  lemma {:induction false} OtherNames(sources: seq<Source>, results: map<string, seq<string>>,
                                      name: string, configs: seq<string>)
    requires forall i :: 0 <= i < |sources| ==> sources[i].name != name
    ensures TotalLength(sources, results[name := configs]) == TotalLength(sources, results)
  {
    if sources != [] { OtherNames(sources[..|sources| - 1], results, name, configs); }
  }

  /** The reported total is the sum of the lengths in the returned map. */
  lemma {:induction false} TotalIsSum(sources: seq<Source>, scraped: nat -> Scraped)
    requires DistinctNames(sources)
    ensures Total(sources, scraped) == TotalLength(sources, Results(sources, scraped))
  {
    if sources != [] {
      var n := |sources| - 1;
      TotalIsSum(sources[..n], scraped);
      NothingOverwritten(sources, scraped, n);
      OtherNames(sources[..n], Results(sources[..n], scraped), sources[n].name, ConfigsOf(scraped(n)));
    }
  }

  /** Rows selected from the table, like the active ones; the order is the query's. */
  ghost predicate SelectedFrom(rows: seq<Source>, selected: seq<Source>) {
    && (forall s :: s in selected ==> s in rows)
    && (forall i, j :: 0 <= i < j < |selected| ==> selected[i].id != selected[j].id)
  }

  /** So scraping what any reachable table holds keeps every result and counts right. */
  lemma ReachableScrape(ops: seq<Op>, selected: seq<Source>, scraped: nat -> Scraped, i: nat)
    requires SelectedFrom(Run(ops).rows, selected) && i < |selected|
    ensures var results := Results(selected, scraped);
            && Total(selected, scraped) == TotalLength(selected, results)
            && if IsKnown(selected[i].kind) then
                 selected[i].name in results && results[selected[i].name] == ConfigsOf(scraped(i))
               else selected[i].name !in results
  {
    var rows := Run(ops).rows;
    ReachableIsUnique(ops, ById(0));
    forall j, k | 0 <= j < k < |selected| ensures selected[j].name != selected[k].name {
      assert selected[j] in selected && selected[k] in selected;
      var a :| 0 <= a < |rows| && rows[a] == selected[j];
      var b :| 0 <= b < |rows| && rows[b] == selected[k];
      assert rows[a].id != rows[b].id;
    }
    TotalIsSum(selected, scraped);
    NothingOverwritten(selected, scraped, i);
  }
}
