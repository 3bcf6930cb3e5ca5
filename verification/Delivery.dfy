/** From the table to the workers: a run of jobs whose completed puts are those of the worker pool.

    Which row a message carries follows from its place among the items put (Pipeline.Carries), and
    which worker took it from its place among the messages taken (Broadcaster.DealtTo). */
module Delivery {
  import Broadcaster
  import opened Pipeline
  import opened PublishQueue

  // ---------------------------------------------------------------------------------------------
  // Places in the put sequence
  // ---------------------------------------------------------------------------------------------

  /** The items among the messages. */
  function Items(messages: seq<Message>): seq<Item> {
    if messages == [] then []
    else
      var n := |messages| - 1;
      Items(messages[..n]) + (if messages[n].Publish? then [messages[n].item] else [])
  }

  lemma {:induction false} ItemsPrefix(messages: seq<Message>, k: nat)
    requires k <= |messages|
    ensures Items(messages[..k]) <= Items(messages)
  {
    if k < |messages| {
      var n := |messages| - 1;
      ItemsPrefix(messages[..n], k);
      assert messages[..n][..k] == messages[..k];
    } else {
      assert messages[..k] == messages;
    }
  }

  /** Message k is the item with this number. */
  lemma ItemAt(messages: seq<Message>, k: nat)
    requires k < |messages| && messages[k].Publish?
    ensures |Items(messages[..k])| < |Items(messages)|
    ensures Items(messages)[|Items(messages[..k])|] == messages[k].item
  {
    assert messages[..k + 1][..k] == messages[..k];
    ItemsPrefix(messages, k + 1);
  }

  lemma ItemNumbersGrow(messages: seq<Message>, k: nat, l: nat)
    requires k < l < |messages| && messages[k].Publish?
    ensures |Items(messages[..k])| < |Items(messages[..l])|
  {
    assert messages[..l][..k] == messages[..k];
    ItemAt(messages[..l], k);
  }

  lemma {:induction false} ItemSource(messages: seq<Message>, m: nat) returns (k: nat)
    requires m < |Items(messages)|
    ensures k < |messages| && messages[k].Publish? && |Items(messages[..k])| == m
  {
    var n := |messages| - 1;
    if m < |Items(messages[..n])| {
      k := ItemSource(messages[..n], m);
      assert messages[..n][..k] == messages[..k];
    } else {
      k := n;
    }
  }

  // ---------------------------------------------------------------------------------------------
  // Places in the logs
  // ---------------------------------------------------------------------------------------------

  function Tally(owners: seq<nat>, i: nat): nat {
    if owners == [] then 0
    else Tally(owners[..|owners| - 1], i) + (if owners[|owners| - 1] == i then 1 else 0)
  }

  /** Where owner i got its a-th message. */
  function Position(owners: seq<nat>, i: nat, a: nat): (k: nat)
    requires a < Tally(owners, i)
    ensures k < |owners|
  {
    var n := |owners| - 1;
    if a < Tally(owners[..n], i) then Position(owners[..n], i, a) else n
  }

  lemma {:induction false} PositionIs(owners: seq<nat>, i: nat, a: nat)
    requires a < Tally(owners, i)
    ensures var k := Position(owners, i, a); owners[k] == i && Tally(owners[..k], i) == a
  {
    var n := |owners| - 1;
    if a < Tally(owners[..n], i) {
      PositionIs(owners[..n], i, a);
      var k := Position(owners[..n], i, a);
      assert owners[..n][..k] == owners[..k];
    }
  }

  lemma {:induction false} TallyGrows(owners: seq<nat>, i: nat, k: nat)
    requires k < |owners| && owners[k] == i
    ensures Tally(owners[..k], i) < Tally(owners, i)
    ensures Position(owners, i, Tally(owners[..k], i)) == k
  {
    var n := |owners| - 1;
    if k < n {
      TallyGrows(owners[..n], i, k);
      assert owners[..n][..k] == owners[..k];
    }
  }

  lemma DifferentPlaces(owners: seq<nat>, i: nat, a: nat, j: nat, b: nat)
    requires a < Tally(owners, i) && b < Tally(owners, j) && (i != j || a != b)
    ensures Position(owners, i, a) != Position(owners, j, b)
  {
    PositionIs(owners, i, a);
    PositionIs(owners, j, b);
  }

  lemma {:induction false} ShareAt(messages: seq<Message>, owners: seq<nat>, i: nat, a: nat)
    requires |owners| <= |messages|
    ensures |Broadcaster.Share(messages, owners, i)| == Tally(owners, i)
    ensures a < Tally(owners, i) ==>
              Broadcaster.Share(messages, owners, i)[a] == messages[Position(owners, i, a)]
  {
    if owners != [] {
      ShareAt(messages, owners[..|owners| - 1], i, a);
    }
  }

  // ---------------------------------------------------------------------------------------------
  // Which row a worker took
  // ---------------------------------------------------------------------------------------------

  /** Worker i took an item as its a-th message. */
  predicate TookItem(workers: seq<Broadcaster.Worker>, i: nat, a: nat) {
    i < |workers| && a < |workers[i].log| && workers[i].log[a].Publish?
  }

  function RowAt(puts: seq<Message>, owners: seq<nat>, from: seq<nat>, i: nat, a: nat): nat
    requires |owners| <= |puts|
  {
    if a >= Tally(owners, i) then 0
    else
      var m := |Items(puts[..Position(owners, i, a)])|;
      if m < |from| then from[m] else 0
  }

  /** The a-th message of worker i is the item with this number. */
  lemma TookAt(p: Broadcaster.Pool, puts: seq<Message>, owners: seq<nat>, i: nat, a: nat) returns (k: nat)
    requires Broadcaster.DealtTo(p, puts, owners) && TookItem(p.workers, i, a)
    ensures a < Tally(owners, i) && k == Position(owners, i, a)
    ensures puts[k].Publish? && p.workers[i].log[a] == puts[k]
    ensures |Items(puts[..k])| < |Items(puts)| && Items(puts)[|Items(puts[..k])|] == puts[k].item
  {
    ShareAt(puts, owners, i, a);
    k := Position(owners, i, a);
    ItemAt(puts, k);
  }

  /** The row that row[i][a] names carries what worker i took as its a-th message. */
  ghost predicate CarriedTo(old0: nat, rows: seq<Row>, workers: seq<Broadcaster.Worker>, row: seq<seq<nat>>) {
    && |row| == |workers| && (forall i :: 0 <= i < |row| ==> |row[i]| == |workers[i].log|)
    && forall i: nat, a: nat :: TookItem(workers, i, a) ==>
         && old0 <= row[i][a] < |rows|
         && workers[i].log[a].item == Item(rows[row[i][a]].entry.marked, rows[row[i][a]].entry.country)
  }

  /** No two messages taken by the workers carry rows with one hash. */
  ghost predicate HashesApart(old0: nat, rows: seq<Row>, workers: seq<Broadcaster.Worker>, row: seq<seq<nat>>)
    requires CarriedTo(old0, rows, workers, row)
  {
    forall i: nat, a: nat, j: nat, b: nat ::
      TookItem(workers, i, a) && TookItem(workers, j, b) && (i != j || a != b) ==>
        rows[row[i][a]].entry.hash != rows[row[j][b]].entry.hash
  }

  lemma RowsTaken(old0: nat, rows: seq<Row>, published: seq<Item>, from: seq<nat>,
                  p: Broadcaster.Pool, puts: seq<Message>, owners: seq<nat>, i: nat, a: nat)
    requires Carries(old0, rows, published, from) && Items(puts) <= published
    requires Broadcaster.DealtTo(p, puts, owners) && TookItem(p.workers, i, a)
    ensures var r := RowAt(puts, owners, from, i, a);
            && old0 <= r < |rows|
            && p.workers[i].log[a].item == Item(rows[r].entry.marked, rows[r].entry.country)
  {
    var k := TookAt(p, puts, owners, i, a);
  }

  lemma RowsApart(old0: nat, rows: seq<Row>, published: seq<Item>, from: seq<nat>,
                  p: Broadcaster.Pool, puts: seq<Message>, owners: seq<nat>, i: nat, a: nat, j: nat, b: nat)
    requires Carries(old0, rows, published, from) && Items(puts) <= published
    requires Broadcaster.DealtTo(p, puts, owners) && TookItem(p.workers, i, a) && TookItem(p.workers, j, b)
    requires i != j || a != b
    ensures RowAt(puts, owners, from, i, a) != RowAt(puts, owners, from, j, b)
  {
    var k := TookAt(p, puts, owners, i, a);
    var l := TookAt(p, puts, owners, j, b);
    DifferentPlaces(owners, i, a, j, b);
    if k < l { ItemNumbersGrow(puts, k, l); } else { ItemNumbersGrow(puts, l, k); }
  }

  function RowTable(workers: seq<Broadcaster.Worker>, puts: seq<Message>, owners: seq<nat>, from: seq<nat>)
    : (row: seq<seq<nat>>)
    requires |owners| <= |puts|
    ensures |row| == |workers|
    ensures forall i :: 0 <= i < |row| ==> |row[i]| == |workers[i].log|
    ensures forall i: nat, a: nat :: i < |row| && a < |row[i]| ==> row[i][a] == RowAt(puts, owners, from, i, a)
  {
    seq(|workers|, i requires 0 <= i < |workers| =>
      seq(|workers[i].log|, a requires 0 <= a < |workers[i].log| => RowAt(puts, owners, from, i, a)))
  }

  lemma TableCarries(old0: nat, rows: seq<Row>, published: seq<Item>, from: seq<nat>,
                     p: Broadcaster.Pool, puts: seq<Message>, owners: seq<nat>)
    requires Carries(old0, rows, published, from) && Items(puts) <= published && DistinctRows(rows)
    requires Broadcaster.DealtTo(p, puts, owners)
    ensures CarriedTo(old0, rows, p.workers, RowTable(p.workers, puts, owners, from))
    ensures HashesApart(old0, rows, p.workers, RowTable(p.workers, puts, owners, from))
  {
    var row := RowTable(p.workers, puts, owners, from);
    forall i: nat, a: nat | TookItem(p.workers, i, a)
      ensures old0 <= row[i][a] < |rows|
      ensures p.workers[i].log[a].item == Item(rows[row[i][a]].entry.marked, rows[row[i][a]].entry.country)
    {
      RowsTaken(old0, rows, published, from, p, puts, owners, i, a);
    }
    assert CarriedTo(old0, rows, p.workers, row);
    forall i: nat, a: nat, j: nat, b: nat
      | TookItem(p.workers, i, a) && TookItem(p.workers, j, b) && (i != j || a != b)
      ensures rows[row[i][a]].entry.hash != rows[row[j][b]].entry.hash
    {
      RowsApart(old0, rows, published, from, p, puts, owners, i, a, j, b);
      Distinct(rows, row[i][a], row[j][b]);
    }
  }

  lemma Distinct(rows: seq<Row>, r: nat, s: nat)
    requires DistinctRows(rows) && r < |rows| && s < |rows| && r != s
    ensures rows[r].entry.hash != rows[s].entry.hash
  {
    var first, last := if r < s then r else s, if r < s then s else r;
    assert rows[first].entry.hash != rows[last].entry.hash;
  }

  /** Whatever fails in the jobs and however the workers move: each item a worker takes carries a row the
      run stored, and no hash is ever taken twice, by one worker or by two. */
  lemma NoHashIsTakenTwice(p: Params, rows: seq<Row>, events: seq<Event>,
                           maxsize: int, moves: seq<Broadcaster.Event>)
    returns (row: seq<seq<nat>>)
    requires HashAgrees(p) && DistinctRows(rows)
    requires Items(Broadcaster.Puts(maxsize, moves)) <= Run(p, Fresh0(rows), events).published
    ensures CarriedTo(|rows|, Run(p, Fresh0(rows), events).rows, Broadcaster.Run(maxsize, moves).workers, row)
    ensures HashesApart(|rows|, Run(p, Fresh0(rows), events).rows, Broadcaster.Run(maxsize, moves).workers, row)
  {
    var w := Run(p, Fresh0(rows), events);
    var pool, puts := Broadcaster.Run(maxsize, moves), Broadcaster.Puts(maxsize, moves);
    var from := PublishedAreStoredOnce(p, rows, events);
    var owners := Broadcaster.EveryTakenHasOneOwner(maxsize, moves);
    StoredStayDistinct(p, Fresh0(rows), events);
    TableCarries(|rows|, w.rows, w.published, from, pool, puts, owners);
    row := RowTable(pool.workers, puts, owners, from);
  }

  // ---------------------------------------------------------------------------------------------
  // Nothing is left behind
  // ---------------------------------------------------------------------------------------------

  ghost predicate Within(s: seq<nat>, low: nat, high: nat) {
    Increasing(s) && forall k :: 0 <= k < |s| ==> low <= s[k] < high
  }

  lemma {:induction false} FromBelow(s: seq<nat>, low: nat, high: nat, k: nat)
    requires Within(s, low, high) && k < |s|
    ensures low + k <= s[k]
  {
    if k > 0 { FromBelow(s, low, high, k - 1); }
  }

  lemma {:induction false} FromAbove(s: seq<nat>, low: nat, high: nat, k: nat)
    requires Within(s, low, high) && k < |s|
    ensures s[k] + (|s| - k) <= high
    decreases |s| - k
  {
    if k + 1 < |s| { FromAbove(s, low, high, k + 1); }
  }

  /** As many increasing numbers as there is room for are all the numbers. */
  lemma Fills(s: seq<nat>, low: nat, high: nat, k: nat)
    requires Within(s, low, high) && k < |s| && |s| == high - low
    ensures s[k] == low + k
  {
    FromBelow(s, low, high, k);
    FromAbove(s, low, high, k);
  }

  lemma TakenAt(p: Broadcaster.Pool, puts: seq<Message>, owners: seq<nat>, from: seq<nat>, k: nat)
    returns (i: nat, a: nat)
    requires Broadcaster.DealtTo(p, puts, owners) && p.queue.items == []
    requires k < |puts| && puts[k].Publish? && |Items(puts[..k])| < |from|
    ensures TookItem(p.workers, i, a) && RowAt(puts, owners, from, i, a) == from[|Items(puts[..k])|]
  {
    assert |puts[|owners|..]| == |puts| - |owners|;
    i, a := owners[k], Tally(owners[..k], owners[k]);
    TallyGrows(owners, i, k);
    ShareAt(puts, owners, i, a);
    assert i in owners;
  }

  /** Some worker took row r. */
  ghost predicate IsTaken(workers: seq<Broadcaster.Worker>, row: seq<seq<nat>>, r: nat)
    requires |row| == |workers| && forall i :: 0 <= i < |row| ==> |row[i]| == |workers[i].log|
  {
    exists i: nat, a: nat :: TookItem(workers, i, a) && row[i][a] == r
  }

  lemma RowIsTaken(old0: nat, rows: seq<Row>, published: seq<Item>, from: seq<nat>,
                   p: Broadcaster.Pool, puts: seq<Message>, owners: seq<nat>, r: nat)
    requires Carries(old0, rows, published, from) && |from| == |rows| - old0 && Items(puts) == published
    requires Broadcaster.DealtTo(p, puts, owners) && p.queue.items == []
    requires old0 <= r < |rows|
    ensures IsTaken(p.workers, RowTable(p.workers, puts, owners, from), r)
  {
    Fills(from, old0, |rows|, r - old0);
    var k := ItemSource(puts, r - old0);
    var i, a := TakenAt(p, puts, owners, from, k);
    assert RowTable(p.workers, puts, owners, from)[i][a] == r;
  }

  /** When nothing goes wrong and the queue has run empty, the workers have taken every row that the run
      stored, each exactly once. */
  lemma EveryRowIsTakenOnce(p: Params, rows: seq<Row>, events: seq<Event>,
                            maxsize: int, moves: seq<Broadcaster.Event>)
    returns (row: seq<seq<nat>>)
    requires HashAgrees(p) && DistinctRows(rows) && UndisturbedRun(p, Fresh0(rows), events)
    requires Items(Broadcaster.Puts(maxsize, moves)) == Run(p, Fresh0(rows), events).published
    requires Broadcaster.Run(maxsize, moves).queue.items == []
    ensures var all, workers := Run(p, Fresh0(rows), events).rows, Broadcaster.Run(maxsize, moves).workers;
            && CarriedTo(|rows|, all, workers, row) && HashesApart(|rows|, all, workers, row)
            && forall r: nat :: |rows| <= r < |all| ==> IsTaken(workers, row, r)
  {
    var w := Run(p, Fresh0(rows), events);
    var pool, puts := Broadcaster.Run(maxsize, moves), Broadcaster.Puts(maxsize, moves);
    var from := PublishedAreStoredOnce(p, rows, events);
    var owners := Broadcaster.EveryTakenHasOneOwner(maxsize, moves);
    StoredStayDistinct(p, Fresh0(rows), events);
    TableCarries(|rows|, w.rows, w.published, from, pool, puts, owners);
    row := RowTable(pool.workers, puts, owners, from);
    AllStoredArePublished(p, rows, events);
    forall r: nat | |rows| <= r < |w.rows| ensures IsTaken(pool.workers, row, r) {
      RowIsTaken(|rows|, w.rows, w.published, from, pool, puts, owners, r);
    }
  }
}
