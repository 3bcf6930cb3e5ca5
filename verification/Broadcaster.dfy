/** The pool of publishing workers (publisher/broadcaster.py, worker, _start_workers, stop).

    One step is one worker going from one await to the next, one put that completes, one cancellation
    (or crash) of a worker, or one start of a pool; a pool may be started again at any time.  An action
    that is not possible is passed over, so every list of timed actions is a run. */
module Broadcaster {
  import opened PublishQueue

  const CONCURRENCY: nat := 3
  const DELAY := 2.2

  /** Where a worker is.  Abandoned is a worker cancelled while it held an item; Broken would be one
      that task_done threw out. */
  datatype Phase = Ready | Sending(item: Item) | Resting | Left | Cancelled | Abandoned(item: Item) | Broken

  /** `log` is what the worker took from the queue, `takes` when; `since` is when it last fell asleep. */
  datatype Worker = Worker(phase: Phase, log: seq<Message>, takes: seq<real>, since: real)

  datatype Action = Put(m: Message) | Take(w: nat) | Delivered(w: nat) | Wake(w: nat) | Cancel(w: nat) | Start

  datatype Event = Event(at: real, action: Action)

  datatype Pool = Pool(queue: Queue, workers: seq<Worker>)

  /** One worker and the queue, after a step of that worker. */
  datatype Turn = Turn(queue: Queue, worker: Worker)

  function Idle(): Worker {
    Worker(Ready, [], [], 0.0)
  }

  /** One get_item; on the stop signal the worker marks it done and leaves. */
  function TakeOne(q: Queue, w: Worker, at: real): Turn
    requires q.items != []
  {
    var m := q.items[0];
    var rest := q.(items := q.items[1..]);
    var logged := w.(log := w.log + [m], takes := w.takes + [at]);
    match m
    case Publish(item) => Turn(rest, logged.(phase := Sending(item)))
    case Stop =>
      match Done(rest)
      case ValueError => Turn(rest, logged.(phase := Broken))
      case Marked(q2) => Turn(q2, logged.(phase := Left))
  }

  /** send_message returned; the worker marks the item done and goes to sleep. */
  function DeliverOne(q: Queue, w: Worker, at: real): Turn {
    match Done(q)
    case ValueError => Turn(q, w.(phase := Broken))
    case Marked(q2) => Turn(q2, w.(phase := Resting, since := at))
  }

  function CancelOne(w: Worker): Worker {
    match w.phase
    case Sending(item) => w.(phase := Abandoned(item))
    case Ready => w.(phase := Cancelled)
    case Resting => w.(phase := Cancelled)
    case _ => w
  }

  predicate MoveIsPossible(q: Queue, w: Worker, e: Event) {
    match e.action
    case Take(_) => w.phase.Ready? && q.items != []
    case Delivered(_) => w.phase.Sending?
    case Wake(_) => w.phase.Resting? && w.since + DELAY <= e.at
    case Cancel(_) => true
    case _ => false
  }

  function Move(q: Queue, w: Worker, e: Event): Turn
    requires MoveIsPossible(q, w, e)
  {
    match e.action
    case Take(_) => TakeOne(q, w, e.at)
    case Delivered(_) => DeliverOne(q, w, e.at)
    case Wake(_) => Turn(q, w.(phase := Ready))
    case Cancel(_) => Turn(q, CancelOne(w))
  }

  predicate Possible(p: Pool, e: Event) {
    match e.action
    case Put(_) => !Full(p.queue)
    case Start => true
    case _ => e.action.w < |p.workers| && MoveIsPossible(p.queue, p.workers[e.action.w], e)
  }

  function Apply(p: Pool, e: Event): Pool
    requires Possible(p, e)
  {
    match e.action
    case Put(m) => p.(queue := Added(p.queue, m))
    case Start => p.(workers := p.workers + seq(CONCURRENCY, _ => Idle()))
    case _ =>
      var i := e.action.w;
      var r := Move(p.queue, p.workers[i], e);
      Pool(r.queue, p.workers[i := r.worker])
  }

  function Step(p: Pool, e: Event): Pool {
    if Possible(p, e) then Apply(p, e) else p
  }

  function Run(maxsize: int, events: seq<Event>): Pool {
    if events == [] then Pool(Queue([], 0, maxsize), [])
    else Step(Run(maxsize, events[..|events| - 1]), events[|events| - 1])
  }

  /** The messages whose put completed, in order. */
  function Puts(maxsize: int, events: seq<Event>): seq<Message> {
    if events == [] then []
    else
      var n := |events| - 1;
      var before := Puts(maxsize, events[..n]);
      if events[n].action.Put? && Possible(Run(maxsize, events[..n]), events[n]) then before + [events[n].action.m]
      else before
  }

  // ---------------------------------------------------------------------------------------------
  // The source's own form: a worker object on the shared queue
  // ---------------------------------------------------------------------------------------------

  class PublishWorker {
    var phase: Phase
    ghost var log: seq<Message>
    ghost var takes: seq<real>
    var since: real

    constructor ()
      ensures State() == Idle()
    {
      phase, since := Ready, 0.0;
      log, takes := [], [];
    }

    ghost function State(): Worker
      reads this
    {
      Worker(phase, log, takes, since)
    }

    /** From waking up in get_item to the next await. */
    method TakeItem(queue: PublishQueue, at: real)
      requires phase.Ready? && queue.queue != []
      modifies this, queue
      ensures Turn(queue.State(), State()) == TakeOne(old(queue.State()), old(State()), at)
    {
      var got := queue.GetItem();
      log, takes := log + [got.message], takes + [at];
      match got.message {
        case Publish(item) => phase := Sending(item);
        case Stop =>
          var ok := queue.TaskDone();
          phase := if ok then Left else Broken;
      }
    }

    /** From the return of send_message to the sleep. */
    method MarkDone(queue: PublishQueue, at: real)
      requires phase.Sending?
      modifies this, queue
      ensures Turn(queue.State(), State()) == DeliverOne(old(queue.State()), old(State()), at)
    {
      var ok := queue.TaskDone();
      if ok {
        phase, since := Resting, at;
      } else {
        phase := Broken;
      }
    }
  }

  // ---------------------------------------------------------------------------------------------
  // Backpressure
  // ---------------------------------------------------------------------------------------------

  lemma {:induction false} LengthIsBounded(maxsize: int, events: seq<Event>)
    ensures Run(maxsize, events).queue.maxsize == maxsize
    ensures maxsize > 0 ==> |Run(maxsize, events).queue.items| <= maxsize
  {
    if events != [] { LengthIsBounded(maxsize, events[..|events| - 1]); }
  }

  // ---------------------------------------------------------------------------------------------
  // Who got what
  // ---------------------------------------------------------------------------------------------

  /** The messages that owner `i` got. */
  function Share(messages: seq<Message>, owners: seq<nat>, i: nat): seq<Message>
    requires |owners| <= |messages|
  {
    if owners == [] then []
    else
      var n := |owners| - 1;
      Share(messages, owners[..n], i) + (if owners[n] == i then [messages[n]] else [])
  }

  lemma {:induction false} ShareIgnoresLater(messages: seq<Message>, more: seq<Message>, owners: seq<nat>, i: nat)
    requires |owners| <= |messages|
    ensures Share(messages + more, owners, i) == Share(messages, owners, i)
  {
    if owners != [] { ShareIgnoresLater(messages, more, owners[..|owners| - 1], i); }
  }

  lemma {:induction false} ShareOfStranger(messages: seq<Message>, owners: seq<nat>, i: nat)
    requires |owners| <= |messages| && i !in owners
    ensures Share(messages, owners, i) == []
  {
    if owners != [] { ShareOfStranger(messages, owners[..|owners| - 1], i); }
  }

  /** The put sequence is the taken one followed by the queue, and `owners` deals the taken ones out:
      each to exactly one worker, in order. */
  ghost predicate DealtTo(p: Pool, puts: seq<Message>, owners: seq<nat>) {
    && |owners| <= |puts| && puts[|owners|..] == p.queue.items
    && (forall o :: o in owners ==> o < |p.workers|)
    && forall i: nat :: i < |p.workers| ==> p.workers[i].log == Share(puts, owners, i)
  }

  lemma DealPut(p: Pool, puts: seq<Message>, owners: seq<nat>, m: Message)
    requires DealtTo(p, puts, owners)
    ensures DealtTo(p.(queue := Added(p.queue, m)), puts + [m], owners)
  {
    assert (puts + [m])[|owners|..] == puts[|owners|..] + [m];
    forall i: nat | i < |p.workers| ensures p.workers[i].log == Share(puts + [m], owners, i) {
      ShareIgnoresLater(puts, [m], owners, i);
    }
  }

  lemma DealTake(p: Pool, puts: seq<Message>, owners: seq<nat>, q: Queue, i: nat, taker: Worker)
    requires DealtTo(p, puts, owners) && i < |p.workers| && p.queue.items != []
    requires q.items == p.queue.items[1..] && taker.log == p.workers[i].log + [p.queue.items[0]]
    ensures DealtTo(Pool(q, p.workers[i := taker]), puts, owners + [i])
  {
    var longer := owners + [i];
    assert longer[..|owners|] == owners;
    assert puts[|longer|..] == puts[|owners|..][1..];
    assert puts[|owners|] == puts[|owners|..][0];
  }

  lemma DealStart(p: Pool, puts: seq<Message>, owners: seq<nat>)
    requires DealtTo(p, puts, owners)
    ensures DealtTo(p.(workers := p.workers + seq(CONCURRENCY, _ => Idle())), puts, owners)
  {
    var all := p.workers + seq(CONCURRENCY, _ => Idle());
    forall i: nat | i < |all| ensures all[i].log == Share(puts, owners, i) {
      if i >= |p.workers| { ShareOfStranger(puts, owners, i); }
    }
  }

  lemma DealStep(p: Pool, e: Event, puts: seq<Message>, owners: seq<nat>) returns (longer: seq<nat>)
    requires DealtTo(p, puts, owners) && Possible(p, e)
    ensures DealtTo(Apply(p, e), if e.action.Put? then puts + [e.action.m] else puts, longer)
  {
    longer := owners;
    match e.action {
      case Put(m) => DealPut(p, puts, owners, m);
      case Start => DealStart(p, puts, owners);
      case Take(i) =>
        var r := TakeOne(p.queue, p.workers[i], e.at);
        DealTake(p, puts, owners, r.queue, i, r.worker);
        longer := owners + [i];
      case _ => DealOther(p, e, puts, owners, e.action.w);
    }
  }

  lemma DealOther(p: Pool, e: Event, puts: seq<Message>, owners: seq<nat>, i: nat)
    requires DealtTo(p, puts, owners) && i < |p.workers|
    requires MoveIsPossible(p.queue, p.workers[i], e) && !e.action.Take?
    ensures var r := Move(p.queue, p.workers[i], e); DealtTo(Pool(r.queue, p.workers[i := r.worker]), puts, owners)
  {
  }

  /** First in, first out, nothing lost, nothing taken twice - in every run. */
  lemma {:induction false} EveryTakenHasOneOwner(maxsize: int, events: seq<Event>) returns (owners: seq<nat>)
    ensures DealtTo(Run(maxsize, events), Puts(maxsize, events), owners)
  {
    if events == [] {
      owners := [];
    } else {
      var n := |events| - 1;
      owners := EveryTakenHasOneOwner(maxsize, events[..n]);
      var p := Run(maxsize, events[..n]);
      if Possible(p, events[n]) { owners := DealStep(p, events[n], Puts(maxsize, events[..n]), owners); }
    }
  }

  // ---------------------------------------------------------------------------------------------
  // The unfinished counter
  // ---------------------------------------------------------------------------------------------

  function Count(workers: seq<Worker>, what: Phase -> bool): nat {
    if workers == [] then 0
    else Count(workers[..|workers| - 1], what) + (if what(workers[|workers| - 1].phase) then 1 else 0)
  }

  lemma {:induction false} CountUpdate(workers: seq<Worker>, i: nat, w: Worker, what: Phase -> bool)
    requires i < |workers|
    ensures Count(workers[i := w], what)
         == Count(workers, what) - (if what(workers[i].phase) then 1 else 0) + (if what(w.phase) then 1 else 0)
  {
    var n := |workers| - 1;
    if i < n {
      CountUpdate(workers[..n], i, w, what);
      assert workers[i := w][..n] == workers[..n][i := w];
    } else {
      assert workers[i := w][..n] == workers[..n];
    }
  }

  lemma {:induction false} CountMore(workers: seq<Worker>, more: seq<Worker>, what: Phase -> bool)
    ensures Count(workers + more, what) == Count(workers, what) + Count(more, what)
  {
    if more == [] {
      assert workers + more == workers;
    } else {
      var n := |more| - 1;
      CountMore(workers, more[..n], what);
      assert (workers + more)[..|workers| + n] == workers + more[..n];
    }
  }

  lemma {:induction false} CountNone(workers: seq<Worker>, what: Phase -> bool)
    requires forall i :: 0 <= i < |workers| ==> !what(workers[i].phase)
    ensures Count(workers, what) == 0
  {
    if workers != [] { CountNone(workers[..|workers| - 1], what); }
  }

  lemma {:induction false} CountSome(workers: seq<Worker>, what: Phase -> bool, i: nat)
    requires i < |workers| && what(workers[i].phase)
    ensures Count(workers, what) >= 1
  {
    var n := |workers| - 1;
    if i < n { CountSome(workers[..n], what, i); }
  }

  /** Has an item that it has not marked done. */
  predicate Holds(ph: Phase) {
    ph.Sending? || ph.Abandoned?
  }

  predicate HasLeft(ph: Phase) {
    ph.Left?
  }

  predicate IsBroken(ph: Phase) {
    ph.Broken?
  }

  ghost predicate Balanced(p: Pool) {
    && p.queue.unfinished == |p.queue.items| + Count(p.workers, Holds)
    && Count(p.workers, IsBroken) == 0
  }

  lemma NewWorkersCount(workers: seq<Worker>, what: Phase -> bool)
    requires !what(Ready)
    ensures Count(workers + seq(CONCURRENCY, _ => Idle()), what) == Count(workers, what)
  {
    CountMore(workers, seq(CONCURRENCY, _ => Idle()), what);
    CountNone(seq(CONCURRENCY, _ => Idle()), what);
  }

  function One(b: bool): nat {
    if b then 1 else 0
  }

  lemma MoveKeepsBalance(q: Queue, w: Worker, e: Event)
    requires MoveIsPossible(q, w, e) && q.unfinished >= |q.items| + One(Holds(w.phase))
    ensures var r := Move(q, w, e);
            && r.queue.unfinished - |r.queue.items| - One(Holds(r.worker.phase))
            == q.unfinished - |q.items| - One(Holds(w.phase))
            && (r.worker.phase.Broken? ==> w.phase.Broken?)
  {
  }

  lemma BalancedMove(p: Pool, e: Event, i: nat)
    requires Balanced(p) && i < |p.workers| && MoveIsPossible(p.queue, p.workers[i], e)
    ensures var r := Move(p.queue, p.workers[i], e);
            !r.worker.phase.Broken? && Balanced(Pool(r.queue, p.workers[i := r.worker]))
  {
    if Holds(p.workers[i].phase) { CountSome(p.workers, Holds, i); }
    if IsBroken(p.workers[i].phase) { CountSome(p.workers, IsBroken, i); }
    MoveKeepsBalance(p.queue, p.workers[i], e);
    var r := Move(p.queue, p.workers[i], e);
    CountUpdate(p.workers, i, r.worker, Holds);
    CountUpdate(p.workers, i, r.worker, IsBroken);
  }

  lemma BalancedStep(p: Pool, e: Event)
    requires Balanced(p) && Possible(p, e)
    ensures Balanced(Apply(p, e))
  {
    match e.action {
      case Put(_) =>
      case Start =>
        NewWorkersCount(p.workers, Holds);
        NewWorkersCount(p.workers, IsBroken);
      case _ => BalancedMove(p, e, e.action.w);
    }
  }

  /** The counter that join waits on is exact - queued, plus held, plus abandoned by cancelled
      workers - and no worker's task_done ever fails. */
  lemma {:induction false} UnfinishedIsExact(maxsize: int, events: seq<Event>)
    ensures Balanced(Run(maxsize, events))
  {
    if events != [] {
      var n := |events| - 1;
      UnfinishedIsExact(maxsize, events[..n]);
      if Possible(Run(maxsize, events[..n]), events[n]) { BalancedStep(Run(maxsize, events[..n]), events[n]); }
    }
  }

  /** So the counter is zero exactly when everything that was put has been taken and marked done. */
  lemma AllDoneIffZero(maxsize: int, events: seq<Event>)
    ensures var p := Run(maxsize, events);
            p.queue.unfinished == 0 <==>
              p.queue.items == [] && forall i :: 0 <= i < |p.workers| ==> !Holds(p.workers[i].phase)
  {
    UnfinishedIsExact(maxsize, events);
    var p := Run(maxsize, events);
    if forall i :: 0 <= i < |p.workers| ==> !Holds(p.workers[i].phase) {
      CountNone(p.workers, Holds);
    } else {
      var i :| 0 <= i < |p.workers| && Holds(p.workers[i].phase);
      CountSome(p.workers, Holds, i);
    }
  }

  // ---------------------------------------------------------------------------------------------
  // The stop signal
  // ---------------------------------------------------------------------------------------------

  function Stops(messages: seq<Message>): nat {
    if messages == [] then 0
    else Stops(messages[..|messages| - 1]) + (if messages[|messages| - 1].Stop? then 1 else 0)
  }

  lemma StopsAppend(messages: seq<Message>, m: Message)
    ensures Stops(messages + [m]) == Stops(messages) + (if m.Stop? then 1 else 0)
  {
    assert (messages + [m])[..|messages|] == messages;
  }

  lemma {:induction false} StopsSome(messages: seq<Message>) returns (k: nat)
    requires Stops(messages) > 0
    ensures k < |messages| && messages[k].Stop?
  {
    k := |messages| - 1;
    if !messages[k].Stop? { k := StopsSome(messages[..k]); }
  }

  lemma {:induction false} StopsMonotone(messages: seq<Message>, k: nat)
    requires k <= |messages|
    ensures Stops(messages[..k]) <= Stops(messages)
  {
    if k < |messages| {
      StopsMonotone(messages[..|messages| - 1], k);
      assert messages[..|messages| - 1][..k] == messages[..k];
    } else {
      assert messages[..k] == messages;
    }
  }

  /** The messages that were taken so far. */
  function Taken(maxsize: int, events: seq<Event>): seq<Message> {
    if events == [] then []
    else
      var n := |events| - 1;
      var p, e := Run(maxsize, events[..n]), events[n];
      Taken(maxsize, events[..n]) + (if Possible(p, e) && e.action.Take? then [p.queue.items[0]] else [])
  }

  lemma QueueStep(p: Pool, e: Event, taken: seq<Message>)
    requires Possible(p, e)
    ensures taken + (if e.action.Take? then [p.queue.items[0]] else []) + Apply(p, e).queue.items
         == taken + p.queue.items + (if e.action.Put? then [e.action.m] else [])
  {
    if e.action.Take? {
      assert p.queue.items == [p.queue.items[0]] + p.queue.items[1..];
    }
  }

  /** First in, first out: the put sequence is the taken one followed by what is queued. */
  lemma {:induction false} TakenThenQueued(maxsize: int, events: seq<Event>)
    ensures Puts(maxsize, events) == Taken(maxsize, events) + Run(maxsize, events).queue.items
  {
    if events != [] {
      var n := |events| - 1;
      TakenThenQueued(maxsize, events[..n]);
      var p := Run(maxsize, events[..n]);
      if Possible(p, events[n]) { QueueStep(p, events[n], Taken(maxsize, events[..n])); }
    }
  }

  lemma {:induction false} LeftMeansStopped(maxsize: int, events: seq<Event>)
    ensures Count(Run(maxsize, events).workers, HasLeft) == Stops(Taken(maxsize, events))
  {
    if events != [] {
      var n := |events| - 1;
      LeftMeansStopped(maxsize, events[..n]);
      UnfinishedIsExact(maxsize, events[..n]);
      LeftStep(Run(maxsize, events[..n]), events[n]);
      var t := Taken(maxsize, events[..n]);
      var p := Run(maxsize, events[..n]);
      if Possible(p, events[n]) && events[n].action.Take? {
        StopsAppend(t, p.queue.items[0]);
      } else {
        assert Taken(maxsize, events) == t;
      }
    }
  }

  lemma LeftStep(p: Pool, e: Event)
    requires Balanced(p)
    ensures Count(Step(p, e).workers, HasLeft) == Count(p.workers, HasLeft) +
              (if Possible(p, e) && e.action.Take? && p.queue.items[0].Stop? then 1 else 0)
  {
    if Possible(p, e) {
      match e.action {
        case Put(_) =>
        case Start => NewWorkersCount(p.workers, HasLeft);
        case _ =>
          var i := e.action.w;
          BalancedMove(p, e, i);
          CountUpdate(p.workers, i, Move(p.queue, p.workers[i], e).worker, HasLeft);
      }
    }
  }

  /** One stop signal lets one worker go: as many have left as signals were taken, and no more than
      were put. */
  lemma OneLeavesPerStop(maxsize: int, events: seq<Event>)
    ensures Count(Run(maxsize, events).workers, HasLeft) == Stops(Taken(maxsize, events))
         <= Stops(Puts(maxsize, events))
  {
    LeftMeansStopped(maxsize, events);
    TakenThenQueued(maxsize, events);
    StopsMonotone(Puts(maxsize, events), |Taken(maxsize, events)|);
  }

  /** When a worker has left, every item put before the first stop signal has been taken. */
  lemma LeavingComesAfterTheItems(maxsize: int, events: seq<Event>, i: nat, k: nat)
    requires i < |Run(maxsize, events).workers| && Run(maxsize, events).workers[i].phase.Left?
    requires k < |Puts(maxsize, events)| && forall j :: 0 <= j <= k ==> Puts(maxsize, events)[j].Publish?
    ensures k < |Taken(maxsize, events)|
  {
    CountSome(Run(maxsize, events).workers, HasLeft, i);
    LeftMeansStopped(maxsize, events);
    TakenThenQueued(maxsize, events);
    var s := StopsSome(Taken(maxsize, events));
    assert Taken(maxsize, events)[s] == Puts(maxsize, events)[s];
  }

  // ---------------------------------------------------------------------------------------------
  // Draining
  // ---------------------------------------------------------------------------------------------

  predicate IsSending(ph: Phase) {
    ph.Sending?
  }

  predicate IsResting(ph: Phase) {
    ph.Resting?
  }

  /** How many steps the workers still have to make for what is queued and held. */
  function Effort(p: Pool): nat {
    3 * |p.queue.items| + 2 * Count(p.workers, IsSending) + Count(p.workers, IsResting)
  }

  predicate IsWork(a: Action) {
    a.Take? || a.Delivered? || a.Wake?
  }

  /** Without new puts the workers only have that many steps to make. */
  lemma WorkIsFinite(p: Pool, e: Event)
    requires Balanced(p) && Possible(p, e) && IsWork(e.action)
    ensures Effort(Apply(p, e)) < Effort(p)
  {
    var i := e.action.w;
    BalancedMove(p, e, i);
    var w := Move(p.queue, p.workers[i], e).worker;
    CountUpdate(p.workers, i, w, IsSending);
    CountUpdate(p.workers, i, w, IsResting);
  }

  predicate IsAlive(ph: Phase) {
    ph.Ready? || ph.Sending? || ph.Resting?
  }

  /** When no worker has anything left to do at any time, the queue is empty - unless all are gone. */
  lemma IdleMeansDrained(maxsize: int, events: seq<Event>)
    requires var p := Run(maxsize, events);
             && (exists i :: 0 <= i < |p.workers| && IsAlive(p.workers[i].phase))
             && (forall e: Event :: IsWork(e.action) ==> !Possible(p, e))
    ensures Run(maxsize, events).queue.items == []
    ensures Taken(maxsize, events) == Puts(maxsize, events)
  {
    var p := Run(maxsize, events);
    var i :| 0 <= i < |p.workers| && IsAlive(p.workers[i].phase);
    var w := p.workers[i];
    assert !Possible(p, Event(0.0, Take(i)));
    assert !Possible(p, Event(0.0, Delivered(i)));
    assert !Possible(p, Event(w.since + DELAY, Wake(i)));
    TakenThenQueued(maxsize, events);
  }

  // ---------------------------------------------------------------------------------------------
  // Throttling
  // ---------------------------------------------------------------------------------------------

  ghost predicate ClockForward(events: seq<Event>) {
    forall i, j :: 0 <= i < j < |events| ==> events[i].at <= events[j].at
  }

  /** Takes lie at least the delay apart. */
  ghost predicate Spaced(takes: seq<real>) {
    forall i :: 0 < i < |takes| ==> takes[i - 1] + DELAY <= takes[i]
  }

  /** Since when the worker may take again. */
  ghost predicate Paced(w: Worker, now: real) {
    && Spaced(w.takes)
    && (w.takes == [] ||
        match w.phase
        case Ready => w.takes[|w.takes| - 1] + DELAY <= now
        case Resting => w.takes[|w.takes| - 1] <= w.since <= now
        case _ => w.takes[|w.takes| - 1] <= now)
  }

  lemma PacedMove(q: Queue, w: Worker, e: Event, earlier: real)
    requires earlier <= e.at && Paced(w, earlier) && MoveIsPossible(q, w, e)
    ensures Paced(Move(q, w, e).worker, e.at)
  {
  }

  lemma PacedStep(p: Pool, e: Event, earlier: real, i: nat)
    requires earlier <= e.at && i < |Step(p, e).workers|
    requires i < |p.workers| ==> Paced(p.workers[i], earlier)
    ensures Paced(Step(p, e).workers[i], e.at)
  {
    if Possible(p, e) && !e.action.Put? && !e.action.Start? && e.action.w == i {
      PacedMove(p.queue, p.workers[i], e, earlier);
    }
  }

  lemma {:induction false} WorkersArePaced(maxsize: int, events: seq<Event>, i: nat)
    requires ClockForward(events) && events != [] && i < |Run(maxsize, events).workers|
    ensures Paced(Run(maxsize, events).workers[i], events[|events| - 1].at)
  {
    var n := |events| - 1;
    var p := Run(maxsize, events[..n]);
    if n > 0 {
      if i < |p.workers| { WorkersArePaced(maxsize, events[..n], i); }
      PacedStep(p, events[n], events[n - 1].at, i);
    }
  }

  function InWindow(takes: seq<real>, from: real, to: real): nat {
    if takes == [] then 0
    else InWindow(takes[..|takes| - 1], from, to) + (if from <= takes[|takes| - 1] <= to then 1 else 0)
  }

  /** Takes in the window push the last one away from its start. */
  lemma {:induction false} SpacedFillsSlowly(takes: seq<real>, from: real, to: real)
    requires Spaced(takes) && InWindow(takes, from, to) >= 1
    ensures var n := InWindow(takes, from, to);
            from + (n - 1) as real * DELAY <= (if takes[|takes| - 1] < to then takes[|takes| - 1] else to)
  {
    var n := |takes| - 1;
    if InWindow(takes[..n], from, to) >= 1 {
      SpacedFillsSlowly(takes[..n], from, to);
      assert takes[..n][n - 1] == takes[n - 1];
    }
  }

  lemma AtMostPerWorker(takes: seq<real>, from: real, width: real)
    requires Spaced(takes) && width >= 0.0
    ensures InWindow(takes, from, from + width) <= (width / DELAY).Floor + 1
  {
    var n := InWindow(takes, from, from + width);
    if n >= 1 {
      SpacedFillsSlowly(takes, from, from + width);
      assert (n - 1) as real <= width / DELAY;
    }
  }

  function TakesInWindow(workers: seq<Worker>, from: real, to: real): nat {
    if workers == [] then 0
    else TakesInWindow(workers[..|workers| - 1], from, to) + InWindow(workers[|workers| - 1].takes, from, to)
  }

  lemma {:induction false} SumOfTakes(workers: seq<Worker>, from: real, to: real, most: nat)
    requires forall i :: 0 <= i < |workers| ==> InWindow(workers[i].takes, from, to) <= most
    ensures TakesInWindow(workers, from, to) <= |workers| * most
  {
    if workers != [] {
      var n := |workers| - 1;
      SumOfTakes(workers[..n], from, to, most);
      assert (n + 1) * most == n * most + most;
    }
  }

  /** Throttling: in any closed window the pool takes at most workers * (width/2.2 + 1) messages. */
  lemma TakesAreThrottled(maxsize: int, events: seq<Event>, from: real, width: real)
    requires ClockForward(events) && width >= 0.0
    ensures var p := Run(maxsize, events);
            TakesInWindow(p.workers, from, from + width) <= |p.workers| * ((width / DELAY).Floor + 1)
  {
    var p := Run(maxsize, events);
    var most := (width / DELAY).Floor + 1;
    forall i | 0 <= i < |p.workers| ensures InWindow(p.workers[i].takes, from, from + width) <= most {
      WorkersArePaced(maxsize, events, i);
      AtMostPerWorker(p.workers[i].takes, from, width);
    }
    SumOfTakes(p.workers, from, from + width, most);
  }

  function Starts(events: seq<Event>): nat {
    if events == [] then 0
    else Starts(events[..|events| - 1]) + (if events[|events| - 1].action.Start? then 1 else 0)
  }

  /** Every start adds three workers. */
  lemma {:induction false} ThreePerStart(maxsize: int, events: seq<Event>)
    ensures |Run(maxsize, events).workers| == CONCURRENCY * Starts(events)
  {
    if events != [] { ThreePerStart(maxsize, events[..|events| - 1]); }
  }

  /** One pool, as started once: at most 3 * (width / 2.2 + 1) messages are taken in any window. */
  lemma OnePoolIsThrottled(maxsize: int, events: seq<Event>, from: real, width: real)
    requires ClockForward(events) && width >= 0.0 && Starts(events) == 1
    ensures TakesInWindow(Run(maxsize, events).workers, from, from + width) <= 3 * ((width / 2.2).Floor + 1)
  {
    TakesAreThrottled(maxsize, events, from, width);
    ThreePerStart(maxsize, events);
  }
}
