/** The queue between the scraper and the broadcaster (publisher/queue.py, on asyncio.Queue).

    A method that would suspend its caller says so in its result and changes nothing; the caller
    tries again when the event loop wakes it. */
module PublishQueue {
  datatype Item = Item(config: string, country: string)

  /** None on the queue is the stop signal. */
  datatype Message = Stop | Publish(item: Item)

  datatype Queue = Queue(items: seq<Message>, unfinished: nat, maxsize: int)

  /** asyncio.Queue.full: a maxsize of zero or less means no limit. */
  predicate Full(q: Queue) {
    0 < q.maxsize <= |q.items|
  }

  function Added(q: Queue, m: Message): Queue {
    q.(items := q.items + [m], unfinished := q.unfinished + 1)
  }

  datatype Got = Empty | Got(message: Message, rest: Queue)

  function Next(q: Queue): Got {
    if q.items == [] then Empty else Got(q.items[0], q.(items := q.items[1..]))
  }

  datatype Marked = ValueError | Marked(q: Queue)

  /** task_done: an error when called more often than there were items. */
  function Done(q: Queue): Marked {
    if q.unfinished == 0 then ValueError else Marked(q.(unfinished := q.unfinished - 1))
  }

  class PublishQueue {
    var queue: seq<Message>
    var unfinished: nat
    const maxsize: int

    constructor (maxsize: int := 500)
      ensures State() == Queue([], 0, maxsize)
    {
      queue, unfinished := [], 0;
      this.maxsize := maxsize;
    }

    function State(): Queue
      reads this
    {
      Queue(queue, unfinished, maxsize)
    }

    method PutMessage(m: Message) returns (suspended: bool)
      modifies this
      ensures suspended == old(Full(State()))
      ensures State() == if suspended then old(State()) else Added(old(State()), m)
    {
      suspended := 0 < maxsize <= |queue|;
      if !suspended {
        queue := queue + [m];
        unfinished := unfinished + 1;
      }
    }

    method Put(config: string, country: string := "UN") returns (suspended: bool)
      modifies this
      ensures suspended == old(Full(State()))
      ensures State() == if suspended then old(State()) else Added(old(State()), Publish(Item(config, country)))
    {
      suspended := PutMessage(Publish(Item(config, country)));
    }

    /** The stop signal waits its turn like any item. */
    method PutStop() returns (suspended: bool)
      modifies this
      ensures suspended == old(Full(State()))
      ensures State() == if suspended then old(State()) else Added(old(State()), Stop)
    {
      suspended := PutMessage(Stop);
    }

    method GetItem() returns (got: Got)
      modifies this
      ensures got == Next(old(State()))
      ensures State() == if got.Empty? then old(State()) else got.rest
    {
      if queue == [] {
        return Empty;
      }
      var m := queue[0];
      queue := queue[1..];
      got := Got(m, State());
    }

    method TaskDone() returns (ok: bool)
      modifies this
      ensures ok == Done(old(State())).Marked?
      ensures State() == if ok then Done(old(State())).q else old(State())
    {
      ok := unfinished > 0;
      if ok {
        unfinished := unfinished - 1;
      }
    }
  }
}
