/** The messages between parser and order book manager, and the pool they come from. */
module Messages {
  import opened Reconciliation

  class NormalizedMessage {
    var instrument: InstrumentId
    var body: Body
    var exchangeId: nat
    var receiveTime: nat

    constructor ()
    {
      instrument, body, exchangeId, receiveTime := 0, Unknown, 0, 0;
    }
  }

  /** What the manager sees of a queue entry. */
  function Seen(msg: NormalizedMessage?): Pointer
    reads msg
  {
    if msg == null then Null else To(Message(msg.instrument, msg.body))
  }

  /** The object behind a pointer, if there is one. */
  ghost function Given(pointer: object?): set<object> {
    if pointer == null then {} else {pointer}
  }

  /** The objects in a queue are different and handed out by their pool. */
  ghost predicate Waiting(queue: seq<object?>, live: set<object>) {
    && (forall k | 0 <= k < |queue| :: Given(queue[k]) <= live)
    && (forall j, k | 0 <= j < k < |queue| :: Given(queue[j]) !! Given(queue[k]))
  }

  /** Whoever takes the head may give it back: nothing that still waits is the same object. */
  lemma HeadTaken(queue: seq<object?>, live: set<object>)
    requires queue != [] && Waiting(queue, live)
    ensures Given(queue[0]) <= live && Waiting(queue[1..], live - Given(queue[0])) && Waiting(queue[1..], live)
  {
    forall k | 0 <= k < |queue[1..]|
      ensures Given(queue[1..][k]) <= live - Given(queue[0])
    {
      assert queue[1..][k] == queue[k + 1];
    }
  }

  lemma TailAdded(queue: seq<object?>, live: set<object>, item: object)
    requires Waiting(queue, live) && item !in live
    ensures Waiting(queue + [item], live + {item}) && Waiting(queue, live + {item})
  {
  }

  /** The pool of normalized messages; `live` are the messages handed out and not given back, `refusals` the allocations
      that it could not serve. */
  class MessagePool {
    ghost var live: set<NormalizedMessage>
    ghost var refusals: nat

    /** Null when the pool has no block left. */
    method Allocate() returns (msg: NormalizedMessage?)
      modifies this
      ensures msg == null ==> live == old(live) && refusals == old(refusals) + 1
      ensures msg != null ==> fresh(msg) && live == old(live) + {msg} && refusals == old(refusals)
    {
      if * {
        refusals := refusals + 1;
        return null;
      }
      msg := new NormalizedMessage();
      live := live + {msg};
    }

    method Deallocate(msg: NormalizedMessage)
      requires msg in live
      modifies this
      ensures live == old(live) - {msg} && refusals == old(refusals)
    {
      live := live - {msg};
    }
  }
}
