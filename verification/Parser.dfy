/** The parser object: raw frames in, normalized messages out, and the counters that say what became of each frame. */
module Parsers {
  import opened Messages
  import opened Reconciliation
  import Rings = SpscRing

  const MAX_FRAME_SIZE: nat := 65536

  const UNKNOWN_EXCHANGE: nat := 255

  class RawMessage {
    /** The first `size` characters of the frame buffer. */
    var json: string
    var exchangeId: nat
    var receiveTimestamp: nat

    predicate IsValid()
      reads this
    {
      |json| > 0 && |json| <= MAX_FRAME_SIZE && exchangeId != UNKNOWN_EXCHANGE
    }
  }

  /** The pool of raw messages; `live` are the messages handed out and not given back. */
  class RawPool {
    ghost var live: set<RawMessage>

    method Deallocate(raw: RawMessage)
      requires raw in live
      modifies this
      ensures live == old(live) - {raw}
    {
      live := live - {raw};
    }
  }

  /** What parsing the text of a frame gives. */
  datatype Parsed = Failed | Parsed(instrument: InstrumentId, body: Body)

  datatype Counters = Counters(messagesParsed: nat, parseErrors: nat, queueFullDrops: nat)

  /** What can become of a frame that was taken from the queue. */
  datatype Fate = NullPointer | Invalid | NoMessage | Unparsable | QueueFull | Delivered

  /** One counter has risen by one: the parsed messages with a delivery, the drops with a full queue, the errors with
      anything else. */
  predicate OneRaised(before: Counters, after: Counters, fate: Fate) {
    && after.messagesParsed == before.messagesParsed + One(fate.Delivered?)
    && after.queueFullDrops == before.queueFullDrops + One(fate.QueueFull?)
    && after.parseErrors == before.parseErrors + One(!fate.Delivered? && !fate.QueueFull?)
  }

  class Parser {
    const parse: string -> Parsed
    const rawQueue: Rings.Ring<RawMessage?>
    const normalizedQueue: Rings.Ring<NormalizedMessage?>
    const rawPool: RawPool
    const messagePool: MessagePool
    var counters: Counters

    constructor (parse: string -> Parsed, rawQueue: Rings.Ring<RawMessage?>, rawPool: RawPool,
                 normalizedQueue: Rings.Ring<NormalizedMessage?>, messagePool: MessagePool)
      ensures this.parse == parse && this.rawQueue == rawQueue && this.normalizedQueue == normalizedQueue
      ensures this.rawPool == rawPool && this.messagePool == messagePool && counters == Counters(0, 0, 0)
    {
      this.parse, this.rawQueue, this.normalizedQueue := parse, rawQueue, normalizedQueue;
      this.rawPool, this.messagePool, counters := rawPool, messagePool, Counters(0, 0, 0);
    }

    ghost predicate Valid()
      reads this, rawQueue, rawQueue.slots, normalizedQueue, normalizedQueue.slots, rawPool, messagePool
    {
      && rawQueue.Valid() && normalizedQueue.Valid()
      && rawQueue.slots as object != normalizedQueue.slots
      && Waiting(rawQueue.contents, rawPool.live)
      && Waiting(normalizedQueue.contents, messagePool.live)
    }

    /** What the state of the frame, its text and the output queue say about its fate. That there was no message for it
        is what the pool has recorded as a refusal. */
    ghost predicate Fits(fate: Fate, raw: RawMessage?, full: bool)
      reads raw
    {
      match fate
      case NullPointer => raw == null
      case Invalid => raw != null && !raw.IsValid()
      case NoMessage => raw != null && raw.IsValid()
      case Unparsable => raw != null && raw.IsValid() && parse(raw.json).Failed?
      case QueueFull => raw != null && raw.IsValid() && parse(raw.json).Parsed? && full
      case Delivered => raw != null && raw.IsValid() && parse(raw.json).Parsed? && !full
    }

    /** A frame's message as the manager will see it. */
    function Content(raw: RawMessage): Pointer
      reads raw
    {
      match parse(raw.json)
      case Failed => Null
      case Parsed(x, body) => To(Message(x, body))
    }

    /** From here on a valid frame is in hand: allocate, parse, push, and give the frame back. */
    method Normalize(raw: RawMessage) returns (ghost fate: Fate)
      requires normalizedQueue.Valid() && Waiting(normalizedQueue.contents, messagePool.live)
      requires raw.IsValid() && raw in rawPool.live
      modifies this`counters, normalizedQueue, normalizedQueue.slots, rawPool, messagePool
      ensures normalizedQueue.Valid() && Waiting(normalizedQueue.contents, messagePool.live)
      ensures old(Fits(fate, raw, |normalizedQueue.contents| == normalizedQueue.capacity))
      ensures messagePool.refusals == old(messagePool.refusals) + One(fate.NoMessage?)
      ensures OneRaised(old(counters), counters, fate)
      ensures rawPool.live == if fate.NoMessage? then old(rawPool.live) else old(rawPool.live) - {raw}
      ensures !fate.Delivered? ==>
        normalizedQueue.contents == old(normalizedQueue.contents) && messagePool.live == old(messagePool.live)
      ensures fate.Delivered? ==> Arrived(old(normalizedQueue.contents), old(messagePool.live), raw)
    {
      hide Waiting, Rings.Window, Rings.Ring.Valid;
      var normalized := messagePool.Allocate();
      if normalized == null {
        counters := counters.(parseErrors := counters.parseErrors + 1);
        return NoMessage;
      }
      TailAdded(normalizedQueue.contents, old(messagePool.live), normalized);
      var parsed := parse(raw.json);
      if parsed.Parsed? {
        normalized.instrument, normalized.body := parsed.instrument, parsed.body;
        normalized.exchangeId := raw.exchangeId;
        normalized.receiveTime := raw.receiveTimestamp;
        var pushed := normalizedQueue.TryPush(normalized);
        if !pushed {
          counters := counters.(queueFullDrops := counters.queueFullDrops + 1);
          messagePool.Deallocate(normalized);
          fate := QueueFull;
        } else {
          counters := counters.(messagesParsed := counters.messagesParsed + 1);
          fate := Delivered;
        }
      } else {
        counters := counters.(parseErrors := counters.parseErrors + 1);
        messagePool.Deallocate(normalized);
        fate := Unparsable;
      }
      rawPool.Deallocate(raw);
    }

    /** A new message at the end of the queue, held from the pool, with the content of the frame. */
    twostate predicate Arrived(queue: seq<NormalizedMessage?>, live: set<NormalizedMessage>, raw: RawMessage)
      reads this, normalizedQueue, messagePool, raw
      reads if normalizedQueue.contents == [] then {} else Given(normalizedQueue.contents[|normalizedQueue.contents| - 1])
    {
      normalizedQueue.contents != [] &&
      var msg := normalizedQueue.contents[|normalizedQueue.contents| - 1];
      && msg != null && fresh(msg)
      && normalizedQueue.contents == queue + [msg]
      && messagePool.live == live + {msg}
      && Seen(msg) == Content(raw)
      && msg.exchangeId == raw.exchangeId && msg.receiveTime == raw.receiveTimestamp
    }

    method ProcessOne() returns (ghost fate: Fate)
      requires Valid()
      modifies this`counters, rawQueue, rawQueue.slots, normalizedQueue, normalizedQueue.slots, rawPool, messagePool
      ensures Valid()
      ensures old(rawQueue.contents) == [] ==>
        && rawQueue.contents == [] && rawPool.live == old(rawPool.live) && counters == old(counters)
      ensures old(rawQueue.contents) != [] ==>
        && old(Fits(fate, rawQueue.contents[0], |normalizedQueue.contents| == normalizedQueue.capacity))
        && OneRaised(old(counters), counters, fate)
        && rawQueue.contents == old(rawQueue.contents)[1..]
        && rawPool.live == (if fate.NoMessage? then old(rawPool.live)
                            else old(rawPool.live) - Given(old(rawQueue.contents)[0]))
      ensures messagePool.refusals
        == old(messagePool.refusals) + One(old(rawQueue.contents) != [] && fate.NoMessage?)
      ensures old(rawQueue.contents) == [] || !fate.Delivered? ==>
        normalizedQueue.contents == old(normalizedQueue.contents) && messagePool.live == old(messagePool.live)
      ensures old(rawQueue.contents) != [] && fate.Delivered? ==>
        Arrived(old(normalizedQueue.contents), old(messagePool.live), old(rawQueue.contents)[0])
    {
      hide Waiting, Rings.Window;
      fate := NullPointer;
      if rawQueue.contents != [] {
        HeadTaken(rawQueue.contents, rawPool.live);
      }
      var ok, raw := rawQueue.TryPop(null);
      if !ok {
        return;
      }
      if raw == null || !raw.IsValid() {
        counters := counters.(parseErrors := counters.parseErrors + 1);
        if raw != null {
          rawPool.Deallocate(raw);
          fate := Invalid;
        }
        return;
      }
      fate := Normalize(raw);
    }
  }
}
