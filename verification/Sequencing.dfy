/** What the sequence check of the manager does, in update ids alone: gaps, repetitions, and the counters that tell of
    them. */
module Sequencing {
  import opened BookLevels
  import opened OrderBooks
  import opened Reconciliation

  // ---------------------------------------------------------------- one delta

  const MAX_ID: u64 := 0xffff_ffff_ffff_ffff

  /** A delta for an instrument that does not wait. Past the next id it is a gap: it is counted, the instrument waits, and
      nothing else changes. Not past it and with nothing new it is ignored. Otherwise it is applied, bids and asks. */
  lemma DeltaById(i: Instrument, delta: Body)
    requires delta.Delta? && !i.seqState.awaitingSnapshot && i.seqState.lastUpdateId < MAX_ID
    ensures var i', id, gaps := Received(true, i, delta), i.seqState.lastUpdateId, i.seqState.gapsDetected;
      if delta.firstUpdateId > id + 1 then i' == Instrument(i.book, SequenceState(id, gaps + 1, true))
      else if delta.lastUpdateId <= id then i' == i
      else && i'.seqState == SequenceState(delta.lastUpdateId, gaps, false)
           && i'.book.bids == ApplyAll(i.book.bids, Changes(delta.bids))
           && i'.book.asks == ApplyAll(i.book.asks, Changes(delta.asks))
  {
  }

  /** At the largest id the wrapped successor is 0: only a delta from id 0 is ignored, any other is taken for a gap. */
  lemma DeltaAtTheLastId(i: Instrument, delta: Body)
    requires delta.Delta? && !i.seqState.awaitingSnapshot && i.seqState.lastUpdateId == MAX_ID
    ensures var i' := Received(true, i, delta);
      if delta.firstUpdateId > 0
      then i' == Instrument(i.book, SequenceState(MAX_ID, i.seqState.gapsDetected + 1, true)) else i' == i
  {
  }

  /** Without sequence checking every delta is applied, whatever its ids and whether or not the instrument waits. */
  lemma UncheckedDelta(i: Instrument, delta: Body)
    requires delta.Delta?
    ensures var i' := Received(false, i, delta);
      && i'.seqState == i.seqState.(lastUpdateId := delta.lastUpdateId)
      && i'.book.bids == ApplyAll(i.book.bids, Changes(delta.bids))
      && i'.book.asks == ApplyAll(i.book.asks, Changes(delta.asks))
  {
  }

  // ---------------------------------------------------------------- streams

  /** A gap leaves the instrument waiting with its last good book, counted once, until a snapshot comes. */
  lemma GapWaitsForSnapshot(i: Instrument, delta: Body, bodies: seq<Body>)
    requires delta.Delta? && !i.seqState.awaitingSnapshot && i.seqState.lastUpdateId < MAX_ID
    requires delta.firstUpdateId > i.seqState.lastUpdateId + 1 && NoSnapshot(bodies)
    ensures ReceivedAll(true, Received(true, i, delta), bodies)
      == Instrument(i.book, SequenceState(i.seqState.lastUpdateId, i.seqState.gapsDetected + 1, true))
  {
    hide Received, ReceivedAll, NoSnapshot;
    DeltaById(i, delta);
    WaitingIsFrozen(Received(true, i, delta), bodies);
  }

  /** A truthful snapshot ends the wait: the instrument then holds the exchange's book of the snapshot's id. */
  lemma SnapshotEndsTheWait(h: History, i: Instrument, snapshot: Body)
    requires snapshot.Snapshot? && Truthful(h, snapshot)
    ensures var id := snapshot.lastUpdateId;
      Received(true, i, snapshot)
      == Instrument(Book(h.bids(id), h.asks(id)), SequenceState(id, i.seqState.gapsDetected, false))
  {
    SnapshotLoads(Changes(snapshot.bids), h.bids(snapshot.lastUpdateId));
    SnapshotLoads(Changes(snapshot.asks), h.asks(snapshot.lastUpdateId));
  }

  lemma {:induction false} ReceivedInTwo(checking: bool, i: Instrument, bodies: seq<Body>, k: nat)
    requires k <= |bodies|
    ensures ReceivedAll(checking, i, bodies)
      == ReceivedAll(checking, ReceivedAll(checking, i, bodies[..k]), bodies[k..])
  {
    hide Received;
    if k == |bodies| {
      assert bodies[..k] == bodies;
    } else {
      var m := |bodies| - 1;
      ReceivedInTwo(checking, i, bodies[..m], k);
      assert bodies[..m][..k] == bodies[..k] && bodies[k..][..m - k] == bodies[..m][k..];
    }
  }

  /** A delta received a second time, at any moment before the next snapshot, changes nothing, with one exception: at the
      largest id it is taken for a gap unless it begins at id 0. */
  lemma RepeatChangesNothing(i: Instrument, bodies: seq<Body>, k: nat)
    requires k < |bodies| && bodies[k].Delta? && NoSnapshot(bodies[k..])
    ensures var s := ReceivedAll(true, i, bodies);
      Received(true, s, bodies[k]) == s
      <==> s.seqState.awaitingSnapshot || s.seqState.lastUpdateId < MAX_ID || bodies[k].firstUpdateId == 0
  {
    hide ReceivedAll, ApplyAll, Loaded;
    var s, delta := ReceivedAll(true, i, bodies), bodies[k];
    var before, after := ReceivedAll(true, i, bodies[..k]), ReceivedAll(true, i, bodies[..k + 1]);
    ReceivedOneMore(i, bodies, k);
    ReceivedInTwo(true, i, bodies, k + 1);
    assert bodies[k + 1..] == bodies[k..][1..];
    EveryIdIsCovered(after, bodies[k + 1..], 0);
    if after.seqState.awaitingSnapshot {
      WaitingIsFrozen(after, bodies[k + 1..]);
    } else if s.seqState.awaitingSnapshot {
    } else if s.seqState.lastUpdateId < MAX_ID {
      DeltaById(before, delta);
      DeltaById(s, delta);
    } else {
      DeltaAtTheLastId(s, delta);
      if before.seqState.lastUpdateId == MAX_ID {
        DeltaAtTheLastId(before, delta);
      }
    }
  }

  lemma ReceivedOneMore(i: Instrument, bodies: seq<Body>, k: nat)
    requires k < |bodies|
    ensures ReceivedAll(true, i, bodies[..k + 1]) == Received(true, ReceivedAll(true, i, bodies[..k]), bodies[k])
  {
    assert bodies[..k + 1][..k] == bodies[..k];
  }

  /** The snapshots and deltas of a stream. */
  function Updates(bodies: seq<Body>): seq<Body> {
    if bodies == [] then [] else
      var last := bodies[|bodies| - 1];
      Updates(bodies[..|bodies| - 1]) + if last.Snapshot? || last.Delta? then [last] else []
  }

  /** Trades and unknown messages in between make no difference to book and sequence state. */
  lemma {:induction false} OnlyUpdatesMatter(checking: bool, i: Instrument, bodies: seq<Body>)
    ensures ReceivedAll(checking, i, bodies) == ReceivedAll(checking, i, Updates(bodies))
  {
    if bodies != [] {
      var before, last := bodies[..|bodies| - 1], bodies[|bodies| - 1];
      OnlyUpdatesMatter(checking, i, before);
      if last.Snapshot? || last.Delta? {
        assert Updates(bodies)[..|Updates(bodies)| - 1] == Updates(before);
      } else {
        assert Updates(bodies) == Updates(before);
      }
    }
  }

  // ---------------------------------------------------------------- the order of entries

  /** The entry at place k is the last one for its price that counts; in a snapshot those without quantity do not. */
  ghost predicate Decides(changes: seq<Change>, k: nat, zeroes: bool) {
    && k < |changes| && (zeroes || changes[k].qty > 0)
    && forall j | k < j < |changes| && changes[j].price == changes[k].price :: !zeroes && changes[j].qty == 0
  }

  /** After a run of updates a price has the quantity of the last update for it. */
  lemma {:induction false} LastUpdateDecides(m: Levels, changes: seq<Change>, k: nat)
    requires Decides(changes, k, true)
    ensures Qty(ApplyAll(m, changes), changes[k].price) == changes[k].qty
  {
    var n := |changes| - 1;
    if k < n {
      assert Decides(changes[..n], k, true);
      LastUpdateDecides(m, changes[..n], k);
    }
  }

  /** After a snapshot a price has the quantity of the last entry for it that has one. */
  lemma {:induction false} LastEntryDecides(listed: seq<Change>, k: nat)
    requires Decides(listed, k, false)
    ensures Qty(Loaded(listed), listed[k].price) == listed[k].qty
  {
    var n := |listed| - 1;
    if k < n {
      assert Decides(listed[..n], k, false);
      LastEntryDecides(listed[..n], k);
    }
  }

  /** A price that no entry with a quantity mentions is not in the book after a snapshot; a price that no update mentions
      keeps its quantity. */
  lemma {:induction false} OthersAreLeftAlone(m: Levels, changes: seq<Change>, p: int)
    ensures (forall i | 0 <= i < |changes| :: changes[i].price != p) ==> Qty(ApplyAll(m, changes), p) == Qty(m, p)
    ensures (forall i | 0 <= i < |changes| && changes[i].qty > 0 :: changes[i].price != p) ==> p !in Loaded(changes)
  {
    if changes != [] {
      OthersAreLeftAlone(m, changes[..|changes| - 1], p);
    }
  }

  // ---------------------------------------------------------------- the counters

  datatype Kind = NullEntry | Stranger | SnapshotOf | DeltaOf | TradeOf | UnknownOf

  /** What an entry is for a manager of these instruments. */
  function KindOf(p: Pointer, ids: seq<InstrumentId>): Kind {
    if p.Null? then NullEntry
    else if p.message.instrument !in ids then Stranger
    else
      match p.message.body
      case Snapshot(_, _, _) => SnapshotOf
      case Delta(_, _, _, _) => DeltaOf
      case Trade => TradeOf
      case Unknown => UnknownOf
  }

  function Number(kind: Kind, stream: seq<Pointer>, ids: seq<InstrumentId>): nat {
    if stream == [] then 0
    else Number(kind, stream[..|stream| - 1], ids) + One(KindOf(stream[|stream| - 1], ids) == kind)
  }

  /** The gaps that the instruments have counted, all together. */
  ghost function GapSum(m: map<InstrumentId, Instrument>): nat
    decreases |m|
  {
    if forall x: InstrumentId :: x !in m then 0 else
      var x: InstrumentId :| x in m;
      m[x].seqState.gapsDetected + GapSum(m - {x})
  }

  lemma {:induction false} GapSumWithout(m: map<InstrumentId, Instrument>, x: InstrumentId)
    requires x in m
    ensures GapSum(m) == m[x].seqState.gapsDetected + GapSum(m - {x})
    decreases |m|
  {
    var y :| y in m && GapSum(m) == m[y].seqState.gapsDetected + GapSum(m - {y});
    if y != x {
      GapSumWithout(m - {y}, x);
      GapSumWithout(m - {x}, y);
      assert m - {y} - {x} == m - {x} - {y};
    }
  }

  lemma GapSumPut(m: map<InstrumentId, Instrument>, x: InstrumentId, i: Instrument)
    requires x in m
    ensures GapSum(m[x := i]) == GapSum(m) - m[x].seqState.gapsDetected + i.seqState.gapsDetected
  {
    GapSumWithout(m, x);
    GapSumWithout(m[x := i], x);
    assert m[x := i] - {x} == m - {x};
  }

  lemma {:induction false} NoGaps(m: map<InstrumentId, Instrument>)
    requires forall x | x in m :: m[x].seqState.gapsDetected == 0
    ensures GapSum(m) == 0
    decreases |m|
  {
    if x: InstrumentId :| x in m {
      GapSumWithout(m, x);
      NoGaps(m - {x});
    }
  }

  /** What one entry does to the counters, by its kind. */
  lemma CounterStep(checking: bool, v: View, p: Pointer, ids: seq<InstrumentId>)
    requires forall x :: x in v.instruments <==> x in ids
    ensures var v', kind := Processed(checking, v, p), KindOf(p, ids);
      && (forall x :: x in v'.instruments <==> x in ids)
      && v'.stats.unknownInstruments == v.stats.unknownInstruments + One(kind == Stranger)
      && v'.stats.snapshotsApplied == v.stats.snapshotsApplied + One(kind == SnapshotOf)
      && v'.stats.tradesProcessed == v.stats.tradesProcessed + One(kind == TradeOf)
      && v'.stats.parseErrors == v.stats.parseErrors + One(kind == NullEntry) + One(kind == UnknownOf)
    ensures var v', kind := Processed(checking, v, p), KindOf(p, ids);
      var applied := v'.stats.deltasApplied - v.stats.deltasApplied;
      var gaps := v'.stats.sequenceGaps - v.stats.sequenceGaps;
      && 0 <= applied && 0 <= gaps && applied + gaps <= One(kind == DeltaOf)
      && (!checking ==> applied == One(kind == DeltaOf))
      && v'.stats.messagesProcessed == v.stats.messagesProcessed + applied + One(kind == SnapshotOf)
         + One(kind == TradeOf) + One(kind == UnknownOf)
      && gaps == GapSum(v'.instruments) - GapSum(v.instruments)
      && v.stats.bboChanges <= v'.stats.bboChanges <= v.stats.bboChanges + One(kind == SnapshotOf) + applied
      && (kind == SnapshotOf ==> v'.stats.bboChanges > v.stats.bboChanges)
  {
    hide GapSum, ApplyAll, Loaded, TopMoves;
    if p.To? && p.message.instrument in v.instruments {
      var x := p.message.instrument;
      GapSumPut(v.instruments, x, Received(checking, v.instruments[x], p.message.body));
    }
  }

  /** With sequence checking a delta is counted as applied exactly when it moves the last id of its instrument forward, and
      as a gap exactly when its instrument begins to wait. */
  lemma DeltaCounters(v: View, x: InstrumentId, delta: Body)
    requires x in v.instruments && delta.Delta?
    ensures var v' := Processed(true, v, To(Message(x, delta)));
      var s, s' := v.instruments[x].seqState, v'.instruments[x].seqState;
      && v'.stats.deltasApplied == v.stats.deltasApplied + One(s'.lastUpdateId > s.lastUpdateId)
      && v'.stats.sequenceGaps == v.stats.sequenceGaps + One(s'.awaitingSnapshot && !s.awaitingSnapshot)
  {
    LastIdTellsApplied(v.instruments[x], delta);
  }

  /** From a new manager on, the counters are the numbers of entries of each kind; a message is counted as processed unless
      it is a delta that was not applied; and the gaps counted are those of the instruments taken together. */
  lemma {:induction false} CountersAddUp(checking: bool, ids: seq<InstrumentId>, stream: seq<Pointer>)
    ensures var v := Run(checking, Managing(ids), stream);
      && (forall x :: x in v.instruments <==> x in ids)
      && v.stats.snapshotsApplied <= v.stats.bboChanges <= v.stats.snapshotsApplied + v.stats.deltasApplied
      && v.stats.unknownInstruments == Number(Stranger, stream, ids)
      && v.stats.snapshotsApplied == Number(SnapshotOf, stream, ids)
      && v.stats.tradesProcessed == Number(TradeOf, stream, ids)
      && v.stats.parseErrors == Number(NullEntry, stream, ids) + Number(UnknownOf, stream, ids)
      && v.stats.deltasApplied + v.stats.sequenceGaps <= Number(DeltaOf, stream, ids)
      && (!checking ==> v.stats.deltasApplied == Number(DeltaOf, stream, ids))
      && v.stats.messagesProcessed == v.stats.snapshotsApplied + v.stats.deltasApplied + v.stats.tradesProcessed
         + Number(UnknownOf, stream, ids)
      && v.stats.sequenceGaps == GapSum(v.instruments)
  {
    hide Processed, GapSum, KindOf, Managing;
    if stream == [] {
      ManagesTheAdded(ids);
      NoGaps(Managing(ids).instruments);
    } else {
      var before := stream[..|stream| - 1];
      CountersAddUp(checking, ids, before);
      CounterStep(checking, Run(checking, Managing(ids), before), stream[|stream| - 1], ids);
    }
  }

  // ---------------------------------------------------------------- the top of the book

  lemma TopOfBookExists(b: Book) returns (t: TopOfBook)
    ensures IsTopOfBook(b.bids, b.asks, t)
  {
    var bidPrice, bidQty := BestExists(true, b.bids);
    var askPrice, askQty := BestExists(false, b.asks);
    t := TopOfBook(bidPrice, askPrice, bidQty, askQty);
  }

  /** Going from one book to another by way of a third, a different top at the end is a different top on the way. */
  lemma DiffersOnTheWay(a: Book, b: Book, c: Book)
    requires TopDiffers(a, c)
    ensures TopDiffers(a, b) || TopDiffers(b, c)
  {
    hide IsTopOfBook;
    var t, t' :| IsTopOfBook(a.bids, a.asks, t) && IsTopOfBook(c.bids, c.asks, t') && t != t';
    var u := TopOfBookExists(b);
    assert u != t || u != t';
  }

  lemma {:induction false} BidsMoveTop(b: Book, changes: seq<Change>)
    requires TopDiffers(b, Book(ApplyAll(b.bids, changes), b.asks))
    ensures BidsMove(b, changes)
  {
    hide IsTopOfBook;
    if changes == [] {
      SameBookSameTop(b);
    } else {
      var before := changes[..|changes| - 1];
      var mid, end := Book(ApplyAll(b.bids, before), b.asks), Book(ApplyAll(b.bids, changes), b.asks);
      DiffersOnTheWay(b, mid, end);
      if TopDiffers(b, mid) {
        BidsMoveTop(b, before);
      }
    }
  }

  lemma {:induction false} AsksMoveTop(b: Book, changes: seq<Change>)
    requires TopDiffers(b, Book(b.bids, ApplyAll(b.asks, changes)))
    ensures AsksMove(b, changes)
  {
    hide IsTopOfBook;
    if changes == [] {
      SameBookSameTop(b);
    } else {
      var before := changes[..|changes| - 1];
      var mid, end := Book(b.bids, ApplyAll(b.asks, before)), Book(b.bids, ApplyAll(b.asks, changes));
      DiffersOnTheWay(b, mid, end);
      if TopDiffers(b, mid) {
        AsksMoveTop(b, before);
      }
    }
  }

  lemma SameBookSameTop(b: Book)
    ensures !TopDiffers(b, b)
  {
    hide IsTopOfBook;
    if TopDiffers(b, b) {
      var t, t' :| IsTopOfBook(b.bids, b.asks, t) && IsTopOfBook(b.bids, b.asks, t') && t != t';
      TopIsUnique(b.bids, b.asks, t, t');
    }
  }

  /** Whenever the processing of a delta leaves another top of the book, one change of the top is counted. */
  lemma ChangedTopIsCounted(checking: bool, v: View, x: InstrumentId, delta: Body)
    requires x in v.instruments && delta.Delta?
    requires TopDiffers(v.instruments[x].book, Received(checking, v.instruments[x], delta).book)
    ensures Processed(checking, v, To(Message(x, delta))).stats.bboChanges == v.stats.bboChanges + 1
  {
    hide TopDiffers, BidsMove, AsksMove, ApplyAll;
    var b := v.instruments[x].book;
    SameBookSameTop(b);
    var mid := Book(ApplyAll(b.bids, Changes(delta.bids)), b.asks);
    var end := Book(mid.bids, ApplyAll(b.asks, Changes(delta.asks)));
    DiffersOnTheWay(b, mid, end);
    if TopDiffers(b, mid) {
      BidsMoveTop(b, Changes(delta.bids));
    } else {
      AsksMoveTop(mid, Changes(delta.asks));
    }
  }
}
