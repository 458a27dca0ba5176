/** What each call of try_push and try_pop comes to, in every interleaving. */
module RingCalls {
  import opened RingSteps

  /** The item of a push that has neither been published nor refused. */
  function Open(p: Producer): seq<Item> {
    match p
    case PCheck(item, _) => [item]
    case PWrite(item, _) => [item]
    case PWriting(item, _) => [item]
    case PPublish(item, _) => [item]
    case _ => []
  }

  predicate Waiting(c: Consumer) {
    c.CCheck? || c.CRead? || c.CReading? || c.CRelease?
  }

  /** The items of all pushes begun, in order. */
  function Offered(run: seq<Action>): seq<Item> {
    if run == [] then [] else
      var a := run[|run| - 1];
      Offered(run[..|run| - 1]) + if a.StartPush? then [a.item] else []
  }

  function PopsBegun(run: seq<Action>): nat {
    if run == [] then 0 else PopsBegun(run[..|run| - 1]) + if run[|run| - 1].StartPop? then 1 else 0
  }

  function PushAnswers(events: seq<Event>): seq<Event> {
    if events == [] then [] else
      var e := events[|events| - 1];
      PushAnswers(events[..|events| - 1]) + if e.Pushed? || e.PushRefused? then [e] else []
  }

  function PopAnswers(events: seq<Event>): seq<Event> {
    if events == [] then [] else
      var e := events[|events| - 1];
      PopAnswers(events[..|events| - 1]) + if e.Popped? || e.PopRefused? || e.TornRead? then [e] else []
  }

  lemma PushStep(s: State, a: Action)
    requires Enabled(s, a)
    ensures var p, p', e := Open(s.producer), Open(Do(s, a).producer), EventOf(s, a);
      if a.StartPush? then p == [] && p' == [a.item] && e == Silent
      else if e.Pushed? || e.PushRefused? then p != [] && p' == [] && (e.Pushed? ==> p == [e.item])
      else p' == p
  {
  }

  lemma PopStep(s: State, a: Action)
    requires Enabled(s, a)
    ensures var c, c', e := Waiting(s.consumer), Waiting(Do(s, a).consumer), EventOf(s, a);
      if a.StartPop? then !c && c' && e == Silent
      else if e.Popped? || e.PopRefused? || e.TornRead? then c && !c'
      else c' == c
  {
  }

  /** Each push begun is answered once, in order: its own item is accepted, or it is refused; only the last may be open. */
  lemma {:induction false} PushesAreAnswered(s: State, run: seq<Action>)
    requires After(s, run).Reached? && s.producer.PIdle?
    ensures var answers, offered, open :=
        PushAnswers(Events(s, run)), Offered(run), Open(After(s, run).state.producer);
      && |answers| + |open| == |offered|
      && (forall k | 0 <= k < |answers| :: answers[k] == Pushed(offered[k]) || answers[k] == PushRefused)
      && (open != [] ==> open == [offered[|answers|]])
  {
    hide Do, Enabled, EventOf;
    if run != [] {
      var m := |run| - 1;
      PushesAreAnswered(s, run[..m]);
      PushStep(After(s, run[..m]).state, run[m]);
      var events := Events(s, run);
      assert events[..|events| - 1] == Events(s, run[..m]);
    }
  }

  /** Each pop begun is answered once; with `RunsAreBoundedFifo` by the oldest item, or by a refusal of an empty ring. */
  lemma {:induction false} PopsAreAnswered(s: State, run: seq<Action>)
    requires After(s, run).Reached? && s.consumer.CIdle?
    ensures |PopAnswers(Events(s, run))| + (if Waiting(After(s, run).state.consumer) then 1 else 0) == PopsBegun(run)
  {
    hide Do, Enabled, EventOf;
    if run != [] {
      var m := |run| - 1;
      PopsAreAnswered(s, run[..m]);
      PopStep(After(s, run[..m]).state, run[m]);
      var events := Events(s, run);
      assert events[..|events| - 1] == Events(s, run[..m]);
    }
  }
}
