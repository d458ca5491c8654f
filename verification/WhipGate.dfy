/**
 The keyframe gate of the WHIP send loop. A decoder may be handed a non-keyframe
 only straight after the unit it refers to, so the loop stops at every gap until a
 keyframe arrives. Producer and send loop share only the media queue; each queue
 operation and each read of its drop counter is one atomic step, in any interleaving.
 */
module WhipGate {
  import opened Common
  import BQ = BoundedQueue

  datatype Unit = Unit(keyframe: bool, discontinuity: bool)

  /** A unit that was sent: its push position, its session, and how many units overflowed
      between its removal from the queue and the loop's read of the drop counter. */
  datatype Sent = Sent(index: nat, session: nat, missed: nat)

  /** A unit taken from the queue, with the drop counter at that moment. */
  datatype Hand = Hand(index: nat, dropsAtPop: nat)

  datatype State = State(
    log: seq<Unit>,            // every accepted unit, in push order
    queue: BQ.Queue<nat>,      // push positions
    session: nat, inSession: bool,
    waiting: bool, awaitingResume: bool, observed: nat,
    hand: Option<Hand>,
    sent: seq<Sent>)

  datatype Event =
    | Produce(unit: Unit)      // a producer pushes
    | Stop                     // the queue is shut down
    | StartSession             // a connection is up; the loop's locals are initialised
    | Interrupted              // an iteration that finds the track closed or disconnected
    | Take                     // an iteration that may send: resume, then pop
    | Decide(delivered: bool)  // drop counter read, gate, send
    | EndSession               // the session is torn down outside a send
    | DiscardBetween           // the outer loop empties the queue before reconnecting

  function Init(capacity: nat): State {
    State([], BQ.Empty(capacity), 0, false, true, false, 0, None, [])
  }

  predicate Enabled(s: State, e: Event) {
    match e
    case Produce(_) => true
    case Stop => true
    case StartSession => !s.inSession
    case Interrupted => s.inSession && s.hand.None?
    case Take => s.inSession && s.hand.None?
    case Decide(_) => s.inSession && s.hand.Some?
    case EndSession => s.inSession && s.hand.None?
    case DiscardBetween => !s.inSession
  }

  function DecideStep(s: State, delivered: bool): State
    requires s.hand.Some? && s.hand.value.index < |s.log|
  {
    var h := s.hand.value;
    var unit := s.log[h.index];
    var drops := s.queue.stats.dropped;
    var waiting := s.waiting || unit.discontinuity || drops != s.observed;
    var next := s.(observed := drops, hand := None);
    if waiting && !unit.keyframe then next.(waiting := true)
    else if !delivered then next.(waiting := false, inSession := false)
    else
      var missed := if drops >= h.dropsAtPop then drops - h.dropsAtPop else 0;
      next.(waiting := false, sent := s.sent + [Sent(h.index, s.session, missed)])
  }

  function Step(s: State, e: Event): State
    requires Enabled(s, e) && (s.hand.Some? ==> s.hand.value.index < |s.log|)
  {
    match e
    case Produce(unit) =>
      if s.queue.closed then s
      else s.(log := s.log + [unit], queue := BQ.Push(s.queue, |s.log|))
    case Stop => s.(queue := BQ.Close(s.queue))
    case StartSession =>
      s.(session := s.session + 1, inSession := true, waiting := true, awaitingResume := false,
         observed := s.queue.stats.dropped)
    case Interrupted =>
      s.(queue := if s.awaitingResume then s.queue else BQ.Discard(s.queue), awaitingResume := true)
    case Take =>
      var taken := match BQ.Front(s.queue)
        case None => None
        case Some(i) => Some(Hand(i, s.queue.stats.dropped));
      s.(waiting := s.waiting || s.awaitingResume, awaitingResume := false,
         queue := BQ.Pop(s.queue), hand := taken)
    case Decide(delivered) => DecideStep(s, delivered)
    case EndSession => s.(inSession := false)
    case DiscardBetween => s.(queue := BQ.Discard(s.queue))
  }

  // ----- the invariant -----

  /** The push position the queue's front has, or would have. */
  function FrontIndex(s: State): int { |s.log| - |s.queue.items| }

  ghost predicate QueueOk(s: State) {
    && s.queue.capacity >= 1
    && BQ.Conserved(s.queue)
    && s.queue.stats.pushed == |s.log|
    && |s.queue.items| <= |s.log|
    && forall i :: 0 <= i < |s.queue.items| ==> s.queue.items[i] == FrontIndex(s) + i
  }

  /** The position that follows the last sent unit and the losses already hidden behind it. */
  function Expected(s: State): int {
    if s.sent == [] then 0 else var last := s.sent[|s.sent| - 1]; last.index + 1 + last.missed
  }

  /** While the gate is open, every unit missing after the last sent one was counted by the drop counter. */
  ghost predicate GateOk(s: State) {
    && s.observed <= s.queue.stats.dropped
    && (s.hand.Some? ==>
          && s.inSession && !s.awaitingResume
          && s.hand.value.index < |s.log|
          && s.observed <= s.hand.value.dropsAtPop <= s.queue.stats.dropped
          && FrontIndex(s) == s.hand.value.index + 1 + (s.queue.stats.dropped - s.hand.value.dropsAtPop))
    && (s.inSession && !s.waiting && !s.awaitingResume ==>
          && s.sent != [] && s.sent[|s.sent| - 1].session == s.session
          && (match s.hand
              case None => FrontIndex(s) == Expected(s) + (s.queue.stats.dropped - s.observed)
              case Some(h) => h.index == Expected(s) + (h.dropsAtPop - s.observed)))
  }

  /**
   Sent unit `k`: a unit flagged as a discontinuity is a keyframe, and a non-keyframe
   follows the previous sent unit of its own session, exactly as many positions later
   as overflowed unseen behind that one.
   */
  ghost predicate SentOk(s: State, k: nat)
    requires k < |s.sent|
  {
    var now := s.sent[k];
    && now.index < |s.log|
    && (!s.log[now.index].keyframe ==>
          && !s.log[now.index].discontinuity
          && now.missed == 0
          && k > 0
          && s.sent[k - 1].session == now.session
          && now.index == s.sent[k - 1].index + 1 + s.sent[k - 1].missed)
  }

  ghost predicate Inv(s: State) {
    QueueOk(s) && GateOk(s) && forall k :: 0 <= k < |s.sent| ==> SentOk(s, k)
  }

  lemma ProduceKeepsInv(s: State, unit: Unit)
    requires Inv(s)
    ensures Inv(Step(s, Produce(unit)))
  {
    var t := Step(s, Produce(unit));
    forall k | 0 <= k < |t.sent| ensures SentOk(t, k) {
      assert SentOk(s, k);
      if k > 0 { assert SentOk(s, k - 1); }
    }
  }

  lemma DecideKeepsInv(s: State, delivered: bool)
    requires Inv(s) && s.inSession && s.hand.Some?
    ensures Inv(Step(s, Decide(delivered)))
  {
    var t := Step(s, Decide(delivered));
    forall k | 0 <= k < |t.sent| ensures SentOk(t, k) {
      if k < |s.sent| { assert SentOk(s, k); }
    }
  }

  lemma OtherStepsKeepInv(s: State, e: Event)
    requires Inv(s) && Enabled(s, e) && !e.Produce? && !e.Decide?
    ensures Inv(Step(s, e))
  {
    var t := Step(s, e);
    forall k | 0 <= k < |t.sent| ensures SentOk(t, k) { assert SentOk(s, k); }
  }

  lemma StepKeepsInv(s: State, e: Event)
    requires Inv(s) && Enabled(s, e)
    ensures Inv(Step(s, e))
  {
    match e
    case Produce(unit) => ProduceKeepsInv(s, unit);
    case Decide(delivered) => DecideKeepsInv(s, delivered);
    case _ => OtherStepsKeepInv(s, e);
  }

  // ----- every run -----

  /** States reached by enabled events. */
  ghost predicate IsRun(capacity: nat, states: seq<State>, events: seq<Event>) {
    && |states| == |events| + 1 && states[0] == Init(capacity)
    && forall i :: 0 <= i < |events| ==>
         && Enabled(states[i], events[i])
         && (states[i].hand.Some? ==> states[i].hand.value.index < |states[i].log|)
         && states[i + 1] == Step(states[i], events[i])
  }

  lemma {:induction false} RunKeepsInv(capacity: nat, states: seq<State>, events: seq<Event>)
    requires capacity >= 1 && IsRun(capacity, states, events)
    ensures Inv(states[|events|])
  {
    if events != [] {
      var n := |events| - 1;
      RunKeepsInv(capacity, states[..|events|], events[..n]);
      StepKeepsInv(states[n], events[n]);
    }
  }

  /**
   In every run, a sent non-keyframe is never flagged as a discontinuity and follows
   the previous sent unit of the same session; it is that unit's immediate successor in push order if and
   only if no unit overflowed between that unit's removal from the queue and the
   drop-counter read after it. Every accepted unit is popped, dropped, discarded or queued.
   */
  lemma GateHolds(capacity: nat, states: seq<State>, events: seq<Event>)
    requires capacity >= 1 && IsRun(capacity, states, events)
    ensures var s := states[|events|];
            && s.queue.stats.pushed == |s.log|
            && s.queue.stats.pushed == s.queue.stats.popped + s.queue.stats.dropped
                                       + s.queue.stats.discarded + |s.queue.items|
            && forall k :: 0 <= k < |s.sent| ==> FollowsIff(s, k)
  {
    RunKeepsInv(capacity, states, events);
    var s := states[|events|];
    forall k | 0 <= k < |s.sent| ensures FollowsIff(s, k) { assert SentOk(s, k); }
  }

  ghost predicate FollowsIff(s: State, k: nat)
    requires k < |s.sent|
  {
    && s.sent[k].index < |s.log|
    && (!s.log[s.sent[k].index].keyframe ==>
          && k > 0 && s.sent[k - 1].session == s.sent[k].session
          && !s.log[s.sent[k].index].discontinuity
          && (s.sent[k].index == s.sent[k - 1].index + 1 <==> s.sent[k - 1].missed == 0))
  }

  /** Nothing was lost unseen so far. */
  ghost predicate NothingHidden(s: State) {
    && (forall k :: 0 <= k < |s.sent| ==> s.sent[k].missed == 0)
    && (s.hand.Some? ==> s.hand.value.dropsAtPop == s.queue.stats.dropped)
  }

  /** If nothing happens between taking a unit and deciding on it, no loss is ever hidden. */
  lemma {:induction false} AtomicTakeHidesNothing(capacity: nat, states: seq<State>, events: seq<Event>)
    requires capacity >= 1 && IsRun(capacity, states, events)
    requires forall i :: 0 <= i < |events| && states[i].hand.Some? ==> events[i].Decide?
    ensures NothingHidden(states[|events|])
  {
    if events != [] {
      var n := |events| - 1;
      AtomicTakeHidesNothing(capacity, states[..|events|], events[..n]);
      assert states[n].hand.Some? ==> events[n].Decide?;
      assert states[n + 1] == Step(states[n], events[n]);
    }
  }

  /** So in such a run every sent non-keyframe is the immediate push-order successor of the unit sent before it. */
  lemma AtomicTakeIsGapFree(capacity: nat, states: seq<State>, events: seq<Event>, k: nat)
    requires capacity >= 1 && IsRun(capacity, states, events)
    requires forall i :: 0 <= i < |events| && states[i].hand.Some? ==> events[i].Decide?
    requires k < |states[|events|].sent|
    ensures var s := states[|events|];
            && s.sent[k].index < |s.log|
            && (!s.log[s.sent[k].index].keyframe ==> k > 0 && s.sent[k].index == s.sent[k - 1].index + 1)
  {
    GateHolds(capacity, states, events);
    AtomicTakeHidesNothing(capacity, states, events);
    assert FollowsIff(states[|events|], k);
  }

  /**
   The hidden loss is real: with room for one unit, a keyframe is taken, the next
   unit overflows before the counter is read, and the unit after that is sent
   straight behind the keyframe.
   */
  lemma HiddenLoss() returns (states: seq<State>, events: seq<Event>)
    ensures IsRun(1, states, events)
    ensures var s := states[|events|];
            && s.sent == [Sent(0, 1, 1), Sent(2, 1, 0)]
            && |s.log| == 3 && s.log[0].keyframe && !s.log[2].keyframe
  {
    var key, delta := Unit(true, true), Unit(false, false);
    var s0, s1, s2, s3, s4, s5 := LossBeforeDecision(key, delta);
    var s6, s7, s8 := LossAfterDecision(key, delta, s5);
    events := [Produce(key), StartSession, Take, Produce(delta), Produce(delta), Decide(true), Take, Decide(true)];
    states := [s0, s1, s2, s3, s4, s5, s6, s7, s8];
  }

  /** The queue with room for one unit, holding `items`. */
  function Room(items: seq<nat>, pushed: nat, popped: nat, dropped: nat): BQ.Queue<nat> {
    BQ.Queue(items, BQ.Stats(pushed, popped, dropped, 0, 1), false, 1)
  }

  lemma LossBeforeDecision(key: Unit, delta: Unit)
    returns (s0: State, s1: State, s2: State, s3: State, s4: State, s5: State)
    ensures s0 == Init(1) && s1 == Step(s0, Produce(key))
    ensures s1.hand.None? && !s1.inSession && s2 == Step(s1, StartSession)
    ensures s2.hand.None? && s2.inSession && s3 == Step(s2, Take)
    ensures s3.hand == Some(Hand(0, 0)) && |s3.log| == 1 && s4 == Step(s3, Produce(delta))
    ensures s4.hand == Some(Hand(0, 0)) && |s4.log| == 2 && s5 == Step(s4, Produce(delta))
    ensures s5 == State([key, delta, delta], Room([2], 3, 1, 1), 1, true, true, false, 0, Some(Hand(0, 0)), [])
  {
    s0 := Init(1);
    s1 := Step(s0, Produce(key));
    assert s1 == State([key], Room([0], 1, 0, 0), 0, false, true, false, 0, None, []);
    s2 := Step(s1, StartSession);
    s3 := Step(s2, Take);
    assert s3 == State([key], Room([], 1, 1, 0), 1, true, true, false, 0, Some(Hand(0, 0)), []);
    s4 := Step(s3, Produce(delta));
    assert s4 == State([key, delta], Room([1], 2, 1, 0), 1, true, true, false, 0, Some(Hand(0, 0)), []);
    s5 := Step(s4, Produce(delta));
  }

  lemma LossAfterDecision(key: Unit, delta: Unit, s5: State) returns (s6: State, s7: State, s8: State)
    requires key.keyframe && !delta.keyframe && !delta.discontinuity
    requires s5 == State([key, delta, delta], Room([2], 3, 1, 1), 1, true, true, false, 0, Some(Hand(0, 0)), [])
    ensures s6 == Step(s5, Decide(true))
    ensures s6.hand.None? && s6.inSession && s7 == Step(s6, Take)
    ensures s7.hand == Some(Hand(2, 1)) && s7.inSession && |s7.log| == 3 && s8 == Step(s7, Decide(true))
    ensures s8.log == s5.log && s8.sent == [Sent(0, 1, 1), Sent(2, 1, 0)]
  {
    s6 := Step(s5, Decide(true));
    assert s6 == State(s5.log, s5.queue, 1, true, false, false, 1, None, [Sent(0, 1, 1)]);
    s7 := Step(s6, Take);
    s8 := Step(s7, Decide(true));
  }

  // ----- the gate withholds no more than it must -----

  /** The unit in hand gets through: a keyframe, or a unit behind an open gate with no discontinuity and no loss counted since. */
  ghost predicate Passes(s: State)
    requires s.hand.Some? && s.hand.value.index < |s.log|
  {
    var unit := s.log[s.hand.value.index];
    unit.keyframe || (!s.waiting && !unit.discontinuity && s.queue.stats.dropped == s.observed)
  }

  /** A unit is sent exactly if it gets through and is delivered; a failed delivery ends the session, and nothing else does here. */
  lemma SendsIff(s: State, delivered: bool)
    requires Inv(s) && Enabled(s, Decide(delivered))
    ensures var t := Step(s, Decide(delivered));
            && (Passes(s) && delivered ==> |t.sent| == |s.sent| + 1 && t.sent[..|s.sent|] == s.sent
                                           && t.sent[|s.sent|].index == s.hand.value.index
                                           && t.sent[|s.sent|].session == s.session)
            && (!(Passes(s) && delivered) ==> t.sent == s.sent)
            && (t.inSession <==> !Passes(s) || delivered)
            && t.waiting == !Passes(s) && t.observed == s.queue.stats.dropped && t.hand.None?
  {}

  /** What closes the gate: a new session, resuming after an interruption, a unit that did not get through. */
  ghost predicate Closes(s: State, e: Event) {
    e.StartSession? || (e.Take? && s.awaitingResume)
    || (e.Decide? && s.hand.Some? && s.hand.value.index < |s.log| && !Passes(s))
  }

  ghost predicate OpenedAt(states: seq<State>, events: seq<Event>, n: nat, i: nat)
    requires |states| == |events| + 1 && n <= |events|
  {
    && i < n && events[i].Decide?
    && states[i].hand.Some? && states[i].hand.value.index < |states[i].log| && Passes(states[i])
    && forall j :: i < j < n ==> !Closes(states[j], events[j])
  }

  /** In every run the gate is open exactly if a unit got through and nothing has closed it since. */
  lemma {:induction false} GateIsOpenIff(capacity: nat, states: seq<State>, events: seq<Event>, n: nat)
    requires capacity >= 1 && IsRun(capacity, states, events) && n <= |events|
    ensures !states[n].waiting <==> exists i: nat :: OpenedAt(states, events, n, i)
  {
    if n > 0 {
      var m := n - 1;
      GateIsOpenIff(capacity, states, events, m);
      assert Enabled(states[m], events[m]) && states[m + 1] == Step(states[m], events[m]);
      WaitingStep(states[m], events[m]);
      if !states[n].waiting {
        if events[m].Decide? {
          assert OpenedAt(states, events, n, m);
        } else {
          var i: nat :| OpenedAt(states, events, m, i);
          assert OpenedAt(states, events, n, i);
        }
      }
      if i: nat :| OpenedAt(states, events, n, i) {
        if i < m {
          assert OpenedAt(states, events, m, i);
          assert !Closes(states[m], events[m]);
        }
      }
    }
  }

  lemma WaitingStep(s: State, e: Event)
    requires Enabled(s, e) && (s.hand.Some? ==> s.hand.value.index < |s.log|)
    ensures Step(s, e).waiting == if e.Decide? then !Passes(s) else s.waiting || Closes(s, e)
    ensures Step(s, e).observed == if e.Decide? || e.StartSession? then s.queue.stats.dropped else s.observed
    ensures Step(s, e).awaitingResume == if e.StartSession? || e.Take? then false else s.awaitingResume || e.Interrupted?
    ensures e.Interrupted? && s.awaitingResume ==> Step(s, e).queue == s.queue
    ensures (e.Interrupted? && !s.awaitingResume) || e.DiscardBetween? ==> Step(s, e).queue.items == []
  {}

  // ----- the loop, section by section -----

  /**
   The send loop's locals and the queue it shares with producers. `Interrupted`,
   `TakeUnit` and `DecideOn` are the three lock-separated parts of an iteration;
   producers push between them.
   */
  class SendLoop {
    const queue: BQ.Bounded<nat>
    var waiting: bool
    var awaitingResume: bool
    var observed: nat
    ghost var inSession: bool
    ghost var session: nat
    ghost var log: seq<Unit>
    ghost var hand: Option<Hand>
    ghost var sent: seq<Sent>

    ghost function View(): State
      reads this, queue
    {
      State(log, queue.View(), session, inSession, waiting, awaitingResume, observed, hand, sent)
    }

    constructor (capacity: nat)
      requires capacity >= 1
      ensures View() == Init(capacity) && Inv(View()) && fresh(queue)
    {
      queue := new BQ.Bounded<nat>(capacity);
      waiting, awaitingResume, observed := true, false, 0;
      inSession, session, log, hand, sent := false, 0, [], None, [];
    }

    method Begin()
      requires Inv(View()) && Enabled(View(), StartSession)
      modifies this
      ensures View() == Step(old(View()), StartSession) && Inv(View())
    {
      StepKeepsInv(View(), StartSession);
      waiting, awaitingResume, observed := true, false, queue.stats.dropped;
      session, inSession := session + 1, true;
    }

    method WaitForTrack()
      requires Inv(View()) && Enabled(View(), Interrupted)
      modifies this, queue
      ensures View() == Step(old(View()), Interrupted) && Inv(View())
    {
      StepKeepsInv(View(), Interrupted);
      if !awaitingResume { var _ := queue.DiscardAll(); }
      awaitingResume := true;
    }

    method TakeUnit() returns (index: Option<nat>)
      requires Inv(View()) && Enabled(View(), Take)
      modifies this, queue
      ensures View() == Step(old(View()), Take) && Inv(View())
      ensures index == BQ.Front(old(queue.View()))
    {
      StepKeepsInv(View(), Take);
      if awaitingResume {
        waiting := true;
        awaitingResume := false;
      }
      index := queue.TakeFront();
      hand := match index case None => None case Some(i) => Some(Hand(i, queue.stats.dropped));
    }

    /** Reads the drop counter, gates the unit in hand, and sends it if the gate lets it through. */
    method DecideOn(unit: Unit, delivered: bool) returns (passed: bool)
      requires Inv(View()) && Enabled(View(), Decide(delivered)) && log[hand.value.index] == unit
      modifies this
      ensures View() == Step(old(View()), Decide(delivered)) && Inv(View())
      ensures passed <==> !(old(waiting) || unit.discontinuity || queue.stats.dropped != old(observed)) || unit.keyframe
    {
      StepKeepsInv(View(), Decide(delivered));
      ghost var h := hand.value;
      var drops := queue.stats.dropped;
      if unit.discontinuity || drops != observed { waiting := true; }
      observed := drops;
      hand := None;
      passed := !waiting || unit.keyframe;
      if !passed { return; }
      waiting := false;
      if delivered {
        sent := sent + [Sent(h.index, session, drops - h.dropsAtPop)];
      } else {
        inSession := false;
      }
    }
  }
}
