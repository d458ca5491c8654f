/**
 The WHEP session manager as a transition system. Every lock-held section of
 create, close, reap, publish, media loss, configure and shutdown is one atomic
 step; creating a session spans several of them, so creations in flight are part
 of the state and may be overtaken by any other step. One lifecycle thread calls
 configure and shutdown.
 */
module WhepSessions {
  import opened Common

  type Id = nat        // session ids, drawn at random and possibly reused
  type Handle = nat    // session objects, never reused

  /** Where a creation in flight stands. */
  datatype Call =
    | Negotiating(id: Id, handle: Handle)   // registered, accepting the offer
    | Activating(id: Id, handle: Handle)    // checked once more, about to start media
    | Abandoning(id: Id, handle: Handle)    // media did not start, about to close by id

  datatype Phase =
    | Serving      // configured
    | Draining     // shutdown has flagged the manager
    | Down         // shutdown has emptied the map, or nothing was ever configured

  datatype State = State(
    enabled: bool, stopping: bool, mediaAvailable: bool, maxPeers: nat,
    sessions: map<Id, Handle>,
    keyframe: Option<nat>,            // cached keyframe
    created: nat, closedCount: nat, signalingErrors: nat,
    phase: Phase,
    calls: map<nat, Call>,
    next: Handle,                     // the next session object
    closing: set<Handle>,             // out of the map, close not yet done
    closed: set<Handle>,              // closed objects
    running: set<Handle>)             // objects with a running media worker

  datatype Event =
    | Register(call: nat, id: Id, peerCreated: bool)
    | OfferRejected(call: nat)
    | OfferAccepted(call: nat)
    | StartMedia(call: nat, threadStarted: bool)
    | Abandon(call: nat)
    | CloseById(id: Id)
    | Reap(stale: set<Id>)
    | FinishClose(handle: Handle)
    | SetMedia(available: bool, changed: bool)
    | Publish(unit: nat, isKeyframe: bool, discontinuity: bool)
    | ShutdownBegin
    | ShutdownEnd
    | Configure(enable: bool, peers: nat)

  const Init := State(false, true, true, 0, map[], None, 0, 0, 0, Down, map[], 0, {}, {}, {})

  predicate Enabled(s: State, e: Event) {
    match e
    case Register(call, _, _) => call !in s.calls
    case OfferRejected(call) => call in s.calls && s.calls[call].Negotiating?
    case OfferAccepted(call) => call in s.calls && s.calls[call].Negotiating?
    case StartMedia(call, _) => call in s.calls && s.calls[call].Activating?
    case Abandon(call) => call in s.calls && s.calls[call].Abandoning?
    case FinishClose(handle) => handle in s.closing
    case ShutdownBegin => !s.phase.Draining?
    case ShutdownEnd => s.phase.Draining?
    case Configure(_, _) => s.phase.Down?
    case _ => true
  }

  /** The objects registered under these ids. */
  function Handles(m: map<Id, Handle>, ids: set<Id>): set<Handle> {
    set id | id in ids && id in m :: m[id]
  }

  /** Takes the sessions with these ids out of the map; their objects remain to be closed. */
  function Remove(s: State, ids: set<Id>): State {
    var gone := ids * s.sessions.Keys;
    s.(sessions := s.sessions - gone, closedCount := s.closedCount + |gone|,
       closing := s.closing + Handles(s.sessions, gone))
  }

  function Step(s: State, e: Event): State
    requires Enabled(s, e)
  {
    match e
    case Register(call, id, peerCreated) =>
      if !s.enabled || s.stopping || !s.mediaAvailable || |s.sessions| >= s.maxPeers then s
      else if !peerCreated then s.(signalingErrors := s.signalingErrors + 1)
      else if id in s.sessions then s // another id is drawn
      else s.(sessions := s.sessions[id := s.next], created := s.created + 1, next := s.next + 1,
              calls := s.calls[call := Negotiating(id, s.next)])
    case OfferRejected(call) =>
      Remove(s.(signalingErrors := s.signalingErrors + 1, calls := s.calls - {call}), {s.calls[call].id})
    case OfferAccepted(call) =>
      var c := s.calls[call];
      if s.stopping || !s.mediaAvailable || c.id !in s.sessions || s.sessions[c.id] != c.handle
      then s.(closed := s.closed + {c.handle}, running := s.running - {c.handle}, calls := s.calls - {call})
      else s.(calls := s.calls[call := Activating(c.id, c.handle)])
    case StartMedia(call, threadStarted) =>
      var c := s.calls[call];
      if c.handle in s.closed || !threadStarted then s.(calls := s.calls[call := Abandoning(c.id, c.handle)])
      else s.(running := s.running + {c.handle}, calls := s.calls - {call})
    case Abandon(call) => Remove(s.(calls := s.calls - {call}), {s.calls[call].id})
    case CloseById(id) => Remove(s, {id})
    case Reap(stale) => Remove(s, stale)
    case FinishClose(handle) =>
      s.(closing := s.closing - {handle}, closed := s.closed + {handle}, running := s.running - {handle})
    case SetMedia(available, changed) =>
      if s.mediaAvailable == available && !changed then s
      else if available then s.(mediaAvailable := true)
      else Remove(s.(mediaAvailable := false, keyframe := None), s.sessions.Keys)
    case Publish(unit, isKeyframe, discontinuity) =>
      if !s.enabled || s.stopping || !s.mediaAvailable then s
      else s.(keyframe := if isKeyframe then Some(unit) else if discontinuity then None else s.keyframe)
    case ShutdownBegin => s.(enabled := false, stopping := true, phase := Draining)
    case ShutdownEnd => Remove(s.(keyframe := None, phase := Down), s.sessions.Keys)
    case Configure(enable, peers) =>
      s.(enabled := enable, maxPeers := peers, stopping := !enable, phase := Serving)
  }

  // ----- the invariant -----

  /** Every session object is in the map, waiting to be closed, or closed. */
  ghost predicate Accounted(s: State, h: Handle) {
    h in s.sessions.Values || h in s.closing || h in s.closed
  }

  ghost predicate Counted(s: State) {
    && s.created == s.closedCount + |s.sessions|
    && |s.sessions| <= s.maxPeers
  }

  ghost predicate Owned(s: State) {
    && (forall c :: c in s.calls ==> s.calls[c].handle < s.next)
    && (forall h :: 0 <= h < s.next ==> Accounted(s, h))
    && (forall h :: h in s.running ==> h < s.next && h !in s.closed)
  }

  ghost predicate Gated(s: State) {
    && (!s.mediaAvailable ==> s.sessions == map[] && s.keyframe == None)
    && (s.phase.Draining? ==> s.stopping && !s.enabled)
    && (s.phase.Down? ==> s.stopping && !s.enabled && s.sessions == map[] && s.keyframe == None)
  }

  ghost predicate Inv(s: State) { Counted(s) && Owned(s) && Gated(s) }

  lemma RemovedCount(m: map<Id, Handle>, gone: set<Id>)
    requires gone <= m.Keys
    ensures |m - gone| == |m| - |gone|
  {
    assert (m - gone).Keys == m.Keys - gone;
    assert |m| == |m.Keys| && |m - gone| == |(m - gone).Keys|;
  }

  lemma RemoveKeeps(s: State, ids: set<Id>)
    ensures Counted(s) ==> Counted(Remove(s, ids))
    ensures Owned(s) ==> Owned(Remove(s, ids))
    ensures ids >= s.sessions.Keys || s.sessions == map[] ==> Remove(s, ids).sessions == map[]
  {
    var gone := ids * s.sessions.Keys;
    var t := Remove(s, ids);
    RemovedCount(s.sessions, gone);
    if Owned(s) {
      forall h | 0 <= h < t.next ensures Accounted(t, h) {
        assert Accounted(s, h);
        if h in s.sessions.Values {
          var id :| id in s.sessions && s.sessions[id] == h;
          if id !in gone { assert t.sessions[id] == h; }
        }
      }
    }
  }

  lemma AddedHandle(s: State, id: Id)
    requires id !in s.sessions
    ensures |s.sessions[id := s.next]| == |s.sessions| + 1
    ensures s.next in s.sessions[id := s.next].Values
    ensures forall h :: h in s.sessions.Values ==> h in s.sessions[id := s.next].Values
  {
    var m := s.sessions[id := s.next];
    assert m.Keys == s.sessions.Keys + {id};
    assert |m| == |m.Keys| && |s.sessions| == |s.sessions.Keys|;
    assert m[id] == s.next;
    forall h | h in s.sessions.Values ensures h in m.Values {
      var i :| i in s.sessions && s.sessions[i] == h;
      assert m[i] == h;
    }
  }

  /** A step that leaves the map and the objects' numbering alone and forgets no close keeps every object accounted. */
  lemma OwnedStays(s: State, t: State)
    requires Owned(s) && t.next == s.next && t.sessions == s.sessions
    requires s.closing + s.closed <= t.closing + t.closed
    requires forall c :: c in t.calls ==> t.calls[c].handle < s.next
    requires forall h :: h in t.running ==> h < s.next && h !in t.closed
    ensures Owned(t)
  {
    forall h | 0 <= h < t.next ensures Accounted(t, h) { assert Accounted(s, h); }
  }

  lemma RegisterOwns(s: State, call: nat, id: Id, peerCreated: bool)
    requires Inv(s) && Enabled(s, Register(call, id, peerCreated))
    ensures Owned(Step(s, Register(call, id, peerCreated)))
  {
    var t := Step(s, Register(call, id, peerCreated));
    if t.next == s.next {
      OwnedStays(s, t);
    } else {
      AddedHandle(s, id);
      forall h | 0 <= h < t.next ensures Accounted(t, h) { assert h < s.next ==> Accounted(s, h); }
    }
  }

  predicate Removes(s: State, e: Event) {
    e.OfferRejected? || e.Abandon? || e.CloseById? || e.Reap? || e.ShutdownEnd?
    || (e.SetMedia? && !e.available && (e.changed || s.mediaAvailable))
  }

  /** A removing step as an update of flags and calls, then a removal. */
  lemma RemovalShape(s: State, e: Event) returns (u: State, ids: set<Id>)
    requires Enabled(s, e) && Removes(s, e)
    ensures Step(s, e) == Remove(u, ids)
    ensures u.sessions == s.sessions && u.next == s.next && u.closing == s.closing && u.closed == s.closed
    ensures u.running == s.running && forall c :: c in u.calls ==> c in s.calls && u.calls[c] == s.calls[c]
    ensures u.created == s.created && u.closedCount == s.closedCount && u.maxPeers == s.maxPeers
    ensures u.enabled == s.enabled && u.stopping == s.stopping
    ensures e.ShutdownEnd? || e.SetMedia? ==> ids == s.sessions.Keys && u.keyframe == None
    ensures u.keyframe == None || u.keyframe == s.keyframe
    ensures u.phase == (if e.ShutdownEnd? then Down else s.phase)
    ensures u.mediaAvailable == (s.mediaAvailable && !e.SetMedia?)
  {
    match e
    case OfferRejected(call) =>
      u, ids := s.(signalingErrors := s.signalingErrors + 1, calls := s.calls - {call}), {s.calls[call].id};
    case Abandon(call) => u, ids := s.(calls := s.calls - {call}), {s.calls[call].id};
    case CloseById(id) => u, ids := s, {id};
    case Reap(stale) => u, ids := s, stale;
    case SetMedia(_, _) => u, ids := s.(mediaAvailable := false, keyframe := None), s.sessions.Keys;
    case ShutdownEnd => u, ids := s.(keyframe := None, phase := Down), s.sessions.Keys;
  }

  lemma StepCounts(s: State, e: Event)
    requires Inv(s) && Enabled(s, e)
    ensures Counted(Step(s, e))
  {
    if Removes(s, e) {
      var u, ids := RemovalShape(s, e);
      RemoveKeeps(u, ids);
    } else if e.Register? && e.id !in s.sessions {
      AddedHandle(s, e.id);
    }
  }

  lemma RemovalOwns(s: State, e: Event)
    requires Owned(s) && Enabled(s, e) && Removes(s, e)
    ensures Owned(Step(s, e))
  {
    var u, ids := RemovalShape(s, e);
    OwnedStays(s, u);
    RemoveKeeps(u, ids);
  }

  lemma CallOwns(s: State, e: Event)
    requires Owned(s) && Enabled(s, e) && (e.OfferAccepted? || e.StartMedia? || e.FinishClose?)
    ensures Owned(Step(s, e))
  {
    var t := Step(s, e);
    assert t.next == s.next && t.sessions == s.sessions;
    OwnedStays(s, t);
  }

  lemma StepOwns(s: State, e: Event)
    requires Inv(s) && Enabled(s, e)
    ensures Owned(Step(s, e))
  {
    if Removes(s, e) {
      RemovalOwns(s, e);
    } else if e.Register? {
      RegisterOwns(s, e.call, e.id, e.peerCreated);
    } else if e.OfferAccepted? || e.StartMedia? || e.FinishClose? {
      CallOwns(s, e);
    } else {
      FlagsOwn(s, e);
    }
  }

  lemma FlagsOwn(s: State, e: Event)
    requires Owned(s) && Enabled(s, e)
    requires e.Publish? || e.ShutdownBegin? || e.Configure? || (e.SetMedia? && !Removes(s, e))
    ensures Owned(Step(s, e))
  {
    OwnedStays(s, Step(s, e));
  }

  lemma StepGates(s: State, e: Event)
    requires Inv(s) && Enabled(s, e)
    ensures Gated(Step(s, e))
  {
    if Removes(s, e) {
      var u, ids := RemovalShape(s, e);
      RemoveKeeps(u, ids);
    }
  }

  lemma StepKeepsInv(s: State, e: Event)
    requires Inv(s) && Enabled(s, e)
    ensures Inv(Step(s, e))
  {
    StepCounts(s, e);
    StepOwns(s, e);
    StepGates(s, e);
  }

  // ----- every interleaving -----

  ghost predicate IsRun(states: seq<State>, events: seq<Event>) {
    && |states| == |events| + 1 && states[0] == Init
    && forall i :: 0 <= i < |events| ==>
         Enabled(states[i], events[i]) && states[i + 1] == Step(states[i], events[i])
  }

  lemma {:induction false} RunKeepsInv(states: seq<State>, events: seq<Event>)
    requires IsRun(states, events)
    ensures Inv(states[|events|])
  {
    if events != [] {
      var n := |events| - 1;
      RunKeepsInv(states[..|events|], events[..n]);
      StepKeepsInv(states[n], events[n]);
    }
  }

  /**
   In every reachable state: sessions created are closed or live, live sessions stay
   within the peer limit, and without media there is neither a session nor a cached
   keyframe. A running media worker belongs to a session that is in the map or about
   to be closed, so once the map is empty and pending closes are done none is left.
   */
  lemma SessionsAccounted(states: seq<State>, events: seq<Event>)
    requires IsRun(states, events)
    ensures var s := states[|events|];
            && s.created == s.closedCount + |s.sessions|
            && |s.sessions| <= s.maxPeers
            && (!s.mediaAvailable ==> s.sessions == map[] && s.keyframe == None)
            && (forall h :: h in s.running ==> h in s.sessions.Values || h in s.closing)
            && (s.phase.Down? && s.closing == {} ==> s.running == {})
  {
    RunKeepsInv(states, events);
    var s := states[|events|];
    forall h | h in s.running ensures h in s.sessions.Values || h in s.closing { assert Accounted(s, h); }
    if s.phase.Down? && s.closing == {} {
      forall h ensures h !in s.running { assert h in s.running ==> h in s.sessions.Values || h in s.closing; }
    }
  }

  /** Nothing is registered, cached or accepted. */
  ghost predicate Quiet(s: State) {
    !s.enabled && s.stopping && s.sessions == map[] && s.keyframe == None
  }

  lemma QuietStays(s: State, e: Event)
    requires Quiet(s) && Enabled(s, e) && !e.Configure?
    ensures Quiet(Step(s, e)) && Step(s, e).created == s.created
  {
    if Removes(s, e) {
      var u, ids := RemovalShape(s, e);
      RemoveKeeps(u, ids);
    }
  }

  /**
   From the end of a shutdown until the next configure, whatever happens in between,
   including any step of creations that were in flight and further shutdowns, the map
   stays empty, nothing is cached and no session is created.
   */
  lemma {:induction false} DownStaysDown(states: seq<State>, events: seq<Event>, from: nat)
    requires IsRun(states, events) && from < |events|
    requires events[from].ShutdownEnd? && forall i :: from < i < |events| ==> !events[i].Configure?
    ensures Quiet(states[|events|]) && states[|events|].created == states[from].created
  {
    var n := |events| - 1;
    assert states[n + 1] == Step(states[n], events[n]);
    if from < n {
      DownStaysDown(states[..|events|], events[..n], from);
      QuietStays(states[n], events[n]);
    } else {
      RunKeepsInv(states, events);
    }
  }

  // ----- what is accepted -----

  ghost predicate Serves(s: State) { s.enabled && !s.stopping && s.mediaAvailable }

  /**
   A creation registers its session if and only if the manager serves, a place is free,
   the peer could be created and the id is new; then exactly that entry is added.
   Otherwise nothing changes but the count of failed peers.
   */
  lemma RegistersIff(s: State, call: nat, id: Id, peerCreated: bool)
    requires Enabled(s, Register(call, id, peerCreated))
    ensures var t := Step(s, Register(call, id, peerCreated));
            var accepted := s.enabled && !s.stopping && s.mediaAvailable && |s.sessions| < s.maxPeers
                            && peerCreated && id !in s.sessions;
            && (call in t.calls <==> accepted)
            && (accepted ==> && t.sessions == s.sessions[id := s.next] && t.created == s.created + 1
                             && t.calls == s.calls[call := Negotiating(id, s.next)] && t.next == s.next + 1)
            && (!accepted ==> t == s.(signalingErrors := t.signalingErrors))
            && t.signalingErrors == s.signalingErrors
                 + (if Serves(s) && |s.sessions| < s.maxPeers && !peerCreated then 1 else 0)
  {}

  /** Its second check passes exactly if the session is still the one registered and still wanted; its media start exactly if it was not closed meanwhile. */
  lemma ProceedsIff(s: State, call: nat, threadStarted: bool)
    requires call in s.calls
    ensures s.calls[call].Negotiating? ==>
              var c, t := s.calls[call], Step(s, OfferAccepted(call));
              && (call in t.calls && t.calls[call].Activating? <==>
                    !s.stopping && s.mediaAvailable && c.id in s.sessions && s.sessions[c.id] == c.handle)
              && (call !in t.calls ==> c.handle in t.closed)
    ensures s.calls[call].Activating? ==>
              var c, t := s.calls[call], Step(s, StartMedia(call, threadStarted));
              && (call !in t.calls <==> c.handle !in s.closed && threadStarted)
              && (call !in t.calls ==> c.handle in t.running)
              && (call in t.calls ==> t.calls[call].Abandoning? && t.running == s.running)
    ensures s.calls[call].Abandoning? ==> s.calls[call].id !in Step(s, Abandon(call)).sessions
  {}

  /** A finished close stops the session's media for good. */
  lemma CloseFinishes(s: State, handle: Handle)
    requires Enabled(s, FinishClose(handle))
    ensures var t := Step(s, FinishClose(handle));
            && handle in t.closed && handle !in t.running && t.closing == s.closing - {handle}
            && (forall h :: h != handle ==> (h in t.running <==> h in s.running) && (h in t.closed <==> h in s.closed))
            && t.sessions == s.sessions
  {}

  /** What each way of closing takes out of the map: the ids it names and no others. */
  lemma ClosesExactly(s: State, e: Event)
    requires Enabled(s, e)
    requires e.CloseById? || e.Reap? || e.OfferRejected? || e.Abandon? || e.ShutdownEnd? || e.SetMedia?
    ensures var t := Step(s, e);
            var gone := match e
              case CloseById(id) => {id}
              case Reap(stale) => stale
              case OfferRejected(call) => {s.calls[call].id}
              case Abandon(call) => {s.calls[call].id}
              case ShutdownEnd => s.sessions.Keys
              case SetMedia(available, changed) =>
                if !available && (changed || s.mediaAvailable) then s.sessions.Keys else {}
              case _ => {};
            && (forall id :: id in t.sessions <==> id in s.sessions && id !in gone)
            && (forall id :: id in t.sessions ==> t.sessions[id] == s.sessions[id])
            && (forall id :: id in s.sessions && id in gone ==> s.sessions[id] in t.closing)
            && t.closedCount - s.closedCount == |s.sessions| - |t.sessions|
            && (e.SetMedia? ==> t.mediaAvailable == e.available)
  {
    var t := Step(s, e);
    if Removes(s, e) {
      var u, ids := RemovalShape(s, e);
      RemovedCount(s.sessions, ids * s.sessions.Keys);
    }
  }

  lemma ConfiguresExactly(s: State, enable: bool, peers: nat)
    requires Enabled(s, Configure(enable, peers))
    ensures var t := Step(s, Configure(enable, peers));
            t.maxPeers == peers && t.enabled == enable && t.stopping == !enable && t.sessions == s.sessions
    ensures Serves(Step(s, Configure(enable, peers))) <==> enable && s.mediaAvailable
  {}

  /** The limit is reached: for every `n` some run has `n` sessions under a limit of `n`. */
  lemma CanFill(n: nat) returns (states: seq<State>, events: seq<Event>)
    ensures IsRun(states, events)
    ensures var s := states[|events|]; |s.sessions| == n == s.maxPeers && Serves(s)
  {
    var s := Step(Init, Configure(true, n));
    states, events := Filled([Init, s], [Configure(true, n)], n);
  }

  ghost predicate Filling(states: seq<State>, events: seq<Event>, n: nat, k: nat) {
    && IsRun(states, events)
    && var s := states[|events|];
       && Serves(s) && s.maxPeers == n && |s.sessions| == k <= n
       && (forall id :: id in s.sessions ==> id < k) && (forall c :: c in s.calls ==> c < k)
  }

  lemma Filled(start: seq<State>, first: seq<Event>, n: nat) returns (states: seq<State>, events: seq<Event>)
    requires Filling(start, first, n, 0)
    ensures Filling(states, events, n, n)
  {
    states, events := start, first;
    var k := 0;
    while k < n
      invariant k <= n && Filling(states, events, n, k)
    {
      states, events := OneSession(states, events, n, k);
      k := k + 1;
    }
  }

  lemma OneSession(states: seq<State>, events: seq<Event>, n: nat, k: nat) returns (more: seq<State>, since: seq<Event>)
    requires Filling(states, events, n, k) && k < n
    ensures Filling(more, since, n, k + 1)
  {
    var s, e := states[|events|], Register(k, k, true);
    RegistersIff(s, k, k, true);
    AddedHandle(s, k);
    since := events + [e];
    more := states + [Step(s, e)];
    forall i | 0 <= i < |since| ensures Enabled(more[i], since[i]) && more[i + 1] == Step(more[i], since[i]) {
      if i < |events| { assert Enabled(states[i], events[i]); }
    }
  }

  // ----- the cached keyframe -----

  /** An event after which the keyframe cached before is no longer the one. */
  ghost predicate Replaces(s: State, e: Event) {
    || (e.Publish? && Serves(s) && (e.isKeyframe || e.discontinuity))
    || (e.SetMedia? && !e.available && (e.changed || s.mediaAvailable))
    || e.ShutdownEnd?
  }

  ghost predicate CachedAt(states: seq<State>, events: seq<Event>, n: nat, i: nat, unit: nat)
    requires |states| == |events| + 1 && n <= |events|
  {
    && i < n && events[i].Publish? && events[i].unit == unit && events[i].isKeyframe && Serves(states[i])
    && forall j :: i < j < n ==> !Replaces(states[j], events[j])
  }

  /**
   In every run: what a new viewer starts from is the last keyframe published while the
   manager served, with no discontinuity, loss of media or shutdown since; without one
   nothing is cached.
   */
  lemma {:induction false} KeyframeIs(states: seq<State>, events: seq<Event>, n: nat)
    requires IsRun(states, events) && n <= |events|
    ensures forall unit: nat :: states[n].keyframe == Some(unit) <==> exists i: nat :: CachedAt(states, events, n, i, unit)
  {
    if n > 0 {
      var m := n - 1;
      KeyframeIs(states, events, m);
      var s, e := states[m], events[m];
      assert Enabled(s, e) && states[m + 1] == Step(s, e);
      KeyframeStep(s, e);
      forall unit: nat ensures states[n].keyframe == Some(unit) <==> exists i: nat :: CachedAt(states, events, n, i, unit) {
        if states[n].keyframe == Some(unit) {
          if Replaces(s, e) {
            assert CachedAt(states, events, n, m, unit);
          } else {
            var i: nat :| CachedAt(states, events, m, i, unit);
            assert CachedAt(states, events, n, i, unit);
          }
        }
        if i: nat :| CachedAt(states, events, n, i, unit) {
          if i < m {
            assert CachedAt(states, events, m, i, unit);
            assert !Replaces(states[m], events[m]);
          }
        }
      }
    }
  }

  lemma KeyframeStep(s: State, e: Event)
    requires Enabled(s, e)
    ensures Step(s, e).keyframe ==
              if e.Publish? && Serves(s) && e.isKeyframe then Some(e.unit)
              else if Replaces(s, e) then None
              else s.keyframe
  {
    if Removes(s, e) { var u, ids := RemovalShape(s, e); }
  }

  lemma ImageGrows(sessions: map<Id, Handle>, gone: set<Id>, id: Id)
    requires gone <= sessions.Keys && id in sessions
    ensures Handles(sessions, gone + {id}) == Handles(sessions, gone) + {sessions[id]}
    ensures sessions - (gone + {id}) == (sessions - gone) - {id}
  {}

  /** The reaper's sweep: erases the stale entries one by one and counts them. */
  method SweepStale(sessions: map<Id, Handle>, stale: set<Id>)
    returns (left: map<Id, Handle>, removed: set<Handle>, count: nat)
    ensures left == sessions - stale * sessions.Keys
    ensures removed == Handles(sessions, stale * sessions.Keys)
    ensures count == |stale * sessions.Keys|
  {
    left, removed, count := sessions, {}, 0;
    var todo := sessions.Keys;
    ghost var gone := {};
    while todo != {}
      invariant todo <= sessions.Keys && gone == stale * (sessions.Keys - todo)
      invariant left == sessions - gone && count == |gone|
      invariant removed == Handles(sessions, gone)
      decreases todo
    {
      var id :| id in todo;
      todo := todo - {id};
      if id in stale {
        assert gone + {id} == stale * (sessions.Keys - todo);
        ImageGrows(sessions, gone, id);
        gone := gone + {id};
        removed := removed + {sessions[id]};
        left := left - {id};
        count := count + 1;
      } else {
        assert gone == stale * (sessions.Keys - todo);
      }
    }
    assert sessions.Keys - todo == sessions.Keys;
  }

  lemma SingleId(m: map<Id, Handle>, id: Id)
    requires id in m
    ensures {id} * m.Keys == {id} && Handles(m, {id}) == {m[id]}
  {}

  lemma AbsentId(m: map<Id, Handle>, id: Id)
    requires id !in m
    ensures {id} * m.Keys == {} && Handles(m, {}) == {} && m - {} == m
  {}

  lemma RemovePresent(s: State, id: Id)
    requires id in s.sessions
    ensures Remove(s, {id}) ==
              s.(sessions := s.sessions - {id}, closedCount := s.closedCount + 1, closing := s.closing + {s.sessions[id]})
  {
    SingleId(s.sessions, id);
  }

  lemma RemoveAbsent(s: State, id: Id)
    requires id !in s.sessions
    ensures Remove(s, {id}) == s
  {
    AbsentId(s.sessions, id);
    assert s.closing + {} == s.closing;
  }

  lemma RejectIsRemoval(s: State, call: nat)
    requires Enabled(s, OfferRejected(call))
    ensures Step(s, OfferRejected(call)) ==
              Remove(s.(signalingErrors := s.signalingErrors + 1, calls := s.calls - {call}), {s.calls[call].id})
  {}

  // ----- the manager, section by section -----

  /**
   The manager's fields. A method is one lock-held section; what other threads do
   between two sections of one call is any run of these methods. The ghost fields
   record the creations in flight and the session objects outside the map.
   */
  class WebRtcManager {
    var enabled: bool
    var stopping: bool
    var mediaAvailable: bool
    var maxPeers: nat
    var sessions: map<Id, Handle>
    var keyframe: Option<nat>
    var created: nat
    var closedCount: nat
    var signalingErrors: nat
    var next: Handle
    ghost var phase: Phase
    ghost var calls: map<nat, Call>
    ghost var closing: set<Handle>
    ghost var closed: set<Handle>
    ghost var running: set<Handle>

    ghost function View(): State
      reads this
    {
      State(enabled, stopping, mediaAvailable, maxPeers, sessions, keyframe, created, closedCount,
            signalingErrors, phase, calls, next, closing, closed, running)
    }

    constructor ()
      ensures View() == Init && Inv(View())
    {
      enabled, stopping, mediaAvailable, maxPeers := false, true, true, 0;
      sessions, keyframe, created, closedCount, signalingErrors, next := map[], None, 0, 0, 0, 0;
      phase, calls, closing, closed, running := Down, map[], {}, {}, {};
    }

    method RegisterSession(ghost call: nat, id: Id, peerCreated: bool) returns (handle: Option<Handle>)
      requires Inv(View()) && Enabled(View(), Register(call, id, peerCreated))
      modifies this
      ensures View() == Step(old(View()), Register(call, id, peerCreated)) && Inv(View())
      ensures handle.Some? <==> && old(enabled) && !old(stopping) && old(mediaAvailable)
                                && |old(sessions)| < old(maxPeers) && peerCreated && id !in old(sessions)
      ensures handle.Some? ==> && handle.value == old(next) && sessions == old(sessions)[id := handle.value]
                               && created == old(created) + 1
      ensures handle.None? ==> sessions == old(sessions) && created == old(created)
    {
      StepKeepsInv(View(), Register(call, id, peerCreated));
      if !enabled || stopping || !mediaAvailable || |sessions| >= maxPeers { return None; }
      if !peerCreated {
        signalingErrors := signalingErrors + 1;
        return None;
      }
      if id in sessions { return None; }
      handle := Some(next);
      sessions := sessions[id := next];
      created := created + 1;
      calls := calls[call := Negotiating(id, next)];
      next := next + 1;
    }

    /** Erases one id if it is in the map. */
    method EraseId(id: Id) returns (found: bool)
      modifies this
      ensures found == (id in old(sessions)) && View() == Remove(old(View()), {id})
    {
      found := id in sessions;
      if !found {
        RemoveAbsent(View(), id);
      } else {
        RemovePresent(View(), id);
        closing := closing + {sessions[id]};
        sessions := sessions - {id};
        closedCount := closedCount + 1;
      }
    }

    method CloseSession(id: Id) returns (found: bool)
      requires Inv(View())
      modifies this
      ensures found == (id in old(sessions)) && View() == Step(old(View()), CloseById(id)) && Inv(View())
    {
      StepKeepsInv(View(), CloseById(id));
      found := EraseId(id);
    }

    method RejectOffer(ghost call: nat, id: Id)
      requires Inv(View()) && Enabled(View(), OfferRejected(call)) && calls[call].id == id
      modifies this
      ensures View() == Step(old(View()), OfferRejected(call)) && Inv(View())
    {
      RejectIsRemoval(View(), call);
      StepKeepsInv(View(), OfferRejected(call));
      signalingErrors := signalingErrors + 1;
      calls := calls - {call};
      var _ := EraseId(id);
    }

    /** The second check of a creation: the session must still be registered and wanted. */
    method AcceptOffer(ghost call: nat, id: Id, handle: Handle) returns (ok: bool, initial: Option<nat>)
      requires Inv(View()) && Enabled(View(), OfferAccepted(call)) && calls[call] == Negotiating(id, handle)
      modifies this
      ensures View() == Step(old(View()), OfferAccepted(call)) && Inv(View())
      ensures ok <==> !old(stopping) && old(mediaAvailable) && id in old(sessions) && old(sessions)[id] == handle
      ensures ok ==> initial == keyframe == old(keyframe)
    {
      StepKeepsInv(View(), OfferAccepted(call));
      if stopping || !mediaAvailable || id !in sessions || sessions[id] != handle {
        closed := closed + {handle};
        running := running - {handle};
        calls := calls - {call};
        return false, None;
      }
      calls := calls[call := Activating(id, handle)];
      return true, keyframe;
    }

    method CleanupStale(stale: set<Id>) returns (count: nat)
      requires Inv(View())
      modifies this
      ensures View() == Step(old(View()), Event.Reap(stale)) && Inv(View())
      ensures closedCount == old(closedCount) + count
    {
      StepKeepsInv(View(), Event.Reap(stale));
      count := TakeStale(stale);
    }

    /** Moves the sessions with these ids out of the map. */
    method TakeStale(ids: set<Id>) returns (count: nat)
      modifies this
      ensures View() == Remove(old(View()), ids) && closedCount == old(closedCount) + count
    {
      var left, removed, n := SweepStale(sessions, ids);
      count := n;
      sessions, closing, closedCount := left, closing + removed, closedCount + n;
    }

    method SetMediaAvailable(available: bool, changed: bool)
      requires Inv(View())
      modifies this
      ensures View() == Step(old(View()), SetMedia(available, changed)) && Inv(View())
    {
      StepKeepsInv(View(), SetMedia(available, changed));
      if mediaAvailable == available && !changed { return; }
      mediaAvailable := available;
      if available { return; }
      keyframe := None;
      var _ := TakeStale(sessions.Keys);
    }

    method PublishUnit(unit: nat, isKeyframe: bool, discontinuity: bool) returns (recipients: set<Handle>)
      requires Inv(View())
      modifies this
      ensures View() == Step(old(View()), Publish(unit, isKeyframe, discontinuity)) && Inv(View())
      ensures recipients == if old(enabled) && !old(stopping) && old(mediaAvailable) then sessions.Values else {}
    {
      StepKeepsInv(View(), Publish(unit, isKeyframe, discontinuity));
      if !enabled || stopping || !mediaAvailable { return {}; }
      if discontinuity { keyframe := None; }
      if isKeyframe { keyframe := Some(unit); }
      recipients := sessions.Values;
    }

    method BeginShutdown()
      requires Inv(View()) && Enabled(View(), ShutdownBegin)
      modifies this
      ensures View() == Step(old(View()), ShutdownBegin) && Inv(View())
    {
      StepKeepsInv(View(), ShutdownBegin);
      enabled, stopping, phase := false, true, Draining;
    }

    method EndShutdown()
      requires Inv(View()) && Enabled(View(), ShutdownEnd)
      modifies this
      ensures View() == Step(old(View()), ShutdownEnd) && Inv(View()) && sessions == map[]
    {
      StepKeepsInv(View(), ShutdownEnd);
      keyframe, phase := None, Down;
      var _ := TakeStale(sessions.Keys);
    }

    method ApplyConfig(enable: bool, peers: nat)
      requires Inv(View()) && Enabled(View(), Configure(enable, peers))
      modifies this
      ensures View() == Step(old(View()), Configure(enable, peers)) && Inv(View())
    {
      StepKeepsInv(View(), Configure(enable, peers));
      enabled, maxPeers, stopping, phase := enable, peers, !enable, Serving;
    }
  }
}
