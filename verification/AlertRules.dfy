/**
 When an alert is raised: a rule fires after enough consecutive matching results
 of one detector generation, and not again before its cooldown has passed.
 */
module AlertRules {
  import opened Common

  datatype Detection = Detection(classId: int, confidence: Float, x1: Float, y1: Float, x2: Float, y2: Float)

  datatype Roi = Roi(x1: real, y1: real, x2: real, y2: real)

  datatype Rule = Rule(className: seq<byte>, confidence: real, roi: Option<Roi>, frames: int, cooldown: int)

  datatype RuleState = RuleState(rule: Rule, consecutive: int, lastAlert: Option<int>)

  // ----- matching -----

  // class_
  const UNNAMED: seq<byte> := [99, 108, 97, 115, 115, 95]

  function ClassName(id: int, names: seq<seq<byte>>): seq<byte> {
    if 0 <= id < |names| then names[id]
    else UNNAMED + (if id < 0 then [45] + Decimal(-id) else Decimal(id))
  }

  predicate AllFinite(d: Detection) {
    d.confidence.Finite? && d.x1.Finite? && d.y1.Finite? && d.x2.Finite? && d.y2.Finite?
  }

  predicate InRoi(d: Detection, width: int, height: int, roi: Option<Roi>)
    requires AllFinite(d)
  {
    match roi
    case None => true
    case Some(box) =>
      width > 0 && height > 0 &&
      var cx := (d.x1.r + d.x2.r) * 0.5 / width as real;
      var cy := (d.y1.r + d.y2.r) * 0.5 / height as real;
      box.x1 <= cx <= box.x2 && box.y1 <= cy <= box.y2
  }

  predicate Matches(d: Detection, rule: Rule, width: int, height: int, names: seq<seq<byte>>) {
    AllFinite(d) && ClassName(d.classId, names) == rule.className && d.confidence.r >= rule.confidence
    && InRoi(d, width, height, rule.roi)
  }

  function Matching(ds: seq<Detection>, rule: Rule, width: int, height: int, names: seq<seq<byte>>): seq<Detection> {
    if ds == [] then []
    else
      var n := |ds| - 1;
      Matching(ds[..n], rule, width, height, names)
      + (if Matches(ds[n], rule, width, height, names) then [ds[n]] else [])
  }

  /** The class has this name: the one in the list or, beyond it, "class_" and the number. */
  ghost predicate Named(id: int, names: seq<seq<byte>>, name: seq<byte>) {
    if 0 <= id < |names| then names[id] == name
    else name == [99, 108, 97, 115, 115, 95] + (if id < 0 then [45] else []) + Decimal(if id < 0 then -id else id)
  }

  /** The centre of the box lies in the region, given in fractions of the frame. */
  ghost predicate CentreIn(d: Detection, roi: Roi, width: int, height: int)
    requires AllFinite(d)
  {
    && width > 0 && height > 0
    && 2.0 * roi.x1 * width as real <= d.x1.r + d.x2.r <= 2.0 * roi.x2 * width as real
    && 2.0 * roi.y1 * height as real <= d.y1.r + d.y2.r <= 2.0 * roi.y2 * height as real
  }

  /** A detection matches exactly if all its numbers are finite, its class has the rule's name, it is confident enough, and its centre lies in the rule's region, if there is one. */
  lemma MatchesIff(d: Detection, rule: Rule, width: int, height: int, names: seq<seq<byte>>)
    ensures Matches(d, rule, width, height, names) <==>
              && d.confidence.Finite? && d.x1.Finite? && d.y1.Finite? && d.x2.Finite? && d.y2.Finite?
              && Named(d.classId, names, rule.className) && d.confidence.r >= rule.confidence
              && (rule.roi.Some? ==> CentreIn(d, rule.roi.value, width, height))
  {
    NamedIff(d.classId, names, rule.className);
    if AllFinite(d) && rule.roi.Some? { InRoiIff(d, width, height, rule.roi.value); }
  }

  lemma NamedIff(id: int, names: seq<seq<byte>>, name: seq<byte>)
    ensures ClassName(id, names) == name <==> Named(id, names, name)
  {
    assert UNNAMED + [] == UNNAMED;
    Assoc(UNNAMED, [45], Decimal(if id < 0 then -id else id));
  }

  lemma InRoiIff(d: Detection, width: int, height: int, roi: Roi)
    requires AllFinite(d)
    ensures InRoi(d, width, height, Some(roi)) <==> CentreIn(d, roi, width, height)
  {
    if width > 0 && height > 0 {
      CentreBounds(roi.x1, roi.x2, d.x1.r + d.x2.r, width as real);
      CentreBounds(roi.y1, roi.y2, d.y1.r + d.y2.r, height as real);
    }
  }

  lemma CentreBounds(low: real, high: real, sum: real, n: real)
    requires n > 0.0
    ensures low <= sum * 0.5 / n <= high <==> 2.0 * low * n <= sum <= 2.0 * high * n
  {
    var c := sum * 0.5 / n;
    assert c * n == sum * 0.5;
    Compare(low, c, n);
    Compare(c, high, n);
  }

  lemma Compare(a: real, b: real, n: real)
    requires n > 0.0
    ensures a <= b <==> a * n <= b * n
  {
    if a <= b { assert (b - a) * n >= 0.0; } else { assert (a - b) * n > 0.0; }
  }

  /** What a rule collects is what matches it, in order and as often as it occurs. */
  lemma {:induction false} MatchingIff(ds: seq<Detection>, rule: Rule, width: int, height: int, names: seq<seq<byte>>,
                                       matches: Detection -> bool)
    requires forall d :: matches(d) <==> Matches(d, rule, width, height, names)
    ensures Matching(ds, rule, width, height, names) == Filter(ds, matches)
  {
    if ds != [] { MatchingIff(ds[..|ds| - 1], rule, width, height, names, matches); }
  }

  // ----- one rule, one result -----

  function Min(a: int, b: int): int { if a <= b then a else b }

  /** The rule has its streak and its cooldown behind it, so an alert is to be stored. */
  predicate Attempts(st: RuleState, matched: bool, now: int) {
    && matched && Min(st.consecutive + 1, st.rule.frames) >= st.rule.frames
    && (st.lastAlert.Some? ==> now - st.lastAlert.value >= st.rule.cooldown * NANOS_PER_SECOND)
  }

  /** The rule's next state, and whether it raises an alert. */
  function Advance(st: RuleState, matched: bool, now: int, persisted: bool): (RuleState, bool) {
    if !matched then (st.(consecutive := 0), false)
    else if Attempts(st, matched, now) && persisted then (RuleState(st.rule, 0, Some(now)), true)
    else (st.(consecutive := Min(st.consecutive + 1, st.rule.frames)), false)
  }

  /** A processed result, as one rule sees it. */
  datatype Obs = Obs(generation: nat, matched: bool, now: int, persisted: bool)

  /** A rule's state, and the generation of the last result. */
  datatype Memory = Memory(state: RuleState, generation: Option<nat>)

  /** The state once a change of generation has been noticed. */
  function Current(m: Memory, generation: nat): RuleState {
    if m.generation == Some(generation) then m.state else m.state.(consecutive := 0)
  }

  function See(m: Memory, o: Obs): (Memory, bool) {
    var (next, fires) := Advance(Current(m, o.generation), o.matched, o.now, o.persisted);
    (Memory(next, Some(o.generation)), fires)
  }

  // ----- all rules, one result -----

  /** One result to process; `persisted[r]` says whether storing an alert of rule `r` would succeed. */
  datatype Input = Input(ds: seq<Detection>, width: int, height: int, names: seq<seq<byte>>, gen: nat, now: int,
                         persisted: seq<bool>)

  function MatchingIn(rule: Rule, x: Input): seq<Detection> { Matching(x.ds, rule, x.width, x.height, x.names) }

  /** A result as the rules see it: the detections that match each of them. */
  datatype Sight = Sight(matching: seq<seq<Detection>>, gen: nat, now: int, persisted: seq<bool>)

  function SightOf(config: seq<Rule>, x: Input): Sight {
    Sight(seq(|config|, r requires 0 <= r < |config| => MatchingIn(config[r], x)), x.gen, x.now, x.persisted)
  }

  /** A raised alert: the index of its rule, the serial number in its id, and the detections that matched. */
  datatype Alert = Alert(rule: nat, serial: nat, detections: seq<Detection>)

  datatype Manager = Manager(rules: seq<RuleState>, generation: Option<nat>, nextId: nat)

  function Configured(config: seq<Rule>): Manager {
    Manager(seq(|config|, r requires 0 <= r < |config| => RuleState(config[r], 0, None)), None, 1)
  }

  function ObsOf(y: Sight, r: nat): Obs
    requires r < |y.matching| == |y.persisted|
  {
    Obs(y.gen, y.matching[r] != [], y.now, y.persisted[r])
  }

  function MemoryOf(m: Manager, r: nat): Memory
    requires r < |m.rules|
  {
    Memory(m.rules[r], m.generation)
  }

  predicate Takes(m: Manager, y: Sight) { |y.matching| == |y.persisted| == |m.rules| }

  /** What one rule does with a result, from its current state: its next state, the next serial number, any alert. */
  datatype Share = Share(next: RuleState, nextId: nat, raised: seq<Alert>)

  function ShareOf(st: RuleState, y: Sight, r: nat, serial: nat): Share
    requires r < |y.matching| == |y.persisted|
  {
    var o := ObsOf(y, r);
    var (next, fires) := Advance(st, o.matched, o.now, o.persisted);
    Share(next, serial + (if Attempts(st, o.matched, o.now) then 1 else 0),
          if fires then [Alert(r, serial, y.matching[r])] else [])
  }

  function SerialAfter(first: nat, shares: seq<Share>): nat {
    if shares == [] then first else shares[|shares| - 1].nextId
  }

  /** The shares of the first `n` rules, each starting from the serial number its predecessor leaves. */
  function SharesOf(m: Manager, y: Sight, n: nat): (shares: seq<Share>)
    requires Takes(m, y) && n <= |m.rules|
    ensures |shares| == n
  {
    if n == 0 then []
    else
      var r := n - 1;
      var before := SharesOf(m, y, r);
      before + [ShareOf(Current(MemoryOf(m, r), y.gen), y, r, SerialAfter(m.nextId, before))]
  }

  function RaisedBy(shares: seq<Share>): seq<Alert> {
    if shares == [] then []
    else
      var n := |shares| - 1;
      RaisedBy(shares[..n]) + shares[n].raised
  }

  /** The alerts a result raises, in the order of the rules. */
  function AlertsOf(m: Manager, y: Sight): seq<Alert>
    requires Takes(m, y)
  {
    RaisedBy(SharesOf(m, y, |m.rules|))
  }

  function Nexts(shares: seq<Share>): (rules: seq<RuleState>)
    ensures |rules| == |shares|
  {
    seq(|shares|, r requires 0 <= r < |shares| => shares[r].next)
  }

  function NextManager(m: Manager, y: Sight): Manager
    requires Takes(m, y)
  {
    var shares := SharesOf(m, y, |m.rules|);
    Manager(Nexts(shares), Some(y.gen), SerialAfter(m.nextId, shares))
  }

  class AlertManager {
    const config: seq<Rule>
    var rules: seq<RuleState>
    var generation: Option<nat>
    var nextId: nat
    ghost var history: seq<Input> // the results processed so far

    ghost function View(): Manager
      reads this
    {
      Manager(rules, generation, nextId)
    }

    ghost predicate Valid()
      reads this
    {
      WellFormed(config, history) && View() == RunAll(config, Sights(config, history))
    }

    constructor (config: seq<Rule>)
      ensures this.config == config && history == [] && Valid()
    {
      this.config := config;
      rules := seq(|config|, r requires 0 <= r < |config| => RuleState(config[r], 0, None));
      generation, nextId := None, 1;
      history := [];
    }

    method Process(x: Input) returns (alerts: seq<Alert>)
      requires Valid() && |x.persisted| == |config|
      modifies this
      ensures Valid() && history == old(history) + [x]
      ensures alerts == AlertsAt(config, history, |history| - 1)
    {
      ghost var m, y := View(), SightOf(config, x);
      OneMore(config, history, x);
      RulesOfConfig(config, Sights(config, history));
      history := history + [x];
      alerts := ProcessResult(x, y);
      assert View() == NextManager(m, y) && history == old(history) + [x];
      assert alerts == AlertsOf(m, y) && |history| - 1 == |old(history)|;
    }

    method ProcessResult(x: Input, ghost y: Sight) returns (alerts: seq<Alert>)
      requires |x.persisted| == |config| == |rules| && y == SightOf(config, x)
      requires forall r :: 0 <= r < |rules| ==> rules[r].rule == config[r]
      modifies this`rules, this`generation, this`nextId
      ensures View() == NextManager(old(View()), y) && alerts == AlertsOf(old(View()), y)
    {
      ghost var before := View();
      if generation != Some(x.gen) {
        ForgetStreaks();
        generation := Some(x.gen);
      }
      alerts := ProcessRules(x, y, before);
      assert rules == Nexts(SharesOf(before, y, |before.rules|));
    }

    /** The loop over the rules, once a change of generation has been noticed. */
    method ProcessRules(x: Input, ghost y: Sight, ghost m: Manager) returns (alerts: seq<Alert>)
      requires Takes(m, y) && |rules| == |m.rules| == |config| && nextId == m.nextId
      requires |x.persisted| == |config| && y == SightOf(config, x)
      requires forall q :: 0 <= q < |rules| ==> rules[q] == Current(MemoryOf(m, q), y.gen) && rules[q].rule == config[q]
      modifies this`rules, this`nextId
      ensures var shares := SharesOf(m, y, |m.rules|);
              && |rules| == |shares| && (forall q :: 0 <= q < |shares| ==> rules[q] == shares[q].next)
              && nextId == SerialAfter(m.nextId, shares) && alerts == RaisedBy(shares)
    {
      ghost var current := rules;
      ghost var shares: seq<Share> := [];
      alerts := [];
      for r := 0 to |rules|
        invariant |rules| == |m.rules| && shares == SharesOf(m, y, r)
        invariant forall q :: 0 <= q < r ==> rules[q] == shares[q].next
        invariant forall q :: r <= q < |rules| ==> rules[q] == current[q]
        invariant nextId == SerialAfter(m.nextId, shares) && alerts == RaisedBy(shares)
      {
        ghost var share := ShareOf(current[r], y, r, nextId);
        var raised := ProcessRule(r, x, y);
        alerts := alerts + raised;
        assert (shares + [share])[..r] == shares;
        shares := shares + [share];
      }
    }

    /** One rule's share of a result. */
    method ProcessRule(r: nat, x: Input, ghost y: Sight) returns (raised: seq<Alert>)
      requires r < |rules| == |config| == |x.persisted| && y == SightOf(config, x) && rules[r].rule == config[r]
      modifies this`rules, this`nextId
      ensures var share := ShareOf(old(rules)[r], y, r, old(nextId));
              rules == old(rules)[r := share.next] && nextId == share.nextId && raised == share.raised
    {
      var matching := CollectMatching(x.ds, rules[r].rule, x.width, x.height, x.names);
      var next, attempted, fires := AdvanceRule(rules[r], matching != [], x.now, x.persisted[r]);
      rules := rules[r := next];
      raised := if fires then [Alert(r, nextId, matching)] else [];
      if attempted { nextId := nextId + 1; }
    }

    /** Restarts every rule's count. */
    method ForgetStreaks()
      modifies this`rules
      ensures |rules| == |old(rules)|
      ensures forall r :: 0 <= r < |rules| ==> rules[r] == old(rules)[r].(consecutive := 0)
    {
      var i := 0;
      while i < |rules|
        invariant i <= |rules| == |old(rules)|
        invariant forall r :: 0 <= r < |rules| ==>
                    rules[r] == if r < i then old(rules)[r].(consecutive := 0) else old(rules)[r]
      {
        rules := rules[i := rules[i].(consecutive := 0)];
        i := i + 1;
      }
    }
  }

  method CollectMatching(ds: seq<Detection>, rule: Rule, width: int, height: int, names: seq<seq<byte>>)
    returns (matching: seq<Detection>)
    ensures matching == Matching(ds, rule, width, height, names)
  {
    matching := [];
    for i := 0 to |ds|
      invariant matching == Matching(ds[..i], rule, width, height, names)
    {
      assert ds[..i + 1][..i] == ds[..i];
      if Matches(ds[i], rule, width, height, names) { matching := matching + [ds[i]]; }
    }
    assert ds[..|ds|] == ds;
  }

  method AdvanceRule(st: RuleState, matched: bool, now: int, persisted: bool)
    returns (next: RuleState, attempted: bool, fires: bool)
    ensures (next, fires) == Advance(st, matched, now, persisted)
    ensures attempted == Attempts(st, matched, now)
  {
    next, attempted, fires := st, false, false;
    if !matched {
      next := next.(consecutive := 0);
      return;
    }
    next := next.(consecutive := Min(next.consecutive + 1, next.rule.frames));
    if next.consecutive < next.rule.frames { return; }
    if next.lastAlert.Some? && now - next.lastAlert.value < next.rule.cooldown * NANOS_PER_SECOND { return; }
    attempted := true;
    if !persisted { return; }
    next := next.(consecutive := 0, lastAlert := Some(now));
    fires := true;
  }

  // ----- all rules over every run of results -----

  ghost predicate WellFormed(config: seq<Rule>, inputs: seq<Input>) {
    forall i :: 0 <= i < |inputs| ==> |inputs[i].persisted| == |config|
  }

  ghost predicate Seeable(config: seq<Rule>, sights: seq<Sight>) {
    forall i :: 0 <= i < |sights| ==> |sights[i].matching| == |sights[i].persisted| == |config|
  }

  function Sights(config: seq<Rule>, inputs: seq<Input>): (sights: seq<Sight>)
    requires WellFormed(config, inputs)
    ensures |sights| == |inputs| && Seeable(config, sights)
  {
    seq(|inputs|, i requires 0 <= i < |inputs| => SightOf(config, inputs[i]))
  }

  function RunAll(config: seq<Rule>, sights: seq<Sight>): (m: Manager)
    requires Seeable(config, sights)
    ensures |m.rules| == |config|
  {
    if sights == [] then Configured(config)
    else
      var n := |sights| - 1;
      NextManager(RunAll(config, sights[..n]), sights[n])
  }

  function AlertsSeen(config: seq<Rule>, sights: seq<Sight>, i: nat): seq<Alert>
    requires Seeable(config, sights) && i < |sights|
  {
    AlertsOf(RunAll(config, sights[..i]), sights[i])
  }

  /** The alerts raised on result `i`. */
  function AlertsAt(config: seq<Rule>, inputs: seq<Input>, i: nat): seq<Alert>
    requires WellFormed(config, inputs) && i < |inputs|
  {
    AlertsSeen(config, Sights(config, inputs), i)
  }

  lemma OneMore(config: seq<Rule>, inputs: seq<Input>, x: Input)
    requires WellFormed(config, inputs) && |x.persisted| == |config|
    ensures WellFormed(config, inputs + [x])
    ensures var m, y := RunAll(config, Sights(config, inputs)), SightOf(config, x);
            && RunAll(config, Sights(config, inputs + [x])) == NextManager(m, y)
            && AlertsAt(config, inputs + [x], |inputs|) == AlertsOf(m, y)
  {
    SightsOfConcat(config, inputs, x);
    OneMoreSeen(config, Sights(config, inputs), SightOf(config, x));
  }

  lemma SightsOfConcat(config: seq<Rule>, inputs: seq<Input>, x: Input)
    requires WellFormed(config, inputs) && |x.persisted| == |config|
    ensures WellFormed(config, inputs + [x])
    ensures Sights(config, inputs + [x]) == Sights(config, inputs) + [SightOf(config, x)]
  {
    var all, before := Sights(config, inputs + [x]), Sights(config, inputs) + [SightOf(config, x)];
    forall i | 0 <= i < |all| ensures all[i] == before[i] {
      assert i < |inputs| ==> (inputs + [x])[i] == inputs[i];
    }
  }

  lemma OneMoreSeen(config: seq<Rule>, sights: seq<Sight>, y: Sight)
    requires Seeable(config, sights) && |y.matching| == |y.persisted| == |config|
    ensures Seeable(config, sights + [y])
    ensures RunAll(config, sights + [y]) == NextManager(RunAll(config, sights), y)
    ensures AlertsSeen(config, sights + [y], |sights|) == AlertsOf(RunAll(config, sights), y)
  {
    assert (sights + [y])[..|sights|] == sights;
  }

  lemma {:induction false} ShareAt(m: Manager, y: Sight, n: nat, r: nat)
    requires Takes(m, y) && r < n <= |m.rules|
    ensures SharesOf(m, y, n)[..r] == SharesOf(m, y, r)
    ensures SharesOf(m, y, n)[r] == ShareOf(Current(MemoryOf(m, r), y.gen), y, r, SerialAfter(m.nextId, SharesOf(m, y, r)))
  {
    if r < n - 1 { ShareAt(m, y, n - 1, r); }
  }

  lemma NextMemory(m: Manager, y: Sight, r: nat)
    requires Takes(m, y) && r < |m.rules|
    ensures MemoryOf(NextManager(m, y), r) == See(MemoryOf(m, r), ObsOf(y, r)).0
  {
    ShareAt(m, y, |m.rules|, r);
  }

  lemma {:induction false} RulesOfConfig(config: seq<Rule>, sights: seq<Sight>)
    requires Seeable(config, sights)
    ensures forall r :: 0 <= r < |config| ==> RunAll(config, sights).rules[r].rule == config[r]
  {
    if sights != [] {
      var n := |sights| - 1;
      RulesOfConfig(config, sights[..n]);
      var m, y := RunAll(config, sights[..n]), sights[n];
      forall r | 0 <= r < |config| ensures NextManager(m, y).rules[r].rule == config[r] {
        NextMemory(m, y, r);
        assert MemoryOf(NextManager(m, y), r).state == NextManager(m, y).rules[r];
      }
    }
  }

  // ----- one rule over every run of results -----

  function After(rule: Rule, obs: seq<Obs>): Memory {
    if obs == [] then Memory(RuleState(rule, 0, None), None)
    else See(After(rule, obs[..|obs| - 1]), obs[|obs| - 1]).0
  }

  /** Whether the rule raises an alert on result `i`. */
  predicate Fires(rule: Rule, obs: seq<Obs>, i: nat)
    requires i < |obs|
  {
    See(After(rule, obs[..i]), obs[i]).1
  }

  lemma FiresPrefix(rule: Rule, obs: seq<Obs>, n: nat, i: nat)
    requires i < n <= |obs|
    ensures Fires(rule, obs[..n], i) == Fires(rule, obs, i)
  {
    assert obs[..n][..i] == obs[..i];
  }

  /** Result `k` belongs to a streak of generation `gen` that no alert has ended yet. */
  ghost predicate InStreak(rule: Rule, obs: seq<Obs>, k: nat, gen: Option<nat>)
    requires k < |obs|
  {
    obs[k].matched && Some(obs[k].generation) == gen && !Fires(rule, obs, k)
  }

  /** The counter never exceeds the streak of matching results that ends here. */
  lemma {:induction false} CounterIsStreak(rule: Rule, obs: seq<Obs>)
    requires rule.frames >= 1
    ensures var m := After(rule, obs);
            && m.state.rule == rule
            && 0 <= m.state.consecutive <= |obs| && m.state.consecutive <= rule.frames
            && forall k :: |obs| - m.state.consecutive <= k < |obs| ==> InStreak(rule, obs, k, m.generation)
  {
    if obs != [] {
      var n := |obs| - 1;
      var before := obs[..n];
      CounterIsStreak(rule, before);
      var m, m' := After(rule, before), After(rule, obs);
      forall k | |obs| - m'.state.consecutive <= k < |obs| ensures InStreak(rule, obs, k, m'.generation) {
        if k < n {
          assert InStreak(rule, before, k, m.generation);
          FiresPrefix(rule, obs, n, k);
        }
      }
    }
  }

  /** The remembered alert is the latest one. */
  lemma {:induction false} LastAlertIsLatest(rule: Rule, obs: seq<Obs>, j: nat)
    requires j < |obs| && Fires(rule, obs, j)
    requires forall a, b :: 0 <= a <= b < |obs| ==> obs[a].now <= obs[b].now
    ensures var last := After(rule, obs).state.lastAlert;
            last.Some? && obs[j].now <= last.value <= obs[|obs| - 1].now
    ensures After(rule, obs).state.rule == rule
  {
    var n := |obs| - 1;
    RuleIsFixed(rule, obs);
    if j < n {
      FiresPrefix(rule, obs, n, j);
      LastAlertIsLatest(rule, obs[..n], j);
    } else {
      RuleIsFixed(rule, obs[..n]);
    }
  }

  lemma {:induction false} RuleIsFixed(rule: Rule, obs: seq<Obs>)
    ensures After(rule, obs).state.rule == rule
  {
    if obs != [] { RuleIsFixed(rule, obs[..|obs| - 1]); }
  }

  /**
   Every alert ends a run of at least `frames` consecutive matching results, all of
   one detector generation and all after the rule's previous alert; and two alerts of
   a rule are at least the cooldown apart.
   */
  lemma AlertsAreJustified(rule: Rule, obs: seq<Obs>, i: nat)
    requires rule.frames >= 1 && i < |obs| && Fires(rule, obs, i)
    requires forall a, b :: 0 <= a <= b < |obs| ==> obs[a].now <= obs[b].now
    ensures rule.frames <= i + 1
    ensures forall k :: i - rule.frames < k <= i ==>
              obs[k].matched && obs[k].generation == obs[i].generation && (k < i ==> !Fires(rule, obs, k))
    ensures forall j :: 0 <= j < i && Fires(rule, obs, j) ==>
              obs[i].now - obs[j].now >= rule.cooldown * NANOS_PER_SECOND
  {
    var before := obs[..i];
    CounterIsStreak(rule, before);
    var m := After(rule, before);
    forall k | i - rule.frames < k < i
      ensures obs[k].matched && obs[k].generation == obs[i].generation && !Fires(rule, obs, k)
    {
      assert InStreak(rule, before, k, m.generation);
      FiresPrefix(rule, obs, i, k);
    }
    forall j | 0 <= j < i && Fires(rule, obs, j)
      ensures obs[i].now - obs[j].now >= rule.cooldown * NANOS_PER_SECOND
    {
      FiresPrefix(rule, obs, i, j);
      LastAlertIsLatest(rule, before, j);
    }
  }

  // ----- and conversely -----

  lemma {:induction false} LastAlertFired(rule: Rule, obs: seq<Obs>)
    ensures var last := After(rule, obs).state.lastAlert;
            last.Some? ==> exists j :: 0 <= j < |obs| && Fires(rule, obs, j) && obs[j].now == last.value
  {
    if obs != [] {
      var n := |obs| - 1;
      LastAlertFired(rule, obs[..n]);
      if Fires(rule, obs, n) {
      } else if After(rule, obs).state.lastAlert.Some? {
        var j :| 0 <= j < n && Fires(rule, obs[..n], j) && obs[..n][j].now == After(rule, obs).state.lastAlert.value;
        FiresPrefix(rule, obs, n, j);
        assert Fires(rule, obs, j);
      }
    }
  }

  /** `n` undisturbed matching results of one generation bring the counter to `n`. */
  lemma {:induction false} StreakReaches(rule: Rule, obs: seq<Obs>, n: nat, gen: Option<nat>)
    requires n <= |obs| && n < rule.frames
    requires forall k :: |obs| - n <= k < |obs| ==> InStreak(rule, obs, k, gen)
    ensures After(rule, obs).state.consecutive >= n
    ensures n > 0 ==> After(rule, obs).generation == gen
  {
    if n == 0 {
      CounterIsStreak(rule, obs);
    } else {
      var last := |obs| - 1;
      var before := obs[..last];
      RuleIsFixed(rule, before);
      assert InStreak(rule, obs, last, gen);
      forall k | last - (n - 1) <= k < last ensures InStreak(rule, before, k, gen) {
        assert InStreak(rule, obs, k, gen);
        FiresPrefix(rule, obs, last, k);
      }
      StreakReaches(rule, before, n - 1, gen);
    }
  }

  /** Result `i` completes a streak of `frames` matches of one generation since the rule's last alert. */
  ghost predicate StreakEnds(rule: Rule, obs: seq<Obs>, i: nat)
    requires i < |obs|
  {
    && rule.frames <= i + 1
    && forall k :: i - rule.frames < k <= i ==>
         0 <= k && obs[k].matched && obs[k].generation == obs[i].generation && (k < i ==> !Fires(rule, obs, k))
  }

  ghost predicate CooledDown(rule: Rule, obs: seq<Obs>, i: nat)
    requires i < |obs|
  {
    forall j :: 0 <= j < i && Fires(rule, obs, j) ==> obs[i].now - obs[j].now >= rule.cooldown * NANOS_PER_SECOND
  }

  /** A rule fires exactly when a streak ends, every earlier alert is at least the cooldown ago, and the alert is stored. */
  lemma FiresIff(rule: Rule, obs: seq<Obs>, i: nat)
    requires rule.frames >= 1 && i < |obs|
    requires forall a, b :: 0 <= a <= b < |obs| ==> obs[a].now <= obs[b].now
    ensures Fires(rule, obs, i) <==> StreakEnds(rule, obs, i) && CooledDown(rule, obs, i) && obs[i].persisted
  {
    if Fires(rule, obs, i) {
      AlertsAreJustified(rule, obs, i);
    }
    if StreakEnds(rule, obs, i) && CooledDown(rule, obs, i) && obs[i].persisted {
      var before, n, gen := obs[..i], rule.frames - 1, Some(obs[i].generation);
      forall k | i - n <= k < i ensures InStreak(rule, before, k, gen) { FiresPrefix(rule, obs, i, k); }
      StreakReaches(rule, before, n, gen);
      RuleIsFixed(rule, before);
      LastAlertFired(rule, before);
      CounterIsStreak(rule, before);
      var last := After(rule, before).state.lastAlert;
      if last.Some? {
        var j :| 0 <= j < |before| && Fires(rule, before, j) && before[j].now == last.value;
        FiresPrefix(rule, obs, i, j);
      }
      assert obs[i].matched;
    }
  }

  // ----- the manager is its rules side by side -----

  /** A run of results, as rule `r` sees it. */
  function Seen(config: seq<Rule>, r: nat, sights: seq<Sight>): (o: seq<Obs>)
    requires Seeable(config, sights) && r < |config|
    ensures |o| == |sights|
    ensures forall i :: 0 <= i < |sights| ==> o[i] == ObsOf(sights[i], r)
  {
    seq(|sights|, i requires 0 <= i < |sights| => ObsOf(sights[i], r))
  }

  /** No rule influences another: each one's memory is what it would be on its own. */
  lemma {:induction false} RulesAreIndependent(config: seq<Rule>, sights: seq<Sight>, r: nat)
    requires Seeable(config, sights) && r < |config|
    ensures MemoryOf(RunAll(config, sights), r) == After(config[r], Seen(config, r, sights))
  {
    if sights != [] {
      var n := |sights| - 1;
      RulesAreIndependent(config, sights[..n], r);
      assert Seen(config, r, sights)[..n] == Seen(config, r, sights[..n]);
      NextMemory(RunAll(config, sights[..n]), sights[n], r);
    }
  }

  lemma FiresAt(config: seq<Rule>, sights: seq<Sight>, r: nat, i: nat)
    requires Seeable(config, sights) && r < |config| && i < |sights|
    ensures See(MemoryOf(RunAll(config, sights[..i]), r), ObsOf(sights[i], r)).1 == Fires(config[r], Seen(config, r, sights), i)
  {
    RulesAreIndependent(config, sights[..i], r);
    assert Seen(config, r, sights)[..i] == Seen(config, r, sights[..i]);
  }

  /** Rule `r` raises an alert on result `i`. */
  ghost predicate Raises(config: seq<Rule>, inputs: seq<Input>, r: nat, i: nat)
    requires WellFormed(config, inputs) && i < |inputs|
  {
    exists a :: a in AlertsAt(config, inputs, i) && a.rule == r
  }

  /** The alert of rule `r`, if it raises one. */
  function AlertOf(m: Manager, y: Sight, r: nat): Alert
    requires Takes(m, y) && r < |m.rules|
  {
    Alert(r, SerialAfter(m.nextId, SharesOf(m, y, r)), y.matching[r])
  }

  lemma ShareRaises(m: Manager, y: Sight, r: nat, serial: nat)
    requires Takes(m, y) && r < |m.rules| && serial == SerialAfter(m.nextId, SharesOf(m, y, r))
    ensures ShareOf(Current(MemoryOf(m, r), y.gen), y, r, serial).raised
         == if See(MemoryOf(m, r), ObsOf(y, r)).1 then [AlertOf(m, y, r)] else []
  {}

  lemma {:induction false} RaisedIff(m: Manager, y: Sight, n: nat, a: Alert)
    requires Takes(m, y) && n <= |m.rules|
    ensures a in RaisedBy(SharesOf(m, y, n)) <==>
              a.rule < n && See(MemoryOf(m, a.rule), ObsOf(y, a.rule)).1 && a == AlertOf(m, y, a.rule)
  {
    if n > 0 {
      var r := n - 1;
      RaisedIff(m, y, r, a);
      RaisedNext(m, y, r);
      ShareRaises(m, y, r, SerialAfter(m.nextId, SharesOf(m, y, r)));
    }
  }

  lemma RaisedNext(m: Manager, y: Sight, r: nat)
    requires Takes(m, y) && r < |m.rules|
    ensures var before := SharesOf(m, y, r);
            var share := ShareOf(Current(MemoryOf(m, r), y.gen), y, r, SerialAfter(m.nextId, before));
            && RaisedBy(SharesOf(m, y, r + 1)) == RaisedBy(before) + share.raised
            && SerialAfter(m.nextId, SharesOf(m, y, r + 1)) == share.nextId
  {
    var before, now := SharesOf(m, y, r), SharesOf(m, y, r + 1);
    assert now[..r] == before;
  }

  lemma SeenAlerts(config: seq<Rule>, sights: seq<Sight>, r: nat, i: nat)
    requires Seeable(config, sights) && r < |config| && i < |sights|
    ensures (exists a :: a in AlertsSeen(config, sights, i) && a.rule == r) <==> Fires(config[r], Seen(config, r, sights), i)
    ensures forall a :: a in AlertsSeen(config, sights, i) && a.rule == r ==> a.detections == sights[i].matching[r]
  {
    var m, y := RunAll(config, sights[..i]), sights[i];
    FiresAt(config, sights, r, i);
    forall a | a in AlertsOf(m, y) && a.rule == r
      ensures a.detections == y.matching[r] && See(MemoryOf(m, r), ObsOf(y, r)).1
    {
      RaisedIff(m, y, |m.rules|, a);
    }
    if See(MemoryOf(m, r), ObsOf(y, r)).1 {
      var a := AlertOf(m, y, r);
      RaisedIff(m, y, |m.rules|, a);
      assert a in AlertsSeen(config, sights, i) && a.rule == r;
    }
  }

  /** The rules that raise alerts on result `i` are exactly those that fire on it, and an alert carries the matching detections. */
  lemma AlertsAreFirings(config: seq<Rule>, inputs: seq<Input>, r: nat, i: nat)
    requires WellFormed(config, inputs) && r < |config| && i < |inputs|
    ensures Raises(config, inputs, r, i) <==> Fires(config[r], Seen(config, r, Sights(config, inputs)), i)
    ensures forall a :: a in AlertsAt(config, inputs, i) && a.rule == r ==> a.detections == MatchingIn(config[r], inputs[i])
  {
    SeenAlerts(config, Sights(config, inputs), r, i);
  }

  ghost predicate TimesRise(inputs: seq<Input>) {
    forall a, b :: 0 <= a <= b < |inputs| ==> inputs[a].now <= inputs[b].now
  }

  /** Result `i` is the last of `frames` matching results of one generation, none of which raised an alert before it. */
  ghost predicate StreakEndsAt(config: seq<Rule>, inputs: seq<Input>, r: nat, i: nat)
    requires WellFormed(config, inputs) && r < |config| && i < |inputs|
  {
    && config[r].frames <= i + 1
    && forall k :: 0 <= k && i - config[r].frames < k <= i ==>
         && MatchingIn(config[r], inputs[k]) != [] && inputs[k].gen == inputs[i].gen
         && (k < i ==> !Raises(config, inputs, r, k))
  }

  ghost predicate CooledDownAt(config: seq<Rule>, inputs: seq<Input>, r: nat, i: nat)
    requires WellFormed(config, inputs) && r < |config| && i < |inputs|
  {
    forall j :: 0 <= j < i && Raises(config, inputs, r, j) ==>
      inputs[i].now - inputs[j].now >= config[r].cooldown * NANOS_PER_SECOND
  }

  /**
   The alerts a manager returns, over every run of results: result `i` raises an
   alert for a rule if and only if it ends a run of at least `frames` consecutive
   matching results, all of one detector generation and after the rule's previous
   alert, every earlier alert of the rule is at least the cooldown ago, and the
   alert is stored.
   */
  lemma RaisesIff(config: seq<Rule>, inputs: seq<Input>, r: nat, i: nat)
    requires WellFormed(config, inputs) && TimesRise(inputs) && r < |config| && config[r].frames >= 1 && i < |inputs|
    ensures Raises(config, inputs, r, i) <==>
              && StreakEndsAt(config, inputs, r, i) && CooledDownAt(config, inputs, r, i)
              && inputs[i].persisted[r]
  {
    SameStreaks(config, inputs, r, i);
    SameCooldowns(config, inputs, r, i);
    SeenAs(config, inputs, r, i);
    FiresIff(config[r], Seen(config, r, Sights(config, inputs)), i);
  }

  /** Rule `r` sees of result `k` what the result says, and raises an alert on it exactly if it fires. */
  lemma SeenAs(config: seq<Rule>, inputs: seq<Input>, r: nat, k: nat)
    requires WellFormed(config, inputs) && r < |config| && k < |inputs|
    ensures var obs, x := Seen(config, r, Sights(config, inputs)), inputs[k];
            && obs[k] == Obs(x.gen, MatchingIn(config[r], x) != [], x.now, x.persisted[r])
            && (Raises(config, inputs, r, k) <==> Fires(config[r], obs, k))
  {
    AlertsAreFirings(config, inputs, r, k);
    assert Sights(config, inputs)[k].matching[r] == MatchingIn(config[r], inputs[k]);
  }

  lemma SameStreaks(config: seq<Rule>, inputs: seq<Input>, r: nat, i: nat)
    requires WellFormed(config, inputs) && r < |config| && i < |inputs|
    ensures StreakEndsAt(config, inputs, r, i) <==> StreakEnds(config[r], Seen(config, r, Sights(config, inputs)), i)
  {
    var obs := Seen(config, r, Sights(config, inputs));
    forall k | 0 <= k < |inputs|
      ensures obs[k] == Obs(inputs[k].gen, MatchingIn(config[r], inputs[k]) != [], inputs[k].now, inputs[k].persisted[r])
      ensures Raises(config, inputs, r, k) <==> Fires(config[r], obs, k)
    {
      SeenAs(config, inputs, r, k);
    }
  }

  lemma SameCooldowns(config: seq<Rule>, inputs: seq<Input>, r: nat, i: nat)
    requires WellFormed(config, inputs) && r < |config| && i < |inputs|
    ensures CooledDownAt(config, inputs, r, i) <==> CooledDown(config[r], Seen(config, r, Sights(config, inputs)), i)
  {
    var obs := Seen(config, r, Sights(config, inputs));
    forall k | 0 <= k < |inputs|
      ensures obs[k] == Obs(inputs[k].gen, MatchingIn(config[r], inputs[k]) != [], inputs[k].now, inputs[k].persisted[r])
      ensures Raises(config, inputs, r, k) <==> Fires(config[r], obs, k)
    {
      SeenAs(config, inputs, r, k);
    }
  }

  // ----- serial numbers -----

  /** Alerts numbered in order, from `low` to before `high`. */
  ghost predicate Numbered(s: seq<Alert>, low: nat, high: nat) {
    && low <= high
    && (forall p :: 0 <= p < |s| ==> low <= s[p].serial < high)
    && (forall p, q :: 0 <= p < q < |s| ==> s[p].serial < s[q].serial)
  }

  /** Alerts of one result are numbered in order, by the numbers drawn for it. */
  lemma {:induction false} NumberedUpTo(m: Manager, y: Sight, n: nat)
    requires Takes(m, y) && n <= |m.rules|
    ensures Numbered(RaisedBy(SharesOf(m, y, n)), m.nextId, SerialAfter(m.nextId, SharesOf(m, y, n)))
  {
    if n > 0 {
      var r := n - 1;
      NumberedUpTo(m, y, r);
      RaisedNext(m, y, r);
      var before := SharesOf(m, y, r);
      ShareNumbered(RaisedBy(before), m.nextId, Current(MemoryOf(m, r), y.gen), y, r, SerialAfter(m.nextId, before));
    }
  }

  lemma ShareNumbered(s: seq<Alert>, low: nat, st: RuleState, y: Sight, r: nat, serial: nat)
    requires r < |y.matching| == |y.persisted| && Numbered(s, low, serial)
    ensures var share := ShareOf(st, y, r, serial); Numbered(s + share.raised, low, share.nextId)
  {
    var share := ShareOf(st, y, r, serial);
    if share.raised == [] {
      assert s + share.raised == s;
    } else {
      assert share.nextId == serial + 1 && |share.raised| == 1 && share.raised[0].serial == serial;
    }
  }

  lemma SerialsOf(config: seq<Rule>, sights: seq<Sight>, i: nat)
    requires Seeable(config, sights) && i < |sights|
    ensures Numbered(AlertsSeen(config, sights, i), RunAll(config, sights[..i]).nextId, RunAll(config, sights[..i + 1]).nextId)
  {
    var m := RunAll(config, sights[..i]);
    assert sights[..i + 1][..i] == sights[..i];
    NumberedUpTo(m, sights[i], |m.rules|);
  }

  lemma {:induction false} SerialsGrow(config: seq<Rule>, sights: seq<Sight>, i: nat, j: nat)
    requires Seeable(config, sights) && i <= j <= |sights|
    ensures RunAll(config, sights[..i]).nextId <= RunAll(config, sights[..j]).nextId
    decreases j
  {
    if i < j {
      SerialsGrow(config, sights, i, j - 1);
      SerialsOf(config, sights, j - 1);
    }
  }

  /** No two alerts of a run share a serial number: not on one result, nor on different ones. */
  lemma SerialsDiffer(config: seq<Rule>, inputs: seq<Input>, i: nat, p: nat, j: nat, q: nat)
    requires WellFormed(config, inputs) && i <= j < |inputs|
    requires p < |AlertsAt(config, inputs, i)| && q < |AlertsAt(config, inputs, j)| && (i == j ==> p < q)
    ensures AlertsAt(config, inputs, i)[p].serial < AlertsAt(config, inputs, j)[q].serial
  {
    var sights := Sights(config, inputs);
    SerialsOf(config, sights, i);
    SerialsOf(config, sights, j);
    if i < j { SerialsGrow(config, sights, i + 1, j); }
  }
}
