/**
 The detector permit: a worker takes a permit before running inference and may
 commit the result only if the detector is still enabled and has not been toggled
 since. Every operation holds the state's mutex.
 */
module DetectorPermit {
  import opened Common
  import opened AlertRules

  datatype Permit = Permit(enabled: bool, generation: nat)

  datatype Api = Api(enabled: bool, supported: bool, generation: nat, latest: Option<nat>)

  const Fresh := Api(true, true, 0, None)

  datatype Op =
    | ApplyConfig
    | SetEnabled(enabled: bool)
    | SetSupported(supported: bool)
    | Commit(permit: Permit, frame: nat)
    | Invalidate(permit: Permit)

  predicate Accepts(s: Api, permit: Permit) { s.enabled && permit.generation == s.generation }

  function Apply(s: Api, op: Op): Api {
    match op
    case ApplyConfig => s.(enabled := s.supported, generation := s.generation + 1, latest := None)
    case SetEnabled(on) => s.(enabled := on && s.supported, generation := s.generation + 1, latest := None)
    case SetSupported(on) =>
      if on then s.(supported := true)
      else s.(supported := false, enabled := false, generation := s.generation + 1, latest := None)
    case Commit(permit, frame) => if Accepts(s, permit) then s.(latest := Some(frame)) else s
    case Invalidate(permit) => if Accepts(s, permit) then s.(latest := None) else s
  }

  /** The operations that switch the detector or its configuration. */
  predicate Toggles(op: Op) { op.ApplyConfig? || op.SetEnabled? || (op.SetSupported? && !op.supported) }

  class ApiState {
    var enabled: bool
    var supported: bool
    var generation: nat
    var latest: Option<nat>

    ghost function View(): Api
      reads this
    {
      Api(enabled, supported, generation, latest)
    }

    constructor ()
      ensures View() == Fresh
    {
      enabled, supported, generation, latest := true, true, 0, None;
    }

    /** A permit says whether it would be accepted now, and no later toggle leaves it its generation. */
    method TakePermit() returns (p: Permit)
      ensures p.enabled <==> Accepts(View(), p)
      ensures forall op :: Toggles(op) ==> !Accepts(Apply(View(), op), p)
    {
      p := Permit(enabled, generation);
    }

    method CommitDetections(permit: Permit, frame: nat) returns (ok: bool)
      modifies this
      ensures ok == Accepts(old(View()), permit) && View() == Apply(old(View()), Commit(permit, frame))
    {
      if !enabled || permit.generation != generation { return false; }
      latest := Some(frame);
      return true;
    }

    method InvalidateDetections(permit: Permit) returns (ok: bool, wasAvailable: bool)
      modifies this
      ensures ok == Accepts(old(View()), permit) && View() == Apply(old(View()), Invalidate(permit))
      ensures wasAvailable == (ok && old(latest).Some?)
    {
      if !enabled || permit.generation != generation { return false, false; }
      wasAvailable := latest.Some?;
      latest := None;
      ok := true;
    }

    method Configure()
      modifies this
      ensures View() == Apply(old(View()), ApplyConfig)
    {
      enabled := supported;
      generation := generation + 1;
      latest := None;
    }

    method SetDetectorEnabled(on: bool)
      modifies this
      ensures View() == Apply(old(View()), SetEnabled(on))
    {
      enabled := on && supported;
      generation := generation + 1;
      latest := None;
    }

    method SetDetectorSupported(on: bool)
      modifies this
      ensures View() == Apply(old(View()), SetSupported(on))
    {
      supported := on;
      if !on {
        enabled := false;
        generation := generation + 1;
        latest := None;
      }
    }
  }

  // ----- every run -----

  function Run(ops: seq<Op>): Api {
    if ops == [] then Fresh else Apply(Run(ops[..|ops| - 1]), ops[|ops| - 1])
  }

  /** Operation `j` is a commit that is accepted. */
  predicate CommitsAt(ops: seq<Op>, j: nat)
    requires j < |ops|
  {
    ops[j].Commit? && Accepts(Run(ops[..j]), ops[j].permit)
  }

  /** The generation counts the toggles, and a published result implies an enabled detector. */
  lemma {:induction false} GenerationCountsToggles(ops: seq<Op>, i: nat, j: nat)
    requires i <= j <= |ops|
    ensures Run(ops[..i]).generation <= Run(ops[..j]).generation
    ensures Run(ops[..i]).generation == Run(ops[..j]).generation <==> forall t :: i <= t < j ==> !Toggles(ops[t])
    decreases j
  {
    if i < j {
      GenerationCountsToggles(ops, i, j - 1);
      assert ops[..j][..j - 1] == ops[..j - 1];
      assert Run(ops[..j]) == Apply(Run(ops[..j - 1]), ops[j - 1]);
    }
  }

  lemma {:induction false} LatestImpliesEnabled(ops: seq<Op>)
    ensures Run(ops).latest.Some? ==> Run(ops).enabled
    ensures Run(ops).enabled ==> Run(ops).supported
  {
    if ops != [] { LatestImpliesEnabled(ops[..|ops| - 1]); }
  }

  /** Operation `j` is the last of the first `n` that is of a kind. */
  ghost predicate LastOf(ops: seq<Op>, n: nat, j: nat, kind: Op -> bool)
    requires n <= |ops|
  {
    j < n && kind(ops[j]) && forall k :: j < k < n ==> !kind(ops[k])
  }

  /** Support is what the last report of it said, and is assumed before any. */
  lemma {:induction false} SupportedIs(ops: seq<Op>, n: nat, j: nat)
    requires n <= |ops|
    ensures (forall k :: 0 <= k < n ==> !ops[k].SetSupported?) ==> Run(ops[..n]).supported
    ensures LastOf(ops, n, j, (op: Op) => op.SetSupported?) ==> Run(ops[..n]).supported == ops[j].supported
  {
    if n > 0 {
      RunStep(ops, n);
      SupportedIs(ops, n - 1, j);
    }
  }

  /** The switch is what the last toggle set, as far as the detector was supported then, and on before any. */
  lemma {:induction false} EnabledIs(ops: seq<Op>, n: nat, j: nat)
    requires n <= |ops|
    ensures (forall k :: 0 <= k < n ==> !Toggles(ops[k])) ==> Run(ops[..n]).enabled
    ensures LastOf(ops, n, j, Toggles) ==>
              Run(ops[..n]).enabled ==
                match ops[j]
                case SetEnabled(on) => on && Run(ops[..j]).supported
                case ApplyConfig => Run(ops[..j]).supported
                case _ => false
  {
    if n > 0 {
      RunStep(ops, n);
      EnabledIs(ops, n - 1, j);
    }
  }

  lemma RunStep(ops: seq<Op>, n: nat)
    requires 0 < n <= |ops|
    ensures Run(ops[..n]) == Apply(Run(ops[..n - 1]), ops[n - 1])
  {
    assert ops[..n][..n - 1] == ops[..n - 1];
  }

  predicate InvalidatesAt(ops: seq<Op>, j: nat)
    requires j < |ops|
  {
    ops[j].Invalidate? && Accepts(Run(ops[..j]), ops[j].permit)
  }

  /** Operation `j` committed `frame`, and nothing since has replaced or withdrawn it. */
  ghost predicate PublishedAt(ops: seq<Op>, n: nat, j: nat, frame: nat)
    requires n <= |ops|
  {
    && j < n && CommitsAt(ops, j) && ops[j].frame == frame
    && forall k :: j < k < n ==> !Toggles(ops[k]) && !CommitsAt(ops, k) && !InvalidatesAt(ops, k)
  }

  /** What is published is the last accepted commit since the last toggle or accepted invalidation, if there is one. */
  lemma {:induction false} LatestIs(ops: seq<Op>, n: nat)
    requires n <= |ops|
    ensures forall frame: nat :: Run(ops[..n]).latest == Some(frame) <==> exists j: nat :: PublishedAt(ops, n, j, frame)
  {
    if n > 0 {
      var m := n - 1;
      LatestIs(ops, m);
      RunStep(ops, n);
      LatestStep(ops, m);
      forall frame: nat ensures Run(ops[..n]).latest == Some(frame) <==> exists j: nat :: PublishedAt(ops, n, j, frame) {
        if Run(ops[..n]).latest == Some(frame) {
          if CommitsAt(ops, m) {
            assert PublishedAt(ops, n, m, frame);
          } else {
            var j: nat :| PublishedAt(ops, m, j, frame);
            assert PublishedAt(ops, n, j, frame);
          }
        }
        if j: nat :| PublishedAt(ops, n, j, frame) {
          if j < m {
            assert PublishedAt(ops, m, j, frame);
            assert !Toggles(ops[m]) && !CommitsAt(ops, m) && !InvalidatesAt(ops, m);
          }
        }
      }
    }
  }

  lemma LatestStep(ops: seq<Op>, m: nat)
    requires m < |ops|
    ensures Apply(Run(ops[..m]), ops[m]).latest ==
              if CommitsAt(ops, m) then Some(ops[m].frame)
              else if Toggles(ops[m]) || InvalidatesAt(ops, m) then None
              else Run(ops[..m]).latest
  {}

  /** A result whose permit was taken after the first `i` operations is committed by a later one only if nothing toggled between. */
  lemma NoCommitAcrossToggle(ops: seq<Op>, i: nat, j: nat)
    requires i <= j < |ops| && ops[j].Commit? && ops[j].permit.generation == Run(ops[..i]).generation
    ensures CommitsAt(ops, j) <==>
              Run(ops[..j]).enabled && forall t :: i <= t < j ==> !Toggles(ops[t])
  {
    GenerationCountsToggles(ops, i, j);
  }

  /**
   An alert never spans a toggle: if the results an alert manager processes are
   accepted commits, in order, then all the results behind one alert were committed
   with no toggle between them.
   */
  lemma AlertWithinOnePermit(config: seq<Rule>, inputs: seq<Input>, r: nat, i: nat, at: seq<nat>, ops: seq<Op>)
    requires WellFormed(config, inputs) && TimesRise(inputs) && r < |config| && config[r].frames >= 1
    requires i < |inputs| == |at| && Raises(config, inputs, r, i)
    requires forall a, b :: 0 <= a < b < |at| ==> at[a] < at[b]
    requires forall k :: 0 <= k < |at| ==>
               at[k] < |ops| && CommitsAt(ops, at[k]) && ops[at[k]].permit.generation == inputs[k].gen
    ensures config[r].frames <= i + 1
    ensures forall k, t :: 0 <= k && i - config[r].frames < k <= i && at[k] <= t < at[i] ==> !Toggles(ops[t])
  {
    RaisesIff(config, inputs, r, i);
    forall k, t | 0 <= k && i - config[r].frames < k <= i && at[k] <= t < at[i] ensures !Toggles(ops[t]) {
      assert inputs[k].gen == inputs[i].gen;
      assert CommitsAt(ops, at[k]) && CommitsAt(ops, at[i]);
      GenerationCountsToggles(ops, at[k], at[i]);
    }
  }
}
