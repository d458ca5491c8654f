/**
 The H.264 encoder's two timelines: presentation times given to submitted frames,
 and the rebasing of encoded output so that it keeps rising when the pipeline is
 rebuilt and starts again from its initial offset.
 */
module EncoderTimeline {
  import opened Common

  // ----- input -----

  function Elapsed(capture: int, epoch: int): nat { if capture > epoch then capture - epoch else 0 }

  function InputPts(last: Option<nat>, capture: int, epoch: int): nat {
    var pts := Elapsed(capture, epoch);
    if last.Some? && pts <= last.value then last.value + 1 else pts
  }

  function InputRun(epoch: int, captures: seq<int>): seq<nat> {
    if captures == [] then []
    else
      var before := InputRun(epoch, captures[..|captures| - 1]);
      var last := if before == [] then None else Some(before[|before| - 1]);
      before + [InputPts(last, captures[|captures| - 1], epoch)]
  }

  /** Whatever the capture clock does, submitted PTS strictly increase and never precede the capture time. */
  lemma {:induction false} InputRises(epoch: int, captures: seq<int>)
    ensures var r := InputRun(epoch, captures);
            && |r| == |captures|
            && (forall i, j :: 0 <= i < j < |r| ==> r[i] < r[j])
            && (forall i :: 0 <= i < |r| ==> r[i] >= Elapsed(captures[i], epoch))
  {
    if captures != [] {
      var n := |captures| - 1;
      InputRises(epoch, captures[..n]);
      var before, r := InputRun(epoch, captures[..n]), InputRun(epoch, captures);
      forall i, j | 0 <= i < j < |r| ensures r[i] < r[j] {
        if j == n { assert i == n - 1 || before[i] < before[n - 1]; }
      }
    }
  }

  /**
   A submitted PTS is the least time that is neither before its capture, counted from the
   epoch, nor at or before the previous one.
   */
  lemma {:induction false} InputIsLeast(epoch: int, captures: seq<int>, i: nat, v: nat)
    requires i < |captures|
    ensures var r := InputRun(epoch, captures);
            && |r| == |captures| && r[i] >= captures[i] - epoch && (i > 0 ==> r[i] > r[i - 1])
            && (v >= captures[i] - epoch && (i > 0 ==> v > r[i - 1]) ==> v >= r[i])
  {
    InputRises(epoch, captures);
    var n := |captures| - 1;
    InputRises(epoch, captures[..n]);
    if i < n { InputIsLeast(epoch, captures[..n], i, v); }
  }

  // ----- output -----

  /** What is carried from sample to sample; `origin` pairs the pipeline's first raw PTS with its output PTS. */
  datatype Timeline = Timeline(last: Option<nat>, origin: Option<(nat, nat)>)

  function Max(a: int, b: int): int { if a < b then b else a }

  function Rebase(origin: (nat, nat), raw: nat): nat {
    if raw >= origin.0 then origin.1 + (raw - origin.0)
    else
      var delta := origin.0 - raw;
      if origin.1 > delta then origin.1 - delta else 0
  }

  /** The pipeline's origin, fixed by its first sample. */
  function OriginFor(t: Timeline, pts: nat, duration: nat): (nat, nat) {
    match t.origin
    case Some(o) => o
    case None => (pts, match t.last case None => pts case Some(l) => Max(pts, l + duration))
  }

  function Capture(t: Timeline, pts: nat, duration: nat): Timeline {
    var o := OriginFor(t, pts, duration);
    Timeline(Some(Rebase(o, pts)), Some(o))
  }

  class Encoder {
    var hasInput: bool
    var lastInput: nat
    var hasOutput: bool
    var lastOutput: nat
    var hasOrigin: bool
    var rawOrigin: nat
    var outOrigin: nat

    ghost function View(): Timeline
      reads this
    {
      Timeline(if hasOutput then Some(lastOutput) else None,
               if hasOrigin then Some((rawOrigin, outOrigin)) else None)
    }

    constructor ()
      ensures View() == Timeline(None, None) && !hasInput
    {
      hasInput, lastInput, hasOutput, lastOutput := false, 0, false, 0;
      hasOrigin, rawOrigin, outOrigin := false, 0, 0;
    }

    method Submit(capture: int, epoch: int) returns (pts: nat)
      modifies this
      ensures pts == InputPts(if old(hasInput) then Some(old(lastInput)) else None, capture, epoch)
      ensures hasInput && lastInput == pts && View() == old(View())
    {
      pts := if capture > epoch then capture - epoch else 0;
      if hasInput && pts <= lastInput { pts := lastInput + 1; }
      lastInput := pts;
      hasInput := true;
    }

    method RebuildPipeline()
      modifies this
      ensures View() == old(View()).(origin := None) && hasInput == old(hasInput) && lastInput == old(lastInput)
    {
      hasOrigin := false;
    }

    /** The rebasing of one encoded sample. */
    method CaptureSample(rawPts: Option<nat>, rawDts: Option<nat>, duration: nat)
      returns (pts: Option<nat>, dts: Option<nat>)
      modifies this
      ensures hasInput == old(hasInput) && lastInput == old(lastInput)
      ensures rawPts.None? ==> View() == old(View()) && pts == None && dts == rawDts
      ensures rawPts.Some? ==>
                var o := OriginFor(old(View()), rawPts.value, duration);
                && View() == Capture(old(View()), rawPts.value, duration)
                && pts == Some(Rebase(o, rawPts.value))
                && dts == (if rawDts.None? then None else Some(Rebase(o, rawDts.value)))
    {
      pts, dts := rawPts, rawDts;
      if pts.Some? {
        if !hasOrigin {
          rawOrigin := pts.value;
          outOrigin := if hasOutput then Max(pts.value, lastOutput + duration) else pts.value;
          hasOrigin := true;
        }
        pts := Some(Rebase((rawOrigin, outOrigin), pts.value));
        if dts.Some? { dts := Some(Rebase((rawOrigin, outOrigin), dts.value)); }
        lastOutput := pts.value;
        hasOutput := true;
      }
    }
  }

  /** Rebasing keeps order, so decode times that do not exceed presentation times stay so. */
  lemma RebaseKeepsOrder(origin: (nat, nat), dts: nat, pts: nat)
    requires dts <= pts
    ensures Rebase(origin, dts) <= Rebase(origin, pts)
    ensures dts >= origin.0 ==> Rebase(origin, pts) - Rebase(origin, dts) == pts - dts
    ensures Rebase(origin, dts) == Max(0, origin.1 + dts - origin.0)
  {}

  // ----- every run -----

  datatype Event = Rebuild | Sample(pts: nat)

  /** A sample as it left: which pipeline made it, its raw and its rebased PTS. */
  datatype Emitted = Emitted(pipeline: nat, raw: nat, out: nat)

  datatype Trace = Trace(timeline: Timeline, pipeline: nat, emitted: seq<Emitted>)

  function Advance(t: Trace, e: Event, duration: nat): Trace {
    match e
    case Rebuild => Trace(t.timeline.(origin := None), t.pipeline + 1, t.emitted)
    case Sample(pts) =>
      var o := OriginFor(t.timeline, pts, duration);
      Trace(Capture(t.timeline, pts, duration), t.pipeline,
            t.emitted + [Emitted(t.pipeline, pts, Rebase(o, pts))])
  }

  function Run(events: seq<Event>, duration: nat): Trace {
    if events == [] then Trace(Timeline(None, None), 0, [])
    else Advance(Run(events[..|events| - 1], duration), events[|events| - 1], duration)
  }

  /** Raw PTS rise within each pipeline. */
  ghost predicate RawRises(emitted: seq<Emitted>) {
    forall i, j :: 0 <= i < j < |emitted| && emitted[i].pipeline == emitted[j].pipeline ==>
      emitted[i].raw < emitted[j].raw
  }

  ghost predicate OutputRises(emitted: seq<Emitted>) {
    forall i, j :: 0 <= i < j < |emitted| ==> emitted[i].out < emitted[j].out
  }

  /** Within a pipeline the output keeps the raw distances. */
  ghost predicate DeltasKept(emitted: seq<Emitted>) {
    forall i, j :: 0 <= i <= j < |emitted| && emitted[i].pipeline == emitted[j].pipeline ==>
      emitted[j].out - emitted[i].out == emitted[j].raw - emitted[i].raw
  }

  /**
   The first sample of a rebuilt pipeline leaves at the least time that is at least one
   frame after the last of the previous one and not before its own raw PTS.
   */
  ghost predicate FrameAfterRebuild(emitted: seq<Emitted>, duration: nat) {
    forall i :: 0 <= i < |emitted| - 1 && emitted[i].pipeline != emitted[i + 1].pipeline ==>
      && emitted[i + 1].out >= emitted[i].out + duration && emitted[i + 1].out >= emitted[i + 1].raw
      && (emitted[i + 1].out == emitted[i].out + duration || emitted[i + 1].out == emitted[i + 1].raw)
  }

  /** The first pipeline's output is its raw output. */
  ghost predicate FirstUnchanged(emitted: seq<Emitted>) {
    forall i :: 0 <= i < |emitted| && emitted[i].pipeline == emitted[0].pipeline ==> emitted[i].out == emitted[i].raw
  }

  /** The timeline remembers the last output and maps every sample of the current pipeline. */
  ghost predicate Remembers(t: Trace) {
    var e := t.emitted;
    && t.timeline.last == (if e == [] then None else Some(e[|e| - 1].out))
    && (forall i :: 0 <= i < |e| ==> e[i].pipeline <= t.pipeline)
    && (t.timeline.origin.Some? ==>
          && e != [] && e[|e| - 1].pipeline == t.pipeline
          && forall i :: 0 <= i < |e| && e[i].pipeline == t.pipeline ==>
               e[i].raw >= t.timeline.origin.value.0 && e[i].out == Rebase(t.timeline.origin.value, e[i].raw))
    && (t.timeline.origin.None? ==> forall i :: 0 <= i < |e| ==> e[i].pipeline < t.pipeline)
  }

  lemma {:induction false} RawRisesPrefix(events: seq<Event>, duration: nat)
    requires events != [] && RawRises(Run(events, duration).emitted)
    ensures RawRises(Run(events[..|events| - 1], duration).emitted)
  {
    var before := Run(events[..|events| - 1], duration).emitted;
    var now := Run(events, duration).emitted;
    assert before <= now;
    forall i, j | 0 <= i < j < |before| && before[i].pipeline == before[j].pipeline
      ensures before[i].raw < before[j].raw
    {
      assert now[i].raw < now[j].raw;
    }
  }

  /**
   Over any number of rebuilds, if raw PTS rise within each pipeline and a frame
   takes time, output PTS strictly increase, distances within a pipeline are
   preserved, the first pipeline's output is unchanged, and a rebuild advances the
   output by as little as leaves one frame.
   */
  lemma {:induction false} OutputTimeline(events: seq<Event>, duration: nat)
    requires duration > 0 && RawRises(Run(events, duration).emitted)
    ensures Continuous(Run(events, duration), duration)
  {
    if events != [] {
      var n := |events| - 1;
      RawRisesPrefix(events, duration);
      OutputTimeline(events[..n], duration);
      var t := Run(events[..n], duration);
      if events[n].Sample? { SampleContinues(t, events[n].pts, duration); } else { RebuildContinues(t, duration); }
    }
  }

  ghost predicate Continuous(t: Trace, duration: nat) {
    && Remembers(t) && OutputRises(t.emitted) && DeltasKept(t.emitted)
    && FrameAfterRebuild(t.emitted, duration) && FirstUnchanged(t.emitted)
  }

  lemma RebuildContinues(t: Trace, duration: nat)
    requires Continuous(t, duration)
    ensures Continuous(Advance(t, Rebuild, duration), duration)
  {}

  lemma SampleContinues(t: Trace, pts: nat, duration: nat)
    requires duration > 0 && Continuous(t, duration) && RawRises(Advance(t, Sample(pts), duration).emitted)
    ensures Continuous(Advance(t, Sample(pts), duration), duration)
  {
    SampleRemembers(t, pts, duration);
    SampleRises(t, pts, duration);
    SampleRestarts(t, pts, duration);
    SampleDeltas(t, pts, duration);
    FirstStays(t, pts, duration);
  }

  /** What the new sample is, compared with the one before it. */
  lemma SampleFollows(t: Trace, pts: nat, duration: nat)
    requires duration > 0 && Remembers(t) && t.emitted != []
    requires RawRises(Advance(t, Sample(pts), duration).emitted)
    ensures var last := t.emitted[|t.emitted| - 1];
            var out := Rebase(OriginFor(t.timeline, pts, duration), pts);
            && (last.pipeline == t.pipeline ==> t.timeline.origin.Some? && pts > last.raw && out - last.out == pts - last.raw)
            && (last.pipeline != t.pipeline ==> t.timeline.origin.None? && out == Max(pts, last.out + duration))
  {
    var n := |t.emitted|;
    var e := Advance(t, Sample(pts), duration).emitted;
    assert e[n - 1] == t.emitted[n - 1];
    if e[n - 1].pipeline == t.pipeline { assert e[n - 1].raw < e[n].raw; }
  }

  lemma SampleRemembers(t: Trace, pts: nat, duration: nat)
    requires duration > 0 && Remembers(t)
    requires RawRises(Advance(t, Sample(pts), duration).emitted)
    ensures Remembers(Advance(t, Sample(pts), duration))
  {
    if t.emitted != [] { SampleFollows(t, pts, duration); }
  }

  lemma SampleRises(t: Trace, pts: nat, duration: nat)
    requires duration > 0 && Remembers(t) && OutputRises(t.emitted)
    requires RawRises(Advance(t, Sample(pts), duration).emitted)
    ensures OutputRises(Advance(t, Sample(pts), duration).emitted)
  {
    var n := |t.emitted|;
    var e := Advance(t, Sample(pts), duration).emitted;
    if n > 0 { SampleFollows(t, pts, duration); }
    forall i, j | 0 <= i < j < |e| ensures e[i].out < e[j].out {
      if j == n { assert i == n - 1 || t.emitted[i].out < t.emitted[n - 1].out; }
    }
  }

  lemma SampleRestarts(t: Trace, pts: nat, duration: nat)
    requires duration > 0 && Remembers(t) && FrameAfterRebuild(t.emitted, duration)
    requires RawRises(Advance(t, Sample(pts), duration).emitted)
    ensures FrameAfterRebuild(Advance(t, Sample(pts), duration).emitted, duration)
  {
    var n := |t.emitted|;
    var e := Advance(t, Sample(pts), duration).emitted;
    if n > 0 { SampleFollows(t, pts, duration); }
    forall i | 0 <= i < |e| - 1 && e[i].pipeline != e[i + 1].pipeline
      ensures && e[i + 1].out >= e[i].out + duration && e[i + 1].out >= e[i + 1].raw
              && (e[i + 1].out == e[i].out + duration || e[i + 1].out == e[i + 1].raw)
    {
      if i + 1 < n { assert e[i] == t.emitted[i] && e[i + 1] == t.emitted[i + 1]; }
    }
  }

  lemma SampleDeltas(t: Trace, pts: nat, duration: nat)
    requires duration > 0 && Remembers(t) && DeltasKept(t.emitted)
    requires RawRises(Advance(t, Sample(pts), duration).emitted)
    ensures DeltasKept(Advance(t, Sample(pts), duration).emitted)
  {
    var n := |t.emitted|;
    var e := Advance(t, Sample(pts), duration).emitted;
    if n > 0 { SampleFollows(t, pts, duration); }
    forall i, j | 0 <= i <= j < |e| && e[i].pipeline == e[j].pipeline
      ensures e[j].out - e[i].out == e[j].raw - e[i].raw
    {
      if i < j == n {
        assert e[i] == t.emitted[i];
        assert e[i].raw < e[n].raw;
      }
    }
  }

  lemma FirstStays(t: Trace, pts: nat, duration: nat)
    requires duration > 0 && Remembers(t) && FirstUnchanged(t.emitted)
    requires RawRises(Advance(t, Sample(pts), duration).emitted)
    ensures FirstUnchanged(Advance(t, Sample(pts), duration).emitted)
  {
    var n := |t.emitted|;
    var e := Advance(t, Sample(pts), duration).emitted;
    if n > 0 {
      SampleFollows(t, pts, duration);
      assert e[0] == t.emitted[0];
      assert t.emitted[0].pipeline == t.pipeline ==> t.timeline.origin.Some?;
    }
  }
}
