/**
 RTP time of the WHIP uplink: 90 kHz ticks (RFC 6184) on a 32-bit wrapping clock
 (section 5.1 of RFC 3550) that must keep moving forward when the camera restarts
 and its presentation times return near zero, and the viewer's recovery of a
 result's own RTP time from the `dt` it carries.
 */
module RtpClock {
  import opened Common

  const WRAP := 0x1_0000_0000
  const HALF := 0x8000_0000
  const U64 := 0x1_0000_0000_0000_0000

  function U32(x: int): nat { x % WRAP }

  lemma WrapShift(x: int, k: int)
    ensures U32(x + k * WRAP) == U32(x)
  {}

  lemma WrapDifference(x: int, y: int)
    ensures U32(U32(x) - y) == U32(x - y) && U32(x - U32(y)) == U32(x - y) && U32(U32(x) + y) == U32(x + y)
  {
    WrapShift(U32(x) - y, x / WRAP);
    WrapShift(x - U32(y), -(y / WRAP));
    WrapShift(U32(x) + y, x / WRAP);
  }

  // ----- presentation time to ticks -----

  function RtpTicks(pts: nat): nat {
    U32(pts / NANOS_PER_SECOND * 90_000 + pts % NANOS_PER_SECOND * 90_000 / NANOS_PER_SECOND)
  }

  /** Ticks before wrapping. */
  function Ticks(pts: nat): nat { pts * 9 / 100_000 }

  /** Splitting off whole seconds computes the floor exactly, and no 64-bit intermediate overflows. */
  lemma TicksExact(pts: nat)
    ensures RtpTicks(pts) == U32(pts * 90_000 / NANOS_PER_SECOND) == U32(Ticks(pts))
    ensures pts < U64 ==>
              pts / NANOS_PER_SECOND * 90_000 + pts % NANOS_PER_SECOND * 90_000 / NANOS_PER_SECOND < U64
              && pts % NANOS_PER_SECOND * 90_000 < U64
  {
    var q, r := pts / NANOS_PER_SECOND, pts % NANOS_PER_SECOND;
    assert pts == q * NANOS_PER_SECOND + r;
    var f := r * 90_000 / NANOS_PER_SECOND;
    assert f == r * 9 / 100_000;
    assert pts * 9 == q * 90_000 * 100_000 + r * 9;
    assert Ticks(pts) == q * 90_000 + f;
    assert pts * 90_000 / NANOS_PER_SECOND == q * 90_000 + f;
  }

  /** The distance from a source frame to the unit carrying it, as computed on unsigned integers. */
  function SeiDtTicks(attach: nat, source: nat): Option<nat> {
    if source > attach then None
    else Some(U32(((attach - source) * 9 + 50_000) % U64 / 100_000))
  }

  function RoundedTicks(elapsed: nat): nat { (elapsed * 9 + 50_000) / 100_000 }

  /** The computed distance is the rounded one exactly while that fits 32 bits. */
  lemma DtExactIff(attach: nat, source: nat)
    requires source <= attach
    ensures SeiDtTicks(attach, source) == Some(RoundedTicks(attach - source))
       <==> (attach - source) * 9 + 50_000 < WRAP * 100_000
  {}

  // ----- the clock -----

  datatype Unit = Unit(generation: nat, hasPts: bool, pts: nat)

  datatype Clock = Clock(start: nat, offset: nat, last: nat, frameTicks: nat,
                         lastPtsTicks: Option<nat>, generation: nat, hasLast: bool)

  function Fresh(start: nat): Clock { Clock(start, 0, 0, 3000, None, 0, false) }

  ghost predicate ValidClock(c: Clock) {
    && c.start < WRAP && c.offset < WRAP && c.last < WRAP && 1 <= c.frameTicks <= 9000
    && (c.lastPtsTicks.Some? ==> c.lastPtsTicks.value < WRAP && c.hasLast)
  }

  /** One call of the clock: the new state, whose `last` is the timestamp handed out. */
  function Tick(c: Clock, u: Unit): Clock {
    Stamp(c, u.generation, if u.hasPts then Some(RtpTicks(u.pts)) else None)
  }

  function Stamp(c: Clock, generation: nat, pts: Option<nat>): Clock {
    var known := if c.hasLast && generation != c.generation then None else c.lastPtsTicks;
    var next := if c.hasLast then U32(c.last + c.frameTicks) else c.start;
    match pts
    case None => c.(lastPtsTicks := known, generation := generation, last := next, hasLast := true)
    case Some(ticks) =>
      var offset := if c.hasLast && known.None? then U32(next - ticks) else c.offset;
      var step := if known.Some? then U32(ticks - known.value) else 0;
      Clock(c.start, offset, U32(ticks + offset), if 1 <= step <= 9000 then step else c.frameTicks,
            pts, generation, true)
  }

  class WhipRtpClock {
    const start: nat
    var offset: nat
    var last: nat
    var frameTicks: nat
    var lastPtsTicks: Option<nat>
    var generation: nat
    var hasLast: bool

    ghost function View(): Clock
      reads this
    {
      Clock(start, offset, last, frameTicks, lastPtsTicks, generation, hasLast)
    }

    constructor (startTimestamp: nat)
      requires startTimestamp < WRAP
      ensures View() == Fresh(startTimestamp) && ValidClock(View())
    {
      start := startTimestamp;
      offset, last, frameTicks, lastPtsTicks, generation, hasLast := 0, 0, 3000, None, 0, false;
    }

    method Timestamp(generation: nat, hasPts: bool, pts: nat) returns (next: nat)
      requires ValidClock(View())
      modifies this
      ensures View() == Tick(old(View()), Unit(generation, hasPts, pts)) && ValidClock(View())
      ensures next == last
    {
      if hasLast && generation != this.generation { lastPtsTicks := None; }
      this.generation := generation;
      next := if hasLast then U32(last + frameTicks) else start;
      if hasPts {
        var ticks := RtpTicks(pts);
        if hasLast && lastPtsTicks.None? {
          offset := U32(next - ticks);
        } else if lastPtsTicks.Some? {
          var distance := U32(ticks - lastPtsTicks.value);
          var step := if distance < HALF then distance else distance - WRAP;
          if 0 < step <= 9000 { frameTicks := step; }
        }
        next := U32(ticks + offset);
        lastPtsTicks := Some(ticks);
      }
      last := next;
      hasLast := true;
    }
  }

  lemma TickKeepsValid(c: Clock, u: Unit)
    requires ValidClock(c)
    ensures ValidClock(Tick(c, u)) && Tick(c, u).hasLast
  {}

  // ----- forward motion -----

  function Run(c: Clock, units: seq<Unit>): Clock {
    if units == [] then c else Tick(Run(c, units[..|units| - 1]), units[|units| - 1])
  }

  /** The RTP time of unit `i` of a session that began at `start`. */
  function Timestamp(start: nat, units: seq<Unit>, i: nat): nat
    requires i < |units|
  {
    Run(Fresh(start), units[..i + 1]).last
  }

  /** How far the RTP time moves from unit `i - 1` to unit `i`, modulo 2^32. */
  function AdvanceAt(start: nat, units: seq<Unit>, i: nat): nat
    requires 0 < i < |units|
  {
    U32(Timestamp(start, units, i) - Timestamp(start, units, i - 1))
  }

  // What a sender can tell from the units alone.

  /** The latest PTS of a generation, and how many units without PTS followed it. */
  datatype Anchor = Anchor(pts: nat, since: nat)

  /** The anchor once `v` has been sent, from the one its generation had before. */
  function Next(anchor: Option<Anchor>, v: Unit): Option<Anchor> {
    if v.hasPts then Some(Anchor(v.pts, 0))
    else match anchor case None => None case Some(a) => Some(Anchor(a.pts, a.since + 1))
  }

  function LastPts(units: seq<Unit>): Option<Anchor>
    decreases |units|, 0
  {
    if units == [] then None
    else
      var n := |units| - 1;
      Next(AnchorFor(units[..n], units[n].generation), units[n])
  }

  /** What a unit of `generation` sent after `before` continues from. */
  function AnchorFor(before: seq<Unit>, generation: nat): Option<Anchor>
    decreases |before|, 1
  {
    if before != [] && before[|before| - 1].generation == generation then LastPts(before) else None
  }

  /** The frame interval after `v`: its distance from the PTS before, if that is at most a tenth of a second. */
  function Learned(anchor: Option<Anchor>, v: Unit, interval: nat): nat {
    var step := if v.hasPts && anchor.Some? then U32(Ticks(v.pts) - Ticks(anchor.value.pts)) else 0;
    if 1 <= step <= 9000 then step else interval
  }

  function Interval(units: seq<Unit>): (ticks: nat)
    ensures 1 <= ticks <= 9000
  {
    if units == [] then 3000
    else
      var n := |units| - 1;
      Learned(AnchorFor(units[..n], units[n].generation), units[n], Interval(units[..n]))
  }

  /** The time reached by a PTS and the intervals counted for the units after it. */
  function Reached(a: Anchor, interval: nat): int { Ticks(a.pts) + a.since * interval }

  /** How far the PTS of `v` lies beyond the time reached; none without a PTS to continue from. */
  function Lead(anchor: Option<Anchor>, v: Unit, interval: nat): Option<int> {
    if v.hasPts && anchor.Some? then Some(Ticks(v.pts) - Reached(anchor.value, interval)) else None
  }

  function Step(anchor: Option<Anchor>, v: Unit, interval: nat): nat {
    match Lead(anchor, v, interval) case None => interval case Some(lead) => U32(lead)
  }

  /** The clock's memory in these terms. */
  ghost predicate Remembers(c: Clock, anchor: Option<Anchor>, generation: nat, interval: nat) {
    && ValidClock(c) && c.hasLast && c.generation == generation && c.frameTicks == interval
    && match anchor
       case None => c.lastPtsTicks.None?
       case Some(a) => c.lastPtsTicks == Some(U32(Ticks(a.pts))) && c.last == U32(Reached(a, interval) + c.offset)
  }

  lemma RemembersNext(c: Clock, anchor: Option<Anchor>, generation: nat, interval: nat, v: Unit)
    requires Remembers(c, anchor, generation, interval)
    ensures var before := if v.generation == generation then anchor else None;
            && Remembers(Tick(c, v), Next(before, v), v.generation, Learned(before, v, interval))
            && U32(Tick(c, v).last - c.last) == Step(before, v, interval)
  {
    if !v.hasPts {
      NextWithout(c, anchor, generation, interval, v);
    } else if v.generation == generation && anchor.Some? {
      NextPts(c, anchor.value, interval, v);
    } else {
      NextRestart(c, v);
    }
  }

  lemma NextWithout(c: Clock, anchor: Option<Anchor>, generation: nat, interval: nat, v: Unit)
    requires Remembers(c, anchor, generation, interval) && !v.hasPts
    ensures var before := if v.generation == generation then anchor else None;
            Remembers(Tick(c, v), Next(before, v), v.generation, interval)
    ensures U32(Tick(c, v).last - c.last) == interval
  {
    var d := Tick(c, v);
    assert d == Stamp(c, v.generation, None);
    StampWithout(c, v.generation);
    if anchor.Some? && v.generation == generation {
      OneMore(anchor.value, interval, c.offset);
      var next := Anchor(anchor.value.pts, anchor.value.since + 1);
      assert Next(anchor, v) == Some(next) && d.last == U32(Reached(next, interval) + d.offset);
    }
  }

  lemma NextRestart(c: Clock, v: Unit)
    requires ValidClock(c) && c.hasLast && v.hasPts && (v.generation != c.generation || c.lastPtsTicks.None?)
    ensures Remembers(Tick(c, v), Some(Anchor(v.pts, 0)), v.generation, c.frameTicks)
    ensures U32(Tick(c, v).last - c.last) == c.frameTicks
  {
    TicksExact(v.pts);
    StampRestart(c, v.generation, Ticks(v.pts));
    assert Reached(Anchor(v.pts, 0), c.frameTicks) == Ticks(v.pts);
  }

  lemma NextPts(c: Clock, a: Anchor, interval: nat, v: Unit)
    requires Remembers(c, Some(a), v.generation, interval) && v.hasPts
    ensures Remembers(Tick(c, v), Some(Anchor(v.pts, 0)), v.generation, Learned(Some(a), v, interval))
    ensures U32(Tick(c, v).last - c.last) == U32(Ticks(v.pts) - Reached(a, interval))
  {
    TicksExact(v.pts);
    StampPts(c, Ticks(v.pts), Ticks(a.pts), Reached(a, interval));
    assert Reached(Anchor(v.pts, 0), Learned(Some(a), v, interval)) == Ticks(v.pts);
  }

  lemma StampWithout(c: Clock, generation: nat)
    requires ValidClock(c) && c.hasLast
    ensures var d := Stamp(c, generation, None);
            && ValidClock(d) && d.hasLast && d.generation == generation && d.offset == c.offset
            && d.lastPtsTicks == (if generation == c.generation then c.lastPtsTicks else None)
            && d.last == U32(c.last + c.frameTicks) && U32(d.last - c.last) == d.frameTicks == c.frameTicks
  {
    StepBy(c.last, c.frameTicks);
  }

  lemma OneMore(a: Anchor, interval: nat, offset: nat)
    ensures U32(Reached(Anchor(a.pts, a.since + 1), interval) + offset) == U32(U32(Reached(a, interval) + offset) + interval)
  {
    assert (a.since + 1) * interval == a.since * interval + interval;
    WrapDifference(Reached(a, interval) + offset, interval);
  }

  lemma StampRestart(c: Clock, generation: nat, t: nat)
    requires ValidClock(c) && c.hasLast && (generation != c.generation || c.lastPtsTicks.None?)
    ensures var d := Stamp(c, generation, Some(U32(t)));
            && ValidClock(d) && d.hasLast && d.generation == generation && d.lastPtsTicks == Some(U32(t))
            && d.last == U32(t + d.offset) && U32(d.last - c.last) == d.frameTicks == c.frameTicks
  {
    var next := U32(c.last + c.frameTicks);
    StepBy(c.last, c.frameTicks);
    Restamp(next, U32(t));
    WrapDifference(t, U32(next - U32(t)));
  }

  lemma StampPts(c: Clock, t: nat, s: nat, reached: int)
    requires ValidClock(c) && c.hasLast && c.lastPtsTicks == Some(U32(s)) && c.last == U32(reached + c.offset)
    ensures var d := Stamp(c, c.generation, Some(U32(t))); var step := U32(t - s);
            && ValidClock(d) && d.hasLast && d.generation == c.generation && d.lastPtsTicks == Some(U32(t))
            && d.offset == c.offset && d.last == U32(t + c.offset) && U32(d.last - c.last) == U32(t - reached)
            && d.frameTicks == if 1 <= step <= 9000 then step else c.frameTicks
  {
    WrapDifference(t, c.offset);
    WrapOfDifference(t, s);
    WrapOfDifference(t + c.offset, reached + c.offset);
    assert t + c.offset - (reached + c.offset) == t - reached;
  }

  lemma StepBy(last: nat, step: nat)
    requires step < WRAP
    ensures U32(U32(last + step) - last) == step
  {
    WrapDifference(last + step, last);
  }

  lemma Restamp(next: nat, ticks: nat)
    requires next < WRAP
    ensures U32(ticks + U32(next - ticks)) == next
  {
    var x := next - ticks;
    WrapDifference(x, ticks);
    assert U32(x + ticks) == next;
  }

  lemma WrapOfDifference(a: int, b: int)
    ensures U32(U32(a) - U32(b)) == U32(a - b)
  {
    WrapDifference(a, U32(b));
    WrapDifference(a, b);
  }

  /** After every run the clock remembers exactly what the units tell. */
  lemma {:induction false} RunRemembers(start: nat, units: seq<Unit>)
    requires start < WRAP && units != []
    ensures Remembers(Run(Fresh(start), units), LastPts(units), units[|units| - 1].generation, Interval(units))
  {
    var n := |units| - 1;
    var before, v := units[..n], units[n];
    if n == 0 {
      assert before == [];
      TicksExact(v.pts);
      WrapDifference(Ticks(v.pts), 0);
      assert Reached(Anchor(v.pts, 0), 3000) == Ticks(v.pts);
    } else {
      RunRemembers(start, before);
      RemembersNext(Run(Fresh(start), before), LastPts(before), before[n - 1].generation, Interval(before), v);
    }
  }

  /** A session begins at its start value, or at its first unit's PTS if that has one. */
  lemma BeginsAt(start: nat, units: seq<Unit>)
    requires start < WRAP && units != []
    ensures Timestamp(start, units, 0) == if units[0].hasPts then U32(Ticks(units[0].pts)) else start
  {
    var v := units[0];
    assert units[..0 + 1] == [v] && [v][..0] == [];
    assert Run(Fresh(start), [v]) == Tick(Run(Fresh(start), [v][..0]), v);
    assert Timestamp(start, units, 0) == Tick(Fresh(start), v).last;
    if v.hasPts {
      TicksExact(v.pts);
      WrapDifference(Ticks(v.pts), 0);
      assert Tick(Fresh(start), v).last == U32(RtpTicks(v.pts) + 0);
    }
  }

  /** The lead of unit `i` over the units before it. */
  function LeadAt(units: seq<Unit>, i: nat): Option<int>
    requires i < |units|
  {
    Lead(AnchorFor(units[..i], units[i].generation), units[i], Interval(units[..i]))
  }

  /**
   Every step of every run, by the units alone: a PTS that continues a generation
   moves the RTP time by its lead, any other unit by the frame interval.
   */
  lemma StepsAre(start: nat, units: seq<Unit>, i: nat)
    requires start < WRAP && 0 < i < |units|
    ensures AdvanceAt(start, units, i) ==
              match LeadAt(units, i) case None => Interval(units[..i]) case Some(lead) => U32(lead)
  {
    AdvanceIsStep(start, units, i);
  }

  lemma AdvanceIsStep(start: nat, units: seq<Unit>, i: nat)
    requires start < WRAP && 0 < i < |units|
    ensures AdvanceAt(start, units, i) == Step(AnchorFor(units[..i], units[i].generation), units[i], Interval(units[..i]))
  {
    var before, v := units[..i], units[i];
    var c := Run(Fresh(start), before);
    RunRemembers(start, before);
    RemembersNext(c, LastPts(before), before[i - 1].generation, Interval(before), v);
    assert AdvanceAt(start, units, i) == U32(Tick(c, v).last - c.last) by { ClockAt(start, units, i); }
    assert AnchorFor(before, v.generation) == if v.generation == before[i - 1].generation then LastPts(before) else None;
  }

  lemma ClockAt(start: nat, units: seq<Unit>, i: nat)
    requires start < WRAP && i < |units|
    ensures ValidClock(Run(Fresh(start), units[..i]))
    ensures Run(Fresh(start), units[..i + 1]) == Tick(Run(Fresh(start), units[..i]), units[i])
  {
    if i > 0 { RunRemembers(start, units[..i]); }
    assert units[..i + 1][..i] == units[..i];
  }

  ghost predicate MovesForward(start: nat, units: seq<Unit>) {
    forall i :: 0 < i < |units| ==> 1 <= AdvanceAt(start, units, i) < HALF
  }

  /** A lead that moves the 32-bit clock forward. */
  ghost predicate Forward(lead: Option<int>) { lead.Some? ==> 1 <= U32(lead.value) < HALF }

  /**
   Over every run, with units without PTS anywhere and any number of restarts: RTP
   time moves forward at every step if and only if every PTS that continues a
   generation leads the PTS before it and the intervals counted since.
   */
  lemma TimeMovesForwardIff(start: nat, units: seq<Unit>)
    requires start < WRAP
    ensures MovesForward(start, units) <==> forall i :: 0 < i < |units| ==> Forward(LeadAt(units, i))
  {
    forall i | 0 < i < |units| ensures 1 <= AdvanceAt(start, units, i) < HALF <==> Forward(LeadAt(units, i)) {
      StepsAre(start, units, i);
    }
  }

  /** Within half the clock's range, that is a PTS later than the last one by more than the intervals counted. */
  lemma ForwardIff(anchor: Anchor, v: Unit, interval: nat)
    requires v.hasPts && -HALF <= Ticks(v.pts) - Reached(anchor, interval) < HALF
    ensures Forward(Lead(Some(anchor), v, interval)) <==> Ticks(v.pts) > Ticks(anchor.pts) + anchor.since * interval
  {
    SmallWrap(Ticks(v.pts) - Reached(anchor, interval));
  }

  lemma SmallWrap(x: int)
    requires -HALF <= x < HALF
    ensures U32(x) == if x < 0 then x + WRAP else x
  {}

  /**
   What a healthy camera delivers: within a generation, units without PTS come
   only before the first PTS, and PTS then rises by at least one tick and less
   than half the clock's range.
   */
  ghost predicate Orderly(u: Unit, v: Unit) {
    u.generation == v.generation && u.hasPts ==>
      v.hasPts && 1 <= Ticks(v.pts) - Ticks(u.pts) < HALF
  }

  ghost predicate OrderlyRun(units: seq<Unit>) {
    forall i :: 0 <= i < |units| - 1 ==> Orderly(units[i], units[i + 1])
  }

  /** In an orderly run nothing follows the last PTS. */
  lemma {:induction false} OrderlyAnchor(units: seq<Unit>)
    requires OrderlyRun(units) && units != [] && !units[|units| - 1].hasPts
    ensures LastPts(units).None?
  {
    var n := |units| - 1;
    if n > 0 && units[n - 1].generation == units[n].generation {
      assert Orderly(units[n - 1], units[n - 1 + 1]);
      OrderlyAnchor(units[..n]);
    }
  }

  /**
   Every orderly run moves forward; a restart advances the RTP time by exactly the
   learned frame interval, and a PTS that continues a generation by its distance in
   ticks from the unit before.
   */
  lemma TimeMovesForward(start: nat, units: seq<Unit>)
    requires start < WRAP && OrderlyRun(units)
    ensures MovesForward(start, units)
    ensures forall i :: 0 < i < |units| ==>
              AdvanceAt(start, units, i) ==
                if units[i].generation == units[i - 1].generation && units[i - 1].hasPts
                then Ticks(units[i].pts) - Ticks(units[i - 1].pts)
                else Interval(units[..i])
  {
    forall i | 0 < i < |units|
      ensures AdvanceAt(start, units, i) ==
                if units[i].generation == units[i - 1].generation && units[i - 1].hasPts
                then Ticks(units[i].pts) - Ticks(units[i - 1].pts)
                else Interval(units[..i])
      ensures 1 <= AdvanceAt(start, units, i) < HALF
    {
      StepsAre(start, units, i);
      OrderlyLead(units, i);
    }
  }

  lemma OrderlyLead(units: seq<Unit>, i: nat)
    requires OrderlyRun(units) && 0 < i < |units|
    ensures var u, v := units[i - 1], units[i];
            if v.generation == u.generation && u.hasPts
            then LeadAt(units, i) == Some(Ticks(v.pts) - Ticks(u.pts)) && 1 <= U32(LeadAt(units, i).value) < HALF
                 && U32(LeadAt(units, i).value) == Ticks(v.pts) - Ticks(u.pts)
            else LeadAt(units, i) == None
  {
    var u, v, before := units[i - 1], units[i], units[..i];
    assert Orderly(units[i - 1], units[i - 1 + 1]);
    if !u.hasPts {
      OrderlyAnchor(before);
    } else if v.generation == u.generation {
      assert AnchorFor(before, v.generation) == Some(Anchor(u.pts, 0));
      assert Reached(Anchor(u.pts, 0), Interval(before)) == Ticks(u.pts);
      SmallWrap(Ticks(v.pts) - Ticks(u.pts));
    }
  }

  /**
   A unit without PTS between two PTS of a session's first generation: the clock has
   counted 3000 ticks for it, so the step to the second PTS goes backward unless
   that PTS lies more than 3000 ticks after the first.
   */
  lemma DisorderMovesBackward(start: nat, pts: nat)
    requires start < WRAP && Ticks(pts) < HALF
    ensures var units := [Unit(0, true, 0), Unit(0, false, 0), Unit(0, true, pts)];
            && !OrderlyRun(units)
            && AdvanceAt(start, units, 2) == U32(Ticks(pts) - 3000)
            && (MovesForward(start, units) <==> Ticks(pts) > 3000)
  {
    var units := [Unit(0, true, 0), Unit(0, false, 0), Unit(0, true, pts)];
    assert !Orderly(units[0], units[0 + 1]);
    DisorderLeads(units, pts);
    StepsAre(start, units, 1);
    StepsAre(start, units, 2);
    SmallWrap(Ticks(pts) - 3000);
  }

  lemma DisorderLeads(units: seq<Unit>, pts: nat)
    requires units == [Unit(0, true, 0), Unit(0, false, 0), Unit(0, true, pts)]
    ensures LeadAt(units, 1) == None && Interval(units[..1]) == 3000
    ensures LeadAt(units, 2) == Some(Ticks(pts) - 3000)
  {
    var u, v := units[0], units[1];
    assert [u][..0] == [] && [u, v][..1] == [u] && units[..1] == [u] && units[..2] == [u, v];
    assert LastPts([u]) == Some(Anchor(0, 0)) && Interval([u]) == 3000;
    assert LastPts([u, v]) == Some(Anchor(0, 1)) && Interval([u, v]) == 3000;
    assert Reached(Anchor(0, 1), 3000) == 3000;
  }

  // ----- viewer time recovery -----

  lemma {:induction false} OffsetHolds(c: Clock, units: seq<Unit>)
    requires ValidClock(c) && c.lastPtsTicks.Some?
    requires forall i :: 0 <= i < |units| ==> units[i].generation == c.generation
    ensures var d := Run(c, units);
            ValidClock(d) && d.offset == c.offset && d.lastPtsTicks.Some? && d.generation == c.generation
  {
    if units != [] {
      OffsetHolds(c, units[..|units| - 1]);
    }
  }

  lemma RoundingError(s: nat, a: nat)
    requires s <= a
    ensures -1 <= Ticks(a) - RoundedTicks(a - s) - Ticks(s) <= 1
    ensures (a - s) * 9 % 100_000 == 0 ==> Ticks(a) - RoundedTicks(a - s) == Ticks(s)
  {}

  /** The distance modulo 2^32 between a recovered time and the true one: at most a tick, and none at a whole number of ticks. */
  ghost predicate WithinOneTick(error: nat, elapsed: nat) {
    (error == 0 || error == 1 || error == WRAP - 1) && (elapsed * 9 % 100_000 == 0 ==> error == 0)
  }

  /**
   A viewer subtracts `dt` from the RTP time of the unit that carried a result. For
   a source frame and a carrying unit of one generation at most a second apart, with
   anything sent in between, the difference is the source frame's own RTP time
   within one tick, and exactly when they are a whole number of ticks apart.
   */
  lemma ViewerRecoversTime(c: Clock, s: Unit, between: seq<Unit>, a: Unit)
    requires ValidClock(c) && s.hasPts && a.hasPts && s.generation == a.generation
    requires forall i :: 0 <= i < |between| ==> between[i].generation == s.generation
    requires s.pts <= a.pts <= s.pts + NANOS_PER_SECOND
    ensures var atSource := Tick(c, s);
            var atCarrier := Tick(Run(atSource, between), a);
            var dt := SeiDtTicks(a.pts, s.pts).value;
            var error := U32(atCarrier.last - dt - atSource.last);
            dt <= 90_000 && WithinOneTick(error, a.pts - s.pts)
  {
    var c1 := Tick(c, s);
    TickKeepsValid(c, s);
    OffsetHolds(c1, between);
    CarriedTime(Run(c1, between), a);
    assert c1.last == U32(RtpTicks(s.pts) + c1.offset);
    TimeError(s.pts, a.pts, c1.offset);
  }

  lemma CarriedTime(c: Clock, a: Unit)
    requires ValidClock(c) && c.lastPtsTicks.Some? && a.hasPts && a.generation == c.generation
    ensures Tick(c, a).last == U32(RtpTicks(a.pts) + c.offset)
  {}

  lemma TimeError(s: nat, a: nat, offset: nat)
    requires s <= a <= s + NANOS_PER_SECOND
    ensures var dt := SeiDtTicks(a, s).value;
            var error := U32(U32(RtpTicks(a) + offset) - dt - U32(RtpTicks(s) + offset));
            dt <= 90_000 && WithinOneTick(error, a - s)
  {
    DtExactIff(a, s);
    RoundingError(s, a);
    TicksExact(s);
    TicksExact(a);
    var dt := RoundedTicks(a - s);
    StampDifference(Ticks(a), Ticks(s), offset, dt);
    SmallWrap(Ticks(a) - dt - Ticks(s));
  }

  lemma StampDifference(carrier: nat, source: nat, offset: nat, dt: nat)
    ensures U32(U32(U32(carrier) + offset) - dt - U32(U32(source) + offset)) == U32(carrier - dt - source)
  {
    WrapDifference(carrier, offset);
    WrapDifference(source, offset);
    WrapDifference(carrier + offset, dt + U32(source + offset));
    WrapDifference(carrier + offset - dt, source + offset);
  }

  lemma {:induction false} RunOfConcat(c: Clock, x: seq<Unit>, y: seq<Unit>)
    ensures Run(c, x + y) == Run(Run(c, x), y)
  {
    if y == [] {
      assert x + y == x;
    } else {
      var n := |y| - 1;
      assert (x + y)[..|x + y| - 1] == x + y[..n];
      RunOfConcat(c, x, y[..n]);
    }
  }

  /** The RTP time of unit `a` minus `dt` is that of unit `f`, within one tick. */
  ghost predicate Locates(start: nat, units: seq<Unit>, f: nat, a: nat, dt: nat)
    requires f <= a < |units| && units[f].pts <= units[a].pts
  {
    WithinOneTick(U32(Timestamp(start, units, a) - dt - Timestamp(start, units, f)), units[a].pts - units[f].pts)
  }

  /** The same within a session: from the RTP time of unit `a`, the RTP time of an earlier unit `f` of its generation. */
  lemma SessionRecoversTime(start: nat, units: seq<Unit>, f: nat, a: nat)
    requires start < WRAP && f <= a < |units| && units[f].hasPts && units[a].hasPts
    requires forall j :: f <= j <= a ==> units[j].generation == units[a].generation
    requires units[f].pts <= units[a].pts <= units[f].pts + NANOS_PER_SECOND
    ensures Locates(start, units, f, a, SeiDtTicks(units[a].pts, units[f].pts).value)
  {
    if f < a {
      ClockAt(start, units, f);
      LaterClock(start, units, f, a);
      ViewerRecoversTime(Run(Fresh(start), units[..f]), units[f], units[f + 1..a], units[a]);
    } else {
      SameTime(units[a].pts, Timestamp(start, units, a));
    }
  }

  lemma SameTime(pts: nat, stamp: nat)
    ensures SeiDtTicks(pts, pts) == Some(0) && WithinOneTick(U32(stamp - 0 - stamp), 0)
  {}

  lemma LaterClock(start: nat, units: seq<Unit>, f: nat, a: nat)
    requires f < a < |units|
    ensures Run(Fresh(start), units[..a + 1]) == Tick(Run(Run(Fresh(start), units[..f + 1]), units[f + 1..a]), units[a])
  {
    assert units[..a + 1][..a] == units[..a] == units[..f + 1] + units[f + 1..a];
    RunOfConcat(Fresh(start), units[..f + 1], units[f + 1..a]);
  }
}
