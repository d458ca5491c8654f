/**
 Which detection results ride on which access unit. Results wait until a unit of
 their own generation is sent, at most one second after their frame; what is due
 goes out oldest first in one SEI unit of at most 1024 bytes.
 */
module SeiSelector {
  import opened Common
  import opened DetectionJson
  import opened PayloadSize
  import RtpClock
  import SeiNal
  import StableSort

  const WINDOW := NANOS_PER_SECOND

  datatype Source = Source(pts: nat, generation: nat, boxes: seq<Box>)

  datatype Stats = Stats(units: nat, attached: nat, dropped: nat, boxesDropped: nat)

  datatype State = State(pending: seq<Source>, stats: Stats)

  /** What one call did: the new state, the results it attached and dropped, and the message it sent. */
  datatype Effect = Effect(state: State, attached: seq<Source>, dropped: seq<Source>, message: seq<Result>)

  // ----- adding -----

  predicate Before(a: Source, b: Source) {
    a.generation < b.generation || (a.generation == b.generation && a.pts < b.pts)
  }

  /** The first position of a least element by generation, then PTS. */
  function Oldest(s: seq<Source>): (k: nat)
    requires s != []
    ensures k < |s|
  {
    if |s| == 1 then 0
    else
      var n := |s| - 1;
      var k := Oldest(s[..n]);
      if Before(s[n], s[k]) then n else k
  }

  lemma {:induction false} OldestIsLeast(s: seq<Source>)
    requires s != []
    ensures forall j :: 0 <= j < |s| ==> !Before(s[j], s[Oldest(s)])
  {
    if |s| > 1 {
      var n := |s| - 1;
      OldestIsLeast(s[..n]);
      forall j | 0 <= j < n ensures !Before(s[j], s[Oldest(s)]) { assert s[..n][j] == s[j]; }
    }
  }

  function AddResult(st: State, maxPending: nat, r: Source): Effect {
    var all := st.pending + [r];
    if |all| <= maxPending then Effect(st.(pending := all), [], [], [])
    else
      var k := Oldest(all);
      Effect(State(all[..k] + all[k + 1..], st.stats.(dropped := st.stats.dropped + 1)), [], [all[k]], [])
  }

  // ----- choosing what is due -----

  predicate IsLater(r: Source, generation: nat) { r.generation > generation }

  predicate IsDue(r: Source, pts: nat, generation: nat) {
    r.generation == generation && r.pts <= pts && pts - r.pts <= WINDOW
  }

  function Later(s: seq<Source>, generation: nat): seq<Source> {
    if s == [] then []
    else
      var n := |s| - 1;
      Later(s[..n], generation) + (if IsLater(s[n], generation) then [s[n]] else [])
  }

  function Due(s: seq<Source>, pts: nat, generation: nat): (d: seq<Source>)
    ensures forall r :: r in d ==> IsDue(r, pts, generation)
  {
    if s == [] then []
    else
      var n := |s| - 1;
      Due(s[..n], pts, generation) + (if IsDue(s[n], pts, generation) then [s[n]] else [])
  }

  function Stale(s: seq<Source>, pts: nat, generation: nat): seq<Source> {
    if s == [] then []
    else
      var n := |s| - 1;
      Stale(s[..n], pts, generation)
      + (if IsLater(s[n], generation) || IsDue(s[n], pts, generation) then [] else [s[n]])
  }

  lemma {:induction false} PartitionIsExact(s: seq<Source>, pts: nat, generation: nat)
    ensures multiset(s) == multiset(Later(s, generation)) + multiset(Due(s, pts, generation))
                         + multiset(Stale(s, pts, generation))
    ensures |Later(s, generation)| <= |s|
  {
    if s != [] {
      var n := |s| - 1;
      var rest, x := s[..n], [s[n]];
      PartitionIsExact(rest, pts, generation);
      assert s == rest + x;
      var later, due, stale := Later(rest, generation), Due(rest, pts, generation), Stale(rest, pts, generation);
      var l := if IsLater(s[n], generation) then x else [];
      var d := if IsDue(s[n], pts, generation) then x else [];
      var t := if IsLater(s[n], generation) || IsDue(s[n], pts, generation) then [] else x;
      SumOfConcat(rest, x);
      SumOfConcat(later, l);
      SumOfConcat(due, d);
      SumOfConcat(stale, t);
      SumOfParts(multiset(rest), multiset(later), multiset(due), multiset(stale), multiset(l), multiset(d), multiset(t));
      assert multiset(x) == multiset(l) + multiset(d) + multiset(t);
    }
  }

  lemma SumOfParts<T>(all: multiset<T>, a: multiset<T>, b: multiset<T>, c: multiset<T>,
                      x: multiset<T>, y: multiset<T>, z: multiset<T>)
    requires all == a + b + c
    ensures all + (x + y + z) == (a + x) + (b + y) + (c + z)
  {}

  function PtsKey(r: Source): int { r.pts }

  function OldestFirst(s: seq<Source>): seq<Source> { StableSort.Sort(s, PtsKey) }

  function DueInOrder(s: seq<Source>, pts: nat, generation: nat): seq<Source> { OldestFirst(Due(s, pts, generation)) }

  lemma DueInOrderFacts(s: seq<Source>, pts: nat, generation: nat)
    ensures var d := DueInOrder(s, pts, generation);
            && multiset(d) == multiset(Due(s, pts, generation))
            && (forall i :: 0 <= i < |d| ==> IsDue(d[i], pts, generation))
            && StableSort.Ordered(d, PtsKey)
  {
    var d := DueInOrder(s, pts, generation);
    StableSort.SortOrdered(Due(s, pts, generation), PtsKey);
    forall i | 0 <= i < |d| ensures IsDue(d[i], pts, generation) { assert d[i] in multiset(d); }
  }

  // ----- fitting the message -----

  function DtOf(r: Source, attach: nat): nat {
    match RtpClock.SeiDtTicks(attach, r.pts) case Some(dt) => dt case None => 0
  }

  lemma DtInWindow(r: Source, attach: nat, generation: nat)
    requires IsDue(r, attach, generation)
    ensures DtOf(r, attach) == RtpClock.RoundedTicks(attach - r.pts) <= 90_000
  {
    RtpClock.DtExactIff(attach, r.pts);
  }

  function Wire(due: seq<Source>, attach: nat): (w: seq<Result>)
    ensures |w| == |due|
  {
    seq(|due|, i requires 0 <= i < |due| => Result(DtOf(due[i], attach), due[i].boxes))
  }

  /** How many of the oldest results give way until the rest fits or one is left. */
  function Skipped(rs: seq<Result>): (k: nat)
    ensures rs != [] ==> k < |rs|
  {
    if |rs| <= 1 || Fits(rs) then 0 else 1 + Skipped(rs[1..])
  }

  function ScoreKey(b: Box): int { -b.score }

  function BestFirst(boxes: seq<Box>): seq<Box> { StableSort.Sort(boxes, ScoreKey) }

  /** Whether the unit with the first `n` boxes fits. */
  function CountFits(dt: nat, boxes: seq<Box>): nat -> bool {
    (n: nat) => n <= |boxes| && Fits([Result(dt, boxes[..n])])
  }

  /** The largest box count whose unit fits. */
  function FittingCount(dt: nat, boxes: seq<Box>): (k: nat)
    ensures k <= |boxes|
  {
    StableSort.LargestUpTo(CountFits(dt, boxes), |boxes|)
  }

  /** A result cut to its highest-score boxes that fit, if it does not fit whole. */
  function Trimmed(r: Result): Result {
    if Fits([r]) then r
    else
      var ranked := BestFirst(r.boxes);
      StableSort.SortOrdered(r.boxes, ScoreKey);
      Result(r.dt, ranked[..FittingCount(r.dt, ranked)])
  }

  /** The results actually printed for those that are left. */
  function Message(rs: seq<Result>): seq<Result> {
    if Fits(rs) || rs == [] then rs else [Trimmed(rs[0])]
  }

  function BoxesCut(rs: seq<Result>): (n: nat) {
    if Fits(rs) || rs == [] then 0
    else
      TrimmedKeepsNoMore(rs[0]);
      |rs[0].boxes| - |Trimmed(rs[0]).boxes|
  }

  lemma TrimmedKeepsNoMore(r: Result)
    ensures |Trimmed(r).boxes| <= |r.boxes|
  {
    StableSort.SortOrdered(r.boxes, ScoreKey);
  }

  function TakeFor(st: State, pts: nat, generation: nat): Effect {
    var due := DueInOrder(st.pending, pts, generation);
    var stale := Stale(st.pending, pts, generation);
    var left := Later(st.pending, generation);
    var stats := st.stats.(dropped := st.stats.dropped + |stale|);
    if due == [] then Effect(State(left, stats), [], stale, [])
    else
      var wire := Wire(due, pts);
      var k := Skipped(wire);
      Effect(State(left, Stats(stats.units + 1, stats.attached + (|due| - k), stats.dropped + k,
                               stats.boxesDropped + BoxesCut(wire[k..]))),
             due[k..], stale + due[..k], Message(wire[k..]))
  }

  /** The bytes handed to the splicer; empty when nothing is due. */
  function UnitBytes(e: Effect): seq<byte> {
    if e.message == [] then [] else EncodedResults(e.message)
  }

  // ----- what is attached is the longest newest suffix that fits -----

  lemma {:induction false} SkippedIsLeast(rs: seq<Result>)
    requires rs != []
    ensures var k := Skipped(rs);
            && (k == |rs| - 1 || Fits(rs[k..]))
            && forall j :: 0 <= j < k ==> !Fits(rs[j..])
  {
    if |rs| > 1 && !Fits(rs) {
      var t := rs[1..];
      SkippedIsLeast(t);
      var k := Skipped(t);
      assert rs[k + 1..] == t[k..];
      forall j | 0 <= j < k + 1 ensures !Fits(rs[j..]) {
        if j > 0 { assert rs[j..] == t[j - 1..]; } else { assert rs[0..] == rs; }
      }
    } else {
      assert rs[0..] == rs;
    }
  }

  lemma FittingCountIsLargest(dt: nat, boxes: seq<Box>)
    requires dt <= 90_000
    ensures var k := FittingCount(dt, boxes); var fits := CountFits(dt, boxes);
            fits(k) && forall m :: k < m <= |boxes| ==> !fits(m)
  {
    assert boxes[..0] == [];
    EmptyResultFits(dt);
    StableSort.LargestUpToIs(CountFits(dt, boxes), |boxes|);
  }

  /** Keeping the first `k` of ranked boxes: none of the cut ones outscores them, and one more would not fit. */
  ghost predicate BestCut(dt: nat, ranked: seq<Box>, k: nat) {
    && k < |ranked|
    && CountFits(dt, ranked)(k)
    && (forall i, j :: 0 <= i < k <= j < |ranked| ==> ranked[i].score >= ranked[j].score)
    && (forall m :: k < m <= |ranked| ==> !CountFits(dt, ranked)(m))
  }

  lemma CutIsBest(dt: nat, ranked: seq<Box>)
    requires dt <= 90_000 && StableSort.Ordered(ranked, ScoreKey) && !CountFits(dt, ranked)(|ranked|)
    ensures BestCut(dt, ranked, FittingCount(dt, ranked))
  {
    RankedByScore(ranked, FittingCount(dt, ranked));
    FittingCountIsLargest(dt, ranked);
  }

  /** The kept boxes of a result: its best by score, as many as fit. */
  ghost predicate BestBoxes(boxes: seq<Box>, m: Result) {
    var ranked := BestFirst(boxes);
    && multiset(ranked) == multiset(boxes)
    && BestCut(m.dt, ranked, |m.boxes|) && m.boxes == ranked[..|m.boxes|]
  }

  /**
   A trimmed result fits; the kept boxes and the cut ones are together the original
   boxes, no cut box outscores a kept one, and one more box would not fit.
   */
  lemma TrimIsOptimal(r: Result)
    requires r.dt <= 90_000
    ensures Fits([Trimmed(r)]) && Trimmed(r).dt == r.dt
    ensures Fits([r]) ==> Trimmed(r) == r
    ensures !Fits([r]) ==> BestBoxes(r.boxes, Trimmed(r))
  {
    if !Fits([r]) {
      StableSort.SortOrdered(r.boxes, ScoreKey);
      BisectionReady(r);
      CutIsBest(r.dt, BestFirst(r.boxes));
    }
  }

  lemma RankedByScore(ranked: seq<Box>, k: nat)
    requires StableSort.Ordered(ranked, ScoreKey)
    ensures forall i, j :: 0 <= i < k <= j < |ranked| ==> ranked[i].score >= ranked[j].score
  {
    forall i, j | 0 <= i < k <= j < |ranked| ensures ranked[i].score >= ranked[j].score {
      assert ScoreKey(ranked[i]) <= ScoreKey(ranked[j]);
    }
  }

  /** Reordering boxes does not change the size of a unit. */
  lemma SameBoxesSameSize(dt: nat, a: seq<Box>, b: seq<Box>)
    requires multiset(a) == multiset(b)
    ensures |EncodedResults([Result(dt, a)])| == |EncodedResults([Result(dt, b)])|
  {
    StableSort.TotalOfPermutation(a, b, BoxWeight);
    BoxesLengthIs(a, TAIL + TAIL);
    BoxesLengthIs(b, TAIL + TAIL);
    SingleLength(Result(dt, a));
    SingleLength(Result(dt, b));
    EncodedSize([Result(dt, a)]);
    EncodedSize([Result(dt, b)]);
  }

  /**
   One call, for every state: what is attached is the longest newest suffix of the
   due results that fits, or the newest one alone with its best boxes; it goes out
   oldest first, and never in more than 1024 bytes.
   */
  lemma TakeIsBest(st: State, pts: nat, generation: nat)
    ensures var e := TakeFor(st, pts, generation);
            var due := DueInOrder(st.pending, pts, generation);
            var wire := Wire(due, pts);
            && |UnitBytes(e)| <= MAX_BYTES
            && (due == [] <==> e.message == [])
            && (due == [] ==> e.attached == [])
            && (due != [] ==>
                  var k := |due| - |e.attached|;
                  && 0 <= k < |due| && e.attached == due[k..]
                  && (forall j :: 0 <= j < k ==> !Fits(wire[j..]))
                  && (if Fits(wire[k..]) then e.message == wire[k..]
                      else k == |due| - 1 && e.message == [Trimmed(wire[k])]))
  {
    var due := DueInOrder(st.pending, pts, generation);
    DueInOrderFacts(st.pending, pts, generation);
    if due != [] {
      var wire := Wire(due, pts);
      var k := Skipped(wire);
      SkippedIsLeast(wire);
      if !Fits(wire[k..]) {
        DtInWindow(due[k], pts, generation);
        TrimIsOptimal(wire[k]);
      }
    }
  }

  /** What is attached is a suffix of what is due, and the message holds one entry for each, the last one perhaps trimmed. */
  ghost predicate SentAsSuffix(due: seq<Source>, pts: nat, attached: seq<Source>, message: seq<Result>) {
    |attached| <= |due| &&
    var k := |due| - |attached|;
    && attached == due[k..]
    && (message == Wire(due, pts)[k..] || (k == |due| - 1 && message == [Trimmed(Wire(due, pts)[k])]))
  }

  lemma TakeIsSuffix(st: State, pts: nat, generation: nat)
    ensures var e := TakeFor(st, pts, generation);
            SentAsSuffix(DueInOrder(st.pending, pts, generation), pts, e.attached, e.message)
  {
    TakeIsBest(st, pts, generation);
  }

  /** Every entry of the message tells the distance of its result to the unit. */
  lemma EntryTimes(st: State, pts: nat, generation: nat, attached: seq<Source>, message: seq<Result>)
    requires attached == TakeFor(st, pts, generation).attached && message == TakeFor(st, pts, generation).message
    ensures |message| == |attached|
    ensures forall i :: 0 <= i < |attached| ==>
              IsDue(attached[i], pts, generation) && message[i].dt == DtOf(attached[i], pts)
  {
    var due := DueInOrder(st.pending, pts, generation);
    OldestFirstIsDue(Due(st.pending, pts, generation), pts, generation);
    TakeIsSuffix(st, pts, generation);
    SuffixTimes(due, pts, generation, attached, message);
  }

  lemma SuffixTimes(due: seq<Source>, pts: nat, generation: nat, attached: seq<Source>, message: seq<Result>)
    requires SentAsSuffix(due, pts, attached, message) && forall r :: r in due ==> IsDue(r, pts, generation)
    ensures |message| == |attached|
    ensures forall i :: 0 <= i < |attached| ==>
              IsDue(attached[i], pts, generation) && message[i].dt == DtOf(attached[i], pts)
  {
    var k, wire := |due| - |attached|, Wire(due, pts);
    if k < |due| { assert Trimmed(wire[k]).dt == wire[k].dt; }
    forall i | 0 <= i < |attached|
      ensures IsDue(attached[i], pts, generation) && message[i].dt == DtOf(attached[i], pts)
    {
      assert attached[i] == due[k + i] && wire[k + i].dt == DtOf(due[k + i], pts);
    }
  }

  /** What is printed for a result that is sent whole. */
  lemma WireTells(due: seq<Source>, pts: nat, generation: nat)
    requires forall r :: r in due ==> IsDue(r, pts, generation)
    ensures forall i :: 0 <= i < |due| ==>
              due[i].pts <= pts && Wire(due, pts)[i] == Result(RtpClock.RoundedTicks(pts - due[i].pts), due[i].boxes)
  {
    forall i | 0 <= i < |due|
      ensures due[i].pts <= pts && Wire(due, pts)[i] == Result(RtpClock.RoundedTicks(pts - due[i].pts), due[i].boxes)
    {
      assert due[i] in due;
      DtInWindow(due[i], pts, generation);
    }
  }

  /** The message tells of each attached result its distance to the unit and its boxes, all of them or, of a single one, the best. */
  ghost predicate Tells(attached: seq<Source>, pts: nat, message: seq<Result>) {
    && |message| == |attached|
    && (forall i :: 0 <= i < |attached| ==>
          attached[i].pts <= pts && message[i].dt == RtpClock.RoundedTicks(pts - attached[i].pts))
    && ((forall i :: 0 <= i < |attached| ==> message[i].boxes == attached[i].boxes)
        || (|attached| == 1 && BestBoxes(attached[0].boxes, message[0])))
  }

  lemma SuffixTells(due: seq<Source>, pts: nat, generation: nat, attached: seq<Source>, message: seq<Result>)
    requires SentAsSuffix(due, pts, attached, message) && forall r :: r in due ==> IsDue(r, pts, generation)
    ensures Tells(attached, pts, message)
  {
    var k, wire := |due| - |attached|, Wire(due, pts);
    if message == wire[k..] {
      WireTells(due, pts, generation);
      TellsWhole(due, pts, k, wire);
    } else {
      LastTells(due, pts, generation, wire);
    }
  }

  lemma LastTells(due: seq<Source>, pts: nat, generation: nat, wire: seq<Result>)
    requires due != [] && wire == Wire(due, pts) && forall r :: r in due ==> IsDue(r, pts, generation)
    ensures Tells(due[|due| - 1..], pts, [Trimmed(wire[|due| - 1])])
  {
    var k := |due| - 1;
    assert due[k] in due && due[k..] == [due[k]];
    DtInWindow(due[k], pts, generation);
    assert wire[k] == Result(RtpClock.RoundedTicks(pts - due[k].pts), due[k].boxes);
    TellsTrimmed(due[k], pts, wire[k]);
  }

  lemma TellsWhole(due: seq<Source>, pts: nat, k: nat, wire: seq<Result>)
    requires k <= |due| == |wire|
    requires forall i :: 0 <= i < |due| ==>
               due[i].pts <= pts && wire[i] == Result(RtpClock.RoundedTicks(pts - due[i].pts), due[i].boxes)
    ensures Tells(due[k..], pts, wire[k..])
  {
    forall i | 0 <= i < |due| - k ensures due[k..][i] == due[k + i] && wire[k..][i] == wire[k + i] {}
  }

  lemma TellsTrimmed(r: Source, pts: nat, m: Result)
    requires r.pts <= pts && m == Result(RtpClock.RoundedTicks(pts - r.pts), r.boxes) && m.dt <= 90_000
    ensures Tells([r], pts, [Trimmed(m)])
  {
    TrimIsOptimal(m);
    TellsOne(r, pts, Trimmed(m));
  }

  lemma TellsOne(r: Source, pts: nat, m: Result)
    requires r.pts <= pts && m.dt == RtpClock.RoundedTicks(pts - r.pts)
    requires m.boxes == r.boxes || BestBoxes(r.boxes, m)
    ensures Tells([r], pts, [m])
  {
  }

  /** What a viewer is told, for every state and every unit, and what the counters say of it. */
  lemma MessageTells(st: State, pts: nat, generation: nat)
    ensures var e := TakeFor(st, pts, generation);
            && Tells(e.attached, pts, e.message) && |UnitBytes(e)| <= 1024
            && e.state.stats.units == st.stats.units + (if e.attached == [] then 0 else 1)
            && e.state.stats.boxesDropped == st.stats.boxesDropped
                 + (if |e.attached| == 1 then |e.attached[0].boxes| - |e.message[0].boxes| else 0)
  {
    var e := TakeFor(st, pts, generation);
    var due := DueInOrder(st.pending, pts, generation);
    OldestFirstIsDue(Due(st.pending, pts, generation), pts, generation);
    TakeIsSuffix(st, pts, generation);
    SuffixTells(due, pts, generation, e.attached, e.message);
    TakeFits(st, pts, generation);
    if due != [] { CutCounts(due, pts, Skipped(Wire(due, pts))); }
  }

  lemma CutCounts(due: seq<Source>, pts: nat, k: nat)
    requires due != [] && k == Skipped(Wire(due, pts))
    ensures k < |due|
    ensures var rest := Wire(due, pts)[k..];
            BoxesCut(rest) == if |due| - k == 1 then |due[k].boxes| - |Message(rest)[0].boxes| else 0
  {
    var wire := Wire(due, pts);
    SkippedIsLeast(wire);
    assert wire[k..][0] == wire[k];
  }

  // ----- what happens to each waiting result -----

  lemma {:induction false} LaterIs(s: seq<Source>, generation: nat, p: Source -> bool)
    requires forall r :: p(r) <==> r.generation > generation
    ensures Later(s, generation) == Filter(s, p)
  {
    if s != [] { LaterIs(s[..|s| - 1], generation, p); }
  }

  lemma {:induction false} DueIs(s: seq<Source>, pts: nat, generation: nat, p: Source -> bool)
    requires forall r :: p(r) <==> r.generation == generation && 0 <= pts - r.pts <= 1_000_000_000
    ensures Due(s, pts, generation) == Filter(s, p)
  {
    if s != [] { DueIs(s[..|s| - 1], pts, generation, p); }
  }

  lemma {:induction false} StaleIs(s: seq<Source>, pts: nat, generation: nat, p: Source -> bool)
    requires forall r :: p(r) <==>
               r.generation < generation
               || (r.generation == generation && (r.pts > pts || pts - r.pts > 1_000_000_000))
    ensures Stale(s, pts, generation) == Filter(s, p)
  {
    if s != [] { StaleIs(s[..|s| - 1], pts, generation, p); }
  }

  /**
   For every state and every unit, what a call does to each waiting result. A result
   stays if and only if its generation is later; it is a candidate for the message if and
   only if its generation is the unit's and its frame is at most a second older than the
   unit and not younger; and it is dropped as stale in every other case. The candidates
   go out in the order of their frames, the first few dropped if they do not fit.
   */
  lemma TakeSorts(st: State, pts: nat, generation: nat, stays: Source -> bool, candidate: Source -> bool, stale: Source -> bool)
    requires forall r :: stays(r) <==> r.generation > generation
    requires forall r :: candidate(r) <==> r.generation == generation && 0 <= pts - r.pts <= 1_000_000_000
    requires forall r :: stale(r) <==> !stays(r) && !candidate(r)
    ensures var e := TakeFor(st, pts, generation);
            var due := StableSort.Sort(Filter(st.pending, candidate), PtsKey);
            && e.state.pending == Filter(st.pending, stays)
            && |e.attached| <= |due|
            && var k := |due| - |e.attached|;
               && e.attached == due[k..]
               && e.dropped == Filter(st.pending, stale) + due[..k]
               && (e.attached == [] <==> due == [])
  {
    LaterIs(st.pending, generation, stays);
    DueIs(st.pending, pts, generation, candidate);
    StaleIs(st.pending, pts, generation, stale);
    OldestFirstIsDue(Due(st.pending, pts, generation), pts, generation);
  }

  // ----- every run -----

  datatype Op = Add(result: Source) | Take(pts: nat, generation: nat)

  datatype Attachment = Attachment(source: Source, pts: nat, generation: nat)

  datatype Log = Log(added: seq<Source>, attached: seq<Attachment>, dropped: seq<Source>)

  function Attach(kept: seq<Source>, pts: nat, generation: nat): seq<Attachment> {
    seq(|kept|, i requires 0 <= i < |kept| => Attachment(kept[i], pts, generation))
  }

  function Carried(attached: seq<Attachment>): seq<Source> {
    seq(|attached|, i requires 0 <= i < |attached| => attached[i].source)
  }

  function Apply(st: State, maxPending: nat, op: Op): Effect {
    match op
    case Add(r) => AddResult(st, maxPending, r)
    case Take(pts, generation) => TakeFor(st, pts, generation)
  }

  function Record(log: Log, op: Op, e: Effect): Log {
    match op
    case Add(r) => Log(log.added + [r], log.attached, log.dropped + e.dropped)
    case Take(pts, generation) =>
      Log(log.added, log.attached + Attach(e.attached, pts, generation), log.dropped + e.dropped)
  }

  function Run(maxPending: nat, ops: seq<Op>): (State, Log) {
    if ops == [] then (State([], Stats(0, 0, 0, 0)), Log([], [], []))
    else
      var n := |ops| - 1;
      var before := Run(maxPending, ops[..n]);
      var e := Apply(before.0, maxPending, ops[n]);
      (e.state, Record(before.1, ops[n], e))
  }

  /** Every added result is waiting, attached or dropped, exactly once. */
  ghost predicate Conserved(st: State, log: Log) {
    && multiset(log.added) == multiset(st.pending) + multiset(Carried(log.attached)) + multiset(log.dropped)
    && |log.added| == |st.pending| + |log.attached| + |log.dropped|
    && st.stats.attached == |log.attached| && st.stats.dropped == |log.dropped|
  }

  ghost predicate Timely(a: Attachment) {
    a.generation == a.source.generation && 0 <= a.pts - a.source.pts <= WINDOW
  }

  /** One call moves results between waiting, attached and dropped, and loses none. */
  lemma TakeBalances(st: State, pts: nat, generation: nat)
    ensures var e := TakeFor(st, pts, generation);
            && multiset(st.pending) == multiset(e.state.pending) + multiset(e.attached) + multiset(e.dropped)
            && |st.pending| == |e.state.pending| + |e.attached| + |e.dropped|
            && (forall i :: 0 <= i < |e.attached| ==> IsDue(e.attached[i], pts, generation))
            && e.state.stats.attached == st.stats.attached + |e.attached|
            && e.state.stats.dropped == st.stats.dropped + |e.dropped|
  {
    var left, stale := Later(st.pending, generation), Stale(st.pending, pts, generation);
    var due := DueInOrder(st.pending, pts, generation);
    PartitionIsExact(st.pending, pts, generation);
    DueInOrderFacts(st.pending, pts, generation);
    var k := if due == [] then 0 else Skipped(Wire(due, pts));
    Regroup(st.pending, left, due, stale, k);
    assert TakeFor(st, pts, generation).attached == due[k..];
    assert TakeFor(st, pts, generation).dropped == stale + due[..k];
  }

  lemma Regroup(all: seq<Source>, left: seq<Source>, due: seq<Source>, stale: seq<Source>, k: nat)
    requires multiset(all) == multiset(left) + multiset(due) + multiset(stale) && k <= |due|
    ensures multiset(all) == multiset(left) + multiset(due[k..]) + multiset(stale + due[..k])
    ensures |all| == |left| + |due[k..]| + |stale + due[..k]|
  {
    assert due == due[..k] + due[k..];
    Cardinality(all);
    Cardinality(left);
    Cardinality(due);
    Cardinality(stale);
  }

  lemma Cardinality<T>(s: seq<T>)
    ensures |multiset(s)| == |s|
  {}

  lemma AddBalances(st: State, maxPending: nat, r: Source)
    ensures var e := AddResult(st, maxPending, r);
            && multiset(st.pending + [r]) == multiset(e.state.pending) + multiset(e.dropped)
            && |st.pending| + 1 == |e.state.pending| + |e.dropped|
            && e.state.stats.attached == st.stats.attached
            && e.state.stats.dropped == st.stats.dropped + |e.dropped|
            && (|st.pending| <= maxPending ==> |e.state.pending| <= maxPending)
  {
    var all := st.pending + [r];
    if |all| > maxPending {
      var k := Oldest(all);
      StableSort.RemoveOne(all, k);
      assert all[k] in multiset(all);
    }
  }

  /**
   A result is added at the end; only if that makes too many is one dropped, the first
   among those of the earliest generation and, within it, the earliest PTS.
   */
  lemma AddDropsOldest(st: State, maxPending: nat, r: Source)
    ensures var e, all := AddResult(st, maxPending, r), st.pending + [r];
            && (|all| <= maxPending ==> e.state == st.(pending := all) && e.dropped == [])
            && (|all| > maxPending ==>
                  && |e.dropped| == 1
                  && exists k :: 0 <= k < |all| && IsOldest(all, k) && e.dropped == [all[k]]
                                 && e.state.pending == all[..k] + all[k + 1..])
  {
    var all := st.pending + [r];
    OldestIsLeast(all);
    OldestIsFirst(all);
    assert IsOldest(all, Oldest(all));
  }

  /** The first element that is least by generation, then PTS. */
  ghost predicate IsOldest(s: seq<Source>, k: nat)
    requires k < |s|
  {
    && (forall j :: 0 <= j < |s| ==>
          s[k].generation < s[j].generation || (s[k].generation == s[j].generation && s[k].pts <= s[j].pts))
    && (forall j :: 0 <= j < k ==>
          s[k].generation < s[j].generation || (s[k].generation == s[j].generation && s[k].pts < s[j].pts))
  }

  lemma {:induction false} OldestIsFirst(s: seq<Source>)
    requires s != []
    ensures forall j :: 0 <= j < Oldest(s) ==> Before(s[Oldest(s)], s[j])
  {
    if |s| > 1 {
      var n := |s| - 1;
      OldestIsFirst(s[..n]);
      OldestIsLeast(s[..n]);
      forall j | 0 <= j < Oldest(s) ensures Before(s[Oldest(s)], s[j]) { assert s[..n][j] == s[j]; }
    }
  }

  lemma BalanceStep(all: multiset<Source>, before: multiset<Source>, carried: multiset<Source>, gone: multiset<Source>,
                    after: multiset<Source>, attached: multiset<Source>, dropped: multiset<Source>)
    requires all == before + carried + gone
    requires before == after + attached + dropped
    ensures all == after + (carried + attached) + (gone + dropped)
  {}

  lemma TakeConserves(st: State, log: Log, pts: nat, generation: nat)
    requires Conserved(st, log)
    ensures var e := TakeFor(st, pts, generation);
            Conserved(e.state, Record(log, Take(pts, generation), e))
  {
    var e := TakeFor(st, pts, generation);
    TakeBalances(st, pts, generation);
    BalanceStep(multiset(log.added), multiset(st.pending), multiset(Carried(log.attached)), multiset(log.dropped),
                multiset(e.state.pending), multiset(e.attached), multiset(e.dropped));
    CarriedConcat(log.attached, e.attached, pts, generation);
    SumOfConcat(Carried(log.attached), e.attached);
    SumOfConcat(log.dropped, e.dropped);
  }

  lemma CarriedConcat(log: seq<Attachment>, kept: seq<Source>, pts: nat, generation: nat)
    ensures Carried(log + Attach(kept, pts, generation)) == Carried(log) + kept
  {}

  lemma SumOfConcat<T>(a: seq<T>, b: seq<T>)
    ensures multiset(a + b) == multiset(a) + multiset(b)
  {}

  lemma AddConserves(st: State, log: Log, maxPending: nat, r: Source)
    requires Conserved(st, log)
    ensures var e := AddResult(st, maxPending, r); Conserved(e.state, Record(log, Add(r), e))
  {
    var e := AddResult(st, maxPending, r);
    AddBalances(st, maxPending, r);
    BalanceStep(multiset(log.added + [r]), multiset(st.pending + [r]), multiset(Carried(log.attached)),
                multiset(log.dropped), multiset(e.state.pending), multiset{}, multiset(e.dropped));
  }

  /**
   Over every sequence of calls: every added result is waiting, attached or dropped
   exactly once, no more than `maxPending` wait, and each attached one rode on a
   unit of its own generation at most a second after its frame.
   */
  lemma {:induction false} SelectorRuns(maxPending: nat, ops: seq<Op>)
    ensures var (st, log) := Run(maxPending, ops);
            && Conserved(st, log)
            && |st.pending| <= maxPending
            && (forall i :: 0 <= i < |log.attached| ==> Timely(log.attached[i]))
  {
    if ops != [] {
      var n := |ops| - 1;
      SelectorRuns(maxPending, ops[..n]);
      var (st, log) := Run(maxPending, ops[..n]);
      match ops[n]
      case Add(r) =>
        AddBalances(st, maxPending, r);
        AddConserves(st, log, maxPending, r);
      case Take(pts, generation) =>
        TakeIsTimely(st, log, pts, generation);
        TakeConserves(st, log, pts, generation);
    }
  }

  lemma TakeIsTimely(st: State, log: Log, pts: nat, generation: nat)
    requires forall i :: 0 <= i < |log.attached| ==> Timely(log.attached[i])
    ensures var e := TakeFor(st, pts, generation);
            && |e.state.pending| <= |st.pending|
            && forall i :: 0 <= i < |Record(log, Take(pts, generation), e).attached| ==>
                 Timely(Record(log, Take(pts, generation), e).attached[i])
  {
    TakeBalances(st, pts, generation);
    AttachTimely(log.attached, TakeFor(st, pts, generation).attached, pts, generation);
  }

  lemma AttachTimely(before: seq<Attachment>, kept: seq<Source>, pts: nat, generation: nat)
    requires forall i :: 0 <= i < |before| ==> Timely(before[i])
    requires forall i :: 0 <= i < |kept| ==> IsDue(kept[i], pts, generation)
    ensures var all := before + Attach(kept, pts, generation); forall i :: 0 <= i < |all| ==> Timely(all[i])
  {
    var more := Attach(kept, pts, generation);
    forall i | 0 <= i < |more| ensures Timely(more[i]) { assert IsDue(kept[i], pts, generation); }
  }

  // ----- the class -----

  method OldestIndex(s: seq<Source>) returns (k: nat)
    requires s != []
    ensures k == Oldest(s)
  {
    k := 0;
    for i := 1 to |s|
      invariant k == Oldest(s[..i])
    {
      assert s[..i + 1][..i] == s[..i];
      if Before(s[i], s[k]) { k := i; }
    }
    assert s[..|s|] == s;
  }

  method Partition(pending: seq<Source>, pts: nat, generation: nat)
    returns (due: seq<Source>, later: seq<Source>, dropped: nat)
    ensures due == Due(pending, pts, generation) && later == Later(pending, generation)
    ensures dropped == |Stale(pending, pts, generation)| == |pending| - |due| - |later|
    ensures due == Filter(pending, (r: Source) => r.generation == generation && 0 <= pts - r.pts <= 1_000_000_000)
    ensures later == Filter(pending, (r: Source) => r.generation > generation)
  {
    due, later, dropped := [], [], 0;
    for i := 0 to |pending|
      invariant due == Due(pending[..i], pts, generation) && later == Later(pending[..i], generation)
      invariant dropped == |Stale(pending[..i], pts, generation)| == i - |due| - |later|
    {
      var r := pending[i];
      assert pending[..i + 1][..i] == pending[..i];
      if r.generation > generation {
        later := later + [r];
      } else if r.generation < generation || r.pts > pts || pts - r.pts > WINDOW {
        dropped := dropped + 1;
      } else {
        due := due + [r];
      }
    }
    assert pending[..|pending|] == pending;
    DueIs(pending, pts, generation, (r: Source) => r.generation == generation && 0 <= pts - r.pts <= 1_000_000_000);
    LaterIs(pending, generation, (r: Source) => r.generation > generation);
  }

  method EncodeResults(rs: seq<Result>) returns (nal: seq<byte>)
    ensures nal == EncodedResults(rs)
  {
    var json := DetectionSeiJson(rs);
    nal := SeiNal.EncodeUserDataSeiNal(UUID, json);
  }

  method DropUntilFits(rs: seq<Result>) returns (kept: seq<Result>, dropped: nat, nal: seq<byte>)
    requires rs != []
    ensures dropped == Skipped(rs) && kept == rs[dropped..] && nal == EncodedResults(kept)
  {
    kept, dropped := rs, 0;
    nal := EncodeResults(kept);
    while |nal| > MAX_BYTES && |kept| > 1
      invariant dropped < |rs| && kept == rs[dropped..] && nal == EncodedResults(kept)
      invariant Skipped(rs) == dropped + Skipped(kept)
      decreases |kept|
    {
      kept := kept[1..];
      dropped := dropped + 1;
      nal := EncodeResults(kept);
    }
  }

  lemma BisectionDone(dt: nat, boxes: seq<Box>, fits: nat)
    requires fits < |boxes| && CountFits(dt, boxes)(fits) && !CountFits(dt, boxes)(fits + 1)
    ensures FittingCount(dt, boxes) == fits
  {
    FitsIsDownward(dt, boxes);
    StableSort.LargestOfDownward(CountFits(dt, boxes), |boxes|, fits);
  }

  lemma FitsIsDownward(dt: nat, boxes: seq<Box>)
    ensures StableSort.Downward(CountFits(dt, boxes), |boxes|)
  {
    forall i: nat, j: nat | i <= j <= |boxes| && !CountFits(dt, boxes)(i) ensures !CountFits(dt, boxes)(j) {
      MoreNeverFits(dt, boxes, i, j);
    }
  }

  lemma MoreNeverFits(dt: nat, boxes: seq<Box>, i: nat, j: nat)
    requires i <= j <= |boxes| && !CountFits(dt, boxes)(i)
    ensures !CountFits(dt, boxes)(j)
  {
    if i < j { SizeGrowsWithBoxes(dt, boxes, i, j); }
  }

  method LeadingBoxesFit(dt: nat, boxes: seq<Box>, count: nat) returns (yes: bool)
    requires count <= |boxes|
    ensures yes == CountFits(dt, boxes)(count)
  {
    var nal := EncodeResults([Result(dt, boxes[..count])]);
    yes := |nal| <= MAX_BYTES;
  }

  /** The bisection for the largest number of leading boxes that fits. */
  method Bisect(dt: nat, boxes: seq<Box>) returns (fits: nat)
    requires CountFits(dt, boxes)(0) && !CountFits(dt, boxes)(|boxes|)
    ensures fits == FittingCount(dt, boxes)
  {
    ghost var fit := CountFits(dt, boxes);
    var tooMany: nat;
    fits, tooMany := 0, |boxes|;
    while fits + 1 < tooMany
      invariant fits < tooMany <= |boxes|
      invariant fit(fits) && !fit(tooMany)
    {
      var count := (fits + tooMany) / 2;
      var enough := LeadingBoxesFit(dt, boxes, count);
      if enough { fits := count; } else { tooMany := count; }
    }
    BisectionDone(dt, boxes, fits);
  }

  lemma BisectionReady(r: Result)
    requires r.dt <= 90_000 && !Fits([r])
    ensures var ranked := BestFirst(r.boxes);
            CountFits(r.dt, ranked)(0) && !CountFits(r.dt, ranked)(|ranked|)
  {
    var ranked := BestFirst(r.boxes);
    StableSort.SortOrdered(r.boxes, ScoreKey);
    assert ranked[..0] == [] && ranked[..|ranked|] == ranked;
    EmptyResultFits(r.dt);
    SameBoxesSameSize(r.dt, ranked, r.boxes);
  }

  method TrimBoxes(r: Result) returns (out: Result, cut: nat)
    requires r.dt <= 90_000 && !Fits([r])
    ensures out == Trimmed(r) && cut == |r.boxes| - |out.boxes|
  {
    var boxes := BestFirst(r.boxes);
    StableSort.SortOrdered(r.boxes, ScoreKey);
    BisectionReady(r);
    var fits := Bisect(r.dt, boxes);
    out := Result(r.dt, boxes[..fits]);
    cut := |boxes| - fits;
  }

  method FitMessage(rs: seq<Result>) returns (kept: seq<Result>, skipped: nat, cut: nat, nal: seq<byte>)
    requires rs != [] && forall i :: 0 <= i < |rs| ==> rs[i].dt <= 90_000
    ensures skipped == Skipped(rs) && kept == Message(rs[skipped..]) && |kept| == |rs| - skipped
    ensures cut == BoxesCut(rs[skipped..]) && nal == EncodedResults(kept)
  {
    kept, skipped, nal := DropUntilFits(rs);
    cut := 0;
    if |nal| > MAX_BYTES {
      SkippedIsLeast(rs);
      assert kept == [rs[skipped]];
      var trimmed, fewer := TrimBoxes(kept[0]);
      kept, cut := [trimmed], fewer;
      nal := EncodeResults(kept);
    }
  }

  /** Encodes what is due, oldest first, dropping and trimming until it fits. */
  method EncodeDue(due: seq<Source>, pts: nat, generation: nat)
    returns (kept: nat, skipped: nat, cut: nat, nal: seq<byte>)
    requires due != [] && forall i :: 0 <= i < |due| ==> IsDue(due[i], pts, generation)
    ensures var wire := Wire(due, pts);
            && skipped == Skipped(wire) && kept == |due| - skipped
            && cut == BoxesCut(wire[skipped..]) && nal == EncodedResults(Message(wire[skipped..]))
  {
    var rs := Wire(due, pts);
    forall i | 0 <= i < |rs| ensures rs[i].dt <= 90_000 { DtInWindow(due[i], pts, generation); }
    var message;
    message, skipped, cut, nal := FitMessage(rs);
    kept := |message|;
  }

  /** What a call does, case by case. */
  lemma TakeOutcome(st: State, pts: nat, generation: nat, e: Effect, due: seq<Source>)
    requires e == TakeFor(st, pts, generation) && due == Due(st.pending, pts, generation)
    ensures |UnitBytes(e)| <= MAX_BYTES && e.state.pending == Later(st.pending, generation)
    ensures due == [] ==>
              UnitBytes(e) == [] &&
              e.state.stats == st.stats.(dropped := st.stats.dropped + |Stale(st.pending, pts, generation)|)
    ensures due != [] ==>
              var wire := Wire(OldestFirst(due), pts);
              var k := Skipped(wire);
              && UnitBytes(e) == EncodedResults(Message(wire[k..]))
              && e.state.stats.units == st.stats.units + 1
              && e.state.stats.attached == st.stats.attached + (|wire| - k)
              && e.state.stats.dropped == st.stats.dropped + |Stale(st.pending, pts, generation)| + k
              && e.state.stats.boxesDropped == st.stats.boxesDropped + BoxesCut(wire[k..])
    ensures |OldestFirst(due)| == |due| && forall r :: r in OldestFirst(due) ==> IsDue(r, pts, generation)
  {
    TakeFits(st, pts, generation);
    OldestFirstIsDue(due, pts, generation);
  }

  lemma NoneDue(s: seq<Source>, pts: nat, generation: nat)
    ensures Due(s, pts, generation) == [] <==>
              !exists r :: r in s && r.generation == generation && 0 <= pts - r.pts <= 1_000_000_000
  {
    var p := (r: Source) => r.generation == generation && 0 <= pts - r.pts <= 1_000_000_000;
    DueIs(s, pts, generation, p);
    forall r ensures r in Due(s, pts, generation) <==> r in s && p(r) { FilterMembers(s, p, r); }
    if Due(s, pts, generation) != [] { assert Due(s, pts, generation)[0] in Due(s, pts, generation); }
  }

  lemma EncodedNotEmpty(rs: seq<Result>)
    ensures EncodedResults(rs) != []
  {
    EncodedSize(rs);
  }

  lemma TakeFits(st: State, pts: nat, generation: nat)
    ensures var e := TakeFor(st, pts, generation);
            |UnitBytes(e)| <= MAX_BYTES && (DueInOrder(st.pending, pts, generation) == [] <==> e.message == [])
  {
    TakeIsBest(st, pts, generation);
  }

  lemma OldestFirstIsDue(s: seq<Source>, pts: nat, generation: nat)
    requires forall r :: r in s ==> IsDue(r, pts, generation)
    ensures |OldestFirst(s)| == |s|
    ensures forall r :: r in OldestFirst(s) ==> IsDue(r, pts, generation)
  {
    var d := OldestFirst(s);
    StableSort.SortOrdered(s, PtsKey);
    forall r | r in d ensures IsDue(r, pts, generation) {
      assert r in multiset(d);
      assert r in s;
    }
  }

  class SeiResultSelector {
    const maxPending: nat
    var pending: seq<Source>
    var stats: Stats

    ghost function View(): State
      reads this
    {
      State(pending, stats)
    }

    constructor (maxPending: nat)
      ensures this.maxPending == maxPending && View() == Run(maxPending, []).0
    {
      this.maxPending := maxPending;
      pending, stats := [], Stats(0, 0, 0, 0);
    }

    method AddNext(result: Source)
      modifies this
      ensures View() == AddResult(old(View()), maxPending, result).state
    {
      pending := pending + [result];
      if |pending| > maxPending {
        var oldest := OldestIndex(pending);
        pending := pending[..oldest] + pending[oldest + 1..];
        stats := stats.(dropped := stats.dropped + 1);
      }
    }

    method TakeNext(pts: nat, generation: nat) returns (nal: seq<byte>)
      modifies this
      ensures View() == TakeFor(old(View()), pts, generation).state
      ensures nal == UnitBytes(TakeFor(old(View()), pts, generation)) && |nal| <= MAX_BYTES
      ensures pending == Filter(old(pending), (r: Source) => r.generation > generation)
      ensures nal == [] <==>
                !exists r :: r in old(pending) && r.generation == generation && 0 <= pts - r.pts <= 1_000_000_000
    {
      ghost var before := View();
      var due, later, stale := Partition(pending, pts, generation);
      stats := stats.(dropped := stats.dropped + stale);
      pending := later;
      ghost var e := TakeFor(before, pts, generation);
      TakeOutcome(before, pts, generation, e, due);
      NoneDue(before.pending, pts, generation);
      EncodedNotEmpty(e.message);
      if |due| == 0 { return []; }
      due := OldestFirst(due);
      var kept, skipped, cut;
      kept, skipped, cut, nal := EncodeDue(due, pts, generation);
      stats := Stats(stats.units + 1, stats.attached + kept, stats.dropped + skipped, stats.boxesDropped + cut);
      assert pending == e.state.pending;
      assert skipped == Skipped(Wire(due, pts));
      assert stats.units == e.state.stats.units;
      assert stats.attached == e.state.stats.attached;
      assert stats.dropped == e.state.stats.dropped;
      assert stats.boxesDropped == e.state.stats.boxesDropped;
      assert stats == e.state.stats;
    }
  }
}
