/**
 YOLO postprocessing: candidates above the confidence threshold, ranked, and kept
 greedily unless a kept box of their class overlaps them too much; kept boxes are
 restored to frame coordinates. Arithmetic is exact, with a tag for non-finite input.
 */
module Nms {
  import opened Common
  import opened Letterbox
  import Greedy
  import StableSort

  datatype Candidate = Candidate(classId: nat, confidence: real, x1: real, y1: real, x2: real, y2: real, index: nat)

  datatype Detection = Detection(classId: nat, confidence: real, x1: real, y1: real, x2: real, y2: real)

  /** The raw output: `channels` rows of `candidates` values, four coordinates and then one score per class. */
  datatype View = View(present: bool, data: seq<Float>, channels: int, candidates: int)

  datatype Config = Config(confidence: Float, iou: Float, maxDetections: nat)

  predicate ValidView(v: View) {
    v.present && v.channels > 4 && v.candidates > 0 && |v.data| == v.channels * v.candidates
  }

  predicate ValidConfig(c: Config) {
    c.confidence.Finite? && c.iou.Finite? && 0.0 <= c.confidence.r <= 1.0 && 0.0 <= c.iou.r <= 1.0
    && c.maxDetections != 0
  }

  // ----- overlap -----

  function MaxReal(a: real, b: real): real { if a < b then b else a }

  function Area(c: Candidate): real { (c.x2 - c.x1) * (c.y2 - c.y1) }

  function Overlap(a: Candidate, b: Candidate): real {
    MaxReal(0.0, MinReal(a.x2, b.x2) - MaxReal(a.x1, b.x1)) * MaxReal(0.0, MinReal(a.y2, b.y2) - MaxReal(a.y1, b.y1))
  }

  function Iou(a: Candidate, b: Candidate): real {
    var intersection := Overlap(a, b);
    var total := Area(a) + Area(b) - intersection;
    if total > 0.0 then intersection / total else 0.0
  }

  ghost predicate Proper(c: Candidate) { c.x1 < c.x2 && c.y1 < c.y2 }

  lemma OverlapWithin(a: Candidate, b: Candidate)
    requires Proper(a)
    ensures 0.0 <= Overlap(a, b) <= Area(a)
  {
    var w, h := MaxReal(0.0, MinReal(a.x2, b.x2) - MaxReal(a.x1, b.x1)), MaxReal(0.0, MinReal(a.y2, b.y2) - MaxReal(a.y1, b.y1));
    var aw, ah := a.x2 - a.x1, a.y2 - a.y1;
    ProductMonotone(w, aw, h, ah);
  }

  lemma ProductMonotone(a: real, b: real, c: real, d: real)
    requires 0.0 <= a <= b && 0.0 <= c <= d
    ensures 0.0 <= a * c <= b * d
  {
    assert a * c <= b * c by { assert (b - a) * c >= 0.0; }
    assert b * c <= b * d by { assert b * (d - c) >= 0.0; }
  }

  /** Intersection over union is symmetric, lies in [0, 1], and is 1 for a box and itself. */
  lemma IouFacts(a: Candidate, b: Candidate)
    requires Proper(a) && Proper(b)
    ensures Iou(a, b) == Iou(b, a) && 0.0 <= Iou(a, b) <= 1.0 && Iou(a, a) == 1.0
  {
    OverlapSymmetric(a, b);
    IouInUnit(a, b);
    IouOfItself(a);
  }

  lemma IouInUnit(a: Candidate, b: Candidate)
    requires Proper(a) && Proper(b)
    ensures 0.0 <= Iou(a, b) <= 1.0
  {
    OverlapWithin(a, b);
    OverlapWithin(b, a);
    OverlapSymmetric(a, b);
    AreaPositive(b);
    Fraction(Overlap(a, b), Area(a) + Area(b) - Overlap(a, b));
  }

  lemma IouOfItself(a: Candidate)
    requires Proper(a)
    ensures Iou(a, a) == 1.0
  {
    AreaPositive(a);
    assert Overlap(a, a) == Area(a);
    Whole(Area(a));
  }

  lemma Whole(x: real)
    requires x > 0.0
    ensures x / x == 1.0
  {}

  ghost predicate Inside(c: Candidate, x: real, y: real) { c.x1 < x < c.x2 && c.y1 < y < c.y2 }

  /** The overlap is the area of the box of common points, and zero without any. */
  lemma OverlapIsCommonArea(a: Candidate, b: Candidate) returns (c: Candidate)
    requires Proper(a) && Proper(b)
    ensures forall x, y :: Inside(c, x, y) <==> Inside(a, x, y) && Inside(b, x, y)
    ensures (exists x, y :: Inside(a, x, y) && Inside(b, x, y)) ==> Proper(c) && Overlap(a, b) == Area(c)
    ensures !(exists x, y :: Inside(a, x, y) && Inside(b, x, y)) ==> Overlap(a, b) == 0.0
  {
    c := Candidate(0, 0.0, MaxReal(a.x1, b.x1), MaxReal(a.y1, b.y1), MinReal(a.x2, b.x2), MinReal(a.y2, b.y2), 0);
    if Proper(c) {
      var x, y := (c.x1 + c.x2) / 2.0, (c.y1 + c.y2) / 2.0;
      assert Inside(c, x, y) && Inside(a, x, y) && Inside(b, x, y);
    }
  }

  /** Intersection over union, without division. */
  lemma IouIsRatio(a: Candidate, b: Candidate)
    requires Proper(a) && Proper(b)
    ensures Area(a) + Area(b) - Overlap(a, b) > 0.0
    ensures Iou(a, b) * (Area(a) + Area(b) - Overlap(a, b)) == Overlap(a, b)
  {
    OverlapWithin(a, b);
    AreaPositive(b);
    DivideOut(Overlap(a, b), Area(a) + Area(b) - Overlap(a, b));
  }

  lemma OverlapSymmetric(a: Candidate, b: Candidate)
    ensures Overlap(a, b) == Overlap(b, a)
  {
    assert MinReal(a.x2, b.x2) == MinReal(b.x2, a.x2) && MaxReal(a.x1, b.x1) == MaxReal(b.x1, a.x1);
    assert MinReal(a.y2, b.y2) == MinReal(b.y2, a.y2) && MaxReal(a.y1, b.y1) == MaxReal(b.y1, a.y1);
  }

  lemma AreaPositive(c: Candidate)
    requires Proper(c)
    ensures Area(c) > 0.0
  {
    var w, h := c.x2 - c.x1, c.y2 - c.y1;
    PositiveProduct(w, h);
  }

  lemma PositiveProduct(a: real, b: real)
    requires a > 0.0 && b > 0.0
    ensures a * b > 0.0
  {}

  lemma Fraction(i: real, total: real)
    requires 0.0 <= i <= total && total > 0.0
    ensures 0.0 <= i / total <= 1.0
  {}

  // ----- candidates -----

  function At(v: View, channel: int, index: int): Float
    requires ValidView(v) && 0 <= channel < v.channels && 0 <= index < v.candidates
  {
    InView(v, channel, index);
    v.data[channel * v.candidates + index]
  }

  lemma InView(v: View, channel: int, index: int)
    requires ValidView(v) && 0 <= channel < v.channels && 0 <= index < v.candidates
    ensures 0 <= channel * v.candidates + index < |v.data|
  {
    MulMonotoneInt(v.candidates, channel + 1, v.channels);
    MulMonotoneInt(v.candidates, 0, channel);
  }

  /** The best finite class score among the first `n` channels, and the first class that has it. */
  function Best(v: View, index: int, n: int): Option<(nat, real)>
    requires ValidView(v) && 0 <= index < v.candidates && 4 <= n <= v.channels
  {
    if n == 4 then None
    else
      var before := Best(v, index, n - 1);
      var value := At(v, n - 1, index);
      if value.Finite? && (before.None? || value.r > before.value.1) then Some((n - 5, value.r)) else before
  }

  lemma {:induction false} BestIsFirstMaximum(v: View, index: int, n: int)
    requires ValidView(v) && 0 <= index < v.candidates && 4 <= n <= v.channels
    ensures var best := Best(v, index, n);
            && (best.None? ==> forall k :: 4 <= k < n ==> At(v, k, index).NonFinite?)
            && (best.Some? ==>
                  && best.value.0 + 4 < n && At(v, best.value.0 + 4, index) == Finite(best.value.1)
                  && (forall k :: 4 <= k < n && At(v, k, index).Finite? ==> At(v, k, index).r <= best.value.1)
                  && (forall k :: 4 <= k < best.value.0 + 4 && At(v, k, index).Finite? ==>
                        At(v, k, index).r < best.value.1))
  {
    if n > 4 { BestIsFirstMaximum(v, index, n - 1); }
  }

  predicate Visible(p: Plan, x1: real, y1: real, x2: real, y2: real) {
    !(x2 <= p.padLeft as real || x1 >= (p.padLeft + p.resizedWidth) as real
      || y2 <= p.padTop as real || y1 >= (p.padTop + p.resizedHeight) as real)
  }

  /** The candidate of one column, if it passes every filter. */
  function CandidateAt(v: View, p: Plan, threshold: real, index: int): Option<Candidate>
    requires ValidView(v) && 0 <= index < v.candidates
  {
    match Best(v, index, v.channels)
    case None => None
    case Some((kind, score)) =>
      var cx, cy, w, h := At(v, 0, index), At(v, 1, index), At(v, 2, index), At(v, 3, index);
      if score <= threshold || cx.NonFinite? || cy.NonFinite? || w.NonFinite? || h.NonFinite?
         || w.r <= 0.0 || h.r <= 0.0 then None
      else
        var x1, x2, y1, y2 := cx.r - w.r / 2.0, cx.r + w.r / 2.0, cy.r - h.r / 2.0, cy.r + h.r / 2.0;
        if Visible(p, x1, y1, x2, y2) then Some(Candidate(kind, score, x1, y1, x2, y2, index)) else None
  }

  function Columns(v: View, p: Plan, threshold: real): (r: seq<Option<Candidate>>)
    requires ValidView(v)
    ensures |r| == v.candidates
  {
    seq(v.candidates, i requires 0 <= i < v.candidates => CandidateAt(v, p, threshold, i))
  }

  function Candidates(v: View, p: Plan, threshold: real): seq<Candidate>
    requires ValidView(v)
  {
    Somes(Columns(v, p, threshold))
  }

  ghost predicate Admitted(p: Plan, c: Candidate) { Proper(c) && Visible(p, c.x1, c.y1, c.x2, c.y2) }

  /**
   A column yields a candidate exactly when some class score is finite and above the
   threshold, its geometry is finite with positive extents, and its box reaches into
   the frame's content; the candidate is then centred and sized as the column says,
   under the first class with the best score.
   */
  lemma CandidateAtFacts(v: View, p: Plan, threshold: real, index: int)
    requires ValidView(v) && 0 <= index < v.candidates
    ensures var cx, cy, w, h := At(v, 0, index), At(v, 1, index), At(v, 2, index), At(v, 3, index);
            var r := CandidateAt(v, p, threshold, index);
            && (r.Some? <==>
                  && (exists k :: 4 <= k < v.channels && At(v, k, index).Finite? && At(v, k, index).r > threshold)
                  && cx.Finite? && cy.Finite? && w.Finite? && h.Finite? && w.r > 0.0 && h.r > 0.0
                  && cx.r + w.r / 2.0 > p.padLeft as real && cx.r - w.r / 2.0 < (p.padLeft + p.resizedWidth) as real
                  && cy.r + h.r / 2.0 > p.padTop as real && cy.r - h.r / 2.0 < (p.padTop + p.resizedHeight) as real)
            && (r.Some? ==>
                  var c := r.value;
                  && c.index == index && Admitted(p, c) && c.confidence > threshold
                  && (c.x1 + c.x2) / 2.0 == cx.r && c.x2 - c.x1 == w.r
                  && (c.y1 + c.y2) / 2.0 == cy.r && c.y2 - c.y1 == h.r
                  && c.classId + 4 < v.channels && At(v, c.classId + 4, index) == Finite(c.confidence)
                  && forall k :: 4 <= k < v.channels && At(v, k, index).Finite? ==>
                       At(v, k, index).r <= c.confidence && (k < c.classId + 4 ==> At(v, k, index).r < c.confidence))
  {
    BestIsFirstMaximum(v, index, v.channels);
  }

  ghost predicate ColumnOk(p: Plan, threshold: real, column: Option<Candidate>, i: nat) {
    column.Some? ==> column.value.index == i && Admitted(p, column.value) && column.value.confidence > threshold
  }

  ghost predicate Found(p: Plan, threshold: real, c: Candidate) { Admitted(p, c) && c.confidence > threshold }

  ghost predicate InColumnOrder(s: seq<Candidate>) { forall i, j :: 0 <= i < j < |s| ==> s[i].index < s[j].index }

  lemma {:induction false} CollectFacts(p: Plan, threshold: real, columns: seq<Option<Candidate>>)
    requires forall i :: 0 <= i < |columns| ==> ColumnOk(p, threshold, columns[i], i)
    ensures var s := Somes(columns);
            && Distinct(s) && InColumnOrder(s)
            && forall i :: 0 <= i < |s| ==> Found(p, threshold, s[i]) && s[i].index < |columns|
  {
    if columns != [] {
      var n := |columns| - 1;
      CollectFacts(p, threshold, columns[..n]);
      assert ColumnOk(p, threshold, columns[n], n);
    }
  }

  lemma CandidatesFacts(v: View, p: Plan, threshold: real)
    requires ValidView(v)
    ensures var s := Candidates(v, p, threshold);
            Distinct(s) && InColumnOrder(s) && forall i :: 0 <= i < |s| ==> Found(p, threshold, s[i])
  {
    var columns := Columns(v, p, threshold);
    forall i | 0 <= i < |columns| ensures ColumnOk(p, threshold, columns[i], i) {
      CandidateAtFacts(v, p, threshold, i);
    }
    CollectFacts(p, threshold, columns);
  }

  /** The candidates are those of the columns, each once and in the order of the columns. */
  lemma CandidatesIff(v: View, p: Plan, threshold: real, c: Candidate)
    requires ValidView(v)
    ensures c in Candidates(v, p, threshold) <==>
              c.index < v.candidates && CandidateAt(v, p, threshold, c.index) == Some(c)
    ensures InColumnOrder(Candidates(v, p, threshold))
  {
    CandidatesFacts(v, p, threshold);
    var columns := Columns(v, p, threshold);
    SomesMembers(columns, c);
    if c.index < v.candidates { assert columns[c.index] == CandidateAt(v, p, threshold, c.index); }
    if Some(c) in columns {
      var i :| 0 <= i < |columns| && columns[i] == Some(c);
      CandidateAtFacts(v, p, threshold, i);
    }
  }

  // ----- ranking -----

  predicate Above(a: Candidate, b: Candidate) {
    a.confidence > b.confidence || (a.confidence == b.confidence && a.index < b.index)
  }

  function Rank(s: seq<Candidate>): seq<Candidate> { StableSort.Arrange(s, Above) }

  ghost predicate Ranked(s: seq<Candidate>) { StableSort.Arranged(s, Above) }

  ghost predicate Distinct(s: seq<Candidate>) { forall i, j :: 0 <= i < j < |s| ==> s[i].index != s[j].index }

  lemma RankFacts(s: seq<Candidate>)
    requires Distinct(s)
    ensures Ranked(Rank(s)) && multiset(Rank(s)) == multiset(s) && |Rank(s)| == |s|
    ensures forall i, j :: 0 <= i < j < |Rank(s)| ==>
              var a, b := Rank(s)[i], Rank(s)[j];
              a.confidence > b.confidence || (a.confidence == b.confidence && a.index < b.index)
  {
    StableSort.ArrangeContents(s, Above);
    StableSort.ArrangeArranges(s, Above);
  }

  /** There is only one ranking of a set of candidates. */
  lemma {:induction false} RankingUnique(a: seq<Candidate>, b: seq<Candidate>)
    requires Ranked(a) && Ranked(b) && multiset(a) == multiset(b)
    ensures a == b
  {
    if a == [] || b == [] {
      assert |multiset(a)| == |a| && |multiset(b)| == |b|;
    } else {
      TopsAgree(a, b);
      TailsMatch(a, b);
      RankingUnique(a[1..], b[1..]);
      assert a == [a[0]] + a[1..] && b == [b[0]] + b[1..];
    }
  }

  lemma TailsMatch(a: seq<Candidate>, b: seq<Candidate>)
    requires a != [] && b != [] && a[0] == b[0] && multiset(a) == multiset(b)
    ensures multiset(a[1..]) == multiset(b[1..])
  {
    StableSort.TailContents(a);
    StableSort.TailContents(b);
  }

  lemma TopsAgree(a: seq<Candidate>, b: seq<Candidate>)
    requires a != [] && b != [] && Ranked(a) && Ranked(b) && multiset(a) == multiset(b)
    ensures a[0] == b[0]
  {
    assert a[0] in multiset(b) && b[0] in multiset(a);
    var i :| 0 <= i < |b| && b[i] == a[0];
    var j :| 0 <= j < |a| && a[j] == b[0];
  }

  // ----- greedy selection -----

  /** Two candidates of one class that overlap too much. */
  function Conflict(iou: real): (Candidate, Candidate) -> bool {
    (a: Candidate, b: Candidate) => a.classId == b.classId && Iou(a, b) > iou
  }

  /** The candidate in frame coordinates. */
  function RestoreBox(p: Plan, c: Candidate): Detection
    requires ValidPlan(p)
  {
    Detection(c.classId, c.confidence,
              ClampReal(Restore(c.x1, p.padLeft, p.resizedWidth, p.sourceWidth), 0.0, p.sourceWidth as real),
              ClampReal(Restore(c.y1, p.padTop, p.resizedHeight, p.sourceHeight), 0.0, p.sourceHeight as real),
              ClampReal(Restore(c.x2, p.padLeft, p.resizedWidth, p.sourceWidth), 0.0, p.sourceWidth as real),
              ClampReal(Restore(c.y2, p.padTop, p.resizedHeight, p.sourceHeight), 0.0, p.sourceHeight as real))
  }

  predicate Degenerate(d: Detection) { d.x2 <= d.x1 || d.y2 <= d.y1 }

  /** Every admitted candidate restores to a non-empty box inside the frame, so the degenerate-box skip never fires. */
  lemma RestoredInFrame(p: Plan, c: Candidate)
    requires ValidPlan(p) && Admitted(p, c)
    ensures var d := RestoreBox(p, c);
            && 0.0 <= d.x1 < d.x2 <= p.sourceWidth as real
            && 0.0 <= d.y1 < d.y2 <= p.sourceHeight as real
            && !Degenerate(d)
  {
    RestoredNonEmpty(c.x1, c.x2, p.padLeft, p.resizedWidth, p.sourceWidth);
    RestoredNonEmpty(c.y1, c.y2, p.padTop, p.resizedHeight, p.sourceHeight);
  }

  /** The detection of a candidate: its class and confidence, and its box mapped back to the frame. */
  ghost predicate Restores(p: Plan, c: Candidate, d: Detection) {
    && d.classId == c.classId && d.confidence == c.confidence
    && CornerOf(c.x1, d.x1, p.padLeft, p.resizedWidth, p.sourceWidth)
    && CornerOf(c.x2, d.x2, p.padLeft, p.resizedWidth, p.sourceWidth)
    && CornerOf(c.y1, d.y1, p.padTop, p.resizedHeight, p.sourceHeight)
    && CornerOf(c.y2, d.y2, p.padTop, p.resizedHeight, p.sourceHeight)
  }

  lemma RestoreBoxRestores(p: Plan, c: Candidate)
    requires ValidPlan(p)
    ensures Restores(p, c, RestoreBox(p, c))
  {
    RestoresCorner(c.x1, p.padLeft, p.resizedWidth, p.sourceWidth);
    RestoresCorner(c.x2, p.padLeft, p.resizedWidth, p.sourceWidth);
    RestoresCorner(c.y1, p.padTop, p.resizedHeight, p.sourceHeight);
    RestoresCorner(c.y2, p.padTop, p.resizedHeight, p.sourceHeight);
  }

  function Skip(p: Plan): Candidate -> bool
    requires ValidPlan(p)
  {
    (c: Candidate) => Degenerate(RestoreBox(p, c))
  }

  function Keep(s: seq<Candidate>, n: nat, p: Plan, iou: real, max: nat): seq<Candidate>
    requires ValidPlan(p) && n <= |s|
  {
    Greedy.Keep(s, n, Conflict(iou), Skip(p), max)
  }

  /** Rank `r` overlaps a chosen better one of its class beyond the threshold. */
  ghost predicate Suppressed(s: seq<Candidate>, chosen: set<nat>, r: nat, iou: real)
    requires r < |s|
  {
    exists q :: 0 <= q < r && q in chosen && s[q].classId == s[r].classId && Iou(s[r], s[q]) > iou
  }

  /** A rank is chosen if and only if fewer than `max` better ones are and none of those suppresses it. */
  ghost predicate Selected(s: seq<Candidate>, chosen: set<nat>, iou: real, max: nat) {
    && (forall r :: r in chosen ==> r < |s|)
    && forall r :: 0 <= r < |s| ==>
         (r in chosen <==> |set q | q in chosen && q < r| < max && !Suppressed(s, chosen, r, iou))
  }

  lemma SelectedIff(s: seq<Candidate>, chosen: set<nat>, iou: real, max: nat)
    ensures Selected(s, chosen, iou, max) <==> Greedy.IsSelection(s, chosen, Conflict(iou), max)
  {
    forall r: nat | r < |s|
      ensures Greedy.RightlyChosen(s, chosen, r, Conflict(iou), max) <==>
              (r in chosen <==> |set q | q in chosen && q < r| < max && !Suppressed(s, chosen, r, iou))
    {
      Greedy.CountIsSize(chosen, r);
      SuppressedIff(s, chosen, r, iou);
    }
  }

  lemma SuppressedIff(s: seq<Candidate>, chosen: set<nat>, r: nat, iou: real)
    requires r < |s|
    ensures Suppressed(s, chosen, r, iou) <==> Greedy.Covered(s, chosen, r, Conflict(iou))
  {
    if Greedy.Covered(s, chosen, r, Conflict(iou)) {
      var q :| 0 <= q < r && q in chosen && Conflict(iou)(s[r], s[q]);
      assert q in chosen && s[q].classId == s[r].classId;
    }
    if Suppressed(s, chosen, r, iou) {
      var q :| 0 <= q < r && q in chosen && s[q].classId == s[r].classId && Iou(s[r], s[q]) > iou;
      assert Conflict(iou)(s[r], s[q]);
    }
  }

  /** The kept candidates are those of exactly one set of ranks, in order. */
  lemma KeptIsTheSelection(s: seq<Candidate>, p: Plan, iou: real, max: nat, other: set<nat>) returns (chosen: set<nat>)
    requires ValidPlan(p) && forall i :: 0 <= i < |s| ==> Admitted(p, s[i])
    ensures Selected(s, chosen, iou, max)
    ensures Keep(s, |s|, p, iou, max) == Greedy.Chosen(s, chosen, |s|)
    ensures Selected(s, other, iou, max) ==> other == chosen
  {
    forall i | 0 <= i < |s| ensures !Skip(p)(s[i]) { RestoredInFrame(p, s[i]); }
    chosen := Greedy.SelectionExists(s, Conflict(iou), Skip(p), max);
    SelectedIff(s, chosen, iou, max);
    SelectedIff(s, other, iou, max);
    if Selected(s, other, iou, max) {
      Greedy.SelectionUnique(s, chosen, other, Conflict(iou), max);
    }
  }

  /** Below the cap, a rejected candidate is covered by a chosen one of its class at least as confident. */
  lemma RejectedIsCovered(s: seq<Candidate>, chosen: set<nat>, iou: real, max: nat, r: nat) returns (q: nat)
    requires Ranked(s) && Selected(s, chosen, iou, max) && |chosen| < max && r < |s| && r !in chosen
    ensures q < r && q in chosen && s[q].classId == s[r].classId && Iou(s[r], s[q]) > iou
    ensures s[q].confidence >= s[r].confidence
  {
    var below := set q | q in chosen && q < r;
    Subset(below, chosen);
    q :| 0 <= q < r && q in chosen && s[q].classId == s[r].classId && Iou(s[r], s[q]) > iou;
    assert Above(s[q], s[r]);
  }

  lemma Subset(a: set<nat>, b: set<nat>)
    requires a <= b
    ensures |a| <= |b|
  {
    assert b == a + (b - a);
  }

  /** The output depends on the candidates alone, not on the order they were found in. */
  lemma OutputDetermined(a: seq<Candidate>, b: seq<Candidate>, p: Plan, iou: real, max: nat)
    requires ValidPlan(p) && Distinct(a) && Distinct(b) && multiset(a) == multiset(b)
    ensures Keep(Rank(a), |Rank(a)|, p, iou, max) == Keep(Rank(b), |Rank(b)|, p, iou, max)
  {
    RankFacts(a);
    RankFacts(b);
    RankingUnique(Rank(a), Rank(b));
  }

  // ----- the loops -----

  method BestClass(v: View, index: int) returns (best: Option<(nat, real)>)
    requires ValidView(v) && 0 <= index < v.candidates
    ensures best == Best(v, index, v.channels)
  {
    best := None;
    for channel := 4 to v.channels
      invariant best == Best(v, index, channel)
    {
      InView(v, channel, index);
      var value := v.data[channel * v.candidates + index];
      if value.Finite? && (best.None? || value.r > best.value.1) { best := Some((channel - 4, value.r)); }
    }
  }

  method Filter(v: View, p: Plan, threshold: real) returns (filtered: seq<Candidate>)
    requires ValidView(v)
    ensures filtered == Candidates(v, p, threshold)
  {
    filtered := [];
    ghost var columns := Columns(v, p, threshold);
    for index := 0 to v.candidates
      invariant filtered == Somes(columns[..index])
    {
      assert columns[..index + 1][..index] == columns[..index];
      assert columns[index] == CandidateAt(v, p, threshold, index);
      var best := BestClass(v, index);
      if best.None? || best.value.1 <= threshold { continue; }
      var cx, cy, w, h := At(v, 0, index), At(v, 1, index), At(v, 2, index), At(v, 3, index);
      if cx.NonFinite? || cy.NonFinite? || w.NonFinite? || h.NonFinite? || w.r <= 0.0 || h.r <= 0.0 { continue; }
      var x1, x2, y1, y2 := cx.r - w.r / 2.0, cx.r + w.r / 2.0, cy.r - h.r / 2.0, cy.r + h.r / 2.0;
      if !Visible(p, x1, y1, x2, y2) { continue; }
      filtered := filtered + [Candidate(best.value.0, best.value.1, x1, y1, x2, y2, index)];
    }
    assert columns[..v.candidates] == columns;
  }

  method IsSuppressed(kept: seq<Candidate>, c: Candidate, iou: real) returns (yes: bool)
    ensures yes == Greedy.Blocked(kept, c, Conflict(iou))
  {
    for k := 0 to |kept|
      invariant forall j :: 0 <= j < k ==> !Conflict(iou)(c, kept[j])
    {
      if c.classId == kept[k].classId && Iou(c, kept[k]) > iou {
        assert Conflict(iou)(c, kept[k]);
        return true;
      }
    }
    return false;
  }

  function RestoreAll(p: Plan, kept: seq<Candidate>): seq<Detection>
    requires ValidPlan(p)
  {
    seq(|kept|, i requires 0 <= i < |kept| => RestoreBox(p, kept[i]))
  }

  method SelectBoxes(s: seq<Candidate>, p: Plan, iou: real, max: nat) returns (result: seq<Detection>)
    requires ValidPlan(p) && max > 0
    ensures result == RestoreAll(p, Keep(s, |s|, p, iou, max))
  {
    result := [];
    var kept: seq<Candidate> := [];
    for n := 0 to |s|
      invariant kept == Keep(s, n, p, iou, max) && |kept| < max
      invariant result == RestoreAll(p, kept)
    {
      var suppressed := IsSuppressed(kept, s[n], iou);
      if suppressed { continue; }
      var detection := RestoreBox(p, s[n]);
      if Degenerate(detection) { continue; }
      kept := kept + [s[n]];
      result := result + [detection];
      if |result| == max {
        Greedy.KeepStopsAtCap(s, n + 1, |s|, Conflict(iou), Skip(p), max);
        return;
      }
    }
  }

  datatype Result = Failed | Detections(boxes: seq<Detection>)

  /** The whole stage; its boxes are those of the unique selection, non-empty and inside the frame. */
  method PostprocessYolo(v: View, p: Plan, config: Config) returns (r: Result)
    ensures r.Detections? <==>
              && v.present && v.channels > 4 && v.candidates > 0 && |v.data| == v.channels * v.candidates
              && p.sourceWidth > 0 && p.sourceHeight > 0 && p.width > 0 && p.height > 0
              && p.resizedWidth > 0 && p.resizedHeight > 0 && p.padLeft >= 0 && p.padTop >= 0
              && p.padLeft + p.resizedWidth <= p.width && p.padTop + p.resizedHeight <= p.height
              && config.confidence.Finite? && 0.0 <= config.confidence.r <= 1.0
              && config.iou.Finite? && 0.0 <= config.iou.r <= 1.0 && config.maxDetections > 0
    ensures r.Detections? ==>
              var s := Rank(Candidates(v, p, config.confidence.r));
              && r.boxes == RestoreAll(p, Keep(s, |s|, p, config.iou.r, config.maxDetections))
              && |r.boxes| <= config.maxDetections
              && (exists chosen, ranks :: Reports(s, chosen, ranks, p, config.iou.r, config.maxDetections, r.boxes))
              && forall i :: 0 <= i < |r.boxes| ==>
                   && 0.0 <= r.boxes[i].x1 < r.boxes[i].x2 <= p.sourceWidth as real
                   && 0.0 <= r.boxes[i].y1 < r.boxes[i].y2 <= p.sourceHeight as real
                   && r.boxes[i].confidence > config.confidence.r
  {
    if !ValidView(v) || !ValidPlan(p) || !ValidConfig(config) { return Failed; }
    var filtered := Filter(v, p, config.confidence.r);
    var ranked := Rank(filtered);
    var boxes := SelectBoxes(ranked, p, config.iou.r, config.maxDetections);
    KeptAreAdmitted(v, p, config.confidence.r, config.iou.r, config.maxDetections);
    ghost var chosen, ranks := ReportsSelection(ranked, p, config.iou.r, config.maxDetections, boxes);
    r := Detections(boxes);
  }

  /** The boxes are those of the selected candidates, in the order of their ranks and mapped back to the frame. */
  ghost predicate Reports(s: seq<Candidate>, chosen: set<nat>, ranks: seq<nat>, p: Plan, iou: real, max: nat, boxes: seq<Detection>) {
    && Selected(s, chosen, iou, max)
    && (forall r :: r in chosen <==> r in ranks)
    && (forall i, j :: 0 <= i < j < |ranks| ==> ranks[i] < ranks[j])
    && |boxes| == |ranks|
    && forall i :: 0 <= i < |ranks| ==> ranks[i] < |s| && Restores(p, s[ranks[i]], boxes[i])
  }

  lemma ReportsSelection(s: seq<Candidate>, p: Plan, iou: real, max: nat, boxes: seq<Detection>)
    returns (chosen: set<nat>, ranks: seq<nat>)
    requires ValidPlan(p) && forall i :: 0 <= i < |s| ==> Admitted(p, s[i])
    requires boxes == RestoreAll(p, Keep(s, |s|, p, iou, max))
    ensures Reports(s, chosen, ranks, p, iou, max, boxes)
  {
    chosen := KeptIsTheSelection(s, p, iou, max, {});
    ranks := RanksOfSelection(s, chosen, p, iou, max, boxes);
  }

  lemma RanksOfSelection(s: seq<Candidate>, chosen: set<nat>, p: Plan, iou: real, max: nat, boxes: seq<Detection>)
    returns (ranks: seq<nat>)
    requires ValidPlan(p) && Selected(s, chosen, iou, max)
    requires boxes == RestoreAll(p, Greedy.Chosen(s, chosen, |s|))
    ensures Reports(s, chosen, ranks, p, iou, max, boxes)
  {
    ranks := Greedy.RanksOf(chosen, |s|);
    Greedy.RanksFacts(chosen, |s|);
    Greedy.ChosenAtRanks(s, chosen, |s|);
    RestoresAll(p, s, ranks, Greedy.Chosen(s, chosen, |s|));
    forall r ensures r in chosen <==> r in ranks {}
  }

  lemma RestoresAll(p: Plan, s: seq<Candidate>, ranks: seq<nat>, kept: seq<Candidate>)
    requires ValidPlan(p) && |kept| == |ranks|
    requires forall i :: 0 <= i < |ranks| ==> ranks[i] < |s| && kept[i] == s[ranks[i]]
    ensures forall i :: 0 <= i < |ranks| ==> Restores(p, s[ranks[i]], RestoreAll(p, kept)[i])
  {
    forall i | 0 <= i < |ranks| ensures Restores(p, s[ranks[i]], RestoreAll(p, kept)[i]) {
      RestoreBoxRestores(p, kept[i]);
    }
  }

  lemma KeptAreAdmitted(v: View, p: Plan, threshold: real, iou: real, max: nat)
    requires ValidView(v) && ValidPlan(p)
    ensures var s := Rank(Candidates(v, p, threshold));
            var kept := Keep(s, |s|, p, iou, max);
            && Ranked(s) && (forall i :: 0 <= i < |s| ==> Admitted(p, s[i]))
            && |kept| <= max
            && forall i :: 0 <= i < |kept| ==>
                 var d := RestoreBox(p, kept[i]);
                 && 0.0 <= d.x1 < d.x2 <= p.sourceWidth as real
                 && 0.0 <= d.y1 < d.y2 <= p.sourceHeight as real
                 && d.confidence > threshold
  {
    var found := Candidates(v, p, threshold);
    var s := Rank(found);
    CandidatesFacts(v, p, threshold);
    RankFacts(found);
    forall i | 0 <= i < |s| ensures Admitted(p, s[i]) && s[i].confidence > threshold {
      assert s[i] in multiset(s);
      var j :| 0 <= j < |found| && found[j] == s[i];
      assert Found(p, threshold, found[j]);
    }
    Greedy.KeptFromRanking(s, |s|, Conflict(iou), Skip(p), max);
    var kept := Keep(s, |s|, p, iou, max);
    forall i | 0 <= i < |kept|
      ensures var d := RestoreBox(p, kept[i]);
              && 0.0 <= d.x1 < d.x2 <= p.sourceWidth as real
              && 0.0 <= d.y1 < d.y2 <= p.sourceHeight as real
              && d.confidence > threshold
    {
      RestoredInFrame(p, kept[i]);
    }
  }
}
