/**
 Greedy selection from a ranked list: an element is kept unless it is to be
 skipped, conflicts with a kept one, or the cap is reached. The result is pinned
 down by an independent characterisation that exactly one set of ranks meets.
 */
module Greedy {
  predicate Blocked<T>(kept: seq<T>, x: T, conflict: (T, T) -> bool) {
    exists k :: 0 <= k < |kept| && conflict(x, kept[k])
  }

  /** The elements kept from the first `n`. */
  function Keep<T>(s: seq<T>, n: nat, conflict: (T, T) -> bool, skip: T -> bool, max: nat): (k: seq<T>)
    requires n <= |s|
    ensures |k| <= n
  {
    if n == 0 then []
    else
      var kept := Keep(s, n - 1, conflict, skip, max);
      if |kept| >= max || Blocked(kept, s[n - 1], conflict) || skip(s[n - 1]) then kept else kept + [s[n - 1]]
  }

  /** The number of members below `n`. */
  function CountBelow(chosen: set<nat>, n: nat): nat {
    if n == 0 then 0 else CountBelow(chosen, n - 1) + (if n - 1 in chosen then 1 else 0)
  }

  /** The elements at the chosen ranks below `n`, in order. */
  function Chosen<T>(s: seq<T>, chosen: set<nat>, n: nat): (r: seq<T>)
    requires n <= |s|
    ensures |r| == CountBelow(chosen, n)
  {
    if n == 0 then []
    else Chosen(s, chosen, n - 1) + (if n - 1 in chosen then [s[n - 1]] else [])
  }

  /** Rank `r` conflicts with a chosen rank above it. */
  ghost predicate Covered<T>(s: seq<T>, chosen: set<nat>, r: nat, conflict: (T, T) -> bool)
    requires r < |s|
  {
    exists q :: 0 <= q < r && q in chosen && conflict(s[r], s[q])
  }

  /** Rank `r` is chosen exactly if fewer than `max` better ones are and none of those conflicts with it. */
  ghost predicate RightlyChosen<T>(s: seq<T>, chosen: set<nat>, r: nat, conflict: (T, T) -> bool, max: nat)
    requires r < |s|
  {
    r in chosen <==> CountBelow(chosen, r) < max && !Covered(s, chosen, r, conflict)
  }

  ghost predicate IsSelection<T>(s: seq<T>, chosen: set<nat>, conflict: (T, T) -> bool, max: nat) {
    && (forall r :: r in chosen ==> r < |s|)
    && forall r :: 0 <= r < |s| ==> RightlyChosen(s, chosen, r, conflict, max)
  }

  lemma {:induction false} AgreeBelow<T>(s: seq<T>, a: set<nat>, b: set<nat>, n: nat)
    requires n <= |s| && forall r :: 0 <= r < n ==> (r in a <==> r in b)
    ensures CountBelow(a, n) == CountBelow(b, n) && Chosen(s, a, n) == Chosen(s, b, n)
  {
    if n > 0 { AgreeBelow(s, a, b, n - 1); }
  }

  lemma {:induction false} ChosenMembers<T>(s: seq<T>, chosen: set<nat>, n: nat)
    requires n <= |s|
    ensures forall q :: 0 <= q < n && q in chosen ==> s[q] in Chosen(s, chosen, n)
    ensures forall x :: x in Chosen(s, chosen, n) ==> exists q :: 0 <= q < n && q in chosen && s[q] == x
  {
    if n > 0 {
      ChosenMembers(s, chosen, n - 1);
      forall x | x in Chosen(s, chosen, n) ensures exists q :: 0 <= q < n && q in chosen && s[q] == x {
        if x in Chosen(s, chosen, n - 1) {
          var q :| 0 <= q < n - 1 && q in chosen && s[q] == x;
        } else {
          assert n - 1 in chosen && s[n - 1] == x;
        }
      }
    }
  }

  /** A conflict with a kept element is a conflict with a chosen rank. */
  lemma BlockedIsCovered<T>(s: seq<T>, chosen: set<nat>, r: nat, conflict: (T, T) -> bool)
    requires r < |s|
    ensures Blocked(Chosen(s, chosen, r), s[r], conflict) <==> Covered(s, chosen, r, conflict)
  {
    var kept := Chosen(s, chosen, r);
    ChosenMembers(s, chosen, r);
    if Blocked(kept, s[r], conflict) {
      var k :| 0 <= k < |kept| && conflict(s[r], kept[k]);
      assert kept[k] in kept;
      var q :| 0 <= q < r && q in chosen && s[q] == kept[k];
    }
    if Covered(s, chosen, r, conflict) {
      var q :| 0 <= q < r && q in chosen && conflict(s[r], s[q]);
      var k :| 0 <= k < |kept| && kept[k] == s[q];
    }
  }

  /** The greedy loop keeps the elements of a selection of the first `n` ranks. */
  lemma {:induction false} SelectionUpTo<T>(s: seq<T>, n: nat, conflict: (T, T) -> bool, skip: T -> bool, max: nat)
    returns (chosen: set<nat>)
    requires n <= |s| && forall i :: 0 <= i < |s| ==> !skip(s[i])
    ensures forall r :: r in chosen ==> r < n
    ensures forall r :: 0 <= r < n ==> RightlyChosen(s, chosen, r, conflict, max)
    ensures Keep(s, n, conflict, skip, max) == Chosen(s, chosen, n)
  {
    if n == 0 {
      chosen := {};
    } else {
      var before := SelectionUpTo(s, n - 1, conflict, skip, max);
      BlockedIsCovered(s, before, n - 1, conflict);
      chosen := if CountBelow(before, n - 1) < max && !Covered(s, before, n - 1, conflict)
                then before + {n - 1} else before;
      AgreeBelow(s, before, chosen, n - 1);
      assert !skip(s[n - 1]);
      Extended(s, n - 1, before, chosen, conflict, max);
    }
  }

  /** Deciding on rank `n` rightly leaves the choice below it right. */
  lemma Extended<T>(s: seq<T>, n: nat, before: set<nat>, chosen: set<nat>, conflict: (T, T) -> bool, max: nat)
    requires n < |s| && n !in before && forall r :: 0 <= r < n ==> RightlyChosen(s, before, r, conflict, max)
    requires chosen == if CountBelow(before, n) < max && !Covered(s, before, n, conflict) then before + {n} else before
    ensures forall r :: 0 <= r <= n ==> RightlyChosen(s, chosen, r, conflict, max)
  {
    forall r | 0 <= r <= n ensures RightlyChosen(s, chosen, r, conflict, max) {
      SameChoice(s, before, chosen, r, conflict);
      if r < n { assert RightlyChosen(s, before, r, conflict, max); }
    }
  }

  lemma SameChoice<T>(s: seq<T>, a: set<nat>, b: set<nat>, r: nat, conflict: (T, T) -> bool)
    requires r < |s| && forall q :: 0 <= q < r ==> (q in a <==> q in b)
    ensures CountBelow(a, r) == CountBelow(b, r) && (Covered(s, a, r, conflict) <==> Covered(s, b, r, conflict))
  {
    AgreeBelow(s, a, b, r);
    CoveredAgrees(s, a, b, r, conflict);
  }

  lemma CoveredAgrees<T>(s: seq<T>, a: set<nat>, b: set<nat>, r: nat, conflict: (T, T) -> bool)
    requires r < |s| && forall q :: 0 <= q < r ==> (q in a <==> q in b)
    ensures Covered(s, a, r, conflict) <==> Covered(s, b, r, conflict)
  {}

  lemma SelectionExists<T>(s: seq<T>, conflict: (T, T) -> bool, skip: T -> bool, max: nat) returns (chosen: set<nat>)
    requires forall i :: 0 <= i < |s| ==> !skip(s[i])
    ensures IsSelection(s, chosen, conflict, max)
    ensures Keep(s, |s|, conflict, skip, max) == Chosen(s, chosen, |s|)
  {
    chosen := SelectionUpTo(s, |s|, conflict, skip, max);
  }

  lemma {:induction false} SelectionAgrees<T>(s: seq<T>, a: set<nat>, b: set<nat>, conflict: (T, T) -> bool,
                                              max: nat, n: nat)
    requires IsSelection(s, a, conflict, max) && IsSelection(s, b, conflict, max) && n <= |s|
    ensures forall r :: 0 <= r < n ==> (r in a <==> r in b)
  {
    if n > 0 {
      SelectionAgrees(s, a, b, conflict, max, n - 1);
      SameChoice(s, a, b, n - 1, conflict);
      assert RightlyChosen(s, a, n - 1, conflict, max) && RightlyChosen(s, b, n - 1, conflict, max);
    }
  }

  lemma SelectionUnique<T>(s: seq<T>, a: set<nat>, b: set<nat>, conflict: (T, T) -> bool, max: nat)
    requires IsSelection(s, a, conflict, max) && IsSelection(s, b, conflict, max)
    ensures a == b
  {
    SelectionAgrees(s, a, b, conflict, max, |s|);
    assert forall r :: r in a <==> r in b;
  }

  lemma {:induction false} CountGrows(chosen: set<nat>, n: nat, m: nat)
    requires n <= m
    ensures CountBelow(chosen, n) <= CountBelow(chosen, m)
  {
    if n < m { CountGrows(chosen, n, m - 1); }
  }

  // ----- ranks -----

  /** The chosen ranks below `n`, in order. */
  function RanksOf(chosen: set<nat>, n: nat): seq<nat> {
    if n == 0 then [] else RanksOf(chosen, n - 1) + (if n - 1 in chosen then [n - 1] else [])
  }

  lemma {:induction false} RanksFacts(chosen: set<nat>, n: nat)
    ensures var ranks := RanksOf(chosen, n);
            && |ranks| == CountBelow(chosen, n)
            && (forall i :: 0 <= i < |ranks| ==> ranks[i] < n && ranks[i] in chosen)
            && (forall i, j :: 0 <= i < j < |ranks| ==> ranks[i] < ranks[j])
            && (forall r :: 0 <= r < n && r in chosen ==> r in ranks)
  {
    if n > 0 {
      RanksFacts(chosen, n - 1);
      var before := RanksOf(chosen, n - 1);
      forall r | 0 <= r < n && r in chosen ensures r in RanksOf(chosen, n) { assert r < n - 1 ==> r in before; }
    }
  }

  lemma {:induction false} ChosenAtRanks<T>(s: seq<T>, chosen: set<nat>, n: nat)
    requires n <= |s|
    ensures var ranks, elements := RanksOf(chosen, n), Chosen(s, chosen, n);
            |elements| == |ranks| && forall i :: 0 <= i < |ranks| ==> ranks[i] < n && elements[i] == s[ranks[i]]
  {
    if n > 0 { ChosenAtRanks(s, chosen, n - 1); }
  }

  lemma {:induction false} CountIsSize(chosen: set<nat>, n: nat)
    ensures CountBelow(chosen, n) == |set q | q in chosen && q < n|
  {
    var below := set q | q in chosen && q < n;
    if n == 0 {
      assert below == {};
    } else {
      CountIsSize(chosen, n - 1);
      var before := set q | q in chosen && q < n - 1;
      assert below == if n - 1 in chosen then before + {n - 1} else before;
    }
  }

  lemma {:induction false} KeepStopsAtCap<T>(s: seq<T>, n: nat, m: nat, conflict: (T, T) -> bool, skip: T -> bool, max: nat)
    requires n <= m <= |s| && |Keep(s, n, conflict, skip, max)| >= max
    ensures Keep(s, m, conflict, skip, max) == Keep(s, n, conflict, skip, max)
    decreases m
  {
    if n < m { KeepStopsAtCap(s, n, m - 1, conflict, skip, max); }
  }

  lemma {:induction false} KeptFromRanking<T>(s: seq<T>, n: nat, conflict: (T, T) -> bool, skip: T -> bool, max: nat)
    requires n <= |s|
    ensures var kept := Keep(s, n, conflict, skip, max);
            |kept| <= max && forall i :: 0 <= i < |kept| ==> kept[i] in s
  {
    if n > 0 { KeptFromRanking(s, n - 1, conflict, skip, max); }
  }
}
