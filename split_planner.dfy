/**
 * The split planner of lib/splitter.js (`calculateSplitTimes`): it cuts an episode of a given total
 * duration into parts of an ideal duration and moves every cut after the first to the midpoint of
 * the closest silence that has not been used yet, provided that midpoint is within the drift bound
 * of the ideal cut time. Times are exact reals.
 */
module SplitPlanner {
  import opened Wrappers

  /** `MAX_DISTANCE_FROM_SILENCE`: the drift bound the program uses, in seconds. */
  const MaxDistanceFromSilence: real := 10.0

  /** A silent interval `{ start, end }` in seconds, as the silence detector reports it. */
  datatype Silence = Silence(start: real, end: real)

  /** JavaScript's `Infinity` beside the finite distances the scan compares against. */
  datatype Distance = Finite(d: real) | Infinity

  function Mid(s: Silence): real {
    (s.start + s.end) / 2.0
  }

  function Abs(x: real): real {
    if x < 0.0 then -x else x
  }

  /** `Math.ceil` on an exact real: the least integer not below `x`. */
  function Ceil(x: real): (r: int)
    ensures x <= r as real < x + 1.0
  {
    var f := x.Floor;
    if f as real == x then f else f + 1
  }

  /** `d < closestDistance`. */
  predicate Below(d: real, e: Distance) {
    e.Infinity? || d < e.d
  }

  /** The loop of `calculateSplitTimes` runs while `i < Math.ceil(total / ideal)`. With `ideal == 0`
      and `total <= 0` the quotient is `NaN` or `-Infinity` and the loop does not run, which the
      bound 0 stands for. */
  function LoopBound(total: real, ideal: real): int {
    if ideal == 0.0 then 0 else Ceil(total / ideal)
  }

  /** The number of cuts the planner returns: one per part. */
  function CutCount(total: real, ideal: real): nat {
    if LoopBound(total, ideal) < 1 then 1 else LoopBound(total, ideal)
  }

  // ---------------------------------------------------------------------------------------------
  // choosing the silence for one cut
  // ---------------------------------------------------------------------------------------------

  function Dist(silences: seq<Silence>, t: real, j: nat): real
    requires j < |silences|
  {
    Abs(Mid(silences[j]) - t)
  }

  /** Silence `j` may serve the cut at time `t`: its midpoint is unused and within the drift bound. */
  predicate Eligible(silences: seq<Silence>, used: set<real>, t: real, drift: real, j: nat)
    requires j < |silences|
  {
    Mid(silences[j]) !in used && Dist(silences, t, j) <= drift
  }

  /** `best` is the silence a left-to-right scan of `silences[..k]` has chosen: none if no silence
      so far is eligible; otherwise an eligible one at least as close as every eligible silence seen,
      and strictly closer than every eligible silence before it. */
  predicate ChosenAfter(silences: seq<Silence>, used: set<real>, t: real, drift: real, k: nat, best: Option<nat>)
    requires k <= |silences|
  {
    match best
    case None => forall j :: 0 <= j < k ==> !Eligible(silences, used, t, drift, j)
    case Some(b) =>
      b < k && Eligible(silences, used, t, drift, b) &&
      (forall j :: 0 <= j < k && Eligible(silences, used, t, drift, j) ==> Dist(silences, t, b) <= Dist(silences, t, j)) &&
      (forall j :: 0 <= j < b && Eligible(silences, used, t, drift, j) ==> Dist(silences, t, b) < Dist(silences, t, j))
  }

  /** `closestDistance` for the current choice. */
  function DistanceOf(silences: seq<Silence>, t: real, best: Option<nat>): Distance
    requires best.Some? ==> best.value < |silences|
  {
    if best.None? then Infinity else Finite(Dist(silences, t, best.value))
  }

  /** One step of the inner loop: the silence at `k` replaces the current choice when its midpoint is
      unused, strictly closer than the current choice and within the drift bound. */
  function ScanStep(silences: seq<Silence>, used: set<real>, t: real, drift: real, k: nat, best: Option<nat>): Option<nat>
    requires k < |silences|
    requires best.Some? ==> best.value < |silences|
  {
    if Mid(silences[k]) in used then best
    else if Below(Dist(silences, t, k), DistanceOf(silences, t, best)) && Dist(silences, t, k) <= drift then Some(k)
    else best
  }

  /** Looking at one more silence keeps the choice the best of what has been seen. */
  lemma ScanStepChooses(silences: seq<Silence>, used: set<real>, t: real, drift: real, k: nat, best: Option<nat>)
    requires k < |silences|
    requires ChosenAfter(silences, used, t, drift, k, best)
    ensures ChosenAfter(silences, used, t, drift, k + 1, ScanStep(silences, used, t, drift, k, best))
  {
  }

  /** The rest of the scan, from silence `k` on, starting from the choice `best`. */
  function ScanFrom(silences: seq<Silence>, used: set<real>, t: real, drift: real, k: nat, best: Option<nat>): (r: Option<nat>)
    requires k <= |silences|
    requires ChosenAfter(silences, used, t, drift, k, best)
    ensures ChosenAfter(silences, used, t, drift, |silences|, r)
    decreases |silences| - k
  {
    if k == |silences| then best
    else
      ScanStepChooses(silences, used, t, drift, k, best);
      ScanFrom(silences, used, t, drift, k + 1, ScanStep(silences, used, t, drift, k, best))
  }

  /** The index of the silence the inner loop of `calculateSplitTimes` settles on for the cut at `t`. */
  function Closest(silences: seq<Silence>, used: set<real>, t: real, drift: real): (r: Option<nat>)
    ensures ChosenAfter(silences, used, t, drift, |silences|, r)
  {
    ScanFrom(silences, used, t, drift, 0, None)
  }

  /** The midpoint chosen for the cut at `t`, if any: an unused one within the drift bound, and
      none exactly when no silence is eligible. */
  function Pick(silences: seq<Silence>, used: set<real>, t: real, drift: real): (r: Option<real>)
    ensures r.Some? ==> r.value !in used && Abs(r.value - t) <= drift
    ensures r.None? <==> forall j :: 0 <= j < |silences| ==> !Eligible(silences, used, t, drift, j)
  {
    match Closest(silences, used, t, drift)
    case None => None
    case Some(j) => Some(Mid(silences[j]))
  }

  /** A chosen midpoint belongs to an eligible silence that is closest to `t` among the eligible
      silences, and earliest in the list among equally close ones. */
  lemma PickIsClosest(silences: seq<Silence>, used: set<real>, t: real, drift: real)
    requires Pick(silences, used, t, drift).Some?
    ensures var m := Pick(silences, used, t, drift).value;
      exists j :: 0 <= j < |silences| && Mid(silences[j]) == m && Eligible(silences, used, t, drift, j) &&
        (forall i :: 0 <= i < |silences| && Eligible(silences, used, t, drift, i) ==> Abs(m - t) <= Dist(silences, t, i)) &&
        (forall i :: 0 <= i < j && Eligible(silences, used, t, drift, i) ==> Abs(m - t) < Dist(silences, t, i))
  {
    var j := Closest(silences, used, t, drift).value;
    assert Mid(silences[j]) == Pick(silences, used, t, drift).value;
  }

  /** A chosen midpoint is the midpoint of one of the silences. */
  lemma PickIsMidpoint(silences: seq<Silence>, used: set<real>, t: real, drift: real)
    requires Pick(silences, used, t, drift).Some?
    ensures exists j :: 0 <= j < |silences| && Mid(silences[j]) == Pick(silences, used, t, drift).value
  {
    var j := Closest(silences, used, t, drift).value;
    assert Mid(silences[j]) == Pick(silences, used, t, drift).value;
  }

  // ---------------------------------------------------------------------------------------------
  // the plan
  // ---------------------------------------------------------------------------------------------

  /** The planner's state: the cut times so far (`splitTimes`) and the midpoints used (`usedSilences`). */
  datatype PlanState = PlanState(cuts: seq<real>, used: set<real>)

  /** The ideal time of cut `i`. */
  function IdealTime(ideal: real, i: nat): real {
    i as real * ideal
  }

  /** One pass of the outer loop, for cut `i`. */
  function Step(st: PlanState, silences: seq<Silence>, ideal: real, drift: real, i: nat): PlanState {
    match Pick(silences, st.used, IdealTime(ideal, i), drift)
    case Some(m) => PlanState(st.cuts + [m], st.used + {m})
    case None => PlanState(st.cuts + [IdealTime(ideal, i)], st.used)
  }

  /** The state after the outer loop has handled cuts 1 to `n`. */
  function Iterate(silences: seq<Silence>, ideal: real, drift: real, n: nat): (st: PlanState)
    ensures |st.cuts| == n + 1 && st.cuts[0] == 0.0
  {
    if n == 0 then PlanState([0.0], {})
    else Step(Iterate(silences, ideal, drift, n - 1), silences, ideal, drift, n)
  }

  /** The midpoint, if any, chosen for cut `i >= 1`. */
  function PickAt(silences: seq<Silence>, ideal: real, drift: real, i: nat): Option<real>
    requires i >= 1
  {
    Pick(silences, Iterate(silences, ideal, drift, i - 1).used, IdealTime(ideal, i), drift)
  }

  /** Cut `i >= 1`: the midpoint chosen for it, or its ideal time when none is chosen. */
  function CutAt(silences: seq<Silence>, ideal: real, drift: real, i: nat): real
    requires i >= 1
  {
    match PickAt(silences, ideal, drift, i)
    case Some(m) => m
    case None => IdealTime(ideal, i)
  }

  /** What `calculateSplitTimes(ideal, silences, total)` returns for the drift bound `drift`. */
  function Plan(ideal: real, silences: seq<Silence>, total: real, drift: real): seq<real> {
    Iterate(silences, ideal, drift, CutCount(total, ideal) - 1).cuts
  }

  /** `calculateSplitTimes`, with the drift bound as a parameter. The loop bound is re-evaluated each
      round as in the source; the only input on which the source never stops is `ideal == 0` with a
      positive total (the bound is `Infinity`), which the precondition excludes. */
  method CalculateSplitTimes(ideal: real, silences: seq<Silence>, total: real, drift: real)
    returns (splitTimes: seq<real>)
    requires ideal != 0.0 || total <= 0.0
    ensures splitTimes == Plan(ideal, silences, total, drift)
    ensures |splitTimes| == CutCount(total, ideal) && splitTimes[0] == 0.0
    ensures forall i :: 1 <= i < |splitTimes| ==>
      splitTimes[i] == IdealTime(ideal, i) ||
      (Abs(splitTimes[i] - IdealTime(ideal, i)) <= drift &&
       exists j :: 0 <= j < |silences| && Mid(silences[j]) == splitTimes[i])
  {
    splitTimes := [0.0];
    var usedSilences: set<real> := {};
    var i := 1;
    while i < LoopBound(total, ideal)
      invariant 1 <= i <= CutCount(total, ideal)
      invariant PlanState(splitTimes, usedSilences) == Iterate(silences, ideal, drift, i - 1)
    {
      var idealTime := IdealTime(ideal, i);
      var closestSilence := ClosestSilence(silences, usedSilences, idealTime, drift);
      if closestSilence.Some? {
        splitTimes := splitTimes + [closestSilence.value];
        usedSilences := usedSilences + {closestSilence.value};
      } else {
        splitTimes := splitTimes + [idealTime];
      }
      assert PlanState(splitTimes, usedSilences)
          == Step(Iterate(silences, ideal, drift, i - 1), silences, ideal, drift, i);
      i := i + 1;
    }
    PlanCutsNearIdeal(ideal, silences, total, drift);
  }

  /** The inner loop of `calculateSplitTimes`: the scan keeps the unused midpoint within the drift
      bound that is strictly closer to `idealTime` than every one before it. */
  method ClosestSilence(silences: seq<Silence>, usedSilences: set<real>, idealTime: real, drift: real)
    returns (closestSilence: Option<real>)
    ensures closestSilence == Pick(silences, usedSilences, idealTime, drift)
  {
    closestSilence := None;
    var closestDistance := Infinity;
    ghost var best: Option<nat> := None;
    var k := 0;
    while k < |silences|
      invariant 0 <= k <= |silences|
      invariant ChosenAfter(silences, usedSilences, idealTime, drift, k, best)
      invariant ScanFrom(silences, usedSilences, idealTime, drift, k, best) == Closest(silences, usedSilences, idealTime, drift)
      invariant closestDistance == DistanceOf(silences, idealTime, best)
      invariant closestSilence == if best.None? then None else Some(Mid(silences[best.value]))
    {
      ScanStepChooses(silences, usedSilences, idealTime, drift, k, best);
      ghost var next := ScanStep(silences, usedSilences, idealTime, drift, k, best);
      var segment := silences[k];
      var midSilence := (segment.start + segment.end) / 2.0;
      if midSilence !in usedSilences {
        var distance := Abs(midSilence - idealTime);
        if Below(distance, closestDistance) && distance <= drift {
          closestDistance := Finite(distance);
          closestSilence := Some(midSilence);
          best := Some(k);
        }
      }
      assert best == next;
      k := k + 1;
    }
  }

  /** Every cut after the first is its ideal time or the midpoint of a silence within the drift bound. */
  lemma PlanCutsNearIdeal(ideal: real, silences: seq<Silence>, total: real, drift: real)
    ensures var cuts := Plan(ideal, silences, total, drift);
      forall i :: 1 <= i < |cuts| ==>
        cuts[i] == IdealTime(ideal, i) ||
        (Abs(cuts[i] - IdealTime(ideal, i)) <= drift &&
         exists j :: 0 <= j < |silences| && Mid(silences[j]) == cuts[i])
  {
    var n := CutCount(total, ideal) - 1;
    var cuts := Plan(ideal, silences, total, drift);
    PlanShape(silences, ideal, drift, n);
    forall i | 1 <= i < |cuts|
      ensures cuts[i] == IdealTime(ideal, i) ||
        (Abs(cuts[i] - IdealTime(ideal, i)) <= drift &&
         exists j :: 0 <= j < |silences| && Mid(silences[j]) == cuts[i])
    {
      CutNearIdeal(silences, ideal, drift, n, i);
    }
  }

  // ---------------------------------------------------------------------------------------------
  // properties of the plan
  // ---------------------------------------------------------------------------------------------

  /** The plan after `n` rounds keeps the cuts of earlier rounds: cut `i` is the one round `i` made. */
  lemma {:induction false} PlanShape(silences: seq<Silence>, ideal: real, drift: real, n: nat)
    ensures forall i :: 1 <= i <= n ==> Iterate(silences, ideal, drift, n).cuts[i] == CutAt(silences, ideal, drift, i)
  {
    if n > 0 {
      PlanShape(silences, ideal, drift, n - 1);
      var prev := Iterate(silences, ideal, drift, n - 1);
      var cur := Iterate(silences, ideal, drift, n);
      assert cur.cuts == prev.cuts + [CutAt(silences, ideal, drift, n)];
      forall i | 1 <= i <= n
        ensures cur.cuts[i] == CutAt(silences, ideal, drift, i)
      {
        if i < n {
          assert cur.cuts[i] == prev.cuts[i];
        }
      }
    }
  }

  /** Every cut after the first is its ideal time or the midpoint of some silence within the drift
      bound of its ideal time. */
  lemma CutNearIdeal(silences: seq<Silence>, ideal: real, drift: real, n: nat, i: nat)
    requires 1 <= i <= n
    ensures var c := Iterate(silences, ideal, drift, n).cuts[i];
      c == IdealTime(ideal, i) ||
      (Abs(c - IdealTime(ideal, i)) <= drift && exists j :: 0 <= j < |silences| && Mid(silences[j]) == c)
  {
    PlanShape(silences, ideal, drift, n);
    if PickAt(silences, ideal, drift, i).Some? {
      PickIsMidpoint(silences, Iterate(silences, ideal, drift, i - 1).used, IdealTime(ideal, i), drift);
    }
  }

  /** The set of used midpoints only grows from one round to the next, and holds every midpoint chosen. */
  lemma {:induction false} UsedGrows(silences: seq<Silence>, ideal: real, drift: real, m: nat, n: nat)
    requires m <= n
    ensures Iterate(silences, ideal, drift, m).used <= Iterate(silences, ideal, drift, n).used
    ensures 1 <= m && PickAt(silences, ideal, drift, m).Some? ==>
      PickAt(silences, ideal, drift, m).value in Iterate(silences, ideal, drift, n).used
  {
    if m < n {
      UsedGrows(silences, ideal, drift, m, n - 1);
    }
  }

  /** No silence midpoint is chosen for two different cuts. */
  lemma PicksNeverRepeat(silences: seq<Silence>, ideal: real, drift: real, i: nat, j: nat)
    requires 1 <= i < j
    requires PickAt(silences, ideal, drift, i).Some? && PickAt(silences, ideal, drift, j).Some?
    ensures PickAt(silences, ideal, drift, i).value != PickAt(silences, ideal, drift, j).value
  {
    UsedGrows(silences, ideal, drift, i, j - 1);
  }

  /** Two cuts of a plan can coincide only when one of them sits at its ideal time (a cut away from
      its ideal time is a chosen midpoint, and chosen midpoints are never reused). */
  lemma DistinctMovedCuts(ideal: real, silences: seq<Silence>, total: real, drift: real, i: nat, j: nat)
    requires 1 <= i < j < |Plan(ideal, silences, total, drift)|
    requires Plan(ideal, silences, total, drift)[i] != IdealTime(ideal, i)
    requires Plan(ideal, silences, total, drift)[j] != IdealTime(ideal, j)
    ensures Plan(ideal, silences, total, drift)[i] != Plan(ideal, silences, total, drift)[j]
  {
    var n := CutCount(total, ideal) - 1;
    PlanShape(silences, ideal, drift, n);
    PicksNeverRepeat(silences, ideal, drift, i, j);
  }

  /** With no silences, or a drift bound of 0, every cut is exactly its ideal time. */
  lemma CutsAtIdealTimes(ideal: real, silences: seq<Silence>, total: real, drift: real)
    requires silences == [] || drift == 0.0
    ensures forall i :: 1 <= i < |Plan(ideal, silences, total, drift)| ==>
      Plan(ideal, silences, total, drift)[i] == IdealTime(ideal, i)
  {
    var n := CutCount(total, ideal) - 1;
    PlanShape(silences, ideal, drift, n);
  }

  /** When the ideal part duration exceeds twice the drift bound, the cuts are strictly increasing. */
  lemma PlanIncreasing(ideal: real, silences: seq<Silence>, total: real, drift: real)
    requires 0.0 <= drift && 2.0 * drift < ideal
    ensures forall i :: 0 <= i < |Plan(ideal, silences, total, drift)| - 1 ==>
      Plan(ideal, silences, total, drift)[i] < Plan(ideal, silences, total, drift)[i + 1]
  {
    var n := CutCount(total, ideal) - 1;
    var p := Plan(ideal, silences, total, drift);
    PlanShape(silences, ideal, drift, n);
    forall i | 0 <= i < n
      ensures p[i] < p[i + 1]
    {
      CutWithinDrift(silences, ideal, drift, i + 1);
      IdealTimeNext(ideal, i);
      if i > 0 {
        CutWithinDrift(silences, ideal, drift, i);
      }
    }
  }

  lemma IdealTimeNext(ideal: real, i: nat)
    ensures IdealTime(ideal, i + 1) == IdealTime(ideal, i) + ideal
    ensures ideal > 0.0 ==> IdealTime(ideal, i) >= 0.0
  {
  }

  /** Cut `i` lies within the drift bound of its ideal time. */
  lemma CutWithinDrift(silences: seq<Silence>, ideal: real, drift: real, i: nat)
    requires i >= 1 && drift >= 0.0
    ensures Abs(CutAt(silences, ideal, drift, i) - IdealTime(ideal, i)) <= drift
  {
  }

  /** With `ideal = total / parts` for a positive total, the plan has exactly `parts` cuts. */
  lemma CutCountOfParts(total: real, parts: nat)
    requires total > 0.0 && parts >= 1
    ensures CutCount(total, total / parts as real) == parts
  {
    var ideal := total / parts as real;
    assert ideal > 0.0;
    assert total / ideal == parts as real;
  }

  /** Scenario: a 120 s episode in two parts with one silence from 58 s to 61 s is cut at 59.5 s. */
  lemma ScenarioSilenceNearIdeal()
    ensures Plan(60.0, [Silence(58.0, 61.0)], 120.0, MaxDistanceFromSilence) == [0.0, 59.5]
  {
    var s := [Silence(58.0, 61.0)];
    assert CutCount(120.0, 60.0) == 2;
    assert Closest(s, {}, 60.0, 10.0) == Some(0);
  }

  /** Scenario: the same episode without silences is cut at exactly 60 s. */
  lemma ScenarioNoSilence()
    ensures Plan(60.0, [], 120.0, MaxDistanceFromSilence) == [0.0, 60.0]
  {
    assert CutCount(120.0, 60.0) == 2;
  }
}
