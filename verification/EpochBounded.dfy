/** Restricting an epoch plan to a bounded number of frames. */
module EpochBounded {
  import opened Common
  import opened Sorting
  import opened EpochTypes
  import opened EpochGaps
  import opened EpochSelection

  /** Every retained frame can be traced to its position among the epoch's source frames. */
  predicate Provenance(plan: EpochPlan) {
    && |plan.sourceIndices| == |plan.frames|
    && Increasing(plan.sourceIndices)
    && forall k :: 0 <= k < |plan.frames| ==>
         plan.sourceIndices[k] < |plan.sourceFrameIds| && plan.sourceFrameIds[plan.sourceIndices[k]] == plan.frames[k].id
  }

  ghost predicate SoundPlan(plan: EpochPlan) {
    && plan.frames != []
    && Chronological(plan.frames)
    && Provenance(plan)
    && ByStart(plan.gaps) && Proper(plan.gaps)
  }

  predicate InRange(indices: seq<nat>, n: nat) {
    forall k :: 0 <= k < |indices| ==> indices[k] < n
  }

  function Pick<T>(xs: seq<T>, indices: seq<nat>): (r: seq<T>)
    requires InRange(indices, |xs|)
    ensures |r| == |indices|
  {
    seq(|indices|, k requires 0 <= k < |indices| => xs[indices[k]])
  }

  function KeepMarkers(markers: seq<Marker>, lo: nat, hi: nat): seq<Marker> {
    if markers == [] then []
    else (if lo <= markers[0].time <= hi then [markers[0]] else []) + KeepMarkers(markers[1..], lo, hi)
  }

  /** The plan that keeps only the frames at the given positions. */
  function Restrict(plan: EpochPlan, indices: seq<nat>): EpochPlan
    requires |plan.sourceIndices| == |plan.frames| && indices != [] && InRange(indices, |plan.frames|)
  {
    var frames := Pick(plan.frames, indices);
    var lo, hi := frames[0].time, frames[|frames| - 1].time;
    plan.(
      frames := frames,
      markers := KeepMarkers(plan.markers, lo, hi),
      gaps := ClampDeclaredGaps(plan.gaps, lo, hi),
      decodedBytes := DecodedSum(frames, |frames|),
      sourceIndices := Pick(plan.sourceIndices, indices))
  }

  /** Position of the first frame with an identifier, or the frame count. */
  function PositionOf(frames: seq<FrameMeta>, id: Id): (p: nat)
    ensures p <= |frames| && (p < |frames| ==> frames[p].id == id)
    ensures forall k :: 0 <= k < p ==> frames[k].id != id
  {
    if frames == [] then 0
    else if frames[0].id == id then 0
    else 1 + PositionOf(frames[1..], id)
  }

  predicate NatLe(a: nat, b: nat) {
    a <= b
  }

  /** Evenly spaced positions, the last replaceable one giving way to a required frame. */
  function BoundedIndices(plan: EpochPlan, maxFrames: nat, required: Option<Id>): seq<nat>
    requires 1 <= maxFrames < |plan.frames|
  {
    var indices := SelectIndices(|plan.frames|, maxFrames);
    if required.None? then indices
    else
      var index := PositionOf(plan.frames, required.value);
      if index == |plan.frames| || index in indices then indices
      else Sort(indices[(if maxFrames >= 3 then maxFrames - 2 else maxFrames - 1) := index], NatLe)
  }

  /** The candidate position with the largest index; both endpoints are kept from three frames up. */
  method ReplaceablePosition(indices: seq<nat>, maxFrames: nat, frameCount: nat) returns (replace: Option<nat>)
    requires 1 <= maxFrames < frameCount && indices == SelectIndices(frameCount, maxFrames)
    ensures replace == Some(if maxFrames >= 3 then maxFrames - 2 else maxFrames - 1)
  {
    SelectIndicesContract(frameCount, maxFrames);
    replace := None;
    var position := 0;
    while position < |indices|
      invariant 0 <= position <= |indices|
      invariant replace ==
        if maxFrames < 3 then (if position == 0 then None else Some(position - 1))
        else if position <= 1 then None
        else if position <= maxFrames - 1 then Some(position - 1)
        else Some(maxFrames - 2)
    {
      var candidate := indices[position];
      if maxFrames < 3 || (candidate != 0 && candidate != frameCount - 1) {
        if replace.None? || indices[replace.value] <= candidate {
          replace := Some(position);
        }
      }
      position := position + 1;
    }
  }

  /** Evenly spaced positions; a required frame overwrites the last replaceable one. */
  method ChooseIndices(plan: EpochPlan, maxFrames: nat, required: Option<Id>) returns (indices: seq<nat>)
    requires 1 <= maxFrames < |plan.frames|
    ensures indices == BoundedIndices(plan, maxFrames, required)
  {
    indices := SelectIndices(|plan.frames|, maxFrames);
    if required.Some? {
      var index := PositionOf(plan.frames, required.value);
      if index < |plan.frames| && index !in indices {
        var replace := ReplaceablePosition(indices, maxFrames, |plan.frames|);
        indices := indices[replace.value := index];
        indices := Sort(indices, NatLe);
      }
    }
  }

  method BoundedPlan(plan: EpochPlan, maxFrames: nat, required: Option<Id>) returns (r: Result<EpochPlan>)
    requires SoundPlan(plan) && maxFrames >= 1
    ensures |plan.frames| <= maxFrames ==> r == Ok(plan)
    ensures |plan.frames| > maxFrames ==>
      var indices := BoundedIndices(plan, maxFrames, required);
      && indices != [] && InRange(indices, |plan.frames|)
      && r == if Restrict(plan, indices).decodedBytes < U64_LIMIT then Ok(Restrict(plan, indices))
              else Err(ResourceLimitExceeded)
  {
    assert Provenance(plan);
    hide SoundPlan, BoundedIndices, DecodedSum, CheckedDecoded, ClampDeclaredGaps, KeepMarkers;
    if |plan.frames| <= maxFrames {
      return Ok(plan);
    }
    BoundedIndicesMeaning(plan, maxFrames, required);
    var indices := ChooseIndices(plan, maxFrames, required);
    var frames := Pick(plan.frames, indices);
    CheckedIsSum(frames, |frames|);
    var decoded := CheckedDecoded(frames, |frames|);
    if decoded.Err? {
      return Err(decoded.error);
    }
    r := Ok(Restrict(plan, indices));
  }

  lemma SortedReplacement(indices: seq<nat>, at: nat, index: nat)
    requires Increasing(indices) && at < |indices| && index !in indices
    ensures var r := Sort(indices[at := index], NatLe);
      && |r| == |indices| && Increasing(r)
      && forall x :: x in r <==> x == index || (x in indices && x != indices[at])
  {
    var swapped := indices[at := index];
    var r := Sort(swapped, NatLe);
    SortMembers(swapped, NatLe);
    SortSorted(swapped, NatLe);
    assert Distinct(swapped);
    SortDistinct(swapped, NatLe);
    forall i, j | 0 <= i < j < |r| ensures r[i] < r[j] { assert NatLe(r[i], r[j]); }
    forall x ensures x in swapped <==> x == index || (x in indices && x != indices[at]) {
      if x == index { assert swapped[at] == x; }
      if x in indices && x != indices[at] {
        var k :| 0 <= k < |indices| && indices[k] == x;
        assert swapped[k] == x;
      }
    }
  }

  lemma ReplacementMeaning(indices: seq<nat>, at: nat, index: nat, n: nat)
    requires Increasing(indices) && InRange(indices, n) && at < |indices| && index !in indices && index < n
    ensures var r := Sort(indices[at := index], NatLe);
      && |r| == |indices| && Increasing(r) && InRange(r, n) && index in r
      && (at == |indices| - 2 && at > 0 && indices[0] == 0 && indices[|indices| - 1] == n - 1 ==> r[0] == 0 && r[|r| - 1] == n - 1)
  {
    var r := Sort(indices[at := index], NatLe);
    SortedReplacement(indices, at, index);
    hide Sort, Increasing;
    forall k | 0 <= k < |r| ensures r[k] < n { assert r[k] in r; }
    if at == |indices| - 2 && at > 0 && indices[0] == 0 && indices[|indices| - 1] == n - 1 { EndpointsStay(indices, at, r, n); }
  }

  /** The selection keeps as many frames as allowed, in order, with the required one and the endpoints. */
  lemma BoundedIndicesMeaning(plan: EpochPlan, maxFrames: nat, required: Option<Id>)
    requires 1 <= maxFrames < |plan.frames|
    ensures var r, n := BoundedIndices(plan, maxFrames, required), |plan.frames|;
      && |r| == maxFrames && Increasing(r) && InRange(r, n)
      && (required.Some? && PositionOf(plan.frames, required.value) < n ==> PositionOf(plan.frames, required.value) in r)
      && (maxFrames >= 3 || (maxFrames == 2 && required.None?) ==> r[0] == 0 && r[maxFrames - 1] == n - 1)
  {
    var n := |plan.frames|;
    var indices := SelectIndices(n, maxFrames);
    SelectIndicesContract(n, maxFrames);
    if required.Some? {
      var index := PositionOf(plan.frames, required.value);
      if index < n && index !in indices {
        var at := if maxFrames >= 3 then maxFrames - 2 else maxFrames - 1;
        ReplacementMeaning(indices, at, index, n);
        hide Sort, SelectIndices;
      }
    }
  }

  /**
   * Both endpoints survive exactly when three frames are allowed, or two and no required frame
   * between them takes the last place: the first and last frame are not always kept.
   */
  lemma EndpointsKeptExactly(plan: EpochPlan, maxFrames: nat, required: Option<Id>)
    requires 1 <= maxFrames < |plan.frames|
    ensures var r, n := BoundedIndices(plan, maxFrames, required), |plan.frames|;
      0 in r && n - 1 in r <==>
        maxFrames >= 3 || (maxFrames == 2 && (required.None? || PositionOf(plan.frames, required.value) in {0, n - 1, n}))
  {
    var r, n := BoundedIndices(plan, maxFrames, required), |plan.frames|;
    var indices := SelectIndices(n, maxFrames);
    SelectIndicesContract(n, maxFrames);
    BoundedIndicesMeaning(plan, maxFrames, required);
    if maxFrames >= 3 {
      assert r[0] in r && r[maxFrames - 1] in r;
    } else if maxFrames == 2 {
      assert indices[0] == 0 && indices[1] == n - 1;
      assert forall x :: x in indices <==> x == 0 || x == n - 1;
      if required.Some? {
        var index := PositionOf(plan.frames, required.value);
        if index < n && index !in indices { SortedReplacement(indices, 1, index); }
      }
    } else {
      assert |r| == 1 && forall x :: x in r ==> x == r[0];
    }
  }

  lemma EndpointsStay(indices: seq<nat>, at: nat, r: seq<nat>, n: nat)
    requires Increasing(indices) && |indices| == |r| >= 3 && at == |indices| - 2
    requires indices[0] == 0 && indices[|indices| - 1] == n - 1
    requires Increasing(r) && InRange(r, n)
    requires forall x :: x in indices && x != indices[at] ==> x in r
    ensures r[0] == 0 && r[|r| - 1] == n - 1
  {
    assert indices[0] in indices && indices[0] != indices[at];
    assert indices[|indices| - 1] in indices && indices[|indices| - 1] != indices[at];
    var a :| 0 <= a < |r| && r[a] == 0;
    var b :| 0 <= b < |r| && r[b] == n - 1;
    BetweenEnds(r, a);
    BetweenEnds(r, b);
  }

  lemma BetweenEnds(r: seq<nat>, k: nat)
    requires Increasing(r) && k < |r|
    ensures r[0] <= r[k] <= r[|r| - 1]
  {
  }

  /**
   * A restricted plan is sound again: frames stay chronological, provenance still traces every
   * frame, and each gap is the plan's own gap clamped into the new span.
   */
  lemma RestrictIsSound(plan: EpochPlan, indices: seq<nat>)
    requires SoundPlan(plan) && indices != [] && Increasing(indices) && InRange(indices, |plan.frames|)
    ensures SoundPlan(Restrict(plan, indices))
    ensures var q := Restrict(plan, indices);
      var lo, hi := q.frames[0].time, q.frames[|q.frames| - 1].time;
      lo <= hi && q.gaps == Clamped(plan.gaps, lo, hi) && q.sourceFrameIds == plan.sourceFrameIds
  {
    var q := Restrict(plan, indices);
    var lo, hi := q.frames[0].time, q.frames[|q.frames| - 1].time;
    forall i, j | 0 <= i < j < |indices|
      ensures q.frames[i].time <= q.frames[j].time && q.sourceIndices[i] < q.sourceIndices[j]
    {
      assert indices[i] < indices[j];
    }
    ReclampKeepsOrder(plan.gaps, lo, hi);
  }

  /** Gap identity and missing-frame estimates survive every clamp, and ranges stay in the span. */
  lemma GapsSurvive(plan: EpochPlan, indices: seq<nat>, k: nat)
    requires SoundPlan(plan) && indices != [] && Increasing(indices) && InRange(indices, |plan.frames|)
    requires k < |plan.gaps|
    ensures var q := Restrict(plan, indices);
      && |q.gaps| == |plan.gaps|
      && q.gaps[k].id == plan.gaps[k].id && q.gaps[k].missing == plan.gaps[k].missing
      && q.gaps[k].reason == plan.gaps[k].reason
      && q.frames[0].time <= q.gaps[k].start <= q.gaps[k].end <= q.frames[|q.frames| - 1].time
  {
    RestrictIsSound(plan, indices);
    var q := Restrict(plan, indices);
    ClampRangeEndpoints(plan.gaps[k].start, plan.gaps[k].end, q.frames[0].time, q.frames[|q.frames| - 1].time);
  }

  /** Markers outside the new span are dropped and the others are kept in order. */
  lemma {:induction false} MarkersKept(markers: seq<Marker>, lo: nat, hi: nat, m: Marker)
    ensures multiset(KeepMarkers(markers, lo, hi))[m] == if lo <= m.time <= hi then multiset(markers)[m] else 0
  {
    if markers != [] {
      MarkersKept(markers[1..], lo, hi, m);
      assert markers == [markers[0]] + markers[1..];
    }
  }

  lemma {:induction false} KeptAtTime(markers: seq<Marker>, lo: nat, hi: nat, time: nat)
    ensures AtTime(KeepMarkers(markers, lo, hi), time) == if lo <= time <= hi then AtTime(markers, time) else []
  {
    if markers != [] {
      var rest := KeepMarkers(markers[1..], lo, hi);
      KeptAtTime(markers[1..], lo, hi, time);
      if lo <= markers[0].time <= hi {
        assert KeepMarkers(markers, lo, hi)[1..] == rest;
      } else {
        assert KeepMarkers(markers, lo, hi) == rest;
      }
    }
  }

  lemma {:induction false} KeptStayOrdered(markers: seq<Marker>, lo: nat, hi: nat)
    requires InTimeOrder(markers)
    ensures InTimeOrder(KeepMarkers(markers, lo, hi))
    ensures forall m :: m in KeepMarkers(markers, lo, hi) ==> m in markers
  {
    if markers != [] {
      var rest := KeepMarkers(markers[1..], lo, hi);
      KeptStayOrdered(markers[1..], lo, hi);
      forall j | 0 <= j < |rest| ensures markers[0].time <= rest[j].time {
        assert rest[j] in markers[1..];
      }
    }
  }

  /** Restriction keeps exactly the ordered markers inside the new span, in their order. */
  lemma KeptMarkersMeaning(markers: seq<Marker>, lo: nat, hi: nat)
    requires InTimeOrder(markers)
    ensures MarkersOf(KeepMarkers(markers, lo, hi), markers, lo, hi)
  {
    KeptStayOrdered(markers, lo, hi);
    hide InTimeOrder;
    forall time: nat
      ensures AtTime(KeepMarkers(markers, lo, hi), time) == if lo <= time <= hi then AtTime(markers, time) else []
    {
      KeptAtTime(markers, lo, hi, time);
    }
  }
}
