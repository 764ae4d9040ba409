/** Validating retained frames and planning every visual epoch of a range. */
module EpochPlanning {
  import opened Common
  import opened Sorting
  import opened EpochTypes
  import opened EpochPartition
  import opened EpochGaps
  import opened EpochBounded

  datatype ResolvedRange = ResolvedRange(
    scope: Id, start: nat, end: nat, frameIds: seq<Id>, gaps: seq<DeclaredGap>)

  datatype PlanLimits = PlanLimits(maxMarkers: nat, maxEncodedBytes: nat)

  predicate FrameFits(range: ResolvedRange, frames: seq<FrameMeta>, k: nat)
    requires k < |frames| && k < |range.frameIds|
  {
    && frames[k].id == range.frameIds[k]
    && frames[k].scope == range.scope
    && range.start <= frames[k].time <= range.end
    && (k > 0 ==> frames[k - 1].ordinal < frames[k].ordinal && frames[k - 1].time <= frames[k].time)
  }

  /** The frames are exactly the resolved ones, in scope, in order. */
  predicate ExactFrames(range: ResolvedRange, frames: seq<FrameMeta>) {
    |frames| == |range.frameIds| && forall k :: 0 <= k < |frames| ==> FrameFits(range, frames, k)
  }

  function EncodedSum(frames: seq<FrameMeta>, k: nat): nat
    requires k <= |frames|
  {
    if k == 0 then 0 else EncodedSum(frames, k - 1) + frames[k - 1].encodedLen
  }

  lemma {:induction false} EncodedMonotone(frames: seq<FrameMeta>, k: nat, l: nat)
    requires k <= l <= |frames|
    ensures EncodedSum(frames, k) <= EncodedSum(frames, l)
    decreases l
  {
    if k < l { EncodedMonotone(frames, k, l - 1); }
  }

  lemma {:induction false} ExactIsChronological(range: ResolvedRange, frames: seq<FrameMeta>, i: nat, j: nat)
    requires ExactFrames(range, frames) && i < j < |frames|
    ensures frames[i].time <= frames[j].time && frames[i].ordinal < frames[j].ordinal
    decreases j
  {
    assert FrameFits(range, frames, j);
    if i < j - 1 { ExactIsChronological(range, frames, i, j - 1); }
  }

  /** Checking neighbours checks every pair: the frames are the resolved ones, in scope, in range and in order. */
  lemma ExactFramesMeaning(range: ResolvedRange, frames: seq<FrameMeta>)
    ensures ExactFrames(range, frames) <==>
      && |frames| == |range.frameIds|
      && (forall k :: 0 <= k < |frames| ==>
            frames[k].id == range.frameIds[k] && frames[k].scope == range.scope && range.start <= frames[k].time <= range.end)
      && forall i, j :: 0 <= i < j < |frames| ==> frames[i].ordinal < frames[j].ordinal && frames[i].time <= frames[j].time
  {
    if ExactFrames(range, frames) {
      forall i, j | 0 <= i < j < |frames| ensures frames[i].ordinal < frames[j].ordinal && frames[i].time <= frames[j].time {
        ExactIsChronological(range, frames, i, j);
      }
      forall k | 0 <= k < |frames|
        ensures frames[k].id == range.frameIds[k] && frames[k].scope == range.scope && range.start <= frames[k].time <= range.end
      {
        assert FrameFits(range, frames, k);
      }
    } else if |frames| == |range.frameIds| {
      var k :| 0 <= k < |frames| && !FrameFits(range, frames, k);
      assert k > 0 ==> k - 1 < k;
    }
  }

  predicate MarkerLe(a: (nat, Marker), b: (nat, Marker)) {
    a.1.time < b.1.time || (a.1.time == b.1.time && a.0 <= b.0)
  }

  function Enumerated(markers: seq<Marker>, from: nat, lo: nat, hi: nat): seq<(nat, Marker)> {
    if markers == [] then []
    else (if lo <= markers[0].time <= hi then [(from, markers[0])] else []) + Enumerated(markers[1..], from + 1, lo, hi)
  }

  function MarkerOf(m: (nat, Marker)): Marker {
    m.1
  }

  function ClippedMarkers(markers: seq<Marker>, lo: nat, hi: nat): seq<Marker> {
    Map(MarkerOf, Sort(Enumerated(markers, 0, lo, hi), MarkerLe))
  }

  predicate After(placed: seq<(nat, Marker)>, from: nat) {
    forall k :: 0 <= k < |placed| ==> placed[k].0 >= from
  }

  predicate Rises(placed: seq<(nat, Marker)>) {
    forall i, j :: 0 <= i < j < |placed| ==> placed[i].0 < placed[j].0
  }

  lemma {:induction false} EnumeratedAfter(markers: seq<Marker>, from: nat, lo: nat, hi: nat)
    ensures After(Enumerated(markers, from, lo, hi), from)
  {
    if markers != [] { EnumeratedAfter(markers[1..], from + 1, lo, hi); }
  }

  lemma MarkerOrder()
    ensures TotalPreorder(MarkerLe)
  {
  }

  /** Inserting a marker that was placed before all others puts it first among those of its time. */
  lemma {:induction false} InsertAtTime(x: (nat, Marker), placed: seq<(nat, Marker)>, time: nat)
    requires After(placed, x.0)
    ensures AtTime(Map(MarkerOf, Insert(x, placed, MarkerLe)), time)
      == (if x.1.time == time then [x.1] else []) + AtTime(Map(MarkerOf, placed), time)
  {
    var r := Insert(x, placed, MarkerLe);
    if placed == [] || MarkerLe(x, placed[0]) {
      assert Map(MarkerOf, r)[1..] == Map(MarkerOf, placed);
    } else {
      InsertAtTime(x, placed[1..], time);
      assert Map(MarkerOf, r)[1..] == Map(MarkerOf, Insert(x, placed[1..], MarkerLe));
      assert Map(MarkerOf, placed)[1..] == Map(MarkerOf, placed[1..]);
    }
  }

  lemma {:induction false} SortedAtTime(placed: seq<(nat, Marker)>, time: nat)
    requires Rises(placed)
    ensures AtTime(Map(MarkerOf, Sort(placed, MarkerLe)), time) == AtTime(Map(MarkerOf, placed), time)
  {
    if placed != [] {
      var rest := Sort(placed[1..], MarkerLe);
      SortedAtTime(placed[1..], time);
      SortMembers(placed[1..], MarkerLe);
      forall k | 0 <= k < |rest| ensures rest[k].0 >= placed[0].0 { assert rest[k] in placed[1..]; }
      InsertAtTime(placed[0], rest, time);
      assert Map(MarkerOf, placed)[1..] == Map(MarkerOf, placed[1..]);
    }
  }

  lemma {:induction false} EnumeratedRises(markers: seq<Marker>, from: nat, lo: nat, hi: nat)
    ensures Rises(Enumerated(markers, from, lo, hi))
  {
    if markers != [] {
      var rest := Enumerated(markers[1..], from + 1, lo, hi);
      EnumeratedRises(markers[1..], from + 1, lo, hi);
      EnumeratedAfter(markers[1..], from + 1, lo, hi);
      if lo <= markers[0].time <= hi {
        assert Enumerated(markers, from, lo, hi) == [(from, markers[0])] + rest;
        RisesFrom((from, markers[0]), rest);
      } else {
        assert Enumerated(markers, from, lo, hi) == rest;
      }
    }
  }

  lemma RisesFrom(x: (nat, Marker), rest: seq<(nat, Marker)>)
    requires After(rest, x.0 + 1) && Rises(rest)
    ensures Rises([x] + rest)
  {
    var all := [x] + rest;
    forall i, j | 0 <= i < j < |all| ensures all[i].0 < all[j].0 {
      assert all[j] == rest[j - 1];
      if i > 0 { assert all[i] == rest[i - 1]; }
    }
  }

  lemma {:induction false} EnumeratedAtTime(markers: seq<Marker>, from: nat, lo: nat, hi: nat, time: nat)
    ensures AtTime(Map(MarkerOf, Enumerated(markers, from, lo, hi)), time) == if lo <= time <= hi then AtTime(markers, time) else []
  {
    if markers != [] {
      var rest := Enumerated(markers[1..], from + 1, lo, hi);
      EnumeratedAtTime(markers[1..], from + 1, lo, hi, time);
      AtTimeFirst(from, markers[0], rest, time);
      hide Map;
      if lo <= markers[0].time <= hi {
        assert Enumerated(markers, from, lo, hi) == [(from, markers[0])] + rest;
      } else {
        assert Enumerated(markers, from, lo, hi) == rest;
      }
    }
  }

  lemma AtTimeFirst(from: nat, m: Marker, rest: seq<(nat, Marker)>, time: nat)
    ensures AtTime(Map(MarkerOf, [(from, m)] + rest), time) == (if m.time == time then [m] else []) + AtTime(Map(MarkerOf, rest), time)
  {
    assert Map(MarkerOf, [(from, m)] + rest)[1..] == Map(MarkerOf, rest);
  }

  /** What an epoch carries of the request's markers. */
  lemma ClippedMarkersMeaning(markers: seq<Marker>, lo: nat, hi: nat)
    ensures MarkersOf(ClippedMarkers(markers, lo, hi), markers, lo, hi)
  {
    var placed := Enumerated(markers, 0, lo, hi);
    var sorted := Sort(placed, MarkerLe);
    MarkerOrder();
    SortSorted(placed, MarkerLe);
    hide Sort, Enumerated, AtTime;
    forall i, j | 0 <= i < j < |sorted| ensures Map(MarkerOf, sorted)[i].time <= Map(MarkerOf, sorted)[j].time {
      assert MarkerLe(sorted[i], sorted[j]);
    }
    forall time: nat
      ensures AtTime(ClippedMarkers(markers, lo, hi), time) == if lo <= time <= hi then AtTime(markers, time) else []
    {
      EnumeratedAtTime(markers, 0, lo, hi, time);
      EnumeratedRises(markers, 0, lo, hi);
      SortedAtTime(placed, time);
    }
  }

  function FrameId(f: FrameMeta): Id {
    f.id
  }

  function PlanEpoch(range: ResolvedRange, frames: seq<FrameMeta>, markers: seq<Marker>, index: nat, owned: seq<nat>): EpochPlan
    requires frames != [] && forall p :: p in owned ==> p < |range.gaps|
  {
    var lo, hi := frames[0].time, frames[|frames| - 1].time;
    EpochPlan(index, frames, ClippedMarkers(markers, lo, hi), ClippedGaps(range.gaps, owned, lo, hi),
              DecodedSum(frames, |frames|), Map(FrameId, frames), Positions(|frames|))
  }

  lemma PlanEpochIsSound(range: ResolvedRange, frames: seq<FrameMeta>, markers: seq<Marker>, index: nat, owned: seq<nat>)
    requires frames != [] && Chronological(frames) && Proper(range.gaps)
    requires forall p :: p in owned ==> p < |range.gaps|
    ensures SoundPlan(PlanEpoch(range, frames, markers, index, owned))
    ensures var plan := PlanEpoch(range, frames, markers, index, owned);
      multiset(plan.gaps) == multiset(OwnedClamped(range.gaps, owned, frames[0].time, frames[|frames| - 1].time))
  {
    hide Sort, ClippedGaps, ClippedMarkers;
    ClippedGapsMeaning(range.gaps, owned, frames[0].time, frames[|frames| - 1].time);
  }

  /** The plans of a range: one per geometry run, each with exactly the gaps it owns. */
  ghost predicate Planned(
    range: ResolvedRange, frames: seq<FrameMeta>, markers: seq<Marker>,
    spans: seq<Span>, owners: seq<seq<nat>>, plans: seq<EpochPlan>)
  {
    && Partition(frames, spans)
    && |owners| == |plans| == |spans| > 0
    && (forall e :: 0 <= e < |plans| ==> OwnedBy(Bounds(frames, spans), range.gaps, |range.gaps|, e, owners[e]))
    && forall e :: 0 <= e < |plans| ==> PlannedAt(range, frames, markers, spans, owners, plans, e)
  }

  ghost predicate PlannedAt(
    range: ResolvedRange, frames: seq<FrameMeta>, markers: seq<Marker>,
    spans: seq<Span>, owners: seq<seq<nat>>, plans: seq<EpochPlan>, e: nat)
    requires e < |plans| && e < |spans| && e < |owners|
  {
    && spans[e].start < spans[e].end <= |frames|
    && (forall p :: p in owners[e] ==> p < |range.gaps|)
    && plans[e] == PlanEpoch(range, frames[spans[e].start..spans[e].end], markers, e, owners[e])
  }

  /**
   * What a plan is: it is numbered by its position, holds the frames of its span with their positions
   * and identifiers, decodes to their sum, and carries exactly the request's markers inside its span,
   * in time order, equal times in the order of the request.
   */
  ghost predicate PlanMeans(frames: seq<FrameMeta>, markers: seq<Marker>, span: Span, e: nat, plan: EpochPlan) {
    span.start < span.end <= |frames| &&
    var own := frames[span.start..span.end];
    && plan.index == e && plan.frames == own && plan.decodedBytes == DecodedSum(own, |own|)
    && |plan.sourceFrameIds| == |plan.sourceIndices| == |own|
    && (forall k :: 0 <= k < |own| ==> plan.sourceFrameIds[k] == own[k].id && plan.sourceIndices[k] == k)
    && MarkersOf(plan.markers, markers, own[0].time, own[|own| - 1].time)
  }

  lemma PlannedEpochMeaning(
    range: ResolvedRange, frames: seq<FrameMeta>, markers: seq<Marker>,
    spans: seq<Span>, owners: seq<seq<nat>>, plans: seq<EpochPlan>, e: nat)
    requires Planned(range, frames, markers, spans, owners, plans) && e < |plans|
    ensures PlanMeans(frames, markers, spans[e], e, plans[e])
  {
    assert PlannedAt(range, frames, markers, spans, owners, plans, e);
    hide Planned, PlanEpoch;
    PlanEpochMeans(range, frames, markers, spans[e], e, owners[e]);
  }

  lemma PlanEpochMeans(range: ResolvedRange, frames: seq<FrameMeta>, markers: seq<Marker>, span: Span, e: nat, owned: seq<nat>)
    requires span.start < span.end <= |frames| && forall p :: p in owned ==> p < |range.gaps|
    ensures PlanMeans(frames, markers, span, e, PlanEpoch(range, frames[span.start..span.end], markers, e, owned))
  {
    hide ClippedMarkers, ClippedGaps, DecodedSum, MarkersOf;
    var own := frames[span.start..span.end];
    ClippedMarkersMeaning(markers, own[0].time, own[|own| - 1].time);
  }

  const MAX_EPOCHS: nat := 0x1_0000_0000

  /** Every epoch decodes to a representable number of bytes, and every epoch index is representable. */
  predicate Affordable(frames: seq<FrameMeta>, spans: seq<Span>) {
    |spans| <= MAX_EPOCHS && forall e :: 0 <= e < |spans| ==> EpochFits(frames, spans[e])
  }

  predicate EpochFits(frames: seq<FrameMeta>, span: Span) {
    span.start < span.end <= |frames| && DecodedSum(frames[span.start..span.end], span.end - span.start) < U64_LIMIT
  }

  method PlanSpans(
    range: ResolvedRange, frames: seq<FrameMeta>, markers: seq<Marker>, spans: seq<Span>, owners: seq<seq<nat>>)
    returns (r: Result<seq<EpochPlan>>)
    requires Partition(frames, spans) && |owners| == |spans| > 0
    requires forall e :: 0 <= e < |spans| ==> OwnedBy(Bounds(frames, spans), range.gaps, |range.gaps|, e, owners[e])
    ensures r.Ok? <==> Affordable(frames, spans)
    ensures r.Ok? ==> Planned(range, frames, markers, spans, owners, r.value)
    ensures r.Err? ==> r.error == ResourceLimitExceeded
  {
    hide OwnedBy, Owns, PlanEpoch, DecodedSum, CheckedDecoded;
    var plans: seq<EpochPlan> := [];
    var e := 0;
    while e < |spans|
      invariant 0 <= e <= |spans| && |plans| == e
      invariant e <= MAX_EPOCHS && forall d :: 0 <= d < e ==> EpochFits(frames, spans[d])
      invariant forall d :: 0 <= d < e ==> PlannedAt(range, frames, markers, spans, owners, plans, d)
    {
      assert Uniform(frames, spans[e]);
      OwnedInRange(Bounds(frames, spans), range.gaps, e, owners[e]);
      var epochFrames := frames[spans[e].start..spans[e].end];
      CheckedIsSum(epochFrames, |epochFrames|);
      if CheckedDecoded(epochFrames, |epochFrames|).Err? || e >= MAX_EPOCHS {
        return Err(ResourceLimitExceeded);
      }
      ghost var before := plans;
      plans := plans + [PlanEpoch(range, epochFrames, markers, e, owners[e])];
      forall d | 0 <= d < e ensures PlannedAt(range, frames, markers, spans, owners, plans, d) {
        assert PlannedAt(range, frames, markers, spans, owners, before, d);
      }
      e := e + 1;
    }
    r := Ok(plans);
  }

  lemma OwnedInRange(bounds: seq<Bound>, gaps: seq<DeclaredGap>, e: nat, owned: seq<nat>)
    requires OwnedBy(bounds, gaps, |gaps|, e, owned)
    ensures forall p :: p in owned ==> p < |gaps|
  {
  }

  /** What a range, its frames and markers must satisfy for its epochs to be planned. */
  ghost predicate Plannable(range: ResolvedRange, frames: seq<FrameMeta>, markers: seq<Marker>, limits: PlanLimits) {
    && frames != [] && ExactFrames(range, frames)
    && |markers| <= limits.maxMarkers
    && EncodedSum(frames, |frames|) < U64_LIMIT && EncodedSum(frames, |frames|) <= limits.maxEncodedBytes
    && forall spans :: Partition(frames, spans) ==> Affordable(frames, spans)
  }

  /** A frame too large to decode makes its epoch unaffordable. */
  lemma HugeFrame(frames: seq<FrameMeta>, spans: seq<Span>, position: nat)
    requires Partition(frames, spans) && position < |frames| && DecodedLen(frames[position]).Err?
    ensures !Affordable(frames, spans)
  {
    var e := SpanOf(frames, spans, position, |spans|);
    assert Uniform(frames, spans[e]);
    var own := frames[spans[e].start..spans[e].end];
    assert own[position - spans[e].start] == frames[position];
    FrameWithinSum(own, |own|, position - spans[e].start);
    assert !EpochFits(frames, spans[e]);
  }

  /** Epochs are planned exactly when the range, frames, markers and sizes allow it. */
  method ValidateAndPlan(range: ResolvedRange, frames: seq<FrameMeta>, markers: seq<Marker>, limits: PlanLimits)
    returns (r: Result<seq<EpochPlan>>, ghost spans: seq<Span>, ghost owners: seq<seq<nat>>)
    requires Proper(range.gaps)
    ensures r.Ok? <==> Plannable(range, frames, markers, limits)
    ensures r.Ok? ==> Planned(range, frames, markers, spans, owners, r.value)
    ensures r.Ok? ==> forall e: nat :: e < |r.value| ==> PlanMeans(frames, markers, spans[e], e, r.value[e])
    ensures frames == [] || |frames| != |range.frameIds| ==> r == Err(ArtifactGenerationFailed)
    ensures r.Err? && frames != [] && ExactFrames(range, frames) ==> r.error == ResourceLimitExceeded
  {
    spans, owners := [], [];
    if |frames| != |range.frameIds| || frames == [] {
      return Err(ArtifactGenerationFailed), [], [];
    }
    if |markers| > limits.maxMarkers {
      return Err(ResourceLimitExceeded), [], [];
    }
    var encoded := CheckEncoded(frames);
    if encoded.Err? || encoded.value > limits.maxEncodedBytes {
      return Err(ResourceLimitExceeded), [], [];
    }
    ghost var partition := PartitionExists(frames);
    var position := 0;
    while position < |frames|
      invariant 0 <= position <= |frames|
      invariant forall k :: 0 <= k < position ==> FrameFits(range, frames, k)
    {
      if !FrameFits(range, frames, position) {
        return Err(ArtifactGenerationFailed), [], [];
      }
      if DecodedLen(frames[position]).Err? {
        HugeFrame(frames, partition, position);
        return Err(ResourceLimitExceeded), [], [];
      }
      position := position + 1;
    }
    r, spans, owners := PlanExact(range, frames, markers);
    if r.Ok? {
      hide PlanMeans;
      forall e: nat | e < |r.value| ensures PlanMeans(frames, markers, spans[e], e, r.value[e]) {
        PlannedEpochMeaning(range, frames, markers, spans, owners, r.value, e);
      }
    }
  }

  /** Planning once the frames are known to be the resolved ones. */
  method PlanExact(range: ResolvedRange, frames: seq<FrameMeta>, markers: seq<Marker>)
    returns (r: Result<seq<EpochPlan>>, ghost spans: seq<Span>, ghost owners: seq<seq<nat>>)
    requires Proper(range.gaps) && frames != [] && ExactFrames(range, frames)
    ensures r.Ok? <==> forall spans :: Partition(frames, spans) ==> Affordable(frames, spans)
    ensures r.Ok? ==> Planned(range, frames, markers, spans, owners, r.value)
    ensures r.Err? ==> r.error == ResourceLimitExceeded
  {
    ChronologicalFrames(range, frames);
    var partition := PartitionFrames(frames);
    spans := partition;
    var bounds := Bounds(frames, partition);
    forall e | 0 <= e < |bounds| ensures bounds[e].start <= bounds[e].end { BoundsOrdered(frames, partition, e, e); }
    var ownership := AssignGapOwners(bounds, range.gaps);
    owners := ownership;
    r := PlanSpans(range, frames, markers, partition, ownership);
    forall other | Partition(frames, other) ensures other == partition { PartitionUnique(frames, other, partition); }
  }

  lemma ChronologicalFrames(range: ResolvedRange, frames: seq<FrameMeta>)
    requires ExactFrames(range, frames)
    ensures Chronological(frames)
  {
    forall i, j | 0 <= i < j < |frames| ensures frames[i].time <= frames[j].time {
      ExactIsChronological(range, frames, i, j);
    }
  }

  method CheckEncoded(frames: seq<FrameMeta>) returns (r: Result<nat>)
    ensures r == if EncodedSum(frames, |frames|) < U64_LIMIT then Ok(EncodedSum(frames, |frames|)) else Err(ResourceLimitExceeded)
  {
    var total: nat := 0;
    var k := 0;
    while k < |frames|
      invariant 0 <= k <= |frames| && total == EncodedSum(frames, k) < U64_LIMIT
    {
      EncodedMonotone(frames, k + 1, |frames|);
      if total + frames[k].encodedLen >= U64_LIMIT {
        return Err(ResourceLimitExceeded);
      }
      total := total + frames[k].encodedLen;
      k := k + 1;
    }
    r := Ok(total);
  }

  /** Each declared gap reaches exactly one plan, clamped, with its identity and estimate. */
  lemma GapReachesOneEpoch(
    range: ResolvedRange, frames: seq<FrameMeta>, markers: seq<Marker>,
    spans: seq<Span>, owners: seq<seq<nat>>, plans: seq<EpochPlan>, g: nat)
    returns (e: nat)
    requires Proper(range.gaps) && Chronological(frames) && g < |range.gaps|
    requires Planned(range, frames, markers, spans, owners, plans)
    ensures e < |plans| && Owns(Bounds(frames, spans), range.gaps[g].start, range.gaps[g].end, e)
    ensures plans[e].frames != []
    ensures ClampGap(range.gaps[g], plans[e].frames[0].time, plans[e].frames[|plans[e].frames| - 1].time) in plans[e].gaps
    ensures forall d :: 0 <= d < |plans| && g in owners[d] ==> d == e
  {
    var bounds := Bounds(frames, spans);
    e := ExactlyOneOwner(bounds, range.gaps, owners, g);
    assert PlannedAt(range, frames, markers, spans, owners, plans, e);
    assert plans[e].frames == frames[spans[e].start..spans[e].end];
    assert Chronological(plans[e].frames);
    hide PlanEpoch, Planned, Owns, OwnedBy, ClampGap, Partition, Bounds, Proper, Chronological;
    OwnedGapIsKept(range, frames[spans[e].start..spans[e].end], markers, e, owners[e], g);
  }

  lemma OwnedGapIsKept(
    range: ResolvedRange, frames: seq<FrameMeta>, markers: seq<Marker>, index: nat, owned: seq<nat>, g: nat)
    requires frames != [] && Chronological(frames) && Proper(range.gaps)
    requires (forall p :: p in owned ==> p < |range.gaps|) && g in owned
    ensures ClampGap(range.gaps[g], frames[0].time, frames[|frames| - 1].time)
      in PlanEpoch(range, frames, markers, index, owned).gaps
  {
    var lo, hi := frames[0].time, frames[|frames| - 1].time;
    var plan := PlanEpoch(range, frames, markers, index, owned);
    PlanEpochIsSound(range, frames, markers, index, owned);
    var k :| 0 <= k < |owned| && owned[k] == g;
    assert OwnedClamped(range.gaps, owned, lo, hi)[k] == ClampGap(range.gaps[g], lo, hi);
    SameMembers(plan.gaps, OwnedClamped(range.gaps, owned, lo, hi), ClampGap(range.gaps[g], lo, hi));
  }
}
