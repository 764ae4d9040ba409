/** Which epoch owns a gap, which epoch an anchor selects, and how gaps are clamped. */
module EpochGaps {
  import opened Common
  import opened Sorting
  import opened EpochTypes

  /** Distance from a gap to an epoch; zero when they touch. */
  function DistanceToSpan(gapStart: nat, gapEnd: nat, b: Bound): nat {
    if gapEnd < b.start then b.start - gapEnd
    else if gapStart > b.end then gapStart - b.end
    else 0
  }

  function Apart(x: nat, y: nat): nat {
    if x <= y then y - x else x - y
  }

  /** The distance of a gap from an epoch is the least distance between an instant of one and an instant of the other. */
  lemma DistanceIsLeast(gapStart: nat, gapEnd: nat, b: Bound)
    requires gapStart <= gapEnd && b.start <= b.end
    ensures exists x, y ::
      gapStart <= x <= gapEnd && b.start <= y <= b.end && Apart(x, y) == DistanceToSpan(gapStart, gapEnd, b)
    ensures forall x, y ::
      gapStart <= x <= gapEnd && b.start <= y <= b.end ==> Apart(x, y) >= DistanceToSpan(gapStart, gapEnd, b)
  {
    if gapEnd < b.start {
      assert Apart(gapEnd, b.start) == DistanceToSpan(gapStart, gapEnd, b);
    } else if gapStart > b.end {
      assert Apart(gapStart, b.end) == DistanceToSpan(gapStart, gapEnd, b);
    } else {
      assert Apart(Max(gapStart, b.start), Max(gapStart, b.start)) == DistanceToSpan(gapStart, gapEnd, b);
    }
  }

  predicate Overlaps(gapStart: nat, gapEnd: nat, b: Bound) {
    gapStart <= b.end && gapEnd >= b.start
  }

  /** Epoch e minimizes (distance, index). */
  predicate Owns(bounds: seq<Bound>, gapStart: nat, gapEnd: nat, e: nat) {
    OwnsAmong(bounds, |bounds|, gapStart, gapEnd, e)
  }

  predicate OwnsAmong(bounds: seq<Bound>, k: nat, gapStart: nat, gapEnd: nat, e: nat)
    requires k <= |bounds|
  {
    e < k && forall d :: 0 <= d < k ==> NoFarther(bounds, gapStart, gapEnd, e, d)
  }

  predicate NoFarther(bounds: seq<Bound>, gapStart: nat, gapEnd: nat, e: nat, d: nat)
    requires e < |bounds| && d < |bounds|
  {
    var here, there := DistanceToSpan(gapStart, gapEnd, bounds[e]), DistanceToSpan(gapStart, gapEnd, bounds[d]);
    here < there || (here == there && e <= d)
  }

  lemma OwnerUnique(bounds: seq<Bound>, gapStart: nat, gapEnd: nat, d: nat, e: nat)
    requires Owns(bounds, gapStart, gapEnd, d) && Owns(bounds, gapStart, gapEnd, e)
    ensures d == e
  {
    assert NoFarther(bounds, gapStart, gapEnd, d, e) && NoFarther(bounds, gapStart, gapEnd, e, d);
  }

  /** One more epoch takes over only when it is strictly nearer. */
  lemma OwnsNext(bounds: seq<Bound>, k: nat, gapStart: nat, gapEnd: nat, e: nat)
    requires 0 < k < |bounds| && OwnsAmong(bounds, k, gapStart, gapEnd, e)
    ensures OwnsAmong(bounds, k + 1, gapStart, gapEnd,
      if DistanceToSpan(gapStart, gapEnd, bounds[k]) < DistanceToSpan(gapStart, gapEnd, bounds[e]) then k else e)
  {
    var next := if DistanceToSpan(gapStart, gapEnd, bounds[k]) < DistanceToSpan(gapStart, gapEnd, bounds[e]) then k else e;
    forall d | 0 <= d < k + 1 ensures NoFarther(bounds, gapStart, gapEnd, next, d) {
      assert d < k ==> NoFarther(bounds, gapStart, gapEnd, e, d);
    }
  }

  lemma {:induction false} OwnerExists(bounds: seq<Bound>, k: nat, gapStart: nat, gapEnd: nat) returns (e: nat)
    requires 0 < k <= |bounds|
    ensures OwnsAmong(bounds, k, gapStart, gapEnd, e)
  {
    if k == 1 {
      e := 0;
    } else {
      e := OwnerExists(bounds, k - 1, gapStart, gapEnd);
      OwnsNext(bounds, k - 1, gapStart, gapEnd, e);
      if DistanceToSpan(gapStart, gapEnd, bounds[k - 1]) < DistanceToSpan(gapStart, gapEnd, bounds[e]) { e := k - 1; }
    }
  }

  /** The first overlapping epoch, else the nearest: either way the (distance, index) minimum. */
  method FindOwner(bounds: seq<Bound>, gapStart: nat, gapEnd: nat) returns (owner: nat)
    requires bounds != [] && gapStart <= gapEnd
    requires forall e :: 0 <= e < |bounds| ==> bounds[e].start <= bounds[e].end
    ensures Owns(bounds, gapStart, gapEnd, owner)
  {
    var index := 0;
    while index < |bounds|
      invariant 0 <= index <= |bounds|
      invariant forall d :: 0 <= d < index ==> !Overlaps(gapStart, gapEnd, bounds[d])
    {
      if gapStart <= bounds[index].end && gapEnd >= bounds[index].start {
        return index;
      }
      index := index + 1;
    }
    owner := 0;
    index := 1;
    while index < |bounds|
      invariant 1 <= index <= |bounds|
      invariant OwnsAmong(bounds, index, gapStart, gapEnd, owner)
    {
      OwnsNext(bounds, index, gapStart, gapEnd, owner);
      if DistanceToSpan(gapStart, gapEnd, bounds[index]) < DistanceToSpan(gapStart, gapEnd, bounds[owner]) {
        owner := index;
      }
      index := index + 1;
    }
  }

  /** The gap positions, in order, that epoch e owns among the first k gaps. */
  ghost predicate OwnedBy(bounds: seq<Bound>, gaps: seq<DeclaredGap>, k: nat, e: nat, owned: seq<nat>)
    requires k <= |gaps|
  {
    && (forall i, j :: 0 <= i < j < |owned| ==> owned[i] < owned[j])
    && forall g: nat :: g in owned <==> g < k && Owns(bounds, gaps[g].start, gaps[g].end, e)
  }

  /** Every gap of the range is assigned to exactly one epoch, in range order. */
  method AssignGapOwners(bounds: seq<Bound>, gaps: seq<DeclaredGap>) returns (owners: seq<seq<nat>>)
    requires bounds != []
    requires forall e :: 0 <= e < |bounds| ==> bounds[e].start <= bounds[e].end
    requires forall g :: 0 <= g < |gaps| ==> gaps[g].start <= gaps[g].end
    ensures |owners| == |bounds|
    ensures forall e :: 0 <= e < |owners| ==> OwnedBy(bounds, gaps, |gaps|, e, owners[e])
  {
    owners := seq(|bounds|, _ => []);
    var k := 0;
    while k < |gaps|
      invariant 0 <= k <= |gaps| && |owners| == |bounds|
      invariant forall e :: 0 <= e < |owners| ==> OwnedBy(bounds, gaps, k, e, owners[e])
    {
      var owner := FindOwner(bounds, gaps[k].start, gaps[k].end);
      ghost var before := owners;
      owners := owners[owner := owners[owner] + [k]];
      forall e | 0 <= e < |owners| ensures OwnedBy(bounds, gaps, k + 1, e, owners[e]) {
        OwnOneMore(bounds, gaps, k, e, owner, before[e], owners[e]);
      }
      k := k + 1;
    }
  }

  lemma OwnOneMore(
    bounds: seq<Bound>, gaps: seq<DeclaredGap>, k: nat, e: nat, owner: nat, before: seq<nat>, after: seq<nat>)
    requires k < |gaps| && OwnedBy(bounds, gaps, k, e, before)
    requires Owns(bounds, gaps[k].start, gaps[k].end, owner)
    requires after == if e == owner then before + [k] else before
    ensures OwnedBy(bounds, gaps, k + 1, e, after)
  {
    forall i | 0 <= i < |before| ensures before[i] < k { assert before[i] in before; }
    forall g: nat ensures g in after <==> g < k + 1 && Owns(bounds, gaps[g].start, gaps[g].end, e) {
      if g == k && Owns(bounds, gaps[k].start, gaps[k].end, e) { OwnerUnique(bounds, gaps[k].start, gaps[k].end, e, owner); }
    }
  }

  /** Ownership is total and exclusive: every gap lands in one epoch's list. */
  lemma ExactlyOneOwner(bounds: seq<Bound>, gaps: seq<DeclaredGap>, owners: seq<seq<nat>>, g: nat) returns (e: nat)
    requires bounds != [] && |owners| == |bounds| && g < |gaps|
    requires forall d :: 0 <= d < |owners| ==> OwnedBy(bounds, gaps, |gaps|, d, owners[d])
    ensures e < |owners| && g in owners[e] && Owns(bounds, gaps[g].start, gaps[g].end, e)
    ensures forall d :: 0 <= d < |owners| && g in owners[d] ==> d == e
  {
    e := OwnerExists(bounds, |bounds|, gaps[g].start, gaps[g].end);
    forall d | 0 <= d < |owners| && g in owners[d] ensures d == e {
      OwnerUnique(bounds, gaps[g].start, gaps[g].end, d, e);
    }
  }

  /** First and last frame time of every plan. */
  function PlanBounds(plans: seq<EpochPlan>): (r: seq<Bound>)
    requires forall e :: 0 <= e < |plans| ==> plans[e].frames != []
    ensures |r| == |plans|
  {
    seq(|plans|, e requires 0 <= e < |plans| =>
      Bound(plans[e].frames[0].time, plans[e].frames[|plans[e].frames| - 1].time))
  }

  /** Planned epochs: numbered in order, non-empty and chronological. */
  predicate Numbered(plans: seq<EpochPlan>) {
    forall e :: 0 <= e < |plans| ==>
      plans[e].index == e && plans[e].frames != [] && plans[e].frames[0].time <= plans[e].frames[|plans[e].frames| - 1].time
  }

  /** An anchor selects the one epoch that would own a point gap at the anchor; without one all stay. */
  method SelectEpochPlans(plans: seq<EpochPlan>, anchor: Option<nat>) returns (r: Result<seq<EpochPlan>>)
    requires Numbered(plans)
    ensures anchor.None? ==> r == Ok(plans)
    ensures anchor.Some? && plans == [] ==> r == Err(ArtifactGenerationFailed)
    ensures anchor.Some? && plans != [] ==>
      exists e: nat :: e < |plans| && Owns(PlanBounds(plans), anchor.value, anchor.value, e) && r == Ok([plans[e]])
  {
    if anchor.None? {
      return Ok(plans);
    }
    if plans == [] {
      return Err(ArtifactGenerationFailed);
    }
    var bounds := PlanBounds(plans);
    var selected: nat := 0;
    var index := 1;
    while index < |plans|
      invariant 1 <= index <= |plans|
      invariant OwnsAmong(bounds, index, anchor.value, anchor.value, selected)
    {
      OwnsNext(bounds, index, anchor.value, anchor.value, selected);
      var here := AnchorKey(bounds[index], anchor.value);
      var best := AnchorKey(bounds[selected], anchor.value);
      if here < best || (here == best && plans[index].index < plans[selected].index) {
        selected := index;
      }
      index := index + 1;
    }
    r := Ok([plans[selected]]);
  }

  /** Distance from an anchor to an epoch: saturating on the far side. */
  function AnchorKey(b: Bound, anchor: nat): nat {
    if anchor < b.start then b.start - anchor else Max(0, anchor - b.end)
  }

  // Clamping

  function Clamp(x: nat, lo: nat, hi: nat): nat
    requires lo <= hi
  {
    if x < lo then lo else if x > hi then hi else x
  }

  function ClampRange(start: nat, end: nat, lo: nat, hi: nat): (nat, nat) {
    if end < lo then (lo, lo)
    else if start > hi then (hi, hi)
    else (Max(start, lo), Min(end, hi))
  }

  /** Clamping a range clamps its endpoints, so a clamped range is a range inside the bounds. */
  lemma ClampRangeEndpoints(start: nat, end: nat, lo: nat, hi: nat)
    requires start <= end && lo <= hi
    ensures ClampRange(start, end, lo, hi) == (Clamp(start, lo, hi), Clamp(end, lo, hi))
    ensures lo <= ClampRange(start, end, lo, hi).0 <= ClampRange(start, end, lo, hi).1 <= hi
  {
  }

  /** Clamping to an epoch and then to a span inside it is clamping to the span. */
  lemma ClampRangeComposes(start: nat, end: nat, lo: nat, hi: nat, inLo: nat, inHi: nat)
    requires start <= end && lo <= inLo <= inHi <= hi
    ensures var once := ClampRange(start, end, lo, hi);
      ClampRange(once.0, once.1, inLo, inHi) == ClampRange(start, end, inLo, inHi)
  {
  }

  function ClampGap(g: DeclaredGap, lo: nat, hi: nat): DeclaredGap {
    var r := ClampRange(g.start, g.end, lo, hi);
    g.(start := r.0, end := r.1)
  }

  /** A clamped gap with the position it had before sorting. */
  datatype Placed = Placed(position: nat, gap: DeclaredGap)

  predicate PlacedLe(a: Placed, b: Placed) {
    a.gap.start < b.gap.start || (a.gap.start == b.gap.start && a.position <= b.position)
  }

  function ClampAll(gaps: seq<DeclaredGap>, positions: seq<nat>, lo: nat, hi: nat): (r: seq<Placed>)
    requires forall p :: p in positions ==> p < |gaps|
    ensures |r| == |positions|
  {
    seq(|positions|, k requires 0 <= k < |positions| =>
      assert positions[k] in positions;
      Placed(positions[k], ClampGap(gaps[positions[k]], lo, hi)))
  }

  function GapOf(p: Placed): DeclaredGap {
    p.gap
  }

  /** Gaps of an epoch: the owned gaps clamped into it, by start and then declaration order. */
  function ClippedGaps(gaps: seq<DeclaredGap>, owned: seq<nat>, lo: nat, hi: nat): seq<DeclaredGap>
    requires forall p :: p in owned ==> p < |gaps|
  {
    Map(GapOf, Sort(ClampAll(gaps, owned, lo, hi), PlacedLe))
  }

  function Positions(n: nat): (r: seq<nat>)
    ensures |r| == n && forall k :: 0 <= k < n ==> r[k] == k
  {
    seq(n, k => k)
  }

  /** Gaps of a plan clamped into a narrower span and sorted again. */
  function ClampDeclaredGaps(gaps: seq<DeclaredGap>, lo: nat, hi: nat): seq<DeclaredGap> {
    ClippedGaps(gaps, Positions(|gaps|), lo, hi)
  }

  predicate ByStart(gaps: seq<DeclaredGap>) {
    forall i, j :: 0 <= i < j < |gaps| ==> gaps[i].start <= gaps[j].start
  }

  predicate Proper(gaps: seq<DeclaredGap>) {
    forall i :: 0 <= i < |gaps| ==> gaps[i].start <= gaps[i].end
  }

  function Clamped(gaps: seq<DeclaredGap>, lo: nat, hi: nat): (r: seq<DeclaredGap>)
    ensures |r| == |gaps|
  {
    seq(|gaps|, k requires 0 <= k < |gaps| => ClampGap(gaps[k], lo, hi))
  }

  lemma {:induction false} TotalPlaced(a: seq<Placed>)
    requires forall i, j :: 0 <= i < j < |a| ==> PlacedLe(a[i], a[j])
    requires forall i, j :: 0 <= i < j < |a| ==> a[i].position < a[j].position
    ensures Sort(a, PlacedLe) == a
  {
    if a != [] {
      TotalPlaced(a[1..]);
      if |a| > 1 { assert PlacedLe(a[0], a[1]); }
      assert a == [a[0]] + a[1..];
    }
  }

  /** Gaps already in start order stay in place: the second sort changes nothing. */
  lemma ReclampKeepsOrder(gaps: seq<DeclaredGap>, lo: nat, hi: nat)
    requires ByStart(gaps) && Proper(gaps) && lo <= hi
    ensures ClampDeclaredGaps(gaps, lo, hi) == Clamped(gaps, lo, hi)
    ensures ByStart(Clamped(gaps, lo, hi)) && Proper(Clamped(gaps, lo, hi))
  {
    var placed := ClampAll(gaps, Positions(|gaps|), lo, hi);
    forall k | 0 <= k < |gaps| ensures placed[k] == Placed(k, Clamped(gaps, lo, hi)[k]) {}
    forall i, j | 0 <= i < j < |gaps| ensures placed[i].gap.start <= placed[j].gap.start {
      ClampRangeEndpoints(gaps[i].start, gaps[i].end, lo, hi);
      ClampRangeEndpoints(gaps[j].start, gaps[j].end, lo, hi);
    }
    forall i | 0 <= i < |gaps| ensures Clamped(gaps, lo, hi)[i].start <= Clamped(gaps, lo, hi)[i].end {
      ClampRangeEndpoints(gaps[i].start, gaps[i].end, lo, hi);
    }
    TotalPlaced(placed);
    assert Map(GapOf, placed) == Clamped(gaps, lo, hi);
  }

  /** The owned gaps clamped in place, before any sorting. */
  function OwnedClamped(gaps: seq<DeclaredGap>, owned: seq<nat>, lo: nat, hi: nat): (r: seq<DeclaredGap>)
    requires forall p :: p in owned ==> p < |gaps|
    ensures |r| == |owned|
  {
    seq(|owned|, k requires 0 <= k < |owned| => assert owned[k] in owned; ClampGap(gaps[owned[k]], lo, hi))
  }

  /** An epoch carries exactly its owned gaps, clamped and ordered by start; nothing else changes. */
  lemma ClippedGapsMeaning(gaps: seq<DeclaredGap>, owned: seq<nat>, lo: nat, hi: nat)
    requires forall p :: p in owned ==> p < |gaps|
    requires Proper(gaps) && lo <= hi
    ensures multiset(ClippedGaps(gaps, owned, lo, hi)) == multiset(OwnedClamped(gaps, owned, lo, hi))
    ensures ByStart(ClippedGaps(gaps, owned, lo, hi)) && Proper(ClippedGaps(gaps, owned, lo, hi))
    ensures forall g :: g in ClippedGaps(gaps, owned, lo, hi) ==> lo <= g.start <= g.end <= hi
  {
    var placed := ClampAll(gaps, owned, lo, hi);
    var sorted := Sort(placed, PlacedLe);
    SortPermutes(placed, PlacedLe);
    SortSorted(placed, PlacedLe);
    MapPermutes(GapOf, sorted, placed);
    assert Map(GapOf, placed) == OwnedClamped(gaps, owned, lo, hi);
    var out := ClippedGaps(gaps, owned, lo, hi);
    forall i, j | 0 <= i < j < |out| ensures out[i].start <= out[j].start { assert PlacedLe(sorted[i], sorted[j]); }
    forall g | g in out ensures lo <= g.start <= g.end <= hi {
      SameMembers(out, OwnedClamped(gaps, owned, lo, hi), g);
      var k :| 0 <= k < |owned| && OwnedClamped(gaps, owned, lo, hi)[k] == g;
      assert owned[k] in owned;
      ClampRangeEndpoints(gaps[owned[k]].start, gaps[owned[k]].end, lo, hi);
    }
    forall i | 0 <= i < |out| ensures out[i].start <= out[i].end { assert out[i] in out; }
  }

  /** Clamping into the epoch and then into a bounded span keeps the gaps a direct clamp would give. */
  lemma ReclampKeepsGaps(gaps: seq<DeclaredGap>, owned: seq<nat>, lo: nat, hi: nat, inLo: nat, inHi: nat)
    requires forall p :: p in owned ==> p < |gaps|
    requires Proper(gaps) && lo <= inLo <= inHi <= hi
    ensures multiset(ClampDeclaredGaps(ClippedGaps(gaps, owned, lo, hi), inLo, inHi))
         == multiset(ClippedGaps(gaps, owned, inLo, inHi))
  {
    var epoch := ClippedGaps(gaps, owned, lo, hi);
    var f := (g: DeclaredGap) => ClampGap(g, inLo, inHi);
    ClippedGapsMeaning(gaps, owned, lo, hi);
    ClippedGapsMeaning(gaps, owned, inLo, inHi);
    ReclampKeepsOrder(epoch, inLo, inHi);
    assert Clamped(epoch, inLo, inHi) == Map(f, epoch);
    MapPermutes(f, epoch, OwnedClamped(gaps, owned, lo, hi));
    forall k | 0 <= k < |owned|
      ensures Map(f, OwnedClamped(gaps, owned, lo, hi))[k] == OwnedClamped(gaps, owned, inLo, inHi)[k]
    {
      assert owned[k] in owned;
      ClampRangeComposes(gaps[owned[k]].start, gaps[owned[k]].end, lo, hi, inLo, inHi);
    }
    assert Map(f, OwnedClamped(gaps, owned, lo, hi)) == OwnedClamped(gaps, owned, inLo, inHi);
  }

  predicate Rising(owned: seq<nat>, n: nat) {
    && (forall i, j :: 0 <= i < j < |owned| ==> owned[i] < owned[j])
    && forall p :: p in owned ==> p < n
  }

  /**
   * Gap j starts before gap i although i was declared first, and the narrower span makes their starts
   * equal: the epoch keeps j in front, while declaration order would put i in front.
   */
  predicate Swapped(gaps: seq<DeclaredGap>, i: nat, j: nat, lo: nat, hi: nat, inLo: nat, inHi: nat)
    requires i < |gaps| && j < |gaps| && lo <= hi && inLo <= inHi
  {
    && Clamp(gaps[i].start, lo, hi) > Clamp(gaps[j].start, lo, hi)
    && Clamp(gaps[i].start, inLo, inHi) == Clamp(gaps[j].start, inLo, inHi)
  }

  ghost predicate SomeSwapped(gaps: seq<DeclaredGap>, owned: seq<nat>, lo: nat, hi: nat, inLo: nat, inHi: nat)
    requires Rising(owned, |gaps|) && lo <= hi && inLo <= inHi
  {
    exists a, b :: 0 <= a < b < |owned| && SwappedAt(gaps, owned, a, b, lo, hi, inLo, inHi)
  }

  predicate SwappedAt(gaps: seq<DeclaredGap>, owned: seq<nat>, a: nat, b: nat, lo: nat, hi: nat, inLo: nat, inHi: nat)
    requires Rising(owned, |gaps|) && a < |owned| && b < |owned| && lo <= hi && inLo <= inHi
  {
    assert owned[a] in owned && owned[b] in owned;
    Swapped(gaps, owned[a], owned[b], lo, hi, inLo, inHi)
  }

  /** A placed gap clamped again, in its place. */
  function Narrow(lo: nat, hi: nat): Placed -> Placed {
    (p: Placed) => Placed(p.position, ClampGap(p.gap, lo, hi))
  }

  lemma {:induction false} InsertMaps(x: Placed, xs: seq<Placed>, f: Placed -> Placed)
    requires forall k :: 0 <= k < |xs| ==> (PlacedLe(x, xs[k]) <==> PlacedLe(f(x), f(xs[k])))
    ensures Map(f, Insert(x, xs, PlacedLe)) == Insert(f(x), Map(f, xs), PlacedLe)
  {
    if xs != [] {
      assert Map(f, xs)[1..] == Map(f, xs[1..]);
      if !PlacedLe(x, xs[0]) { InsertMaps(x, xs[1..], f); }
    }
  }

  /** A map that keeps the order between each element and the later ones commutes with sorting. */
  lemma {:induction false} SortMaps(xs: seq<Placed>, f: Placed -> Placed)
    requires forall i, j :: 0 <= i < j < |xs| ==> (PlacedLe(xs[i], xs[j]) <==> PlacedLe(f(xs[i]), f(xs[j])))
    ensures Map(f, Sort(xs, PlacedLe)) == Sort(Map(f, xs), PlacedLe)
  {
    if xs != [] {
      var rest := Sort(xs[1..], PlacedLe);
      SortMaps(xs[1..], f);
      SortMembers(xs[1..], PlacedLe);
      forall k | 0 <= k < |rest| ensures PlacedLe(xs[0], rest[k]) <==> PlacedLe(f(xs[0]), f(rest[k])) {
        assert rest[k] in rest;
        var j :| 0 <= j < |xs[1..]| && xs[1..][j] == rest[k];
        assert xs[j + 1] == rest[k];
      }
      InsertMaps(xs[0], rest, f);
      assert Map(f, xs)[1..] == Map(f, xs[1..]);
    }
  }

  /** What clamping twice gives, as one list of placed gaps. */
  lemma ReclampIsNarrowed(gaps: seq<DeclaredGap>, owned: seq<nat>, lo: nat, hi: nat, inLo: nat, inHi: nat)
    requires Rising(owned, |gaps|) && Proper(gaps) && lo <= inLo <= inHi <= hi
    ensures ClampDeclaredGaps(ClippedGaps(gaps, owned, lo, hi), inLo, inHi)
         == Map(GapOf, Map(Narrow(inLo, inHi), Sort(ClampAll(gaps, owned, lo, hi), PlacedLe)))
  {
    var epoch := ClippedGaps(gaps, owned, lo, hi);
    ClippedGapsMeaning(gaps, owned, lo, hi);
    ReclampKeepsOrder(epoch, inLo, inHi);
    var placed := Sort(ClampAll(gaps, owned, lo, hi), PlacedLe);
    assert epoch == Map(GapOf, placed);
    hide Sort, ClampAll, ClippedGaps, ClampDeclaredGaps;
    assert Clamped(epoch, inLo, inHi) == Map(GapOf, Map(Narrow(inLo, inHi), placed));
  }

  lemma NarrowedAll(gaps: seq<DeclaredGap>, owned: seq<nat>, lo: nat, hi: nat, inLo: nat, inHi: nat)
    requires Rising(owned, |gaps|) && Proper(gaps) && lo <= inLo <= inHi <= hi
    ensures Map(Narrow(inLo, inHi), ClampAll(gaps, owned, lo, hi)) == ClampAll(gaps, owned, inLo, inHi)
  {
    forall k | 0 <= k < |owned|
      ensures Map(Narrow(inLo, inHi), ClampAll(gaps, owned, lo, hi))[k] == ClampAll(gaps, owned, inLo, inHi)[k]
    {
      assert owned[k] in owned;
      ClampRangeComposes(gaps[owned[k]].start, gaps[owned[k]].end, lo, hi, inLo, inHi);
    }
  }

  lemma PlacedStart(gaps: seq<DeclaredGap>, owned: seq<nat>, k: nat, lo: nat, hi: nat)
    requires Rising(owned, |gaps|) && Proper(gaps) && k < |owned| && lo <= hi
    ensures owned[k] < |gaps| && ClampAll(gaps, owned, lo, hi)[k].position == owned[k]
    ensures ClampAll(gaps, owned, lo, hi)[k].gap.start == Clamp(gaps[owned[k]].start, lo, hi)
    ensures ClampAll(gaps, owned, lo, hi)[k].gap.id == gaps[owned[k]].id
  {
    assert owned[k] in owned;
    ClampRangeEndpoints(gaps[owned[k]].start, gaps[owned[k]].end, lo, hi);
  }

  /** Unless two gaps are swapped, clamping twice gives the very list that clamping once gives. */
  lemma ReclampInOrder(gaps: seq<DeclaredGap>, owned: seq<nat>, lo: nat, hi: nat, inLo: nat, inHi: nat)
    requires Rising(owned, |gaps|) && Proper(gaps) && lo <= inLo <= inHi <= hi
    requires !SomeSwapped(gaps, owned, lo, hi, inLo, inHi)
    ensures ClampDeclaredGaps(ClippedGaps(gaps, owned, lo, hi), inLo, inHi) == ClippedGaps(gaps, owned, inLo, inHi)
  {
    var xs, f := ClampAll(gaps, owned, lo, hi), Narrow(inLo, inHi);
    ReclampIsNarrowed(gaps, owned, lo, hi, inLo, inHi);
    NarrowedAll(gaps, owned, lo, hi, inLo, inHi);
    forall i, j | 0 <= i < j < |xs| ensures PlacedLe(xs[i], xs[j]) <==> PlacedLe(f(xs[i]), f(xs[j])) {
      assert f(xs[i]) == Map(f, xs)[i] && f(xs[j]) == Map(f, xs)[j];
      assert !SwappedAt(gaps, owned, i, j, lo, hi, inLo, inHi);
      UnswappedPair(gaps, owned, i, j, lo, hi, inLo, inHi);
    }
    hide Sort, ClampAll, PlacedLe;
    SortMaps(xs, f);
  }

  lemma UnswappedPair(gaps: seq<DeclaredGap>, owned: seq<nat>, i: nat, j: nat, lo: nat, hi: nat, inLo: nat, inHi: nat)
    requires Rising(owned, |gaps|) && Proper(gaps) && lo <= inLo <= inHi <= hi
    requires i < j < |owned| && !SwappedAt(gaps, owned, i, j, lo, hi, inLo, inHi)
    ensures PlacedLe(ClampAll(gaps, owned, lo, hi)[i], ClampAll(gaps, owned, lo, hi)[j])
      <==> PlacedLe(ClampAll(gaps, owned, inLo, inHi)[i], ClampAll(gaps, owned, inLo, inHi)[j])
  {
    PlacedStart(gaps, owned, i, lo, hi);
    PlacedStart(gaps, owned, j, lo, hi);
    PlacedStart(gaps, owned, i, inLo, inHi);
    PlacedStart(gaps, owned, j, inLo, inHi);
    hide ClampAll;
  }

  /** Gaps declared in start order, as the store returns them, are never swapped. */
  lemma DeclaredOrderIsKept(gaps: seq<DeclaredGap>, owned: seq<nat>, lo: nat, hi: nat, inLo: nat, inHi: nat)
    requires Rising(owned, |gaps|) && Proper(gaps) && ByStart(gaps) && lo <= inLo <= inHi <= hi
    ensures ClampDeclaredGaps(ClippedGaps(gaps, owned, lo, hi), inLo, inHi) == ClippedGaps(gaps, owned, inLo, inHi)
  {
    forall a, b | 0 <= a < b < |owned| ensures !SwappedAt(gaps, owned, a, b, lo, hi, inLo, inHi) {
      assert owned[a] in owned && owned[b] in owned;
      assert gaps[owned[a]].start <= gaps[owned[b]].start;
    }
    ReclampInOrder(gaps, owned, lo, hi, inLo, inHi);
  }

  predicate DistinctIds(gaps: seq<DeclaredGap>) {
    forall i, j :: 0 <= i < j < |gaps| ==> gaps[i].id != gaps[j].id
  }

  /** The one position at which an identifier stands in a list. */
  lemma WhereIs(gaps: seq<DeclaredGap>, owned: seq<nat>, k: nat, lo: nat, hi: nat) returns (at: nat)
    requires Rising(owned, |gaps|) && k < |owned|
    ensures at < |Sort(ClampAll(gaps, owned, lo, hi), PlacedLe)|
    ensures Sort(ClampAll(gaps, owned, lo, hi), PlacedLe)[at] == ClampAll(gaps, owned, lo, hi)[k]
  {
    var xs := ClampAll(gaps, owned, lo, hi);
    SortMembers(xs, PlacedLe);
    assert xs[k] in xs;
    at :| 0 <= at < |Sort(xs, PlacedLe)| && Sort(xs, PlacedLe)[at] == xs[k];
  }

  lemma SortedGap(gaps: seq<DeclaredGap>, owned: seq<nat>, lo: nat, hi: nat, at: nat)
    returns (k: nat)
    requires Rising(owned, |gaps|) && at < |Sort(ClampAll(gaps, owned, lo, hi), PlacedLe)|
    ensures k < |owned| && Sort(ClampAll(gaps, owned, lo, hi), PlacedLe)[at] == ClampAll(gaps, owned, lo, hi)[k]
  {
    var xs := ClampAll(gaps, owned, lo, hi);
    SortMembers(xs, PlacedLe);
    assert Sort(xs, PlacedLe)[at] in xs;
    k :| 0 <= k < |xs| && xs[k] == Sort(xs, PlacedLe)[at];
  }

  /** An identifier stands at one position of the sorted list. */
  lemma OnePlace(gaps: seq<DeclaredGap>, owned: seq<nat>, a: nat, lo: nat, hi: nat, at: nat, other: nat)
    requires Rising(owned, |gaps|) && Proper(gaps) && DistinctIds(gaps) && a < |owned| && lo <= hi
    requires var sorted := Sort(ClampAll(gaps, owned, lo, hi), PlacedLe);
      at < |sorted| && other < |sorted| && sorted[at] == ClampAll(gaps, owned, lo, hi)[a]
      && sorted[other].gap.id == sorted[at].gap.id
    ensures other == at
  {
    var xs := ClampAll(gaps, owned, lo, hi);
    var k := SortedGap(gaps, owned, lo, hi, other);
    PlacedStart(gaps, owned, k, lo, hi);
    PlacedStart(gaps, owned, a, lo, hi);
    assert k == a;
    forall i, j | 0 <= i < j < |xs| ensures xs[i] != xs[j] {
      PlacedStart(gaps, owned, i, lo, hi);
      PlacedStart(gaps, owned, j, lo, hi);
    }
    SortDistinct(xs, PlacedLe);
  }

  lemma PlacedTotal()
    ensures TotalPreorder(PlacedLe)
  {
  }

  /** In a sorted list an element that is not at or below another stands after it. */
  lemma StandsBefore(xs: seq<Placed>, at: nat, other: nat)
    requires at < |Sort(xs, PlacedLe)| && other < |Sort(xs, PlacedLe)|
    requires !PlacedLe(Sort(xs, PlacedLe)[other], Sort(xs, PlacedLe)[at])
    ensures at < other
  {
    PlacedTotal();
    SortSorted(xs, PlacedLe);
    var sorted := Sort(xs, PlacedLe);
    hide Sort;
    assert Sorted(sorted, PlacedLe);
  }

  /** A swapped pair stands in one order after two clamps and in the other after one. */
  lemma SwappedDiffers(gaps: seq<DeclaredGap>, owned: seq<nat>, a: nat, b: nat, lo: nat, hi: nat, inLo: nat, inHi: nat)
    requires Rising(owned, |gaps|) && Proper(gaps) && DistinctIds(gaps) && lo <= inLo <= inHi <= hi
    requires a < b < |owned| && SwappedAt(gaps, owned, a, b, lo, hi, inLo, inHi)
    ensures ClampDeclaredGaps(ClippedGaps(gaps, owned, lo, hi), inLo, inHi) != ClippedGaps(gaps, owned, inLo, inHi)
  {
    var twice, once := Sort(ClampAll(gaps, owned, lo, hi), PlacedLe), Sort(ClampAll(gaps, owned, inLo, inHi), PlacedLe);
    ReclampIsNarrowed(gaps, owned, lo, hi, inLo, inHi);
    var twiceA := WhereIs(gaps, owned, a, lo, hi);
    var twiceB := WhereIs(gaps, owned, b, lo, hi);
    var onceA := WhereIs(gaps, owned, a, inLo, inHi);
    var onceB := WhereIs(gaps, owned, b, inLo, inHi);
    PlacedStart(gaps, owned, a, lo, hi);
    PlacedStart(gaps, owned, b, lo, hi);
    PlacedStart(gaps, owned, a, inLo, inHi);
    PlacedStart(gaps, owned, b, inLo, inHi);
    StandsBefore(ClampAll(gaps, owned, lo, hi), twiceB, twiceA);
    StandsBefore(ClampAll(gaps, owned, inLo, inHi), onceA, onceB);
    var left, right := ClampDeclaredGaps(ClippedGaps(gaps, owned, lo, hi), inLo, inHi), ClippedGaps(gaps, owned, inLo, inHi);
    assert right == Map(GapOf, once);
    assert left[twiceA].id == gaps[owned[a]].id && left[twiceB].id == gaps[owned[b]].id;
    hide Sort, ClampAll, ClippedGaps, ClampDeclaredGaps, SwappedAt, PlacedLe;
    if left == right {
      assert once[twiceA].gap == left[twiceA] && once[twiceB].gap == left[twiceB];
      OnePlace(gaps, owned, a, inLo, inHi, onceA, twiceA);
      OnePlace(gaps, owned, b, inLo, inHi, onceB, twiceB);
    }
  }

  /** Clamping twice gives the list that clamping once gives exactly when no two owned gaps are swapped. */
  lemma ReclampIsDirect(gaps: seq<DeclaredGap>, owned: seq<nat>, lo: nat, hi: nat, inLo: nat, inHi: nat)
    requires Rising(owned, |gaps|) && Proper(gaps) && DistinctIds(gaps) && lo <= inLo <= inHi <= hi
    ensures ClampDeclaredGaps(ClippedGaps(gaps, owned, lo, hi), inLo, inHi) == ClippedGaps(gaps, owned, inLo, inHi)
      <==> !SomeSwapped(gaps, owned, lo, hi, inLo, inHi)
  {
    if a, b :| 0 <= a < b < |owned| && SwappedAt(gaps, owned, a, b, lo, hi, inLo, inHi) {
      SwappedDiffers(gaps, owned, a, b, lo, hi, inLo, inHi);
    } else {
      ReclampInOrder(gaps, owned, lo, hi, inLo, inHi);
    }
  }

  /** Two gaps declared against their start order, whose order depends on how often they are clamped. */
  lemma SwappedPair() returns (gaps: seq<DeclaredGap>)
    ensures Proper(gaps) && DistinctIds(gaps) && Rising([0, 1], |gaps|)
    ensures ClampDeclaredGaps(ClippedGaps(gaps, [0, 1], 0, 20), 10, 20) != ClippedGaps(gaps, [0, 1], 10, 20)
  {
    gaps := [DeclaredGap(1, 8, 12, 0, None), DeclaredGap(2, 5, 12, 0, None)];
    assert SwappedAt(gaps, [0, 1], 0, 1, 0, 20, 10, 20);
    SwappedDiffers(gaps, [0, 1], 0, 1, 0, 20, 10, 20);
  }
}
