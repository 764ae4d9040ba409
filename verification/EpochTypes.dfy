/** Frames, gaps and plans of visual epochs. */
module EpochTypes {
  import opened Common

  /**
   * Retained frame metadata. Scope stands for session and target together; geometry stands for
   * image size, viewport and device scale together.
   */
  datatype FrameMeta = FrameMeta(
    id: Id, scope: Id, ordinal: nat, time: nat, geometry: Id, width: nat, height: nat, encodedLen: nat)

  /** A declared capture gap, in a resolved range or clamped into an epoch. */
  datatype DeclaredGap = DeclaredGap(id: Id, start: nat, end: nat, reason: nat, missing: Option<nat>)

  datatype Marker = Marker(id: Id, time: nat)

  /** First and last frame time of an epoch. */
  datatype Bound = Bound(start: nat, end: nat)

  /** Half-open index range of an epoch's frames. */
  datatype Span = Span(start: nat, end: nat)

  datatype EpochPlan = EpochPlan(
    index: nat,
    frames: seq<FrameMeta>,
    markers: seq<Marker>,
    gaps: seq<DeclaredGap>,
    decodedBytes: nat,
    sourceFrameIds: seq<Id>,
    sourceIndices: seq<nat>)

  predicate Chronological(frames: seq<FrameMeta>) {
    forall i, j :: 0 <= i < j < |frames| ==> frames[i].time <= frames[j].time
  }

  /** Decoded size of one frame: four bytes a pixel, or an error when that overflows. */
  function DecodedLen(frame: FrameMeta): Result<nat> {
    var bytes := frame.width * frame.height * 4;
    if bytes < U64_LIMIT then Ok(bytes) else Err(ResourceLimitExceeded)
  }

  function DecodedSum(frames: seq<FrameMeta>, k: nat): nat
    requires k <= |frames|
  {
    if k == 0 then 0 else DecodedSum(frames, k - 1) + frames[k - 1].width * frames[k - 1].height * 4
  }

  /** Summing decoded sizes with overflow checks. */
  function CheckedDecoded(frames: seq<FrameMeta>, k: nat): Result<nat>
    requires k <= |frames|
  {
    if k == 0 then Ok(0)
    else
      var before := CheckedDecoded(frames, k - 1);
      var len := DecodedLen(frames[k - 1]);
      if before.Err? then before
      else if len.Err? then len
      else if before.value + len.value >= U64_LIMIT then Err(ResourceLimitExceeded)
      else Ok(before.value + len.value)
  }

  lemma {:induction false} CheckedIsSum(frames: seq<FrameMeta>, k: nat)
    requires k <= |frames|
    ensures CheckedDecoded(frames, k) ==
      if DecodedSum(frames, k) < U64_LIMIT then Ok(DecodedSum(frames, k)) else Err(ResourceLimitExceeded)
  {
    if k > 0 {
      CheckedIsSum(frames, k - 1);
      assert frames[k - 1].width * frames[k - 1].height >= 0;
    }
  }

  lemma {:induction false} FrameWithinSum(frames: seq<FrameMeta>, k: nat, i: nat)
    requires i < k <= |frames|
    ensures frames[i].width * frames[i].height * 4 <= DecodedSum(frames, k)
  {
    assert frames[k - 1].width * frames[k - 1].height >= 0;
    if i < k - 1 { FrameWithinSum(frames, k - 1, i); }
  }

  /** The markers at one time, in the order given. */
  function AtTime(markers: seq<Marker>, time: nat): seq<Marker> {
    if markers == [] then [] else (if markers[0].time == time then [markers[0]] else []) + AtTime(markers[1..], time)
  }

  /** Markers in time order; those of equal time stand in the order of the request. */
  ghost predicate InTimeOrder(markers: seq<Marker>) {
    forall i, j :: 0 <= i < j < |markers| ==> markers[i].time <= markers[j].time
  }

  /** Exactly the markers of an inclusive span, in time order, with equal times in their given order. */
  ghost predicate MarkersOf(selected: seq<Marker>, markers: seq<Marker>, lo: nat, hi: nat) {
    && InTimeOrder(selected)
    && forall time: nat :: AtTime(selected, time) == if lo <= time <= hi then AtTime(markers, time) else []
  }

  /** A marker occurs among those of its time exactly as often as in the whole list. */
  lemma {:induction false} AtTimeCounts(markers: seq<Marker>, m: Marker)
    ensures multiset(AtTime(markers, m.time))[m] == multiset(markers)[m]
  {
    if markers != [] {
      AtTimeCounts(markers[1..], m);
      assert markers == [markers[0]] + markers[1..];
    }
  }

  /** Selecting by time keeps every marker inside the span as often as it was given, and no other. */
  lemma SelectedCounts(selected: seq<Marker>, markers: seq<Marker>, lo: nat, hi: nat, m: Marker)
    requires MarkersOf(selected, markers, lo, hi)
    ensures multiset(selected)[m] == if lo <= m.time <= hi then multiset(markers)[m] else 0
  {
    AtTimeCounts(selected, m);
    AtTimeCounts(markers, m);
    hide AtTime;
  }
}
