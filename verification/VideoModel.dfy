/** Laying drafts end to end, and stretching them for the model policy. */
module VideoModel {
  import opened Common
  import opened Sorting
  import opened VideoTypes
  import opened VideoRealTime
  import opened VideoFacts

  predicate ValidSource(source: Source) {
    match source
    case SourceFrame(id, _) => id != NIL
    case GapSlate(ids, start, end) => ValidSlate(ids, start, end)
  }

  /** Presentation time at which draft k starts. */
  function Elapsed(ds: seq<Draft>, k: nat): nat
    requires k <= |ds|
  {
    if k == 0 then 0 else Elapsed(ds, k - 1) + ds[k - 1].duration
  }

  lemma {:induction false} ElapsedMonotone(ds: seq<Draft>, k: nat, l: nat)
    requires k <= l <= |ds|
    ensures Elapsed(ds, k) <= Elapsed(ds, l)
    decreases l
  {
    if k < l { ElapsedMonotone(ds, k, l - 1); }
  }

  lemma {:induction false} ElapsedPrefix(ds: seq<Draft>, es: seq<Draft>, k: nat)
    requires k <= |ds| && k <= |es| && ds[..k] == es[..k]
    ensures Elapsed(ds, k) == Elapsed(es, k)
  {
    if k > 0 {
      assert ds[..k - 1] == ds[..k][..k - 1] && es[..k - 1] == es[..k][..k - 1];
      assert ds[k - 1] == ds[..k][k - 1] && es[k - 1] == es[..k][k - 1];
      ElapsedPrefix(ds, es, k - 1);
    }
  }

  lemma {:induction false} ElapsedIsTotal(ds: seq<Draft>)
    ensures Elapsed(ds, |ds|) == Total(ds)
    decreases |ds|
  {
    if ds != [] {
      var front := ds[..|ds| - 1];
      ElapsedIsTotal(front);
      ElapsedPrefix(ds, front, |front|);
    }
  }

  predicate Presentable(ds: seq<Draft>) {
    forall k :: 0 <= k < |ds| ==> ds[k].duration > 0 && ValidSource(ds[k].source)
  }

  /** Segments present the drafts in order, contiguously from zero, under indices 0, 1, 2, ... */
  predicate LaidOut(ds: seq<Draft>, segments: seq<Segment>) {
    && |segments| == |ds|
    && forall k :: 0 <= k < |ds| ==>
         segments[k] == Segment(k, ds[k].source, Elapsed(ds, k), Elapsed(ds, k + 1), ds[k].basis)
  }

  /** The first k drafts are laid out. */
  predicate LaidFirst(ds: seq<Draft>, segments: seq<Segment>, k: nat) {
    && |segments| == k <= |ds|
    && forall m :: 0 <= m < k ==>
         segments[m] == Segment(m, ds[m].source, Elapsed(ds, m), Elapsed(ds, m + 1), ds[m].basis)
  }

  method FinishSegments(drafts: seq<Draft>) returns (r: Result<seq<Segment>>)
    ensures r.Ok? <==>
      |drafts| <= MAX_VIDEO_PRESENTATION_SEGMENTS && Total(drafts) <= MAX_PRESENTATION_NANOS && Presentable(drafts)
    ensures r.Ok? ==> LaidOut(drafts, r.value)
    ensures r.Err? && Presentable(drafts) ==> r.error == ResourceLimitExceeded
    ensures r.Err? && |drafts| > MAX_VIDEO_PRESENTATION_SEGMENTS ==> r.error == ResourceLimitExceeded
  {
    ElapsedIsTotal(drafts);
    if |drafts| > MAX_VIDEO_PRESENTATION_SEGMENTS {
      return Err(ResourceLimitExceeded);
    }
    var cursor: nat := 0;
    var segments: seq<Segment> := [];
    var k := 0;
    while k < |drafts|
      invariant 0 <= k <= |drafts|
      invariant cursor == Elapsed(drafts, k) <= MAX_PRESENTATION_NANOS
      invariant Presentable(drafts[..k]) && LaidFirst(drafts, segments, k)
    {
      var draft := drafts[k];
      var end := cursor + draft.duration;
      ElapsedMonotone(drafts, k + 1, |drafts|);
      if end >= U64_LIMIT || end > MAX_PRESENTATION_NANOS {
        return Err(ResourceLimitExceeded);
      }
      if cursor >= end || !ValidSource(draft.source) {
        return Err(InvalidInput);
      }
      assert drafts[..k + 1] == drafts[..k] + [draft];
      segments := segments + [Segment(k, draft.source, cursor, end, draft.basis)];
      cursor := end;
      k := k + 1;
    }
    assert drafts[..k] == drafts;
    r := Ok(segments);
  }

  // The model policy

  predicate Holds(d: Draft, id: Id) {
    d.source.SourceFrame? && d.source.id == id
  }

  /** Presentation time of a frame among the first k drafts. */
  function FrameTime(ds: seq<Draft>, id: Id, k: nat): nat
    requires k <= |ds|
  {
    if k == 0 then 0 else FrameTime(ds, id, k - 1) + if Holds(ds[k - 1], id) then ds[k - 1].duration else 0
  }

  predicate FirstHold(ds: seq<Draft>, id: Id, k: nat) {
    k < |ds| && Holds(ds[k], id) && forall m :: 0 <= m < k ==> !Holds(ds[m], id)
  }

  predicate Shown(ds: seq<Draft>, id: Id) {
    exists k :: 0 <= k < |ds| && Holds(ds[k], id)
  }

  function StretchSlate(d: Draft): Draft {
    if d.source.GapSlate? && d.duration < MODEL_GAP_HOLD_NANOS then
      d.(duration := MODEL_GAP_HOLD_NANOS, basis := ModelGapHold)
    else d
  }

  /** What the model policy makes of draft k. */
  function Stretch(ds: seq<Draft>, meaningful: seq<Id>, k: nat): Draft
    requires k < |ds|
  {
    var d := ds[k];
    if d.source.GapSlate? then StretchSlate(d)
    else
      var total := FrameTime(ds, d.source.id, |ds|);
      if d.source.id in meaningful && FirstHold(ds, d.source.id, k) && total < MODEL_MEANINGFUL_HOLD_NANOS then
        d.(duration := d.duration + (MODEL_MEANINGFUL_HOLD_NANOS - total), basis := ModelMeaningfulHold)
      else d
  }

  function Stretches(ds: seq<Draft>, meaningful: seq<Id>): (r: seq<Draft>)
    ensures |r| == |ds|
  {
    seq(|ds|, k requires 0 <= k < |ds| => Stretch(ds, meaningful, k))
  }

  lemma {:induction false} FrameTimeAgree(ds: seq<Draft>, es: seq<Draft>, id: Id, k: nat)
    requires k <= |ds| && k <= |es|
    requires forall m :: 0 <= m < k ==> Holds(ds[m], id) == Holds(es[m], id)
    requires forall m :: 0 <= m < k && Holds(ds[m], id) ==> ds[m].duration == es[m].duration
    ensures FrameTime(ds, id, k) == FrameTime(es, id, k)
  {
    if k > 0 { FrameTimeAgree(ds, es, id, k - 1); }
  }

  lemma {:induction false} FrameTimeAbsent(ds: seq<Draft>, id: Id, k: nat)
    requires k <= |ds| && forall m :: 0 <= m < k ==> !Holds(ds[m], id)
    ensures FrameTime(ds, id, k) == 0
  {
    if k > 0 { FrameTimeAbsent(ds, id, k - 1); }
  }

  lemma {:induction false} FrameTimeMonotone(ds: seq<Draft>, id: Id, k: nat, l: nat)
    requires k <= l <= |ds|
    ensures FrameTime(ds, id, k) <= FrameTime(ds, id, l)
    decreases l
  {
    if k < l { FrameTimeMonotone(ds, id, k, l - 1); }
  }

  lemma {:induction false} FirstHoldExists(ds: seq<Draft>, id: Id, k: nat) returns (first: nat)
    requires k < |ds| && Holds(ds[k], id)
    ensures FirstHold(ds, id, first)
  {
    if m :| 0 <= m < k && Holds(ds[m], id) { first := FirstHoldExists(ds, id, m); } else { first := k; }
  }

  /** Stretching adds exactly the missing hold to the first appearance of a meaningful frame. */
  lemma {:induction false} StretchedFrameTime(ds: seq<Draft>, meaningful: seq<Id>, id: Id, k: nat, first: nat)
    requires k <= |ds| && FirstHold(ds, id, first)
    ensures FrameTime(Stretches(ds, meaningful), id, k) == FrameTime(ds, id, k)
      + if first < k && id in meaningful then Max(0, MODEL_MEANINGFUL_HOLD_NANOS - FrameTime(ds, id, |ds|)) else 0
  {
    if k > 0 {
      StretchedFrameTime(ds, meaningful, id, k - 1, first);
      assert Stretches(ds, meaningful)[k - 1] == Stretch(ds, meaningful, k - 1);
      if FirstHold(ds, id, k - 1) { assert first == k - 1; }
    }
  }

  /** Every meaningful frame lasts exactly the longer of its recorded total and the meaningful hold. */
  lemma MeaningfulTotal(ds: seq<Draft>, meaningful: seq<Id>, id: Id)
    requires Shown(ds, id)
    ensures FrameTime(Stretches(ds, meaningful), id, |ds|) ==
      if id in meaningful then Max(FrameTime(ds, id, |ds|), MODEL_MEANINGFUL_HOLD_NANOS) else FrameTime(ds, id, |ds|)
  {
    var k :| 0 <= k < |ds| && Holds(ds[k], id);
    var first := FirstHoldExists(ds, id, k);
    StretchedFrameTime(ds, meaningful, id, |ds|, first);
  }

  /** Sources keep their order, nothing gets shorter, and slates last at least the gap hold. */
  lemma StretchOnlyLengthens(ds: seq<Draft>, meaningful: seq<Id>, k: nat)
    requires k < |ds|
    ensures var d := Stretches(ds, meaningful)[k];
      && d.source == ds[k].source
      && d.duration >= ds[k].duration
      && (d.source.GapSlate? ==> d.duration == Max(ds[k].duration, MODEL_GAP_HOLD_NANOS))
      && (d.source.SourceFrame? && d.source.id !in meaningful ==> d == ds[k])
      && (d.source.SourceFrame? && !FirstHold(ds, d.source.id, k) ==> d == ds[k])
  {
    assert Stretches(ds, meaningful)[k] == Stretch(ds, meaningful, k);
  }

  /** A second pass changes nothing. */
  lemma StretchIdempotent(ds: seq<Draft>, meaningful: seq<Id>)
    ensures Stretches(Stretches(ds, meaningful), meaningful) == Stretches(ds, meaningful)
  {
    var es := Stretches(ds, meaningful);
    forall k | 0 <= k < |ds| ensures Stretches(es, meaningful)[k] == es[k] {
      assert es[k] == Stretch(ds, meaningful, k);
      assert Stretches(es, meaningful)[k] == Stretch(es, meaningful, k);
      if es[k].source.SourceFrame? {
        var id := es[k].source.id;
        assert Holds(ds[k], id) && Shown(ds, id);
        MeaningfulTotal(ds, meaningful, id);
      }
    }
  }

  /** One meaningful frame, as the planner stretches it in place. */
  function StretchOne(ds: seq<Draft>, id: Id, first: nat, total: nat): seq<Draft>
    requires first < |ds|
  {
    if total < MODEL_MEANINGFUL_HOLD_NANOS then
      ds[first := ds[first].(
        duration := ds[first].duration + (MODEL_MEANINGFUL_HOLD_NANOS - total), basis := ModelMeaningfulHold)]
    else ds
  }

  /** Stretching one more frame in place is the next stage of the specification. */
  lemma StretchOneStep(ds: seq<Draft>, done: seq<Id>, id: Id, first: nat)
    requires id !in done && FirstHold(ds, id, first)
    ensures Stretches(ds, done + [id]) == StretchOne(Stretches(ds, done), id, first, FrameTime(ds, id, |ds|))
  {
    hide FrameTime, Stretch, Holds;
    var after, one := Stretches(ds, done + [id]), StretchOne(Stretches(ds, done), id, first, FrameTime(ds, id, |ds|));
    hide Stretches, StretchOne;
    assert |after| == |one| == |ds|;
    forall k | 0 <= k < |ds| ensures after[k] == one[k] { StretchOneAt(ds, done, id, first, k); }
  }

  /** Stretching other frames leaves a frame's drafts alone. */
  lemma StretchLeaves(ds: seq<Draft>, done: seq<Id>, id: Id)
    requires id !in done
    ensures forall k :: 0 <= k < |ds| ==> Holds(Stretches(ds, done)[k], id) == Holds(ds[k], id)
    ensures forall k :: 0 <= k < |ds| && Holds(ds[k], id) ==> Stretches(ds, done)[k] == ds[k]
    ensures FrameTime(Stretches(ds, done), id, |ds|) == FrameTime(ds, id, |ds|)
  {
    forall k | 0 <= k < |ds|
      ensures Holds(Stretches(ds, done)[k], id) == Holds(ds[k], id) && (Holds(ds[k], id) ==> Stretches(ds, done)[k] == ds[k])
    {
      StretchOnlyLengthens(ds, done, k);
    }
    FrameTimeAgree(Stretches(ds, done), ds, id, |ds|);
  }

  lemma FirstHoldTransfer(ds: seq<Draft>, es: seq<Draft>, id: Id, first: nat)
    requires |ds| == |es| && forall k :: 0 <= k < |ds| ==> Holds(es[k], id) == Holds(ds[k], id)
    ensures FirstHold(es, id, first) <==> FirstHold(ds, id, first)
    ensures Shown(es, id) <==> Shown(ds, id)
  {
    if k :| 0 <= k < |ds| && Holds(ds[k], id) { assert Holds(es[k], id); }
    if k :| 0 <= k < |es| && Holds(es[k], id) { assert Holds(ds[k], id); }
  }

  lemma StretchOneAt(ds: seq<Draft>, done: seq<Id>, id: Id, first: nat, k: nat)
    requires id !in done && FirstHold(ds, id, first) && k < |ds|
    ensures Stretches(ds, done + [id])[k] == StretchOne(Stretches(ds, done), id, first, FrameTime(ds, id, |ds|))[k]
  {
    hide FrameTime;
    assert Stretches(ds, done)[k] == Stretch(ds, done, k);
    assert Stretches(ds, done + [id])[k] == Stretch(ds, done + [id], k);
    if Holds(ds[k], id) {
      assert FirstHold(ds, id, k) <==> k == first;
    } else {
      assert ds[k].source.SourceFrame? ==> (ds[k].source.id in done + [id] <==> ds[k].source.id in done);
    }
  }

  predicate OrderedSegments(segments: seq<Segment>) {
    forall k :: 0 <= k < |segments| ==> segments[k].start <= segments[k].end
  }

  function DraftsOf(segments: seq<Segment>): (r: seq<Draft>)
    requires OrderedSegments(segments)
    ensures |r| == |segments|
  {
    seq(|segments|, k requires 0 <= k < |segments| =>
      Draft(segments[k].source, segments[k].end - segments[k].start, segments[k].basis))
  }

  /** Slates first, then each meaningful frame; a frame that no draft shows is an error. */
  method StretchDrafts(recorded: seq<Draft>, meaningful: seq<Id>) returns (r: Result<seq<Draft>>)
    requires Distinct(meaningful)
    ensures r == if forall id :: id in meaningful ==> Shown(recorded, id) then Ok(Stretches(recorded, meaningful))
                 else Err(InvalidInput)
  {
    var drafts := recorded;
    var k := 0;
    while k < |drafts|
      invariant 0 <= k <= |drafts| == |recorded|
      invariant forall l :: 0 <= l < |drafts| ==> drafts[l] == if l < k then StretchSlate(recorded[l]) else recorded[l]
    {
      if drafts[k].source.GapSlate? && drafts[k].duration < MODEL_GAP_HOLD_NANOS {
        drafts := drafts[k := drafts[k].(duration := MODEL_GAP_HOLD_NANOS, basis := ModelGapHold)];
      }
      k := k + 1;
    }
    assert drafts == Stretches(recorded, meaningful[..0]);

    var m := 0;
    while m < |meaningful|
      invariant 0 <= m <= |meaningful|
      invariant drafts == Stretches(recorded, meaningful[..m])
      invariant forall l :: 0 <= l < m ==> Shown(recorded, meaningful[l])
    {
      var id := meaningful[m];
      ghost var done := meaningful[..m];
      assert meaningful[..m + 1] == done + [id] && id !in done;
      hide Stretches, Distinct, FirstHold, FrameTime, Shown;
      var total, first := HoldOf(drafts, id);
      StretchLeaves(recorded, done, id);
      FirstHoldTransfer(recorded, drafts, id, first);
      if first == |drafts| {
        assert id in meaningful;
        return Err(InvalidInput);
      }
      StretchOneStep(recorded, done, id, first);
      if total < MODEL_MEANINGFUL_HOLD_NANOS {
        drafts := drafts[first := drafts[first].(
            duration := drafts[first].duration + (MODEL_MEANINGFUL_HOLD_NANOS - total), basis := ModelMeaningfulHold)];
      }
      m := m + 1;
    }
    assert meaningful[..m] == meaningful;
    r := Ok(drafts);
  }

  /** Recorded segments become drafts, are stretched, and are laid out again. */
  method OptimizeForModel(segments: seq<Segment>, meaningful: seq<Id>) returns (r: Result<seq<Segment>>)
    requires Distinct(meaningful) && OrderedSegments(segments) && Presentable(DraftsOf(segments))
    ensures var ds := DraftsOf(segments);
      && (r.Ok? <==>
            && (forall id :: id in meaningful ==> Shown(ds, id))
            && |ds| <= MAX_VIDEO_PRESENTATION_SEGMENTS
            && Total(Stretches(ds, meaningful)) <= MAX_PRESENTATION_NANOS)
      && (r.Ok? ==> LaidOut(Stretches(ds, meaningful), r.value))
      && (r.Err? ==>
            r.error == if forall id :: id in meaningful ==> Shown(ds, id) then ResourceLimitExceeded else InvalidInput)
  {
    var recorded := DraftsOf(segments);
    var drafts := StretchDrafts(recorded, meaningful);
    if drafts.Err? {
      return Err(drafts.error);
    }
    StretchedPresentable(recorded, meaningful);
    r := FinishSegments(drafts.value);
  }

  lemma StretchedPresentable(ds: seq<Draft>, meaningful: seq<Id>)
    requires Presentable(ds)
    ensures Presentable(Stretches(ds, meaningful))
  {
    forall k | 0 <= k < |ds|
      ensures Stretches(ds, meaningful)[k].duration > 0 && ValidSource(Stretches(ds, meaningful)[k].source)
    {
      StretchOnlyLengthens(ds, meaningful, k);
    }
  }

  /** Total hold of a frame and the position of its first draft, or the length when it has none. */
  method HoldOf(drafts: seq<Draft>, id: Id) returns (total: nat, first: nat)
    ensures total == FrameTime(drafts, id, |drafts|)
    ensures first < |drafts| ==> FirstHold(drafts, id, first) && Shown(drafts, id)
    ensures first >= |drafts| ==> first == |drafts| && !Shown(drafts, id)
  {
    total, first := 0, |drafts|;
    var k := 0;
    while k < |drafts|
      invariant 0 <= k <= |drafts|
      invariant total == FrameTime(drafts, id, k)
      invariant first < |drafts| ==> first < k && FirstHold(drafts, id, first)
      invariant first >= |drafts| ==> first == |drafts| && forall m :: 0 <= m < k ==> !Holds(drafts[m], id)
    {
      if Holds(drafts[k], id) {
        total := total + drafts[k].duration;
        if first == |drafts| { first := k; }
      }
      k := k + 1;
    }
  }
}
