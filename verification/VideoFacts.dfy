/** What a real-time plan presents: sample-and-hold of the source, conservation and size. */
module VideoFacts {
  import opened Common
  import opened VideoTypes
  import opened VideoCoalesce
  import opened VideoRealTime
  import opened VideoTimeline

  /** Source nanoseconds a draft presents; ties and the terminal hold present none. */
  function SourceLength(d: Draft): nat {
    if d.basis == RecordedDelta || d.basis == RecordedGap then d.duration else 0
  }

  /** The source instant at which draft k begins. */
  function Clock(ds: seq<Draft>, first: nat, k: nat): nat
    requires k <= |ds|
  {
    if k == 0 then first else Clock(ds, first, k - 1) + SourceLength(ds[k - 1])
  }

  predicate Presents(ds: seq<Draft>, first: nat, k: nat, s: int) {
    k < |ds| && Clock(ds, first, k) <= s < Clock(ds, first, k + 1)
  }

  predicate HoldsFrame(frames: seq<Frame>, d: Draft, i: nat, s: int) {
    i + 1 < |frames| && frames[i].time <= s < frames[i + 1].time && d.source == SourceFrame(frames[i].id, frames[i].time)
  }

  predicate ShowsGap(gaps: seq<CoalescedGap>, d: Draft, j: nat, s: int) {
    && j < |gaps| && SpanCovers(gaps[j], s)
    && d.source.GapSlate? && d.source.ids == gaps[j].ids
    && gaps[j].start <= d.source.start <= s < d.source.end <= gaps[j].end
  }

  /** Sample-and-hold: a slate of the gap covering s, or else the latest frame at or before s. */
  ghost predicate RightSource(frames: seq<Frame>, gaps: seq<CoalescedGap>, d: Draft, s: int) {
    if AnyCovers(gaps, s) then exists j :: ShowsGap(gaps, d, j, s)
    else exists i :: HoldsFrame(frames, d, i, s)
  }

  lemma {:induction false} ClockIsFrom(frames: seq<Frame>, gaps: seq<CoalescedGap>, ps: seq<Piece>, ds: seq<Draft>, k: nat)
    requires Timeline(frames, gaps, ps, ds) && k < |ps|
    ensures Clock(ds, frames[0].time, k) == ps[k].from
    ensures Clock(ds, frames[0].time, k + 1) == ps[k].until
  {
    assert WellFormedPiece(frames, gaps, ps[k]) && ds[k] == DraftOf(frames, gaps, ps[k]);
    if k > 0 {
      ClockIsFrom(frames, gaps, ps, ds, k - 1);
      assert Follows(ps[k - 1], ps[k]);
    }
  }

  lemma {:induction false} ClockMonotone(ds: seq<Draft>, first: nat, k: nat, l: nat)
    requires k <= l <= |ds|
    ensures Clock(ds, first, k) <= Clock(ds, first, l)
    decreases l
  {
    if k < l { ClockMonotone(ds, first, k, l - 1); }
  }

  lemma ClockEnds(frames: seq<Frame>, gaps: seq<CoalescedGap>, ps: seq<Piece>, ds: seq<Draft>)
    requires Timeline(frames, gaps, ps, ds)
    ensures Clock(ds, frames[0].time, |ds|) == frames[|frames| - 1].time
  {
    ClockIsFrom(frames, gaps, ps, ds, |ps| - 1);
    assert WellFormedPiece(frames, gaps, ps[|ps| - 1]);
  }

  lemma {:induction false} FindPresenter(ds: seq<Draft>, first: nat, s: int, l: nat) returns (k: nat)
    requires l <= |ds| && first <= s < Clock(ds, first, l)
    ensures k < l && Presents(ds, first, k, s)
  {
    if Clock(ds, first, l - 1) <= s { k := l - 1; } else { k := FindPresenter(ds, first, s, l - 1); }
  }

  lemma PieceIsRight(frames: seq<Frame>, gaps: seq<CoalescedGap>, p: Piece, s: int)
    requires WellFormedPiece(frames, gaps, p) && p.from <= s < p.until
    ensures RightSource(frames, gaps, DraftOf(frames, gaps, p), s)
  {
    var d := DraftOf(frames, gaps, p);
    if p.Slate? {
      assert ShowsGap(gaps, d, p.gap, s);
    } else {
      assert p.Hold? && HoldsFrame(frames, d, p.frame, s);
      assert Clear(gaps, p.from, p.until);
    }
  }

  /**
   * The real-time plan refines pointwise sample-and-hold: every source instant in the presented
   * range is presented by exactly one draft, in source order, and that draft shows the right source.
   */
  lemma SampleAndHold(frames: seq<Frame>, gaps: seq<CoalescedGap>, ds: seq<Draft>, s: int)
    requires WellFormedFrames(frames) && PlannerGaps(gaps, frames[0].time, frames[|frames| - 1].time)
    requires RealTimeDrafts(frames, gaps) == Ok(ds)
    requires frames[0].time <= s < frames[|frames| - 1].time
    ensures exists k: nat :: Presents(ds, frames[0].time, k, s)
    ensures forall k: nat, l: nat :: Presents(ds, frames[0].time, k, s) && Presents(ds, frames[0].time, l, s) ==> k == l
    ensures forall k: nat :: Presents(ds, frames[0].time, k, s) ==> RightSource(frames, gaps, ds[k], s)
  {
    assert frames != [];
    hide Timeline, RealTimeDrafts, WellFormedFrames, PlannerGaps, RightSource;
    var first := frames[0].time;
    var ps := RealTimeTimeline(frames, gaps);
    ClockEnds(frames, gaps, ps, ds);
    var found := FindPresenter(ds, first, s, |ds|);
    forall k: nat | Presents(ds, first, k, s) ensures k == found {
      if k < found { ClockMonotone(ds, first, k + 1, found); }
      if found < k { ClockMonotone(ds, first, found + 1, k); }
    }
    DraftIsRight(frames, gaps, ps, ds, found, s);
  }

  lemma DraftIsRight(
    frames: seq<Frame>, gaps: seq<CoalescedGap>, ps: seq<Piece>, ds: seq<Draft>, k: nat, s: int)
    requires Timeline(frames, gaps, ps, ds) && Presents(ds, frames[0].time, k, s)
    ensures RightSource(frames, gaps, ds[k], s)
  {
    hide RightSource;
    ClockIsFrom(frames, gaps, ps, ds, k);
    PieceIsRight(frames, gaps, ps[k], s);
    assert ds[k] == DraftOf(frames, gaps, ps[k]);
  }

  // Conservation of presentation time

  function Total(ds: seq<Draft>): nat {
    if ds == [] then 0 else Total(ds[..|ds| - 1]) + ds[|ds| - 1].duration
  }

  function Ties(frames: seq<Frame>, i: nat): nat
    requires i < |frames|
  {
    if i == 0 then 0 else Ties(frames, i - 1) + if TiePair(frames, i - 1) then 1 else 0
  }

  lemma PushTotal(ds: seq<Draft>, d: Draft)
    requires PushDraft(ds, d).Ok?
    ensures Total(PushDraft(ds, d).value) == Total(ds) + d.duration
  {
    var out := PushDraft(ds, d).value;
    assert out[..|out| - 1] == if |out| == |ds| then ds[..|ds| - 1] else ds;
  }

  lemma CutGapTotal(frame: Frame, end: nat, gap: CoalescedGap, cut: Cut)
    requires frame.time <= cut.cursor <= end
    requires CutGap(frame, frame.time, end, gap, cut).Ok?
    ensures var r := CutGap(frame, frame.time, end, gap, cut).value;
      frame.time <= r.cursor <= end && Total(r.drafts) + cut.cursor == Total(cut.drafts) + r.cursor
  {
    var gapStart: nat, gapEnd: nat := Max(gap.start, frame.time), Min(gap.end, end);
    if gapStart < gapEnd && gapEnd > cut.cursor {
      var held := if cut.cursor < gapStart then PushHold(cut.drafts, frame, cut.cursor, gapStart) else cut.drafts;
      if cut.cursor < gapStart { PushTotal(cut.drafts, HoldDraft(frame, cut.cursor, gapStart)); }
      PushTotal(held, SlateDraft(gap.ids, Max(cut.cursor, gapStart), gapEnd));
    }
  }

  lemma {:induction false} CutGapsTotal(frame: Frame, end: nat, gaps: seq<CoalescedGap>, j: nat, ds: seq<Draft>)
    requires j <= |gaps| && frame.time <= end
    requires CutGaps(frame, frame.time, end, gaps, j, ds).Ok?
    ensures var r := CutGaps(frame, frame.time, end, gaps, j, ds).value;
      frame.time <= r.cursor <= end && Total(r.drafts) + frame.time == Total(ds) + r.cursor
  {
    if j > 0 {
      CutGapsTotal(frame, end, gaps, j - 1, ds);
      CutGapTotal(frame, end, gaps[j - 1], CutGaps(frame, frame.time, end, gaps, j - 1, ds).value);
    }
  }

  lemma {:induction false} IntervalsTotal(frames: seq<Frame>, gaps: seq<CoalescedGap>, i: nat)
    requires WellFormedFrames(frames) && i < |frames| && CutIntervals(frames, gaps, i).Ok?
    ensures Total(CutIntervals(frames, gaps, i).value)
         == frames[i].time - frames[0].time + Ties(frames, i) * MINIMUM_VISIBLE_FRAME_NANOS
  {
    if i > 0 {
      IntervalsTotal(frames, gaps, i - 1);
      var ds := CutIntervals(frames, gaps, i - 1).value;
      var frame, end := frames[i - 1], frames[i].time;
      if frame.time == end {
        assert (ds + [TieDraft(frame)])[..|ds|] == ds;
      } else {
        CutGapsTotal(frame, end, gaps, |gaps|, ds);
        var cut := CutGaps(frame, frame.time, end, gaps, |gaps|, ds).value;
        if cut.cursor < end { PushTotal(cut.drafts, HoldDraft(frame, cut.cursor, end)); }
      }
    }
  }

  /** Total presentation time is the source span, one minimum per tied pair, and the terminal hold. */
  lemma {:induction false} DurationConserved(frames: seq<Frame>, gaps: seq<CoalescedGap>, ds: seq<Draft>)
    requires WellFormedFrames(frames) && RealTimeDrafts(frames, gaps) == Ok(ds)
    ensures var n := |frames| - 1;
      Total(ds) == (frames[n].time - frames[0].time) + Ties(frames, n) * MINIMUM_VISIBLE_FRAME_NANOS + TERMINAL_HOLD_NANOS
  {
    var n := |frames| - 1;
    IntervalsTotal(frames, gaps, n);
    PushTotal(CutIntervals(frames, gaps, n).value, TerminalDraft(frames[n]));
  }

  function Overlap(a: int, b: int, lo: int, hi: int): nat {
    Max(0, Min(b, hi) - Max(a, lo))
  }

  /** Nanoseconds of [lo, hi) that lie inside the first j gaps. */
  function Measure(gaps: seq<CoalescedGap>, j: nat, lo: int, hi: int): nat
    requires j <= |gaps|
  {
    if j == 0 then 0 else Measure(gaps, j - 1, lo, hi) + Overlap(gaps[j - 1].start, gaps[j - 1].end, lo, hi)
  }

  function SlateTime(ds: seq<Draft>, k: nat): nat
    requires k <= |ds|
  {
    if k == 0 then 0 else SlateTime(ds, k - 1) + if ds[k - 1].source.GapSlate? then ds[k - 1].duration else 0
  }

  lemma {:induction false} MeasureSplits(gaps: seq<CoalescedGap>, j: nat, lo: int, mid: int, hi: int)
    requires j <= |gaps| && lo <= mid <= hi
    ensures Measure(gaps, j, lo, hi) == Measure(gaps, j, lo, mid) + Measure(gaps, j, mid, hi)
  {
    if j > 0 { MeasureSplits(gaps, j - 1, lo, mid, hi); }
  }

  lemma {:induction false} MeasureClear(gaps: seq<CoalescedGap>, j: nat, lo: nat, hi: nat)
    requires j <= |gaps| && lo <= hi
    requires forall k :: 0 <= k < j ==> gaps[k].end <= lo || hi <= gaps[k].start
    ensures Measure(gaps, j, lo, hi) == 0
  {
    if j > 0 { MeasureClear(gaps, j - 1, lo, hi); }
  }

  lemma {:induction false} MeasureInside(gaps: seq<CoalescedGap>, j: nat, g: nat, lo: nat, hi: nat)
    requires Separated(gaps) && g < j <= |gaps| && gaps[g].start <= lo <= hi <= gaps[g].end
    ensures Measure(gaps, j, lo, hi) == hi - lo
  {
    if g < j - 1 {
      MeasureInside(gaps, j - 1, g, lo, hi);
    } else {
      MeasureClear(gaps, j - 1, lo, hi);
    }
  }

  lemma {:induction false} SlateTimeSoFar(
    frames: seq<Frame>, gaps: seq<CoalescedGap>, ps: seq<Piece>, ds: seq<Draft>, k: nat)
    requires Timeline(frames, gaps, ps, ds) && Separated(gaps) && k <= |ds|
    ensures frames[0].time <= Clock(ds, frames[0].time, k)
    ensures SlateTime(ds, k) == Measure(gaps, |gaps|, frames[0].time, Clock(ds, frames[0].time, k))
  {
    var first := frames[0].time;
    if k == 0 {
      MeasureEmpty(gaps, |gaps|, first);
    } else {
      SlateTimeSoFar(frames, gaps, ps, ds, k - 1);
      ClockIsFrom(frames, gaps, ps, ds, k - 1);
      var p := ps[k - 1];
      assert WellFormedPiece(frames, gaps, p) && ds[k - 1] == DraftOf(frames, gaps, p);
      MeasureSplits(gaps, |gaps|, first, p.from, p.until);
      match p
      case Hold(_, from, until) => MeasureClear(gaps, |gaps|, from, until);
      case Slate(_, g, from, until) => MeasureInside(gaps, |gaps|, g, from, until);
      case Tie(_, from, _) => MeasureEmpty(gaps, |gaps|, from);
      case Terminal(_, from, _) => MeasureEmpty(gaps, |gaps|, from);
    }
  }

  lemma {:induction false} MeasureEmpty(gaps: seq<CoalescedGap>, j: nat, x: int)
    requires j <= |gaps|
    ensures Measure(gaps, j, x, x) == 0
  {
    if j > 0 { MeasureEmpty(gaps, j - 1, x); }
  }

  function GapLength(gaps: seq<CoalescedGap>, j: nat): int
    requires j <= |gaps|
  {
    if j == 0 then 0 else GapLength(gaps, j - 1) + gaps[j - 1].end - gaps[j - 1].start
  }

  lemma {:induction false} MeasureWhole(gaps: seq<CoalescedGap>, j: nat, lo: nat, hi: nat)
    requires Within(gaps, lo, hi) && j <= |gaps|
    ensures Measure(gaps, j, lo, hi) == GapLength(gaps, j)
  {
    if j > 0 {
      MeasureWhole(gaps, j - 1, lo, hi);
      assert lo <= gaps[j - 1].start < gaps[j - 1].end <= hi;
    }
  }

  /** Slates last exactly as long as the union of the declared gaps. */
  lemma {:induction false} SlateTimeIsGapLength(frames: seq<Frame>, gaps: seq<CoalescedGap>, ds: seq<Draft>)
    requires WellFormedFrames(frames) && PlannerGaps(gaps, frames[0].time, frames[|frames| - 1].time)
    requires RealTimeDrafts(frames, gaps) == Ok(ds)
    ensures SlateTime(ds, |ds|) == GapLength(gaps, |gaps|)
  {
    var ps := RealTimeTimeline(frames, gaps);
    ClockEnds(frames, gaps, ps, ds);
    SlateTimeSoFar(frames, gaps, ps, ds, |ds|);
    MeasureWhole(gaps, |gaps|, frames[0].time, frames[|frames| - 1].time);
  }

  // Plan size

  function StartsBy(gaps: seq<CoalescedGap>, j: nat, x: nat): nat
    requires j <= |gaps|
  {
    if j == 0 then 0 else StartsBy(gaps, j - 1, x) + if gaps[j - 1].start <= x then 1 else 0
  }

  function EndsBy(gaps: seq<CoalescedGap>, j: nat, x: nat): nat
    requires j <= |gaps|
  {
    if j == 0 then 0 else EndsBy(gaps, j - 1, x) + if gaps[j - 1].end <= x then 1 else 0
  }

  lemma {:induction false} CountsGrow(gaps: seq<CoalescedGap>, j: nat, x: nat, y: nat)
    requires j <= |gaps| && x <= y
    ensures StartsBy(gaps, j, x) <= StartsBy(gaps, j, y) <= j
    ensures EndsBy(gaps, j, x) <= EndsBy(gaps, j, y) <= j
    ensures (exists g :: 0 <= g < j && x < gaps[g].start <= y) ==> StartsBy(gaps, j, x) < StartsBy(gaps, j, y)
    ensures (exists g :: 0 <= g < j && x < gaps[g].end <= y) ==> EndsBy(gaps, j, x) < EndsBy(gaps, j, y)
  {
    if j > 0 { CountsGrow(gaps, j - 1, x, y); }
  }

  /** Each further piece is paid for by a later frame, a gap start, or a gap end. */
  lemma PieceIsPaid(frames: seq<Frame>, gaps: seq<CoalescedGap>, p: Piece, q: Piece)
    requires Ordered(frames) && Separated(gaps)
    requires WellFormedPiece(frames, gaps, p) && WellFormedPiece(frames, gaps, q) && Follows(p, q)
    ensures p.from <= q.from
    ensures
      || p.frame < q.frame
      || (exists g :: 0 <= g < |gaps| && p.from < gaps[g].start <= q.from)
      || (exists g :: 0 <= g < |gaps| && p.from < gaps[g].end <= q.from)
  {
    if q.Slate? && p.Hold? {
      assert p.from < gaps[q.gap].start <= q.from;
    } else if p.Slate? && q.Hold? {
      assert gaps[p.gap].end <= q.from;
      assert p.from < gaps[p.gap].end <= q.from;
    }
  }

  lemma {:induction false} SizeSoFar(frames: seq<Frame>, gaps: seq<CoalescedGap>, ps: seq<Piece>, ds: seq<Draft>, k: nat)
    requires Ordered(frames) && Separated(gaps) && Timeline(frames, gaps, ps, ds) && k < |ps|
    ensures k + 1 <= ps[k].frame + 1 + StartsBy(gaps, |gaps|, ps[k].from) + EndsBy(gaps, |gaps|, ps[k].from)
  {
    if k > 0 {
      SizeSoFar(frames, gaps, ps, ds, k - 1);
      assert Follows(ps[k - 1], ps[k]);
      PieceIsPaid(frames, gaps, ps[k - 1], ps[k]);
      CountsGrow(gaps, |gaps|, ps[k - 1].from, ps[k].from);
    }
  }

  /** A real-time plan has at most one segment per frame and two per coalesced gap. */
  lemma PlanSize(frames: seq<Frame>, gaps: seq<CoalescedGap>, ds: seq<Draft>)
    requires WellFormedFrames(frames) && PlannerGaps(gaps, frames[0].time, frames[|frames| - 1].time)
    requires RealTimeDrafts(frames, gaps) == Ok(ds)
    ensures |ds| <= |frames| + 2 * |gaps|
  {
    var ps := RealTimeTimeline(frames, gaps);
    SizeSoFar(frames, gaps, ps, ds, |ps| - 1);
    CountsGrow(gaps, |gaps|, ps[|ps| - 1].from, ps[|ps| - 1].from);
  }
}
