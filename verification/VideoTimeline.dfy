/** The source timeline behind a list of real-time drafts. */
module VideoTimeline {
  import opened Common
  import opened Sorting
  import opened VideoTypes
  import opened VideoCoalesce
  import opened VideoRealTime

  /**
   * One draft together with the stretch of source time it presents. A slate names the coalesced
   * gap it shows and the interval in which it began; ties and the terminal hold present no
   * source time.
   */
  datatype Piece =
    | Hold(frame: nat, from: nat, until: nat)
    | Slate(frame: nat, gap: nat, from: nat, until: nat)
    | Tie(frame: nat, from: nat, until: nat)
    | Terminal(frame: nat, from: nat, until: nat)

  predicate Clear(gaps: seq<CoalescedGap>, from: nat, until: nat) {
    forall j :: 0 <= j < |gaps| ==> gaps[j].end <= from || until <= gaps[j].start
  }

  predicate WellFormedPiece(frames: seq<Frame>, gaps: seq<CoalescedGap>, p: Piece) {
    && p.frame < |frames|
    && frames[p.frame].time <= p.from
    && match p
       case Hold(i, from, until) =>
         i + 1 < |frames| && from < until <= frames[i + 1].time && Clear(gaps, from, until)
       case Slate(i, j, from, until) =>
         && i + 1 < |frames| && j < |gaps|
         && gaps[j].start <= from < until <= gaps[j].end
         && from < frames[i + 1].time
         && NIL !in gaps[j].ids
       case Tie(i, from, until) =>
         i + 1 < |frames| && frames[i].time == frames[i + 1].time == from == until
       case Terminal(i, from, until) =>
         i + 1 == |frames| && frames[i].time == from == until
  }

  function DraftOf(frames: seq<Frame>, gaps: seq<CoalescedGap>, p: Piece): Draft
    requires WellFormedPiece(frames, gaps, p)
  {
    match p
    case Hold(i, from, until) => HoldDraft(frames[i], from, until)
    case Slate(_, j, from, until) => SlateDraft(gaps[j].ids, from, until)
    case Tie(i, _, _) => TieDraft(frames[i])
    case Terminal(i, _, _) => TerminalDraft(frames[i])
  }

  /** Consecutive pieces abut; slates never abut slates, and frames never repeat back to back. */
  predicate Follows(p: Piece, q: Piece) {
    && p.until == q.from
    && p.frame <= q.frame
    && !(p.Slate? && q.Slate?)
    && (!p.Slate? && !q.Slate? ==> p.frame < q.frame)
    && (p.Tie? ==> p.frame < q.frame)
    && !p.Terminal?
  }

  ghost predicate Chain(frames: seq<Frame>, gaps: seq<CoalescedGap>, ps: seq<Piece>) {
    && (forall k :: 0 <= k < |ps| ==> WellFormedPiece(frames, gaps, ps[k]))
    && (forall k :: 0 < k < |ps| ==> Follows(ps[k - 1], ps[k]))
    && (ps != [] ==> ps[0].from == frames[0].time)
  }

  ghost predicate Shows(frames: seq<Frame>, gaps: seq<CoalescedGap>, ps: seq<Piece>, ds: seq<Draft>)
    requires Chain(frames, gaps, ps)
  {
    |ds| == |ps| && forall k :: 0 <= k < |ps| ==> ds[k] == DraftOf(frames, gaps, ps[k])
  }

  predicate TiePair(frames: seq<Frame>, i: nat) {
    i + 1 < |frames| && frames[i].time == frames[i + 1].time
  }

  ghost predicate HasTie(ps: seq<Piece>, i: nat) {
    exists k :: 0 <= k < |ps| && ps[k].Tie? && ps[k].frame == i
  }

  /** The pieces behind a finished real-time plan. */
  ghost predicate Timeline(frames: seq<Frame>, gaps: seq<CoalescedGap>, ps: seq<Piece>, ds: seq<Draft>) {
    && frames != []
    && Chain(frames, gaps, ps)
    && Shows(frames, gaps, ps, ds)
    && ps != [] && ps[|ps| - 1].Terminal?
    && forall i: nat :: TiePair(frames, i) ==> HasTie(ps, i)
  }

  /** The pieces presented up to cursor while the interval of frame i is being cut. */
  ghost predicate Partial(
    frames: seq<Frame>, gaps: seq<CoalescedGap>, ps: seq<Piece>, ds: seq<Draft>, i: nat, cursor: nat)
  {
    && i < |frames|
    && Chain(frames, gaps, ps)
    && Shows(frames, gaps, ps, ds)
    && (if ps == [] then cursor == frames[0].time else ps[|ps| - 1].until == cursor)
    && (ps != [] ==> !ps[|ps| - 1].Terminal?)
    && (ps != [] ==> if ps[|ps| - 1].Slate? then ps[|ps| - 1].frame <= i else ps[|ps| - 1].frame < i)
    && forall w: nat :: w < i && TiePair(frames, w) ==> HasTie(ps, w)
  }

  ghost predicate TiesKept(ps: seq<Piece>, qs: seq<Piece>) {
    |ps| <= |qs| && forall k :: 0 <= k < |ps| && ps[k].Tie? ==> qs[k] == ps[k]
  }

  lemma HasTieGrows(ps: seq<Piece>, qs: seq<Piece>, w: nat)
    requires HasTie(ps, w) && TiesKept(ps, qs)
    ensures HasTie(qs, w)
  {
    var k :| 0 <= k < |ps| && ps[k].Tie? && ps[k].frame == w;
    assert qs[k].Tie? && qs[k].frame == w;
  }

  /** Appending a piece that presents no slate after a slate. */
  lemma Append(frames: seq<Frame>, gaps: seq<CoalescedGap>, ps: seq<Piece>, ds: seq<Draft>, q: Piece)
    returns (qs: seq<Piece>)
    requires Chain(frames, gaps, ps) && Shows(frames, gaps, ps, ds)
    requires WellFormedPiece(frames, gaps, q)
    requires if ps == [] then q.from == frames[0].time else Follows(ps[|ps| - 1], q)
    ensures qs == ps + [q]
    ensures Chain(frames, gaps, qs) && Shows(frames, gaps, qs, ds + [DraftOf(frames, gaps, q)])
  {
    qs := ps + [q];
    forall k | 0 < k < |qs| ensures Follows(qs[k - 1], qs[k]) {
      if k < |ps| { assert Follows(ps[k - 1], ps[k]); }
    }
  }

  /** A hold is never merged, so pushing it appends. */
  lemma AppendHold(
    frames: seq<Frame>, gaps: seq<CoalescedGap>, ps: seq<Piece>, ds: seq<Draft>, i: nat, from: nat, until: nat)
    returns (qs: seq<Piece>)
    requires Partial(frames, gaps, ps, ds, i, from)
    requires i + 1 < |frames| && frames[i].time <= from < until <= frames[i + 1].time && Clear(gaps, from, until)
    ensures PushHold(ds, frames[i], from, until) == ds + [HoldDraft(frames[i], from, until)]
    ensures qs == ps + [Hold(i, from, until)]
    ensures Chain(frames, gaps, qs) && Shows(frames, gaps, qs, ds + [HoldDraft(frames[i], from, until)])
    ensures forall w: nat :: w < i && TiePair(frames, w) ==> HasTie(qs, w)
  {
    qs := Append(frames, gaps, ps, ds, Hold(i, from, until));
    forall w: nat | w < i && TiePair(frames, w) ensures HasTie(qs, w) { HasTieGrows(ps, qs, w); }
  }

  /** Slates that abut show the same coalesced gap. */
  lemma SameGap(gaps: seq<CoalescedGap>, a: nat, b: nat, x: nat)
    requires Separated(gaps) && a < |gaps| && b < |gaps|
    requires gaps[a].start < x <= gaps[a].end && gaps[b].start <= x < gaps[b].end
    ensures a == b
  {
  }

  /** The slate at the end of the plan grows to a later source instant. */
  lemma Grow(frames: seq<Frame>, gaps: seq<CoalescedGap>, ps: seq<Piece>, ds: seq<Draft>, until: nat)
    returns (qs: seq<Piece>)
    requires Chain(frames, gaps, ps) && Shows(frames, gaps, ps, ds)
    requires ps != [] && ps[|ps| - 1].Slate?
    requires ps[|ps| - 1].until < until <= gaps[ps[|ps| - 1].gap].end
    ensures var last := ps[|ps| - 1];
      qs == ps[|ps| - 1 := Slate(last.frame, last.gap, last.from, until)]
    ensures Chain(frames, gaps, qs)
    ensures Shows(frames, gaps, qs, ds[|ds| - 1 := DraftOf(frames, gaps, qs[|ps| - 1])])
  {
    var last := ps[|ps| - 1];
    qs := ps[|ps| - 1 := Slate(last.frame, last.gap, last.from, until)];
    assert WellFormedPiece(frames, gaps, last);
    forall k | 0 < k < |qs| ensures Follows(qs[k - 1], qs[k]) { assert Follows(ps[k - 1], ps[k]); }
  }

  lemma LastPieceSound(frames: seq<Frame>, gaps: seq<CoalescedGap>, ps: seq<Piece>, ds: seq<Draft>)
    requires Chain(frames, gaps, ps) && Shows(frames, gaps, ps, ds)
    ensures |ds| == |ps|
    ensures ps != [] ==> WellFormedPiece(frames, gaps, ps[|ps| - 1])
    ensures ps != [] ==> ds[|ps| - 1] == DraftOf(frames, gaps, ps[|ps| - 1])
  {
  }

  ghost predicate SlateLast(
    frames: seq<Frame>, gaps: seq<CoalescedGap>, ps: seq<Piece>, ds: seq<Draft>, i: nat, until: nat)
  {
    && Chain(frames, gaps, ps) && Shows(frames, gaps, ps, ds)
    && ps != [] && ps[|ps| - 1].Slate? && ps[|ps| - 1].until == until && ps[|ps| - 1].frame <= i
  }

  /** Pushing a slate onto the slate of the same gap extends it. */
  lemma PushOntoSlate(
    frames: seq<Frame>, gaps: seq<CoalescedGap>, ps: seq<Piece>, ds: seq<Draft>,
    i: nat, j: nat, from: nat, until: nat)
    returns (qs: seq<Piece>)
    requires Separated(gaps) && j < |gaps| && until < U64_LIMIT
    requires SlateLast(frames, gaps, ps, ds, i, from)
    requires gaps[j].start <= from < until <= gaps[j].end
    ensures PushDraft(ds, SlateDraft(gaps[j].ids, from, until)).Ok?
    ensures SlateLast(frames, gaps, qs, PushDraft(ds, SlateDraft(gaps[j].ids, from, until)).value, i, until)
    ensures TiesKept(ps, qs)
  {
    LastPieceSound(frames, gaps, ps, ds);
    var last := ps[|ps| - 1];
    SameGap(gaps, last.gap, j, from);
    hide Chain, Shows, Separated, Clear;
    qs := Grow(frames, gaps, ps, ds, until);
  }

  /** Pushing a slate appends it, or extends the slate of the same gap that ends where it starts. */
  lemma PushSlate(
    frames: seq<Frame>, gaps: seq<CoalescedGap>, ps: seq<Piece>, ds: seq<Draft>,
    i: nat, j: nat, from: nat, until: nat)
    returns (qs: seq<Piece>)
    requires Separated(gaps) && i + 1 < |frames| && j < |gaps| && until < U64_LIMIT
    requires Chain(frames, gaps, ps) && Shows(frames, gaps, ps, ds)
    requires if ps == [] then from == frames[0].time else ps[|ps| - 1].until == from && ps[|ps| - 1].frame <= i
    requires ps != [] ==> !ps[|ps| - 1].Terminal? && (ps[|ps| - 1].Tie? ==> ps[|ps| - 1].frame < i)
    requires frames[i].time <= from < until <= frames[i + 1].time
    requires gaps[j].start <= from && until <= gaps[j].end && NIL !in gaps[j].ids
    ensures PushDraft(ds, SlateDraft(gaps[j].ids, from, until)).Ok?
    ensures SlateLast(frames, gaps, qs, PushDraft(ds, SlateDraft(gaps[j].ids, from, until)).value, i, until)
    ensures TiesKept(ps, qs)
  {
    if ps != [] && ps[|ps| - 1].Slate? {
      hide Chain, Shows, Separated, PushDraft;
      qs := PushOntoSlate(frames, gaps, ps, ds, i, j, from, until);
    } else {
      LastPieceSound(frames, gaps, ps, ds);
      hide Chain, Shows, Separated;
      qs := Append(frames, gaps, ps, ds, Slate(i, j, from, until));
    }
  }

  ghost predicate SomeNilGap(gaps: seq<CoalescedGap>) {
    exists k :: 0 <= k < |gaps| && NIL in gaps[k].ids
  }

  /** While the interval of frame i is cut: the first j gaps are presented up to cursor. */
  ghost predicate Cutting(
    frames: seq<Frame>, gaps: seq<CoalescedGap>, ps: seq<Piece>, ds: seq<Draft>, i: nat, cursor: nat, j: nat)
  {
    && Partial(frames, gaps, ps, ds, i, cursor)
    && i + 1 < |frames| && frames[i].time <= cursor <= frames[i + 1].time && !TiePair(frames, i)
    && (forall k :: 0 <= k < j && k < |gaps| ==>
          gaps[k].end <= cursor || frames[i + 1].time <= cursor || frames[i + 1].time <= gaps[k].start)
    && (cursor == frames[i].time || forall k :: j <= k < |gaps| ==> cursor <= gaps[k].start)
  }

  /** The gap starts at or after the cursor, and nothing before it is hidden. */
  lemma HoldBeforeGap(gaps: seq<CoalescedGap>, j: nat, start: nat, end: nat, cursor: nat)
    requires Separated(gaps) && j < |gaps|
    requires start <= cursor <= end
    requires forall k :: 0 <= k < j ==> gaps[k].end <= cursor || end <= cursor || end <= gaps[k].start
    requires cursor == start || forall k :: j <= k < |gaps| ==> cursor <= gaps[k].start
    requires Max(gaps[j].start, start) < Min(gaps[j].end, end)
    ensures cursor <= Max(gaps[j].start, start)
    ensures cursor < Max(gaps[j].start, start) ==> Clear(gaps, cursor, Max(gaps[j].start, start))
  {
    var gapStart := Max(gaps[j].start, start);
    if cursor < gapStart {
      forall k | 0 <= k < |gaps| ensures gaps[k].end <= cursor || gapStart <= gaps[k].start {
        if k > j { assert gaps[j].end < gaps[k].start; }
      }
    }
  }

  /** Presenting the overlap of gap j with the interval of frame i. */
  lemma ShowGap(
    frames: seq<Frame>, gaps: seq<CoalescedGap>, ps: seq<Piece>, ds: seq<Draft>, i: nat, cursor: nat, j: nat,
    gapStart: nat, gapEnd: nat)
    returns (qs: seq<Piece>)
    requires WellFormedFrames(frames) && Separated(gaps) && j < |gaps| && NIL !in gaps[j].ids
    requires Partial(frames, gaps, ps, ds, i, cursor) && i + 1 < |frames|
    requires frames[i].time <= cursor <= gapStart < gapEnd <= frames[i + 1].time
    requires gaps[j].start <= gapStart && gapEnd <= gaps[j].end
    requires cursor < gapStart ==> Clear(gaps, cursor, gapStart)
    ensures var held := if cursor < gapStart then PushHold(ds, frames[i], cursor, gapStart) else ds;
      var slated := PushDraft(held, SlateDraft(gaps[j].ids, gapStart, gapEnd));
      slated.Ok? && Partial(frames, gaps, qs, slated.value, i, gapEnd)
  {
    var mid := ps;
    var held := ds;
    if cursor < gapStart {
      mid := AppendHold(frames, gaps, ps, ds, i, cursor, gapStart);
      held := ds + [HoldDraft(frames[i], cursor, gapStart)];
    }
    qs := PushSlate(frames, gaps, mid, held, i, j, gapStart, gapEnd);
    forall w: nat | w < i && TiePair(frames, w) ensures HasTie(qs, w) { HasTieGrows(mid, qs, w); }
  }

  lemma CutOne(
    frames: seq<Frame>, gaps: seq<CoalescedGap>, ps: seq<Piece>, ds: seq<Draft>, i: nat, cursor: nat, j: nat)
    returns (qs: seq<Piece>)
    requires WellFormedFrames(frames) && Separated(gaps) && j < |gaps|
    requires gaps[j].ids != [] && Distinct(gaps[j].ids)
    requires Cutting(frames, gaps, ps, ds, i, cursor, j)
    ensures var r := CutGap(frames[i], frames[i].time, frames[i + 1].time, gaps[j], Cut(ds, cursor));
      if r.Ok? then Cutting(frames, gaps, qs, r.value.drafts, i, r.value.cursor, j + 1)
      else r.error == InvalidInput && NIL in gaps[j].ids
  {
    hide Partial, PushDraft, PushHold, Distinct;
    var frame, start, end := frames[i], frames[i].time, frames[i + 1].time;
    var gapStart: nat, gapEnd: nat := Max(gaps[j].start, start), Min(gaps[j].end, end);
    qs := ps;
    if gapStart < gapEnd && gapEnd > cursor {
      HoldBeforeGap(gaps, j, start, end, cursor);
      if NIL !in gaps[j].ids {
        qs := ShowGap(frames, gaps, ps, ds, i, cursor, j, gapStart, gapEnd);
      }
    }
  }

  lemma {:induction false} CutMany(
    frames: seq<Frame>, gaps: seq<CoalescedGap>, ps: seq<Piece>, ds: seq<Draft>, i: nat, j: nat)
    returns (qs: seq<Piece>)
    requires WellFormedFrames(frames) && i + 1 < |frames| && j <= |gaps|
    requires PlannerGaps(gaps, frames[0].time, frames[|frames| - 1].time)
    requires Partial(frames, gaps, ps, ds, i, frames[i].time) && !TiePair(frames, i)
    ensures var r := CutGaps(frames[i], frames[i].time, frames[i + 1].time, gaps, j, ds);
      if r.Ok? then Cutting(frames, gaps, qs, r.value.drafts, i, r.value.cursor, j)
      else r.error == InvalidInput && SomeNilGap(gaps)
  {
    hide CutGap, Partial;
    if j == 0 {
      qs := ps;
    } else {
      qs := CutMany(frames, gaps, ps, ds, i, j - 1);
      var r := CutGaps(frames[i], frames[i].time, frames[i + 1].time, gaps, j - 1, ds);
      if r.Ok? {
        qs := CutOne(frames, gaps, qs, r.value.drafts, i, r.value.cursor, j - 1);
      }
    }
  }

  lemma CutWhole(frames: seq<Frame>, gaps: seq<CoalescedGap>, ps: seq<Piece>, ds: seq<Draft>, i: nat)
    returns (qs: seq<Piece>)
    requires WellFormedFrames(frames) && i + 1 < |frames|
    requires PlannerGaps(gaps, frames[0].time, frames[|frames| - 1].time)
    requires Partial(frames, gaps, ps, ds, i, frames[i].time)
    ensures var r := CutInterval(frames[i], frames[i + 1].time, gaps, ds);
      if r.Ok? then Partial(frames, gaps, qs, r.value, i + 1, frames[i + 1].time)
      else r.error == InvalidInput && SomeNilGap(gaps)
  {
    hide Chain, Shows, WellFormedFrames, PlannerGaps, CutGaps, SomeNilGap, Clear, PushHold;
    var end := frames[i + 1].time;
    if frames[i].time == end {
      qs := Append(frames, gaps, ps, ds, Tie(i, end, end));
      assert qs[|ps|].Tie? && qs[|ps|].frame == i;
      forall w: nat | w < i + 1 && TiePair(frames, w) ensures HasTie(qs, w) {
        if w < i { HasTieGrows(ps, qs, w); }
      }
    } else {
      qs := CutMany(frames, gaps, ps, ds, i, |gaps|);
      var r := CutGaps(frames[i], frames[i].time, end, gaps, |gaps|, ds);
      if r.Ok? && r.value.cursor < end {
        qs := AppendHold(frames, gaps, qs, r.value.drafts, i, r.value.cursor, end);
      }
    }
  }

  lemma {:induction false} CutAll(frames: seq<Frame>, gaps: seq<CoalescedGap>, i: nat) returns (qs: seq<Piece>)
    requires WellFormedFrames(frames) && i < |frames|
    requires PlannerGaps(gaps, frames[0].time, frames[|frames| - 1].time)
    ensures var r := CutIntervals(frames, gaps, i);
      if r.Ok? then Partial(frames, gaps, qs, r.value, i, frames[i].time)
      else r.error == InvalidInput && SomeNilGap(gaps)
  {
    if i == 0 {
      qs := [];
    } else {
      qs := CutAll(frames, gaps, i - 1);
      var r := CutIntervals(frames, gaps, i - 1);
      if r.Ok? { qs := CutWhole(frames, gaps, qs, r.value, i - 1); }
    }
  }

  /** Every real-time plan has a source timeline; cutting fails only on a nil gap identifier. */
  lemma RealTimeTimeline(frames: seq<Frame>, gaps: seq<CoalescedGap>) returns (ps: seq<Piece>)
    requires WellFormedFrames(frames)
    requires PlannerGaps(gaps, frames[0].time, frames[|frames| - 1].time)
    ensures var r := RealTimeDrafts(frames, gaps);
      if r.Ok? then Timeline(frames, gaps, ps, r.value)
      else r.error == InvalidInput && SomeNilGap(gaps)
  {
    var n := |frames| - 1;
    var before := CutAll(frames, gaps, n);
    var r := CutIntervals(frames, gaps, n);
    ps := before;
    if r.Ok? {
      ps := Append(frames, gaps, before, r.value, Terminal(n, frames[n].time, frames[n].time));
      forall w: nat | TiePair(frames, w) ensures HasTie(ps, w) { HasTieGrows(before, ps, w); }
    }
  }
}
