/** Splitting the frames of a range into maximal runs of equal geometry. */
module EpochPartition {
  import opened EpochTypes

  predicate Uniform(frames: seq<FrameMeta>, span: Span) {
    span.start < span.end <= |frames| &&
    forall i :: span.start <= i < span.end ==> frames[i].geometry == frames[span.start].geometry
  }

  /** The geometry of frame x differs from the frame before it. */
  predicate Changes(frames: seq<FrameMeta>, x: nat) {
    0 < x < |frames| && frames[x - 1].geometry != frames[x].geometry
  }

  /** Spans that tile [0, upTo) without gaps. */
  predicate Tiles(spans: seq<Span>, upTo: nat) {
    && (spans == [] ==> upTo == 0)
    && (spans != [] ==> spans[0].start == 0 && spans[|spans| - 1].end == upTo)
    && forall e :: 0 < e < |spans| ==> spans[e - 1].end == spans[e].start
  }

  /** The visual-epoch partition: uniform spans that tile the frames and change geometry at every border. */
  predicate Partition(frames: seq<FrameMeta>, spans: seq<Span>) {
    && Tiles(spans, |frames|)
    && (forall e :: 0 <= e < |spans| ==> Uniform(frames, spans[e]))
    && forall e :: 0 < e < |spans| ==> Changes(frames, spans[e].start)
  }

  method PartitionFrames(frames: seq<FrameMeta>) returns (spans: seq<Span>)
    requires frames != []
    ensures Partition(frames, spans)
  {
    spans := [];
    var start := 0;
    var index := 1;
    while index < |frames|
      invariant 0 <= start < index <= |frames|
      invariant Tiles(spans, start)
      invariant Uniform(frames, Span(start, index))
      invariant forall e :: 0 <= e < |spans| ==> Uniform(frames, spans[e])
      invariant forall e :: 0 < e < |spans| ==> Changes(frames, spans[e].start)
      invariant spans != [] ==> Changes(frames, start)
    {
      if frames[index - 1].geometry != frames[index].geometry {
        spans := spans + [Span(start, index)];
        start := index;
      }
      index := index + 1;
    }
    spans := spans + [Span(start, |frames|)];
  }

  lemma {:induction false} PartitionUpTo(frames: seq<FrameMeta>, k: nat) returns (spans: seq<Span>)
    requires 0 < k <= |frames|
    ensures spans != [] && Tiles(spans, k)
    ensures forall e :: 0 <= e < |spans| ==> Uniform(frames, spans[e])
    ensures forall e :: 0 < e < |spans| ==> Changes(frames, spans[e].start)
  {
    if k == 1 {
      spans := [Span(0, 1)];
    } else {
      var before := PartitionUpTo(frames, k - 1);
      var n := |before| - 1;
      assert Uniform(frames, before[n]);
      if Changes(frames, k - 1) {
        spans := before + [Span(k - 1, k)];
      } else {
        spans := before[n := Span(before[n].start, k)];
        assert Uniform(frames, spans[n]);
      }
    }
  }

  /** Frames have a partition. */
  lemma PartitionExists(frames: seq<FrameMeta>) returns (spans: seq<Span>)
    requires frames != []
    ensures Partition(frames, spans)
  {
    spans := PartitionUpTo(frames, |frames|);
  }

  lemma {:induction false} SpanWithin(frames: seq<FrameMeta>, spans: seq<Span>, e: nat)
    requires Partition(frames, spans) && e < |spans|
    ensures spans[e].start < spans[e].end <= |frames|
    ensures forall d :: 0 <= d < e ==> spans[d].end <= spans[e].start
  {
    assert Uniform(frames, spans[e]);
    if e > 0 {
      SpanWithin(frames, spans, e - 1);
      assert spans[e - 1].end == spans[e].start;
    }
  }

  /** The span that holds a frame. */
  lemma {:induction false} SpanOf(frames: seq<FrameMeta>, spans: seq<Span>, x: nat, k: nat) returns (e: nat)
    requires Partition(frames, spans) && 0 < k <= |spans| && x < spans[k - 1].end
    ensures e < |spans| && spans[e].start <= x < spans[e].end
  {
    if spans[k - 1].start <= x {
      e := k - 1;
    } else {
      e := SpanOf(frames, spans, x, k - 1);
    }
  }

  /** Borders are exactly the geometry changes, which pins the partition down. */
  lemma BordersAreChanges(frames: seq<FrameMeta>, spans: seq<Span>, x: nat)
    requires frames != [] && Partition(frames, spans) && 0 < x < |frames|
    ensures Changes(frames, x) <==> exists e :: 0 < e < |spans| && spans[e].start == x
  {
    var e := SpanOf(frames, spans, x, |spans|);
    assert Uniform(frames, spans[e]);
    if d :| 0 < d < |spans| && spans[d].start == x { OneSpanHolds(frames, spans, x, d, e); }
    assert spans[e].start == x ==> e > 0;
    assert e > 0 ==> Changes(frames, spans[e].start);
  }

  /** Spans do not overlap. */
  lemma OneSpanHolds(frames: seq<FrameMeta>, spans: seq<Span>, x: nat, d: nat, e: nat)
    requires Partition(frames, spans) && d < |spans| && e < |spans|
    requires spans[d].start <= x < spans[d].end && spans[e].start <= x < spans[e].end
    ensures d == e
  {
    SpanWithin(frames, spans, d);
    SpanWithin(frames, spans, e);
  }

  /** Frames have only one partition. */
  lemma PartitionUnique(frames: seq<FrameMeta>, a: seq<Span>, b: seq<Span>)
    requires Partition(frames, a) && Partition(frames, b)
    ensures a == b
  {
    if |a| <= |b| {
      SamePrefix(frames, a, b, |a|);
      EndsTogether(frames, a, b);
    } else {
      SamePrefix(frames, b, a, |b|);
      EndsTogether(frames, b, a);
    }
  }

  lemma {:induction false} SamePrefix(frames: seq<FrameMeta>, a: seq<Span>, b: seq<Span>, k: nat)
    requires Partition(frames, a) && Partition(frames, b) && k <= |a| && k <= |b|
    ensures a[..k] == b[..k]
  {
    if k > 0 {
      SamePrefix(frames, a, b, k - 1);
      var e := k - 1;
      assert e > 0 ==> a[e - 1] == a[..e][e - 1] && b[e - 1] == b[..e][e - 1];
      assert a[e].start == b[e].start;
      NotLonger(frames, a, b, e);
      NotLonger(frames, b, a, e);
      assert a[..k] == a[..e] + [a[e]] && b[..k] == b[..e] + [b[e]];
    }
  }

  /** Two spans that start together end together: neither reaches past a change of geometry. */
  lemma NotLonger(frames: seq<FrameMeta>, a: seq<Span>, b: seq<Span>, e: nat)
    requires Partition(frames, a) && Partition(frames, b) && e < |a| && e < |b| && a[e].start == b[e].start
    ensures b[e].end <= a[e].end
  {
    assert Uniform(frames, a[e]) && Uniform(frames, b[e]);
    var x := a[e].end;
    assert a[e].start < x && b[e].end <= |frames|;
    assert e + 1 < |a| ==> Changes(frames, a[e + 1].start) && a[e + 1].start == x;
    hide Uniform;
    if x < b[e].end { NoChangeInside(frames, b[e], x); }
  }

  lemma NoChangeInside(frames: seq<FrameMeta>, span: Span, x: nat)
    requires Uniform(frames, span) && span.start < x < span.end
    ensures !Changes(frames, x)
  {
    assert frames[x - 1].geometry == frames[span.start].geometry && frames[x].geometry == frames[span.start].geometry;
  }

  lemma EndsTogether(frames: seq<FrameMeta>, a: seq<Span>, b: seq<Span>)
    requires Partition(frames, a) && Partition(frames, b) && |a| <= |b| && a == b[..|a|]
    ensures |a| == |b|
  {
    assert |a| < |b| ==> Uniform(frames, b[|a|]);
    assert a != [] ==> a[|a| - 1] == b[..|a|][|a| - 1];
  }

  /** First and last frame time of every span. */
  function Bounds(frames: seq<FrameMeta>, spans: seq<Span>): (r: seq<Bound>)
    requires Partition(frames, spans)
    ensures |r| == |spans|
  {
    seq(|spans|, e requires 0 <= e < |spans| =>
      assert Uniform(frames, spans[e]);
      Bound(frames[spans[e].start].time, frames[spans[e].end - 1].time))
  }

  /** Epochs of chronological frames are chronological. */
  lemma BoundsOrdered(frames: seq<FrameMeta>, spans: seq<Span>, d: nat, e: nat)
    requires Chronological(frames) && Partition(frames, spans) && d <= e < |spans|
    ensures Bounds(frames, spans)[e].start <= Bounds(frames, spans)[e].end
    ensures d < e ==> Bounds(frames, spans)[d].end <= Bounds(frames, spans)[e].start
  {
    SpanWithin(frames, spans, d);
    SpanWithin(frames, spans, e);
  }
}
