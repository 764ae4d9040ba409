/** Clipping declared capture gaps to the presented range and coalescing them. */
module VideoCoalesce {
  import opened Common
  import opened Sorting
  import opened VideoTypes

  /** Sort key of clipped gaps: start, then end, then identifier. */
  predicate GapKeyLe(a: Gap, b: Gap) {
    || a.start < b.start
    || (a.start == b.start && (a.end < b.end || (a.end == b.end && a.id <= b.id)))
  }

  predicate IdLe(a: Id, b: Id) {
    a <= b
  }

  function Clip(gaps: seq<Gap>, lo: nat, hi: nat): (r: seq<Gap>)
    ensures forall c :: c in r ==> lo <= c.start < c.end <= hi
  {
    if gaps == [] then []
    else
      var g := gaps[0];
      var c := Gap(g.id, Max(g.start, lo), Min(g.end, hi));
      (if c.start < c.end then [c] else []) + Clip(gaps[1..], lo, hi)
  }

  predicate Covers(g: Gap, s: int) {
    g.start <= s < g.end
  }

  predicate SpanCovers(c: CoalescedGap, s: int) {
    c.start <= s < c.end
  }

  predicate Inside(g: Gap, c: CoalescedGap) {
    c.start <= g.start && g.end <= c.end
  }

  ghost predicate Contributes(gs: seq<Gap>, c: CoalescedGap, id: Id) {
    exists k :: 0 <= k < |gs| && gs[k].id == id && Inside(gs[k], c)
  }

  predicate StrictlySorted(ids: seq<Id>) {
    forall i, j :: 0 <= i < j < |ids| ==> ids[i] < ids[j]
  }

  predicate Separated(out: seq<CoalescedGap>) {
    && (forall j :: 0 <= j < |out| ==> out[j].start < out[j].end)
    && forall i, j :: 0 <= i < j < |out| ==> out[i].end < out[j].start
  }

  ghost predicate Housed(g: Gap, out: seq<CoalescedGap>) {
    exists j :: 0 <= j < |out| && Inside(g, out[j])
  }

  ghost predicate AnyCovers(out: seq<CoalescedGap>, s: int) {
    exists j :: 0 <= j < |out| && SpanCovers(out[j], s)
  }

  ghost predicate GapCovers(gs: seq<Gap>, s: int) {
    exists k :: 0 <= k < |gs| && Covers(gs[k], s)
  }

  /** The ranges of out cover exactly the instants covered by the non-empty gaps gs. */
  ghost predicate SameUnion(gs: seq<Gap>, out: seq<CoalescedGap>) {
    && (forall k :: 0 <= k < |gs| ==> Housed(gs[k], out))
    && forall s: int :: AnyCovers(out, s) ==> GapCovers(gs, s)
  }

  ghost predicate ExactIds(gs: seq<Gap>, out: seq<CoalescedGap>) {
    forall j :: 0 <= j < |out| ==>
      StrictlySorted(out[j].ids) && forall id :: id in out[j].ids <==> Contributes(gs, out[j], id)
  }

  /** The canonical decomposition of a list of non-empty gaps. */
  ghost predicate Canonical(gs: seq<Gap>, out: seq<CoalescedGap>) {
    Separated(out) && SameUnion(gs, out) && ExactIds(gs, out)
  }

  predicate NonEmpty(gs: seq<Gap>) {
    forall k :: 0 <= k < |gs| ==> gs[k].start < gs[k].end
  }

  function AddId(ids: seq<Id>, id: Id): seq<Id> {
    if id in ids then ids else Sort(ids + [id], IdLe)
  }

  lemma AddIdMeaning(ids: seq<Id>, id: Id)
    requires StrictlySorted(ids)
    ensures StrictlySorted(AddId(ids, id))
    ensures forall x :: x in AddId(ids, id) <==> x in ids || x == id
  {
    if id !in ids {
      SortSorted(ids + [id], IdLe);
      SortMembers(ids + [id], IdLe);
      SortDistinct(ids + [id], IdLe);
      forall i, j | 0 <= i < j < |AddId(ids, id)| ensures AddId(ids, id)[i] < AddId(ids, id)[j] {
        assert IdLe(AddId(ids, id)[i], AddId(ids, id)[j]);
      }
    }
  }

  /** One gap joins the last range when it starts no later than that range ends. */
  lemma MergeStep(gs: seq<Gap>, out: seq<CoalescedGap>, g: Gap, next: seq<CoalescedGap>)
    requires NonEmpty(gs) && Canonical(gs, out) && out != [] && g.start < g.end
    requires var last := out[|out| - 1];
      && last.start <= g.start <= last.end
      && next == out[|out| - 1 := CoalescedGap(AddId(last.ids, g.id), last.start, Max(g.end, last.end))]
    ensures Canonical(gs + [g], next)
  {
    var n := |out| - 1;
    var last := out[n];
    var all := gs + [g];
    AddIdMeaning(last.ids, g.id);
    forall k | 0 <= k < |all| ensures Housed(all[k], next) {
      if k == |gs| {
        assert Inside(all[k], next[n]);
      } else {
        var j :| 0 <= j < |out| && Inside(gs[k], out[j]);
        assert Inside(all[k], next[j]);
      }
    }
    forall s: int | AnyCovers(next, s) ensures GapCovers(all, s) {
      var j :| 0 <= j < |next| && SpanCovers(next[j], s);
      if j == n && s >= last.end {
        assert Covers(all[|gs|], s);
      } else {
        assert SpanCovers(out[j], s) && AnyCovers(out, s);
        var k :| 0 <= k < |gs| && Covers(gs[k], s);
        assert Covers(all[k], s);
      }
    }
    forall j, id | 0 <= j < |next| ensures id in next[j].ids <==> Contributes(all, next[j], id) {
      MergeIds(gs, out, g, next, j, id);
    }
  }

  lemma MergeIds(gs: seq<Gap>, out: seq<CoalescedGap>, g: Gap, next: seq<CoalescedGap>, j: nat, id: Id)
    requires NonEmpty(gs) && Canonical(gs, out) && out != [] && g.start < g.end
    requires var last := out[|out| - 1];
      && last.start <= g.start <= last.end
      && next == out[|out| - 1 := CoalescedGap(AddId(last.ids, g.id), last.start, Max(g.end, last.end))]
    requires j < |next|
    ensures id in next[j].ids <==> Contributes(gs + [g], next[j], id)
  {
    var n := |out| - 1;
    var all := gs + [g];
    AddIdMeaning(out[n].ids, g.id);
    if j == n && id == g.id {
      assert Inside(all[|gs|], next[n]);
    }
    if Contributes(gs, out[j], id) {
      var k :| 0 <= k < |gs| && gs[k].id == id && Inside(gs[k], out[j]);
      assert all[k].id == id && Inside(all[k], next[j]);
    }
    if Contributes(all, next[j], id) && !(j == n && id == g.id) {
      var k :| 0 <= k < |all| && all[k].id == id && Inside(all[k], next[j]);
      if k < |gs| {
        var i :| 0 <= i < |out| && Inside(gs[k], out[i]);
        assert Inside(gs[k], out[j]);
      }
    }
  }

  lemma PushStep(gs: seq<Gap>, out: seq<CoalescedGap>, g: Gap, next: seq<CoalescedGap>)
    requires NonEmpty(gs) && Canonical(gs, out) && g.start < g.end
    requires out == [] || out[|out| - 1].end < g.start
    requires next == out + [CoalescedGap([g.id], g.start, g.end)]
    ensures Canonical(gs + [g], next)
  {
    var all := gs + [g];
    forall k | 0 <= k < |all| ensures Housed(all[k], next) {
      if k == |gs| {
        assert Inside(all[k], next[|out|]);
      } else {
        var j :| 0 <= j < |out| && Inside(gs[k], out[j]);
        assert Inside(all[k], next[j]);
      }
    }
    forall s: int | AnyCovers(next, s) ensures GapCovers(all, s) {
      var j :| 0 <= j < |next| && SpanCovers(next[j], s);
      if j == |out| {
        assert Covers(all[|gs|], s);
      } else {
        assert SpanCovers(out[j], s) && AnyCovers(out, s);
        var k :| 0 <= k < |gs| && Covers(gs[k], s);
        assert Covers(all[k], s);
      }
    }
    forall j, id | 0 <= j < |next| ensures id in next[j].ids <==> Contributes(all, next[j], id) {
      PushIds(gs, out, g, next, j, id);
    }
  }

  lemma PushIds(gs: seq<Gap>, out: seq<CoalescedGap>, g: Gap, next: seq<CoalescedGap>, j: nat, id: Id)
    requires NonEmpty(gs) && Canonical(gs, out) && g.start < g.end
    requires out == [] || out[|out| - 1].end < g.start
    requires next == out + [CoalescedGap([g.id], g.start, g.end)]
    requires j < |next|
    ensures id in next[j].ids <==> Contributes(gs + [g], next[j], id)
  {
    var all := gs + [g];
    if j == |out| && id == g.id {
      assert all[|gs|].id == id && Inside(all[|gs|], next[j]);
    }
    if j < |out| && Contributes(gs, out[j], id) {
      var k :| 0 <= k < |gs| && gs[k].id == id && Inside(gs[k], out[j]);
      assert all[k].id == id && Inside(all[k], next[j]);
    }
    if Contributes(all, next[j], id) {
      var k :| 0 <= k < |all| && all[k].id == id && Inside(all[k], next[j]);
      if k < |gs| {
        var i :| 0 <= i < |out| && Inside(gs[k], out[i]);
        assert j < |out|;
        assert Inside(gs[k], out[j]);
      }
    }
  }

  /** Canonicity depends on which gaps there are, not on their order or repetition. */
  lemma CanonicalTransfer(a: seq<Gap>, b: seq<Gap>, out: seq<CoalescedGap>)
    requires Canonical(a, out)
    requires forall g :: g in a <==> g in b
    ensures Canonical(b, out)
  {
    forall k | 0 <= k < |b| ensures Housed(b[k], out) {
      assert b[k] in a;
      var i :| 0 <= i < |a| && a[i] == b[k];
    }
    forall s: int | AnyCovers(out, s) ensures GapCovers(b, s) {
      var i :| 0 <= i < |a| && Covers(a[i], s);
      assert a[i] in b;
      var k :| 0 <= k < |b| && b[k] == a[i];
    }
    forall j, id | 0 <= j < |out| ensures id in out[j].ids <==> Contributes(b, out[j], id) {
      ContributesTransfer(a, b, out[j], id);
      ContributesTransfer(b, a, out[j], id);
    }
  }

  lemma ContributesTransfer(a: seq<Gap>, b: seq<Gap>, c: CoalescedGap, id: Id)
    requires forall g :: g in a <==> g in b
    ensures Contributes(a, c, id) ==> Contributes(b, c, id)
  {
    if Contributes(a, c, id) {
      var i :| 0 <= i < |a| && a[i].id == id && Inside(a[i], c);
      assert a[i] in b;
      var k :| 0 <= k < |b| && b[k] == a[i];
    }
  }

  predicate Within(out: seq<CoalescedGap>, lo: nat, hi: nat) {
    forall j :: 0 <= j < |out| ==> lo <= out[j].start < out[j].end <= hi
  }

  /** What one sorted gap does to the ranges built so far. */
  function Absorb(out: seq<CoalescedGap>, g: Gap): seq<CoalescedGap> {
    if out != [] && g.start <= out[|out| - 1].end then
      var last := out[|out| - 1];
      out[|out| - 1 := CoalescedGap(AddId(last.ids, g.id), last.start, Max(g.end, last.end))]
    else
      out + [CoalescedGap([g.id], g.start, g.end)]
  }

  function AbsorbFirst(sorted: seq<Gap>, i: nat): seq<CoalescedGap>
    requires i <= |sorted|
  {
    if i == 0 then [] else Absorb(AbsorbFirst(sorted, i - 1), sorted[i - 1])
  }

  lemma CanonicalEmpty()
    ensures Canonical([], [])
  {
  }

  lemma {:induction false} AbsorbCanonical(sorted: seq<Gap>, i: nat)
    requires NonEmpty(sorted) && Sorted(sorted, GapKeyLe) && i <= |sorted|
    ensures Canonical(sorted[..i], AbsorbFirst(sorted, i))
    ensures var out := AbsorbFirst(sorted, i);
      out != [] ==> forall k :: i <= k < |sorted| ==> out[|out| - 1].start <= sorted[k].start
  {
    hide Canonical, AddId;
    if i == 0 {
      CanonicalEmpty();
      assert sorted[..0] == [];
    } else {
      AbsorbCanonical(sorted, i - 1);
      var g := sorted[i - 1];
      var out := AbsorbFirst(sorted, i - 1);
      var next := AbsorbFirst(sorted, i);
      assert sorted[..i] == sorted[..i - 1] + [g];
      assert NonEmpty(sorted[..i - 1]);
      if out != [] && g.start <= out[|out| - 1].end {
        MergeStep(sorted[..i - 1], out, g, next);
      } else {
        PushStep(sorted[..i - 1], out, g, next);
        forall k | i <= k < |sorted| ensures g.start <= sorted[k].start { assert GapKeyLe(g, sorted[k]); }
      }
    }
  }

  lemma {:induction false} AbsorbBounds(sorted: seq<Gap>, i: nat, lo: nat, hi: nat)
    requires i <= |sorted|
    requires forall k :: 0 <= k < |sorted| ==> lo <= sorted[k].start < sorted[k].end <= hi
    ensures Within(AbsorbFirst(sorted, i), lo, hi)
  {
    if i > 0 {
      AbsorbBounds(sorted, i - 1, lo, hi);
      assert lo <= sorted[i - 1].start < sorted[i - 1].end <= hi;
    }
  }

  /** The planner's coalesced gaps of a presented range. */
  function Coalesce(gaps: seq<Gap>, lo: nat, hi: nat): seq<CoalescedGap> {
    var clipped := Sort(Clip(gaps, lo, hi), GapKeyLe);
    AbsorbFirst(clipped, |clipped|)
  }

  /** Clip to the presented range, sort, and merge every gap that touches the last range. */
  method CoalesceEpochGaps(gaps: seq<Gap>, lo: nat, hi: nat) returns (out: seq<CoalescedGap>)
    requires lo <= hi
    ensures out == Coalesce(gaps, lo, hi)
  {
    var clipped := Sort(Clip(gaps, lo, hi), GapKeyLe);
    out := [];
    var i := 0;
    while i < |clipped|
      invariant 0 <= i <= |clipped|
      invariant out == AbsorbFirst(clipped, i)
    {
      var g := clipped[i];
      if out != [] && g.start <= out[|out| - 1].end {
        var last := out[|out| - 1];
        out := out[|out| - 1 := CoalescedGap(AddId(last.ids, g.id), last.start, Max(g.end, last.end))];
      } else {
        out := out + [CoalescedGap([g.id], g.start, g.end)];
      }
      i := i + 1;
    }
  }

  lemma CoalesceDone(members: seq<Gap>, clipped: seq<Gap>, lo: nat, hi: nat)
    requires forall c :: c in members ==> lo <= c.start < c.end <= hi
    requires clipped == Sort(members, GapKeyLe)
    ensures Canonical(members, AbsorbFirst(clipped, |clipped|))
    ensures Within(AbsorbFirst(clipped, |clipped|), lo, hi)
  {
    SortedClip(members, clipped);
    forall k | 0 <= k < |clipped| ensures lo <= clipped[k].start < clipped[k].end <= hi {
      assert clipped[k] in members;
    }
    AbsorbCanonical(clipped, |clipped|);
    AbsorbBounds(clipped, |clipped|, lo, hi);
    assert clipped[..|clipped|] == clipped;
    CanonicalTransfer(clipped, members, AbsorbFirst(clipped, |clipped|));
  }

  /** Coalescing yields the canonical decomposition of the clipped gaps. */
  lemma CoalesceIsCanonical(gaps: seq<Gap>, lo: nat, hi: nat)
    ensures Canonical(Clip(gaps, lo, hi), Coalesce(gaps, lo, hi))
    ensures Within(Coalesce(gaps, lo, hi), lo, hi)
    ensures forall j :: 0 <= j < |Coalesce(gaps, lo, hi)| ==>
      Coalesce(gaps, lo, hi)[j].ids != [] && Distinct(Coalesce(gaps, lo, hi)[j].ids)
  {
    var members, out := Clip(gaps, lo, hi), Coalesce(gaps, lo, hi);
    CoalesceDone(members, Sort(members, GapKeyLe), lo, hi);
    hide Coalesce, Clip;
    forall j | 0 <= j < |out| ensures out[j].ids != [] && Distinct(out[j].ids) { HasContributor(members, out, j); }
  }

  /** Every range of a canonical decomposition names at least one gap, and none twice. */
  lemma HasContributor(gs: seq<Gap>, out: seq<CoalescedGap>, j: nat)
    requires NonEmpty(gs) && Canonical(gs, out) && j < |out|
    ensures out[j].ids != [] && Distinct(out[j].ids)
  {
    assert SpanCovers(out[j], out[j].start) && AnyCovers(out, out[j].start);
    var k :| 0 <= k < |gs| && Covers(gs[k], out[j].start);
    assert Housed(gs[k], out);
    var i :| 0 <= i < |out| && Inside(gs[k], out[i]);
    assert i == j;
    assert Contributes(gs, out[j], gs[k].id);
  }

  /** The order in which gaps are declared does not matter. */
  lemma CoalesceIgnoresOrder(gs: seq<Gap>, hs: seq<Gap>, lo: nat, hi: nat)
    requires forall g :: g in gs <==> g in hs
    ensures Coalesce(gs, lo, hi) == Coalesce(hs, lo, hi)
  {
    hide Canonical, Coalesce;
    CoalesceIsCanonical(gs, lo, hi);
    CoalesceIsCanonical(hs, lo, hi);
    forall c ensures c in Clip(gs, lo, hi) <==> c in Clip(hs, lo, hi) {
      ClipTransfer(gs, hs, lo, hi, c);
      ClipTransfer(hs, gs, lo, hi, c);
    }
    CanonicalUnique(Clip(gs, lo, hi), Clip(hs, lo, hi), Coalesce(gs, lo, hi), Coalesce(hs, lo, hi));
  }

  lemma ClipTransfer(gs: seq<Gap>, hs: seq<Gap>, lo: nat, hi: nat, c: Gap)
    requires forall g :: g in gs <==> g in hs
    ensures c in Clip(gs, lo, hi) ==> c in Clip(hs, lo, hi)
  {
    ClipMeaning(gs, lo, hi, c);
    ClipMeaning(hs, lo, hi, c);
    if c in Clip(gs, lo, hi) {
      var k :| 0 <= k < |gs| && c == Gap(gs[k].id, Max(gs[k].start, lo), Min(gs[k].end, hi)) && c.start < c.end;
      assert gs[k] in hs;
      var l :| 0 <= l < |hs| && hs[l] == gs[k];
    }
  }

  lemma SortedClip(members: seq<Gap>, clipped: seq<Gap>)
    requires NonEmpty(members) && clipped == Sort(members, GapKeyLe)
    ensures Sorted(clipped, GapKeyLe) && NonEmpty(clipped)
    ensures forall g :: g in clipped <==> g in members
  {
    SortSorted(members, GapKeyLe);
    SortMembers(members, GapKeyLe);
    forall k | 0 <= k < |clipped| ensures clipped[k].start < clipped[k].end { assert clipped[k] in members; }
  }

  /** Clipping keeps exactly the non-empty intersections with the presented range. */
  lemma {:induction false} ClipMeaning(gaps: seq<Gap>, lo: nat, hi: nat, c: Gap)
    ensures c in Clip(gaps, lo, hi) <==>
      exists k :: 0 <= k < |gaps| && c == Gap(gaps[k].id, Max(gaps[k].start, lo), Min(gaps[k].end, hi)) && c.start < c.end
  {
    if gaps != [] {
      ClipMeaning(gaps[1..], lo, hi, c);
      if c in Clip(gaps[1..], lo, hi) {
        var k :| 0 <= k < |gaps[1..]| && c == Gap(gaps[1..][k].id, Max(gaps[1..][k].start, lo), Min(gaps[1..][k].end, hi));
        assert gaps[k + 1] == gaps[1..][k];
      }
      if k :| 0 <= k < |gaps| && c == Gap(gaps[k].id, Max(gaps[k].start, lo), Min(gaps[k].end, hi)) && c.start < c.end {
        if k > 0 { assert gaps[1..][k - 1] == gaps[k]; }
      }
    }
  }

  /** The coalesced ranges cover an instant exactly when some clipped gap does. */
  lemma SameCover(gs: seq<Gap>, out: seq<CoalescedGap>, s: int)
    requires Canonical(gs, out)
    ensures GapCovers(gs, s) <==> AnyCovers(out, s)
  {
    if k :| 0 <= k < |gs| && Covers(gs[k], s) {
      assert Housed(gs[k], out);
      var j :| 0 <= j < |out| && Inside(gs[k], out[j]);
      assert SpanCovers(out[j], s);
    }
  }

  /** Two separated lists of ranges that cover the same instants are the same ranges. */
  lemma {:induction false} SeparatedUnique(a: seq<CoalescedGap>, b: seq<CoalescedGap>)
    requires Separated(a) && Separated(b)
    requires forall s: int :: AnyCovers(a, s) <==> AnyCovers(b, s)
    ensures |a| == |b|
    ensures forall j :: 0 <= j < |a| ==> a[j].start == b[j].start && a[j].end == b[j].end
    decreases |a| + |b|
  {
    FirstCovered(a);
    FirstCovered(b);
    if a != [] && b != [] {
      assert AnyCovers(a, a[0].start) && AnyCovers(b, b[0].start);
      assert !AnyCovers(a, a[0].end) && !AnyCovers(b, b[0].end);
      forall s: int ensures AnyCovers(a[1..], s) <==> AnyCovers(b[1..], s) {
        TailCovers(a, s);
        TailCovers(b, s);
      }
      SeparatedUnique(a[1..], b[1..]);
      forall j | 0 <= j < |a| ensures a[j].start == b[j].start && a[j].end == b[j].end {
        if j > 0 { assert a[j] == a[1..][j - 1] && b[j] == b[1..][j - 1]; }
      }
    }
  }

  lemma FirstCovered(a: seq<CoalescedGap>)
    requires Separated(a)
    ensures a != [] ==> forall s: int :: a[0].start <= s < a[0].end ==> AnyCovers(a, s)
    ensures a != [] ==> AnyCovers(a, a[0].start) && !AnyCovers(a, a[0].end)
    ensures a != [] ==> forall s: int :: AnyCovers(a, s) ==> a[0].start <= s
  {
    if a != [] {
      forall s: int | a[0].start <= s < a[0].end ensures AnyCovers(a, s) { assert SpanCovers(a[0], s); }
    }
  }

  lemma TailCovers(a: seq<CoalescedGap>, s: int)
    requires Separated(a) && a != []
    ensures AnyCovers(a[1..], s) <==> AnyCovers(a, s) && s > a[0].end
  {
    if AnyCovers(a, s) && s > a[0].end {
      var j :| 0 <= j < |a| && SpanCovers(a[j], s);
      assert SpanCovers(a[1..][j - 1], s);
    }
    if AnyCovers(a[1..], s) {
      var j :| 0 <= j < |a[1..]| && SpanCovers(a[1..][j], s);
      assert SpanCovers(a[j + 1], s);
    }
  }

  lemma TailMember(a: seq<Id>, x: Id)
    requires StrictlySorted(a) && a != []
    ensures x in a[1..] <==> x in a && x > a[0]
  {
    assert a == [a[0]] + a[1..];
  }

  lemma {:induction false} StrictlySortedUnique(a: seq<Id>, b: seq<Id>)
    requires StrictlySorted(a) && StrictlySorted(b)
    requires forall x :: x in a <==> x in b
    ensures a == b
    decreases |a|
  {
    assert a != [] ==> a[0] in a;
    assert b != [] ==> b[0] in b;
    if a != [] {
      forall x ensures x in a[1..] <==> x in b[1..] {
        TailMember(a, x);
        TailMember(b, x);
      }
      StrictlySortedUnique(a[1..], b[1..]);
      assert a == [a[0]] + a[1..] && b == [b[0]] + b[1..];
    }
  }

  /** The canonical decomposition is unique, so coalescing cannot depend on the order of the gaps. */
  lemma CanonicalUnique(gs: seq<Gap>, hs: seq<Gap>, a: seq<CoalescedGap>, b: seq<CoalescedGap>)
    requires NonEmpty(gs) && NonEmpty(hs)
    requires Canonical(gs, a) && Canonical(hs, b)
    requires forall g :: g in gs <==> g in hs
    ensures a == b
  {
    CanonicalTransfer(hs, gs, b);
    forall s: int ensures AnyCovers(a, s) <==> AnyCovers(b, s) {
      SameCover(gs, a, s);
      SameCover(gs, b, s);
    }
    SeparatedUnique(a, b);
    forall j | 0 <= j < |a| ensures a[j] == b[j] {
      forall id ensures Contributes(gs, a[j], id) <==> Contributes(gs, b[j], id) {
        SameRangeContributes(gs, a[j], b[j], id);
        SameRangeContributes(gs, b[j], a[j], id);
      }
      StrictlySortedUnique(a[j].ids, b[j].ids);
    }
  }

  lemma SameRangeContributes(gs: seq<Gap>, c: CoalescedGap, d: CoalescedGap, id: Id)
    requires c.start == d.start && c.end == d.end
    ensures Contributes(gs, c, id) ==> Contributes(gs, d, id)
  {
    if Contributes(gs, c, id) {
      var k :| 0 <= k < |gs| && gs[k].id == id && Inside(gs[k], c);
      assert Inside(gs[k], d);
    }
  }
}
