/** Focus times: the best-ranked distinct moments of major change in the available storyboards. */
module Focus {
  import opened Common
  import opened Sorting

  const MAX_FOCUS_TIMES: nat := 16

  datatype Moment = Moment(time: nat, index: nat, id: Id)

  /** Why a storyboard selected a frame. */
  datatype Reason =
    | PreAnchor | PostAnchor | FirstChange | PeakBaselineChange | FinalFrame | MarkerBoundary | GapBoundary
    | LocalChangePeak | ChangeTrend | ChangedRegionTransition | InformationGain | TemporalCoverage

  const MAJOR_REASONS := [FirstChange, PeakBaselineChange, LocalChangePeak, ChangedRegionTransition, ChangeTrend, InformationGain]

  datatype SelectedFrame = SelectedFrame(moment: Moment, reasons: seq<Reason>)

  predicate HasMajor(frame: SelectedFrame) {
    exists k :: 0 <= k < |frame.reasons| && frame.reasons[k] in MAJOR_REASONS
  }

  /** An artifact outcome: only available storyboards with a selection carry moments. */
  datatype Outcome =
    | NoStoryboard
    | Storyboard(epoch: nat, firstChange: Option<Moment>, peakBaseline: Option<Moment>, peakAdjacent: Option<Moment>,
                 frames: seq<SelectedFrame>)

  datatype Candidate = Candidate(rank: nat, epoch: nat, index: nat, id: Id, time: nat)

  predicate KeyLt(a: Candidate, b: Candidate) {
    a.rank < b.rank ||
    (a.rank == b.rank && (a.epoch < b.epoch ||
      (a.epoch == b.epoch && (a.index < b.index || (a.index == b.index && a.id < b.id)))))
  }

  /** The order ignores time, so the set treats candidates of one key as one element. */
  predicate SameKey(a: Candidate, b: Candidate) {
    a.rank == b.rank && a.epoch == b.epoch && a.index == b.index && a.id == b.id
  }

  predicate Ascending(s: seq<Candidate>) {
    forall i, j :: 0 <= i < j < |s| ==> KeyLt(s[i], s[j])
  }

  /** Insertion into the ordered set: an element with the key of another is not added. */
  function InsertKey(s: seq<Candidate>, c: Candidate): seq<Candidate> {
    if s == [] then [c]
    else if KeyLt(c, s[0]) then [c] + s
    else if SameKey(c, s[0]) then s
    else [s[0]] + InsertKey(s[1..], c)
  }

  predicate HasKey(s: seq<Candidate>, c: Candidate) {
    exists k :: 0 <= k < |s| && SameKey(s[k], c)
  }

  lemma {:induction false} InsertKeyExact(s: seq<Candidate>, c: Candidate)
    requires Ascending(s)
    ensures Ascending(InsertKey(s, c))
    ensures forall x :: x in InsertKey(s, c) <==> x in s || (x == c && !HasKey(s, c))
  {
    if s != [] && KeyLt(c, s[0]) {
      assert forall k :: 0 <= k < |s| ==> !SameKey(s[k], c);
    } else if s != [] && !SameKey(c, s[0]) {
      var rest := InsertKey(s[1..], c);
      InsertKeyExact(s[1..], c);
      assert HasKey(s, c) <==> HasKey(s[1..], c) by {
        if HasKey(s, c) {
          var k :| 0 <= k < |s| && SameKey(s[k], c);
          assert s[1..][k - 1] == s[k];
        }
        if HasKey(s[1..], c) {
          var k :| 0 <= k < |s[1..]| && SameKey(s[1..][k], c);
          assert s[k + 1] == s[1..][k];
        }
      }
      forall j | 0 <= j < |rest| ensures KeyLt(s[0], rest[j]) {
        assert rest[j] in rest;
        if rest[j] != c {
          var k :| 0 <= k < |s[1..]| && s[1..][k] == rest[j];
          assert KeyLt(s[0], s[k + 1]);
        }
      }
      assert s == [s[0]] + s[1..];
      hide InsertKey, HasKey;
      assert InsertKey(s, c) == [s[0]] + rest by { InsertKeyStep(s, c); }
    }
  }

  lemma InsertKeyStep(s: seq<Candidate>, c: Candidate)
    requires s != [] && !KeyLt(c, s[0]) && !SameKey(c, s[0])
    ensures InsertKey(s, c) == [s[0]] + InsertKey(s[1..], c)
  {
  }

  /** The ordered set after inserting candidates one by one. */
  function Collect(cs: seq<Candidate>): seq<Candidate> {
    if cs == [] then [] else InsertKey(Collect(cs[..|cs| - 1]), cs[|cs| - 1])
  }

  /** Candidates of one key agree on their time, as candidates for one frame do. */
  predicate Consistent(cs: seq<Candidate>) {
    forall i, j :: 0 <= i < |cs| && 0 <= j < |cs| && SameKey(cs[i], cs[j]) ==> cs[i] == cs[j]
  }

  lemma {:induction false} CollectAscends(cs: seq<Candidate>)
    ensures Ascending(Collect(cs))
    ensures forall x :: x in Collect(cs) ==> x in cs
  {
    if cs != [] {
      CollectAscends(cs[..|cs| - 1]);
      InsertKeyExact(Collect(cs[..|cs| - 1]), cs[|cs| - 1]);
      assert cs == cs[..|cs| - 1] + [cs[|cs| - 1]];
    }
  }

  lemma {:induction false} CollectKeepsAll(cs: seq<Candidate>, x: Candidate)
    requires Consistent(cs) && x in cs
    ensures x in Collect(cs)
  {
    var n := |cs| - 1;
    var before := Collect(cs[..n]);
    CollectAscends(cs[..n]);
    InsertKeyExact(before, cs[n]);
    if x in cs[..n] {
      assert Consistent(cs[..n]);
      CollectKeepsAll(cs[..n], x);
    } else {
      assert x == cs[n];
      KeyIsNew(cs, n);
    }
  }

  lemma KeyIsNew(cs: seq<Candidate>, n: nat)
    requires Consistent(cs) && n < |cs| && cs[n] !in cs[..n]
    ensures !HasKey(Collect(cs[..n]), cs[n])
  {
    var before := Collect(cs[..n]);
    CollectAscends(cs[..n]);
    hide Collect;
    forall k | 0 <= k < |before| ensures !SameKey(before[k], cs[n]) {
      assert before[k] in cs[..n];
      var i :| 0 <= i < n && cs[..n][i] == before[k];
      assert cs[i] == before[k] && cs[i] != cs[n];
    }
  }

  lemma HeadIsBest(s: seq<Candidate>, x: Candidate)
    requires Ascending(s) && x in s
    ensures x == s[0] || KeyLt(s[0], x)
  {
  }

  /** Two ascending sequences with the same members are equal. */
  lemma {:induction false} AscendingUnique(a: seq<Candidate>, b: seq<Candidate>)
    requires Ascending(a) && Ascending(b) && forall x :: x in a <==> x in b
    ensures a == b
  {
    assert b != [] ==> b[0] in a;
    if a != [] {
      assert a[0] in b;
      HeadIsBest(b, a[0]);
      HeadIsBest(a, b[0]);
      assert a[0] == b[0];
      forall x ensures x in a[1..] <==> x in b[1..] {
        TailMembers(a, x);
        TailMembers(b, x);
      }
      AscendingUnique(a[1..], b[1..]);
      assert a == [a[0]] + a[1..] && b == [b[0]] + b[1..];
    }
  }

  lemma TailMembers(a: seq<Candidate>, x: Candidate)
    requires Ascending(a) && a != []
    ensures x in a[1..] <==> x in a && x != a[0]
  {
    if x in a[1..] {
      var k :| 0 <= k < |a[1..]| && a[1..][k] == x;
      assert KeyLt(a[0], a[k + 1]);
    }
    assert a == [a[0]] + a[1..];
  }

  function TimeOf(c: Candidate): nat {
    c.time
  }

  function TimeSet(s: seq<Candidate>): set<nat> {
    set c | c in s :: c.time
  }

  /** The first candidate of every time, in order. */
  function FirstOfEachTime(s: seq<Candidate>): seq<Candidate> {
    if s == [] then []
    else
      var last := s[|s| - 1];
      var before := FirstOfEachTime(s[..|s| - 1]);
      if last.time in TimeSet(s[..|s| - 1]) then before else before + [last]
  }

  /** Every time is kept once. */
  lemma {:induction false} FirstOfEachTimeKeeps(s: seq<Candidate>)
    ensures var r := FirstOfEachTime(s);
      Distinct(Map(TimeOf, r)) && TimeSet(r) == TimeSet(s) && forall d :: d in r ==> d in s
  {
    if s != [] {
      var n := |s| - 1;
      var before, last := s[..n], s[n];
      var r := FirstOfEachTime(before);
      FirstOfEachTimeKeeps(before);
      assert s == before + [last];
      assert TimeSet(s) == TimeSet(before) + {last.time};
      if last.time !in TimeSet(before) { AppendTime(r, last); }
      hide TimeSet;
    }
  }

  /** Each member of r is the best of its time in s. */
  predicate BestOf(r: seq<Candidate>, s: seq<Candidate>) {
    forall d, c :: d in r && c in s && c.time == d.time ==> c == d || KeyLt(d, c)
  }

  /** Each kept candidate is the best of its time. */
  lemma {:induction false} FirstOfEachTimeBest(s: seq<Candidate>)
    requires Ascending(s)
    ensures Ascending(FirstOfEachTime(s)) && BestOf(FirstOfEachTime(s), s)
  {
    if s != [] {
      var n := |s| - 1;
      var before, last := s[..n], s[n];
      var r := FirstOfEachTime(before);
      FirstOfEachTimeBest(before);
      FirstOfEachTimeKeeps(before);
      assert s == before + [last];
      LastIsWorst(before, last);
      assert forall c :: c in before ==> c.time in TimeSet(before);
      LastStep(s);
      hide TimeSet, FirstOfEachTime, KeyLt, BestOf;
      if last.time in TimeSet(before) { BestUnlessRepeated(r, before, last); } else { BestWithLast(r, before, last); }
    }
  }

  /** A last candidate whose time is taken is beaten by the one that took it. */
  lemma BestUnlessRepeated(r: seq<Candidate>, before: seq<Candidate>, last: Candidate)
    requires BestOf(r, before) && (forall d :: d in r ==> d in before) && forall c :: c in before ==> KeyLt(c, last)
    ensures BestOf(r, before + [last])
  {
  }

  /** A last candidate with a new time is the best of it. */
  lemma BestWithLast(r: seq<Candidate>, before: seq<Candidate>, last: Candidate)
    requires BestOf(r, before) && (forall d :: d in r ==> d in before) && Ascending(r)
    requires forall c :: c in before ==> KeyLt(c, last) && c.time != last.time
    ensures BestOf(r + [last], before + [last]) && Ascending(r + [last])
  {
    hide KeyLt;
    forall k | 0 <= k < |r| ensures KeyLt(r[k], last) { assert r[k] in r; }
  }

  lemma LastStep(s: seq<Candidate>)
    requires s != []
    ensures var n := |s| - 1;
      FirstOfEachTime(s) == if s[n].time in TimeSet(s[..n]) then FirstOfEachTime(s[..n]) else FirstOfEachTime(s[..n]) + [s[n]]
  {
  }

  lemma LastIsWorst(before: seq<Candidate>, last: Candidate)
    requires Ascending(before + [last])
    ensures forall c :: c in before ==> KeyLt(c, last)
  {
    var s := before + [last];
    forall c | c in before ensures KeyLt(c, last) {
      var k :| 0 <= k < |before| && before[k] == c;
      assert KeyLt(s[k], s[|before|]);
    }
  }

  lemma AppendTime(r: seq<Candidate>, last: Candidate)
    requires Distinct(Map(TimeOf, r)) && last.time !in TimeSet(r)
    ensures Distinct(Map(TimeOf, r + [last])) && TimeSet(r + [last]) == TimeSet(r) + {last.time}
  {
    forall i | 0 <= i < |r| ensures r[i].time != last.time { assert r[i] in r; }
    assert forall c :: c in r + [last] <==> c in r || c == last;
  }

  predicate TimeLe(a: Candidate, b: Candidate) {
    a.time <= b.time
  }

  /** One candidate for every time, best first. */
  function Distilled(cs: seq<Candidate>): seq<Candidate> {
    FirstOfEachTime(Collect(cs))
  }

  function Kept(cs: seq<Candidate>): seq<Candidate> {
    if |Distilled(cs)| <= MAX_FOCUS_TIMES then Distilled(cs) else Distilled(cs)[..MAX_FOCUS_TIMES]
  }

  function FocusTimes(cs: seq<Candidate>): seq<nat> {
    Map(TimeOf, Sort(Kept(cs), TimeLe))
  }

  function MomentCandidates(moment: Option<Moment>, rank: nat, epoch: nat): seq<Candidate> {
    if moment.None? then []
    else [Candidate(rank, epoch, moment.value.index, moment.value.id, moment.value.time)]
  }

  function FrameCandidates(frames: seq<SelectedFrame>, epoch: nat): seq<Candidate> {
    if frames == [] then []
    else
      var last := frames[|frames| - 1];
      FrameCandidates(frames[..|frames| - 1], epoch) + (if HasMajor(last) then MomentCandidates(Some(last.moment), 3, epoch) else [])
  }

  /** The moments of one storyboard: three summary moments, then its major selected frames. */
  function OutcomeCandidates(o: Outcome): seq<Candidate> {
    match o
    case NoStoryboard => []
    case Storyboard(epoch, first, baseline, adjacent, frames) =>
      MomentCandidates(first, 0, epoch) + MomentCandidates(baseline, 1, epoch) + MomentCandidates(adjacent, 2, epoch)
      + FrameCandidates(frames, epoch)
  }

  function AllCandidates(outcomes: seq<Outcome>): seq<Candidate> {
    if outcomes == [] then []
    else AllCandidates(outcomes[..|outcomes| - 1]) + OutcomeCandidates(outcomes[|outcomes| - 1])
  }

  // Extraction

  lemma CollectAppend(cs: seq<Candidate>, c: Candidate)
    ensures Collect(cs + [c]) == InsertKey(Collect(cs), c)
  {
    assert (cs + [c])[..|cs + [c]| - 1] == cs;
  }

  method PushMoment(candidates: seq<Candidate>, moment: Option<Moment>, rank: nat, epoch: nat, ghost before: seq<Candidate>)
    returns (r: seq<Candidate>)
    requires candidates == Collect(before)
    ensures r == Collect(before + MomentCandidates(moment, rank, epoch))
  {
    r := candidates;
    if moment.Some? {
      var c := Candidate(rank, epoch, moment.value.index, moment.value.id, moment.value.time);
      CollectAppend(before, c);
      r := InsertKey(r, c);
    } else {
      assert before + MomentCandidates(moment, rank, epoch) == before;
    }
  }

  method PushOutcome(candidates: seq<Candidate>, outcome: Outcome, ghost before: seq<Candidate>) returns (r: seq<Candidate>)
    requires candidates == Collect(before)
    ensures r == Collect(before + OutcomeCandidates(outcome))
  {
    hide Collect, MomentCandidates;
    r := candidates;
    if outcome.NoStoryboard? {
      assert before + [] == before;
      return;
    }
    ghost var first, baseline, adjacent :=
      MomentCandidates(outcome.firstChange, 0, outcome.epoch), MomentCandidates(outcome.peakBaseline, 1, outcome.epoch),
      MomentCandidates(outcome.peakAdjacent, 2, outcome.epoch);
    r := PushMoment(r, outcome.firstChange, 0, outcome.epoch, before);
    r := PushMoment(r, outcome.peakBaseline, 1, outcome.epoch, before + first);
    r := PushMoment(r, outcome.peakAdjacent, 2, outcome.epoch, before + first + baseline);
    ghost var head := before + first + baseline + adjacent;
    var frames := outcome.frames;
    var k := 0;
    assert head + FrameCandidates(frames[..0], outcome.epoch) == head;
    while k < |frames|
      invariant 0 <= k <= |frames|
      invariant r == Collect(head + FrameCandidates(frames[..k], outcome.epoch))
    {
      ghost var soFar := FrameCandidates(frames[..k], outcome.epoch);
      assert frames[..k + 1][..k] == frames[..k];
      if HasMajor(frames[k]) {
        r := PushMoment(r, Some(frames[k].moment), 3, outcome.epoch, head + soFar);
        assert head + soFar + MomentCandidates(Some(frames[k].moment), 3, outcome.epoch)
            == head + FrameCandidates(frames[..k + 1], outcome.epoch);
      } else {
        assert soFar + [] == soFar;
      }
      k := k + 1;
    }
    assert frames[..k] == frames;
    assert head + FrameCandidates(frames, outcome.epoch) == before + OutcomeCandidates(outcome);
  }

  method ExtractFocusTimes(outcomes: seq<Outcome>) returns (times: seq<nat>)
    ensures times == FocusTimes(AllCandidates(outcomes))
  {
    hide Collect, OutcomeCandidates, Sort;
    var candidates: seq<Candidate> := [];
    assert Collect([]) == [] by { NothingCollected(); }
    var k := 0;
    while k < |outcomes|
      invariant 0 <= k <= |outcomes|
      invariant candidates == Collect(AllCandidates(outcomes[..k]))
    {
      assert outcomes[..k + 1][..k] == outcomes[..k];
      candidates := PushOutcome(candidates, outcomes[k], AllCandidates(outcomes[..k]));
      k := k + 1;
    }
    assert outcomes[..k] == outcomes;
    var seenTimes: set<nat> := {};
    var deduped: seq<Candidate> := [];
    k := 0;
    while k < |candidates|
      invariant 0 <= k <= |candidates|
      invariant deduped == FirstOfEachTime(candidates[..k]) && seenTimes == TimeSet(candidates[..k])
    {
      assert candidates[..k + 1][..k] == candidates[..k];
      TimeSetGrows(candidates, k);
      if candidates[k].time !in seenTimes {
        deduped := deduped + [candidates[k]];
      }
      seenTimes := seenTimes + {candidates[k].time};
      k := k + 1;
    }
    assert candidates[..k] == candidates;
    if |deduped| > MAX_FOCUS_TIMES {
      deduped := deduped[..MAX_FOCUS_TIMES];
    }
    times := Map(TimeOf, Sort(deduped, TimeLe));
  }

  lemma NothingCollected()
    ensures Collect([]) == []
  {
  }

  lemma TimeSetGrows(s: seq<Candidate>, k: nat)
    requires k < |s|
    ensures TimeSet(s[..k + 1]) == TimeSet(s[..k]) + {s[k].time}
  {
    assert s[..k + 1] == s[..k] + [s[k]];
  }

  // What is extracted

  lemma KeptFacts(cs: seq<Candidate>)
    ensures Ascending(Distilled(cs)) && Distinct(Map(TimeOf, Distilled(cs))) && TimeSet(Distilled(cs)) == TimeSet(Collect(cs))
    ensures Distinct(Map(TimeOf, Kept(cs))) && |Kept(cs)| <= MAX_FOCUS_TIMES
  {
    CollectAscends(cs);
    FirstOfEachTimeKeeps(Collect(cs));
    FirstOfEachTimeBest(Collect(cs));
    hide Collect, FirstOfEachTime;
    assert forall k :: 0 <= k < |Kept(cs)| ==> Map(TimeOf, Kept(cs))[k] == Map(TimeOf, Distilled(cs))[k];
  }

  lemma TimeOrder()
    ensures TotalPreorder(TimeLe)
  {
  }

  /** At most sixteen focus times, strictly increasing. */
  lemma FocusIncreases(cs: seq<Candidate>, i: nat, j: nat)
    requires i < j < |FocusTimes(cs)|
    ensures FocusTimes(cs)[i] < FocusTimes(cs)[j]
    ensures |FocusTimes(cs)| <= MAX_FOCUS_TIMES
  {
    KeptFacts(cs);
    var kept := Kept(cs);
    SortMembers(kept, TimeLe);
    SortedTimes(kept);
    TimeOrder();
    SortSorted(kept, TimeLe);
    hide Kept, Sort;
    assert TimeLe(Sort(kept, TimeLe)[i], Sort(kept, TimeLe)[j]);
  }

  lemma SortedTimes(kept: seq<Candidate>)
    requires Distinct(Map(TimeOf, kept))
    ensures Distinct(Map(TimeOf, Sort(kept, TimeLe)))
  {
    SortPermutes(kept, TimeLe);
    MapPermutes(TimeOf, Sort(kept, TimeLe), kept);
    hide Sort, Map;
    var times := Map(TimeOf, Sort(kept, TimeLe));
    forall x ensures multiset(times)[x] <= 1 { DistinctOnce(Map(TimeOf, kept), x); }
    OnceDistinct(times);
  }

  /** Focus times are the times of the kept candidates. */
  lemma FocusMembers(cs: seq<Candidate>, t: nat)
    ensures t in FocusTimes(cs) <==> t in TimeSet(Kept(cs))
  {
    var kept := Kept(cs);
    hide Kept;
    SortMembers(kept, TimeLe);
    var sorted := Sort(kept, TimeLe);
    hide Sort;
    if t in FocusTimes(cs) {
      var k :| 0 <= k < |sorted| && sorted[k].time == t;
      assert sorted[k] in kept;
    }
    if t in TimeSet(kept) {
      var c :| c in kept && c.time == t;
      var k :| 0 <= k < |sorted| && sorted[k] == c;
      assert Map(TimeOf, sorted)[k] == t;
    }
  }

  /** Lexicographic in rank, epoch, frame position and frame identifier; time does not matter. */
  predicate RanksBefore(a: Candidate, b: Candidate) {
    || a.rank < b.rank
    || (a.rank == b.rank && a.epoch < b.epoch)
    || (a.rank == b.rank && a.epoch == b.epoch && a.index < b.index)
    || (a.rank == b.rank && a.epoch == b.epoch && a.index == b.index && a.id < b.id)
  }

  lemma RankOrder(a: Candidate, b: Candidate)
    ensures KeyLt(a, b) <==> RanksBefore(a, b)
  {
  }

  /**
   * A time that is left out loses to sixteen better ones: every kept candidate ranks before every
   * candidate of that time.
   */
  lemma BestTimesAreKept(cs: seq<Candidate>, missed: Candidate, kept: Candidate)
    requires missed in Collect(cs) && missed.time !in FocusTimes(cs) && kept in Kept(cs)
    ensures |Kept(cs)| == MAX_FOCUS_TIMES && RanksBefore(kept, missed)
  {
    KeptFacts(cs);
    FocusMembers(cs, missed.time);
    var best := BestOfTime(cs, missed);
    hide Collect, FocusTimes, Distilled, TimeSet;
    var all := Distilled(cs);
    assert forall j :: 0 <= j < |Kept(cs)| ==> Kept(cs)[j] in Kept(cs);
    var i :| 0 <= i < |all| && all[i] == best;
    var k :| 0 <= k < |Kept(cs)| && Kept(cs)[k] == kept;
    assert best !in Kept(cs) by { KeptTimes(cs, best); }
    assert KeyLt(all[k], all[i]);
    RankOrder(kept, missed);
  }

  lemma KeptTimes(cs: seq<Candidate>, c: Candidate)
    ensures c in Kept(cs) ==> c.time in TimeSet(Kept(cs))
  {
  }

  lemma BestOfTime(cs: seq<Candidate>, c: Candidate) returns (best: Candidate)
    requires c in Collect(cs)
    ensures best in Distilled(cs) && best.time == c.time && (best == c || KeyLt(best, c))
  {
    CollectAscends(cs);
    FirstOfEachTimeKeeps(Collect(cs));
    FirstOfEachTimeBest(Collect(cs));
    hide Collect, FirstOfEachTime;
    assert c.time in TimeSet(Distilled(cs));
    best :| best in Distilled(cs) && best.time == c.time;
  }

  /** When candidates of one key agree on their time, only which candidates there are matters. */
  lemma SameMembersSameFocus(a: seq<Candidate>, b: seq<Candidate>)
    requires Consistent(a) && Consistent(b) && forall x :: x in a <==> x in b
    ensures Collect(a) == Collect(b) && FocusTimes(a) == FocusTimes(b)
  {
    CollectAscends(a);
    CollectAscends(b);
    forall x ensures x in Collect(a) <==> x in Collect(b) {
      if x in a { CollectKeepsAll(a, x); }
      if x in b { CollectKeepsAll(b, x); }
    }
    AscendingUnique(Collect(a), Collect(b));
    hide Collect, FirstOfEachTime, Sort;
  }

  // The order of outcomes

  predicate OnTime(moment: Moment, timeOf: Id -> nat) {
    moment.time == timeOf(moment.id)
  }

  predicate OptionalOnTime(moment: Option<Moment>, timeOf: Id -> nat) {
    moment.None? || OnTime(moment.value, timeOf)
  }

  /** Every moment of the outcome is the time its frame was captured. */
  predicate Timed(o: Outcome, timeOf: Id -> nat) {
    match o
    case NoStoryboard => true
    case Storyboard(_, first, baseline, adjacent, frames) =>
      && OptionalOnTime(first, timeOf) && OptionalOnTime(baseline, timeOf) && OptionalOnTime(adjacent, timeOf)
      && forall k :: 0 <= k < |frames| ==> OnTime(frames[k].moment, timeOf)
  }

  lemma {:induction false} FrameCandidatesTimed(frames: seq<SelectedFrame>, epoch: nat, timeOf: Id -> nat, c: Candidate)
    requires forall k :: 0 <= k < |frames| ==> OnTime(frames[k].moment, timeOf)
    requires c in FrameCandidates(frames, epoch)
    ensures c.time == timeOf(c.id)
  {
    if c in FrameCandidates(frames[..|frames| - 1], epoch) { FrameCandidatesTimed(frames[..|frames| - 1], epoch, timeOf, c); }
  }

  lemma OutcomeCandidatesTimed(o: Outcome, timeOf: Id -> nat, c: Candidate)
    requires Timed(o, timeOf) && c in OutcomeCandidates(o)
    ensures c.time == timeOf(c.id)
  {
    if c in FrameCandidates(o.frames, o.epoch) { FrameCandidatesTimed(o.frames, o.epoch, timeOf, c); }
  }

  /** The candidates are those of the outcomes, whatever the order. */
  lemma {:induction false} CandidatesOfOutcomes(outcomes: seq<Outcome>, c: Candidate)
    ensures c in AllCandidates(outcomes) <==> exists o :: o in outcomes && c in OutcomeCandidates(o)
  {
    hide OutcomeCandidates;
    if outcomes != [] {
      var n := |outcomes| - 1;
      CandidatesOfOutcomes(outcomes[..n], c);
      assert outcomes == outcomes[..n] + [outcomes[n]];
    }
  }

  /** The frame was selected for a change and not only for its place among the others. */
  predicate ShowsChange(frame: SelectedFrame) {
    exists k :: 0 <= k < |frame.reasons|
      && frame.reasons[k] !in {PreAnchor, PostAnchor, FinalFrame, MarkerBoundary, GapBoundary, TemporalCoverage}
  }

  lemma MajorIffChange(frame: SelectedFrame)
    ensures HasMajor(frame) <==> ShowsChange(frame)
  {
    forall k | 0 <= k < |frame.reasons|
      ensures frame.reasons[k] in MAJOR_REASONS
        <==> frame.reasons[k] !in {PreAnchor, PostAnchor, FinalFrame, MarkerBoundary, GapBoundary, TemporalCoverage}
    {
      MajorOrNot(frame.reasons[k]);
    }
  }

  lemma MajorOrNot(reason: Reason)
    ensures reason in MAJOR_REASONS <==>
      reason !in {PreAnchor, PostAnchor, FinalFrame, MarkerBoundary, GapBoundary, TemporalCoverage}
  {
    match reason {
      case FirstChange => assert MAJOR_REASONS[0] == reason;
      case PeakBaselineChange => assert MAJOR_REASONS[1] == reason;
      case LocalChangePeak => assert MAJOR_REASONS[2] == reason;
      case ChangedRegionTransition => assert MAJOR_REASONS[3] == reason;
      case ChangeTrend => assert MAJOR_REASONS[4] == reason;
      case InformationGain => assert MAJOR_REASONS[5] == reason;
      case _ =>
    }
  }

  predicate SelectedFor(frames: seq<SelectedFrame>, moment: Moment) {
    exists k :: 0 <= k < |frames| && frames[k].moment == moment && ShowsChange(frames[k])
  }

  /** A storyboard's candidates: first change, peak against the baseline, peak between neighbours, frames selected for a change. */
  predicate CandidateOf(o: Outcome, c: Candidate) {
    var moment := Moment(c.time, c.index, c.id);
    && o.Storyboard? && c.epoch == o.epoch
    && match c.rank
       case 0 => o.firstChange == Some(moment)
       case 1 => o.peakBaseline == Some(moment)
       case 2 => o.peakAdjacent == Some(moment)
       case 3 => SelectedFor(o.frames, moment)
       case _ => false
  }

  lemma {:induction false} FrameCandidatesMeaning(frames: seq<SelectedFrame>, epoch: nat, c: Candidate)
    ensures c in FrameCandidates(frames, epoch) <==>
      c.rank == 3 && c.epoch == epoch && SelectedFor(frames, Moment(c.time, c.index, c.id))
  {
    if frames != [] {
      var init, last := frames[..|frames| - 1], frames[|frames| - 1];
      FrameCandidatesMeaning(init, epoch, c);
      MajorIffChange(last);
      SelectedByLast(frames, Moment(c.time, c.index, c.id));
      hide HasMajor, ShowsChange, SelectedFor;
    } else {
      assert !SelectedFor(frames, Moment(c.time, c.index, c.id));
    }
  }

  /** A moment is selected by the last frame or by one before it. */
  lemma SelectedByLast(frames: seq<SelectedFrame>, moment: Moment)
    requires frames != []
    ensures var init, last := frames[..|frames| - 1], frames[|frames| - 1];
      SelectedFor(frames, moment) <==> SelectedFor(init, moment) || (last.moment == moment && ShowsChange(last))
  {
    hide ShowsChange;
    var init, last := frames[..|frames| - 1], frames[|frames| - 1];
    if SelectedFor(frames, moment) {
      var k :| 0 <= k < |frames| && frames[k].moment == moment && ShowsChange(frames[k]);
      assert k < |init| ==> init[k] == frames[k];
    }
    if SelectedFor(init, moment) {
      var k :| 0 <= k < |init| && init[k].moment == moment && ShowsChange(init[k]);
      assert frames[k] == init[k];
    }
    if last.moment == moment && ShowsChange(last) {
      assert frames[|frames| - 1] == last;
    }
  }

  lemma OutcomeCandidatesMeaning(o: Outcome, c: Candidate)
    ensures c in OutcomeCandidates(o) <==> CandidateOf(o, c)
  {
    if o.Storyboard? { FrameCandidatesMeaning(o.frames, o.epoch, c); }
    hide FrameCandidates, SelectedFor;
  }

  /** Candidates of captured frames agree on the time of each frame. */
  lemma TimedIsConsistent(outcomes: seq<Outcome>, timeOf: Id -> nat)
    requires forall o :: o in outcomes ==> Timed(o, timeOf)
    ensures Consistent(AllCandidates(outcomes))
  {
    var cs := AllCandidates(outcomes);
    forall i | 0 <= i < |cs| ensures cs[i].time == timeOf(cs[i].id) {
      CandidatesOfOutcomes(outcomes, cs[i]);
      assert cs[i] in cs;
      var o :| o in outcomes && cs[i] in OutcomeCandidates(o);
      OutcomeCandidatesTimed(o, timeOf, cs[i]);
    }
    hide AllCandidates;
  }

  /** Every frame has one time, so the focus times do not depend on the order of the outcomes. */
  lemma FocusIgnoresOrder(a: seq<Outcome>, b: seq<Outcome>, timeOf: Id -> nat)
    requires multiset(a) == multiset(b) && forall o :: o in a ==> Timed(o, timeOf)
    ensures FocusTimes(AllCandidates(a)) == FocusTimes(AllCandidates(b))
  {
    forall o ensures o in a <==> o in b { SameMembers(a, b, o); }
    hide Timed, AllCandidates, FocusTimes, Consistent;
    TimedIsConsistent(a, timeOf);
    TimedIsConsistent(b, timeOf);
    forall c ensures c in AllCandidates(a) <==> c in AllCandidates(b) {
      CandidatesOfOutcomes(a, c);
      CandidatesOfOutcomes(b, c);
    }
    SameMembersSameFocus(AllCandidates(a), AllCandidates(b));
  }

  /**
   * When every frame has one time, focus times are times of candidates, and a candidate's time is
   * missing only if there are sixteen others, each of a candidate that ranks before it.
   */
  lemma FocusTimesMeaning(outcomes: seq<Outcome>, timeOf: Id -> nat)
    requires forall o :: o in outcomes ==> Timed(o, timeOf)
    ensures var times := FocusTimes(AllCandidates(outcomes));
      && (forall t :: t in times ==> exists o, d :: o in outcomes && CandidateOf(o, d) && d.time == t)
      && (forall o, c :: o in outcomes && CandidateOf(o, c) && c.time !in times ==>
            |times| == MAX_FOCUS_TIMES && forall t :: t in times ==> BeatenAt(outcomes, c, t))
  {
    var cs := AllCandidates(outcomes);
    var times := FocusTimes(cs);
    TimedIsConsistent(outcomes, timeOf);
    hide Timed, CandidateOf, OutcomeCandidates, Consistent, Collect, Kept, FocusTimes, AllCandidates;
    forall t | t in times ensures exists o, d :: o in outcomes && CandidateOf(o, d) && d.time == t && d in Kept(cs) {
      var d := KeptAt(cs, t);
      CandidatesOfOutcomes(outcomes, d);
      var o :| o in outcomes && d in OutcomeCandidates(o);
      OutcomeCandidatesMeaning(o, d);
    }
    forall o, c | o in outcomes && CandidateOf(o, c) && c.time !in times
      ensures |times| == MAX_FOCUS_TIMES && forall t :: t in times ==> BeatenAt(outcomes, c, t)
    {
      OutcomeCandidatesMeaning(o, c);
      CandidatesOfOutcomes(outcomes, c);
      CollectKeepsAll(cs, c);
      TimesAreKept(cs, c);
      forall t | t in times ensures BeatenAt(outcomes, c, t) {
        var p, d :| p in outcomes && CandidateOf(p, d) && d.time == t && d in Kept(cs);
        BestTimesAreKept(cs, c, d);
      }
    }
  }

  /** Some candidate at that time ranks before c. */
  ghost predicate BeatenAt(outcomes: seq<Outcome>, c: Candidate, t: nat) {
    exists o, d :: o in outcomes && CandidateOf(o, d) && d.time == t && RanksBefore(d, c)
  }

  lemma KeptAt(cs: seq<Candidate>, t: nat) returns (d: Candidate)
    requires t in FocusTimes(cs)
    ensures d in Kept(cs) && d.time == t && d in cs
  {
    FocusMembers(cs, t);
    d :| d in Kept(cs) && d.time == t;
    KeptAreCandidates(cs, d);
  }

  lemma KeptAreCandidates(cs: seq<Candidate>, d: Candidate)
    requires d in Kept(cs)
    ensures d in cs
  {
    CollectAscends(cs);
    FirstOfEachTimeKeeps(Collect(cs));
    hide Collect, FirstOfEachTime;
    var k :| 0 <= k < |Kept(cs)| && Kept(cs)[k] == d;
    assert Distilled(cs)[k] == d;
    assert d in Collect(cs);
  }

  lemma TimesAreKept(cs: seq<Candidate>, missed: Candidate)
    requires missed in Collect(cs) && missed.time !in FocusTimes(cs)
    ensures |FocusTimes(cs)| == MAX_FOCUS_TIMES
  {
    SortMembers(Kept(cs), TimeLe);
    assert |FocusTimes(cs)| == |Kept(cs)|;
    var best := BestOfTime(cs, missed);
    assert |Distilled(cs)| > 0;
    BestTimesAreKept(cs, missed, Kept(cs)[0]);
  }

  // Exactly when the ordered set depends on the order of insertion

  lemma {:induction false} FirstStays(x: Candidate, rest: seq<Candidate>)
    ensures x in Collect([x] + rest)
  {
    var all := [x] + rest;
    if rest == [] {
      assert all[..0] == [] && all == [x];
      assert Collect(all) == InsertKey(Collect([]), x);
    } else {
      var n := |rest| - 1;
      assert all[..|all| - 1] == [x] + rest[..n] && all[|all| - 1] == rest[n];
      FirstStays(x, rest[..n]);
      CollectAscends([x] + rest[..n]);
      InsertKeyExact(Collect([x] + rest[..n]), rest[n]);
    }
  }

  /** The ordered set holds one candidate of a key. */
  lemma OneOfKey(cs: seq<Candidate>, x: Candidate, y: Candidate)
    requires x in Collect(cs) && y in Collect(cs) && SameKey(x, y)
    ensures x == y
  {
    CollectAscends(cs);
    var s := Collect(cs);
    hide Collect;
    var i :| 0 <= i < |s| && s[i] == x;
    var j :| 0 <= j < |s| && s[j] == y;
    assert Ascending(s);
  }

  function Fronted(cs: seq<Candidate>, k: nat): seq<Candidate>
    requires k < |cs|
  {
    [cs[k]] + (cs[..k] + cs[k + 1..])
  }

  lemma FrontedRearranges(cs: seq<Candidate>, k: nat)
    requires k < |cs|
    ensures multiset(Fronted(cs, k)) == multiset(cs)
  {
    RemoveAt(cs, k);
  }

  /** Two disagreeing candidates of one key: whichever comes first stays. */
  lemma DisagreementShows(cs: seq<Candidate>, i: nat, j: nat)
    requires i < |cs| && j < |cs| && SameKey(cs[i], cs[j]) && cs[i] != cs[j]
    ensures Collect(Fronted(cs, i)) != Collect(Fronted(cs, j))
  {
    FirstStays(cs[i], cs[..i] + cs[i + 1..]);
    FirstStays(cs[j], cs[..j] + cs[j + 1..]);
    hide Collect;
    if Collect(Fronted(cs, i)) == Collect(Fronted(cs, j)) { OneOfKey(Fronted(cs, i), cs[i], cs[j]); }
  }

  ghost predicate OrderFree(cs: seq<Candidate>) {
    forall bs :: multiset(bs) == multiset(cs) ==> Collect(bs) == Collect(cs)
  }

  /** The ordered set is the same for every order of insertion exactly when candidates of one key agree. */
  lemma OrderFreeIffConsistent(cs: seq<Candidate>)
    ensures OrderFree(cs) <==> Consistent(cs)
  {
    if Consistent(cs) {
      forall bs | multiset(bs) == multiset(cs) ensures Collect(bs) == Collect(cs) {
        forall x ensures x in bs <==> x in cs { SameMembers(bs, cs, x); }
        ConsistentMembers(cs, bs);
        SameMembersSameFocus(bs, cs);
      }
    } else {
      var i, j :| 0 <= i < |cs| && 0 <= j < |cs| && SameKey(cs[i], cs[j]) && cs[i] != cs[j];
      FrontedRearranges(cs, i);
      FrontedRearranges(cs, j);
      DisagreementShows(cs, i, j);
    }
  }

  lemma ConsistentMembers(cs: seq<Candidate>, bs: seq<Candidate>)
    requires Consistent(cs) && forall x :: x in bs <==> x in cs
    ensures Consistent(bs)
  {
    forall i, j | 0 <= i < |bs| && 0 <= j < |bs| && SameKey(bs[i], bs[j]) ensures bs[i] == bs[j] {
      assert bs[i] in cs && bs[j] in cs;
      var k :| 0 <= k < |cs| && cs[k] == bs[i];
      var l :| 0 <= l < |cs| && cs[l] == bs[j];
    }
  }

  /** A storyboard whose only moment is the first change, at frame 1 of epoch 0. */
  function FirstChangeAt(time: nat): Outcome {
    Storyboard(0, Some(Moment(time, 0, 1)), None, None, [])
  }

  /** Two storyboards that give one frame two times: the first one read wins, and their order shows. */
  lemma OrderShowsWhenInconsistent()
    ensures var a, b := [FirstChangeAt(5), FirstChangeAt(9)], [FirstChangeAt(9), FirstChangeAt(5)];
      && multiset(a) == multiset(b)
      && FocusTimes(AllCandidates(a)) == [5] && FocusTimes(AllCandidates(b)) == [9]
  {
    PairOfFirstChanges(5, 9);
    PairOfFirstChanges(9, 5);
    assert [FirstChangeAt(5), FirstChangeAt(9)] == [FirstChangeAt(5)] + [FirstChangeAt(9)];
    assert [FirstChangeAt(9), FirstChangeAt(5)] == [FirstChangeAt(9)] + [FirstChangeAt(5)];
  }

  lemma PairOfFirstChanges(s: nat, t: nat)
    ensures FocusTimes(AllCandidates([FirstChangeAt(s), FirstChangeAt(t)])) == [s]
  {
    var x, y := Candidate(0, 0, 0, 1, s), Candidate(0, 0, 0, 1, t);
    var outcomes := [FirstChangeAt(s), FirstChangeAt(t)];
    assert OutcomeCandidates(FirstChangeAt(s)) == [x] && OutcomeCandidates(FirstChangeAt(t)) == [y];
    assert outcomes[..1] == [FirstChangeAt(s)] && [FirstChangeAt(s)][..0] == [];
    assert AllCandidates([FirstChangeAt(s)]) == [x];
    assert AllCandidates(outcomes) == [x, y];
    PairKeepsFirst(x, y);
  }

  lemma PairKeepsFirst(x: Candidate, y: Candidate)
    requires SameKey(x, y)
    ensures FocusTimes([x, y]) == [x.time]
  {
    assert [x, y][..1] == [x] && [x][..0] == [];
    assert Collect([x]) == [x];
    assert Collect([x, y]) == [x];
    assert FirstOfEachTime([x]) == [x];
    assert Sort([x], TimeLe) == [x];
  }
}
