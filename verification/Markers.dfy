/** The bundle's marker list: mandatory markers, then the candidates nearest to the anchor. */
module Markers {
  import opened Common
  import opened Sorting

  const CAP: nat := 256
  const ROW_LIMIT: nat := 1024
  const CALLER_CAP: nat := 64

  datatype MarkerId = OfInteraction(id: Id) | OfNavigation(id: Id) | OfMarker(id: Id) | OfCaller(id: Id)

  datatype Caption = Exact | IdOnly | Supplied(text: nat)

  datatype Marker = Marker(id: MarkerId, time: nat, caption: Caption)

  /** A timeline row; rows about anything but interactions, navigations and markers have no subject. */
  datatype Observation = Observation(subject: Option<MarkerId>, time: nat)

  datatype Warning =
    | TimelineTruncated(matched: nat, returned: nat, limit: nat)
    | LabelUnavailable(id: MarkerId)
    | MarkersTruncated(matched: nat, returned: nat, limit: nat)

  datatype Evidence = Evidence(
    anchorTime: nat, anchor: Option<MarkerId>, start: nat, end: nat,
    callers: seq<Marker>, observations: seq<Observation>, truncated: bool, matched: nat,
    interactions: map<Id, nat>)

  datatype Assembled = Assembled(markers: seq<Marker>, warnings: seq<Warning>)

  function IdOf(m: Marker): MarkerId {
    m.id
  }

  function Ids(markers: seq<Marker>): seq<MarkerId> {
    Map(IdOf, markers)
  }

  function IdSet(markers: seq<Marker>): set<MarkerId> {
    set m | m in markers :: m.id
  }

  // Orders

  function ClassRank(id: MarkerId): nat {
    match id
    case OfInteraction(_) => 0
    case OfNavigation(_) => 1
    case OfMarker(_) => 2
    case OfCaller(_) => 3
  }

  function Distance(a: nat, b: nat): nat {
    if a >= b then a - b else b - a
  }

  /** Chronological, then by class, then by identifier. */
  predicate PresentationLe(a: Marker, b: Marker) {
    a.time < b.time ||
    (a.time == b.time && (ClassRank(a.id) < ClassRank(b.id) || (ClassRank(a.id) == ClassRank(b.id) && a.id.id <= b.id.id)))
  }

  /** Nearest to the anchor first, then by class, time and identifier. */
  predicate NearerLe(anchor: nat, a: Marker, b: Marker) {
    Distance(a.time, anchor) < Distance(b.time, anchor) ||
    (Distance(a.time, anchor) == Distance(b.time, anchor) &&
     (ClassRank(a.id) < ClassRank(b.id) ||
      (ClassRank(a.id) == ClassRank(b.id) && (a.time < b.time || (a.time == b.time && a.id.id <= b.id.id)))))
  }

  function RankOrder(anchor: nat): (Marker, Marker) -> bool {
    (a, b) => NearerLe(anchor, a, b)
  }

  lemma OrdersAreTotal(anchor: nat)
    ensures TotalPreorder(PresentationLe) && TotalPreorder(RankOrder(anchor))
  {
  }

  /** Interactions come before navigations, those before markers, and callers last. */
  predicate KindBefore(a: MarkerId, b: MarkerId) {
    match a
    case OfInteraction(_) => !b.OfInteraction?
    case OfNavigation(_) => b.OfMarker? || b.OfCaller?
    case OfMarker(_) => b.OfCaller?
    case OfCaller(_) => false
  }

  predicate SameKind(a: MarkerId, b: MarkerId) {
    !KindBefore(a, b) && !KindBefore(b, a)
  }

  /** How far a marker lies from the anchor in time, either way. */
  function Away(m: Marker, anchor: nat): nat {
    Max(m.time - anchor, anchor - m.time)
  }

  /** The earlier marker, or at one time the one of the earlier kind, or of one kind the lower identifier. */
  predicate PresentedBefore(a: Marker, b: Marker) {
    || a.time < b.time
    || (a.time == b.time && (KindBefore(a.id, b.id) || (SameKind(a.id, b.id) && a.id.id <= b.id.id)))
  }

  /** The nearer marker; equally near ones go by kind, then time, then identifier. */
  predicate NoFarther(anchor: nat, a: Marker, b: Marker) {
    || Away(a, anchor) < Away(b, anchor)
    || (Away(a, anchor) == Away(b, anchor) &&
        (KindBefore(a.id, b.id)
         || (SameKind(a.id, b.id) && (a.time < b.time || (a.time == b.time && a.id.id <= b.id.id)))))
  }

  // Mandatory markers

  function AnchorMarker(ev: Evidence): Option<Marker> {
    if ev.anchor.None? then None
    else
      var id := ev.anchor.value;
      Some(Marker(id, ev.anchorTime, if SyntheticAnchor(ev) then IdOnly else Exact))
  }

  predicate SyntheticAnchor(ev: Evidence) {
    ev.anchor.Some? &&
    match ev.anchor.value
    case OfInteraction(id) => id !in ev.interactions
    case OfMarker(_) => true
    case _ => false
  }

  function FirstWith(markers: seq<Marker>, id: MarkerId): Option<Marker> {
    if markers == [] then None
    else if markers[0].id == id then Some(markers[0])
    else FirstWith(markers[1..], id)
  }

  /** A caller marker claims the anchor's identifier at another time. */
  predicate Conflicts(ev: Evidence) {
    ev.anchor.Some? && FirstWith(ev.callers, ev.anchor.value).Some? && FirstWith(ev.callers, ev.anchor.value).value.time != ev.anchorTime
  }

  predicate AnchorAdded(ev: Evidence) {
    ev.anchor.Some? && ev.anchor.value !in IdSet(ev.callers)
  }

  function Mandatory(ev: Evidence): seq<Marker> {
    if AnchorAdded(ev) then ev.callers + [AnchorMarker(ev).value] else ev.callers
  }

  // Candidates

  function Seen(observations: seq<Observation>, n: nat): set<MarkerId>
    requires n <= |observations|
  {
    if n == 0 then {}
    else Seen(observations, n - 1) + if observations[n - 1].subject.Some? then {observations[n - 1].subject.value} else {}
  }

  /** The marker for the first row about a subject, if its time lies in the range. */
  function CandidateOf(ev: Evidence, id: MarkerId, time: nat): Option<Marker> {
    if id.OfInteraction? && id.id !in ev.interactions then None
    else
      var at := if id.OfInteraction? then ev.interactions[id.id] else time;
      if ev.start <= at <= ev.end then Some(Marker(id, at, if id.OfMarker? then IdOnly else Exact)) else None
  }

  /** What row n adds: nothing for a repeated or mandatory subject. */
  function Added(ev: Evidence, mandatory: set<MarkerId>, n: nat): Option<Marker>
    requires n < |ev.observations|
  {
    var o := ev.observations[n];
    if o.subject.None? || o.subject.value.OfCaller? then None
    else if o.subject.value in Seen(ev.observations, n) || o.subject.value in mandatory then None
    else CandidateOf(ev, o.subject.value, o.time)
  }

  function Candidates(ev: Evidence, mandatory: set<MarkerId>, n: nat): seq<Marker>
    requires n <= |ev.observations|
  {
    if n == 0 then []
    else
      var added := Added(ev, mandatory, n - 1);
      if added.Some? then Candidates(ev, mandatory, n - 1) + [added.value] else Candidates(ev, mandatory, n - 1)
  }

  function LabelWarnings(markers: seq<Marker>): seq<Warning> {
    if markers == [] then []
    else
      var last := markers[|markers| - 1];
      var before := LabelWarnings(markers[..|markers| - 1]);
      if last.id.OfMarker? then before + [LabelUnavailable(last.id)] else before
  }

  /** One pass over the timeline rows, remembering which subjects it has met. */
  method CollectCandidates(ev: Evidence, mandatory: set<MarkerId>) returns (candidates: seq<Marker>, warnings: seq<Warning>)
    ensures candidates == Candidates(ev, mandatory, |ev.observations|)
    ensures warnings == LabelWarnings(candidates)
  {
    candidates, warnings := [], [];
    var seenInteractions: set<Id>, seenNavigations: set<Id>, seenMarkers: set<Id> := {}, {}, {};
    var n := 0;
    while n < |ev.observations|
      invariant 0 <= n <= |ev.observations|
      invariant candidates == Candidates(ev, mandatory, n) && warnings == LabelWarnings(candidates)
      invariant forall id :: OfInteraction(id) in Seen(ev.observations, n) <==> id in seenInteractions
      invariant forall id :: OfNavigation(id) in Seen(ev.observations, n) <==> id in seenNavigations
      invariant forall id :: OfMarker(id) in Seen(ev.observations, n) <==> id in seenMarkers
    {
      var o := ev.observations[n];
      var isNew := false;
      if o.subject.Some? {
        match o.subject.value
        case OfInteraction(id) =>
          isNew := id !in seenInteractions;
          seenInteractions := seenInteractions + {id};
        case OfNavigation(id) =>
          isNew := id !in seenNavigations;
          seenNavigations := seenNavigations + {id};
        case OfMarker(id) =>
          isNew := id !in seenMarkers;
          seenMarkers := seenMarkers + {id};
        case OfCaller(_) =>
      }
      if isNew && o.subject.value !in mandatory {
        var marker := CandidateOf(ev, o.subject.value, o.time);
        if marker.Some? {
          if marker.value.id.OfMarker? {
            warnings := warnings + [LabelUnavailable(marker.value.id)];
          }
          assert (candidates + [marker.value])[..|candidates|] == candidates;
          candidates := candidates + [marker.value];
        }
      }
      n := n + 1;
    }
  }

  // The assembled list

  function Ranked(ev: Evidence): seq<Marker> {
    Sort(Candidates(ev, IdSet(Mandatory(ev)), |ev.observations|), RankOrder(ev.anchorTime))
  }

  /** How many candidates fit beside the mandatory markers. */
  function Room(ev: Evidence): nat {
    if |Mandatory(ev)| >= CAP then 0 else CAP - |Mandatory(ev)|
  }

  function Chosen(ev: Evidence): seq<Marker> {
    if |Ranked(ev)| <= Room(ev) then Ranked(ev) else Ranked(ev)[..Room(ev)]
  }

  function OpeningWarnings(ev: Evidence): seq<Warning> {
    (if ev.truncated then [TimelineTruncated(ev.matched, |ev.observations|, ROW_LIMIT)] else [])
    + (if AnchorAdded(ev) && SyntheticAnchor(ev) then [LabelUnavailable(ev.anchor.value)] else [])
  }

  function Warnings(ev: Evidence): seq<Warning> {
    OpeningWarnings(ev)
    + LabelWarnings(Candidates(ev, IdSet(Mandatory(ev)), |ev.observations|))
    + (if |Mandatory(ev)| + |Ranked(ev)| > CAP
       then [MarkersTruncated(|Mandatory(ev)| + |Ranked(ev)|, |Mandatory(ev)| + |Chosen(ev)|, CAP)] else [])
  }

  /**
   * The markers are the mandatory ones and the chosen candidates in presentation order; assembly
   * fails exactly when a caller marker contradicts the anchor's time.
   */
  method AssembleMarkers(ev: Evidence) returns (r: Result<Assembled>)
    ensures r.Err? <==> Conflicts(ev)
    ensures r.Err? ==> r.error == InvalidInput
    ensures r.Ok? ==> r.value.markers == Sort(Mandatory(ev) + Chosen(ev), PresentationLe) && r.value.warnings == Warnings(ev)
  {
    hide Candidates, LabelWarnings, Sort, RankOrder;
    var warnings := [];
    if ev.truncated {
      warnings := warnings + [TimelineTruncated(ev.matched, |ev.observations|, ROW_LIMIT)];
    }
    var mandatory := ev.callers;
    var anchor := AnchorMarker(ev);
    if anchor.Some? {
      var callerMatch := FirstWith(ev.callers, anchor.value.id);
      if callerMatch.Some? && callerMatch.value.time != anchor.value.time {
        return Err(InvalidInput);
      }
      if anchor.value.id !in IdSet(ev.callers) {
        if SyntheticAnchor(ev) {
          warnings := warnings + [LabelUnavailable(anchor.value.id)];
        }
        mandatory := mandatory + [anchor.value];
      }
    }
    assert mandatory == Mandatory(ev) && warnings == OpeningWarnings(ev);
    hide OpeningWarnings, AnchorAdded, SyntheticAnchor, AnchorMarker, Conflicts;
    var candidates, labels := CollectCandidates(ev, IdSet(mandatory));
    warnings := warnings + labels;
    candidates := Sort(candidates, RankOrder(ev.anchorTime));
    assert candidates == Ranked(ev);
    SameLength(ev);
    hide Mandatory, Ranked, IdSet;
    var total := |mandatory| + |candidates|;
    var markers := mandatory;
    if total > CAP {
      var remaining := if |markers| >= CAP then 0 else CAP - |markers|;
      markers := markers + candidates[..remaining];
      warnings := warnings + [MarkersTruncated(total, |markers|, CAP)];
    } else {
      markers := markers + candidates;
    }
    r := Ok(Assembled(Sort(markers, PresentationLe), warnings));
  }

  lemma SameLength(ev: Evidence)
    ensures |Ranked(ev)| == |Candidates(ev, IdSet(Mandatory(ev)), |ev.observations|)|
  {
    SortMembers(Candidates(ev, IdSet(Mandatory(ev)), |ev.observations|), RankOrder(ev.anchorTime));
  }

  lemma PresentedInOrder(a: Marker, b: Marker)
    requires PresentationLe(a, b)
    ensures PresentedBefore(a, b)
  {
  }

  /** Every mandatory and chosen marker is presented exactly as often as it was given, in order. */
  lemma AssembledMeaning(ev: Evidence)
    ensures var markers := Sort(Mandatory(ev) + Chosen(ev), PresentationLe);
      && multiset(markers) == multiset(Mandatory(ev)) + multiset(Chosen(ev))
      && (forall i, j :: 0 <= i < j < |markers| ==> PresentedBefore(markers[i], markers[j]))
      && |markers| == |Mandatory(ev)| + |Chosen(ev)|
      && (forall m :: m in Mandatory(ev) ==> m in markers)
  {
    OrdersAreTotal(ev.anchorTime);
    hide Chosen, Mandatory, PresentationLe;
    var all := Mandatory(ev) + Chosen(ev);
    SortPermutes(all, PresentationLe);
    SortSorted(all, PresentationLe);
    SortMembers(all, PresentationLe);
    hide Sort;
    forall m | m in Mandatory(ev) ensures m in Sort(all, PresentationLe) { assert m in all; }
    var markers := Sort(all, PresentationLe);
    forall i, j | 0 <= i < j < |markers| ensures PresentedBefore(markers[i], markers[j]) {
      assert PresentationLe(markers[i], markers[j]);
      PresentedInOrder(markers[i], markers[j]);
    }
  }

  /** The chosen candidates are the nearest: nothing left out ranks strictly before something chosen. */
  lemma NearestAreChosen(ev: Evidence, kept: nat, dropped: nat)
    requires kept < |Chosen(ev)| <= dropped < |Ranked(ev)|
    ensures NoFarther(ev.anchorTime, Chosen(ev)[kept], Ranked(ev)[dropped])
    ensures |Mandatory(ev)| + |Chosen(ev)| == Max(CAP, |Mandatory(ev)|)
  {
    OrdersAreTotal(ev.anchorTime);
    SortSorted(Candidates(ev, IdSet(Mandatory(ev)), |ev.observations|), RankOrder(ev.anchorTime));
    hide Sort, Candidates;
    assert RankOrder(ev.anchorTime)(Ranked(ev)[kept], Ranked(ev)[dropped]);
  }

  /** At most the cap of markers for a valid request, and all of them unless the cap is reached. */
  lemma CapIsExact(ev: Evidence)
    requires |ev.callers| <= CALLER_CAP
    ensures |Mandatory(ev)| + |Chosen(ev)| == Min(CAP, |Mandatory(ev)| + |Ranked(ev)|)
    ensures |Ranked(ev)| == |Candidates(ev, IdSet(Mandatory(ev)), |ev.observations|)|
  {
    SameLength(ev);
  }

  /** What a candidate is: its subject's own time if that is an interaction, its row's time otherwise. */
  predicate MarkerMeans(ev: Evidence, m: Marker, rowTime: nat) {
    && (m.id.OfInteraction? ==> m.id.id in ev.interactions && m.time == ev.interactions[m.id.id])
    && (!m.id.OfInteraction? ==> m.time == rowTime)
    && ev.start <= m.time <= ev.end
    && m.caption == if m.id.OfMarker? then IdOnly else Exact
  }

  lemma CandidateMeans(ev: Evidence, m: Marker, time: nat)
    ensures CandidateOf(ev, m.id, time) == Some(m) <==> MarkerMeans(ev, m, time)
  {
  }

  lemma {:induction false} SeenExact(observations: seq<Observation>, n: nat, id: MarkerId)
    requires n <= |observations|
    ensures id in Seen(observations, n) <==> exists k :: 0 <= k < n && observations[k].subject == Some(id)
  {
    if n > 0 {
      SeenExact(observations, n - 1, id);
      if observations[n - 1].subject == Some(id) { assert id in Seen(observations, n); }
    }
  }

  predicate FirstRow(ev: Evidence, n: nat, id: MarkerId) {
    n < |ev.observations| && ev.observations[n].subject == Some(id)
    && forall k :: 0 <= k < n ==> ev.observations[k].subject != Some(id)
  }

  /** A marker is a candidate exactly when the first row about its subject makes it, and it is not mandatory. */
  lemma {:induction false} CandidatesExact(ev: Evidence, mandatory: set<MarkerId>, n: nat, m: Marker)
    requires n <= |ev.observations|
    ensures m in Candidates(ev, mandatory, n) <==>
      && m.id !in mandatory && !m.id.OfCaller?
      && exists k :: 0 <= k < n && FirstRow(ev, k, m.id) && MarkerMeans(ev, m, ev.observations[k].time)
    decreases n
  {
    if n > 0 {
      CandidatesExact(ev, mandatory, n - 1, m);
      CandidateMeans(ev, m, ev.observations[n - 1].time);
      var added := Added(ev, mandatory, n - 1);
      SeenExact(ev.observations, n - 1, m.id);
      assert added == Some(m) <==>
        (m.id !in mandatory && !m.id.OfCaller? && FirstRow(ev, n - 1, m.id)
         && MarkerMeans(ev, m, ev.observations[n - 1].time));
      hide Added, FirstRow, CandidateOf, Seen, MarkerMeans;
    }
  }

  lemma {:induction false} CandidateIdsFresh(ev: Evidence, mandatory: set<MarkerId>, n: nat, k: nat)
    requires n <= |ev.observations| && k < |Candidates(ev, mandatory, n)|
    ensures Candidates(ev, mandatory, n)[k].id !in mandatory
    ensures Candidates(ev, mandatory, n)[k].id in Seen(ev.observations, n)
  {
    if n > 0 && k < |Candidates(ev, mandatory, n - 1)| {
      CandidateIdsFresh(ev, mandatory, n - 1, k);
    }
  }

  lemma {:induction false} CandidateIdsDistinct(ev: Evidence, mandatory: set<MarkerId>, n: nat)
    requires n <= |ev.observations|
    ensures Distinct(Ids(Candidates(ev, mandatory, n)))
  {
    if n > 0 {
      CandidateIdsDistinct(ev, mandatory, n - 1);
      var before, added := Candidates(ev, mandatory, n - 1), Added(ev, mandatory, n - 1);
      if added.Some? {
        forall k | 0 <= k < |before| ensures before[k].id != added.value.id {
          CandidateIdsFresh(ev, mandatory, n - 1, k);
        }
        assert Ids(Candidates(ev, mandatory, n)) == Ids(before) + [added.value.id];
      }
    }
  }

  /** Given distinct caller identifiers, no two presented markers share an identifier. */
  lemma AssembledIdsDistinct(ev: Evidence)
    requires Distinct(Ids(ev.callers))
    ensures Distinct(Ids(Sort(Mandatory(ev) + Chosen(ev), PresentationLe)))
  {
    var mandatory, chosen := Mandatory(ev), Chosen(ev);
    var ids := IdSet(mandatory);
    var candidates := Candidates(ev, ids, |ev.observations|);
    MandatoryIdsDistinct(ev);
    CandidateIdsDistinct(ev, ids, |ev.observations|);
    SortedIdsDistinct(candidates, RankOrder(ev.anchorTime));
    assert Distinct(Ids(chosen)) by { assert forall k :: 0 <= k < |chosen| ==> Ids(chosen)[k] == Ids(Ranked(ev))[k]; }
    SortMembers(candidates, RankOrder(ev.anchorTime));
    forall m | m in chosen ensures m.id !in ids {
      assert m in candidates;
      var k :| 0 <= k < |candidates| && candidates[k] == m;
      CandidateIdsFresh(ev, ids, |ev.observations|, k);
    }
    hide Sort, Candidates, Chosen, Mandatory, Ranked;
    JoinedIdsDistinct(mandatory, chosen);
    SortedIdsDistinct(mandatory + chosen, PresentationLe);
  }

  lemma JoinedIdsDistinct(mandatory: seq<Marker>, chosen: seq<Marker>)
    requires Distinct(Ids(mandatory)) && Distinct(Ids(chosen))
    requires forall m :: m in chosen ==> m.id !in IdSet(mandatory)
    ensures Distinct(Ids(mandatory + chosen))
  {
    var all := mandatory + chosen;
    forall i, j | 0 <= i < j < |all| ensures all[i].id != all[j].id {
      if i < |mandatory| && j >= |mandatory| {
        assert all[i] in mandatory && all[j] == chosen[j - |mandatory|] && all[j] in chosen;
      } else if j < |mandatory| {
        assert Ids(mandatory)[i] != Ids(mandatory)[j];
      } else {
        assert Ids(chosen)[i - |mandatory|] != Ids(chosen)[j - |mandatory|];
      }
    }
  }

  lemma MandatoryIdsDistinct(ev: Evidence)
    requires Distinct(Ids(ev.callers))
    ensures Distinct(Ids(Mandatory(ev)))
  {
    var all, callers := Mandatory(ev), ev.callers;
    forall i, j | 0 <= i < j < |all| ensures all[i].id != all[j].id {
      if j < |callers| {
        assert Ids(callers)[i] != Ids(callers)[j];
      } else {
        assert callers[i] in callers;
      }
    }
  }

  /** Sorting keeps identifiers distinct. */
  lemma SortedIdsDistinct(markers: seq<Marker>, le: (Marker, Marker) -> bool)
    requires Distinct(Ids(markers))
    ensures Distinct(Ids(Sort(markers, le)))
  {
    SortPermutes(markers, le);
    MapPermutes(IdOf, Sort(markers, le), markers);
    hide Sort;
    forall x ensures multiset(Ids(Sort(markers, le)))[x] <= 1 { DistinctOnce(Ids(markers), x); }
    OnceDistinct(Ids(Sort(markers, le)));
  }

  /** The evidence that would label the anchor is not at hand: a marker's never is, an interaction's may be gone. */
  predicate LostAnchor(ev: Evidence, id: MarkerId) {
    id.OfMarker? || (id.OfInteraction? && id.id !in ev.interactions)
  }

  /** A conflict is a caller's marker with the anchor's identifier, first of its identifier, at another time. */
  lemma ConflictsIff(ev: Evidence)
    ensures Conflicts(ev) <==> ev.anchor.Some? && exists k: nat ::
      k < |ev.callers| && FirstCaller(ev.callers, k, ev.anchor.value) && ev.callers[k].time != ev.anchorTime
  {
    if ev.anchor.Some? {
      FirstWithIs(ev.callers, ev.anchor.value);
      hide FirstWith;
    }
  }

  predicate FirstCaller(callers: seq<Marker>, k: nat, id: MarkerId) {
    k < |callers| && callers[k].id == id && forall j :: 0 <= j < k ==> callers[j].id != id
  }

  lemma {:induction false} FirstWithIs(markers: seq<Marker>, id: MarkerId)
    ensures FirstWith(markers, id).Some? ==> exists k: nat :: FirstCaller(markers, k, id) && markers[k] == FirstWith(markers, id).value
    ensures FirstWith(markers, id).None? ==> forall k: nat :: !FirstCaller(markers, k, id)
    ensures forall k: nat :: FirstCaller(markers, k, id) ==> FirstWith(markers, id) == Some(markers[k])
  {
    if markers != [] {
      if markers[0].id == id {
        assert FirstCaller(markers, 0, id);
      } else {
        FirstWithIs(markers[1..], id);
        forall k: nat ensures FirstCaller(markers, k + 1, id) <==> FirstCaller(markers[1..], k, id) { FirstCallerNext(markers, k, id); }
        if FirstWith(markers, id).Some? {
          var k: nat :| FirstCaller(markers[1..], k, id) && markers[1..][k] == FirstWith(markers[1..], id).value;
          assert FirstCaller(markers, k + 1, id);
        }
        forall k: nat | FirstCaller(markers, k, id) ensures FirstWith(markers, id) == Some(markers[k]) {
          assert FirstCaller(markers[1..], k - 1, id);
        }
      }
    }
  }

  lemma FirstCallerNext(markers: seq<Marker>, k: nat, id: MarkerId)
    requires markers != [] && markers[0].id != id
    ensures FirstCaller(markers, k + 1, id) <==> FirstCaller(markers[1..], k, id)
  {
    if FirstCaller(markers[1..], k, id) {
      forall j | 0 <= j < k + 1 ensures markers[j].id != id { if j > 0 { assert markers[1..][j - 1].id != id; } }
    }
    if FirstCaller(markers, k + 1, id) {
      forall j | 0 <= j < k ensures markers[1..][j].id != id { assert markers[j + 1].id != id; }
    }
  }

  /** The anchor is presented exactly once, by the caller's own marker if there is one. */
  lemma AnchorPresentedOnce(ev: Evidence)
    requires Distinct(Ids(ev.callers)) && ev.anchor.Some? && !Conflicts(ev)
    ensures exists m ::
      (m in Sort(Mandatory(ev) + Chosen(ev), PresentationLe) && m.id == ev.anchor.value && m.time == ev.anchorTime
       && (m in ev.callers <==> ev.anchor.value in IdSet(ev.callers))
       && (m !in ev.callers ==> (m.caption == IdOnly <==> LostAnchor(ev, m.id)) && (m.caption == Exact <==> !LostAnchor(ev, m.id))))
  {
    AssembledMeaning(ev);
    var id := ev.anchor.value;
    var m: Marker;
    if AnchorAdded(ev) {
      m := AnchorMarker(ev).value;
      assert Mandatory(ev)[|ev.callers|] == m;
      assert m !in ev.callers;
    } else {
      FirstWithFinds(ev.callers, id);
      m := FirstWith(ev.callers, id).value;
    }
    assert m in Mandatory(ev);
  }

  lemma {:induction false} FirstWithFinds(markers: seq<Marker>, id: MarkerId)
    requires id in IdSet(markers)
    ensures FirstWith(markers, id).Some? && FirstWith(markers, id).value in markers && FirstWith(markers, id).value.id == id
  {
    if markers[0].id != id {
      var m :| m in markers && m.id == id;
      assert m in markers[1..];
      FirstWithFinds(markers[1..], id);
    }
  }
}
