/** The diagnostic log: bounded files, rotated so that the retained bytes are always the latest. */
module RotatingLog {
  import opened Common

  type Byte = n: nat | n < 256

  const MAX_FILE_BYTES: nat := 1024 * 1024
  const RETAINED_GENERATIONS: nat := 3

  /** Bytes of a generation; a missing file has none. */
  function Contents(files: map<nat, seq<Byte>>, generation: nat): seq<Byte> {
    if generation in files then files[generation] else []
  }

  /** The retained bytes of the oldest generations down to one, oldest first. */
  function Retained(files: map<nat, seq<Byte>>, oldest: nat, newest: nat): seq<Byte>
    requires newest <= oldest + 1
    decreases oldest + 1 - newest
  {
    if newest == oldest + 1 then [] else Retained(files, oldest, newest + 1) + Contents(files, newest)
  }

  predicate Bounded(files: map<nat, seq<Byte>>) {
    forall g :: g in files ==> |files[g]| <= MAX_FILE_BYTES
  }

  predicate IsSuffix(s: seq<Byte>, all: seq<Byte>) {
    |s| <= |all| && s == all[|all| - |s|..]
  }

  class BoundedRotatingWriter {
    var files: map<nat, seq<Byte>>
    var length: nat
    /** Every byte present when the log was opened or accepted since. */
    ghost var history: seq<Byte>

    ghost predicate Valid()
      reads this
    {
      && 0 in files && length == |files[0]|
      && IsSuffix(Retained(files, RETAINED_GENERATIONS, 0), history)
    }

    lemma SuffixOfHistory()
      requires Valid()
      ensures 0 in files && IsSuffix(Retained(files, RETAINED_GENERATIONS, 0), history)
    {
    }

    /** Opening keeps whatever generations exist and creates the current file if it is missing. */
    constructor (existing: map<nat, seq<Byte>>)
      ensures Valid() && history == Retained(existing, RETAINED_GENERATIONS, 0)
      ensures files == existing[0 := Contents(existing, 0)]
      ensures Bounded(existing) ==> Bounded(files)
    {
      files := existing[0 := Contents(existing, 0)];
      length := |Contents(existing, 0)|;
      history := Retained(existing, RETAINED_GENERATIONS, 0);
      new;
      SameRetained(existing, files, RETAINED_GENERATIONS, 0);
    }

    /**
     * Every generation moves one step older and a new file is started. Only the oldest generation is
     * dropped, and only when the one before it takes its place.
     */
    method Rotate()
      requires Valid()
      modifies this
      ensures Valid() && history == old(history) && length == 0
      ensures Rotated(old(files), files)
      ensures Retained(files, RETAINED_GENERATIONS, 1) == RetainedAfterRotation(old(files))
      ensures old(Bounded(files)) ==> Bounded(files)
    {
      ghost var before := files;
      MoveGenerations();
      ghost var moved := files;
      files := files[0 := []];
      length := 0;
      forall h: nat | 0 < h < RETAINED_GENERATIONS ensures Shifted(before, files, h) {
        assert Shifted(before, moved, h) && Contents(files, h) == Contents(moved, h);
      }
      assert OldestMoved(before, moved) && Contents(files, RETAINED_GENERATIONS) == Contents(moved, RETAINED_GENERATIONS);
      RotationKeepsSuffix(before, files, history);
    }

    /** From the oldest to the newest, every generation that exists replaces the one after it. */
    method MoveGenerations()
      modifies this`files
      ensures forall h: nat :: 0 < h < RETAINED_GENERATIONS ==> Shifted(old(files), files, h)
      ensures OldestMoved(old(files), files)
      ensures old(Bounded(files)) ==> Bounded(files)
    {
      ghost var before := files;
      var generation := RETAINED_GENERATIONS;
      while generation >= 1
        invariant 0 <= generation <= RETAINED_GENERATIONS
        invariant forall h: nat :: h < generation ==> Contents(files, h) == Contents(before, h) && (h in files <==> h in before)
        invariant generation < RETAINED_GENERATIONS ==> generation !in files
        invariant forall h: nat :: generation < h < RETAINED_GENERATIONS ==> Shifted(before, files, h)
        invariant generation < RETAINED_GENERATIONS ==> OldestMoved(before, files)
        invariant generation == RETAINED_GENERATIONS ==> files == before
        invariant Bounded(before) ==> Bounded(files)
      {
        var source, destination := generation - 1, generation;
        ghost var prior := files;
        assert Contents(files, source) == Contents(before, source);
        if source in files {
          files := files - {destination};
          var moved := files[source];
          files := (files - {source})[destination := moved];
        }
        assert files == MovedUp(prior, generation);
        forall h: nat ensures MovedContents(prior, files, generation, h) { MovedUpContents(prior, generation, h); }
        assert Bounded(prior) ==> Bounded(files);
        hide MovedUp, Bounded, Contents;
        assert MovedContents(prior, files, generation, source) && MovedContents(prior, files, generation, destination);
        assert destination < RETAINED_GENERATIONS ==> Shifted(before, files, destination);
        forall h: nat | destination < h < RETAINED_GENERATIONS ensures Shifted(before, files, h) {
          assert Shifted(before, prior, h) && MovedContents(prior, files, generation, h);
        }
        forall h: nat | h < source
          ensures Contents(files, h) == Contents(before, h) && (h in files <==> h in before)
        {
          assert MovedContents(prior, files, generation, h);
        }
        generation := generation - 1;
      }
    }

    /**
     * The file takes some prefix of the bytes, at most one file's worth. They are appended to the
     * retained bytes, and no generation ever exceeds the bound.
     */
    method Write(bytes: seq<Byte>, taken: nat) returns (written: nat)
      requires Valid()
      modifies this
      ensures Valid() && written <= |bytes| && written <= MAX_FILE_BYTES
      ensures written == Min(taken, Min(|bytes|, MAX_FILE_BYTES))
      ensures history == old(history) + bytes[..written]
      ensures WrittenTo(old(files), files, bytes, written)
      ensures IsSuffix(bytes[..written], files[0])
      ensures old(Bounded(files)) ==> Bounded(files)
    {
      hide IsSuffix, Retained, RetainedAfterRotation, Bounded, Rotated;
      if length > 0 && length + |bytes| > MAX_FILE_BYTES {
        Rotate();
      }
      var accepted := if |bytes| > MAX_FILE_BYTES then bytes[..MAX_FILE_BYTES] else bytes;
      written := if taken <= |accepted| then taken else |accepted|;
      var chunk := accepted[..written];
      assert chunk == bytes[..written];
      ghost var before := files;
      assert before[0 := before[0] + chunk][0 := before[0]] == before;
      AppendKeepsSuffix(before, before[0 := before[0] + chunk], history, chunk);
      AppendBounded(before, chunk);
      files := files[0 := files[0] + chunk];
      length := length + written;
      history := history + chunk;
    }
  }

  lemma AppendBounded(files: map<nat, seq<Byte>>, bytes: seq<Byte>)
    requires 0 in files && |files[0]| + |bytes| <= MAX_FILE_BYTES
    ensures Bounded(files) ==> Bounded(files[0 := files[0] + bytes])
  {
  }

  /** Replacing generation g by the newer one, if that exists. */
  function MovedUp(files: map<nat, seq<Byte>>, g: nat): map<nat, seq<Byte>>
    requires g >= 1
  {
    if g - 1 in files then (files - {g} - {g - 1})[g := files[g - 1]] else files
  }

  predicate MovedContents(files: map<nat, seq<Byte>>, moved: map<nat, seq<Byte>>, g: nat, h: nat)
    requires g >= 1
  {
    && Contents(moved, h) ==
       (if h == g then (if g - 1 in files then files[g - 1] else Contents(files, g))
        else if h == g - 1 then [] else Contents(files, h))
    && (h < g - 1 || h > g ==> (h in moved <==> h in files))
    && (g - 1 !in moved) && (g in moved <==> g - 1 in files || g in files)
  }

  lemma MovedUpContents(files: map<nat, seq<Byte>>, g: nat, h: nat)
    requires g >= 1
    ensures MovedContents(files, MovedUp(files, g), g, h)
  {
  }

  /** Generation h now holds what the newer generation held. */
  predicate Shifted(before: map<nat, seq<Byte>>, files: map<nat, seq<Byte>>, h: nat) {
    h >= 1 && (h in files <==> h - 1 in before) && Contents(files, h) == Contents(before, h - 1)
  }

  predicate OldestMoved(before: map<nat, seq<Byte>>, files: map<nat, seq<Byte>>) {
    && Contents(files, RETAINED_GENERATIONS) == OldestAfterRotation(before)
    && (RETAINED_GENERATIONS in files <==> RETAINED_GENERATIONS - 1 in before || RETAINED_GENERATIONS in before)
  }

  /** Every generation moved one step older and the current file is new. */
  ghost predicate Rotated(before: map<nat, seq<Byte>>, files: map<nat, seq<Byte>>) {
    && 0 in files && files[0] == []
    && (forall h: nat :: 0 < h < RETAINED_GENERATIONS ==> Shifted(before, files, h))
    && OldestMoved(before, files)
  }

  function OldestAfterRotation(before: map<nat, seq<Byte>>): seq<Byte> {
    if RETAINED_GENERATIONS - 1 in before then before[RETAINED_GENERATIONS - 1] else Contents(before, RETAINED_GENERATIONS)
  }

  /** What rotation keeps: everything, minus the oldest generation when it is replaced. */
  function RetainedAfterRotation(before: map<nat, seq<Byte>>): seq<Byte> {
    if RETAINED_GENERATIONS - 1 in before then Retained(before, RETAINED_GENERATIONS - 1, 0)
    else Retained(before, RETAINED_GENERATIONS, 0)
  }

  lemma {:induction false} SameRetained(a: map<nat, seq<Byte>>, b: map<nat, seq<Byte>>, oldest: nat, newest: nat)
    requires newest <= oldest + 1
    requires forall g: nat :: newest <= g <= oldest ==> Contents(a, g) == Contents(b, g)
    ensures Retained(a, oldest, newest) == Retained(b, oldest, newest)
    decreases oldest + 1 - newest
  {
    if newest <= oldest { SameRetained(a, b, oldest, newest + 1); }
  }

  lemma RetainedStep(files: map<nat, seq<Byte>>, oldest: nat, newest: nat)
    requires newest <= oldest
    ensures Retained(files, oldest, newest) == Retained(files, oldest, newest + 1) + Contents(files, newest)
    ensures Retained(files, oldest, oldest + 1) == []
  {
  }

  lemma FourFiles(files: map<nat, seq<Byte>>)
    ensures Retained(files, 3, 1) == Contents(files, 3) + Contents(files, 2) + Contents(files, 1)
    ensures Retained(files, 3, 0) == Retained(files, 3, 1) + Contents(files, 0)
    ensures Retained(files, 2, 0) == Contents(files, 2) + Contents(files, 1) + Contents(files, 0)
  {
    RetainedStep(files, 3, 3);
    RetainedStep(files, 3, 2);
    RetainedStep(files, 3, 1);
    RetainedStep(files, 3, 0);
    RetainedStep(files, 2, 2);
    RetainedStep(files, 2, 1);
    RetainedStep(files, 2, 0);
    hide *;
    NothingBefore(Contents(files, 3));
    NothingBefore(Contents(files, 2));
  }

  lemma NothingBefore(s: seq<Byte>)
    ensures [] + s == s
  {
  }

  lemma SuffixOfSuffix(dropped: seq<Byte>, kept: seq<Byte>, all: seq<Byte>)
    requires IsSuffix(dropped + kept, all)
    ensures IsSuffix(kept, all)
  {
    assert (dropped + kept)[|dropped|..] == kept;
  }

  lemma AppendToBoth(kept: seq<Byte>, all: seq<Byte>, bytes: seq<Byte>)
    requires IsSuffix(kept, all)
    ensures IsSuffix(kept + bytes, all + bytes)
  {
    assert (all + bytes)[|all| - |kept|..] == all[|all| - |kept|..] + bytes;
  }

  /** Moving every file one generation up loses at most the oldest one. */
  lemma RotationKeepsSuffix(before: map<nat, seq<Byte>>, after: map<nat, seq<Byte>>, history: seq<Byte>)
    requires IsSuffix(Retained(before, RETAINED_GENERATIONS, 0), history)
    requires Contents(after, 0) == []
    requires forall h: nat :: 0 < h < RETAINED_GENERATIONS ==> Shifted(before, after, h)
    requires Contents(after, RETAINED_GENERATIONS) == OldestAfterRotation(before)
    ensures Retained(after, RETAINED_GENERATIONS, 1) == RetainedAfterRotation(before)
    ensures IsSuffix(Retained(after, RETAINED_GENERATIONS, 0), history)
  {
    FourFiles(before);
    FourFiles(after);
    assert Shifted(before, after, 1) && Shifted(before, after, 2);
    assert Contents(after, 1) == Contents(before, 0) && Contents(after, 2) == Contents(before, 1);
    var oldest, c2, c1, c0 := Contents(before, 3), Contents(before, 2), Contents(before, 1), Contents(before, 0);
    assert 2 !in before ==> c2 == [];
    var replaced := 2 in before;
    assert Contents(after, 3) == if replaced then c2 else oldest;
    assert RetainedAfterRotation(before) == if replaced then Retained(before, 2, 0) else Retained(before, 3, 0);
    hide *;
    AddNothing(oldest);
    AddNothing(Retained(after, 3, 1));
    if replaced { SuffixOfFour(oldest, c2, c1, c0, history); }
  }

  lemma AddNothing(s: seq<Byte>)
    ensures s + [] == s
  {
  }

  lemma SuffixOfFour(a: seq<Byte>, b: seq<Byte>, c: seq<Byte>, d: seq<Byte>, all: seq<Byte>)
    requires IsSuffix(a + b + c + d, all)
    ensures IsSuffix(b + c + d, all)
  {
    assert a + b + c + d == a + (b + c + d);
    hide IsSuffix;
    SuffixOfSuffix(a, b + c + d, all);
  }

  /** Appending to the current file appends to the retained bytes. */
  lemma AppendKeepsSuffix(before: map<nat, seq<Byte>>, after: map<nat, seq<Byte>>, history: seq<Byte>, bytes: seq<Byte>)
    requires 0 in before && after == before[0 := before[0] + bytes]
    requires IsSuffix(Retained(before, RETAINED_GENERATIONS, 0), history)
    ensures IsSuffix(Retained(after, RETAINED_GENERATIONS, 0), history + bytes)
    ensures IsSuffix(bytes, after[0])
  {
    SameRetained(before, after, RETAINED_GENERATIONS, 1);
    RetainedStep(before, RETAINED_GENERATIONS, 0);
    RetainedStep(after, RETAINED_GENERATIONS, 0);
    assert after[0][|after[0]| - |bytes|..] == bytes;
    assert IsSuffix(bytes, after[0]);
    assert Contents(before, 0) == before[0] && Contents(after, 0) == before[0] + bytes;
    hide *;
    var older := Retained(before, RETAINED_GENERATIONS, 1);
    AppendToBoth(older + before[0], history, bytes);
    AddTwice(older, before[0], bytes);
  }

  lemma AddTwice(a: seq<Byte>, b: seq<Byte>, c: seq<Byte>)
    ensures a + (b + c) == a + b + c
  {
  }

  // How much is kept

  /** A write appends to the current file, after rotating if the file is not empty and would overflow. */
  ghost predicate WrittenTo(before: map<nat, seq<Byte>>, after: map<nat, seq<Byte>>, bytes: seq<Byte>, written: nat)
    requires 0 in before && written <= |bytes|
  {
    if |before[0]| > 0 && |before[0]| + |bytes| > MAX_FILE_BYTES then
      0 in after && after[0] == bytes[..written] && Rotated(before, after[0 := []])
    else after == before[0 := before[0] + bytes[..written]]
  }

  /** Generation g + 1 exists only beside generation g, and the two hold more than one file's worth. */
  predicate Packed(files: map<nat, seq<Byte>>, g: nat) {
    g + 1 in files ==> g in files && |files[g]| + |files[g + 1]| > MAX_FILE_BYTES
  }

  predicate Dense(files: map<nat, seq<Byte>>) {
    0 in files && forall g: nat :: g < RETAINED_GENERATIONS ==> Packed(files, g)
  }

  predicate AllPresent(files: map<nat, seq<Byte>>) {
    forall g: nat :: g <= RETAINED_GENERATIONS ==> g in files
  }

  /** Nothing has been dropped yet, or every generation is in use. */
  predicate KeptOrFull(files: map<nat, seq<Byte>>, history: seq<Byte>) {
    Retained(files, RETAINED_GENERATIONS, 0) == history || AllPresent(files)
  }

  lemma WriteStaysDense(before: map<nat, seq<Byte>>, after: map<nat, seq<Byte>>, bytes: seq<Byte>, written: nat)
    requires Dense(before) && written == Min(|bytes|, MAX_FILE_BYTES) && WrittenTo(before, after, bytes, written)
    ensures Dense(after)
  {
    assert Packed(before, 0) && Packed(before, 1) && Packed(before, 2);
    if |before[0]| > 0 && |before[0]| + |bytes| > MAX_FILE_BYTES {
      var moved := after[0 := []];
      assert Shifted(before, moved, 1) && Shifted(before, moved, 2) && OldestMoved(before, moved);
      assert forall g: nat :: g > 0 ==> (g in after <==> g in moved) && Contents(after, g) == Contents(moved, g);
    }
    assert Packed(after, 0) && Packed(after, 1) && Packed(after, 2);
  }

  lemma WriteKeepsOrFills(before: map<nat, seq<Byte>>, after: map<nat, seq<Byte>>, bytes: seq<Byte>, written: nat, history: seq<Byte>)
    requires Dense(before) && KeptOrFull(before, history) && written <= |bytes| && WrittenTo(before, after, bytes, written)
    requires IsSuffix(Retained(before, RETAINED_GENERATIONS, 0), history)
    ensures KeptOrFull(after, history + bytes[..written])
  {
    assert Packed(before, 0) && Packed(before, 1);
    RetainedStep(before, RETAINED_GENERATIONS, 0);
    RetainedStep(after, RETAINED_GENERATIONS, 0);
    var chunk := bytes[..written];
    if |before[0]| > 0 && |before[0]| + |bytes| > MAX_FILE_BYTES {
      var moved := after[0 := []];
      RotationKeepsSuffix(before, moved, history);
      SameRetained(moved, after, RETAINED_GENERATIONS, 1);
      assert Shifted(before, moved, 1) && Shifted(before, moved, 2) && OldestMoved(before, moved);
      assert Contents(after, 0) == chunk;
      assert AllPresent(before) ==> 2 in before;
      if 2 in before { assert AllPresent(after); }
    } else {
      SameRetained(before, after, RETAINED_GENERATIONS, 1);
      AddTwice(Retained(before, RETAINED_GENERATIONS, 1), before[0], chunk);
    }
  }

  /** Four packed generations hold more than two files' worth. */
  lemma FullIsLarge(files: map<nat, seq<Byte>>)
    requires Dense(files) && AllPresent(files)
    ensures |Retained(files, RETAINED_GENERATIONS, 0)| >= 2 * (MAX_FILE_BYTES + 1)
  {
    assert Packed(files, 0) && Packed(files, 2);
    FourFiles(files);
    assert 0 in files && 1 in files && 2 in files && 3 in files;
  }

  type Request = (seq<Byte>, nat)

  /** What a write accepts: at most what the system takes, and at most one file's worth. */
  function Accepted(write: Request): seq<Byte> {
    write.0[..Min(write.1, Min(|write.0|, MAX_FILE_BYTES))]
  }

  function AcceptedBytes(writes: seq<Request>): seq<Byte> {
    if writes == [] then [] else AcceptedBytes(writes[..|writes| - 1]) + Accepted(writes[|writes| - 1])
  }

  /** The system takes whatever it is offered. */
  predicate FullyTaken(writes: seq<Request>) {
    forall i :: 0 <= i < |writes| ==> writes[i].1 >= |writes[i].0|
  }

  /**
   * A fresh log, whatever is written to it: no file exceeds the bound, and the files read oldest to
   * newest are a suffix of all the bytes accepted. When writes are taken whole, either nothing has
   * been dropped or more than two files' worth is kept.
   */
  method WriteAll(writes: seq<Request>) returns (log: BoundedRotatingWriter)
    ensures fresh(log) && Bounded(log.files)
    ensures IsSuffix(Retained(log.files, RETAINED_GENERATIONS, 0), AcceptedBytes(writes))
    ensures writes != [] ==> 0 in log.files && IsSuffix(Accepted(writes[|writes| - 1]), log.files[0])
    ensures FullyTaken(writes) ==>
      || Retained(log.files, RETAINED_GENERATIONS, 0) == AcceptedBytes(writes)
      || |Retained(log.files, RETAINED_GENERATIONS, 0)| >= 2 * (MAX_FILE_BYTES + 1)
  {
    log := new BoundedRotatingWriter(map[]);
    NothingRetained(RETAINED_GENERATIONS, 0);
    StartsDense(log.files);
    assert writes[..0] == [];
    assert AcceptedBytes(writes[..0]) == [];
    ghost var whole := FullyTaken(writes);
    assert Logged(log.files, writes, 0, whole);
    hide *;
    var i := 0;
    while i < |writes|
      invariant 0 <= i <= |writes| && fresh(log) && log.Valid()
      invariant log.history == AcceptedBytes(writes[..i]) && Logged(log.files, writes, i, whole)
    {
      WriteNext(log, writes, i, whole);
      i := i + 1;
    }
    assert writes[..i] == writes;
    log.SuffixOfHistory();
    LoggedMeaning(log.files, writes, whole);
  }

  /** What holds of the files once the first i writes have been made. */
  ghost predicate Logged(files: map<nat, seq<Byte>>, writes: seq<Request>, i: nat, whole: bool)
    requires i <= |writes|
  {
    && 0 in files && Bounded(files)
    && (i > 0 ==> IsSuffix(Accepted(writes[i - 1]), files[0]))
    && (whole ==> FullyTaken(writes) && DenseAndKept(files, AcceptedBytes(writes[..i])))
  }

  method WriteNext(log: BoundedRotatingWriter, writes: seq<Request>, i: nat, ghost whole: bool)
    requires i < |writes| && log.Valid()
    requires log.history == AcceptedBytes(writes[..i]) && Logged(log.files, writes, i, whole)
    modifies log
    ensures log.Valid() && log.history == AcceptedBytes(writes[..i + 1]) && Logged(log.files, writes, i + 1, whole)
  {
    ghost var before, history := log.files, log.history;
    log.SuffixOfHistory();
    assert whole ==> writes[i].1 >= |writes[i].0|;
    hide Retained, IsSuffix, WrittenTo, DenseAndKept, Bounded, Accepted, AcceptedBytes, FullyTaken;
    var written := log.Write(writes[i].0, writes[i].1);
    AcceptsNext(writes, i, written);
    WriteStaysKept(before, log.files, writes[i], written, history, whole);
  }

  lemma LoggedMeaning(files: map<nat, seq<Byte>>, writes: seq<Request>, whole: bool)
    requires Logged(files, writes, |writes|, whole)
    ensures Bounded(files) && 0 in files
    ensures writes != [] ==> IsSuffix(Accepted(writes[|writes| - 1]), files[0])
    ensures whole ==>
      || Retained(files, RETAINED_GENERATIONS, 0) == AcceptedBytes(writes)
      || |Retained(files, RETAINED_GENERATIONS, 0)| >= 2 * (MAX_FILE_BYTES + 1)
  {
    assert writes[..|writes|] == writes;
    hide Bounded, DenseAndKept, IsSuffix, Accepted, Retained;
    KeptOrLarge(files, AcceptedBytes(writes), whole);
  }

  ghost predicate DenseAndKept(files: map<nat, seq<Byte>>, history: seq<Byte>) {
    Dense(files) && KeptOrFull(files, history)
  }

  lemma WriteStaysKept(before: map<nat, seq<Byte>>, after: map<nat, seq<Byte>>, write: Request, written: nat, history: seq<Byte>, whole: bool)
    requires 0 in before && written == Min(write.1, Min(|write.0|, MAX_FILE_BYTES)) && WrittenTo(before, after, write.0, written)
    requires IsSuffix(Retained(before, RETAINED_GENERATIONS, 0), history)
    requires whole ==> DenseAndKept(before, history) && write.1 >= |write.0|
    ensures whole ==> DenseAndKept(after, history + write.0[..written])
  {
    hide WrittenTo, Dense, KeptOrFull, IsSuffix, Retained;
    if whole {
      WriteStaysDense(before, after, write.0, written);
      WriteKeepsOrFills(before, after, write.0, written, history);
    }
  }

  lemma AcceptsNext(writes: seq<Request>, i: nat, written: nat)
    requires i < |writes| && written == Min(writes[i].1, Min(|writes[i].0|, MAX_FILE_BYTES))
    ensures Accepted(writes[i]) == writes[i].0[..written]
    ensures AcceptedBytes(writes[..i + 1]) == AcceptedBytes(writes[..i]) + writes[i].0[..written]
  {
    assert writes[..i + 1][..i] == writes[..i];
  }

  lemma KeptOrLarge(files: map<nat, seq<Byte>>, history: seq<Byte>, whole: bool)
    requires whole ==> DenseAndKept(files, history)
    ensures whole ==>
      || Retained(files, RETAINED_GENERATIONS, 0) == history
      || |Retained(files, RETAINED_GENERATIONS, 0)| >= 2 * (MAX_FILE_BYTES + 1)
  {
    if whole && AllPresent(files) { FullIsLarge(files); }
  }

  /** A fresh log has one empty file. */
  lemma StartsDense(files: map<nat, seq<Byte>>)
    requires files == map[0 := []]
    ensures Dense(files) && KeptOrFull(files, [])
  {
    FourFiles(files);
  }

  lemma {:induction false} NothingRetained(oldest: nat, newest: nat)
    requires newest <= oldest + 1
    ensures Retained(map[], oldest, newest) == []
    decreases oldest + 1 - newest
  {
    if newest <= oldest { NothingRetained(oldest, newest + 1); }
  }
}
