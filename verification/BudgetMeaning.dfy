/** What budgets mean: which scale is chosen, what a reservation covers, and when masks are shared. */
module BudgetMeaning {
  import opened Common
  import opened Arithmetic
  import opened Budget

  // Reservations

  function Total(sizes: seq<nat>): nat {
    if sizes == [] then 0 else Total(sizes[..|sizes| - 1]) + sizes[|sizes| - 1]
  }

  /** Sizes of the images a generator may hand out: one or two of them, each and all within the limits. */
  predicate Deliverable(g: Generator, sizes: seq<nat>, l: Limits) {
    && |sizes| == (if g.Storyboard? && g.orientation then 2 else 1)
    && (forall k :: 0 <= k < |sizes| ==> sizes[k] <= g.output.maxEncoded && sizes[k] <= l.maxOutputEach)
    && Total(sizes) <= l.maxOutputTotal
  }

  /** What is set aside for a generator's output is the most it can hand out, no more and no less. */
  lemma ReservationIsLargest(g: Generator, l: Limits) returns (most: seq<nat>)
    requires OutputReservation(g, l).Ok?
    ensures Deliverable(g, most, l) && Total(most) == OutputReservation(g, l).value
    ensures forall sizes :: Deliverable(g, sizes, l) ==> Total(sizes) <= OutputReservation(g, l).value
  {
    var each, total := Min(g.output.maxEncoded, l.maxOutputEach), l.maxOutputTotal;
    var two := g.Storyboard? && g.orientation;
    assert OutputReservation(g, l).value == Min(if two then 2 * each else each, total);
    hide OutputReservation, Total;
    most := if two then [Min(each, total), Min(each, total - Min(each, total))] else [Min(each, total)];
    if two { TotalOfTwo(most[0], most[1]); } else { TotalOfOne(most[0]); }
    forall sizes | Deliverable(g, sizes, l) ensures Total(sizes) <= OutputReservation(g, l).value {
      if two {
        assert sizes == [sizes[0], sizes[1]];
        TotalOfTwo(sizes[0], sizes[1]);
      } else {
        assert sizes == [sizes[0]];
        TotalOfOne(sizes[0]);
      }
    }
  }

  lemma TotalOfOne(a: nat)
    ensures Total([a]) == a
  {
    assert [a][..0] == [];
  }

  lemma TotalOfTwo(a: nat, b: nat)
    ensures Total([a, b]) == a + b
  {
    assert [a, b][..1] == [a];
    TotalOfOne(a);
  }

  /** Only a reservation no machine word can hold is refused: two outputs of more than half of one. */
  lemma ReservationFailsIff(g: Generator, l: Limits)
    ensures OutputReservation(g, l).Err? <==>
      g.Storyboard? && g.orientation && 2 * Min(g.output.maxEncoded, l.maxOutputEach) >= U64_LIMIT
    ensures ValidLimits(l) ==> OutputReservation(g, l).Ok?
  {
  }

  /** Beyond its scale, preparation refuses exactly an image too wide or tall, or one that may encode to too much. */
  lemma PreparedIsAllowed(g: Generator, p: Generator, source: Source, l: Limits)
    ensures var large := g.output.size.width > l.maxDimension || g.output.size.height > l.maxDimension || g.output.maxEncoded > l.maxOutputEach;
      && (Prepared(g, p, source, l) <==> !large && Materialized(g, p, source, l))
      && (CannotPrepare(g, source, l) <==> large || CannotMaterialize(g, source, l))
  {
    hide Materialized, CannotMaterialize;
  }

  // Scales

  /** The size an analysis works on before scaling: the crop, or the whole image. */
  function Cropped(norm: Normalization, source: Source): Size {
    match norm.crop
    case Some(size) => size
    case None => source.image
  }

  /** Scaling by f keeps whole pixels and stays within every limit, beside the decoded frames and the output. */
  predicate ScaleFits(g: Generator, source: Source, l: Limits, f: Positive)
    requires !g.RegionFilmstrip? && OutputReservation(g, l).Ok?
  {
    var size := Cropped(g.norm, source);
    var width: nat, height: nat := size.width / f, size.height / f;
    && f <= 8 && size.width % f == 0 && size.height % f == 0
    && width * height <= l.maxPixels
    && width * height * 6 * source.frames <= l.maxNormalized
    && source.decoded + OutputReservation(g, l).value + width * height * 6 * source.frames <= l.maxCombined
  }

  lemma FittingIsFitting(g: Generator, source: Source, l: Limits, f: Positive)
    requires !g.RegionFilmstrip? && OutputReservation(g, l).Ok?
    ensures var budget := NormalizedBudget(source, l, OutputReservation(g, l).value);
      ScaleFits(g, source, l, f) <==>
        budget.Some? && Admissible(AnalysisSize(g.norm, source), f) && FitsAt(g.norm, source, l, budget.value, f)
  {
    var size := AnalysisSize(g.norm, source);
    assert size == Cropped(g.norm, source);
    var reserved := OutputReservation(g, l).value;
    hide OutputReservation;
    DividesIsRemainder(f, size.width);
    DividesIsRemainder(f, size.height);
    hide Divides;
    var width: nat, height: nat := size.width / f, size.height / f;
    assert ScaledPixels(size, f) == width * height;
  }

  lemma DividesIsRemainder(f: Positive, n: Positive)
    ensures Divides(f, n) <==> n % f == 0
  {
  }

  /** A fitted scale is the least whole factor up to eight that fits, the identity first. */
  lemma FittedScaleIsLeast(g: Generator, p: Generator, source: Source, l: Limits)
    requires Materialized(g, p, source, l) && !g.RegionFilmstrip? && g.norm.scale.FitLimits?
    ensures !p.RegionFilmstrip? && p == g.(norm := g.norm.(scale := p.norm.scale))
    ensures exists f: Positive ::
      && ScaleFits(g, source, l, f) && (f == 1 <==> p.norm.scale == Identity) && (f > 1 ==> p.norm.scale == Down(f))
      && forall e: Positive :: e < f ==> !ScaleFits(g, source, l, e)
  {
    var f := FactorOf(p.norm.scale);
    var budget := NormalizedBudget(source, l, OutputReservation(g, l).value).value;
    assert LeastFitting(g.norm, source, l, budget, f);
    hide NormalizedBudget, OutputReservation, ScaleFits, FitsAt, Admissible, ValidateNormalized, AnalysisSize;
    FittingIsFitting(g, source, l, f);
    forall e: Positive | e < f ensures !ScaleFits(g, source, l, e) { FittingIsFitting(g, source, l, e); }
  }

  /** Fitting is refused exactly when no factor fits. */
  lemma FittingRefusedIff(g: Generator, source: Source, l: Limits)
    requires !g.RegionFilmstrip? && g.norm.scale.FitLimits? && OutputReservation(g, l).Ok?
    ensures CannotMaterialize(g, source, l) <==> forall f: Positive :: !ScaleFits(g, source, l, f)
  {
    var budget := NormalizedBudget(source, l, OutputReservation(g, l).value);
    hide NormalizedBudget, OutputReservation, ScaleFits, FitsAt, Admissible, ValidateNormalized, AnalysisSize;
    forall f: Positive
      ensures ScaleFits(g, source, l, f) <==>
        budget.Some? && Admissible(AnalysisSize(g.norm, source), f) && FitsAt(g.norm, source, l, budget.value, f)
    {
      FittingIsFitting(g, source, l, f);
    }
  }

  /** An explicit scale is kept as it is, and refused exactly when it does not divide the image or exceeds the normalised limits. */
  lemma ExplicitScaleKept(g: Generator, source: Source, l: Limits)
    requires !g.RegionFilmstrip? && !g.norm.scale.FitLimits? && OutputReservation(g, l).Ok?
    ensures var size, f := Cropped(g.norm, source), if g.norm.scale.Identity? then 1 else g.norm.scale.factor;
      var width: nat, height: nat := size.width / f, size.height / f;
      CannotMaterialize(g, source, l) <==>
        !(size.width % f == 0 && size.height % f == 0
          && width * height <= l.maxPixels && width * height * 6 * source.frames <= l.maxNormalized)
    ensures forall p :: Materialized(g, p, source, l) ==> p == g
  {
    hide OutputReservation;
    var size, f := AnalysisSize(g.norm, source), FactorOf(g.norm.scale);
    assert size == Cropped(g.norm, source) && ScaleOf(f) == g.norm.scale && g.norm.(scale := ScaleOf(f)) == g.norm;
    DividesIsRemainder(f, size.width);
    DividesIsRemainder(f, size.height);
    hide Divides;
    if Admissible(size, f) {
      ValidateMeaning(g.norm, source, l, l.maxNormalized, f);
      hide ValidateNormalized;
    }
  }

  /** A filmstrip is not normalised and never changes. */
  lemma FilmstripKept(g: Generator, p: Generator, source: Source, l: Limits)
    requires g.RegionFilmstrip? && Materialized(g, p, source, l)
    ensures p == g && Demand(p, source, l) == source.decoded + OutputReservation(g, l).value
  {
  }

  // Admission

  /** A reservation the scheduler accepts is positive and within the combined limit. */
  lemma PermitsIff(bytes: nat, l: Limits)
    requires ValidLimits(l)
    ensures MemoryPermits(bytes, l).Ok? <==> 0 < bytes <= l.maxCombined
    ensures MemoryPermits(bytes, l).Ok? ==> MemoryPermits(bytes, l).value == bytes
    ensures MemoryPermits(bytes, l).Err? ==> MemoryPermits(bytes, l).error == ResourceLimitExceeded
  {
  }

  /** Admission aborts only on a total no machine word holds, and otherwise admits exactly what its limits allow. */
  lemma AdmissionMeaning(p: Generator, source: Source, l: Limits, wantsSharedMask: bool)
    requires EstimatedNormalized(p, source).Ok? && OutputReservation(p, l).Ok? && EstimatedMask(source).Ok?
    ensures var a, normalized := AdmitGroup(p, source, l, wantsSharedMask), EstimatedNormalized(p, source).value;
      var total := source.decoded + normalized + OutputReservation(p, l).value;
      && (a.Aborts? <==> total >= U64_LIMIT) && (a.Aborts? ==> a.error == ResourceLimitExceeded)
      && (a.Admitted? <==> normalized <= l.maxNormalized && total <= l.maxCombined)
      && (a.Admitted? ==> a.base == total && a.normalized == normalized)
  {
    assert l.maxCombined < U64_LIMIT;
    hide EstimatedNormalized, OutputReservation, EstimatedMask;
  }

  /** The mask estimate packs one bit a pixel: as many whole bytes as needed for every adjacent pair, no more. */
  lemma MaskIsPacked(source: Source)
    requires Accounted(source)
    ensures EstimatedMask(source).Ok?
    ensures exists perPair: nat ::
      && EstimatedMask(source).value == (source.frames - 1) * perPair
      && perPair * 8 >= source.image.width * source.image.height > (perPair - 1) * 8
  {
    MaskNeverOverflows(source);
    var pixels: nat := source.image.width * source.image.height;
    var perPair: nat := (pixels + 7) / 8;
    assert EstimatedMask(source).value == (source.frames - 1) * perPair;
    assert perPair * 8 >= pixels > (perPair - 1) * 8;
  }

  /** Masks are kept exactly when they fit beside the group's own reservation; otherwise each generator measures alone. */
  lemma MaskKeptIff(g: Generator, p: Generator, source: Source, l: Limits)
    requires ValidLimits(l) && Accounted(source) && source.decoded <= l.maxDecoded && Prepared(g, p, source, l)
    requires AdmitGroup(p, source, l, true).Admitted?
    ensures OutputReservation(p, l).Ok? && EstimatedMask(source).Ok?
    ensures var a, estimate := AdmitGroup(p, source, l, true), EstimatedMask(source).value;
      var normalized := if p.RegionFilmstrip? then 0 else NormalizedBytes(p.norm, source);
      a.mask == if normalized + estimate <= l.maxNormalized && Demand(p, source, l) + estimate <= l.maxCombined then estimate else 0
    ensures AdmitGroup(p, source, l, false).Admitted? && AdmitGroup(p, source, l, false).mask == 0
  {
    PreparedCosts(g, p, source, l);
    MaskNeverOverflows(source);
    hide Prepared, OutputReservation, NormalizedBytes, EstimatedMask, Accounted, EstimatedNormalized;
  }
}
