/** The video canvas: the largest aspect-preserving size whose even padding fits the output limits. */
module Geometry {
  import opened Common
  import opened Arithmetic

  datatype Size = Size(width: nat, height: nat)

  datatype OutputGeometry = OutputGeometry(source: Size, scaled: Size, canvas: Size)

  const MAX_WIDTH: nat := 1920
  const MAX_HEIGHT: nat := 1080

  /** Rounding up to an even number. */
  function Even(n: nat): nat {
    n + n % 2
  }

  function Canvas(size: Size): Size {
    Size(Even(size.width), Even(size.height))
  }

  predicate Within(size: Size, limit: Size) {
    size.width <= limit.width && size.height <= limit.height
  }

  /** Exactly the source's aspect ratio, no larger than the source. */
  predicate Faithful(size: Size, source: Size) {
    && size.width >= 1 && size.height >= 1 && Within(size, source)
    && size.width * source.height == size.height * source.width
  }

  /** The checks a video output geometry is constructed under. */
  predicate ValidGeometry(g: OutputGeometry) {
    && Within(g.scaled, g.canvas)
    && g.canvas.width - g.scaled.width <= 1 && g.canvas.height - g.scaled.height <= 1
    && Within(g.scaled, g.source)
    && g.source.width * g.scaled.height == g.source.height * g.scaled.width
    && g.canvas.width % 2 == 0 && g.canvas.height % 2 == 0
    && Within(g.canvas, Size(MAX_WIDTH, MAX_HEIGHT))
  }

  /** Of all faithful sizes whose canvas fits the limits, none is wider or taller. */
  ghost predicate Largest(size: Size, source: Size, limit: Size) {
    && Faithful(size, source) && Within(Canvas(size), limit)
    && forall w: nat, h: nat :: Faithful(Size(w, h), source) && Within(Canvas(Size(w, h)), limit) ==> Within(Size(w, h), size)
  }

  ghost predicate NoneFits(source: Size, limit: Size) {
    forall w: nat, h: nat :: Faithful(Size(w, h), source) ==> !Within(Canvas(Size(w, h)), limit)
  }

  function Multiple(unit: Size, m: nat): Size {
    Size(unit.width * m, unit.height * m)
  }

  /** In one ratio, the wider pair is the taller one, and their difference keeps the ratio. */
  lemma Difference(a: nat, b: nat, c: nat, d: nat)
    requires a >= 1 && b >= 1 && a < c && a * d == b * c
    ensures b < d && a * (d - b) == b * (c - a)
  {
    assert a * b == b * a;
    MulMonotone(b, a + 1, c);
    assert b * (a + 1) == b * a + b;
    LessFromProduct(a, b, d);
  }

  lemma SumOfMultiples(g: nat, i: nat, k: nat)
    ensures g * (i + k) == g * i + g * k
  {
  }

  /** Two pairs in one ratio are multiples of a common pair. */
  lemma {:induction false} CommonPair(a: nat, b: nat, c: nat, d: nat) returns (g: nat, t: nat, k: nat, j: nat)
    requires a >= 1 && b >= 1 && c >= 1 && d >= 1 && a * d == b * c
    ensures g >= 1 && t >= 1 && k >= 1 && j >= 1
    ensures a == g * k && b == t * k && c == g * j && d == t * j
    decreases a + c
  {
    if a == c {
      SameHeight(a, b, d);
      g, t, k, j := a, b, 1, 1;
    } else if a < c {
      Difference(a, b, c, d);
      var i;
      g, t, k, i := CommonPair(a, b, c - a, d - b);
      j := i + k;
      SumOfMultiples(g, i, k);
      SumOfMultiples(t, i, k);
    } else {
      Swapped(a, b, c, d);
      Difference(c, d, a, b);
      Swapped(c, d, a - c, b - d);
      var i;
      g, t, i, j := CommonPair(a - c, b - d, c, d);
      k := i + j;
      SumOfMultiples(g, i, j);
      SumOfMultiples(t, i, j);
    }
  }

  lemma Swapped(a: nat, b: nat, c: nat, d: nat)
    requires a * d == b * c
    ensures c * b == d * a
  {
  }

  lemma SameHeight(a: nat, b: nat, d: nat)
    requires a >= 1 && a * d == b * a
    ensures b == d
  {
    assert a * d < a * (b + 1) && a * b < a * (d + 1);
    LessFromProduct(a, d, b + 1);
    LessFromProduct(a, b, d + 1);
  }

  /** The faithful sizes are exactly the multiples of the reduced size, up to the divisor. */
  lemma FaithfulIsMultiple(source: Size, divisor: nat, size: Size) returns (m: nat)
    requires source.width >= 1 && source.height >= 1 && divisor >= 1 && IsGcd(divisor, source.width, source.height)
    requires Faithful(size, source)
    ensures 1 <= m <= divisor && size == Multiple(Unit(source, divisor), m)
  {
    var unit := Unit(source, divisor);
    UnitProducts(source, divisor);
    SameRatio(source, divisor, size);
    var g, t, k, j := CommonPair(unit.width, unit.height, size.width, size.height);
    UnitCoprime(source, divisor, g, t, k);
    m := j;
    assert unit.width * (divisor + 1) == source.width + unit.width;
    LessFromProduct(unit.width, m, divisor + 1);
  }

  function Unit(source: Size, divisor: nat): Size
    requires divisor >= 1
  {
    Size(source.width / divisor, source.height / divisor)
  }

  lemma UnitProducts(source: Size, divisor: nat)
    requires source.width >= 1 && source.height >= 1 && divisor >= 1 && IsGcd(divisor, source.width, source.height)
    ensures var unit := Unit(source, divisor);
      unit.width >= 1 && unit.height >= 1 && unit.width * divisor == source.width && unit.height * divisor == source.height
  {
    GcdIsGreatest(divisor, source.width, source.height, 1);
  }

  lemma SameRatio(source: Size, divisor: nat, size: Size)
    requires divisor >= 1 && size.width * source.height == size.height * source.width
    requires Unit(source, divisor).width * divisor == source.width && Unit(source, divisor).height * divisor == source.height
    ensures Unit(source, divisor).width * size.height == Unit(source, divisor).height * size.width
  {
    var u, v := Unit(source, divisor).width, Unit(source, divisor).height;
    var x: int, y: int := u * size.height, v * size.width;
    assert divisor * x == size.height * (u * divisor);
    assert divisor * y == size.width * (v * divisor);
    if x < y { MulMonotone(divisor, x + 1, y); }
    if y < x { MulMonotone(divisor, y + 1, x); }
  }

  /** The reduced size has no common divisor left. */
  lemma UnitCoprime(source: Size, divisor: nat, g: nat, t: nat, k: nat)
    requires source.width >= 1 && source.height >= 1 && divisor >= 1 && IsGcd(divisor, source.width, source.height)
    requires k >= 1 && Unit(source, divisor) == Size(g * k, t * k)
    ensures k == 1
  {
    UnitProducts(source, divisor);
    assert source.width == (k * divisor) * g && source.height == (k * divisor) * t;
    MultipleDivides(k * divisor, g, source.width);
    MultipleDivides(k * divisor, t, source.height);
    GcdIsGreatest(divisor, source.width, source.height, k * divisor);
    if k >= 2 { MulMonotone(divisor, 2, k); }
  }

  /** Every multiple up to the divisor is faithful. */
  lemma MultipleIsFaithful(source: Size, divisor: nat, m: nat)
    requires source.width >= 1 && source.height >= 1 && divisor >= 1 && IsGcd(divisor, source.width, source.height)
    requires 1 <= m <= divisor
    ensures Faithful(Multiple(Unit(source, divisor), m), source)
  {
    var u, v := Unit(source, divisor).width, Unit(source, divisor).height;
    UnitProducts(source, divisor);
    MulMonotone(u, m, divisor);
    MulMonotone(v, m, divisor);
    MulMonotone(u, 1, m);
    MulMonotone(v, 1, m);
    assert u * m * (v * divisor) == v * m * (u * divisor);
  }

  /** A fitting multiple above which nothing fits is the largest faithful size that fits. */
  lemma FirstFitIsLargest(source: Size, divisor: nat, limit: Size, m: nat)
    requires source.width >= 1 && source.height >= 1 && divisor >= 1 && IsGcd(divisor, source.width, source.height)
    requires 1 <= m <= divisor && Within(Canvas(Multiple(Unit(source, divisor), m)), limit)
    requires forall n: nat :: m < n <= divisor ==> !Within(Canvas(Multiple(Unit(source, divisor), n)), limit)
    ensures Largest(Multiple(Unit(source, divisor), m), source, limit)
  {
    MultipleIsFaithful(source, divisor, m);
    var unit := Unit(source, divisor);
    forall w: nat, h: nat | Faithful(Size(w, h), source) && Within(Canvas(Size(w, h)), limit)
      ensures Within(Size(w, h), Multiple(unit, m))
    {
      var n := FaithfulIsMultiple(source, divisor, Size(w, h));
      MulMonotone(unit.width, n, m);
      MulMonotone(unit.height, n, m);
    }
  }

  /**
   * The descending search returns the largest faithful size whose canvas fits, and refuses exactly
   * when none fits or that one exceeds the fixed video limit.
   */
  method OutputGeometryFor(source: Size, limit: Size) returns (r: Result<OutputGeometry>)
    requires 1 <= source.width && 1 <= source.height
    ensures r.Ok? ==> ValidGeometry(r.value) && r.value.source == source
    ensures r.Ok? ==> Largest(r.value.scaled, source, limit) && r.value.canvas == Canvas(r.value.scaled)
    ensures r.Err? ==> r.error == ResourceLimitExceeded
    ensures r.Err? ==> NoneFits(source, limit) || exists w: nat, h: nat :: OversizedBest(Size(w, h), source, limit)
  {
    var divisor := Gcd(source.width, source.height);
    var unit := Unit(source, divisor);
    hide Unit, IsGcd, Largest, Faithful, NoneFits;
    var multiple := divisor;
    while multiple >= 1
      invariant 0 <= multiple <= divisor
      invariant forall n: nat :: multiple < n <= divisor ==> !Within(Canvas(Multiple(unit, n)), limit)
    {
      var scaled := Multiple(unit, multiple);
      var canvas := Canvas(scaled);
      if Within(canvas, limit) {
        FirstFitIsLargest(source, divisor, limit, multiple);
        var geometry := OutputGeometry(source, scaled, canvas);
        if Within(canvas, Size(MAX_WIDTH, MAX_HEIGHT)) {
          LargestIsValid(source, scaled, limit);
          return Ok(geometry);
        }
        assert OversizedBest(Size(scaled.width, scaled.height), source, limit);
        return Err(ResourceLimitExceeded);
      }
      multiple := multiple - 1;
    }
    NoMultipleFits(source, divisor, limit);
    r := Err(ResourceLimitExceeded);
  }

  lemma LargestIsValid(source: Size, scaled: Size, limit: Size)
    requires Largest(scaled, source, limit) && Within(Canvas(scaled), Size(MAX_WIDTH, MAX_HEIGHT))
    ensures ValidGeometry(OutputGeometry(source, scaled, Canvas(scaled)))
  {
    assert Faithful(scaled, source) && Within(scaled, source);
    AspectCommutes(source, scaled);
    EvenRounds(scaled.width);
    EvenRounds(scaled.height);
    hide Even, Largest, Faithful;
  }

  lemma AspectCommutes(source: Size, scaled: Size)
    requires Faithful(scaled, source)
    ensures source.width * scaled.height == source.height * scaled.width
  {
    var a, b, c, d := scaled.width, source.height, scaled.height, source.width;
    assert a * b == c * d;
    hide Faithful;
    assert d * c == c * d && b * a == a * b;
  }

  lemma EvenRounds(n: nat)
    ensures Even(n) % 2 == 0 && n <= Even(n) <= n + 1
  {
  }

  lemma NoMultipleFits(source: Size, divisor: nat, limit: Size)
    requires source.width >= 1 && source.height >= 1 && divisor >= 1 && IsGcd(divisor, source.width, source.height)
    requires forall n: nat :: 0 < n <= divisor ==> !Within(Canvas(Multiple(Unit(source, divisor), n)), limit)
    ensures NoneFits(source, limit)
  {
    forall w: nat, h: nat | Faithful(Size(w, h), source) ensures !Within(Canvas(Size(w, h)), limit) {
      var n := FaithfulIsMultiple(source, divisor, Size(w, h));
    }
  }

  /** The best size for the limits is still above the fixed video limit. */
  ghost predicate OversizedBest(size: Size, source: Size, limit: Size) {
    Largest(size, source, limit) && !Within(Canvas(size), Size(MAX_WIDTH, MAX_HEIGHT))
  }

  /** Under limits a video request may carry, refusal means that no faithful size fits at all. */
  lemma RequestLimitsRefuseOnlyMisfits(size: Size, source: Size, limit: Size)
    requires Within(limit, Size(MAX_WIDTH, MAX_HEIGHT))
    ensures !OversizedBest(size, source, limit)
  {
  }

  /** Above those limits the search settles on its first fit, even when a smaller size would be accepted. */
  lemma LargerLimitsRefuseNeedlessly()
    ensures var source := Size(3840, 2160); var limit := source;
      && OversizedBest(source, source, limit)
      && Faithful(Size(1920, 1080), source) && ValidGeometry(OutputGeometry(source, Size(1920, 1080), Size(1920, 1080)))
  {
  }
}
