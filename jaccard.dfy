/**
 * The Jaccard similarity of two presence/absence vectors, its complement (the
 * Jaccard distance) and the bootstrap test of Chung et al. (BMC Bioinformatics
 * 2019) that attaches a p-value to it.
 *
 * All quantities are counts and their ratios, so `real` models them exactly; a
 * division by zero yields `NaN`, as numpy's float64 division does for 0/0.
 */
module Jaccard {
  import opened Wrappers
  import opened Errors
  import opened Sequences

  datatype DType = Bool | Int64 | Float64

  /**
   * A numpy array: its shape, its element type and its entries in row-major
   * order. Only the truth value of each entry is kept; a vector whose dtype is
   * not boolean is rejected before its entries are used.
   */
  datatype NdArray = NdArray(shape: seq<nat>, dtype: DType, items: seq<bool>)
  {
    predicate WellFormed()
    {
      |items| == Product(shape)
    }
  }

  function Product(s: seq<nat>): nat
  {
    if |s| == 0 then 1 else s[0] * Product(s[1..])
  }

  /** A float64 value: a finite number or not-a-number. */
  datatype Float = Finite(val: real) | NaN
  {
    function Minus(other: Float): Float
    {
      if Finite? && other.Finite? then Finite(val - other.val) else NaN
    }

    function Abs(): Float
    {
      if NaN? then NaN else if val < 0.0 then Finite(-val) else Finite(val)
    }

    function OneMinus(): Float
    {
      Finite(1.0).Minus(this)
    }

    /** numpy's `>=`: false whenever either side is NaN. */
    predicate AtLeast(other: Float)
    {
      Finite? && other.Finite? && val >= other.val
    }
  }

  /** True division of float64 values, as exact real division; a zero divisor gives NaN. */
  function Div(a: real, b: real): Float
  {
    if b == 0.0 then NaN else Finite(a / b)
  }

  /** `x.mean()` of a boolean vector: the fraction of true entries, NaN when empty. */
  function Mean(v: seq<bool>): (r: Float)
    ensures |v| == 0 <==> r.NaN?
    ensures r.Finite? ==> 0.0 <= r.val <= 1.0
  {
    CountTrueBounds(v);
    Div(CountTrue(v) as real, |v| as real)
  }

  /**
   * `if not p: p = v.mean()`: a missing or falsy (zero) probability is replaced
   * by the mean; NaN is truthy and is kept.
   */
  function Resolve(p: Option<Float>, v: seq<bool>): Float
  {
    if p == None || p == Some(Finite(0.0)) then Mean(v) else p.value
  }

  /** The expected similarity `px*py / (px + py - px*py)` of independent vectors. */
  function Expected(px: Float, py: Float): Float
  {
    if px.Finite? && py.Finite? then
      Div(px.val * py.val, px.val + py.val - px.val * py.val)
    else NaN
  }

  /** `x & y` on two boolean vectors of the same length. */
  function And(x: seq<bool>, y: seq<bool>): (r: seq<bool>)
    requires |x| == |y|
    ensures |r| == |x| && forall i :: 0 <= i < |x| ==> (r[i] <==> x[i] && y[i])
  {
    seq(|x|, i requires 0 <= i < |x| => x[i] && y[i])
  }

  /** The input checks of `similarity`: dimension first, then shape, then dtype. */
  function Check(x: NdArray, y: NdArray): (r: Option<Exception>)
    ensures |x.shape| != 1 || |y.shape| != 1 ==> r == Some(IndexError(NotOneDimensional))
    ensures |x.shape| == 1 && |y.shape| == 1 && x.shape != y.shape ==>
      r == Some(IndexError(LengthMismatch))
    ensures |x.shape| == 1 && x.shape == y.shape && (x.dtype != Bool || y.dtype != Bool) ==>
      r == Some(TypeError(NotBoolean))
    ensures r == None <==> |x.shape| == 1 && x.shape == y.shape && x.dtype == Bool && y.dtype == Bool
  {
    if |x.shape| != 1 || |y.shape| != 1 then Some(IndexError(NotOneDimensional))
    else if x.shape != y.shape then Some(IndexError(LengthMismatch))
    else if x.dtype != Bool || y.dtype != Bool then Some(TypeError(NotBoolean))
    else None
  }

  /** The arithmetic of `similarity` once the inputs are checked and px/py are resolved. */
  function Score(x: seq<bool>, y: seq<bool>, center: bool, px: Float, py: Float): Float
    requires |x| == |y|
  {
    var inter := CountTrue(And(x, y));
    var union := CountTrue(x) + CountTrue(y) - inter;
    var j := if union == 0 then Expected(px, py) else Div(inter as real, union as real);
    if center then j.Minus(Expected(px, py)) else j
  }

  /** `similarity(x, y, center, px, py)`. */
  function Similarity(x: NdArray, y: NdArray, center: bool, px: Option<Float>, py: Option<Float>)
    : (r: Result<Float, Exception>)
    requires x.WellFormed() && y.WellFormed()
    ensures r.Failure? <==> Check(x, y).Some?
    ensures r.Failure? ==> r.error == Check(x, y).value
    ensures r.Success? ==> |x.items| == |y.items|
  {
    match Check(x, y)
    case Some(e) => Failure(e)
    case None =>
      assert Product(x.shape[1..]) == 1 && Product(y.shape[1..]) == 1 by {
        assert x.shape[1..] == [] && y.shape[1..] == [];
      }
      Success(Score(x.items, y.items, center, Resolve(px, x.items), Resolve(py, y.items)))
  }

  /** `distance(x, y, px, py)`: px/py are resolved, then `1 - similarity`. */
  function Distance(x: NdArray, y: NdArray, px: Option<Float>, py: Option<Float>)
    : (r: Result<Float, Exception>)
    requires x.WellFormed() && y.WellFormed()
    ensures r.Failure? <==> Check(x, y).Some?
  {
    var px' := Resolve(px, x.items);
    var py' := Resolve(py, y.items);
    match Similarity(x, y, false, Some(px'), Some(py'))
    case Success(j) => Success(j.OneMinus())
    case Failure(e) => Failure(e)
  }

  // ---------------------------------------------------------------------------
  // Reference definition: the Jaccard index of the sets of true positions.

  function Positions(v: seq<bool>): set<nat>
  {
    set i: nat | i < |v| && v[i]
  }

  lemma {:induction false} CountTrueAppend(a: seq<bool>, b: bool)
    ensures CountTrue(a + [b]) == CountTrue(a) + (if b then 1 else 0)
  {
    if |a| > 0 {
      assert (a + [b])[1..] == a[1..] + [b];
      CountTrueAppend(a[1..], b);
    }
  }

  lemma {:induction false} CountTruePositions(v: seq<bool>)
    ensures CountTrue(v) == |Positions(v)|
  {
    if |v| > 0 {
      var a := v[..|v| - 1];
      assert v == a + [v[|v| - 1]];
      CountTruePositions(a);
      CountTrueAppend(a, v[|v| - 1]);
      if v[|v| - 1] {
        assert Positions(v) == Positions(a) + {|v| - 1};
      } else {
        assert Positions(v) == Positions(a);
      }
    }
  }

  /** The counts of `similarity` are the sizes of the intersection and union of the true positions. */
  lemma CountsAreSets(x: seq<bool>, y: seq<bool>)
    requires |x| == |y|
    ensures CountTrue(And(x, y)) == |Positions(x) * Positions(y)|
    ensures CountTrue(x) + CountTrue(y) - CountTrue(And(x, y)) == |Positions(x) + Positions(y)|
  {
    CountTruePositions(x);
    CountTruePositions(y);
    CountTruePositions(And(x, y));
    assert Positions(And(x, y)) == Positions(x) * Positions(y);
  }

  /** With a non-empty union, the similarity is |X ∩ Y| / |X ∪ Y| of the true positions. */
  lemma SimilarityIsSetJaccard(x: NdArray, y: NdArray, px: Option<Float>, py: Option<Float>)
    requires x.WellFormed() && y.WellFormed() && Check(x, y) == None
    requires Positions(x.items) + Positions(y.items) != {}
    ensures Similarity(x, y, false, px, py) ==
      Success(Finite(|Positions(x.items) * Positions(y.items)| as real
                     / |Positions(x.items) + Positions(y.items)| as real))
  {
    CountsAreSets(x.items, y.items);
  }

  /** With a non-empty union, the distance is 1 - |X ∩ Y| / |X ∪ Y|. */
  lemma DistanceIsSetJaccard(x: NdArray, y: NdArray, px: Option<Float>, py: Option<Float>)
    requires x.WellFormed() && y.WellFormed() && Check(x, y) == None
    requires Positions(x.items) + Positions(y.items) != {}
    ensures Distance(x, y, px, py) ==
      Success(Finite(1.0 - |Positions(x.items) * Positions(y.items)| as real
                           / |Positions(x.items) + Positions(y.items)| as real))
  {
    CountsAreSets(x.items, y.items);
  }

  // ---------------------------------------------------------------------------
  // Properties of similarity and distance.

  /** Resolving an already resolved probability changes nothing. */
  lemma ResolveIdempotent(p: Option<Float>, v: seq<bool>)
    ensures Resolve(Some(Resolve(p, v)), v) == Resolve(p, v)
  {
  }

  /** A missing or zero probability is replaced by the mean; any other one is kept. */
  lemma ResolveSpec(p: Option<Float>, v: seq<bool>)
    ensures p.None? ==> Resolve(p, v) == Mean(v)
    ensures p == Some(Finite(0.0)) ==> Resolve(p, v) == Mean(v)
    ensures p.Some? && p.value != Finite(0.0) ==> Resolve(p, v) == p.value
  {
  }

  /** Counts of a pair: the intersection is at most either count, so the union is at least either count. */
  lemma {:induction false} CountsOrdered(x: seq<bool>, y: seq<bool>)
    requires |x| == |y|
    ensures CountTrue(And(x, y)) <= CountTrue(x) && CountTrue(And(x, y)) <= CountTrue(y)
  {
    if |x| > 0 {
      assert And(x, y)[1..] == And(x[1..], y[1..]);
      CountsOrdered(x[1..], y[1..]);
    }
  }

  /** For probabilities in [0, 1], not both zero, the expected similarity lies in [0, 1]. */
  lemma ExpectedInUnit(px: Float, py: Float)
    requires px.Finite? && py.Finite? && 0.0 <= px.val <= 1.0 && 0.0 <= py.val <= 1.0
    requires px.val > 0.0 || py.val > 0.0
    ensures Expected(px, py).Finite? && 0.0 <= Expected(px, py).val <= 1.0
  {
    var a, b := px.val, py.val;
    MulNonNegative(a, 1.0 - b);
    MulNonNegative(b, 1.0 - a);
    MulNonNegative(a, b);
    assert a * (1.0 - b) == a - a * b && b * (1.0 - a) == b - a * b;
    RatioInUnit(a * b, a + b - a * b);
  }

  lemma MulNonNegative(p: real, q: real)
    requires 0.0 <= p && 0.0 <= q
    ensures 0.0 <= p * q
  {
  }

  lemma RatioInUnit(e: real, d: real)
    requires 0.0 <= e <= d && 0.0 < d
    ensures 0.0 <= e / d <= 1.0
  {
  }

  /**
   * The uncentred similarity is NaN or in [0, 1] when both probabilities are
   * defaulted or lie in [0, 1].
   */
  lemma SimilarityInUnit(x: NdArray, y: NdArray, px: Option<Float>, py: Option<Float>)
    requires x.WellFormed() && y.WellFormed()
    requires px.Some? ==> px.value.Finite? && 0.0 <= px.value.val <= 1.0
    requires py.Some? ==> py.value.Finite? && 0.0 <= py.value.val <= 1.0
    ensures Similarity(x, y, false, px, py).Success? && Similarity(x, y, false, px, py).value.Finite? ==>
      0.0 <= Similarity(x, y, false, px, py).value.val <= 1.0
  {
    if Check(x, y) == None {
      var a, b := Resolve(px, x.items), Resolve(py, y.items);
      CountsOrdered(x.items, y.items);
      var inter := CountTrue(And(x.items, y.items));
      var union := CountTrue(x.items) + CountTrue(y.items) - inter;
      if union == 0 {
        if a.Finite? && b.Finite? && (a.val > 0.0 || b.val > 0.0) {
          ExpectedInUnit(a, b);
        }
      } else {
        RatioInUnit(inter as real, union as real);
      }
    }
  }

  /** Swapping the vectors together with their probabilities leaves the similarity unchanged. */
  lemma SimilaritySymmetric(x: NdArray, y: NdArray, center: bool, px: Option<Float>, py: Option<Float>)
    requires x.WellFormed() && y.WellFormed()
    ensures Similarity(x, y, center, px, py) == Similarity(y, x, center, py, px)
  {
    if Check(x, y) == None {
      assert And(x.items, y.items) == And(y.items, x.items);
      var a, b := Resolve(px, x.items), Resolve(py, y.items);
      if a.Finite? && b.Finite? {
        assert a.val * b.val == b.val * a.val;
      }
      assert Expected(a, b) == Expected(b, a);
    }
  }

  /** The centred similarity is the uncentred one minus the expected similarity. */
  lemma CenteredIsShifted(x: NdArray, y: NdArray, px: Option<Float>, py: Option<Float>)
    requires x.WellFormed() && y.WellFormed() && Check(x, y) == None
    ensures Similarity(x, y, true, px, py) == Success(Similarity(x, y, false, px, py).value.Minus(
      Expected(Resolve(px, x.items), Resolve(py, y.items))))
  {
  }

  /** With an empty union the uncentred similarity is the expected one and the centred one is 0. */
  lemma EmptyUnion(x: NdArray, y: NdArray, px: Option<Float>, py: Option<Float>)
    requires x.WellFormed() && y.WellFormed() && Check(x, y) == None
    requires forall i :: 0 <= i < |x.items| ==> !x.items[i] && !y.items[i]
    ensures Similarity(x, y, false, px, py) == Success(Expected(Resolve(px, x.items), Resolve(py, y.items)))
    ensures Expected(Resolve(px, x.items), Resolve(py, y.items)).Finite? ==>
      Similarity(x, y, true, px, py) == Success(Finite(0.0))
  {
    CountTrueBounds(x.items);
    CountTrueBounds(y.items);
    CountTrueBounds(And(x.items, y.items));
  }

  /** `distance` is the complement of the uncentred similarity with the same px/py. */
  lemma DistanceComplement(x: NdArray, y: NdArray, px: Option<Float>, py: Option<Float>)
    requires x.WellFormed() && y.WellFormed()
    ensures Similarity(x, y, false, px, py).Success? ==>
      Distance(x, y, px, py) == Success(Similarity(x, y, false, px, py).value.OneMinus())
    ensures Similarity(x, y, false, px, py).Failure? ==>
      Distance(x, y, px, py) == Similarity(x, y, false, px, py)
  {
    ResolveIdempotent(px, x.items);
    ResolveIdempotent(py, y.items);
  }

  /** A 1-d boolean vector (a boolean `pd.Series` or `np.ndarray`). */
  function Vec(items: seq<bool>): (v: NdArray)
    ensures v.WellFormed() && Check(v, v) == None
  {
    assert Product([|items|][1..]) == 1 by {
      assert [|items|][1..] == [];
    }
    NdArray([|items|], Bool, items)
  }

  /** Two boolean vectors of the same length pass the input checks. */
  lemma VecChecks(x: seq<bool>, y: seq<bool>)
    requires |x| == |y|
    ensures Check(Vec(x), Vec(y)) == None
  {
  }

  // ---------------------------------------------------------------------------
  // The bootstrap test.

  /**
   * One resampling step: the positions drawn, with replacement, from x and
   * from y (`rng.choice(v, size=len(v), replace=True)`).
   */
  datatype Draw = Draw(xs: seq<nat>, ys: seq<nat>)

  /** What `rng.choice` guarantees: as many positions as entries, each a valid position. */
  predicate ValidDraw(d: Draw, nx: nat, ny: nat)
  {
    && |d.xs| == nx && |d.ys| == ny
    && (forall k :: 0 <= k < nx ==> d.xs[k] < nx)
    && (forall k :: 0 <= k < ny ==> d.ys[k] < ny)
  }

  predicate ValidDraws(draws: seq<Draw>, nx: nat, ny: nat)
  {
    forall i :: 0 <= i < |draws| ==> ValidDraw(draws[i], nx, ny)
  }

  function Resample(v: seq<bool>, ix: seq<nat>): (r: seq<bool>)
    requires forall k :: 0 <= k < |ix| ==> ix[k] < |v|
    ensures |r| == |ix| && forall k :: 0 <= k < |ix| ==> r[k] == v[ix[k]]
  {
    seq(|ix|, k requires 0 <= k < |ix| => v[ix[k]])
  }

  /** The centred similarity of one resampled pair, its probabilities defaulted to the resamples' means. */
  function NullScore(x: seq<bool>, y: seq<bool>, d: Draw): Float
    requires |x| == |y| && ValidDraw(d, |x|, |y|)
  {
    var rx := Resample(x, d.xs);
    var ry := Resample(y, d.ys);
    Score(rx, ry, true, Resolve(None, rx), Resolve(None, ry))
  }

  function NullScores(x: seq<bool>, y: seq<bool>, draws: seq<Draw>): (r: seq<Float>)
    requires |x| == |y| && ValidDraws(draws, |x|, |y|)
    ensures |r| == |draws|
  {
    seq(|draws|, i requires 0 <= i < |draws| => NullScore(x, y, draws[i]))
  }

  /** `np.abs` applied entrywise. */
  function Magnitudes(s: seq<Float>): (r: seq<Float>)
    ensures |r| == |s| && forall i :: 0 <= i < |s| ==> r[i] == s[i].Abs()
  {
    seq(|s|, i requires 0 <= i < |s| => s[i].Abs())
  }

  /** The mask `magnitudes >= abs(obs)`. */
  function Exceeds(magnitudes: seq<Float>, obs: Float): (r: seq<bool>)
    ensures |r| == |magnitudes|
    ensures forall i :: 0 <= i < |magnitudes| ==> (r[i] <==> magnitudes[i].AtLeast(obs.Abs()))
  {
    seq(|magnitudes|, i requires 0 <= i < |magnitudes| => magnitudes[i].AtLeast(obs.Abs()))
  }

  /** The fraction of null scores whose magnitude is at least that of the observed score. */
  function PValue(nulls: seq<Float>, obs: Float): Float
  {
    Div(CountTrue(Exceeds(Magnitudes(nulls), obs)) as real, |nulls| as real)
  }

  /** Why a bootstrap was skipped (the message it prints). */
  datatype Notice = AllOnes | AllZeros

  /** The series `[J-sim, p-val]` returned by `bootstrap`, with the notice printed, if any. */
  datatype Outcome = Outcome(jSim: Float, pVal: Float, notice: Option<Notice>)

  predicate AllOnesCase(x: seq<bool>, y: seq<bool>, px: Float, py: Float)
  {
    px == Finite(1.0) || py == Finite(1.0) || |x| == CountTrue(x) || |y| == CountTrue(y)
  }

  predicate AllZerosCase(x: seq<bool>, y: seq<bool>, px: Float, py: Float)
  {
    px == Finite(0.0) || py == Finite(0.0) || CountTrue(x) == 0 || CountTrue(y) == 0
  }

  /** `bootstrap(x, y, px, py, n)`, the resamples of the seeded generator given as `draws`. */
  function BootstrapResult(x: NdArray, y: NdArray, px: Option<Float>, py: Option<Float>, n: nat, draws: seq<Draw>)
    : Result<Outcome, Exception>
    requires x.WellFormed() && y.WellFormed()
    requires |draws| == n && ValidDraws(draws, |x.items|, |y.items|)
  {
    var px' := Resolve(px, x.items);
    var py' := Resolve(py, y.items);
    match Similarity(x, y, false, Some(px'), Some(py'))
    case Failure(e) => Failure(e)
    case Success(j) =>
      if AllOnesCase(x.items, y.items, px', py') then Success(Outcome(j, Finite(1.0), Some(AllOnes)))
      else if AllZerosCase(x.items, y.items, px', py') then Success(Outcome(j, Finite(1.0), Some(AllZeros)))
      else
        var jObs := Score(x.items, y.items, true, Resolve(Some(px'), x.items), Resolve(Some(py'), y.items));
        Success(Outcome(j, PValue(NullScores(x.items, y.items, draws), jObs), None))
  }

  /**
   * `bootstrap` as the source computes it: the null scores are written into a
   * buffer, replaced in place by their magnitudes and then counted.
   */
  method Bootstrap(x: NdArray, y: NdArray, px: Option<Float>, py: Option<Float>, n: nat, draws: seq<Draw>)
    returns (r: Result<Outcome, Exception>)
    requires x.WellFormed() && y.WellFormed()
    requires |draws| == n && ValidDraws(draws, |x.items|, |y.items|)
    ensures r == BootstrapResult(x, y, px, py, n, draws)
  {
    var px' := Resolve(px, x.items);
    var py' := Resolve(py, y.items);
    var sim := Similarity(x, y, false, Some(px'), Some(py'));
    if sim.Failure? {
      return Failure(sim.error);
    }
    var j := sim.value;
    if AllOnesCase(x.items, y.items, px', py') {
      return Success(Outcome(j, Finite(1.0), Some(AllOnes)));
    }
    if AllZerosCase(x.items, y.items, px', py') {
      return Success(Outcome(j, Finite(1.0), Some(AllZeros)));
    }
    var jObs := Score(x.items, y.items, true, Resolve(Some(px'), x.items), Resolve(Some(py'), y.items));
    var jNull := FillNulls(x.items, y.items, draws);
    AbsInPlace(jNull);
    var count := CountAtLeast(jNull, jObs);
    r := Success(Outcome(j, Div(count as real, n as real), None));
  }

  /** `np.fromiter(vals, count=n)`: a fresh buffer holding the null score of each draw. */
  method FillNulls(x: seq<bool>, y: seq<bool>, draws: seq<Draw>) returns (jNull: array<Float>)
    requires |x| == |y| && ValidDraws(draws, |x|, |y|)
    ensures fresh(jNull) && jNull[..] == NullScores(x, y, draws)
  {
    jNull := new Float[|draws|];
    var i := 0;
    while i < |draws|
      invariant 0 <= i <= |draws|
      invariant forall k :: 0 <= k < i ==> jNull[k] == NullScore(x, y, draws[k])
    {
      jNull[i] := NullScore(x, y, draws[i]);
      i := i + 1;
    }
  }

  /** `np.abs(a, out=a)`: every entry is replaced by its magnitude. */
  method AbsInPlace(a: array<Float>)
    modifies a
    ensures a[..] == Magnitudes(old(a[..]))
  {
    var i := 0;
    while i < a.Length
      invariant 0 <= i <= a.Length
      invariant forall k :: 0 <= k < i ==> a[k] == old(a[k]).Abs()
      invariant forall k :: i <= k < a.Length ==> a[k] == old(a[k])
    {
      a[i] := a[i].Abs();
      i := i + 1;
    }
  }

  /** `(a >= np.abs(obs)).sum()`. */
  method CountAtLeast(a: array<Float>, obs: Float) returns (count: nat)
    ensures count == CountTrue(Exceeds(a[..], obs))
  {
    count := 0;
    var i := 0;
    while i < a.Length
      invariant 0 <= i <= a.Length
      invariant count == CountTrue(Exceeds(a[..i], obs))
    {
      assert Exceeds(a[..i + 1], obs) == Exceeds(a[..i], obs) + [a[i].AtLeast(obs.Abs())];
      CountTrueAppend(Exceeds(a[..i], obs), a[i].AtLeast(obs.Abs()));
      if a[i].AtLeast(obs.Abs()) {
        count := count + 1;
      }
      i := i + 1;
    }
    assert a[..i] == a[..];
  }

  /**
   * The two degeneracy guards, all-ones first: either returns the uncentred
   * similarity with p-value 1 and no resampling.
   */
  lemma BootstrapDegenerate(x: NdArray, y: NdArray, px: Option<Float>, py: Option<Float>, n: nat, draws: seq<Draw>)
    requires x.WellFormed() && y.WellFormed()
    requires |draws| == n && ValidDraws(draws, |x.items|, |y.items|)
    requires Check(x, y) == None
    ensures var r := BootstrapResult(x, y, px, py, n, draws);
      && r.Success?
      && r.value.jSim == Similarity(x, y, false, px, py).value
      && (r.value.notice == Some(AllOnes) <==> AllOnesCase(x.items, y.items, Resolve(px, x.items), Resolve(py, y.items)))
      && (r.value.notice == Some(AllZeros) <==>
            !AllOnesCase(x.items, y.items, Resolve(px, x.items), Resolve(py, y.items))
            && AllZerosCase(x.items, y.items, Resolve(px, x.items), Resolve(py, y.items)))
      && (r.value.notice.Some? ==> r.value.pVal == Finite(1.0))
  {
    ResolveIdempotent(px, x.items);
    ResolveIdempotent(py, y.items);
  }

  /** Errors of the inputs surface exactly as `similarity` raises them. */
  lemma BootstrapErrors(x: NdArray, y: NdArray, px: Option<Float>, py: Option<Float>, n: nat, draws: seq<Draw>)
    requires x.WellFormed() && y.WellFormed()
    requires |draws| == n && ValidDraws(draws, |x.items|, |y.items|)
    ensures BootstrapResult(x, y, px, py, n, draws).Failure? <==> Check(x, y).Some?
    ensures Check(x, y).Some? ==> BootstrapResult(x, y, px, py, n, draws) == Failure(Check(x, y).value)
  {
  }

  /**
   * In the non-degenerate case the p-value is the fraction of null scores at
   * least as large in magnitude as the observed centred score: NaN for n = 0,
   * otherwise k/n for the number k of such scores, hence in [0, 1].
   */
  lemma PValueBounds(nulls: seq<Float>, obs: Float)
    ensures |nulls| == 0 ==> PValue(nulls, obs) == NaN
    ensures |nulls| > 0 ==>
      && PValue(nulls, obs).Finite?
      && 0.0 <= PValue(nulls, obs).val <= 1.0
      && PValue(nulls, obs).val * |nulls| as real == CountTrue(Exceeds(Magnitudes(nulls), obs)) as real
  {
    var c := CountTrue(Exceeds(Magnitudes(nulls), obs));
    CountTrueBounds(Exceeds(Magnitudes(nulls), obs));
    if |nulls| > 0 {
      RatioInUnit(c as real, |nulls| as real);
    }
  }

  /** No null score can exceed a NaN observation, so the p-value is then 0. */
  lemma PValueOfNaN(nulls: seq<Float>)
    requires |nulls| > 0
    ensures PValue(nulls, NaN) == Finite(0.0)
  {
    CountTrueBounds(Exceeds(Magnitudes(nulls), NaN));
  }

  /** Each null score is `similarity` of the resampled vectors, centred, with px/py left to default. */
  lemma NullScoreIsSimilarity(x: seq<bool>, y: seq<bool>, d: Draw)
    requires |x| == |y| && ValidDraw(d, |x|, |y|)
    ensures Similarity(NdArray([|x|], Bool, Resample(x, d.xs)), NdArray([|y|], Bool, Resample(y, d.ys)), true, None, None)
      == Success(NullScore(x, y, d))
  {
  }

  /** In the non-degenerate case no notice is printed and the p-value is that of the null scores. */
  lemma BootstrapTest(x: NdArray, y: NdArray, px: Option<Float>, py: Option<Float>, n: nat, draws: seq<Draw>)
    requires x.WellFormed() && y.WellFormed()
    requires |draws| == n && ValidDraws(draws, |x.items|, |y.items|)
    requires Check(x, y) == None
    requires !AllOnesCase(x.items, y.items, Resolve(px, x.items), Resolve(py, y.items))
    requires !AllZerosCase(x.items, y.items, Resolve(px, x.items), Resolve(py, y.items))
    ensures var r := BootstrapResult(x, y, px, py, n, draws);
      && r.Success? && r.value.notice == None
      && r.value.pVal == PValue(NullScores(x.items, y.items, draws), Similarity(x, y, true, px, py).value)
      && (n > 0 ==> r.value.pVal.Finite? && 0.0 <= r.value.pVal.val <= 1.0)
  {
    ResolveIdempotent(px, x.items);
    ResolveIdempotent(py, y.items);
    PValueBounds(NullScores(x.items, y.items, draws), Similarity(x, y, true, px, py).value);
  }

  // ---------------------------------------------------------------------------
  // The unit-test cases.


  /** Malformed inputs: 2-d vectors, different lengths, integer vectors. */
  lemma SimilarityErrorExamples()
    ensures Similarity(NdArray([2, 1], Bool, [true, false]), NdArray([2, 1], Bool, [true, false]), false, None, None)
      == Failure(IndexError(NotOneDimensional))
    ensures Similarity(Vec([true]), Vec([true, false]), false, None, None) == Failure(IndexError(LengthMismatch))
    ensures Similarity(NdArray([2], Int64, [true, false]), NdArray([2], Int64, [true, false]), false, None, None)
      == Failure(TypeError(NotBoolean))
  {
  }

  lemma CountsTTF()
    ensures CountTrue([true, true, false]) == 2 && CountTrue([true, false, true]) == 2
    ensures And([true, true, false], [true, false, true]) == [true, false, false]
    ensures CountTrue([true, false, false]) == 1
  {
  }

  /** x = [T, T, F], y = [T, F, T]: similarity 1/3, centred -1/6, distance 2/3. */
  lemma SimilarityExamples()
    ensures Similarity(Vec([true, true, false]), Vec([true, false, true]), false, None, None) == Success(Finite(1.0 / 3.0))
    ensures Similarity(Vec([true, true, false]), Vec([true, false, true]), true, None, None) == Success(Finite(-1.0 / 6.0))
    ensures Distance(Vec([true, true, false]), Vec([true, false, true]), None, None) == Success(Finite(2.0 / 3.0))
  {
    CountsTTF();
  }

  /** All-false vectors with px = py = 0.5: similarity 1/3, distance 2/3. */
  lemma EmptyUnionExamples()
    ensures Similarity(Vec([false, false, false]), Vec([false, false, false]), false, Some(Finite(0.5)), Some(Finite(0.5)))
      == Success(Finite(1.0 / 3.0))
    ensures Distance(Vec([false, false, false]), Vec([false, false, false]), Some(Finite(0.5)), Some(Finite(0.5)))
      == Success(Finite(2.0 / 3.0))
  {
    assert And([false, false, false], [false, false, false]) == [false, false, false];
  }

  /** The degenerate bootstraps of the tests: (2/3, 1), (0, 1) and (0.5, 1). */
  lemma BootstrapExamples(draws: seq<Draw>)
    requires ValidDraws(draws, 3, 3)
    ensures |draws| == 10 ==>
      BootstrapResult(Vec([true, true, true]), Vec([true, false, true]), None, None, 10, draws)
        == Success(Outcome(Finite(2.0 / 3.0), Finite(1.0), Some(AllOnes)))
    ensures |draws| == 10 ==>
      BootstrapResult(Vec([true, true, false]), Vec([false, false, false]), None, None, 10, draws)
        == Success(Outcome(Finite(0.0), Finite(1.0), Some(AllZeros)))
    ensures |draws| == 10 ==>
      BootstrapResult(Vec([true, true, false]), Vec([true, false, false]), Some(Finite(1.0)), Some(Finite(1.0)), 10, draws)
        == Success(Outcome(Finite(0.5), Finite(1.0), Some(AllOnes)))
  {
    CountsTTF();
    assert And([true, true, true], [true, false, true]) == [true, false, true];
    assert And([true, true, false], [false, false, false]) == [false, false, false];
    assert And([true, true, false], [true, false, false]) == [true, false, false];
  }
}
