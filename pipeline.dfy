/**
 * The decision logic of the per-frame measurement pipeline (class Pipeline):
 * the signed-distance foreground filter with its sign convention, vector
 * normalisation, the table frame and the camera-to-table transform, the
 * largest-cluster selection, and the footprint extents with the
 * length/width swap.
 *
 * float64 arithmetic is idealised as real arithmetic. The Open3D and NumPy
 * numerics are inputs: the norms np.linalg.norm returns (see Geometry.IsNorm),
 * the DBSCAN labels, the PCA projections of the footprint and the upper
 * height quantile.
 */
module Pipeline {
  import opened Wrappers
  import opened Geometry
  import opened Seqs
  import Config

  /** The plane model [a, b, c, d] of a*x + b*y + c*z + d = 0 that plane fitting returns. */
  datatype PlaneModel = PlaneModel(a: real, b: real, c: real, d: real)

  function Normal(p: PlaneModel): Vec3 { Vec3(p.a, p.b, p.c) }

  /** A plane with unit normal n and offset d, as the foreground filter orients it. */
  datatype OrientedPlane = OrientedPlane(n: Vec3, d: real)

  /** Signed distance p.n + d of a point from an oriented plane. */
  function SignedDistance(o: OrientedPlane, p: Vec3): real { Dot(p, o.n) + o.d }

  /** The errors the modelled code raises. */
  datatype PipelineError =
    | ZeroVectorNormalization   // ValueError raised by _normalize
    | EmptyReduction            // ValueError of labels.max() / np.quantile on an empty array

  const NormEpsilon: real := 1.0e-12

  // ---------------------------------------------------------------------------
  // _signed_distance_filter

  /**
   * Lines 31-40: divide the normal and the offset by the normal's norm nn and
   * flip both when the offset is negative, so that d >= 0. The flipped plane is
   * the same plane: signed distances change sign, never magnitude.
   */
  function OrientPlane(p: PlaneModel, nn: real): (o: OrientedPlane)
    requires IsNorm(Normal(p), nn) && nn > 0.0
    ensures o.d >= 0.0
    ensures IsUnit(o.n)
    ensures forall q :: (SignedDistance(o, q) ==
      (if p.d < 0.0 then -1.0 else 1.0) * (Dot(q, Normal(p)) + p.d) / nn)
  {
    var n := Scale(1.0 / nn, Normal(p));
    var d := p.d / nn;
    ScaleByInverseNorm(Normal(p), nn);
    assert d < 0.0 <==> p.d < 0.0;
    if d < 0.0 then OrientedPlane(Neg(n), -d) else OrientedPlane(n, d)
  }

  /** The mask `sd > sd_thresh`. */
  function AboveMask(o: OrientedPlane, pts: Cloud, sdThresh: real): (mask: seq<bool>)
    ensures |mask| == |pts|
    ensures forall i :: 0 <= i < |pts| ==> (mask[i] <==> SignedDistance(o, pts[i]) > sdThresh)
  {
    seq(|pts|, i requires 0 <= i < |pts| => SignedDistance(o, pts[i]) > sdThresh)
  }

  /**
   * _signed_distance_filter: the object candidates strictly more than sdThresh
   * above the oriented plane, in their original order. A zero normal (nn = 0)
   * makes NumPy divide by zero; the resulting NaN distances fail every
   * comparison, so nothing is kept.
   */
  function SignedDistanceFilter(p: PlaneModel, nn: real, pts: Cloud, sdThresh: real): (r: Cloud)
    requires IsNorm(Normal(p), nn)
    ensures nn == 0.0 ==> r == []
    ensures nn > 0.0 ==>
      var ix := TrueIndices(AboveMask(OrientPlane(p, nn), pts, sdThresh));
      |r| == |ix| && forall k :: 0 <= k < |r| ==> r[k] == pts[ix[k]]
  {
    if nn == 0.0 then [] else Select(pts, AboveMask(OrientPlane(p, nn), pts, sdThresh))
  }

  /**
   * The filter keeps exactly the points above the threshold: every kept point
   * has p.n + d > sdThresh, every dropped point has p.n + d <= sdThresh, and the
   * kept points keep their relative order: r lists the points at exactly the
   * positions above the threshold, by increasing position.
   */
  lemma {:induction false} FilterKeepsExactlyAbove(p: PlaneModel, nn: real, pts: Cloud, sdThresh: real)
    requires IsNorm(Normal(p), nn) && nn > 0.0
    ensures var o := OrientPlane(p, nn); var r := SignedDistanceFilter(p, nn, pts, sdThresh);
      && (forall q :: q in r ==> SignedDistance(o, q) > sdThresh)
      && (forall i :: 0 <= i < |pts| && SignedDistance(o, pts[i]) > sdThresh ==> pts[i] in r)
      && (forall i :: 0 <= i < |pts| && pts[i] !in r ==> SignedDistance(o, pts[i]) <= sdThresh)
      && |r| <= |pts|
    ensures var o := OrientPlane(p, nn); var r := SignedDistanceFilter(p, nn, pts, sdThresh);
      var ix := TrueIndices(AboveMask(o, pts, sdThresh));
      && |r| == |ix| && (forall k :: 0 <= k < |r| ==> r[k] == pts[ix[k]])
      && (forall k, l :: 0 <= k < l < |ix| ==> ix[k] < ix[l])
      && (forall i :: 0 <= i < |pts| ==> (i in ix <==> SignedDistance(o, pts[i]) > sdThresh))
  {
    var o := OrientPlane(p, nn);
    var mask := AboveMask(o, pts, sdThresh);
    var r := SignedDistanceFilter(p, nn, pts, sdThresh);
    var ix := TrueIndices(mask);
    forall i | 0 <= i < |pts| && i in ix ensures SignedDistance(o, pts[i]) > sdThresh {
      var k :| 0 <= k < |ix| && ix[k] == i;
    }
    forall q | q in r ensures SignedDistance(o, q) > sdThresh {
      SelectMembers(pts, mask, q);
    }
    forall i | 0 <= i < |pts| && SignedDistance(o, pts[i]) > sdThresh ensures pts[i] in r {
      SelectMembers(pts, mask, pts[i]);
    }
    IndicesBound(mask);
  }

  lemma {:induction false} IndicesBound(mask: seq<bool>)
    ensures |TrueIndices(mask)| <= |mask|
  {
    if mask != [] {
      IndicesBound(mask[..|mask| - 1]);
    }
  }

  /**
   * The filter as the source writes it reads its threshold from the
   * configuration object; the configuration class declares no such field.
   */
  function SignedDistanceFilterWithConfig(p: PlaneModel, nn: real, pts: Cloud, threshold: Option<real>): (r: Result<Cloud, string>)
    requires IsNorm(Normal(p), nn)
    ensures threshold.None? <==> r == Failure("sd_thresh")
    ensures threshold.Some? ==> r == Success(SignedDistanceFilter(p, nn, pts, threshold.value))
  {
    match threshold
    case None => Failure("sd_thresh")
    case Some(t) => Success(SignedDistanceFilter(p, nn, pts, t))
  }

  /** With the configuration's own defaults, every frame's foreground filter fails for want of sd_thresh. */
  lemma DefaultConfigFilterFails(p: PlaneModel, nn: real, pts: Cloud)
    requires IsNorm(Normal(p), nn)
    ensures SignedDistanceFilterWithConfig(p, nn, pts, Config.Number(Config.Defaults, "sd_thresh")) == Failure("sd_thresh")
  {
    Config.NoSignedDistanceThreshold();
  }

  // ---------------------------------------------------------------------------
  // _normalize

  /** _normalize: v / |v|, or ValueError when |v| < 1e-12. nrm is |v|. */
  function Normalize(v: Vec3, nrm: real): (r: Result<Vec3, PipelineError>)
    requires IsNorm(v, nrm)
    ensures r.Failure? <==> nrm < NormEpsilon
    ensures r.Failure? ==> r.error == ZeroVectorNormalization
    ensures r.Success? ==> IsUnit(r.value) && r.value == Scale(1.0 / nrm, v)
  {
    if nrm < NormEpsilon then Failure(ZeroVectorNormalization)
    else
      ScaleByInverseNorm(v, nrm);
      Success(Scale(1.0 / nrm, v))
  }

  // ---------------------------------------------------------------------------
  // _make_table_frame and _transform_cam_to_table

  /**
   * The rotation R = [xAxis | yAxis | zAxis] (columns in camera coordinates),
   * the origin p0 and the unit normal n that _make_table_frame returns.
   */
  datatype TableFrame = TableFrame(xAxis: Vec3, yAxis: Vec3, zAxis: Vec3, origin: Vec3, normal: Vec3)

  /** Lines 64-66: world X, unless the normal is within about 26 degrees of it. */
  function ReferenceAxis(n: Vec3): Vec3 {
    if Abs(Dot(WorldX, n)) > 0.9 then WorldY else WorldX
  }

  /** ref - (ref.n) n: the part of ref orthogonal to n. */
  function Rejection(r: Vec3, n: Vec3): Vec3 {
    Sub(r, Scale(Dot(r, n), n))
  }

  /** The three norms _make_table_frame asks np.linalg.norm for, in order. */
  datatype FrameNorms = FrameNorms(normal: real, xAxis: real, yAxis: real)

  /** Each norm is the norm of the vector the source normalises at that step. */
  predicate FrameNormsFor(p: PlaneModel, ns: FrameNorms) {
    && IsNorm(Normal(p), ns.normal)
    && (ns.normal >= NormEpsilon ==>
          var n := Scale(1.0 / ns.normal, Normal(p));
          var w := Rejection(ReferenceAxis(n), n);
          && IsNorm(w, ns.xAxis)
          && (ns.xAxis >= NormEpsilon ==> IsNorm(Cross(n, Scale(1.0 / ns.xAxis, w)), ns.yAxis)))
  }

  /**
   * The switch of reference axis keeps the rejection well away from zero: for a
   * unit normal it has squared length at least 0.19.
   */
  lemma {:induction false} RejectionBoundedBelow(n: Vec3)
    requires IsUnit(n)
    ensures Dot(Rejection(ReferenceAxis(n), n), Rejection(ReferenceAxis(n), n)) >= 0.19
  {
    if Abs(Dot(WorldX, n)) > 0.9 {
      RejectionBoundNearX(n);
    } else {
      RejectionBoundAwayFromX(n);
    }
  }

  lemma RejectionBoundNearX(n: Vec3)
    requires IsUnit(n) && Abs(Dot(WorldX, n)) > 0.9
    ensures Dot(Rejection(ReferenceAxis(n), n), Rejection(ReferenceAxis(n), n)) >= 0.19
  {
    var w := Rejection(WorldY, n);
    RejectionLength(WorldY, n);
    ReferenceYBound(n);
    SquaredLengthBound(Dot(w, w), Dot(WorldY, WorldY), Dot(WorldY, n) * Dot(WorldY, n), 0.19);
  }

  lemma RejectionBoundAwayFromX(n: Vec3)
    requires IsUnit(n) && Abs(Dot(WorldX, n)) <= 0.9
    ensures Dot(Rejection(ReferenceAxis(n), n), Rejection(ReferenceAxis(n), n)) >= 0.19
  {
    var w := Rejection(WorldX, n);
    RejectionLength(WorldX, n);
    SquareBound(Dot(WorldX, n), 0.9);
    SquaredLengthBound(Dot(w, w), Dot(WorldX, WorldX), Dot(WorldX, n) * Dot(WorldX, n), 0.81);
  }

  lemma SquaredLengthBound(ww: real, rr: real, tt: real, bound: real)
    requires ww == rr - tt && rr == 1.0 && tt <= bound <= 0.81
    ensures ww >= 0.19
  {
  }

  lemma ReferenceYBound(n: Vec3)
    requires IsUnit(n) && Abs(n.x) > 0.9
    ensures Dot(WorldY, n) * Dot(WorldY, n) <= 0.19
  {
    assert Dot(WorldY, n) == n.y;
    SquareBound(0.9, Abs(n.x));
    assert Abs(n.x) * Abs(n.x) == n.x * n.x;
    assert n.z * n.z >= 0.0;
  }

  /** |r - (r.n) n|^2 = |r|^2 - (r.n)^2 and r - (r.n) n is orthogonal to n, for a unit n. */
  lemma RejectionLength(r: Vec3, n: Vec3)
    requires IsUnit(n)
    ensures Dot(Rejection(r, n), Rejection(r, n)) == Dot(r, r) - Dot(r, n) * Dot(r, n)
    ensures Dot(Rejection(r, n), n) == 0.0
  {
    var t := Dot(r, n);
    var tn := Scale(t, n);
    var w := Rejection(r, n);
    DotSubLeft(r, tn, n);
    DotScaleLeft(t, n, n);
    DotSymmetric(w, r);
    DotSymmetric(w, tn);
    DotSubLeft(r, tn, r);
    DotScaleLeft(t, n, r);
    DotSymmetric(n, r);
    DotSubLeft(r, tn, tn);
    DotSymmetric(r, tn);
    DotScaleLeft(t, n, r);
    calc {
      Dot(w, w);
      Dot(r, w) - Dot(tn, w);
      { DotSymmetric(r, w); DotSymmetric(tn, w); DotScaleLeft(t, n, w); }
      Dot(w, r) - t * Dot(w, n);
      Dot(r, r) - Dot(tn, r);
      Dot(r, r) - t * t;
    }
  }

  /** A non-negative number whose square is at least 0.19 is not below 1e-12. */
  lemma NormAboveEpsilon(r: real, sq: real)
    requires r >= 0.0 && r * r == sq && sq >= 0.19
    ensures r >= NormEpsilon
  {
    if r < NormEpsilon {
      MulMonotonic(r, NormEpsilon, r);
      MulMonotonic(r, NormEpsilon, NormEpsilon);
    }
  }

  lemma UnitNorm(r: real, sq: real)
    requires r >= 0.0 && r * r == sq && sq == 1.0
    ensures r == 1.0
  {
    if r < 1.0 { MulMonotonic(r, 1.0, r); }
    if r > 1.0 { MulMonotonic(1.0, r, r); }
  }

  /** The orthonormal frame conditions of R's columns. */
  predicate Orthonormal(x: Vec3, y: Vec3, z: Vec3) {
    && IsUnit(x) && IsUnit(y) && IsUnit(z)
    && Dot(x, y) == 0.0 && Dot(x, z) == 0.0 && Dot(y, z) == 0.0
  }

  /**
   * For a unit normal n, the second normalisation of _make_table_frame cannot
   * fail, n x x is already of unit length, and [x | y | -n] is orthonormal.
   */
  lemma {:induction false} FrameFromUnitNormal(n: Vec3, xNorm: real, yNorm: real)
    requires IsUnit(n)
    requires IsNorm(Rejection(ReferenceAxis(n), n), xNorm)
    requires xNorm >= NormEpsilon ==> IsNorm(Cross(n, Scale(1.0 / xNorm, Rejection(ReferenceAxis(n), n))), yNorm)
    ensures xNorm >= NormEpsilon && yNorm == 1.0
    ensures var x := Scale(1.0 / xNorm, Rejection(ReferenceAxis(n), n));
      Orthonormal(x, Scale(1.0 / yNorm, Cross(n, x)), Neg(n))
  {
    UnitRejection(n, xNorm);
    var x := Scale(1.0 / xNorm, Rejection(ReferenceAxis(n), n));
    var c := Cross(n, x);
    Lagrange(n, x);
    DotSymmetric(n, x);
    assert Dot(c, c) == 1.0;
    UnitNorm(yNorm, Dot(c, c));
    assert Scale(1.0 / yNorm, c) == c;
    UnitFrame(n, x);
  }

  /** The first column: the rejection of the reference axis, normalised, is a unit vector orthogonal to n. */
  lemma UnitRejection(n: Vec3, xNorm: real)
    requires IsUnit(n)
    requires IsNorm(Rejection(ReferenceAxis(n), n), xNorm)
    ensures xNorm >= NormEpsilon
    ensures IsUnit(Scale(1.0 / xNorm, Rejection(ReferenceAxis(n), n)))
    ensures Dot(Scale(1.0 / xNorm, Rejection(ReferenceAxis(n), n)), n) == 0.0
  {
    var w := Rejection(ReferenceAxis(n), n);
    RejectionBoundedBelow(n);
    RejectionLength(ReferenceAxis(n), n);
    NormAboveEpsilon(xNorm, Dot(w, w));
    ScaleByInverseNorm(w, xNorm);
    DotScaleLeft(1.0 / xNorm, w, n);
  }

  /** Two orthogonal unit vectors and their cross product make an orthonormal frame with -n. */
  lemma UnitFrame(n: Vec3, x: Vec3)
    requires IsUnit(n) && IsUnit(x) && Dot(x, n) == 0.0
    requires IsUnit(Cross(n, x))
    ensures Orthonormal(x, Cross(n, x), Neg(n))
  {
    var c := Cross(n, x);
    CrossOrthogonal(n, x);
    DotNegLeft(n, x);
    DotSymmetric(x, Neg(n));
    DotNegLeft(n, c);
    DotSymmetric(c, Neg(n));
    DotSymmetric(c, x);
    DotNegLeft(n, n);
    DotSymmetric(Neg(n), n);
  }

  /**
   * _make_table_frame. It fails (ValueError) exactly when the plane normal is
   * (numerically) zero: the reference-axis switch keeps the second
   * normalisation away from zero and n x x has unit length. On success the
   * columns are orthonormal, x lies along the rejection of the reference axis,
   * y = n x x, the third column is -n (not n), and p0 = -d n with the plane's
   * raw d, not the one the foreground filter divides and flips.
   */
  function MakeTableFrame(p: PlaneModel, ns: FrameNorms): (r: Result<TableFrame, PipelineError>)
    requires FrameNormsFor(p, ns)
    ensures r.Failure? <==> ns.normal < NormEpsilon
    ensures r.Failure? ==> r.error == ZeroVectorNormalization
    ensures r.Success? ==>
      var f := r.value;
      && f.normal == Scale(1.0 / ns.normal, Normal(p)) && IsUnit(f.normal)
      && f.origin == Scale(-p.d, f.normal)
      && f.zAxis == Neg(f.normal)
      && ns.xAxis >= NormEpsilon && ns.yAxis == 1.0
      && f.xAxis == Scale(1.0 / ns.xAxis, Rejection(ReferenceAxis(f.normal), f.normal))
      && f.yAxis == Scale(1.0 / ns.yAxis, Cross(f.normal, f.xAxis))
      && Orthonormal(f.xAxis, f.yAxis, f.zAxis)
  {
    if ns.normal < NormEpsilon then Failure(ZeroVectorNormalization)
    else
      var n := Normalize(Normal(p), ns.normal).value;
      var w := Rejection(ReferenceAxis(n), n);
      FrameFromUnitNormal(n, ns.xAxis, ns.yAxis);
      // for a unit normal neither of the next two normalisations can fail
      var x := Normalize(w, ns.xAxis).value;
      var y := Normalize(Cross(n, x), ns.yAxis).value;
      Success(TableFrame(x, y, Neg(n), Scale(-p.d, n), n))
  }

  /** Rᵀ (q - p0): the coordinates of a camera point in the table frame. */
  function ToTable(f: TableFrame, q: Vec3): Vec3 {
    var v := Sub(q, f.origin);
    Vec3(Dot(f.xAxis, v), Dot(f.yAxis, v), Dot(f.zAxis, v))
  }

  /** _transform_cam_to_table: every point mapped, count and order preserved. */
  function TransformCamToTable(pts: Cloud, f: TableFrame): (r: Cloud)
    ensures |r| == |pts|
    ensures forall i :: 0 <= i < |pts| ==> r[i] == ToTable(f, pts[i])
  {
    seq(|pts|, i requires 0 <= i < |pts| => ToTable(f, pts[i]))
  }

  /**
   * For a plane model with unit normal, the third table coordinate of a point
   * is -(p.n + d): the frame's third axis is -n and its origin is -d n.
   */
  lemma {:induction false} TableHeight(p: PlaneModel, ns: FrameNorms, q: Vec3)
    requires FrameNormsFor(p, ns) && ns.normal == 1.0
    ensures MakeTableFrame(p, ns).Success?
    ensures ToTable(MakeTableFrame(p, ns).value, q).z == -(Dot(q, Normal(p)) + p.d)
  {
    var f := MakeTableFrame(p, ns).value;
    var n := f.normal;
    assert n == Normal(p);
    var v := Sub(q, f.origin);
    DotNegLeft(n, v);
    DotSymmetric(n, v);
    DotSubLeft(q, f.origin, n);
    DotScaleLeft(-p.d, n, n);
    DotSymmetric(q, n);
  }

  /**
   * The frame never applies the filter's sign flip: for a unit normal the third
   * table coordinate equals the filter's signed distance when the raw offset d
   * is negative, and its negation otherwise.
   */
  lemma {:induction false} TableHeightVersusFilter(p: PlaneModel, ns: FrameNorms, q: Vec3)
    requires FrameNormsFor(p, ns) && ns.normal == 1.0
    ensures MakeTableFrame(p, ns).Success?
    ensures var h := ToTable(MakeTableFrame(p, ns).value, q).z;
      var sd := SignedDistance(OrientPlane(p, 1.0), q);
      if p.d < 0.0 then h == sd else h == -sd
  {
    TableHeight(p, ns, q);
  }

  // ---------------------------------------------------------------------------
  // _object_extraction

  /** Lines 81-87: the height and table-plane ROI mask `keep`. */
  function HeightMask(pts: Cloud, hMin: real, hMax: real): (keep: seq<bool>)
    ensures |keep| == |pts|
    ensures forall i :: 0 <= i < |pts| ==> (keep[i] <==> hMin < pts[i].z < hMax)
  {
    seq(|pts|, i requires 0 <= i < |pts| => hMin < pts[i].z < hMax)
  }

  function RoiMask(pts: Cloud, xMin: real, xMax: real, yMin: real, yMax: real): (m: seq<bool>)
    ensures |m| == |pts|
    ensures forall i :: 0 <= i < |pts| ==> (m[i] <==> xMin < pts[i].x < xMax && yMin < pts[i].y < yMax)
  {
    seq(|pts|, i requires 0 <= i < |pts| => xMin < pts[i].x < xMax && yMin < pts[i].y < yMax)
  }

  /** The number of points DBSCAN gave label l (np.sum(labels == lbl)). */
  function LabelCount(labels: seq<int>, l: int): nat {
    multiset(labels)[l]
  }

  /** The mask labels == l. */
  function LabelMask(labels: seq<int>, l: int): (m: seq<bool>)
    ensures |m| == |labels|
    ensures forall i :: 0 <= i < |labels| ==> (m[i] <==> labels[i] == l)
  {
    seq(|labels|, i requires 0 <= i < |labels| => labels[i] == l)
  }

  /**
   * b is the cluster the loop of lines 94-100 selects: a label in
   * 0..max(labels) with the largest count, and the lowest such label
   * (the comparison is a strict >).
   */
  predicate IsLargestCluster(labels: seq<int>, b: int)
    requires |labels| > 0
  {
    && 0 <= b <= MaxInt(labels)
    && (forall l :: 0 <= l <= MaxInt(labels) ==> LabelCount(labels, l) <= LabelCount(labels, b))
    && (forall l :: 0 <= l < b ==> LabelCount(labels, l) < LabelCount(labels, b))
  }

  /** At most one label is the largest cluster, and it is never empty. */
  lemma LargestClusterUnique(labels: seq<int>, b1: int, b2: int)
    requires |labels| > 0
    requires IsLargestCluster(labels, b1) && IsLargestCluster(labels, b2)
    ensures b1 == b2
    ensures LabelCount(labels, b1) >= 1
  {
    var m := MaxInt(labels);
    assert LabelCount(labels, m) >= 1;
  }

  /**
   * Lines 94-100: the loop over range(labels.max() + 1). None (best is never
   * assigned) exactly when every label is negative, that is, all noise.
   */
  method LargestCluster(labels: seq<int>) returns (best: Option<int>)
    requires |labels| > 0
    ensures best.None? <==> MaxInt(labels) < 0
    ensures best.Some? ==> IsLargestCluster(labels, best.value)
  {
    var top := MaxInt(labels);
    best := None;
    var bestCount: int := -1;
    var lbl := 0;
    while lbl < top + 1
      invariant 0 <= lbl && (top >= 0 ==> lbl <= top + 1) && (top < 0 ==> lbl == 0)
      invariant best.None? <==> lbl == 0
      invariant best.None? ==> bestCount == -1
      invariant best.Some? ==>
        && 0 <= best.value < lbl
        && bestCount == LabelCount(labels, best.value)
        && (forall l :: 0 <= l < lbl ==> LabelCount(labels, l) <= bestCount)
        && (forall l :: 0 <= l < best.value ==> LabelCount(labels, l) < bestCount)
    {
      var cnt := LabelCount(labels, lbl);
      if cnt > bestCount {
        bestCount := cnt;
        best := Some(lbl);
      }
      lbl := lbl + 1;
    }
  }

  /**
   * _object_extraction. The height/ROI mask is built and then never applied,
   * so neither the height band nor the ROI has any effect. With clustering off
   * the points come back unchanged. With clustering on, an empty input makes
   * labels.max() raise; all-noise labels leave `best` as None and `labels ==
   * None` selects nothing; otherwise exactly the points of the largest
   * cluster are kept, in order.
   */
  method ObjectExtraction(pts: Cloud, labels: seq<int>, hMin: real, hMax: real,
                          roiXMin: real, roiXMax: real, roiYMin: real, roiYMax: real,
                          useDbscan: bool)
    returns (r: Result<Cloud, PipelineError>)
    requires |labels| == |pts|
    ensures !useDbscan ==> r == Success(pts)
    ensures useDbscan && pts == [] ==> r == Failure(EmptyReduction)
    ensures useDbscan && pts != [] && MaxInt(labels) < 0 ==> r == Success([])
    ensures useDbscan && pts != [] && MaxInt(labels) >= 0 ==>
      exists b :: IsLargestCluster(labels, b) && r == Success(Select(pts, LabelMask(labels, b)))
  {
    var keep := HeightMask(pts, hMin, hMax);
    var roi := RoiMask(pts, roiXMin, roiXMax, roiYMin, roiYMax);
    keep := seq(|pts|, i requires 0 <= i < |pts| => keep[i] && roi[i]);
    if !useDbscan {
      return Success(pts);
    }
    if |labels| == 0 {
      return Failure(EmptyReduction);
    }
    var best := LargestCluster(labels);
    match best {
      case None =>
        var nothing := seq(|pts|, _ => false);
        SelectConstantMask(pts, nothing, false);
        r := Success(Select(pts, nothing));
      case Some(b) =>
        r := Success(Select(pts, LabelMask(labels, b)));
    }
  }

  // ---------------------------------------------------------------------------
  // _robust_range and _compute_upright_dims

  /** _robust_range(v, 0, 1): the 0 and 1 quantiles are the minimum and the maximum. */
  function FullRange(v: seq<real>): (r: (real, real))
    requires |v| > 0
    ensures r.0 in v && r.1 in v
    ensures forall i :: 0 <= i < |v| ==> r.0 <= v[i] <= r.1
  {
    (Min(v), Max(v))
  }

  /** hi - lo of the full range: the spread of the values along one axis. */
  function Extent(v: seq<real>): (e: real)
    requires |v| > 0
    ensures e >= 0.0
    ensures forall i, j :: 0 <= i < |v| && 0 <= j < |v| ==> v[i] - v[j] <= e
    ensures exists i, j :: 0 <= i < |v| && 0 <= j < |v| && v[i] - v[j] == e
  {
    var r := FullRange(v);
    r.1 - r.0
  }

  /**
   * The tail of _compute_upright_dims: u and v are the projections of the
   * centred footprint on the major and minor PCA axes, zHigh the q_high
   * quantile of the heights. (length, width, height) with length >= width,
   * {length, width} the two extents, height the upper height quantile.
   * An empty object makes np.quantile raise.
   */
  function UprightDims(u: seq<real>, v: seq<real>, zHigh: real): (r: Result<(real, real, real), PipelineError>)
    requires |u| == |v|
    ensures r.Failure? <==> |u| == 0
    ensures r.Success? ==>
      var (length, width, height) := r.value;
      && length >= width >= 0.0
      && multiset{length, width} == multiset{Extent(u), Extent(v)}
      && height == zHigh
  {
    if |u| == 0 then Failure(EmptyReduction)
    else
      var len_ := Extent(u);
      var wid_ := Extent(v);
      if len_ >= wid_ then Success((len_, wid_, zHigh)) else Success((wid_, len_, zHigh))
  }
}
