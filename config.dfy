// The tunable algorithm parameters and their defaults (src/config.py).

module Config {
  import opened Wrappers
  import opened ParamText

  /** The fields of a configuration by name; each value keeps its field's kind. */
  type Values = map<string, ParamValue>

  /** The value each field takes in a freshly constructed configuration. */
  const Defaults: Values := map[
    "voxel_size" := FloatVal(Decimal(5, 3)),
    "nb_neighbors" := IntVal(20),
    "std_ratio" := FloatVal(Decimal(2, 0)),
    "plane_dist_thresh" := FloatVal(Decimal(4, 3)),
    "ransac_n" := IntVal(3),
    "ransac_iters" := IntVal(1000),
    "h_min" := FloatVal(Decimal(3, 3)),
    "h_max" := FloatVal(Decimal(1, 0)),
    "roi_x_min" := FloatVal(Decimal(-4, 1)),
    "roi_x_max" := FloatVal(Decimal(4, 1)),
    "roi_y_min" := FloatVal(Decimal(-3, 1)),
    "roi_y_max" := FloatVal(Decimal(3, 1)),
    "use_dbscan" := BoolVal(true),
    "dbscan_eps" := FloatVal(Decimal(1, 2)),
    "dbscan_min_points" := IntVal(30),
    "q_low" := FloatVal(Decimal(1, 2)),
    "q_high" := FloatVal(Decimal(99, 2))]

  /** Every value is held in canonical form. */
  ghost predicate AllWellFormed(v: Values) {
    forall k :: k in v ==> WellFormedValue(v[k])
  }

  /** b has the fields of a, each of the same kind. */
  ghost predicate SameShape(a: Values, b: Values) {
    a.Keys == b.Keys && forall k :: k in a ==> SameKind(a[k], b[k])
  }

  /** Every default is held in canonical form. */
  lemma DefaultsShape()
    ensures AllWellFormed(Defaults)
  {
  }

  /** The numeric value of a field, if the configuration has it. */
  function Number(cfg: Values, name: string): (r: Option<real>)
    ensures r.Some? <==> name in cfg
  {
    if name !in cfg then None
    else match cfg[name]
      case BoolVal(b) => Some(if b then 1.0 else 0.0)
      case IntVal(i) => Some(i as real)
      case FloatVal(f) => Some(Value(f))
  }

  /** The configuration has no signed-distance threshold. */
  lemma NoSignedDistanceThreshold()
    ensures Number(Defaults, "sd_thresh") == None
  {
    assert "sd_thresh" !in Defaults;
  }
}
