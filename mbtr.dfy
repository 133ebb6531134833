/** Translation of cscribe's MBTR configuration (one inner dict per term
    k = 1, 2, 3) into the keyword arguments of DScribe's MBTR constructor. */
module Mbtr {
  import opened Common
  import opened Datasets

  // ---------------------------------------------------------------------
  // Configurations
  // ---------------------------------------------------------------------

  /** The `weightf` entry of an inner config: the string `"unity"`, or a
      one-key dict `{kind: inner}` as cmlkit's `parse_config` reads it. */
  datatype WeightSpec = Unity | Parametrised(kind: string, inner: map<string, Num>)

  /** One inner config dict (`mbtr_1`, `mbtr_2` or `mbtr_3`); `elems` is the
      value stored under that key, which may be `None`. */
  datatype MbtrConfig = MbtrConfig(
    elems: Option<seq<int>>,
    start: Num,
    stop: Num,
    num: int,
    acc: Num,
    geomf: string,
    weightf: WeightSpec,
    broadening: Num)

  /** DScribe's `grid` dict. */
  datatype Grid = Grid(min: Num, max: Num, n: int, sigma: Num)

  /** DScribe's `weighting` dict; `scale` is present for `"exp"` only. */
  datatype Weighting = Weighting(func: string, cutoff: Num, scale: Option<Num>)

  /** DScribe's configuration of one MBTR term: `grid`, `geometry` (its
      `"function"` entry) and `weighting`. */
  datatype SingleConfig = SingleConfig(grid: Grid, geometry: string, weighting: Weighting)

  /** The keyword dict handed to DScribe's MBTR; a key `kN` that the dict
      lacks is `None` here. */
  datatype DsConfig = DsConfig(
    k1: Option<SingleConfig>,
    k2: Option<SingleConfig>,
    k3: Option<SingleConfig>,
    normalization: string,
    normalizeGaussians: bool,
    flatten: bool,
    sparse: bool,
    species: Option<seq<int>>)

  // ---------------------------------------------------------------------
  // Geometry functions
  // ---------------------------------------------------------------------

  /** The geometry-function names cscribe accepts. */
  const GeometryNames: set<string> := {"atomic_number", "1/distance", "distance", "angle", "cos_angle"}

  /** The geometry-function names DScribe uses for them. */
  const DscribeGeometries: set<string> := {"atomic_number", "inverse_distance", "distance", "angle", "cosine"}

  /** `_to_geomf`: the lookup in the name table; any other name raises. */
  function ToGeomf(geomf: string): (r: Result<string>)
    ensures r.Ok? <==> geomf in GeometryNames
    ensures r.Ok? ==> r.value in DscribeGeometries
    ensures r.Err? ==> r == Err(UnknownGeometry(geomf))
  {
    var mapping := map[
      "atomic_number" := "atomic_number",
      "1/distance" := "inverse_distance",
      "distance" := "distance",
      "angle" := "angle",
      "cos_angle" := "cosine"];
    if geomf in mapping then Ok(mapping[geomf]) else Err(UnknownGeometry(geomf))
  }

  /** The cscribe name of a DScribe geometry function: the table read
      backwards. */
  function FromGeomf(name: string): (r: Option<string>)
    ensures r.Some? <==> name in DscribeGeometries
  {
    if name == "inverse_distance" then Some("1/distance")
    else if name == "cosine" then Some("cos_angle")
    else if name in {"atomic_number", "distance", "angle"} then Some(name)
    else None
  }

  /** The table renames exactly two entries and keeps the other three. */
  lemma GeomfTable()
    ensures ToGeomf("1/distance") == Ok("inverse_distance")
    ensures ToGeomf("cos_angle") == Ok("cosine")
    ensures forall name :: name in {"atomic_number", "distance", "angle"} ==> ToGeomf(name) == Ok(name)
  {
  }

  /** The table is a bijection between the two name sets: reading it
      backwards undoes it, in both directions, so no two names collide. */
  lemma GeomfRoundTrip(geomf: string, name: string)
    ensures ToGeomf(geomf).Ok? ==> FromGeomf(ToGeomf(geomf).value) == Some(geomf)
    ensures FromGeomf(name).Some? ==> ToGeomf(FromGeomf(name).value) == Ok(name)
  {
  }

  // ---------------------------------------------------------------------
  // Weighting, norm, one term
  // ---------------------------------------------------------------------

  /** `_to_weightf(weightf, acc)`: `"unity"` gives the unity weighting; any
      other config must parse to kind `"exp"` (an assertion) and must carry
      `"ls"`, which becomes the scale. */
  function ToWeightf(weightf: WeightSpec, acc: Num): (r: Result<Weighting>)
    ensures r.Ok? ==> r.value.cutoff == acc
    ensures weightf.Unity? ==> r == Ok(Weighting("unity", acc, None))
    ensures weightf.Parametrised? ==>
      r == if weightf.kind != "exp" then Err(AssertionFailed)
           else if "ls" !in weightf.inner then Err(MissingKey("ls"))
           else Ok(Weighting("exp", acc, Some(weightf.inner["ls"])))
  {
    match weightf
    case Unity => Ok(Weighting("unity", acc, None))
    case Parametrised(kind, inner) =>
      if kind != "exp" then Err(AssertionFailed)
      else if "ls" !in inner then Err(MissingKey("ls"))
      else Ok(Weighting("exp", acc, Some(inner["ls"])))
  }

  /** A weighting that translates names one of the two functions DScribe
      knows, and it is `"unity"` exactly for the `"unity"` config; only
      `"exp"` carries a scale. */
  lemma WeightfKinds(weightf: WeightSpec, acc: Num)
    requires ToWeightf(weightf, acc).Ok?
    ensures var w := ToWeightf(weightf, acc).value;
      && (w.func == "unity" <==> weightf.Unity?)
      && (w.func == "exp" <==> weightf.Parametrised?)
      && (w.scale.Some? <==> w.func == "exp")
  {
  }

  /** `_to_norm`: `None` becomes `"none"`, anything else is kept. */
  function ToNorm(norm: Option<string>): (r: string)
    ensures norm.Some? ==> r == norm.value
    ensures norm.None? ==> r == "none"
  {
    match norm
    case None => "none"
    case Some(x) => x
  }

  /** `_to_single_mbtr_config`: the grid fields renamed, then the geometry
      function, then the weighting; the geometry's error comes first. */
  function ToSingleMbtrConfig(config: MbtrConfig): (r: Result<SingleConfig>)
    ensures r.Ok? <==> ToGeomf(config.geomf).Ok? && ToWeightf(config.weightf, config.acc).Ok?
    ensures ToGeomf(config.geomf).Err? ==> r == Err(UnknownGeometry(config.geomf))
    ensures ToGeomf(config.geomf).Ok? && ToWeightf(config.weightf, config.acc).Err? ==>
      r == Err(ToWeightf(config.weightf, config.acc).error)
    ensures r.Ok? ==>
      && r.value.grid == Grid(config.start, config.stop, config.num, config.broadening)
      && r.value.geometry == ToGeomf(config.geomf).value
      && r.value.weighting == ToWeightf(config.weightf, config.acc).value
  {
    var grid := Grid(config.start, config.stop, config.num, config.broadening);
    var geometry :- ToGeomf(config.geomf);
    var weighting :- ToWeightf(config.weightf, config.acc);
    Ok(SingleConfig(grid, geometry, weighting))
  }

  // ---------------------------------------------------------------------
  // The whole configuration
  // ---------------------------------------------------------------------

  /** The running `elems` of `_to_dscribe_config` meets the next present
      config: unset, it takes that config's `elems`; set, it must equal them
      (an assertion). */
  function MergeElems(current: Option<seq<int>>, next: Option<seq<int>>): (r: Result<Option<seq<int>>>)
    ensures current.None? ==> r == Ok(next)
    ensures current.Some? ==> (r.Ok? <==> next == current)
    ensures current.Some? && next != current ==> r == Err(AssertionFailed)
    ensures r.Ok? ==> r.value == if current.Some? then current else next
  {
    if current.Some? then
      if current == next then Ok(current) else Err(AssertionFailed)
    else Ok(next)
  }

  /** The state of `_to_dscribe_config` after one `if mbtr_N is not None`
      block: the value of key `kN` and the running `elems`. */
  datatype Stage = Stage(term: Option<SingleConfig>, elems: Option<seq<int>>)

  /** One `if mbtr_N is not None` block: translate the config, then merge
      its `elems`. */
  function AddTerm(elems: Option<seq<int>>, config: Option<MbtrConfig>): (r: Result<Stage>)
    ensures config.None? ==> r == Ok(Stage(None, elems))
    ensures config.Some? ==>
      (r.Ok? <==> ToSingleMbtrConfig(config.value).Ok? && MergeElems(elems, config.value.elems).Ok?)
    ensures config.Some? && r.Ok? ==>
      r.value == Stage(Some(ToSingleMbtrConfig(config.value).value), MergeElems(elems, config.value.elems).value)
    ensures config.Some? && ToSingleMbtrConfig(config.value).Err? ==> r == Err(ToSingleMbtrConfig(config.value).error)
    ensures config.Some? && ToSingleMbtrConfig(config.value).Ok? && r.Err? ==> r == Err(AssertionFailed)
  {
    match config
    case None => Ok(Stage(None, elems))
    case Some(c) =>
      var single :- ToSingleMbtrConfig(c);
      var merged :- MergeElems(elems, c.elems);
      Ok(Stage(Some(single), merged))
  }

  /** `_to_dscribe_config`: the three blocks in order, then the assertion
      that at least one term is present, then the remaining keys. */
  function ToDscribeConfig(mbtr1: Option<MbtrConfig>, mbtr2: Option<MbtrConfig>, mbtr3: Option<MbtrConfig>,
                           normalizeGaussians: bool, norm: Option<string>, flatten: bool, sparse: bool): Result<DsConfig>
  {
    var s1 :- AddTerm(None, mbtr1);
    var s2 :- AddTerm(s1.elems, mbtr2);
    var s3 :- AddTerm(s2.elems, mbtr3);
    if s1.term.None? && s2.term.None? && s3.term.None? then Err(AssertionFailed)
    else Ok(DsConfig(s1.term, s2.term, s3.term, ToNorm(norm), normalizeGaussians, flatten, sparse, s3.elems))
  }

  // ---------------------------------------------------------------------
  // Properties of the whole configuration, against the present configs
  // ---------------------------------------------------------------------

  /** The configs given, in the order k = 1, 2, 3. */
  function Present(mbtr1: Option<MbtrConfig>, mbtr2: Option<MbtrConfig>, mbtr3: Option<MbtrConfig>): (ps: seq<MbtrConfig>)
    ensures |ps| <= 3
    ensures |ps| == 0 <==> mbtr1.None? && mbtr2.None? && mbtr3.None?
  {
    (if mbtr1.Some? then [mbtr1.value] else [])
    + (if mbtr2.Some? then [mbtr2.value] else [])
    + (if mbtr3.Some? then [mbtr3.value] else [])
  }

  /** The first `elems` given among the configs.  */
  function FirstElems(ps: seq<MbtrConfig>): (r: Option<seq<int>>)
    ensures r.Some? <==> exists k :: 0 <= k < |ps| && ps[k].elems.Some?
    ensures r.Some? ==>
      exists k :: 0 <= k < |ps| && ps[k].elems == r && forall k' :: 0 <= k' < k ==> ps[k'].elems.None?
  {
    if ps == [] then None
    else if ps[0].elems.Some? then ps[0].elems
    else
      var rest := FirstElems(ps[1..]);
      assert forall k :: 0 < k < |ps| ==> ps[k] == ps[1..][k - 1];
      assert rest.Some? ==>
        exists k :: 1 <= k < |ps| && ps[k].elems == rest && forall k' :: 0 <= k' < k ==> ps[k'].elems.None?;
      rest
  }

  /** Every config after one that gives `elems` repeats exactly those
      `elems` (giving none is a mismatch too). */
  predicate ElemsAgree(ps: seq<MbtrConfig>) {
    forall a, b :: 0 <= a < b < |ps| && ps[a].elems.Some? ==> ps[b].elems == ps[a].elems
  }

  /** Every config translates on its own. */
  predicate AllTranslate(ps: seq<MbtrConfig>) {
    forall k :: 0 <= k < |ps| ==> ToSingleMbtrConfig(ps[k]).Ok?
  }

  /** The translation of an optional config. */
  function Term(config: Option<MbtrConfig>): Option<SingleConfig>
  {
    match config
    case None => None
    case Some(c) => if ToSingleMbtrConfig(c).Ok? then Some(ToSingleMbtrConfig(c).value) else None
  }

  /** Merging `elems` over the present configs one after another. */
  function MergeAll(current: Option<seq<int>>, ps: seq<MbtrConfig>): Result<Option<seq<int>>>
    decreases |ps|
  {
    if ps == [] then Ok(current)
    else
      var merged :- MergeElems(current, ps[0].elems);
      MergeAll(merged, ps[1..])
  }

  /** Merging succeeds exactly when the running `elems` and the configs
      agree, and then it ends with the first `elems` given. */
  lemma {:induction false} MergeAllSpec(current: Option<seq<int>>, ps: seq<MbtrConfig>)
    ensures MergeAll(current, ps).Ok? <==>
      ElemsAgree(ps) && (current.Some? ==> forall k :: 0 <= k < |ps| ==> ps[k].elems == current)
    ensures MergeAll(current, ps).Ok? ==>
      MergeAll(current, ps).value == if current.Some? then current else FirstElems(ps)
    decreases |ps|
  {
    if ps != [] {
      var tail := ps[1..];
      assert forall k :: 0 < k < |ps| ==> ps[k] == tail[k - 1];
      MergeAllSpec(if current.Some? then current else ps[0].elems, tail);
      if current.None? && ps[0].elems.None? {
        assert ElemsAgree(ps) <==> ElemsAgree(tail) by {
          assert forall a, b :: 0 < a < b < |ps| ==> ps[a] == tail[a - 1] && ps[b] == tail[b - 1];
        }
      }
    }
  }

  /** The config list of one optional config. */
  function Given(config: Option<MbtrConfig>): (ps: seq<MbtrConfig>)
    ensures |ps| <= 1
  {
    if config.Some? then [config.value] else []
  }

  /** One block of `_to_dscribe_config`, for a config that translates, is a
      merge over that config alone. */
  lemma AddTermMerges(elems: Option<seq<int>>, config: Option<MbtrConfig>)
    requires config.Some? ==> ToSingleMbtrConfig(config.value).Ok?
    ensures AddTerm(elems, config).Ok? <==> MergeAll(elems, Given(config)).Ok?
    ensures AddTerm(elems, config).Ok? ==>
      && AddTerm(elems, config).value.elems == MergeAll(elems, Given(config)).value
      && AddTerm(elems, config).value.term == Term(config)
  {
    if config.Some? {
      assert Given(config)[1..] == [];
    }
  }

  /** When every given config translates, the three blocks of
      `_to_dscribe_config` merge `elems` over the given configs. */
  lemma StagesMerge(mbtr1: Option<MbtrConfig>, mbtr2: Option<MbtrConfig>, mbtr3: Option<MbtrConfig>,
                    normalizeGaussians: bool, norm: Option<string>, flatten: bool, sparse: bool)
    requires mbtr1.Some? ==> ToSingleMbtrConfig(mbtr1.value).Ok?
    requires mbtr2.Some? ==> ToSingleMbtrConfig(mbtr2.value).Ok?
    requires mbtr3.Some? ==> ToSingleMbtrConfig(mbtr3.value).Ok?
    ensures var r := ToDscribeConfig(mbtr1, mbtr2, mbtr3, normalizeGaussians, norm, flatten, sparse);
      var ps := Present(mbtr1, mbtr2, mbtr3);
      && (r.Ok? <==> |ps| > 0 && MergeAll(None, ps).Ok?)
      && (r.Ok? ==>
           && r.value.species == MergeAll(None, ps).value
           && r.value.k1 == Term(mbtr1) && r.value.k2 == Term(mbtr2) && r.value.k3 == Term(mbtr3))
  {
    var ps := Present(mbtr1, mbtr2, mbtr3);
    var p1, p2, p3 := Given(mbtr1), Given(mbtr2), Given(mbtr3);
    assert ps == p1 + (p2 + p3);
    MergeAllConcat(None, p1, p2 + p3);
    AddTermMerges(None, mbtr1);
    match MergeAll(None, p1)
    case Err(_) =>
    case Ok(e1) =>
      MergeAllConcat(e1, p2, p3);
      AddTermMerges(e1, mbtr2);
      match MergeAll(e1, p2)
      case Err(_) =>
      case Ok(e2) =>
        AddTermMerges(e2, mbtr3);
  }

  /** Merging over two lists is merging over the first, then the second. */
  lemma {:induction false} MergeAllConcat(current: Option<seq<int>>, xs: seq<MbtrConfig>, ys: seq<MbtrConfig>)
    ensures MergeAll(current, xs + ys)
         == match MergeAll(current, xs)
            case Err(e) => Err(e)
            case Ok(e) => MergeAll(e, ys)
    decreases |xs|
  {
    if xs == [] {
      assert xs + ys == ys;
    } else {
      assert (xs + ys)[1..] == xs[1..] + ys;
      match MergeElems(current, xs[0].elems)
      case Err(_) =>
      case Ok(m) => MergeAllConcat(m, xs[1..], ys);
    }
  }

  /** The blocks of `_to_dscribe_config` over the given configs: each
      translates its config and then merges its `elems`; the first failing
      step raises. */
  function Steps(current: Option<seq<int>>, ps: seq<MbtrConfig>): Result<Option<seq<int>>>
    decreases |ps|
  {
    if ps == [] then Ok(current)
    else if ToSingleMbtrConfig(ps[0]).Err? then Err(ToSingleMbtrConfig(ps[0]).error)
    else
      var merged :- MergeElems(current, ps[0].elems);
      Steps(merged, ps[1..])
  }

  /** Running the steps over two lists is running them over the first, then
      the second. */
  lemma {:induction false} StepsConcat(current: Option<seq<int>>, xs: seq<MbtrConfig>, ys: seq<MbtrConfig>)
    ensures Steps(current, xs + ys)
         == match Steps(current, xs)
            case Err(e) => Err(e)
            case Ok(e) => Steps(e, ys)
    decreases |xs|
  {
    if xs == [] {
      assert xs + ys == ys;
    } else {
      assert (xs + ys)[0] == xs[0];
      assert (xs + ys)[1..] == xs[1..] + ys;
      if ToSingleMbtrConfig(xs[0]).Ok? {
        match MergeElems(current, xs[0].elems)
        case Err(_) =>
        case Ok(m) => StepsConcat(m, xs[1..], ys);
      }
    }
  }

  /** One block of `_to_dscribe_config` is the steps over its config alone. */
  lemma AddTermSteps(elems: Option<seq<int>>, config: Option<MbtrConfig>)
    ensures AddTerm(elems, config).Ok? <==> Steps(elems, Given(config)).Ok?
    ensures AddTerm(elems, config).Ok? ==> AddTerm(elems, config).value.elems == Steps(elems, Given(config)).value
    ensures AddTerm(elems, config).Err? ==> AddTerm(elems, config).error == Steps(elems, Given(config)).error
  {
    if config.Some? {
      assert Given(config)[0] == config.value;
      assert Given(config)[1..] == [];
    }
  }

  /** With some config given, the three blocks of `_to_dscribe_config` fail
      exactly when the steps over the given configs do, with their error. */
  lemma StagesSteps(mbtr1: Option<MbtrConfig>, mbtr2: Option<MbtrConfig>, mbtr3: Option<MbtrConfig>,
                    normalizeGaussians: bool, norm: Option<string>, flatten: bool, sparse: bool)
    ensures var r := ToDscribeConfig(mbtr1, mbtr2, mbtr3, normalizeGaussians, norm, flatten, sparse);
      var ps := Present(mbtr1, mbtr2, mbtr3);
      |ps| > 0 ==> (r.Err? <==> Steps(None, ps).Err?) && (r.Err? ==> r.error == Steps(None, ps).error)
  {
    var ps := Present(mbtr1, mbtr2, mbtr3);
    var p1, p2, p3 := Given(mbtr1), Given(mbtr2), Given(mbtr3);
    assert ps == p1 + (p2 + p3);
    StepsConcat(None, p1, p2 + p3);
    AddTermSteps(None, mbtr1);
    match Steps(None, p1)
    case Err(_) =>
    case Ok(e1) =>
      StepsConcat(e1, p2, p3);
      AddTermSteps(e1, mbtr2);
      match Steps(e1, p2)
      case Err(_) =>
      case Ok(e2) =>
        AddTermSteps(e2, mbtr3);
  }

  /** Step k is the first failing one, in terms of the merge: every earlier
      config translates and their `elems` merge onto `current`; then either
      config k does not translate and e is its error, or its `elems` do not
      merge and e is the assertion failure. */
  predicate StepFails(current: Option<seq<int>>, ps: seq<MbtrConfig>, k: nat, e: Error)
    requires k < |ps|
  {
    && (forall k' :: 0 <= k' < k ==> ToSingleMbtrConfig(ps[k']).Ok?)
    && MergeAll(current, ps[..k]).Ok?
    && if ToSingleMbtrConfig(ps[k]).Err? then e == ToSingleMbtrConfig(ps[k]).error
       else e == AssertionFailed && MergeAll(current, ps[..k + 1]).Err?
  }

  /** A failure of the steps is raised by the first failing step. */
  lemma {:induction false} StepsFirstFailure(current: Option<seq<int>>, ps: seq<MbtrConfig>)
    ensures Steps(current, ps).Err? ==>
      exists k :: 0 <= k < |ps| && StepFails(current, ps, k, Steps(current, ps).error)
    decreases |ps|
  {
    if ps != [] && Steps(current, ps).Err? {
      var e := Steps(current, ps).error;
      assert ps[..0] == [];
      if ToSingleMbtrConfig(ps[0]).Err? {
        assert StepFails(current, ps, 0, e);
      } else if MergeElems(current, ps[0].elems).Err? {
        assert ps[..1] == [ps[0]] && [ps[0]][1..] == [];
        assert StepFails(current, ps, 0, e);
      } else {
        var m := MergeElems(current, ps[0].elems).value;
        var tail := ps[1..];
        StepsFirstFailure(m, tail);
        var k :| 0 <= k < |tail| && StepFails(m, tail, k, e);
        assert StepFails(current, ps, k + 1, e) by {
          assert forall k' :: 0 < k' <= k ==> ps[k'] == tail[k' - 1];
          assert ps[k + 1] == tail[k];
          MergeAllCons(current, ps, m, k + 1);
          MergeAllCons(current, ps, m, k + 2);
        }
      }
    }
  }

  /** Merging over a nonempty prefix merges its first config, then the rest. */
  lemma MergeAllCons(current: Option<seq<int>>, ps: seq<MbtrConfig>, m: Option<seq<int>>, n: nat)
    requires 0 < n <= |ps| && MergeElems(current, ps[0].elems) == Ok(m)
    ensures MergeAll(current, ps[..n]) == MergeAll(m, ps[1..][..n - 1])
  {
    assert ps[..n][0] == ps[0] && ps[..n][1..] == ps[1..][..n - 1];
  }

  /** Config k (among the given ones) is the first failing step of
      `_to_dscribe_config`: the configs before it translate and agree on
      `elems`; then config k does not translate and e is its error, or it
      translates but disagrees on `elems` and e is the assertion failure. */
  predicate FirstFailureAt(ps: seq<MbtrConfig>, k: nat, e: Error)
    requires k < |ps|
  {
    && (forall k' :: 0 <= k' < k ==> ToSingleMbtrConfig(ps[k']).Ok?)
    && ElemsAgree(ps[..k])
    && if ToSingleMbtrConfig(ps[k]).Err? then e == ToSingleMbtrConfig(ps[k]).error
       else e == AssertionFailed && !ElemsAgree(ps[..k + 1])
  }

  /** With some config given, a failure of `_to_dscribe_config` is raised
      by its first failing step. */
  lemma ToDscribeConfigFirstFailure(mbtr1: Option<MbtrConfig>, mbtr2: Option<MbtrConfig>, mbtr3: Option<MbtrConfig>,
                                    normalizeGaussians: bool, norm: Option<string>, flatten: bool, sparse: bool)
    ensures var r := ToDscribeConfig(mbtr1, mbtr2, mbtr3, normalizeGaussians, norm, flatten, sparse);
      var ps := Present(mbtr1, mbtr2, mbtr3);
      r.Err? && |ps| > 0 ==> exists k :: 0 <= k < |ps| && FirstFailureAt(ps, k, r.error)
  {
    var r := ToDscribeConfig(mbtr1, mbtr2, mbtr3, normalizeGaussians, norm, flatten, sparse);
    var ps := Present(mbtr1, mbtr2, mbtr3);
    if r.Err? && |ps| > 0 {
      StagesSteps(mbtr1, mbtr2, mbtr3, normalizeGaussians, norm, flatten, sparse);
      StepsFirstFailure(None, ps);
      var k :| 0 <= k < |ps| && StepFails(None, ps, k, r.error);
      MergeAllSpec(None, ps[..k]);
      MergeAllSpec(None, ps[..k + 1]);
      assert FirstFailureAt(ps, k, r.error);
    }
  }

  /** Success, keys and the assertion failure of a mismatch, for
      `ToDscribeConfigSpec`. */
  lemma ToDscribeConfigOutcome(mbtr1: Option<MbtrConfig>, mbtr2: Option<MbtrConfig>, mbtr3: Option<MbtrConfig>,
                               normalizeGaussians: bool, norm: Option<string>, flatten: bool, sparse: bool)
    ensures var ps := Present(mbtr1, mbtr2, mbtr3);
      (ToDscribeConfig(mbtr1, mbtr2, mbtr3, normalizeGaussians, norm, flatten, sparse).Ok? <==>
       |ps| > 0 && AllTranslate(ps) && ElemsAgree(ps))
    ensures var r := ToDscribeConfig(mbtr1, mbtr2, mbtr3, normalizeGaussians, norm, flatten, sparse);
      r.Ok? ==>
        && (r.value.k1.Some? <==> mbtr1.Some?) && r.value.k1 == Term(mbtr1)
        && (r.value.k2.Some? <==> mbtr2.Some?) && r.value.k2 == Term(mbtr2)
        && (r.value.k3.Some? <==> mbtr3.Some?) && r.value.k3 == Term(mbtr3)
        && r.value.species == FirstElems(Present(mbtr1, mbtr2, mbtr3))
        && r.value.normalization == ToNorm(norm)
        && r.value.normalizeGaussians == normalizeGaussians
        && r.value.flatten == flatten
        && r.value.sparse == sparse
    ensures var ps := Present(mbtr1, mbtr2, mbtr3);
      |ps| > 0 && AllTranslate(ps) && !ElemsAgree(ps) ==>
        ToDscribeConfig(mbtr1, mbtr2, mbtr3, normalizeGaussians, norm, flatten, sparse) == Err(AssertionFailed)
  {
    var ps := Present(mbtr1, mbtr2, mbtr3);
    var r := ToDscribeConfig(mbtr1, mbtr2, mbtr3, normalizeGaussians, norm, flatten, sparse);
    var t1 := mbtr1.Some? ==> ToSingleMbtrConfig(mbtr1.value).Ok?;
    var t2 := mbtr2.Some? ==> ToSingleMbtrConfig(mbtr2.value).Ok?;
    var t3 := mbtr3.Some? ==> ToSingleMbtrConfig(mbtr3.value).Ok?;
    assert AllTranslate(ps) <==> t1 && t2 && t3 by {
      PresentTranslates(mbtr1, mbtr2, mbtr3);
    }
    assert r.Ok? ==> r.value == DsConfig(r.value.k1, r.value.k2, r.value.k3, ToNorm(norm),
                                         normalizeGaussians, flatten, sparse, r.value.species) by {
      ToDscribeConfigShape(mbtr1, mbtr2, mbtr3, normalizeGaussians, norm, flatten, sparse);
    }
    if t1 && t2 && t3 {
      var merged := MergeAll(None, ps);
      assert && (r.Ok? <==> |ps| > 0 && merged.Ok?)
             && (r.Ok? ==>
                  r.value.species == merged.value
                  && r.value.k1 == Term(mbtr1) && r.value.k2 == Term(mbtr2) && r.value.k3 == Term(mbtr3)) by {
        StagesMerge(mbtr1, mbtr2, mbtr3, normalizeGaussians, norm, flatten, sparse);
      }
      assert (merged.Ok? <==> ElemsAgree(ps)) && (merged.Ok? ==> merged.value == FirstElems(ps)) by {
        MergeAllSpec(None, ps);
      }
      assert r.Err? ==> r == Err(AssertionFailed) by {
        TranslatedFailsByAssertion(mbtr1, mbtr2, mbtr3, normalizeGaussians, norm, flatten, sparse);
      }
    } else {
      SomeFailureFails(mbtr1, mbtr2, mbtr3, normalizeGaussians, norm, flatten, sparse);
    }
  }

  /** `_to_dscribe_config` succeeds exactly when some config is given, every
      given config translates, and their `elems` agree. Key `kN` is then
      present exactly when `mbtr_N` is given and holds its translation;
      `species` is the first `elems` given; the norm is translated and the
      flags pass through. */
  lemma ToDscribeConfigSpec(mbtr1: Option<MbtrConfig>, mbtr2: Option<MbtrConfig>, mbtr3: Option<MbtrConfig>,
                            normalizeGaussians: bool, norm: Option<string>, flatten: bool, sparse: bool)
    ensures var ps := Present(mbtr1, mbtr2, mbtr3);
      (ToDscribeConfig(mbtr1, mbtr2, mbtr3, normalizeGaussians, norm, flatten, sparse).Ok? <==>
       |ps| > 0 && AllTranslate(ps) && ElemsAgree(ps))
    ensures var r := ToDscribeConfig(mbtr1, mbtr2, mbtr3, normalizeGaussians, norm, flatten, sparse);
      r.Ok? ==>
        && (r.value.k1.Some? <==> mbtr1.Some?) && r.value.k1 == Term(mbtr1)
        && (r.value.k2.Some? <==> mbtr2.Some?) && r.value.k2 == Term(mbtr2)
        && (r.value.k3.Some? <==> mbtr3.Some?) && r.value.k3 == Term(mbtr3)
        && r.value.species == FirstElems(Present(mbtr1, mbtr2, mbtr3))
        && r.value.normalization == ToNorm(norm)
        && r.value.normalizeGaussians == normalizeGaussians
        && r.value.flatten == flatten
        && r.value.sparse == sparse
    ensures var ps := Present(mbtr1, mbtr2, mbtr3);
      |ps| > 0 && AllTranslate(ps) && !ElemsAgree(ps) ==>
        ToDscribeConfig(mbtr1, mbtr2, mbtr3, normalizeGaussians, norm, flatten, sparse) == Err(AssertionFailed)
    ensures var r := ToDscribeConfig(mbtr1, mbtr2, mbtr3, normalizeGaussians, norm, flatten, sparse);
      var ps := Present(mbtr1, mbtr2, mbtr3);
      && (|ps| == 0 ==> r == Err(AssertionFailed))
      && (r.Err? && |ps| > 0 ==> exists k :: 0 <= k < |ps| && FirstFailureAt(ps, k, r.error))
  {
    ToDscribeConfigOutcome(mbtr1, mbtr2, mbtr3, normalizeGaussians, norm, flatten, sparse);
    ToDscribeConfigFirstFailure(mbtr1, mbtr2, mbtr3, normalizeGaussians, norm, flatten, sparse);
    if mbtr1.None? && mbtr2.None? && mbtr3.None? {
      NoTermFails(normalizeGaussians, norm, flatten, sparse);
    }
  }

  /** When every given config translates, only an assertion can fail. */
  lemma TranslatedFailsByAssertion(mbtr1: Option<MbtrConfig>, mbtr2: Option<MbtrConfig>, mbtr3: Option<MbtrConfig>,
                                   normalizeGaussians: bool, norm: Option<string>, flatten: bool, sparse: bool)
    requires mbtr1.Some? ==> ToSingleMbtrConfig(mbtr1.value).Ok?
    requires mbtr2.Some? ==> ToSingleMbtrConfig(mbtr2.value).Ok?
    requires mbtr3.Some? ==> ToSingleMbtrConfig(mbtr3.value).Ok?
    ensures var r := ToDscribeConfig(mbtr1, mbtr2, mbtr3, normalizeGaussians, norm, flatten, sparse);
      r.Err? ==> r == Err(AssertionFailed)
  {
  }

  /** The keys besides `kN` and `species` are set from the arguments. */
  lemma ToDscribeConfigShape(mbtr1: Option<MbtrConfig>, mbtr2: Option<MbtrConfig>, mbtr3: Option<MbtrConfig>,
                             normalizeGaussians: bool, norm: Option<string>, flatten: bool, sparse: bool)
    ensures var r := ToDscribeConfig(mbtr1, mbtr2, mbtr3, normalizeGaussians, norm, flatten, sparse);
      r.Ok? ==> r.value == DsConfig(r.value.k1, r.value.k2, r.value.k3, ToNorm(norm),
                                    normalizeGaussians, flatten, sparse, r.value.species)
  {
    match AddTerm(None, mbtr1)
    case Err(_) =>
    case Ok(s1) =>
      match AddTerm(s1.elems, mbtr2)
      case Err(_) =>
      case Ok(s2) =>
  }

  /** A config that does not translate fails the whole call. */
  lemma SomeFailureFails(mbtr1: Option<MbtrConfig>, mbtr2: Option<MbtrConfig>, mbtr3: Option<MbtrConfig>,
                         normalizeGaussians: bool, norm: Option<string>, flatten: bool, sparse: bool)
    requires || (mbtr1.Some? && ToSingleMbtrConfig(mbtr1.value).Err?)
             || (mbtr2.Some? && ToSingleMbtrConfig(mbtr2.value).Err?)
             || (mbtr3.Some? && ToSingleMbtrConfig(mbtr3.value).Err?)
    ensures ToDscribeConfig(mbtr1, mbtr2, mbtr3, normalizeGaussians, norm, flatten, sparse).Err?
    ensures mbtr1.Some? && ToSingleMbtrConfig(mbtr1.value).Err? ==>
      ToDscribeConfig(mbtr1, mbtr2, mbtr3, normalizeGaussians, norm, flatten, sparse)
        == Err(ToSingleMbtrConfig(mbtr1.value).error)
  {
  }

  /** The given configs all translate exactly when each of the three does
      or is absent. */
  lemma PresentTranslates(mbtr1: Option<MbtrConfig>, mbtr2: Option<MbtrConfig>, mbtr3: Option<MbtrConfig>)
    ensures AllTranslate(Present(mbtr1, mbtr2, mbtr3))
        <==> && (mbtr1.Some? ==> ToSingleMbtrConfig(mbtr1.value).Ok?)
             && (mbtr2.Some? ==> ToSingleMbtrConfig(mbtr2.value).Ok?)
             && (mbtr3.Some? ==> ToSingleMbtrConfig(mbtr3.value).Ok?)
  {
    var ps := Present(mbtr1, mbtr2, mbtr3);
    assert ps == Given(mbtr1) + Given(mbtr2) + Given(mbtr3);
    if mbtr1.Some? && ToSingleMbtrConfig(mbtr1.value).Err? {
      assert ps[0] == mbtr1.value;
    } else if mbtr2.Some? && ToSingleMbtrConfig(mbtr2.value).Err? {
      assert ps[|Given(mbtr1)|] == mbtr2.value;
    } else if mbtr3.Some? && ToSingleMbtrConfig(mbtr3.value).Err? {
      assert ps[|Given(mbtr1)| + |Given(mbtr2)|] == mbtr3.value;
    } else {
      forall k | 0 <= k < |ps| ensures ToSingleMbtrConfig(ps[k]).Ok? {
        assert ps[k] in Given(mbtr1) + Given(mbtr2) + Given(mbtr3);
      }
    }
  }

  /** Without any config, `_to_dscribe_config` fails its assertion. */
  lemma NoTermFails(normalizeGaussians: bool, norm: Option<string>, flatten: bool, sparse: bool)
    ensures ToDscribeConfig(None, None, None, normalizeGaussians, norm, flatten, sparse) == Err(AssertionFailed)
  {
  }

  // ---------------------------------------------------------------------
  // MBTR.compute
  // ---------------------------------------------------------------------

  /** DScribe's MBTR constructor arguments: the translated dict and the
      periodic flag. */
  datatype MbtrArgs = MbtrArgs(config: DsConfig, periodic: bool)

  /** `{**self.ds_config, "periodic": ...}`: structures with a cell are
      treated as periodic, the others not; the translated keys are kept. */
  function ComputeArgs(data: Dataset, config: DsConfig): (r: MbtrArgs)
    ensures r.periodic <==> data.hasCell
    ensures r.config == config
  {
    if !data.hasCell then MbtrArgs(config, false) else MbtrArgs(config, true)
  }
}
