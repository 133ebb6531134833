/** Atom-centred symmetry functions through DScribe's ACSF: the split of the
    configured functions into radial (G2) and angular (G4) parameter rows,
    the cutoff stamped onto every config, and the choice between stratified
    and per-structure output. */
module SymmetryFunctions {
  import opened Common
  import opened Datasets
  import opened Conversion

  // ---------------------------------------------------------------------
  // Configs and parameter rows
  // ---------------------------------------------------------------------

  /** A one-key config dict `{kind: inner}`, as `parse_config` reads it. */
  datatype SfConfig = SfConfig(kind: string, inner: map<string, Num>)

  /** The keys a radial function reads, in row order. */
  const RadialKeys: seq<string> := ["eta", "mu"]

  /** The keys an angular function reads, in row order. */
  const AngularKeys: seq<string> := ["eta", "zeta", "lambd"]

  /** `[inner[k] for k in keys]`, evaluated left to right: the first missing
      key raises. */
  function Lookup(inner: map<string, Num>, keys: seq<string>): (r: Result<seq<Num>>)
    ensures r.Ok? <==> forall k :: 0 <= k < |keys| ==> keys[k] in inner
    ensures r.Ok? ==> |r.value| == |keys| && forall k :: 0 <= k < |keys| ==> r.value[k] == inner[keys[k]]
    ensures r.Err? ==>
      exists k :: 0 <= k < |keys| && keys[k] !in inner && r == Err(MissingKey(keys[k]))
        && forall k' :: 0 <= k' < k ==> keys[k'] in inner
  {
    if keys == [] then Ok([])
    else if keys[0] !in inner then Err(MissingKey(keys[0]))
    else
      var rest :- Lookup(inner, keys[1..]);
      Ok([inner[keys[0]]] + rest)
  }

  /** The parameter row of one function, tagged with its group. */
  datatype Param = Radial(row: seq<Num>) | Angular(row: seq<Num>)

  /** The body of the loop of `make_params` for one config: `"rad"` gives an
      `[eta, mu]` row, `"ang"` an `[eta, zeta, lambd]` row, any other kind
      raises. */
  function Classify(sf: SfConfig): (r: Result<Param>)
    ensures sf.kind == "rad" ==>
      match Lookup(sf.inner, RadialKeys)
      case Ok(row) => r == Ok(Radial(row))
      case Err(e) => r == Err(e)
    ensures sf.kind == "ang" ==>
      match Lookup(sf.inner, AngularKeys)
      case Ok(row) => r == Ok(Angular(row))
      case Err(e) => r == Err(e)
    ensures sf.kind != "rad" && sf.kind != "ang" ==> r == Err(UnknownKind(sf.kind))
  {
    if sf.kind == "rad" then
      var row :- Lookup(sf.inner, RadialKeys);
      Ok(Radial(row))
    else if sf.kind == "ang" then
      var row :- Lookup(sf.inner, AngularKeys);
      Ok(Angular(row))
    else Err(UnknownKind(sf.kind))
  }

  /** The two lists `g2_params` and `g4_params` built by the loop. */
  datatype Lists = Lists(g2: seq<seq<Num>>, g4: seq<seq<Num>>)

  /** The loop of `make_params` over the configs in order; the first config
      that fails ends it with its error. */
  function Split(sfs: seq<SfConfig>): Result<Lists>
  {
    if sfs == [] then Ok(Lists([], []))
    else
      var front :- Split(sfs[..|sfs| - 1]);
      var param :- Classify(sfs[|sfs| - 1]);
      match param
      case Radial(row) => Ok(Lists(front.g2 + [row], front.g4))
      case Angular(row) => Ok(Lists(front.g2, front.g4 + [row]))
  }

  /** `None` for a list without rows, the rows as an array otherwise. */
  function Grouped(rows: seq<seq<Num>>): (r: Option<seq<seq<Num>>>)
    ensures r.None? <==> |rows| == 0
    ensures r.Some? ==> r.value == rows
  {
    if |rows| == 0 then None else Some(rows)
  }

  /** What `make_params` returns: `(g2_params, g4_params)`. */
  datatype Groups = Groups(g2: Option<seq<seq<Num>>>, g4: Option<seq<seq<Num>>>)

  /** What `make_params(sfs)` returns or raises. */
  function Params(sfs: seq<SfConfig>): Result<Groups>
  {
    var lists :- Split(sfs);
    Ok(Groups(Grouped(lists.g2), Grouped(lists.g4)))
  }

  // ---------------------------------------------------------------------
  // make_params
  // ---------------------------------------------------------------------

  /** `make_params(sfs)`: appends each config's row to its list in order,
      raising on the first config that fails, then turns an empty list into
      `None`. */
  method MakeParams(sfs: seq<SfConfig>) returns (result: Result<Groups>)
    ensures result == Params(sfs)
  {
    var g2: seq<seq<Num>> := [];
    var g4: seq<seq<Num>> := [];
    for i := 0 to |sfs|
      invariant Split(sfs[..i]) == Ok(Lists(g2, g4))
    {
      assert sfs[..i + 1][..i] == sfs[..i];
      var param := Classify(sfs[i]);
      if param.Err? {
        SplitErrPersists(sfs, i + 1);
        return Err(param.error);
      }
      match param.value
      case Radial(row) => g2 := g2 + [row];
      case Angular(row) => g4 := g4 + [row];
    }
    assert sfs[..|sfs|] == sfs;
    var groups := Groups(Grouped(g2), Grouped(g4));
    return Ok(groups);
  }

  /** A failure among the first k configs is the failure of the whole list. */
  lemma {:induction false} SplitErrPersists(sfs: seq<SfConfig>, k: nat)
    requires k <= |sfs| && Split(sfs[..k]).Err?
    ensures Split(sfs) == Split(sfs[..k])
    decreases |sfs|
  {
    if k < |sfs| {
      var n := |sfs| - 1;
      assert sfs[..n][..k] == sfs[..k];
      SplitErrPersists(sfs[..n], k);
    } else {
      assert sfs[..k] == sfs;
    }
  }

  // ---------------------------------------------------------------------
  // Properties of make_params
  // ---------------------------------------------------------------------

  /** The configs of one kind, in input order. */
  function OfKind(sfs: seq<SfConfig>, kind: string): (r: seq<SfConfig>)
    ensures |r| <= |sfs|
    ensures forall k :: 0 <= k < |r| ==> r[k].kind == kind
  {
    if sfs == [] then []
    else
      var front := OfKind(sfs[..|sfs| - 1], kind);
      if sfs[|sfs| - 1].kind == kind then front + [sfs[|sfs| - 1]] else front
  }

  /** The loop succeeds exactly when every config does on its own. */
  lemma {:induction false} SplitOk(sfs: seq<SfConfig>)
    ensures Split(sfs).Ok? <==> forall k :: 0 <= k < |sfs| ==> Classify(sfs[k]).Ok?
    decreases |sfs|
  {
    if sfs != [] {
      var n := |sfs| - 1;
      SplitOk(sfs[..n]);
      assert forall k :: 0 <= k < n ==> sfs[..n][k] == sfs[k];
    }
  }

  /** The error of a failing loop is the error of the first failing config. */
  lemma {:induction false} SplitFirstError(sfs: seq<SfConfig>)
    requires Split(sfs).Err?
    ensures
      exists k :: 0 <= k < |sfs| && Classify(sfs[k]) == Err(Split(sfs).error)
        && forall k' :: 0 <= k' < k ==> Classify(sfs[k']).Ok?
    decreases |sfs|
  {
    var n := |sfs| - 1;
    if Split(sfs[..n]).Err? {
      SplitFirstError(sfs[..n]);
      var k :| 0 <= k < n && Classify(sfs[..n][k]) == Err(Split(sfs[..n]).error)
        && forall k' :: 0 <= k' < k ==> Classify(sfs[..n][k']).Ok?;
      assert sfs[..n][k] == sfs[k];
      assert forall k' :: 0 <= k' < k ==> sfs[..n][k'] == sfs[k'];
    } else {
      SplitOk(sfs[..n]);
      assert forall k' :: 0 <= k' < n ==> sfs[..n][k'] == sfs[k'];
    }
  }

  /** A successful loop puts the row of every `"rad"` config into `g2` and
      of every `"ang"` config into `g4`, each in input order; so every
      config gives exactly one row. */
  lemma {:induction false} SplitRows(sfs: seq<SfConfig>)
    requires Split(sfs).Ok?
    ensures var lists := Split(sfs).value;
      && |lists.g2| == |OfKind(sfs, "rad")|
      && |lists.g4| == |OfKind(sfs, "ang")|
      && |lists.g2| + |lists.g4| == |sfs|
      && (forall k :: 0 <= k < |lists.g2| ==> Lookup(OfKind(sfs, "rad")[k].inner, RadialKeys) == Ok(lists.g2[k]))
      && (forall k :: 0 <= k < |lists.g4| ==> Lookup(OfKind(sfs, "ang")[k].inner, AngularKeys) == Ok(lists.g4[k]))
    decreases |sfs|
  {
    if sfs != [] {
      var n := |sfs| - 1;
      SplitRows(sfs[..n]);
    }
  }

  /** What `make_params` promises: it succeeds exactly when every config is
      a complete `"rad"` or `"ang"` config; then a group is `None` exactly
      when no config has its kind, the rows of a group follow the configs of
      its kind in order, and there is one row per config. */
  lemma ParamsSpec(sfs: seq<SfConfig>)
    ensures Params(sfs).Ok? <==> forall k :: 0 <= k < |sfs| ==> Classify(sfs[k]).Ok?
    ensures Params(sfs).Ok? ==>
      var groups := Params(sfs).value;
      && (groups.g2.None? <==> |OfKind(sfs, "rad")| == 0)
      && (groups.g4.None? <==> |OfKind(sfs, "ang")| == 0)
      && (groups.g2.Some? ==>
           && |groups.g2.value| == |OfKind(sfs, "rad")|
           && forall k :: 0 <= k < |groups.g2.value| ==>
                Lookup(OfKind(sfs, "rad")[k].inner, RadialKeys) == Ok(groups.g2.value[k]))
      && (groups.g4.Some? ==>
           && |groups.g4.value| == |OfKind(sfs, "ang")|
           && forall k :: 0 <= k < |groups.g4.value| ==>
                Lookup(OfKind(sfs, "ang")[k].inner, AngularKeys) == Ok(groups.g4.value[k]))
      && (if groups.g2.Some? then |groups.g2.value| else 0)
         + (if groups.g4.Some? then |groups.g4.value| else 0) == |sfs|
    ensures Params(sfs).Err? ==>
      exists k :: 0 <= k < |sfs| && Classify(sfs[k]) == Err(Params(sfs).error)
        && forall k' :: 0 <= k' < k ==> Classify(sfs[k']).Ok?
  {
    SplitOk(sfs);
    if Split(sfs).Ok? {
      SplitRows(sfs);
    } else {
      SplitFirstError(sfs);
    }
  }

  /** Any kind other than `"rad"` and `"ang"` makes `make_params` raise. */
  lemma UnknownKindRaises(sfs: seq<SfConfig>, k: nat)
    requires k < |sfs| && sfs[k].kind != "rad" && sfs[k].kind != "ang"
    ensures Params(sfs).Err?
  {
    SplitOk(sfs);
  }

  // ---------------------------------------------------------------------
  // The cutoff stamped by SymmetryFunctions.__init__
  // ---------------------------------------------------------------------

  /** The loop of `SymmetryFunctions.__init__`: one config per config, in
      order, with the same kind and the same inner entries except that
      `"cutoff"` is set to the cutoff. */
  method WithCutoff(sfs: seq<SfConfig>, cutoff: Num) returns (stamped: seq<SfConfig>)
    ensures |stamped| == |sfs|
    ensures forall i :: 0 <= i < |sfs| ==>
      && stamped[i].kind == sfs[i].kind
      && "cutoff" in stamped[i].inner && stamped[i].inner["cutoff"] == cutoff
      && stamped[i].inner.Keys == sfs[i].inner.Keys + {"cutoff"}
      && forall key :: key in sfs[i].inner && key != "cutoff" ==> stamped[i].inner[key] == sfs[i].inner[key]
  {
    stamped := [];
    for i := 0 to |sfs|
      invariant |stamped| == i
      invariant forall k :: 0 <= k < i ==> stamped[k] == SfConfig(sfs[k].kind, sfs[k].inner["cutoff" := cutoff])
    {
      var inner := sfs[i].inner["cutoff" := cutoff];
      stamped := stamped + [SfConfig(sfs[i].kind, inner)];
    }
  }

  /** Stamping the cutoff leaves the parameter rows as they were: no row
      reads `"cutoff"`. */
  lemma {:induction false} CutoffKeepsParams(sfs: seq<SfConfig>, stamped: seq<SfConfig>)
    requires |stamped| == |sfs|
    requires forall i :: 0 <= i < |sfs| ==>
      && stamped[i].kind == sfs[i].kind
      && stamped[i].inner.Keys == sfs[i].inner.Keys + {"cutoff"}
      && forall key :: key in sfs[i].inner && key != "cutoff" ==> stamped[i].inner[key] == sfs[i].inner[key]
    ensures Split(stamped) == Split(sfs)
    decreases |sfs|
  {
    if sfs != [] {
      var n := |sfs| - 1;
      CutoffKeepsParams(sfs[..n], stamped[..n]);
      ClassifyIgnoresCutoff(sfs[n], stamped[n]);
    }
  }

  /** A config's row does not depend on its `"cutoff"` entry. */
  lemma ClassifyIgnoresCutoff(sf: SfConfig, stamped: SfConfig)
    requires stamped.kind == sf.kind
    requires stamped.inner.Keys == sf.inner.Keys + {"cutoff"}
    requires forall key :: key in sf.inner && key != "cutoff" ==> stamped.inner[key] == sf.inner[key]
    ensures Classify(stamped) == Classify(sf)
  {
    LookupIgnores(sf.inner, stamped.inner, RadialKeys);
    LookupIgnores(sf.inner, stamped.inner, AngularKeys);
  }

  /** Looking up keys other than `"cutoff"` does not see that entry. */
  lemma {:induction false} LookupIgnores(inner: map<string, Num>, stamped: map<string, Num>, keys: seq<string>)
    requires "cutoff" !in keys
    requires stamped.Keys == inner.Keys + {"cutoff"}
    requires forall key :: key in inner && key != "cutoff" ==> stamped[key] == inner[key]
    ensures Lookup(stamped, keys) == Lookup(inner, keys)
    decreases |keys|
  {
    if keys != [] {
      LookupIgnores(inner, stamped, keys[1..]);
    }
  }

  // ---------------------------------------------------------------------
  // compute_symmfs
  // ---------------------------------------------------------------------

  /** The arguments of DScribe's ACSF constructor. */
  datatype AcsfArgs = AcsfArgs(
    rcut: Num,
    g2: Option<seq<seq<Num>>>,
    g4: Option<seq<seq<Num>>>,
    species: seq<int>,
    sparse: bool,
    periodic: bool)

  /** The first half of `compute_symmfs`: the parameter split, then the ACSF
      arguments, periodic exactly when the dataset has a cell. */
  function AcsfSetup(data: Dataset, elems: seq<int>, cutoff: Num, sfs: seq<SfConfig>): (r: Result<AcsfArgs>)
    ensures r.Ok? <==> Params(sfs).Ok?
    ensures r.Err? ==> r == Err(Params(sfs).error)
    ensures r.Ok? ==>
      && r.value.periodic == data.hasCell
      && r.value.rcut == cutoff && r.value.species == elems && !r.value.sparse
      && r.value.g2 == Params(sfs).value.g2 && r.value.g4 == Params(sfs).value.g4
  {
    var groups :- Params(sfs);
    var periodic := data.hasCell;
    Ok(AcsfArgs(cutoff, groups.g2, groups.g4, elems, false, periodic))
  }

  /** The array of `to_local` meets what `in_blocks` needs: one entry per
      structure, no more rows than atoms, rows of one width. */
  lemma LocalFitsAtoms(data: Dataset, rep: seq<seq<Num>>)
    requires data.Valid() && SameWidth(rep)
    ensures FitsAtoms(data.z, ToLocal(data.counts, rep)) && Rectangular(ToLocal(data.counts, rep))
  {
    var local := ToLocal(data.counts, rep);
    forall i | 0 <= i < |local|
      ensures |local[i]| <= |data.z[i]| && SameWidth(local[i])
    {
      ToLocalRows(data.counts, rep, i);
      if |local[i]| > 0 {
        forall j | 0 <= j < |local[i]| ensures |local[i][j]| == |local[i][0]| {
          ToLocalKeepsWidth(data.counts, rep, i, j, |rep[0]|);
          ToLocalKeepsWidth(data.counts, rep, i, 0, |rep[0]|);
        }
      }
    }
  }

  /** `compute_symmfs(data, elems, cutoff, sfs, stratify)` for the flat
      array `rep` that DScribe's ACSF returns: a failing parameter split
      raises first; otherwise the per-structure array, arranged in element
      blocks when `stratify` is set. */
  function ComputeSymmfs(data: Dataset, elems: seq<int>, cutoff: Num, sfs: seq<SfConfig>, stratify: bool,
                         rep: seq<seq<Num>>): Result<seq<seq<seq<Num>>>>
    requires data.Valid() && SameWidth(rep)
  {
    var args :- AcsfSetup(data, elems, cutoff, sfs);
    var local := ToLocal(data.counts, rep);
    LocalFitsAtoms(data, rep);
    if stratify then Stratified(data, local, Some(elems), 0.0) else Ok(local)
  }

  /** `compute_symmfs` raises the error of the parameter split first; after
      that, unstratified output is the `to_local` array, and stratified
      output exists exactly when every structure has rows and every atom's
      element is among `elems`, and is otherwise `in_blocks`' own result,
      its error included. */
  lemma ComputeSymmfsCases(data: Dataset, elems: seq<int>, cutoff: Num, sfs: seq<SfConfig>, stratify: bool,
                           rep: seq<seq<Num>>)
    requires data.Valid() && SameWidth(rep)
    ensures Params(sfs).Err? ==> ComputeSymmfs(data, elems, cutoff, sfs, stratify, rep) == Err(Params(sfs).error)
    ensures Params(sfs).Ok? && !stratify ==>
      ComputeSymmfs(data, elems, cutoff, sfs, stratify, rep) == Ok(ToLocal(data.counts, rep))
    ensures Params(sfs).Ok? && stratify ==>
      var local := ToLocal(data.counts, rep);
      (ComputeSymmfs(data, elems, cutoff, sfs, stratify, rep).Ok? <==>
       forall i :: 0 <= i < |local| ==>
         |local[i]| > 0 && forall j :: 0 <= j < |local[i]| ==> j < |data.z[i]| && data.z[i][j] in elems)
    ensures Params(sfs).Ok? && stratify ==>
      var local := ToLocal(data.counts, rep);
      && FitsAtoms(data.z, local) && Rectangular(local)
      && ComputeSymmfs(data, elems, cutoff, sfs, stratify, rep) == Stratified(data, local, Some(elems), 0.0)
  {
    var local := ToLocal(data.counts, rep);
    LocalFitsAtoms(data, rep);
    if Params(sfs).Ok? && stratify {
      StratifiedCases(data, local, Some(elems), 0.0);
    }
  }

  /** Unstratified, atom j of structure i is row `Sum(counts[..i]) + j` of
      DScribe's flat array, kept as it is, and structure i has `counts[i]`
      rows. */
  lemma ComputeSymmfsLocalRows(data: Dataset, elems: seq<int>, cutoff: Num, sfs: seq<SfConfig>,
                               rep: seq<seq<Num>>, out: seq<seq<seq<Num>>>, i: nat, j: nat)
    requires data.Valid() && SameWidth(rep) && Sum(data.counts) == |rep|
    requires ComputeSymmfs(data, elems, cutoff, sfs, false, rep) == Ok(out)
    requires i < |data.counts| && j < data.counts[i]
    ensures |out| == |data.counts| && |out[i]| == data.counts[i]
    ensures Sum(data.counts[..i]) + j < |rep| && out[i][j] == rep[Sum(data.counts[..i]) + j]
  {
    var local := ToLocal(data.counts, rep);
    assert |local[i]| == data.counts[i] && local[i][j] == rep[Sum(data.counts[..i]) + j]
        && Sum(data.counts[..i]) + j < |rep| by {
      ToLocalCell(data.counts, rep, i, j);
    }
    ComputeSymmfsOutput(data, elems, cutoff, sfs, false, rep, out);
  }

  /** Stratified, atom j of structure i, whose row is row `Sum(counts[..i]) + j`
      of DScribe's flat array, becomes the block row of block k, the position
      of the atom's element among `elems`: by `BlockRowContents`, the row
      itself in columns `[k * dim, (k + 1) * dim)` and zero elsewhere. */
  lemma ComputeSymmfsBlockRows(data: Dataset, elems: seq<int>, cutoff: Num, sfs: seq<SfConfig>,
                               rep: seq<seq<Num>>, out: seq<seq<seq<Num>>>, i: nat, j: nat, k: nat)
    requires data.Valid() && SameWidth(rep) && Sum(data.counts) == |rep|
    requires ComputeSymmfs(data, elems, cutoff, sfs, true, rep) == Ok(out)
    requires i < |data.counts| && j < data.counts[i]
    requires Distinct(elems) && k < |elems| && data.z[i][j] == elems[k]
    ensures |out| == |data.counts| && |out[i]| == data.counts[i]
    ensures Sum(data.counts[..i]) + j < |rep|
    ensures out[i][j] == BlockRow(rep[Sum(data.counts[..i]) + j], |rep[Sum(data.counts[..i]) + j]|, k, |elems|, 0.0)
  {
    ComputeSymmfsOutput(data, elems, cutoff, sfs, true, rep, out);
    StratifiedFlatRow(data, rep, elems, 0.0, out, i, j, k);
  }

  /** A successful `compute_symmfs` returns the `to_local` array, arranged
      in blocks when `stratify` is set. */
  lemma ComputeSymmfsOutput(data: Dataset, elems: seq<int>, cutoff: Num, sfs: seq<SfConfig>, stratify: bool,
                            rep: seq<seq<Num>>, out: seq<seq<seq<Num>>>)
    requires data.Valid() && SameWidth(rep)
    requires ComputeSymmfs(data, elems, cutoff, sfs, stratify, rep) == Ok(out)
    ensures var local := ToLocal(data.counts, rep);
      && FitsAtoms(data.z, local) && Rectangular(local)
      && (stratify ==> Stratified(data, local, Some(elems), 0.0) == Ok(out))
      && (!stratify ==> out == local)
  {
    LocalFitsAtoms(data, rep);
  }
}
