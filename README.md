# cscribe in Dafny

cscribe connects the DScribe descriptor library to the cmlkit toolkit.
DScribe computes the descriptors; cscribe reshapes what DScribe returns and
translates cmlkit-style configurations into DScribe's constructor
arguments. This project models that layer and proves its properties:

- `Conversion` (`conversion.dfy`) models `cscribe/conversion.py`.
  - `to_local` splits DScribe's flat per-atom array (`n_total_atoms × dim`)
    into one entry per structure. It uses the prefix-sum offset table of the
    atom counts.
  - `in_blocks` writes each atom's row into a zero-padded row of width
    `dim * n_elems`. The row goes into the block of the atom's element.
  - `to_local` is written as functions. `in_blocks` is the imperative method
    `InBlocks`: it allocates a zero `array2` per structure, copies rows into
    it in place, and appends each structure's result. `InBlocks` is proved
    equal to the specification function `Stratified`, and the properties
    are proved about `Stratified`.
- `Mbtr` (`mbtr.dfy`) models the configuration helpers of `cscribe/mbtr.py`:
  `_to_geomf`, `_to_weightf`, `_to_norm`, `_to_single_mbtr_config` and
  `_to_dscribe_config`. It also models the `periodic` flag that
  `MBTR.compute` adds to the translated dict.
- `SymmetryFunctions` (`sf.dfy`) models `cscribe/sf.py`.
  - `make_params` is the imperative method `MakeParams`, proved equal to the
    function `Params`.
  - The cutoff-stamping loop of `SymmetryFunctions.__init__` is the method
    `WithCutoff`.
  - `compute_symmfs` is modelled as `AcsfSetup` (the ACSF constructor
    arguments) and `ComputeSymmfs` (the choice between stratified and
    per-structure output).
- `Common` (`common.dfy`) holds `Option`, `Result` and the errors. Each
  Python exception the model covers is an `Error` constructor; the others
  are listed under "Left out".
- `Datasets` (`datasets.dfy`) holds the part of a cmlkit `Dataset` the code
  reads:
  - the atom counts;
  - the elements `z`;
  - `info["elements"]` and `info["total_elements"]`;
  - whether a cell `b` is present.

Inputs:

- Feature values are only copied or zero-filled, never computed. The
  `in_blocks` model is generic in the value type and takes its zero as a
  parameter. Configuration numbers are `real`.
- DScribe's output array is a parameter (`rep`) of `ComputeSymmfs`. It is
  not computed.

Where the code and its documented behaviour differ, the model follows the
code:

- `to_local` does not check that the row count equals the sum of the
  counts. numpy slicing clamps, so past the end of `rep` the entries are
  truncated or empty. `Slice` models this clamping.
  - `FlattenToLocal` states what the concatenation gives in both cases.
  - `LosslessPartition` states the exact partition when the row count
    equals the sum of the counts.
- A structure without atoms makes `in_blocks` raise `IndexError` at
  `rep_system[0]`. It does not produce a zero-row block; the model returns
  `Err(EmptyStructure)`.
- An element listed twice keeps its last position (the dict comprehension
  overwrites). `ElemIndexIsLastPosition` states this.

## Model

| member | source | states |
|---|---|---|
| Conversion.OffsetsArePrefixSums | cscribe/conversion.py:28-29 | `offsets[0] == 0`, `offsets[k] == sum(counts[:k])` for every k, and `offsets[k+1] == offsets[k] + counts[k]` |
| Conversion.Offsets | cscribe/conversion.py:28-29 | the offset table has one entry more than there are counts; its values are stated by `OffsetsArePrefixSums` and `OffsetsAscend` |
| Conversion.OffsetsAscend | cscribe/conversion.py:28-29 | each offset is the previous one plus that structure's count, and the last offset is the total atom count |
| Conversion.Slice | cscribe/conversion.py:32 | numpy slicing: the exact slice when both ends are in range, the tail when only the upper end overruns, empty when the range is empty or starts past the end |
| Conversion.ToLocal | cscribe/conversion.py:26-33 | `to_local`: one entry per count; entry i is stated by `ToLocalAt`, `ToLocalRows` and `ToLocalCell`, the whole by `LosslessPartition`, `FlattenToLocal` and `ZeroCountDoesNotShift` |
| Conversion.ToLocalAt | cscribe/conversion.py:31-33 | entry i of `to_local` is the row slice from `sum(counts[:i])` to `sum(counts[:i]) + counts[i]`; there is one entry per structure |
| Conversion.ToLocalRows | cscribe/conversion.py:31-33 | entry i has at most `counts[i]` rows, and its row j is row `sum(counts[:i]) + j` of the flat array, so the original order is kept |
| Conversion.FlattenToLocal | cscribe/conversion.py:28-33 | concatenating the entries gives the flat array cut to the total count, or the whole array when it is shorter |
| Conversion.LosslessPartition | cscribe/conversion.py:28-33 | when the row count is the sum of the counts, concatenating the entries gives back the flat array and entry i has exactly `counts[i]` rows |
| Conversion.ToLocalCell | cscribe/conversion.py:28-33 | when the counts sum to the row count, entry i has exactly `counts[i]` rows and its row j is row `sum(counts[:i]) + j` of the flat array |
| Conversion.ZeroCountIsEmpty | cscribe/conversion.py:28-32 | a structure with zero atoms gets an empty entry |
| Conversion.ZeroCountDoesNotShift | cscribe/conversion.py:28-32 | inserting a zero count at position i inserts an empty entry there and leaves every entry before and after unchanged |
| Conversion.ToLocalKeepsWidth | cscribe/conversion.py:31-32 | entries of a flat array with rows of one width have rows of that width |
| Conversion.ElemIndex | cscribe/conversion.py:68 | the element index holds exactly the listed elements, each mapped to a position where that element stands |
| Conversion.ElemIndexIsLastPosition | cscribe/conversion.py:71 | an element listed more than once maps to its last position |
| Conversion.ElemIndexOfDistinct | cscribe/conversion.py:68-71 | without repetitions, an element's index is its position in the list |
| Conversion.BlockLayout | cscribe/conversion.py:66-71 | the chosen layout fits: every element index is below `n_elems`; for a valid dataset `n_elems` is `len(elems)`, or `total_elements` (the number of the dataset's `elements`) without `elems` |
| Conversion.BlockOfElement | cscribe/conversion.py:66-71 | `n_elems` is `len(elems)`, or `total_elements` without `elems`; the k-th listed element (of `elems`, or of the dataset's `elements`) gets block k |
| Conversion.BlockRow | cscribe/conversion.py:77 | an output row has `dim * n_elems` columns |
| Conversion.BlockRowContents | cscribe/conversion.py:77-81 | columns `[idx*dim, (idx+1)*dim)` of an output row are the atom's row unchanged, and every other column is zero |
| Conversion.FirstUnknown | cscribe/conversion.py:79-80 | finds the first atom whose element has no index; there is none exactly when all atoms' elements are indexed |
| Conversion.StratifySystem | cscribe/conversion.py:76-81 | one structure of `in_blocks` (the specification function); its result and errors are stated by `StratifySystemCases` and `FirstUnknownDecides` |
| Conversion.StratifyAll | cscribe/conversion.py:73-85 | the loop over structures (the specification function); its result and first error are stated by `StratifyAllCases` |
| Conversion.Stratified | cscribe/conversion.py:66-85 | what `in_blocks` returns or raises (the specification function); stated by `StratifiedCases`, `StratifiedErrors` and `StratifiedByElement`, and `InBlocks` is proved equal to it |
| Conversion.StratifySystemCases | cscribe/conversion.py:76-81 | a structure succeeds exactly when it has atoms and all their elements are indexed; it then keeps its row count and puts row j into the block of atom j's element; an empty structure raises `IndexError`, otherwise a failure is the `KeyError` of an unindexed atom |
| Conversion.StratifyAllCases | cscribe/conversion.py:73-85 | the call succeeds exactly when every structure does; result i is structure i's result; a failure is the error of the first failing structure, every earlier structure succeeding |
| Conversion.StratifiedCases | cscribe/conversion.py:75-85 | `in_blocks` succeeds exactly when every structure has atoms and every atom's element is indexed; it then keeps the number of structures and of rows, and atom j of structure i becomes the block row of its element with `dim` taken from the structure's first row |
| Conversion.StratifiedErrors | cscribe/conversion.py:75-83 | a failure comes from the first structure that is not accepted, every earlier one having atoms that are all indexed; that structure raises `EmptyStructure` (the `IndexError`) when it has no atoms, otherwise `UnknownElement(e)` (the `KeyError`) for its first atom whose element e has no index |
| Conversion.StratifiedByElement | cscribe/conversion.py:77-81 | with distinct `elems`, an atom whose element is `elems[k]` has its row in columns `[k*dim, (k+1)*dim)` and zeros in all other columns |
| Conversion.StratifiedFlatRow | cscribe/conversion.py:75-81 | stratifying the `to_local` array of a flat array that the counts cover exactly puts row `sum(counts[:i]) + j` of the flat array into the block of atom j's element |
| Conversion.CopyIntoBlock | cscribe/conversion.py:81 | `new[j, offset:offset+len(row)] = row` writes exactly those cells of row j and changes nothing else |
| Conversion.FirstUnknownDecides | cscribe/conversion.py:79-80 | the first unindexed atom decides the `KeyError` |
| Conversion.AllKnownDecides | cscribe/conversion.py:76-81 | a structure whose atoms are all indexed yields exactly its block rows |
| Conversion.FillSystem | cscribe/conversion.py:76-81 | the zero buffer filled row by row equals the specified result of the structure, including its errors |
| Conversion.InBlocks | cscribe/conversion.py:66-85 | the loop over structures returns exactly what `Stratified` specifies, including the first structure's error |
| Mbtr.ToGeomf | cscribe/mbtr.py:149-161 | succeeds exactly on the five accepted names and yields one of DScribe's five names; any other name raises `ValueError` |
| Mbtr.FromGeomf | cscribe/mbtr.py:150-156 | the reverse table is defined exactly on DScribe's five names |
| Mbtr.GeomfTable | cscribe/mbtr.py:150-156 | `1/distance` maps to `inverse_distance`, `cos_angle` to `cosine`, and `atomic_number`, `distance`, `angle` to themselves |
| Mbtr.GeomfRoundTrip | cscribe/mbtr.py:150-156 | the table and its reverse undo each other in both directions, so the table is injective |
| Mbtr.ToWeightf | cscribe/mbtr.py:164-170 | `"unity"` gives `{"function": "unity", "cutoff": acc}`; another kind fails the assertion, a missing `ls` raises `KeyError`, and `exp` gives `{"function": "exp", "cutoff": acc, "scale": ls}` |
| Mbtr.WeightfKinds | cscribe/mbtr.py:164-170 | a translated weighting is `unity` exactly for the `"unity"` config and `exp` exactly for a parsed config, and only `exp` has a scale |
| Mbtr.ToNorm | cscribe/mbtr.py:173-177 | `None` becomes `"none"`, and any other norm is kept |
| Mbtr.ToSingleMbtrConfig | cscribe/mbtr.py:135-146 | `start`, `stop`, `num`, `broadening` become `min`, `max`, `n`, `sigma`; geometry and weighting are translated; it succeeds exactly when both translate, and a geometry error comes before a weighting error |
| Mbtr.ToDscribeConfig | cscribe/mbtr.py:98-132 | `_to_dscribe_config`, block by block; its result and errors are stated by `ToDscribeConfigSpec` |
| Mbtr.MergeElems | cscribe/mbtr.py:114-123 | unset `elems` takes the config's value; set `elems` must equal it, otherwise the assertion fails with `AssertionFailed` |
| Mbtr.AddTerm | cscribe/mbtr.py:109-123 | an absent config changes nothing; a present one succeeds exactly when it translates and its `elems` merge; a present one that does not translate raises its translation error, and one that translates can only fail with `AssertionFailed` |
| Mbtr.FirstElems | cscribe/mbtr.py:111-123 | the first `elems` given among the configs, with every earlier config giving none |
| Mbtr.MergeAllSpec | cscribe/mbtr.py:111-123 | merging succeeds exactly when every config after one giving `elems` repeats them, and then yields the first `elems` given |
| Mbtr.StagesMerge | cscribe/mbtr.py:107-131 | when every present config translates, the three blocks merge `elems` over the present configs in order and key `kN` is config N's translation |
| Mbtr.ToDscribeConfigSpec | cscribe/mbtr.py:98-132 | succeeds exactly when some config is given, all given configs translate and their `elems` agree; without configs it raises `AssertionFailed`; otherwise a failure is the error of the first failing step in source order (each config translated, then its `elems` checked against the earlier ones): the translation error of the first config that does not translate, or `AssertionFailed` when an earlier mismatch comes first; on success `kN` is present exactly when `mbtr_N` is, `species` is the first `elems` given, the norm is translated, and `normalize_gaussians`, `flatten`, `sparse` pass through |
| Mbtr.ToDscribeConfigShape | cscribe/mbtr.py:126-130 | the keys besides `kN` and `species` are set from the arguments |
| Mbtr.SomeFailureFails | cscribe/mbtr.py:109-123 | a present config that does not translate makes the whole call raise; when it is `mbtr_1`, with that config's translation error (which error a later failure raises is stated by `ToDscribeConfigSpec`) |
| Mbtr.NoTermFails | cscribe/mbtr.py:125 | without any config the assertion fails |
| Mbtr.ComputeArgs | cscribe/mbtr.py:84-87 | `periodic` is true exactly when the dataset has a cell, and the translated keys are kept |
| SymmetryFunctions.Lookup | cscribe/sf.py:137-139 | reading the keys of a row succeeds exactly when all are present and yields their values in order; otherwise it raises `KeyError` for the first missing key |
| SymmetryFunctions.Classify | cscribe/sf.py:133-143 | `rad` gives an `[eta, mu]` row, `ang` an `[eta, zeta, lambd]` row, a missing key raises `KeyError`, and any other kind raises `ValueError` |
| SymmetryFunctions.Grouped | cscribe/sf.py:145-153 | a group is `None` exactly when it has no rows, otherwise it holds the rows |
| SymmetryFunctions.Split | cscribe/sf.py:133-143 | the loop of `make_params` (the specification function); stated by `SplitOk`, `SplitFirstError` and `SplitRows` |
| SymmetryFunctions.Params | cscribe/sf.py:129-155 | what `make_params` returns or raises (the specification function); stated by `ParamsSpec`, and `MakeParams` is proved equal to it |
| SymmetryFunctions.MakeParams | cscribe/sf.py:129-155 | the loop over configs returns exactly what `Params` specifies, including the first error |
| SymmetryFunctions.SplitOk | cscribe/sf.py:133-143 | the loop succeeds exactly when every config succeeds on its own |
| SymmetryFunctions.SplitFirstError | cscribe/sf.py:133-143 | the loop's error is the error of the first failing config |
| SymmetryFunctions.SplitRows | cscribe/sf.py:133-139 | `g2` holds the rows of the `rad` configs and `g4` those of the `ang` configs, each in input order; together they have one row per config |
| SymmetryFunctions.ParamsSpec | cscribe/sf.py:129-155 | succeeds exactly when every config is a complete `rad` or `ang` config; a group is `None` exactly when no config has its kind, its rows follow its configs in order, and the row counts add up to the number of configs; a failure is the first failing config's error |
| SymmetryFunctions.UnknownKindRaises | cscribe/sf.py:140-143 | any kind other than `rad` and `ang` makes `make_params` raise |
| SymmetryFunctions.WithCutoff | cscribe/sf.py:81-85 | one config per input config, in order, with the same kind, `inner["cutoff"] == cutoff`, and every other entry unchanged |
| SymmetryFunctions.CutoffKeepsParams | cscribe/sf.py:81-85 | stamping the cutoff does not change the result of the parameter split |
| SymmetryFunctions.ClassifyIgnoresCutoff | cscribe/sf.py:134-139 | a config's row does not depend on its `cutoff` entry |
| SymmetryFunctions.AcsfSetup | cscribe/sf.py:108-119 | a failing `make_params` raises first; otherwise ACSF gets `rcut = cutoff`, the two groups, `species = elems`, `sparse = False`, and `periodic` true exactly when the dataset has a cell |
| SymmetryFunctions.LocalFitsAtoms | cscribe/sf.py:124 | the `to_local` array has one entry per structure, no more rows than atoms, and rows of one width |
| SymmetryFunctions.ComputeSymmfs | cscribe/sf.py:107-126 | what `compute_symmfs` returns for DScribe's array `rep`; stated by `ComputeSymmfsCases`, `ComputeSymmfsLocalRows` and `ComputeSymmfsBlockRows` |
| SymmetryFunctions.ComputeSymmfsCases | cscribe/sf.py:107-126 | the parameter error comes first; unstratified output is `to_local(data, rep)`; stratified output exists exactly when every structure has rows and every atom's element is in `elems`, and in every case equals `Stratified` on the `to_local` array, so a failure is `in_blocks`' own error (`Err(EmptyStructure)` or the first unknown atom's `UnknownElement`, by `StratifiedErrors`) |
| SymmetryFunctions.ComputeSymmfsOutput | cscribe/sf.py:121-126 | a successful call returns the `to_local` array, which fits the atoms and is rectangular, arranged by `Stratified` when `stratify` is set |
| SymmetryFunctions.ComputeSymmfsLocalRows | cscribe/sf.py:125-126 | unstratified, structure i has `counts[i]` rows and its row j is row `sum(counts[:i]) + j` of DScribe's array, unchanged |
| SymmetryFunctions.ComputeSymmfsBlockRows | cscribe/sf.py:123-124 | stratified, structure i has `counts[i]` rows and its row j is row `sum(counts[:i]) + j` of DScribe's array placed in the block of its element's position in `elems`, zero elsewhere |

## Left out

- DScribe's descriptor computation (`ACSF.create`, `dsMBTR.create`,
  `dsSOAP.create`) is foreign numerics. Its output is the input `rep`, and
  the constructor arguments are values (`AcsfArgs`, `MbtrArgs`).
- `cscribe/soap.py` is not part of this model. Its only logic is the call
  to `to_local`, which is modelled.
- `cscribe/__init__.py` is not part of this model. It only lists components.
- `Representation` and the context handling (`n_jobs`, `verbose`) are not
  modelled. They only pass settings to DScribe.
- `prepare_config` from cmlkit is not modelled. It expands parametrisation
  schemes with float arithmetic in code that is not part of this model. The
  symmetry-function configs reach `make_params` already expanded.
- `parse_config` from cmlkit is modelled only for a one-key dict
  `{kind: inner}`.
  - A config is `SfConfig(kind, inner)`.
  - An MBTR `weightf` is the string `"unity"` or such a dict.
  - Other strings for `weightf` are not modelled, because what
    `parse_config` does with them is not part of this model.
- Mbtr.MbtrConfig: the inner MBTR config dicts are records. The `KeyError`
  for a missing `start`, `stop`, `num`, `geomf`, `weightf`, `broadening`,
  `acc` or `elems` is not modelled.
- SymmetryFunctions.WithCutoff: returns new configs. In Python,
  `inner["cutoff"] = cutoff` also changes the caller's inner dicts through
  aliasing; that is not modelled.
- `self.config` bookkeeping in `MBTR.__init__` and
  `SymmetryFunctions.__init__` only stores the arguments and is not
  modelled.
- `Dataset.n` is taken to be the number of atom counts. `to_local` iterates
  over `range(data.n)`.
- Conversion.Stratified: requires that the rows of one structure share a
  width and that every row has an atom in `z`. A row of another width would
  make numpy's slice assignment raise a broadcasting error, or, for a row of
  width 1, broadcast that value over the whole block; neither is modelled.
  Such rows cannot come from `to_local`, whose entries are slices of one
  2-D array. Without `elems`, it also requires `total_elements` to be the
  length of `elements`; cmlkit keeps them equal.
- The exceptions without an `Error` constructor are not modelled:
  numpy's broadcasting `ValueError` at `new[j, ...] = rep_atom` (excluded by
  the width requirement of `Conversion.Stratified`), the `IndexError` of
  `data.z[i][j]` for a row without an atom (excluded by the same
  requirement), the `KeyError` of a missing MBTR config key (see
  `Mbtr.MbtrConfig` above) and the errors of cmlkit's `parse_config`.
- numpy's float dtype of `np.zeros` and the object arrays of the results are
  not modelled. The values keep their type, and the results are sequences.
  So `Conversion.Stratified` returns `Ok` for structures with equal row
  counts but different widths (`z = [[1], [1]]`, `rep = [[[5]], [[5, 6]]]`,
  `elems = [1]`), where `np.array(all_new, dtype=object)` in numpy raises a
  broadcasting `ValueError`; `compute_symmfs` never builds such an input,
  since every row of `to_local`'s result has DScribe's one width.
