/** Conversion of DScribe's per-atom output into cmlkit's per-structure
    layout (`to_local`), and the arrangement of per-atom rows into
    zero-padded element blocks (`in_blocks`). */
module Conversion {
  import opened Common
  import opened Datasets

  // ---------------------------------------------------------------------
  // Prefix sums and the offset table
  // ---------------------------------------------------------------------

  /** Total number of atoms of a count table. */
  function Sum(s: seq<nat>): nat {
    if s == [] then 0 else s[0] + Sum(s[1..])
  }

  lemma {:induction false} SumConcat(a: seq<nat>, b: seq<nat>)
    ensures Sum(a + b) == Sum(a) + Sum(b)
  {
    if a == [] {
      assert a + b == b;
    } else {
      assert (a + b)[1..] == a[1..] + b;
      SumConcat(a[1..], b);
    }
  }

  /** The running total grows by the next structure's count. */
  lemma SumStep(s: seq<nat>, k: nat)
    requires k < |s|
    ensures Sum(s[..k + 1]) == Sum(s[..k]) + s[k]
  {
    assert s[..k + 1] == s[..k] + [s[k]];
    SumConcat(s[..k], [s[k]]);
  }

  /** Adding more structures never lowers the running total. */
  lemma SumPrefixBelow(s: seq<nat>, k: nat)
    requires k <= |s|
    ensures Sum(s[..k]) <= Sum(s)
  {
    assert s == s[..k] + s[k..];
    SumConcat(s[..k], s[k..]);
  }

  /** `np.cumsum(counts)` shifted by a starting total: the running totals
      `total + counts[0]`, `total + counts[0] + counts[1]`, ... */
  function CumSum(counts: seq<nat>, total: nat): (r: seq<nat>)
    ensures |r| == |counts|
  {
    if counts == [] then []
    else [total + counts[0]] + CumSum(counts[1..], total + counts[0])
  }

  /** The offset table of `to_local`: a zero followed by `np.cumsum(counts)`. */
  function Offsets(counts: seq<nat>): (r: seq<nat>)
    ensures |r| == |counts| + 1
  {
    [0] + CumSum(counts, 0)
  }

  lemma {:induction false} CumSumAt(counts: seq<nat>, total: nat, k: nat)
    requires k < |counts|
    ensures CumSum(counts, total)[k] == total + Sum(counts[..k + 1])
  {
    assert counts[..k + 1] == [counts[0]] + counts[1..][..k];
    if k > 0 {
      CumSumAt(counts[1..], total + counts[0], k - 1);
    }
  }

  /** The offsets are the prefix sums of the atom counts: entry k is the
      number of atoms in the first k structures. */
  lemma OffsetsArePrefixSums(counts: seq<nat>)
    ensures Offsets(counts)[0] == 0
    ensures forall k :: 0 <= k <= |counts| ==> Offsets(counts)[k] == Sum(counts[..k])
    ensures forall k :: 0 <= k < |counts| ==> Offsets(counts)[k + 1] == Offsets(counts)[k] + counts[k]
  {
    forall k | 0 <= k <= |counts|
      ensures Offsets(counts)[k] == Sum(counts[..k])
    {
      if k > 0 {
        CumSumAt(counts, 0, k - 1);
      }
    }
    OffsetsAscend(counts);
  }

  /** The offsets ascend by the counts and end at the total atom count. */
  lemma OffsetsAscend(counts: seq<nat>)
    ensures forall k :: 0 <= k < |counts| ==> Offsets(counts)[k + 1] == Offsets(counts)[k] + counts[k]
    ensures Offsets(counts)[|counts|] == Sum(counts)
  {
    forall k | 0 <= k < |counts|
      ensures Offsets(counts)[k + 1] == Offsets(counts)[k] + counts[k]
    {
      if k > 0 {
        CumSumStep(counts, 0, k - 1);
      }
    }
    if |counts| > 0 {
      CumSumLast(counts, 0);
    }
  }

  lemma {:induction false} CumSumStep(counts: seq<nat>, total: nat, k: nat)
    requires k + 1 < |counts|
    ensures CumSum(counts, total)[k + 1] == CumSum(counts, total)[k] + counts[k + 1]
  {
    if k > 0 {
      CumSumStep(counts[1..], total + counts[0], k - 1);
    }
  }

  lemma {:induction false} CumSumLast(counts: seq<nat>, total: nat)
    requires |counts| > 0
    ensures CumSum(counts, total)[|counts| - 1] == total + Sum(counts)
  {
    if |counts| > 1 {
      CumSumLast(counts[1..], total + counts[0]);
    }
  }

  // ---------------------------------------------------------------------
  // to_local
  // ---------------------------------------------------------------------

  /** Python's `s[lo:hi]` for non-negative bounds: bounds past the end are
      clamped to the length, and a slice with lo >= hi is empty. */
  function Slice<R>(s: seq<R>, lo: nat, hi: nat): (r: seq<R>)
    ensures lo <= hi <= |s| ==> r == s[lo..hi]
    ensures lo <= |s| <= hi ==> r == s[lo..]
    ensures hi <= lo || |s| <= lo ==> r == []
  {
    var l := if lo < |s| then lo else |s|;
    var h := if hi < |s| then hi else |s|;
    if l <= h then s[l..h] else []
  }

  /** `to_local`: one entry per structure, entry i being the rows
      `rep[offsets[i] : offsets[i + 1]]` of the flat per-atom array. */
  function ToLocal<R>(counts: seq<nat>, rep: seq<R>): (r: seq<seq<R>>)
    ensures |r| == |counts|
  {
    var offsets := Offsets(counts);
    seq(|counts|, i requires 0 <= i < |counts| => Slice(rep, offsets[i], offsets[i + 1]))
  }

  /** Concatenation of the entries of a per-structure array, in order. */
  function Flatten<R>(parts: seq<seq<R>>): seq<R> {
    if parts == [] then [] else Flatten(parts[..|parts| - 1]) + parts[|parts| - 1]
  }

  /** Entry i of `to_local` is the slice between the i-th and the (i+1)-th
      prefix sums of the counts. */
  lemma ToLocalAt<R>(counts: seq<nat>, rep: seq<R>, i: nat)
    requires i < |counts|
    ensures ToLocal(counts, rep)[i] == Slice(rep, Sum(counts[..i]), Sum(counts[..i]) + counts[i])
  {
    OffsetsArePrefixSums(counts);
  }

  /** Entry i of `to_local` has at most `counts[i]` rows, and its row j is
      row `Sum(counts[..i]) + j` of the flat array. */
  lemma ToLocalRows<R>(counts: seq<nat>, rep: seq<R>, i: nat)
    requires i < |counts|
    ensures |ToLocal(counts, rep)[i]| <= counts[i]
    ensures forall j :: 0 <= j < |ToLocal(counts, rep)[i]| ==>
      Sum(counts[..i]) + j < |rep| && ToLocal(counts, rep)[i][j] == rep[Sum(counts[..i]) + j]
  {
    ToLocalAt(counts, rep, i);
  }

  /** With the counts summing to the row count, atom j of structure i is row
      `Sum(counts[..i]) + j` of the flat array. */
  lemma ToLocalCell<R>(counts: seq<nat>, rep: seq<R>, i: nat, j: nat)
    requires Sum(counts) == |rep| && i < |counts| && j < counts[i]
    ensures |ToLocal(counts, rep)[i]| == counts[i]
    ensures Sum(counts[..i]) + j < |rep| && ToLocal(counts, rep)[i][j] == rep[Sum(counts[..i]) + j]
  {
    var lo := Sum(counts[..i]);
    assert lo + counts[i] <= |rep| by {
      SumStep(counts, i);
      SumPrefixBelow(counts, i + 1);
    }
    ToLocalAt(counts, rep, i);
  }

  /** Concatenating the entries of `to_local` gives the flat array cut to the
      total atom count (numpy drops rows past the last offset, and the
      entries simply end early when the array is shorter). */
  lemma FlattenToLocal<R>(counts: seq<nat>, rep: seq<R>)
    ensures Sum(counts) <= |rep| ==> Flatten(ToLocal(counts, rep)) == rep[..Sum(counts)]
    ensures Sum(counts) > |rep| ==> Flatten(ToLocal(counts, rep)) == rep
  {
    var offsets, parts := Offsets(counts), ToLocal(counts, rep);
    assert forall k :: 0 <= k < |parts| ==> offsets[k] <= offsets[k + 1] by {
      OffsetsAscend(counts);
    }
    assert offsets[|parts|] == Sum(counts) by {
      OffsetsAscend(counts);
    }
    FlattenSlices(offsets, parts, rep);
  }

  /** The same fact for any parts cut from `rep` at ascending bounds. */
  lemma {:induction false} FlattenSlices<R>(bounds: seq<nat>, parts: seq<seq<R>>, rep: seq<R>)
    requires |bounds| == |parts| + 1 && bounds[0] == 0
    requires forall k :: 0 <= k < |parts| ==> bounds[k] <= bounds[k + 1]
    requires forall k :: 0 <= k < |parts| ==> parts[k] == Slice(rep, bounds[k], bounds[k + 1])
    ensures bounds[|parts|] <= |rep| ==> Flatten(parts) == rep[..bounds[|parts|]]
    ensures bounds[|parts|] > |rep| ==> Flatten(parts) == rep
    decreases |parts|
  {
    var n := |parts|;
    if n > 0 {
      FlattenSlices(bounds[..n], parts[..n - 1], rep);
      var s, e := bounds[n - 1], bounds[n];
      var last := parts[n - 1];
      assert Flatten(parts) == Flatten(parts[..n - 1]) + last;
      if e <= |rep| {
        assert rep[..e] == rep[..s] + last;
      } else if s <= |rep| {
        assert rep == rep[..s] + last;
      }
    }
  }

  /** Lossless partition: when the flat array has exactly one row per atom,
      entry i has `counts[i]` rows, namely rows `Sum(counts[..i])` up to
      `Sum(counts[..i + 1])`, and the entries concatenated in order give the
      flat array back. */
  lemma LosslessPartition<R>(counts: seq<nat>, rep: seq<R>)
    requires Sum(counts) == |rep|
    ensures Flatten(ToLocal(counts, rep)) == rep
    ensures forall i :: 0 <= i < |counts| ==>
      && Sum(counts[..i + 1]) == Sum(counts[..i]) + counts[i] <= |rep|
      && ToLocal(counts, rep)[i] == rep[Sum(counts[..i])..Sum(counts[..i + 1])]
      && |ToLocal(counts, rep)[i]| == counts[i]
  {
    FlattenToLocal(counts, rep);
    assert rep[..Sum(counts)] == rep;
    forall i | 0 <= i < |counts|
      ensures Sum(counts[..i + 1]) == Sum(counts[..i]) + counts[i] <= |rep|
      ensures ToLocal(counts, rep)[i] == rep[Sum(counts[..i])..Sum(counts[..i + 1])]
      ensures |ToLocal(counts, rep)[i]| == counts[i]
    {
      ToLocalAt(counts, rep, i);
      SumStep(counts, i);
      SumPrefixBelow(counts, i + 1);
    }
  }

  /** A structure with no atoms gets an empty entry. */
  lemma ZeroCountIsEmpty<R>(counts: seq<nat>, rep: seq<R>, i: nat)
    requires i < |counts| && counts[i] == 0
    ensures ToLocal(counts, rep)[i] == []
  {
    ToLocalAt(counts, rep, i);
  }

  /** The prefix sums of a count table with a zero inserted at position i. */
  lemma InsertedZeroSums(counts: seq<nat>, i: nat, k: nat)
    requires i <= |counts| && k <= |counts| + 1
    ensures var wider := counts[..i] + [0] + counts[i..];
      Sum(wider[..k]) == if k <= i then Sum(counts[..k]) else Sum(counts[..k - 1])
  {
    var wider := counts[..i] + [0] + counts[i..];
    if k <= i {
      assert wider[..k] == counts[..k];
    } else {
      assert wider[..k] == counts[..i] + ([0] + counts[i..k - 1]);
      SumConcat(counts[..i], [0] + counts[i..k - 1]);
      assert counts[..k - 1] == counts[..i] + counts[i..k - 1];
      SumConcat(counts[..i], counts[i..k - 1]);
    }
  }

  /** Entry k of `to_local` after inserting a zero count at position i. */
  lemma InsertedZeroAt<R>(counts: seq<nat>, rep: seq<R>, i: nat, k: nat)
    requires i <= |counts| && k <= |counts|
    ensures var wider := counts[..i] + [0] + counts[i..];
      ToLocal(wider, rep)[k]
        == if k < i then ToLocal(counts, rep)[k]
           else if k == i then []
           else ToLocal(counts, rep)[k - 1]
  {
    var wider := counts[..i] + [0] + counts[i..];
    if k < i {
      InsertedZeroBefore(counts, wider, rep, i, k);
    } else if k > i {
      InsertedZeroAfter(counts, wider, rep, i, k);
    } else {
      var lo := Sum(wider[..k]);
      ToLocalFrom(wider, rep, k, lo);
      assert wider[k] == 0;
    }
  }

  lemma InsertedZeroBefore<R>(counts: seq<nat>, wider: seq<nat>, rep: seq<R>, i: nat, k: nat)
    requires i <= |counts| && k < i && wider == counts[..i] + [0] + counts[i..]
    ensures ToLocal(wider, rep)[k] == ToLocal(counts, rep)[k]
  {
    var lo := Sum(wider[..k]);
    InsertedZeroSums(counts, i, k);
    assert wider[k] == counts[k];
    ToLocalFrom(wider, rep, k, lo);
    ToLocalFrom(counts, rep, k, lo);
  }

  lemma InsertedZeroAfter<R>(counts: seq<nat>, wider: seq<nat>, rep: seq<R>, i: nat, k: nat)
    requires i < k <= |counts| && wider == counts[..i] + [0] + counts[i..]
    ensures ToLocal(wider, rep)[k] == ToLocal(counts, rep)[k - 1]
  {
    var lo := Sum(wider[..k]);
    InsertedZeroSums(counts, i, k);
    assert wider[k] == counts[k - 1];
    ToLocalFrom(wider, rep, k, lo);
    ToLocalFrom(counts, rep, k - 1, lo);
  }

  /** `ToLocalAt` with the offset named. */
  lemma ToLocalFrom<R>(counts: seq<nat>, rep: seq<R>, k: nat, lo: nat)
    requires k < |counts| && lo == Sum(counts[..k])
    ensures ToLocal(counts, rep)[k] == Slice(rep, lo, lo + counts[k])
  {
    ToLocalAt(counts, rep, k);
  }

  /** Inserting a structure without atoms at position i inserts an empty
      entry there and leaves every other entry, before and after, as it was:
      a zero count does not shift the later boundaries. */
  lemma ZeroCountDoesNotShift<R>(counts: seq<nat>, rep: seq<R>, i: nat)
    requires i <= |counts|
    ensures ToLocal(counts[..i] + [0] + counts[i..], rep)
         == ToLocal(counts, rep)[..i] + [[]] + ToLocal(counts, rep)[i..]
  {
    var parts := ToLocal(counts, rep);
    var rhs := parts[..i] + [[]] + parts[i..];
    forall k | 0 <= k <= |counts|
      ensures ToLocal(counts[..i] + [0] + counts[i..], rep)[k] == rhs[k]
    {
      InsertedZeroAt(counts, rep, i, k);
    }
  }

  /** Every entry of `to_local` is a sequence of rows of the flat array, so a
      flat array whose rows share one width gives entries whose rows share
      that width. */
  lemma ToLocalKeepsWidth<R>(counts: seq<nat>, rep: seq<seq<R>>, i: nat, j: nat, w: nat)
    requires forall a :: 0 <= a < |rep| ==> |rep[a]| == w
    requires i < |counts| && j < |ToLocal(counts, rep)[i]|
    ensures |ToLocal(counts, rep)[i][j]| == w
  {
    ToLocalRows(counts, rep, i);
  }

  // ---------------------------------------------------------------------
  // in_blocks: the element index and the block layout
  // ---------------------------------------------------------------------

  /** `{e: i for i, e in enumerate(elems)}`: every listed element maps to a
      position where it stands in the list; when an element is listed twice
      the later position overwrites the earlier one. */
  function ElemIndex(elems: seq<int>): (index: map<int, nat>)
    ensures forall e :: e in index <==> e in elems
    ensures forall e :: e in index ==> index[e] < |elems| && elems[index[e]] == e
  {
    if elems == [] then map[]
    else ElemIndex(elems[..|elems| - 1])[elems[|elems| - 1] := |elems| - 1]
  }

  /** The element index keeps the last position of each element. */
  lemma {:induction false} ElemIndexIsLastPosition(elems: seq<int>, k: nat)
    requires k < |elems|
    ensures ElemIndex(elems)[elems[k]] >= k
  {
    var n := |elems| - 1;
    if k < n && elems[n] != elems[k] {
      ElemIndexIsLastPosition(elems[..n], k);
    }
  }

  predicate Distinct(s: seq<int>) {
    forall a, b :: 0 <= a < b < |s| ==> s[a] != s[b]
  }

  /** Without repetitions, an element's index is its position in the list. */
  lemma ElemIndexOfDistinct(elems: seq<int>, k: nat)
    requires Distinct(elems) && k < |elems|
    ensures ElemIndex(elems)[elems[k]] == k
  {
    ElemIndexIsLastPosition(elems, k);
  }

  /** `n_elems` and `elem_idx` of `in_blocks`. */
  datatype Layout = Layout(nElems: nat, index: map<int, nat>)

  /** Every element's block lies among the `nElems` blocks. */
  predicate IndexFits(layout: Layout) {
    forall e :: e in layout.index ==> layout.index[e] < layout.nElems
  }

  /** The layout `in_blocks` chooses: from the explicit element list, or, when
      none is given, from the dataset's `elements` and `total_elements`. */
  function BlockLayout(data: Dataset, elems: Option<seq<int>>): (layout: Layout)
    ensures elems.Some? || data.totalElements == |data.elements| ==> IndexFits(layout)
    ensures data.Valid() ==> layout.nElems == |if elems.Some? then elems.value else data.elements|
  {
    match elems
    case None => Layout(data.totalElements, ElemIndex(data.elements))
    case Some(list) => Layout(|list|, ElemIndex(list))
  }

  /** Block k belongs to the k-th listed element: of the explicit list when
      one is given, of the dataset's element list otherwise; and there are as
      many blocks as listed elements. */
  lemma BlockOfElement(data: Dataset, elems: Option<seq<int>>, k: nat)
    requires data.Valid()
    requires elems.Some? ==> Distinct(elems.value) && k < |elems.value|
    requires elems.None? ==> Distinct(data.elements) && k < |data.elements|
    ensures var list := if elems.Some? then elems.value else data.elements;
      && BlockLayout(data, elems).nElems == |list|
      && BlockLayout(data, elems).index[list[k]] == k
  {
    if elems.Some? {
      ElemIndexOfDistinct(elems.value, k);
    } else {
      ElemIndexOfDistinct(data.elements, k);
    }
  }

  // ---------------------------------------------------------------------
  // in_blocks: the specification
  // ---------------------------------------------------------------------

  /** All rows of a structure have the width of its first row, as the rows of
      a 2-D numpy array do. */
  predicate SameWidth<T>(rows: seq<seq<T>>) {
    forall j :: 0 <= j < |rows| ==> |rows[j]| == |rows[0]|
  }

  predicate Rectangular<T>(rep: seq<seq<seq<T>>>) {
    forall i :: 0 <= i < |rep| ==> SameWidth(rep[i])
  }

  /** Every row of `rep` has an atom in `z` to look its element up from. */
  predicate FitsAtoms<T>(z: seq<seq<int>>, rep: seq<seq<seq<T>>>) {
    |rep| <= |z| && forall i :: 0 <= i < |rep| ==> |rep[i]| <= |z[i]|
  }

  lemma BlockFits(idx: nat, dim: nat, nElems: nat)
    requires idx < nElems
    ensures idx * dim + dim <= dim * nElems
  {
    var rest := nElems - idx - 1;
    assert dim * nElems == dim * (idx + 1 + rest);
    assert dim * (idx + 1 + rest) == idx * dim + dim + rest * dim;
  }

  /** One output row: `dim * nElems` columns, the atom's row in columns
      `[idx * dim, (idx + 1) * dim)` and zero in all the others. */
  function BlockRow<T>(row: seq<T>, dim: nat, idx: nat, nElems: nat, zero: T): (r: seq<T>)
    requires |row| == dim && idx < nElems
    ensures |r| == dim * nElems
  {
    seq(dim * nElems, c requires 0 <= c < dim * nElems =>
      if idx * dim <= c < idx * dim + dim then row[c - idx * dim] else zero)
  }

  /** The block of an output row holds the atom's row unchanged, and every
      column outside it is zero. */
  lemma BlockRowContents<T>(row: seq<T>, dim: nat, idx: nat, nElems: nat, zero: T)
    requires |row| == dim && idx < nElems
    ensures idx * dim + dim <= dim * nElems
    ensures BlockRow(row, dim, idx, nElems, zero)[idx * dim..idx * dim + dim] == row
    ensures forall c :: 0 <= c < dim * nElems && !(idx * dim <= c < idx * dim + dim) ==>
      BlockRow(row, dim, idx, nElems, zero)[c] == zero
  {
    BlockFits(idx, dim, nElems);
  }

  /** The position of the first element of `zs` missing from the index. */
  function FirstUnknown(zs: seq<int>, index: map<int, nat>): (r: Option<nat>)
    ensures r.None? <==> forall j :: 0 <= j < |zs| ==> zs[j] in index
    ensures r.Some? ==>
      && r.value < |zs| && zs[r.value] !in index
      && forall j :: 0 <= j < r.value ==> zs[j] in index
  {
    if zs == [] then None
    else if zs[0] !in index then Some(0)
    else match FirstUnknown(zs[1..], index)
      case None => None
      case Some(j) => Some(j + 1)
  }

  /** One structure of `in_blocks`: an empty structure has no first row to
      take `dim` from; otherwise the first atom whose element has no index
      raises, and if there is none every row goes into its block. */
  function StratifySystem<T>(rows: seq<seq<T>>, zs: seq<int>, layout: Layout, zero: T): Result<seq<seq<T>>>
    requires |rows| <= |zs| && SameWidth(rows) && IndexFits(layout)
  {
    if |rows| == 0 then Err(EmptyStructure)
    else
      var atoms := zs[..|rows|];
      match FirstUnknown(atoms, layout.index)
      case Some(j) => Err(UnknownElement(atoms[j]))
      case None =>
        assert forall e :: e in layout.index ==> layout.index[e] < layout.nElems;
        Ok(seq(|rows|, j requires 0 <= j < |rows| =>
          BlockRow(rows[j], |rows[0]|, layout.index[atoms[j]], layout.nElems, zero)))
  }

  /** All structures of `in_blocks`, in order; the first failing structure
      decides the error. */
  function StratifyAll<T>(rep: seq<seq<seq<T>>>, z: seq<seq<int>>, layout: Layout, zero: T): Result<seq<seq<seq<T>>>>
    requires FitsAtoms(z, rep) && Rectangular(rep) && IndexFits(layout)
  {
    if rep == [] then Ok([])
    else
      var n := |rep| - 1;
      var front :- StratifyAll(rep[..n], z, layout, zero);
      var last :- StratifySystem(rep[n], z[n], layout, zero);
      Ok(front + [last])
  }

  /** What `in_blocks(data, rep, elems)` returns or raises. */
  function Stratified<T>(data: Dataset, rep: seq<seq<seq<T>>>, elems: Option<seq<int>>, zero: T): Result<seq<seq<seq<T>>>>
    requires FitsAtoms(data.z, rep) && Rectangular(rep)
    requires elems.None? ==> data.totalElements == |data.elements|
  {
    StratifyAll(rep, data.z, BlockLayout(data, elems), zero)
  }

  // ---------------------------------------------------------------------
  // in_blocks: properties of the specification
  // ---------------------------------------------------------------------

  /** A structure succeeds exactly when it has atoms and all their elements
      have an index; then it keeps its row count and puts each row into the
      block of its element. */
  lemma StratifySystemCases<T>(rows: seq<seq<T>>, zs: seq<int>, layout: Layout, zero: T)
    requires |rows| <= |zs| && SameWidth(rows) && IndexFits(layout)
    ensures StratifySystem(rows, zs, layout, zero).Ok?
        <==> |rows| > 0 && forall j :: 0 <= j < |rows| ==> zs[j] in layout.index
    ensures |rows| == 0 ==> StratifySystem(rows, zs, layout, zero) == Err(EmptyStructure)
    ensures StratifySystem(rows, zs, layout, zero).Ok? ==>
      var m := StratifySystem(rows, zs, layout, zero).value;
      && |m| == |rows|
      && forall j :: 0 <= j < |rows| ==>
           && zs[j] in layout.index && layout.index[zs[j]] < layout.nElems
           && m[j] == BlockRow(rows[j], |rows[0]|, layout.index[zs[j]], layout.nElems, zero)
    ensures StratifySystem(rows, zs, layout, zero).Err? && |rows| > 0 ==>
      exists j :: 0 <= j < |rows| && zs[j] !in layout.index
        && (forall j' :: 0 <= j' < j ==> zs[j'] in layout.index)
        && StratifySystem(rows, zs, layout, zero) == Err(UnknownElement(zs[j]))
  {
    assert forall e :: e in layout.index ==> layout.index[e] < layout.nElems;
    if |rows| > 0 {
      var atoms := zs[..|rows|];
      assert forall j :: 0 <= j < |rows| ==> atoms[j] == zs[j];
      match FirstUnknown(atoms, layout.index)
      case Some(j) =>
        assert zs[j] !in layout.index;
        assert forall j' :: 0 <= j' < j ==> zs[j'] in layout.index;
      case None =>
    }
  }

  /** An error in the first k structures is the error of the whole call. */
  lemma {:induction false} StratifyAllErrPersists<T>(rep: seq<seq<seq<T>>>, z: seq<seq<int>>, layout: Layout, zero: T, k: nat)
    requires FitsAtoms(z, rep) && Rectangular(rep) && IndexFits(layout) && k <= |rep|
    requires FitsAtoms(z, rep[..k]) && Rectangular(rep[..k])
    requires StratifyAll(rep[..k], z, layout, zero).Err?
    ensures StratifyAll(rep, z, layout, zero) == StratifyAll(rep[..k], z, layout, zero)
    decreases |rep|
  {
    if k < |rep| {
      var n := |rep| - 1;
      assert rep[..n][..k] == rep[..k];
      StratifyAllErrPersists(rep[..n], z, layout, zero, k);
    } else {
      assert rep[..k] == rep;
    }
  }

  /** One structure more appends its result, or its error. */
  lemma StratifyAllStep<T>(rep: seq<seq<seq<T>>>, z: seq<seq<int>>, layout: Layout, zero: T, i: nat, done: seq<seq<seq<T>>>)
    requires FitsAtoms(z, rep) && Rectangular(rep) && IndexFits(layout) && i < |rep|
    requires FitsAtoms(z, rep[..i]) && Rectangular(rep[..i])
    requires FitsAtoms(z, rep[..i + 1]) && Rectangular(rep[..i + 1])
    requires StratifyAll(rep[..i], z, layout, zero) == Ok(done)
    ensures StratifyAll(rep[..i + 1], z, layout, zero)
         == match StratifySystem(rep[i], z[i], layout, zero)
            case Ok(m) => Ok(done + [m])
            case Err(e) => Err(e)
  {
    assert rep[..i + 1][..i] == rep[..i];
  }

  /** The whole call succeeds exactly when every structure does, and then
      structure i of the result is the result of structure i. */
  lemma {:induction false} StratifyAllOutcome<T>(rep: seq<seq<seq<T>>>, z: seq<seq<int>>, layout: Layout, zero: T)
    requires FitsAtoms(z, rep) && Rectangular(rep) && IndexFits(layout)
    ensures StratifyAll(rep, z, layout, zero).Ok?
        <==> forall i :: 0 <= i < |rep| ==> StratifySystem(rep[i], z[i], layout, zero).Ok?
    ensures StratifyAll(rep, z, layout, zero).Ok? ==>
      var out := StratifyAll(rep, z, layout, zero).value;
      && |out| == |rep|
      && forall i :: 0 <= i < |rep| ==> StratifySystem(rep[i], z[i], layout, zero) == Ok(out[i])
    decreases |rep|
  {
    if rep != [] {
      var n := |rep| - 1;
      StratifyAllOutcome(rep[..n], z, layout, zero);
      assert forall i :: 0 <= i < n ==> rep[..n][i] == rep[i];
    }
  }

  /** A failure of the whole call is the error of the first failing
      structure: every structure before it succeeds. */
  lemma {:induction false} StratifyAllFirstError<T>(rep: seq<seq<seq<T>>>, z: seq<seq<int>>, layout: Layout, zero: T)
    requires FitsAtoms(z, rep) && Rectangular(rep) && IndexFits(layout)
    ensures StratifyAll(rep, z, layout, zero).Err? ==>
      exists i :: 0 <= i < |rep|
        && (forall i' :: 0 <= i' < i ==> StratifySystem(rep[i'], z[i'], layout, zero).Ok?)
        && StratifySystem(rep[i], z[i], layout, zero) == Err(StratifyAll(rep, z, layout, zero).error)
    decreases |rep|
  {
    if rep != [] && StratifyAll(rep, z, layout, zero).Err? {
      var n := |rep| - 1;
      var front := StratifyAll(rep[..n], z, layout, zero);
      if front.Err? {
        StratifyAllFirstError(rep[..n], z, layout, zero);
        var i :| 0 <= i < n
          && (forall i' :: 0 <= i' < i ==> StratifySystem(rep[..n][i'], z[i'], layout, zero).Ok?)
          && StratifySystem(rep[..n][i], z[i], layout, zero) == Err(front.error);
        assert forall i' :: 0 <= i' < i ==> rep[..n][i'] == rep[i'];
        assert rep[..n][i] == rep[i];
      } else {
        assert forall i' :: 0 <= i' < n ==> StratifySystem(rep[i'], z[i'], layout, zero).Ok? by {
          StratifyAllOutcome(rep[..n], z, layout, zero);
          assert forall i' :: 0 <= i' < n ==> rep[..n][i'] == rep[i'];
        }
      }
    }
  }

  /** The whole call succeeds exactly when every structure does, and then
      structure i of the result is the result of structure i; a failure is
      the error of the first failing structure. */
  lemma StratifyAllCases<T>(rep: seq<seq<seq<T>>>, z: seq<seq<int>>, layout: Layout, zero: T)
    requires FitsAtoms(z, rep) && Rectangular(rep) && IndexFits(layout)
    ensures StratifyAll(rep, z, layout, zero).Ok?
        <==> forall i :: 0 <= i < |rep| ==> StratifySystem(rep[i], z[i], layout, zero).Ok?
    ensures StratifyAll(rep, z, layout, zero).Ok? ==>
      var out := StratifyAll(rep, z, layout, zero).value;
      && |out| == |rep|
      && forall i :: 0 <= i < |rep| ==> StratifySystem(rep[i], z[i], layout, zero) == Ok(out[i])
    ensures StratifyAll(rep, z, layout, zero).Err? ==>
      exists i :: 0 <= i < |rep|
        && (forall i' :: 0 <= i' < i ==> StratifySystem(rep[i'], z[i'], layout, zero).Ok?)
        && StratifySystem(rep[i], z[i], layout, zero) == Err(StratifyAll(rep, z, layout, zero).error)
  {
    StratifyAllOutcome(rep, z, layout, zero);
    StratifyAllFirstError(rep, z, layout, zero);
  }

  /** `in_blocks` succeeds exactly when every structure has atoms and every
      atom's element has an index; it then keeps the structures and their
      atoms, each atom's row placed in the block of its element. */
  lemma StratifiedCases<T>(data: Dataset, rep: seq<seq<seq<T>>>, elems: Option<seq<int>>, zero: T)
    requires FitsAtoms(data.z, rep) && Rectangular(rep)
    requires elems.None? ==> data.totalElements == |data.elements|
    ensures var layout := BlockLayout(data, elems);
      (Stratified(data, rep, elems, zero).Ok? <==>
       forall i :: 0 <= i < |rep| ==>
         |rep[i]| > 0 && forall j :: 0 <= j < |rep[i]| ==> data.z[i][j] in layout.index)
    ensures Stratified(data, rep, elems, zero).Ok? ==>
      var layout := BlockLayout(data, elems);
      var out := Stratified(data, rep, elems, zero).value;
      && |out| == |rep|
      && forall i :: 0 <= i < |rep| ==>
           && |out[i]| == |rep[i]|
           && forall j :: 0 <= j < |rep[i]| ==>
                && data.z[i][j] in layout.index && layout.index[data.z[i][j]] < layout.nElems
                && out[i][j] == BlockRow(rep[i][j], |rep[i][0]|, layout.index[data.z[i][j]], layout.nElems, zero)
  {
    var layout := BlockLayout(data, elems);
    StratifyAllCases(rep, data.z, layout, zero);
    forall i | 0 <= i < |rep|
      ensures StratifySystem(rep[i], data.z[i], layout, zero).Ok?
        <==> |rep[i]| > 0 && forall j :: 0 <= j < |rep[i]| ==> data.z[i][j] in layout.index
    {
      StratifySystemCases(rep[i], data.z[i], layout, zero);
    }
    if Stratified(data, rep, elems, zero).Ok? {
      var out := Stratified(data, rep, elems, zero).value;
      forall i | 0 <= i < |rep|
        ensures |out[i]| == |rep[i]|
        ensures forall j :: 0 <= j < |rep[i]| ==>
          && data.z[i][j] in layout.index && layout.index[data.z[i][j]] < layout.nElems
          && out[i][j] == BlockRow(rep[i][j], |rep[i][0]|, layout.index[data.z[i][j]], layout.nElems, zero)
      {
        StratifySystemCases(rep[i], data.z[i], layout, zero);
      }
    }
  }

  /** A structure that `in_blocks` accepts: it has atoms, all of whose
      elements have an index. */
  predicate Accepted<T>(rows: seq<seq<T>>, zs: seq<int>, index: map<int, nat>)
    requires |rows| <= |zs|
  {
    |rows| > 0 && forall j :: 0 <= j < |rows| ==> zs[j] in index
  }

  /** The error `in_blocks` raises for a structure it rejects: `IndexError`
      at `rep_system[0]` when it has no atoms, otherwise the `KeyError` of
      its first atom whose element has no index. */
  predicate Rejects<T>(rows: seq<seq<T>>, zs: seq<int>, index: map<int, nat>, e: Error)
    requires |rows| <= |zs|
  {
    || (|rows| == 0 && e == EmptyStructure)
    || exists j :: 0 <= j < |rows| && zs[j] !in index && e == UnknownElement(zs[j])
         && forall j' :: 0 <= j' < j ==> zs[j'] in index
  }

  /** A structure that succeeds is accepted. */
  lemma SystemOk<T>(rows: seq<seq<T>>, zs: seq<int>, layout: Layout, zero: T)
    requires |rows| <= |zs| && SameWidth(rows) && IndexFits(layout)
    requires StratifySystem(rows, zs, layout, zero).Ok?
    ensures Accepted(rows, zs, layout.index)
  {
    StratifySystemCases(rows, zs, layout, zero);
  }

  /** A structure that fails is rejected with its error. */
  lemma SystemErr<T>(rows: seq<seq<T>>, zs: seq<int>, layout: Layout, zero: T)
    requires |rows| <= |zs| && SameWidth(rows) && IndexFits(layout)
    requires StratifySystem(rows, zs, layout, zero).Err?
    ensures Rejects(rows, zs, layout.index, StratifySystem(rows, zs, layout, zero).error)
  {
    StratifySystemCases(rows, zs, layout, zero);
  }

  /** `StratifiedErrors` for a given layout. */
  lemma StratifyAllErrors<T>(rep: seq<seq<seq<T>>>, z: seq<seq<int>>, layout: Layout, zero: T)
    requires FitsAtoms(z, rep) && Rectangular(rep) && IndexFits(layout)
    ensures StratifyAll(rep, z, layout, zero).Err? ==>
      exists i :: 0 <= i < |rep|
        && (forall i' :: 0 <= i' < i ==> Accepted(rep[i'], z[i'], layout.index))
        && Rejects(rep[i], z[i], layout.index, StratifyAll(rep, z, layout, zero).error)
  {
    if StratifyAll(rep, z, layout, zero).Err? {
      var e := StratifyAll(rep, z, layout, zero).error;
      StratifyAllFirstError(rep, z, layout, zero);
      var i :| 0 <= i < |rep|
        && (forall i' :: 0 <= i' < i ==> StratifySystem(rep[i'], z[i'], layout, zero).Ok?)
        && StratifySystem(rep[i], z[i], layout, zero) == Err(e);
      forall i' | 0 <= i' < i
        ensures Accepted(rep[i'], z[i'], layout.index)
      {
        SystemOk(rep[i'], z[i'], layout, zero);
      }
      SystemErr(rep[i], z[i], layout, zero);
    }
  }

  /** The two errors of `in_blocks`, raised by the first failing structure,
      every earlier one being accepted: `EmptyStructure` when it has no
      atoms, otherwise `UnknownElement(e)` for its first atom whose element
      e has no index. */
  lemma StratifiedErrors<T>(data: Dataset, rep: seq<seq<seq<T>>>, elems: Option<seq<int>>, zero: T)
    requires FitsAtoms(data.z, rep) && Rectangular(rep)
    requires elems.None? ==> data.totalElements == |data.elements|
    ensures Stratified(data, rep, elems, zero).Err? ==>
      var index := BlockLayout(data, elems).index;
      exists i :: 0 <= i < |rep|
        && (forall i' :: 0 <= i' < i ==> Accepted(rep[i'], data.z[i'], index))
        && Rejects(rep[i], data.z[i], index, Stratified(data, rep, elems, zero).error)
  {
    StratifyAllErrors(rep, data.z, BlockLayout(data, elems), zero);
  }

  /** With an explicit list of distinct elements, the atom rows of an element
      listed at position k occupy columns `[k * dim, (k + 1) * dim)` of the
      output, and every other column is zero. */
  lemma StratifiedByElement<T>(data: Dataset, rep: seq<seq<seq<T>>>, elems: seq<int>, zero: T,
                               out: seq<seq<seq<T>>>, i: nat, j: nat, k: nat)
    requires FitsAtoms(data.z, rep) && Rectangular(rep)
    requires Distinct(elems) && k < |elems|
    requires Stratified(data, rep, Some(elems), zero) == Ok(out)
    requires i < |rep| && j < |rep[i]| && data.z[i][j] == elems[k]
    ensures |out| == |rep| && |out[i]| == |rep[i]|
    ensures |out[i][j]| == |rep[i][0]| * |elems| && k * |rep[i][0]| + |rep[i][0]| <= |out[i][j]|
    ensures out[i][j][k * |rep[i][0]|..k * |rep[i][0]| + |rep[i][0]|] == rep[i][j]
    ensures forall c :: 0 <= c < |out[i][j]| && !(k * |rep[i][0]| <= c < k * |rep[i][0]| + |rep[i][0]|) ==>
      out[i][j][c] == zero
  {
    StratifiedRowOfElement(data, rep, elems, zero, out, i, j, k);
    BlockRowContents(rep[i][j], |rep[i][0]|, k, |elems|, zero);
  }

  /** With an explicit list of distinct elements, the output row of an atom
      whose element is listed at position k is the block row of block k. */
  lemma StratifiedRowOfElement<T>(data: Dataset, rep: seq<seq<seq<T>>>, elems: seq<int>, zero: T,
                                  out: seq<seq<seq<T>>>, i: nat, j: nat, k: nat)
    requires FitsAtoms(data.z, rep) && Rectangular(rep)
    requires Distinct(elems) && k < |elems|
    requires Stratified(data, rep, Some(elems), zero) == Ok(out)
    requires i < |rep| && j < |rep[i]| && data.z[i][j] == elems[k]
    ensures |out| == |rep| && |out[i]| == |rep[i]|
    ensures |rep[i][j]| == |rep[i][0]|
    ensures out[i][j] == BlockRow(rep[i][j], |rep[i][0]|, k, |elems|, zero)
  {
    var layout := BlockLayout(data, Some(elems));
    var dim := |rep[i][0]|;
    assert layout.index[elems[k]] == k && layout.nElems == |elems| by {
      ElemIndexOfDistinct(elems, k);
    }
    assert |out| == |rep| && |out[i]| == |rep[i]| && out[i][j] == BlockRow(rep[i][j], dim, k, |elems|, zero) by {
      StratifiedCases(data, rep, Some(elems), zero);
    }
  }

  /** `StratifiedRowOfElement` for a row given by its value. */
  lemma StratifiedRowIs<T>(data: Dataset, rep: seq<seq<seq<T>>>, elems: seq<int>, zero: T,
                           out: seq<seq<seq<T>>>, i: nat, j: nat, k: nat, row: seq<T>)
    requires FitsAtoms(data.z, rep) && Rectangular(rep)
    requires Distinct(elems) && k < |elems|
    requires Stratified(data, rep, Some(elems), zero) == Ok(out)
    requires i < |rep| && j < |rep[i]| && data.z[i][j] == elems[k] && rep[i][j] == row
    ensures |out| == |rep| && |out[i]| == |rep[i]|
    ensures out[i][j] == BlockRow(row, |row|, k, |elems|, zero)
  {
    StratifiedRowOfElement(data, rep, elems, zero, out, i, j, k);
  }

  /** Stratifying the `to_local` array of a flat array whose rows the counts
      exactly cover: atom j of structure i, whose row is row
      `Sum(counts[..i]) + j` of the flat array, becomes that row's block row. */
  lemma StratifiedFlatRow<T>(data: Dataset, rep: seq<seq<T>>, elems: seq<int>, zero: T,
                             out: seq<seq<seq<T>>>, i: nat, j: nat, k: nat)
    requires Sum(data.counts) == |rep|
    requires FitsAtoms(data.z, ToLocal(data.counts, rep)) && Rectangular(ToLocal(data.counts, rep))
    requires Distinct(elems) && k < |elems|
    requires Stratified(data, ToLocal(data.counts, rep), Some(elems), zero) == Ok(out)
    requires i < |data.counts| && j < data.counts[i]
    requires i < |data.z| && j < |data.z[i]| && data.z[i][j] == elems[k]
    ensures |out| == |data.counts| && |out[i]| == data.counts[i]
    ensures Sum(data.counts[..i]) + j < |rep|
    ensures out[i][j] == BlockRow(rep[Sum(data.counts[..i]) + j], |rep[Sum(data.counts[..i]) + j]|, k, |elems|, zero)
  {
    ToLocalCell(data.counts, rep, i, j);
    StratifiedRowIs(data, ToLocal(data.counts, rep), elems, zero, out, i, j, k, rep[Sum(data.counts[..i]) + j]);
  }

  // ---------------------------------------------------------------------
  // in_blocks: the procedure
  // ---------------------------------------------------------------------

  /** `new[j, offset:offset + len(row)] = row`: row j of the buffer takes the
      atom's row from column `offset` on; no other cell changes. */
  method CopyIntoBlock<T>(blocks: array2<T>, j: nat, offset: nat, row: seq<T>)
    requires j < blocks.Length0 && offset + |row| <= blocks.Length1
    modifies blocks
    ensures forall r, c :: 0 <= r < blocks.Length0 && 0 <= c < blocks.Length1 ==>
      blocks[r, c] == if r == j && offset <= c < offset + |row| then row[c - offset] else old(blocks[r, c])
  {
    for k := 0 to |row|
      invariant forall r, c :: 0 <= r < blocks.Length0 && 0 <= c < blocks.Length1 ==>
        blocks[r, c] == if r == j && offset <= c < offset + k then row[c - offset] else old(blocks[r, c])
    {
      blocks[j, offset + k] := row[k];
    }
  }

  /** The contents of a buffer, row by row. */
  function Rows<T>(blocks: array2<T>): (m: seq<seq<T>>)
    reads blocks
    ensures |m| == blocks.Length0
    ensures forall r :: 0 <= r < |m| ==> |m[r]| == blocks.Length1
    ensures forall r, c :: 0 <= r < blocks.Length0 && 0 <= c < blocks.Length1 ==> m[r][c] == blocks[r, c]
  {
    seq(blocks.Length0, r requires 0 <= r < blocks.Length0 reads blocks =>
      seq(blocks.Length1, c requires 0 <= c < blocks.Length1 reads blocks => blocks[r, c]))
  }

  /** A structure whose atoms before j all have an index while atom j has
      none fails with atom j's element. */
  lemma FirstUnknownDecides<T>(rows: seq<seq<T>>, zs: seq<int>, layout: Layout, zero: T, j: nat)
    requires |rows| <= |zs| && SameWidth(rows) && IndexFits(layout)
    requires j < |rows| && zs[j] !in layout.index
    requires forall r :: 0 <= r < j ==> zs[r] in layout.index
    ensures StratifySystem(rows, zs, layout, zero) == Err(UnknownElement(zs[j]))
  {
    var atoms := zs[..|rows|];
    assert forall r :: 0 <= r < |rows| ==> atoms[r] == zs[r];
    var first := FirstUnknown(atoms, layout.index);
    assert first.Some?;
    assert !(first.value < j) && !(first.value > j);
  }

  /** A structure whose atoms all have an index yields, row by row, the
      block rows of its atoms. */
  lemma AllKnownDecides<T>(rows: seq<seq<T>>, zs: seq<int>, layout: Layout, zero: T, m: seq<seq<T>>)
    requires |rows| <= |zs| && SameWidth(rows) && IndexFits(layout) && |rows| > 0
    requires forall r :: 0 <= r < |rows| ==> zs[r] in layout.index && layout.index[zs[r]] < layout.nElems
    requires |m| == |rows|
    requires forall r :: 0 <= r < |rows| ==>
      m[r] == BlockRow(rows[r], |rows[0]|, layout.index[zs[r]], layout.nElems, zero)
    ensures StratifySystem(rows, zs, layout, zero) == Ok(m)
  {
    StratifySystemCases(rows, zs, layout, zero);
    var v := StratifySystem(rows, zs, layout, zero).value;
    assert StratifySystem(rows, zs, layout, zero).Ok?;
    assert |v| == |m| && forall r :: 0 <= r < |m| ==> v[r] == m[r];
    assert v == m;
  }

  /** The body of the outer loop of `in_blocks` for one structure: take `dim`
      from the first row, allocate the zero buffer, and copy each atom's row
      into the block of its element, raising on the first unknown element. */
  method FillSystem<T>(rows: seq<seq<T>>, zs: seq<int>, layout: Layout, zero: T) returns (result: Result<seq<seq<T>>>)
    requires |rows| <= |zs| && SameWidth(rows) && IndexFits(layout)
    ensures result == StratifySystem(rows, zs, layout, zero)
  {
    if |rows| == 0 {
      return Err(EmptyStructure);
    }
    var dim := |rows[0]|;
    var width := dim * layout.nElems;
    var blocks := new T[|rows|, width]((_, _) => zero);
    assert forall e :: e in layout.index ==> layout.index[e] < layout.nElems;
    for j := 0 to |rows|
      invariant forall r :: 0 <= r < j ==> zs[r] in layout.index && layout.index[zs[r]] < layout.nElems
      invariant forall r, c :: 0 <= r < j && 0 <= c < width ==>
        blocks[r, c] == BlockRow(rows[r], dim, layout.index[zs[r]], layout.nElems, zero)[c]
      invariant forall r, c :: j <= r < |rows| && 0 <= c < width ==> blocks[r, c] == zero
    {
      if zs[j] !in layout.index {
        FirstUnknownDecides(rows, zs, layout, zero, j);
        return Err(UnknownElement(zs[j]));
      }
      var idx := layout.index[zs[j]];
      BlockFits(idx, dim, layout.nElems);
      CopyIntoBlock(blocks, j, idx * dim, rows[j]);
    }
    var m := Rows(blocks);
    assert forall r :: 0 <= r < |rows| ==>
      m[r] == BlockRow(rows[r], dim, layout.index[zs[r]], layout.nElems, zero);
    AllKnownDecides(rows, zs, layout, zero, m);
    return Ok(m);
  }

  /** `in_blocks(data, rep, elems)`: the structures one after another, each
      appended to `all_new`; the first failing structure ends the call. */
  method InBlocks<T>(data: Dataset, rep: seq<seq<seq<T>>>, elems: Option<seq<int>>, zero: T)
    returns (result: Result<seq<seq<seq<T>>>>)
    requires FitsAtoms(data.z, rep) && Rectangular(rep)
    requires elems.None? ==> data.totalElements == |data.elements|
    ensures result == Stratified(data, rep, elems, zero)
  {
    var layout := BlockLayout(data, elems);
    var allNew: seq<seq<seq<T>>> := [];
    for i := 0 to |rep|
      invariant FitsAtoms(data.z, rep[..i]) && Rectangular(rep[..i])
      invariant StratifyAll(rep[..i], data.z, layout, zero) == Ok(allNew)
    {
      assert FitsAtoms(data.z, rep[..i + 1]) && Rectangular(rep[..i + 1]);
      var system := FillSystem(rep[i], data.z[i], layout, zero);
      StratifyAllStep(rep, data.z, layout, zero, i, allNew);
      if system.Err? {
        StratifyAllErrPersists(rep, data.z, layout, zero, i + 1);
        return Err(system.error);
      }
      allNew := allNew + [system.value];
    }
    assert rep[..|rep|] == rep;
    return Ok(allNew);
  }
}
