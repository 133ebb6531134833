/** The part of a cmlkit `Dataset` that the modelled code reads. */
module Datasets {

  /** A collection of structures.
      - counts: `info["atoms_by_system"]`, the number of atoms of each structure;
      - z: `z[i][j]`, the element (atomic number) of atom j of structure i;
      - elements: `info["elements"]`, the elements that occur in the collection;
      - totalElements: `info["total_elements"]`;
      - hasCell: whether the cell `b` is present (periodic structures). */
  datatype Dataset = Dataset(
    counts: seq<nat>,
    z: seq<seq<int>>,
    elements: seq<int>,
    totalElements: nat,
    hasCell: bool)
  {
    /** The consistency cmlkit keeps between these fields: one element per
        atom, one count per structure, and `total_elements` the length of
        `elements`. */
    predicate Valid() {
      && |z| == |counts|
      && (forall i :: 0 <= i < |z| ==> |z[i]| == counts[i])
      && totalElements == |elements|
    }
  }
}
