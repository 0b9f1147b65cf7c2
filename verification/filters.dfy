/**
  The fixed catalog of image filters the frame offers, one button per filter.
  The filter algorithms themselves are not part of this model: a filter is a
  tag, and applying it is an opaque function supplied by the caller.
 */
module Filters {

  /** The seven filter classes the frame instantiates. */
  datatype Filter =
    | EdgeDetect
    | EdgeHighlight
    | FlipHorizontal
    | FlipVertical
    | Grayscale
    | Sharpen
    | Soften

  /** The filter list, in the order the constructor builds it and the filter panel shows it. */
  const Catalog: seq<Filter> :=
    [EdgeDetect, EdgeHighlight, FlipHorizontal, FlipVertical, Grayscale, Sharpen, Soften]

  /** The number of rows of the filter panel's grid. */
  const FilterRows: nat := 7

  /**
    The position of a filter's button. It stands in for the lookup of the
    filter in the frame's filter-to-button map, which is keyed by the filter
    itself, and matches the order in which the filter panel adds the
    buttons. Every filter has exactly one.
   */
  function ButtonIndex(f: Filter): (i: nat)
    ensures i < |Catalog| && Catalog[i] == f
    ensures forall j :: 0 <= j < |Catalog| && Catalog[j] == f ==> j == i
  {
    match f
    case EdgeDetect => 0
    case EdgeHighlight => 1
    case FlipHorizontal => 2
    case FlipVertical => 3
    case Grayscale => 4
    case Sharpen => 5
    case Soften => 6
  }

  /** The catalog lists every filter exactly once and fills the panel's seven rows. */
  lemma CatalogIsComplete()
    ensures |Catalog| == FilterRows
    ensures forall i, j :: 0 <= i < j < |Catalog| ==> Catalog[i] != Catalog[j]
    ensures forall f: Filter :: f in Catalog
  {
    forall f: Filter
      ensures f in Catalog
    {
      var i := ButtonIndex(f);
      assert Catalog[i] == f;
    }
  }
}
