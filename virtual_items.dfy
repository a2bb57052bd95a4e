/** The virtual items the windowing library hands to the table, and the
    offset table they come from when every row has the fixed height estimate.
    The windowing engine itself is not part of this model: its output is an
    input here, and the predicates below state what is assumed of it. */
module VirtualItems {

  /** Estimated height in pixels of every row (the `estimateSize` option). */
  const EstimateSize: int := 54

  /** One entry of `getVirtualItems()`: the row position, the key the item was
      given, and its pixel extent, from `start` up to `end`. */
  datatype VirtualItem = VirtualItem(index: nat, key: string, start: int, end: int)

  /** Start offset of row `i` in an offset table where every row is EstimateSize tall. */
  function Offset(i: int): int
  {
    EstimateSize * i
  }

  /** `getTotalSize()` of a uniform table of `count` rows. */
  function TotalSize(count: nat): int
  {
    Offset(count)
  }

  /** The items sit at the consecutive positions first, first + 1, ..., each
      at its offsets in the uniform table. */
  predicate UniformRun(items: seq<VirtualItem>, first: nat)
  {
    forall k :: 0 <= k < |items| ==>
      && items[k].index == first + k
      && items[k].start == Offset(first + k)
      && items[k].end == Offset(first + k + 1)
  }

  /** What the windowing engine promises for a uniform table of `count` rows:
      the items form a contiguous ascending run of positions inside [0, count). */
  predicate UniformWindow(items: seq<VirtualItem>, count: nat)
  {
    |items| > 0 ==> UniformRun(items, items[0].index) && items[|items| - 1].index < count
  }

  /** Height taken by the rendered items: the sum of `end - start` over them. */
  function Span(items: seq<VirtualItem>): int
  {
    if |items| == 0 then 0 else (items[0].end - items[0].start) + Span(items[1..])
  }

  /** Every item of a window is a position of the table. */
  lemma WindowIndicesInRange(items: seq<VirtualItem>, count: nat)
    requires UniformWindow(items, count)
    ensures forall k :: 0 <= k < |items| ==> items[k].index < count
  {
  }

  /** A run of n uniform rows is n estimates tall. */
  lemma {:induction false} SpanOfUniformRun(items: seq<VirtualItem>, first: nat)
    requires UniformRun(items, first)
    ensures Span(items) == EstimateSize * |items|
  {
    if |items| > 0 {
      assert forall k :: 0 <= k < |items| - 1 ==> items[1..][k] == items[k + 1];
      assert UniformRun(items[1..], first + 1);
      SpanOfUniformRun(items[1..], first + 1);
    }
  }
}
