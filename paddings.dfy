/** The two spacer heights the table derives from the virtual items: the
    space above the first rendered row and the space below the last, so that
    spacers and rendered rows together are as tall as the whole list. */
module Paddings {
  import opened VirtualItems

  /** `[paddingTop, paddingBottom]`, in pixels. */
  datatype PaddingPair = PaddingPair(top: int, bottom: int)

  /** `Math.max(0, x)`. */
  function ClampAtZero(x: int): (r: int)
    ensures r >= 0 && r >= x
    ensures r == x || r == 0
  {
    if x > 0 then x else 0
  }

  /** The padding pair computed from the virtual items and `getTotalSize()`.
      The spacer above is as tall as the first item's start and the spacer
      below as tall as what is left under the last item's end, neither below 0,
      and an empty list gets no padding at all. */
  function ComputePaddings(items: seq<VirtualItem>, totalSize: int): (p: PaddingPair)
    ensures p.top >= 0 && p.bottom >= 0
    ensures |items| == 0 ==> p.top == 0 && p.bottom == 0
    ensures |items| > 0 && items[0].start >= 0 ==> p.top == items[0].start
    ensures |items| > 0 && items[0].start <= 0 ==> p.top == 0
    ensures |items| > 0 && items[|items| - 1].end <= totalSize ==>
      p.bottom == totalSize - items[|items| - 1].end
    ensures |items| > 0 && items[|items| - 1].end >= totalSize ==> p.bottom == 0
  {
    if |items| > 0 then
      PaddingPair(
        ClampAtZero(items[0].start),
        ClampAtZero(totalSize - items[|items| - 1].end))
    else
      PaddingPair(0, 0)
  }

  /** For a window of a uniform table, the spacers and the rendered items
      together are exactly as tall as the table (neither clamp is needed),
      and this holds precisely when the window is non-empty or the table is:
      an empty window of a non-empty table leaves the scroll height at 0. */
  lemma {:induction false} PaddingsSpanTotal(items: seq<VirtualItem>, count: nat)
    requires UniformWindow(items, count)
    ensures var p := ComputePaddings(items, TotalSize(count));
      (p.top + Span(items) + p.bottom == TotalSize(count)) <==> (|items| > 0 || count == 0)
    ensures var p := ComputePaddings(items, TotalSize(count));
      |items| > 0 ==>
        && p.top == Offset(items[0].index)
        && p.bottom == TotalSize(count) - Offset(items[|items| - 1].index + 1)
  {
    if |items| > 0 {
      var first := items[0].index;
      var n := |items|;
      SpanOfUniformRun(items, first);
      assert items[n - 1].index == first + n - 1;
      assert Offset(first) + EstimateSize * n + (TotalSize(count) - Offset(first + n)) == TotalSize(count);
    }
  }

  /** The bottom clamp fires only for stale items: when the count shrinks
      below the end of a window computed for a larger count, the bottom padding
      is clamped to 0 and the padding arithmetic overshoots the new total.
      Rendering such a window throws, since its last position has no row
      (TableBody.ClampFiresOnlyWhenRenderFails), so no taller body is shown. */
  lemma {:induction false} StaleWindowClampsBottom(items: seq<VirtualItem>, oldCount: nat, newCount: nat)
    requires UniformWindow(items, oldCount)
    requires |items| > 0 && newCount <= items[|items| - 1].index
    ensures var p := ComputePaddings(items, TotalSize(newCount));
      p.bottom == 0 && p.top + Span(items) + p.bottom > TotalSize(newCount)
  {
    var first := items[0].index;
    var n := |items|;
    SpanOfUniformRun(items, first);
    assert items[n - 1].index == first + n - 1;
  }
}
