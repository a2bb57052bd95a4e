/** The table body as the component lays it out: an optional spacer row of
    height paddingTop, one data row per virtual item (keyed by the item's key
    and showing the record found at the item's position), and an optional
    spacer row of height paddingBottom. Cells, headers and styling are not
    modelled; a data row is reduced to its key, its record id and the height
    the virtualizer reserved for it. */
module TableBody {
  import opened VirtualItems
  import opened KeyBinder
  import opened Paddings

  datatype BodyRow =
    | Spacer(height: int)
    | DataRow(key: string, id: string, height: int)

  /** The body rows, or the first virtual item whose position has no row:
      rendering it reads a method of `undefined` and throws. */
  datatype RenderResult =
    | Rendered(body: seq<BodyRow>)
    | MissingRow(index: nat)

  /** A spacer row is emitted only for a strictly positive padding. */
  predicate ShowSpacer(padding: int)
  {
    padding > 0
  }

  /** Every item's position has a row. */
  predicate AllRowsPresent(items: seq<VirtualItem>, ids: seq<string>)
  {
    forall k :: 0 <= k < |items| ==> items[k].index < |ids|
  }

  /** One data row per virtual item, in order, each showing the record at the
      item's position; the first item without a row aborts the rendering. */
  function RenderRows(items: seq<VirtualItem>, ids: seq<string>): (r: RenderResult)
    ensures r.Rendered? <==> AllRowsPresent(items, ids)
    ensures r.Rendered? ==> |r.body| == |items|
    ensures r.Rendered? ==> forall k :: 0 <= k < |items| ==>
      r.body[k] == DataRow(items[k].key, ids[items[k].index], items[k].end - items[k].start)
    ensures r.MissingRow? ==>
      (exists k :: 0 <= k < |items| && items[k].index == r.index && r.index >= |ids| &&
         AllRowsPresent(items[..k], ids))
  {
    if |items| == 0 then Rendered([])
    else if items[0].index >= |ids| then
      assert AllRowsPresent(items[..0], ids);
      MissingRow(items[0].index)
    else
      var row := DataRow(items[0].key, ids[items[0].index], items[0].end - items[0].start);
      match RenderRows(items[1..], ids)
      case MissingRow(i) =>
        assert forall k :: 0 <= k < |items| - 1 ==> items[1..][k] == items[k + 1];
        ghost var k :| 0 <= k < |items| - 1 && items[1..][k].index == i && i >= |ids| &&
          AllRowsPresent(items[1..][..k], ids);
        assert items[..k + 1] == [items[0]] + items[1..][..k];
        MissingRow(i)
      case Rendered(rest) =>
        assert forall k :: 0 <= k < |items| - 1 ==> items[1..][k] == items[k + 1];
        Rendered([row] + rest)
  }

  /** The rendered `<tbody>`: spacer above, data rows, spacer below. */
  function RenderBody(items: seq<VirtualItem>, ids: seq<string>, totalSize: int): (r: RenderResult)
    ensures r.Rendered? <==> AllRowsPresent(items, ids)
  {
    var p := ComputePaddings(items, totalSize);
    match RenderRows(items, ids)
    case MissingRow(i) => MissingRow(i)
    case Rendered(rows) =>
      Rendered(
        (if ShowSpacer(p.top) then [Spacer(p.top)] else [])
        + rows
        + (if ShowSpacer(p.bottom) then [Spacer(p.bottom)] else []))
  }

  /** Height of the body: the sum of its rows' heights. */
  function BodyHeight(body: seq<BodyRow>): int
  {
    if |body| == 0 then 0 else body[0].height + BodyHeight(body[1..])
  }

  lemma {:induction false} BodyHeightAppend(a: seq<BodyRow>, b: seq<BodyRow>)
    ensures BodyHeight(a + b) == BodyHeight(a) + BodyHeight(b)
  {
    if |a| > 0 {
      assert (a + b)[1..] == a[1..] + b;
      BodyHeightAppend(a[1..], b);
    } else {
      assert a + b == b;
    }
  }

  /** The data rows are as tall as the items they render. */
  lemma {:induction false} RowsHeightIsSpan(items: seq<VirtualItem>, ids: seq<string>)
    requires RenderRows(items, ids).Rendered?
    ensures BodyHeight(RenderRows(items, ids).body) == Span(items)
  {
    if |items| > 0 {
      assert RenderRows(items, ids).body[1..] == RenderRows(items[1..], ids).body;
      RowsHeightIsSpan(items[1..], ids);
    }
  }

  /** The spacer layout of the body around data rows, for any two paddings. */
  lemma SpacedLayout(rows: seq<BodyRow>, top: int, bottom: int)
    requires forall k :: 0 <= k < |rows| ==> rows[k].DataRow?
    requires |rows| == 0 ==> top <= 0 && bottom <= 0
    ensures var body := (if ShowSpacer(top) then [Spacer(top)] else []) + rows
                          + (if ShowSpacer(bottom) then [Spacer(bottom)] else []);
      && ((|body| > 0 && body[0].Spacer?) <==> top > 0)
      && ((|body| > 0 && body[|body| - 1].Spacer?) <==> bottom > 0)
      && (forall k :: 0 <= k < |body| && body[k].Spacer? ==> body[k].height > 0)
      && |body| == |rows| + (if top > 0 then 1 else 0) + (if bottom > 0 then 1 else 0)
      && (top > 0 ==> body[0] == Spacer(top))
      && (bottom > 0 ==> body[|body| - 1] == Spacer(bottom))
      && body[(if top > 0 then 1 else 0)..|body| - (if bottom > 0 then 1 else 0)] == rows
  {
    var above: seq<BodyRow> := if ShowSpacer(top) then [Spacer(top)] else [];
    var below: seq<BodyRow> := if ShowSpacer(bottom) then [Spacer(bottom)] else [];
    var body := above + rows + below;
    assert body[|above|..|body| - |below|] == rows;
  }

  /** A leading spacer is emitted exactly when paddingTop is strictly
      positive, a trailing one exactly when paddingBottom is, each spacer is as
      tall as its padding (so never 0 or less), and the rows between them are
      the items' data rows, one per item. */
  lemma SpacersExactlyWhenPositive(items: seq<VirtualItem>, ids: seq<string>, totalSize: int)
    requires AllRowsPresent(items, ids)
    ensures var p := ComputePaddings(items, totalSize);
      var body := RenderBody(items, ids, totalSize).body;
      && ((|body| > 0 && body[0].Spacer?) <==> p.top > 0)
      && ((|body| > 0 && body[|body| - 1].Spacer?) <==> p.bottom > 0)
      && (forall k :: 0 <= k < |body| && body[k].Spacer? ==> body[k].height > 0)
      && |body| == |items| + (if p.top > 0 then 1 else 0) + (if p.bottom > 0 then 1 else 0)
      && (p.top > 0 ==> body[0] == Spacer(p.top))
      && (p.bottom > 0 ==> body[|body| - 1] == Spacer(p.bottom))
      && body[(if p.top > 0 then 1 else 0)..|body| - (if p.bottom > 0 then 1 else 0)]
           == RenderRows(items, ids).body
  {
    var p := ComputePaddings(items, totalSize);
    var rows := RenderRows(items, ids).body;
    assert RenderBody(items, ids, totalSize).body
      == (if ShowSpacer(p.top) then [Spacer(p.top)] else []) + rows
         + (if ShowSpacer(p.bottom) then [Spacer(p.bottom)] else []);
    SpacedLayout(rows, p.top, p.bottom);
  }

  /** When the count handed to the virtualizer is `ids.length` and the items
      are a window of that table, every item's position is a valid row. */
  lemma WindowRendersEveryRow(items: seq<VirtualItem>, ids: seq<string>, totalSize: int)
    requires UniformWindow(items, |ids|)
    ensures RenderBody(items, ids, totalSize).Rendered?
  {
    WindowIndicesInRange(items, |ids|);
  }

  /** For a non-empty window of a uniform table, a padding clamp fires
      exactly when the render throws: the window reaches past the rows now
      handed to the table (a window left over from a larger count), so its
      last lookup finds no row. A clamped padding is therefore never shown. */
  lemma {:induction false} ClampFiresOnlyWhenRenderFails(items: seq<VirtualItem>, oldCount: nat, ids: seq<string>)
    requires UniformWindow(items, oldCount)
    requires |items| > 0
    ensures var last := items[|items| - 1];
      (items[0].start < 0 || TotalSize(|ids|) - last.end < 0)
        <==> RenderBody(items, ids, TotalSize(|ids|)).MissingRow?
  {
    var n := |items|;
    var first := items[0].index;
    assert items[n - 1].index == first + n - 1;
    if !AllRowsPresent(items, ids) {
      var k :| 0 <= k < n && items[k].index >= |ids|;
      assert items[k].index == first + k;
    }
  }

  /** When the items were keyed by the binder over the rows being rendered,
      every data row carries the id of the record it shows as its key. */
  lemma RenderedKeysFollowRecords(items: seq<VirtualItem>, ids: seq<string>, totalSize: int)
    requires forall k :: 0 <= k < |items| ==> items[k].key == KeyFor(ids, items[k].index)
    requires RenderBody(items, ids, totalSize).Rendered?
    ensures var body := RenderBody(items, ids, totalSize).body;
      forall k :: 0 <= k < |body| && body[k].DataRow? ==> body[k].key == body[k].id
  {
    var p := ComputePaddings(items, totalSize);
    var rows := RenderRows(items, ids).body;
    var above: seq<BodyRow> := if ShowSpacer(p.top) then [Spacer(p.top)] else [];
    var below: seq<BodyRow> := if ShowSpacer(p.bottom) then [Spacer(p.bottom)] else [];
    var body := above + rows + below;
    assert RenderBody(items, ids, totalSize).body == body;
    forall k | 0 <= k < |body| && body[k].DataRow?
      ensures body[k].key == body[k].id
    {
      if |above| <= k < |above| + |rows| {
        assert body[k] == rows[k - |above|];
      }
    }
  }

  /** The purpose of the spacers: for a non-empty window of a uniform table
      (or an empty table), the rendered body is exactly as tall as
      `getTotalSize()`, so the scroll bar spans the whole list. */
  lemma BodySpansScrollHeight(items: seq<VirtualItem>, ids: seq<string>)
    requires UniformWindow(items, |ids|)
    requires |items| > 0 || |ids| == 0
    ensures RenderBody(items, ids, TotalSize(|ids|)).Rendered?
    ensures BodyHeight(RenderBody(items, ids, TotalSize(|ids|)).body) == TotalSize(|ids|)
  {
    var total := TotalSize(|ids|);
    WindowRendersEveryRow(items, ids, total);
    var p := ComputePaddings(items, total);
    var rows := RenderRows(items, ids).body;
    var above: seq<BodyRow> := if ShowSpacer(p.top) then [Spacer(p.top)] else [];
    var below: seq<BodyRow> := if ShowSpacer(p.bottom) then [Spacer(p.bottom)] else [];
    assert RenderBody(items, ids, total).body == above + rows + below;
    BodyHeightAppend(above + rows, below);
    BodyHeightAppend(above, rows);
    RowsHeightIsSpan(items, ids);
    assert BodyHeight(above) == p.top;
    assert BodyHeight(below) == p.bottom;
    PaddingsSpanTotal(items, |ids|);
  }
}
