# Fixed-height virtualised table: spacers and row keys

This project models the part of the `FixedHeightTable` React component
(`examples/react/virtualized-rows/src/FixedHeightTable.tsx`) that is the
component's own logic, not the logic of the libraries it uses. The component
shows a large, sortable table in a 500-pixel scroll container. It renders only
the rows the windowing library (`useVirtualizer`) reports as visible. It puts
two spacer rows around them so that the scroll bar still spans the whole list.

The model covers:

- **Virtual items** (`virtual_items.dfy`, module `VirtualItems`): the
  `{ index, key, start, end }` items the virtualizer returns, and the uniform
  offset table they come from. Every row is estimated at 54 pixels, so row `i`
  starts at `54 * i` and the total size is `54 * count`. The windowing engine
  is not modelled. Its output is an input here, and the predicate
  `UniformWindow` states what is assumed of it: a contiguous ascending run of
  positions inside `[0, count)`, each placed at its uniform offsets.
- **Key binder** (`key_binder.dfy`, module `KeyBinder`): `getItemKey(index)`
  is the string form of `rows[index]?.id`. It is the row's id for a position
  of the table and the string `"undefined"` for any other position. A
  reordering, such as a sort, is modelled as an injective map of positions.
  The lemmas show that the count does not change, that the key at each
  position is the id of the record now there, and that every record is still
  keyed at its new position.
- **Paddings** (`paddings.dfy`, module `Paddings`): `paddingTop` is the first
  item's start and `paddingBottom` is the total size minus the last item's
  end. Each is clamped at 0, and both are 0 for an empty list. For a window of
  a uniform table, top spacer + items + bottom spacer is exactly the total
  size. This holds if and only if the window is non-empty or the table is
  empty. For such a window the bottom clamp fires only when the window is
  stale, that is, computed for a larger count than the rows now shown.
  Rendering that window throws, so a clamped padding is never displayed.
- **Table body** (`table_body.dfy`, module `TableBody`): the `<tbody>` is an
  optional leading spacer, one data row per item and an optional trailing
  spacer. A spacer is shown only when its padding is strictly positive. A data
  row carries the item's key, the id of the record at the item's position and
  the height reserved for it. Looking up a position with no row makes the
  rendering throw, because `row.getVisibleCells()` is called on `undefined`.
  The model returns this as `MissingRow`. The lemmas show the following.
  Spacers appear exactly for positive paddings, each as tall as its padding. A window over `rows.length`
  rows never misses a row. Keys bound over the rendered rows match the
  records they show. The body's height equals `getTotalSize()`.

The JavaScript `x || 0` guards on `start` and `end` have no effect on integer
pixels: an item exists whenever the list is non-empty, and `0 || 0` is 0. The
model therefore reads `start` and `end` directly.

## Model

| member | source | states |
|---|---|---|
| `VirtualItems.SpanOfUniformRun` | examples/react/virtualized-rows/src/FixedHeightTable.tsx:53 | a run of n consecutive rows at the fixed 54-pixel estimate is 54 * n pixels tall |
| `KeyBinder.KeyFor` | examples/react/virtualized-rows/src/FixedHeightTable.tsx:56-59 | the key at a position of the table is that row's id; any other position, negative or past the end, is keyed "undefined" |
| `KeyBinder.DistinctIdsGiveDistinctKeys` | examples/react/virtualized-rows/src/FixedHeightTable.tsx:57 | distinct record ids give the rows of the table distinct keys |
| `KeyBinder.PermutationIsOnto` | examples/react/virtualized-rows/src/FixedHeightTable.tsx:55-59 | a reordering of the rows (an injective map of positions) loses no record: each old position is moved to some new position |
| `KeyBinder.NewPosition` | examples/react/virtualized-rows/src/FixedHeightTable.tsx:55-59 | gives the new position of the record that was at position j; the reordering takes that position back to j |
| `KeyBinder.KeysFollowRecords` | examples/react/virtualized-rows/src/FixedHeightTable.tsx:51-59 | after a reordering, the count is unchanged, each position's key is the id of the record now there, and each record is keyed by its own id at its new position |
| `Paddings.ClampAtZero` | examples/react/virtualized-rows/src/FixedHeightTable.tsx:69-74 | `Math.max(0, x)` is at least 0 and at least x, and is either x or 0 |
| `Paddings.ComputePaddings` | examples/react/virtualized-rows/src/FixedHeightTable.tsx:66-76 | both paddings are never negative and are 0 for an empty list; the top padding is the first start when that is at least 0 (else 0); the bottom padding is total minus the last end when that is at least 0 (else 0) |
| `Paddings.PaddingsSpanTotal` | examples/react/virtualized-rows/src/FixedHeightTable.tsx:64-76 | for a contiguous window of a uniform 54-pixel table, paddingTop + the items' heights + paddingBottom == total size if and only if the window is non-empty or the table is empty; no clamp fires (top = 54 * first, bottom = total - 54 * (last + 1)) |
| `Paddings.StaleWindowClampsBottom` | examples/react/virtualized-rows/src/FixedHeightTable.tsx:70-74 | when the count falls below the end of a window computed for a larger count, the bottom padding is clamped to 0 and padding + items + padding overshoots the new total (that window's render throws, see `TableBody.ClampFiresOnlyWhenRenderFails`) |
| `TableBody.RenderRows` | examples/react/virtualized-rows/src/FixedHeightTable.tsx:129-145 | rendering succeeds if and only if every item's position holds a row; it then gives one data row per item, in order, with the item's key, the id of the record at the item's position and the item's height; otherwise it reports the first item whose position has no row |
| `TableBody.RenderBody` | examples/react/virtualized-rows/src/FixedHeightTable.tsx:123-151 | the body renders if and only if every item's position holds a row |
| `TableBody.SpacedLayout` | examples/react/virtualized-rows/src/FixedHeightTable.tsx:123-151 | around data rows (where there are none, neither padding is positive), a leading spacer appears if and only if the top padding is positive and then has exactly that height; the same holds for the trailing spacer and the bottom padding; the rows between them are the data rows unchanged |
| `TableBody.SpacersExactlyWhenPositive` | examples/react/virtualized-rows/src/FixedHeightTable.tsx:124-150 | the body starts with a spacer if and only if paddingTop > 0, and that spacer is paddingTop tall; it ends with one if and only if paddingBottom > 0, and that spacer is paddingBottom tall; no spacer is 0 or less tall; the rows between them are exactly the items' data rows, one per item |
| `TableBody.ClampFiresOnlyWhenRenderFails` | examples/react/virtualized-rows/src/FixedHeightTable.tsx:66-133 | for a non-empty contiguous uniform window, a padding clamp fires with the total for the rows now shown if and only if rendering throws on a missing row, so a clamped padding is never displayed |
| `TableBody.WindowRendersEveryRow` | examples/react/virtualized-rows/src/FixedHeightTable.tsx:130 | when the count given to the virtualizer is `rows.length`, every item of the window is a valid lookup, so the body renders |
| `TableBody.RenderedKeysFollowRecords` | examples/react/virtualized-rows/src/FixedHeightTable.tsx:129-132 | when the items were keyed by the binder over the rows being rendered, each data row's key is the id of the record it shows |
| `TableBody.BodySpansScrollHeight` | examples/react/virtualized-rows/src/FixedHeightTable.tsx:64-150 | for a non-empty window over `rows.length` rows (or no rows), the rendered body, spacers included, is exactly `getTotalSize()` tall |

## Left out

- The windowing engine inside `useVirtualizer` (`@tanstack/react-virtual`) is not part of this model. This covers the visible-range search, the prefix-sum offsets, overscan (10 rows) and `getTotalSize`. Its output is taken as an input, described by `UniformWindow` and `TotalSize`.
- Table construction, column definitions, sorting and row models from `@tanstack/react-table` are not part of this model. Rows are a sequence of record ids, and a sort is any reordering of positions.
- React state, the scroll container reference and the `useCallback` memoisation are left out. They are framework plumbing. The model takes the binder to be re-created whenever `rows` changes, as the `[rows]` dependency list makes it.
- Headers, sort indicators, cell contents and styling (`flexRender`) are left out because they are UI only. A data row is reduced to its key, its record id and its height.
- `NaN` and other falsy corner cases of `|| 0` and `?.` are left out, beyond the out-of-range `"undefined"` key. Pixels are integers because the estimate is the integer 54.
- Measured row heights that differ from the estimate are left out. The height conservation lemmas assume every rendered row is as tall as the virtualizer reserved for it.
