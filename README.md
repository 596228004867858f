# SwiftMosaicLayout in Dafny

This project models the layout engine of SwiftMosaicLayout, a UIKit
collection-view layout that arranges items in columns. Each item is tagged
*large* or *small*. A large item takes one column slot as a square. Small
items go two to a slot, side by side. Every new slot goes into the column
that is currently shortest, which keeps the columns level.

The engine keeps a table of running column heights, one row per section:
the `Matrix` struct. A pass, `prepare()`, rebuilds this table section by
section:

1. It adds the top inset and places the header.
2. It walks the items in index order.
3. It places any leftover small item and the footer, then adds the bottom
   inset.

Every frame is stored in two dictionaries keyed by index path, one for
cells and one for headers and footers. The host later reads those
dictionaries and the content size, which is the sum of each section's
tallest column.

## Modules

- `Columns` (`columns.dfy`): a section's row of heights.
  - The first shortest and first tallest column.
  - The uniform raise done by `increaseColumnHeight`.
  - Balance: no two columns differ by more than a bound.
- `Geometry` (`geometry.dfy`):
  - the value types: index paths, frames, insets, attributes;
  - the delegate's answers and their defaults;
  - the pure frame helpers `columnWidth`, `cellHeight`, `verticalOffset`,
    `cellRect` and the frame of a header or footer.
  - `CGFloat` is `real`.
- `ColumnMatrix` (`matrix.dfy`): the `Matrix` struct, as a class over the
  same grid.
- `LayoutPass` (`pass.dfy`): what one `prepare()` pass computes, as
  functions:
  - one item (`Step`), the walk over a section (`Walk`) and the leftover
    (`Flush`);
  - the header and footer phases (`OpenSection`, `CloseSection`);
  - a whole section (`LayoutSection`);
  - the pass over the first `k` sections (`PreparedUpTo`).
- `Mosaic` (`layout.dfy`): the layout object, as a class whose methods
  update its fields and the matrix cell by cell, as the source does. Each
  method is proved to leave exactly the state the `LayoutPass` functions
  describe. `Prepare` ends in `Prepared(cv, d)`.
- `LayoutProperties` (`properties.dfy`): what a pass guarantees.
  - Where each kind of item goes.
  - Every item and every header and footer gets exactly one entry, and no
    entry is rewritten.
  - Headers and footers lie on top (zIndex 1).
  - Column balancing: after a pass, no two columns of a section are more
    than one large row apart.
  - Large items alone are dealt round-robin, so a section of `n` large
    items in `C` columns ends exactly the ceiling of `n / C` large rows
    tall, plus what its insets, header and footer add.
- `Scenarios` (`scenarios.dfy`): concrete layouts.
  - The 300-point, two-column example with items [large, small, small,
    large].
  - A small pair split by a large item.
  - A one-column section.
  - A second section that starts at the top.

## Notes on the code as written

In each case below the model follows the code as written.

- **`verticalOffset(forSection:)`.** It reduces over `0..<section` but
  reads the tallest column of `section` itself, not of the earlier
  sections. Its value is therefore the section index times that section's
  own current tallest height (`VerticalOffsetIsScaledHeight`). Each section
  starts from a zeroed row, so the heights of the sections above never
  enter. Section `s`'s header lies at `(s + 1)` top insets
  (`HeaderPlacement`). When the header does not overlay, a large first item
  lies at `(s + 1) × (top inset + header height + gap)`
  (`FirstLargeItemOffset`). With no top inset, a zero-height header and no
  gap, section 1's header and first item therefore sit at y = 0, on top of
  section 0 (`SecondSectionStartsAtTop`). The sections never read each
  other's rows, so they are laid out independently.
  The reduce over the earlier sections evidently means to add up their
  heights, stacking the sections. Offsetting section `s` by the sum of the
  tallest columns above it would put everything it places at or below the
  bottom of every earlier column (`StackedSectionsClear`).
- **Where a small pair goes.** The shortest column is recomputed for every
  item. A completed pair therefore goes into the column that is shortest
  when its *second* item arrives, not when its first one does
  (`SmallPairPlacement`, `PairAroundLargeItem`).
- **Header versus footer under overlay.** An overlaying footer is pulled up
  by its own height. An overlaying header is not moved
  (`HeaderPlacement`, `FooterPlacement`). So with an overlaying header, a
  large first item starts on the header's own line
  (`OverlayHeaderAlignsWithFirstItem`).
- **Content height of one column.** Take one section, one column, zero
  insets and two large items. The section's height is two cells and
  *three* gaps, not two cells and one gap. Two things add the extra gaps:
  - the header adds its height and a gap even when its height is zero;
  - every large item charges its column a gap after it.

  With a 300-point column and a 10-point gap this is 630
  (`OneColumnHeight`).
- **Columns grow by reported heights.** Every charge reads a frame's
  `height`, which CGRect gives for the standardized rectangle, so it is
  never negative (`FrameHeight`); the frames themselves are stored as built,
  and the second small cell is offset by the signed small side. When the
  gap is wider than a column, the small side is negative and a small pair
  adds more to its column than a large item. The columns can then end more
  than one large row apart (`NarrowSectionOutgrowsRow`). The balance lemmas
  therefore assume `ChargesWithinRow`: each placement raises its column by
  at least nothing and at most a large row. Every section whose gap is no
  wider than a column meets it (`GapWithinColumnChargesWithinRow`).

## Model

S = SwiftMosaicLayout/SwiftMosaicLayout.swift, M = SwiftMosaicLayout/Matrix.swift (the table cells hold the full paths).

| member | source | states |
|---|---|---|
| Columns.Shortest | SwiftMosaicLayout/SwiftMosaicLayout.swift:203-207 | the result is a column holding the minimum height, and every lower index holds a strictly taller column (the first index of the minimum) |
| Columns.Tallest | SwiftMosaicLayout/SwiftMosaicLayout.swift:209-213 | the result is a column holding the maximum height, and every lower index holds a strictly shorter column (the first index of the maximum) |
| Columns.ShortestUnique | SwiftMosaicLayout/SwiftMosaicLayout.swift:203-207 | any column that is minimal, with every lower column strictly taller, is the one the shortest-column query returns |
| Columns.TallestUnique | SwiftMosaicLayout/SwiftMosaicLayout.swift:209-213 | any column that is maximal, with every lower column strictly shorter, is the one the tallest-column query returns |
| Columns.LevelRowTieBreak | SwiftMosaicLayout/SwiftMosaicLayout.swift:203-213 | when all columns are equal, both queries return column 0: ties go to the lowest index |
| Columns.Height | SwiftMosaicLayout/SwiftMosaicLayout.swift:209-213 | the tallest column's height; `Tallest` and `RaiseKeepsExtremes` state what it is |
| Columns.Charge | SwiftMosaicLayout/SwiftMosaicLayout.swift:58 | one column grows by a cell and a gap, as the `+=` on the matrix does here and at lines 67 and 79; `LargeItemPlacement`, `SmallPairPlacement` and `LeftoverPlacement` state when |
| Columns.Raise | SwiftMosaicLayout/SwiftMosaicLayout.swift:105-109 | a raised row has as many columns as before, and each one is exactly `d` higher |
| Columns.RaiseKeepsExtremes | SwiftMosaicLayout/SwiftMosaicLayout.swift:105-109 | a uniform raise changes neither the shortest nor the tallest column, and lifts the tallest height by `d` |
| Columns.Zeros | SwiftMosaicLayout/SwiftMosaicLayout.swift:99-101 | the row reset creates for a section has one zero per column |
| Columns.ChargeShortestKeepsBalance | SwiftMosaicLayout/SwiftMosaicLayout.swift:53-58 | charging the shortest column by at most `h` keeps every pair of columns within `h`, and lowers no column |
| Columns.RaiseKeepsBalance | SwiftMosaicLayout/SwiftMosaicLayout.swift:105-109 | a uniform raise keeps the row within the same bound |
| Geometry.NumberOfColumns | SwiftMosaicLayout/SwiftMosaicLayout.swift:264-269 | the delegate's column count, 2 without a delegate; its defaults are stated by `UnansweredDefaults` |
| Geometry.SectionConfigFor | SwiftMosaicLayout/SwiftMosaicLayout.swift:278-304 | a section's insets, gap and header and footer heights, each from the delegate or its default; stated by `UnansweredDefaults` |
| Geometry.CellSizeFor | SwiftMosaicLayout/SwiftMosaicLayout.swift:271-276 | an item's size from the delegate, small by default; stated by `UnansweredDefaults` |
| Geometry.HeaderOverlaysContent | SwiftMosaicLayout/SwiftMosaicLayout.swift:306-311 | whether the header overlays, false by default; stated by `UnansweredDefaults` |
| Geometry.FooterOverlaysContent | SwiftMosaicLayout/SwiftMosaicLayout.swift:313-318 | whether the footer overlays, false by default; stated by `UnansweredDefaults` |
| Geometry.UnansweredDefaults | SwiftMosaicLayout/SwiftMosaicLayout.swift:264-318 | an unanswered delegate question gets its default: 2 columns without a delegate, small cells, zero insets, spacing and heights, and no overlay |
| Geometry.FrameHeight | SwiftMosaicLayout/SwiftMosaicLayout.swift:46 | the height a frame reports is never negative and is its built height or that height negated: CGRect's `height` is that of the standardized rectangle; the charges at lines 46, 58, 67, 79 and 87 read it |
| Geometry.Accumulate | SwiftMosaicLayout/SwiftMosaicLayout.swift:253-256 | the reduce that adds one value per earlier section; `AccumulateIsProduct` gives its value |
| Geometry.VerticalOffset | SwiftMosaicLayout/SwiftMosaicLayout.swift:252-258 | the vertical offset as written; `VerticalOffsetIsScaledHeight` states it is the section index times the section's own tallest column |
| Geometry.AccumulateIsProduct | SwiftMosaicLayout/SwiftMosaicLayout.swift:253-256 | the reduce that adds `v` once per section index gives `count` times `v` |
| Geometry.VerticalOffsetIsScaledHeight | SwiftMosaicLayout/SwiftMosaicLayout.swift:252-258 | as written, the vertical offset of a section is its index times its own tallest column, not the sum of the earlier sections' heights |
| Geometry.ColumnWidth | SwiftMosaicLayout/SwiftMosaicLayout.swift:240-250 | the width of one column; `ColumnsFillWidth` states that the columns and their gaps fill the width between the insets |
| Geometry.CellHeight | SwiftMosaicLayout/SwiftMosaicLayout.swift:234-238 | the side of a large or a small cell; `SmallPairIsOneColumnWide` states that two small sides and a gap make one large side |
| Geometry.CellRect | SwiftMosaicLayout/SwiftMosaicLayout.swift:219-232 | a cell's square frame on top of its column; `LargeCellTilesWidth` and `LargeItemPlacement` state where it lies |
| Geometry.SmallCellRect | SwiftMosaicLayout/SwiftMosaicLayout.swift:150-165 | a small cell's frame, moved right when offset; `SmallPairFillsColumn` states how the pair fills its column |
| Geometry.SupplementaryFrame | SwiftMosaicLayout/SwiftMosaicLayout.swift:167-197 | a header or footer frame; `SupplementaryFramePlacement` states its x, width, height and y |
| Geometry.ColumnsFillWidth | SwiftMosaicLayout/SwiftMosaicLayout.swift:240-250 | `n` column widths and `n - 1` gaps exactly fill the width between the side insets |
| Geometry.SmallPairIsOneColumnWide | SwiftMosaicLayout/SwiftMosaicLayout.swift:234-238 | two small sides and one gap make exactly one large side |
| Geometry.LargeCellTilesWidth | SwiftMosaicLayout/SwiftMosaicLayout.swift:219-250 | a large cell is a square one column wide, the next column starts one gap after it, and the columns to its right end at the right inset |
| Geometry.SmallPairFillsColumn | SwiftMosaicLayout/SwiftMosaicLayout.swift:150-165 | the two cells of a pair are squares of the small side on one line; the first starts where a large cell would and the second starts a cell and a gap later; together they end where the column ends |
| Geometry.SupplementaryFramePlacement | SwiftMosaicLayout/SwiftMosaicLayout.swift:167-197 | a header or footer spans the width between the insets and has the configured height; its y is `section + 1` tallest heights down, less its own height only for an overlaying footer |
| ColumnMatrix.Matrix.constructor | SwiftMosaicLayout/Matrix.swift:15-21 | the matrix holds exactly the given rows: the section count is the number of rows, and each row subscript returns its row |
| ColumnMatrix.Matrix.NumberOfSections | SwiftMosaicLayout/Matrix.swift:11-13 | the section count is the number of rows |
| ColumnMatrix.Matrix.Row | SwiftMosaicLayout/Matrix.swift:19-21 | the row subscript; the constructor and `Set` state what it returns |
| ColumnMatrix.Matrix.Get | SwiftMosaicLayout/Matrix.swift:23-26 | the cell getter agrees with the row subscript; out-of-range indices are excluded by its precondition, where Swift would trap |
| ColumnMatrix.Matrix.Set | SwiftMosaicLayout/Matrix.swift:27-29 | after setting a cell, reading it gives the new value; every other cell, every row length and the section count are unchanged |
| LayoutPass.Step | SwiftMosaicLayout/SwiftMosaicLayout.swift:51-71 | one item of the walk, charging its column the frame's reported height (never negative) and a gap; its meaning is stated by `LargeItemPlacement`, `SmallItemBuffered`, `SmallPairPlacement`, `StepWalked` and `StepBalanced` |
| LayoutPass.Walk | SwiftMosaicLayout/SwiftMosaicLayout.swift:50-72 | the walk over a section's items; its meaning is stated by `WalkWalked`, `WalkWritesOnce`, `WalkBalanced` and, for large items alone, `AllLargeWalk` |
| LayoutPass.Flush | SwiftMosaicLayout/SwiftMosaicLayout.swift:74-82 | the leftover small item, whose column is charged the frame's reported height and a gap; its meaning is stated by `LeftoverPlacement` and `FlushKeys` |
| LayoutPass.OpenSection | SwiftMosaicLayout/SwiftMosaicLayout.swift:39-47 | the header phase, which raises the columns by the header frame's reported height and a gap unless it overlays; its meaning is stated by `HeaderPlacement` and `OpenBalanced` |
| LayoutPass.CloseSection | SwiftMosaicLayout/SwiftMosaicLayout.swift:74-89 | the leftover and footer phase, which raises the columns by the footer frame's reported height unless it overlays; its meaning is stated by `FooterPlacement` and `CloseBalanced` |
| LayoutPass.LayoutSection | SwiftMosaicLayout/SwiftMosaicLayout.swift:38-89 | one whole section; its meaning is stated by `SectionKeys`, `SectionSupplementary`, `SectionBalanced` and `AllLargeSection` |
| LayoutPass.Prepared | SwiftMosaicLayout/SwiftMosaicLayout.swift:29-91 | the layout of a whole pass; its meaning is stated by `EveryItemPlacedOnce` and `EverySectionBalanced`, and `Prepare` is proved to produce it |
| LayoutPass.ZeroGrid | SwiftMosaicLayout/SwiftMosaicLayout.swift:93-103 | the table reset builds has one row per section, zeroed and as wide as that section's column count |
| LayoutPass.PreparedUpTo | SwiftMosaicLayout/SwiftMosaicLayout.swift:38-90 | after any number of sections, the table still has one row per section, each with its own column count |
| LayoutPass.Advance | SwiftMosaicLayout/SwiftMosaicLayout.swift:38-90 | laying out section `k - 1` changes only that section's row of the table, and keeps its width |
| LayoutPass.PreparedStep | SwiftMosaicLayout/SwiftMosaicLayout.swift:38-90 | the pass lays out one section at a time, each over the layout the earlier sections left |
| LayoutPass.SumOfTallest | SwiftMosaicLayout/SwiftMosaicLayout.swift:21-24 | the sum over no sections is zero; when no height is negative, the sum of the sections' tallest columns is non-negative and at least every column height in them; `SumOfTallestStep` gives each further section's share |
| LayoutPass.SumOfTallestStep | SwiftMosaicLayout/SwiftMosaicLayout.swift:21-24 | each section adds to the sum exactly the height of one of its columns that no other column of the section exceeds |
| Mosaic.MosaicLayout.constructor | SwiftMosaicLayout/SwiftMosaicLayout.swift:11-15 | a layout attached to its host and delegate starts with empty dictionaries and an empty table |
| Mosaic.MosaicLayout.Prepare | SwiftMosaicLayout/SwiftMosaicLayout.swift:29-91 | without a host nothing changes; otherwise the fields end up holding exactly the layout of the whole pass, in a fresh table |
| Mosaic.MosaicLayout.Reset | SwiftMosaicLayout/SwiftMosaicLayout.swift:93-103 | the dictionaries are empty, and a fresh table holds one zeroed row per section of that section's width |
| Mosaic.MosaicLayout.PrepareSection | SwiftMosaicLayout/SwiftMosaicLayout.swift:38-90 | one iteration of the section loop moves the state from the layout of the first `s` sections to that of the first `s + 1` |
| Mosaic.MosaicLayout.PrepareHeader | SwiftMosaicLayout/SwiftMosaicLayout.swift:39-47 | the section's row and the supplementary dictionary become the header phase's result, the columns raised by the header frame's reported height; the cells are untouched |
| Mosaic.MosaicLayout.PrepareItems | SwiftMosaicLayout/SwiftMosaicLayout.swift:49-72 | the item loop leaves the row, the cells and the small-cell buffer exactly as the walk over the section's sizes does; the buffer holds only this section's items |
| Mosaic.MosaicLayout.PrepareFooter | SwiftMosaicLayout/SwiftMosaicLayout.swift:74-89 | the leftover, the footer (charged its frame's reported height) and the bottom inset leave the row and both dictionaries as the footer phase does |
| Mosaic.MosaicLayout.PlaceItem | SwiftMosaicLayout/SwiftMosaicLayout.swift:51-71 | one item changes the row, the cells and the buffer exactly as one step of the walk, the column charged the frame's reported height and a gap, and only in its own section |
| Mosaic.MosaicLayout.FlushSmallCells | SwiftMosaicLayout/SwiftMosaicLayout.swift:74-82 | a leftover small item is stored, and its column charged the frame's reported height and a gap, as the flush describes; with an empty buffer nothing changes |
| Mosaic.MosaicLayout.IncreaseColumnHeight | SwiftMosaicLayout/SwiftMosaicLayout.swift:105-109 | every column of the section grows by exactly the increase, and no other section changes |
| Mosaic.MosaicLayout.LargeCellLayoutAttributes | SwiftMosaicLayout/SwiftMosaicLayout.swift:141-147 | the large frame of the column is returned with zIndex 0 and stored under the index path; nothing else changes |
| Mosaic.MosaicLayout.SmallCellLayoutAttributes | SwiftMosaicLayout/SwiftMosaicLayout.swift:149-165 | the small frame of the column, moved right when offset, is returned and stored under the index path; nothing else changes |
| Mosaic.MosaicLayout.SupplementaryLayoutAttributes | SwiftMosaicLayout/SwiftMosaicLayout.swift:167-197 | the header or footer frame is returned with zIndex 1 and stored under the index path; the cells and the table are untouched |
| Mosaic.MosaicLayout.CollectionViewContentSize | SwiftMosaicLayout/SwiftMosaicLayout.swift:17-27 | zero without a host; otherwise the host's width and, as height, the sum over the sections of each one's tallest column (each section's share characterised by `SumOfTallestStep`), which covers every column when no height is negative |
| Mosaic.MosaicLayout.LayoutAttributesForElements | SwiftMosaicLayout/SwiftMosaicLayout.swift:111-115 | an element is returned exactly when it is a stored cell or a stored header or footer whose frame meets the query |
| Mosaic.MosaicLayout.LayoutAttributesForItem | SwiftMosaicLayout/SwiftMosaicLayout.swift:117-119 | there is an answer exactly when the index path has a stored cell, and it is that cell's attributes |
| Mosaic.MosaicLayout.LayoutAttributesForSupplementaryView | SwiftMosaicLayout/SwiftMosaicLayout.swift:121-124 | the lookup is by index path alone, whatever the kind: there is an answer exactly when an entry is stored |
| Mosaic.MosaicLayout.ShouldInvalidateLayout | SwiftMosaicLayout/SwiftMosaicLayout.swift:126-135 | the answer is true exactly when there is a host whose size differs from the new bounds; then a full pass has been run, and otherwise nothing changes |
| LayoutProperties.LargeItemPlacement | SwiftMosaicLayout/SwiftMosaicLayout.swift:53-58 | a large item is stored with z-index 0 and the large-cell frame of the shortest column `c`: a square one column wide whose y is the vertical offset plus the column's height (its x is placed by `LargeCellTilesWidth`). Only column `c` grows, by the size of the side (the frame's reported height, never negative) and a gap, and no other item and not the buffer change |
| LayoutProperties.SmallPairPlacement | SwiftMosaicLayout/SwiftMosaicLayout.swift:59-70 | the second small item completes the pair in the column shortest at that moment. The buffered item is placed unoffset and the new one a cell and a gap to its right, on the same line, both of the small side. The column is charged once, by the size of the small side and a gap, and the buffer empties |
| LayoutProperties.SmallItemBuffered | SwiftMosaicLayout/SwiftMosaicLayout.swift:59-62 | the first small item of a pair is only buffered; the row and the cells are unchanged |
| LayoutProperties.LeftoverPlacement | SwiftMosaicLayout/SwiftMosaicLayout.swift:74-82 | a leftover small item goes unoffset into the shortest column, which is still charged the size of a small side and a gap; the buffer empties |
| LayoutProperties.StepWalked | SwiftMosaicLayout/SwiftMosaicLayout.swift:50-71 | one item keeps the invariant: the stored and buffered items are exactly the earlier entries plus this section's items so far, and no stored entry is rewritten |
| LayoutProperties.WalkWalked | SwiftMosaicLayout/SwiftMosaicLayout.swift:50-72 | after every prefix of a section's items, the stored and buffered items are exactly the earlier entries plus the items of the prefix |
| LayoutProperties.WalkWritesOnce | SwiftMosaicLayout/SwiftMosaicLayout.swift:50-72 | once an item is stored, later items of the section never change or remove its entry |
| LayoutProperties.FlushKeys | SwiftMosaicLayout/SwiftMosaicLayout.swift:74-82 | after the flush, the stored cells are exactly the earlier entries plus the section's items, and no entry is rewritten |
| LayoutProperties.SectionKeys | SwiftMosaicLayout/SwiftMosaicLayout.swift:38-89 | after a section, each of its items `0..<count` has an entry, no other key is added, and the entries of other sections are kept |
| LayoutProperties.SectionSupplementary | SwiftMosaicLayout/SwiftMosaicLayout.swift:43-89 | a section adds exactly its header under item 0 and its footer under item 1, both with zIndex 1, and keeps every other entry |
| LayoutProperties.AdvanceCells | SwiftMosaicLayout/SwiftMosaicLayout.swift:38-90 | laying out the next section turns the item keys of the sections before it into those of one more section |
| LayoutProperties.AdvanceSupplementaryKeys | SwiftMosaicLayout/SwiftMosaicLayout.swift:43-89 | laying out the next section adds its header and footer keys to those of the sections before it |
| LayoutProperties.AdvanceOnTop | SwiftMosaicLayout/SwiftMosaicLayout.swift:191-194 | laying out the next section keeps every header and footer at zIndex 1 |
| LayoutProperties.PreparedCellKeys | SwiftMosaicLayout/SwiftMosaicLayout.swift:38-90 | after the first `k` sections, the cell keys are exactly the item indices `0..<count` of each of those sections |
| LayoutProperties.PreparedSupplementaryKeys | SwiftMosaicLayout/SwiftMosaicLayout.swift:38-90 | after the first `k` sections, the supplementary keys are exactly items 0 and 1 of each of those sections, all with zIndex 1 |
| LayoutProperties.EveryItemPlacedOnce | SwiftMosaicLayout/SwiftMosaicLayout.swift:29-91 | after a pass, every item of every section has exactly one cell entry and no other key exists; every section has exactly a header and a footer entry, all with zIndex 1 |
| LayoutProperties.GapWithinColumnChargesWithinRow | SwiftMosaicLayout/SwiftMosaicLayout.swift:234-250 | a section whose gap, of either sign, is no wider than a column has small sides between zero and a large side, and meets `ChargesWithinRow` |
| LayoutProperties.StepBalanced | SwiftMosaicLayout/SwiftMosaicLayout.swift:53-70 | when each placement raises a column by at least nothing and at most a large row (`ChargesWithinRow`), placing an item into the shortest column keeps all columns within one large row of each other, and lowers no column |
| LayoutProperties.WalkBalanced | SwiftMosaicLayout/SwiftMosaicLayout.swift:50-72 | column balancing: under `ChargesWithinRow`, however the items are sized, the walk keeps the columns within one large row, and lowers no column |
| LayoutProperties.Rows | SwiftMosaicLayout/SwiftMosaicLayout.swift:51-58 | the number of large rows `n` large items stack up over `c` columns; `RowsIsCeiling` states it is the ceiling of `n / c` |
| LayoutProperties.TurnIsRemainder | SwiftMosaicLayout/SwiftMosaicLayout.swift:51-58 | the round-robin counters are the quotient and remainder of the item count by the column count |
| LayoutProperties.RowsIsCeiling | SwiftMosaicLayout/SwiftMosaicLayout.swift:51-58 | the rows hold all `n` items and the last one is not empty: `n <= rows * c < n + c` |
| LayoutProperties.RoundRobinTurn | SwiftMosaicLayout/SwiftMosaicLayout.swift:53 | after round-robin dealing with rows of positive height, the first shortest column is exactly the one whose turn it is |
| LayoutProperties.RoundRobinCharge | SwiftMosaicLayout/SwiftMosaicLayout.swift:58 | charging the column whose turn it is by one row deals the next item: the turn moves on, and past the last column a round is complete |
| LayoutProperties.RoundRobinFlat | SwiftMosaicLayout/SwiftMosaicLayout.swift:51-58 | with rows of zero height every column stays at its level start, whatever the count dealt |
| LayoutProperties.RoundRobinStep | SwiftMosaicLayout/SwiftMosaicLayout.swift:53-58 | one more large item goes into the column whose turn it is, one large row (the size of a column width, plus a gap) up, so the row stays dealt for `n + 1` items |
| LayoutProperties.AllLargeWalk | SwiftMosaicLayout/SwiftMosaicLayout.swift:50-72 | from a level row, `n` large items leave the first `n mod C` columns `n div C + 1` large rows up and the others `n div C` rows up, and buffer nothing, whenever a large row is not negative |
| LayoutProperties.RoundRobinHeight | SwiftMosaicLayout/SwiftMosaicLayout.swift:209-213 | after round-robin dealing of `f` rounds and a turn at `t`, the tallest column is exactly `f` large rows above the level start, or `f + 1` if a round is under way |
| LayoutProperties.AllLargeHeight | SwiftMosaicLayout/SwiftMosaicLayout.swift:50-72 | the walk over `n` large items ends with its tallest column exactly the ceiling of `n / C` large rows above its level start, whenever a large row is not negative |
| LayoutProperties.AllLargeSection | SwiftMosaicLayout/SwiftMosaicLayout.swift:38-89 | a whole section of `n` large items and no small ones ends with its tallest column at the top inset, plus the size of the header's height and a gap unless it overlays, plus the ceiling of `n / C` large rows, plus the size of the footer's height unless it overlays, plus the bottom inset |
| LayoutProperties.OpenBalanced | SwiftMosaicLayout/SwiftMosaicLayout.swift:40-47 | opening a section from its zeroed row leaves its columns level |
| LayoutProperties.CloseBalanced | SwiftMosaicLayout/SwiftMosaicLayout.swift:74-89 | under `ChargesWithinRow`, the leftover, the footer and the bottom inset keep the columns within one large row |
| LayoutProperties.SectionBalanced | SwiftMosaicLayout/SwiftMosaicLayout.swift:38-89 | under `ChargesWithinRow`, a finished section has no two columns more than one large row apart |
| LayoutProperties.HeaderPlacement | SwiftMosaicLayout/SwiftMosaicLayout.swift:40-47 | the header spans the content width with zIndex 1, keeps its configured height, and is never pulled up. Its y is `section + 1` top insets, the offset as written. The columns then move down by the top inset, plus the size of the header's height and a gap only when it does not overlay |
| LayoutProperties.FooterPlacement | SwiftMosaicLayout/SwiftMosaicLayout.swift:84-89 | the footer keeps its configured height; its y is the tallest column after the leftover plus the vertical offset as written, pulled up by its height only when it overlays, with zIndex 1. The columns grow by the size of its height only when it does not overlay, then by the bottom inset |
| LayoutProperties.SumOfTallestGrows | SwiftMosaicLayout/SwiftMosaicLayout.swift:21-24 | with no negative heights, counting more sections never makes the sum of tallest columns smaller |
| LayoutProperties.StackedSectionsClear | SwiftMosaicLayout/SwiftMosaicLayout.swift:252-258 | the stacking the reduce over the earlier sections evidently aims at, which the code does not do: offset by the sum of the tallest columns above it, anything section `s` places at a height of its own of at least zero lies at or below the bottom of every column of every earlier section |
| LayoutProperties.LevelRowLargeItem | SwiftMosaicLayout/SwiftMosaicLayout.swift:219-232 | on a level row, a large item's y is `section + 1` times the row's height: the offset as written counts the section's own height once per earlier section |
| LayoutProperties.FirstLargeItemOffset | SwiftMosaicLayout/SwiftMosaicLayout.swift:41-58 | a large first item lies at `(section + 1)` times the header phase's rise (the top inset, plus the size of the header's height and a gap when the header does not overlay), whatever the sections above it hold |
| LayoutProperties.FirstLargeItemKept | SwiftMosaicLayout/SwiftMosaicLayout.swift:50-82 | the entry a large first item gets from the first step survives the rest of the walk and the flush |
| LayoutProperties.OverlayHeaderAlignsWithFirstItem | SwiftMosaicLayout/SwiftMosaicLayout.swift:43-58 | with an overlaying header, a large first item has the same y as the header: the header is not pulled up over it |
| LayoutProperties.PreparedRowsAhead | SwiftMosaicLayout/SwiftMosaicLayout.swift:93-103 | a section the pass has not reached yet still has the zeroed row reset gave it |
| LayoutProperties.LaterSectionKeepsRow | SwiftMosaicLayout/SwiftMosaicLayout.swift:38-90 | laying out one section leaves every other section's row as it was |
| LayoutProperties.RowSettled | SwiftMosaicLayout/SwiftMosaicLayout.swift:38-90 | once a section is laid out, later sections leave its row of the table alone |
| LayoutProperties.PreparedBalanced | SwiftMosaicLayout/SwiftMosaicLayout.swift:29-91 | after the first `k` sections, in each laid-out section the tallest column is at most one large row above the shortest, when every section meets `ChargesWithinRow` |
| LayoutProperties.EverySectionBalanced | SwiftMosaicLayout/SwiftMosaicLayout.swift:29-91 | after a whole pass, no two columns of any section differ by more than one large row (the size of a column width, plus a gap), when every section meets `ChargesWithinRow` |
| Scenarios.WorkedOpening | SwiftMosaicLayout/SwiftMosaicLayout.swift:51-64 | in that example the first large item takes column 0 at (0,0,150,150) and the small one after it waits in the buffer |
| Scenarios.WorkedPairing | SwiftMosaicLayout/SwiftMosaicLayout.swift:59-70 | the third item pairs with the waiting one in column 1, at (150,0,75,75) and (225,0,75,75), and column 1 rises to 75 |
| Scenarios.WorkedClosing | SwiftMosaicLayout/SwiftMosaicLayout.swift:53-58 | the fourth, large item goes on the pair in column 1 at (150,75,150,150), and column 1 rises to 225 |
| Scenarios.WorkedWalk | SwiftMosaicLayout/SwiftMosaicLayout.swift:49-72 | items [large, small, small, large] in two columns of 150 with no gap give exactly the frames (0,0,150,150), (150,0,75,75), (225,0,75,75) and (150,75,150,150), rows 150 and 225 and an empty buffer |
| Scenarios.WorkedExample | SwiftMosaicLayout/SwiftMosaicLayout.swift:29-91 | that section ends with rows 150 and 225, keeps exactly those frames, and contributes 225 to the content height |
| Scenarios.PairAroundLargeItem | SwiftMosaicLayout/SwiftMosaicLayout.swift:53-70 | with [small, large, small], the large item takes column 0, and the first small item waits to go beside the third in column 1 |
| Scenarios.OneColumnWalk | SwiftMosaicLayout/SwiftMosaicLayout.swift:53-58 | in one 300-point column with 10-point gaps, two large items sit at y 10 and 320 and the column reaches 630 |
| Scenarios.OneColumnHeight | SwiftMosaicLayout/SwiftMosaicLayout.swift:38-90 | that one-column section is 630 tall: two cells and three gaps |
| Scenarios.SmallPairSharesRow | SwiftMosaicLayout/SwiftMosaicLayout.swift:59-70 | two small items in one column share a line, at x 0 and 150, without overlap |
| Scenarios.NarrowSectionOutgrowsRow | SwiftMosaicLayout/SwiftMosaicLayout.swift:58-67 | in a 12-point wide view with two columns and a gap of 10, a large item adds 11 to its column and a small pair 14.5, so two small items leave the columns at 24.5 and 10, more than one large row apart |
| Scenarios.SecondSectionStartsAtTop | SwiftMosaicLayout/SwiftMosaicLayout.swift:252-258 | as written, with no top inset, a zero-height header and no gap, the header and the first large item of section 1 sit at y = 0, on top of section 0 |
| Scenarios.WorkedSizes | SwiftMosaicLayout/SwiftMosaicLayout.swift:271-276 | a delegate answering large for items 0 and 3 sizes the section [large, small, small, large] |
| Scenarios.WorkedStart | SwiftMosaicLayout/SwiftMosaicLayout.swift:93-103 | without other answers, that delegate's section is a plain two-column section starting from a zeroed row with nothing stored |
| Scenarios.WorkedPass | SwiftMosaicLayout/SwiftMosaicLayout.swift:29-91 | the whole pass over the reference example leaves rows 150 and 225 |
| Scenarios.WorkedHeight | SwiftMosaicLayout/SwiftMosaicLayout.swift:21-24 | that pass gives a content height of 225 |
| Scenarios.WorkedContentSize | SwiftMosaicLayout/SwiftMosaicLayout.swift:17-27 | a layout object on a 300-point host, after `prepare()`, reports a content size of 300 by 225 |

## Left out

- UIKit itself is not modelled. This covers subclassing `UICollectionViewLayout`, the attribute objects (here a frame and a zIndex), `super.prepare()`, and reading the host's frame and item counts (here a value: a size and the item count of each section).
- The host reference is weak and the matrix is implicitly unwrapped before the first `prepare()`. The model builds the layout with an empty table and empty dictionaries instead.
- The Objective-C optional delegate methods are not modelled as dispatch. The delegate is a record of its answers, and a missing answer is `None`, which gets the source's default.
- The per-getter nil-host guards are not modelled separately. Without a host, `prepare()` returns before any getter runs, so every getter is modelled with a host present.
- `CGRect.intersects` is not modelled. `LayoutAttributesForElements` takes the intersection test as a parameter, and returns a set of elements because the order of dictionary values is unspecified in Swift.
- Floating-point rounding is not modelled: `CGFloat` is `real`.
- The `fatalError` calls are preconditions instead. `reset()` without a host is excluded by `Reset`'s precondition. An unknown supplementary kind cannot occur, because the kind is a two-valued type.
- A column count below one traps in the source, so the model excludes it with the precondition `Configured`: every section has at least one column.
  - A negative count traps first, in `Array(repeating:count:)` inside `reset()` (line 100).
  - A zero count gives an empty row. The first query on it is `max()!` in the tallest-column query (line 211). For a section after the first, `verticalOffset` reaches that query first (line 254). Otherwise the header frame reaches it (line 188).
- `StepBalanced`, `WalkBalanced`, `CloseBalanced`, `SectionBalanced`, `PreparedBalanced` and `EverySectionBalanced` assume `ChargesWithinRow` in each section: a small pair adds between zero and a large row. Without it the source does not keep the columns within a large row (`NarrowSectionOutgrowsRow`), so there is no bound to state.
- `RoundRobinStep`, `AllLargeWalk`, `AllLargeHeight` and `AllLargeSection` assume a large row (the size of a column width, plus the gap) is not negative. With a negative one, a large item lowers its column and the shortest column no longer takes turns.
- `SwiftMosaicLayoutDelegate.swift` is not part of this model. It holds only the protocol declarations.
- The example application is not part of this model.
