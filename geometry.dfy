/**
 * Values the layout works with (index paths, frames, insets, attributes),
 * the delegate's answers with their defaults (SwiftMosaicLayout.swift
 * lines 264-318), and the pure frame helpers over a section's row of
 * column heights: columnWidth, cellHeight, verticalOffset, cellRect and the
 * frame part of the supplementary-view builder.
 * `CGFloat` is modelled as `real`.
 */
module Geometry {
  import opened Wrappers
  import opened Columns

  datatype CellSize = Small | Large

  datatype IndexPath = IndexPath(item: nat, section: nat)

  datatype Rect = Rect(x: real, y: real, width: real, height: real)

  datatype Size = Size(width: real, height: real)

  datatype Insets = Insets(top: real, left: real, bottom: real, right: real)

  /** What the layout records per element: its frame and z-order. */
  datatype Attributes = Attributes(frame: Rect, zIndex: int)

  datatype SupplementaryKind = Header | Footer

  const DefaultNumberOfColumns: int := 2
  const ZeroInsets: Insets := Insets(0.0, 0.0, 0.0, 0.0)

  /**
   * The delegate. Only the column count is a required method; every other
   * answer is optional and `None` when the delegate does not implement it.
   */
  datatype Delegate = Delegate(
    numberOfColumns: nat -> int,
    cellSize: Option<IndexPath -> CellSize>,
    inset: Option<nat -> Insets>,
    interitemSpacing: Option<nat -> real>,
    headerHeight: Option<nat -> real>,
    footerHeight: Option<nat -> real>,
    headerOverlaysContent: Option<bool>,
    footerOverlaysContent: Option<bool>)

  /** One section's configuration, with the defaults already applied. */
  datatype SectionConfig = SectionConfig(
    columns: int, inset: Insets, spacing: real, headerHeight: real, footerHeight: real)

  function NumberOfColumns(d: Option<Delegate>, section: nat): int {
    if d.None? then DefaultNumberOfColumns else d.value.numberOfColumns(section)
  }

  function SectionConfigFor(d: Option<Delegate>, section: nat): SectionConfig {
    if d.None? then SectionConfig(DefaultNumberOfColumns, ZeroInsets, 0.0, 0.0, 0.0)
    else
      var del := d.value;
      SectionConfig(
        del.numberOfColumns(section),
        if del.inset.Some? then del.inset.value(section) else ZeroInsets,
        if del.interitemSpacing.Some? then del.interitemSpacing.value(section) else 0.0,
        if del.headerHeight.Some? then del.headerHeight.value(section) else 0.0,
        if del.footerHeight.Some? then del.footerHeight.value(section) else 0.0)
  }

  function CellSizeFor(d: Option<Delegate>, ip: IndexPath): CellSize {
    if d.Some? && d.value.cellSize.Some? then d.value.cellSize.value(ip) else Small
  }

  function HeaderOverlaysContent(d: Option<Delegate>): bool {
    d.Some? && d.value.headerOverlaysContent.GetOr(false)
  }

  function FooterOverlaysContent(d: Option<Delegate>): bool {
    d.Some? && d.value.footerOverlaysContent.GetOr(false)
  }

  /** Every answer the delegate does not give falls back to its default:
      two columns without a delegate, small cells, zero insets, spacing and
      heights, no overlay. */
  lemma UnansweredDefaults(d: Option<Delegate>, section: nat, ip: IndexPath)
    requires d.Some? ==> d.value.cellSize.None? && d.value.inset.None? && d.value.interitemSpacing.None?
    requires d.Some? ==> d.value.headerHeight.None? && d.value.footerHeight.None?
    requires d.Some? ==> d.value.headerOverlaysContent.None? && d.value.footerOverlaysContent.None?
    ensures SectionConfigFor(d, section) == SectionConfig(NumberOfColumns(d, section), ZeroInsets, 0.0, 0.0, 0.0)
    ensures d.None? ==> NumberOfColumns(d, section) == 2
    ensures CellSizeFor(d, ip) == Small
    ensures !HeaderOverlaysContent(d) && !FooterOverlaysContent(d)
  {
  }

  /** The section a frame helper works in: viewport width, section index and configuration. */
  datatype Env = Env(width: real, section: nat, config: SectionConfig)

  ghost predicate ValidEnv(e: Env) {
    e.config.columns >= 1
  }

  /** columnWidth: what is left of the width after the side insets and the
      gaps between columns, shared equally. */
  function ColumnWidth(e: Env): real
    requires ValidEnv(e)
  {
    var n := e.config.columns as real;
    (e.width - e.config.inset.left - e.config.inset.right - (n - 1.0) * e.config.spacing) / n
  }

  /** cellHeight: a large cell is one column wide, a small cell half a column
      less half a gap. */
  function CellHeight(size: CellSize, e: Env): real
    requires ValidEnv(e)
  {
    if size == Large then ColumnWidth(e) else (ColumnWidth(e) - e.config.spacing) / 2.0
  }

  /** The size of a length whatever its sign. */
  function Magnitude(x: real): (m: real)
    ensures 0.0 <= m && (m == x || m == -x)
  {
    if x < 0.0 then -x else x
  }

  /** A frame's reported height: CGRect's `height` is that of the
      standardized rectangle, so a frame built with a negative height
      reports its size. The frame itself is stored as built. */
  function FrameHeight(r: Rect): (h: real)
    ensures 0.0 <= h && (h == r.height || h == -r.height)
  {
    Magnitude(r.height)
  }

  /** `(0..<count).reduce(0) { result, _ in result + v }`. */
  function Accumulate(count: nat, v: real): real
  {
    if count == 0 then 0.0 else Accumulate(count - 1, v) + v
  }

  /** Adding `v` up `count` times gives `count` times `v`. */
  lemma {:induction false} AccumulateIsProduct(count: nat, v: real)
    ensures Accumulate(count, v) == count as real * v
  {
    if count > 0 {
      AccumulateIsProduct(count - 1, v);
    }
  }

  /**
   * verticalOffset(forSection:) as written: the reduce runs over the earlier
   * sections but reads the tallest column of the section itself.
   */
  function VerticalOffset(section: nat, row: seq<real>): real
    requires |row| > 0
  {
    Accumulate(section, row[Tallest(row)])
  }

  /** The offset is the section's index times its own current tallest
      height, not the heights of the sections above it. */
  lemma VerticalOffsetIsScaledHeight(section: nat, row: seq<real>)
    requires |row| > 0
    ensures VerticalOffset(section, row) == section as real * Height(row)
  {
    AccumulateIsProduct(section, Height(row));
  }

  /** cellRect: the square frame of a cell in `column`, on top of that column. */
  function CellRect(size: CellSize, e: Env, row: seq<real>, column: nat): Rect
    requires ValidEnv(e) && column < |row|
  {
    var side := CellHeight(size, e);
    var x := column as real * ColumnWidth(e) + e.config.inset.left + column as real * e.config.spacing;
    Rect(x, VerticalOffset(e.section, row) + row[column], side, side)
  }

  /** The frame smallCellLayoutAttributes builds: the small cellRect, moved
      right by a cell and a gap when it is the second of a pair. */
  function SmallCellRect(e: Env, row: seq<real>, column: nat, offsetColumn: bool): Rect
    requires ValidEnv(e) && column < |row|
  {
    var f := CellRect(Small, e, row, column);
    if offsetColumn then f.(x := f.x + CellHeight(Small, e) + e.config.spacing) else f
  }

  /** The frame layoutAttributes(forSupplementaryViewOfKind:) builds: full
      content width, on top of the tallest column, a footer pulled up by its
      own height when it overlays, a header never. */
  function SupplementaryFrame(kind: SupplementaryKind, e: Env, footerOverlays: bool, row: seq<real>): Rect
    requires |row| > 0
  {
    var height := if kind == Header then e.config.headerHeight else e.config.footerHeight;
    var originY := VerticalOffset(e.section, row) - (if kind == Footer && footerOverlays then height else 0.0);
    Rect(e.config.inset.left, Height(row) + originY,
         e.width - e.config.inset.left - e.config.inset.right, height)
  }

  /** The columns and the gaps between them fill the width between the insets. */
  lemma ColumnsFillWidth(e: Env)
    requires ValidEnv(e)
    ensures var n := e.config.columns as real;
      n * ColumnWidth(e) + (n - 1.0) * e.config.spacing == e.width - e.config.inset.left - e.config.inset.right
  {
    var n := e.config.columns as real;
    var w := e.width - e.config.inset.left - e.config.inset.right - (n - 1.0) * e.config.spacing;
    assert ColumnWidth(e) == w / n;
    assert n * (w / n) == w;
  }

  /** Two small cells and the gap between them are exactly one column wide. */
  lemma SmallPairIsOneColumnWide(e: Env)
    requires ValidEnv(e)
    ensures 2.0 * CellHeight(Small, e) + e.config.spacing == CellHeight(Large, e)
  {
  }

  /**
   * A large cell in `column` starts after `column` columns and gaps past the
   * left inset, and the columns to its right with their gaps take up the
   * rest of the width up to the right inset; the next column starts one gap
   * after it.
   */
  lemma LargeCellTilesWidth(e: Env, row: seq<real>, column: nat)
    requires ValidEnv(e) && column < |row|
    ensures var f := CellRect(Large, e, row, column);
      var rest := (e.config.columns - 1 - column) as real;
      f.width == f.height == ColumnWidth(e) &&
      f.x + f.width + rest * (ColumnWidth(e) + e.config.spacing) == e.width - e.config.inset.right &&
      (column + 1 < |row| ==> CellRect(Large, e, row, column + 1).x == f.x + f.width + e.config.spacing)
  {
    var n := e.config.columns as real;
    var c := column as real;
    var w := ColumnWidth(e);
    var sp := e.config.spacing;
    ColumnsFillWidth(e);
    var f := CellRect(Large, e, row, column);
    assert f.x == c * w + e.config.inset.left + c * sp;
    calc {
      f.x + f.width + (n - 1.0 - c) * (w + sp);
      c * w + e.config.inset.left + c * sp + w + (n - 1.0 - c) * (w + sp);
      { assert (n - 1.0 - c) * (w + sp) == n * w + (n - 1.0) * sp - c * w - c * sp - w; }
      e.config.inset.left + n * w + (n - 1.0) * sp;
    }
    if column + 1 < |row| {
      assert (c + 1.0) * w + (c + 1.0) * sp == c * w + c * sp + w + sp;
    }
  }

  /**
   * A completed small pair in `column`: both cells are squares of the small
   * side on the same line, the first starts where a large cell in that
   * column would, the second starts one cell and one gap later, and the
   * second ends where the column ends.
   */
  lemma SmallPairFillsColumn(e: Env, row: seq<real>, column: nat)
    requires ValidEnv(e) && column < |row|
    ensures var first := SmallCellRect(e, row, column, false);
      var second := SmallCellRect(e, row, column, true);
      var large := CellRect(Large, e, row, column);
      first.width == first.height == second.width == second.height == (ColumnWidth(e) - e.config.spacing) / 2.0 &&
      first.y == second.y == large.y &&
      first.x == large.x &&
      second.x == first.x + first.width + e.config.spacing &&
      second.x + second.width == large.x + large.width
  {
  }

  /** A supplementary view spans the width between the insets, starts
      (section + 1) tallest-heights down, less its height for an overlaying
      footer. */
  lemma SupplementaryFramePlacement(kind: SupplementaryKind, e: Env, footerOverlays: bool, row: seq<real>)
    requires |row| > 0
    ensures var f := SupplementaryFrame(kind, e, footerOverlays, row);
      f.x == e.config.inset.left &&
      f.x + f.width == e.width - e.config.inset.right &&
      f.height == (if kind == Header then e.config.headerHeight else e.config.footerHeight) &&
      f.y == (e.section + 1) as real * Height(row) - (if kind == Footer && footerOverlays then f.height else 0.0)
  {
    VerticalOffsetIsScaledHeight(e.section, row);
    var s := e.section as real;
    assert (s + 1.0) * Height(row) == s * Height(row) + Height(row);
  }
}
