/**
 * Concrete layouts worked out through the model: the reference example of
 * a 300-point wide, two-column section (down to the content size a real
 * layout object reports), small items pairing around a large one, the
 * content height of a one-column section, and the vertical offset of a
 * second section.
 */
module Scenarios {
  import opened Wrappers
  import opened Columns
  import opened Geometry
  import opened LayoutPass
  import opened LayoutProperties
  import opened Mosaic

  /** Section `section` of a 300-point wide view with `columns` columns, no
      insets, gap `spacing` and zero-height header and footer. */
  function PlainEnv(section: nat, columns: int, spacing: real): Env {
    Env(300.0, section, SectionConfig(columns, ZeroInsets, spacing, 0.0, 0.0))
  }

  /** An unfolding of Walk, not a property, that keeps the scenarios small:
      the walk over `sizes` is the walk over all but the last item, then the last one. */
  lemma WalkLast(e: Env, start: Walker, sizes: seq<CellSize>)
    requires ValidEnv(e) && |start.row| > 0 && |sizes| > 0
    ensures Walk(e, start, sizes) == Step(e, Walk(e, start, sizes[..|sizes| - 1]), |sizes| - 1, sizes[|sizes| - 1])
  {
  }

  /** An unfolding of OpenSection, not a property, that keeps the scenarios
      small: with no top inset and a zero-height header that does not
      overlay, the header phase only moves every column down by one gap. */
  lemma PlainOpen(e: Env, footerOverlays: bool, row: seq<real>, supplementary: map<IndexPath, Attributes>)
    requires |row| > 0 && e.config.inset.top == 0.0 && e.config.headerHeight == 0.0
    ensures OpenSection(e, false, footerOverlays, row, supplementary).0 == Raise(row, e.config.spacing)
  {
  }

  /** An unfolding of CloseSection, not a property, that keeps the scenarios
      small: with nothing buffered, no bottom inset and a zero-height footer,
      the footer phase leaves the row and the items as the walk left them. */
  lemma PlainClose(e: Env, w: Walker, supplementary: map<IndexPath, Attributes>)
    requires ValidEnv(e) && |w.row| > 0 && w.pending == []
    requires e.config.inset.bottom == 0.0 && e.config.footerHeight == 0.0
    ensures CloseSection(e, false, w, supplementary).grid == [w.row]
    ensures CloseSection(e, false, w, supplementary).cells == w.cells
  {
    assert Flush(e, w) == w;
    assert Raise(Raise(w.row, 0.0), 0.0) == w.row;
  }

  /** The first two items of the reference example: the large item takes
      column 0 and the small one waits for a partner. */
  lemma WorkedOpening()
    ensures Walk(PlainEnv(0, 2, 0.0), Walker([0.0, 0.0], map[], []), [Large, Small])
         == Walker([150.0, 0.0], map[IndexPath(0, 0) := Attributes(Rect(0.0, 0.0, 150.0, 150.0), 0)], [IndexPath(1, 0)])
  {
    var e := PlainEnv(0, 2, 0.0);
    var sizes := [Large, Small];
    var w0 := Walker([0.0, 0.0], map[], []);
    LevelRowTieBreak(w0.row);
    WalkLast(e, w0, sizes[..1]);
    var w1 := Step(e, w0, 0, Large);
    assert ColumnWidth(e) == 150.0;
    LargeItemPlacement(e, w0, 0);
    assert w1.row == [150.0, 0.0];
    assert w1.cells == map[IndexPath(0, 0) := Attributes(Rect(0.0, 0.0, 150.0, 150.0), 0)];
    WalkLast(e, w0, sizes);
    SmallItemBuffered(e, w1, 1);
    assert sizes[..1][..0] == [];
  }

  /** The third item of the reference example pairs with the waiting one in
      column 1. */
  lemma WorkedPairing()
    ensures Step(PlainEnv(0, 2, 0.0),
                 Walker([150.0, 0.0], map[IndexPath(0, 0) := Attributes(Rect(0.0, 0.0, 150.0, 150.0), 0)], [IndexPath(1, 0)]),
                 2, Small)
         == Walker([150.0, 75.0],
                   map[IndexPath(0, 0) := Attributes(Rect(0.0, 0.0, 150.0, 150.0), 0),
                       IndexPath(1, 0) := Attributes(Rect(150.0, 0.0, 75.0, 75.0), 0),
                       IndexPath(2, 0) := Attributes(Rect(225.0, 0.0, 75.0, 75.0), 0)], [])
  {
    var e := PlainEnv(0, 2, 0.0);
    var w := Walker([150.0, 0.0], map[IndexPath(0, 0) := Attributes(Rect(0.0, 0.0, 150.0, 150.0), 0)], [IndexPath(1, 0)]);
    assert ColumnWidth(e) == 150.0;
    ShortestUnique(w.row, 1);
    SmallPairPlacement(e, w, 2);
  }

  /** The fourth item of the reference example is large and goes on top of
      the pair in column 1. */
  lemma WorkedClosing()
    ensures Step(PlainEnv(0, 2, 0.0),
                 Walker([150.0, 75.0],
                        map[IndexPath(0, 0) := Attributes(Rect(0.0, 0.0, 150.0, 150.0), 0),
                            IndexPath(1, 0) := Attributes(Rect(150.0, 0.0, 75.0, 75.0), 0),
                            IndexPath(2, 0) := Attributes(Rect(225.0, 0.0, 75.0, 75.0), 0)], []),
                 3, Large)
         == Walker([150.0, 225.0],
                   map[IndexPath(0, 0) := Attributes(Rect(0.0, 0.0, 150.0, 150.0), 0),
                       IndexPath(1, 0) := Attributes(Rect(150.0, 0.0, 75.0, 75.0), 0),
                       IndexPath(2, 0) := Attributes(Rect(225.0, 0.0, 75.0, 75.0), 0),
                       IndexPath(3, 0) := Attributes(Rect(150.0, 75.0, 150.0, 150.0), 0)], [])
  {
    var e := PlainEnv(0, 2, 0.0);
    var w := Walker([150.0, 75.0],
                    map[IndexPath(0, 0) := Attributes(Rect(0.0, 0.0, 150.0, 150.0), 0),
                        IndexPath(1, 0) := Attributes(Rect(150.0, 0.0, 75.0, 75.0), 0),
                        IndexPath(2, 0) := Attributes(Rect(225.0, 0.0, 75.0, 75.0), 0)], []);
    assert ColumnWidth(e) == 150.0;
    ShortestUnique(w.row, 1);
    LargeItemPlacement(e, w, 3);
  }

  /** The walk of the reference example: items [large, small, small, large]
      in two columns of 150 with no gap. */
  lemma WorkedWalk()
    ensures Walk(PlainEnv(0, 2, 0.0), Walker([0.0, 0.0], map[], []), [Large, Small, Small, Large])
         == Walker([150.0, 225.0],
                   map[IndexPath(0, 0) := Attributes(Rect(0.0, 0.0, 150.0, 150.0), 0),
                       IndexPath(1, 0) := Attributes(Rect(150.0, 0.0, 75.0, 75.0), 0),
                       IndexPath(2, 0) := Attributes(Rect(225.0, 0.0, 75.0, 75.0), 0),
                       IndexPath(3, 0) := Attributes(Rect(150.0, 75.0, 150.0, 150.0), 0)], [])
  {
    var e := PlainEnv(0, 2, 0.0);
    var sizes := [Large, Small, Small, Large];
    var w0 := Walker([0.0, 0.0], map[], []);
    assert sizes[..2] == [Large, Small];
    assert sizes[..3][..2] == sizes[..2];
    WorkedOpening();
    WalkLast(e, w0, sizes[..3]);
    WorkedPairing();
    WalkLast(e, w0, sizes);
    WorkedClosing();
  }

  /** The reference example as a whole section: the walk above, closed by
      a zero-height footer; the section is 225 tall. */
  lemma WorkedExample()
    ensures var r := LayoutSection(PlainEnv(0, 2, 0.0), false, false, [Large, Small, Small, Large],
                                   [0.0, 0.0], map[], map[]);
      && r.grid == [[150.0, 225.0]]
      && r.cells == Walk(PlainEnv(0, 2, 0.0), Walker([0.0, 0.0], map[], []), [Large, Small, Small, Large]).cells
      && SumOfTallest(r.grid, 1) == 225.0
  {
    var e := PlainEnv(0, 2, 0.0);
    var sizes := [Large, Small, Small, Large];
    var head := OpenSection(e, false, false, [0.0, 0.0], map[]);
    PlainOpen(e, false, [0.0, 0.0], map[]);
    assert head.0 == [0.0, 0.0];
    WorkedWalk();
    var w := Walk(e, Walker([0.0, 0.0], map[], []), sizes);
    PlainClose(e, w, head.1);
    TallestUnique(w.row, 1);
  }

  /** Small items pair around a large one: with [small, large, small] the
      first small item waits while the large item takes column 0, and then
      goes beside the third item in column 1. */
  lemma PairAroundLargeItem()
    ensures var w := Walk(PlainEnv(0, 2, 0.0), Walker([0.0, 0.0], map[], []), [Small, Large, Small]);
      && w.row == [150.0, 75.0] && w.pending == []
      && IndexPath(0, 0) in w.cells && IndexPath(1, 0) in w.cells && IndexPath(2, 0) in w.cells
      && w.cells[IndexPath(1, 0)] == Attributes(Rect(0.0, 0.0, 150.0, 150.0), 0)
      && w.cells[IndexPath(0, 0)] == Attributes(Rect(150.0, 0.0, 75.0, 75.0), 0)
      && w.cells[IndexPath(2, 0)].frame == Rect(225.0, 0.0, 75.0, 75.0)
  {
    var e := PlainEnv(0, 2, 0.0);
    var sizes := [Small, Large, Small];
    var w0 := Walker([0.0, 0.0], map[], []);
    LevelRowTieBreak(w0.row);
    WalkLast(e, w0, sizes[..1]);
    var w1 := Step(e, w0, 0, Small);
    SmallItemBuffered(e, w0, 0);
    WalkLast(e, w0, sizes[..2]);
    var w2 := Step(e, w1, 1, Large);
    LargeItemPlacement(e, w1, 1);
    assert w2.row == [150.0, 0.0];
    WalkLast(e, w0, sizes);
    ShortestUnique(w2.row, 1);
    SmallPairPlacement(e, w2, 2);
    assert sizes[..2][..1] == sizes[..1] && sizes[..1][..0] == [];
  }

  /** One column of 300 with a 10-point gap and two large items, after a
      zero-height header that still adds a gap. */
  lemma OneColumnWalk()
    ensures var w := Walk(PlainEnv(0, 1, 10.0), Walker([10.0], map[], []), [Large, Large]);
      && w.row == [630.0] && w.pending == []
      && IndexPath(0, 0) in w.cells && IndexPath(1, 0) in w.cells
      && w.cells[IndexPath(0, 0)].frame == Rect(0.0, 10.0, 300.0, 300.0)
      && w.cells[IndexPath(1, 0)].frame == Rect(0.0, 320.0, 300.0, 300.0)
  {
    var e := PlainEnv(0, 1, 10.0);
    var sizes := [Large, Large];
    var w0 := Walker([10.0], map[], []);
    WalkLast(e, w0, sizes[..1]);
    var w1 := Step(e, w0, 0, Large);
    LargeItemPlacement(e, w0, 0);
    assert w1.row == [320.0];
    WalkLast(e, w0, sizes);
    LargeItemPlacement(e, w1, 1);
    assert sizes[..1][..0] == [];
  }

  /** The one-column section is two cells and three gaps tall (630), not
      two cells and one gap: the zero-height header adds a gap too. */
  lemma OneColumnHeight()
    ensures LayoutSection(PlainEnv(0, 1, 10.0), false, false, [Large, Large], [0.0], map[], map[]).grid == [[630.0]]
  {
    var e := PlainEnv(0, 1, 10.0);
    var head := OpenSection(e, false, false, [0.0], map[]);
    PlainOpen(e, false, [0.0], map[]);
    assert head.0 == [10.0];
    OneColumnWalk();
    PlainClose(e, Walk(e, Walker([10.0], map[], []), [Large, Large]), head.1);
  }

  /** Two small items in one column share a row: same y, the first on the
      left half and the second on the right half. */
  lemma SmallPairSharesRow()
    ensures var w := Walk(PlainEnv(0, 1, 0.0), Walker([0.0], map[], []), [Small, Small]);
      && w.row == [150.0]
      && IndexPath(0, 0) in w.cells && IndexPath(1, 0) in w.cells
      && w.cells[IndexPath(0, 0)].frame == Rect(0.0, 0.0, 150.0, 150.0)
      && w.cells[IndexPath(1, 0)].frame == Rect(150.0, 0.0, 150.0, 150.0)
  {
    var e := PlainEnv(0, 1, 0.0);
    var sizes := [Small, Small];
    var w0 := Walker([0.0], map[], []);
    WalkLast(e, w0, sizes[..1]);
    var w1 := Step(e, w0, 0, Small);
    SmallItemBuffered(e, w0, 0);
    WalkLast(e, w0, sizes);
    SmallPairPlacement(e, w1, 1);
    assert sizes[..1][..0] == [];
  }

  /** A 12-point wide view with two columns and a gap of 10: columns are
      1 wide, so a small side is -4.5 and a pair adds 4.5 and a gap to its
      column, more than the 11 a large item adds. Two small items leave the
      columns 14.5 apart, beyond one large row. */
  lemma NarrowSectionOutgrowsRow()
    ensures var e := Env(12.0, 0, SectionConfig(2, ZeroInsets, 10.0, 0.0, 0.0));
      && RowHeight(e) == 11.0 && PairHeight(e) == 14.5 && !ChargesWithinRow(e)
      && LayoutSection(e, false, false, [Small, Small], [0.0, 0.0], map[], map[]).grid[0] == [24.5, 10.0]
      && !Balanced([24.5, 10.0], RowHeight(e))
  {
    var e := Env(12.0, 0, SectionConfig(2, ZeroInsets, 10.0, 0.0, 0.0));
    assert ColumnWidth(e) == 1.0;
    var sizes := [Small, Small];
    var head := OpenSection(e, false, false, [0.0, 0.0], map[]);
    PlainOpen(e, false, [0.0, 0.0], map[]);
    assert head.0 == [10.0, 10.0];
    var w0 := Walker([10.0, 10.0], map[], []);
    WalkLast(e, w0, sizes[..1]);
    assert sizes[..1][..0] == [];
    var w1 := Step(e, w0, 0, Small);
    SmallItemBuffered(e, w0, 0);
    WalkLast(e, w0, sizes);
    ShortestUnique(w1.row, 0);
    SmallPairPlacement(e, w1, 1);
    assert Walk(e, w0, sizes).row == [24.5, 10.0];
    PlainClose(e, Walk(e, w0, sizes), head.1);
    SpreadBalanced([24.5, 10.0], RowHeight(e));
  }

  /** The second section starts from its own zeroed row, so its header and
      its first large item sit at y = 0, on top of the first section. */
  lemma SecondSectionStartsAtTop()
    ensures var r := LayoutSection(PlainEnv(1, 2, 0.0), false, false, [Large], [0.0, 0.0], map[], map[]);
      && IndexPath(0, 1) in r.supplementary && IndexPath(0, 1) in r.cells
      && r.supplementary[IndexPath(0, 1)].frame.y == 0.0
      && r.cells[IndexPath(0, 1)].frame == Rect(0.0, 0.0, 150.0, 150.0)
  {
    var e := PlainEnv(1, 2, 0.0);
    var sizes := [Large];
    var w0 := Walker([0.0, 0.0], map[], []);
    var head := OpenSection(e, false, false, [0.0, 0.0], map[]);
    assert head.0 == [0.0, 0.0];
    LevelRowTieBreak(w0.row);
    VerticalOffsetIsScaledHeight(1, w0.row);
    WalkLast(e, w0, sizes);
    LargeItemPlacement(e, w0, 0);
    assert sizes[..0] == [];
  }

  /** The host of the reference example: 300 points wide, one section of four items. */
  function WorkedHost(): CollectionView {
    CollectionView(Size(300.0, 600.0), [4])
  }

  /** The delegate of the reference example: two columns, items 0 and 3
      large, every other answer left to its default. */
  function WorkedDelegate(): Option<Delegate> {
    Some(Delegate((s: nat) => 2, Some((ip: IndexPath) => if ip.item == 0 || ip.item == 3 then Large else Small),
                  None, None, None, None, None, None))
  }

  /** The delegate sizes the four items [large, small, small, large]. */
  lemma WorkedSizes()
    ensures SectionSizes(WorkedDelegate(), 0, 4) == [Large, Small, Small, Large]
  {
    var d := WorkedDelegate();
    var sizes := SectionSizes(d, 0, 4);
    assert sizes[0] == CellSizeFor(d, IndexPath(0, 0)) == Large;
    assert sizes[1] == CellSizeFor(d, IndexPath(1, 0)) == Small;
    assert sizes[2] == CellSizeFor(d, IndexPath(2, 0)) == Small;
    assert sizes[3] == CellSizeFor(d, IndexPath(3, 0)) == Large;
  }

  /** The reference example's section sees a plain two-column section
      from a zeroed row, before anything is stored. */
  lemma WorkedStart()
    ensures Configured(WorkedHost(), WorkedDelegate())
    ensures SectionEnv(WorkedHost(), WorkedDelegate(), 0) == PlainEnv(0, 2, 0.0)
    ensures !HeaderOverlaysContent(WorkedDelegate()) && !FooterOverlaysContent(WorkedDelegate())
    ensures PreparedUpTo(WorkedHost(), WorkedDelegate(), 0) == Snapshot([[0.0, 0.0]], map[], map[])
  {
    var cv, d := WorkedHost(), WorkedDelegate();
    assert Configured(cv, d);
    PreparedStart(cv, d);
    assert NumberOfColumns(d, 0) == 2;
    assert Zeros(2) == [0.0, 0.0];
    assert ZeroGrid(cv, d) == [ZeroGrid(cv, d)[0]] == [[0.0, 0.0]];
  }

  /** The whole pass over the reference example leaves rows 150 and 225. */
  lemma WorkedPass()
    ensures Configured(WorkedHost(), WorkedDelegate())
    ensures Prepared(WorkedHost(), WorkedDelegate()).grid == [[150.0, 225.0]]
  {
    var cv, d := WorkedHost(), WorkedDelegate();
    WorkedStart();
    var prev := PreparedUpTo(cv, d, 0);
    var section := LayoutSection(PlainEnv(0, 2, 0.0), false, false, [Large, Small, Small, Large], [0.0, 0.0], map[], map[]);
    assert SectionOver(cv, d, 1, prev) == section by {
      WorkedSizes();
    }
    assert section.grid == [[150.0, 225.0]] by {
      WorkedExample();
    }
    PreparedStep(cv, d, 1);
  }

  /** The content height of the whole pass over the reference example. */
  lemma WorkedHeight()
    ensures SumOfTallest(Prepared(WorkedHost(), WorkedDelegate()).grid, 1) == 225.0
  {
    var grid := [[150.0, 225.0]];
    assert SumOfTallest(grid, 1) == 225.0 by {
      assert SumOfTallest(grid, 1) == SumOfTallest(grid, 0) + grid[0][Tallest(grid[0])];
      TallestUnique(grid[0], 1);
    }
    WorkedPass();
  }

  /** The reference example run on a layout object: after prepare() the
      content is as wide as the host and 225 tall. */
  method WorkedContentSize() returns (size: Size)
    ensures size == Size(300.0, 225.0)
  {
    var layout := new MosaicLayout(Some(WorkedHost()), WorkedDelegate());
    WorkedPass();
    WorkedHeight();
    layout.Prepare();
    assert layout.matrix.grid == [[150.0, 225.0]];
    size := layout.CollectionViewContentSize();
  }
}
