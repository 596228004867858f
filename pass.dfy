/**
 * What one `prepare()` pass computes, as functions (SwiftMosaicLayout.swift
 * lines 29-91 with the helpers at 141-197): the placement of one item, the
 * walk over a section's items, the flush of a leftover small item, the
 * section with its header and footer, and the pass over all sections.
 * The imperative layout in MosaicLayout is proved to produce exactly this.
 */
module LayoutPass {
  import opened Wrappers
  import opened Columns
  import opened Geometry

  /** The state of a section's walk: its row of column heights, the item
      attributes stored so far, and the buffered small items. */
  datatype Walker = Walker(row: seq<real>, cells: map<IndexPath, Attributes>, pending: seq<IndexPath>)

  /** The host as the layout sees it: its size and the item count of each section. */
  datatype CollectionView = CollectionView(size: Size, itemCounts: seq<nat>)

  /** A complete layout: the column table and both attribute dictionaries. */
  datatype Snapshot = Snapshot(
    grid: seq<seq<real>>,
    cells: map<IndexPath, Attributes>,
    supplementary: map<IndexPath, Attributes>)

  /** Keys of the items `0..<count` of `section`. */
  function ItemPaths(section: nat, count: nat): set<IndexPath> {
    set i | 0 <= i < count :: IndexPath(i, section)
  }

  /** Keys of a section's header (item 0) and footer (item 1). */
  function SupplementaryPaths(section: nat): set<IndexPath> {
    {IndexPath(0, section), IndexPath(1, section)}
  }

  /** One item of the walk (lines 51-71): a large item goes into the current
      shortest column; a small item is buffered, and when it is the second
      one the pair goes side by side into the column shortest now. */
  function Step(e: Env, w: Walker, item: nat, size: CellSize): (r: Walker)
    requires ValidEnv(e) && |w.row| > 0
    ensures |r.row| == |w.row|
  {
    var ip := IndexPath(item, e.section);
    var c := Shortest(w.row);
    match size
    case Large =>
      var f := CellRect(Large, e, w.row, c);
      Walker(Charge(w.row, c, FrameHeight(f) + e.config.spacing), w.cells[ip := Attributes(f, 0)], w.pending)
    case Small =>
      var buffered := w.pending + [ip];
      if |buffered| == 2 then
        var first := SmallCellRect(e, w.row, c, false);
        var second := SmallCellRect(e, w.row, c, true);
        Walker(Charge(w.row, c, FrameHeight(first) + e.config.spacing),
               w.cells[buffered[0] := Attributes(first, 0)][buffered[1] := Attributes(second, 0)],
               [])
      else
        Walker(w.row, w.cells, buffered)
  }

  /** The walk over the items `0..<|sizes|` in index order. */
  function Walk(e: Env, start: Walker, sizes: seq<CellSize>): (r: Walker)
    requires ValidEnv(e) && |start.row| > 0
    ensures |r.row| == |start.row|
  {
    if sizes == [] then start
    else
      var n := |sizes| - 1;
      Step(e, Walk(e, start, sizes[..n]), n, sizes[n])
  }

  /** Lines 74-82: a leftover small item goes, unoffset, into the shortest
      column, which is still charged as a whole pair would be. */
  function Flush(e: Env, w: Walker): (r: Walker)
    requires ValidEnv(e) && |w.row| > 0
    ensures |r.row| == |w.row|
  {
    if w.pending == [] then w
    else
      var c := Shortest(w.row);
      var f := SmallCellRect(e, w.row, c, false);
      Walker(Charge(w.row, c, FrameHeight(f) + e.config.spacing), w.cells[w.pending[0] := Attributes(f, 0)], [])
  }

  /** Lines 40-47: the top inset, then the header laid on top of the
      tallest column; unless the header overlays, every column moves down
      by its reported height and a gap. */
  function OpenSection(e: Env, headerOverlays: bool, footerOverlays: bool, row: seq<real>,
                       supplementary: map<IndexPath, Attributes>): (r: (seq<real>, map<IndexPath, Attributes>))
    requires |row| > 0
    ensures |r.0| == |row|
  {
    var top := Raise(row, e.config.inset.top);
    var header := SupplementaryFrame(Header, e, footerOverlays, top);
    (if headerOverlays then top else Raise(top, FrameHeight(header) + e.config.spacing),
     supplementary[IndexPath(0, e.section) := Attributes(header, 1)])
  }

  /** Lines 74-89: the leftover small item, then the footer laid on top of
      the tallest column (which grows by its reported height unless it overlays),
      then the bottom inset. */
  function CloseSection(e: Env, footerOverlays: bool, w: Walker,
                        supplementary: map<IndexPath, Attributes>): (r: Snapshot)
    requires ValidEnv(e) && |w.row| > 0
    ensures |r.grid| == 1 && |r.grid[0]| == |w.row|
  {
    var flushed := Flush(e, w);
    var footer := SupplementaryFrame(Footer, e, footerOverlays, flushed.row);
    var afterFooter := if footerOverlays then flushed.row else Raise(flushed.row, FrameHeight(footer));
    Snapshot([Raise(afterFooter, e.config.inset.bottom)],
             flushed.cells,
             supplementary[IndexPath(1, e.section) := Attributes(footer, 1)])
  }

  /** One section of the pass (lines 39-89), from its zeroed row. */
  function LayoutSection(e: Env, headerOverlays: bool, footerOverlays: bool, sizes: seq<CellSize>,
                         row: seq<real>, cells: map<IndexPath, Attributes>,
                         supplementary: map<IndexPath, Attributes>): (r: Snapshot)
    requires ValidEnv(e) && |row| > 0
    ensures |r.grid| == 1 && |r.grid[0]| == |row|
  {
    var head := OpenSection(e, headerOverlays, footerOverlays, row, supplementary);
    CloseSection(e, footerOverlays, Walk(e, Walker(head.0, cells, []), sizes), head.1)
  }

  /** Every section has at least one column: the source traps otherwise. */
  ghost predicate Configured(cv: CollectionView, d: Option<Delegate>) {
    forall s :: 0 <= s < |cv.itemCounts| ==> NumberOfColumns(d, s) >= 1
  }

  function SectionEnv(cv: CollectionView, d: Option<Delegate>, section: nat): Env {
    Env(cv.size.width, section, SectionConfigFor(d, section))
  }

  function SectionSizes(d: Option<Delegate>, section: nat, count: nat): seq<CellSize> {
    seq(count, i requires 0 <= i < count => CellSizeFor(d, IndexPath(i, section)))
  }

  /** The table reset() creates: one zeroed row per section. */
  function ZeroGrid(cv: CollectionView, d: Option<Delegate>): (g: seq<seq<real>>)
    requires Configured(cv, d)
    ensures |g| == |cv.itemCounts|
    ensures forall s :: 0 <= s < |g| ==> g[s] == Zeros(NumberOfColumns(d, s))
  {
    seq(|cv.itemCounts|, s requires 0 <= s < |cv.itemCounts| => Zeros(NumberOfColumns(d, s)))
  }

  /**
   * The layout after the first `k` sections of a pass: the definition of
   * the section loop. Each iteration is split into its header, item and
   * footer phases (PassHeader, PassItems, PassFooter), so that unfolding
   * one phase does not unfold the whole section. SectionOver and Advance
   * below describe the same iteration over an arbitrary earlier layout;
   * lemmas about one iteration use them, and PreparedStep proves that
   * they agree with this definition.
   */
  function PreparedUpTo(cv: CollectionView, d: Option<Delegate>, k: nat): (r: Snapshot)
    requires Configured(cv, d) && k <= |cv.itemCounts|
    ensures |r.grid| == |cv.itemCounts|
    ensures forall s :: 0 <= s < |r.grid| ==> |r.grid[s]| == NumberOfColumns(d, s)
    decreases k, 4
  {
    if k == 0 then Snapshot(ZeroGrid(cv, d), map[], map[]) else PassSection(cv, d, k)
  }

  /** The pass once section `k - 1` is laid out over the sections before it:
      its row of the table is replaced and both dictionaries grow. */
  function PassSection(cv: CollectionView, d: Option<Delegate>, k: nat): (r: Snapshot)
    requires Configured(cv, d) && 0 < k <= |cv.itemCounts|
    ensures |r.grid| == |cv.itemCounts|
    ensures forall s :: 0 <= s < |r.grid| ==> |r.grid[s]| == NumberOfColumns(d, s)
    decreases k, 3
  {
    Install(PreparedUpTo(cv, d, k - 1), k - 1, PassFooter(cv, d, k))
  }

  /** The footer phase of section `k - 1` in the pass (lines 74-89). */
  function PassFooter(cv: CollectionView, d: Option<Delegate>, k: nat): (r: Snapshot)
    requires Configured(cv, d) && 0 < k <= |cv.itemCounts|
    ensures |r.grid| == 1 && |r.grid[0]| == NumberOfColumns(d, k - 1)
    decreases k, 2
  {
    CloseSection(SectionEnv(cv, d, k - 1), FooterOverlaysContent(d), PassItems(cv, d, k), PassHeader(cv, d, k).1)
  }

  /** The item phase of section `k - 1` in the pass (lines 49-72). */
  function PassItems(cv: CollectionView, d: Option<Delegate>, k: nat): (r: Walker)
    requires Configured(cv, d) && 0 < k <= |cv.itemCounts|
    ensures |r.row| == NumberOfColumns(d, k - 1)
    decreases k, 1
  {
    Walk(SectionEnv(cv, d, k - 1), Walker(PassHeader(cv, d, k).0, PreparedUpTo(cv, d, k - 1).cells, []),
         SectionSizes(d, k - 1, cv.itemCounts[k - 1]))
  }

  /** The header phase of section `k - 1` in the pass (lines 39-47). */
  function PassHeader(cv: CollectionView, d: Option<Delegate>, k: nat): (r: (seq<real>, map<IndexPath, Attributes>))
    requires Configured(cv, d) && 0 < k <= |cv.itemCounts|
    ensures |r.0| == NumberOfColumns(d, k - 1)
    decreases k, 0
  {
    var prev := PreparedUpTo(cv, d, k - 1);
    OpenSection(SectionEnv(cv, d, k - 1), HeaderOverlaysContent(d), FooterOverlaysContent(d),
                prev.grid[k - 1], prev.supplementary)
  }

  /** Section `k - 1` laid out over the layout `prev` of the sections before
      it, as one iteration of the section loop (lines 38-90). */
  function SectionOver(cv: CollectionView, d: Option<Delegate>, k: nat, prev: Snapshot): (r: Snapshot)
    requires Configured(cv, d) && 0 < k <= |cv.itemCounts| && |prev.grid| == |cv.itemCounts|
    requires |prev.grid[k - 1]| == NumberOfColumns(d, k - 1)
    ensures |r.grid| == 1 && |r.grid[0]| == |prev.grid[k - 1]|
  {
    var s := k - 1;
    LayoutSection(SectionEnv(cv, d, s), HeaderOverlaysContent(d), FooterOverlaysContent(d),
                  SectionSizes(d, s, cv.itemCounts[s]), prev.grid[s], prev.cells, prev.supplementary)
  }

  /** `prev` with section `s`'s row replaced by the one of `sec` and the
      dictionaries of `sec`. */
  function Install(prev: Snapshot, s: nat, sec: Snapshot): (r: Snapshot)
    requires s < |prev.grid| && |sec.grid| == 1
    ensures |r.grid| == |prev.grid|
    ensures forall i :: 0 <= i < |r.grid| ==> |r.grid[i]| == if i == s then |sec.grid[0]| else |prev.grid[i]|
  {
    Snapshot(prev.grid[s := sec.grid[0]], sec.cells, sec.supplementary)
  }

  /** Section `k - 1` laid out over an arbitrary earlier layout `prev`. */
  function Advance(cv: CollectionView, d: Option<Delegate>, k: nat, prev: Snapshot): (r: Snapshot)
    requires Configured(cv, d) && 0 < k <= |cv.itemCounts| && |prev.grid| == |cv.itemCounts|
    requires |prev.grid[k - 1]| == NumberOfColumns(d, k - 1)
    ensures |r.grid| == |prev.grid| && |r.grid[k - 1]| == |prev.grid[k - 1]|
    ensures r.grid == prev.grid[k - 1 := r.grid[k - 1]]
  {
    Install(prev, k - 1, SectionOver(cv, d, k, prev))
  }

  /** A pass's layout grows one section at a time. */
  lemma PreparedStep(cv: CollectionView, d: Option<Delegate>, k: nat)
    requires Configured(cv, d) && 0 < k <= |cv.itemCounts|
    ensures PreparedUpTo(cv, d, k) == Advance(cv, d, k, PreparedUpTo(cv, d, k - 1))
  {
    var prev := PreparedUpTo(cv, d, k - 1);
    assert PreparedUpTo(cv, d, k) == PassSection(cv, d, k);
    assert PassHeader(cv, d, k) == OpenSection(SectionEnv(cv, d, k - 1), HeaderOverlaysContent(d),
                                               FooterOverlaysContent(d), prev.grid[k - 1], prev.supplementary);
    assert PassItems(cv, d, k) == Walk(SectionEnv(cv, d, k - 1), Walker(PassHeader(cv, d, k).0, prev.cells, []),
                                       SectionSizes(d, k - 1, cv.itemCounts[k - 1]));
    assert PassFooter(cv, d, k) == SectionOver(cv, d, k, prev);
  }

  /** The layout a whole pass computes. */
  function Prepared(cv: CollectionView, d: Option<Delegate>): Snapshot
    requires Configured(cv, d)
  {
    PreparedUpTo(cv, d, |cv.itemCounts|)
  }

  /** Lines 21-24: the sum over the first `k` sections of each one's tallest column. */
  function SumOfTallest(grid: seq<seq<real>>, k: nat): (h: real)
    requires k <= |grid|
    requires forall s :: 0 <= s < |grid| ==> |grid[s]| > 0
    ensures k == 0 ==> h == 0.0
    ensures (forall s, i :: 0 <= s < k && 0 <= i < |grid[s]| ==> 0.0 <= grid[s][i]) ==>
              0.0 <= h && forall s, i :: 0 <= s < k && 0 <= i < |grid[s]| ==> grid[s][i] <= h
  {
    if k == 0 then 0.0 else SumOfTallest(grid, k - 1) + Height(grid[k - 1])
  }

  /** Section `s` adds exactly the height of a column that no other column
      of the section stands above. */
  lemma SumOfTallestStep(grid: seq<seq<real>>, s: nat)
    requires s < |grid|
    requires forall t :: 0 <= t < |grid| ==> |grid[t]| > 0
    ensures exists i :: 0 <= i < |grid[s]| &&
              SumOfTallest(grid, s + 1) == SumOfTallest(grid, s) + grid[s][i] &&
              forall j :: 0 <= j < |grid[s]| ==> grid[s][j] <= grid[s][i]
  {
    var i := Tallest(grid[s]);
    assert SumOfTallest(grid, s + 1) == SumOfTallest(grid, s) + grid[s][i];
  }
}
