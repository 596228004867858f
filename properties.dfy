/**
 * What a layout pass guarantees, proved about the functions of LayoutPass
 * (and so, through Mosaic.MosaicLayout.Prepare, about the layout object).
 */
module LayoutProperties {
  import opened Wrappers
  import opened Columns
  import opened Geometry
  import opened LayoutPass

  /** `after` keeps every entry of `before`. */
  ghost predicate Extends(before: map<IndexPath, Attributes>, after: map<IndexPath, Attributes>) {
    forall p :: p in before ==> p in after && after[p] == before[p]
  }

  lemma ExtendsTransitive(a: map<IndexPath, Attributes>, b: map<IndexPath, Attributes>,
                          c: map<IndexPath, Attributes>)
    requires Extends(a, b) && Extends(b, c)
    ensures Extends(a, c)
  {
  }

  /** Every entry is drawn above the cells (zIndex 1). */
  ghost predicate OnTop(m: map<IndexPath, Attributes>) {
    forall p :: p in m ==> m[p].zIndex == 1
  }

  /** The bookkeeping of a walk after `count` items: at most one buffered
      small item, of this section and not yet placed; every earlier entry is
      kept; and the placed and buffered items are exactly `0..<count`. */
  ghost predicate Walked(e: Env, w: Walker, count: nat, base: map<IndexPath, Attributes>) {
    && |w.pending| <= 1
    && (forall p :: p in w.pending ==> p.section == e.section && p.item < count && p !in w.cells)
    && (forall p :: p in base ==> p.section != e.section)
    && Extends(base, w.cells)
    && (forall p :: p in w.cells || p in w.pending <==>
          p in base || (p.section == e.section && p.item < count))
  }

  /** An unfolding of Step for a large item, not a property: the large
      cell rectangle of the current shortest column is stored with zIndex
      0, and that column is charged the cell's reported height and a gap. It keeps the
      proofs that use it small. */
  lemma LargeItemStep(e: Env, w: Walker, item: nat)
    requires ValidEnv(e) && |w.row| > 0
    ensures Step(e, w, item, Large) ==
      Walker(Charge(w.row, Shortest(w.row), Magnitude(ColumnWidth(e)) + e.config.spacing),
             w.cells[IndexPath(item, e.section) := Attributes(CellRect(Large, e, w.row, Shortest(w.row)), 0)],
             w.pending)
  {
  }

  /** A large item goes into the current shortest column as a square one
      column wide, on top of that column; only that column grows, by the
      size of the side (the frame's reported height) and a gap, and the
      buffer is untouched. */
  lemma LargeItemPlacement(e: Env, w: Walker, item: nat)
    requires ValidEnv(e) && |w.row| > 0
    ensures Step(e, w, item, Large).cells[IndexPath(item, e.section)] ==
      Attributes(CellRect(Large, e, w.row, Shortest(w.row)), 0)
    ensures var f := Step(e, w, item, Large).cells[IndexPath(item, e.section)].frame;
      f.y == VerticalOffset(e.section, w.row) + w.row[Shortest(w.row)] &&
      f.width == f.height == ColumnWidth(e)
    ensures Step(e, w, item, Large).row == Charge(w.row, Shortest(w.row), Magnitude(ColumnWidth(e)) + e.config.spacing)
    ensures Step(e, w, item, Large).pending == w.pending
    ensures Step(e, w, item, Large).cells == w.cells[IndexPath(item, e.section) := Step(e, w, item, Large).cells[IndexPath(item, e.section)]]
  {
    LargeItemStep(e, w, item);
  }

  /** The second small item completes the pair: both go into the column
      shortest when the second arrives, on one line, the buffered one on the
      left, the new one a cell and a gap to its right; the column is charged
      once, by the size of a small side and a gap, and the buffer empties. */
  lemma SmallPairPlacement(e: Env, w: Walker, item: nat)
    requires ValidEnv(e) && |w.row| > 0
    requires |w.pending| == 1 && w.pending[0] != IndexPath(item, e.section)
    ensures var c := Shortest(w.row);
      var ip := IndexPath(item, e.section);
      var r := Step(e, w, item, Small);
      var side := (ColumnWidth(e) - e.config.spacing) / 2.0;
      && w.pending[0] in r.cells && ip in r.cells
      && r.cells[w.pending[0]] == Attributes(CellRect(Small, e, w.row, c), 0)
      && r.cells[ip].zIndex == 0
      && r.cells[ip].frame.y == r.cells[w.pending[0]].frame.y
      && r.cells[ip].frame.width == r.cells[ip].frame.height == side
      && r.cells[ip].frame.x == r.cells[w.pending[0]].frame.x + side + e.config.spacing
      && r.row == Charge(w.row, c, Magnitude(side) + e.config.spacing)
      && r.pending == []
  {
  }

  /** The first small item of a pair is only buffered. */
  lemma SmallItemBuffered(e: Env, w: Walker, item: nat)
    requires ValidEnv(e) && |w.row| > 0 && w.pending == []
    ensures Step(e, w, item, Small) == Walker(w.row, w.cells, [IndexPath(item, e.section)])
  {
  }

  /** A leftover small item goes unoffset into the shortest column at the
      end of the section, which is still charged the size of a small side
      and a gap;
      the buffer is empty afterwards. */
  lemma LeftoverPlacement(e: Env, w: Walker)
    requires ValidEnv(e) && |w.row| > 0 && |w.pending| == 1
    ensures var c := Shortest(w.row);
      var r := Flush(e, w);
      && w.pending[0] in r.cells
      && r.cells[w.pending[0]] == Attributes(CellRect(Small, e, w.row, c), 0)
      && r.row == Charge(w.row, c, Magnitude((ColumnWidth(e) - e.config.spacing) / 2.0) + e.config.spacing)
      && r.pending == []
  {
  }

  /** One item keeps the bookkeeping and never rewrites an entry. */
  lemma StepWalked(e: Env, w: Walker, count: nat, base: map<IndexPath, Attributes>, size: CellSize)
    requires ValidEnv(e) && |w.row| > 0 && Walked(e, w, count, base)
    ensures Walked(e, Step(e, w, count, size), count + 1, base)
    ensures Extends(w.cells, Step(e, w, count, size).cells)
  {
    var ip := IndexPath(count, e.section);
    assert ip !in w.cells && ip !in w.pending;
  }

  /** The bookkeeping holds after every prefix of a section's items. */
  lemma {:induction false} WalkWalked(e: Env, start: Walker, sizes: seq<CellSize>)
    requires ValidEnv(e) && |start.row| > 0 && start.pending == []
    requires forall p :: p in start.cells ==> p.section != e.section
    ensures Walked(e, Walk(e, start, sizes), |sizes|, start.cells)
  {
    if sizes != [] {
      var n := |sizes| - 1;
      WalkWalked(e, start, sizes[..n]);
      StepWalked(e, Walk(e, start, sizes[..n]), n, start.cells, sizes[n]);
    }
  }

  /** The last item of a walk rewrites no entry stored before it. */
  lemma LastItemWritesOnce(e: Env, start: Walker, sizes: seq<CellSize>)
    requires ValidEnv(e) && |start.row| > 0 && start.pending == []
    requires forall p :: p in start.cells ==> p.section != e.section
    requires |sizes| > 0
    ensures Extends(Walk(e, start, sizes[..|sizes| - 1]).cells, Walk(e, start, sizes).cells)
  {
    var n := |sizes| - 1;
    var before := Walk(e, start, sizes[..n]);
    WalkWalked(e, start, sizes[..n]);
    StepWalked(e, before, n, start.cells, sizes[n]);
    assert Walk(e, start, sizes) == Step(e, before, n, sizes[n]);
  }

  /** Once placed, an item's attributes are never rewritten by later items. */
  lemma {:induction false} WalkWritesOnce(e: Env, start: Walker, sizes: seq<CellSize>, k: nat)
    requires ValidEnv(e) && |start.row| > 0 && start.pending == []
    requires forall p :: p in start.cells ==> p.section != e.section
    requires k <= |sizes|
    ensures Extends(Walk(e, start, sizes[..k]).cells, Walk(e, start, sizes).cells)
    decreases |sizes| - k
  {
    if k < |sizes| {
      var n := |sizes| - 1;
      var before := Walk(e, start, sizes[..n]);
      assert Extends(Walk(e, start, sizes[..k]).cells, before.cells) by {
        assert sizes[..n][..k] == sizes[..k];
        WalkWritesOnce(e, start, sizes[..n], k);
      }
      LastItemWritesOnce(e, start, sizes);
      ExtendsTransitive(Walk(e, start, sizes[..k]).cells, before.cells, Walk(e, start, sizes).cells);
    } else {
      assert sizes[..k] == sizes;
    }
  }

  /** The flush places the buffered item, if any, and nothing else. */
  lemma FlushKeys(e: Env, w: Walker, count: nat, base: map<IndexPath, Attributes>)
    requires ValidEnv(e) && |w.row| > 0 && Walked(e, w, count, base)
    ensures forall p :: p in Flush(e, w).cells <==> p in base || (p.section == e.section && p.item < count)
    ensures Extends(base, Flush(e, w).cells)
    ensures Extends(w.cells, Flush(e, w).cells)
  {
  }

  /** After a section, its items `0..<count` each have one entry and the
      entries of other sections are kept. */
  lemma SectionKeys(e: Env, headerOverlays: bool, footerOverlays: bool, sizes: seq<CellSize>, row: seq<real>,
                    cells: map<IndexPath, Attributes>, supplementary: map<IndexPath, Attributes>)
    requires ValidEnv(e) && |row| > 0
    requires forall p :: p in cells ==> p.section != e.section
    ensures var r := LayoutSection(e, headerOverlays, footerOverlays, sizes, row, cells, supplementary);
      && (forall p :: p in r.cells <==> p in cells || (p.section == e.section && p.item < |sizes|))
      && Extends(cells, r.cells)
  {
    var head := OpenSection(e, headerOverlays, footerOverlays, row, supplementary);
    var start := Walker(head.0, cells, []);
    var walked := Walk(e, start, sizes);
    WalkWalked(e, start, sizes);
    FlushKeys(e, walked, |sizes|, cells);
    var r := LayoutSection(e, headerOverlays, footerOverlays, sizes, row, cells, supplementary);
    assert r.cells == Flush(e, walked).cells;
  }

  /** A section adds its header and footer under items 0 and 1, both with
      zIndex 1, and keeps the entries of other sections. */
  lemma SectionSupplementary(e: Env, headerOverlays: bool, footerOverlays: bool, sizes: seq<CellSize>,
                             row: seq<real>, cells: map<IndexPath, Attributes>,
                             supplementary: map<IndexPath, Attributes>)
    requires ValidEnv(e) && |row| > 0
    ensures var r := LayoutSection(e, headerOverlays, footerOverlays, sizes, row, cells, supplementary).supplementary;
      && r.Keys == supplementary.Keys + SupplementaryPaths(e.section)
      && r[IndexPath(0, e.section)].zIndex == 1
      && r[IndexPath(1, e.section)].zIndex == 1
      && (forall p :: p in supplementary && p !in SupplementaryPaths(e.section) ==> r[p] == supplementary[p])
      && (OnTop(supplementary) ==> OnTop(r))
  {
    var head := OpenSection(e, headerOverlays, footerOverlays, row, supplementary);
    var walked := Walk(e, Walker(head.0, cells, []), sizes);
    var r := LayoutSection(e, headerOverlays, footerOverlays, sizes, row, cells, supplementary);
    assert r.supplementary == CloseSection(e, footerOverlays, walked, head.1).supplementary;
    if OnTop(supplementary) {
      OnTopAfterSection(supplementary, r.supplementary, e.section);
    }
  }

  /** The item keys of the first `k` sections. */
  function ItemKeys(itemCounts: seq<nat>, k: nat): (keys: set<IndexPath>)
    requires k <= |itemCounts|
    ensures forall p :: p in keys <==> p.section < k && p.item < itemCounts[p.section]
  {
    if k == 0 then {}
    else
      var section := ItemPaths(k - 1, itemCounts[k - 1]);
      assert forall p :: p in section <==> p.section == k - 1 && p.item < itemCounts[k - 1] by {
        forall p: IndexPath | p.section == k - 1 && p.item < itemCounts[k - 1]
          ensures p in section
        {
          assert p == IndexPath(p.item, k - 1);
        }
      }
      ItemKeys(itemCounts, k - 1) + section
  }

  /** The header and footer keys of the first `k` sections. */
  function SupplementaryKeys(k: nat): (keys: set<IndexPath>)
    ensures forall p :: p in keys <==> p.section < k && p.item < 2
  {
    if k == 0 then {}
    else
      assert forall p :: p in SupplementaryPaths(k - 1) <==> p.section == k - 1 && p.item < 2 by {
        forall p: IndexPath | p.section == k - 1 && p.item < 2
          ensures p in SupplementaryPaths(k - 1)
        {
          assert p == IndexPath(0, k - 1) || p == IndexPath(1, k - 1);
        }
      }
      SupplementaryKeys(k - 1) + SupplementaryPaths(k - 1)
  }

  /** Section `k - 1` of a pass adds the entries of its items to those of
      the sections before it and keeps the earlier ones. */
  lemma AdvanceCells(cv: CollectionView, d: Option<Delegate>, k: nat, prev: Snapshot)
    requires Configured(cv, d) && 0 < k <= |cv.itemCounts| && |prev.grid| == |cv.itemCounts|
    requires |prev.grid[k - 1]| == NumberOfColumns(d, k - 1)
    requires prev.cells.Keys == ItemKeys(cv.itemCounts, k - 1)
    ensures Advance(cv, d, k, prev).cells.Keys == ItemKeys(cv.itemCounts, k)
  {
    var s := k - 1;
    var sizes := SectionSizes(d, s, cv.itemCounts[s]);
    assert |sizes| == cv.itemCounts[s];
    var e := SectionEnv(cv, d, s);
    SectionKeys(e, HeaderOverlaysContent(d), FooterOverlaysContent(d), sizes, prev.grid[s], prev.cells, prev.supplementary);
    var sec := LayoutSection(e, HeaderOverlaysContent(d), FooterOverlaysContent(d), sizes, prev.grid[s],
                             prev.cells, prev.supplementary);
    ItemKeysStep(prev.cells.Keys, sec.cells.Keys, cv.itemCounts, k);
  }

  /** Adding the items of section `k - 1` to the item keys of the sections
      before it gives the item keys of the first `k` sections. */
  lemma ItemKeysStep(before: set<IndexPath>, after: set<IndexPath>, itemCounts: seq<nat>, k: nat)
    requires 0 < k <= |itemCounts| && before == ItemKeys(itemCounts, k - 1)
    requires forall p :: p in after <==> p in before || (p.section == k - 1 && p.item < itemCounts[k - 1])
    ensures after == ItemKeys(itemCounts, k)
  {
    assert forall p :: p in after <==> p in ItemKeys(itemCounts, k);
  }

  /** Section `k - 1` of a pass adds its header and footer to the
      supplementary entries of the sections before it. */
  lemma AdvanceSupplementaryKeys(cv: CollectionView, d: Option<Delegate>, k: nat, prev: Snapshot)
    requires Configured(cv, d) && 0 < k <= |cv.itemCounts| && |prev.grid| == |cv.itemCounts|
    requires |prev.grid[k - 1]| == NumberOfColumns(d, k - 1)
    requires prev.supplementary.Keys == SupplementaryKeys(k - 1)
    ensures Advance(cv, d, k, prev).supplementary.Keys == SupplementaryKeys(k)
  {
    var s := k - 1;
    SectionSupplementary(SectionEnv(cv, d, s), HeaderOverlaysContent(d), FooterOverlaysContent(d),
                         SectionSizes(d, s, cv.itemCounts[s]), prev.grid[s], prev.cells, prev.supplementary);
  }

  /** Section `k - 1` of a pass gives its header and footer zIndex 1 and
      keeps the other supplementary entries. */
  lemma AdvanceOnTop(cv: CollectionView, d: Option<Delegate>, k: nat, prev: Snapshot)
    requires Configured(cv, d) && 0 < k <= |cv.itemCounts| && |prev.grid| == |cv.itemCounts|
    requires |prev.grid[k - 1]| == NumberOfColumns(d, k - 1)
    requires OnTop(prev.supplementary)
    ensures OnTop(Advance(cv, d, k, prev).supplementary)
  {
    var s := k - 1;
    SectionSupplementary(SectionEnv(cv, d, s), HeaderOverlaysContent(d), FooterOverlaysContent(d),
                         SectionSizes(d, s, cv.itemCounts[s]), prev.grid[s], prev.cells, prev.supplementary);
  }

  /** Adding a section's header and footer with zIndex 1, and keeping the
      other entries, keeps every supplementary entry on top. */
  lemma OnTopAfterSection(before: map<IndexPath, Attributes>, after: map<IndexPath, Attributes>, section: nat)
    requires OnTop(before)
    requires after.Keys == before.Keys + SupplementaryPaths(section)
    requires after[IndexPath(0, section)].zIndex == 1 && after[IndexPath(1, section)].zIndex == 1
    requires forall p :: p in before && p !in SupplementaryPaths(section) ==> after[p] == before[p]
    ensures OnTop(after)
  {
    forall p | p in after
      ensures after[p].zIndex == 1
    {
      if p !in SupplementaryPaths(section) {
        assert p in before;
      }
    }
  }

  /** A pass starts from the zeroed table and empty dictionaries. */
  lemma PreparedStart(cv: CollectionView, d: Option<Delegate>)
    requires Configured(cv, d)
    ensures PreparedUpTo(cv, d, 0) == Snapshot(ZeroGrid(cv, d), map[], map[])
  {
  }

  /** Section `k - 1` adds its items to the item keys of the sections before it. */
  lemma CellKeysStep(cv: CollectionView, d: Option<Delegate>, k: nat)
    requires Configured(cv, d) && 0 < k <= |cv.itemCounts|
    requires PreparedUpTo(cv, d, k - 1).cells.Keys == ItemKeys(cv.itemCounts, k - 1)
    ensures PreparedUpTo(cv, d, k).cells.Keys == ItemKeys(cv.itemCounts, k)
  {
    var prev := PreparedUpTo(cv, d, k - 1);
    AdvanceCells(cv, d, k, prev);
    PreparedStep(cv, d, k);
  }

  /** Section `k - 1` adds its header and footer, on top, to the
      supplementary entries of the sections before it. */
  lemma SupplementaryKeysStep(cv: CollectionView, d: Option<Delegate>, k: nat)
    requires Configured(cv, d) && 0 < k <= |cv.itemCounts|
    requires PreparedUpTo(cv, d, k - 1).supplementary.Keys == SupplementaryKeys(k - 1)
    requires OnTop(PreparedUpTo(cv, d, k - 1).supplementary)
    ensures PreparedUpTo(cv, d, k).supplementary.Keys == SupplementaryKeys(k)
    ensures OnTop(PreparedUpTo(cv, d, k).supplementary)
  {
    var prev := PreparedUpTo(cv, d, k - 1);
    AdvanceSupplementaryKeys(cv, d, k, prev);
    AdvanceOnTop(cv, d, k, prev);
    PreparedStep(cv, d, k);
  }

  /** After the first `k` sections, every item of each of them has exactly
      one entry and nothing else does. */
  lemma {:induction false} PreparedCellKeys(cv: CollectionView, d: Option<Delegate>, k: nat)
    requires Configured(cv, d) && k <= |cv.itemCounts|
    ensures PreparedUpTo(cv, d, k).cells.Keys == ItemKeys(cv.itemCounts, k)
  {
    if k == 0 {
      PreparedStart(cv, d);
    } else {
      PreparedCellKeys(cv, d, k - 1);
      CellKeysStep(cv, d, k);
    }
  }

  /** After the first `k` sections, each of them has its header and footer
      under items 0 and 1, with zIndex 1, and there is no other
      supplementary entry. */
  lemma {:induction false} PreparedSupplementaryKeys(cv: CollectionView, d: Option<Delegate>, k: nat)
    requires Configured(cv, d) && k <= |cv.itemCounts|
    ensures PreparedUpTo(cv, d, k).supplementary.Keys == SupplementaryKeys(k)
    ensures OnTop(PreparedUpTo(cv, d, k).supplementary)
  {
    if k == 0 {
      PreparedStart(cv, d);
    } else {
      PreparedSupplementaryKeys(cv, d, k - 1);
      SupplementaryKeysStep(cv, d, k);
    }
  }

  /** After a whole pass every item of every section has exactly one entry. */
  lemma EveryItemPlacedOnce(cv: CollectionView, d: Option<Delegate>)
    requires Configured(cv, d)
    ensures forall p :: p in Prepared(cv, d).cells <==>
      p.section < |cv.itemCounts| && p.item < cv.itemCounts[p.section]
    ensures forall p :: p in Prepared(cv, d).supplementary <==> p.section < |cv.itemCounts| && p.item < 2
    ensures OnTop(Prepared(cv, d).supplementary)
  {
    PreparedCellKeys(cv, d, |cv.itemCounts|);
    PreparedSupplementaryKeys(cv, d, |cv.itemCounts|);
  }

  /** What one large item adds to its column: the size of its side (the
      frame's reported height) and a gap. */
  function RowHeight(e: Env): real
    requires ValidEnv(e)
  {
    Magnitude(ColumnWidth(e)) + e.config.spacing
  }

  /** What a pair of small items, or a leftover one, adds to its column:
      the size of a small side and a gap. */
  function PairHeight(e: Env): real
    requires ValidEnv(e)
  {
    Magnitude(CellHeight(Small, e)) + e.config.spacing
  }

  /** Neither kind of placement lowers a column or raises it by more than
      a large row. */
  ghost predicate ChargesWithinRow(e: Env) {
    ValidEnv(e) && 0.0 <= PairHeight(e) <= RowHeight(e)
  }

  /** A section whose gap, whatever its sign, is no wider than a column
      has non-negative cell sides, and each placement raises its column by
      at least nothing and at most a large row. */
  lemma GapWithinColumnChargesWithinRow(e: Env)
    requires ValidEnv(e) && Magnitude(e.config.spacing) <= ColumnWidth(e)
    ensures 0.0 <= CellHeight(Small, e) <= CellHeight(Large, e)
    ensures ChargesWithinRow(e)
  {
  }

  /** One item keeps the columns within one large row of each other and
      never lowers a column. */
  lemma StepBalanced(e: Env, w: Walker, item: nat, size: CellSize)
    requires ValidEnv(e) && |w.row| > 0 && ChargesWithinRow(e)
    requires Balanced(w.row, RowHeight(e))
    ensures Balanced(Step(e, w, item, size).row, RowHeight(e))
    ensures Grown(w.row, Step(e, w, item, size).row)
  {
    var h := RowHeight(e);
    if size == Large {
      ChargeShortestKeepsBalance(w.row, h, h);
    } else if |w.pending + [IndexPath(item, e.section)]| == 2 {
      ChargeShortestKeepsBalance(w.row, h, PairHeight(e));
    }
  }

  /** Column balancing: placing every item into the shortest column keeps
      the columns within one large row of each other, however the items
      are sized, and never lowers a column. */
  lemma {:induction false} WalkBalanced(e: Env, start: Walker, sizes: seq<CellSize>)
    requires ValidEnv(e) && |start.row| > 0 && ChargesWithinRow(e)
    requires Balanced(start.row, RowHeight(e))
    ensures Balanced(Walk(e, start, sizes).row, RowHeight(e))
    ensures Grown(start.row, Walk(e, start, sizes).row)
  {
    if sizes != [] {
      var n := |sizes| - 1;
      WalkBalanced(e, start, sizes[..n]);
      StepBalanced(e, Walk(e, start, sizes[..n]), n, sizes[n]);
    }
  }

  /** `n` large items in a row. */
  function AllLarge(n: nat): (sizes: seq<CellSize>)
    ensures |sizes| == n && forall k :: 0 <= k < n ==> sizes[k] == Large
  {
    seq(n, _ => Large)
  }

  /** The column the next of `n` large items dealt round-robin over `c`
      level columns goes into: counted up one item at a time, back to 0
      after the last column. */
  function Turn(n: nat, c: nat): (t: nat)
    requires c > 0
    ensures t < c
  {
    if n == 0 then 0 else if Turn(n - 1, c) + 1 == c then 0 else Turn(n - 1, c) + 1
  }

  /** How many complete rounds over `c` columns `n` large items make. */
  function Rounds(n: nat, c: nat): nat
    requires c > 0
  {
    if n == 0 then 0 else Rounds(n - 1, c) + (if Turn(n - 1, c) + 1 == c then 1 else 0)
  }

  /** How many rows `n` large items stack up over `c` columns. */
  function Rows(n: nat, c: nat): nat
    requires c > 0
  {
    Rounds(n, c) + if Turn(n, c) > 0 then 1 else 0
  }

  /** Rounds and Turn are the quotient and remainder of `n` by `c`. */
  lemma {:induction false} TurnIsRemainder(n: nat, c: nat)
    requires c > 0
    ensures n == Rounds(n, c) * c + Turn(n, c)
  {
    if n > 0 {
      TurnIsRemainder(n - 1, c);
      var f := Rounds(n - 1, c);
      assert (f + 1) * c == f * c + c;
    }
  }

  /** Rows is the ceiling of `n / c`: the rows hold all `n` items and
      the last one is not empty. */
  lemma RowsIsCeiling(n: nat, c: nat)
    requires c > 0
    ensures n <= Rows(n, c) * c < n + c
  {
    TurnIsRemainder(n, c);
    var f := Rounds(n, c);
    assert (f + 1) * c == f * c + c;
  }

  /** The columns after large items were dealt round-robin from a level
      row at `b`: `f` complete rounds, and the columns before `t` one more
      row. */
  ghost predicate RoundRobin(row: seq<real>, b: real, f: nat, t: nat, h: real) {
    forall i :: 0 <= i < |row| ==> row[i] == b + Accumulate(f + (if i < t then 1 else 0), h)
  }

  /** With rows of positive height, column `t`, whose turn it is, is the
      first shortest one. */
  lemma RoundRobinTurn(row: seq<real>, b: real, f: nat, t: nat, h: real)
    requires t < |row| && 0.0 < h && RoundRobin(row, b, f, t, h)
    ensures Shortest(row) == t
  {
    assert Accumulate(f + 1, h) == Accumulate(f, h) + h;
    ShortestUnique(row, t);
  }

  /** Charging column `t` by one row deals the next item: the turn moves on,
      and past the last column a round is complete. */
  lemma RoundRobinCharge(row: seq<real>, b: real, f: nat, t: nat, h: real)
    requires t < |row| && RoundRobin(row, b, f, t, h)
    ensures var last := t + 1 == |row|;
      RoundRobin(Charge(row, t, h), b, if last then f + 1 else f, if last then 0 else t + 1, h)
  {
    assert Accumulate(f + 1, h) == Accumulate(f, h) + h;
  }

  /** With rows of zero height every column stays at the level start, and
      is dealt whatever the count. */
  lemma RoundRobinFlat(row: seq<real>, b: real, f: nat, t: nat, f': nat, t': nat)
    requires RoundRobin(row, b, f, t, 0.0)
    ensures forall i :: 0 <= i < |row| ==> row[i] == b
    ensures RoundRobin(row, b, f', t', 0.0)
  {
    AccumulateIsProduct(f, 0.0);
    AccumulateIsProduct(f + 1, 0.0);
    AccumulateIsProduct(f', 0.0);
    AccumulateIsProduct(f' + 1, 0.0);
  }

  /** One more large item goes into the column whose turn it is. */
  lemma RoundRobinStep(e: Env, w: Walker, b: real, n: nat, item: nat)
    requires ValidEnv(e) && |w.row| > 0 && 0.0 <= RowHeight(e)
    requires RoundRobin(w.row, b, Rounds(n, |w.row|), Turn(n, |w.row|), RowHeight(e))
    ensures RoundRobin(Step(e, w, item, Large).row, b, Rounds(n + 1, |w.row|), Turn(n + 1, |w.row|), RowHeight(e))
  {
    var h, c := RowHeight(e), |w.row|;
    var f, t := Rounds(n, c), Turn(n, c);
    var f', t' := Rounds(n + 1, c), Turn(n + 1, c);
    assert f' == (if t + 1 == c then f + 1 else f) && t' == (if t + 1 == c then 0 else t + 1);
    var r := Charge(w.row, Shortest(w.row), h);
    assert Step(e, w, item, Large).row == r by {
      LargeItemStep(e, w, item);
    }
    if h == 0.0 {
      RoundRobinFlat(w.row, b, f, t, f', t');
      assert r == w.row;
    } else {
      RoundRobinTurn(w.row, b, f, t, h);
      RoundRobinCharge(w.row, b, f, t, h);
    }
  }

  /** Large items alone are dealt round-robin: from a level row, the
      `k`-th large item goes into column `k` modulo the column count. */
  lemma {:induction false} AllLargeWalk(e: Env, start: Walker, n: nat)
    requires ValidEnv(e) && |start.row| > 0 && 0.0 <= RowHeight(e)
    requires forall i :: 0 <= i < |start.row| ==> start.row[i] == start.row[0]
    ensures RoundRobin(Walk(e, start, AllLarge(n)).row, start.row[0],
                       Rounds(n, |start.row|), Turn(n, |start.row|), RowHeight(e))
    ensures Walk(e, start, AllLarge(n)).pending == start.pending
  {
    if n == 0 {
      assert AllLarge(0) == [];
    } else {
      assert AllLarge(n)[..n - 1] == AllLarge(n - 1);
      AllLargeWalk(e, start, n - 1);
      RoundRobinStep(e, Walk(e, start, AllLarge(n - 1)), start.row[0], n - 1, n - 1);
      LargeItemStep(e, Walk(e, start, AllLarge(n - 1)), n - 1);
    }
  }

  /** After round-robin dealing, the tallest column stands exactly one row
      above the `f` complete rounds if a round is under way. */
  lemma RoundRobinHeight(row: seq<real>, b: real, f: nat, t: nat, h: real)
    requires t < |row| && 0.0 <= h && RoundRobin(row, b, f, t, h)
    ensures Height(row) == b + Accumulate(f + (if t > 0 then 1 else 0), h)
  {
    var c := Tallest(row);
    assert Accumulate(f + 1, h) == Accumulate(f, h) + h;
    assert row[c] >= row[0];
  }

  /** A section's walk over `n` large items from a level row at `b` ends
      with its tallest column `Rows(n, C)` large rows above `b`, `Rows`
      being the ceiling of `n / C` (RowsIsCeiling). */
  lemma AllLargeHeight(e: Env, start: Walker, n: nat)
    requires ValidEnv(e) && |start.row| > 0 && 0.0 <= RowHeight(e)
    requires forall i :: 0 <= i < |start.row| ==> start.row[i] == start.row[0]
    ensures Height(Walk(e, start, AllLarge(n)).row) == start.row[0] + Accumulate(Rows(n, |start.row|), RowHeight(e))
  {
    var c := |start.row|;
    var f, t := Rounds(n, c), Turn(n, c);
    var row := Walk(e, start, AllLarge(n)).row;
    assert RoundRobin(row, start.row[0], f, t, RowHeight(e)) by {
      AllLargeWalk(e, start, n);
    }
    RoundRobinHeight(row, start.row[0], f, t, RowHeight(e));
    assert Rows(n, c) == f + (if t > 0 then 1 else 0);
  }

  /** A whole section of `n` large items and no small ones: its tallest
      column ends `Rows(n, C)` large rows (the ceiling of `n / C`) above
      what the top inset and the header add, plus what the footer and the
      bottom inset add. */
  lemma AllLargeSection(e: Env, headerOverlays: bool, footerOverlays: bool, n: nat, row: seq<real>,
                        cells: map<IndexPath, Attributes>, supplementary: map<IndexPath, Attributes>)
    requires ValidEnv(e) && |row| > 0 && 0.0 <= RowHeight(e)
    requires forall i :: 0 <= i < |row| ==> row[i] == 0.0
    ensures var r := LayoutSection(e, headerOverlays, footerOverlays, AllLarge(n), row, cells, supplementary);
      Height(r.grid[0]) ==
        e.config.inset.top + (if headerOverlays then 0.0 else Magnitude(e.config.headerHeight) + e.config.spacing)
        + Accumulate(Rows(n, |row|), RowHeight(e))
        + (if footerOverlays then 0.0 else Magnitude(e.config.footerHeight)) + e.config.inset.bottom
  {
    var rise := e.config.inset.top + (if headerOverlays then 0.0 else Magnitude(e.config.headerHeight) + e.config.spacing);
    var head := OpenSection(e, headerOverlays, footerOverlays, row, supplementary);
    assert forall i :: 0 <= i < |head.0| ==> head.0[i] == rise by {
      HeaderPlacement(e, headerOverlays, footerOverlays, row, supplementary);
    }
    var start := Walker(head.0, cells, []);
    var w := Walk(e, start, AllLarge(n));
    assert Height(w.row) == rise + Accumulate(Rows(n, |row|), RowHeight(e)) && w.pending == [] by {
      AllLargeWalk(e, start, n);
      AllLargeHeight(e, start, n);
    }
    var afterFooter := if footerOverlays then w.row else Raise(w.row, Magnitude(e.config.footerHeight));
    assert LayoutSection(e, headerOverlays, footerOverlays, AllLarge(n), row, cells, supplementary).grid[0]
        == Raise(afterFooter, e.config.inset.bottom) by {
      assert Flush(e, w) == w;
    }
    RaiseKeepsExtremes(w.row, Magnitude(e.config.footerHeight));
    RaiseKeepsExtremes(afterFooter, e.config.inset.bottom);
  }

  /** Opening a section from its zeroed row leaves its columns level. */
  lemma OpenBalanced(e: Env, headerOverlays: bool, footerOverlays: bool, row: seq<real>,
                     supplementary: map<IndexPath, Attributes>)
    requires ValidEnv(e) && |row| > 0 && 0.0 <= RowHeight(e)
    requires forall i :: 0 <= i < |row| ==> row[i] == 0.0
    ensures Balanced(OpenSection(e, headerOverlays, footerOverlays, row, supplementary).0, RowHeight(e))
  {
    var h := RowHeight(e);
    var top := Raise(row, e.config.inset.top);
    RaiseKeepsBalance(row, h, e.config.inset.top);
    RaiseKeepsBalance(top, h, FrameHeight(SupplementaryFrame(Header, e, footerOverlays, top)) + e.config.spacing);
  }

  /** Closing a section keeps its columns within one large row of each other. */
  lemma CloseBalanced(e: Env, footerOverlays: bool, w: Walker, supplementary: map<IndexPath, Attributes>)
    requires ValidEnv(e) && |w.row| > 0 && ChargesWithinRow(e)
    requires Balanced(w.row, RowHeight(e))
    ensures Balanced(CloseSection(e, footerOverlays, w, supplementary).grid[0], RowHeight(e))
  {
    var h := RowHeight(e);
    var flushed := Flush(e, w);
    if w.pending != [] {
      ChargeShortestKeepsBalance(w.row, h, PairHeight(e));
    }
    RaiseKeepsBalance(flushed.row, h, Magnitude(e.config.footerHeight));
    var afterFooter := if footerOverlays then flushed.row else Raise(flushed.row, Magnitude(e.config.footerHeight));
    RaiseKeepsBalance(afterFooter, h, e.config.inset.bottom);
  }

  /** A finished section, from its zeroed row, has no two columns more than
      one large row apart. */
  lemma SectionBalanced(e: Env, headerOverlays: bool, footerOverlays: bool, sizes: seq<CellSize>,
                        row: seq<real>, cells: map<IndexPath, Attributes>,
                        supplementary: map<IndexPath, Attributes>)
    requires ValidEnv(e) && |row| > 0 && ChargesWithinRow(e)
    requires forall i :: 0 <= i < |row| ==> row[i] == 0.0
    ensures Balanced(LayoutSection(e, headerOverlays, footerOverlays, sizes, row, cells, supplementary).grid[0],
                     RowHeight(e))
  {
    var head := OpenSection(e, headerOverlays, footerOverlays, row, supplementary);
    OpenBalanced(e, headerOverlays, footerOverlays, row, supplementary);
    var start := Walker(head.0, cells, []);
    WalkBalanced(e, start, sizes);
    CloseBalanced(e, footerOverlays, Walk(e, start, sizes), head.1);
  }

  /** The header of a section, from its zeroed row: it lies on top of the
      top inset, `section + 1` insets down (the vertical offset as written),
      full content width, and is never pulled up; the columns then move down
      by the size of the header's height (its reported height) and a gap
      only when it does not overlay. */
  lemma HeaderPlacement(e: Env, headerOverlays: bool, footerOverlays: bool, row: seq<real>,
                        supplementary: map<IndexPath, Attributes>)
    requires |row| > 0
    requires forall i :: 0 <= i < |row| ==> row[i] == 0.0
    ensures var r := OpenSection(e, headerOverlays, footerOverlays, row, supplementary);
      var header := r.1[IndexPath(0, e.section)];
      && header.frame == Rect(e.config.inset.left, (e.section + 1) as real * e.config.inset.top,
                              e.width - e.config.inset.left - e.config.inset.right, e.config.headerHeight)
      && header.zIndex == 1
      && (forall i :: 0 <= i < |row| ==>
            r.0[i] == e.config.inset.top + (if headerOverlays then 0.0 else Magnitude(e.config.headerHeight) + e.config.spacing))
  {
    var top := Raise(row, e.config.inset.top);
    LevelRowTieBreak(top);
    SupplementaryFramePlacement(Header, e, footerOverlays, top);
  }

  /** The footer of a section lies on top of the tallest column after the
      last item, pulled up by its own height when it overlays; the columns
      grow by the size of its height (its reported height) only when it
      does not overlay, then by the bottom inset. */
  lemma FooterPlacement(e: Env, footerOverlays: bool, w: Walker, supplementary: map<IndexPath, Attributes>)
    requires ValidEnv(e) && |w.row| > 0
    ensures var flushed := Flush(e, w);
      var r := CloseSection(e, footerOverlays, w, supplementary);
      var footer := r.supplementary[IndexPath(1, e.section)];
      && footer.frame.y == Height(flushed.row) + VerticalOffset(e.section, flushed.row)
                           - (if footerOverlays then e.config.footerHeight else 0.0)
      && footer.frame.height == e.config.footerHeight
      && footer.zIndex == 1
      && (forall i :: 0 <= i < |w.row| ==>
            r.grid[0][i] == flushed.row[i] + (if footerOverlays then 0.0 else Magnitude(e.config.footerHeight)) + e.config.inset.bottom)
  {
  }

  /** With no negative heights, the sum of tallest columns never shrinks
      as more sections are counted. */
  lemma {:induction false} SumOfTallestGrows(grid: seq<seq<real>>, t: nat, s: nat)
    requires t <= s <= |grid|
    requires forall u :: 0 <= u < |grid| ==> |grid[u]| > 0
    requires forall u, i :: 0 <= u < |grid| && 0 <= i < |grid[u]| ==> 0.0 <= grid[u][i]
    ensures SumOfTallest(grid, t) <= SumOfTallest(grid, s)
    decreases s - t
  {
    if t < s {
      SumOfTallestGrows(grid, t + 1, s);
      assert 0.0 <= grid[t][Tallest(grid[t])];
    }
  }

  /** The stacking the reduce over the earlier sections in
      verticalOffset evidently aims at: if section `s` were offset by the
      sum of the tallest columns of the sections above it, anything it
      places at a height `y >= 0` of its own would lie at or below the
      bottom of every column of every earlier section, so stacked. The
      code offsets by VerticalOffset instead (SecondSectionStartsAtTop). */
  lemma StackedSectionsClear(grid: seq<seq<real>>, s: nat, t: nat, i: nat, y: real)
    requires s <= |grid| && t < s && i < |grid[t]| && 0.0 <= y
    requires forall u :: 0 <= u < |grid| ==> |grid[u]| > 0
    requires forall u, j :: 0 <= u < |grid| && 0 <= j < |grid[u]| ==> 0.0 <= grid[u][j]
    ensures SumOfTallest(grid, t) + grid[t][i] <= SumOfTallest(grid, s) + y
  {
    SumOfTallestGrows(grid, t + 1, s);
  }

  /** On a level row, a large item lies `section + 1` times the row's
      height down: the vertical offset as written counts the section's own
      height once per earlier section. */
  lemma LevelRowLargeItem(e: Env, w: Walker, item: nat)
    requires ValidEnv(e) && |w.row| > 0
    requires forall i :: 0 <= i < |w.row| ==> w.row[i] == w.row[0]
    ensures Step(e, w, item, Large).cells[IndexPath(item, e.section)].frame.y == (e.section + 1) as real * w.row[0]
  {
    var s := e.section as real;
    var h := w.row[0];
    assert Shortest(w.row) == 0 && Height(w.row) == h by {
      LevelRowTieBreak(w.row);
    }
    assert VerticalOffset(e.section, w.row) == s * h by {
      VerticalOffsetIsScaledHeight(e.section, w.row);
    }
    var y := Step(e, w, item, Large).cells[IndexPath(item, e.section)].frame.y;
    assert y == VerticalOffset(e.section, w.row) + h by {
      LargeItemPlacement(e, w, item);
    }
    assert y == (s + 1.0) * h;
  }

  /** The first item of a section, when large, sits `section + 1` times the
      header phase's rise down: the top inset, plus the header height and a
      gap when the header does not overlay. The sections above it do not
      enter. */
  lemma FirstLargeItemOffset(e: Env, headerOverlays: bool, footerOverlays: bool, row: seq<real>,
                             cells: map<IndexPath, Attributes>, supplementary: map<IndexPath, Attributes>)
    requires ValidEnv(e) && |row| > 0
    requires forall i :: 0 <= i < |row| ==> row[i] == 0.0
    ensures var head := OpenSection(e, headerOverlays, footerOverlays, row, supplementary);
      var rise := e.config.inset.top + (if headerOverlays then 0.0 else Magnitude(e.config.headerHeight) + e.config.spacing);
      Step(e, Walker(head.0, cells, []), 0, Large).cells[IndexPath(0, e.section)].frame.y
        == (e.section + 1) as real * rise
  {
    var head := OpenSection(e, headerOverlays, footerOverlays, row, supplementary);
    HeaderPlacement(e, headerOverlays, footerOverlays, row, supplementary);
    LevelRowLargeItem(e, Walker(head.0, cells, []), 0);
  }

  /** A large first item of a section is placed by the first step and
      kept through the rest of the walk and the flush. */
  lemma FirstLargeItemKept(e: Env, start: Walker, sizes: seq<CellSize>)
    requires ValidEnv(e) && |start.row| > 0 && start.pending == []
    requires forall p :: p in start.cells ==> p.section != e.section
    requires |sizes| > 0 && sizes[0] == Large
    ensures var first := IndexPath(0, e.section);
      var f := Flush(e, Walk(e, start, sizes));
      first in f.cells && f.cells[first] == Step(e, start, 0, Large).cells[first]
  {
    assert sizes[..1][..0] == [];
    assert Walk(e, start, sizes[..1]) == Step(e, start, 0, Large);
    WalkWritesOnce(e, start, sizes, 1);
    WalkWalked(e, start, sizes);
    FlushKeys(e, Walk(e, start, sizes), |sizes|, start.cells);
  }

  /** With an overlaying header, a large first item starts on the same line
      as the header, and that entry is never rewritten by later items. */
  lemma OverlayHeaderAlignsWithFirstItem(e: Env, footerOverlays: bool, sizes: seq<CellSize>, row: seq<real>,
                                         cells: map<IndexPath, Attributes>, supplementary: map<IndexPath, Attributes>)
    requires ValidEnv(e) && |row| > 0
    requires forall i :: 0 <= i < |row| ==> row[i] == 0.0
    requires forall p :: p in cells ==> p.section != e.section
    requires |sizes| > 0 && sizes[0] == Large
    ensures var r := LayoutSection(e, true, footerOverlays, sizes, row, cells, supplementary);
      var first := IndexPath(0, e.section);
      first in r.cells && first in r.supplementary &&
      r.cells[first].frame.y == r.supplementary[first].frame.y
  {
    var first := IndexPath(0, e.section);
    var head := OpenSection(e, true, footerOverlays, row, supplementary);
    HeaderPlacement(e, true, footerOverlays, row, supplementary);
    var start := Walker(head.0, cells, []);
    LevelRowTieBreak(head.0);
    LargeItemPlacement(e, start, 0);
    FirstLargeItemKept(e, start, sizes);
    var walked := Walk(e, start, sizes);
    var r := LayoutSection(e, true, footerOverlays, sizes, row, cells, supplementary);
    assert r.cells == Flush(e, walked).cells;
    assert r.supplementary == CloseSection(e, footerOverlays, walked, head.1).supplementary;
    assert r.supplementary[first] == head.1[first];
    var s := e.section as real;
    assert Height(head.0) == e.config.inset.top;
    assert (s + 1.0) * e.config.inset.top == s * e.config.inset.top + e.config.inset.top;
  }

  /** In every section of the pass each placement raises its column by
      at least nothing and at most a large row. */
  ghost predicate Spaced(cv: CollectionView, d: Option<Delegate>) {
    forall s :: 0 <= s < |cv.itemCounts| ==> ChargesWithinRow(SectionEnv(cv, d, s))
  }

  /** Column balancing over a whole pass: when in every section each
      placement raises its column by at most a large row and lowers none,
      the tallest column of section `s` stands at most one
      large row above its shortest once the section is laid out, and later
      sections leave it alone. */
  lemma PreparedBalanced(cv: CollectionView, d: Option<Delegate>, k: nat, s: nat)
    requires Configured(cv, d) && s < k <= |cv.itemCounts| && Spaced(cv, d)
    ensures ValidEnv(SectionEnv(cv, d, s))
    ensures Spread(PreparedUpTo(cv, d, k).grid[s]) <= RowHeight(SectionEnv(cv, d, s))
  {
    PreparedRowsAhead(cv, d, s, s);
    LastSectionBalanced(cv, d, s + 1, s);
    RowSettled(cv, d, k, s);
  }

  /** Once section `s` is laid out its row no longer changes. */
  lemma {:induction false} RowSettled(cv: CollectionView, d: Option<Delegate>, k: nat, s: nat)
    requires Configured(cv, d) && s < k <= |cv.itemCounts|
    ensures PreparedUpTo(cv, d, k).grid[s] == PreparedUpTo(cv, d, s + 1).grid[s]
  {
    if k > s + 1 {
      RowSettled(cv, d, k - 1, s);
      RowStep(cv, d, k, s);
      assert PreparedUpTo(cv, d, k).grid[s] == PreparedUpTo(cv, d, k - 1).grid[s];
      assert PreparedUpTo(cv, d, k - 1).grid[s] == PreparedUpTo(cv, d, s + 1).grid[s];
    } else {
      assert k == s + 1;
    }
  }

  /** Section `k - 1`, laid out from its zeroed row, is balanced. */
  lemma LastSectionBalanced(cv: CollectionView, d: Option<Delegate>, k: nat, s: nat)
    requires Configured(cv, d) && 0 < k <= |cv.itemCounts| && s == k - 1 && Spaced(cv, d)
    requires PreparedUpTo(cv, d, k - 1).grid[s] == Zeros(NumberOfColumns(d, s))
    ensures Spread(PreparedUpTo(cv, d, k).grid[s]) <= RowHeight(SectionEnv(cv, d, s))
  {
    var prev := PreparedUpTo(cv, d, k - 1);
    AdvanceBalanced(cv, d, k, prev, s);
    PreparedStep(cv, d, k);
  }

  /** Section `k - 1` leaves the row of every other section as it was. */
  lemma RowStep(cv: CollectionView, d: Option<Delegate>, k: nat, s: nat)
    requires Configured(cv, d) && 0 < k <= |cv.itemCounts| && s < |cv.itemCounts| && s != k - 1
    ensures PreparedUpTo(cv, d, k).grid[s] == PreparedUpTo(cv, d, k - 1).grid[s]
  {
    var prev := PreparedUpTo(cv, d, k - 1);
    LaterSectionKeepsRow(cv, d, k, prev, s);
    PreparedStep(cv, d, k);
  }

  /** The rows of the sections not laid out yet are still zeroed. */
  lemma {:induction false} PreparedRowsAhead(cv: CollectionView, d: Option<Delegate>, k: nat, s: nat)
    requires Configured(cv, d) && k <= s < |cv.itemCounts|
    ensures PreparedUpTo(cv, d, k).grid[s] == Zeros(NumberOfColumns(d, s))
  {
    if k == 0 {
      PreparedStart(cv, d);
    } else {
      PreparedRowsAhead(cv, d, k - 1, s);
      RowStep(cv, d, k, s);
    }
  }

  /** Laying out section `k - 1` leaves the rows of the other sections alone. */
  lemma LaterSectionKeepsRow(cv: CollectionView, d: Option<Delegate>, k: nat, prev: Snapshot, s: nat)
    requires Configured(cv, d) && 0 < k <= |cv.itemCounts| && |prev.grid| == |cv.itemCounts|
    requires |prev.grid[k - 1]| == NumberOfColumns(d, k - 1)
    requires s < |prev.grid| && s != k - 1
    ensures Advance(cv, d, k, prev).grid[s] == prev.grid[s]
  {
    var r := Advance(cv, d, k, prev);
    assert r.grid == prev.grid[k - 1 := r.grid[k - 1]];
  }

  /** After a whole pass no two columns of a section are more than one
      large row apart. */
  lemma EverySectionBalanced(cv: CollectionView, d: Option<Delegate>)
    requires Configured(cv, d) && Spaced(cv, d)
    ensures forall s :: 0 <= s < |cv.itemCounts| ==>
      ValidEnv(SectionEnv(cv, d, s)) && Balanced(Prepared(cv, d).grid[s], RowHeight(SectionEnv(cv, d, s)))
  {
    forall s | 0 <= s < |cv.itemCounts|
      ensures ValidEnv(SectionEnv(cv, d, s)) && Balanced(Prepared(cv, d).grid[s], RowHeight(SectionEnv(cv, d, s)))
    {
      PreparedBalanced(cv, d, |cv.itemCounts|, s);
      SpreadBalanced(Prepared(cv, d).grid[s], RowHeight(SectionEnv(cv, d, s)));
    }
  }

  /** Section `s` (which is section `k - 1`), laid out from its zeroed row,
      has a spread of at most one large row. */
  lemma AdvanceBalanced(cv: CollectionView, d: Option<Delegate>, k: nat, prev: Snapshot, s: nat)
    requires Configured(cv, d) && 0 < k <= |cv.itemCounts| && |prev.grid| == |cv.itemCounts| && s == k - 1
    requires prev.grid[s] == Zeros(NumberOfColumns(d, s))
    requires ChargesWithinRow(SectionEnv(cv, d, s))
    ensures Spread(Advance(cv, d, k, prev).grid[s]) <= RowHeight(SectionEnv(cv, d, s))
  {
    var e := SectionEnv(cv, d, s);
    var sec := LayoutSection(e, HeaderOverlaysContent(d), FooterOverlaysContent(d),
                             SectionSizes(d, s, cv.itemCounts[s]), prev.grid[s], prev.cells, prev.supplementary);
    SectionBalanced(e, HeaderOverlaysContent(d), FooterOverlaysContent(d),
                    SectionSizes(d, s, cv.itemCounts[s]), prev.grid[s], prev.cells, prev.supplementary);
    SpreadBalanced(sec.grid[0], RowHeight(e));
    assert Advance(cv, d, k, prev).grid[s] == sec.grid[0];
  }
}
