/**
 * The layout object (SwiftMosaicLayout.swift): its attribute dictionaries
 * and column table are fields that prepare() rebuilds cell by cell, as in
 * the source; every method is proved to leave exactly the state the
 * functions of LayoutPass describe.
 * The host collection view is a value (its size and item counts), the
 * delegate a record of its answers; UIKit itself is not modelled.
 */
module Mosaic {
  import opened Wrappers
  import opened Columns
  import opened Geometry
  import opened LayoutPass
  import opened ColumnMatrix

  datatype ElementCategory = Cell | SupplementaryView

  /** One entry of layoutAttributesForElements(in:): what kind of element, its key, its attributes. */
  datatype Element = Element(category: ElementCategory, indexPath: IndexPath, attributes: Attributes)

  class MosaicLayout {
    var collectionView: Option<CollectionView>
    var delegate: Option<Delegate>
    var cellLayoutAttributes: map<IndexPath, Attributes>
    var supplementaryLayoutAttributes: map<IndexPath, Attributes>
    var matrix: Matrix

    /** A layout attached to `collectionView` (absent when the layout has no
        host yet), before its first pass. */
    constructor (collectionView: Option<CollectionView>, delegate: Option<Delegate>)
      ensures this.collectionView == collectionView && this.delegate == delegate
      ensures Current() == Snapshot([], map[], map[])
      ensures fresh(matrix)
    {
      this.collectionView := collectionView;
      this.delegate := delegate;
      cellLayoutAttributes := map[];
      supplementaryLayoutAttributes := map[];
      matrix := new Matrix([]);
    }

    /** The layout state as a value. */
    ghost function Current(): Snapshot
      reads this, matrix
    {
      Snapshot(matrix.grid, cellLayoutAttributes, supplementaryLayoutAttributes)
    }

    /** A host is present and every section has at least one column. */
    ghost predicate Hosted()
      reads this
    {
      collectionView.Some? && Configured(collectionView.value, delegate)
    }

    function EnvFor(section: nat): Env
      reads this
      requires collectionView.Some?
    {
      SectionEnv(collectionView.value, delegate, section)
    }

    /** prepare(): rebuilds the whole layout; without a host it does nothing. */
    method Prepare()
      requires collectionView.Some? ==> Configured(collectionView.value, delegate)
      modifies this
      ensures collectionView == old(collectionView) && delegate == old(delegate)
      ensures collectionView.None? ==> unchanged(this)
      ensures collectionView.Some? ==> fresh(matrix) && Current() == Prepared(collectionView.value, delegate)
    {
      if collectionView.None? {
        return;
      }
      Reset();
      var sections := |collectionView.value.itemCounts|;
      var section := 0;
      while section < sections
        invariant section <= sections
        invariant collectionView == old(collectionView) && delegate == old(delegate)
        invariant fresh(matrix)
        invariant Current() == PreparedUpTo(collectionView.value, delegate, section)
      {
        PrepareSection(section);
        section := section + 1;
      }
    }

    /** reset(): empty dictionaries and a fresh table of zeroed rows, one per
        section, each as wide as that section's column count. */
    method Reset()
      requires Hosted()
      modifies this
      ensures collectionView == old(collectionView) && delegate == old(delegate)
      ensures fresh(matrix)
      ensures Current() == PreparedUpTo(collectionView.value, delegate, 0)
    {
      cellLayoutAttributes := map[];
      supplementaryLayoutAttributes := map[];
      var count := |collectionView.value.itemCounts|;
      var sections: seq<seq<real>> := [];
      while |sections| < count
        invariant |sections| <= count
        invariant forall s :: 0 <= s < |sections| ==> sections[s] == Zeros(NumberOfColumns(delegate, s))
      {
        sections := sections + [Zeros(NumberOfColumns(delegate, |sections|))];
      }
      assert sections == ZeroGrid(collectionView.value, delegate);
      matrix := new Matrix(sections);
    }

    /** The body of prepare()'s loop for one section (lines 39-89). */
    method PrepareSection(section: nat)
      requires Hosted() && section < |collectionView.value.itemCounts|
      requires Current() == PreparedUpTo(collectionView.value, delegate, section)
      modifies this, matrix
      ensures collectionView == old(collectionView) && delegate == old(delegate) && matrix == old(matrix)
      ensures Current() == PreparedUpTo(collectionView.value, delegate, section + 1)
    {
      ghost var prev := Current();
      PrepareHeader(section);
      var smallCells := PrepareItems(section);
      PrepareFooter(section, smallCells);
      assert Current() == Install(prev, section, SectionOver(collectionView.value, delegate, section + 1, prev));
      PreparedStep(collectionView.value, delegate, section + 1);
    }

    /** Lines 39-47: the top inset, the header, and the header's height and a
        gap unless the header overlays. */
    method PrepareHeader(section: nat)
      requires collectionView.Some?
      requires section < |matrix.grid| && |matrix.grid[section]| > 0
      modifies this, matrix
      ensures collectionView == old(collectionView) && delegate == old(delegate) && matrix == old(matrix)
      ensures cellLayoutAttributes == old(cellLayoutAttributes)
      ensures var r := OpenSection(EnvFor(section), HeaderOverlaysContent(delegate), FooterOverlaysContent(delegate),
                                   old(matrix.grid[section]), old(supplementaryLayoutAttributes));
        matrix.grid == old(matrix.grid)[section := r.0] && supplementaryLayoutAttributes == r.1
    {
      var config := SectionConfigFor(delegate, section);
      IncreaseColumnHeight(config.inset.top, section);
      var header := SupplementaryLayoutAttributes(Header, IndexPath(0, section));
      if !HeaderOverlaysContent(delegate) {
        IncreaseColumnHeight(FrameHeight(header.frame) + config.spacing, section);
      }
    }

    /** Lines 49-72: the items of the section in index order. */
    method PrepareItems(section: nat) returns (smallCells: seq<IndexPath>)
      requires collectionView.Some? && ValidEnv(EnvFor(section)) && section < |collectionView.value.itemCounts|
      requires section < |matrix.grid| && |matrix.grid[section]| > 0
      modifies this, matrix
      ensures collectionView == old(collectionView) && delegate == old(delegate) && matrix == old(matrix)
      ensures supplementaryLayoutAttributes == old(supplementaryLayoutAttributes)
      ensures forall p :: p in smallCells ==> p.section == section
      ensures var r := Walk(EnvFor(section), Walker(old(matrix.grid[section]), old(cellLayoutAttributes), []),
                            SectionSizes(delegate, section, collectionView.value.itemCounts[section]));
        matrix.grid == old(matrix.grid)[section := r.row] && cellLayoutAttributes == r.cells && smallCells == r.pending
    {
      ghost var e := EnvFor(section);
      var count := collectionView.value.itemCounts[section];
      ghost var sizes := SectionSizes(delegate, section, count);
      ghost var start := Walker(matrix.grid[section], cellLayoutAttributes, []);
      smallCells := [];
      var item := 0;
      while item < count
        invariant item <= count
        invariant collectionView == old(collectionView) && delegate == old(delegate) && matrix == old(matrix)
        invariant supplementaryLayoutAttributes == old(supplementaryLayoutAttributes)
        invariant forall p :: p in smallCells ==> p.section == section
        invariant var r := Walk(e, start, sizes[..item]);
          matrix.grid == old(matrix.grid)[section := r.row] && cellLayoutAttributes == r.cells && smallCells == r.pending
      {
        assert sizes[..item + 1][..item] == sizes[..item];
        smallCells := PlaceItem(IndexPath(item, section), smallCells);
        item := item + 1;
      }
      assert sizes[..count] == sizes;
    }

    /** Lines 74-89: the leftover small item, the footer with its height
        unless it overlays, and the bottom inset. */
    method PrepareFooter(section: nat, smallCells: seq<IndexPath>)
      requires collectionView.Some? && ValidEnv(EnvFor(section))
      requires section < |matrix.grid| && |matrix.grid[section]| > 0
      requires forall p :: p in smallCells ==> p.section == section
      modifies this, matrix
      ensures collectionView == old(collectionView) && delegate == old(delegate) && matrix == old(matrix)
      ensures var r := CloseSection(EnvFor(section), FooterOverlaysContent(delegate),
                                    Walker(old(matrix.grid[section]), old(cellLayoutAttributes), smallCells),
                                    old(supplementaryLayoutAttributes));
        matrix.grid == old(matrix.grid)[section := r.grid[0]] &&
        cellLayoutAttributes == r.cells && supplementaryLayoutAttributes == r.supplementary
    {
      FlushSmallCells(section, smallCells);
      var footer := SupplementaryLayoutAttributes(Footer, IndexPath(1, section));
      if !FooterOverlaysContent(delegate) {
        IncreaseColumnHeight(FrameHeight(footer.frame), section);
      }
      IncreaseColumnHeight(SectionConfigFor(delegate, section).inset.bottom, section);
    }

    /** One item of prepare()'s inner loop (lines 51-71). A large item is
        placed in the shortest column, which grows by the cell and a gap. A
        small item joins the buffer; the second one sends the pair side by
        side into the column shortest now, charged once. */
    method PlaceItem(indexPath: IndexPath, smallCells: seq<IndexPath>) returns (buffered: seq<IndexPath>)
      requires collectionView.Some? && ValidEnv(EnvFor(indexPath.section))
      requires indexPath.section < |matrix.grid| && |matrix.grid[indexPath.section]| > 0
      requires forall p :: p in smallCells ==> p.section == indexPath.section
      modifies this, matrix
      ensures collectionView == old(collectionView) && delegate == old(delegate) && matrix == old(matrix)
      ensures supplementaryLayoutAttributes == old(supplementaryLayoutAttributes)
      ensures var r := Step(EnvFor(indexPath.section),
                            Walker(old(matrix.grid[indexPath.section]), old(cellLayoutAttributes), smallCells),
                            indexPath.item, CellSizeFor(delegate, indexPath));
        matrix.grid == old(matrix.grid)[indexPath.section := r.row] &&
        cellLayoutAttributes == r.cells && buffered == r.pending
      ensures forall p :: p in buffered ==> p.section == indexPath.section
    {
      var section := indexPath.section;
      var interitemSpacing := SectionConfigFor(delegate, section).spacing;
      var shortestColumnIndex := Shortest(matrix.Row(section));
      buffered := smallCells;
      match CellSizeFor(delegate, indexPath)
      case Large =>
        var attributes := LargeCellLayoutAttributes(indexPath, shortestColumnIndex);
        matrix.Set(section, shortestColumnIndex,
                   matrix.Get(section, shortestColumnIndex) + FrameHeight(attributes.frame) + interitemSpacing);
      case Small =>
        buffered := buffered + [indexPath];
        if |buffered| == 2 {
          var attributes := SmallCellLayoutAttributes(buffered[0], shortestColumnIndex, false);
          var second := SmallCellLayoutAttributes(buffered[1], shortestColumnIndex, true);
          matrix.Set(section, shortestColumnIndex,
                     matrix.Get(section, shortestColumnIndex) + FrameHeight(attributes.frame) + interitemSpacing);
          buffered := [];
        }
    }

    /** The clean-up after prepare()'s inner loop (lines 74-82): a leftover
        small item goes unoffset into the shortest column, charged as a
        whole pair would be. */
    method FlushSmallCells(section: nat, smallCells: seq<IndexPath>)
      requires collectionView.Some? && ValidEnv(EnvFor(section))
      requires section < |matrix.grid| && |matrix.grid[section]| > 0
      requires forall p :: p in smallCells ==> p.section == section
      modifies this, matrix
      ensures collectionView == old(collectionView) && delegate == old(delegate) && matrix == old(matrix)
      ensures supplementaryLayoutAttributes == old(supplementaryLayoutAttributes)
      ensures var r := Flush(EnvFor(section), Walker(old(matrix.grid[section]), old(cellLayoutAttributes), smallCells));
        matrix.grid == old(matrix.grid)[section := r.row] && cellLayoutAttributes == r.cells
    {
      if smallCells != [] {
        var interitemSpacing := SectionConfigFor(delegate, section).spacing;
        var shortestColumnIndex := Shortest(matrix.Row(section));
        var attributes := SmallCellLayoutAttributes(smallCells[0], shortestColumnIndex, false);
        matrix.Set(section, shortestColumnIndex,
                   matrix.Get(section, shortestColumnIndex) + FrameHeight(attributes.frame) + interitemSpacing);
      }
    }

    /** increaseColumnHeight(by:section:): every column of `section` grows by
        `increase`; no other section changes. */
    method IncreaseColumnHeight(increase: real, section: nat)
      requires section < |matrix.grid|
      modifies matrix
      ensures matrix.grid == old(matrix.grid)[section := Raise(old(matrix.grid[section]), increase)]
    {
      var row := matrix.Row(section);
      var offset := 0;
      while offset < |row|
        invariant offset <= |row|
        invariant |matrix.grid| == |old(matrix.grid)|
        invariant forall s :: 0 <= s < |matrix.grid| && s != section ==> matrix.grid[s] == old(matrix.grid[s])
        invariant |matrix.grid[section]| == |row|
        invariant forall i :: 0 <= i < offset ==> matrix.grid[section][i] == row[i] + increase
        invariant forall i :: offset <= i < |row| ==> matrix.grid[section][i] == row[i]
      {
        matrix.Set(section, offset, row[offset] + increase);
        offset := offset + 1;
      }
      assert matrix.grid[section] == Raise(row, increase);
    }

    /** largeCellLayoutAttributes: stores and returns the large cell frame of `column`. */
    method LargeCellLayoutAttributes(indexPath: IndexPath, column: nat) returns (attributes: Attributes)
      requires collectionView.Some? && ValidEnv(EnvFor(indexPath.section))
      requires indexPath.section < |matrix.grid| && column < |matrix.grid[indexPath.section]|
      modifies this
      ensures collectionView == old(collectionView) && delegate == old(delegate) && matrix == old(matrix)
      ensures supplementaryLayoutAttributes == old(supplementaryLayoutAttributes)
      ensures attributes == Attributes(CellRect(Large, EnvFor(indexPath.section), matrix.grid[indexPath.section], column), 0)
      ensures cellLayoutAttributes == old(cellLayoutAttributes)[indexPath := attributes]
    {
      var frame := CellRect(Large, EnvFor(indexPath.section), matrix.Row(indexPath.section), column);
      attributes := Attributes(frame, 0);
      cellLayoutAttributes := cellLayoutAttributes[indexPath := attributes];
    }

    /** smallCellLayoutAttributes: stores and returns a small cell frame of
        `column`, in the right half when `offsetColumn`. */
    method SmallCellLayoutAttributes(indexPath: IndexPath, column: nat, offsetColumn: bool)
      returns (attributes: Attributes)
      requires collectionView.Some? && ValidEnv(EnvFor(indexPath.section))
      requires indexPath.section < |matrix.grid| && column < |matrix.grid[indexPath.section]|
      modifies this
      ensures collectionView == old(collectionView) && delegate == old(delegate) && matrix == old(matrix)
      ensures supplementaryLayoutAttributes == old(supplementaryLayoutAttributes)
      ensures attributes ==
        Attributes(SmallCellRect(EnvFor(indexPath.section), matrix.grid[indexPath.section], column, offsetColumn), 0)
      ensures cellLayoutAttributes == old(cellLayoutAttributes)[indexPath := attributes]
    {
      var e := EnvFor(indexPath.section);
      var width := CellHeight(Small, e);
      var frame := CellRect(Small, e, matrix.Row(indexPath.section), column);
      if offsetColumn {
        frame := frame.(x := frame.x + width + e.config.spacing);
      }
      attributes := Attributes(frame, 0);
      cellLayoutAttributes := cellLayoutAttributes[indexPath := attributes];
    }

    /** layoutAttributes(forSupplementaryViewOfKind:at:): stores and returns
        the header or footer frame of the section, with zIndex 1. */
    method SupplementaryLayoutAttributes(kind: SupplementaryKind, indexPath: IndexPath)
      returns (attributes: Attributes)
      requires collectionView.Some?
      requires indexPath.section < |matrix.grid| && |matrix.grid[indexPath.section]| > 0
      modifies this
      ensures collectionView == old(collectionView) && delegate == old(delegate) && matrix == old(matrix)
      ensures cellLayoutAttributes == old(cellLayoutAttributes)
      ensures attributes == Attributes(SupplementaryFrame(kind, EnvFor(indexPath.section),
                                         FooterOverlaysContent(delegate), matrix.grid[indexPath.section]), 1)
      ensures supplementaryLayoutAttributes == old(supplementaryLayoutAttributes)[indexPath := attributes]
    {
      var frame := SupplementaryFrame(kind, EnvFor(indexPath.section), FooterOverlaysContent(delegate),
                                      matrix.Row(indexPath.section));
      attributes := Attributes(frame, 1);
      supplementaryLayoutAttributes := supplementaryLayoutAttributes[indexPath := attributes];
    }

    /** collectionViewContentSize: zero without a host; otherwise the host's
        width and the sum of every section's tallest column, which covers
        each column of each section when no height is negative. */
    function CollectionViewContentSize(): (size: Size)
      reads this, matrix
      requires collectionView.Some? ==> forall s :: 0 <= s < |matrix.grid| ==> |matrix.grid[s]| > 0
      ensures collectionView.None? ==> size == Size(0.0, 0.0)
      ensures collectionView.Some? ==> size.width == collectionView.value.size.width
      ensures collectionView.Some? ==> size.height == SumOfTallest(matrix.grid, |matrix.grid|)
      ensures collectionView.Some? &&
              (forall s, i :: 0 <= s < |matrix.grid| && 0 <= i < |matrix.grid[s]| ==> 0.0 <= matrix.grid[s][i]) ==>
              forall s, i :: 0 <= s < |matrix.grid| && 0 <= i < |matrix.grid[s]| ==> matrix.grid[s][i] <= size.height
    {
      if collectionView.None? then Size(0.0, 0.0)
      else Size(collectionView.value.size.width, SumOfTallest(matrix.grid, |matrix.grid|))
    }

    /** layoutAttributesForElements(in:): the stored cell and supplementary
        attributes whose frame the query rectangle intersects. */
    function LayoutAttributesForElements(intersects: Rect -> bool): (r: set<Element>)
      reads this
      ensures forall el :: el in r <==>
        || (el.category == Cell && el.indexPath in cellLayoutAttributes &&
            el.attributes == cellLayoutAttributes[el.indexPath] && intersects(el.attributes.frame))
        || (el.category == SupplementaryView && el.indexPath in supplementaryLayoutAttributes &&
            el.attributes == supplementaryLayoutAttributes[el.indexPath] && intersects(el.attributes.frame))
    {
      (set ip | ip in cellLayoutAttributes && intersects(cellLayoutAttributes[ip].frame)
         :: Element(Cell, ip, cellLayoutAttributes[ip]))
      + (set ip | ip in supplementaryLayoutAttributes && intersects(supplementaryLayoutAttributes[ip].frame)
         :: Element(SupplementaryView, ip, supplementaryLayoutAttributes[ip]))
    }

    /** layoutAttributesForItem(at:): the stored cell attributes, if any. */
    function LayoutAttributesForItem(indexPath: IndexPath): (r: Option<Attributes>)
      reads this
      ensures r.Some? <==> indexPath in cellLayoutAttributes
      ensures r.Some? ==> r.value == cellLayoutAttributes[indexPath]
    {
      if indexPath in cellLayoutAttributes then Some(cellLayoutAttributes[indexPath]) else None
    }

    /** layoutAttributesForSupplementaryView(ofKind:at:): looks up by index
        path alone; the kind is not consulted. */
    function LayoutAttributesForSupplementaryView(kind: SupplementaryKind, indexPath: IndexPath): (r: Option<Attributes>)
      reads this
      ensures r.Some? <==> indexPath in supplementaryLayoutAttributes
      ensures r.Some? ==> r.value == supplementaryLayoutAttributes[indexPath]
    {
      if indexPath in supplementaryLayoutAttributes then Some(supplementaryLayoutAttributes[indexPath]) else None
    }

    /** shouldInvalidateLayout(forBoundsChange:): when there is a host and
        the new size differs from its current one, runs a whole prepare()
        pass and answers true; otherwise answers false and changes nothing. */
    method ShouldInvalidateLayout(newBounds: Size) returns (r: bool)
      requires collectionView.Some? ==> Configured(collectionView.value, delegate)
      modifies this
      ensures collectionView == old(collectionView) && delegate == old(delegate)
      ensures r <==> collectionView.Some? && collectionView.value.size != newBounds
      ensures !r ==> unchanged(this)
      ensures r ==> fresh(matrix) && Current() == Prepared(collectionView.value, delegate)
    {
      if collectionView.None? {
        return false;
      }
      if collectionView.value.size != newBounds {
        Prepare();
        return true;
      }
      return false;
    }
  }
}
