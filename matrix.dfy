/**
 * The table of running column heights, one row per section (Matrix.swift).
 * Swift's `Matrix` is a struct whose cell setter overwrites
 * `grid[section][item]` in place; here it is a class over the same grid.
 * Out-of-range subscripts trap in Swift; here they are preconditions.
 */
module ColumnMatrix {

  class Matrix {
    var grid: seq<seq<real>>

    /** `init(sections:)`: the grid is exactly the given rows. */
    constructor (sections: seq<seq<real>>)
      ensures grid == sections
      ensures NumberOfSections() == |sections|
      ensures forall s :: 0 <= s < |sections| ==> Row(s) == sections[s]
    {
      grid := sections;
    }

    function NumberOfSections(): (n: nat)
      reads this
      ensures n == |grid|
    {
      |grid|
    }

    /** The row subscript `matrix[section]`. */
    function Row(section: nat): seq<real>
      reads this
      requires section < |grid|
    {
      grid[section]
    }

    /** The cell getter `matrix[section, item]`: it agrees with the row subscript. */
    function Get(section: nat, item: nat): (v: real)
      reads this
      requires section < |grid| && item < |grid[section]|
      ensures v == Row(section)[item]
    {
      grid[section][item]
    }

    /** The cell setter `matrix[section, item] = v`. */
    method Set(section: nat, item: nat, v: real)
      requires section < |grid| && item < |grid[section]|
      modifies this
      ensures grid == old(grid)[section := old(grid)[section][item := v]]
      ensures Get(section, item) == v
      ensures NumberOfSections() == old(NumberOfSections())
      ensures forall s :: 0 <= s < |grid| ==> |grid[s]| == |old(grid)[s]|
      ensures forall s, i :: 0 <= s < |grid| && 0 <= i < |grid[s]| && (s != section || i != item) ==>
                grid[s][i] == old(grid)[s][i]
    {
      grid := grid[section := grid[section][item := v]];
    }
  }
}
