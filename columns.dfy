/**
 * One section's row of running column heights, and the queries the layout
 * makes of it: the first shortest column, the first tallest column, and a
 * uniform raise of every column (SwiftMosaicLayout.swift, index(ofShortest…),
 * index(ofTallest…) and increaseColumnHeight).
 */
module Columns {

  /** Index of the first column holding the minimum height: Swift's
      `columnHeights.firstIndex(of: columnHeights.min()!)`. */
  function Shortest(row: seq<real>): (c: nat)
    requires |row| > 0
    ensures c < |row|
    ensures forall j :: 0 <= j < |row| ==> row[c] <= row[j]
    ensures forall j :: 0 <= j < c ==> row[c] < row[j]
    decreases |row|
  {
    if |row| == 1 then 0
    else
      var k := Shortest(row[..|row| - 1]);
      if row[|row| - 1] < row[k] then |row| - 1 else k
  }

  /** Index of the first column holding the maximum height: Swift's
      `columnHeights.firstIndex(of: columnHeights.max()!)`. */
  function Tallest(row: seq<real>): (c: nat)
    requires |row| > 0
    ensures c < |row|
    ensures forall j :: 0 <= j < |row| ==> row[j] <= row[c]
    ensures forall j :: 0 <= j < c ==> row[j] < row[c]
    decreases |row|
  {
    if |row| == 1 then 0
    else
      var k := Tallest(row[..|row| - 1]);
      if row[k] < row[|row| - 1] then |row| - 1 else k
  }

  /** The height of the tallest column. */
  function Height(row: seq<real>): real
    requires |row| > 0
  {
    row[Tallest(row)]
  }

  /** Every column raised by `d`. */
  function Raise(row: seq<real>, d: real): (r: seq<real>)
    ensures |r| == |row|
    ensures forall i :: 0 <= i < |row| ==> r[i] == row[i] + d
  {
    seq(|row|, i requires 0 <= i < |row| => row[i] + d)
  }

  /** A row of `n` empty columns, as the layout's reset creates it. */
  function Zeros(n: nat): (r: seq<real>)
    ensures |r| == n
    ensures forall i :: 0 <= i < n ==> r[i] == 0.0
  {
    seq(n, i => 0.0)
  }

  /** Column `c` grows by `d`; the others keep their height. */
  function Charge(row: seq<real>, c: nat, d: real): seq<real>
    requires c < |row|
  {
    row[c := row[c] + d]
  }

  /** No two columns differ by more than `h`. */
  ghost predicate Balanced(row: seq<real>, h: real) {
    forall i, j :: 0 <= i < |row| && 0 <= j < |row| ==> row[i] - row[j] <= h
  }

  /** How far the tallest column stands above the shortest. This is the
      same bound as Balanced, as one number (SpreadBalanced): the lemmas
      about a single step state Balanced, which speaks of every pair of
      columns, and the lemmas about a whole pass state Spread, which
      needs no quantifier. */
  function Spread(row: seq<real>): (r: real)
    requires |row| > 0
    ensures 0.0 <= r
  {
    Height(row) - row[Shortest(row)]
  }

  /** A row is balanced within `h` exactly when its spread is at most `h`. */
  lemma SpreadBalanced(row: seq<real>, h: real)
    requires |row| > 0
    ensures Balanced(row, h) <==> Spread(row) <= h
  {
    if Spread(row) <= h {
      forall i, j | 0 <= i < |row| && 0 <= j < |row|
        ensures row[i] - row[j] <= h
      {
        assert row[i] <= Height(row) && row[Shortest(row)] <= row[j];
      }
    }
  }

  /** Column by column, `after` is at least as tall as `before`. */
  ghost predicate Grown(before: seq<real>, after: seq<real>) {
    |after| == |before| && forall i :: 0 <= i < |before| ==> before[i] <= after[i]
  }

  /** The first-minimum characterisation picks out exactly one column. */
  lemma ShortestUnique(row: seq<real>, c: nat)
    requires c < |row|
    requires forall j :: 0 <= j < |row| ==> row[c] <= row[j]
    requires forall j :: 0 <= j < c ==> row[c] < row[j]
    ensures Shortest(row) == c
  {
  }

  /** The first-maximum characterisation picks out exactly one column. */
  lemma TallestUnique(row: seq<real>, c: nat)
    requires c < |row|
    requires forall j :: 0 <= j < |row| ==> row[j] <= row[c]
    requires forall j :: 0 <= j < c ==> row[j] < row[c]
    ensures Tallest(row) == c
  {
  }

  /** A uniform raise (an inset, a header, a footer) does not change which
      column is shortest or tallest, and lifts the tallest height by `d`. */
  lemma RaiseKeepsExtremes(row: seq<real>, d: real)
    requires |row| > 0
    ensures Shortest(Raise(row, d)) == Shortest(row)
    ensures Tallest(Raise(row, d)) == Tallest(row)
    ensures Height(Raise(row, d)) == Height(row) + d
  {
    var r := Raise(row, d);
    ShortestUnique(r, Shortest(row));
    TallestUnique(r, Tallest(row));
  }

  /** When every column has the same height the first column is both the
      shortest and the tallest: ties go to the lowest index. */
  lemma LevelRowTieBreak(row: seq<real>)
    requires |row| > 0
    requires forall i :: 0 <= i < |row| ==> row[i] == row[0]
    ensures Shortest(row) == 0 && Tallest(row) == 0
  {
    ShortestUnique(row, 0);
    TallestUnique(row, 0);
  }

  /** Charging the shortest column with at most `h` keeps the row within
      `h` and never lowers a column. */
  lemma ChargeShortestKeepsBalance(row: seq<real>, h: real, d: real)
    requires |row| > 0 && Balanced(row, h)
    requires 0.0 <= d <= h
    ensures Balanced(Charge(row, Shortest(row), d), h)
    ensures Grown(row, Charge(row, Shortest(row), d))
  {
    var c := Shortest(row);
    var r := Charge(row, c, d);
    forall i, j | 0 <= i < |r| && 0 <= j < |r|
      ensures r[i] - r[j] <= h
    {
      assert row[c] <= row[j] && row[c] <= row[i];
    }
  }

  /** A uniform raise keeps the row's balance. */
  lemma RaiseKeepsBalance(row: seq<real>, h: real, d: real)
    requires Balanced(row, h)
    ensures Balanced(Raise(row, d), h)
  {
    var r := Raise(row, d);
    forall i, j | 0 <= i < |r| && 0 <= j < |r|
      ensures r[i] - r[j] <= h
    {
      assert r[i] - r[j] == row[i] - row[j];
    }
  }
}
