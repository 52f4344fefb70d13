/** The tree map: a 7x7 array holding -1 on empty cells, size + 4 * player
    on cells holding a tree (the later tree wins when two share a cell), and
    -3 on the two corner regions that are not part of the board. The value
    -2 is reserved for marking throw targets while moves are enumerated. */
module Occupancy {
  import opened Board

  const EMPTY := -1
  const MARKED := -2
  const OFF_BOARD := -3

  /** The tree-map code of a tree. */
  function Code(t: Tree): int { t.size + 4 * t.player }

  predicate At(t: Tree, y: int, x: int) { t.y == y && t.x == x }

  /** Some tree of `trees` stands on (y, x). */
  predicate Occupied(trees: seq<Tree>, y: int, x: int) {
    exists k :: 0 <= k < |trees| && At(trees[k], y, x)
  }

  predicate AllInGrid(trees: seq<Tree>) {
    forall k | 0 <= k < |trees| :: InGrid(trees[k].y, trees[k].x)
  }

  /** Writes each tree's code on its cell, in order, over an empty array. */
  function Place(trees: seq<Tree>): Grid
    requires AllInGrid(trees)
    decreases |trees|
  {
    if |trees| == 0 then Full(EMPTY)
    else
      var t := trees[|trees| - 1];
      Set(Place(trees[..|trees| - 1]), t.y, t.x, Code(t))
  }

  /** The cells the two corner loops overwrite: rows 0..2 from column
      4 + row on, and rows 4..6 up to column row - 4. */
  predicate MaskedOff(y: int, x: int) {
    (0 <= y < 3 && 4 + y <= x < 7) || (4 <= y < 7 && 0 <= x < y - 3)
  }

  function TreeMap(trees: seq<Tree>): (r: Grid)
    requires AllInGrid(trees)
    ensures forall y, x | InGrid(y, x) :: r[y][x] == OFF_BOARD <==> !OnBoard(y, x)
    ensures forall y, x | InGrid(y, x) :: r[y][x] == EMPTY <==> OnBoard(y, x) && !Occupied(trees, y, x)
  {
    var p := Place(trees);
    var r: Grid := seq(7, y requires 0 <= y < 7 => seq(7, x requires 0 <= x < 7 => if MaskedOff(y, x) then OFF_BOARD else p[y][x]));
    forall y, x | InGrid(y, x)
      ensures r[y][x] == OFF_BOARD <==> !OnBoard(y, x)
      ensures r[y][x] == EMPTY <==> OnBoard(y, x) && !Occupied(trees, y, x)
    {
      PlaceSpec(trees, y, x);
    }
    r
  }

  /** A cell of the placed array is -1 exactly when no tree stands on it,
      and otherwise holds the code of the last tree standing on it. */
  lemma {:induction false} PlaceSpec(trees: seq<Tree>, y: int, x: int)
    requires AllInGrid(trees) && InGrid(y, x)
    ensures Place(trees)[y][x] == EMPTY <==> !Occupied(trees, y, x)
    ensures Place(trees)[y][x] >= EMPTY
    ensures forall k | 0 <= k < |trees| && At(trees[k], y, x) && (forall j | k < j < |trees| :: !At(trees[j], y, x)) ::
      Place(trees)[y][x] == Code(trees[k])
    decreases |trees|
  {
    if |trees| > 0 {
      var n := |trees| - 1;
      var pre := trees[..n];
      PlaceSpec(pre, y, x);
      assert forall j | 0 <= j < n :: pre[j] == trees[j];
      if Occupied(pre, y, x) {
        var j :| 0 <= j < n && At(pre[j], y, x);
        assert At(trees[j], y, x);
      }
    }
  }

  /** The tree map holds a tree's code on its cell when no later tree shares
      the cell. */
  lemma TreeMapCode(trees: seq<Tree>, k: int)
    requires AllInGrid(trees) && 0 <= k < |trees|
    requires OnBoard(trees[k].y, trees[k].x)
    requires forall j | k < j < |trees| :: !At(trees[j], trees[k].y, trees[k].x)
    ensures TreeMap(trees)[trees[k].y][trees[k].x] == Code(trees[k])
  {
    PlaceSpec(trees, trees[k].y, trees[k].x);
  }

  /** Number of cells of row `y` from column `x` on that are not -3. */
  function NotOffCount(g: Grid, y: int, x: int): nat
    requires 0 <= y < 7 && 0 <= x
    decreases 7 - x
  {
    if x >= 7 then 0 else (if g[y][x] != OFF_BOARD then 1 else 0) + NotOffCount(g, y, x + 1)
  }

  function NotOffRows(g: Grid, y: int): nat
    requires 0 <= y
    decreases 7 - y
  {
    if y >= 7 then 0 else NotOffCount(g, y, 0) + NotOffRows(g, y + 1)
  }

  lemma {:induction false} NotOffCountIsBoard(g: Grid, y: int, x: int)
    requires 0 <= y < 7 && 0 <= x
    requires forall x' | 0 <= x' < 7 :: g[y][x'] == OFF_BOARD <==> !OnBoard(y, x')
    ensures NotOffCount(g, y, x) == BoardRowCount(y, x)
    decreases 7 - x
  {
    if x < 7 {
      NotOffCountIsBoard(g, y, x + 1);
    }
  }

  lemma {:induction false} NotOffRowsIsBoard(g: Grid, y: int)
    requires 0 <= y
    requires forall y', x' | InGrid(y', x') :: g[y'][x'] == OFF_BOARD <==> !OnBoard(y', x')
    ensures NotOffRows(g, y) == BoardCount(y)
    decreases 7 - y
  {
    if y < 7 {
      NotOffCountIsBoard(g, y, 0);
      NotOffRowsIsBoard(g, y + 1);
    }
  }

  /** Whatever the trees, 37 cells of the tree map are not marked off-board. */
  lemma TreeMapLeaves37(trees: seq<Tree>)
    requires AllInGrid(trees)
    ensures NotOffRows(TreeMap(trees), 0) == 37
  {
    NotOffRowsIsBoard(TreeMap(trees), 0);
    BoardHas37Cells();
  }
}
