/** The light map: every cell starts lit, and each tree of size s shades the
    cells 1..s steps away from it along the shadow step of the current
    facing. A step that leaves the 7x7 array is skipped; later steps are
    still tried. Trees do not block each other's shadows. */
module Shadow {
  import opened Board

  /** The cell `i` shadow steps from tree `t` along `cast`. */
  function Step(t: Tree, cast: Cell, i: int): Cell {
    (t.y + cast.0 * i, t.x + cast.1 * i)
  }

  /** One of the first `n` shadow steps of `t` lands on (y, x). */
  ghost predicate StepsReach(t: Tree, cast: Cell, n: int, y: int, x: int) {
    exists i :: 1 <= i <= n && Step(t, cast, i) == (y, x)
  }

  /** Tree `t` shades (y, x). */
  ghost predicate TreeShades(t: Tree, cast: Cell, y: int, x: int) {
    StepsReach(t, cast, t.size, y, x)
  }

  /** Some tree of `trees` shades (y, x). */
  ghost predicate Shaded(trees: seq<Tree>, cast: Cell, y: int, x: int) {
    exists k :: 0 <= k < |trees| && TreeShades(trees[k], cast, y, x)
  }

  /** Writes 0 on the in-array cells among the first `n` steps of `t`. */
  function ShadeSteps(g: Grid, t: Tree, cast: Cell, n: nat): Grid
    decreases n
  {
    if n == 0 then g
    else
      var g' := ShadeSteps(g, t, cast, n - 1);
      var c := Step(t, cast, n);
      if InGrid(c.0, c.1) then Set(g', c.0, c.1, 0) else g'
  }

  /** The light map: 1 for lit, 0 for shaded, trees processed in order. */
  function ShadowMap(trees: seq<Tree>, cast: Cell): Grid
    decreases |trees|
  {
    if |trees| == 0 then Full(1)
    else
      var t := trees[|trees| - 1];
      ShadeSteps(ShadowMap(trees[..|trees| - 1], cast), t, cast, t.size)
  }

  lemma {:induction false} ShadeStepsSpec(g: Grid, t: Tree, cast: Cell, n: nat, y: int, x: int)
    requires InGrid(y, x)
    ensures ShadeSteps(g, t, cast, n)[y][x] == if StepsReach(t, cast, n, y, x) then 0 else g[y][x]
    decreases n
  {
    if n > 0 {
      ShadeStepsSpec(g, t, cast, n - 1, y, x);
      if Step(t, cast, n) == (y, x) {
        assert StepsReach(t, cast, n, y, x);
      } else if StepsReach(t, cast, n, y, x) {
        var i :| 1 <= i <= n && Step(t, cast, i) == (y, x);
        assert StepsReach(t, cast, n - 1, y, x);
      }
    }
  }

  /** The light map shades exactly the cells some tree's shadow reaches. */
  lemma {:induction false} ShadowMapSpec(trees: seq<Tree>, cast: Cell, y: int, x: int)
    requires InGrid(y, x)
    ensures ShadowMap(trees, cast)[y][x] == if Shaded(trees, cast, y, x) then 0 else 1
    decreases |trees|
  {
    if |trees| > 0 {
      var n := |trees| - 1;
      var pre := trees[..n];
      var t := trees[n];
      ShadowMapSpec(pre, cast, y, x);
      ShadeStepsSpec(ShadowMap(pre, cast), t, cast, t.size, y, x);
      if Shaded(trees, cast, y, x) {
        var k :| 0 <= k < |trees| && TreeShades(trees[k], cast, y, x);
        if k < n {
          assert pre[k] == trees[k];
          assert Shaded(pre, cast, y, x);
        }
      }
      if Shaded(pre, cast, y, x) {
        var k :| 0 <= k < n && TreeShades(pre[k], cast, y, x);
        assert trees[k] == pre[k];
      }
      if TreeShades(t, cast, y, x) {
        assert TreeShades(trees[n], cast, y, x);
      }
    }
  }

  /** A seed (size 0) shades nothing. */
  lemma SeedShadesNothing(trees: seq<Tree>, seed: Tree, cast: Cell)
    requires seed.size == 0
    ensures ShadowMap(trees + [seed], cast) == ShadowMap(trees, cast)
  {
    assert (trees + [seed])[..|trees|] == trees;
  }

  /** The light map depends only on which trees are present: a list holding
      every tree of another shades every cell the other shades. Adding a tree
      therefore never lights a cell, and reordering trees changes nothing. */
  lemma ShadeMonotone(trees: seq<Tree>, more: seq<Tree>, cast: Cell, y: int, x: int)
    requires InGrid(y, x)
    requires forall t | t in trees :: t in more
    ensures ShadowMap(trees, cast)[y][x] == 0 ==> ShadowMap(more, cast)[y][x] == 0
  {
    ShadowMapSpec(trees, cast, y, x);
    ShadowMapSpec(more, cast, y, x);
    if Shaded(trees, cast, y, x) {
      var k :| 0 <= k < |trees| && TreeShades(trees[k], cast, y, x);
      assert trees[k] in trees;
      var k' :| 0 <= k' < |more| && more[k'] == trees[k];
      assert TreeShades(more[k'], cast, y, x);
    }
  }

  /** A ray starting inside the array with a unit step never re-enters it
      once it has left, so skipping an off-array step and stopping there
      shade the same cells. */
  lemma RayLeavesForGood(t: Tree, cast: Cell, i: int, j: int)
    requires InGrid(t.y, t.x)
    requires -1 <= cast.0 <= 1 && -1 <= cast.1 <= 1
    requires 1 <= i <= j
    requires !InGrid(Step(t, cast, i).0, Step(t, cast, i).1)
    ensures !InGrid(Step(t, cast, j).0, Step(t, cast, j).1)
  {
    var a := Step(t, cast, i);
    var b := Step(t, cast, j);
    if a.0 < 0 || a.0 >= 7 {
      assert cast.0 != 0;
      if cast.0 == 1 {
        assert b.0 == a.0 + (j - i);
      } else {
        assert b.0 == a.0 - (j - i);
      }
    } else {
      assert cast.1 != 0;
      if cast.1 == 1 {
        assert b.1 == a.1 + (j - i);
      } else {
        assert b.1 == a.1 - (j - i);
      }
    }
  }
}
