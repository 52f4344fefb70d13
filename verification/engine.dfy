/** Move generation, income and the turn step of the current engine.
    `GetMoves` lists the Buy candidates in ascending size, then walks the
    tree list: each of the mover's lit trees offers a Harvest (large trees)
    or a Grow (when a piece of the next size is available), then, if it is
    not a seed and the mover holds a seed, a Throw to every lit empty cell in
    its range that no earlier tree has already offered. The list is finally
    cut to the moves the mover can pay for. */
module Engine {
  import opened Board
  import Shadow
  import Occupancy
  import Reserve
  import opened Models

  /** What move generation needs to index its pools and maps. */
  predicate Shape(g: Game) {
    && |g.reserve| == 4
    && (forall q | 0 <= q < |g.players| :: |g.players[q].available| == 4)
    && Occupancy.AllInGrid(g.trees)
    && (forall k | 0 <= k < |g.trees| :: g.trees[k].size <= LARGE)
  }

  predicate CellsInGrid(cells: seq<Cell>) {
    forall c | c in cells :: InGrid(c.0, c.1)
  }

  // ---------------------------------------------------------------------------
  // Candidate lists
  // ---------------------------------------------------------------------------

  /** One Buy per size from `s` on whose reserve count is non-zero. */
  function BuyMoves(count: seq<int>, p: nat, s: nat): seq<Move>
    requires Reserve.Priceable(count)
    decreases 4 - s
  {
    if s >= 4 then []
    else (if count[s] != 0 then [Buy(p, s, Reserve.Cost(count, s))] else []) + BuyMoves(count, p, s + 1)
  }

  /** Throws from tree `k` to the listed cells that are lit and still empty
      in `tmap`; each offered cell is marked in the returned map. */
  function ThrowScan(p: nat, k: nat, cells: seq<Cell>, light: Grid, tmap: Grid): (seq<Move>, Grid)
    requires CellsInGrid(cells)
    decreases |cells|
  {
    if |cells| == 0 then ([], tmap)
    else
      var c := cells[0];
      assert c in cells;
      if light[c.0][c.1] != 0 && tmap[c.0][c.1] == Occupancy.EMPTY then
        var rest := ThrowScan(p, k, cells[1..], light, Set(tmap, c.0, c.1, Occupancy.MARKED));
        ([Throw(p, k, c)] + rest.0, rest.1)
      else
        ThrowScan(p, k, cells[1..], light, tmap)
  }

  /** The Harvest or Grow a lit tree of the mover offers. */
  function OwnMove(g: Game, p: nat, k: nat): seq<Move>
    requires Shape(g) && p < |g.players| && k < |g.trees|
  {
    var t := g.trees[k];
    if t.size == LARGE then [Harvest(p, k)]
    else if g.players[p].available[t.size + 1] != 0 then [Grow(p, k, t.size + 1)]
    else []
  }

  /** The tree candidates of trees k.. in list order. */
  function TreeScan(g: Game, p: nat, light: Grid, tmap: Grid, k: nat): seq<Move>
    requires Shape(g) && p < |g.players|
    decreases |g.trees| - k
  {
    if k >= |g.trees| then []
    else
      var t := g.trees[k];
      if t.player == p && light[t.y][t.x] != 0 then
        var own := OwnMove(g, p, k);
        if t.size > 0 && g.players[p].available[SEED] != 0 then
          var th := ThrowScan(p, k, ThrowableRange(t), light, tmap);
          own + th.0 + TreeScan(g, p, light, th.1, k + 1)
        else
          own + TreeScan(g, p, light, tmap, k + 1)
      else
        TreeScan(g, p, light, tmap, k + 1)
  }

  /** The moves of `ms` whose cost is at most `ml`, in their original order. */
  function Affordable(ms: seq<Move>, ml: int): (r: seq<Move>)
    ensures forall m :: m in r <==> m in ms && MoveCost(m) <= ml
    ensures |r| <= |ms|
    decreases |ms|
  {
    if |ms| == 0 then []
    else (if MoveCost(ms[0]) <= ml then [ms[0]] else []) + Affordable(ms[1..], ml)
  }

  function Candidates(g: Game, p: nat): seq<Move>
    requires Shape(g) && Reserve.Priceable(g.reserve) && p < |g.players|
  {
    BuyMoves(g.reserve, p, 0) + TreeScan(g, p, LightMap(g), TreeMap(g), 0)
  }

  /** The moves player `p` may make now, in the order they are offered. */
  function GetMoves(g: Game, p: nat): seq<Move>
    requires Shape(g) && Reserve.Priceable(g.reserve) && p < |g.players|
  {
    Affordable(Candidates(g, p), g.players[p].moonlight)
  }

  // ---------------------------------------------------------------------------
  // Facts about the candidate lists, in terms of the two maps
  // ---------------------------------------------------------------------------

  lemma {:induction false} BuyMovesSpec(count: seq<int>, p: nat, s: nat)
    requires Reserve.Priceable(count)
    ensures forall m :: m in BuyMoves(count, p, s) <==>
      m.Buy? && m.player == p && s <= m.size < 4 && count[m.size] != 0 && m.buyCost == Reserve.Cost(count, m.size)
    decreases 4 - s
  {
    if s < 4 {
      BuyMovesSpec(count, p, s + 1);
    }
  }

  /** Tree k is the mover's and stands in light. */
  predicate ActsOn(g: Game, p: nat, light: Grid, k: int)
    requires Shape(g)
  {
    0 <= k < |g.trees| && g.trees[k].player == p && light[g.trees[k].y][g.trees[k].x] != 0
  }

  /** Tree k may throw: it acts, is not a seed, and the mover holds a seed. */
  predicate ThrowsFrom(g: Game, p: nat, light: Grid, k: int)
    requires Shape(g) && p < |g.players|
  {
    ActsOn(g, p, light, k) && g.trees[k].size > 0 && g.players[p].available[SEED] != 0
  }

  predicate InRange(t: Tree, c: Cell) {
    InGrid(c.0, c.1) && HexDist(c.0 - t.y, c.1 - t.x) <= t.size
  }

  /** A cell is listed in a tree's throw range exactly when it is in range. */
  lemma RangeHas(t: Tree, c: Cell)
    ensures c in ThrowableRange(t) <==> InRange(t, c)
  {
    ThrowableRangeSpec(t);
  }

  /** Some throwing tree among lo .. hi-1 has `c` in range. */
  ghost predicate ClaimedBetween(g: Game, p: nat, light: Grid, c: Cell, lo: int, hi: int)
    requires Shape(g) && p < |g.players|
  {
    exists j :: lo <= j < hi && ThrowsFrom(g, p, light, j) && InRange(g.trees[j], c)
  }

  /** A throw scan offers exactly the listed cells that are lit and empty,
      and marks exactly those. */
  lemma {:induction false} ThrowScanSpec(p: nat, k: nat, cells: seq<Cell>, light: Grid, tmap: Grid)
    requires CellsInGrid(cells)
    ensures forall m :: m in ThrowScan(p, k, cells, light, tmap).0 <==>
      m.Throw? && m.player == p && m.source == k && m.target in cells
      && light[m.target.0][m.target.1] != 0 && tmap[m.target.0][m.target.1] == Occupancy.EMPTY
    ensures forall y, x | InGrid(y, x) :: (ThrowScan(p, k, cells, light, tmap).1[y][x] ==
      if (y, x) in cells && light[y][x] != 0 && tmap[y][x] == Occupancy.EMPTY then Occupancy.MARKED else tmap[y][x])
    decreases |cells|
  {
    if |cells| > 0 {
      var c := cells[0];
      var tail := cells[1..];
      assert forall d :: d in cells <==> d == c || d in tail;
      if light[c.0][c.1] != 0 && tmap[c.0][c.1] == Occupancy.EMPTY {
        var tmap' := Set(tmap, c.0, c.1, Occupancy.MARKED);
        ThrowScanSpec(p, k, tail, light, tmap');
      } else {
        ThrowScanSpec(p, k, tail, light, tmap);
      }
    }
  }

  /** A throw scan offers throws only. */
  lemma ThrowScanThrows(p: nat, k: nat, cells: seq<Cell>, light: Grid, tmap: Grid)
    requires CellsInGrid(cells)
    ensures forall m | m in ThrowScan(p, k, cells, light, tmap).0 :: m.Throw?
  {
    ThrowScanSpec(p, k, cells, light, tmap);
  }

  /** Every pair of moves in `ms` are throws with targets in row-major order. */
  predicate ThrowsSorted(ms: seq<Move>) {
    forall i, j | 0 <= i < j < |ms| :: ms[i].Throw? && ms[j].Throw? && LexLess(ms[i].target, ms[j].target)
  }

  lemma ThrowsSortedCons(m: Move, rest: seq<Move>)
    requires m.Throw? && ThrowsSorted(rest)
    requires forall x | x in rest :: x.Throw? && LexLess(m.target, x.target)
    ensures ThrowsSorted([m] + rest)
  {
    var ms := [m] + rest;
    forall i, j | 0 <= i < j < |ms|
      ensures ms[i].Throw? && ms[j].Throw? && LexLess(ms[i].target, ms[j].target)
    {
      assert ms[j] == rest[j - 1] && rest[j - 1] in rest;
      if i > 0 {
        assert ms[i] == rest[i - 1];
      }
    }
  }

  lemma LexSortedHead(cells: seq<Cell>)
    requires |cells| > 0 && LexSorted(cells)
    ensures forall d | d in cells[1..] :: LexLess(cells[0], d)
  {
    forall d | d in cells[1..]
      ensures LexLess(cells[0], d)
    {
      var e :| 0 <= e < |cells[1..]| && cells[1..][e] == d;
      assert cells[e + 1] == d;
    }
  }

  /** A throw scan over a row-major list offers its targets in row-major order. */
  lemma {:induction false} ThrowScanSorted(p: nat, k: nat, cells: seq<Cell>, light: Grid, tmap: Grid)
    requires CellsInGrid(cells) && LexSorted(cells)
    ensures ThrowsSorted(ThrowScan(p, k, cells, light, tmap).0)
    decreases |cells|
  {
    if |cells| > 0 {
      var c := cells[0];
      var tail := cells[1..];
      assert LexSorted(tail);
      if light[c.0][c.1] != 0 && tmap[c.0][c.1] == Occupancy.EMPTY {
        var tmap' := Set(tmap, c.0, c.1, Occupancy.MARKED);
        ThrowScanSorted(p, k, tail, light, tmap');
        ThrowScanSpec(p, k, tail, light, tmap');
        LexSortedHead(cells);
        var rest := ThrowScan(p, k, tail, light, tmap').0;
        ThrowsSortedCons(Throw(p, k, c), rest);
        assert ThrowScan(p, k, cells, light, tmap).0 == [Throw(p, k, c)] + rest;
      } else {
        ThrowScanSorted(p, k, tail, light, tmap);
      }
    }
  }

  /** Every tree candidate from position k on comes from a tree of the mover
      at or after k, and is a Harvest, a Grow or a Throw. */
  lemma {:induction false} TreeScanSources(g: Game, p: nat, light: Grid, tmap: Grid, k: nat)
    requires Shape(g) && p < |g.players|
    ensures forall m | m in TreeScan(g, p, light, tmap, k) ::
      !m.Buy? && m.player == p && k <= m.source && ActsOn(g, p, light, m.source)
    decreases |g.trees| - k
  {
    if k < |g.trees| {
      var t := g.trees[k];
      if t.player == p && light[t.y][t.x] != 0 {
        if t.size > 0 && g.players[p].available[SEED] != 0 {
          var th := ThrowScan(p, k, ThrowableRange(t), light, tmap);
          ThrowScanSpec(p, k, ThrowableRange(t), light, tmap);
          TreeScanSources(g, p, light, th.1, k + 1);
        } else {
          TreeScanSources(g, p, light, tmap, k + 1);
        }
      } else {
        TreeScanSources(g, p, light, tmap, k + 1);
      }
    }
  }

  lemma ClaimedShift(g: Game, p: nat, light: Grid, c: Cell, k: int, j: int)
    requires Shape(g) && p < |g.players| && 0 <= k
    ensures !ClaimedBetween(g, p, light, c, k, k)
    ensures k < j ==> (ClaimedBetween(g, p, light, c, k, j) <==>
      (ThrowsFrom(g, p, light, k) && InRange(g.trees[k], c)) || ClaimedBetween(g, p, light, c, k + 1, j))
  {
    if k < j {
      if ClaimedBetween(g, p, light, c, k, j) {
        var i :| k <= i < j && ThrowsFrom(g, p, light, i) && InRange(g.trees[i], c);
        if i != k {
          assert ClaimedBetween(g, p, light, c, k + 1, j);
        }
      }
      if ClaimedBetween(g, p, light, c, k + 1, j) {
        var i :| k + 1 <= i < j && ThrowsFrom(g, p, light, i) && InRange(g.trees[i], c);
        assert ClaimedBetween(g, p, light, c, k, j);
      }
    }
  }

  /** The tree map the scan from k + 1 starts from: tree k's throws mark
      their targets. */
  function NextMap(g: Game, p: nat, light: Grid, tmap: Grid, k: nat): Grid
    requires Shape(g) && p < |g.players| && k < |g.trees|
  {
    if ThrowsFrom(g, p, light, k) then ThrowScan(p, k, ThrowableRange(g.trees[k]), light, tmap).1 else tmap
  }

  /** A move that is not a throw is in a concatenation whose middle part
      holds throws only exactly when it is in the first or the last part. */
  lemma SkipThrows(m: Move, a: seq<Move>, b: seq<Move>, c: seq<Move>)
    requires !m.Throw? && forall x | x in b :: x.Throw?
    ensures m in a + b + c <==> m in a || m in c
  {
    assert m !in b;
    assert forall x :: x in a + b + c <==> x in a || x in b || x in c;
  }

  lemma ThrowerUnfold(g: Game, p: nat, light: Grid, tmap: Grid, k: nat)
    requires Shape(g) && p < |g.players| && ThrowsFrom(g, p, light, k)
    ensures var th := ThrowScan(p, k, ThrowableRange(g.trees[k]), light, tmap);
      TreeScan(g, p, light, tmap, k) == OwnMove(g, p, k) + th.0 + TreeScan(g, p, light, th.1, k + 1)
  {
  }

  lemma NonThrowerUnfold(g: Game, p: nat, light: Grid, tmap: Grid, k: nat)
    requires Shape(g) && p < |g.players| && ActsOn(g, p, light, k) && !ThrowsFrom(g, p, light, k)
    ensures TreeScan(g, p, light, tmap, k) == OwnMove(g, p, k) + TreeScan(g, p, light, tmap, k + 1)
  {
  }

  lemma PassUnfold(g: Game, p: nat, light: Grid, tmap: Grid, k: nat)
    requires Shape(g) && p < |g.players| && 0 <= k < |g.trees| && !ActsOn(g, p, light, k)
    ensures TreeScan(g, p, light, tmap, k) == TreeScan(g, p, light, tmap, k + 1)
  {
  }

  /** The Harvest a tree's own move may be. */
  lemma OwnMoveHarvest(g: Game, p: nat, k: nat, j: nat)
    requires Shape(g) && p < |g.players| && k < |g.trees|
    ensures Harvest(p, j) in OwnMove(g, p, k) <==> j == k && g.trees[k].size == LARGE
  {
  }

  /** The Grow a tree's own move may be. */
  lemma OwnMoveGrow(g: Game, p: nat, k: nat, j: nat, ns: nat)
    requires Shape(g) && p < |g.players| && k < |g.trees|
    ensures Grow(p, j, ns) in OwnMove(g, p, k) <==>
      && j == k && g.trees[k].size < LARGE
      && g.players[p].available[g.trees[k].size + 1] != 0 && ns == g.trees[k].size + 1
  {
  }

  /** Step of `TreeScanHarvest` at a tree that throws. */
  lemma HarvestThrower(g: Game, p: nat, light: Grid, tmap: Grid, k: nat, j: int)
    requires Shape(g) && p < |g.players| && 0 <= j < |g.trees| && ThrowsFrom(g, p, light, k)
    requires Harvest(p, j) in TreeScan(g, p, light, NextMap(g, p, light, tmap, k), k + 1) <==>
      k + 1 <= j && ActsOn(g, p, light, j) && g.trees[j].size == LARGE
    ensures Harvest(p, j) in TreeScan(g, p, light, tmap, k) <==>
      k <= j && ActsOn(g, p, light, j) && g.trees[j].size == LARGE
  {
    var t := g.trees[k];
    var th := ThrowScan(p, k, ThrowableRange(t), light, tmap);
    var own := OwnMove(g, p, k);
    var rest := TreeScan(g, p, light, th.1, k + 1);
    assert NextMap(g, p, light, tmap, k) == th.1;
    ThrowerUnfold(g, p, light, tmap, k);
    ThrowScanThrows(p, k, ThrowableRange(t), light, tmap);
    var h := Harvest(p, j);
    SkipThrows(h, own, th.0, rest);
    OwnMoveHarvest(g, p, k, j);
  }

  /** Step of `TreeScanHarvest` at a tree that does not throw. */
  lemma HarvestOther(g: Game, p: nat, light: Grid, tmap: Grid, k: nat, j: int)
    requires Shape(g) && p < |g.players| && 0 <= j < |g.trees| && k < |g.trees| && !ThrowsFrom(g, p, light, k)
    requires Harvest(p, j) in TreeScan(g, p, light, tmap, k + 1) <==>
      k + 1 <= j && ActsOn(g, p, light, j) && g.trees[j].size == LARGE
    ensures Harvest(p, j) in TreeScan(g, p, light, tmap, k) <==>
      k <= j && ActsOn(g, p, light, j) && g.trees[j].size == LARGE
  {
    if ActsOn(g, p, light, k) {
      NonThrowerUnfold(g, p, light, tmap, k);
    } else {
      PassUnfold(g, p, light, tmap, k);
    }
  }

  /** Which Harvest candidates appear from position k on: one for each lit
      large tree of the mover. */
  lemma {:induction false} TreeScanHarvest(g: Game, p: nat, light: Grid, tmap: Grid, k: nat, j: int)
    requires Shape(g) && p < |g.players| && 0 <= j < |g.trees|
    ensures Harvest(p, j) in TreeScan(g, p, light, tmap, k) <==>
      k <= j && ActsOn(g, p, light, j) && g.trees[j].size == LARGE
    decreases |g.trees| - k
  {
    if k >= |g.trees| {
      return;
    }
    TreeScanHarvest(g, p, light, NextMap(g, p, light, tmap, k), k + 1, j);
    if ThrowsFrom(g, p, light, k) {
      HarvestThrower(g, p, light, tmap, k, j);
    } else {
      HarvestOther(g, p, light, tmap, k, j);
    }
  }

  /** The Grow condition of `TreeScanGrow`, for trees from k on. */
  ghost predicate GrowOffered(g: Game, p: nat, light: Grid, k: nat, j: int, ns: nat)
    requires Shape(g) && p < |g.players| && 0 <= j < |g.trees|
  {
    && k <= j && ActsOn(g, p, light, j) && g.trees[j].size < LARGE
    && g.players[p].available[g.trees[j].size + 1] != 0 && ns == g.trees[j].size + 1
  }

  /** Step of `TreeScanGrow` at a tree that throws. */
  lemma GrowThrower(g: Game, p: nat, light: Grid, tmap: Grid, k: nat, j: int, ns: nat)
    requires Shape(g) && p < |g.players| && 0 <= j < |g.trees| && ThrowsFrom(g, p, light, k)
    requires Grow(p, j, ns) in TreeScan(g, p, light, NextMap(g, p, light, tmap, k), k + 1) <==>
      GrowOffered(g, p, light, k + 1, j, ns)
    ensures Grow(p, j, ns) in TreeScan(g, p, light, tmap, k) <==> GrowOffered(g, p, light, k, j, ns)
  {
    var t := g.trees[k];
    var th := ThrowScan(p, k, ThrowableRange(t), light, tmap);
    var own := OwnMove(g, p, k);
    var rest := TreeScan(g, p, light, th.1, k + 1);
    assert NextMap(g, p, light, tmap, k) == th.1;
    ThrowerUnfold(g, p, light, tmap, k);
    ThrowScanThrows(p, k, ThrowableRange(t), light, tmap);
    var gr := Grow(p, j, ns);
    SkipThrows(gr, own, th.0, rest);
    OwnMoveGrow(g, p, k, j, ns);
  }

  /** Step of `TreeScanGrow` at a tree that does not throw. */
  lemma GrowOther(g: Game, p: nat, light: Grid, tmap: Grid, k: nat, j: int, ns: nat)
    requires Shape(g) && p < |g.players| && 0 <= j < |g.trees| && k < |g.trees| && !ThrowsFrom(g, p, light, k)
    requires Grow(p, j, ns) in TreeScan(g, p, light, tmap, k + 1) <==> GrowOffered(g, p, light, k + 1, j, ns)
    ensures Grow(p, j, ns) in TreeScan(g, p, light, tmap, k) <==> GrowOffered(g, p, light, k, j, ns)
  {
    if ActsOn(g, p, light, k) {
      NonThrowerUnfold(g, p, light, tmap, k);
    } else {
      PassUnfold(g, p, light, tmap, k);
    }
  }

  /** Which Grow candidates appear from position k on: one for each lit
      tree of the mover below large whose next size is still available. */
  lemma {:induction false} TreeScanGrow(g: Game, p: nat, light: Grid, tmap: Grid, k: nat, j: int, ns: nat)
    requires Shape(g) && p < |g.players| && 0 <= j < |g.trees|
    ensures Grow(p, j, ns) in TreeScan(g, p, light, tmap, k) <==> GrowOffered(g, p, light, k, j, ns)
    decreases |g.trees| - k
  {
    if k >= |g.trees| {
      return;
    }
    TreeScanGrow(g, p, light, NextMap(g, p, light, tmap, k), k + 1, j, ns);
    if ThrowsFrom(g, p, light, k) {
      GrowThrower(g, p, light, tmap, k, j, ns);
    } else {
      GrowOther(g, p, light, tmap, k, j, ns);
    }
  }

  /** `TreeScanHarvest` and `TreeScanGrow` for every tree and new size. */
  lemma TreeScanOwn(g: Game, p: nat, light: Grid, tmap: Grid, k: nat)
    requires Shape(g) && p < |g.players|
    ensures forall j: int | 0 <= j < |g.trees| ::
      Harvest(p, j) in TreeScan(g, p, light, tmap, k) <==>
        k <= j && ActsOn(g, p, light, j) && g.trees[j].size == LARGE
    ensures forall j: int, ns: nat | 0 <= j < |g.trees| ::
      Grow(p, j, ns) in TreeScan(g, p, light, tmap, k) <==>
        && k <= j && ActsOn(g, p, light, j) && g.trees[j].size < LARGE
        && g.players[p].available[g.trees[j].size + 1] != 0 && ns == g.trees[j].size + 1
  {
    forall j: int | 0 <= j < |g.trees|
      ensures Harvest(p, j) in TreeScan(g, p, light, tmap, k) <==>
        k <= j && ActsOn(g, p, light, j) && g.trees[j].size == LARGE
    {
      TreeScanHarvest(g, p, light, tmap, k, j);
    }
    forall j: int, ns: nat | 0 <= j < |g.trees|
      ensures Grow(p, j, ns) in TreeScan(g, p, light, tmap, k) <==>
        && k <= j && ActsOn(g, p, light, j) && g.trees[j].size < LARGE
        && g.players[p].available[g.trees[j].size + 1] != 0 && ns == g.trees[j].size + 1
    {
      TreeScanGrow(g, p, light, tmap, k, j, ns);
    }
  }

  /** The throw condition of `TreeScanThrow`, for the scan from k. */
  ghost predicate ThrowOffered(g: Game, p: nat, light: Grid, tmap: Grid, k: nat, j: int, c: Cell)
    requires Shape(g) && p < |g.players| && 0 <= j < |g.trees|
  {
    && k <= j && ThrowsFrom(g, p, light, j) && InRange(g.trees[j], c)
    && light[c.0][c.1] != 0 && tmap[c.0][c.1] == Occupancy.EMPTY
    && !ClaimedBetween(g, p, light, c, k, j)
  }

  /** Step of `TreeScanThrow` at a tree that throws. */
  lemma ThrowerStep(g: Game, p: nat, light: Grid, tmap: Grid, k: nat, j: int, c: Cell)
    requires Shape(g) && p < |g.players| && 0 <= j < |g.trees| && k < |g.trees|
    requires ThrowsFrom(g, p, light, k)
    requires var th := ThrowScan(p, k, ThrowableRange(g.trees[k]), light, tmap);
      Throw(p, j, c) in TreeScan(g, p, light, th.1, k + 1) <==> ThrowOffered(g, p, light, th.1, k + 1, j, c)
    ensures Throw(p, j, c) in TreeScan(g, p, light, tmap, k) <==> ThrowOffered(g, p, light, tmap, k, j, c)
  {
    var t := g.trees[k];
    var m := Throw(p, j, c);
    var own := OwnMove(g, p, k);
    var th := ThrowScan(p, k, ThrowableRange(t), light, tmap);
    RangeHas(t, c);
    ThrowScanSpec(p, k, ThrowableRange(t), light, tmap);
    TreeScanSources(g, p, light, th.1, k + 1);
    ClaimedShift(g, p, light, c, k, j);
    var rest := TreeScan(g, p, light, th.1, k + 1);
    assert TreeScan(g, p, light, tmap, k) == own + th.0 + rest;
    assert m !in own;
    if j < k {
      assert m !in rest && m !in th.0;
    } else if j == k {
      assert m !in rest;
      assert m in th.0 <==> InRange(t, c) && light[c.0][c.1] != 0 && tmap[c.0][c.1] == Occupancy.EMPTY;
    } else {
      assert m !in th.0;
      if InRange(g.trees[j], c) && light[c.0][c.1] != 0 {
        assert th.1[c.0][c.1] == Occupancy.EMPTY <==> tmap[c.0][c.1] == Occupancy.EMPTY && !InRange(t, c);
      }
    }
  }

  /** Step of `TreeScanThrow` at a tree that does not throw. */
  lemma NonThrowerStep(g: Game, p: nat, light: Grid, tmap: Grid, k: nat, j: int, c: Cell)
    requires Shape(g) && p < |g.players| && 0 <= j < |g.trees| && k < |g.trees|
    requires !ThrowsFrom(g, p, light, k)
    requires Throw(p, j, c) in TreeScan(g, p, light, tmap, k + 1) <==> ThrowOffered(g, p, light, tmap, k + 1, j, c)
    ensures Throw(p, j, c) in TreeScan(g, p, light, tmap, k) <==> ThrowOffered(g, p, light, tmap, k, j, c)
  {
    var t := g.trees[k];
    TreeScanSources(g, p, light, tmap, k + 1);
    ClaimedShift(g, p, light, c, k, j);
    if t.player == p && light[t.y][t.x] != 0 {
      assert TreeScan(g, p, light, tmap, k) == OwnMove(g, p, k) + TreeScan(g, p, light, tmap, k + 1);
    }
  }

  /** Which Throw candidates appear from position k on. A Throw to `c` from
      tree j appears exactly when tree j may throw, `c` is in its range, lit
      and empty in `tmap`, and no throwing tree between k and j has `c` in
      its range (that tree would have offered, and marked, `c` first). */
  lemma {:induction false} TreeScanThrow(g: Game, p: nat, light: Grid, tmap: Grid, k: nat, j: int, c: Cell)
    requires Shape(g) && p < |g.players| && 0 <= j < |g.trees|
    ensures Throw(p, j, c) in TreeScan(g, p, light, tmap, k) <==> ThrowOffered(g, p, light, tmap, k, j, c)
    decreases |g.trees| - k
  {
    if k >= |g.trees| {
      return;
    }
    if ThrowsFrom(g, p, light, k) {
      var th := ThrowScan(p, k, ThrowableRange(g.trees[k]), light, tmap);
      TreeScanThrow(g, p, light, th.1, k + 1, j, c);
      ThrowerStep(g, p, light, tmap, k, j, c);
    } else {
      TreeScanThrow(g, p, light, tmap, k + 1, j, c);
      NonThrowerStep(g, p, light, tmap, k, j, c);
    }
  }

  /** No two throw candidates of one scan share a target: a later tree's
      Throw to `c` appears only if no earlier throwing tree had `c` in range,
      and the earlier one would have offered it. */
  lemma TreeScanOneSource(g: Game, p: nat, light: Grid, tmap: Grid, j1: int, j2: int, c: Cell)
    requires Shape(g) && p < |g.players| && 0 <= j1 < |g.trees| && 0 <= j2 < |g.trees|
    requires Throw(p, j1, c) in TreeScan(g, p, light, tmap, 0)
    requires Throw(p, j2, c) in TreeScan(g, p, light, tmap, 0)
    ensures j1 == j2
  {
    TreeScanThrow(g, p, light, tmap, 0, j1, c);
    TreeScanThrow(g, p, light, tmap, 0, j2, c);
  }

  // ---------------------------------------------------------------------------
  // Order of the offered moves
  // ---------------------------------------------------------------------------

  /** `a` is offered before `b`: Buys come first in ascending size, then the
      tree moves by position of their tree; a tree's Harvest or Grow comes
      before its throws, whose targets follow row-major order. */
  predicate Before(a: Move, b: Move) {
    if b.Buy? then a.Buy? && a.size < b.size
    else if a.Buy? then true
    else a.source < b.source || (a.source == b.source && b.Throw? && (!a.Throw? || LexLess(a.target, b.target)))
  }

  predicate Ordered(ms: seq<Move>) {
    forall i, j | 0 <= i < j < |ms| :: Before(ms[i], ms[j])
  }

  lemma OrderedConcat(a: seq<Move>, b: seq<Move>)
    requires Ordered(a) && Ordered(b)
    requires forall u, v | u in a && v in b :: Before(u, v)
    ensures Ordered(a + b)
  {
    forall i, j | 0 <= i < j < |a + b|
      ensures Before((a + b)[i], (a + b)[j])
    {
      if j < |a| {
        assert (a + b)[i] == a[i] && (a + b)[j] == a[j];
      } else if i >= |a| {
        assert (a + b)[i] == b[i - |a|] && (a + b)[j] == b[j - |a|];
      } else {
        assert (a + b)[i] == a[i] && a[i] in a;
        assert (a + b)[j] == b[j - |a|] && b[j - |a|] in b;
      }
    }
  }

  /** Filtering by cost distributes over concatenation. */
  lemma {:induction false} AffordableConcat(a: seq<Move>, b: seq<Move>, ml: int)
    ensures Affordable(a + b, ml) == Affordable(a, ml) + Affordable(b, ml)
    decreases |a|
  {
    if |a| > 0 {
      assert (a + b)[0] == a[0];
      assert (a + b)[1..] == a[1..] + b;
      AffordableConcat(a[1..], b, ml);
    } else {
      assert a + b == b;
    }
  }

  /** Filtering by cost keeps the order of what it keeps. */
  lemma {:induction false} AffordableOrdered(ms: seq<Move>, ml: int)
    requires Ordered(ms)
    ensures Ordered(Affordable(ms, ml))
    decreases |ms|
  {
    if |ms| > 0 {
      var tail := ms[1..];
      assert forall i, j | 0 <= i < j < |tail| :: tail[i] == ms[i + 1] && tail[j] == ms[j + 1];
      AffordableOrdered(tail, ml);
      forall v | v in Affordable(tail, ml)
        ensures Before(ms[0], v)
      {
        var j :| 0 <= j < |tail| && tail[j] == v;
        assert ms[j + 1] == v;
      }
      OrderedConcat(if MoveCost(ms[0]) <= ml then [ms[0]] else [], Affordable(tail, ml));
    }
  }

  lemma {:induction false} BuyMovesOrdered(count: seq<int>, p: nat, s: nat)
    requires Reserve.Priceable(count)
    ensures Ordered(BuyMoves(count, p, s))
    decreases 4 - s
  {
    if s < 4 {
      BuyMovesOrdered(count, p, s + 1);
      BuyMovesSpec(count, p, s + 1);
      OrderedConcat(if count[s] != 0 then [Buy(p, s, Reserve.Cost(count, s))] else [], BuyMoves(count, p, s + 1));
    }
  }

  lemma ThrowScanOrdered(p: nat, k: nat, cells: seq<Cell>, light: Grid, tmap: Grid)
    requires CellsInGrid(cells) && LexSorted(cells)
    ensures Ordered(ThrowScan(p, k, cells, light, tmap).0)
  {
    ThrowScanSorted(p, k, cells, light, tmap);
    ThrowScanSpec(p, k, cells, light, tmap);
    var ms := ThrowScan(p, k, cells, light, tmap).0;
    assert forall i | 0 <= i < |ms| :: ms[i] in ms;
  }

  /** A tree's own move comes before any later move of that tree's throws
      or of later trees. */
  lemma OwnFirst(g: Game, p: nat, k: nat, tail: seq<Move>)
    requires Shape(g) && p < |g.players| && k < |g.trees|
    requires forall v | v in tail :: !v.Buy? && (v.source > k || (v.source == k && v.Throw?))
    ensures forall u, v | u in OwnMove(g, p, k) && v in tail :: Before(u, v)
  {
  }

  /** A tree's own move followed by ordered moves of later trees is ordered. */
  lemma OwnThenLater(g: Game, p: nat, k: nat, rest: seq<Move>)
    requires Shape(g) && p < |g.players| && k < |g.trees|
    requires Ordered(rest) && forall v | v in rest :: !v.Buy? && v.source > k
    ensures Ordered(OwnMove(g, p, k) + rest)
  {
    OwnFirst(g, p, k, rest);
    OrderedConcat(OwnMove(g, p, k), rest);
  }

  /** Moves of tree k come before the moves of later trees. */
  lemma TreeFirst(k: nat, ths: seq<Move>, rest: seq<Move>)
    requires forall u | u in ths :: !u.Buy? && u.source == k
    requires forall v | v in rest :: !v.Buy? && v.source > k
    ensures forall u, v | u in ths && v in rest :: Before(u, v)
  {
  }

  /** A throwing tree's own move and throws are in order, all from that tree. */
  lemma HeadOrdered(g: Game, p: nat, light: Grid, tmap: Grid, k: nat)
    requires Shape(g) && p < |g.players| && ThrowsFrom(g, p, light, k)
    ensures var head := OwnMove(g, p, k) + ThrowScan(p, k, ThrowableRange(g.trees[k]), light, tmap).0;
      Ordered(head) && forall u | u in head :: !u.Buy? && u.source == k
  {
    var t := g.trees[k];
    var own := OwnMove(g, p, k);
    var th := ThrowScan(p, k, ThrowableRange(t), light, tmap);
    ThrowableRangeSpec(t);
    ThrowScanOrdered(p, k, ThrowableRange(t), light, tmap);
    ThrowScanSpec(p, k, ThrowableRange(t), light, tmap);
    OwnFirst(g, p, k, th.0);
    OrderedConcat(own, th.0);
    assert forall u | u in own + th.0 :: u in own || u in th.0;
  }

  /** Step of `TreeScanOrdered` at a tree that throws. */
  lemma ThrowerOrdered(g: Game, p: nat, light: Grid, tmap: Grid, k: nat)
    requires Shape(g) && p < |g.players| && ThrowsFrom(g, p, light, k)
    requires Ordered(TreeScan(g, p, light, NextMap(g, p, light, tmap, k), k + 1))
    ensures Ordered(TreeScan(g, p, light, tmap, k))
  {
    var th := ThrowScan(p, k, ThrowableRange(g.trees[k]), light, tmap);
    assert NextMap(g, p, light, tmap, k) == th.1;
    var head := OwnMove(g, p, k) + th.0;
    var rest := TreeScan(g, p, light, th.1, k + 1);
    ThrowerUnfold(g, p, light, tmap, k);
    HeadOrdered(g, p, light, tmap, k);
    TreeScanSources(g, p, light, th.1, k + 1);
    TreeFirst(k, head, rest);
    OrderedConcat(head, rest);
  }

  /** Step of `TreeScanOrdered` at an acting tree that does not throw. */
  lemma NonThrowerOrdered(g: Game, p: nat, light: Grid, tmap: Grid, k: nat)
    requires Shape(g) && p < |g.players| && ActsOn(g, p, light, k) && !ThrowsFrom(g, p, light, k)
    requires Ordered(TreeScan(g, p, light, tmap, k + 1))
    ensures Ordered(TreeScan(g, p, light, tmap, k))
  {
    NonThrowerUnfold(g, p, light, tmap, k);
    TreeScanSources(g, p, light, tmap, k + 1);
    OwnThenLater(g, p, k, TreeScan(g, p, light, tmap, k + 1));
  }

  /** Step of `TreeScanOrdered` at a tree that does not act. */
  lemma PassOrdered(g: Game, p: nat, light: Grid, tmap: Grid, k: nat)
    requires Shape(g) && p < |g.players| && k < |g.trees| && !ActsOn(g, p, light, k)
    requires Ordered(TreeScan(g, p, light, NextMap(g, p, light, tmap, k), k + 1))
    ensures Ordered(TreeScan(g, p, light, tmap, k))
  {
    assert NextMap(g, p, light, tmap, k) == tmap;
    PassUnfold(g, p, light, tmap, k);
  }

  /** One step of `TreeScanOrdered`. */
  lemma {:induction false} OrderedStep(g: Game, p: nat, light: Grid, tmap: Grid, k: nat)
    requires Shape(g) && p < |g.players| && k < |g.trees|
    ensures Ordered(TreeScan(g, p, light, tmap, k))
    decreases |g.trees| - k, 0
  {
    TreeScanOrdered(g, p, light, NextMap(g, p, light, tmap, k), k + 1);
    if ThrowsFrom(g, p, light, k) {
      ThrowerOrdered(g, p, light, tmap, k);
    } else if ActsOn(g, p, light, k) {
      assert NextMap(g, p, light, tmap, k) == tmap;
      NonThrowerOrdered(g, p, light, tmap, k);
    } else {
      PassOrdered(g, p, light, tmap, k);
    }
  }

  /** The tree candidates come tree by tree, each tree's own move before its
      throws, and the throws in row-major order of target. */
  lemma {:induction false} TreeScanOrdered(g: Game, p: nat, light: Grid, tmap: Grid, k: nat)
    requires Shape(g) && p < |g.players|
    ensures Ordered(TreeScan(g, p, light, tmap, k))
    decreases |g.trees| - k, 1
  {
    if k < |g.trees| {
      OrderedStep(g, p, light, tmap, k);
    }
  }

  /** The offered moves come in the documented order, so none is listed
      twice. */
  lemma GetMovesOrdered(g: Game, p: nat)
    requires Shape(g) && Reserve.Priceable(g.reserve) && p < |g.players|
    ensures Ordered(GetMoves(g, p))
    ensures forall i, j | 0 <= i < j < |GetMoves(g, p)| :: GetMoves(g, p)[i] != GetMoves(g, p)[j]
  {
    var buys := BuyMoves(g.reserve, p, 0);
    var scan := TreeScan(g, p, LightMap(g), TreeMap(g), 0);
    BuyMovesOrdered(g.reserve, p, 0);
    BuyMovesSpec(g.reserve, p, 0);
    TreeScanOrdered(g, p, LightMap(g), TreeMap(g), 0);
    TreeScanSources(g, p, LightMap(g), TreeMap(g), 0);
    OrderedConcat(buys, scan);
    AffordableOrdered(buys + scan, g.players[p].moonlight);
  }

  /** No two offered throws share a target cell. */
  lemma GetMovesThrowTargetsDistinct(g: Game, p: nat)
    requires Shape(g) && Reserve.Priceable(g.reserve) && p < |g.players|
    ensures forall i, j | 0 <= i < j < |GetMoves(g, p)| && GetMoves(g, p)[i].Throw? && GetMoves(g, p)[j].Throw? ::
      GetMoves(g, p)[i].target != GetMoves(g, p)[j].target
  {
    var ms := GetMoves(g, p);
    var light := LightMap(g);
    var tmap := TreeMap(g);
    GetMovesOrdered(g, p);
    BuyMovesSpec(g.reserve, p, 0);
    TreeScanSources(g, p, light, tmap, 0);
    forall i, j | 0 <= i < j < |ms| && ms[i].Throw? && ms[j].Throw?
      ensures ms[i].target != ms[j].target
    {
      assert ms[i] in ms && ms[j] in ms;
      assert ms[i] in TreeScan(g, p, light, tmap, 0) && ms[j] in TreeScan(g, p, light, tmap, 0);
      if ms[i].target == ms[j].target {
        TreeScanOneSource(g, p, light, tmap, ms[i].source, ms[j].source, ms[i].target);
        assert false;
      }
    }
  }

  // ---------------------------------------------------------------------------
  // Income
  // ---------------------------------------------------------------------------

  /** What tree `t` adds to player p's income under `light`. */
  function Yield(t: Tree, p: nat, light: Grid): nat
    requires InGrid(t.y, t.x)
  {
    if t.player == p && light[t.y][t.x] != 0 then t.size else 0
  }

  /** The moonlight player p collects: the sizes of p's lit trees. */
  function Income(trees: seq<Tree>, p: nat, light: Grid): nat
    requires Occupancy.AllInGrid(trees)
    decreases |trees|
  {
    if |trees| == 0 then 0
    else
      assert InGrid(trees[0].y, trees[0].x);
      Yield(trees[0], p, light) + Income(trees[1..], p, light)
  }

  /** A tree appended to the list adds exactly its own yield, so a seed or
      another player's tree adds nothing. */
  lemma {:induction false} IncomeAppend(trees: seq<Tree>, t: Tree, p: nat, light: Grid)
    requires Occupancy.AllInGrid(trees) && InGrid(t.y, t.x)
    ensures Occupancy.AllInGrid(trees + [t])
    ensures Income(trees + [t], p, light) == Income(trees, p, light) + Yield(t, p, light)
    ensures t.player != p || t.size == 0 ==> Income(trees + [t], p, light) == Income(trees, p, light)
    decreases |trees|
  {
    var all := trees + [t];
    assert forall k | 0 <= k < |all| :: all[k] == if k < |trees| then trees[k] else t;
    if |trees| > 0 {
      assert all[1..] == trees[1..] + [t];
      IncomeAppend(trees[1..], t, p, light);
    }
  }

  /** More light never lowers income. */
  lemma {:induction false} IncomeMonotone(trees: seq<Tree>, p: nat, light: Grid, light': Grid)
    requires Occupancy.AllInGrid(trees)
    requires forall y, x | InGrid(y, x) :: light[y][x] != 0 ==> light'[y][x] != 0
    ensures Income(trees, p, light) <= Income(trees, p, light')
    decreases |trees|
  {
    if |trees| > 0 {
      IncomeMonotone(trees[1..], p, light, light');
    }
  }

  /** Trees only take light away: the income of a set of trees under the
      light map of a larger set is at most their income under their own. */
  lemma IncomeShadowed(trees: seq<Tree>, more: seq<Tree>, cast: Cell, p: nat)
    requires Occupancy.AllInGrid(trees)
    requires forall t | t in trees :: t in more
    ensures Income(trees, p, Shadow.ShadowMap(more, cast)) <= Income(trees, p, Shadow.ShadowMap(trees, cast))
  {
    forall y, x | InGrid(y, x)
      ensures Shadow.ShadowMap(more, cast)[y][x] != 0 ==> Shadow.ShadowMap(trees, cast)[y][x] != 0
    {
      Shadow.ShadeMonotone(trees, more, cast, y, x);
    }
    IncomeMonotone(trees, p, Shadow.ShadowMap(more, cast), Shadow.ShadowMap(trees, cast));
  }

  /** A throw changes no player's income: the new seed casts no shadow and
      yields nothing. */
  lemma ThrowKeepsIncome(g: Game, m: Move, q: nat)
    requires Shape(g) && m.Throw? && Applicable(g, m) && InGrid(m.target.0, m.target.1)
    ensures Occupancy.AllInGrid(ApplyMove(g, m).game.trees)
    ensures LightMap(ApplyMove(g, m).game) == LightMap(g)
    ensures Income(ApplyMove(g, m).game.trees, q, LightMap(ApplyMove(g, m).game)) == Income(g.trees, q, LightMap(g))
  {
    var seed := Tree(m.player, SEED, m.target.0, m.target.1);
    Shadow.SeedShadesNothing(g.trees, seed, Cast(g.direction));
    IncomeAppend(g.trees, seed, q, LightMap(g));
  }

  /** The start of p's turn: p collects the income of the current light map
      and nothing else changes. */
  function TurnStart(g: Game, p: nat): (r: Game)
    requires Shape(g) && p < |g.players|
    ensures r.trees == g.trees && r.direction == g.direction && r.reserve == g.reserve
    ensures |r.players| == |g.players| && r.players[p].available == g.players[p].available
    ensures forall q | 0 <= q < |g.players| && q != p :: r.players[q] == g.players[q]
    ensures r.players[p].moonlight >= g.players[p].moonlight
  {
    var pl := g.players[p];
    g.(players := g.players[p := pl.(moonlight := pl.moonlight + Income(g.trees, p, LightMap(g)))])
  }
}
