/** The earlier single-file engine (src/game.py). It keeps the facing as an
    index into a table of shadow steps, names a move's tree by its cell, and
    checks each move's cost as it is generated instead of filtering at the
    end. Its light map and tree map are the current engine's, its reserve
    price is the same formula over the same tables, and its move list is the
    current engine's list written in its own move records. */
module Proto {
  import opened Board
  import Shadow
  import Occupancy
  import Reserve
  import Models
  import Engine
  import Invariants

  /** The shadow step per facing index: W, NW, NE, E, SE, SW. */
  const CAST: seq<Cell> := [(0, -1), (-1, -1), (-1, 0), (0, 1), (1, 1), (1, 0)]

  /** The table agrees with the current engine's facings in their order. */
  lemma CastTable(d: Direction)
    ensures CAST[Index(d)] == Cast(d)
    ensures forall i | 0 <= i < 6 :: CAST[i] == Cast(Facings[i])
  {
  }

  /** The prototype game: as the current one, with the facing as an index. */
  datatype Game = Game(players: seq<Models.Player>, trees: seq<Tree>, direction: int, reserve: seq<int>)

  function Lift(g: Game): Models.Game
    requires 0 <= g.direction < 6
  {
    Models.Game(g.players, g.trees, Facings[g.direction], g.reserve)
  }

  function Lower(g: Models.Game): Game {
    Game(g.players, g.trees, Index(g.direction), g.reserve)
  }

  /** The two representations of the facing are interchangeable. */
  lemma LiftLower(g: Game, h: Models.Game)
    requires 0 <= g.direction < 6
    ensures Lower(Lift(g)) == g
    ensures Lift(Lower(h)) == h
  {
    var i := g.direction;
    assert Index(Facings[i]) == i by {
      IndexInjective(Facings[Index(Facings[i])], Facings[i]);
    }
  }

  /** The prototype's new game is the current one, facing index 0 (west). */
  function CreateGame(numPlayers: nat): (r: Game)
    ensures r.direction == 0 && Lift(r) == Models.CreateGame(numPlayers)
  {
    Game(seq(numPlayers, _ => Models.InitialPlayer()), Models.StartTrees, 0, Reserve.Max)
  }

  function LightMap(trees: seq<Tree>, d: int): Grid
    requires 0 <= d < 6
  {
    Shadow.ShadowMap(trees, CAST[d])
  }

  /** Indexing the table gives the current engine's light map. */
  lemma LightMapAgrees(g: Game)
    requires 0 <= g.direction < 6
    ensures LightMap(g.trees, g.direction) == Models.LightMap(Lift(g))
  {
    CastTable(Facings[g.direction]);
  }

  // ---------------------------------------------------------------------------
  // Moves
  // ---------------------------------------------------------------------------

  datatype Kind = Buy | Grow | Harvest | Throw

  /** A move record: the mover, the kind, the new size, the cell of the tree
      acted on, the target cell of a throw and the price of a buy; fields a
      kind does not use hold -1 (a throw's new size is 0). */
  datatype Move = Move(player: nat, kind: Kind, newSize: int, y0: int, x0: int, y1: int, x1: int, buyCost: int)

  function MoveCost(m: Move): int {
    match m.kind
    case Grow => m.newSize
    case Harvest => 4
    case Throw => 1
    case Buy => m.buyCost
  }

  predicate Sourced(trees: seq<Tree>, m: Models.Move) {
    m.Buy? || m.source < |trees|
  }

  /** The cell of tree k; (-1, -1) names no tree. */
  function CellOf(trees: seq<Tree>, k: nat): Cell {
    if k < |trees| then (trees[k].y, trees[k].x) else (-1, -1)
  }

  /** The prototype record of a current-engine move. */
  function Encode(trees: seq<Tree>, m: Models.Move): (r: Move)
    ensures r.player == m.player && MoveCost(r) == Models.MoveCost(m)
    ensures r.kind == Buy <==> m.Buy?
    ensures Sourced(trees, m) && !m.Buy? ==> r.y0 == trees[m.source].y && r.x0 == trees[m.source].x
  {
    match m
    case Buy(p, s, c) => Move(p, Buy, s, -1, -1, -1, -1, c)
    case Grow(p, k, ns) => Move(p, Grow, ns, CellOf(trees, k).0, CellOf(trees, k).1, -1, -1, -1)
    case Harvest(p, k) => Move(p, Harvest, -1, CellOf(trees, k).0, CellOf(trees, k).1, -1, -1, -1)
    case Throw(p, k, c) => Move(p, Throw, 0, CellOf(trees, k).0, CellOf(trees, k).1, c.0, c.1, -1)
  }

  function EncodeAll(trees: seq<Tree>, ms: seq<Models.Move>): (r: seq<Move>)
    ensures |r| == |ms| && forall i | 0 <= i < |ms| :: r[i] == Encode(trees, ms[i])
    decreases |ms|
  {
    if |ms| == 0 then [] else [Encode(trees, ms[0])] + EncodeAll(trees, ms[1..])
  }

  lemma EncodeConcat(trees: seq<Tree>, a: seq<Models.Move>, b: seq<Models.Move>)
    ensures EncodeAll(trees, a + b) == EncodeAll(trees, a) + EncodeAll(trees, b)
  {
  }

  // ---------------------------------------------------------------------------
  // Move generation
  // ---------------------------------------------------------------------------

  /** Buys of sizes s.. with a non-zero count that the mover can afford. */
  function BuyMoves(count: seq<int>, p: nat, ml: int, s: nat): seq<Move>
    requires Reserve.Priceable(count)
    decreases 4 - s
  {
    if s >= 4 then []
    else
      (if count[s] != 0 && ml >= Reserve.Cost(count, s) then [Move(p, Buy, s, -1, -1, -1, -1, Reserve.Cost(count, s))] else [])
      + BuyMoves(count, p, ml, s + 1)
  }

  /** Cells (i, j) for lo <= j < hi. */
  function Span(i: int, lo: int, hi: int): seq<Cell>
    decreases hi - lo
  {
    if lo >= hi then [] else [(i, lo)] + Span(i, lo + 1, hi)
  }

  /** The throw range as the prototype walks it: rows outside 0..6 are
      skipped and the column bounds are clamped to 0..7 before the loop. */
  function ClampedRows(t: Tree, dy: int): seq<Cell>
    decreases t.size - dy
  {
    if dy > t.size then []
    else
      var i := t.y + dy;
      (if i < 0 || i > 6 then [] else Span(i, Max(0, t.x - t.size + Max(0, dy)), Min(7, t.x + t.size + Min(0, dy) + 1)))
      + ClampedRows(t, dy + 1)
  }

  /** Clamping the bounds visits the same columns, in the same order, as
      testing each column. */
  lemma {:induction false} SpanIsFilteredRow(i: int, lo: int, hi: int)
    ensures Span(i, Max(0, lo), Min(7, hi)) == FilteredRow(i, lo, hi)
    decreases hi - lo
  {
    if lo < hi {
      SpanIsFilteredRow(i, lo + 1, hi);
    }
  }

  /** The clamped walk is the current engine's throw range. */
  lemma {:induction false} ClampedRowsIsRange(t: Tree, dy: int)
    ensures ClampedRows(t, dy) == RangeRows(t, dy)
    decreases t.size - dy
  {
    if dy <= t.size {
      SpanIsFilteredRow(t.y + dy, t.x - t.size + Max(0, dy), t.x + t.size + Min(0, dy) + 1);
      ClampedRowsIsRange(t, dy + 1);
    }
  }

  function ThrowRange(t: Tree): seq<Cell> {
    ClampedRows(t, -(t.size as int))
  }

  /** The prototype walks the same throw range as the current engine. */
  lemma ThrowRangeIsRange(t: Tree)
    ensures ThrowRange(t) == ThrowableRange(t)
  {
    ClampedRowsIsRange(t, -(t.size as int));
  }

  /** Throws from tree `t` to the listed lit empty cells; each such cell is
      marked whether or not the throw is affordable. */
  function ThrowScan(p: nat, t: Tree, cells: seq<Cell>, light: Grid, tmap: Grid, ml: int): (seq<Move>, Grid)
    requires Engine.CellsInGrid(cells)
    decreases |cells|
  {
    if |cells| == 0 then ([], tmap)
    else
      var c := cells[0];
      assert c in cells;
      if light[c.0][c.1] != 0 && tmap[c.0][c.1] == Occupancy.EMPTY then
        var mv := Move(p, Throw, 0, t.y, t.x, c.0, c.1, -1);
        var rest := ThrowScan(p, t, cells[1..], light, Set(tmap, c.0, c.1, Occupancy.MARKED), ml);
        ((if MoveCost(mv) <= ml then [mv] else []) + rest.0, rest.1)
      else
        ThrowScan(p, t, cells[1..], light, tmap, ml)
  }

  predicate Shape(g: Game) {
    0 <= g.direction < 6 && Engine.Shape(Lift(g))
  }

  /** The Harvest or Grow a lit tree offers, if affordable. */
  function OwnMove(g: Game, p: nat, k: nat): seq<Move>
    requires Shape(g) && p < |g.players| && k < |g.trees|
  {
    var t := g.trees[k];
    var pl := g.players[p];
    if t.size == LARGE then
      var mv := Move(p, Harvest, -1, t.y, t.x, -1, -1, -1);
      if MoveCost(mv) <= pl.moonlight then [mv] else []
    else
      var mv := Move(p, Grow, t.size + 1, t.y, t.x, -1, -1, -1);
      if MoveCost(mv) <= pl.moonlight && pl.available[t.size + 1] != 0 then [mv] else []
  }

  /** The tree moves of trees k.., each checked against the balance. */
  function TreeScan(g: Game, p: nat, light: Grid, tmap: Grid, k: nat): seq<Move>
    requires Shape(g) && p < |g.players|
    decreases |g.trees| - k
  {
    if k >= |g.trees| then []
    else
      var t := g.trees[k];
      if t.player == p && light[t.y][t.x] != 0 then
        if t.size > 0 && g.players[p].available[SEED] != 0 then
          ThrowRangeIsRange(t);
          var th := ThrowScan(p, t, ThrowRange(t), light, tmap, g.players[p].moonlight);
          OwnMove(g, p, k) + th.0 + TreeScan(g, p, light, th.1, k + 1)
        else
          OwnMove(g, p, k) + TreeScan(g, p, light, tmap, k + 1)
      else
        TreeScan(g, p, light, tmap, k + 1)
  }

  function GetMoves(g: Game, p: nat): seq<Move>
    requires Shape(g) && Reserve.Priceable(g.reserve) && p < |g.players|
  {
    var ml := g.players[p].moonlight;
    BuyMoves(g.reserve, p, ml, 0)
    + TreeScan(g, p, LightMap(g.trees, g.direction), Occupancy.TreeMap(g.trees), 0)
  }

  // ---------------------------------------------------------------------------
  // Agreement with the current engine's move generation
  // ---------------------------------------------------------------------------

  lemma {:induction false} BuyMovesAgree(count: seq<int>, p: nat, ml: int, s: nat, trees: seq<Tree>)
    requires Reserve.Priceable(count)
    ensures BuyMoves(count, p, ml, s) == EncodeAll(trees, Engine.Affordable(Engine.BuyMoves(count, p, s), ml))
    decreases 4 - s
  {
    Engine.BuyMovesSpec(count, p, s);
    if s < 4 {
      BuyMovesAgree(count, p, ml, s + 1, trees);
      var head: seq<Models.Move> := if count[s] != 0 then [Models.Buy(p, s, Reserve.Cost(count, s))] else [];
      var rest := Engine.BuyMoves(count, p, s + 1);
      assert Engine.BuyMoves(count, p, s) == head + rest;
      Engine.AffordableConcat(head, rest, ml);
      EncodeConcat(trees, Engine.Affordable(head, ml), Engine.Affordable(rest, ml));
    }
  }

  /** Both scans mark the same cells. */
  lemma {:induction false} ThrowScanMarksAgree(t: Tree, p: nat, k: nat, cells: seq<Cell>, light: Grid, tmap: Grid, ml: int)
    requires Engine.CellsInGrid(cells)
    ensures ThrowScan(p, t, cells, light, tmap, ml).1 == Engine.ThrowScan(p, k, cells, light, tmap).1
    decreases |cells|
  {
    if |cells| > 0 {
      var c := cells[0];
      assert c in cells;
      if light[c.0][c.1] != 0 && tmap[c.0][c.1] == Occupancy.EMPTY {
        ThrowScanMarksAgree(t, p, k, cells[1..], light, Set(tmap, c.0, c.1, Occupancy.MARKED), ml);
      } else {
        ThrowScanMarksAgree(t, p, k, cells[1..], light, tmap, ml);
      }
    }
  }

  /** A single current-engine throw, filtered by moonlight and encoded, is
      the prototype's throw when one point of moonlight is at hand. */
  lemma SingleThrowAgrees(g: Game, p: nat, k: nat, c: Cell, ml: int)
    requires k < |g.trees|
    ensures EncodeAll(g.trees, Engine.Affordable([Models.Throw(p, k, c)], ml))
      == if 1 <= ml then [Move(p, Throw, 0, g.trees[k].y, g.trees[k].x, c.0, c.1, -1)] else []
  {
    var x := Models.Throw(p, k, c);
    assert Models.MoveCost(x) == 1;
    assert [x][1..] == [];
    assert Engine.Affordable([x], ml) == if 1 <= ml then [x] else [];
  }

  /** Step of `ThrowScanAgrees` at a lit empty cell. */
  lemma ThrowHeadAgrees(g: Game, p: nat, k: nat, cells: seq<Cell>, light: Grid, tmap: Grid, ml: int)
    requires Engine.CellsInGrid(cells) && k < |g.trees| && |cells| > 0
    requires light[cells[0].0][cells[0].1] != 0 && tmap[cells[0].0][cells[0].1] == Occupancy.EMPTY
    requires var tmap' := Set(tmap, cells[0].0, cells[0].1, Occupancy.MARKED);
      ThrowScan(p, g.trees[k], cells[1..], light, tmap', ml).0
        == EncodeAll(g.trees, Engine.Affordable(Engine.ThrowScan(p, k, cells[1..], light, tmap').0, ml))
    ensures ThrowScan(p, g.trees[k], cells, light, tmap, ml).0
      == EncodeAll(g.trees, Engine.Affordable(Engine.ThrowScan(p, k, cells, light, tmap).0, ml))
  {
    var c := cells[0];
    var tmap' := Set(tmap, c.0, c.1, Occupancy.MARKED);
    var head := [Models.Throw(p, k, c)];
    var rest := Engine.ThrowScan(p, k, cells[1..], light, tmap').0;
    var mv := Move(p, Throw, 0, g.trees[k].y, g.trees[k].x, c.0, c.1, -1);
    var first := if 1 <= ml then [mv] else [];
    var prest := ThrowScan(p, g.trees[k], cells[1..], light, tmap', ml).0;
    assert ThrowScan(p, g.trees[k], cells, light, tmap, ml).0 == first + prest;
    assert Engine.ThrowScan(p, k, cells, light, tmap).0 == head + rest;
    Engine.AffordableConcat(head, rest, ml);
    EncodeConcat(g.trees, Engine.Affordable(head, ml), Engine.Affordable(rest, ml));
    SingleThrowAgrees(g, p, k, c, ml);
    assert EncodeAll(g.trees, Engine.Affordable(head + rest, ml)) == first + prest;
  }

  /** Both scans offer the same throws once the unaffordable ones are
      dropped. */
  lemma {:induction false} ThrowScanAgrees(g: Game, p: nat, k: nat, cells: seq<Cell>, light: Grid, tmap: Grid, ml: int)
    requires Engine.CellsInGrid(cells) && k < |g.trees|
    ensures ThrowScan(p, g.trees[k], cells, light, tmap, ml).0
      == EncodeAll(g.trees, Engine.Affordable(Engine.ThrowScan(p, k, cells, light, tmap).0, ml))
    decreases |cells|
  {
    if |cells| > 0 {
      var c := cells[0];
      assert c in cells;
      if light[c.0][c.1] != 0 && tmap[c.0][c.1] == Occupancy.EMPTY {
        ThrowScanAgrees(g, p, k, cells[1..], light, Set(tmap, c.0, c.1, Occupancy.MARKED), ml);
        ThrowHeadAgrees(g, p, k, cells, light, tmap, ml);
      } else {
        ThrowScanAgrees(g, p, k, cells[1..], light, tmap, ml);
      }
    }
  }

  lemma OwnMoveAgrees(g: Game, p: nat, k: nat)
    requires Shape(g) && p < |g.players| && k < |g.trees|
    ensures OwnMove(g, p, k) == EncodeAll(g.trees, Engine.Affordable(Engine.OwnMove(Lift(g), p, k), g.players[p].moonlight))
  {
  }

  lemma ProtoThrowerUnfold(g: Game, p: nat, light: Grid, tmap: Grid, k: nat)
    requires Shape(g) && p < |g.players| && k < |g.trees|
    requires Engine.ThrowsFrom(Lift(g), p, light, k)
    ensures var t := g.trees[k];
      var th := ThrowScan(p, t, ThrowableRange(t), light, tmap, g.players[p].moonlight);
      TreeScan(g, p, light, tmap, k) == OwnMove(g, p, k) + th.0 + TreeScan(g, p, light, th.1, k + 1)
  {
    ThrowRangeIsRange(g.trees[k]);
  }

  lemma EngineThrowerUnfold(g: Game, p: nat, light: Grid, tmap: Grid, k: nat)
    requires Shape(g) && p < |g.players| && k < |g.trees|
    requires Engine.ThrowsFrom(Lift(g), p, light, k)
    ensures var t := g.trees[k];
      var th := Engine.ThrowScan(p, k, ThrowableRange(t), light, tmap);
      Engine.TreeScan(Lift(g), p, light, tmap, k) == Engine.OwnMove(Lift(g), p, k) + th.0 + Engine.TreeScan(Lift(g), p, light, th.1, k + 1)
  {
  }

  /** Step of `TreeScanAgrees` at a tree that throws. */
  lemma ThrowerAgrees(g: Game, p: nat, light: Grid, tmap: Grid, k: nat)
    requires Shape(g) && p < |g.players| && k < |g.trees|
    requires Engine.ThrowsFrom(Lift(g), p, light, k)
    requires var th := Engine.ThrowScan(p, k, ThrowableRange(g.trees[k]), light, tmap);
      TreeScan(g, p, light, th.1, k + 1)
      == EncodeAll(g.trees, Engine.Affordable(Engine.TreeScan(Lift(g), p, light, th.1, k + 1), g.players[p].moonlight))
    ensures TreeScan(g, p, light, tmap, k)
      == EncodeAll(g.trees, Engine.Affordable(Engine.TreeScan(Lift(g), p, light, tmap, k), g.players[p].moonlight))
  {
    var h := Lift(g);
    var t := g.trees[k];
    var ml := g.players[p].moonlight;
    var th := Engine.ThrowScan(p, k, ThrowableRange(t), light, tmap);
    OwnMoveAgrees(g, p, k);
    ThrowScanAgrees(g, p, k, ThrowableRange(t), light, tmap, ml);
    ThrowScanMarksAgree(t, p, k, ThrowableRange(t), light, tmap, ml);
    ProtoThrowerUnfold(g, p, light, tmap, k);
    EngineThrowerUnfold(g, p, light, tmap, k);
    EncodeThree(g.trees, Engine.OwnMove(h, p, k), th.0, Engine.TreeScan(h, p, light, th.1, k + 1), ml);
  }

  /** Encoding the affordable part of a three-part list, part by part. */
  lemma EncodeThree(trees: seq<Tree>, a: seq<Models.Move>, b: seq<Models.Move>, c: seq<Models.Move>, ml: int)
    ensures EncodeAll(trees, Engine.Affordable(a + b + c, ml))
      == EncodeAll(trees, Engine.Affordable(a, ml)) + EncodeAll(trees, Engine.Affordable(b, ml)) + EncodeAll(trees, Engine.Affordable(c, ml))
  {
    Engine.AffordableConcat(a + b, c, ml);
    Engine.AffordableConcat(a, b, ml);
    EncodeConcat(trees, Engine.Affordable(a, ml), Engine.Affordable(b, ml));
    EncodeConcat(trees, Engine.Affordable(a, ml) + Engine.Affordable(b, ml), Engine.Affordable(c, ml));
  }

  /** Step of `TreeScanAgrees` at an acting tree that does not throw. */
  lemma NonThrowerAgrees(g: Game, p: nat, light: Grid, tmap: Grid, k: nat)
    requires Shape(g) && p < |g.players| && k < |g.trees|
    requires Engine.ActsOn(Lift(g), p, light, k) && !Engine.ThrowsFrom(Lift(g), p, light, k)
    requires TreeScan(g, p, light, tmap, k + 1)
      == EncodeAll(g.trees, Engine.Affordable(Engine.TreeScan(Lift(g), p, light, tmap, k + 1), g.players[p].moonlight))
    ensures TreeScan(g, p, light, tmap, k)
      == EncodeAll(g.trees, Engine.Affordable(Engine.TreeScan(Lift(g), p, light, tmap, k), g.players[p].moonlight))
  {
    var h := Lift(g);
    var ml := g.players[p].moonlight;
    var own := Engine.OwnMove(h, p, k);
    var rest := Engine.TreeScan(h, p, light, tmap, k + 1);
    OwnMoveAgrees(g, p, k);
    assert Engine.TreeScan(h, p, light, tmap, k) == own + rest;
    Engine.AffordableConcat(own, rest, ml);
    EncodeConcat(g.trees, Engine.Affordable(own, ml), Engine.Affordable(rest, ml));
  }

  lemma PassUnfold(g: Game, p: nat, light: Grid, tmap: Grid, k: nat)
    requires Shape(g) && p < |g.players| && k < |g.trees|
    requires !Engine.ActsOn(Lift(g), p, light, k)
    ensures TreeScan(g, p, light, tmap, k) == TreeScan(g, p, light, tmap, k + 1)
    ensures Engine.TreeScan(Lift(g), p, light, tmap, k) == Engine.TreeScan(Lift(g), p, light, tmap, k + 1)
  {
  }

  /** The tree map the scan from k + 1 starts from. */
  function NextMap(g: Game, p: nat, light: Grid, tmap: Grid, k: nat): Grid
    requires Shape(g) && p < |g.players| && k < |g.trees|
  {
    if Engine.ThrowsFrom(Lift(g), p, light, k) then Engine.ThrowScan(p, k, ThrowableRange(g.trees[k]), light, tmap).1 else tmap
  }

  /** One step of `TreeScanAgrees`: the scans agree from tree k once they
      agree from k + 1 on the tree map tree k leaves behind. */
  lemma {:induction false} StepAgrees(g: Game, p: nat, light: Grid, tmap: Grid, k: nat)
    requires Shape(g) && p < |g.players| && k < |g.trees|
    ensures TreeScan(g, p, light, tmap, k)
      == EncodeAll(g.trees, Engine.Affordable(Engine.TreeScan(Lift(g), p, light, tmap, k), g.players[p].moonlight))
    decreases |g.trees| - k, 0
  {
    TreeScanAgrees(g, p, light, NextMap(g, p, light, tmap, k), k + 1);
    if Engine.ThrowsFrom(Lift(g), p, light, k) {
      ThrowerAgrees(g, p, light, tmap, k);
    } else if Engine.ActsOn(Lift(g), p, light, k) {
      NonThrowerAgrees(g, p, light, tmap, k);
    } else {
      PassUnfold(g, p, light, tmap, k);
    }
  }

  /** The prototype's tree scan lists, in its records, exactly the
      affordable part of the current engine's tree scan. */
  lemma {:induction false} TreeScanAgrees(g: Game, p: nat, light: Grid, tmap: Grid, k: nat)
    requires Shape(g) && p < |g.players|
    ensures TreeScan(g, p, light, tmap, k)
      == EncodeAll(g.trees, Engine.Affordable(Engine.TreeScan(Lift(g), p, light, tmap, k), g.players[p].moonlight))
    decreases |g.trees| - k, 1
  {
    if k < |g.trees| {
      StepAgrees(g, p, light, tmap, k);
    }
  }

  /** Checking each cost inline gives the current engine's list: the same
      moves, in the same order, written as prototype records. */
  lemma GetMovesAgree(g: Game, p: nat)
    requires Shape(g) && Reserve.Priceable(g.reserve) && p < |g.players|
    ensures GetMoves(g, p) == EncodeAll(g.trees, Engine.GetMoves(Lift(g), p))
  {
    var h := Lift(g);
    var ml := g.players[p].moonlight;
    var buys := Engine.BuyMoves(g.reserve, p, 0);
    var scan := Engine.TreeScan(h, p, Models.LightMap(h), Models.TreeMap(h), 0);
    LightMapAgrees(g);
    BuyMovesAgree(g.reserve, p, ml, 0, g.trees);
    TreeScanAgrees(g, p, Models.LightMap(h), Models.TreeMap(h), 0);
    Engine.AffordableConcat(buys, scan, ml);
    EncodeConcat(g.trees, Engine.Affordable(buys, ml), Engine.Affordable(scan, ml));
  }

  /** Predicate: no two throws of `ms` share a target. */
  predicate ThrowTargetsDistinct(ms: seq<Models.Move>) {
    forall i, j | 0 <= i < j < |ms| && ms[i].Throw? && ms[j].Throw? :: ms[i].target != ms[j].target
  }

  /** Encoding keeps throw targets apart. */
  lemma EncodeKeepsTargetsDistinct(trees: seq<Tree>, ms: seq<Models.Move>)
    requires ThrowTargetsDistinct(ms)
    ensures var r := EncodeAll(trees, ms);
      forall i, j | 0 <= i < j < |r| && r[i].kind == Throw && r[j].kind == Throw :: (r[i].y1, r[i].x1) != (r[j].y1, r[j].x1)
  {
    var r := EncodeAll(trees, ms);
    forall i, j | 0 <= i < j < |r| && r[i].kind == Throw && r[j].kind == Throw
      ensures (r[i].y1, r[i].x1) != (r[j].y1, r[j].x1)
    {
      assert r[i] == Encode(trees, ms[i]) && r[j] == Encode(trees, ms[j]);
    }
  }

  /** No two offered throws share a target cell: a cell an earlier tree
      offered is marked and later trees pass it over. */
  lemma GetMovesThrowTargetsDistinct(g: Game, p: nat)
    requires Shape(g) && Reserve.Priceable(g.reserve) && p < |g.players|
    ensures var r := GetMoves(g, p);
      forall i, j | 0 <= i < j < |r| && r[i].kind == Throw && r[j].kind == Throw :: (r[i].y1, r[i].x1) != (r[j].y1, r[j].x1)
  {
    var ms := Engine.GetMoves(Lift(g), p);
    GetMovesAgree(g, p);
    Engine.GetMovesThrowTargetsDistinct(Lift(g), p);
    assert ThrowTargetsDistinct(ms);
    EncodeKeepsTargetsDistinct(g.trees, ms);
  }

  // ---------------------------------------------------------------------------
  // Applying a move
  // ---------------------------------------------------------------------------

  /** The position of the first tree standing on (y, x), if any. */
  function FirstAt(trees: seq<Tree>, y: int, x: int): (r: Option<nat>)
    ensures r.Some? ==> r.value < |trees| && Occupancy.At(trees[r.value], y, x)
    ensures r.Some? ==> forall j | 0 <= j < r.value :: !Occupancy.At(trees[j], y, x)
    ensures r.None? <==> !Occupancy.Occupied(trees, y, x)
    decreases |trees|
  {
    if |trees| == 0 then None
    else if Occupancy.At(trees[0], y, x) then Some(0)
    else
      match FirstAt(trees[1..], y, x)
      case None => None
      case Some(i) => Some(i + 1)
  }

  /** In a list without two trees on one cell, tree k is the first on its cell. */
  lemma FirstAtDistinct(trees: seq<Tree>, k: nat)
    requires Invariants.DistinctCells(trees) && k < |trees|
    ensures FirstAt(trees, trees[k].y, trees[k].x) == Some(k)
  {
    var r := FirstAt(trees, trees[k].y, trees[k].x);
    assert Occupancy.At(trees[k], trees[k].y, trees[k].x);
  }

  /** What the prototype's move application indexes without failing. */
  predicate Applicable(g: Game, m: Move) {
    && m.player < |g.players|
    && |g.players[m.player].available| == 4
    && |g.reserve| == 4
    && (m.kind == Grow ==> 1 <= m.newSize <= 3)
  }

  /** Applies a move; None where the prototype raises. Every move pays its
      cost first. A Grow finds the first tree on its cell (and fails when
      there is none), grows it, takes one piece of the new size from the
      player and returns one of the old size to the reserve, up to the
      maximum. A Throw takes a seed from the player and plants it. A Harvest
      fails on a missing attribute, and a Buy only pays. */
  function ApplyMove(g: Game, m: Move): (r: Option<Game>)
    requires Applicable(g, m)
    ensures r.Some? <==> (m.kind == Grow && Occupancy.Occupied(g.trees, m.y0, m.x0)) || m.kind == Throw || m.kind == Buy
    ensures r.Some? ==>
      && r.value.direction == g.direction
      && |r.value.players| == |g.players|
      && (forall q | 0 <= q < |g.players| && q != m.player :: r.value.players[q] == g.players[q])
      && r.value.players[m.player].moonlight == g.players[m.player].moonlight - MoveCost(m)
    ensures r.Some? && m.kind == Grow ==>
      var k := FirstAt(g.trees, m.y0, m.x0).value;
      && |r.value.trees| == |g.trees|
      && r.value.trees[k] == g.trees[k].(size := g.trees[k].size + 1)
      && (forall j | 0 <= j < |g.trees| && j != k :: r.value.trees[j] == g.trees[j])
      && r.value.players[m.player].available == g.players[m.player].available[m.newSize := g.players[m.player].available[m.newSize] - 1]
      && r.value.reserve == g.reserve[m.newSize - 1 := Min(Reserve.Max[m.newSize - 1], g.reserve[m.newSize - 1] + 1)]
    ensures r.Some? && m.kind == Throw ==>
      && r.value.trees == g.trees + [Tree(m.player, SEED, m.y1, m.x1)]
      && r.value.reserve == g.reserve
      && r.value.players[m.player].available == g.players[m.player].available[SEED := g.players[m.player].available[SEED] - 1]
    ensures r.Some? && m.kind == Buy ==>
      && r.value.trees == g.trees && r.value.reserve == g.reserve
      && r.value.players[m.player].available == g.players[m.player].available
  {
    var p := m.player;
    var pl := g.players[p];
    var paid := pl.(moonlight := pl.moonlight - MoveCost(m));
    match m.kind
    case Harvest => None
    case Grow =>
      (match FirstAt(g.trees, m.y0, m.x0)
       case None => None
       case Some(k) =>
         var ns := m.newSize;
         var t := g.trees[k];
         var pl' := paid.(available := paid.available[ns := paid.available[ns] - 1]);
         Some(g.(players := g.players[p := pl'], trees := g.trees[k := t.(size := t.size + 1)],
                 reserve := g.reserve[ns - 1 := Min(Reserve.Max[ns - 1], g.reserve[ns - 1] + 1)])))
    case Throw =>
      var pl' := paid.(available := paid.available[SEED := paid.available[SEED] - 1]);
      Some(g.(players := g.players[p := pl'], trees := g.trees + [Tree(p, SEED, m.y1, m.x1)]))
    case Buy =>
      Some(g.(players := g.players[p := paid]))
  }

  /** On a Grow of the first tree on its cell, or on a Throw, the prototype
      reaches the same game as the current engine. */
  lemma ApplyAgrees(g: Models.Game, m: Models.Move)
    requires Models.Applicable(g, m) && (m.Grow? || m.Throw?)
    requires m.Grow? ==> FirstAt(g.trees, g.trees[m.source].y, g.trees[m.source].x) == Some(m.source)
    ensures Applicable(Lower(g), Encode(g.trees, m))
    ensures ApplyMove(Lower(g), Encode(g.trees, m)) == Some(Lower(Models.ApplyMove(g, m).game))
  {
  }

  /** Every Grow and Throw the current engine offers in a reachable game has
      the same effect in the prototype. */
  lemma GeneratedApplyAgrees(g: Models.Game, p: nat, m: Models.Move)
    requires Invariants.Inv(g) && p < |g.players|
    requires m in Engine.GetMoves(g, p) && (m.Grow? || m.Throw?)
    requires Models.Applicable(g, m)
    ensures Applicable(Lower(g), Encode(g.trees, m))
    ensures ApplyMove(Lower(g), Encode(g.trees, m)) == Some(Lower(Models.ApplyMove(g, m).game))
  {
    if m.Grow? {
      FirstAtDistinct(g.trees, m.source);
    }
    ApplyAgrees(g, m);
  }

  /** The prototype's Buy charges the price but moves no piece, where the
      current engine moves one piece from the reserve to the player. */
  lemma BuyDiffers(g: Models.Game, m: Models.Move)
    requires Models.Applicable(g, m) && m.Buy?
    ensures var r := ApplyMove(Lower(g), Encode(g.trees, m));
      && r.Some?
      && r.value.players[m.player].moonlight == Models.ApplyMove(g, m).game.players[m.player].moonlight
      && r.value.reserve[m.size] == Models.ApplyMove(g, m).game.reserve[m.size] + 1
      && r.value.players[m.player].available[m.size] == Models.ApplyMove(g, m).game.players[m.player].available[m.size] - 1
  {
  }
}
