/** A declarative statement of which moves the current engine offers, and
    the theorem that move generation lists exactly those. */
module Legality {
  import opened Board
  import Shadow
  import Occupancy
  import Reserve
  import opened Models
  import opened Engine

  /** No tree's shadow reaches (y, x) under the current facing. */
  ghost predicate Lit(g: Game, y: int, x: int) {
    !Shadow.Shaded(g.trees, Cast(g.direction), y, x)
  }

  /** Tree k belongs to p and stands in light. */
  ghost predicate Acts(g: Game, p: nat, k: int) {
    0 <= k < |g.trees| && g.trees[k].player == p && Lit(g, g.trees[k].y, g.trees[k].x)
  }

  /** Tree k may throw: it acts, is not a seed, and p holds a seed. */
  ghost predicate CanThrow(g: Game, p: nat, k: int)
    requires Shape(g) && p < |g.players|
  {
    Acts(g, p, k) && g.trees[k].size > 0 && g.players[p].available[SEED] != 0
  }

  /** Tree k is the first tree in list order that may throw to `c`. */
  ghost predicate FirstThrower(g: Game, p: nat, k: int, c: Cell)
    requires Shape(g) && p < |g.players|
  {
    && CanThrow(g, p, k) && InRange(g.trees[k], c)
    && forall i | 0 <= i < k :: !(CanThrow(g, p, i) && InRange(g.trees[i], c))
  }

  /** The moves player p may make: each is p's, affordable, and
      - a Buy of a size whose reserve count is non-zero, at the reserve price;
      - a Harvest of a lit large tree of p;
      - a Grow of a lit smaller tree of p to the next size, when p has a piece
        of that size available;
      - a Throw from the first lit non-seed tree of p (p holding a seed) that
        has the target in range, to a lit, empty, on-board cell. */
  ghost predicate Legal(g: Game, p: nat, m: Move)
    requires Shape(g) && Reserve.Priceable(g.reserve) && p < |g.players|
  {
    && m.player == p
    && MoveCost(m) <= g.players[p].moonlight
    && match m
       case Buy(_, s, c) => s < 4 && g.reserve[s] != 0 && c == Reserve.Cost(g.reserve, s)
       case Harvest(_, k) => Acts(g, p, k) && g.trees[k].size == LARGE
       case Grow(_, k, ns) =>
         && Acts(g, p, k) && g.trees[k].size < LARGE && ns == g.trees[k].size + 1
         && g.players[p].available[ns] != 0
       case Throw(_, k, c) =>
         && FirstThrower(g, p, k, c)
         && OnBoard(c.0, c.1) && Lit(g, c.0, c.1) && !Occupancy.Occupied(g.trees, c.0, c.1)
  }

  /** The light map is non-zero exactly on lit cells. */
  lemma LightIsLit(g: Game, y: int, x: int)
    requires InGrid(y, x)
    ensures LightMap(g)[y][x] != 0 <==> Lit(g, y, x)
  {
    Shadow.ShadowMapSpec(g.trees, Cast(g.direction), y, x);
  }

  lemma ThrowsFromCanThrow(g: Game, p: nat)
    requires Shape(g) && p < |g.players|
    ensures forall i | 0 <= i < |g.trees| :: ThrowsFrom(g, p, LightMap(g), i) <==> CanThrow(g, p, i)
    ensures forall i | 0 <= i < |g.trees| :: ActsOn(g, p, LightMap(g), i) <==> Acts(g, p, i)
  {
    forall i | 0 <= i < |g.trees|
      ensures ActsOn(g, p, LightMap(g), i) <==> Acts(g, p, i)
    {
      LightIsLit(g, g.trees[i].y, g.trees[i].x);
    }
  }

  lemma GetMovesMembers(g: Game, p: nat, m: Move)
    requires Shape(g) && Reserve.Priceable(g.reserve) && p < |g.players|
    ensures m in GetMoves(g, p) <==>
      (MoveCost(m) <= g.players[p].moonlight &&
       (m in BuyMoves(g.reserve, p, 0) || m in TreeScan(g, p, LightMap(g), TreeMap(g), 0)))
  {
  }

  lemma BuyLegal(g: Game, p: nat, m: Move)
    requires Shape(g) && Reserve.Priceable(g.reserve) && p < |g.players| && m.Buy?
    ensures m in GetMoves(g, p) <==> Legal(g, p, m)
  {
    GetMovesMembers(g, p, m);
    BuyMovesSpec(g.reserve, p, 0);
    TreeScanSources(g, p, LightMap(g), TreeMap(g), 0);
  }

  lemma HarvestLegal(g: Game, p: nat, m: Move)
    requires Shape(g) && Reserve.Priceable(g.reserve) && p < |g.players| && m.Harvest?
    ensures m in GetMoves(g, p) <==> Legal(g, p, m)
  {
    var light := LightMap(g);
    var tmap := TreeMap(g);
    GetMovesMembers(g, p, m);
    BuyMovesSpec(g.reserve, p, 0);
    TreeScanSources(g, p, light, tmap, 0);
    var k := m.source;
    if m.player == p && k < |g.trees| {
      ThrowsFromCanThrow(g, p);
      assert m == Harvest(p, k);
      TreeScanHarvest(g, p, light, tmap, 0, k);
      assert m in TreeScan(g, p, light, tmap, 0) <==> ActsOn(g, p, light, k) && g.trees[k].size == LARGE;
    }
  }

  lemma LegalGrow(g: Game, p: nat, m: Move)
    requires Shape(g) && Reserve.Priceable(g.reserve) && p < |g.players| && m.Grow?
    ensures Legal(g, p, m) <==>
      && m.player == p && m.newSize <= g.players[p].moonlight && 0 <= m.source < |g.trees|
      && Acts(g, p, m.source) && g.trees[m.source].size < LARGE && m.newSize == g.trees[m.source].size + 1
      && g.players[p].available[m.newSize] != 0
  {
  }

  /** The scan offers a Grow of tree k exactly under the Grow rule. */
  lemma GrowScanned(g: Game, p: nat, k: nat, ns: nat)
    requires Shape(g) && p < |g.players| && k < |g.trees|
    ensures Grow(p, k, ns) in TreeScan(g, p, LightMap(g), TreeMap(g), 0) <==>
      && Acts(g, p, k) && g.trees[k].size < LARGE
      && g.players[p].available[g.trees[k].size + 1] != 0 && ns == g.trees[k].size + 1
  {
    LightIsLit(g, g.trees[k].y, g.trees[k].x);
    TreeScanGrow(g, p, LightMap(g), TreeMap(g), 0, k, ns);
  }

  lemma GrowLegal(g: Game, p: nat, m: Move)
    requires Shape(g) && Reserve.Priceable(g.reserve) && p < |g.players| && m.Grow?
    ensures m in GetMoves(g, p) <==> Legal(g, p, m)
  {
    GetMovesMembers(g, p, m);
    assert m !in BuyMoves(g.reserve, p, 0) by {
      BuyMovesSpec(g.reserve, p, 0);
    }
    LegalGrow(g, p, m);
    if m.player == p && m.source < |g.trees| {
      assert m == Grow(p, m.source, m.newSize);
      GrowScanned(g, p, m.source, m.newSize);
    } else {
      assert m !in TreeScan(g, p, LightMap(g), TreeMap(g), 0) by {
        TreeScanSources(g, p, LightMap(g), TreeMap(g), 0);
      }
    }
  }

  lemma ThrowLegal(g: Game, p: nat, m: Move)
    requires Shape(g) && Reserve.Priceable(g.reserve) && p < |g.players| && m.Throw?
    ensures m in GetMoves(g, p) <==> Legal(g, p, m)
  {
    var light := LightMap(g);
    var tmap := TreeMap(g);
    GetMovesMembers(g, p, m);
    BuyMovesSpec(g.reserve, p, 0);
    TreeScanSources(g, p, light, tmap, 0);
    var k := m.source;
    var c := m.target;
    if m.player == p && k < |g.trees| {
      ThrowsFromCanThrow(g, p);
      TreeScanThrow(g, p, light, tmap, 0, k, c);
      if InGrid(c.0, c.1) {
        LightIsLit(g, c.0, c.1);
      }
      assert ClaimedBetween(g, p, light, c, 0, k) <==> exists i :: 0 <= i < k && CanThrow(g, p, i) && InRange(g.trees[i], c);
    }
  }

  /** Move generation lists exactly the legal moves. */
  lemma GetMovesLegal(g: Game, p: nat, m: Move)
    requires Shape(g) && Reserve.Priceable(g.reserve) && p < |g.players|
    ensures m in GetMoves(g, p) <==> Legal(g, p, m)
  {
    if m.Buy? {
      BuyLegal(g, p, m);
    } else if m.Throw? {
      ThrowLegal(g, p, m);
    } else if m.Harvest? {
      HarvestLegal(g, p, m);
    } else {
      GrowLegal(g, p, m);
    }
  }
}
