/** The game records and the move mutator: players with their available
    pools and moonlight, the tree list, the sun facing, the shared reserve
    counts, the four kinds of move, their costs, and the effect of applying
    one. */
module Models {
  import opened Board
  import Shadow
  import Occupancy
  import Reserve

  /** A player's pools: `available[s]` pieces of size s ready to place, and
      the moonlight balance. The reserve counts live in `Game`, as they are
      shared by all players. */
  datatype Player = Player(available: seq<int>, moonlight: int)

  datatype Game = Game(players: seq<Player>, trees: seq<Tree>, direction: Direction, reserve: seq<int>)

  /** A move. Tree moves name their source tree by its position in the tree
      list; a throw names its target cell. */
  datatype Move =
    | Buy(player: nat, size: nat, buyCost: int)
    | Grow(player: nat, source: nat, newSize: nat)
    | Harvest(player: nat, source: nat)
    | Throw(player: nat, source: nat, target: Cell)

  const HARVEST_COST := 4
  const THROW_COST := 1

  function MoveCost(m: Move): int {
    match m
    case Grow(_, _, ns) => ns
    case Harvest(_, _) => HARVEST_COST
    case Throw(_, _, _) => THROW_COST
    case Buy(_, _, c) => c
  }

  function InitialPlayer(): Player {
    Player([2, 4, 1, 0], 0)
  }

  /** Two small trees per player on the board's edge, for three players. */
  const StartTrees: seq<Tree> := [
    Tree(0, 1, 0, 0), Tree(0, 1, 0, 3),
    Tree(1, 1, 3, 0), Tree(1, 1, 6, 3),
    Tree(2, 1, 6, 6), Tree(2, 1, 3, 6)
  ]

  function CreateGame(numPlayers: nat): Game {
    Game(seq(numPlayers, _ => InitialPlayer()), StartTrees, W, Reserve.Max)
  }

  function LightMap(g: Game): Grid {
    Shadow.ShadowMap(g.trees, Cast(g.direction))
  }

  function TreeMap(g: Game): Grid
    requires Occupancy.AllInGrid(g.trees)
  {
    Occupancy.TreeMap(g.trees)
  }

  /** The trees of `trees` that differ from `t`, in their original order. */
  function Remove(trees: seq<Tree>, t: Tree): (r: seq<Tree>)
    ensures forall u :: u in r <==> u in trees && u != t
    ensures |r| <= |trees|
    decreases |trees|
  {
    if |trees| == 0 then []
    else (if trees[0] == t then [] else [trees[0]]) + Remove(trees[1..], t)
  }

  /** When `t` occurs only at position k, removing it deletes exactly that
      position and keeps the others in order. */
  lemma {:induction false} RemoveSingle(trees: seq<Tree>, k: nat)
    requires k < |trees|
    requires forall j | 0 <= j < |trees| && j != k :: trees[j] != trees[k]
    ensures Remove(trees, trees[k]) == trees[..k] + trees[k + 1..]
    decreases k
  {
    var t := trees[k];
    if k == 0 {
      RemoveAbsent(trees[1..], t);
    } else {
      var tail := trees[1..];
      forall j | 0 <= j < |tail| && j != k - 1
        ensures tail[j] != tail[k - 1]
      {
        assert tail[j] == trees[j + 1];
      }
      RemoveSingle(tail, k - 1);
      assert tail[k - 1] == t;
      assert trees[..k] == [trees[0]] + tail[..k - 1];
      assert trees[k + 1..] == tail[k..];
    }
  }

  /** Removal works piece by piece: on a concatenation it removes from each
      part and keeps the parts in order. With `RemoveOne` this pins down the
      result exactly, duplicates included. */
  lemma {:induction false} RemoveConcat(a: seq<Tree>, b: seq<Tree>, t: Tree)
    ensures Remove(a + b, t) == Remove(a, t) + Remove(b, t)
    decreases |a|
  {
    if |a| == 0 {
      assert a + b == b;
    } else {
      var head := if a[0] == t then [] else [a[0]];
      assert (a + b)[0] == a[0];
      assert (a + b)[1..] == a[1..] + b;
      assert Remove(a + b, t) == head + Remove(a[1..] + b, t);
      RemoveConcat(a[1..], b, t);
      assert Remove(a, t) == head + Remove(a[1..], t);
    }
  }

  /** A single record is dropped when it equals `t` and kept otherwise. */
  lemma RemoveOne(u: Tree, t: Tree)
    ensures Remove([u], t) == if u == t then [] else [u]
  {
    assert [u][1..] == [];
  }

  lemma {:induction false} RemoveAbsent(trees: seq<Tree>, t: Tree)
    requires t !in trees
    ensures Remove(trees, t) == trees
    decreases |trees|
  {
    if |trees| > 0 {
      RemoveAbsent(trees[1..], t);
    }
  }

  /** What the mutator needs to index its pools without an error. */
  predicate Applicable(g: Game, m: Move) {
    && m.player < |g.players|
    && |g.players[m.player].available| == 4
    && |g.reserve| == 4
    && match m
       case Buy(_, s, _) => s < 4
       case Grow(_, k, ns) => k < |g.trees| && 1 <= ns <= 3
       case Harvest(_, k) => k < |g.trees|
       case Throw(_, _, _) => true
  }

  /** The game after a move, and the seed a throw creates. */
  datatype Outcome = Outcome(game: Game, created: Option<Tree>)

  /** Applies a move. Every move first pays its cost from the mover's
      moonlight; a Grow grows its tree by one and returns the replaced piece
      to the reserve (up to the maximum), a Harvest removes its tree and
      returns a large piece to the reserve (without a cap), a Throw plants a
      seed, and a Buy moves one piece from the reserve to the player. */
  function ApplyMove(g: Game, m: Move): (r: Outcome)
    requires Applicable(g, m)
    ensures r.game.direction == g.direction
    ensures |r.game.players| == |g.players| && |r.game.reserve| == 4
    ensures forall q | 0 <= q < |g.players| && q != m.player :: r.game.players[q] == g.players[q]
    ensures r.game.players[m.player].moonlight == g.players[m.player].moonlight - MoveCost(m)
    ensures |r.game.players[m.player].available| == 4
    ensures r.created.Some? <==> m.Throw?
    // a Buy moves one piece of its size from the reserve to the player
    ensures m.Buy? ==>
      && r.game.trees == g.trees
      && r.game.reserve[m.size] == g.reserve[m.size] - 1
      && r.game.players[m.player].available[m.size] + r.game.reserve[m.size]
         == g.players[m.player].available[m.size] + g.reserve[m.size]
      && forall s | 0 <= s < 4 && s != m.size ::
           r.game.reserve[s] == g.reserve[s] && r.game.players[m.player].available[s] == g.players[m.player].available[s]
    // a Grow changes only its tree's size, one available piece and one reserve count
    ensures m.Grow? ==>
      && |r.game.trees| == |g.trees|
      && r.game.trees[m.source] == g.trees[m.source].(size := g.trees[m.source].size + 1)
      && (forall j | 0 <= j < |g.trees| && j != m.source :: r.game.trees[j] == g.trees[j])
      && r.game.players[m.player].available[m.newSize] == g.players[m.player].available[m.newSize] - 1
      && r.game.reserve[m.newSize - 1] == Min(Reserve.Max[m.newSize - 1], g.reserve[m.newSize - 1] + 1)
      && (forall s | 0 <= s < 4 && s != m.newSize :: r.game.players[m.player].available[s] == g.players[m.player].available[s])
      && (forall s | 0 <= s < 4 && s != m.newSize - 1 :: r.game.reserve[s] == g.reserve[s])
    // a Harvest removes its tree (and every equal record) and refunds a large piece
    ensures m.Harvest? ==>
      && r.game.trees == Remove(g.trees, g.trees[m.source])
      && (forall u :: u in r.game.trees <==> u in g.trees && u != g.trees[m.source])
      && r.game.reserve == g.reserve[LARGE := g.reserve[LARGE] + 1]
      && r.game.players[m.player].available == g.players[m.player].available
    // a Throw adds one seed of the mover at the target and returns it
    ensures m.Throw? ==>
      && r.created == Some(Tree(m.player, SEED, m.target.0, m.target.1))
      && r.game.trees == g.trees + [r.created.value]
      && r.game.reserve == g.reserve
      && r.game.players[m.player].available == g.players[m.player].available[SEED := g.players[m.player].available[SEED] - 1]
  {
    var p := m.player;
    var pl := g.players[p];
    var paid := pl.(moonlight := pl.moonlight - MoveCost(m));
    match m
    case Grow(_, k, ns) =>
      var t := g.trees[k];
      var count := g.reserve[ns - 1 := Min(Reserve.Max[ns - 1], g.reserve[ns - 1] + 1)];
      var pl' := paid.(available := paid.available[ns := paid.available[ns] - 1]);
      Outcome(g.(players := g.players[p := pl'], trees := g.trees[k := t.(size := t.size + 1)], reserve := count), None)
    case Harvest(_, k) =>
      Outcome(g.(players := g.players[p := paid], trees := Remove(g.trees, g.trees[k]),
                 reserve := g.reserve[LARGE := g.reserve[LARGE] + 1]), None)
    case Throw(_, _, c) =>
      var seed := Tree(p, SEED, c.0, c.1);
      var pl' := paid.(available := paid.available[SEED := paid.available[SEED] - 1]);
      Outcome(g.(players := g.players[p := pl'], trees := g.trees + [seed]), Some(seed))
    case Buy(_, s, _) =>
      var pl' := paid.(available := paid.available[s := paid.available[s] + 1]);
      Outcome(g.(players := g.players[p := pl'], reserve := g.reserve[s := g.reserve[s] - 1]), None)
  }
}
