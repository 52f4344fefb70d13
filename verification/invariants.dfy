/** The state invariant of the current engine: every pool and balance stays
    non-negative, every reserve count stays between zero and its maximum,
    trees stand on distinct on-board cells, and the two large pieces are
    conserved between the reserve, the players' pools and the board. It
    holds of a new game and after any generated move, so every reserve price
    the engine looks up is within its table. */
module Invariants {
  import opened Board
  import Occupancy
  import Reserve
  import opened Models
  import opened Engine
  import opened Legality

  /** Number of large trees on the board. */
  function CountLarge(trees: seq<Tree>): nat
    decreases |trees|
  {
    if |trees| == 0 then 0
    else (if trees[|trees| - 1].size == LARGE then 1 else 0) + CountLarge(trees[..|trees| - 1])
  }

  /** Pieces of size s available to players 0 .. n-1. */
  function SumAvailable(players: seq<Player>, s: nat, n: nat): int
    requires n <= |players| && forall q | 0 <= q < |players| :: |players[q].available| == 4
    requires s < 4
    decreases n
  {
    if n == 0 then 0 else SumAvailable(players, s, n - 1) + players[n - 1].available[s]
  }

  predicate DistinctCells(trees: seq<Tree>) {
    forall i, j | 0 <= i < j < |trees| :: !Occupancy.At(trees[i], trees[j].y, trees[j].x)
  }

  ghost predicate Inv(g: Game) {
    && Shape(g)
    && (forall q, s | 0 <= q < |g.players| && 0 <= s < 4 :: g.players[q].available[s] >= 0)
    && (forall q | 0 <= q < |g.players| :: g.players[q].moonlight >= 0)
    && (forall s | 0 <= s < 4 :: 0 <= g.reserve[s] <= Reserve.Max[s])
    && (forall k | 0 <= k < |g.trees| :: OnBoard(g.trees[k].y, g.trees[k].x))
    && DistinctCells(g.trees)
    && g.reserve[LARGE] + SumAvailable(g.players, LARGE, |g.players|) + CountLarge(g.trees) == Reserve.Max[LARGE]
  }

  // ---------------------------------------------------------------------------
  // Counting lemmas
  // ---------------------------------------------------------------------------

  lemma {:induction false} SumAvailableZero(players: seq<Player>, n: nat)
    requires n <= |players|
    requires forall q | 0 <= q < |players| :: |players[q].available| == 4 && players[q].available[LARGE] == 0
    ensures SumAvailable(players, LARGE, n) == 0
    decreases n
  {
    if n > 0 {
      SumAvailableZero(players, n - 1);
    }
  }

  lemma {:induction false} SumAvailableNonneg(players: seq<Player>, s: nat, n: nat)
    requires n <= |players| && s < 4
    requires forall q | 0 <= q < |players| :: |players[q].available| == 4 && players[q].available[s] >= 0
    ensures SumAvailable(players, s, n) >= 0
    decreases n
  {
    if n > 0 {
      SumAvailableNonneg(players, s, n - 1);
    }
  }

  lemma {:induction false} CountLargeNone(trees: seq<Tree>)
    requires forall k | 0 <= k < |trees| :: trees[k].size != LARGE
    ensures CountLarge(trees) == 0
    decreases |trees|
  {
    if |trees| > 0 {
      CountLargeNone(trees[..|trees| - 1]);
    }
  }

  /** Changing one player's count of size s by d changes the sum by d, and
      leaves every other player alone. */
  lemma {:induction false} SumAvailableUpdate(players: seq<Player>, players': seq<Player>, q: nat, s: nat, d: int, n: nat)
    requires |players'| == |players| && n <= |players| && q < |players| && s < 4
    requires forall i | 0 <= i < |players| :: |players[i].available| == 4 && |players'[i].available| == 4
    requires forall i | 0 <= i < |players| && i != q :: players'[i].available[s] == players[i].available[s]
    requires players'[q].available[s] == players[q].available[s] + d
    ensures SumAvailable(players', s, n) == SumAvailable(players, s, n) + (if q < n then d else 0)
    decreases n
  {
    if n > 0 {
      SumAvailableUpdate(players, players', q, s, d, n - 1);
    }
  }

  lemma {:induction false} CountLargeAppend(trees: seq<Tree>, t: Tree)
    ensures CountLarge(trees + [t]) == CountLarge(trees) + (if t.size == LARGE then 1 else 0)
  {
    assert (trees + [t])[..|trees|] == trees;
  }

  lemma {:induction false} CountLargeConcat(a: seq<Tree>, b: seq<Tree>)
    ensures CountLarge(a + b) == CountLarge(a) + CountLarge(b)
    decreases |b|
  {
    if |b| == 0 {
      assert a + b == a;
    } else {
      var n := |b| - 1;
      assert (a + b)[..|a + b| - 1] == a + b[..n];
      assert (a + b)[|a + b| - 1] == b[n];
      CountLargeConcat(a, b[..n]);
    }
  }

  /** A list is its prefix before k, its element k and its suffix after k. */
  lemma SplitAround(trees: seq<Tree>, k: nat)
    requires k < |trees|
    ensures trees == trees[..k] + [trees[k]] + trees[k + 1..]
  {
    assert trees[..k + 1] == trees[..k] + [trees[k]];
    assert trees == trees[..k + 1] + trees[k + 1..];
  }

  /** Replacing element k keeps the prefix before k and the suffix after k. */
  lemma ReplaceAround(trees: seq<Tree>, k: nat, t: Tree)
    requires k < |trees|
    ensures trees[k := t] == trees[..k] + [t] + trees[k + 1..]
  {
  }

  /** Replacing the tree at k changes the count by the change at k. */
  lemma CountLargeReplace(trees: seq<Tree>, k: nat, t: Tree)
    requires k < |trees|
    ensures CountLarge(trees[k := t]) + (if trees[k].size == LARGE then 1 else 0)
      == CountLarge(trees) + (if t.size == LARGE then 1 else 0)
  {
    var pre := trees[..k];
    var post := trees[k + 1..];
    SplitAround(trees, k);
    ReplaceAround(trees, k, t);
    CountLargeConcat(pre + [trees[k]], post);
    CountLargeConcat(pre + [t], post);
    CountLargeAppend(pre, trees[k]);
    CountLargeAppend(pre, t);
  }

  lemma CountLargeRemove(trees: seq<Tree>, k: nat)
    requires k < |trees|
    ensures CountLarge(trees[..k] + trees[k + 1..]) + (if trees[k].size == LARGE then 1 else 0) == CountLarge(trees)
  {
    var pre := trees[..k];
    var post := trees[k + 1..];
    SplitAround(trees, k);
    CountLargeConcat(pre + [trees[k]], post);
    CountLargeConcat(pre, post);
    CountLargeAppend(pre, trees[k]);
  }

  // ---------------------------------------------------------------------------
  // The invariant
  // ---------------------------------------------------------------------------

  /** The six starting trees stand on distinct board cells, none large. */
  lemma StartTreesPlaced()
    ensures DistinctCells(StartTrees) && Occupancy.AllInGrid(StartTrees)
    ensures forall k | 0 <= k < |StartTrees| :: OnBoard(StartTrees[k].y, StartTrees[k].x) && StartTrees[k].size <= LARGE
    ensures CountLarge(StartTrees) == 0
  {
    CountLargeNone(StartTrees);
  }

  /** A new game satisfies the invariant, whatever the number of players. */
  lemma CreateGameInv(n: nat)
    ensures Inv(CreateGame(n))
  {
    var g := CreateGame(n);
    assert InitialPlayer().available == [2, 4, 1, 0];
    SumAvailableZero(g.players, n);
    StartTreesPlaced();
  }

  /** The invariant makes every reserve count priceable. */
  lemma InvPriceable(g: Game)
    requires Inv(g)
    ensures Reserve.Priceable(g.reserve)
  {
  }

  /** Collecting income keeps the invariant. */
  lemma TurnStartInv(g: Game, p: nat)
    requires Inv(g) && p < |g.players|
    ensures Inv(TurnStart(g, p))
  {
    var g' := TurnStart(g, p);
    SumAvailableUpdate(g.players, g'.players, p, LARGE, 0, |g.players|);
  }

  /** Every generated move can be applied, and applying it keeps the
      invariant. */
  lemma ApplyMoveInv(g: Game, p: nat, m: Move)
    requires Inv(g) && p < |g.players|
    requires m in GetMoves(g, p)
    ensures Applicable(g, m)
    ensures Inv(ApplyMove(g, m).game)
  {
    GetMovesLegal(g, p, m);
    match m
    case Buy(_, _, _) => BuyInv(g, p, m);
    case Grow(_, _, _) => GrowInv(g, p, m);
    case Harvest(_, _) => HarvestInv(g, p, m);
    case Throw(_, _, _) => ThrowInv(g, p, m);
  }

  lemma BuyInv(g: Game, p: nat, m: Move)
    requires Inv(g) && p < |g.players| && m.Buy? && Legal(g, p, m)
    ensures Applicable(g, m) && Inv(ApplyMove(g, m).game)
  {
    var g' := ApplyMove(g, m).game;
    SumAvailableUpdate(g.players, g'.players, p, LARGE, if m.size == LARGE then 1 else 0, |g.players|);
  }

  /** Changing one tree's size keeps every tree where it stood. */
  lemma ResizeKeepsCells(trees: seq<Tree>, k: nat, trees': seq<Tree>)
    requires k < |trees| && |trees'| == |trees| && trees'[k].size <= LARGE
    requires forall i | 0 <= i < |trees| :: trees'[i].y == trees[i].y && trees'[i].x == trees[i].x
    requires forall i | 0 <= i < |trees| && i != k :: trees'[i] == trees[i]
    requires DistinctCells(trees) && Occupancy.AllInGrid(trees)
    requires forall i | 0 <= i < |trees| :: OnBoard(trees[i].y, trees[i].x) && trees[i].size <= LARGE
    ensures DistinctCells(trees') && Occupancy.AllInGrid(trees')
    ensures forall i | 0 <= i < |trees'| :: OnBoard(trees'[i].y, trees'[i].x) && trees'[i].size <= LARGE
  {
  }

  lemma GrowInv(g: Game, p: nat, m: Move)
    requires Inv(g) && p < |g.players| && m.Grow? && Legal(g, p, m)
    ensures Applicable(g, m) && Inv(ApplyMove(g, m).game)
  {
    var g' := ApplyMove(g, m).game;
    var k := m.source;
    var t := g.trees[k];
    assert g'.trees == g.trees[k := t.(size := t.size + 1)];
    assert forall i | 0 <= i < |g.trees| :: g'.trees[i].y == g.trees[i].y && g'.trees[i].x == g.trees[i].x;
    ResizeKeepsCells(g.trees, k, g'.trees);
    CountLargeReplace(g.trees, k, t.(size := t.size + 1));
    SumAvailableUpdate(g.players, g'.players, p, LARGE, if m.newSize == LARGE then -1 else 0, |g.players|);
  }

  /** Trees on distinct cells are distinct records. */
  lemma DistinctRecords(trees: seq<Tree>, k: nat)
    requires DistinctCells(trees) && k < |trees|
    ensures forall j | 0 <= j < |trees| && j != k :: trees[j] != trees[k]
  {
    forall j | 0 <= j < |trees| && j != k
      ensures trees[j] != trees[k]
    {
      if j < k {
        assert !Occupancy.At(trees[j], trees[k].y, trees[k].x);
      } else {
        assert !Occupancy.At(trees[k], trees[j].y, trees[j].x);
      }
    }
  }

  /** Deleting one position keeps the cells on the board and distinct. */
  lemma RemoveKeepsCells(trees: seq<Tree>, k: nat, rest: seq<Tree>)
    requires DistinctCells(trees) && k < |trees| && rest == trees[..k] + trees[k + 1..]
    requires forall i | 0 <= i < |trees| :: OnBoard(trees[i].y, trees[i].x) && trees[i].size <= LARGE
    ensures DistinctCells(rest)
    ensures forall i | 0 <= i < |rest| :: OnBoard(rest[i].y, rest[i].x) && rest[i].size <= LARGE
  {
    assert forall i | 0 <= i < |rest| :: rest[i] == trees[if i < k then i else i + 1];
  }

  /** Removing a tree of a well-placed list deletes just its position: the
      rest stay on distinct board cells and one fewer large tree is left when
      it was large. */
  lemma RemoveKeepsPlaces(trees: seq<Tree>, k: nat)
    requires k < |trees| && DistinctCells(trees)
    requires forall i | 0 <= i < |trees| :: OnBoard(trees[i].y, trees[i].x) && trees[i].size <= LARGE
    ensures var rest := Remove(trees, trees[k]);
      && DistinctCells(rest) && Occupancy.AllInGrid(rest)
      && (forall i | 0 <= i < |rest| :: OnBoard(rest[i].y, rest[i].x) && rest[i].size <= LARGE)
      && CountLarge(rest) + (if trees[k].size == LARGE then 1 else 0) == CountLarge(trees)
  {
    DistinctRecords(trees, k);
    RemoveSingle(trees, k);
    RemoveKeepsCells(trees, k, trees[..k] + trees[k + 1..]);
    CountLargeRemove(trees, k);
  }

  lemma HarvestInv(g: Game, p: nat, m: Move)
    requires Inv(g) && p < |g.players| && m.Harvest? && Legal(g, p, m)
    ensures Applicable(g, m) && Inv(ApplyMove(g, m).game)
  {
    var g' := ApplyMove(g, m).game;
    var k := m.source;
    assert g'.trees == Remove(g.trees, g.trees[k]);
    RemoveKeepsPlaces(g.trees, k);
    SumAvailableNonneg(g.players, LARGE, |g.players|);
    SumAvailableUpdate(g.players, g'.players, p, LARGE, 0, |g.players|);
  }

  lemma ThrowInv(g: Game, p: nat, m: Move)
    requires Inv(g) && p < |g.players| && m.Throw? && Legal(g, p, m)
    ensures Applicable(g, m) && Inv(ApplyMove(g, m).game)
  {
    var g' := ApplyMove(g, m).game;
    var seed := Tree(p, SEED, m.target.0, m.target.1);
    assert g'.trees == g.trees + [seed];
    CountLargeAppend(g.trees, seed);
    SumAvailableUpdate(g.players, g'.players, p, LARGE, 0, |g.players|);
    assert forall i | 0 <= i < |g.trees| :: !Occupancy.At(g.trees[i], seed.y, seed.x);
  }
}
