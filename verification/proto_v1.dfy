/** The first single-file engine (src/game_v_1.py). Its state is a set of
    module-level variables: the tree list, the facing index, one available
    row and one reserve row per player, and a moonlight list. It offers no
    Buy, prices moves with a function that knows no Buy, returns a grown
    tree's old piece to the mover's own reserve row without a cap, and names
    the tree a move acts on by its cell, as the later prototype does. */
module ProtoV1 {
  import opened Board
  import Shadow
  import Occupancy
  import Reserve
  import Models
  import Engine
  import Legality
  import Invariants
  import Proto
  import Turns

  datatype State = State(trees: seq<Tree>, direction: int, available: seq<seq<int>>,
                         reserve: seq<seq<int>>, moonlight: seq<int>)

  /** The row every available pool and every reserve row starts from. */
  const START_ROW: seq<int> := [2, 2, 1, 0]

  /** What the move generator indexes without failing. The script keeps one
      moonlight entry per player and one more available row than players. */
  predicate Shape(s: State) {
    && 0 <= s.direction < 6
    && |s.moonlight| <= |s.available|
    && (forall q | 0 <= q < |s.available| :: |s.available[q]| == 4)
    && Occupancy.AllInGrid(s.trees)
    && (forall k | 0 <= k < |s.trees| :: s.trees[k].size <= LARGE)
  }

  /** The opening state: the current engine's six starting trees, facing
      index 0, START_ROW for each of the four available rows and four reserve
      rows, and no moonlight for the three players. Each player's row holds
      two small pieces fewer than the current engine's opening pool. */
  function Initial(): (r: State)
    ensures Shape(r) && |r.moonlight| == Turns.NUM_PLAYERS
    ensures r.trees == Models.CreateGame(Turns.NUM_PLAYERS).trees && r.direction == 0
    ensures |r.available| == 4 && |r.reserve| == 4
    ensures forall q | 0 <= q < 4 :: r.available[q] == START_ROW && r.reserve[q] == START_ROW
    ensures forall q | 0 <= q < |r.moonlight| :: r.moonlight[q] == 0
    ensures forall q | 0 <= q < |r.moonlight| ::
      r.available[q][SMALL] + 2 == Models.CreateGame(Turns.NUM_PLAYERS).players[q].available[SMALL]
      && forall s | 0 <= s < 4 && s != SMALL :: r.available[q][s] == Models.CreateGame(Turns.NUM_PLAYERS).players[q].available[s]
  {
    State(Models.StartTrees, 0, [START_ROW, START_ROW, START_ROW, START_ROW],
          [START_ROW, START_ROW, START_ROW, START_ROW], [0, 0, 0])
  }

  /** The state seen as a prototype game whose shared reserve is `shared`:
      one player per moonlight entry, with that player's available row. */
  function AsProto(s: State, shared: seq<int>): (r: Proto.Game)
    requires |s.moonlight| <= |s.available|
    ensures |r.players| == |s.moonlight| && r.trees == s.trees && r.direction == s.direction && r.reserve == shared
    ensures forall q | 0 <= q < |s.moonlight| :: r.players[q] == Models.Player(s.available[q], s.moonlight[q])
  {
    Proto.Game(seq(|s.moonlight|, q requires 0 <= q < |s.moonlight| => Models.Player(s.available[q], s.moonlight[q])),
               s.trees, s.direction, shared)
  }

  lemma AsProtoShape(s: State, shared: seq<int>)
    requires Shape(s) && |shared| == 4
    ensures Proto.Shape(AsProto(s, shared))
  {
  }

  // ---------------------------------------------------------------------------
  // Move prices and move generation
  // ---------------------------------------------------------------------------

  /** The price of a move; None for a Buy, which this version cannot price. */
  function MoveCost(m: Proto.Move): (r: Option<int>)
    ensures r.None? <==> m.kind == Proto.Buy
    ensures r.Some? ==> r.value == Proto.MoveCost(m)
  {
    match m.kind
    case Grow => Some(m.newSize)
    case Harvest => Some(4)
    case Throw => Some(1)
    case Buy => None
  }

  /** The moves player p may make: the prototype's tree scan over the
      player's own row and moonlight; there is no Buy part. */
  function GetMoves(s: State, p: nat): seq<Proto.Move>
    requires Shape(s) && p < |s.moonlight|
  {
    AsProtoShape(s, Reserve.Max);
    Proto.TreeScan(AsProto(s, Reserve.Max), p, Proto.LightMap(s.trees, s.direction), Occupancy.TreeMap(s.trees), 0)
  }

  /** The moves of a list other than Buys, in order. */
  function WithoutBuys(ms: seq<Models.Move>): (r: seq<Models.Move>)
    ensures forall m :: m in r <==> m in ms && !m.Buy?
    decreases |ms|
  {
    if |ms| == 0 then [] else (if ms[0].Buy? then [] else [ms[0]]) + WithoutBuys(ms[1..])
  }

  lemma {:induction false} WithoutBuysConcat(a: seq<Models.Move>, b: seq<Models.Move>)
    ensures WithoutBuys(a + b) == WithoutBuys(a) + WithoutBuys(b)
    decreases |a|
  {
    if |a| > 0 {
      var head := if a[0].Buy? then [] else [a[0]];
      assert (a + b)[0] == a[0];
      assert (a + b)[1..] == a[1..] + b;
      assert WithoutBuys(a + b) == head + WithoutBuys(a[1..] + b);
      WithoutBuysConcat(a[1..], b);
      assert WithoutBuys(a) == head + WithoutBuys(a[1..]);
    } else {
      assert a + b == b;
    }
  }

  lemma {:induction false} WithoutBuysNone(ms: seq<Models.Move>)
    requires forall m | m in ms :: !m.Buy?
    ensures WithoutBuys(ms) == ms
    decreases |ms|
  {
    if |ms| > 0 {
      assert ms[0] in ms;
      WithoutBuysNone(ms[1..]);
      assert ms == [ms[0]] + ms[1..];
    }
  }

  lemma {:induction false} WithoutBuysAll(ms: seq<Models.Move>)
    requires forall m | m in ms :: m.Buy?
    ensures WithoutBuys(ms) == []
    decreases |ms|
  {
    if |ms| > 0 {
      assert ms[0] in ms;
      WithoutBuysAll(ms[1..]);
    }
  }

  /** Dropping the Buys from the current engine's list leaves the affordable
      part of its tree scan. */
  lemma EngineWithoutBuys(h: Models.Game, p: nat)
    requires Engine.Shape(h) && Reserve.Priceable(h.reserve) && p < |h.players|
    ensures WithoutBuys(Engine.GetMoves(h, p))
      == Engine.Affordable(Engine.TreeScan(h, p, Models.LightMap(h), Models.TreeMap(h), 0), h.players[p].moonlight)
  {
    var ml := h.players[p].moonlight;
    var buys := Engine.BuyMoves(h.reserve, p, 0);
    var scan := Engine.TreeScan(h, p, Models.LightMap(h), Models.TreeMap(h), 0);
    assert Engine.GetMoves(h, p) == Engine.Affordable(buys + scan, ml);
    Engine.AffordableConcat(buys, scan, ml);
    WithoutBuysConcat(Engine.Affordable(buys, ml), Engine.Affordable(scan, ml));
    Engine.BuyMovesSpec(h.reserve, p, 0);
    WithoutBuysAll(Engine.Affordable(buys, ml));
    Engine.TreeScanSources(h, p, Models.LightMap(h), Models.TreeMap(h), 0);
    WithoutBuysNone(Engine.Affordable(scan, ml));
  }

  /** The prototype's tree scan from the two maps of a game is the current
      engine's move list with the Buys dropped. */
  lemma ScanWithoutBuys(g: Proto.Game, p: nat)
    requires Proto.Shape(g) && Reserve.Priceable(g.reserve) && p < |g.players|
    ensures Proto.TreeScan(g, p, Proto.LightMap(g.trees, g.direction), Occupancy.TreeMap(g.trees), 0)
      == Proto.EncodeAll(g.trees, WithoutBuys(Engine.GetMoves(Proto.Lift(g), p)))
  {
    var h := Proto.Lift(g);
    Proto.LightMapAgrees(g);
    Proto.TreeScanAgrees(g, p, Models.LightMap(h), Models.TreeMap(h), 0);
    EngineWithoutBuys(h, p);
  }

  /** This version's move list is the current engine's list, for the same
      pools, trees, facing and moonlight, with the Buys dropped, written as
      prototype records. */
  lemma GetMovesAgree(s: State, p: nat)
    requires Shape(s) && p < |s.moonlight|
    ensures GetMoves(s, p)
      == Proto.EncodeAll(s.trees, WithoutBuys(Engine.GetMoves(Proto.Lift(AsProto(s, Reserve.Max)), p)))
  {
    AsProtoShape(s, Reserve.Max);
    ScanWithoutBuys(AsProto(s, Reserve.Max), p);
  }

  /** A prototype tree scan offers only the mover's Harvests, Grows and Throws. */
  lemma ScanNoBuy(g: Proto.Game, p: nat, light: Grid, tmap: Grid)
    requires Proto.Shape(g) && p < |g.players|
    ensures forall m | m in Proto.TreeScan(g, p, light, tmap, 0) :: m.kind != Proto.Buy && m.player == p
  {
    var h := Proto.Lift(g);
    var ms := Engine.Affordable(Engine.TreeScan(h, p, light, tmap, 0), g.players[p].moonlight);
    Proto.TreeScanAgrees(g, p, light, tmap, 0);
    Engine.TreeScanSources(h, p, light, tmap, 0);
    forall m | m in Proto.TreeScan(g, p, light, tmap, 0)
      ensures m.kind != Proto.Buy && m.player == p
    {
      var i :| 0 <= i < |ms| && Proto.EncodeAll(g.trees, ms)[i] == m;
      assert m == Proto.Encode(g.trees, ms[i]) && ms[i] in ms;
    }
  }

  /** Every move offered is the mover's and none is a Buy, so each has a price. */
  lemma GetMovesNoBuy(s: State, p: nat)
    requires Shape(s) && p < |s.moonlight|
    ensures forall m | m in GetMoves(s, p) :: m.kind != Proto.Buy && m.player == p && MoveCost(m).Some?
  {
    AsProtoShape(s, Reserve.Max);
    ScanNoBuy(AsProto(s, Reserve.Max), p, Proto.LightMap(s.trees, s.direction), Occupancy.TreeMap(s.trees));
  }

  /** Dropping the Buys and encoding keeps at most one throw per target. */
  lemma EncodeTargetsUnique(trees: seq<Tree>, ms: seq<Models.Move>)
    requires Proto.ThrowTargetsDistinct(ms)
    ensures var r := Proto.EncodeAll(trees, WithoutBuys(ms));
      forall m1, m2 | m1 in r && m2 in r && m1.kind == Proto.Throw && m2.kind == Proto.Throw
        && m1.y1 == m2.y1 && m1.x1 == m2.x1 :: m1 == m2
  {
    var kept := WithoutBuys(ms);
    var r := Proto.EncodeAll(trees, kept);
    forall m1, m2 | m1 in r && m2 in r && m1.kind == Proto.Throw && m2.kind == Proto.Throw
      && m1.y1 == m2.y1 && m1.x1 == m2.x1
      ensures m1 == m2
    {
      var i1 :| 0 <= i1 < |kept| && r[i1] == m1;
      var i2 :| 0 <= i2 < |kept| && r[i2] == m2;
      assert kept[i1] in kept && kept[i2] in kept;
      var a :| 0 <= a < |ms| && ms[a] == kept[i1];
      var b :| 0 <= b < |ms| && ms[b] == kept[i2];
      assert a == b;
    }
  }

  /** Two offered throws to the same cell are the same move, so each target
      is offered at most once. */
  lemma ThrowTargetsUnique(s: State, p: nat)
    requires Shape(s) && p < |s.moonlight|
    ensures forall m1, m2 | m1 in GetMoves(s, p) && m2 in GetMoves(s, p) && m1.kind == Proto.Throw && m2.kind == Proto.Throw
      && m1.y1 == m2.y1 && m1.x1 == m2.x1 :: m1 == m2
  {
    AsProtoShape(s, Reserve.Max);
    var h := Proto.Lift(AsProto(s, Reserve.Max));
    var ms := Engine.GetMoves(h, p);
    GetMovesAgree(s, p);
    Engine.GetMovesThrowTargetsDistinct(h, p);
    assert Proto.ThrowTargetsDistinct(ms);
    EncodeTargetsUnique(s.trees, ms);
  }

  // ---------------------------------------------------------------------------
  // Applying a move
  // ---------------------------------------------------------------------------

  /** What move application indexes without failing. */
  predicate Applicable(s: State, m: Proto.Move) {
    && m.player < |s.available| && |s.available[m.player]| == 4
    && m.player < |s.reserve| && |s.reserve[m.player]| == 4
    && m.player < |s.moonlight|
    && (m.kind == Proto.Grow ==> 1 <= m.newSize <= 3)
  }

  /** Player p pays `cost`; nothing else changes. */
  function Pay(s: State, p: nat, cost: int): (r: State)
    requires p < |s.moonlight|
    ensures r.trees == s.trees && r.direction == s.direction && r.available == s.available && r.reserve == s.reserve
    ensures |r.moonlight| == |s.moonlight| && r.moonlight[p] == s.moonlight[p] - cost
    ensures forall q | 0 <= q < |s.moonlight| && q != p :: r.moonlight[q] == s.moonlight[q]
  {
    s.(moonlight := s.moonlight[p := s.moonlight[p] - cost])
  }

  /** Tree k grows to `ns`: player p gives up a piece of size `ns` and p's
      reserve row takes back one of size ns - 1, with no cap. */
  function GrowAt(s: State, p: nat, ns: int, k: nat): (r: State)
    requires p < |s.available| && |s.available[p]| == 4 && p < |s.reserve| && |s.reserve[p]| == 4
    requires 1 <= ns <= 3 && k < |s.trees|
    ensures r.direction == s.direction && r.moonlight == s.moonlight
    ensures |r.trees| == |s.trees| && r.trees[k] == s.trees[k].(size := s.trees[k].size + 1)
    ensures forall j | 0 <= j < |s.trees| && j != k :: r.trees[j] == s.trees[j]
    ensures |r.available| == |s.available| && |r.reserve| == |s.reserve|
    ensures forall q | 0 <= q < |s.available| && q != p :: r.available[q] == s.available[q]
    ensures forall q | 0 <= q < |s.reserve| && q != p :: r.reserve[q] == s.reserve[q]
    ensures |r.available[p]| == 4 && |r.reserve[p]| == 4
    ensures r.available[p][ns] == s.available[p][ns] - 1 && r.reserve[p][ns - 1] == s.reserve[p][ns - 1] + 1
    ensures forall i | 0 <= i < 4 && i != ns :: r.available[p][i] == s.available[p][i]
    ensures forall i | 0 <= i < 4 && i != ns - 1 :: r.reserve[p][i] == s.reserve[p][i]
  {
    var pool := s.available[p];
    var row := s.reserve[p];
    s.(available := s.available[p := pool[ns := pool[ns] - 1]],
       reserve := s.reserve[p := row[ns - 1 := row[ns - 1] + 1]],
       trees := s.trees[k := s.trees[k].(size := s.trees[k].size + 1)])
  }

  /** Record k is dropped, the others keep their order, and player p's
      reserve row takes back a large piece. */
  function HarvestAt(s: State, p: nat, k: nat): (r: State)
    requires p < |s.reserve| && |s.reserve[p]| == 4 && k < |s.trees|
    ensures r.direction == s.direction && r.moonlight == s.moonlight && r.available == s.available
    ensures |r.trees| == |s.trees| - 1
    ensures forall j | 0 <= j < |r.trees| :: r.trees[j] == s.trees[if j < k then j else j + 1]
    ensures |r.reserve| == |s.reserve| && |r.reserve[p]| == 4
    ensures forall q | 0 <= q < |s.reserve| && q != p :: r.reserve[q] == s.reserve[q]
    ensures r.reserve[p][LARGE] == s.reserve[p][LARGE] + 1
    ensures forall i | 0 <= i < 4 && i != LARGE :: r.reserve[p][i] == s.reserve[p][i]
  {
    var row := s.reserve[p];
    s.(reserve := s.reserve[p := row[LARGE := row[LARGE] + 1]], trees := s.trees[..k] + s.trees[k + 1..])
  }

  /** Player p gives up a seed and it is planted on (y, x). */
  function ThrowTo(s: State, p: nat, y: int, x: int): (r: State)
    requires p < |s.available| && |s.available[p]| == 4
    ensures r.direction == s.direction && r.moonlight == s.moonlight && r.reserve == s.reserve
    ensures r.trees == s.trees + [Tree(p, SEED, y, x)]
    ensures |r.available| == |s.available| && |r.available[p]| == 4
    ensures forall q | 0 <= q < |s.available| && q != p :: r.available[q] == s.available[q]
    ensures r.available[p][SEED] == s.available[p][SEED] - 1
    ensures forall i | 0 <= i < 4 && i != SEED :: r.available[p][i] == s.available[p][i]
  {
    var pool := s.available[p];
    s.(available := s.available[p := pool[SEED := pool[SEED] - 1]], trees := s.trees + [Tree(p, SEED, y, x)])
  }

  /** Applies a move; None where the script raises. A Buy has no price and
      fails. The mover pays the price. A Grow or a Harvest acts on the first
      tree on its cell and fails when there is none. */
  function ApplyMove(s: State, m: Proto.Move): (r: Option<State>)
    requires Applicable(s, m)
    ensures r.Some? <==> (m.kind == Proto.Throw
      || ((m.kind == Proto.Grow || m.kind == Proto.Harvest) && Occupancy.Occupied(s.trees, m.y0, m.x0)))
    ensures r.Some? && m.kind == Proto.Grow ==>
      r.value == GrowAt(Pay(s, m.player, m.newSize), m.player, m.newSize, Proto.FirstAt(s.trees, m.y0, m.x0).value)
    ensures r.Some? && m.kind == Proto.Harvest ==>
      r.value == HarvestAt(Pay(s, m.player, 4), m.player, Proto.FirstAt(s.trees, m.y0, m.x0).value)
    ensures r.Some? && m.kind == Proto.Throw ==>
      r.value == ThrowTo(Pay(s, m.player, 1), m.player, m.y1, m.x1)
  {
    match MoveCost(m)
    case None => None
    case Some(cost) =>
      var paid := Pay(s, m.player, cost);
      match m.kind
      case Throw => Some(ThrowTo(paid, m.player, m.y1, m.x1))
      case Grow =>
        (match Proto.FirstAt(s.trees, m.y0, m.x0)
         case None => None
         case Some(k) => Some(GrowAt(paid, m.player, m.newSize, k)))
      case Harvest =>
        (match Proto.FirstAt(s.trees, m.y0, m.x0)
         case None => None
         case Some(k) => Some(HarvestAt(paid, m.player, k)))
      case Buy => None
  }

  /** On a Grow or a Throw the two prototypes fail together and otherwise
      reach the same trees, pools and moonlight; only the reserve is kept
      differently. */
  lemma ApplyAgrees(s: State, m: Proto.Move, shared: seq<int>)
    requires Shape(s) && Applicable(s, m) && |shared| == 4
    requires m.kind == Proto.Grow || m.kind == Proto.Throw
    ensures Proto.Applicable(AsProto(s, shared), m)
    ensures ApplyMove(s, m).Some? <==> Proto.ApplyMove(AsProto(s, shared), m).Some?
    ensures ApplyMove(s, m).Some? ==>
      var r := ApplyMove(s, m).value;
      var g := Proto.ApplyMove(AsProto(s, shared), m).value;
      |r.moonlight| <= |r.available| && AsProto(r, g.reserve) == g
  {
    var g0 := AsProto(s, shared);
    if ApplyMove(s, m).Some? {
      var r := ApplyMove(s, m).value;
      var g := Proto.ApplyMove(g0, m).value;
      var a := AsProto(r, g.reserve);
      assert |a.players| == |g.players|;
      forall q | 0 <= q < |g.players|
        ensures a.players[q] == g.players[q]
      {
        if q != m.player {
          assert g.players[q] == g0.players[q];
        }
      }
    }
  }

  /** A Grow returns the old piece to the reserve as the later versions do
      exactly when that count is below its maximum; at the maximum this
      version goes past it and the others stay there. */
  lemma GrowReserveAgrees(s: State, m: Proto.Move, shared: seq<int>)
    requires Shape(s) && Applicable(s, m) && |shared| == 4
    requires m.kind == Proto.Grow && Occupancy.Occupied(s.trees, m.y0, m.x0)
    requires shared[m.newSize - 1] == s.reserve[m.player][m.newSize - 1]
    ensures Proto.Applicable(AsProto(s, shared), m)
    ensures Proto.ApplyMove(AsProto(s, shared), m).Some?
    ensures ApplyMove(s, m).value.reserve[m.player][m.newSize - 1]
      == Proto.ApplyMove(AsProto(s, shared), m).value.reserve[m.newSize - 1]
      <==> s.reserve[m.player][m.newSize - 1] < Reserve.Max[m.newSize - 1]
    ensures s.reserve[m.player][m.newSize - 1] >= Reserve.Max[m.newSize - 1] ==>
      ApplyMove(s, m).value.reserve[m.player][m.newSize - 1] > Reserve.Max[m.newSize - 1]
  {
  }

  /** Where no two trees share a cell, a Harvest removes the tree as the
      current engine does: every record equal to it, keeping the rest in
      order. */
  lemma HarvestAgrees(s: State, m: Proto.Move)
    requires Applicable(s, m) && m.kind == Proto.Harvest
    requires Invariants.DistinctCells(s.trees) && Occupancy.Occupied(s.trees, m.y0, m.x0)
    ensures ApplyMove(s, m).Some?
    ensures var k := Proto.FirstAt(s.trees, m.y0, m.x0).value;
      ApplyMove(s, m).value.trees == Models.Remove(s.trees, s.trees[k])
  {
    var k := Proto.FirstAt(s.trees, m.y0, m.x0).value;
    Invariants.DistinctRecords(s.trees, k);
    Models.RemoveSingle(s.trees, k);
  }

  // ---------------------------------------------------------------------------
  // Turns
  // ---------------------------------------------------------------------------

  /** Income at the start of a turn: player p's moonlight grows by the sizes
      of p's lit trees. */
  function TurnStart(s: State, p: nat): (r: State)
    requires Shape(s) && p < |s.moonlight|
    ensures r.trees == s.trees && r.direction == s.direction && r.available == s.available && r.reserve == s.reserve
    ensures |r.moonlight| == |s.moonlight| && r.moonlight[p] >= s.moonlight[p]
    ensures r.moonlight[p] == s.moonlight[p] + Engine.Income(s.trees, p, Shadow.ShadowMap(s.trees, Cast(Facings[s.direction])))
    ensures forall q | 0 <= q < |s.moonlight| && q != p :: r.moonlight[q] == s.moonlight[q]
  {
    Proto.CastTable(Facings[s.direction]);
    s.(moonlight := s.moonlight[p := s.moonlight[p] + Engine.Income(s.trees, p, Proto.LightMap(s.trees, s.direction))])
  }

  /** The income is the current engine's. */
  lemma TurnStartAgrees(s: State, p: nat, shared: seq<int>)
    requires Shape(s) && p < |s.moonlight| && |shared| == 4
    ensures Proto.Shape(AsProto(s, shared))
    ensures AsProto(TurnStart(s, p), shared)
      == Proto.Lower(Engine.TurnStart(Proto.Lift(AsProto(s, shared)), p))
  {
    var g := AsProto(s, shared);
    AsProtoShape(s, shared);
    Proto.LightMapAgrees(g);
    Proto.LiftLower(g, Engine.TurnStart(Proto.Lift(g), p));
    var a := AsProto(TurnStart(s, p), shared);
    var b := Proto.Lower(Engine.TurnStart(Proto.Lift(g), p));
    assert |a.players| == |b.players|;
    forall q | 0 <= q < |a.players|
      ensures a.players[q] == b.players[q]
    {
    }
  }

  /** The mover, the facing index and the counter of turns since the facing
      last changed. */
  datatype Clock = Clock(player: int, direction: int, counter: int)

  /** The step taken when a turn ends: the mover advances; on the third turn
      the facing advances, the mover advances once more and the counter
      restarts. */
  function Step(c: Clock): (r: Clock)
    requires 0 <= c.counter < 3
    ensures 0 <= r.counter < 3 && r.counter == (c.counter + 1) % 3
  {
    var p := (c.player + 1) % Turns.NUM_PLAYERS;
    if c.counter + 1 == 3 then Clock((p + 1) % Turns.NUM_PLAYERS, (c.direction + 1) % 6, 0)
    else Clock(p, c.direction, c.counter + 1)
  }

  function Run(n: nat): (r: Clock)
    ensures 0 <= r.counter < 3
  {
    if n == 0 then Clock(0, 0, 0) else Step(Run(n - 1))
  }

  /** The clock of a current-engine turn state. */
  function ClockOf(t: Turns.Turn): Clock {
    Clock(t.player, Index(t.direction), t.count % 3)
  }

  /** One turn ends the same way in both versions. */
  lemma StepMatches(t: Turns.Turn)
    requires t.player < Turns.NUM_PLAYERS
    ensures Step(ClockOf(t)) == ClockOf(Turns.NextTurn(t))
  {
    var r := Turns.NextTurn(t);
    if (t.count + 1) % 3 == 0 {
      assert t.count % 3 == 2;
    } else {
      assert t.count % 3 + 1 == r.count % 3;
    }
  }

  /** After any number of turns this version's clock shows the current
      engine's mover and facing, and counts the turns modulo three. */
  lemma {:induction false} RunMatches(n: nat)
    ensures Run(n) == ClockOf(Turns.Run(n))
    ensures Turns.Run(n).count == n
  {
    if n > 0 {
      RunMatches(n - 1);
      StepMatches(Turns.Run(n - 1));
    }
  }
}
