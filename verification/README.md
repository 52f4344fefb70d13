# moonshade rules engine in Dafny

moonshade is a rules engine for a hex-grid tree-growing board game. Its core
has five parts:

- **Board.** A 7x7 axial array. The on-board cells satisfy |x - y| <= 3, which leaves 37 cells.
- **Moon.** It faces one of six directions and advances after every third turn.
- **Trees.** Seeds (size 0), small, medium and large trees belong to a player. Each tree shades 1..size cells along the current shadow step.
- **Player pools.** Each player has an *available* pool and a *moonlight* balance.
- **Shared reserve.** One shared *reserve* vector holds the bought-back pieces. Its price table depends on how many slots of a size are empty.

On their turn, a player collects the sizes of their lit trees as moonlight. They may then:

- **Buy** a piece from the reserve;
- **Grow** a lit tree by one size;
- **Harvest** a lit large tree;
- **Throw** a seed from a lit tree to a lit empty cell within its range.

This project models the current engine, `moonshade/models.py` and
`moonshade/game.py`, as pure functions over immutable records:

| module | file | contents |
|---|---|---|
| `Board` | `board.dfy` | Facings and their shadow steps; the array, its on-board mask and the hex distance; the throw range. |
| `Reserve` | `reserve.dfy` | The price table and `Reserve.cost`. |
| `Shadow` | `shadow.dfy` | The light map, with a declarative characterisation of which cells are shaded. |
| `Occupancy` | `occupancy.dfy` | The tree map: codes, empty cells, off-board corners. |
| `Models` | `models.dfy` | Players, the game, moves and their costs, `create_game`, and `apply_move` for all four kinds of move. |
| `Engine` | `engine.dfy` | `get_moves`, `get_moonlight` income and the turn start. Lemmas say which moves each tree offers, in what order, and that no target is offered twice. |
| `Legality` | `legality.dfy` | A declarative rule per kind of move, and the theorem that `get_moves` lists exactly the legal moves. |
| `Invariants` | `invariants.dfy` | A state invariant that holds for a new game and after the turn-start income and every generated move. It keeps pools, balances and reserve counts non-negative, keeps trees on distinct on-board cells, and conserves the two large pieces. |
| `Turns` | `turns.dfy` | The player/turn/facing step, its closed form, and the three-turn blocks. |

Two earlier single-file versions of the engine are modelled as variants and
related to the current one:

- **`Proto`** (`proto.dfy`) is `src/game.py`.
  - It keeps the facing as an index into a table.
  - It names a move's tree by its cell.
  - It checks each cost inline instead of filtering at the end.
  - Its move list is proved equal to the current engine's list, written in its own records.
  - Its Grow and Throw are proved to have the current effect.
  - Its Buy only charges the price.
- **`ProtoV1`** (`proto_v1.dfy`) is `src/game_v_1.py`.
  - Its state is module-level variables: four available rows, four reserve rows and one moonlight entry per player, of which there are three. The extra available row is never indexed; each player is read through its own moonlight entry.
  - It offers no Buy.
  - It returns a grown tree's old piece to the mover's own reserve row, with no cap.
  - Its move list is proved equal to the current list with the Buys dropped.
  - Its turn clock is proved to match the current turn step.

A few choices affect how the source is read:

- **Trees are named by position.** The source mutates tree objects in place. The model keeps a `seq<Tree>` and names a tree by its index.
- **One shared reserve.** `Reserve.count` is a class attribute in both `moonshade/models.py` and `src/game.py`, so every player reads and writes the same list. The model therefore keeps one reserve vector in the game.
- **Python negative indexing.** `Reserve.cost` indexes its row with `MAX - count`. When `count` rises above `MAX`, the index goes negative and Python counts from the end of the row. Harvest can do this, because it refunds a large piece without a cap. The model writes this out with `Reserve.PyIndex`. `Reserve.Cost` requires exactly the counts Python can price without an `IndexError`: 1 to 2·MAX.
- **The invariant keeps prices in range.** `Invariants.Inv` proves that in every reachable state each count stays between 0 and MAX, so the wrap never happens in play.
- **The 8-argument `Move` calls.** `moonshade/game.py` builds `Move` with eight positional arguments, the layout of `src/game.py`. The seven-field class in `moonshade/models.py` rejects these calls. The model follows the evident intent: the source tree is the tree being scanned, the target is the scanned cell, and a Buy's price is the reserve price.
- **Sizes up to large.** Move generation assumes trees are at most large and stand inside the array. `Engine.Shape` states this, and the invariant shows it holds.

Two consequences of the turn loop and the opening pool:

- **Return to west.** The facing is west again after 18 turns, which is six facing advances of three turns each (`Turns.FacingReturns`).
- **Opening throws.** Each player starts with two seeds (moonshade/models.py:71), so throws are offered from the first turn.

## Model

| member | source | states |
|---|---|---|
| Board.Next | moonshade/models.py:32-38 | The next facing is the one after it in declaration order, wrapping from the last to the first, and is never the facing itself. |
| Board.NextCycle | moonshade/models.py:13-38 | Advancing walks W, NW, NE, E, SE, SW and back to W. |
| Board.NextNReturns | moonshade/models.py:32-38 | n advances bring a facing back to itself exactly when n is a multiple of six. |
| Board.Cast | moonshade/models.py:21-29 | Every facing's shadow step is a hex neighbour offset, at hex distance 1. |
| Board.CastsAreNeighbours | moonshade/models.py:21-38 | Different facings cast different steps, and three advances reverse the shadow step. |
| Board.BoardHas37Cells | moonshade/models.py:145-150 | The array has 37 cells with \|x - y\| <= 3. |
| Board.HexBand | moonshade/game.py:43-48 | At row offset dy the enumerated column band is exactly the columns within hex distance `size` of the tree. |
| Board.RangeRowSpec | moonshade/game.py:44-50 | One row of the throw range holds exactly the in-array cells of that row within hex distance `size`, in ascending column order. |
| Board.ThrowableRange | moonshade/game.py:42-50 | Every yielded cell lies inside the 7x7 array. |
| Board.ThrowableRangeSpec | moonshade/game.py:42-50 | The throw range holds exactly the in-array cells within hex distance `size` of the tree. It is strictly ascending by row, then by column, so each cell appears once. |
| Reserve.Cost | moonshade/models.py:53-59 | The price is an entry of that size's row, between the row's first and last entries. With all slots filled it is the row's first (cheapest) entry. src/game.py:72-83 has the same table and formula. |
| Reserve.CostIndexInRange | moonshade/models.py:54-59 | Each row has one entry per slot, so the index `MAX - count` is in range exactly when 1 <= count <= MAX. |
| Reserve.CostMonotone | moonshade/models.py:54-59 | The rows are non-decreasing, so the price never drops as the count falls. |
| Shadow.ShadeStepsSpec | moonshade/models.py:121-129 | One tree's loop zeroes exactly the in-array cells among its first n shadow steps, and leaves every other cell as it was. |
| Shadow.ShadowMapSpec | moonshade/models.py:117-130 | A cell of the light map is 0 exactly when some tree of size s reaches it in i steps, for some 1 <= i <= s, and 1 otherwise. An off-array step is skipped without stopping later steps. |
| Shadow.SeedShadesNothing | moonshade/models.py:120-129 | Adding a seed does not change the light map. |
| Shadow.ShadeMonotone | moonshade/models.py:117-130 | A tree list containing every tree of another shades every cell the other shades. So adding a tree never lights a cell, and the order of the trees does not matter. |
| Shadow.RayLeavesForGood | moonshade/models.py:121-128 | From a tree inside the array, a shadow ray that has left the array never re-enters it, so skipping an off-array step and stopping there are equivalent. |
| Occupancy.PlaceSpec | moonshade/models.py:141-143 | After the trees are written, a cell is -1 exactly when no tree stands on it. Otherwise it holds the code of the last tree on it. |
| Occupancy.TreeMap | moonshade/models.py:141-151 | A cell of the tree map is -3 exactly when it is off the board. It is -1 exactly when it is on the board and no tree stands on it. src/game.py:146-165 and src/game_v_1.py:130-141 build the same map. |
| Occupancy.TreeMapCode | moonshade/models.py:142-143 | A tree's cell holds size + 4 * player when no later tree shares the cell. |
| Occupancy.TreeMapLeaves37 | moonshade/models.py:144-150 | Whatever the trees, exactly 37 cells are not marked -3. |
| Models.Remove | moonshade/models.py:163 | The kept trees are exactly those different from the harvested tree. |
| Models.RemoveConcat | moonshade/models.py:163 | Harvest removal filters each part of a concatenation separately and keeps the parts in their order. |
| Models.RemoveOne | moonshade/models.py:163 | A single record is dropped when it equals the harvested tree and kept otherwise. |
| Models.RemoveSingle | moonshade/models.py:163 | When the harvested record occurs once, removal deletes exactly that position and keeps the rest in order. |
| Models.ApplyMove | moonshade/models.py:153-173 | Every move subtracts its cost from the mover's moonlight, and no other player changes. Grow increments the source tree's size, decrements `available[new_size]`, and sets `count[new_size - 1]` to min(MAX, count + 1). Harvest removes every record equal to the source and adds 1 to `count[LARGE]` with no cap. Throw appends the mover's seed at the target, decrements `available[SEED]` and returns that seed. Buy moves one piece from the reserve to the player, so available + count is unchanged. Only Throw returns a tree. |
| Engine.BuyMovesSpec | moonshade/game.py:60-64 | There is one Buy per size whose reserve count is non-zero, priced by `Reserve.cost`, and no other move. |
| Engine.Affordable | moonshade/game.py:82-83 | The kept moves are exactly the candidates whose cost is at most the mover's moonlight. |
| Engine.AffordableOrdered | moonshade/game.py:82-83 | Filtering by cost keeps the order of the kept moves. |
| Engine.ThrowScanSpec | moonshade/game.py:77-81 | A tree's throw scan offers exactly the range cells that are lit and -1 in the tree map, and marks exactly those cells -2. |
| Engine.TreeScanSources | moonshade/game.py:65-81 | Every tree move comes from a tree of the mover that stands in light. |
| Engine.TreeScanHarvest | moonshade/game.py:65-69 | A Harvest of tree j is offered exactly when tree j is the mover's, is lit and is large. |
| Engine.TreeScanGrow | moonshade/game.py:65-72 | A Grow of tree j is offered exactly when tree j is the mover's, is lit, is below large, and a piece of the next size is available. The new size is then that next size. |
| Engine.TreeScanThrow | moonshade/game.py:73-81 | A Throw from tree j to cell c is offered exactly when four things hold: tree j is the mover's, is lit and is not a seed, and the mover holds a seed; c is in j's range; c is lit and empty; and no earlier throwing tree has c in range. |
| Engine.TreeScanOneSource | moonshade/game.py:78-79 | Two Throws to the same cell come from the same tree. |
| Engine.TreeScanOrdered | moonshade/game.py:65-81 | Tree moves come in tree-list order. Each tree's Harvest or Grow comes before its throws, and its throws come in row-major order of target. |
| Engine.GetMovesOrdered | moonshade/game.py:53-86 | The result lists the Buys first in ascending size, then the tree moves in the order above, and no move is listed twice. |
| Engine.GetMovesThrowTargetsDistinct | moonshade/game.py:77-81 | No two offered Throws share a target cell. |
| Engine.IncomeAppend | moonshade/game.py:89-94 | A tree adds exactly its own yield to the income. A seed or another player's tree adds nothing. |
| Engine.IncomeMonotone | moonshade/game.py:89-94 | More light never lowers a player's income. |
| Engine.IncomeShadowed | moonshade/game.py:89-94 | A player's income from some trees, under the light map of a larger set of trees, is at most their income under their own light map. |
| Engine.ThrowKeepsIncome | moonshade/models.py:165-169 | A throw changes neither the light map nor any player's income. |
| Engine.TurnStart | moonshade/game.py:104-105 | At the start of a turn the mover's moonlight does not decrease. No other player, tree, facing or reserve count changes. |
| Legality.LightIsLit | moonshade/models.py:117-130 | The light map is non-zero exactly on the cells no shadow reaches. |
| Legality.BuyLegal | moonshade/game.py:60-64 | A Buy is offered exactly when it is the mover's and affordable, its size's reserve count is non-zero, and it carries the reserve price. |
| Legality.HarvestLegal | moonshade/game.py:65-69 | A Harvest is offered exactly when it is affordable and names a lit large tree of the mover. |
| Legality.GrowScanned | moonshade/game.py:65-72 | The scan offers a Grow of tree k exactly under the Grow rule, with lit meaning that no shadow reaches the tree. |
| Legality.GrowLegal | moonshade/game.py:65-72 | A Grow is offered exactly when it is affordable, names a lit tree of the mover below large, grows it by one, and a piece of the new size is available. |
| Legality.ThrowLegal | moonshade/game.py:73-81 | A Throw is offered exactly when four things hold: it is affordable; it comes from the first lit non-seed tree of the mover that has the target in range; the mover holds a seed; and the target is on-board, lit and unoccupied. |
| Legality.GetMovesLegal | moonshade/game.py:53-86 | A move is in the result exactly when it is legal by the declarative rules above. |
| Invariants.StartTreesPlaced | moonshade/models.py:105-111 | The six starting trees stand on distinct on-board cells, and none is large. |
| Invariants.CreateGameInv | moonshade/models.py:101-115 | A new game, for any number of players, satisfies the invariant. |
| Invariants.InvPriceable | moonshade/models.py:58-59 | Under the invariant every reserve count can be priced. |
| Invariants.TurnStartInv | moonshade/game.py:104-105 | Collecting income keeps the invariant. |
| Invariants.BuyInv | moonshade/models.py:170-172 | Applying a legal Buy keeps the invariant. |
| Invariants.GrowInv | moonshade/models.py:156-161 | Applying a legal Grow keeps the invariant. |
| Invariants.HarvestInv | moonshade/models.py:162-164 | Applying a legal Harvest keeps the invariant. The large piece moves from the board to the reserve. |
| Invariants.ThrowInv | moonshade/models.py:165-169 | Applying a legal Throw keeps the invariant, and the new seed lands on an empty on-board cell. |
| Invariants.ApplyMoveInv | moonshade/models.py:153-173 | Every move `get_moves` returns can be applied. Applying it keeps moonlight, available pools and reserve counts non-negative, and keeps every count within MAX. |
| Turns.NextTurn | moonshade/game.py:117-121 | Each turn end advances the player mod 3. After every third turn the facing advances and the player advances one extra step. |
| Turns.RunClosedForm | moonshade/game.py:117-121 | After n turns the player is (n + n / 3) mod 3 and the facing has advanced n / 3 times. |
| Turns.Blocks | moonshade/game.py:117-121 | Block k (turns 3k to 3k+2) starts with player k mod 3 and gives each player exactly one turn under one facing. The next block has the next facing. |
| Turns.FacingReturns | moonshade/game.py:117-121 | The facing is west exactly when (n / 3) is a multiple of 6. After 18 turns it is west again and player 0 moves. |
| Proto.CastTable | src/game.py:54 | The shadow-step table lists the current engine's casts in facing order. |
| Proto.LiftLower | src/game.py:110-114 | The integer facing and the enumerated facing are interchangeable representations. |
| Proto.CreateGame | src/game.py:116-130 | The new game is the current engine's new game, with facing index 0 (west). |
| Proto.LightMapAgrees | src/game.py:132-144 | Indexing the cast table gives the current engine's light map. src/game_v_1.py:103-128 computes the same map. |
| Proto.Encode | src/game.py:192-211 | A move's record keeps its player and its cost, names its tree by the tree's cell, and is a Buy exactly when the move is. |
| Proto.SpanIsFilteredRow | src/game.py:268 | Clamping the column bounds to 0..7 visits the same cells, in the same order, as filtering them. |
| Proto.ClampedRowsIsRange | src/game.py:265-268 | The row-skipping, column-clamping walk produces the current throw range. |
| Proto.ThrowRangeIsRange | src/game.py:265-268 | The prototype's throw range equals the current engine's. |
| Proto.BuyMovesAgree | src/game.py:242-248 | Checking the price inline gives the affordable part of the current Buy list. |
| Proto.ThrowScanAgrees | src/game.py:269-274 | A throw scan that checks each cost inline offers the current engine's affordable throws. |
| Proto.ThrowScanMarksAgree | src/game.py:269-270 | Both throw scans mark the same cells, whether or not the throw is affordable. |
| Proto.OwnMoveAgrees | src/game.py:251-259 | A tree's Harvest or Grow, checked inline, is the current engine's affordable own move. |
| Proto.TreeScanAgrees | src/game.py:250-274 | The prototype's tree scan is the affordable part of the current tree scan, in the same order. |
| Proto.GetMovesAgree | src/game.py:233-283 | The prototype's move list is the current engine's list, in the same order, written as prototype records. |
| Proto.GetMovesThrowTargetsDistinct | src/game.py:265-274 | No two offered Throws share a target cell. |
| Proto.FirstAt | src/game.py:178-182 | The search returns the first tree standing on the cell, and none exactly when no tree stands there. |
| Proto.FirstAtDistinct | src/game.py:178-182 | When no two trees share a cell, the search finds tree k from tree k's cell. |
| Proto.ApplyMove | src/game.py:168-190 | Every move that completes pays its cost. A Grow completes exactly when a tree stands on its cell: it grows the first such tree, decrements `available[new_size]`, and increments `count[new_size - 1]` capped at MAX. A Throw decrements `available[SEED]` and appends a seed. A Buy only pays. A Harvest does not complete. |
| Proto.ApplyAgrees | src/game.py:168-190 | On a Grow of the first tree on its cell, or on a Throw, the prototype reaches the current engine's game. |
| Proto.GeneratedApplyAgrees | src/game.py:168-190 | Every Grow and Throw the current engine offers in a reachable game has the same effect in the prototype. |
| Proto.BuyDiffers | src/game.py:168-190 | The prototype's Buy charges the same price as the current engine's. It leaves the reserve one higher and the player's pool one lower than the current engine does. |
| ProtoV1.Initial | src/game_v_1.py:58-70 | The opening state has the current engine's starting trees and facing 0. It has four available rows and four reserve rows, each `[2, 2, 1, 0]`. Each player's available row holds two small pieces fewer than the current opening pool. The three players start with no moonlight (line 291), and the state satisfies `Shape`, so every later lemma applies to it. |
| ProtoV1.MoveCost | src/game_v_1.py:240-246 | Grow costs the new size, Harvest 4 and Throw 1, as in the current engine. A Buy has no price. |
| ProtoV1.GetMovesAgree | src/game_v_1.py:193-224 | The move list is the current engine's list for the same pools and moonlight with the Buys dropped, in the same order. |
| ProtoV1.GetMovesNoBuy | src/game_v_1.py:200-224 | Every offered move is the mover's, none is a Buy, and each has a price. |
| ProtoV1.ThrowTargetsUnique | src/game_v_1.py:215-224 | Two offered Throws to the same cell are the same move. |
| ProtoV1.Pay | src/game_v_1.py:249 | The mover's moonlight drops by the cost, and nothing else changes. |
| ProtoV1.GrowAt | src/game_v_1.py:252-265 | The tree grows by one. The mover gives up a piece of the new size, and the mover's own reserve row gains one piece of the old size, with no cap. |
| ProtoV1.HarvestAt | src/game_v_1.py:250-267 | The tree's record is dropped and the others keep their order. The mover's reserve row gains one large piece. |
| ProtoV1.ThrowTo | src/game_v_1.py:255-269 | The mover gives up a seed, and the seed is appended at the target. |
| ProtoV1.ApplyMove | src/game_v_1.py:248-270 | A Throw always completes. A Grow or Harvest completes exactly when a tree stands on its cell, and then acts on the first such tree after paying. A Buy fails, because it has no price. |
| ProtoV1.ApplyAgrees | src/game_v_1.py:248-270 | On a Grow or a Throw this version and `src/game.py` fail together. Otherwise they reach the same trees, pools and moonlight. |
| ProtoV1.GrowReserveAgrees | src/game_v_1.py:252-254 | The uncapped reserve increment agrees with the capped one exactly when the count is below MAX. At MAX it goes past MAX. |
| ProtoV1.HarvestAgrees | src/game_v_1.py:257-267 | When no two trees share a cell, removing the first tree on the cell is the current engine's removal of every equal record. |
| ProtoV1.TurnStart | src/game_v_1.py:280-285 | The mover's moonlight grows by exactly the sizes of the mover's lit trees under the current engine's light map for the facing, never decreases, and nothing else changes. |
| ProtoV1.TurnStartAgrees | src/game_v_1.py:280-285 | The income is the current engine's income. |
| ProtoV1.Step | src/game_v_1.py:309-314 | The counter of turns since the last facing change advances modulo 3. |
| ProtoV1.StepMatches | src/game_v_1.py:309-314 | One turn end moves this version's mover, facing index and counter as the current turn step does. |
| ProtoV1.RunMatches | src/game_v_1.py:309-314 | After any number of turns this version's clock shows the current engine's player and facing, with the counter equal to the number of turns mod 3. |

## Left out

- **Rendering and prompts.** `moonshade/printer.py`, `print_hex_grid`, the move listings and the prompts only present the state.
- **Input loops.** The `while True` turn loops read `input()` and re-prompt on a bad index. Only the income at the start of a turn and the turn step after it are modelled. Which generated move a player picks is a parameter of the lemmas.
- **numpy.** The 7x7 arrays are `seq<seq<int>>` values.
- **Scoring.** `victory_tokens` is never appended, and there is no game end, so neither is modelled. The tree that `apply_move` returns for a Throw is modelled, but the turn loop ignores it.
- **Harvest in `src/game.py`.** It reads a missing `reserve.large` attribute (src/game.py:172), so it always raises. `Proto.ApplyMove` returns None for it and proves nothing else about it.
- **Buy in `src/game.py`.** It only deducts the price (src/game.py:168-190). This is modelled and contrasted in `Proto.BuyDiffers`, not corrected.
- **`src/game_v_1.py` leftovers.** The `moonlight` stub at lines 188-191 is shadowed by the global list at line 291. The direction comments at lines 18-23 disagree with the `cast` table at line 103. Neither is modelled; the table is.
- **Error paths in the prototypes.** A Grow or Harvest whose cell holds no tree has already changed the moonlight and pools when it raises. The model returns None for the whole move.
- **Move and price in `src/game_v_1.py`.** Its `Move` has no buy price, so its moves are modelled as `src/game.py` records with the price field -1. Its global `available` and `reserve` arrays are the per-player rows of `ProtoV1.State`. Its move list is read with the reserve at MAX, since it never prices a Buy.
- Reserve.Cost: requires 1 <= count <= 2·MAX, the range Python can index without an `IndexError`. A count of 0 never reaches it in the source, because `get_moves` asks for a price only when the count is non-zero.
- Engine.TurnStart: its contract says the mover's balance does not decrease. The exact amount, the sizes of the mover's lit trees, is stated through `Engine.Income` and the Income lemmas.
