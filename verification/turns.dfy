/** The turn step of the current engine: after each turn the mover index
    advances modulo three, and after every third turn the sun advances one
    facing and the mover index advances once more. */
module Turns {
  import opened Board

  const NUM_PLAYERS := 3

  /** Whose turn it is, how many turns have been played, and the facing. */
  datatype Turn = Turn(player: nat, count: nat, direction: Direction)

  function Start(): Turn { Turn(0, 0, W) }

  /** The step taken when a turn ends. */
  function NextTurn(t: Turn): (r: Turn)
    ensures r.count == t.count + 1 && r.player < NUM_PLAYERS
    ensures r.direction == if r.count % 3 == 0 then Next(t.direction) else t.direction
    ensures r.player == (t.player + (if r.count % 3 == 0 then 2 else 1)) % NUM_PLAYERS
  {
    var p := (t.player + 1) % NUM_PLAYERS;
    var c := t.count + 1;
    if c % 3 == 0 then Turn((p + 1) % NUM_PLAYERS, c, Next(t.direction)) else Turn(p, c, t.direction)
  }

  /** The state after `n` turns from the start of a game. */
  function Run(n: nat): Turn
    decreases n
  {
    if n == 0 then Start() else NextTurn(Run(n - 1))
  }

  lemma {:induction false} NextNSucc(d: Direction, n: nat)
    ensures NextN(d, n + 1) == Next(NextN(d, n))
    decreases n
  {
    if n > 0 {
      NextNSucc(Next(d), n - 1);
    }
  }

  lemma ModAdd(a: nat, b: nat)
    ensures (a % 3 + b) % 3 == (a + b) % 3
  {
    var q := a / 3;
    assert a == 3 * q + a % 3;
    assert a + b == 3 * q + (a % 3 + b);
  }

  /** The closed form of the state after n turns. */
  function Closed(n: nat): Turn {
    Turn((n + n / 3) % NUM_PLAYERS, n, NextN(W, n / 3))
  }

  lemma ClosedStep(m: nat)
    ensures NextTurn(Closed(m)) == Closed(m + 1)
  {
    var n := m + 1;
    var a := m + m / 3;
    if n % 3 == 0 {
      assert n / 3 == m / 3 + 1;
      NextNSucc(W, m / 3);
      ModAdd(a, 2);
      assert n + n / 3 == a + 2;
    } else {
      assert n / 3 == m / 3;
      ModAdd(a, 1);
      assert n + n / 3 == a + 1;
    }
  }

  /** After n turns, n / 3 extra advances have been made and the sun has
      moved n / 3 facings. */
  lemma {:induction false} RunClosedForm(n: nat)
    ensures Run(n) == Closed(n)
    decreases n
  {
    if n > 0 {
      RunClosedForm(n - 1);
      ClosedStep(n - 1);
    }
  }

  lemma DivThree(k: nat, i: nat)
    requires i < 3
    ensures (3 * k + i) / 3 == k
    ensures (3 * k + i + k) % 3 == (k + i) % 3
  {
    var n := 3 * k + i;
    assert n == 3 * k + i;
    assert (3 * k + (k + i)) % 3 == (k + i) % 3;
  }

  lemma BlockPlayer(k: nat, i: nat)
    requires i < 3
    ensures Closed(3 * k + i).player == (k + i) % NUM_PLAYERS
    ensures Closed(3 * k + i).direction == NextN(W, k)
  {
    DivThree(k, i);
  }

  /** `Blocks` for the closed form. */
  lemma ClosedBlocks(k: nat)
    ensures Closed(3 * k).player == k % NUM_PLAYERS
    ensures {Closed(3 * k).player, Closed(3 * k + 1).player, Closed(3 * k + 2).player} == {0, 1, 2}
    ensures Closed(3 * k).direction == Closed(3 * k + 1).direction == Closed(3 * k + 2).direction
    ensures Closed(3 * k + 3).direction == Next(Closed(3 * k).direction)
  {
    BlockPlayer(k, 0);
    BlockPlayer(k, 1);
    BlockPlayer(k, 2);
    BlockPlayer(k + 1, 0);
    assert 3 * (k + 1) + 0 == 3 * k + 3;
    NextNSucc(W, k);
    AllResidues(k);
  }

  /** Turn block k (turns 3k, 3k+1, 3k+2) starts with player k mod 3 and
      gives each of the three players exactly one turn under one facing; the
      next block has the next facing. */
  lemma Blocks(k: nat)
    ensures Run(3 * k).player == k % NUM_PLAYERS
    ensures {Run(3 * k).player, Run(3 * k + 1).player, Run(3 * k + 2).player} == {0, 1, 2}
    ensures Run(3 * k).direction == Run(3 * k + 1).direction == Run(3 * k + 2).direction
    ensures Run(3 * k + 3).direction == Next(Run(3 * k).direction)
  {
    RunClosedForm(3 * k);
    RunClosedForm(3 * k + 1);
    RunClosedForm(3 * k + 2);
    RunClosedForm(3 * k + 3);
    ClosedBlocks(k);
  }

  lemma AllResidues(k: nat)
    ensures {k % 3, (k + 1) % 3, (k + 2) % 3} == {0, 1, 2}
  {
    ModAdd(k, 1);
    ModAdd(k, 2);
  }

  /** The sun faces west again exactly when a multiple of 18 turns, six
      full blocks, have been played, counting only whole blocks. */
  lemma FacingReturns(n: nat)
    ensures Run(n).direction == W <==> (n / 3) % 6 == 0
    ensures Run(18).direction == W && Run(18).player == 0
  {
    RunClosedForm(n);
    NextNReturns(W, n / 3);
    RunClosedForm(18);
    NextNReturns(W, 6);
  }
}
