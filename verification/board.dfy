/** Board geometry of the game: the six sun facings and their shadow steps,
    the 7x7 axial hex array with its on-board mask, the hex distance, and the
    range of cells a tree can throw a seed to. */
module Board {

  /** Piece sizes; they are also the indices of every per-size pool. */
  const SEED := 0
  const SMALL := 1
  const MEDIUM := 2
  const LARGE := 3

  datatype Option<T> = None | Some(value: T)

  /** A piece on the board. Size 0 is a seed, 3 a large tree. */
  datatype Tree = Tree(player: nat, size: nat, y: int, x: int)

  /** A (row, column) pair. */
  type Cell = (int, int)

  function Abs(n: int): nat { if n < 0 then -n else n }
  function Max(a: int, b: int): int { if a < b then b else a }
  function Min(a: int, b: int): int { if a < b then a else b }

  // ---------------------------------------------------------------------------
  // Facings
  // ---------------------------------------------------------------------------

  datatype Direction = W | NW | NE | E | SE | SW

  /** The facings in declaration order, which is the order `next` walks. */
  const Facings: seq<Direction> := [W, NW, NE, E, SE, SW]

  function Index(d: Direction): (i: nat)
    ensures i < |Facings| && Facings[i] == d
  {
    match d
    case W => 0
    case NW => 1
    case NE => 2
    case E => 3
    case SE => 4
    case SW => 5
  }

  lemma IndexInjective(a: Direction, b: Direction)
    requires Index(a) == Index(b)
    ensures a == b
  {
  }

  /** The facing after `d`: the next member in declaration order, wrapping
      from the last back to the first. */
  function Next(d: Direction): (r: Direction)
    ensures Index(r) == (Index(d) + 1) % 6
    ensures r != d
  {
    var i := Index(d) + 1;
    Facings[if i >= |Facings| then 0 else i]
  }

  /** `n` applications of `Next`. */
  function NextN(d: Direction, n: nat): Direction
    decreases n
  {
    if n == 0 then d else NextN(Next(d), n - 1)
  }

  lemma {:induction false} NextNIndex(d: Direction, n: nat)
    ensures Index(NextN(d, n)) == (Index(d) + n) % 6
    decreases n
  {
    if n > 0 {
      NextNIndex(Next(d), n - 1);
    }
  }

  /** The facings form one cycle of length six: `n` advances return a facing
      to itself exactly when `n` is a multiple of six. */
  lemma NextNReturns(d: Direction, n: nat)
    ensures NextN(d, n) == d <==> n % 6 == 0
  {
    NextNIndex(d, n);
    if n % 6 == 0 {
      IndexInjective(NextN(d, n), d);
    }
  }

  /** The shadow step (row, column) a tree casts under each facing. */
  function Cast(d: Direction): (r: Cell)
    ensures HexDist(r.0, r.1) == 1
  {
    match d
    case W => (0, -1)
    case NW => (-1, -1)
    case NE => (-1, 0)
    case E => (0, 1)
    case SE => (1, 1)
    case SW => (1, 0)
  }

  /** The six casts are the six distinct hex neighbour offsets, and three
      advances of the sun reverse the shadow. */
  lemma CastsAreNeighbours(d: Direction, d': Direction)
    ensures Cast(d) == Cast(d') ==> d == d'
    ensures Cast(Next(Next(Next(d)))) == (-Cast(d).0, -Cast(d).1)
  {
    NextCycle();
  }

  /** `Next` walks W, NW, NE, E, SE, SW and back to W. */
  lemma NextCycle()
    ensures Next(W) == NW && Next(NW) == NE && Next(NE) == E
    ensures Next(E) == SE && Next(SE) == SW && Next(SW) == W
  {
  }

  // ---------------------------------------------------------------------------
  // Cells and the 7x7 array
  // ---------------------------------------------------------------------------

  predicate InGrid(y: int, x: int) { 0 <= y < 7 && 0 <= x < 7 }

  /** The on-board cells: the 37 cells of the array with |x - y| <= 3. */
  predicate OnBoard(y: int, x: int) { InGrid(y, x) && Abs(x - y) <= 3 }

  /** Hex distance for offsets (dy, dx) in the axial layout, where the
      neighbours are the six offsets produced by `Cast`. */
  function HexDist(dy: int, dx: int): nat { Max(Max(Abs(dy), Abs(dx)), Abs(dy - dx)) }

  predicate IsGrid(g: seq<seq<int>>) {
    |g| == 7 && forall r | 0 <= r < 7 :: |g[r]| == 7
  }

  /** A 7x7 array of integers, as the light map and the tree map are. */
  type Grid = g: seq<seq<int>> | IsGrid(g) witness seq(7, _ => seq(7, _ => 0))

  function Full(v: int): (g: Grid)
    ensures forall y, x | InGrid(y, x) :: g[y][x] == v
  {
    seq(7, _ => seq(7, _ => v))
  }

  function Set(g: Grid, y: int, x: int, v: int): (r: Grid)
    requires InGrid(y, x)
    ensures r[y][x] == v
    ensures forall y', x' | InGrid(y', x') && (y' != y || x' != x) :: r[y'][x'] == g[y'][x']
  {
    g[y := g[y][x := v]]
  }

  /** Number of on-board cells in row `y` from column `x` on. */
  function BoardRowCount(y: int, x: int): nat
    decreases 7 - x
  {
    if x >= 7 then 0 else (if OnBoard(y, x) then 1 else 0) + BoardRowCount(y, x + 1)
  }

  /** Number of on-board cells in rows `y` .. 6. */
  function BoardCount(y: int): nat
    decreases 7 - y
  {
    if y >= 7 then 0 else BoardRowCount(y, 0) + BoardCount(y + 1)
  }

  lemma BoardHas37Cells()
    ensures BoardCount(0) == 37
  {
    assert BoardRowCount(0, 0) == 4;
    assert BoardRowCount(1, 0) == 5;
    assert BoardRowCount(2, 0) == 6;
    assert BoardRowCount(3, 0) == 7;
    assert BoardRowCount(4, 0) == 6;
    assert BoardRowCount(5, 0) == 5;
    assert BoardRowCount(6, 0) == 4;
  }

  // ---------------------------------------------------------------------------
  // Throw range
  // ---------------------------------------------------------------------------

  /** Strict row-major order on cells. */
  predicate LexLess(a: Cell, b: Cell) { a.0 < b.0 || (a.0 == b.0 && a.1 < b.1) }

  predicate LexSorted(s: seq<Cell>) {
    forall i, j | 0 <= i < j < |s| :: LexLess(s[i], s[j])
  }

  /** Cells (i, j) for lo <= j < hi in ascending column order, keeping only
      the columns 0..6. */
  function FilteredRow(i: int, lo: int, hi: int): seq<Cell>
    decreases hi - lo
  {
    if lo >= hi then []
    else (if 0 <= lo <= 6 then [(i, lo)] else []) + FilteredRow(i, lo + 1, hi)
  }

  /** The rows of a tree's throw range from row offset `dy` down to offset
      `size`; each row is a band of columns that narrows away from the tree. */
  function RangeRows(t: Tree, dy: int): seq<Cell>
    decreases t.size - dy
  {
    if dy > t.size then []
    else
      RangeRow(t, dy) + RangeRows(t, dy + 1)
  }

  /** The cells a tree may throw a seed to, all inside the array;
      `ThrowableRangeSpec` says which they are. */
  function ThrowableRange(t: Tree): (r: seq<Cell>)
    ensures forall c | c in r :: InGrid(c.0, c.1)
  {
    RangeRowsSpec(t, -(t.size as int));
    RangeRows(t, -(t.size as int))
  }

  /** A tree's throw range holds exactly the in-array cells within hex
      distance `size` of the tree, in ascending row, then column, order, so
      each cell appears once. */
  lemma ThrowableRangeSpec(t: Tree)
    ensures forall c :: c in ThrowableRange(t) <==> InGrid(c.0, c.1) && HexDist(c.0 - t.y, c.1 - t.x) <= t.size
    ensures LexSorted(ThrowableRange(t))
  {
    RangeRowsSpec(t, -(t.size as int));
  }

  lemma {:induction false} FilteredRowSpec(i: int, lo: int, hi: int)
    ensures forall c :: c in FilteredRow(i, lo, hi) <==> c.0 == i && lo <= c.1 < hi && 0 <= c.1 <= 6
    ensures LexSorted(FilteredRow(i, lo, hi))
    decreases hi - lo
  {
    if lo < hi {
      FilteredRowSpec(i, lo + 1, hi);
    }
  }

  /** The column band of row offset `dy` is exactly the hex ball's row. */
  lemma HexBand(s: int, dy: int, dx: int)
    requires -s <= dy <= s
    ensures (-s + Max(0, dy) <= dx <= s + Min(0, dy)) <==> HexDist(dy, dx) <= s
  {
  }

  lemma LexSortedConcat(a: seq<Cell>, b: seq<Cell>)
    requires LexSorted(a) && LexSorted(b)
    requires forall u, v | u in a && v in b :: LexLess(u, v)
    ensures LexSorted(a + b)
  {
    forall i, j | 0 <= i < j < |a + b|
      ensures LexLess((a + b)[i], (a + b)[j])
    {
      if j < |a| {
        assert (a + b)[i] == a[i] && (a + b)[j] == a[j];
      } else if i >= |a| {
        assert (a + b)[i] == b[i - |a|] && (a + b)[j] == b[j - |a|];
      } else {
        assert (a + b)[i] == a[i] && a[i] in a;
        assert (a + b)[j] == b[j - |a|] && b[j - |a|] in b;
      }
    }
  }

  /** The row of the range at offset dy, as enumerated. */
  function RangeRow(t: Tree, dy: int): seq<Cell>
  {
    var i := t.y + dy;
    if 0 <= i <= 6 then FilteredRow(i, t.x - t.size + Max(0, dy), t.x + t.size + Min(0, dy) + 1) else []
  }

  lemma RangeRowSpec(t: Tree, dy: int)
    requires -(t.size as int) <= dy <= t.size
    ensures forall c :: c in RangeRow(t, dy) <==>
      InGrid(c.0, c.1) && c.0 == t.y + dy && HexDist(c.0 - t.y, c.1 - t.x) <= t.size
    ensures LexSorted(RangeRow(t, dy))
  {
    var i := t.y + dy;
    if 0 <= i <= 6 {
      var lo := t.x - t.size + Max(0, dy);
      var hi := t.x + t.size + Min(0, dy) + 1;
      FilteredRowSpec(i, lo, hi);
      forall c: Cell
        ensures c in RangeRow(t, dy) <==> InGrid(c.0, c.1) && c.0 == i && HexDist(c.0 - t.y, c.1 - t.x) <= t.size
      {
        HexBand(t.size, dy, c.1 - t.x);
      }
    }
  }

  lemma {:induction false} RangeRowsSpec(t: Tree, dy: int)
    requires -(t.size as int) <= dy
    ensures forall c :: c in RangeRows(t, dy) <==>
      InGrid(c.0, c.1) && dy <= c.0 - t.y && HexDist(c.0 - t.y, c.1 - t.x) <= t.size
    ensures LexSorted(RangeRows(t, dy))
    decreases t.size - dy
  {
    if dy <= t.size {
      var row := RangeRow(t, dy);
      var rest := RangeRows(t, dy + 1);
      assert RangeRows(t, dy) == row + rest;
      RangeRowsSpec(t, dy + 1);
      RangeRowSpec(t, dy);
      LexSortedConcat(row, rest);
    } else {
      forall c: Cell | dy <= c.0 - t.y
        ensures HexDist(c.0 - t.y, c.1 - t.x) > t.size
      {
      }
    }
  }
}
