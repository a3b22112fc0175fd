/**
 * The rules of tic-tac-toe: the board, whose turn it is, the legal moves,
 * making a move, the winner, the end of the game and its score
 * (tictactoe/tictactoe.py, lines 1-130).
 */
module Board {
  import opened Wrappers

  /** One square of the grid; `Empty` stands for the source's `EMPTY = None`. */
  datatype Cell = X | O | Empty

  /** The board is a list of three rows of three cells. */
  type Grid = b: seq<seq<Cell>> | IsBoard(b)
    witness [[Empty, Empty, Empty], [Empty, Empty, Empty], [Empty, Empty, Empty]]

  /** A move (i, j): row i, column j. */
  type Pos = (int, int)

  predicate IsBoard(b: seq<seq<Cell>>) {
    |b| == 3 && forall i :: 0 <= i < 3 ==> |b[i]| == 3
  }

  predicate OnBoard(a: Pos) {
    0 <= a.0 < 3 && 0 <= a.1 < 3
  }

  /** Row-major index of a square, the order in which the source's loops visit it. */
  function Index(a: Pos): int {
    3 * a.0 + a.1
  }

  /** The square with row-major index k. */
  function PosOf(k: int): Pos {
    if k < 3 then (0, k) else if k < 6 then (1, k - 3) else (2, k - 6)
  }

  lemma PosOfIndex(k: int)
    requires 0 <= k < 9
    ensures OnBoard(PosOf(k)) && Index(PosOf(k)) == k
  {
  }

  lemma IndexOfPos(a: Pos)
    requires OnBoard(a)
    ensures 0 <= Index(a) < 9 && PosOf(Index(a)) == a
  {
  }

  function At(b: Grid, k: int): Cell
    requires 0 <= k < 9
  {
    PosOfIndex(k);
    b[PosOf(k).0][PosOf(k).1]
  }

  /** The starting board: every square of the 3x3 grid is empty. */
  function InitialState(): (g: Grid)
    ensures AllEmpty(g)
  {
    var g := [[Empty, Empty, Empty],
              [Empty, Empty, Empty],
              [Empty, Empty, Empty]];
    assert g[0] == g[1] == g[2] == [Empty, Empty, Empty];
    g
  }

  // ---------------------------------------------------------------------------
  // count
  // ---------------------------------------------------------------------------

  /** The source's counter dictionary `{X: _, O: _, EMPTY: _}`. */
  datatype Tally = Tally(x: nat, o: nat, empty: nat)

  function Marks(t: Tally, c: Cell): nat {
    match c
    case X => t.x
    case O => t.o
    case Empty => t.empty
  }

  function Tick(t: Tally, c: Cell): Tally {
    match c
    case X => t.(x := t.x + 1)
    case O => t.(o := t.o + 1)
    case Empty => t.(empty := t.empty + 1)
  }

  /** Tally of the squares with row-major index k and above. */
  function CountFrom(b: Grid, k: int): (t: Tally)
    requires 0 <= k <= 9
    ensures t.x + t.o + t.empty == 9 - k
    decreases 9 - k
  {
    if k == 9 then Tally(0, 0, 0) else Tick(CountFrom(b, k + 1), At(b, k))
  }

  function Count(b: Grid): (t: Tally)
    ensures t.x + t.o + t.empty == 9
  {
    CountFrom(b, 0)
  }

  /** The squares holding c, as a set of positions: the reference for `Count`. */
  function Cells(b: Grid, c: Cell): set<Pos>
  {
    set i, j | 0 <= i < 3 && 0 <= j < 3 && b[i][j] == c :: (i, j)
  }

  // ---------------------------------------------------------------------------
  // player
  // ---------------------------------------------------------------------------

  function Player(b: Grid): (p: Cell)
    ensures p != Empty
  {
    if b == InitialState() then X
    else
      var counter := Count(b);
      if counter.x > counter.o then O else X
  }

  /** The mark of whoever moved last, the only mark `Winner` looks for. */
  function Prev(b: Grid): (p: Cell)
    ensures p != Empty && p != Player(b)
  {
    if Player(b) == X then O else X
  }

  // ---------------------------------------------------------------------------
  // actions
  // ---------------------------------------------------------------------------

  /** Squares with index k and above holding c, in row-major order. */
  function CellsFrom(b: Grid, c: Cell, k: int): (r: seq<Pos>)
    requires 0 <= k <= 9
    ensures forall a :: a in r <==> OnBoard(a) && Index(a) >= k && b[a.0][a.1] == c
    ensures forall s, t :: 0 <= s < t < |r| ==> Index(r[s]) < Index(r[t])
    ensures |r| == Marks(CountFrom(b, k), c)
    decreases 9 - k
  {
    if k == 9 then []
    else
      var rest := CellsFrom(b, c, k + 1);
      CellsStep(b, c, k, rest);
      if At(b, k) == c then [PosOf(k)] + rest else rest
  }

  /** The inductive step of `CellsFrom`: square k goes in front of the squares after it. */
  lemma CellsStep(b: Grid, c: Cell, k: int, rest: seq<Pos>)
    requires 0 <= k < 9
    requires forall a :: a in rest <==> OnBoard(a) && Index(a) >= k + 1 && b[a.0][a.1] == c
    requires forall s, t :: 0 <= s < t < |rest| ==> Index(rest[s]) < Index(rest[t])
    ensures var r := if At(b, k) == c then [PosOf(k)] + rest else rest;
      && (forall a :: a in r <==> OnBoard(a) && Index(a) >= k && b[a.0][a.1] == c)
      && (forall s, t :: 0 <= s < t < |r| ==> Index(r[s]) < Index(r[t]))
  {
    PosOfIndex(k);
    assert forall a :: OnBoard(a) && Index(a) == k ==> a == PosOf(k) by {
      forall a | OnBoard(a) && Index(a) == k { IndexOfPos(a); }
    }
    if At(b, k) == c {
      var r := [PosOf(k)] + rest;
      forall s, t | 0 <= s < t < |r| ensures Index(r[s]) < Index(r[t]) {
        if s > 0 {
          assert r[s] == rest[s - 1] && r[t] == rest[t - 1];
        } else {
          assert r[t] in rest;
        }
      }
    }
  }

  /**
   * The legal moves. The source returns a Python set; its iteration order is
   * fixed here as row-major, and the set is the elements of this sequence.
   */
  function Actions(b: Grid): (moves: seq<Pos>)
    ensures forall a :: a in moves <==> OnBoard(a) && b[a.0][a.1] == Empty
    ensures |moves| == Count(b).empty
  {
    CellsFrom(b, Empty, 0)
  }

  // ---------------------------------------------------------------------------
  // result
  // ---------------------------------------------------------------------------

  /** Outcome of `result`: the new board, or the source's "Cell is already filled." exception. */
  datatype Move = Moved(board: Grid) | CellFilled

  /** The board with m written on square a and every other square as it was. */
  function Place(b: Grid, a: Pos, m: Cell): (r: Grid)
    requires OnBoard(a)
    ensures r[a.0][a.1] == m
    ensures forall i, j :: 0 <= i < 3 && 0 <= j < 3 && (i, j) != a ==> r[i][j] == b[i][j]
  {
    b[a.0 := b[a.0][a.1 := m]]
  }

  function Result(b: Grid, a: Pos): (r: Move)
    requires OnBoard(a)
    ensures r.CellFilled? <==> b[a.0][a.1] != Empty
    ensures r.Moved? ==>
      && r.board[a.0][a.1] == Player(b)
      && (forall i, j :: 0 <= i < 3 && 0 <= j < 3 && (i, j) != a ==> r.board[i][j] == b[i][j])
      && Count(r.board).empty == Count(b).empty - 1
      && Marks(Count(r.board), Player(b)) == Marks(Count(b), Player(b)) + 1
      && Marks(Count(r.board), Prev(b)) == Marks(Count(b), Prev(b))
  {
    if b[a.0][a.1] != Empty then CellFilled
    else
      PlaceCount(b, a, Player(b));
      Moved(Place(b, a, Player(b)))
  }

  lemma PlaceAt(b: Grid, a: Pos, m: Cell, k: int)
    requires OnBoard(a) && 0 <= k < 9
    ensures At(Place(b, a, m), k) == if k == Index(a) then m else At(b, k)
  {
    PosOfIndex(k);
    IndexOfPos(a);
    if k == Index(a) {
      assert PosOf(k) == a;
    } else {
      assert PosOf(k) != a;
    }
  }

  lemma TickCommutes(t: Tally, c: Cell, d: Cell)
    ensures Tick(Tick(t, c), d) == Tick(Tick(t, d), c)
  {
  }

  lemma {:induction false} PlaceCountFrom(b: Grid, a: Pos, m: Cell, k: int)
    requires OnBoard(a) && b[a.0][a.1] == Empty
    requires 0 <= k <= 9
    ensures k <= Index(a) ==> Tick(CountFrom(Place(b, a, m), k), Empty) == Tick(CountFrom(b, k), m)
    ensures k > Index(a) ==> CountFrom(Place(b, a, m), k) == CountFrom(b, k)
    decreases 9 - k
  {
    var b' := Place(b, a, m);
    IndexOfPos(a);
    if k < 9 {
      PlaceCountFrom(b, a, m, k + 1);
      PlaceAt(b, a, m, k);
      var t, t' := CountFrom(b, k + 1), CountFrom(b', k + 1);
      assert CountFrom(b, k) == Tick(t, At(b, k));
      assert CountFrom(b', k) == Tick(t', At(b', k));
      if k == Index(a) {
        assert At(b, k) == Empty && At(b', k) == m && t' == t;
        TickCommutes(t, m, Empty);
      } else if k < Index(a) {
        assert At(b', k) == At(b, k);
        TickCommutes(t', At(b, k), Empty);
        TickCommutes(t, At(b, k), m);
      }
    }
  }

  /** Placing m on an empty square turns one Empty into one m in the tally. */
  lemma PlaceCount(b: Grid, a: Pos, m: Cell)
    requires OnBoard(a) && b[a.0][a.1] == Empty && m != Empty
    ensures Count(Place(b, a, m)).empty == Count(b).empty - 1
    ensures Marks(Count(Place(b, a, m)), m) == Marks(Count(b), m) + 1
    ensures forall c :: c != m && c != Empty ==> Marks(Count(Place(b, a, m)), c) == Marks(Count(b), c)
  {
    PlaceCountFrom(b, a, m, 0);
  }

  // ---------------------------------------------------------------------------
  // winner
  // ---------------------------------------------------------------------------

  predicate RowFilled(b: Grid, m: Cell, i: int)
    requires 0 <= i < 3
  {
    forall j :: 0 <= j < 3 ==> b[i][j] == m
  }

  predicate ColumnFilled(b: Grid, m: Cell, i: int)
    requires 0 <= i < 3
  {
    forall j :: 0 <= j < 3 ==> b[j][i] == m
  }

  predicate DiagonalFilled(b: Grid, m: Cell)
  {
    forall j :: 0 <= j < 3 ==> b[j][j] == m
  }

  predicate AntiDiagonalFilled(b: Grid, m: Cell)
  {
    forall j :: 0 <= j < 3 ==> b[j][2 - j] == m
  }

  /** The outer loop of `winner` from iteration i on, looking for mark m. */
  function WinnerFrom(b: Grid, m: Cell, i: int): (w: Option<Cell>)
    requires 0 <= i <= 3
    ensures w.Some? ==> w.value == m
    ensures w.Some? <==> (exists r :: i <= r < 3 && (RowFilled(b, m, r) || ColumnFilled(b, m, r)))
                         || (i < 3 && (DiagonalFilled(b, m) || AntiDiagonalFilled(b, m)))
    decreases 3 - i
  {
    if i == 3 then None
    else if RowFilled(b, m, i) || ColumnFilled(b, m, i) || DiagonalFilled(b, m) || AntiDiagonalFilled(b, m) then Some(m)
    else WinnerFrom(b, m, i + 1)
  }

  /**
   * Lines 72-104: only the mark of the last mover is looked for, so the
   * winner is that mark exactly when it holds one of the eight lines, and is
   * never the player to move.
   */
  function Winner(b: Grid): (w: Option<Cell>)
    ensures w == if HasLine(b, Prev(b)) then Some(Prev(b)) else None
    ensures w != Some(Player(b))
  {
    LinesAreRowsColumnsDiagonals(b, Prev(b));
    WinnerFrom(b, Prev(b), 0)
  }

  /** The eight winning lines, written out: the reference for `Winner`. */
  const Lines: seq<seq<Pos>> := [
    [(0, 0), (0, 1), (0, 2)], [(1, 0), (1, 1), (1, 2)], [(2, 0), (2, 1), (2, 2)],
    [(0, 0), (1, 0), (2, 0)], [(0, 1), (1, 1), (2, 1)], [(0, 2), (1, 2), (2, 2)],
    [(0, 0), (1, 1), (2, 2)], [(0, 2), (1, 1), (2, 0)]
  ]

  predicate Holds(b: Grid, m: Cell, line: seq<Pos>)
  {
    forall t :: 0 <= t < |line| ==> OnBoard(line[t]) && b[line[t].0][line[t].1] == m
  }

  predicate HasLine(b: Grid, m: Cell)
  {
    exists k :: 0 <= k < |Lines| && Holds(b, m, Lines[k])
  }

  // ---------------------------------------------------------------------------
  // terminal and utility
  // ---------------------------------------------------------------------------

  /** Lines 107-118: the game is over exactly when the last mover has a line or no legal move is left. */
  function Terminal(b: Grid): (over: bool)
    ensures over <==> HasLine(b, Prev(b)) || Actions(b) == []
  {
    if Winner(b) != None then true
    else Count(b).empty == 0
  }

  function Utility(b: Grid): (u: int)
    ensures -1 <= u <= 1
  {
    if Winner(b) == Some(X) then 1
    else if Winner(b) == Some(O) then -1
    else 0
  }

  // ---------------------------------------------------------------------------
  // Properties
  // ---------------------------------------------------------------------------

  predicate AllEmpty(b: Grid)
  {
    forall i, j :: 0 <= i < 3 && 0 <= j < 3 ==> b[i][j] == Empty
  }

  lemma {:induction false} EmptyCountFrom(b: Grid, k: int)
    requires AllEmpty(b) && 0 <= k <= 9
    ensures CountFrom(b, k) == Tally(0, 0, 9 - k)
    decreases 9 - k
  {
    if k < 9 {
      EmptyCountFrom(b, k + 1);
      PosOfIndex(k);
      assert At(b, k) == b[PosOf(k).0][PosOf(k).1];
    }
  }

  /** On an empty grid no check of `winner` passes, for either mark. */
  lemma EmptyNoLine(b: Grid, m: Cell)
    requires AllEmpty(b) && m != Empty
    ensures WinnerFrom(b, m, 0) == None
  {
    assert b[0][0] == b[1][0] == b[2][0] == b[0][1] == b[0][2] == b[1][1] == Empty;
    assert !RowFilled(b, m, 0) && !RowFilled(b, m, 1) && !RowFilled(b, m, 2);
    assert !ColumnFilled(b, m, 0) && !ColumnFilled(b, m, 1) && !ColumnFilled(b, m, 2);
    assert !DiagonalFilled(b, m) && !AntiDiagonalFilled(b, m);
    assert WinnerFrom(b, m, 3) == None;
    assert WinnerFrom(b, m, 2) == None;
    assert WinnerFrom(b, m, 1) == None;
  }

  /** The starting board is an empty 3x3 grid on which X moves first and every square is a legal move. */
  lemma InitialStateFacts()
    ensures AllEmpty(InitialState())
    ensures Count(InitialState()) == Tally(0, 0, 9)
    ensures Player(InitialState()) == X
    ensures |Actions(InitialState())| == 9
    ensures !Terminal(InitialState())
  {
    var b := InitialState();
    InitialTally(b);
    EmptyNoLine(b, O);
  }

  /** The empty board's tally, and therefore its players: X to move, O moved last. */
  lemma InitialTally(b: Grid)
    requires b == InitialState()
    ensures Count(b) == Tally(0, 0, 9) && Player(b) == X && Prev(b) == O
  {
    EmptyCountFrom(b, 0);
  }

  /** O is to move exactly when X has more marks on the board than O. */
  lemma PlayerTurn(b: Grid)
    ensures Player(b) == O <==> Count(b).x > Count(b).o
    ensures Prev(b) == X <==> Count(b).x > Count(b).o
  {
    if b == InitialState() {
        EmptyCountFrom(b, 0);
    }
  }

  lemma {:induction false} SortedCard(s: seq<Pos>)
    requires forall p, q :: 0 <= p < q < |s| ==> Index(s[p]) < Index(s[q])
    ensures |set a | a in s| == |s|
  {
    if s != [] {
      SortedCard(s[1..]);
      assert (set a | a in s) == {s[0]} + (set a | a in s[1..]);
      assert s[0] !in s[1..];
    }
  }

  lemma InCells(b: Grid, c: Cell, a: Pos)
    ensures a in Cells(b, c) <==> OnBoard(a) && b[a.0][a.1] == c
  {
    if OnBoard(a) && b[a.0][a.1] == c {
      var i, j := a.0, a.1;
      assert (i, j) in Cells(b, c);
    }
  }

  /** The row-major list of squares holding c has exactly the elements of `Cells`. */
  lemma CellsFromIsCells(b: Grid, c: Cell)
    ensures (set a | a in CellsFrom(b, c, 0)) == Cells(b, c)
  {
    var r := CellsFrom(b, c, 0);
    forall a ensures a in r <==> a in Cells(b, c) {
      InCells(b, c, a);
      if OnBoard(a) {
        IndexOfPos(a);
      }
    }
  }

  /** The counter agrees with the number of squares holding each mark. */
  lemma CountIsCardinality(b: Grid, c: Cell)
    ensures Marks(Count(b), c) == |Cells(b, c)|
  {
    var r := CellsFrom(b, c, 0);
    assert |r| == Marks(Count(b), c);
    SortedCard(r);
    CellsFromIsCells(b, c);
  }

  /** The legal moves are exactly the empty squares, one for each EMPTY the counter reports. */
  lemma ActionsAreEmptySquares(b: Grid)
    ensures (set a | a in Actions(b)) == Cells(b, Empty)
    ensures |Cells(b, Empty)| == |Actions(b)| == Count(b).empty
  {
    CountIsCardinality(b, Empty);
    CellsFromIsCells(b, Empty);
  }

  /** The four checks the source's loop makes, over every row and column index. */
  predicate SomeCheckPasses(b: Grid, m: Cell)
  {
    (exists r :: 0 <= r < 3 && (RowFilled(b, m, r) || ColumnFilled(b, m, r)))
    || DiagonalFilled(b, m) || AntiDiagonalFilled(b, m)
  }

  lemma LineGivesCheck(b: Grid, m: Cell, k: int)
    requires 0 <= k < |Lines| && Holds(b, m, Lines[k])
    ensures SomeCheckPasses(b, m)
  {
    var l := Lines[k];
    assert b[l[0].0][l[0].1] == m && b[l[1].0][l[1].1] == m && b[l[2].0][l[2].1] == m;
    if k < 3 {
      assert l == [(k, 0), (k, 1), (k, 2)];
      assert RowFilled(b, m, k);
    } else if k < 6 {
      assert l == [(0, k - 3), (1, k - 3), (2, k - 3)];
      assert ColumnFilled(b, m, k - 3);
    } else if k == 6 {
      assert DiagonalFilled(b, m);
    } else {
      assert AntiDiagonalFilled(b, m);
    }
  }

  lemma CheckGivesLine(b: Grid, m: Cell)
    requires SomeCheckPasses(b, m)
    ensures HasLine(b, m)
  {
    if exists r :: 0 <= r < 3 && RowFilled(b, m, r) {
      var r :| 0 <= r < 3 && RowFilled(b, m, r);
      assert Lines[r] == [(r, 0), (r, 1), (r, 2)];
      assert Holds(b, m, Lines[r]);
    } else if exists r :: 0 <= r < 3 && ColumnFilled(b, m, r) {
      var r :| 0 <= r < 3 && ColumnFilled(b, m, r);
      assert Lines[3 + r] == [(0, r), (1, r), (2, r)];
      assert Holds(b, m, Lines[3 + r]);
    } else if DiagonalFilled(b, m) {
      assert Holds(b, m, Lines[6]);
    } else {
      assert Holds(b, m, Lines[7]);
    }
  }

  /** The row, column and diagonal checks of `winner` find exactly the eight lines. */
  lemma LinesAreRowsColumnsDiagonals(b: Grid, m: Cell)
    ensures HasLine(b, m) <==> SomeCheckPasses(b, m)
  {
    if HasLine(b, m) {
      var k :| 0 <= k < |Lines| && Holds(b, m, Lines[k]);
      LineGivesCheck(b, m, k);
    }
    if SomeCheckPasses(b, m) {
      CheckGivesLine(b, m);
    }
  }

  /** The score is +1 for a line of X, -1 for a line of O, 0 otherwise, looking at the last mover only. */
  lemma UtilityScoresLastMover(b: Grid)
    ensures Utility(b) == 1 <==> Prev(b) == X && HasLine(b, X)
    ensures Utility(b) == -1 <==> Prev(b) == O && HasLine(b, O)
    ensures Utility(b) == 0 <==> !HasLine(b, Prev(b))
  {
  }
}
