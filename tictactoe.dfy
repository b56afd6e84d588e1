/** The tic-tac-toe rules and minimax search of tictactoe/tictactoe.py.

    Boards are values: result builds a new board and leaves its argument as it
    was, which is what the source's deep copy achieves.  Exceptions the source
    raises are modelled as Outcome.Raised with the source's message.
 */
module TicTacToe {
  import opened Wrappers

  /** A cell holds X, O or EMPTY.  EMPTY is Python's None, which player and
      winner also return for "nobody"; the model writes it Empty throughout. */
  datatype Cell = X | O | Empty

  /** A 3 x 3 board, a list of three rows of three cells. */
  type Board = b: seq<seq<Cell>> | |b| == 3 && forall i :: 0 <= i < 3 ==> |b[i]| == 3
    witness [[Empty, Empty, Empty], [Empty, Empty, Empty], [Empty, Empty, Empty]]

  /** An action (i, j): the row and the column to mark. */
  type Action = (int, int)

  predicate OnBoard(a: Action)
  {
    0 <= a.0 < 3 && 0 <= a.1 < 3
  }

  const NotProper: string := "Board is not properly implemented"
  const SpotTaken: string := "Spot taken"

  /** initial_state: nine empty cells. */
  function InitialState(): (b: Board)
    ensures forall i, j :: 0 <= i < 3 && 0 <= j < 3 ==> b[i][j] == Empty
  {
    [[Empty, Empty, Empty], [Empty, Empty, Empty], [Empty, Empty, Empty]]
  }

  // ---------------------------------------------------------------- counting

  /** How many cells of a row hold c. */
  function CountRow(r: seq<Cell>, c: Cell): nat
  {
    if r == [] then 0 else CountRow(r[..|r| - 1], c) + (if r[|r| - 1] == c then 1 else 0)
  }

  /** How many cells of some rows hold c. */
  function CountRows(rows: seq<seq<Cell>>, c: Cell): nat
  {
    if rows == [] then 0 else CountRows(rows[..|rows| - 1], c) + CountRow(rows[|rows| - 1], c)
  }

  /** How many cells of a board hold c. */
  function Count(b: Board, c: Cell): nat
  {
    CountRows(b, c)
  }

  lemma CountRowPrefix(r: seq<Cell>, j: int, c: Cell)
    requires 0 <= j < |r|
    ensures CountRow(r[..j + 1], c) == CountRow(r[..j], c) + (if r[j] == c then 1 else 0)
  {
    assert r[..j + 1][..j] == r[..j];
  }

  lemma CountRowsPrefix(rows: seq<seq<Cell>>, i: int, c: Cell)
    requires 0 <= i < |rows|
    ensures CountRows(rows[..i + 1], c) == CountRows(rows[..i], c) + CountRow(rows[i], c)
  {
    assert rows[..i + 1][..i] == rows[..i];
  }

  /** Overwriting one cell of a row changes its count of c by at most one. */
  lemma {:induction false} CountRowUpdate(r: seq<Cell>, j: int, v: Cell, c: Cell)
    requires 0 <= j < |r|
    ensures CountRow(r[j := v], c) == CountRow(r, c) - (if r[j] == c then 1 else 0) + (if v == c then 1 else 0)
    decreases |r|
  {
    var n := |r|;
    if j < n - 1 {
      assert r[j := v][..n - 1] == r[..n - 1][j := v];
      CountRowUpdate(r[..n - 1], j, v, c);
    } else {
      assert r[j := v][..n - 1] == r[..n - 1];
    }
  }

  /** Replacing one row replaces its share of the count. */
  lemma {:induction false} CountRowsUpdate(rows: seq<seq<Cell>>, i: int, row: seq<Cell>, c: Cell)
    requires 0 <= i < |rows|
    ensures CountRows(rows[i := row], c) == CountRows(rows, c) - CountRow(rows[i], c) + CountRow(row, c)
    decreases |rows|
  {
    var n := |rows|;
    if i < n - 1 {
      assert rows[i := row][..n - 1] == rows[..n - 1][i := row];
      CountRowsUpdate(rows[..n - 1], i, row, c);
    } else {
      assert rows[i := row][..n - 1] == rows[..n - 1];
    }
  }

  /** No cell holds c, so the count of c is 0. */
  lemma {:induction false} CountRowAbsent(r: seq<Cell>, c: Cell)
    requires forall j :: 0 <= j < |r| ==> r[j] != c
    ensures CountRow(r, c) == 0
    decreases |r|
  {
    if r != [] {
      CountRowAbsent(r[..|r| - 1], c);
    }
  }

  lemma {:induction false} CountRowsAbsent(rows: seq<seq<Cell>>, c: Cell)
    requires forall i, j :: 0 <= i < |rows| && 0 <= j < |rows[i]| ==> rows[i][j] != c
    ensures CountRows(rows, c) == 0
    decreases |rows|
  {
    if rows != [] {
      CountRowAbsent(rows[|rows| - 1], c);
      CountRowsAbsent(rows[..|rows| - 1], c);
    }
  }

  // ------------------------------------------------------------------- moves

  /** The board with cell a overwritten by c and every other cell kept. */
  function Place(b: Board, a: Action, c: Cell): (r: Board)
    requires OnBoard(a)
    ensures forall i, j :: 0 <= i < 3 && 0 <= j < 3 ==> r[i][j] == if (i, j) == a then c else b[i][j]
  {
    b[a.0 := b[a.0][a.1 := c]]
  }

  /** Placing c on cell a adds one to the count of c and takes one from the
      count of what a held. */
  lemma PlaceCount(b: Board, a: Action, c: Cell, d: Cell)
    requires OnBoard(a)
    ensures Count(Place(b, a, c), d) == Count(b, d) - (if b[a.0][a.1] == d then 1 else 0) + (if c == d then 1 else 0)
  {
    CountRowUpdate(b[a.0], a.1, c, d);
    CountRowsUpdate(b, a.0, b[a.0][a.1 := c], d);
  }

  /** The cells that are EMPTY. */
  function EmptyCells(b: Board): (r: set<Action>)
    ensures forall a :: a in r <==> OnBoard(a) && b[a.0][a.1] == Empty
  {
    set i, j | 0 <= i < 3 && 0 <= j < 3 && b[i][j] == Empty :: (i, j)
  }

  /** actions: collects the empty cells, row by row. */
  method Actions(b: Board) returns (options: set<Action>)
    ensures options == EmptyCells(b)
  {
    options := {};
    for i := 0 to |b|
      invariant forall a :: a in options <==> OnBoard(a) && a.0 < i && b[a.0][a.1] == Empty
    {
      for j := 0 to |b[i]|
        invariant forall a :: a in options <==> OnBoard(a) && (a.0 < i || (a.0 == i && a.1 < j)) && b[a.0][a.1] == Empty
      {
        if b[i][j] == Empty {
          options := options + {(i, j)};
        }
      }
    }
  }

  // ------------------------------------------------------------------ winner

  /** The k-th line in the order winner checks them: rows 0 to 2, columns 0 to
      2, the main diagonal, then the other diagonal. */
  function Line(b: Board, k: int): (l: seq<Cell>)
    requires 0 <= k < 8
    ensures |l| == 3
  {
    if k < 3 then [b[k][0], b[k][1], b[k][2]]
    else if k < 6 then [b[0][k - 3], b[1][k - 3], b[2][k - 3]]
    else if k == 6 then [b[0][0], b[1][1], b[2][2]]
    else [b[0][2], b[1][1], b[2][0]]
  }

  /** The three cells of a line are equal (they may all be EMPTY). */
  predicate Uniform(l: seq<Cell>)
    requires |l| == 3
  {
    l[0] == l[1] && l[0] == l[2]
  }

  /** Some line holds c three times. */
  predicate HasLine(b: Board, c: Cell)
  {
    exists k :: 0 <= k < 8 && Line(b, k) == [c, c, c]
  }

  /** valid_winner: a mark is returned as it is, anything else becomes None. */
  function ValidWinner(c: Cell): (r: Cell)
    ensures r != Empty ==> r == c
    ensures c != Empty ==> r == c
  {
    if c.X? || c.O? then c else Empty
  }

  /** The scan of winner from line k on: the first uniform line decides, through
      valid_winner, even when its cells are EMPTY. */
  function WinnerFrom(b: Board, k: int): (w: Cell)
    requires 0 <= k <= 8
    ensures w != Empty ==> exists i :: k <= i < 8 && Line(b, i) == [w, w, w]
    decreases 8 - k
  {
    if k == 8 then Empty
    else if Uniform(Line(b, k)) then ValidWinner(Line(b, k)[0])
    else WinnerFrom(b, k + 1)
  }

  /** winner: a mark is only ever reported for a line of three of it. */
  function Winner(b: Board): (w: Cell)
    ensures w != Empty ==> HasLine(b, w)
  {
    WinnerFrom(b, 0)
  }

  lemma {:induction false} WinnerFromDecided(b: Board, k: int, c: Cell)
    requires 0 <= k <= 8 && c != Empty
    requires exists i :: k <= i < 8 && Line(b, i) == [c, c, c]
    requires forall i :: k <= i < 8 && Uniform(Line(b, i)) ==> Line(b, i)[0] == c
    ensures WinnerFrom(b, k) == c
    decreases 8 - k
  {
    if !Uniform(Line(b, k)) {
      assert Line(b, k) != [c, c, c];
      WinnerFromDecided(b, k + 1, c);
    }
  }

  /** Conversely: if c has a line and every complete line is c's, the winner
      is c. */
  lemma WinnerDecided(b: Board, c: Cell)
    requires c != Empty && HasLine(b, c)
    requires forall k :: 0 <= k < 8 && Uniform(Line(b, k)) ==> Line(b, k)[0] == c
    ensures Winner(b) == c
  {
    WinnerFromDecided(b, 0, c);
  }

  /** The scan stops at an EMPTY top row: X's complete middle row is not seen,
      so this board has no winner and is not over. */
  lemma EmptyTopRowHidesWin()
    ensures var b: Board := [[Empty, Empty, Empty], [X, X, X], [O, O, Empty]];
      HasLine(b, X) && Winner(b) == Empty && !Over(b)
  {
    var b: Board := [[Empty, Empty, Empty], [X, X, X], [O, O, Empty]];
    assert Line(b, 1) == [X, X, X];
    assert Uniform(Line(b, 0));
    assert b[0][0] == Empty;
  }

  // ---------------------------------------------------------- terminal, turn

  /** No cell is EMPTY. */
  predicate Full(b: Board)
  {
    forall i, j :: 0 <= i < 3 && 0 <= j < 3 ==> b[i][j] != Empty
  }

  /** The game is over: winner reports a mark, or the board is full. */
  predicate Over(b: Board)
  {
    Winner(b) != Empty || Full(b)
  }

  /** terminal: true when winner reports X or O; otherwise false at the first
      EMPTY cell; otherwise true. */
  method Terminal(b: Board) returns (t: bool)
    ensures t <==> Over(b)
  {
    if Winner(b) == X {
      return true;
    } else if Winner(b) == O {
      return true;
    }
    for i := 0 to |b|
      invariant forall i', j :: 0 <= i' < i && 0 <= j < 3 ==> b[i'][j] != Empty
    {
      var row := b[i];
      for j := 0 to |row|
        invariant forall j' :: 0 <= j' < j ==> row[j'] != Empty
      {
        if row[j] == Empty {
          return false;
        }
      }
    }
    return true;
  }

  /** A board that is not over has an empty cell to play. */
  lemma NonTerminalHasMoves(b: Board)
    requires !Over(b)
    ensures EmptyCells(b) != {}
  {
    var i, j :| 0 <= i < 3 && 0 <= j < 3 && b[i][j] == Empty;
    assert (i, j) in EmptyCells(b);
  }

  /** What player returns: None when the game is over, X when the marks are
      level, O when O is behind, and an exception when O is ahead. */
  function NextPlayer(b: Board): (r: Outcome<Cell>)
    ensures r == Ok(Empty) <==> Over(b)
    ensures r == Ok(X) <==> !Over(b) && Count(b, X) == Count(b, O)
    ensures r == Ok(O) <==> !Over(b) && Count(b, O) < Count(b, X)
    ensures r.Raised? <==> !Over(b) && Count(b, X) < Count(b, O)
    ensures r.Raised? ==> r.message == NotProper
    ensures r.Ok? && r.value != Empty ==> EmptyCells(b) != {}
  {
    if Over(b) then Ok(Empty)
    else
      NonTerminalHasMoves(b);
      if Count(b, X) == Count(b, O) then Ok(X)
      else if Count(b, O) < Count(b, X) then Ok(O)
      else Raised(NotProper)
  }

  /** player: counts the marks row by row, after asking terminal. */
  method Player(b: Board) returns (r: Outcome<Cell>)
    ensures r == NextPlayer(b)
  {
    var t := Terminal(b);
    if t {
      return Ok(Empty);
    }
    var x, o := 0, 0;
    for i := 0 to |b|
      invariant x == CountRows(b[..i], X) && o == CountRows(b[..i], O)
    {
      var row := b[i];
      for j := 0 to |row|
        invariant x == CountRows(b[..i], X) + CountRow(row[..j], X)
        invariant o == CountRows(b[..i], O) + CountRow(row[..j], O)
      {
        CountRowPrefix(row, j, X);
        CountRowPrefix(row, j, O);
        if row[j] == X {
          x := x + 1;
        } else if row[j] == O {
          o := o + 1;
        }
      }
      assert row[..|row|] == row;
      CountRowsPrefix(b, i, X);
      CountRowsPrefix(b, i, O);
    }
    assert b[..|b|] == b;
    if x == o {
      return Ok(X);
    } else if o < x {
      return Ok(O);
    } else {
      return Raised(NotProper);
    }
  }

  /** The empty board is not over and X moves first. */
  lemma InitialTurn()
    ensures NextPlayer(InitialState()) == Ok(X)
  {
    var b := InitialState();
    assert Uniform(Line(b, 0));
    assert !Full(b) by {
      assert b[0][0] == Empty;
    }
    CountRowsAbsent(b, X);
    CountRowsAbsent(b, O);
  }

  /** result: "Spot taken" unless the action is an empty cell; otherwise the
      board with that cell set to player(board), whose exception propagates. */
  method Result(b: Board, a: Action) returns (r: Outcome<Board>)
    ensures a !in EmptyCells(b) ==> r == Raised(SpotTaken)
    ensures a in EmptyCells(b) && NextPlayer(b).Raised? ==> r == Raised(NotProper)
    ensures a in EmptyCells(b) && NextPlayer(b).Ok? ==> r == Ok(Place(b, a, NextPlayer(b).value))
  {
    var options := Actions(b);
    if a !in options {
      return Raised(SpotTaken);
    }
    var resulting := b;
    var (row, column) := a;
    var p := Player(b);
    if p.Raised? {
      return Raised(p.message);
    }
    resulting := resulting[row := resulting[row][column := p.value]];
    return Ok(resulting);
  }

  /** utility: 1 for an X win, -1 for an O win, 0 otherwise. */
  function Utility(b: Board): (u: int)
    ensures u == 1 <==> Winner(b) == X
    ensures u == -1 <==> Winner(b) == O
    ensures u == 0 <==> Winner(b) == Empty
  {
    if Winner(b) == X then 1 else if Winner(b) == O then -1 else 0
  }

  // ------------------------------------------------------------------ search

  /** O has not moved more often than X; player never raises on such a board. */
  predicate Playable(b: Board)
  {
    Count(b, O) <= Count(b, X)
  }

  /** The mark player assigns when the game is not over. */
  function Mark(b: Board): Cell
  {
    if Count(b, X) == Count(b, O) then X else O
  }

  /** The board after the player to move marks a. */
  function Child(b: Board, a: Action): Board
    requires OnBoard(a)
  {
    Place(b, a, Mark(b))
  }

  /** On a playable board that is not over, player returns the mark; playing
      an empty cell keeps the board playable and uses up one empty cell. */
  lemma ChildStep(b: Board, a: Action)
    requires a in EmptyCells(b)
    ensures Count(Child(b, a), Empty) == Count(b, Empty) - 1
    ensures Playable(b) ==> Playable(Child(b, a))
    ensures Playable(b) && !Over(b) ==> NextPlayer(b) == Ok(Mark(b))
    ensures !Playable(b) && !Over(b) ==> NextPlayer(b) == Raised(NotProper)
  {
    ChildCount(b, a);
    PlaceCount(b, a, Mark(b), X);
    PlaceCount(b, a, Mark(b), O);
  }

  /** A move uses up one empty cell.  This is the first fact of ChildStep on
      its own: Best calls it for its termination measure, so that the recursive
      definition does not carry ChildStep's facts about the mark counts. */
  lemma ChildCount(b: Board, a: Action)
    requires a in EmptyCells(b)
    ensures Count(Child(b, a), Empty) == Count(b, Empty) - 1
  {
    PlaceCount(b, a, Mark(b), Empty);
  }

  /** X and O take turns while the marks stay level or X is one ahead. */
  lemma TurnsAlternate(b: Board, a: Action)
    requires Count(b, O) <= Count(b, X) <= Count(b, O) + 1
    requires !Over(b) && a in EmptyCells(b)
    ensures var c := Child(b, a);
      && Count(c, O) <= Count(c, X) <= Count(c, O) + 1
      && (!Over(c) ==> NextPlayer(c) == Ok(if NextPlayer(b) == Ok(X) then O else X))
  {
    PlaceCount(b, a, Mark(b), X);
    PlaceCount(b, a, Mark(b), O);
  }

  /** The minimax value of a board: its utility once the game is over, else
      the best value of a move for the maximising (X) or minimising (O) side,
      moves being the empty cells. */
  ghost function Value(b: Board, maximizing: bool): (v: int)
    ensures -1 <= v <= 1
    decreases Count(b, Empty), 1
  {
    if Over(b) then Utility(b)
    else
      NonTerminalHasMoves(b);
      Best(b, maximizing, EmptyCells(b))
  }

  /** Some move of a nonempty set, fixed once so that Best and the lemmas
      about it take the same one. */
  ghost function Pick(moves: set<Action>): (a: Action)
    requires moves != {}
    ensures a in moves
  {
    var a :| a in moves; a
  }

  /** The better of two values for the side to move. */
  function Better(maximizing: bool, x: int, y: int): int
  {
    if maximizing then (if x > y then x else y) else (if x < y then x else y)
  }

  /** The best of the values after the moves in moves: -2 or 2 (the source's
      starting best_outcome) when there are none. */
  ghost function Best(b: Board, maximizing: bool, moves: set<Action>): (v: int)
    requires !Over(b) && moves <= EmptyCells(b)
    ensures moves == {} ==> v == if maximizing then -2 else 2
    ensures moves != {} ==> -1 <= v <= 1
    decreases Count(b, Empty), 0, moves
  {
    if moves == {} then (if maximizing then -2 else 2)
    else
      var a := Pick(moves);
      ChildCount(b, a);
      Better(maximizing, Value(Child(b, a), !maximizing), Best(b, maximizing, moves - {a}))
  }

  /** The value after move a, for the side to move on b. */
  ghost function After(b: Board, maximizing: bool, a: Action): int
    requires a in EmptyCells(b)
  {
    Value(Child(b, a), !maximizing)
  }

  /** Best is attained by one of the moves and bounds all of them. */
  lemma {:induction false} BestIsExtreme(b: Board, maximizing: bool, moves: set<Action>)
    requires !Over(b) && moves <= EmptyCells(b)
    ensures moves != {} ==> exists a :: a in moves && Best(b, maximizing, moves) == After(b, maximizing, a)
    ensures forall a :: a in moves ==>
      if maximizing then After(b, maximizing, a) <= Best(b, maximizing, moves)
      else Best(b, maximizing, moves) <= After(b, maximizing, a)
    decreases moves
  {
    if moves != {} {
      var a := Pick(moves);
      BestIsExtreme(b, maximizing, moves - {a});
    }
  }

  /** A side that can complete a line of its own in one move has the best
      value it can have: 1 for X, -1 for O. */
  lemma ImmediateWin(b: Board, maximizing: bool, a: Action)
    requires !Over(b) && a in EmptyCells(b)
    requires Winner(Child(b, a)) == if maximizing then X else O
    ensures Value(b, maximizing) == if maximizing then 1 else -1
  {
    NonTerminalHasMoves(b);
    BestIsExtreme(b, maximizing, EmptyCells(b));
  }

  /** The running state of the loop of max_value (maximizing) or min_value
      after the moves in done: best_move is unset while done is empty, and
      otherwise a move of done whose value is best_outcome, which is at least
      (at most) the value of every move of done. */
  ghost predicate BestSoFar(b: Board, maximizing: bool, done: set<Action>, best: int, bestMove: Option<Action>)
    requires done <= EmptyCells(b)
  {
    && (done == {} <==> bestMove == None)
    && (done == {} ==> best == if maximizing then -2 else 2)
    && (bestMove.Some? ==> bestMove.value in done && best == After(b, maximizing, bestMove.value))
    && (forall a :: a in done ==>
          if maximizing then After(b, maximizing, a) <= best else best <= After(b, maximizing, a))
  }

  /** One turn of the loop: the move's value replaces the best so far when it
      is strictly better; values lie in [-1, 1], so the first move always
      replaces the starting -2 or 2. */
  lemma BestSoFarStep(b: Board, maximizing: bool, done: set<Action>, best: int, bestMove: Option<Action>, move: Action, v: int)
    requires done <= EmptyCells(b) && move in EmptyCells(b)
    requires BestSoFar(b, maximizing, done, best, bestMove)
    requires v == After(b, maximizing, move)
    ensures var better := if maximizing then v > best else v < best;
      BestSoFar(b, maximizing, done + {move}, if better then v else best, if better then Some(move) else bestMove)
  {
  }

  /** Once every move has been seen, the best so far is the board's value. */
  lemma BestSoFarDone(b: Board, maximizing: bool, best: int, bestMove: Option<Action>)
    requires !Over(b)
    requires BestSoFar(b, maximizing, EmptyCells(b), best, bestMove)
    ensures bestMove.Some? && best == Value(b, maximizing)
  {
    var moves := EmptyCells(b);
    NonTerminalHasMoves(b);
    BestIsExtreme(b, maximizing, moves);
    var v := Best(b, maximizing, moves);
    assert Value(b, maximizing) == v;
    var a0 :| a0 in moves && v == After(b, maximizing, a0);
    var chosen := bestMove.value;
    assert chosen in moves && best == After(b, maximizing, chosen);
    if maximizing {
      assert After(b, maximizing, a0) <= best && After(b, maximizing, chosen) <= v;
    } else {
      assert best <= After(b, maximizing, a0) && v <= After(b, maximizing, chosen);
    }
  }

  /** Visiting one more element of todo moves it to the visited part. */
  lemma VisitOne<T>(all: set<T>, todo: set<T>, x: T)
    requires x in todo && todo <= all
    ensures all - (todo - {x}) == (all - todo) + {x}
  {
  }

  /** A score and the move that reaches it, as max_value and min_value return. */
  datatype Scored = Scored(value: int, move: Option<Action>)

  /** max_value: the utility of a finished board, else the highest min_value
      over the moves, with the first move that reaches it. */
  method MaxValue(b: Board) returns (r: Outcome<Scored>)
    ensures Over(b) ==> r == Ok(Scored(Utility(b), None))
    ensures !Over(b) && !Playable(b) ==> r == Raised(NotProper)
    ensures !Over(b) && Playable(b) ==>
      && r.Ok? && r.value.value == Value(b, true)
      && r.value.move.Some? && r.value.move.value in EmptyCells(b)
      && After(b, true, r.value.move.value) == Value(b, true)
    decreases Count(b, Empty)
  {
    var t := Terminal(b);
    if t {
      return Ok(Scored(Utility(b), None));
    }
    var moves := Actions(b);
    NonTerminalHasMoves(b);
    var bestOutcome := -2;
    var bestMove: Option<Action> := None;
    var todo := moves;
    while todo != {}
      invariant todo <= moves
      invariant !Playable(b) ==> todo == moves
      invariant BestSoFar(b, true, moves - todo, bestOutcome, bestMove)
      decreases todo
    {
      var move :| move in todo;
      ChildStep(b, move);
      var next := Result(b, move);
      if next.Raised? {
        return Raised(next.message);
      }
      assert next.value == Child(b, move);
      var sub := MinValue(next.value);
      var oppOutcome := sub.value.value;
      BestSoFarStep(b, true, moves - todo, bestOutcome, bestMove, move, oppOutcome);
      if oppOutcome > bestOutcome {
        bestOutcome, bestMove := oppOutcome, Some(move);
      }
      VisitOne(moves, todo, move);
      todo := todo - {move};
    }
    BestSoFarDone(b, true, bestOutcome, bestMove);
    return Ok(Scored(bestOutcome, bestMove));
  }

  /** min_value: the utility of a finished board, else the lowest max_value
      over the moves, with the first move that reaches it. */
  method MinValue(b: Board) returns (r: Outcome<Scored>)
    ensures Over(b) ==> r == Ok(Scored(Utility(b), None))
    ensures !Over(b) && !Playable(b) ==> r == Raised(NotProper)
    ensures !Over(b) && Playable(b) ==>
      && r.Ok? && r.value.value == Value(b, false)
      && r.value.move.Some? && r.value.move.value in EmptyCells(b)
      && After(b, false, r.value.move.value) == Value(b, false)
    decreases Count(b, Empty)
  {
    var t := Terminal(b);
    if t {
      return Ok(Scored(Utility(b), None));
    }
    var moves := Actions(b);
    NonTerminalHasMoves(b);
    var bestOutcome := 2;
    var bestMove: Option<Action> := None;
    var todo := moves;
    while todo != {}
      invariant todo <= moves
      invariant !Playable(b) ==> todo == moves
      invariant BestSoFar(b, false, moves - todo, bestOutcome, bestMove)
      decreases todo
    {
      var move :| move in todo;
      ChildStep(b, move);
      var next := Result(b, move);
      if next.Raised? {
        return Raised(next.message);
      }
      assert next.value == Child(b, move);
      var sub := MaxValue(next.value);
      var oppOutcome := sub.value.value;
      BestSoFarStep(b, false, moves - todo, bestOutcome, bestMove, move, oppOutcome);
      if oppOutcome < bestOutcome {
        bestOutcome, bestMove := oppOutcome, Some(move);
      }
      VisitOne(moves, todo, move);
      todo := todo - {move};
    }
    BestSoFarDone(b, false, bestOutcome, bestMove);
    return Ok(Scored(bestOutcome, bestMove));
  }

  /** minimax: None on a finished board; otherwise the move max_value (for X)
      or min_value (for O) chooses, which is an empty cell achieving the
      board's minimax value.  player's exception propagates. */
  method Minimax(b: Board) returns (r: Outcome<Option<Action>>)
    ensures Over(b) ==> r == Ok(None)
    ensures !Over(b) && !Playable(b) ==> r == Raised(NotProper)
    ensures !Over(b) && Playable(b) ==>
      && r.Ok? && r.value.Some? && r.value.value in EmptyCells(b)
      && After(b, Mark(b) == X, r.value.value) == Value(b, Mark(b) == X)
  {
    var t := Terminal(b);
    if t {
      return Ok(None);
    }
    var p := Player(b);
    if p.Raised? {
      return Raised(p.message);
    }
    if p.value == X {
      var s := MaxValue(b);
      return Ok(s.value.move);
    } else {
      var s := MinValue(b);
      return Ok(s.value.move);
    }
  }
}
