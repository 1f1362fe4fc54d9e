/** The TicTacToe class: one game whose board, turn, game-over flag,
    winner and move count are fields that make_move updates. MakeMove and
    Valid are tied to the value-level model in Rules through Model(); the
    queries are stated over the board field and the Board functions. */
module Engine {
  import opened Board
  import opened Rules

  /** What serialize returns: the board, the scalar fields, the free cells
      and the text rendering. */
  datatype Snapshot = Snapshot(
    board: Grid,
    currentPlayer: Player,
    gameOver: bool,
    winner: Option<Player>,
    moveCount: int,
    availableMoves: seq<Pos>,
    boardString: string)

  class TicTacToe {
    var board: Grid
    var currentPlayer: Player
    var gameOver: bool
    var winner: Option<Player>
    var moveCount: int

    /** The fields hold a 3x3 board and describe a state that play can
        reach from a new game (so Rules.Consistent holds of them). */
    ghost predicate Valid()
      reads this
    {
      WellFormed(board) && Reached(Model())
    }

    /** The object's state as a Rules.State value. */
    function Model(): (s: State)
      reads this
    {
      State(board, currentPlayer, gameOver, winner, moveCount)
    }

    /** A new game: a fresh empty board, X to move, nothing played. */
    constructor ()
      ensures Valid()
      ensures Model() == Initial()
    {
      board := EmptyGrid();
      currentPlayer := X;
      gameOver := false;
      winner := None;
      moveCount := 0;
      InitialReached();
    }

    /** available_moves: the empty cells, each once, in row-major order. */
    function AvailableMoves(): (moves: seq<Pos>)
      reads this
      requires Valid()
      ensures forall x, y {:trigger (x, y) in moves} :: (x, y) in moves <==> InBounds(x, y) && board[x][y] == Empty
      ensures RowMajor(moves)
      ensures |moves| == 9 - moveCount
    {
      ReachedIsConsistent(Model());
      Available(board)
    }

    /** check_winner: whether the current player owns the row or the column
        through (row, col), or a diagonal that passes through it. */
    function CheckWinner(row: int, col: int): (won: bool)
      reads this
      requires WellFormed(board) && InBounds(row, col)
      ensures won <==> LineThrough(board, row, col, currentPlayer)
      ensures won == WinsThrough(board, row, col, currentPlayer)
    {
      var b, p := board, Mark(currentPlayer);
      WinsThroughIff(b, row, col, currentPlayer);
      (b[row][0] == p && b[row][1] == p && b[row][2] == p) ||
      (b[0][col] == p && b[1][col] == p && b[2][col] == p) ||
      (row == col && b[0][0] == p && b[1][1] == p && b[2][2] == p) ||
      (row + col == 2 && b[0][2] == p && b[1][1] == p && b[2][0] == p)
    }

    /** make_move(row, col): does to the object what Rules.Play does to its
        model and returns the record Rules.Report builds for the outcome. */
    method MakeMove(row: int, col: int) returns (result: MoveResult)
      requires Valid()
      modifies this
      ensures Valid()
      ensures var (t, o) := Play(old(Model()), row, col);
              Model() == t && result == Report(o)
    {
      if gameOver {
        return Report(GameAlreadyOver);
      }
      if !(0 <= row < 3 && 0 <= col < 3) || board[row][col] != Empty {
        return Report(InvalidMove);
      }
      ghost var s := Model();
      board := board[row := board[row][col := Mark(currentPlayer)]];
      moveCount := moveCount + 1;
      assert Model() == State(Place(s.board, row, col, Mark(s.current)), s.current, false, s.winner, s.moves + 1);
      if CheckWinner(row, col) {
        gameOver := true;
        winner := Some(currentPlayer);
        result := Report(Win(currentPlayer));
      } else if moveCount == 9 {
        gameOver := true;
        result := Report(Draw);
      } else {
        currentPlayer := if currentPlayer == X then O else X;
        result := Report(NextTurn(currentPlayer));
      }
      ReachedAfterPlay(s, row, col);
    }

    /** pretty_board: the column header, then each row with its number,
        rows separated by a rule, the lines joined by newlines. */
    method PrettyBoard() returns (text: string)
      requires WellFormed(board)
      ensures text == Render(board)
    {
      var lines := [Header];
      for r := 0 to 3
        invariant lines == RenderLines(board, r)
      {
        var cells := [[CellChar(board[r][0])], [CellChar(board[r][1])], [CellChar(board[r][2])]];
        var row := ["012"[r], ' '] + Join(cells, " | ");
        JoinThree(cells[0], cells[1], cells[2], " | ");
        assert row == RowText(board, r);
        lines := lines + [row];
        if r < 2 {
          lines := lines + [Separator];
        }
      }
      text := Join(lines, "\n");
    }

    /** serialize: a snapshot of the game. Its rendering reads back as its
        board, and its free cells and move count add up to nine. */
    method Serialize() returns (snap: Snapshot)
      requires Valid()
      ensures snap.board == board && snap.currentPlayer == currentPlayer
      ensures snap.gameOver == gameOver && snap.winner == winner && snap.moveCount == moveCount
      ensures snap.availableMoves == AvailableMoves()
      ensures snap.boardString == Render(snap.board)
      ensures |snap.availableMoves| + snap.moveCount == 9
      ensures |snap.boardString| == 75 && ReadBoard(snap.boardString) == snap.board
    {
      var text := PrettyBoard();
      RenderRoundTrip(board);
      snap := Snapshot(board, currentPlayer, gameOver, winner, moveCount, AvailableMoves(), text);
    }
  }
}
