/** The rules of one game as a state machine on values: the state the
    engine keeps, what make_move does to it, the invariant every reachable
    state satisfies, and what holds of whole sequences of moves. */
module Rules {
  import opened Board

  /** The engine's fields: board, current_player, game_over, winner and
      move_count. */
  datatype State = State(board: Grid, current: Player, over: bool, winner: Option<Player>, moves: int)

  /** What one make_move call reports. The first two are the refusals. */
  datatype Outcome =
    | GameAlreadyOver
    | InvalidMove
    | Win(player: Player)
    | Draw
    | NextTurn(next: Player)
  {
    predicate Success() {
      !GameAlreadyOver? && !InvalidMove?
    }
  }

  /** The result record make_move returns. A refusal carries only success
      and message; an accepted move also carries game_over and winner, and
      winner may be present but None. */
  datatype MoveResult = MoveResult(success: bool, message: string, gameOver: Option<bool>, winner: Option<Option<Player>>)

  function PlayerName(p: Player): string {
    if p == X then "X" else "O"
  }

  /** The record make_move returns for an outcome, with the engine's messages. */
  function Report(o: Outcome): (r: MoveResult)
    ensures r.success == o.Success()
    ensures r.gameOver.Some? == r.success && r.winner.Some? == r.success
    ensures r.success ==> (r.gameOver == Some(true) <==> !o.NextTurn?)
    ensures r.success ==> (r.winner == Some(None) <==> !o.Win?)
  {
    match o
    case GameAlreadyOver => MoveResult(false, "Game is already over!", None, None)
    case InvalidMove => MoveResult(false, "Invalid move! Cell is occupied or out of bounds", None, None)
    case Win(p) => MoveResult(true, "Player " + PlayerName(p) + " wins!", Some(true), Some(Some(p)))
    case Draw => MoveResult(true, "Draw!", Some(true), Some(None))
    case NextTurn(p) => MoveResult(true, "Move successful! Next player: " + PlayerName(p), Some(false), Some(None))
  }

  /** Different outcomes give different records: the record tells the
      caller exactly what happened. */
  lemma ReportIsFaithful(o1: Outcome, o2: Outcome)
    requires Report(o1) == Report(o2)
    ensures o1 == o2
  {
    var m1, m2 := Report(o1).message, Report(o2).message;
    if o1.GameAlreadyOver? || o1.InvalidMove? {
      assert m1[0] == m2[0] && m1[1] == m2[1];
    } else if o1.NextTurn? && o2.NextTurn? {
      assert m1[|m1| - 1] == m2[|m2| - 1];
    } else if o1.Win? && o2.Win? {
      assert m1[7] == m2[7];
    }
  }

  /** The player to move after n accepted moves of a game that is still on:
      X first, then alternating. */
  function ToMove(n: int): Player {
    if n % 2 == 0 then X else O
  }

  /** A freshly constructed engine: empty board, X to move, no moves, not
      over, no winner. */
  function Initial(): (s: State)
    ensures WellFormed(s.board) && Marks(s.board) == 0
  {
    EmptyGridCounts(Mark(X));
    EmptyGridCounts(Mark(O));
    State(EmptyGrid(), X, false, None, 0)
  }

  /** make_move(row, col). The guards come in a fixed order: a finished
      game refuses every move, even an out-of-range one; then a move off
      the board or onto a marked cell is refused. A refusal leaves the
      state as it was. An accepted move writes the mover's mark, counts
      the move, ends the game on a win through the new mark or on the
      ninth move, and otherwise hands the turn to the other player. */
  function Play(s: State, row: int, col: int): (r: (State, Outcome))
    requires WellFormed(s.board)
    ensures WellFormed(r.0.board)
    ensures s.over ==> r.1 == GameAlreadyOver
    ensures !s.over && !(InBounds(row, col) && s.board[row][col] == Empty) ==> r.1 == InvalidMove
    ensures !r.1.Success() ==> r.0 == s
    ensures r.1.Success() ==> InBounds(row, col) && r.0.board == Place(s.board, row, col, Mark(s.current))
    ensures r.1.Success() ==> r.0.moves == s.moves + 1
    ensures s.over ==> r.0.over
  {
    if s.over then (s, GameAlreadyOver)
    else if !InBounds(row, col) || s.board[row][col] != Empty then (s, InvalidMove)
    else
      var p := s.current;
      var b := Place(s.board, row, col, Mark(p));
      var n := s.moves + 1;
      if WinsThrough(b, row, col, p) then (State(b, p, true, Some(p), n), Win(p))
      else if n == 9 then (State(b, p, true, s.winner, n), Draw)
      else (State(b, Other(p), false, s.winner, n), NextTurn(Other(p)))
  }

  /** The three ways an accepted move ends. A move completing a line
      through the new mark ends the game with the mover as winner and the
      turn not passed on; otherwise the ninth move ends it as a draw with
      the winner left as it was; otherwise the other player is to move. */
  lemma AcceptedMoveEffects(s: State, row: int, col: int)
    requires WellFormed(s.board) && !s.over && InBounds(row, col) && s.board[row][col] == Empty
    ensures var (t, o) := Play(s, row, col);
            && o.Success()
            && (o.Win? <==> WinsThrough(t.board, row, col, s.current))
            && (o.Win? ==> o.player == s.current && t.over && t.winner == Some(s.current) && t.current == s.current)
            && (o.Draw? <==> !o.Win? && s.moves + 1 == 9)
            && (o.Draw? ==> t.over && t.winner == s.winner && t.current == s.current)
            && (o.NextTurn? <==> !o.Win? && !o.Draw?)
            && (o.NextTurn? ==> !t.over && t.winner == s.winner && t.current == Other(s.current) && o.next == t.current)
  {
  }

  /** What holds of every state a game can reach from Initial(): the move
      count is the number of marks; X has as many marks as O or one more;
      the player to move alternates with the count; an open game has no
      complete line; a won game has exactly the winner's line and the
      winner is the last mover; a drawn game is full with no line. */
  ghost predicate Consistent(s: State) {
    && WellFormed(s.board)
    && s.moves == Marks(s.board)
    && 0 <= s.moves <= 9
    && Count(s.board, Mark(X)) == Count(s.board, Mark(O)) + s.moves % 2
    && (if s.over then 1 <= s.moves && s.current == ToMove(s.moves - 1)
        else s.moves < 9 && s.current == ToMove(s.moves))
    && (!s.over ==> s.winner == None && !HasLine(s.board, X) && !HasLine(s.board, O))
    && (s.over && s.winner != None ==>
          s.winner == Some(s.current) && HasLine(s.board, s.current) && !HasLine(s.board, Other(s.current)))
    && (s.over && s.winner == None ==> s.moves == 9 && !HasLine(s.board, X) && !HasLine(s.board, O))
  }

  lemma InitialConsistent()
    ensures Consistent(Initial())
  {
    var b := Initial().board;
    forall q: Player, i | 0 <= i < 8
      ensures !Owns(b, i, q)
    {
      if i < 3 {
        assert OnLine(i, i, 0);
      } else if i < 6 {
        assert OnLine(i, 0, i - 3);
      } else {
        assert OnLine(i, 0, 2 * (i - 6));
      }
    }
  }

  /** An accepted move on an open game: the lines after it are those
      before it plus, for the mover only, the lines through the new mark. */
  lemma LinesAfterMove(s: State, row: int, col: int)
    requires Consistent(s) && !s.over && InBounds(row, col) && s.board[row][col] == Empty
    ensures var b := Place(s.board, row, col, Mark(s.current));
            && (HasLine(b, s.current) <==> WinsThrough(b, row, col, s.current))
            && !HasLine(b, Other(s.current))
  {
    var p := s.current;
    var b := Place(s.board, row, col, Mark(p));
    WinsThroughIff(b, row, col, p);
    if HasLine(b, p) {
      HasLineAfterPlace(s.board, row, col, p, p);
    }
    if LineThrough(b, row, col, p) {
      var i :| 0 <= i < 8 && OnLine(i, row, col) && Owns(b, i, p);
      assert HasLine(b, p);
    }
    if HasLine(b, Other(p)) {
      HasLineAfterPlace(s.board, row, col, p, Other(p));
    }
  }

  /** An accepted move on an open game adds one mark for the mover, which
      keeps X's lead over O at the parity of the move count. */
  lemma CountsAfterMove(s: State, row: int, col: int)
    requires Consistent(s) && !s.over && InBounds(row, col) && s.board[row][col] == Empty
    ensures var b := Place(s.board, row, col, Mark(s.current));
            && Marks(b) == s.moves + 1
            && Count(b, Mark(X)) == Count(b, Mark(O)) + (s.moves + 1) % 2
  {
    PlaceCounts(s.board, row, col, Mark(s.current), Mark(X));
    PlaceCounts(s.board, row, col, Mark(s.current), Mark(O));
  }

  /** The state after a winning move is consistent. */
  lemma WinKeepsConsistent(s: State, row: int, col: int)
    requires Consistent(s) && !s.over && InBounds(row, col) && s.board[row][col] == Empty
    requires WinsThrough(Place(s.board, row, col, Mark(s.current)), row, col, s.current)
    ensures Consistent(State(Place(s.board, row, col, Mark(s.current)), s.current, true, Some(s.current), s.moves + 1))
  {
    CountsAfterMove(s, row, col);
    LinesAfterMove(s, row, col);
  }

  /** The state after a ninth move that wins nothing is consistent. */
  lemma DrawKeepsConsistent(s: State, row: int, col: int)
    requires Consistent(s) && !s.over && InBounds(row, col) && s.board[row][col] == Empty
    requires !WinsThrough(Place(s.board, row, col, Mark(s.current)), row, col, s.current) && s.moves == 8
    ensures Consistent(State(Place(s.board, row, col, Mark(s.current)), s.current, true, None, 9))
  {
    CountsAfterMove(s, row, col);
    LinesAfterMove(s, row, col);
    assert s.current == X || s.current == O;
  }

  /** The state after an ordinary move, with the turn passed on, is consistent. */
  lemma NextKeepsConsistent(s: State, row: int, col: int)
    requires Consistent(s) && !s.over && InBounds(row, col) && s.board[row][col] == Empty
    requires !WinsThrough(Place(s.board, row, col, Mark(s.current)), row, col, s.current) && s.moves < 8
    ensures Consistent(State(Place(s.board, row, col, Mark(s.current)), Other(s.current), false, None, s.moves + 1))
  {
    CountsAfterMove(s, row, col);
    LinesAfterMove(s, row, col);
    assert s.current == X || s.current == O;
  }

  /** make_move keeps the invariant. */
  lemma PlayKeepsConsistent(s: State, row: int, col: int)
    requires Consistent(s)
    ensures Consistent(Play(s, row, col).0)
  {
    if !s.over && InBounds(row, col) && s.board[row][col] == Empty {
      var b := Place(s.board, row, col, Mark(s.current));
      if WinsThrough(b, row, col, s.current) {
        WinKeepsConsistent(s, row, col);
      } else if s.moves + 1 == 9 {
        DrawKeepsConsistent(s, row, col);
      } else {
        NextKeepsConsistent(s, row, col);
      }
    }
  }

  /** Win detection is complete and never early: on an open game, an
      accepted move is reported as a win exactly when it completes a line,
      and then the line is the mover's. */
  lemma WinExactlyOnCompletion(s: State, row: int, col: int)
    requires Consistent(s) && !s.over && InBounds(row, col) && s.board[row][col] == Empty
    ensures !HasLine(s.board, X) && !HasLine(s.board, O)
    ensures var (t, o) := Play(s, row, col);
            && (o.Win? <==> HasLine(t.board, X) || HasLine(t.board, O))
            && (o.Win? ==> o.player == s.current && t.winner == Some(s.current) && t.over)
  {
    LinesAfterMove(s, row, col);
    assert s.current == X || s.current == O;
  }

  /** A draw happens exactly when the ninth mark completes no line; the
      game is then over with no winner and the message "Draw!". */
  lemma DrawExactlyOnFullBoard(s: State, row: int, col: int)
    requires Consistent(s) && !s.over && InBounds(row, col) && s.board[row][col] == Empty
    ensures var (t, o) := Play(s, row, col);
            && (o == Draw <==> t.moves == 9 && !HasLine(t.board, X) && !HasLine(t.board, O))
            && (o == Draw ==> t.over && t.winner == None && Marks(t.board) == 9 && Report(o).message == "Draw!")
  {
    LinesAfterMove(s, row, col);
    PlayKeepsConsistent(s, row, col);
    assert s.current == X || s.current == O;
  }

  /** On an open game an accepted move that neither wins nor fills the
      board passes the turn to the other player. */
  lemma TurnPasses(s: State, row: int, col: int)
    requires Consistent(s) && !s.over && InBounds(row, col) && s.board[row][col] == Empty
    ensures var (t, o) := Play(s, row, col);
            !t.over ==> o == NextTurn(Other(s.current)) && t.current == Other(s.current) && t.current == ToMove(t.moves)
  {
    PlayKeepsConsistent(s, row, col);
  }

  // ----- sequences of moves -----

  /** Applies make_move to each position in turn; yields the final state
      and every outcome. */
  function Run(s: State, ms: seq<Pos>): (r: (State, seq<Outcome>))
    requires WellFormed(s.board)
    ensures WellFormed(r.0.board) && |r.1| == |ms|
    decreases |ms|
  {
    if ms == [] then (s, [])
    else
      var (t, o) := Play(s, ms[0].0, ms[0].1);
      var (u, os) := Run(t, ms[1..]);
      (u, [o] + os)
  }

  /** Number of accepted moves among some outcomes. */
  function Accepted(os: seq<Outcome>): nat {
    if os == [] then 0 else (if os[0].Success() then 1 else 0) + Accepted(os[1..])
  }

  /** Every state reached from a consistent one is consistent. */
  lemma {:induction false} RunKeepsConsistent(s: State, ms: seq<Pos>)
    requires Consistent(s)
    ensures Consistent(Run(s, ms).0)
    decreases |ms|
  {
    if ms != [] {
      PlayKeepsConsistent(s, ms[0].0, ms[0].1);
      RunKeepsConsistent(Play(s, ms[0].0, ms[0].1).0, ms[1..]);
    }
  }

  /** Every state a game can reach satisfies the invariant. */
  lemma Reachable(ms: seq<Pos>)
    ensures Consistent(Run(Initial(), ms).0)
  {
    InitialConsistent();
    RunKeepsConsistent(Initial(), ms);
  }

  /** move_count counts exactly the accepted moves. */
  lemma {:induction false} RunCountsAccepted(s: State, ms: seq<Pos>)
    requires WellFormed(s.board)
    ensures Run(s, ms).0.moves == s.moves + Accepted(Run(s, ms).1)
    decreases |ms|
  {
    if ms != [] {
      var (t, o) := Play(s, ms[0].0, ms[0].1);
      RunCountsAccepted(t, ms[1..]);
      assert Run(s, ms).1 == [o] + Run(t, ms[1..]).1;
    }
  }

  /** Turn alternation: from a new game, after n accepted moves of a game
      that is still on, X is to move when n is even and O when n is odd. */
  lemma TurnAlternation(ms: seq<Pos>)
    ensures var (t, os) := Run(Initial(), ms);
            t.moves == Accepted(os) && (!t.over ==> t.current == ToMove(Accepted(os)))
  {
    Reachable(ms);
    RunCountsAccepted(Initial(), ms);
  }

  /** Once the game is over every further move is refused with
      GameAlreadyOver and nothing changes. */
  lemma {:induction false} OverIsFinal(s: State, ms: seq<Pos>)
    requires WellFormed(s.board) && s.over
    ensures Run(s, ms).0 == s
    ensures forall k :: 0 <= k < |ms| ==> Run(s, ms).1[k] == GameAlreadyOver
    decreases |ms|
  {
    if ms != [] {
      OverIsFinal(s, ms[1..]);
      assert Run(s, ms).1 == [GameAlreadyOver] + Run(s, ms[1..]).1;
    }
  }

  /** No double occupancy: a marked cell keeps its mark for the rest of
      the game. */
  lemma {:induction false} MarksArePermanent(s: State, ms: seq<Pos>, r: int, c: int)
    requires WellFormed(s.board) && InBounds(r, c) && s.board[r][c] != Empty
    ensures Run(s, ms).0.board[r][c] == s.board[r][c]
    decreases |ms|
  {
    if ms != [] {
      var t := Play(s, ms[0].0, ms[0].1).0;
      MarksArePermanent(t, ms[1..], r, c);
    }
  }

  // ----- concrete games -----

  /** One step of `Run`, on a move list given as head and tail. */
  lemma RunCons(s: State, m: Pos, rest: seq<Pos>)
    requires WellFormed(s.board)
    ensures var (t, o) := Play(s, m.0, m.1);
            Run(s, [m] + rest) == (Run(t, rest).0, [o] + Run(t, rest).1)
  {
    assert ([m] + rest)[1..] == rest;
  }

  /** Playing two move lists one after the other is playing their
      concatenation. */
  lemma {:induction false} RunAppend(s: State, a: seq<Pos>, b: seq<Pos>)
    requires WellFormed(s.board)
    ensures var (t, os) := Run(s, a);
            Run(s, a + b) == (Run(t, b).0, os + Run(t, b).1)
    decreases |a|
  {
    if a == [] {
      assert a + b == b && [] + Run(s, b).1 == Run(s, b).1;
    } else {
      var (t, o) := Play(s, a[0].0, a[0].1);
      assert (a + b)[0] == a[0] && (a + b)[1..] == a[1..] + b;
      RunAppend(t, a[1..], b);
      var (u, os) := Run(t, a[1..]);
      assert [o] + (os + Run(u, b).1) == ([o] + os) + Run(u, b).1;
    }
  }

  // ----- reachable states -----

  /** Playing ms on a new game ends in s. */
  ghost predicate Replays(ms: seq<Pos>, s: State) {
    Run(Initial(), ms).0 == s
  }

  /** A state that some sequence of make_move calls produces from a new game. */
  ghost predicate Reached(s: State) {
    exists ms: seq<Pos> :: Replays(ms, s)
  }

  /** A new game is reached by playing nothing. */
  lemma InitialReached()
    ensures Reached(Initial())
  {
    assert Replays([], Initial());
  }

  /** Every reached state satisfies the invariant. */
  lemma ReachedIsConsistent(s: State)
    requires Reached(s)
    ensures Consistent(s)
  {
    var ms :| Replays(ms, s);
    Reachable(ms);
  }

  /** What a session summary of a reached state can show: a move count
      between 0 and 9, a winner only in a finished game and then the
      player who made the last move, and in an open game the player the
      count gives. */
  predicate Plausible(s: State) {
    && 0 <= s.moves <= 9
    && (s.winner.Some? ==> s.over && s.winner == Some(s.current))
    && (!s.over ==> s.current == ToMove(s.moves))
  }

  lemma ReachedIsPlausible(s: State)
    requires Reached(s)
    ensures Plausible(s)
  {
    ReachedIsConsistent(s);
  }

  /** One more make_move call from a reached state reaches a state too. */
  lemma ReachedAfterPlay(s: State, row: int, col: int)
    requires Reached(s)
    ensures WellFormed(s.board) && Reached(Play(s, row, col).0)
  {
    var ms :| Replays(ms, s);
    RunAppend(Initial(), ms, [(row, col)]);
    RunCons(s, (row, col), []);
    assert Replays(ms + [(row, col)], Play(s, row, col).0);
  }

  /** X takes the top row while O plays the centre and a corner: the fifth
      move wins for X. */
  lemma TopRowWin()
    ensures var (t, os) := Run(Initial(), [(0, 0), (1, 1), (0, 1), (2, 2), (0, 2)]);
            && os == [NextTurn(O), NextTurn(X), NextTurn(O), NextTurn(X), Win(X)]
            && t.over && t.winner == Some(X) && t.moves == 5
  {
    var (s1, o1) := Play(Initial(), 0, 0);
    assert o1 == NextTurn(O);
    var (s2, o2) := Play(s1, 1, 1);
    assert o2 == NextTurn(X);
    var (s3, o3) := Play(s2, 0, 1);
    assert o3 == NextTurn(O);
    var (s4, o4) := Play(s3, 2, 2);
    assert o4 == NextTurn(X);
    var (s5, o5) := Play(s4, 0, 2);
    assert o5 == Win(X);
    RunCons(s4, (0, 2), []);
    RunCons(s3, (2, 2), [(0, 2)]);
    RunCons(s2, (0, 1), [(2, 2), (0, 2)]);
    RunCons(s1, (1, 1), [(0, 1), (2, 2), (0, 2)]);
    RunCons(Initial(), (0, 0), [(1, 1), (0, 1), (2, 2), (0, 2)]);
  }

  /** A move onto an occupied cell is refused and changes nothing. */
  lemma OccupiedCellRefused()
    ensures var (t, os) := Run(Initial(), [(0, 0), (0, 0)]);
            && os == [NextTurn(O), InvalidMove]
            && t == Play(Initial(), 0, 0).0
            && t.moves == 1 && t.board[0][0] == Mark(X)
  {
  }

  /** The last four moves of the drawn game in `NineMoveDraw`, from any state
      showing its position after five moves:  X O X / X O _ / _ _ _ , O to move. */
  lemma DrawFinish(s: State, ms: seq<Pos>)
    requires ms == [(1, 2), (2, 1), (2, 0), (2, 2)]
    requires WellFormed(s.board) && !s.over && s.current == O && s.moves == 5 && s.winner == None
    requires s.board[0][0] == Mark(X) && s.board[0][1] == Mark(O) && s.board[0][2] == Mark(X)
    requires s.board[1][0] == Mark(X) && s.board[1][1] == Mark(O) && s.board[1][2] == Empty
    requires s.board[2][0] == Empty && s.board[2][1] == Empty && s.board[2][2] == Empty
    ensures var (t, os) := Run(s, ms);
            && os == [NextTurn(X), NextTurn(O), NextTurn(X), Draw]
            && t.over && t.winner == None && t.moves == 9
  {
    var (s1, o1) := Play(s, 1, 2);
    assert o1 == NextTurn(X);
    var (s2, o2) := Play(s1, 2, 1);
    assert o2 == NextTurn(O);
    var (s3, o3) := Play(s2, 2, 0);
    assert o3 == NextTurn(X);
    var (s4, o4) := Play(s3, 2, 2);
    assert o4 == Draw;
    RunCons(s3, (2, 2), []);
    RunCons(s2, (2, 0), [(2, 2)]);
    RunCons(s1, (2, 1), [(2, 0), (2, 2)]);
    RunCons(s, (1, 2), [(2, 1), (2, 0), (2, 2)]);
  }

  /** The first five moves of the drawn game in `NineMoveDraw`. */
  lemma DrawOpening(ms: seq<Pos>)
    requires ms == [(0, 0), (0, 1), (0, 2), (1, 1), (1, 0)]
    ensures var (t, os) := Run(Initial(), ms);
            && os == [NextTurn(O), NextTurn(X), NextTurn(O), NextTurn(X), NextTurn(O)]
            && !t.over && t.current == O && t.moves == 5 && t.winner == None
            && t.board[0][0] == Mark(X) && t.board[0][1] == Mark(O) && t.board[0][2] == Mark(X)
            && t.board[1][0] == Mark(X) && t.board[1][1] == Mark(O) && t.board[1][2] == Empty
            && t.board[2][0] == Empty && t.board[2][1] == Empty && t.board[2][2] == Empty
  {
    var (s1, o1) := Play(Initial(), 0, 0);
    assert o1 == NextTurn(O);
    var (s2, o2) := Play(s1, 0, 1);
    assert o2 == NextTurn(X);
    var (s3, o3) := Play(s2, 0, 2);
    assert o3 == NextTurn(O);
    var (s4, o4) := Play(s3, 1, 1);
    assert o4 == NextTurn(X);
    var (s5, o5) := Play(s4, 1, 0);
    assert o5 == NextTurn(O);
    RunCons(s4, (1, 0), []);
    RunCons(s3, (1, 1), [(1, 0)]);
    RunCons(s2, (0, 2), [(1, 1), (1, 0)]);
    RunCons(s1, (0, 1), [(0, 2), (1, 1), (1, 0)]);
    RunCons(Initial(), (0, 0), [(0, 1), (0, 2), (1, 1), (1, 0)]);
  }

  /** Nine moves that complete no line end in a draw without a winner.
      Final board:  X O X / X O O / O X X. */
  lemma NineMoveDraw(opening: seq<Pos>, ending: seq<Pos>)
    requires opening == [(0, 0), (0, 1), (0, 2), (1, 1), (1, 0)]
    requires ending == [(1, 2), (2, 1), (2, 0), (2, 2)]
    ensures var (t, os) := Run(Initial(), opening + ending);
            && os == [NextTurn(O), NextTurn(X), NextTurn(O), NextTurn(X), NextTurn(O)]
                     + [NextTurn(X), NextTurn(O), NextTurn(X), Draw]
            && Report(os[8]).message == "Draw!"
            && t.over && t.winner == None && t.moves == 9
  {
    RunAppend(Initial(), opening, ending);
    DrawOpening(opening);
    DrawFinish(Run(Initial(), opening).0, ending);
  }
}
