# Tic-tac-toe engine and session registry

A Dafny model of the game core of a small tic-tac-toe server: the
`TicTacToe` class, which holds the state of one 3×3 game, and the
`SessionManager` class, which maps opaque session ids to games and their
metadata. Both live in `TikTakToe_Server/tictactoe_app.py`.

The project has four modules, one per concern:

- `Board` (`board.dfy`) holds the board as a value. It has the cells,
  `Place` (write one cell), mark counting, the eight winning lines, the
  engine's four-line win check, the list of free cells, and the text
  rendering.
- `Rules` (`rules.dfy`) holds one game as a state machine on values.
  `State` is the engine's five fields. `Play` is `make_move` as a function
  returning the new state and an `Outcome`, and `Report` turns an outcome
  into the result record with the engine's messages. `Consistent` is the
  invariant of every reachable state, and `Run` plays a sequence of moves.
  The properties of whole games are proved as lemmas about `Play` and `Run`.
- `Engine` (`engine.dfy`) has the class `TicTacToe`. Its fields are updated
  by `MakeMove`. `MakeMove` and `Valid()` are tied to `Rules` through
  `Model()`: `Valid()` says that the fields hold a state that play can
  reach from a new game. The queries (`CheckWinner`, `AvailableMoves`,
  `PrettyBoard`, `Serialize`) are stated over the `board` field and the
  `Board` functions.
- `Sessions` (`sessions.dfy`) has the class `SessionManager`, a
  `map<Id, Session>`. Its invariant is that every stored game is valid and
  that no two sessions share a game object.

Session ids and timestamps are opaque types supplied by the caller. In the
source they come from `uuid.uuid4()` and `datetime.now()`. `new_session`
takes the new id, so a caller can pass an id that is already in the map.
The model then overwrites the old entry, just as assigning to a Python
dict key does.

## Model

| member | source | states |
|---|---|---|
| `Rules.Initial` | TikTakToe_Server/tictactoe_app.py:8-13 | a new game has a well-formed empty board with no marks, X to move, move count 0, not over, no winner |
| `Engine.TicTacToe.constructor` | TikTakToe_Server/tictactoe_app.py:8-13 | the new object's fields are the initial state, and that state is valid |
| `Rules.InitialConsistent` | TikTakToe_Server/tictactoe_app.py:8-13 | the initial state satisfies the game invariant |
| `Board.Available` | TikTakToe_Server/tictactoe_app.py:15-16 | the free-cell list holds exactly the in-bounds empty cells, in strictly increasing row-major order (so no duplicates), and has 9 − (number of marks) entries |
| `Engine.TicTacToe.AvailableMoves` | TikTakToe_Server/tictactoe_app.py:15-16 | available_moves lists exactly the empty cells, each once, in row-major order; there are 9 − move_count of them; it is a function, so it changes nothing |
| `Rules.Play` | TikTakToe_Server/tictactoe_app.py:18-33 | guard order: a finished game gives GameAlreadyOver (even for out-of-range coordinates); otherwise off-board or occupied gives InvalidMove; a refusal leaves the state equal to the old one; an accepted move writes exactly the mover's mark at (row, col) and adds 1 to the move count; game_over never goes back to false |
| `Rules.AcceptedMoveEffects` | TikTakToe_Server/tictactoe_app.py:23-33 | an accepted move is a win exactly when the four-line check through the new mark succeeds, and then the game is over, the winner is the mover and the turn is not passed on; it is otherwise a draw exactly at move 9, with the winner left unset; it is otherwise a next turn with the other player to move and named in the message |
| `Rules.Report` | TikTakToe_Server/tictactoe_app.py:19-33 | success is false exactly for the two refusals, which carry no game_over or winner field; an accepted move reports game_over true unless the turn passed, and winner None unless it won |
| `Rules.ReportIsFaithful` | TikTakToe_Server/tictactoe_app.py:19-33 | different outcomes give different result records (the messages tell the five cases apart) |
| `Engine.TicTacToe.MakeMove` | TikTakToe_Server/tictactoe_app.py:18-33 | the object's new fields and the returned record are those that `Rules.Play` and `Rules.Report` give for the old fields; validity is kept |
| `Board.WinsThroughIff` | TikTakToe_Server/tictactoe_app.py:35-42 | checking row `row`, column `col`, the main diagonal when row == col and the anti-diagonal when row + col == 2 finds a complete line of p exactly when some winning line through (row, col) is all p |
| `Engine.TicTacToe.CheckWinner` | TikTakToe_Server/tictactoe_app.py:35-42 | check_winner is true iff the current player owns a whole winning line through (row, col) |
| `Rules.LinesAfterMove` | TikTakToe_Server/tictactoe_app.py:23-27 | after an accepted move on an open game the mover has a line iff the four-line check succeeds, and the other player has none, so checking only the lines through the last move misses no win |
| `Rules.PlayKeepsConsistent` | TikTakToe_Server/tictactoe_app.py:18-33 | make_move keeps the invariant: move_count equals the number of marks and lies in 0..9; X has as many marks as O or one more; the player to move follows the count; an open game has no line; a won game has only the winner's line; a draw has a full board and no line |
| `Rules.CountsAfterMove` | TikTakToe_Server/tictactoe_app.py:23-24 | an accepted move raises the number of marks to move_count + 1 and keeps X's lead over O at the parity of the count |
| `Rules.WinExactlyOnCompletion` | TikTakToe_Server/tictactoe_app.py:25-28 | on an open game an accepted move is a win exactly when the board then has a complete line (never earlier, never missed), and the win goes to the mover |
| `Rules.DrawExactlyOnFullBoard` | TikTakToe_Server/tictactoe_app.py:29-31 | the outcome is Draw exactly when the ninth mark completes no line; the game is then over, winner unset, all nine cells marked, and the message is "Draw!" |
| `Rules.TurnPasses` | TikTakToe_Server/tictactoe_app.py:32-33 | a non-terminal accepted move flips X and O, and the new player is the one the move count gives |
| `Rules.RunKeepsConsistent` | TikTakToe_Server/tictactoe_app.py:18-33 | every state reached by any sequence of make_move calls from a consistent state is consistent |
| `Rules.Reachable` | TikTakToe_Server/tictactoe_app.py:8-33 | every state reachable from a new game is consistent |
| `Rules.RunCountsAccepted` | TikTakToe_Server/tictactoe_app.py:24 | move_count grows by exactly the number of accepted moves |
| `Rules.TurnAlternation` | TikTakToe_Server/tictactoe_app.py:10-33 | from a new game, after n accepted moves of an open game, X is to move when n is even and O when n is odd |
| `Rules.OverIsFinal` | TikTakToe_Server/tictactoe_app.py:19-20 | once the game is over every further move is refused with GameAlreadyOver and the state never changes |
| `Rules.MarksArePermanent` | TikTakToe_Server/tictactoe_app.py:21-23 | a marked cell keeps its mark through any sequence of further moves |
| `Rules.RunAppend` | TikTakToe_Server/tictactoe_app.py:18-33 | playing two move lists in turn is the same as playing their concatenation |
| `Rules.ReachedIsConsistent` | TikTakToe_Server/tictactoe_app.py:8-33 | a state produced by play from a new game satisfies the invariant |
| `Rules.ReachedAfterPlay` | TikTakToe_Server/tictactoe_app.py:18-33 | one more make_move from a reachable state gives a reachable state |
| `Rules.TopRowWin` | TikTakToe_Server/tictactoe_app.py:18-42 | X at (0,0), O at (1,1), X at (0,1), O at (2,2), X at (0,2): the fifth move wins for X and the game is over after 5 moves |
| `Rules.OccupiedCellRefused` | TikTakToe_Server/tictactoe_app.py:21-22 | playing (0,0) twice refuses the second move with InvalidMove and leaves the state from after the first move |
| `Rules.NineMoveDraw` | TikTakToe_Server/tictactoe_app.py:18-33 | a nine-move game with final board X O X / X O O / O X X is a draw, reported as "Draw!", with no winner |
| `Board.PlaceCounts` | TikTakToe_Server/tictactoe_app.py:23 | writing a mark over an empty cell adds one of that mark and removes one empty cell |
| `Board.CountsAddUp` | TikTakToe_Server/tictactoe_app.py:9 | every cell is empty, X or O, so empty cells plus marks number nine |
| `Board.RenderShowsCells` | TikTakToe_Server/tictactoe_app.py:55-62 | the rendering is 75 characters long and shows cell (r, c) at offset 14 + 26r + 4c |
| `Board.RenderRoundTrip` | TikTakToe_Server/tictactoe_app.py:55-62 | the board can be read back from its rendering |
| `Engine.TicTacToe.PrettyBoard` | TikTakToe_Server/tictactoe_app.py:55-62 | the loop builds the header, each row with its number and its three cells separated by bars, and a rule between rows, joined by newlines: the text `Board.Render` specifies |
| `Engine.TicTacToe.Serialize` | TikTakToe_Server/tictactoe_app.py:44-53 | the snapshot copies the five fields, lists the free cells, holds the rendering, has free cells plus move count equal to nine, and its rendering reads back as its board |
| `Sessions.SessionManager.constructor` | TikTakToe_Server/tictactoe_app.py:66-67 | a new registry is empty and valid |
| `Sessions.SessionManager.NewSession` | TikTakToe_Server/tictactoe_app.py:69-79 | stores a fresh game in the initial state under the given id, with both timestamps and a player count of 0; every other entry stays as it was (and, as only the registry is modified, so does every other game); the map grows by one when the id is new; the id is returned |
| `Sessions.SessionManager.GetGame` | TikTakToe_Server/tictactoe_app.py:81-86 | an unknown id gives None and changes nothing; a known id gives the stored game object itself, and the only change is that session's last_accessed, set to now |
| `Sessions.SessionManager.ListSessions` | TikTakToe_Server/tictactoe_app.py:88-98 | one summary per session under the same ids, carrying that session's metadata and its game's game_over, current_player, move_count and winner; each shows a move count in 0..9, a winner only for a finished game (and then the player who moved last), and for an open game the player the count gives |
| `Sessions.SessionManager.MoveInSession` | TikTakToe_Server/tictactoe_app.py:138-141 | get_game then make_move: an unknown id gives None and changes nothing; a known id keeps its game object, has only its last_accessed set to now, and plays the move on that game alone, with the result `Rules.Play` gives, and every other session keeps its entry and its game's state (session isolation) |

## Left out

- HTTP routes and the module-level `app` and `manager` objects (lines 100-162) are transport and JSON encoding. The request shape is not modelled. `Sessions.SessionManager.MoveInSession` models the one composition the `/make_move` route performs: `get_game`, then `make_move`.
- `uuid.uuid4()` and `datetime.now()` are randomness and the clock. Ids and timestamps are opaque caller-supplied values, so uniqueness of generated ids is not modelled. A repeated id overwrites the old entry, as in the source.
- JSON coercion of `row` and `col`, which may be missing or non-integer, is not modelled. Coordinates are `int`.
- The board is a value field (`seq<seq<Cell>>`) that `MakeMove` reassigns. The in-place update of the Python list of lists is therefore not captured. Neither is the aliasing that `serialize` creates by returning that same list.
- Session metadata is a value (`Metadata`), not a shared dict. In the source, `list_sessions` (line 95) and the `/new_game` route (line 114) hand out the live metadata dict, which a later `get_game` changes in place (line 84), so a listing taken earlier changes too. In the model, `Summary.metadata` is a copy and does not change.
- The MCP adapter (`MCP_Server/tiktak.py`) is network I/O and a static help string; it is not part of this model.
- Concurrency: the source has no locking, and the model is sequential.
