/** The 3×3 board of the tic-tac-toe engine as a value: cells, the eight
    winning lines, the list of free cells and the text rendering. */
module Board {

  datatype Option<T> = None | Some(value: T)

  /** The two players; X always moves first. */
  datatype Player = X | O

  /** A cell is empty (the source's ' ') or carries one player's mark. */
  datatype Cell = Empty | Mark(player: Player)

  /** A board, row by row, as the engine's list of three lists of three cells. */
  type Grid = seq<seq<Cell>>

  /** A (row, col) coordinate pair. */
  type Pos = (int, int)

  function Other(p: Player): (q: Player)
    ensures q != p
  {
    if p == X then O else X
  }

  predicate InBounds(row: int, col: int) {
    0 <= row < 3 && 0 <= col < 3
  }

  /** Row-major index of a position: (0,0) is 0, (2,2) is 8. */
  function Index(p: Pos): int {
    3 * p.0 + p.1
  }

  /** Positions listed in strictly increasing row-major order, hence
      each at most once. */
  predicate RowMajor(ms: seq<Pos>) {
    forall i, j :: 0 <= i < j < |ms| ==> Index(ms[i]) < Index(ms[j])
  }

  predicate WellFormed(b: Grid) {
    |b| == 3 && forall r :: 0 <= r < 3 ==> |b[r]| == 3
  }

  function EmptyGrid(): (b: Grid)
    ensures WellFormed(b)
    ensures forall r, c :: InBounds(r, c) ==> b[r][c] == Empty
  {
    [[Empty, Empty, Empty], [Empty, Empty, Empty], [Empty, Empty, Empty]]
  }

  /** The board with cell (row, col) set to v and every other cell kept. */
  function Place(b: Grid, row: int, col: int, v: Cell): (b': Grid)
    requires WellFormed(b) && InBounds(row, col)
    ensures WellFormed(b')
    ensures forall r, c :: InBounds(r, c) ==> b'[r][c] == if r == row && c == col then v else b[r][c]
  {
    b[row := b[row][col := v]]
  }

  /** Two grids with the same cells are the same grid. */
  lemma SameGrid(a: Grid, b: Grid)
    requires WellFormed(a) && WellFormed(b)
    requires forall r, c :: InBounds(r, c) ==> a[r][c] == b[r][c]
    ensures a == b
  {
    assert InBounds(0, 0) && InBounds(0, 1) && InBounds(0, 2);
    assert InBounds(1, 0) && InBounds(1, 1) && InBounds(1, 2);
    assert InBounds(2, 0) && InBounds(2, 1) && InBounds(2, 2);
    assert a[0] == b[0] && a[1] == b[1] && a[2] == b[2];
  }

  // ----- counting marks -----

  /** The nine cells in row-major order. */
  function Flat(b: Grid): (cells: seq<Cell>)
    requires WellFormed(b)
    ensures |cells| == 9
  {
    b[0] + b[1] + b[2]
  }

  lemma FlatAt(b: Grid, k: int)
    requires WellFormed(b) && 0 <= k < 9
    ensures Flat(b)[k] == b[k / 3][k % 3]
  {
  }

  /** Number of entries of cells equal to v. */
  function Tally(cells: seq<Cell>, v: Cell): nat {
    if cells == [] then 0 else (if cells[0] == v then 1 else 0) + Tally(cells[1..], v)
  }

  /** Number of cells holding v. */
  function Count(b: Grid, v: Cell): nat
    requires WellFormed(b)
  {
    Tally(Flat(b), v)
  }

  /** Number of non-empty cells. */
  function Marks(b: Grid): nat
    requires WellFormed(b)
  {
    Count(b, Mark(X)) + Count(b, Mark(O))
  }

  lemma {:induction false} CountsCover(s: seq<Cell>)
    ensures Tally(s, Empty) + Tally(s, Mark(X)) + Tally(s, Mark(O)) == |s|
  {
    if s != [] {
      CountsCover(s[1..]);
      match s[0]
      case Empty =>
      case Mark(X) =>
      case Mark(O) =>
    }
  }

  /** Every cell is empty, X or O, so the three counts add up to nine. */
  lemma CountsAddUp(b: Grid)
    requires WellFormed(b)
    ensures Count(b, Empty) + Marks(b) == 9
  {
    CountsCover(Flat(b));
  }

  /** Writing v over an empty cell adds one v and takes away one Empty. */
  lemma PlaceCounts(b: Grid, row: int, col: int, v: Cell, w: Cell)
    requires WellFormed(b) && InBounds(row, col) && b[row][col] == Empty
    ensures Count(Place(b, row, col, v), w) ==
            Count(b, w) + (if w == v then 1 else 0) - (if w == Empty then 1 else 0)
  {
    var i := 3 * row + col;
    var b' := Place(b, row, col, v);
    FlatAt(b, i);
    forall k | 0 <= k < 9
      ensures Flat(b')[k] == Flat(b)[i := v][k]
    {
      FlatAt(b, k);
      FlatAt(b', k);
    }
    assert Flat(b') == Flat(b)[i := v];
    TallyUpdate(Flat(b), i, v, w);
  }

  /** Overwriting one Empty entry with v adds one v and takes away one Empty. */
  lemma {:induction false} TallyUpdate(s: seq<Cell>, i: int, v: Cell, w: Cell)
    requires 0 <= i < |s| && s[i] == Empty
    ensures Tally(s[i := v], w) == Tally(s, w) + (if w == v then 1 else 0) - (if w == Empty then 1 else 0)
  {
    if i == 0 {
      assert s[i := v][1..] == s[1..];
    } else {
      assert s[i := v][1..] == s[1..][i - 1 := v];
      TallyUpdate(s[1..], i - 1, v, w);
    }
  }

  lemma EmptyGridCounts(w: Cell)
    ensures Count(EmptyGrid(), w) == if w == Empty then 9 else 0
  {
    TallyUniform(Flat(EmptyGrid()), Empty, w);
  }

  /** In a sequence holding only v, v occurs at every entry and nothing
      else occurs. */
  lemma {:induction false} TallyUniform(s: seq<Cell>, v: Cell, w: Cell)
    requires forall i :: 0 <= i < |s| ==> s[i] == v
    ensures Tally(s, w) == if w == v then |s| else 0
  {
    if s != [] {
      TallyUniform(s[1..], v, w);
    }
  }

  // ----- the eight winning lines -----

  /** Cell (r, c) lies on line i. Lines 0..2 are the rows, 3..5 the
      columns, 6 the main diagonal and 7 the anti-diagonal. */
  predicate OnLine(i: int, r: int, c: int)
    requires 0 <= i < 8
  {
    if i < 3 then r == i
    else if i < 6 then c == i - 3
    else if i == 6 then r == c
    else r + c == 2
  }

  /** Player p holds every cell of line i. */
  predicate Owns(b: Grid, i: int, p: Player)
    requires WellFormed(b) && 0 <= i < 8
  {
    forall r, c :: 0 <= r < 3 && 0 <= c < 3 && OnLine(i, r, c) ==> b[r][c] == Mark(p)
  }

  /** Player p holds some complete line. */
  predicate HasLine(b: Grid, p: Player)
    requires WellFormed(b)
  {
    exists i :: 0 <= i < 8 && Owns(b, i, p)
  }

  /** Player p holds some complete line that passes through (row, col). */
  predicate LineThrough(b: Grid, row: int, col: int, p: Player)
    requires WellFormed(b)
  {
    exists i :: 0 <= i < 8 && OnLine(i, row, col) && Owns(b, i, p)
  }

  /** The engine's win check: only the row, the column and, when the cell
      lies on them, the diagonals through (row, col) are examined. */
  predicate WinsThrough(b: Grid, row: int, col: int, p: Player)
    requires WellFormed(b) && InBounds(row, col)
  {
    (b[row][0] == Mark(p) && b[row][1] == Mark(p) && b[row][2] == Mark(p)) ||
    (b[0][col] == Mark(p) && b[1][col] == Mark(p) && b[2][col] == Mark(p)) ||
    (row == col && b[0][0] == Mark(p) && b[1][1] == Mark(p) && b[2][2] == Mark(p)) ||
    (row + col == 2 && b[0][2] == Mark(p) && b[1][1] == Mark(p) && b[2][0] == Mark(p))
  }

  /** Checking four lines is enough: they are exactly the winning lines
      through the cell. */
  lemma WinsThroughIff(b: Grid, row: int, col: int, p: Player)
    requires WellFormed(b) && InBounds(row, col)
    ensures WinsThrough(b, row, col, p) <==> LineThrough(b, row, col, p)
  {
    if WinsThrough(b, row, col, p) {
      WinFound(b, row, col, p);
    }
    if LineThrough(b, row, col, p) {
      var i :| 0 <= i < 8 && OnLine(i, row, col) && Owns(b, i, p);
      LineSeen(b, row, col, p, i);
    }
  }

  lemma WinFound(b: Grid, row: int, col: int, p: Player)
    requires WellFormed(b) && InBounds(row, col) && WinsThrough(b, row, col, p)
    ensures LineThrough(b, row, col, p)
  {
    var m := Mark(p);
    if b[row][0] == m && b[row][1] == m && b[row][2] == m {
      assert OnLine(row, row, col) && Owns(b, row, p);
    } else if b[0][col] == m && b[1][col] == m && b[2][col] == m {
      assert OnLine(3 + col, row, col) && Owns(b, 3 + col, p);
    } else if row == col && b[0][0] == m && b[1][1] == m && b[2][2] == m {
      assert OnLine(6, row, col) && Owns(b, 6, p);
    } else {
      assert OnLine(7, row, col) && Owns(b, 7, p);
    }
  }

  lemma LineSeen(b: Grid, row: int, col: int, p: Player, i: int)
    requires WellFormed(b) && InBounds(row, col) && 0 <= i < 8
    requires OnLine(i, row, col) && Owns(b, i, p)
    ensures WinsThrough(b, row, col, p)
  {
    if i < 3 {
      assert OnLine(i, row, 0) && OnLine(i, row, 1) && OnLine(i, row, 2);
    } else if i < 6 {
      assert OnLine(i, 0, col) && OnLine(i, 1, col) && OnLine(i, 2, col);
    } else if i == 6 {
      assert OnLine(i, 0, 0) && OnLine(i, 1, 1) && OnLine(i, 2, 2);
    } else {
      assert OnLine(i, 0, 2) && OnLine(i, 1, 1) && OnLine(i, 2, 0);
    }
  }

  /** After p writes (row, col), any complete line either passes through
      the new mark (and then belongs to p) or was already complete. */
  lemma HasLineAfterPlace(b: Grid, row: int, col: int, p: Player, q: Player)
    requires WellFormed(b) && InBounds(row, col)
    requires HasLine(Place(b, row, col, Mark(p)), q)
    ensures (q == p && LineThrough(Place(b, row, col, Mark(p)), row, col, p)) || HasLine(b, q)
  {
    var b' := Place(b, row, col, Mark(p));
    var i :| 0 <= i < 8 && Owns(b', i, q);
    if OnLine(i, row, col) {
      assert b'[row][col] == Mark(q);
    } else {
      assert Owns(b, i, q);
    }
  }

  // ----- free cells -----

  lemma FlatCell(b: Grid, r: int, c: int)
    requires WellFormed(b) && InBounds(r, c)
    ensures Flat(b)[Index((r, c))] == b[r][c]
  {
  }

  /** The empty cells at (r, c) and after it, in the row-major order of the
      engine's nested comprehension. */
  function AvailableFrom(b: Grid, r: int, c: int): (moves: seq<Pos>)
    requires WellFormed(b) && 0 <= r <= 3 && 0 <= c < 3 && (r == 3 ==> c == 0)
    ensures forall x, y {:trigger (x, y) in moves} :: (x, y) in moves <==> InBounds(x, y) && Index((r, c)) <= Index((x, y)) && b[x][y] == Empty
    ensures forall i :: 0 <= i < |moves| ==> Index((r, c)) <= Index(moves[i])
    ensures forall i, j :: 0 <= i < j < |moves| ==> Index(moves[i]) < Index(moves[j])
    ensures |moves| == Tally(Flat(b)[Index((r, c))..], Empty)
    decreases 9 - Index((r, c))
  {
    if r == 3 then []
    else
      var next := if c == 2 then (r + 1, 0) else (r, c + 1);
      var rest := AvailableFrom(b, next.0, next.1);
      var here := if b[r][c] == Empty then [(r, c)] else [];
      assert Index(next) == Index((r, c)) + 1;
      FreeStep(b, r, c, here, rest);
      here + rest
  }

  /** The step of AvailableFrom: the cell (r, c), when free, put before the
      free cells after it keeps the list complete, ordered and counted. */
  lemma FreeStep(b: Grid, r: int, c: int, here: seq<Pos>, rest: seq<Pos>)
    requires WellFormed(b) && InBounds(r, c)
    requires here == if b[r][c] == Empty then [(r, c)] else []
    requires forall x, y {:trigger (x, y) in rest} :: (x, y) in rest <==> InBounds(x, y) && Index((r, c)) + 1 <= Index((x, y)) && b[x][y] == Empty
    requires forall i :: 0 <= i < |rest| ==> Index((r, c)) + 1 <= Index(rest[i])
    requires forall i, j :: 0 <= i < j < |rest| ==> Index(rest[i]) < Index(rest[j])
    requires |rest| == Tally(Flat(b)[Index((r, c)) + 1..], Empty)
    ensures forall x, y {:trigger (x, y) in here + rest} :: (x, y) in here + rest <==> InBounds(x, y) && Index((r, c)) <= Index((x, y)) && b[x][y] == Empty
    ensures forall i :: 0 <= i < |here + rest| ==> Index((r, c)) <= Index((here + rest)[i])
    ensures forall i, j :: 0 <= i < j < |here + rest| ==> Index((here + rest)[i]) < Index((here + rest)[j])
    ensures |here + rest| == Tally(Flat(b)[Index((r, c))..], Empty)
  {
    var k := Index((r, c));
    var all := here + rest;
    FlatCell(b, r, c);
    assert Flat(b)[k..][0] == Flat(b)[k] && Flat(b)[k..][1..] == Flat(b)[k + 1..];
    forall x, y | InBounds(x, y) && Index((x, y)) == k
      ensures x == r && y == c
    {
    }
    forall i, j | 0 <= i < j < |all|
      ensures Index(all[i]) < Index(all[j])
    {
      if i >= |here| {
        assert all[i] == rest[i - |here|] && all[j] == rest[j - |here|];
      } else {
        assert all[i] == (r, c) && all[j] == rest[j - |here|];
      }
    }
  }

  /** The engine's available_moves: every empty cell exactly once, in
      row-major order; there are 9 - Marks(b) of them. */
  function Available(b: Grid): (moves: seq<Pos>)
    requires WellFormed(b)
    ensures forall x, y {:trigger (x, y) in moves} :: (x, y) in moves <==> InBounds(x, y) && b[x][y] == Empty
    ensures RowMajor(moves)
    ensures |moves| == 9 - Marks(b)
  {
    var m := AvailableFrom(b, 0, 0);
    CountsAddUp(b);
    assert Index((0, 0)) == 0 && Flat(b)[0..] == Flat(b);
    m
  }

  // ----- rendering -----

  function CellChar(v: Cell): char {
    match v
    case Empty => ' '
    case Mark(X) => 'X'
    case Mark(O) => 'O'
  }

  /** Reads a rendered cell back; the inverse of CellChar. */
  function CharCell(ch: char): (v: Cell)
    ensures ch in " XO" ==> CellChar(v) == ch
    ensures forall c: Cell :: CellChar(c) == ch ==> v == c
  {
    if ch == 'X' then Mark(X) else if ch == 'O' then Mark(O) else Empty
  }

  const Header: string := "  0   1   2"
  const Separator: string := "  ---|---|---"

  /** Concatenates the strings of parts with sep between neighbours. */
  function Join(parts: seq<string>, sep: string): (s: string)
    ensures |parts| == 1 ==> s == parts[0]
  {
    if parts == [] then ""
    else if |parts| == 1 then parts[0]
    else parts[0] + sep + Join(parts[1..], sep)
  }

  /** Joining three parts puts the separator between each neighbouring pair. */
  lemma JoinThree(a: string, b: string, c: string, sep: string)
    ensures Join([a, b, c], sep) == a + sep + b + sep + c
  {
    assert [a, b, c][1..] == [b, c] && [b, c][1..] == [c];
  }

  /** Row r rendered as its number, a space and the three cells joined by " | ". */
  function RowText(b: Grid, r: int): (s: string)
    requires WellFormed(b) && 0 <= r < 3
    ensures |s| == 11
  {
    ["012"[r], ' '] + [CellChar(b[r][0])] + " | " + [CellChar(b[r][1])] + " | " + [CellChar(b[r][2])]
  }

  /** The lines pretty_board has collected after rendering rows 0..n-1. */
  function RenderLines(b: Grid, n: int): seq<string>
    requires WellFormed(b) && 0 <= n <= 3
  {
    if n == 0 then [Header]
    else RenderLines(b, n - 1) + [RowText(b, n - 1)] + (if n - 1 < 2 then [Separator] else [])
  }

  /** The text rendering of a board: a header of column numbers, then each
      row with its number, rows separated by a rule. */
  function Render(b: Grid): string
    requires WellFormed(b)
  {
    Join(RenderLines(b, 3), "\n")
  }

  /** Position of cell (r, c) in the rendering. */
  function CellOffset(r: int, c: int): int {
    14 + 26 * r + 4 * c
  }

  lemma RenderSpelledOut(b: Grid)
    requires WellFormed(b)
    ensures Render(b) == Header + "\n" + RowText(b, 0) + "\n" + Separator + "\n"
                         + RowText(b, 1) + "\n" + Separator + "\n" + RowText(b, 2)
  {
    assert RenderLines(b, 1) == [Header, RowText(b, 0), Separator];
    assert RenderLines(b, 2) == [Header, RowText(b, 0), Separator, RowText(b, 1), Separator];
    var ls := RenderLines(b, 3);
    assert ls == [Header, RowText(b, 0), Separator, RowText(b, 1), Separator, RowText(b, 2)];
    assert Join(ls[5..], "\n") == RowText(b, 2);
    assert Join(ls[4..], "\n") == Separator + "\n" + RowText(b, 2);
    assert Join(ls[3..], "\n") == RowText(b, 1) + "\n" + Separator + "\n" + RowText(b, 2);
    assert Join(ls[2..], "\n") == Separator + "\n" + RowText(b, 1) + "\n" + Separator + "\n" + RowText(b, 2);
    assert Join(ls[1..], "\n") == RowText(b, 0) + "\n" + Separator + "\n" + RowText(b, 1) + "\n" + Separator + "\n" + RowText(b, 2);
  }

  /** The rendering has 75 characters and shows cell (r, c) at CellOffset(r, c). */
  lemma RenderShowsCells(b: Grid)
    requires WellFormed(b)
    ensures |Render(b)| == 75
    ensures forall r, c :: InBounds(r, c) ==> Render(b)[CellOffset(r, c)] == CellChar(b[r][c])
  {
    RenderSpelledOut(b);
    forall r, c | InBounds(r, c)
      ensures Render(b)[CellOffset(r, c)] == CellChar(b[r][c])
    {
      var t := RowText(b, r);
      assert t[2 + 4 * c] == CellChar(b[r][c]);
    }
  }

  /** Reads the nine cells back out of a rendering. */
  function ReadBoard(text: string): (b: Grid)
    requires |text| == 75
    ensures WellFormed(b)
  {
    [[CharCell(text[CellOffset(0, 0)]), CharCell(text[CellOffset(0, 1)]), CharCell(text[CellOffset(0, 2)])],
     [CharCell(text[CellOffset(1, 0)]), CharCell(text[CellOffset(1, 1)]), CharCell(text[CellOffset(1, 2)])],
     [CharCell(text[CellOffset(2, 0)]), CharCell(text[CellOffset(2, 1)]), CharCell(text[CellOffset(2, 2)])]]
  }

  /** The rendering loses nothing: the board can be read back from it. */
  lemma RenderRoundTrip(b: Grid)
    requires WellFormed(b)
    ensures |Render(b)| == 75 && ReadBoard(Render(b)) == b
  {
    RenderShowsCells(b);
    var t := Render(b);
    forall r, c | InBounds(r, c)
      ensures ReadBoard(t)[r][c] == b[r][c]
    {
      assert t[CellOffset(r, c)] == CellChar(b[r][c]);
      match b[r][c]
      case Empty =>
      case Mark(p) =>
    }
    var rb := ReadBoard(t);
    assert rb[0] == b[0] && rb[1] == b[1] && rb[2] == b[2];
  }
}
