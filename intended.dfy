/** What the labyrinth operations are documented to do, where the implementation
    does something else: reading `[row][col]`, rejecting writes outside the board or
    onto a non-EMPTY cell, placing the player on the START cell, and answering
    `hasPlayerFinished` and `possibleMoves` from the cells around the player. */
module Intended {
  import opened Types
  import opened JavaParse
  import opened Maze

  /** `getCellType(c)` as documented: the cell at column `c.col` of row `c.row`. */
  function CellAt(m: State, c: Coord): Result<CellType> {
    if m.board.None? then Raised(NullPointerException)
    else if !InBounds(m.board.value, c) then Raised(CellException(c.col, c.row))
    else Ok(m.board.value[c.row][c.col])
  }

  /** The round trip of the load format: after a successful load, reading any
      coordinate inside `[0,width) x [0,height)` gives the cell its character encodes,
      and any other coordinate raises `CellException`. */
  lemma LoadThenRead(m: State, widthLine: string, heightLine: string, lines: seq<string>, w: Int32, h: Int32, c: Coord)
    requires ParseInt(widthLine) == Some(w) && ParseInt(heightLine) == Some(h)
    requires w >= 0 && h >= 0 && LinesFit(lines, h, w)
    ensures var m' := Load(m, widthLine, heightLine, lines).1;
      if 0 <= c.col < w && 0 <= c.row < h then CellAt(m', c) == Ok(CharToCell(lines[c.row][c.col]))
      else CellAt(m', c) == Raised(CellException(c.col, c.row))
  {
  }

  /** On the diagonal the transposed read of the implementation is harmless: it agrees
      with the documented read whenever the board has a row. */
  lemma TransposedReadOnDiagonal(m: State, c: Coord)
    requires WellFormed(m) && m.board.Some? && |m.board.value| > 0 && c.col == c.row
    ensures CellTypeAt(m, c) == CellAt(m, c)
  {
  }

  /** Off the diagonal it is not: on the one-row board "WE" the implementation throws
      `ArrayIndexOutOfBoundsException` for column 1 of row 0, which holds END; on the
      square board "WE"/"SW" it answers START for that cell. */
  lemma TransposedReadDiffers()
    ensures var wide := State(Some([[WALL, END]]), None, None);
      CellTypeAt(wide, Coord(1, 0)) == Raised(ArrayIndexOutOfBoundsException) &&
      CellAt(wide, Coord(1, 0)) == Ok(END)
    ensures var square := State(Some([[WALL, END], [START, WALL]]), None, None);
      CellTypeAt(square, Coord(1, 0)) == Ok(START) &&
      CellAt(square, Coord(1, 0)) == Ok(END)
  {
  }

  /** `setCellType(c, type)` as documented: a coordinate outside the board raises
      `CellException`, a cell that is not EMPTY may not be overwritten, and otherwise
      the cell takes `type`; a START cell also becomes the start and the player's position. */
  function SetCell(m: State, c: Coord, t: CellType): (Status, State) {
    if m.board.None? then (Thrown(NullPointerException), m)
    else
      var g := m.board.value;
      if !InBounds(g, c) then (Thrown(CellException(c.col, c.row)), m)
      else if g[c.row][c.col] != EMPTY then (Thrown(InvalidMoveException), m)
      else
        var written := m.(board := Some(g[c.row := g[c.row][c.col := t]]));
        if t == START then (Returned, written.(start := Some(c), position := Some(c)))
        else (Returned, written)
  }

  /** The documented contract of `setCellType`: both error cases, exactly when they
      apply, change nothing; a successful write is read back, leaves every other cell
      alone, and a START write places the player. */
  lemma SetCellContract(m: State, c: Coord, t: CellType)
    requires WellFormed(m) && m.board.Some?
    ensures var g := m.board.value; var (s, m') := SetCell(m, c, t);
      (s == Thrown(CellException(c.col, c.row)) <==> !InBounds(g, c)) &&
      (s == Thrown(InvalidMoveException) <==> InBounds(g, c) && g[c.row][c.col] != EMPTY) &&
      (s != Returned ==> m' == m) &&
      (s == Returned ==>
        CellAt(m', c) == Ok(t) &&
        (forall c' :: c' != c ==> CellAt(m', c') == CellAt(m, c')) &&
        (t == START ==> m'.start == Some(c) && m'.position == Some(c)) &&
        (t != START ==> m'.start == m.start && m'.position == m.position))
  {
  }

  /** Writing a cell twice: the documented operation refuses the second write and keeps
      the first value. */
  lemma SecondWriteRejected(m: State, c: Coord, t1: CellType, t2: CellType)
    requires WellFormed(m) && m.board.Some? && InBounds(m.board.value, c)
    requires m.board.value[c.row][c.col] == EMPTY && t1 != EMPTY
    ensures var m1 := SetCell(m, c, t1).1;
      SetCell(m1, c, t2) == (Thrown(InvalidMoveException), m1) &&
      CellAt(m1, c) == Ok(t1)
  {
  }

  /** The implementation accepts the second write: it prints the exception and then
      overwrites the WALL with `t`. */
  lemma SecondWriteAccepted(m: State, c: Coord, t: CellType)
    requires WellFormed(m) && m.board.Some? && InBounds(m.board.value, c) && t != START
    ensures var m1 := Maze.SetCell(m, c, WALL).1; var (s, m2) := Maze.SetCell(m1, c, t);
      s == Logged(InvalidMoveException) && m2.board.value[c.row][c.col] == t
  {
  }

  /** One past the last row: the implementation throws `ArrayIndexOutOfBoundsException`
      where `CellException` is documented. */
  lemma RowPastEnd(m: State, col: Int32)
    requires WellFormed(m) && m.board.Some? && |m.board.value| < MAX_INT && 0 <= col
    ensures var c := Coord(col, |m.board.value|);
      Maze.SetCell(m, c, WALL).0 == Thrown(ArrayIndexOutOfBoundsException) &&
      SetCell(m, c, WALL).0 == Thrown(CellException(col, |m.board.value|))
  {
  }

  /** With the documented START write the player can move: on a one-row board of two
      EMPTY cells, START at column 0 followed by a move EAST succeeds, where the
      implementation throws `NullPointerException`. */
  lemma PlacedPlayerMoves()
    ensures var m0 := SetSize(Init, 2, 1).1;
      var placed := SetCell(m0, Coord(0, 0), START).1;
      Move(placed, EAST) == (Returned, placed.(position := Some(Coord(1, 0)))) &&
      Move(Maze.SetCell(m0, Coord(0, 0), START).1, EAST).0 == Thrown(NullPointerException)
  {
  }

  /** `hasPlayerFinished()` as documented: the cell under the player is END. */
  function HasFinished(m: State): Result<bool> {
    if m.position.None? then Raised(NullPointerException)
    else
      match CellAt(m, m.position.value)
      case Raised(e) => Raised(e)
      case Ok(cell) => Ok(cell == END)
  }

  /** A move that lands on END finishes the game, and a move onto any other cell does not. */
  lemma MoveFinishesOnEnd(m: State, d: Direction)
    requires WellFormed(m) && Move(m, d).0 == Returned
    ensures var m' := Move(m, d).1; var p := m'.position.value;
      HasFinished(m') == Ok(m.board.value[p.row][p.col] == END)
  {
  }

  /** The cell at `c` exists and is EMPTY. */
  predicate Open(m: State, c: Coord) {
    CellAt(m, c) == Ok(EMPTY)
  }

  /** `possibleMoves()` as documented, in the order the implementation tries them. */
  function PossibleMoves(m: State): Result<seq<Direction>> {
    if m.position.None? then Raised(NullPointerException)
    else
      var p := m.position.value;
      Ok((if Open(m, Neighbour(p, SOUTH)) then [SOUTH] else []) +
         (if Open(m, Neighbour(p, NORTH)) then [NORTH] else []) +
         (if Open(m, Neighbour(p, EAST)) then [EAST] else []) +
         (if Open(m, Neighbour(p, WEST)) then [WEST] else []))
  }

  /** A direction is offered exactly when the neighbour that way is EMPTY, once each. */
  lemma PossibleMovesMembers(m: State, d: Direction)
    requires m.position.Some?
    ensures var r := PossibleMoves(m).value;
      (d in r <==> Open(m, Neighbour(m.position.value, d))) &&
      multiset(r)[d] <= 1
  {
  }

  /** Every direction offered is a move the implementation's `movePlayer` accepts, and it
      takes the player to that neighbour. */
  lemma PossibleMovesAreLegal(m: State, d: Direction)
    requires WellFormed(m) && m.position.Some? && d in PossibleMoves(m).value
    ensures Move(m, d) == (Returned, m.(position := Some(Neighbour(m.position.value, d))))
  {
  }

  /** END is never offered, although `movePlayer` enters it. */
  lemma EndNotOffered(m: State, d: Direction)
    requires WellFormed(m) && m.position.Some? && m.board.Some?
    requires InBounds(m.board.value, m.position.value)
    requires var n := Neighbour(m.position.value, d); InBounds(m.board.value, n) && m.board.value[n.row][n.col] == END
    ensures d !in PossibleMoves(m).value && Move(m, d).0 == Returned
  {
  }

  /** On the one-row board START, EMPTY with the player on START, EAST is offered; on
      START, END with the player on END the game is finished. The implementation answers
      an empty list and false for both. */
  lemma OpenNeighbourOffered()
    ensures var m := State(Some([[START, EMPTY]]), Some(Coord(0, 0)), Some(Coord(0, 0)));
      PossibleMoves(m) == Ok([EAST]) && HasFinished(m) == Ok(false) &&
      Offered(m) == Ok([]) && Finished(m) == Ok(false)
    ensures var m := State(Some([[START, END]]), Some(Coord(0, 0)), Some(Coord(1, 0)));
      HasFinished(m) == Ok(true) && Offered(m) == Ok([]) && Finished(m) == Ok(false)
  {
    var m := State(Some([[START, EMPTY]]), Some(Coord(0, 0)), Some(Coord(0, 0)));
    assert Open(m, Coord(1, 0));
    assert !Open(m, Coord(0, 1)) && !Open(m, Coord(0, -1)) && !Open(m, Coord(-1, 0));
    var p := Coord(0, 0);
    assert Neighbour(p, SOUTH) == Coord(0, 1) && Neighbour(p, NORTH) == Coord(0, -1);
    assert Neighbour(p, EAST) == Coord(1, 0) && Neighbour(p, WEST) == Coord(-1, 0);
    assert [] + [] + [EAST] + [] == [EAST];
  }
}
