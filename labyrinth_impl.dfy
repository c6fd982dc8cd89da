/** `LabyrinthImpl`: the maze state machine, with the board as a two-dimensional array
    that the methods fill and write in place. Each operation is proved to do to
    `Model()` what the matching function of module `Maze` says. */
module Labyrinth {
  import opened Types
  import opened JavaParse
  import opened Maze

  /** The contents of a board array, row by row. */
  ghost function Snapshot(a: array2<CellType>): (g: Grid)
    reads a
    ensures |g| == a.Length0 && Rect(g, a.Length1)
    ensures forall i, j :: 0 <= i < a.Length0 && 0 <= j < a.Length1 ==> g[i][j] == a[i, j]
  {
    seq(a.Length0, i requires 0 <= i < a.Length0 reads a =>
      seq(a.Length1, j requires 0 <= j < a.Length1 reads a => a[i, j]))
  }

  /** Two boards of the same shape that agree on every cell are equal. */
  lemma GridsEqual(g: Grid, h: Grid, rows: nat, cols: nat)
    requires |g| == |h| == rows && Rect(g, cols) && Rect(h, cols)
    requires forall i, j :: 0 <= i < rows && 0 <= j < cols ==> g[i][j] == h[i][j]
    ensures g == h
  {
    forall i | 0 <= i < rows ensures g[i] == h[i] {
      assert forall j :: 0 <= j < cols ==> g[i][j] == h[i][j];
    }
  }

  class LabyrinthImpl {
    var labBoard: array2?<CellType>
    var playerStart: Option<Coord>
    var myPosition: Option<Coord>

    /** Array dimensions are Java `int`s. */
    ghost predicate Valid()
      reads this
    {
      labBoard != null ==> labBoard.Length0 <= MAX_INT && labBoard.Length1 <= MAX_INT
    }

    /** The state as a value. */
    ghost function Model(): (m: State)
      reads this, labBoard
      ensures Valid() ==> WellFormed(m)
    {
      State(if labBoard == null then None else Some(Snapshot(labBoard)), playerStart, myPosition)
    }

    constructor ()
      ensures Valid() && Model() == Init
    {
      labBoard := null;
      playerStart := None;
      myPosition := None;
    }

    /** `getWidth()`. */
    function GetWidth(): (r: Result<int>)
      reads this, labBoard
      ensures r == Width(Model())
    {
      if labBoard == null then Ok(-1)
      else if labBoard.Length0 == 0 then Raised(ArrayIndexOutOfBoundsException)
      else Ok(labBoard.Length1)
    }

    /** `getHeight()`. */
    function GetHeight(): (r: int)
      reads this, labBoard
      ensures r == Height(Model())
    {
      if labBoard == null then -1 else labBoard.Length0
    }

    /** `getCellType(c)`: note the transposed read `labBoard[col][row]`. */
    function GetCellType(c: Coord): (r: Result<CellType>)
      reads this, labBoard
      ensures r == CellTypeAt(Model(), c)
    {
      if labBoard == null then Raised(NullPointerException)
      else if labBoard.Length0 == 0 then Raised(ArrayIndexOutOfBoundsException)
      else if c.col >= labBoard.Length1 || c.col < 0 || c.row >= labBoard.Length0 || c.row < 0 then
        Raised(CellException(c.col, c.row))
      else if c.col >= labBoard.Length0 || c.row >= labBoard.Length1 then
        Raised(ArrayIndexOutOfBoundsException)
      else Ok(labBoard[c.col, c.row])
    }

    /** `loadLabyrinthFile`, given the width line, the height line and the board lines. */
    method LoadLabyrinth(widthLine: string, heightLine: string, lines: seq<string>) returns (s: Status)
      requires Valid() && LoadPre(widthLine, heightLine, lines)
      modifies this
      ensures Valid() && (s, Model()) == Load(old(Model()), widthLine, heightLine, lines)
      ensures labBoard != old(labBoard) ==> fresh(labBoard)
    {
      var width := ParseInt(widthLine);
      if width.None? {
        return Logged(NumberFormatException);
      }
      var height := ParseInt(heightLine);
      if height.None? {
        return Logged(NumberFormatException);
      }
      var w, h := width.value, height.value;
      if w < 0 || h < 0 {
        return Thrown(NegativeArraySizeException);
      }
      var board := new CellType[h, w];
      labBoard := board;
      for hh := 0 to h
        modifies board
        invariant forall i, j :: 0 <= i < hh && 0 <= j < w ==> board[i, j] == CharToCell(lines[i][j])
      {
        var line := lines[hh];
        for ww := 0 to w
          modifies board
          invariant forall i, j :: 0 <= i < hh && 0 <= j < w ==> board[i, j] == CharToCell(lines[i][j])
          invariant forall j :: 0 <= j < ww ==> board[hh, j] == CharToCell(line[j])
        {
          board[hh, ww] := CharToCell(line[ww]);
        }
      }
      GridsEqual(Snapshot(board), Decode(lines, h, w), h, w);
      s := Returned;
    }

    /** `setSize(width, height)`: a fresh all-EMPTY board replaces the old one. */
    method SetSize(width: Int32, height: Int32) returns (s: Status)
      requires Valid()
      modifies this
      ensures Valid() && (s, Model()) == Maze.SetSize(old(Model()), width, height)
      ensures labBoard != old(labBoard) ==> fresh(labBoard)
    {
      if width < 0 || height < 0 {
        return Thrown(CellException(width, height));
      }
      var newBoard := new CellType[height, width];
      for i := 0 to newBoard.Length0
        modifies newBoard
        invariant forall k, j :: 0 <= k < i && 0 <= j < width ==> newBoard[k, j] == EMPTY
      {
        for j := 0 to newBoard.Length1
          modifies newBoard
          invariant forall k, l :: 0 <= k < i && 0 <= l < width ==> newBoard[k, l] == EMPTY
          invariant forall l :: 0 <= l < j ==> newBoard[i, l] == EMPTY
        {
          newBoard[i, j] := EMPTY;
        }
      }
      labBoard := newBoard;
      GridsEqual(Snapshot(newBoard), Blank(height, width), height, width);
      s := Returned;
    }

    /** `setCellType(c, type)`. */
    method SetCellType(c: Coord, t: CellType) returns (s: Status)
      requires Valid()
      modifies this, labBoard
      ensures Valid() && labBoard == old(labBoard)
      ensures (s, Model()) == SetCell(old(Model()), c, t)
    {
      if labBoard == null {
        return Thrown(NullPointerException);
      }
      if !(0 <= c.row < labBoard.Length0 && 0 <= c.col < labBoard.Length1) {
        return Thrown(ArrayIndexOutOfBoundsException);
      }
      // the "not EMPTY" exception is caught at once and only printed
      var status := if labBoard[c.row, c.col] != EMPTY then Logged(InvalidMoveException) else Returned;
      if c.row > labBoard.Length0 || c.row < 0 || c.col > labBoard.Length1 || c.col < 0 {
        return Thrown(CellException(c.row, c.col));
      }
      ghost var before := Snapshot(labBoard);
      if t == START {
        playerStart := Some(c);
      } else {
        labBoard[c.row, c.col] := t;
        GridsEqual(Snapshot(labBoard), before[c.row := before[c.row][c.col := t]],
          labBoard.Length0, labBoard.Length1);
      }
      s := status;
    }

    /** `getPlayerPosition()`. */
    function GetPlayerPosition(): (r: Option<Coord>)
      reads this
      ensures r == Model().position
    {
      myPosition
    }

    /** `hasPlayerFinished()`: compares the position object with END, so it can never
        answer true; without a position it throws. */
    function HasPlayerFinished(): (r: Result<bool>)
      reads this, labBoard
      ensures r == Finished(Model())
    {
      if myPosition.None? then Raised(NullPointerException)
      else Ok(CoordinateEquals(myPosition.value, END))
    }

    /** `possibleMoves()`: each neighbour coordinate is compared with EMPTY as an object,
        so no direction is ever added; without a position it throws. */
    method PossibleMoves() returns (r: Result<seq<Direction>>)
      ensures r == Offered(Model())
    {
      if myPosition == None {
        return Raised(NullPointerException);
      }
      var p := myPosition.value;
      var dirList: seq<Direction> := [];
      var down := Coord(AddOne(p.col), p.row);
      if CoordinateEquals(down, EMPTY) {
        dirList := dirList + [SOUTH];
      }
      var up := Coord(SubOne(p.col), p.row);
      if CoordinateEquals(up, EMPTY) {
        dirList := dirList + [NORTH];
      }
      var right := Coord(p.col, AddOne(p.row));
      if CoordinateEquals(right, EMPTY) {
        dirList := dirList + [EAST];
      }
      var left := Coord(p.col, SubOne(p.row));
      if CoordinateEquals(left, EMPTY) {
        dirList := dirList + [WEST];
      }
      r := Ok(dirList);
    }

    /** Java `labBoard[row][col] == CellType.WALL`, or the exception that read throws. */
    function IsWallAt(row: int, col: int): (r: Result<bool>)
      reads this, labBoard
      ensures r == match Probe(Model().board, row, col)
                   case Raised(e) => Raised(e)
                   case Ok(cell) => Ok(cell == WALL)
    {
      if labBoard == null then Raised(NullPointerException)
      else if !(0 <= row < labBoard.Length0 && 0 <= col < labBoard.Length1) then
        Raised(ArrayIndexOutOfBoundsException)
      else Ok(labBoard[row, col] == WALL)
    }

    /** `movePlayer(direction)`. */
    method MovePlayer(d: Direction) returns (s: Status)
      requires Valid()
      modifies this`myPosition
      ensures Valid() && (s, Model()) == Move(old(Model()), d)
    {
      if myPosition == None {
        return Thrown(NullPointerException);
      }
      var p := myPosition.value;
      var next: Coord;
      match d {
      case NORTH =>
        var row := SubOne(p.row);
        if row < 0 {
          return Thrown(InvalidMoveException);
        }
        next := Coord(p.col, row);
      case SOUTH =>
        var row := AddOne(p.row);
        if row >= GetHeight() {
          return Thrown(InvalidMoveException);
        }
        next := Coord(p.col, row);
      case EAST =>
        var col := AddOne(p.col);
        var width := GetWidth();
        if width.Raised? {
          return Thrown(width.exc);
        }
        if col >= width.value {
          return Thrown(InvalidMoveException);
        }
        next := Coord(col, p.row);
      case WEST =>
        var col := SubOne(p.col);
        if col < 0 {
          return Thrown(InvalidMoveException);
        }
        next := Coord(col, p.row);
      }
      var wall := IsWallAt(next.row, next.col);
      if wall.Raised? {
        return Thrown(wall.exc);
      }
      if wall.value {
        return Thrown(InvalidMoveException);
      }
      myPosition := Some(next);
      s := Returned;
    }
  }

  /** A player can never be placed: after `setSize` and a START cell, `movePlayer`
      still meets a `null` position. */
  method StartThenMove(width: Int32, height: Int32, c: Coord, d: Direction) returns (s: Status)
    ensures s == Thrown(NullPointerException)
  {
    var lab := new LabyrinthImpl();
    var _ := lab.SetSize(width, height);
    var _ := lab.SetCellType(c, START);
    s := lab.MovePlayer(d);
  }
}
