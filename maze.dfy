/** The state of a `LabyrinthImpl` as a value, and what each of its operations does
    to that value, exactly as the implementation is written (bugs included).
    `Labyrinth.LabyrinthImpl` is proved to behave as these functions say. */
module Maze {
  import opened Types
  import opened JavaParse

  /** A board stored row by row: `g[row][col]`, like `CellType[height][width]`. */
  type Grid = seq<seq<CellType>>

  /** `labBoard` (`None` while it is `null`), `playerStart` and `myPosition`. */
  datatype State = State(board: Option<Grid>, start: Option<Coord>, position: Option<Coord>)

  /** A freshly constructed `LabyrinthImpl`: every field is `null`. */
  const Init: State := State(None, None, None)

  /** Every row has length `w`. */
  predicate Rect(g: Grid, w: int) {
    forall i :: 0 <= i < |g| ==> |g[i]| == w
  }

  /** A board the Java code can hold: rectangular, with `int`-sized dimensions. */
  predicate WellFormed(m: State) {
    m.board.Some? ==>
      var g := m.board.value;
      |g| <= MAX_INT && (|g| > 0 ==> |g[0]| <= MAX_INT && Rect(g, |g[0]|))
  }

  /** `c` names a cell of `g`. */
  predicate InBounds(g: Grid, c: Coord) {
    0 <= c.row < |g| && 0 <= c.col < |g[c.row]|
  }

  /** The coordinate one step away in direction `d`, with Java `int` arithmetic:
      NORTH is row - 1, SOUTH row + 1, EAST col + 1, WEST col - 1. */
  function Neighbour(p: Coord, d: Direction): Coord {
    match d
    case NORTH => Coord(p.col, SubOne(p.row))
    case SOUTH => Coord(p.col, AddOne(p.row))
    case EAST => Coord(AddOne(p.col), p.row)
    case WEST => Coord(SubOne(p.col), p.row)
  }

  /** The Java expression `labBoard[row][col]`. */
  function Probe(board: Option<Grid>, row: int, col: int): (r: Result<CellType>)
    ensures r.Ok? <==> board.Some? && 0 <= row < |board.value| && 0 <= col < |board.value[row]|
    ensures r.Ok? ==> r.value == board.value[row][col]
  {
    if board.None? then Raised(NullPointerException)
    else if !(0 <= row < |board.value|) then Raised(ArrayIndexOutOfBoundsException)
    else if !(0 <= col < |board.value[row]|) then Raised(ArrayIndexOutOfBoundsException)
    else Ok(board.value[row][col])
  }

  // ---------------------------------------------------------------- queries

  /** `getWidth()`: -1 without a board, else the length of row 0. */
  function Width(m: State): Result<int> {
    if m.board.None? then Ok(-1)
    else if |m.board.value| == 0 then Raised(ArrayIndexOutOfBoundsException)
    else Ok(|m.board.value[0]|)
  }

  /** `getHeight()`: -1 without a board, else the number of rows. */
  function Height(m: State): int {
    if m.board.None? then -1 else |m.board.value|
  }

  /** `getCellType(c)`: the bounds test is on (col, row), the read is `labBoard[col][row]`. */
  function CellTypeAt(m: State, c: Coord): Result<CellType> {
    if m.board.None? then Raised(NullPointerException)
    else
      var g := m.board.value;
      if |g| == 0 then Raised(ArrayIndexOutOfBoundsException)
      else if c.col >= |g[0]| || c.col < 0 || c.row >= |g| || c.row < 0 then
        Raised(CellException(c.col, c.row))
      else Probe(m.board, c.col, c.row)
  }

  // ---------------------------------------------------------------- setSize

  /** A `height` x `width` board of EMPTY cells. */
  function Blank(height: nat, width: nat): (g: Grid)
    ensures |g| == height && Rect(g, width)
    ensures forall i, j :: 0 <= i < height && 0 <= j < width ==> g[i][j] == EMPTY
  {
    seq(height, _ => seq(width, _ => EMPTY))
  }

  /** `setSize(width, height)`. */
  function SetSize(m: State, width: Int32, height: Int32): (Status, State) {
    if width < 0 || height < 0 then (Thrown(CellException(width, height)), m)
    else (Returned, m.(board := Some(Blank(height, width))))
  }

  // ---------------------------------------------------------------- loadLabyrinthFile

  /** The `switch` on one character of a board line. */
  function CharToCell(ch: char): CellType {
    match ch
    case 'W' => WALL
    case 'E' => END
    case 'S' => START
    case _ => EMPTY
  }

  /** The first `height` lines exist and each has at least `width` characters. */
  predicate LinesFit(lines: seq<string>, height: int, width: int) {
    height <= |lines| && forall i :: 0 <= i < height ==> width <= |lines[i]|
  }

  /** What the loader needs to avoid an uncaught exception once the board has been
      replaced: after two good numbers, enough lines that are long enough. */
  predicate LoadPre(widthLine: string, heightLine: string, lines: seq<string>) {
    var w := ParseInt(widthLine);
    var h := ParseInt(heightLine);
    w.Some? && h.Some? && w.value >= 0 && h.value >= 0 ==> LinesFit(lines, h.value, w.value)
  }

  /** The board the nested loops of the loader fill in. */
  function Decode(lines: seq<string>, height: nat, width: nat): (g: Grid)
    requires LinesFit(lines, height, width)
    ensures |g| == height && Rect(g, width)
    ensures forall i, j :: 0 <= i < height && 0 <= j < width ==> g[i][j] == CharToCell(lines[i][j])
  {
    seq(height, i requires 0 <= i < height => seq(width, j requires 0 <= j < width => CharToCell(lines[i][j])))
  }

  /** `loadLabyrinthFile` after the file has been split into lines: a number that does
      not parse is caught and printed; a negative size throws before `labBoard` is touched. */
  function Load(m: State, widthLine: string, heightLine: string, lines: seq<string>): (Status, State)
    requires LoadPre(widthLine, heightLine, lines)
  {
    match (ParseInt(widthLine), ParseInt(heightLine))
    case (None, _) => (Logged(NumberFormatException), m)
    case (_, None) => (Logged(NumberFormatException), m)
    case (Some(w), Some(h)) =>
      if w < 0 || h < 0 then (Thrown(NegativeArraySizeException), m)
      else (Returned, m.(board := Some(Decode(lines, h, w))))
  }

  // ---------------------------------------------------------------- setCellType

  /** `setCellType(c, type)`: the read of `labBoard[row][col]` is the only check that
      can fire; a non-EMPTY cell is reported and then overwritten all the same; the
      `CellException` test uses `>` and can never be true once the read succeeded;
      START only records the start. */
  function SetCell(m: State, c: Coord, t: CellType): (Status, State) {
    match Probe(m.board, c.row, c.col)
    case Raised(e) => (Thrown(e), m)
    case Ok(old_) =>
      var g := m.board.value;
      if c.row > |g| || c.row < 0 || c.col > |g[0]| || c.col < 0 then
        (Thrown(CellException(c.row, c.col)), m)
      else
        var status := if old_ != EMPTY then Logged(InvalidMoveException) else Returned;
        if t == START then (status, m.(start := Some(c)))
        else (status, m.(board := Some(g[c.row := g[c.row][c.col := t]])))
  }

  // ---------------------------------------------------------------- movePlayer

  /** Where `movePlayer(d)` takes the player, or the exception it throws. */
  function MoveTarget(m: State, d: Direction): Result<Coord> {
    if m.position.None? then Raised(NullPointerException)
    else
      var p := m.position.value;
      var n := Neighbour(p, d);
      match d
      case NORTH =>
        if n.row < 0 then Raised(InvalidMoveException)
        else Enter(m.board, n)
      case SOUTH =>
        if n.row >= Height(m) then Raised(InvalidMoveException)
        else Enter(m.board, n)
      case EAST =>
        (match Width(m)
         case Raised(e) => Raised(e)
         case Ok(w) => if n.col >= w then Raised(InvalidMoveException) else Enter(m.board, n))
      case WEST =>
        if n.col < 0 then Raised(InvalidMoveException)
        else Enter(m.board, n)
  }

  /** Reads the destination cell; a WALL refuses the move. */
  function Enter(board: Option<Grid>, n: Coord): Result<Coord> {
    match Probe(board, n.row, n.col)
    case Raised(e) => Raised(e)
    case Ok(cell) => if cell == WALL then Raised(InvalidMoveException) else Ok(n)
  }

  /** `movePlayer(d)`: only the position can change. */
  function Move(m: State, d: Direction): (r: (Status, State))
    ensures r.1.board == m.board && r.1.start == m.start
    ensures r.0 == Returned <==> r.1.position != m.position
  {
    match MoveTarget(m, d)
    case Raised(e) => (Thrown(e), m)
    case Ok(n) =>
      assert n != m.position.value by {
        var p := m.position.value;
        assert n == Neighbour(p, d);
        assert d.NORTH? || d.SOUTH? ==> n.row != p.row;
      }
      (Returned, m.(position := Some(n)))
  }

  // ---------------------------------------------------------------- hasPlayerFinished, possibleMoves

  /** Java's `Coordinate.equals(Object)` given a `CellType`: objects of different
      classes are never equal. */
  function CoordinateEquals(p: Coord, t: CellType): bool {
    false
  }

  /** `hasPlayerFinished()`: the position object itself is compared with END. */
  function Finished(m: State): (r: Result<bool>)
    ensures r != Ok(true)
    ensures r.Raised? <==> m.position.None?
    ensures r.Raised? ==> r.exc == NullPointerException
  {
    if m.position.None? then Raised(NullPointerException)
    else Ok(CoordinateEquals(m.position.value, END))
  }

  /** `possibleMoves()`: each neighbour coordinate itself is compared with EMPTY, the
      column neighbours labelled SOUTH and NORTH, the row neighbours EAST and WEST. */
  function Offered(m: State): (r: Result<seq<Direction>>)
    ensures r.Raised? <==> m.position.None?
    ensures r.Raised? ==> r.exc == NullPointerException
    ensures r.Ok? ==> r.value == []
  {
    if m.position.None? then Raised(NullPointerException)
    else
      var p := m.position.value;
      Ok((if CoordinateEquals(Coord(AddOne(p.col), p.row), EMPTY) then [SOUTH] else []) +
         (if CoordinateEquals(Coord(SubOne(p.col), p.row), EMPTY) then [NORTH] else []) +
         (if CoordinateEquals(Coord(p.col, AddOne(p.row)), EMPTY) then [EAST] else []) +
         (if CoordinateEquals(Coord(p.col, SubOne(p.row)), EMPTY) then [WEST] else []))
  }

  // ---------------------------------------------------------------- properties

  /** Every operation that changes state keeps the board one the Java code can hold. */
  lemma SetSizeWellFormed(m: State, width: Int32, height: Int32)
    requires WellFormed(m)
    ensures WellFormed(SetSize(m, width, height).1)
  {
  }

  lemma LoadWellFormed(m: State, widthLine: string, heightLine: string, lines: seq<string>)
    requires WellFormed(m) && LoadPre(widthLine, heightLine, lines)
    ensures WellFormed(Load(m, widthLine, heightLine, lines).1)
  {
  }

  lemma SetCellWellFormed(m: State, c: Coord, t: CellType)
    requires WellFormed(m)
    ensures WellFormed(SetCell(m, c, t).1)
  {
  }

  /** The size queries: -1 without a board, else the row length and the row count. */
  lemma SizeQueries(m: State)
    requires WellFormed(m)
    ensures m.board.None? ==> Width(m) == Ok(-1) && Height(m) == -1
    ensures m.board.Some? && |m.board.value| > 0 ==>
      Height(m) == |m.board.value| &&
      forall i :: 0 <= i < |m.board.value| ==> Width(m) == Ok(|m.board.value[i]|)
  {
  }

  /** `setSize`: a negative dimension throws and changes nothing; otherwise the board is
      an all-EMPTY `height` x `width` grid and, when `height > 0`, the size queries answer
      exactly `width` and `height` (with `height == 0`, `getWidth` has no row 0 to read). */
  lemma SetSizeQueries(m: State, width: Int32, height: Int32)
    ensures var (s, m') := SetSize(m, width, height);
      (width < 0 || height < 0 <==> s == Thrown(CellException(width, height))) &&
      (s.Thrown? ==> m' == m) &&
      (s == Returned ==>
        m'.start == m.start && m'.position == m.position &&
        Height(m') == height &&
        (height > 0 ==> Width(m') == Ok(width as int)) &&
        (height == 0 ==> Width(m') == Raised(ArrayIndexOutOfBoundsException)) &&
        forall i, j :: 0 <= i < height && 0 <= j < width ==> m'.board.value[i][j] == EMPTY)
  {
  }

  /** Loading, success case: the board is `height` x `width`, each cell decoded from the
      character at the same place, START included; nothing else changes. */
  lemma LoadSucceeds(m: State, widthLine: string, heightLine: string, lines: seq<string>, w: Int32, h: Int32)
    requires ParseInt(widthLine) == Some(w) && ParseInt(heightLine) == Some(h)
    requires w >= 0 && h >= 0 && LinesFit(lines, h, w)
    ensures var (s, m') := Load(m, widthLine, heightLine, lines);
      s == Returned && m'.start == m.start && m'.position == m.position &&
      m'.board.Some? && |m'.board.value| == h && Rect(m'.board.value, w) &&
      forall i, j :: 0 <= i < h && 0 <= j < w ==>
        (m'.board.value[i][j] == WALL <==> lines[i][j] == 'W') &&
        (m'.board.value[i][j] == END <==> lines[i][j] == 'E') &&
        (m'.board.value[i][j] == START <==> lines[i][j] == 'S') &&
        (m'.board.value[i][j] == EMPTY <==> lines[i][j] !in "WES")
  {
  }

  /** Loading, failure cases: a line that is not a number is reported, a negative one
      throws, and in both cases the whole state is left exactly as it was. */
  lemma LoadFails(m: State, widthLine: string, heightLine: string, lines: seq<string>)
    requires LoadPre(widthLine, heightLine, lines)
    ensures var (s, m') := Load(m, widthLine, heightLine, lines);
      (s == Logged(NumberFormatException) <==> ParseInt(widthLine).None? || ParseInt(heightLine).None?) &&
      (s != Returned ==> m' == m)
  {
  }

  /** `getCellType` on a board with at least one row: the `CellException` is raised
      exactly for coordinates outside `[0,width) x [0,height)`; the read then succeeds
      only if the coordinate also fits the transposed shape, and returns `g[col][row]`. */
  lemma CellTypeAtBounds(m: State, c: Coord)
    requires WellFormed(m) && m.board.Some? && |m.board.value| > 0
    ensures var g := m.board.value; var r := CellTypeAt(m, c);
      (r == Raised(CellException(c.col, c.row)) <==>
        !(0 <= c.col < |g[0]| && 0 <= c.row < |g|)) &&
      (r.Ok? <==> 0 <= c.col < |g[0]| && 0 <= c.row < |g| && c.col < |g| && c.row < |g[0]|) &&
      (r.Ok? ==> r.value == g[c.col][c.row]) &&
      (!r.Ok? ==> r == Raised(CellException(c.col, c.row)) || r == Raised(ArrayIndexOutOfBoundsException))
  {
  }

  /** `setCellType` with START records the start and nothing else. */
  lemma SetCellStart(m: State, c: Coord)
    requires WellFormed(m) && m.board.Some? && InBounds(m.board.value, c)
    ensures var (s, m') := SetCell(m, c, START);
      s != Thrown(InvalidMoveException) && !s.Thrown? &&
      m' == m.(start := Some(c))
  {
  }

  /** `setCellType` with any other type overwrites exactly that cell, whatever it held:
      the "not EMPTY" exception is only printed. */
  lemma SetCellOverwrites(m: State, c: Coord, t: CellType)
    requires WellFormed(m) && m.board.Some? && InBounds(m.board.value, c) && t != START
    ensures var g := m.board.value; var (s, m') := SetCell(m, c, t);
      (s == Logged(InvalidMoveException) <==> g[c.row][c.col] != EMPTY) &&
      (s == Returned <==> g[c.row][c.col] == EMPTY) &&
      m'.start == m.start && m'.position == m.position && m'.board.Some? &&
      var g' := m'.board.value;
      |g'| == |g| &&
      (forall i :: 0 <= i < |g| ==> |g'[i]| == |g[i]|) &&
      g'[c.row][c.col] == t &&
      (forall i, j :: 0 <= i < |g| && 0 <= j < |g[i]| && (i, j) != (c.row, c.col) ==> g'[i][j] == g[i][j])
  {
  }

  /** Outside the board `setCellType` fails at the array read with
      `ArrayIndexOutOfBoundsException`, and never with the `CellException` it declares. */
  lemma SetCellNeverCellException(m: State, c: Coord, t: CellType, col: int, row: int)
    requires WellFormed(m) && m.board.Some?
    ensures SetCell(m, c, t).0 != Thrown(CellException(col, row))
    ensures !InBounds(m.board.value, c) <==> SetCell(m, c, t) == (Thrown(ArrayIndexOutOfBoundsException), m)
  {
  }

  /** The move rule, from a position on the board: the player moves by exactly the
      direction's step iff the destination is on the board and is not a WALL (END, START
      and EMPTY can all be entered); otherwise `InvalidMoveException` is thrown. */
  lemma MoveRule(m: State, d: Direction)
    requires WellFormed(m) && m.board.Some? && m.position.Some?
    requires InBounds(m.board.value, m.position.value)
    ensures var g := m.board.value; var p := m.position.value; var n := Neighbour(p, d);
      var (s, m') := Move(m, d);
      (s == Returned <==> InBounds(g, n) && g[n.row][n.col] != WALL) &&
      (s == Returned ==> m' == m.(position := Some(n))) &&
      (s != Returned ==> s == Thrown(InvalidMoveException) && m' == m)
  {
  }

  /** From any position, a move that succeeds lands on a cell of the board that is not a
      WALL, one step away (no `int` wrap-around can get through). */
  lemma MoveLandsInBounds(m: State, d: Direction)
    requires WellFormed(m)
    ensures var (s, m') := Move(m, d);
      s == Returned ==>
        m.position.Some? && m.board.Some? && m'.position == Some(Neighbour(m.position.value, d)) &&
        InBounds(m.board.value, Neighbour(m.position.value, d)) &&
        m.board.value[m'.position.value.row][m'.position.value.col] != WALL
  {
  }

  /** A move that failed once fails again the same way and changes nothing, however
      often it is repeated. */
  lemma FailedMoveIdempotent(m: State, d: Direction)
    requires Move(m, d).0 != Returned
    ensures Move(m, d).1 == m && Move(Move(m, d).1, d) == Move(m, d)
  {
  }

  // ---------------------------------------------------------------- runs

  /** The operations that change a `LabyrinthImpl`. */
  datatype Op =
    | LoadOp(widthLine: string, heightLine: string, lines: seq<string>)
    | SetSizeOp(width: Int32, height: Int32)
    | SetCellOp(c: Coord, t: CellType)
    | MoveOp(d: Direction)

  predicate OpPre(op: Op) {
    op.LoadOp? ==> LoadPre(op.widthLine, op.heightLine, op.lines)
  }

  function Apply(m: State, op: Op): State
    requires OpPre(op)
  {
    match op
    case LoadOp(wl, hl, lines) => Load(m, wl, hl, lines).1
    case SetSizeOp(w, h) => SetSize(m, w, h).1
    case SetCellOp(c, t) => SetCell(m, c, t).1
    case MoveOp(d) => Move(m, d).1
  }

  /** The state after running `ops` in order from `m`. */
  function Run(m: State, ops: seq<Op>): State
    requires forall i :: 0 <= i < |ops| ==> OpPre(ops[i])
    decreases |ops|
  {
    if ops == [] then m else Run(Apply(m, ops[0]), ops[1..])
  }

  /** Nothing ever gives `myPosition` a value: from a fresh object, after any sequence
      of operations, the position is still `null`. */
  lemma {:induction false} PositionNeverSet(m: State, ops: seq<Op>)
    requires m.position.None?
    requires forall i :: 0 <= i < |ops| ==> OpPre(ops[i])
    ensures Run(m, ops).position.None?
    decreases |ops|
  {
    if ops != [] {
      assert OpPre(ops[0]);
      PositionNeverSet(Apply(m, ops[0]), ops[1..]);
    }
  }

  /** Hence, on an object built by the constructor, every `movePlayer` call throws
      `NullPointerException`, whatever came before it. */
  lemma MoveAlwaysNullPointer(ops: seq<Op>, d: Direction)
    requires forall i :: 0 <= i < |ops| ==> OpPre(ops[i])
    ensures Move(Run(Init, ops), d).0 == Thrown(NullPointerException)
  {
    PositionNeverSet(Init, ops);
  }

  /** Likewise `hasPlayerFinished` and `possibleMoves` always throw
      `NullPointerException` on such an object. */
  lemma QueriesAlwaysNullPointer(ops: seq<Op>)
    requires forall i :: 0 <= i < |ops| ==> OpPre(ops[i])
    ensures Finished(Run(Init, ops)) == Raised(NullPointerException)
    ensures Offered(Run(Init, ops)) == Raised(NullPointerException)
  {
    PositionNeverSet(Init, ops);
  }
}
