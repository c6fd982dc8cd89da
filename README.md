# LabyrinthImpl: a verified model of the maze state machine

This project models `LabyrinthImpl`, the maze state machine of the progmatic
labyrinth project. It holds a board of cells (WALL, EMPTY, START, END) stored as
`CellType[height][width]`, a recorded start coordinate and the live position of the
player. Its operations are the size queries, `setSize`, the board-filling part of
`loadLabyrinthFile`, `getCellType`, `setCellType`, `getPlayerPosition`,
`hasPlayerFinished`, `possibleMoves` and `movePlayer`.

The model follows the code as it is written, including where the code departs from its
own doc comments and from what its names suggest. Where the code looks wrong, the documented
behaviour is also defined and proved, and the difference is shown.

Layout:

- `types.dfy` (`Types`): cells, directions, `Coord(col, row)`, Java `int` (`Int32`, with
  the wrap-around of `x + 1` and `x - 1`), the exceptions as values (`Exc`), and the
  outcomes `Result` (value or thrown exception) and `Status` (returned, returned after
  catching and printing an exception, or threw one).
- `parse_int.dfy` (`JavaParse`): `Integer.parseInt`, used for the width and height lines,
  with `Integer.toString` as its inverse.
- `maze.dfy` (`Maze`): the object's state as a value (`State`) and every operation as a
  function on it, as written; the properties of those functions as lemmas, including a
  run of any sequence of operations (`Run`).
- `labyrinth_impl.dfy` (`Labyrinth`): class `LabyrinthImpl` with the fields `labBoard`
  (an `array2?`, `null` until a board exists), `playerStart` and `myPosition`. The
  nested loops of `setSize` and of the loader fill the array in place, and `setCellType`
  writes one cell. Every method and query is proved to act on `Model()` as the matching
  `Maze` function says.
- `intended.dfy` (`Intended`): the documented behaviour where the code differs, with its
  properties and the lemmas that show the difference.
- `scenarios.dfy` (`Scenarios`): small worked runs.

Exceptions are values. `NullPointerException`, `ArrayIndexOutOfBoundsException` and
`NegativeArraySizeException` are the runtime failures the code reaches. They are
modelled like the declared `CellException` and `InvalidMoveException`. A caught
exception that is printed and then ignored is `Status.Logged`: the `NumberFormatException`
in the loader, and the `InvalidMoveException` in `setCellType`.

Where the code does something other than its names and doc comments suggest, the model follows the code:

- the loader writes START into the board;
- `setCellType` does not refuse a non-EMPTY cell;
- with a coordinate off the board, `setCellType` throws `ArrayIndexOutOfBoundsException`
  instead of `CellException`;
- no operation ever sets the player's position.

## Model

| member | source | states |
|---|---|---|
| Types.AddOne | src/main/java/com/progmatic/labyrinthproject/LabyrinthImpl.java:178 | Java `x + 1` on `int`, as the Java language defines it: the unique `int` congruent to the exact sum modulo 2^32 |
| Types.SubOne | src/main/java/com/progmatic/labyrinthproject/LabyrinthImpl.java:171 | Java `x - 1` on `int`, as the Java language defines it: the unique `int` congruent to the exact difference modulo 2^32 |
| JavaParse.ParseInt | src/main/java/com/progmatic/labyrinthproject/LabyrinthImpl.java:51-52 | `Integer.parseInt`: a result only for a line of one or more digits, or a `-` or `+` followed by one or more digits (any other line, a lone sign or a leading space included, is a `NumberFormatException`); a negative result only for a line starting with `-` |
| JavaParse.ParseDigits | src/main/java/com/progmatic/labyrinthproject/LabyrinthImpl.java:51-52 | any non-empty run of digits, leading zeros allowed, with or without `+`, parses to its value iff that value fits in an `int`; with `-` it parses to minus its value iff that is at least `Integer.MIN_VALUE` |
| JavaParse.ParseShow | src/main/java/com/progmatic/labyrinthproject/LabyrinthImpl.java:51-52 | every `int` printed in decimal parses back to itself |
| JavaParse.ParseRejectsNonDigit | src/main/java/com/progmatic/labyrinthproject/LabyrinthImpl.java:51-52 | any non-digit after the first character is a `NumberFormatException` |
| Maze.Width | src/main/java/com/progmatic/labyrinthproject/LabyrinthImpl.java:32-37 | defines `getWidth` as written, including the read of row 0; its properties are `Maze.SizeQueries` and `Maze.SetSizeQueries` |
| Maze.Height | src/main/java/com/progmatic/labyrinthproject/LabyrinthImpl.java:40-45 | defines `getHeight` as written; its properties are `Maze.SizeQueries` and `Maze.SetSizeQueries` |
| Maze.CellTypeAt | src/main/java/com/progmatic/labyrinthproject/LabyrinthImpl.java:79-84 | defines `getCellType` as written, with the transposed read; its properties are `Maze.CellTypeAtBounds`, `Intended.TransposedReadOnDiagonal` and `Intended.TransposedReadDiffers` |
| Maze.SetSize | src/main/java/com/progmatic/labyrinthproject/LabyrinthImpl.java:87-98 | defines `setSize` as written; its properties are `Maze.SetSizeQueries` and `Maze.SetSizeWellFormed` |
| Maze.CharToCell | src/main/java/com/progmatic/labyrinthproject/LabyrinthImpl.java:57-70 | defines the `switch` on one board character; its properties are `Maze.LoadSucceeds` and `Intended.LoadThenRead` |
| Maze.Load | src/main/java/com/progmatic/labyrinthproject/LabyrinthImpl.java:48-76 | defines the board-filling part of `loadLabyrinthFile` as written; its properties are `Maze.LoadSucceeds`, `Maze.LoadFails` and `Maze.LoadWellFormed` |
| Maze.SetCell | src/main/java/com/progmatic/labyrinthproject/LabyrinthImpl.java:107-123 | defines `setCellType` as written; its properties are `Maze.SetCellStart`, `Maze.SetCellOverwrites`, `Maze.SetCellNeverCellException` and `Maze.SetCellWellFormed` |
| Maze.MoveTarget | src/main/java/com/progmatic/labyrinthproject/LabyrinthImpl.java:169-197 | defines the destination test of each `movePlayer` case as written; its properties are `Maze.MoveRule` and `Maze.MoveLandsInBounds` |
| Maze.Enter | src/main/java/com/progmatic/labyrinthproject/LabyrinthImpl.java:171-192 | defines the WALL test on the destination cell; its properties are `Maze.MoveRule` and `Maze.MoveLandsInBounds` |
| Maze.Blank | src/main/java/com/progmatic/labyrinthproject/LabyrinthImpl.java:91-96 | the board `setSize` builds has `height` rows of `width` cells, all EMPTY |
| Maze.Decode | src/main/java/com/progmatic/labyrinthproject/LabyrinthImpl.java:53-72 | the loaded board is `height` x `width` and cell `[i][j]` is the decoding of `lines[i][j]` |
| Maze.Finished | src/main/java/com/progmatic/labyrinthproject/LabyrinthImpl.java:131-136 | `hasPlayerFinished` never answers true; it throws `NullPointerException` exactly when there is no position |
| Maze.Offered | src/main/java/com/progmatic/labyrinthproject/LabyrinthImpl.java:139-158 | `possibleMoves` answers an empty list whenever there is a position, and throws `NullPointerException` exactly when there is none |
| Maze.Move | src/main/java/com/progmatic/labyrinthproject/LabyrinthImpl.java:165-199 | `movePlayer` never changes the board or the start; it returns normally exactly when the position changes |
| Maze.SetSizeWellFormed | src/main/java/com/progmatic/labyrinthproject/LabyrinthImpl.java:87-98 | `setSize` keeps the board rectangular with `int` dimensions |
| Maze.LoadWellFormed | src/main/java/com/progmatic/labyrinthproject/LabyrinthImpl.java:51-72 | loading keeps the board rectangular with `int` dimensions |
| Maze.SetCellWellFormed | src/main/java/com/progmatic/labyrinthproject/LabyrinthImpl.java:107-123 | `setCellType` keeps the board rectangular with `int` dimensions |
| Maze.SizeQueries | src/main/java/com/progmatic/labyrinthproject/LabyrinthImpl.java:32-45 | with no board both queries return -1; otherwise the height is the row count and the width is the length of every row |
| Maze.SetSizeQueries | src/main/java/com/progmatic/labyrinthproject/LabyrinthImpl.java:87-98 | a negative dimension is exactly the `CellException(width, height)` case, and then nothing changes; otherwise the board is all EMPTY, start and position are kept, and the queries return `height` and, when `height > 0`, `width`; with `height == 0`, `getWidth` throws |
| Maze.LoadSucceeds | src/main/java/com/progmatic/labyrinthproject/LabyrinthImpl.java:53-72 | after two good numbers the board is `height` x `width`; cell `[i][j]` is WALL, END or START exactly for 'W', 'E' or 'S', and EMPTY for any other character; start and position are kept |
| Maze.LoadFails | src/main/java/com/progmatic/labyrinthproject/LabyrinthImpl.java:49-75 | a line that is not a number is the printed `NumberFormatException` case; every unsuccessful load leaves the whole state untouched |
| Maze.CellTypeAtBounds | src/main/java/com/progmatic/labyrinthproject/LabyrinthImpl.java:79-84 | on a board with a row, `CellException(col, row)` is raised iff `col` is not in `[0,width)` or `row` is not in `[0,height)`; the read succeeds iff the coordinate also fits the transposed shape and returns `labBoard[col][row]`; otherwise it throws `ArrayIndexOutOfBoundsException` |
| Maze.SetCellStart | src/main/java/com/progmatic/labyrinthproject/LabyrinthImpl.java:118-119 | on the board, a START write changes only `playerStart`; the board and `myPosition` are untouched |
| Maze.SetCellOverwrites | src/main/java/com/progmatic/labyrinthproject/LabyrinthImpl.java:107-122 | on the board, any other type overwrites exactly that cell whatever it held; the swallowed exception is reported iff the cell was not EMPTY |
| Maze.SetCellNeverCellException | src/main/java/com/progmatic/labyrinthproject/LabyrinthImpl.java:108-117 | `setCellType` never throws `CellException`; off the board it throws `ArrayIndexOutOfBoundsException` and changes nothing, and only off the board |
| Maze.MoveRule | src/main/java/com/progmatic/labyrinthproject/LabyrinthImpl.java:165-199 | from a position on the board, the player moves by exactly the direction's step iff the destination is on the board and not a WALL; otherwise `InvalidMoveException` and nothing changes |
| Maze.MoveLandsInBounds | src/main/java/com/progmatic/labyrinthproject/LabyrinthImpl.java:165-199 | from any position, a successful move lands one step away, on the board, on a cell that is not a WALL |
| Maze.FailedMoveIdempotent | src/main/java/com/progmatic/labyrinthproject/LabyrinthImpl.java:165-199 | a failed move changes nothing and fails the same way again |
| Maze.PositionNeverSet | src/main/java/com/progmatic/labyrinthproject/LabyrinthImpl.java:174-195 | starting with no position, no sequence of loads, resizes, cell writes and moves ever gives `myPosition` a value |
| Maze.QueriesAlwaysNullPointer | src/main/java/com/progmatic/labyrinthproject/LabyrinthImpl.java:131-158 | on a constructed object, `hasPlayerFinished` and `possibleMoves` throw `NullPointerException` after any sequence of operations |
| Maze.MoveAlwaysNullPointer | src/main/java/com/progmatic/labyrinthproject/LabyrinthImpl.java:165-199 | on a constructed object, `movePlayer` throws `NullPointerException` after any sequence of operations |
| Labyrinth.LabyrinthImpl.constructor | src/main/java/com/progmatic/labyrinthproject/LabyrinthImpl.java:27-29 | a new object has no board, no start and no position |
| Labyrinth.LabyrinthImpl.GetWidth | src/main/java/com/progmatic/labyrinthproject/LabyrinthImpl.java:32-37 | `getWidth` on the array is `Maze.Width` of the state |
| Labyrinth.LabyrinthImpl.GetHeight | src/main/java/com/progmatic/labyrinthproject/LabyrinthImpl.java:40-45 | `getHeight` on the array is `Maze.Height` of the state |
| Labyrinth.LabyrinthImpl.GetCellType | src/main/java/com/progmatic/labyrinthproject/LabyrinthImpl.java:79-84 | `getCellType` on the array is `Maze.CellTypeAt` of the state |
| Labyrinth.LabyrinthImpl.LoadLabyrinth | src/main/java/com/progmatic/labyrinthproject/LabyrinthImpl.java:48-76 | the parses and the nested fill loops change the state exactly as `Maze.Load`; a new board is a fresh array |
| Labyrinth.LabyrinthImpl.SetSize | src/main/java/com/progmatic/labyrinthproject/LabyrinthImpl.java:87-98 | the check and the nested fill loops change the state exactly as `Maze.SetSize`; a new board is a fresh array |
| Labyrinth.LabyrinthImpl.SetCellType | src/main/java/com/progmatic/labyrinthproject/LabyrinthImpl.java:107-123 | the in-place write changes the state exactly as `Maze.SetCell`, on the same array |
| Labyrinth.LabyrinthImpl.GetPlayerPosition | src/main/java/com/progmatic/labyrinthproject/LabyrinthImpl.java:126-128 | returns the live position, which `Maze.PositionNeverSet` shows is never set |
| Labyrinth.LabyrinthImpl.HasPlayerFinished | src/main/java/com/progmatic/labyrinthproject/LabyrinthImpl.java:131-136 | `hasPlayerFinished` on the object is `Maze.Finished` of the state |
| Labyrinth.LabyrinthImpl.PossibleMoves | src/main/java/com/progmatic/labyrinthproject/LabyrinthImpl.java:139-158 | the four tests build exactly `Maze.Offered` of the state, and change nothing |
| Labyrinth.LabyrinthImpl.IsWallAt | src/main/java/com/progmatic/labyrinthproject/LabyrinthImpl.java:171 | the test `labBoard[row][col] == CellType.WALL` on the array agrees with `Maze.Probe` on the state |
| Labyrinth.LabyrinthImpl.MovePlayer | src/main/java/com/progmatic/labyrinthproject/LabyrinthImpl.java:165-199 | the four direction cases change the position exactly as `Maze.Move` and change nothing else |
| Labyrinth.StartThenMove | src/main/java/com/progmatic/labyrinthproject/LabyrinthImpl.java:118-119 | `setSize` followed by a START write and any move throws `NullPointerException`, whatever the arguments |
| Intended.CellAt | src/main/java/com/progmatic/labyrinthproject/LabyrinthImpl.java:79-84 | defines the documented `getCellType`, reading `[row][col]`; its properties are `Intended.LoadThenRead` and `Intended.TransposedReadDiffers` |
| Intended.SetCell | src/main/java/com/progmatic/labyrinthproject/LabyrinthImpl.java:100-105 | defines the documented `setCellType`; its properties are `Intended.SetCellContract`, `Intended.SecondWriteRejected` and `Intended.RowPastEnd` |
| Intended.HasFinished | src/main/java/com/progmatic/labyrinthproject/LabyrinthImpl.java:131-136 | defines the documented `hasPlayerFinished`; its properties are `Intended.MoveFinishesOnEnd` and `Intended.OpenNeighbourOffered` |
| Intended.PossibleMoves | src/main/java/com/progmatic/labyrinthproject/LabyrinthImpl.java:139-158 | defines the documented `possibleMoves`; its properties are `Intended.PossibleMovesMembers`, `Intended.PossibleMovesAreLegal`, `Intended.EndNotOffered` and `Intended.OpenNeighbourOffered` |
| Intended.LoadThenRead | src/main/java/com/progmatic/labyrinthproject/LabyrinthImpl.java:53-84 | with the documented `[row][col]` read, every in-bounds cell of a loaded board reads back as its character encodes, and every other coordinate raises `CellException` |
| Intended.TransposedReadOnDiagonal | src/main/java/com/progmatic/labyrinthproject/LabyrinthImpl.java:83 | when `col == row`, the transposed read agrees with the documented one |
| Intended.TransposedReadDiffers | src/main/java/com/progmatic/labyrinthproject/LabyrinthImpl.java:83 | off the diagonal the transposed read throws on a non-square board and returns the wrong cell on a square one |
| Intended.SetCellContract | src/main/java/com/progmatic/labyrinthproject/LabyrinthImpl.java:100-105 | the documented write: `CellException` iff off the board; refusal iff the cell is not EMPTY; no change on failure; on success the cell reads back as written, every other cell is unchanged, and START places the player |
| Intended.SecondWriteRejected | src/main/java/com/progmatic/labyrinthproject/LabyrinthImpl.java:108-114 | the documented write refuses a second write to a cell and keeps the first value |
| Intended.SecondWriteAccepted | src/main/java/com/progmatic/labyrinthproject/LabyrinthImpl.java:108-121 | the code reports the second write and then carries it out |
| Intended.RowPastEnd | src/main/java/com/progmatic/labyrinthproject/LabyrinthImpl.java:109-116 | one row past the board, the code throws `ArrayIndexOutOfBoundsException` where the documented write raises `CellException` |
| Intended.PlacedPlayerMoves | src/main/java/com/progmatic/labyrinthproject/LabyrinthImpl.java:102 | after the documented START write, a move onto an EMPTY neighbour succeeds; after the code's START write, the same move throws `NullPointerException` |
| Intended.MoveFinishesOnEnd | src/main/java/com/progmatic/labyrinthproject/LabyrinthImpl.java:131-136 | after a successful move, the documented `hasPlayerFinished` is true iff the player stands on END |
| Intended.PossibleMovesMembers | src/main/java/com/progmatic/labyrinthproject/LabyrinthImpl.java:139-158 | the documented list contains a direction iff the neighbour that way is EMPTY, and contains it at most once |
| Intended.PossibleMovesAreLegal | src/main/java/com/progmatic/labyrinthproject/LabyrinthImpl.java:139-199 | every direction in the documented list is accepted by the code's `movePlayer` and takes the player to that neighbour |
| Intended.EndNotOffered | src/main/java/com/progmatic/labyrinthproject/LabyrinthImpl.java:139-199 | END neighbours are not in the list, although `movePlayer` enters them |
| Intended.OpenNeighbourOffered | src/main/java/com/progmatic/labyrinthproject/LabyrinthImpl.java:131-158 | on small boards, the documented queries offer EAST and report a finished game, where the code answers an empty list and false |
| Scenarios.LoadThreeByThree | src/main/java/com/progmatic/labyrinthproject/LabyrinthImpl.java:48-84 | loading the 3 x 3 board WWW/WSW/WEW gives width and height 3 and START at the centre; it sets neither start nor position; the transposed read answers WALL where END lies |
| Scenarios.ResizeThenRead | src/main/java/com/progmatic/labyrinthproject/LabyrinthImpl.java:79-98 | `setSize(4, 2)` yields EMPTY cells with width 4 and height 2; `setSize(-1, 2)` then throws and keeps the board |
| Scenarios.SizeLineForms | src/main/java/com/progmatic/labyrinthproject/LabyrinthImpl.java:51-52 | the size lines "007" and "+7" give 7 and "-0" gives 0 |
| Scenarios.WriteOffBoard | src/main/java/com/progmatic/labyrinthproject/LabyrinthImpl.java:107-123 | on a 4 x 4 board, a write at (5, 5) throws `ArrayIndexOutOfBoundsException`; the documented write raises `CellException` there |

## Left out

- File access in `loadLabyrinthFile` is not modelled: `Scanner`, `File`, `FileNotFoundException` and the printed message. The loader takes the width line, the height line and the board lines as arguments.
- Labyrinth.LabyrinthImpl.LoadLabyrinth: a missing or short board line throws an uncaught exception after `labBoard` has already been replaced. This is a precondition (`Maze.LoadPre`), not a modelled outcome. A file with fewer than two lines is not modelled either, because the two number lines are arguments.
- Maze.Decode: board lines are sequences of Unicode characters, while Java's `charAt` indexes UTF-16 code units. A line holding a character outside the Basic Multilingual Plane therefore decodes differently: in Java its two surrogate halves are two EMPTY cells and every later cell shifts by one. Lone surrogates cannot be represented at all.
- JavaParse.ParseInt: only ASCII digits are accepted. `Integer.parseInt` also accepts other Unicode decimal digits; the model treats them as a `NumberFormatException`.
- `null` arguments are not modelled. Coordinates and directions are values here, so the `instanceof` test in `movePlayer` (LabyrinthImpl.java:166) can never fail.
- `Coordinate`, `CellType`, `Direction`, the `Labyrinth` and `Player` interfaces and the exception classes are not part of this model; simple datatypes replace them. `Coordinate.equals` is assumed to be false for any `CellType` argument (`Maze.CoordinateEquals`), as the standard `equals` contract gives.
- The board is rectangular in the model. Java's `CellType[][]` could be jagged, but every board this class creates is rectangular. The `null` cells of a freshly allocated array are never observable under `LoadPre`.
- Exception messages, `printStackTrace` and `System.out.println` output are not modelled; only which exception is raised or caught.
- The unused fields `c` and `myType` are left out.
- `RandomPlayer.nextMove` is left out. It draws a random index into `possibleMoves()`, and that list is always empty here, so the call always fails.

## Findings

| source | as written | input that shows it | evidently intended | confidence | as-written member | corrected member |
|---|---|---|---|---|---|---|
| src/main/java/com/progmatic/labyrinthproject/LabyrinthImpl.java:83 | `getCellType` checks (col, row) against (width, height) but reads `labBoard[col][row]` | one-row board "WE", coordinate col 1, row 0: throws `ArrayIndexOutOfBoundsException` instead of returning END | read `labBoard[row][col]` | not executed | Intended.TransposedReadDiffers | Intended.LoadThenRead |
| src/main/java/com/progmatic/labyrinthproject/LabyrinthImpl.java:108-114 | the "cell not EMPTY" exception is thrown and caught on the spot, and the write goes ahead | `setCellType(c, WALL)` then `setCellType(c, END)`: the cell becomes END | refuse to overwrite a non-EMPTY cell | not executed | Intended.SecondWriteAccepted | Intended.SecondWriteRejected |
| src/main/java/com/progmatic/labyrinthproject/LabyrinthImpl.java:115-116 | the `CellException` test uses `>` and runs after the array read, so it can never fire | `setCellType((0, height), WALL)` throws `ArrayIndexOutOfBoundsException` | raise `CellException` for any coordinate off the board | not executed | Maze.SetCellNeverCellException | Intended.SetCellContract |
| src/main/java/com/progmatic/labyrinthproject/LabyrinthImpl.java:118-119 | START records `playerStart` only; nothing ever assigns `myPosition` | `setSize(2, 1)`, `setCellType((0, 0), START)`, `movePlayer(EAST)`: throws `NullPointerException` | also set the player's position to the START coordinate | not executed | Maze.MoveAlwaysNullPointer | Intended.PlacedPlayerMoves |
| src/main/java/com/progmatic/labyrinthproject/LabyrinthImpl.java:132 | `myPosition.equals(CellType.END)` compares a coordinate with a cell type | player standing on the END cell: answers false | compare the cell under the player with END | not executed | Maze.Finished | Intended.MoveFinishesOnEnd |
| src/main/java/com/progmatic/labyrinthproject/LabyrinthImpl.java:141-156 | each neighbour coordinate is compared with `CellType.EMPTY`; also the column neighbours are labelled SOUTH and NORTH, and the row neighbours EAST and WEST | player on START of the one-row board START, EMPTY: answers an empty list | list the directions whose neighbour, one `movePlayer` step away, is EMPTY | not executed | Maze.Offered | Intended.PossibleMovesAreLegal |
