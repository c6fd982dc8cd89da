/** Value types shared by the labyrinth model: the cell alphabet, directions,
    coordinates, Java's 32-bit `int`, and the exceptions the implementation can raise. */
module Types {

  const MIN_INT: int := -0x8000_0000
  const MAX_INT: int := 0x7fff_ffff

  /** A Java `int`. */
  type Int32 = x: int | MIN_INT <= x <= MAX_INT

  /** Java's `x + 1` on `int`: the `int` congruent to the exact sum modulo 2^32
      (two's-complement wrap-around). */
  function AddOne(x: Int32): (r: Int32)
    ensures (r - (x + 1)) % 0x1_0000_0000 == 0
  {
    if x == MAX_INT then MIN_INT else x + 1
  }

  /** Java's `x - 1` on `int`: the `int` congruent to the exact difference modulo 2^32
      (two's-complement wrap-around). */
  function SubOne(x: Int32): (r: Int32)
    ensures (r - (x - 1)) % 0x1_0000_0000 == 0
  {
    if x == MIN_INT then MAX_INT else x - 1
  }

  datatype Option<+T> = None | Some(value: T)

  /** The four cell kinds of a labyrinth board. */
  datatype CellType = WALL | EMPTY | START | END

  datatype Direction = NORTH | SOUTH | EAST | WEST

  /** A board position: `col` counts from the left, `row` from the top. */
  datatype Coord = Coord(col: Int32, row: Int32)

  /** The exceptions that can leave (or be reported by) an operation. */
  datatype Exc =
    | CellException(a: int, b: int)   // the two numbers the code passes, in its order
    | InvalidMoveException
    | NumberFormatException
    | NegativeArraySizeException
    | ArrayIndexOutOfBoundsException
    | NullPointerException

  /** The outcome of a query: a value, or an exception thrown to the caller. */
  datatype Result<+T> = Ok(value: T) | Raised(exc: Exc)

  /** The outcome of a `void` operation: it returns normally, returns normally after
      catching and printing an exception, or throws one to the caller. */
  datatype Status = Returned | Logged(caught: Exc) | Thrown(exc: Exc)
}
