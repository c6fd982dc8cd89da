/** Small worked runs of the implementation's operations. */
module Scenarios {
  import opened Types
  import opened JavaParse
  import opened Maze
  import Intended

  /** Loading "3" / "3" / WWW, WSW, WEW: a 3 x 3 board whose centre holds START, read
      back by `getCellType`; loading records no start and no position. */
  lemma LoadThreeByThree()
    ensures LoadPre("3", "3", ["WWW", "WSW", "WEW"])
    ensures var (s, m) := Load(Init, "3", "3", ["WWW", "WSW", "WEW"]);
      s == Returned && Width(m) == Ok(3) && Height(m) == 3 &&
      CellTypeAt(m, Coord(1, 1)) == Ok(START) && CellTypeAt(m, Coord(1, 2)) == Ok(WALL) &&
      Intended.CellAt(m, Coord(1, 2)) == Ok(END) &&
      m.start == None && m.position == None
  {
    assert DigitsValue("3") == 3 by { assert "3"[..0] == []; }
    var lines := ["WWW", "WSW", "WEW"];
    assert Decode(lines, 3, 3)[1][1] == START;
  }

  /** `setSize(4, 2)` gives EMPTY cells; a later `setSize(-1, 2)` throws and keeps the board. */
  lemma ResizeThenRead()
    ensures var (s1, m1) := SetSize(Init, 4, 2);
      s1 == Returned && CellTypeAt(m1, Coord(0, 0)) == Ok(EMPTY) &&
      Width(m1) == Ok(4) && Height(m1) == 2 &&
      SetSize(m1, -1, 2) == (Thrown(CellException(-1, 2)), m1)
  {
  }

  /** Writing at (5, 5) on a 4 x 4 board fails at the array read, not with `CellException`. */
  lemma WriteOffBoard()
    ensures var m := SetSize(Init, 4, 4).1;
      Maze.SetCell(m, Coord(5, 5), WALL) == (Thrown(ArrayIndexOutOfBoundsException), m) &&
      Intended.SetCell(m, Coord(5, 5), WALL) == (Thrown(CellException(5, 5)), m)
  {
  }

  /** Size lines with leading zeros or a sign: "007" and "+7" are 7, "-0" is 0. */
  lemma SizeLineForms()
    ensures ParseInt("007") == Some(7) && ParseInt("+7") == Some(7) && ParseInt("-0") == Some(0)
  {
    assert DigitsValue("007") == 7 by {
      assert "007"[..2] == "00" && "00"[..1] == "0" && "0"[..0] == [];
    }
    ParseDigits("007");
    assert DigitsValue("7") == 7 by { assert "7"[..0] == []; }
    ParseDigits("7");
    assert "+" + "7" == "+7";
    assert DigitsValue("0") == 0 by { assert "0"[..0] == []; }
    ParseDigits("0");
    assert "-" + "0" == "-0";
  }
}
