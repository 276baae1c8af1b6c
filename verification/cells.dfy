/** The three kinds of grid cell and their one-character codec. */
module Cells {
  import opened Wrappers
  import opened Errors

  datatype Cell = Free | Trash | Buoy

  /** ASCII upper-casing; every other character is left as it is. */
  function ToUpper(ch: char): char {
    if 'a' <= ch <= 'z' then (ch as int - 'a' as int + 'A' as int) as char else ch
  }

  /** ASCII lower-casing; every other character is left as it is. */
  function ToLower(ch: char): char {
    if 'A' <= ch <= 'Z' then (ch as int - 'A' as int + 'a' as int) as char else ch
  }

  /** The canonical character of a cell (`From<Cell> for char`). */
  function CharOf(c: Cell): (ch: char)
    ensures ch == ToUpper(ch)
  {
    match c
    case Free => '.'
    case Trash => 'X'
    case Buoy => 'O'
  }

  /** Case-insensitive parse of one cell character (`TryFrom<char> for Cell`). */
  function ParseCell(ch: char): (r: Result<Cell, ParseError>)
    ensures r.Success? <==> ch in {'.', 'x', 'X', 'o', 'O'}
    ensures r.Success? ==> CharOf(r.value) == ToUpper(ch)
    ensures r.Failure? ==> r.error == InvalidCell(ch)
  {
    var cc := ToUpper(ch);
    if cc == '.' then Success(Free)
    else if cc == 'X' then Success(Trash)
    else if cc == 'O' then Success(Buoy)
    else Failure(InvalidCell(ch))
  }

  /** Formatting then parsing a cell gives the cell back. */
  lemma CellRoundTrip(c: Cell)
    ensures ParseCell(CharOf(c)) == Success(c)
  {
  }

  /** Two characters that differ only in ASCII case parse alike. */
  lemma ParseCellCaseInsensitive(ch: char)
    ensures ParseCell(ToLower(ch)).Success? <==> ParseCell(ch).Success?
    ensures ParseCell(ch).Success? ==> ParseCell(ToLower(ch)).value == ParseCell(ch).value
  {
  }
}
