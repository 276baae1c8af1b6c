/** The grid the cursor walks over (`crate::map::Map`, whose storage is not part
    of this model): fixed positive width and height, point lookup, and cleaning. */
module Grids {
  import opened Cells

  /** Row-major cells: `rows[y][x]` is the cell at column x of row y. */
  datatype Grid = Grid(width: nat, height: nat, rows: seq<seq<Cell>>) {

    /** Both dimensions are positive and every row is `width` cells long. */
    predicate Valid() {
      && width > 0
      && height > 0
      && |rows| == height
      && forall r :: r in rows ==> |r| == width
    }

    predicate Contains(x: nat, y: nat) {
      x < width && y < height
    }

    /** The cell at `(x, y)` (`Map::get`). */
    function Get(x: nat, y: nat): Cell
      requires Valid() && Contains(x, y)
    {
      assert rows[y] in rows;
      rows[y][x]
    }

    /** Turns a Trash cell at `(x, y)` into Free and leaves every other cell alone (`Map::clean`). */
    function Clean(x: nat, y: nat): (g: Grid)
      requires Valid() && Contains(x, y)
      ensures g.Valid() && g.width == width && g.height == height
      ensures g.Get(x, y) == (if Get(x, y) == Trash then Free else Get(x, y))
      ensures forall i, j :: Contains(i, j) && (i != x || j != y) ==> g.Get(i, j) == Get(i, j)
    {
      if Get(x, y) == Trash then
        var g := this.(rows := rows[y := rows[y][x := Free]]);
        assert forall r :: r in g.rows ==> |r| == width by {
          forall r | r in g.rows ensures |r| == width {
            var k :| 0 <= k < |g.rows| && g.rows[k] == r;
            assert rows[k] in rows;
          }
        }
        g
      else
        this
    }
  }

  /** Cleaning the same cell twice is the same as cleaning it once. */
  lemma CleanIdempotent(g: Grid, x: nat, y: nat)
    requires g.Valid() && g.Contains(x, y)
    ensures g.Clean(x, y).Clean(x, y) == g.Clean(x, y)
  {
  }
}
