/** The traversal cursor and its visit statistics (`State` and `State::step`). */
module Traversal {
  import opened Wrappers
  import opened Cells
  import opened Grids

  /** Cursor position, number of visits counted, the kinds seen, how often each
      kind was visited, and the kind visited last. */
  datatype State = State(
    x: nat,
    y: nat,
    steps: nat,
    found: set<Cell>,
    counts: map<Cell, nat>,
    last: Option<Cell>)

  /** The fresh state at the origin (`State::new`). */
  function New(): (s: State)
    ensures s.x == 0 && s.y == 0 && s.steps == 0
    ensures s.found == {} && s.last == None
    ensures forall c :: CountOf(s.counts, c) == 0
  {
    State(0, 0, 0, {}, map[], None)
  }

  /** Visits of kind `c` so far; a kind never visited has no entry and counts 0. */
  function CountOf(counts: map<Cell, nat>, c: Cell): nat {
    if c in counts then counts[c] else 0
  }

  /** The sum of all values of `counts`: a `Cell` is one of exactly three kinds. */
  function TotalCount(counts: map<Cell, nat>): nat {
    CountOf(counts, Free) + CountOf(counts, Trash) + CountOf(counts, Buoy)
  }

  /** What every state built by `New` and `Step` satisfies on its grid. */
  predicate Inv(s: State, g: Grid) {
    && g.Valid()
    && g.Contains(s.x, s.y)
    && TotalCount(s.counts) == s.steps
    && s.found == s.counts.Keys
    && (forall c :: c in s.counts ==> s.counts[c] > 0)
    && (s.last.None? <==> s.steps == 0)
    && (s.last.Some? ==> s.last.value in s.found)
  }

  /** The bookkeeping of one visit to a cell of kind `c`. */
  function Record(s: State, c: Cell): (r: State)
    ensures r.x == s.x && r.y == s.y && r.steps == s.steps + 1 && r.last == Some(c)
    ensures r.found == s.found + {c}
    ensures r.counts.Keys == s.counts.Keys + {c}
    ensures CountOf(r.counts, c) == CountOf(s.counts, c) + 1
    ensures forall d :: d != c ==> CountOf(r.counts, d) == CountOf(s.counts, d)
    ensures TotalCount(r.counts) == TotalCount(s.counts) + 1
  {
    var r := s.(steps := s.steps + 1,
                found := s.found + {c},
                counts := s.counts[c := CountOf(s.counts, c) + 1],
                last := Some(c));
    TotalCountBump(s.counts, c);
    r
  }

  /** Raising one kind's count by one raises the total by one. */
  lemma TotalCountBump(counts: map<Cell, nat>, c: Cell)
    ensures TotalCount(counts[c := CountOf(counts, c) + 1]) == TotalCount(counts) + 1
  {
    match c
    case Free =>
    case Trash =>
    case Buoy =>
  }

  /** Visits `(x, y)`: records the cell found there and cleans it if it is Trash. */
  function Visit(s: State, g: Grid, x: nat, y: nat): (r: (State, Grid))
    requires g.Valid() && g.Contains(x, y)
    ensures r.1.Valid() && r.1.width == g.width && r.1.height == g.height
    ensures r.0 == Record(s, g.Get(x, y))
    ensures r.1.Get(x, y) == (if g.Get(x, y) == Trash then Free else g.Get(x, y))
    ensures forall i, j :: g.Contains(i, j) && (i != x || j != y) ==> r.1.Get(i, j) == g.Get(i, j)
  {
    var cell := g.Get(x, y);
    (Record(s, cell), if cell == Trash then g.Clean(x, y) else g)
  }

  /** One slope increment (`State::step`). The first call from a fresh count
      also visits the origin before moving; then the cursor moves by `slope`
      with wrap-around on both axes and visits the cell it lands on. */
  function Step(s: State, g: Grid, slope: (nat, nat)): (r: (State, Grid))
    requires g.Valid() && g.Contains(s.x, s.y)
    ensures r.1.Valid() && r.1.width == g.width && r.1.height == g.height
    ensures r.0.x == (s.x + slope.0) % g.width && r.0.y == (s.y + slope.1) % g.height
    ensures r.1.Contains(r.0.x, r.0.y)
    ensures r.0.steps == s.steps + (if s.steps == 0 then 2 else 1)
    // the kind recorded last is the one read at the destination, which the
    // first call may just have cleaned when the destination is the origin
    ensures r.0.last == Some(
      if s.steps == 0 && r.0.x == s.x && r.0.y == s.y && g.Get(s.x, s.y) == Trash then Free
      else g.Get(r.0.x, r.0.y))
    ensures r.0.found == s.found + {r.0.last.value} + (if s.steps == 0 then {g.Get(s.x, s.y)} else {})
    ensures r.1.Get(r.0.x, r.0.y) != Trash
    ensures s.steps == 0 ==> r.1.Get(s.x, s.y) != Trash
    ensures forall i, j ::
      g.Contains(i, j) && (i != r.0.x || j != r.0.y) && (s.steps != 0 || i != s.x || j != s.y)
      ==> r.1.Get(i, j) == g.Get(i, j)
    ensures forall i, j :: g.Contains(i, j) ==>
      r.1.Get(i, j) == g.Get(i, j) || (g.Get(i, j) == Trash && r.1.Get(i, j) == Free)
    // each visit credits the kind it reads: the origin's on the first call, the destination's always
    ensures forall c ::
              CountOf(r.0.counts, c) ==
              CountOf(s.counts, c) + (if s.steps == 0 && c == g.Get(s.x, s.y) then 1 else 0) +
              (if Some(c) == r.0.last then 1 else 0)
  {
    var first := if s.steps == 0 then Visit(s, g, s.x, s.y) else (s, g);
    var nx := (s.x + slope.0) % g.width;
    var ny := (s.y + slope.1) % g.height;
    var next := Visit(first.0, first.1, nx, ny);
    (next.0.(x := nx, y := ny), next.1)
  }

  /** `n` consecutive steps with the same slope, as the driver loop performs them.
      Only the first call from a fresh count counts two visits; the found set
      and every count only grow; a cell changes only from Trash to Free. */
  function Iterate(s: State, g: Grid, slope: (nat, nat), n: nat): (r: (State, Grid))
    requires g.Valid() && g.Contains(s.x, s.y)
    ensures r.1.Valid() && r.1.width == g.width && r.1.height == g.height
    ensures r.1.Contains(r.0.x, r.0.y)
    ensures r.0.steps == s.steps + n + (if s.steps == 0 && n > 0 then 1 else 0)
    ensures s.found <= r.0.found
    ensures forall c :: CountOf(s.counts, c) <= CountOf(r.0.counts, c)
    ensures forall i, j :: g.Contains(i, j) ==>
      r.1.Get(i, j) == g.Get(i, j) || (g.Get(i, j) == Trash && r.1.Get(i, j) == Free)
    decreases n
  {
    if n == 0 then (s, g)
    else
      var next := Step(s, g, slope);
      var r := Iterate(next.0, next.1, slope, n - 1);
      assert forall c :: CountOf(s.counts, c) <= CountOf(r.0.counts, c) by {
        forall c ensures CountOf(s.counts, c) <= CountOf(r.0.counts, c) {
          StepCountsGrow(s, g, slope, c);
        }
      }
      r
  }

  // ---------------------------------------------------------------- invariant

  /** The fresh state satisfies the invariant on any well-formed grid. */
  lemma NewInv(g: Grid)
    requires g.Valid()
    ensures Inv(New(), g)
  {
  }

  /** A visit keeps the statistics consistent: one more count, one more step. */
  lemma VisitInv(s: State, g: Grid, x: nat, y: nat)
    requires Inv(s, g) && g.Contains(x, y)
    ensures var r := Visit(s, g, x, y); Inv(r.0, r.1)
  {
    var r := Visit(s, g, x, y);
    var c := g.Get(x, y);
    forall d | d in r.0.counts ensures r.0.counts[d] > 0 {
      if d == c {
        assert CountOf(r.0.counts, d) == CountOf(s.counts, d) + 1;
      } else {
        assert CountOf(r.0.counts, d) == CountOf(s.counts, d);
      }
    }
  }

  /** Every step keeps the invariant: counts sum to `steps`, the found set is the
      key set of the counts, and the cursor stays on the grid. */
  lemma StepInv(s: State, g: Grid, slope: (nat, nat))
    requires Inv(s, g)
    ensures var r := Step(s, g, slope); Inv(r.0, r.1)
  {
    if s.steps == 0 {
      VisitInv(s, g, s.x, s.y);
      var first := Visit(s, g, s.x, s.y);
      MoveInv(first.0, first.1, slope, s.x, s.y);
    } else {
      MoveInv(s, g, slope, s.x, s.y);
    }
  }

  /** Moving from `(x, y)` and visiting the destination keeps the invariant. */
  lemma MoveInv(s: State, g: Grid, slope: (nat, nat), x: nat, y: nat)
    requires Inv(s, g) && g.Contains(x, y)
    ensures var nx := (x + slope.0) % g.width;
      var ny := (y + slope.1) % g.height;
      var next := Visit(s, g, nx, ny);
      Inv(next.0.(x := nx, y := ny), next.1)
  {
    var nx := (x + slope.0) % g.width;
    var ny := (y + slope.1) % g.height;
    var moved := s.(x := nx, y := ny);
    assert Inv(moved, g);
    VisitInv(moved, g, nx, ny);
    assert Visit(moved, g, nx, ny).0 == Visit(s, g, nx, ny).0.(x := nx, y := ny);
  }

  /** The invariant holds after any number of steps. */
  lemma {:induction false} IterateInv(s: State, g: Grid, slope: (nat, nat), n: nat)
    requires Inv(s, g)
    ensures Inv(Iterate(s, g, slope, n).0, Iterate(s, g, slope, n).1)
    decreases n
  {
    if n > 0 {
      var next := Step(s, g, slope);
      StepInv(s, g, slope);
      IterateInv(next.0, next.1, slope, n - 1);
      var r := Iterate(next.0, next.1, slope, n - 1);
      assert Iterate(s, g, slope, n) == r;
    }
  }

  /** At most three kinds can ever have been found: the bound comes from the
      type, since a `Cell` is one of exactly three kinds. */
  lemma FoundAtMostThree(s: State)
    ensures |s.found| <= 3
  {
    assert s.found <= {Free, Trash, Buoy} by {
      forall c | c in s.found ensures c in {Free, Trash, Buoy} {
        match c
        case Free =>
        case Trash =>
        case Buoy =>
      }
    }
    SubsetSize(s.found, {Free, Trash, Buoy});
    assert |{Free, Trash, Buoy}| == 3;
  }

  lemma SubsetSize<T>(a: set<T>, b: set<T>)
    requires a <= b
    ensures |a| <= |b|
  {
    assert b == a + (b - a);
  }

  // ---------------------------------------------------------------- history

  /** One step never lowers the count of any kind. */
  lemma StepCountsGrow(s: State, g: Grid, slope: (nat, nat), c: Cell)
    requires g.Valid() && g.Contains(s.x, s.y)
    ensures CountOf(s.counts, c) <= CountOf(Step(s, g, slope).0.counts, c)
  {
    var first := if s.steps == 0 then Visit(s, g, s.x, s.y) else (s, g);
    assert CountOf(s.counts, c) <= CountOf(first.0.counts, c);
  }

  /** A cell once visited is never Trash again, however many steps follow, and
      cleaning it does not take its visit back out of the Trash count. */
  lemma VisitedStaysClean(s: State, g: Grid, slope: (nat, nat), n: nat)
    requires g.Valid() && g.Contains(s.x, s.y)
    ensures var first := Step(s, g, slope);
      var r := Iterate(first.0, first.1, slope, n);
      && r.1.Get(first.0.x, first.0.y) != Trash
      && CountOf(r.0.counts, Trash) >= CountOf(first.0.counts, Trash)
  {
  }
}
