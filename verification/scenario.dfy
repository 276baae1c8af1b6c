/** A worked run on a 3-by-2 grid, and the configuration strings that drive it. */
module Scenario {
  import opened Wrappers
  import opened Cells
  import opened Grids
  import opened Traversal
  import Terminations
  import Outputs
  import Text

  /** The grid with rows `..X` and `O..`. */
  function Example(): (g: Grid)
    ensures g.Valid()
  {
    Grid(3, 2, [[Free, Free, Trash], [Buoy, Free, Free]])
  }

  /** The example grid once the Trash at (2,0) has been cleaned. */
  function ExampleCleaned(): (g: Grid)
    ensures g.Valid()
  {
    Grid(3, 2, [[Free, Free, Free], [Buoy, Free, Free]])
  }

  /** First call: the origin and (1,0) are visited, both Free. */
  lemma ExampleFirstCall()
    ensures Step(New(), Example(), (1, 0)) ==
      (State(1, 0, 2, {Free}, map[Free := 2], Some(Free)), Example())
  {
    var g := Example();
    assert g.Get(0, 0) == Free && g.Get(1, 0) == Free;
    var origin := State(0, 0, 1, {Free}, map[Free := 1], Some(Free));
    assert map[][Free := 0 + 1] == map[Free := 1];
    assert {} + {Free} == {Free};
    assert CountOf(map[], Free) == 0;
    assert Record(New(), Free) == origin;
    assert Visit(New(), g, 0, 0) == (origin, g);
    assert map[Free := 1][Free := 1 + 1] == map[Free := 2];
    assert Visit(origin, g, 1, 0) == (State(0, 0, 2, {Free}, map[Free := 2], Some(Free)), g);
  }

  /** Second call: (2,0) holds Trash, which is counted and cleaned. */
  lemma ExampleSecondCall()
    ensures Step(State(1, 0, 2, {Free}, map[Free := 2], Some(Free)), Example(), (1, 0)) ==
      (State(2, 0, 3, {Free, Trash}, map[Free := 2, Trash := 1], Some(Trash)), ExampleCleaned())
  {
    var g := Example();
    assert g.Get(2, 0) == Trash;
    assert g.rows[0][2 := Free] == [Free, Free, Free];
    assert g.rows[0 := [Free, Free, Free]] == ExampleCleaned().rows;
    assert g.Clean(2, 0) == ExampleCleaned();
    var s := State(1, 0, 2, {Free}, map[Free := 2], Some(Free));
    assert CountOf(s.counts, Trash) == 0;
    assert s.counts[Trash := 0 + 1] == map[Free := 2, Trash := 1];
    assert {Free} + {Trash} == {Free, Trash};
    assert Visit(s, g, 2, 0) ==
      (State(1, 0, 3, {Free, Trash}, map[Free := 2, Trash := 1], Some(Trash)), ExampleCleaned());
  }

  /** Third call: the cursor wraps around to the origin. */
  lemma ExampleThirdCall()
    ensures Step(State(2, 0, 3, {Free, Trash}, map[Free := 2, Trash := 1], Some(Trash)), ExampleCleaned(), (1, 0)) ==
      (State(0, 0, 4, {Free, Trash}, map[Free := 3, Trash := 1], Some(Free)), ExampleCleaned())
  {
    var g := ExampleCleaned();
    assert g.Get(0, 0) == Free;
    var s := State(2, 0, 3, {Free, Trash}, map[Free := 2, Trash := 1], Some(Trash));
    assert CountOf(s.counts, Free) == 2;
    assert s.counts[Free := 2 + 1] == map[Free := 3, Trash := 1];
    assert {Free, Trash} + {Free} == {Free, Trash};
    assert (2 + 1) % 3 == 0;
    assert Visit(s, g, 0, 0) ==
      (State(2, 0, 4, {Free, Trash}, map[Free := 3, Trash := 1], Some(Free)), g);
  }

  /** Walking right one cell at a time from the origin: three calls visit
      (0,0), (1,0), (2,0) and (0,0) again, leaving the Trash cleaned. */
  lemma ExampleIterate()
    ensures Iterate(New(), Example(), (1, 0), 3) ==
      (State(0, 0, 4, {Free, Trash}, map[Free := 3, Trash := 1], Some(Free)), ExampleCleaned())
  {
    var s1 := State(1, 0, 2, {Free}, map[Free := 2], Some(Free));
    var s2 := State(2, 0, 3, {Free, Trash}, map[Free := 2, Trash := 1], Some(Trash));
    var s3 := State(0, 0, 4, {Free, Trash}, map[Free := 3, Trash := 1], Some(Free));
    ExampleFirstCall();
    ExampleSecondCall();
    ExampleThirdCall();
    assert Iterate(s2, ExampleCleaned(), (1, 0), 1) == Iterate(s3, ExampleCleaned(), (1, 0), 0);
    assert Iterate(s1, Example(), (1, 0), 2) == (s3, ExampleCleaned());
  }

  /** After those three calls the run meets `Steps(4)`; the Trash at (2,0) has
      been counted once and cleaned, and two kinds have been found. */
  lemma ExampleRun()
    ensures var r := Iterate(New(), Example(), (1, 0), 3);
      && Terminations.Terminal(Terminations.Steps(4), r.1, r.0)
      && Outputs.Format(Outputs.Position, r.1, r.0) == "(0,0)"
      && Outputs.Format(Outputs.Distinct, r.1, r.0) == "2"
      && Outputs.Format(Outputs.SymbolCount(Trash), r.1, r.0) == "1"
      && r.1.Get(2, 0) == Free
  {
    ExampleIterate();
    ExampleReports();
  }

  /** The reports on the state the example run ends in. */
  lemma ExampleReports()
    ensures var s := State(0, 0, 4, {Free, Trash}, map[Free := 3, Trash := 1], Some(Free));
      && Outputs.Format(Outputs.Position, ExampleCleaned(), s) == "(0,0)"
      && Outputs.Format(Outputs.Distinct, ExampleCleaned(), s) == "2"
      && Outputs.Format(Outputs.SymbolCount(Trash), ExampleCleaned(), s) == "1"
  {
    assert Text.NatToString(0) == "0";
    assert Text.NatToString(1) == "1";
    assert Text.NatToString(2) == "2";
    assert |{Free, Trash}| == 2;
  }

  /** `3` is a step-count rule. */
  lemma StepsFixture()
    ensures Terminations.ParseTermination("3") == Success(Terminations.Steps(3))
  {
    Terminations.StepsRoundTrip(3);
    assert Text.NatToString(3) == "3";
  }

  /** `S,X` is a symbol rule for Trash. */
  lemma SymbolFixture()
    ensures Terminations.ParseTermination("S,X") == Success(Terminations.Symbol(Trash))
  {
    Terminations.SymbolRoundTrip(Trash);
    assert "S," + [CharOf(Trash)] == "S,X";
  }

  /** `P,2,5` is a position rule for (2,5). */
  lemma PositionFixture()
    ensures Terminations.ParseTermination("P,2,5") == Success(Terminations.Position(2, 5))
  {
    Terminations.PositionRoundTrip(2, 5);
    assert Text.NatToString(2) == "2";
    assert Text.NatToString(5) == "5";
    assert "P," + "2" + "," + "5" == "P,2,5";
  }

  /** `C,x`, `p` and `d` select the Trash count, the position and the number of kinds. */
  lemma OutputFixtures()
    ensures Outputs.ParseOutput("C,x") == Success(Outputs.SymbolCount(Trash))
    ensures Outputs.ParseOutput("p") == Success(Outputs.Position)
    ensures Outputs.ParseOutput("d") == Success(Outputs.Distinct)
  {
    Outputs.SymbolCountIgnoresRest('x', "");
    assert "c," + ['x'] + "" == "c,x";
    Outputs.CaseInsensitive("C,x", "c,x");
    Outputs.ShowRoundTrip(Outputs.Position);
    Outputs.ShowRoundTrip(Outputs.Distinct);
  }
}
