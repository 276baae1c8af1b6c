/** When the traversal stops: the rule, its textual grammar, and its evaluation
    (`Termination`, `From<String> for Termination`, `terminal`). */
module Terminations {
  import opened Wrappers
  import opened Errors
  import opened Cells
  import opened Text
  import opened Grids
  import opened Traversal

  datatype Termination =
      /** Stop when exactly `n` visits have been counted. */
    | Steps(n: nat)
      /** Stop once a cell of kind `c` has been found. */
    | Symbol(c: Cell)
      /** Stop when the cursor stands on `(x, y)`. */
    | Position(x: nat, y: nat)

  /** Builds a rule from its comma-separated fields: one field is a step count,
      two are a tag and a symbol, three are a tag and two coordinates. The tag
      field is not inspected, a symbol field contributes only its first
      character, and coordinates may be padded with whitespace. */
  function FromFields(parts: seq<string>): (r: Result<Termination, ParseError>)
    ensures (|parts| == 0 || |parts| >= 4) ==> r == Failure(FieldCount(|parts|))
    ensures |parts| == 1 ==>
      r == if ParseNat(parts[0]).Some? then Success(Steps(ParseNat(parts[0]).value))
           else Failure(InvalidNumber(parts[0]))
    ensures |parts| == 2 ==> (r.Success? <==> |parts[1]| > 0 && ParseCell(parts[1][0]).Success?)
    ensures |parts| == 3 ==>
      (r.Success? <==> ParseNat(Trim(parts[1])).Some? && ParseNat(Trim(parts[2])).Some?)
    ensures r.Success? && r.value.Steps? ==> |parts| == 1
    ensures r.Success? && r.value.Symbol? ==>
      |parts| == 2 && |parts[1]| > 0 && ParseCell(parts[1][0]) == Success(r.value.c)
    ensures r.Success? && r.value.Position? ==>
      |parts| == 3 && ParseNat(Trim(parts[1])) == Some(r.value.x) && ParseNat(Trim(parts[2])) == Some(r.value.y)
  {
    if |parts| == 1 then
      match ParseNat(parts[0])
      case Some(n) => Success(Steps(n))
      case None => Failure(InvalidNumber(parts[0]))
    else if |parts| == 2 then
      if |parts[1]| == 0 then Failure(MissingSymbol)
      else
        match ParseCell(parts[1][0])
        case Success(c) => Success(Symbol(c))
        case Failure(e) => Failure(e)
    else if |parts| == 3 then
      var xs := Trim(parts[1]);
      var ys := Trim(parts[2]);
      match ParseNat(xs)
      case None => Failure(InvalidNumber(xs))
      case Some(x) =>
        match ParseNat(ys)
        case None => Failure(InvalidNumber(ys))
        case Some(y) => Success(Position(x, y))
    else
      Failure(FieldCount(|parts|))
  }

  /** Parses a rule from text (`From<String> for Termination`): the kind of rule
      is decided by the number of commas alone. */
  function ParseTermination(text: string): (r: Result<Termination, ParseError>)
    ensures Occurrences(text, ',') >= 3 ==> r == Failure(FieldCount(Occurrences(text, ',') + 1))
    ensures ',' !in text ==>
      r == if ParseNat(text).Some? then Success(Steps(ParseNat(text).value)) else Failure(InvalidNumber(text))
    ensures r.Success? && r.value.Steps? ==> ',' !in text
    ensures r.Success? && r.value.Symbol? ==> Occurrences(text, ',') == 1
    ensures r.Success? && r.value.Position? ==> Occurrences(text, ',') == 2
  {
    var parts := Split(text, ',');
    assert ',' !in text ==> parts == [text] by {
      if ',' !in text { SplitFree(text, ','); }
    }
    FromFields(parts)
  }

  /** Whether the rule holds of the state (`terminal`); the grid is not consulted. */
  function Terminal(t: Termination, g: Grid, s: State): bool {
    match t
    case Steps(n) => n == s.steps
    case Symbol(c) => c in s.found
    case Position(x, y) => x == s.x && y == s.y
  }

  /** The canonical text of a rule, using the tags `S` and `P`. */
  function Show(t: Termination): string {
    match t
    case Steps(n) => NatToString(n)
    case Symbol(c) => "S," + [CharOf(c)]
    case Position(x, y) => "P," + NatToString(x) + "," + NatToString(y)
  }

  lemma DigitsHaveNoComma(n: nat)
    ensures ',' !in NatToString(n)
  {
  }

  lemma NoCommaConcat(a: string, b: string, c: string)
    requires ',' !in a && ',' !in b && ',' !in c
    ensures ',' !in a + b + c
  {
  }

  /** A text with one comma is read as a `Symbol` rule from the second field. */
  lemma ParseTwoFields(a: string, b: string)
    requires ',' !in a && ',' !in b
    ensures ParseTermination(a + [','] + b) == FromFields([a, b])
  {
    SplitTwo(a, b, ',');
  }

  /** A text with two commas is read as a `Position` rule from the second and third fields. */
  lemma ParseThreeFields(a: string, b: string, c: string)
    requires ',' !in a && ',' !in b && ',' !in c
    ensures ParseTermination(a + [','] + b + [','] + c) == FromFields([a, b, c])
  {
    SplitThree(a, b, c, ',');
  }

  /** Parsing the canonical text of any rule gives the rule back. */
  lemma ShowRoundTrip(t: Termination)
    ensures ParseTermination(Show(t)) == Success(t)
  {
    match t
    case Steps(n) => StepsRoundTrip(n);
    case Symbol(c) => SymbolRoundTrip(c);
    case Position(x, y) => PositionRoundTrip(x, y);
  }

  lemma StepsRoundTrip(n: nat)
    ensures ParseTermination(NatToString(n)) == Success(Steps(n))
  {
    DigitsHaveNoComma(n);
    SplitFree(NatToString(n), ',');
    NatRoundTrip(n);
  }

  lemma SymbolRoundTrip(c: Cell)
    ensures ParseTermination("S," + [CharOf(c)]) == Success(Symbol(c))
  {
    assert "S," + [CharOf(c)] == "S" + [','] + [CharOf(c)];
    ParseTwoFields("S", [CharOf(c)]);
    CellRoundTrip(c);
  }

  lemma PositionRoundTrip(x: nat, y: nat)
    ensures ParseTermination("P," + NatToString(x) + "," + NatToString(y)) == Success(Position(x, y))
  {
    var xs := NatToString(x);
    var ys := NatToString(y);
    var text := "P," + xs + "," + ys;
    assert text == "P" + [','] + xs + [','] + ys by {
      assert |text| == |xs| + |ys| + 3;
      forall i | 0 <= i < |text|
        ensures text[i] == ("P" + [','] + xs + [','] + ys)[i]
      {
      }
    }
    PositionFields("P", x, y);
  }

  /** Whatever the tag, the printed coordinates come back as a `Position` rule. */
  lemma PositionFields(tag: string, x: nat, y: nat)
    requires ',' !in tag
    ensures ParseTermination(tag + [','] + NatToString(x) + [','] + NatToString(y)) == Success(Position(x, y))
  {
    DigitsHaveNoComma(x);
    DigitsHaveNoComma(y);
    ParseThreeFields(tag, NatToString(x), NatToString(y));
    FieldsToPosition(tag, x, y);
  }

  /** Printed coordinates in the second and third fields read back as themselves. */
  lemma FieldsToPosition(tag: string, x: nat, y: nat)
    ensures FromFields([tag, NatToString(x), NatToString(y)]) == Success(Position(x, y))
  {
    var xs := NatToString(x);
    var ys := NatToString(y);
    TrimKeepsTrimmed(xs);
    TrimKeepsTrimmed(ys);
    NatRoundTrip(x);
    NatRoundTrip(y);
    var parts := [tag, xs, ys];
    assert parts[1] == xs && parts[2] == ys;
    assert ParseNat(Trim(xs)) == Some(x);
    assert ParseNat(Trim(ys)) == Some(y);
  }

  /** With two fields the tag is ignored and only the first character after the
      comma matters: whatever `tag` and `rest` are, the result is that character's cell. */
  lemma SymbolIgnoresTag(tag: string, ch: char, rest: string)
    requires ',' !in tag && ch != ',' && ',' !in rest
    ensures ParseTermination(tag + [','] + ([ch] + rest)) ==
      (match ParseCell(ch)
       case Success(c) => Success(Symbol(c))
       case Failure(e) => Failure(e))
  {
    NoCommaConcat([], [ch], rest);
    assert [] + [ch] + rest == [ch] + rest;
    ParseTwoFields(tag, [ch] + rest);
  }

  /** With three fields the coordinates may carry surrounding whitespace, and the tag is ignored. */
  lemma PositionAllowsPadding(tag: string, w1: string, w2: string, w3: string, w4: string, x: nat, y: nat)
    requires ',' !in tag
    requires AllWhitespace(w1) && AllWhitespace(w2) && AllWhitespace(w3) && AllWhitespace(w4)
    requires ',' !in w1 && ',' !in w2 && ',' !in w3 && ',' !in w4
    ensures ParseTermination(tag + [','] + (w1 + NatToString(x) + w2) + [','] + (w3 + NatToString(y) + w4))
      == Success(Position(x, y))
  {
    var xs := NatToString(x);
    var ys := NatToString(y);
    DigitsHaveNoComma(x);
    DigitsHaveNoComma(y);
    NoCommaConcat(w1, xs, w2);
    NoCommaConcat(w3, ys, w4);
    ParseThreeFields(tag, w1 + xs + w2, w3 + ys + w4);
    TrimPadded(w1, xs, w2);
    TrimPadded(w3, ys, w4);
    NatRoundTrip(x);
    NatRoundTrip(y);
  }

  // ---------------------------------------------------------------- evaluation

  /** A `Symbol` rule, once satisfied, stays satisfied however many steps follow. */
  lemma SymbolStaysTerminal(c: Cell, s: State, g: Grid, slope: (nat, nat), n: nat)
    requires g.Valid() && g.Contains(s.x, s.y)
    requires Terminal(Symbol(c), g, s)
    ensures var r := Iterate(s, g, slope, n); Terminal(Symbol(c), r.1, r.0)
  {
  }

  /** A `Steps(t)` rule is met on some iteration of a fresh traversal exactly
      when `t != 1`: the first call jumps the count from 0 to 2. */
  lemma StepsReachable(t: nat, g: Grid, slope: (nat, nat))
    requires g.Valid()
    ensures t != 1 ==>
      var k := if t == 0 then 0 else t - 1;
      var r := Iterate(New(), g, slope, k);
      Terminal(Steps(t), r.1, r.0)
    ensures t == 1 ==> forall k: nat ::
      !Terminal(Steps(t), Iterate(New(), g, slope, k).1, Iterate(New(), g, slope, k).0)
  {
  }

  /** After a step a `Position` rule holds exactly when its target is the
      wrapped destination, whatever held before the step. */
  lemma PositionAfterStep(x: nat, y: nat, s: State, g: Grid, slope: (nat, nat))
    requires g.Valid() && g.Contains(s.x, s.y)
    ensures var r := Step(s, g, slope);
      Terminal(Position(x, y), r.1, r.0) <==> x == (s.x + slope.0) % g.width && y == (s.y + slope.1) % g.height
  {
  }
}
