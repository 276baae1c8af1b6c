/** What is reported at the end: the selector, its textual grammar, and the
    formatter (`Output`, `From<S> for Output`, `output`). */
module Outputs {
  import opened Wrappers
  import opened Errors
  import opened Cells
  import opened Text
  import opened Grids
  import opened Traversal

  datatype Output =
      /** The number of visits counted (`n`). */
    | Steps
      /** How often cells of kind `c` were visited (`c,<C>`). */
    | SymbolCount(c: Cell)
      /** The cell under the cursor at the end (`s`). */
    | TerminalSymbol
      /** The final coordinates (`p`). */
    | Position
      /** How many distinct kinds were found (`d`). */
    | Distinct

  /** ASCII lower-casing of a whole string (`str::to_lowercase`). */
  function Lower(s: string): (r: string)
    ensures |r| == |s|
    ensures forall i :: 0 <= i < |s| ==> r[i] == ToLower(s[i])
  {
    seq(|s|, i requires 0 <= i < |s| => ToLower(s[i]))
  }

  /** Case-insensitive parse of a selector. A text starting `c,` selects a
      symbol count from its third character alone; otherwise the whole text must
      be one of `p`, `n`, `s`, `d`. */
  function ParseOutput(text: string): (r: Result<Output, ParseError>)
    ensures r.Success? && r.value.SymbolCount? <==>
      |text| >= 3 && ToLower(text[0]) == 'c' && text[1] == ',' && ParseCell(text[2]).Success?
    ensures r.Success? && r.value.SymbolCount? ==> r.value.c == ParseCell(text[2]).value
    ensures r.Success? && !r.value.SymbolCount? ==> |text| == 1
    ensures |text| == 1 ==> (r.Success? <==> ToLower(text[0]) in {'p', 'n', 's', 'd'})
    ensures r.Failure? && (|text| < 2 || ToLower(text[0]) != 'c' || text[1] != ',') ==> r.error == Unsupported(text)
  {
    var lower := Lower(text);
    if |lower| >= 2 && lower[..2] == "c," then
      if |lower| < 3 then Failure(MissingSymbol)
      else
        match ParseCell(lower[2])
        case Success(c) => Success(SymbolCount(c))
        case Failure(e) => Failure(e)
    else if lower == "p" then Success(Position)
    else if lower == "n" then Success(Steps)
    else if lower == "s" then Success(TerminalSymbol)
    else if lower == "d" then Success(Distinct)
    else Failure(Unsupported(text))
  }

  /** The canonical text of a selector. */
  function Show(o: Output): string {
    match o
    case Steps => "n"
    case SymbolCount(c) => "c," + [CharOf(c)]
    case TerminalSymbol => "s"
    case Position => "p"
    case Distinct => "d"
  }

  /** Parsing the canonical text of any selector gives the selector back. */
  lemma ShowRoundTrip(o: Output)
    ensures ParseOutput(Show(o)) == Success(o)
  {
    if o.SymbolCount? {
      CellRoundTrip(o.c);
      var text := Show(o);
      ParseCellCaseInsensitive(CharOf(o.c));
      assert text[2] == CharOf(o.c);
      assert Lower(text)[2] == ToLower(CharOf(o.c));
      assert Lower(text)[..2] == "c,";
      assert ParseCell(ToLower(CharOf(o.c))) == Success(o.c);
    } else {
      var text := Show(o);
      assert |Lower(text)| == 1 && Lower(text)[0] == text[0];
      assert Lower(text) == text;
    }
  }

  /** Texts that agree up to ASCII case select the same report. */
  lemma CaseInsensitive(a: string, b: string)
    requires Lower(a) == Lower(b)
    ensures ParseOutput(a).Success? <==> ParseOutput(b).Success?
    ensures ParseOutput(a).Success? ==> ParseOutput(a).value == ParseOutput(b).value
  {
  }

  /** Whatever follows the symbol character of a `c,` selector is ignored. */
  lemma SymbolCountIgnoresRest(ch: char, rest: string)
    ensures ParseOutput("c," + [ch] + rest).Success? <==> ParseCell(ch).Success?
    ensures ParseCell(ch).Success? ==>
      ParseOutput("c," + [ch] + rest).value == SymbolCount(ParseCell(ch).value)
  {
    var text := "c," + [ch] + rest;
    assert text[2] == ch;
    assert Lower(text)[2] == ToLower(ch);
    assert Lower(text)[..2] == "c,";
    ParseCellCaseInsensitive(ch);
  }

  /** The final report (`output`). */
  function Format(o: Output, g: Grid, s: State): (r: string)
    requires o.TerminalSymbol? ==> g.Valid() && g.Contains(s.x, s.y)
    ensures |r| > 0
    ensures o.Steps? || o.SymbolCount? || o.Distinct? ==> IsCanonicalNat(r)
    ensures o.TerminalSymbol? ==> |r| == 1 && ParseCell(r[0]) == Success(g.Get(s.x, s.y))
    ensures o.Position? ==> r[0] == '(' && r[|r| - 1] == ')' && ',' in r
  {
    match o
    case Steps => NatToString(s.steps)
    case SymbolCount(c) => if c in s.counts then NatToString(s.counts[c]) else "0"
    case TerminalSymbol => [CharOf(g.Get(s.x, s.y))]
    case Position => "(" + NatToString(s.x) + "," + NatToString(s.y) + ")"
    case Distinct => NatToString(|s.found|)
  }

  /** Every numeric report is a canonical decimal that parses back to the
      statistic it reports; a kind never visited reports `0`. */
  lemma FormatNumbers(o: Output, g: Grid, s: State)
    requires o.Steps? || o.SymbolCount? || o.Distinct?
    ensures IsCanonicalNat(Format(o, g, s))
    ensures o.Steps? ==> ParseNat(Format(o, g, s)) == Some(s.steps)
    ensures o.SymbolCount? ==> ParseNat(Format(o, g, s)) == Some(CountOf(s.counts, o.c))
    ensures o.SymbolCount? && o.c !in s.counts ==> Format(o, g, s) == "0"
    ensures o.Distinct? ==> ParseNat(Format(o, g, s)) == Some(|s.found|)
  {
    match o
    case Steps => NatRoundTrip(s.steps);
    case SymbolCount(c) =>
      NatRoundTrip(CountOf(s.counts, c));
      assert NatToString(0) == "0";
    case Distinct => NatRoundTrip(|s.found|);
  }

  /** The position report is `(x,y)`: a parenthesised pair of comma-separated
      decimals that parse back to the cursor's coordinates. */
  lemma FormatPosition(g: Grid, s: State)
    ensures var r := Format(Position, g, s);
      && |r| >= 5 && r[0] == '(' && r[|r| - 1] == ')'
      && var fields := Split(r[1..|r| - 1], ',');
      && |fields| == 2
      && IsCanonicalNat(fields[0]) && ParseNat(fields[0]) == Some(s.x)
      && IsCanonicalNat(fields[1]) && ParseNat(fields[1]) == Some(s.y)
  {
    var xs := NatToString(s.x);
    var ys := NatToString(s.y);
    var r := Format(Position, g, s);
    assert r[1..|r| - 1] == xs + [','] + ys;
    assert ',' !in xs && ',' !in ys by {
      assert forall i :: 0 <= i < |xs| ==> IsDigit(xs[i]);
      assert forall i :: 0 <= i < |ys| ==> IsDigit(ys[i]);
    }
    SplitTwo(xs, ys, ',');
    NatRoundTrip(s.x);
    NatRoundTrip(s.y);
  }

  /** The terminal-symbol report is the canonical character of the cell the
      grid holds under the cursor now. */
  lemma FormatTerminalSymbol(g: Grid, s: State)
    requires g.Valid() && g.Contains(s.x, s.y)
    ensures var r := Format(TerminalSymbol, g, s);
      |r| == 1 && ParseCell(r[0]) == Success(g.Get(s.x, s.y)) && r[0] == ToUpper(r[0])
  {
    CellRoundTrip(g.Get(s.x, s.y));
  }

  /** The terminal symbol is re-read from the grid rather than taken from the
      last visit: right after a step onto Trash it reports the cleaned `.`. */
  lemma TerminalSymbolAfterCleaning(s: State, g: Grid, slope: (nat, nat))
    requires g.Valid() && g.Contains(s.x, s.y)
    requires g.Get((s.x + slope.0) % g.width, (s.y + slope.1) % g.height) == Trash
    ensures var r := Step(s, g, slope);
      r.0.last == Some(if s.steps == 0 && r.0.x == s.x && r.0.y == s.y then Free else Trash)
    ensures var r := Step(s, g, slope); Format(TerminalSymbol, r.1, r.0) == "."
  {
    var r := Step(s, g, slope);
    assert r.1.Get(r.0.x, r.0.y) == Free;
  }
}
