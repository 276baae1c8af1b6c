# Grid traversal core, in Dafny

A model of the navigation engine in `src/navigation.rs`. A cursor walks a
toroidal grid of cells. Each cell is Free (`.`), Trash (`X`) or a Buoy (`O`).
The cursor moves by a fixed slope `(dx, dy)` and wraps around on both axes.
Each visit records the kind of cell it lands on, and Trash is cleaned to Free.
The walk stops when a termination rule holds, and the engine then prints one
report about the final state. The model covers:

- the cell codec (`TryFrom<char> for Cell`, `From<Cell> for char`) — module `Cells`;
- the traversal state, `State::new` and `State::step` — module `Traversal`.
  The grid (`crate::map::Map`) appears only through the interface the step
  uses: width, height, `get` and `clean` (module `Grids`);
- termination rules: the `From<String>` parser, its comma splitting, `trim` and
  `usize` parsing, and the `terminal` predicate — modules `Terminations` and `Text`;
- report selectors: the `From` parser behind `FromStr` and the `output`
  formatter — module `Outputs`;
- a worked three-call run on a 3×2 grid, plus the configuration strings that
  drive it — module `Scenario`.

Rust panics (`unwrap` on a failed parse, `panic!` on an unknown selector or
field count) become `Failure` values of `Errors.ParseError`. `usize` becomes
`nat`.

Behaviour kept as the code has it:
- The first call to `step` on a fresh state visits the origin before it moves,
  so that call raises `steps` by 2 and every later call raises it by 1. A
  `Steps(1)` rule therefore never holds (`Terminations.StepsReachable`).
- The termination parser decides the kind of rule from the number of commas
  alone. It never looks at the `S`/`P` tag field. A symbol rule uses only the
  first character of its second field.
- A `c,` selector uses only its third character. Anything after that is ignored.

The code's own comments describe termination texts as `"S,<X>"` and
`"P,<X>,<Y>"` (`src/navigation.rs:148`, `:154`), and a selector as a symbol
"after `C,`" (`:206`). The code accepts more than that, as the points above
say, and the model follows the code (`Terminations.SymbolIgnoresTag`,
`Outputs.SymbolCountIgnoresRest`).

## Model

| member | source | states |
|---|---|---|
| `Cells.ParseCell` | src/navigation.rs:105-120 | A character parses exactly when it is `.`, `x`, `X`, `o` or `O`. A parsed cell's canonical character is the input upper-cased. Any other character fails with `InvalidCell` carrying that character. |
| `Cells.CharOf` | src/navigation.rs:122-130 | Every cell's canonical character is already upper-case. |
| `Cells.CellRoundTrip` | src/navigation.rs:105-130 | Parsing a cell's canonical character gives that cell back. |
| `Cells.ParseCellCaseInsensitive` | src/navigation.rs:108-109 | A character and its lower-case form are accepted together and give the same cell. |
| `Grids.Grid.Clean` | src/navigation.rs:71-73 | Cleaning keeps the grid well-formed and its size unchanged. It turns Trash at the target into Free, leaves a non-Trash target as it was, and changes no other cell. |
| `Grids.CleanIdempotent` | src/navigation.rs:48-50 | Cleaning the same cell twice has the same effect as cleaning it once. |
| `Traversal.Record` | src/navigation.rs:59-70 | One visit leaves the position alone and adds one step. It puts the kind in the found set and sets it as last visited. It raises that kind's count by one, leaves every other count alone, and raises the total count by one. |
| `Traversal.Visit` | src/navigation.rs:62-73 | A visit records the kind read at the cell. It cleans that cell only if it is Trash, and changes no other cell. |
| `Traversal.Step` | src/navigation.rs:37-78 | The cursor moves to `((x+dx) mod W, (y+dy) mod H)`, which stays on the grid. The step count rises by 2 on the first call and by 1 afterwards. The last kind is the one read at the destination, which may be the origin just cleaned on the first call. The found set gains the destination's kind, plus the origin's kind on the first call. Each kind's count rises by one for each visit that read it: the origin on the first call, and the destination always. Every other count stays the same. Neither visited cell is Trash afterwards. No other cell changes, and any change is Trash becoming Free. |
| `Traversal.Iterate` | src/navigation.rs:258-261 | Over n repeated calls: the cursor stays on the grid; steps rise by n, plus 1 when starting fresh; the found set and every count only grow; a cell only ever changes from Trash to Free. |
| `Traversal.New` | src/navigation.rs:25-34 | The fresh state is at the origin with no steps, nothing found, nothing visited last, and a count of 0 for every kind. Its partner is `Traversal.NewInv`. |
| `Traversal.NewInv` | src/navigation.rs:25-34 | The fresh state is at the origin with no visits, and it satisfies the state invariant on any well-formed grid. |
| `Traversal.VisitInv` | src/navigation.rs:41-50 | A visit preserves the invariant: the counts sum to the step count; the found set is the set of counted kinds; every count is positive; nothing was visited last only before the first visit. |
| `Traversal.StepInv` | src/navigation.rs:37-78 | Every call to `step` preserves that invariant, including the cursor staying on the grid. |
| `Traversal.MoveInv` | src/navigation.rs:55-77 | Moving by the slope from a cell on the grid and visiting the wrapped destination keeps the invariant. |
| `Traversal.IterateInv` | src/navigation.rs:37-78 | The invariant holds after any number of calls. |
| `Traversal.FoundAtMostThree` | src/navigation.rs:6-11 | No state's found set holds more than three kinds. The bound comes from the three-kind `Cell` type. |
| `Traversal.StepCountsGrow` | src/navigation.rs:68-69 | No call lowers the count of any kind. |
| `Traversal.VisitedStaysClean` | src/navigation.rs:71-73 | After a call, the cell the cursor landed on is never Trash again, however many calls follow. The Trash count never drops when that cell is cleaned. |
| `Text.Split` | src/navigation.rs:142 | Splitting at a separator gives one more piece than the text has separators, and no piece contains the separator. |
| `Text.JoinSplit` | src/navigation.rs:142 | Joining the pieces of a split with the separator restores the text. |
| `Text.SplitJoin` | src/navigation.rs:142 | Separator-free pieces joined with the separator split back into the same pieces. |
| `Text.SplitPrefix` | src/navigation.rs:142 | A separator-free prefix followed by a separator becomes the first piece, and the rest splits independently. |
| `Text.SplitTwo` | src/navigation.rs:142 | Two separator-free pieces around one separator split into exactly those two pieces. |
| `Text.SplitThree` | src/navigation.rs:142 | Three separator-free pieces around two separators split into exactly those three pieces. |
| `Text.Trim` | src/navigation.rs:156-157 | The trimmed text has no whitespace at either end and is no longer than the input. |
| `Text.TrimPadded` | src/navigation.rs:156-157 | Trimming whitespace padding around a trimmed core gives exactly that core. |
| `Text.TrimKeepsTrimmed` | src/navigation.rs:156-157 | A text with no whitespace at its ends is its own trim. |
| `Text.ParseNat` | src/navigation.rs:146 | A number parses exactly when it is a nonempty run of digits, optionally after one `+`. A plain digit run parses to its decimal value, and so does a digit run after `+`. |
| `Text.NatToString` | src/navigation.rs:230 | A printed number is canonical decimal, with no leading zero except `0` itself, and its digits denote the number. |
| `Text.NatRoundTrip` | src/navigation.rs:230 | Parsing a printed number gives the number back. |
| `Text.CanonicalRoundTrip` | src/navigation.rs:146 | Printing the value of a canonical digit string gives back the same string. |
| `Text.LeadingNonZero` | src/navigation.rs:146 | A digit string that does not start with `0` denotes a positive number. |
| `Terminations.FromFields` | src/navigation.rs:144-162 | No fields, or four or more, is a field-count error. One field is a step count, or an `InvalidNumber` error carrying the text. Each kind of rule comes only from its own field count. Two fields succeed exactly when the second is nonempty and its first character is a cell character, and the rule is that cell. Three fields succeed exactly when both trimmed coordinate fields parse as numbers, including ones like `02` or `+2`, and the rule is that position. |
| `Terminations.Terminal` | src/navigation.rs:166-180 | Evaluates a rule on a state without consulting the grid. Its contract is given by `Terminations.StepsReachable`, `Terminations.SymbolStaysTerminal` and `Terminations.PositionAfterStep`. |
| `Terminations.ParseTermination` | src/navigation.rs:139-164 | Three or more commas give a field-count error. Comma-free text parses as a step count or fails with `InvalidNumber`. A step rule needs no comma, a symbol rule exactly one, a position rule exactly two. |
| `Terminations.ParseTwoFields` | src/navigation.rs:142-152 | A text with one comma is read from its two fields. |
| `Terminations.ParseThreeFields` | src/navigation.rs:142-159 | A text with two commas is read from its three fields. |
| `Terminations.ShowRoundTrip` | src/navigation.rs:139-164 | Parsing the canonical text of any rule (`N`, `S,X`, `P,x,y`) gives that rule back. |
| `Terminations.StepsRoundTrip` | src/navigation.rs:146 | A printed number parses as that step-count rule. |
| `Terminations.SymbolRoundTrip` | src/navigation.rs:149-152 | `S,` followed by a cell's character parses as that symbol rule. |
| `Terminations.PositionRoundTrip` | src/navigation.rs:155-159 | `P,x,y` with printed coordinates parses as that position rule. |
| `Terminations.PositionFields` | src/navigation.rs:155-159 | Printed coordinates after any comma-free tag parse as that position rule. |
| `Terminations.FieldsToPosition` | src/navigation.rs:155-159 | Three fields whose second and third are printed numbers give that position. |
| `Terminations.SymbolIgnoresTag` | src/navigation.rs:149-152 | With one comma, the result depends only on the first character after the comma. The tag and the rest of the field do not matter. |
| `Terminations.PositionAllowsPadding` | src/navigation.rs:156-157 | Coordinates padded with whitespace on either side still parse to the same position. |
| `Terminations.SymbolStaysTerminal` | src/navigation.rs:172-174 | A satisfied symbol rule stays satisfied however many calls follow. |
| `Terminations.StepsReachable` | src/navigation.rs:169-171 | From a fresh state, a step-count rule `t` holds after some number of calls exactly when `t` is not 1. |
| `Terminations.PositionAfterStep` | src/navigation.rs:175-177 | After a call, a position rule holds exactly when its target is the wrapped destination. |
| `Outputs.Lower` | src/navigation.rs:204 | Lower-casing keeps the length and lower-cases each character in place. |
| `Outputs.ParseOutput` | src/navigation.rs:198-221 | A symbol-count selector is chosen exactly when the text starts `c,` (either case) and its third character is a cell character, which gives the cell. Every other selector is a single `p`, `n`, `s` or `d` in either case. Any other text that does not start with `c,` fails as unsupported. |
| `Outputs.ShowRoundTrip` | src/navigation.rs:198-221 | Parsing the canonical text of any selector gives that selector back. |
| `Outputs.CaseInsensitive` | src/navigation.rs:204-211 | Texts that agree up to case select the same report. |
| `Outputs.SymbolCountIgnoresRest` | src/navigation.rs:205-209 | `c,` followed by a character and any rest is accepted exactly when that character is a cell character. It then selects that cell's count. |
| `Outputs.FormatNumbers` | src/navigation.rs:228-253 | The step, count and distinct reports are canonical decimals. They parse back to the step count, the kind's count (`0` for a kind never visited) and the number of kinds found. |
| `Outputs.Format` | src/navigation.rs:223-256 | Every report is nonempty. The step, count and distinct reports are canonical decimals. The terminal-symbol report is one character that parses to the cell under the cursor. The position report is parenthesised around a comma. Its partners are `Outputs.FormatNumbers`, `Outputs.FormatPosition` and `Outputs.FormatTerminalSymbol`. |
| `Outputs.FormatPosition` | src/navigation.rs:248-250 | The position report is a parenthesised pair of comma-separated canonical decimals that parse back to the cursor's coordinates. |
| `Outputs.FormatTerminalSymbol` | src/navigation.rs:243-247 | The terminal-symbol report is the single upper-case character that parses to the cell under the cursor now. |
| `Outputs.TerminalSymbolAfterCleaning` | src/navigation.rs:243-247 | When a call's destination holds Trash, the terminal-symbol report is `.` afterwards, because the grid is re-read after cleaning. The last kind recorded is Trash, except on a first call whose destination is the origin: that cell was already cleaned, so the last kind is Free. |
| `Scenario.ExampleFirstCall` | src/navigation.rs:41-51 | On the example grid, the first call visits the origin and (1,0) and counts two visits. |
| `Scenario.ExampleSecondCall` | src/navigation.rs:62-73 | The second call lands on Trash, counts it and cleans it. |
| `Scenario.ExampleThirdCall` | src/navigation.rs:55-56 | The third call wraps the cursor back to the origin. |
| `Scenario.ExampleIterate` | src/navigation.rs:258-261 | Three calls from a fresh state end at the origin with four visits and the Trash cleaned. |
| `Scenario.ExampleRun` | src/navigation.rs:166-180 | That run meets `Steps(4)`. It reports position `(0,0)`, two kinds found and one Trash visit. |
| `Scenario.ExampleReports` | src/navigation.rs:223-256 | The reports on the run's final state are `(0,0)`, `2` and `1`. |
| `Scenario.StepsFixture` | src/navigation.rs:145-146 | `3` is the step-count rule 3. |
| `Scenario.SymbolFixture` | src/navigation.rs:148-152 | `S,X` is the symbol rule for Trash. |
| `Scenario.PositionFixture` | src/navigation.rs:154-159 | `P,2,5` is the position rule for (2,5). |
| `Scenario.OutputFixtures` | src/navigation.rs:198-221 | `C,x`, `p` and `d` select the Trash count, the position and the number of kinds. |

## Left out

- `crate::map::Map` is not part of this model. Its storage and file parsing
  are replaced by `Grids.Grid`, which offers only width, height, `get` and
  `clean` with the behaviour the step relies on.
- The driver loop that calls `step` until `terminal` holds (outside
  `navigation.rs`) is represented only by `Traversal.Iterate`, which makes a
  given number of calls.
- The getters `get_xpos` … `get_last_visited` (`src/navigation.rs:80-102`) read
  fields. They are the fields of the `Traversal.State` datatype.
- `FromStr for Output` (`src/navigation.rs:190-196`) only forwards to `From`.
  It is `Outputs.ParseOutput`, and its `Utf8Error` type is never produced.
- The free function `step` (`src/navigation.rs:258-261`) only forwards to
  `State::step`. It is `Traversal.Step`.
- `usize` arithmetic is unbounded: overflow of `steps`, of a count, or of
  `x + dx` is not modelled. Likewise a number too large for `usize` parses
  instead of failing.
- Unicode case mapping (`to_uppercase`, `to_lowercase`) and Unicode whitespace
  in `trim` are restricted to ASCII.
- Panics are modelled as `Failure` results. Their messages are not modelled,
  and neither are the `Debug`/`Clone` derives.
- `Traversal.Step`'s precondition excludes a zero-width or zero-height grid,
  and a cursor off the grid. The Rust code divides by zero in the first case
  (`src/navigation.rs:55-56`). A cursor off the grid matters only on the first
  call, the one place that reads at the unreduced position
  (`src/navigation.rs:41-42`). What `Map::get` does there is outside this model.
  Every later read is at a position already reduced modulo the width and
  height (`src/navigation.rs:55-56`, `:62`).
- Outputs.SymbolCountIgnoresRest: states acceptance and the chosen cell only.
  On failure the error carries the lower-cased character, and the lemma does
  not state that.
