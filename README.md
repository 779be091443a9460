# 24-solver: a Dafny model of the game core

The 24 game: given four playing cards, combine their values with `+`, `-`,
`*` and `/` and brackets so that the result is exactly 24. The `Game` class
of `src/com/solver/Game.java` gets four cards in one of two ways. The player
can type them, with the input validated and retried. Or they can be drawn
from a shuffled 52-card deck. The class then finds every solution by brute
force: all arrangements of the four cards, five bracket shapes and 64
operator triples, appending the text of each expression whose value is 24.

This project models that core and proves what it computes:

- `Cards` (`cards.dfy`) holds the label constants and `convertCards`.
- `Decimal` (`decimal.dfy`) holds `%d` formatting and `Integer.parseInt`.
- `Expressions` (`expressions.dfy`) holds the five shapes. Each candidate's
  value is given as the source's formula and as an expression tree, and its
  text as the source's format string and as a printer with a parser.
- `Search` (`search.dfy`) is the specification of the search: the
  arrangements the four nested loops reach, the 320 conditions in their
  written order, and the resulting list of solutions. It also holds
  soundness, completeness, order, bounds and the read-back of each string.
- `Symmetry` (`symmetry.dfy`) proves that reordering the cards only reorders
  the solutions.
- `Input` (`input.dfy`) covers the validation loop of `inputCardsFromUser`:
  one attempt as an in-place array method, the accumulator over all
  attempts, and the final split and parse.
- `Solver` (`solver.dfy`) is the `Game` class itself. `FindSolutions` and
  its loops work on the `cards` array and the `solutions` field.
  `InputCardsFromUser` and `GenerateCards` set `cards`.
- `Multisets` and `Wrappers` are small helpers.

`inputCardsFromUser` throws in two cases. It throws
`NumberFormatException` when no label was kept, for instance when the input
runs out at once: the empty accumulator `""` splits to `[""]`. It throws
`ArrayIndexOutOfBoundsException` when fewer than four labels were kept. The
model returns `ok == false` in both cases. `generateCards` never throws: it
draws only deck labels, and `Solver.Game.GenerateCards` proves that parsing
them succeeds. Values are exact rationals, and a division by zero has no
value (`None`).

## Model

| member | source | states |
|---|---|---|
| Cards.Rank | src/com/solver/Game.java:13-15 | a valid label's rank is its position among the thirteen labels plus one, from 1 (ace) to 13 (king) |
| Cards.ValidDistinct | src/com/solver/Game.java:13-15 | the thirteen valid labels are pairwise different |
| Cards.DeckMultiplicity | src/com/solver/Game.java:17-22 | the deck has 52 cards and holds every valid label exactly four times and nothing else |
| Cards.ConvertCard | src/com/solver/Game.java:141-157 | definition of `convertCards` for one label: A, J, Q and K become "1", "11", "12" and "13", anything else is kept; characterised by `ConvertValid`, `ConvertRank` and `ConvertUnchanged` |
| Cards.ConvertValid | src/com/solver/Game.java:141-157 | `convertCards` of the label at position m is text that `Integer.parseInt` reads as m + 1 |
| Cards.ConvertRank | src/com/solver/Game.java:141-157 | `convertCards` then `Integer.parseInt` of any valid label gives its rank |
| Cards.RankTextShape | src/com/solver/Game.java:141-157 | a converted label is a non-empty word without spaces whose number is between 1 and 13 |
| Cards.ConvertUnchanged | src/com/solver/Game.java:141-157 | labels other than A, J, Q and K are returned unchanged |
| Decimal.FormatInt | src/com/solver/Game.java:224 | definition of `%d`: a minus sign before the digits of a negative number, and the shortest digit string; the text is non-empty and starts with a digit or `-`; characterised by `ParseFormatInt` and `ReadFormatInt` |
| Decimal.ParseInt | src/com/solver/Game.java:91 | definition of `Integer.parseInt` in base 10: an optional sign, at least one digit, a value in the `int` range, otherwise `None`; characterised by `ParseFormatInt` |
| Decimal.ParseFormatInt | src/com/solver/Game.java:89-92 | `Integer.parseInt` reads back the decimal text of every int-range integer |
| Decimal.ReadFormatInt | src/com/solver/Game.java:222-225 | a number printed by `%d` is read back from the front of any text that does not continue with a digit |
| Expressions.Apply | src/com/solver/Game.java:207-234 | an operation has no value exactly when it divides by zero; `/` is exact division (result times divisor is the dividend) |
| Expressions.UndefinedIffDividesByZero | src/com/solver/Game.java:222-1190 | an expression has no value exactly when one of its divisors evaluates to zero |
| Expressions.Eval | src/com/solver/Game.java:222-1189 | definition of the 320 conditions' left-hand sides, by shape and operator triple; characterised by `EvalIsTreeValue` and `EvalUndefinedIffDividesByZero` |
| Expressions.Render | src/com/solver/Game.java:222-1189 | definition of the 320 format strings, by shape and operator triple; characterised by `RenderIsShow`, `ParseRender` and `RenderInjective` |
| Expressions.EvalIsTreeValue | src/com/solver/Game.java:222-1189 | each of the source's formulas is the value of the expression tree of its shape |
| Expressions.RenderIsShow | src/com/solver/Game.java:222-1189 | each of the source's format strings prints that tree, fully bracketed as written |
| Expressions.TreeLeaves | src/com/solver/Game.java:188-205 | a shape's tree holds the four numbers in the order a, b, c, d |
| Expressions.ParseShow | src/com/solver/Game.java:222-1189 | parsing inverts printing for every expression with an operator |
| Expressions.ParseRender | src/com/solver/Game.java:222-1189 | a rendered solution string parses back to its shape's tree over a, b, c, d |
| Expressions.RenderInjective | src/com/solver/Game.java:222-1189 | two conditions print the same string only if shape, operators and numbers are all the same |
| Expressions.EvalUndefinedIffDividesByZero | src/com/solver/Game.java:222-1189 | a condition has no value exactly when its tree divides by zero |
| Expressions.SymbolRoundTrip | src/com/solver/Game.java:222-1189 | each operator's symbol reads back as that operator |
| Search.LoopL | src/com/solver/Game.java:183-186 | definition of the innermost loop, skipping indices already taken; characterised by `OrderingsFacts` |
| Search.LoopK | src/com/solver/Game.java:179-182 | definition of the third loop; characterised by `OrderingsFacts` |
| Search.LoopJ | src/com/solver/Game.java:175-178 | definition of the second loop; characterised by `OrderingsFacts` |
| Search.LoopI | src/com/solver/Game.java:174 | definition of the outer loop; characterised by `OrderingsFacts` |
| Search.Orderings | src/com/solver/Game.java:174-187 | definition of the arrangements the four nested loops reach, in order; characterised by `OrderingsFacts`, `OrderingsMultiplicity` and `OrderingsLength` |
| Search.OrderingsLength | src/com/solver/Game.java:174-187 | over n cards the loops reach n(n-1)(n-2)(n-3) arrangements |
| Search.OrderingsFacts | src/com/solver/Game.java:174-187 | the nested loops reach exactly the arrangements of four distinct card indices, in strictly increasing lexicographic order |
| Search.OrderingsMultiplicity | src/com/solver/Game.java:174-187 | every arrangement of four distinct indices is reached exactly once and nothing else is reached |
| Search.FourCardOrderings | src/com/solver/Game.java:174-187 | over four cards the loops reach the 24 permutations of 0..3, each once, in lexicographic order |
| Search.CombinationAt | src/com/solver/Game.java:222-1189 | definition of the order of the 320 conditions: shape slowest, then the first, second and third operator; characterised by `CombinationBijection` and `CandidatesOfIndex` |
| Search.CombinationBijection | src/com/solver/Game.java:222-1189 | the 320 conditions per arrangement are every shape with every operator triple exactly once, in the order written |
| Search.CandidatesOfIndex | src/com/solver/Game.java:174-1193 | output order: arrangements vary slowest, then shapes, then operators, with the first operator slowest |
| Search.Solutions | src/com/solver/Game.java:163-1200 | definition of the list `findSolutions` builds; characterised by `SolutionTextsSpec`, `SolutionsSound`, `SolutionsComplete` and `Solver.Game.FindSolutions` |
| Search.SolutionTextsSpec | src/com/solver/Game.java:222-1189 | a string is appended exactly when some tried condition evaluates to exactly 24 and prints as that string |
| Search.SolutionTextsLength | src/com/solver/Game.java:222-1189 | each tried condition appends at most one string |
| Search.SolutionsSound | src/com/solver/Game.java:174-1193 | every found string is the text of some arrangement, shape and operators whose value is exactly 24 |
| Search.SolutionsComplete | src/com/solver/Game.java:174-1193 | every arrangement, shape and operator triple with value exactly 24 puts its string among the solutions |
| Search.SolutionsBound | src/com/solver/Game.java:167-1193 | the solutions number at most 320 per arrangement the loops reach |
| Search.FourCardSolutionsBound | src/com/solver/Game.java:167-1193 | over four cards there are at most 7,680 solutions |
| Search.ArrangementMultiset | src/com/solver/Game.java:188-196 | an arrangement of 0..3 picks the four card values, each as often as it occurs |
| Search.PickedIsPermutation | src/com/solver/Game.java:188-196 | over four cards each tried condition uses every card exactly once |
| Search.SolutionsParse | src/com/solver/Game.java:222-1189 | every found string parses back to an expression that never divides by zero, whose value is 24 and whose numbers are the cards of one arrangement the loops reach (over four cards, each card once) |
| Symmetry.SwapInvariance | src/com/solver/Game.java:174-190 | exchanging two cards leaves the multiset of solutions unchanged |
| Symmetry.PermutationInvariance | src/com/solver/Game.java:174-190 | any reordering of the cards changes only the order of the solutions, not which strings occur or how often |
| Input.ValidRun | src/com/solver/Game.java:60-75 | the index where the check of a four-token line stops: all earlier tokens are valid, the token there is not |
| Input.AcceptsIff | src/com/solver/Game.java:56-75 | a line is accepted exactly when it has four tokens and all of them are valid labels |
| Input.CheckAttempt | src/com/solver/Game.java:51-82 | one attempt: accepted exactly as `AcceptsIff` says; the accumulator gains the rank texts of the valid tokens before the first invalid one (space after each, none after an accepted fourth); those tokens are converted in place |
| Input.Words | src/com/solver/Game.java:86 | definition of `split("\\s+")` on texts whose spaces are single; characterised by `WordsSpaced` and `WordsJoined` |
| Input.WordsSpaced | src/com/solver/Game.java:86 | splitting words each followed by a space gives the words back |
| Input.WordsJoined | src/com/solver/Game.java:86 | splitting words joined by single spaces gives the words back |
| Input.Accumulate | src/com/solver/Game.java:41-84 | definition of `finalCardString` after each attempt, up to the first accepted one; characterised by `AccumulateIsKept` |
| Input.AccumulateIsKept | src/com/solver/Game.java:45-84 | the accumulator spells out every label kept by every attempt up to the first accepted one, never cleared in between |
| Input.FirstFour | src/com/solver/Game.java:89-92 | the first four words are parsed exactly when there are four and each is a number; `None` where the source throws |
| Input.ReadCards | src/com/solver/Game.java:40-92 | definition of the cards `inputCardsFromUser` sets, `None` where it throws; characterised by `ReadCardsKept`, `FirstAttempt`, `ReadCardsRanks` and `Solver.Game.InputCardsFromUser` |
| Input.ReadCardsKept | src/com/solver/Game.java:40-92 | the cards read are the ranks of the first four labels kept by all attempts; none when fewer than four were kept |
| Input.FirstAttempt | src/com/solver/Game.java:40-92 | a line accepted on the first attempt gives the ranks of its four labels, in order |
| Input.ReadCardsRanks | src/com/solver/Game.java:40-92 | cards read are four ranks between 1 and 13 |
| Input.LeftoverExample | src/com/solver/Game.java:60-75 | as written: after "A 2 X 4" is rejected, an accepted "3 4 5 6" gives the cards 1, 2, 3, 4 |
| Input.Intended | src/com/solver/Game.java:36-38 | the intended cards are the ranks of the first accepted line, and exist exactly when some line is accepted |
| Input.FirstAttemptIntended | src/com/solver/Game.java:40-92 | when the first line is accepted, the source reads the intended cards |
| Input.LeftoverDiffers | src/com/solver/Game.java:60-75 | on those two lines the intended cards are 3, 4, 5, 6, which differ from what the source reads |
| Input.AcceptedReadsBack | src/com/solver/Game.java:60-92 | the text appended by an accepted line splits and parses back to the ranks of its labels |
| Solver.Game.constructor | src/com/solver/Game.java:27-30 | a new game holds no cards and no solutions |
| Solver.Game.InputCardsFromUser | src/com/solver/Game.java:40-92 | `cards` becomes a new array of four; `ok` holds exactly when the source does not throw, and then `cards` holds the cards `ReadCardsKept` describes |
| Solver.Game.InputCardsIntended | src/com/solver/Game.java:40-92 | corrected: the accumulator starts empty on every attempt, and `cards` holds the ranks of the first accepted line |
| Solver.Game.ParseCards | src/com/solver/Game.java:89-92 | `cards` becomes a new array of four holding `Integer.parseInt` of the first four words; `ok` is false exactly where the source throws |
| Solver.Game.DrawCards | src/com/solver/Game.java:110-127 | the top four labels of the shuffled deck, each converted in place |
| Solver.DrawnRanks | src/com/solver/Game.java:101-133 | in any shuffle of the deck the top four labels are valid, and converting and parsing them gives their ranks |
| Solver.Game.GenerateCards | src/com/solver/Game.java:101-135 | for any shuffle, `cards` becomes a new array of four holding the ranks of the top four labels; parsing cannot fail |
| Solver.Game.FindSolutions | src/com/solver/Game.java:163-1200 | `solutions` is reset and then equals the specification `Solutions(cards)`, with the cards unchanged |
| Solver.Game.SearchJ | src/com/solver/Game.java:175-178 | the second loop appends, for a fixed first index, the strings of every arrangement it reaches |
| Solver.Game.SearchK | src/com/solver/Game.java:179-182 | the third loop does the same for fixed first and second indices |
| Solver.Game.SearchL | src/com/solver/Game.java:183-186 | the innermost loop does the same for three fixed indices, skipping those already taken |
| Solver.Game.TryOrdering | src/com/solver/Game.java:188-1190 | the 320 conditions of one arrangement append exactly the strings of the candidates whose value is 24, in order |
| Solver.FoundLTexts | src/com/solver/Game.java:183-186 | the innermost loop's strings are those of the arrangements it reaches |
| Solver.FoundKTexts | src/com/solver/Game.java:179-182 | the third loop's strings are those of the arrangements it reaches |
| Solver.FoundJTexts | src/com/solver/Game.java:175-178 | the second loop's strings are those of the arrangements it reaches |
| Solver.FoundITexts | src/com/solver/Game.java:174 | the outer loop's strings, up to any index, are those of the arrangements reached so far |
| Solver.FoundSolutions | src/com/solver/Game.java:174-1193 | the four nested loops, run to the end, produce exactly `Solutions(cards)` |

## Left out

- Floating point: the source compares `double` results with `24.0`; the model uses exact rationals. The two can differ when rounding matters. For example, 8 / (3 - (8 / 3)) is exactly 24 but not in `double`, so for the cards 3, 3, 8, 8 the model finds a solution that the source misses.
- Division by zero: the source gets infinities or NaN; the model has no value (`None`). For cards from 1 to 13, which both input routes guarantee, no such expression equals 24 in `double` either. For arbitrary integers they can differ, e.g. where one card is 24 and a zero divisor is followed by another division.
- Search.SolutionsSound: states that every found expression is exactly 24 over the rationals, not over `double`.
- `Integer.parseInt` is modelled for ASCII digits with an optional sign, within the `int` range. Other Unicode digits are not modelled.
- Decimal.FormatInt: writes ASCII digits. `String.format("%d")` uses the digits of the default locale, which are ASCII in most locales but not in all, for example Arabic.
- Exceptions: where `inputCardsFromUser` throws (`ArrayIndexOutOfBoundsException`, `NumberFormatException`), the model returns `ok == false`, and nothing after the throw is modelled.
- I/O and prompts are not modelled: the instructions printed, "Invalid input.", the drawn cards and the cards printed at the start of the search.
- Console input is not modelled: the lines typed are a parameter, already split into tokens. Running out of input (`NoSuchElementException` from `nextLine`) is the lines running out.
- Regular-expression split: `split("\\s+")` of a typed line is not modelled. Splitting the accumulator is modelled for texts whose separators are single spaces, which is every text the accumulator can hold.
- `Collections.shuffle` and its randomness are not modelled: the shuffled deck is a parameter, any rearrangement of `DECK_OF_CARDS`.
- The timing with `System.nanoTime` and `executionTime`, and `printExecutionTime`, are not modelled.
- `printSolutions`, `savePrompt` and `saveSolutions` are not modelled: output, a console prompt and file writing.
- `src/com/solver/Play.java`, the menu that calls these methods, is not part of this model.
- Before the first search the source's `solutions` is `null`; the model starts with an empty sequence.
- Method structure differs from the source in two places.
  - `findSolutions` is one Java method. The model splits it into one method per loop (`FindSolutions`, `SearchJ`, `SearchK`, `SearchL`), plus `TryOrdering`.
  - The 320 written-out conditions become one loop over the index of each condition, tried in the same order. `CombinationAt` decodes the index, and `CombinationBijection` shows that every condition is tried exactly once.
- `generateCards` and `inputCardsFromUser` share their final parse loop, `ParseCards`. The drawing and conversion of `generateCards` is `DrawCards`.

## Findings

| source | as written | input that shows it | evidently intended | confidence | as-written member | corrected member |
|---|---|---|---|---|---|---|
| src/com/solver/Game.java:41-75 | `finalCardString` is never cleared, so labels kept by a line that was later rejected stay in front of the accepted line, and the first four words are parsed | "A 2 X 4" then "3 4 5 6" gives the cards 1, 2, 3, 4 | the cards of the accepted line, 3, 4, 5, 6 | high; not executed | Input.LeftoverExample | Solver.Game.InputCardsIntended |
