# Ambit: a verified model of amb-style backtracking

Ambit is a Ruby library for nondeterministic, choose/fail ("amb") style
programming. A `Generator` object keeps one stack, `@paths`, of choice points:
`choose` returns the first of its alternatives and pushes a continuation that
will return the next one, and `fail!` pops the top entry and resumes it. On top
of that sit `assert`/`require`, the commit operations `mark`/`cut!`, the
0.10 additions `unmark!`/`unmark_all!`, and `clear!`. The repository also ships
two clients: an N-queens solver and a map colourer.

This project models, in Dafny:

- **Trail.dfy**: the value of `@paths`, as `seq<Frame>` with the top of the
  stack at index 0. A Ruby continuation becomes the data `Choice(site, rest)`:
  `site` is where it re-enters, together with any client state re-entry needs,
  and `rest` holds the alternatives its `ch.each` loop has not reached yet. A
  `Proc` pushed by `mark` becomes `Mark`. Every operation is a function on the
  trail, and the lemmas say what these functions mean against a reference
  definition, `Pending`: the alternatives still waiting, in the order
  backtracking hands them out.
- **Ambit.dfy**: `Ambit::Generator` (version 0.10.1) as a class with the field
  `paths`. Each method is proved to change `paths` exactly as its Trail
  function says. `fail!`, which recurses through marks and exhausted
  continuations, is a loop. A transfer of control is returned as an `Outcome`:
  `Resumed(site, v)` means that the `choose` at `site` returns `v`, and
  `Exhausted` means that `ChoicesExhausted` is raised.
- **Nondeterminism.dfy**: the 0.9.0 `Nondeterminism::Generator`. It is the
  same class without `unmark!`/`unmark_all!`, and it calls `require` what the
  newer version calls `assert`.
- **AmbitTests.dfy**: the scenarios of test/test_ambit.rb, run against the
  class. The code a test runs after each `choose` becomes a branch on the
  outcome's site.
- **Queens.dfy**: `safe` as a loop proved against a predicate. `queens` is the
  list of its successes, in the order backtracking produces them. The
  program's driver runs as a loop against the 0.9.0 generator and is proved
  to show exactly the solutions. `empty_board`/`board_to_s` are also modelled,
  the latter on an array of rows.
- **MapColor.dfy** and **MapColorExamples.dfy**:
  - `check`, as a nested loop;
  - `colorize`, as the list of its successes;
  - `colorize_iterating`, as written and as corrected;
  - the four maps the file colours, plus one map that shows the defect
    described under Findings.

Two points about Ruby semantics shape the model:

- **Continuations rewind control, not variables.** `callcc` moves the
  captured frames' local variables to the heap, so a variable assigned after
  a `choose` keeps its latest value when that `choose` is resumed. queens.rb
  relies on this for `count` (examples/queens.rb:111-115), and the mark/cut
  test relies on it for `i`. The clients are modelled accordingly: state that
  travels with a continuation is put in its `site`, and state that does not
  (`count`, `i`, `colorized` in `colorize_iterating`) lives outside the trail.
- **`unmark!` removes the earliest mark, not the most recent.** Its comment
  says "the most recent mark" (lib/ambit.rb:107). The code, however, searches
  with `rindex` on a stack whose top is index 0, which finds the mark pushed
  first. The model follows the code: `Trail.Unmark`. `Trail.UnmarkTopmost` is
  what the comment describes. `Trail.UnmarkSingleMarkIsTopmost` proves the two
  agree whenever at most one mark is on the trail, which covers every test in
  the repository. `Trail.UnmarkNotMostRecent` shows them differ once two marks
  are present.

## Model

| member | source | states |
|---|---|---|
| Trail.FirstLive | lib/ambit.rb:85-91 | the index of the topmost frame that `fail!` can resume: every frame above it is a mark or an exhausted continuation |
| Trail.Backtrack | lib/ambit.rb:85-91 | when `fail!` raises ChoicesExhausted the trail is left empty, and backtracking never lengthens the trail |
| Trail.BacktrackResumesFirstLive | lib/ambit.rb:85-91 | `fail!` skips the marks and exhausted continuations above the topmost live continuation and resumes it with its next alternative, keeping the rest of it on top; with no live frame it raises ChoicesExhausted and leaves the trail empty |
| Trail.FirstMark | lib/ambit.rb:133 | the index of the topmost mark: every frame above it is a continuation |
| Trail.DropChoices | lib/ambit.rb:133 | `drop_while` removes exactly the continuations above the topmost mark |
| Trail.Cut | lib/ambit.rb:129-136 | `cut!` leaves exactly the frames below the topmost mark, or nothing when there is no mark |
| Trail.Choices | lib/ambit.rb:123 | `reject` keeps only continuations, one fewer frame per mark removed |
| Trail.LastMark | lib/ambit.rb:113 | `rindex` finds the highest-index mark, with no mark below it; None exactly when there is no mark |
| Trail.NoMarkMeansAllChoices | lib/ambit.rb:133 | a trail has no mark iff every frame is a continuation |
| Trail.BacktrackFollowsPending | lib/ambit.rb:85-91 | `fail!` raises iff nothing is pending, and then the trail is empty; otherwise it resumes the first pending alternative and removes exactly that one from what is pending |
| Trail.Drain | lib/ambit.rb:85-91 | repeated `fail!` hands out exactly the pending alternatives in order, then raises; the recursion through marks terminates |
| Trail.DeadFrameCascades | lib/ambit.rb:85-105 | popping a mark or an exhausted continuation is the same as `fail!` on the trail below, and the trail does not grow |
| Trail.BacktrackLiveTop | lib/ambit.rb:70-77 | a resumed continuation with alternatives left returns the next one and stays on top with the others |
| Trail.Choose | lib/ambit.rb:68-79 | `choose xs` with alternatives returns the first, adds the others ahead of everything pending, and leaves the marks alone; with no alternatives it is `fail!`: it raises iff nothing is pending and otherwise consumes the first pending alternative |
| Trail.ChooseThenFailYields | lib/ambit.rb:68-79 | `choose xs` with `xs` non-empty pushes one frame and leaves the trail below unchanged; later `fail!`s yield the rest of `xs` in order before anything pending earlier |
| Trail.ChooseEnumeratesAlone | lib/ambit.rb:68-91 | on an otherwise empty trail, `choose` then `fail!` produce every element of `xs` exactly once, in order, then raise |
| Trail.CutAtMark | lib/ambit.rb:129-136 | `cut!` removes the continuations above the topmost mark and that mark, and keeps everything below it |
| Trail.MarkThenCut | lib/ambit.rb:103-136 | `mark` directly followed by `cut!` restores the trail |
| Trail.CutWithoutMark | lib/ambit.rb:129-136 | with no mark, `cut!` empties the trail |
| Trail.ChoicesAppend | lib/ambit.rb:123 | removing the marks keeps the continuations' relative order (it distributes over concatenation) |
| Trail.ChoicesKeepPending | lib/ambit.rb:120-124 | removing the marks keeps every pending alternative in order |
| Trail.UnmarkAll | lib/ambit.rb:120-124 | after `unmark_all!` no mark is left and every pending alternative is kept, in order |
| Trail.UnmarkAllProperties | lib/ambit.rb:120-124 | `unmark_all!` leaves a trail without marks unchanged, and a following `cut!` empties the trail |
| Trail.ChoicesOfChoiceOnly | lib/ambit.rb:123 | a trail without marks is left as it is by `reject` |
| Trail.DeleteMarkCount | lib/ambit.rb:114 | `delete_at` on a mark lowers the mark count by one |
| Trail.DeleteMarkChoices | lib/ambit.rb:114 | `delete_at` on a mark keeps the continuations as they were |
| Trail.Unmark | lib/ambit.rb:110-115 | `unmark!` removes exactly one mark when there is one and keeps every continuation in order; without a mark it changes nothing |
| Trail.UnmarkRemovesEarliestMark | lib/ambit.rb:107-115 | the mark `unmark!` deletes is the one with no mark below it (the earliest pushed), and every other frame keeps its place |
| Trail.UnmarkSingleMarkIsTopmost | lib/ambit.rb:107-115 | with at most one mark, `unmark!` does what its comment says and removes the most recent mark |
| Trail.UnmarkNotMostRecent | lib/ambit.rb:107-115 | with two marks, `unmark!` removes the earlier one, not the one its comment names |
| Ambit.Generator.constructor | lib/ambit.rb:22-25 | a new generator has an empty trail |
| Ambit.Generator.Clear | lib/ambit.rb:52-54 | `clear!` empties the trail |
| Ambit.Generator.Choose | lib/ambit.rb:68-79 | the trail and outcome are those of `Trail.Choose`: with alternatives, the first is returned and exactly one frame is pushed; with none, it is `fail!` |
| Ambit.Generator.Fail | lib/ambit.rb:85-91 | the loop computes `Trail.Backtrack`; on ChoicesExhausted the trail is empty, and the trail never grows |
| Ambit.Generator.Assert | lib/ambit.rb:94-96 | a true condition changes nothing; a false one is `fail!` |
| Ambit.Generator.Mark | lib/ambit.rb:103-105 | pushes a mark, and backtracking passes through it as if it were absent |
| Ambit.Generator.Unmark | lib/ambit.rb:110-115 | the new trail is `Trail.Unmark` of the old, which removes the earliest mark |
| Ambit.Generator.UnmarkAll | lib/ambit.rb:120-124 | no mark is left and every pending alternative is kept |
| Ambit.Generator.Cut | lib/ambit.rb:129-136 | the new trail is `Trail.Cut` of the old |
| Nondeterminism.Generator.constructor | lib/nondeterminism.rb:18-20 | a new generator has an empty trail |
| Nondeterminism.Generator.Clear | lib/nondeterminism.rb:22-24 | `clear!` empties the trail |
| Nondeterminism.Generator.Choose | lib/nondeterminism.rb:32-41 | with alternatives, returns the first and pushes exactly one frame; with none it is `fail!` |
| Nondeterminism.Generator.Fail | lib/nondeterminism.rb:45-50 | the loop computes `Trail.Backtrack`; on an empty trail it raises and the trail stays empty |
| Nondeterminism.Generator.Require | lib/nondeterminism.rb:52-54 | a true condition changes nothing; a false one is `fail!` |
| Nondeterminism.Generator.Mark | lib/nondeterminism.rb:58-60 | pushes a mark that backtracking passes through |
| Nondeterminism.Generator.Cut | lib/nondeterminism.rb:62-68 | the new trail is `Trail.Cut` of the old |
| AmbitTests.MarkCutRound | test/test_ambit.rb:58-66 | one value of the outer choice runs eight resumptions, increments `i` five times, and ends back in the outer continuation |
| AmbitTests.MarkCutCountsFifteen | test/test_ambit.rb:55-69 | the mark/cut scenario raises ChoicesExhausted with `i == 15` |
| AmbitTests.TestMarkCut | test/test_ambit.rb:55-69 | driving the Generator class through the test's body ends with `i == 15` |
| AmbitTests.TestSimplePrivate | test/test_ambit.rb:16-21 | `choose [1, 2]` then `require x.even?` settles on `x == 2` |
| AmbitTests.TestToplevelFail | test/test_ambit.rb:40-44 | `fail!` on a fresh generator raises ChoicesExhausted |
| AmbitTests.TestClear | test/test_ambit.rb:46-53 | after two choices and `clear!`, `fail!` raises |
| AmbitTests.TestUnmarkAll | test/test_ambit.rb:71-81 | after `unmark_all!`, `cut!` removes everything and `fail!` raises |
| AmbitTests.TestUnmark | test/test_ambit.rb:83-92 | after `unmark!` on a single mark, `cut!` removes everything and `fail!` raises |
| Queens.Columns | examples/queens.rb:25 | `choose(1..n)` offers every column from 1 to `n` and nothing else, each once, from left to right |
| Queens.IsSafe | examples/queens.rb:34-43 | a piece is safe iff its column is not in the board and it lies on neither diagonal of any earlier queen: the row distance added to or subtracted from that queen's column never gives the piece's column |
| Queens.Safe | examples/queens.rb:34-43 | the early-return loop of `safe` returns true exactly when `IsSafe` holds: no earlier row shares the piece's column or diagonal |
| Queens.SafeExamples | examples/queens.rb:98-100 | `safe([1,3,5],3)` and `safe([1,3,5],4)` are false, `safe([1,3,5],2)` is true |
| Queens.Queens | examples/queens.rb:21-29 | every board `queens n, board` returns has `n` rows and starts with `board` |
| Queens.Extend | examples/queens.rb:23-28 | every board the `choose` loop over the columns `cs` yields has `n` rows, starts with `board`, and puts the next row's queen in a column of `cs` |
| Queens.QueensSound | examples/queens.rb:21-29 | each row that `queens` adds to its starting board holds a column in `1..n` and passed `safe` against the rows above it |
| Queens.ExtendSound | examples/queens.rb:23-28 | each row the `choose` loop over the columns adds passed `safe` against the rows above it |
| Queens.SolutionsDoNotAttack | examples/queens.rb:21-43 | in a returned board, no two queens share a column or a diagonal |
| Queens.QueensComplete | examples/queens.rb:21-29 | every safe completion of the starting board is returned |
| Queens.QueensDistinct | examples/queens.rb:21-29 | no board is returned twice |
| Queens.QueensExactlySolutions | examples/queens.rb:21-29 | `queens n` returns exactly the full safe boards, each once |
| Queens.BacktrackKeepsBoards | examples/queens.rb:25-26 | `fail!` on a trail of `queens` continuations yields the boards still to come, in order |
| Queens.ChooseKeepsBoards | examples/queens.rb:25 | `choose(1..n)` on a partial board puts all of its completions ahead of what was pending |
| Queens.AfterReturn | examples/queens.rb:114-119 | after a board is shown, the forced `fail!` keeps the shown and pending boards equal to all solutions, and the search shrinks |
| Queens.AfterChoose | examples/queens.rb:25 | the `choose` keeps that invariant and shrinks the search |
| Queens.AfterSafe | examples/queens.rb:26-27 | a safe piece extends the board, keeping the invariant |
| Queens.AfterUnsafe | examples/queens.rb:26 | an unsafe piece makes `fail!` backtrack, keeping the invariant |
| Queens.ShowAllBoards | examples/queens.rb:106-125 | the driver shows exactly the solutions of `queens n`, in order, and `count` is their number when ChoicesExhausted ends it |
| Queens.EmptyRow | examples/queens.rb:68-72 | a row of `n` cells in `{'.', ' '}` that alternate, starting with a blank on odd rows and with a `'.'` on even ones |
| Queens.EmptyBoard | examples/queens.rb:64-72 | `n` rows of `n` cells in `{'.', ' '}`, alternating along rows and along columns, starting with a blank |
| Queens.Rendered | examples/queens.rb:79-85 | cell `(i, j)` is `'Q'` where row `i`'s queen stands, and the empty-board cell elsewhere |
| Queens.RenderedStep | examples/queens.rb:81-83 | one pass of the loop writes `'Q'` into one row and changes nothing else |
| Queens.BoardToS | examples/queens.rb:79-85 | the array loop produces the rows of `Rendered`, joined with newlines |
| Queens.RenderedOneTwo | examples/queens.rb:95 | `board_to_s([1,2]) == "Q.\n.Q"` |
| Queens.BoardToSOneTwo | examples/queens.rb:95 | running the loop on `[1,2]` gives `"Q.\n.Q"` |
| Queens.BoardToSReadsBack | examples/queens.rb:79-85 | splitting the output at newlines and reading each row's first `'Q'` recovers the board |
| Queens.Join | examples/queens.rb:84 | splitting `rows.join "\n"` at its line breaks gives the rows back when no row holds a line break |
| MapColor.Neighbours | examples/mapcolor.rb:75 | `map[country]` is a neighbour list listed for that country, and the only one when keys are distinct |
| MapColor.Colorize | examples/mapcolor.rb:69-80 | every colouring returned colours exactly the starting countries plus those remaining, and keeps the caller's colours for the rest |
| MapColor.Assign | examples/mapcolor.rb:73-79 | the same, with the first country's colour drawn from the alternatives still to try |
| MapColor.ColorizeSound | examples/mapcolor.rb:69-80 | every returned colouring gives each country a colour that no neighbour coloured before it has |
| MapColor.ColorizeComplete | examples/mapcolor.rb:69-80 | every colouring of that kind is returned |
| MapColor.Valid | examples/mapcolor.rb:99-108 | the colouring `check` accepts: no country shares a colour with a listed neighbour, and no country and listed neighbour are both uncoloured (`nil == nil`) |
| MapColor.Check | examples/mapcolor.rb:99-108 | `check` raises iff some country and a listed neighbour have the same colour (nil counts as a colour), naming the first such pair in the map's order |
| MapColor.ColorizePassesCheck | examples/mapcolor.rb:110-112 | on a well-formed map, every colouring `colorize` returns passes `check` |
| MapColor.ColorizeFindsEveryValid | examples/mapcolor.rb:69-80 | every colouring of all the keys that passes `check` is among those `colorize` returns |
| MapColor.IteratingRejectsAll | examples/mapcolor.rb:88-90 | a resumed body whose remaining colours are all taken by neighbours in `colorized` backtracks further without changing `colorized` |
| MapColor.IteratingFrom | examples/mapcolor.rb:86-93 | the loop as written, from entry `k` on: a colouring it returns colours the countries already in `colorized` and those of every entry from `k` on |
| MapColor.IteratingTry | examples/mapcolor.rb:87-92 | one pass of the loop body as written, with its `choose` resumed for each colour in turn: a colouring it returns colours the countries of `local_colorized` and of every entry from `k` on |
| MapColor.ColorizeIteratingAsWritten | examples/mapcolor.rb:83-95 | whenever `colorize_iterating` as written returns, every key of the map has a colour |
| MapColor.IteratingFixedFrom | examples/mapcolor.rb:86-93 | the loop as corrected, from entry `k` on: a colouring it returns colours the countries already coloured and those of every entry from `k` on |
| MapColor.IteratingFixedTry | examples/mapcolor.rb:87-92 | one pass of the corrected body, trying each colour in turn: a colouring it returns colours the countries coloured so far and those of every entry from `k` on |
| MapColor.ColorizeIterating | examples/mapcolor.rb:83-95 | whenever the corrected `colorize_iterating` returns, every key of the map has a colour |
| MapColor.ColorizeIteratingMatchesColorize | examples/mapcolor.rb:83-95 | the corrected `colorize_iterating` returns the first colouring `colorize` returns, and raises exactly when `colorize` does |
| MapColor.ColorizeIteratingColoursEveryKey | examples/mapcolor.rb:83-95 | on a well-formed map, the corrected `colorize_iterating` colours every key and passes `check`; it raises only when no colouring passes `check` |
| MapColorExamples.WesternEuropeWellFormed | examples/mapcolor.rb:7-20 | the map lists each neighbour relation both ways and no country as its own neighbour |
| MapColorExamples.WesternEuropeTest | examples/mapcolor.rb:128-129 | `colorize WesternEurope` returns a colouring, and every colouring it returns passes `check` |
| MapColorExamples.ExampleWellFormed | examples/mapcolor.rb:35-42 | the map is well formed |
| MapColorExamples.ExampleTest | examples/mapcolor.rb:119-120 | `colorize Example` returns a colouring, and each passes `check` |
| MapColorExamples.BackTrackWellFormed | examples/mapcolor.rb:53-61 | the map is well formed |
| MapColorExamples.BackTrackTest | examples/mapcolor.rb:122-123 | `colorize BackTrack` returns a colouring, and each passes `check` |
| MapColorExamples.ThreeByThreeWellFormed | examples/mapcolor.rb:22-32 | the map is well formed |
| MapColorExamples.ThreeByThreeTest | examples/mapcolor.rb:125-126 | `colorize ThreeByThree` returns a colouring, and each passes `check` |
| MapColorExamples.StaleLevel1 | examples/mapcolor.rb:86-92 | on the seven-country map, the loop as written fails back out of the first country with `colorized` left at the deepest colouring it reached |
| MapColorExamples.IteratingAsWrittenExhausts | examples/mapcolor.rb:83-95 | a well-formed map that `colorize` colours, on which `colorize_iterating` as written raises ChoicesExhausted while the corrected loop returns a colouring |

## Left out

- `callcc` and the `Continuation` objects themselves are not modelled. A continuation is the data `Choice(site, rest)`, and resuming one returns an `Outcome`. Re-entering a client's stack is modelled by the clients' driver loops, which dispatch on the site.
- Tracing is left out: the `trace`/`untrace` class methods, `@trace`/`@@trace`, and the `STDERR` output in `unmark!`, `unmark_all!` and `cut!`. It is output only.
- `Ambit.method_missing`, `Nondeterminism.method_missing` and the `Default_Generator` singletons are left out. They forward module calls to one shared generator; the model uses explicit `Generator` objects, as the private-generator tests do.
- `choices.clone` and Ruby enumerables are not modelled: alternatives are a finite `seq`, a value that the caller cannot change afterwards. Ranges such as `0..5` are written out as sequences.
- The `Alternator` class and the `Array#to_s` call in `empty_board` are replaced by a closed form for each cell. The output of `Array#to_s` depends on the Ruby version.
- `show_board`, `puts`, `test_map`'s printing and ARGV parsing are left out. The queens driver is modelled for one `n`.
- Queens.BoardToS: requires every queen's column to be in `1..n` and at most `n` rows. Outside that, Ruby's `b[i][x-1] = 'Q'` raises on a missing row, writes from the end of the row for column 0, or grows the row.
- MapColor.Colorize: requires every country still to colour to be a key of the map. For any other country, `map[country].each` raises NoMethodError on nil.
- Colourings are maps, and the map under colouring is a sequence of (country, neighbours) pairs in the Hash's insertion order. `colorized.clone` needs no model, because maps are values.
- MapColor.ColorizeIteratingMatchesColorize: only the first colouring of `colorize_iterating` is modelled (a function returning an Option). Further `fail!`s into its loop are not modelled.
- The `each` loop of `colorize_iterating` is written as a pair of recursive functions over the entry index, not as a method with a `while` loop. Its `choose` re-enters the loop body through a continuation, which a plain loop cannot express.
- AmbitTests.MarkCutRun: the scenario runs under a fuel bound; the proof shows that 25 steps suffice.
- test_simple_default, test_nested_default and test_nested_private are not modelled. The first two repeat private-generator scenarios on the default generator; the nested search is covered in general by the queens and map-colouring proofs.
- examples/example.rb is not part of this model. It holds demonstration clients whose output is printed.

## Findings

| source | as written | input that shows it | evidently intended | confidence | as-written member | corrected member |
|---|---|---|---|---|---|---|
| examples/mapcolor.rb:86-92 | the neighbour check reads `colorized`, a variable of the method that `fail!` does not rewind. After backtracking into an earlier entry's `choose`, the check runs against the colouring the abandoned branch reached, not against the entries before this one | the seven-country map `1:[3,5,6,7] 2:[4,5,6] 3:[1,5,6] 4:[2,5,6,7] 5:[1,2,3,4,6,7] 6:[1,2,3,4,5,7] 7:[1,4,5,6]`. It is well formed and colourable (1 red, 2 and 3 and 7 yellow, 4 red, 5 blue, 6 green), yet `colorize_iterating` raises ChoicesExhausted | check each colour against the colouring the iteration step started from (`local_colorized` before the assignment), so that the loop finds what `colorize` finds | medium, not executed | MapColorExamples.IteratingAsWrittenExhausts | MapColor.ColorizeIteratingMatchesColorize |
