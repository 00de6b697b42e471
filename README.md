# Arcade portal core, modelled in Dafny

This project models the game logic of a browser arcade portal. It covers the shell's catalog search and navigation (`App.tsx`) and twelve games:

- 2048
- a falling-block puzzle
- Sudoku
- a maze runner
- tic-tac-toe
- memory match
- a word guesser
- Snake
- a quiz
- a cookie clicker
- a colour matcher (a Stroop test)
- a math blitz

Each source file has one module and one `.dfy` file:

| file | module | source |
|---|---|---|
| `catalog.dfy` | `Catalog` | `App.tsx` (search filter, view / active game / query state) |
| `game2048.dfy` | `Game2048` | `games/Game2048.tsx` |
| `block_puzzle.dfy` | `BlockPuzzle` | `games/BlockPuzzle.tsx` |
| `sudoku.dfy` | `Sudoku` | `games/Sudoku.tsx` |
| `maze.dfy` | `Maze` | `games/Maze.tsx` |
| `tic_tac_toe.dfy` | `TicTacToe` | `games/TicTacToe.tsx` |
| `memory_match.dfy` | `MemoryMatch` | `games/MemoryMatch.tsx` |
| `word_guess.dfy` | `WordGuess` | `games/WordGuess.tsx` |
| `snake.dfy` | `Snake` | `games/Snake.tsx` |
| `quiz.dfy` | `Quiz` | `games/Quiz.tsx` |
| `clicker.dfy` | `Clicker` | `games/Clicker.tsx` |
| `color_match.dfy` | `ColorMatch` | `games/ColorMatch.tsx` |
| `math_puzzle.dfy` | `MathPuzzle` | `games/MathPuzzle.tsx` |
| `scores.dfy` | `Scores` | the "replace the best score only by a larger one" rule that Snake, the block puzzle and the colour matcher share |
| `wrappers.dfy` | `Wrappers` | `Option`, for the source's `null` / `NaN` / "not found" |

The model follows a few conventions:

- **Components are classes.** Each game's React component state is a `class` whose fields the event methods reassign. Event handlers, interval ticks and delayed callbacks become methods, one event each.
- **Pure computations are functions.** `checkWinner`, `rotateGrid`, the row slide, `isRelated` and the catalog filter are functions. Lemmas prove their meaning against independent definitions.
- **Loops stay loops.** Code that loops or recurses over mutable data is a method with the same loops, proved against a specification function. This covers 2048's `addRandom` and row pass, the block puzzle's `collide`, `merge`, `clearLines` and `getGhostY`, Sudoku's `loadPuzzle` and `checkMistakes`, and the maze's recursive `walk` over a 2-D array.
- **Randomness is an input.** Every `Math.random` choice is a parameter, constrained to the range the source draws from. That covers an index, an operand, a tile value, and a shuffle given as a permutation or, for the maze, as a direction order per cell.

Highlights of what is proved:

- **Catalog:** the search shows exactly the registry entries whose lowercased title or category contains the trimmed, lowercased query, in registry order. A blank query shows everything, and "raci" selects only the racing game.
- **2048:** a move keeps the tile total and scores each merge once. Rotating by `rotations` and then by `(4 - rotations) % 4` restores the board. A new tile appears exactly when some row changed.
- **Block puzzle:**
  - `collide` is characterised both ways;
  - `merge` writes exactly the piece's visible cells;
  - `clearLines` keeps the non-full rows in order under fresh empty rows;
  - `rotate` takes the first kick that fits;
  - the level and drop interval are monotone, and the interval stays in range.
  - every move, rotation and lock keeps the state well formed, also after the end of the game, when the touch buttons can still move the piece (recorded under "## Findings").
- **Sudoku:**
  - parsing and row-major writing are inverse to each other;
  - `checkMistakes`' map-and-set scans mark exactly the cells that repeat a value of a related cell;
  - `isRelated` means "shares a row, column or box";
  - the win check means "full and conflict-free";
  - input never changes a given.
- **Maze:** the generator keeps the outer ring walled and terminates because the lattice walls it still has to visit shrink. It opens every lattice cell. Every generated maze can be won by some sequence of key presses.
- **Snake:** the snake never reverses and stays connected without overlapping itself. A step crashes exactly on a wall or a segment, the tail included. The step interval lies between 3 and 8 frames. Two defects of the component are recorded under "## Findings".

## Model

| member | source | states |
|---|---|---|
| Catalog.TrimStart | App.tsx:33-34 | the leading part of trim: a suffix of the input that starts with no white space, with only white space removed |
| Catalog.TrimEnd | App.tsx:33-34 | the trailing part of trim: a prefix of the input that ends with no white space, with only white space removed |
| Catalog.TrimEmptyIffBlank | App.tsx:33 | `!searchQuery.trim()` holds exactly when every character of the query is white space |
| Catalog.Trim | App.tsx:33 | `trim`: white space removed at both ends and nowhere else |
| Catalog.ToLower | App.tsx:34-37 | lowercasing keeps the length |
| Catalog.ToLowerAt | App.tsx:34-37 | lowercasing works character by character |
| Catalog.AgreeFromIff | App.tsx:36-37 | the character-by-character comparison from an offset agrees with slice equality |
| Catalog.IncludesFromIffOccurs | App.tsx:36-37 | the includes scan from position i finds the query exactly when it occurs at some position from i on |
| Catalog.IncludesIffOccurs | App.tsx:36-37 | `includes` holds exactly when the query occurs at some position |
| Catalog.AgreeLoweredFromIff | App.tsx:36-37 | comparing with lowercasing on the fly agrees with comparing against the lowercased text |
| Catalog.IncludesLoweredFromIff | App.tsx:36-37 | scanning with lowercasing on the fly agrees with scanning the lowercased text |
| Catalog.IncludesLoweredIff | App.tsx:36-37 | `hay.toLowerCase().includes(q)` holds exactly when q occurs in the lowercased text |
| Catalog.Matches | App.tsx:35-38 | the filter callback: the query occurs in the lowercased title or the lowercased category |
| Catalog.MatchesIff | App.tsx:35-38 | an entry passes the filter callback exactly when the query occurs in its lowercased title or its lowercased category |
| Catalog.Filter | App.tsx:35 | `Array.prototype.filter` never returns more entries than it is given |
| Catalog.BlankQueryKeepsAll | App.tsx:33 | an empty or all-white-space query shows the whole registry, unchanged |
| Catalog.FilteredGames | App.tsx:32-39 | the memoised catalog: the whole registry for a blank query, otherwise the entries the callback keeps for the lowercased, trimmed query |
| Catalog.FilterExactly | App.tsx:35 | an entry is in the filtered list exactly when it is in the input and the callback keeps it |
| Catalog.NonBlankQueryMatches | App.tsx:32-39 | for a non-blank query an entry is shown exactly when it is in the registry and the lowercased, trimmed query occurs in its lowercased title or category |
| Catalog.NonBlankQueryKeeps | App.tsx:32-39 | for a non-blank query an entry is shown exactly when it is in the registry and passes the callback with the lowercased, trimmed query |
| Catalog.Shift | App.tsx:35 | shifting positions adds one to each |
| Catalog.KeptPositionsSelect | App.tsx:35 | the filtered list is the input read at the kept positions, each of them in range |
| Catalog.KeptPositionsIncrease | App.tsx:35 | the kept positions are in range and strictly increasing |
| Catalog.Identity | App.tsx:33 | the positions 0..n-1 in order |
| Catalog.FilteredIsOrderedSubsequence | App.tsx:32-39 | for every query, the shown catalog is the registry read at strictly increasing positions: a subsequence in registry order |
| Catalog.FilterAppend | App.tsx:35 | filtering a concatenation is the concatenation of the filtered parts |
| Catalog.FilterNone | App.tsx:35 | a callback that rejects everything gives the empty list |
| Catalog.FilterOnlyLast | App.tsx:35 | a callback that keeps only the last entry gives just that entry |
| Catalog.RaciMisses | games/Registry.ts:26-190 | none of the first nineteen registry entries has "raci" in its lowercased title or category |
| Catalog.RaciHits | games/Registry.ts:197-198 | "Nitro Racing" contains "raci" once lowercased |
| Catalog.FilteredNonBlank | App.tsx:33-38 | a query that is not blank filters the registry by its lowercased, trimmed form |
| Catalog.TrimUntouched | App.tsx:33-34 | a string with no white space at either end trims to itself |
| Catalog.OnlyRacingKept | App.tsx:35-38 | of the registry, the callback for "raci" keeps only the racing game |
| Catalog.RaciSelectsRacing | App.tsx:32-39 | the query "raci" narrows the catalog to the racing game alone |
| Catalog.Shell.constructor | App.tsx:16-18 | the first registry game is active, the view is home, the query is empty |
| Catalog.Shell.SelectGame | App.tsx:20-24 | the chosen game becomes active and the view goes home; the query stays |
| Catalog.Shell.Navigate | App.tsx:26-30 | the view switches and the query is cleared; the active game stays |
| Catalog.Shell.SetSearchQuery | App.tsx:102 | the search box stores the query as typed; view and active game stay |
| Scores.Best | games/Snake.tsx:107-110 | the best score after a game is at least both the old best and the score, is one of the two, and rises exactly when the score beats the old best |
| Clicker.Grow | games/Clicker.tsx:47 | `Math.floor(c * 1.8)` on whole numbers; any cost of at least 2 strictly grows |
| Clicker.UpgradeCost | games/Clicker.tsx:47 | the cost after n purchases (25, then grown once per purchase) never drops below the starting 25 |
| Clicker.UpgradeCostIncreasing | games/Clicker.tsx:47 | more purchases always mean a strictly higher cost |
| Clicker.Clicker.constructor | games/Clicker.tsx:5-8 | a fresh clicker has 0 points, multiplier 1, cost 25, 0 clicks, and the cost matches the purchase count |
| Clicker.Clicker.Click | games/Clicker.tsx:17-24 | a click adds the current multiplier to the points and counts one click; multiplier and cost stay; the cost/purchase invariant is kept |
| Clicker.Clicker.BuyUpgrade | games/Clicker.tsx:43-49 | an affordable upgrade takes the cost off the points, adds one to the multiplier and grows the cost strictly; an unaffordable one changes nothing; points never go negative |
| WordGuess.Misses | games/WordGuess.tsx:25 | the mistake count of a guess history is at most the number of guesses |
| WordGuess.MissesAppend | games/WordGuess.tsx:24-25 | a further guess costs a mistake exactly when its letter is not in the word |
| WordGuess.MissesNone | games/WordGuess.tsx:25 | guessing only letters of the word makes no mistake |
| WordGuess.IsWin | games/WordGuess.tsx:28 | `isWin`: a word is set and each of its letters has been guessed |
| WordGuess.WordGuess.constructor | games/WordGuess.tsx:7-9 | the round starts with no word, no guesses and no mistakes |
| WordGuess.WordGuess.NewGame | games/WordGuess.tsx:16-20 | the word is the chosen entry of the eight-word list; guesses and mistakes are cleared |
| WordGuess.WordGuess.Guess | games/WordGuess.tsx:22-26 | a repeated letter, a sixth mistake already made or a won round leaves everything as it was; otherwise the letter is recorded and a letter outside the word adds one mistake; mistakes always count the missed letters and stay at most six |
| ColorMatch.PaletteDistinct | games/ColorMatch.tsx:4-11 | no two of the six palette entries share a name or a colour |
| ColorMatch.NextRound | games/ColorMatch.tsx:23-38 | the shown name is the drawn one, the colour is from the palette, the round counts as a match exactly when the colour is the name's own, a forced match always matches, and otherwise the independently drawn colour is shown |
| ColorMatch.ColorMatch.constructor | games/ColorMatch.tsx:14-21 | score, best score and streak 0, 20 seconds, an empty round, no game running and no end reason |
| ColorMatch.ColorMatch.Tick | games/ColorMatch.tsx:45-59 | the clock only runs during a game; the last second ends the game with reason "time" and the clock at 0; before that it counts down by one |
| ColorMatch.ColorMatch.Choose | games/ColorMatch.tsx:61-80 | outside a game nothing changes; a right answer scores 10 plus twice the streak, extends the streak, adds a second up to 30, draws the next round and lifts the best score; a wrong answer resets the streak and ends the game with reason "mistake" |
| ColorMatch.ColorMatch.Start | games/ColorMatch.tsx:82-90 | a fresh running game: score and streak 0, 20 seconds, no end reason, the first round drawn, the best score kept |
| MathPuzzle.GenerateProblem | games/MathPuzzle.tsx:13-34 | the operator is the drawn one; a sum adds two numbers from 1 to 50; a difference takes 1 to n1 from n1 in 20..69, so it is never negative; a product multiplies 2..13 by 1..10; the answer is the operation's value |
| MathPuzzle.LeadingDigits | games/MathPuzzle.tsx:56 | the digits parseInt reads: the longest all-digit prefix, followed by a non-digit or the end |
| MathPuzzle.Decimal | games/MathPuzzle.tsx:32 | the decimal writing of a number is non-empty and all digits |
| MathPuzzle.DecimalValue | games/MathPuzzle.tsx:56 | reading back the decimal writing of n gives n |
| MathPuzzle.LeadingDigitsAll | games/MathPuzzle.tsx:56 | a string of digits is read whole |
| MathPuzzle.ParseInt | games/MathPuzzle.tsx:56 | `parseInt(value)`: leading spaces and one sign skipped, then the longest run of decimal digits, or no number when there is none |
| MathPuzzle.ParseIntRoundTrip | games/MathPuzzle.tsx:56-58 | parseInt reads back every integer as written in decimal, sign included, so typing the answer is recognised |
| MathPuzzle.ParseIntNoDigits | games/MathPuzzle.tsx:56-58 | text that starts with no digit, sign or space parses to NaN and is never an answer |
| MathPuzzle.MathPuzzle.constructor | games/MathPuzzle.tsx:5-9 | an empty problem, no input, score 0, 60 seconds, no game running |
| MathPuzzle.MathPuzzle.Tick | games/MathPuzzle.tsx:36-49 | the clock only runs during a game; the last second stops it at 0, otherwise it counts down by one; score and problem stay |
| MathPuzzle.MathPuzzle.InputChange | games/MathPuzzle.tsx:52-65 | input that parses to the answer scores a point, clears the input and draws the next problem; any other input is kept and changes nothing else |
| MathPuzzle.MathPuzzle.Start | games/MathPuzzle.tsx:67-75 | score 0, 60 seconds, the game running, the first problem drawn and the input cleared |
| TicTacToe.EmptyBoard | games/TicTacToe.tsx:5 | nine empty squares |
| TicTacToe.WinnerFrom | games/TicTacToe.tsx:9-22 | the scan of the eight lines from line k: the mark of the first line holding three equal marks, or none |
| TicTacToe.CheckWinner | games/TicTacToe.tsx:9-22 | `checkWinner`: the scan from the first line |
| TicTacToe.WinnerFromSpec | games/TicTacToe.tsx:9-22 | the scan from line k returns a mark only if one of those lines holds three of it, and null only if none of them is complete |
| TicTacToe.CheckWinnerSpec | games/TicTacToe.tsx:9-22 | checkWinner names a mark only when some row, column or diagonal holds three of it, and returns null exactly when no line is complete |
| TicTacToe.EmptyIndices | games/TicTacToe.tsx:44 | the AI's candidate list holds exactly the empty squares |
| TicTacToe.CountUpdate | games/TicTacToe.tsx:28 | placing a mark on an empty square adds one of that mark and leaves the other count alone |
| TicTacToe.CountFull | games/TicTacToe.tsx:37 | on a full board the X and O counts add up to the number of squares |
| TicTacToe.TicTacToe.constructor | games/TicTacToe.tsx:5-7 | an empty board, no winner, no draw |
| TicTacToe.TicTacToe.Click | games/TicTacToe.tsx:24-53 | a click on a taken square or after the end changes nothing; otherwise X is placed; a win for it ends the game, a full board is a draw, and else O goes on one of the empty squares; the winner always agrees with checkWinner, and X leads O by one only once the game is over |
| TicTacToe.TicTacToe.PlayerCanMove | games/TicTacToe.tsx:37-40 | while the game is not over, some square is free for the player |
| TicTacToe.TicTacToe.Reset | games/TicTacToe.tsx:55-59 | an empty board, no winner, no draw |
| MemoryMatch.Deck | games/MemoryMatch.tsx:18-20 | the card at position i carries id i and the i-th icon of the shuffled list |
| MemoryMatch.IconsDistinct | games/MemoryMatch.tsx:4 | the eight icons are pairwise different |
| MemoryMatch.OccursOnce | games/MemoryMatch.tsx:18 | in a list without repeats every member occurs exactly once |
| MemoryMatch.DoubledIcons | games/MemoryMatch.tsx:18 | the doubled icon list holds each icon exactly twice and nothing else |
| MemoryMatch.DeckHasPairs | games/MemoryMatch.tsx:18-20 | any shuffle of the doubled list deals sixteen cards with ids 0..15 and each icon on exactly two of them |
| MemoryMatch.DistinctCard | games/MemoryMatch.tsx:29-37 | a list of ids without repeats has as many members as entries |
| MemoryMatch.Range | games/MemoryMatch.tsx:20 | the ids 0..n-1 in order |
| MemoryMatch.RangeCard | games/MemoryMatch.tsx:20 | there are n ids 0..n-1 |
| MemoryMatch.MemoryMatch.constructor | games/MemoryMatch.tsx:7-11 | no cards, nothing flipped or solved, not disabled, no moves |
| MemoryMatch.MemoryMatch.InitGame | games/MemoryMatch.tsx:17-26 | sixteen cards dealt from the shuffle, nothing flipped or solved, enabled, no moves; solved pairs match and at most two cards are up |
| MemoryMatch.MemoryMatch.Click | games/MemoryMatch.tsx:28-49 | clicks while disabled or on a card already up or solved change nothing; a second card counts a move and either joins the first in the solved list when the icons agree or stays up and disables the board; any other click turns up just this card |
| MemoryMatch.MemoryMatch.FlipBack | games/MemoryMatch.tsx:41-44 | after a mismatch the two cards are turned back and the board enabled; solved cards and moves stay |
| MemoryMatch.MemoryMatch.Won | games/MemoryMatch.tsx:74 | the win banner's test: as many solved ids as cards, and some cards |
| MemoryMatch.MemoryMatch.WonIffAllSolved | games/MemoryMatch.tsx:74 | the win test on lengths holds exactly when there are cards and every card id has been solved |
| Quiz.PoolWellFormed | games/Quiz.tsx:4-37 | the pool has 32 questions, each with four answers and a correct index among them |
| Quiz.ShuffleKeepsAll | games/Quiz.tsx:54 | a shuffle of four answers loses none of them |
| Quiz.IndexOf | games/Quiz.tsx:55 | indexOf gives -1 exactly when the text is absent, and otherwise the first position holding it |
| Quiz.Permute | games/Quiz.tsx:54 | a shuffled list holds at position i the item the shuffle order names |
| Quiz.Remap | games/Quiz.tsx:52-60 | a selected question keeps its text, its four answers are the shuffled ones, and its new correct index points at the same correct answer text |
| Quiz.Select | games/Quiz.tsx:48-61 | the session is the first ten questions of the shuffled pool, each remapped |
| Quiz.RankOf | games/Quiz.tsx:137 | the results screen's rank: perfect at ten, genius from eight, great from five, otherwise keep learning |
| Quiz.RankMonotone | games/Quiz.tsx:137 | a higher score never earns a lower rank, and only ten out of ten is "perfect" |
| Quiz.Quiz.constructor | games/Quiz.tsx:40-44 | no questions, question 0, score 0, not finished, not started |
| Quiz.Quiz.Initialize | games/Quiz.tsx:47-67 | ten distinct pool questions, each with the correct answer text still marked correct after its answers are shuffled; question 0, score 0, started, not finished |
| Quiz.Quiz.Answer | games/Quiz.tsx:69-77 | the right index scores a point; the quiz moves to the next question, or finishes after the last; the score never exceeds the questions answered |
| Quiz.Quiz.Quit | games/Quiz.tsx:149-156 | the quit button, shown only while a quiz runs, returns to the start screen: not started, not finished, with the questions, the position and the score kept |
| Game2048.Zeros | games/Game2048.tsx:58 | n zero cells |
| Game2048.SumAppend | games/Game2048.tsx:58 | the tile sum of a concatenation is the sum of the parts |
| Game2048.SumZeros | games/Game2048.tsx:58 | padding zeros adds nothing to the tile sum |
| Game2048.SumFour | games/Game2048.tsx:5 | the sum of a four-cell row is its four cells added |
| Game2048.NonZero | games/Game2048.tsx:49 | `filter(v => v !== 0)` keeps only positive tiles and never lengthens the row |
| Game2048.NonZeroMembers | games/Game2048.tsx:49 | the filtered row holds exactly the row's non-zero tiles |
| Game2048.NonZeroSum | games/Game2048.tsx:49 | dropping the empty cells keeps the tile sum |
| Game2048.MergeLeft | games/Game2048.tsx:50-57 | merging pairs from the left keeps between half and all of the tiles |
| Game2048.MergeLeftSum | games/Game2048.tsx:50-57 | merging keeps the tile sum: each merge replaces two equal tiles by their double |
| Game2048.MergeLeftPositive | games/Game2048.tsx:50-57 | merging positive tiles gives positive tiles |
| Game2048.MergeLeftIdentity | games/Game2048.tsx:50-57 | a row is left as it is exactly when the merge scores nothing, which is exactly when no two neighbours are equal |
| Game2048.Slide | games/Game2048.tsx:49-58 | a slid row still has four cells |
| Game2048.SlideLayout | games/Game2048.tsx:49-58 | after a slide the merged tiles come first, all positive, then zeros; the tile sum is kept |
| Game2048.MergeChangesRow | games/Game2048.tsx:55-59 | a row in which a merge happens always changes |
| Game2048.NonZeroPadded | games/Game2048.tsx:49-58 | filtering a padded row of positive tiles gives the tiles back |
| Game2048.NonZeroZeros | games/Game2048.tsx:49 | filtering an all-zero row leaves nothing |
| Game2048.MergeAt | games/Game2048.tsx:51-56 | at position c, equal neighbours merge into their double and score it, and unequal ones leave the first tile alone |
| Game2048.ScanMerge | games/Game2048.tsx:51-56 | one merge step of the scan (double, score, splice) keeps the scanned row in step with the merged row, and its tiles positive |
| Game2048.ScanKeep | games/Game2048.tsx:50-51 | a step past unequal neighbours keeps the scanned row in step with the merged row |
| Game2048.ScanDone | games/Game2048.tsx:50 | when the scan ends, the row is the merged row and nothing is left to score |
| Game2048.SlideRow | games/Game2048.tsx:49-59 | the per-row loop gives the slid row, scores the merges, and reports a merge exactly when it scored |
| Game2048.MergeOncePerMove | games/Game2048.tsx:50-56 | a merged tile does not merge again in the same move: [2,2,2,2] becomes [4,4,0,0] for 8 points, and [2,2,4,0] becomes [4,4,0,0] for 4 points |
| Game2048.Reverse | games/Game2048.tsx:36 | `reverse` reads the list from the end |
| Game2048.Rotate | games/Game2048.tsx:35-37 | a rotated grid is again 4 x 4 |
| Game2048.RotateRows | games/Game2048.tsx:36 | row i of the rotated grid is column i read bottom to top |
| Game2048.RotateTimes | games/Game2048.tsx:45 | rotating any number of times keeps a 4 x 4 grid |
| Game2048.GridEq | games/Game2048.tsx:5 | two 4 x 4 grids with the same cells are equal |
| Game2048.RotateFour | games/Game2048.tsx:35-37 | four quarter turns give the grid back |
| Game2048.RotateAdd | games/Game2048.tsx:64 | rotating a times and then b times is rotating a + b times |
| Game2048.RotateRoundTrip | games/Game2048.tsx:64 | rotating back (4 - k) % 4 times undoes the k rotations that normalise the move to the left |
| Game2048.RotateTotal | games/Game2048.tsx:35-37 | a rotation keeps the tile sum |
| Game2048.RotateTimesTotal | games/Game2048.tsx:45 | any number of rotations keeps the tile sum |
| Game2048.EmptyUpTo | games/Game2048.tsx:11 | the cells collected before row-major position k are exactly the empty ones there |
| Game2048.EmptyStep | games/Game2048.tsx:11 | one more position adds that cell to the list exactly when it is empty |
| Game2048.EmptyCellsIff | games/Game2048.tsx:11-12 | the empty list is non-empty exactly when some cell is 0 |
| Game2048.Put | games/Game2048.tsx:14 | writing one cell changes that cell and no other |
| Game2048.NewTile | games/Game2048.tsx:13-14 | the new tile goes on one of the empty cells, raising the tile sum by its value and the filled cells by one |
| Game2048.PutTotal | games/Game2048.tsx:14 | filling an empty cell adds the value to the tile sum |
| Game2048.PutEmptyCount | games/Game2048.tsx:11-14 | filling an empty cell removes it from the empty count at every prefix that includes it |
| Game2048.CollectRow | games/Game2048.tsx:11 | the inner loop over one row adds exactly that row's empty cells to the list |
| Game2048.AddRandom | games/Game2048.tsx:9-18 | addRandom reports success exactly when some cell is empty; then it puts a 2 or a 4 on the chosen empty cell, and otherwise the grid is unchanged |
| Game2048.Rotations | games/Game2048.tsx:40-43 | a direction needs fewer than four rotations to face left |
| Game2048.MoveResult | games/Game2048.tsx:35-64 | the grid after a move before the new tile: turned so the move is to the left, every row slid left, turned back |
| Game2048.MoveScore | games/Game2048.tsx:48-56 | the points of a move: the sum of the merged tiles over the four turned rows |
| Game2048.Changes | games/Game2048.tsx:48-61 | a move counts as made when some turned row changes under the slide |
| Game2048.SlideLeft | games/Game2048.tsx:48-61 | every row of the grid is slid to the left |
| Game2048.SlideLeftTotal | games/Game2048.tsx:48-61 | sliding every row left keeps the tile sum |
| Game2048.MoveTotal | games/Game2048.tsx:35-64 | a move in any direction keeps the tile sum before the new tile |
| Game2048.MoveChangesIff | games/Game2048.tsx:55-66 | the moved flag is set exactly when the move changes the grid |
| Game2048.UnchangedMoveKeepsGrid | games/Game2048.tsx:59-66 | a move that sets no flag leaves the grid as it was |
| Game2048.KeptGridMeansUnchanged | games/Game2048.tsx:55-59 | a move that leaves the grid as it was sets no flag |
| Game2048.ChangedRowHasRoom | games/Game2048.tsx:58-59 | a row that changes when slid ends in an empty cell |
| Game2048.SlideFullRow | games/Game2048.tsx:49-58 | a row that keeps four tiles through the merge is unchanged |
| Game2048.NonZeroLength | games/Game2048.tsx:49 | filtering that drops nothing gives the row back |
| Game2048.MergeLeftLength | games/Game2048.tsx:50-57 | merging that drops nothing gives the row back |
| Game2048.ChangedMoveHasRoom | games/Game2048.tsx:59-67 | after a move that changes the grid some cell is empty, so the new tile always has a place |
| Game2048.EmptyCellAfterTurns | games/Game2048.tsx:64 | an empty cell is still somewhere after any number of rotations |
| Game2048.SlideAllRows | games/Game2048.tsx:48-61 | the row loop slides every row left, adds up the merge scores and reports a change exactly when some row changed |
| Game2048.SlidRows | games/Game2048.tsx:60 | a grid whose rows are the slid rows is the slid grid |
| Game2048.EmptyGrid | games/Game2048.tsx:21 | a 4 x 4 grid of zeros: tile sum 0, sixteen empty cells |
| Game2048.Blank | games/Game2048.tsx:21 | the empty grid: 4 x 4 and every cell 0 |
| Game2048.EmptyGridFacts | games/Game2048.tsx:21 | the empty grid has tile sum 0 and sixteen empty cells |
| Game2048.Opening | games/Game2048.tsx:20-24 | the opening grid: two tiles drawn onto the empty grid, tile sum the two tiles' values, fourteen cells empty |
| Game2048.NewGrid | games/Game2048.tsx:20-24 | init's grid-building: an empty grid and two addRandom calls give the opening grid |
| Game2048.NextGrid | games/Game2048.tsx:29-70 | the body of move's state update: the moved flag holds exactly when the move changes the grid; an unmoved grid is returned as it was; a moved grid has an empty cell and gets its new tile there, the points are the move's merges and the tile sum grows by the new tile |
| Game2048.AllEmpty | games/Game2048.tsx:21 | on an all-zero grid every position is collected as empty |
| Game2048.Game2048.constructor | games/Game2048.tsx:5-7 | the mount effect's init: the grid is the opening grid of the two drawn tiles, fourteen cells empty, score 0 |
| Game2048.Game2048.Init | games/Game2048.tsx:20-27 | the grid becomes the opening grid: exactly the two drawn tiles on an empty grid, fourteen cells empty, score 0 |
| Game2048.Game2048.Move | games/Game2048.tsx:29-73 | a move that changes nothing keeps grid and score; otherwise the grid is the moved grid with a new tile on one of its empty cells, the score rises by the merges, and the tile sum grows by exactly the new tile |
| Snake.KeyTurn | games/Snake.tsx:42-51 | a key is accepted only if it is one of the eight turn keys and turns across the current axis; the accepted direction is a unit step and never the reverse of the current one; on that axis, each key is accepted exactly when it turns across |
| Snake.SwipeTurn | games/Snake.tsx:57-73 | the dominant swipe axis decides; it must exceed 30 pixels and cross the current axis; the result points the way the finger moved, is a unit step and never the reverse; both acceptance conditions are complete |
| Snake.Speed | games/Snake.tsx:96 | frames per step lie between 3 and 8; 8 for short snakes, 3 from length 25 on |
| Snake.SpeedMonotone | games/Snake.tsx:96 | a longer snake never steps less often |
| Snake.NextHead | games/Snake.tsx:101 | the new head: the old head moved one step in the current direction |
| Snake.Advance | games/Snake.tsx:102-125 | a step crashes exactly when the new head leaves the 20 x 20 board or lands on any current segment; otherwise the head goes in front, and the tail is dropped exactly when the head missed the food |
| Snake.AdvanceKeepsShape | games/Snake.tsx:102-125 | a step that does not crash keeps the snake on the board, without overlapping segments and connected |
| Snake.MovedKeepsSnake | games/Snake.tsx:100-125 | after a step that does not crash, the segment behind the head is the old head, and the snake is one longer exactly when it ate |
| Snake.TailTileCrashes | games/Snake.tsx:104-105 | moving into the tile the tail is about to leave still crashes, since the tail is checked before it is dropped |
| Snake.StartShaped | games/Snake.tsx:37 | the starting snake of three segments is well formed and lies behind a head moving right |
| Snake.SnakeGame.constructor | games/Snake.tsx:11-38 | the initial state: starting snake and food, moving right, scores 0, not started, not over |
| Snake.SnakeGame.NeverReverses | games/Snake.tsx:47-50 | the pending direction never sends the head back onto the segment behind it |
| Snake.SnakeGame.Key | games/Snake.tsx:42-51 | while the game runs, an accepted key sets the pending direction to the key's turn; nothing else changes, and a refused key changes nothing |
| Snake.SnakeGame.Swipe | games/Snake.tsx:53-73 | while the game runs, an accepted swipe sets the pending direction; nothing else changes |
| Snake.SnakeGame.Step | games/Snake.tsx:99-126 | the pending direction becomes current; on a crash the game ends with the snake, food and score as they were and the best score updated; otherwise the snake becomes the stepped snake, and eating adds 10 points and moves the food to the given tile |
| Snake.SnakeGame.Frame | games/Snake.tsx:92-126 | nothing happens before the start or after the end; otherwise the frame counter advances, and the snake steps exactly on frames divisible by the speed for its length: a crash ends the game keeping snake, food and score and bringing the best score up to date; a safe step moves the snake, adds 10 points and new food exactly when it ate, and keeps the best score |
| Snake.SnakeGame.Reset | games/Snake.tsx:184-189 | replay, together with the restart of the game loop it is meant to bring: score 0, a fresh three-segment snake heading right, the best score kept |
| Snake.SnakeGame.RestartLoop | games/Snake.tsx:37-40 | a re-run of the game-loop effect gives a fresh snake, food and frame counter and touches nothing else |
| Snake.SnakeGame.FrameAsWritten | games/Snake.tsx:117 | the loop that is drawn: a frame in which the score rises is followed by a re-run of the effect, whose fresh loop starts with the three-segment starting snake; the grown snake is no longer the one drawn |
| Snake.SnakeGame.ResetAsWritten | games/Snake.tsx:182-189 | replay as written: the loop restarts only if score, game-over or started actually change; in a running game at score 0 the snake stays while the direction is set back to the right |
| Snake.TurnUpThenLeft | games/Snake.tsx:99-126 | from the start, turning up and then left, one step each, leaves the snake at (9,9),(10,9),(10,10) heading left |
| Snake.ResetMidGameCrashes | games/Snake.tsx:184-189 | in that position, replay as written makes the next step crash into the segment behind the head |
| Snake.ResetMidGameSafe | games/Snake.tsx:184-189 | with the corrected replay, the first step from the same position is safe |
| Snake.SnakeGame.EndGame | games/Snake.tsx:100-111 | the crash branch: the pending direction is taken, the game is over and the best score is brought up to date; the snake, food and score stay |
| Snake.SnakeGame.Slide | games/Snake.tsx:114-125 | the moving branch: the pending direction is taken and the snake replaced; eating adds 10 points and places the food on the given tile |
| BlockPuzzle.ShapeOf | games/BlockPuzzle.tsx:6-14 | each of the seven pieces is a rectangle of at most four by four cells with at least one filled cell |
| BlockPuzzle.ZeroRow | games/BlockPuzzle.tsx:83 | a row of ten empty cells |
| BlockPuzzle.ZeroRows | games/BlockPuzzle.tsx:83 | n empty rows |
| BlockPuzzle.EmptyBoard | games/BlockPuzzle.tsx:35 | the empty board is 20 rows of 10 cells |
| BlockPuzzle.EmptyBoardClear | games/BlockPuzzle.tsx:193 | the empty board has no full row and every row empty |
| BlockPuzzle.RowCollidesIff | games/BlockPuzzle.tsx:53-61 | the scan of one shape row from column c reports a collision exactly when one of its filled cells from c on is blocked |
| BlockPuzzle.RowsCollideIff | games/BlockPuzzle.tsx:52-62 | the scan from shape row r reports a collision exactly when some filled cell in those rows is blocked |
| BlockPuzzle.CollidesIff | games/BlockPuzzle.tsx:50-64 | collide holds exactly when some filled cell of the placed piece is outside the side walls, below the floor or on a filled board cell; cells above the top never collide |
| BlockPuzzle.BelowFloorCollides | games/BlockPuzzle.tsx:57 | a piece with a filled cell that fits has its top row above the floor |
| BlockPuzzle.Collides | games/BlockPuzzle.tsx:50-64 | the piece, moved by the offsets, has a filled cell outside the side walls, below the floor or on a filled board cell |
| BlockPuzzle.FitsInBounds | games/BlockPuzzle.tsx:52-61 | a piece that fits lies between the side walls and above the floor, so merging it writes only inside the board |
| BlockPuzzle.SpawnInBounds | games/BlockPuzzle.tsx:106-118 | a spawned piece, centred at the top, lies inside the walls and above the floor whatever the board holds |
| BlockPuzzle.Collide | games/BlockPuzzle.tsx:50-64 | the nested loop returns true exactly when the piece, moved by the offsets, collides |
| BlockPuzzle.MergedPart | games/BlockPuzzle.tsx:68-74 | writing part of the piece keeps the board's dimensions |
| BlockPuzzle.Merged | games/BlockPuzzle.tsx:66-75 | merging keeps the board's dimensions |
| BlockPuzzle.MergedCells | games/BlockPuzzle.tsx:66-75 | merge writes the colour into exactly the board cells the piece covers and leaves every other cell as it was |
| BlockPuzzle.MergeStep | games/BlockPuzzle.tsx:69-73 | one step of merge's scan writes a filled cell below the top edge, always inside the board when the piece lies inside the walls and above the floor, even over a filled cell |
| BlockPuzzle.MergeRowDone | games/BlockPuzzle.tsx:68-69 | the end of one shape row of the scan is the start of the next |
| BlockPuzzle.MergeStart | games/BlockPuzzle.tsx:67-68 | before the scan nothing is written |
| BlockPuzzle.WriteShape | games/BlockPuzzle.tsx:66-75 | merge's loops produce the merged board |
| BlockPuzzle.ZeroRowNotFull | games/BlockPuzzle.tsx:81-83 | an empty row is never full |
| BlockPuzzle.FullRowLines | games/BlockPuzzle.tsx:81-84 | a board with a full row clears at least one row |
| BlockPuzzle.Kept | games/BlockPuzzle.tsx:80-87 | the rows that survive clearing are no more than the rows of the board |
| BlockPuzzle.KeptRows | games/BlockPuzzle.tsx:81-82 | every surviving row is a non-full row of the board |
| BlockPuzzle.ClearedShape | games/BlockPuzzle.tsx:77-87 | after clearing, the board keeps its size, has no full row, an empty row on top for every row removed, and the surviving rows in their old order below; a board without full rows is left alone |
| BlockPuzzle.KeptAll | games/BlockPuzzle.tsx:81 | with no full row every row survives |
| BlockPuzzle.LinesFront | games/BlockPuzzle.tsx:81-84 | the count of full rows, one row at a time |
| BlockPuzzle.LinesInBand | games/BlockPuzzle.tsx:81-84 | when every full row lies within a band of h rows, at most h rows are cleared |
| BlockPuzzle.ClearStep | games/BlockPuzzle.tsx:80-86 | one step of the row loop: a full row is spliced out with an empty row put on top and the same index looked at again; any other row stays; the empty rows on top are never full |
| BlockPuzzle.ScanEnds | games/BlockPuzzle.tsx:80-87 | the loop starts from the board itself and ends with the cleared board and the number of full rows |
| BlockPuzzle.ClearRows | games/BlockPuzzle.tsx:78-87 | the row loop produces the cleared board and counts exactly the full rows |
| BlockPuzzle.RotateShape | games/BlockPuzzle.tsx:136 | the rotated shape swaps height and width, and row i is column i read bottom to top |
| BlockPuzzle.RotateKeepsCell | games/BlockPuzzle.tsx:136 | rotation keeps at least one filled cell |
| BlockPuzzle.RotateTwice | games/BlockPuzzle.tsx:136 | two quarter turns turn the shape upside down and mirror it |
| BlockPuzzle.RotateFour | games/BlockPuzzle.tsx:136 | four quarter turns give back the shape |
| BlockPuzzle.FirstKick | games/BlockPuzzle.tsx:139-146 | the kick found is one of the five, no earlier than the start of the search |
| BlockPuzzle.FirstKickSpec | games/BlockPuzzle.tsx:139-146 | the chosen kick makes the rotated piece fit and every earlier one collides; no kick is chosen only when all five collide |
| BlockPuzzle.DropInterval | games/BlockPuzzle.tsx:99 | the drop interval is never below 100 ms, and from level 1 on never above 800 ms |
| BlockPuzzle.DropIntervalMonotone | games/BlockPuzzle.tsx:99 | higher levels never drop slower; the interval is 800 minus 70 per level above 1, or 100, and 100 from level 11 on |
| BlockPuzzle.LevelOf | games/BlockPuzzle.tsx:96 | the level is at least 1 |
| BlockPuzzle.LevelOfMonotone | games/BlockPuzzle.tsx:96 | a higher score never means a lower level |
| BlockPuzzle.SpawnSpec | games/BlockPuzzle.tsx:106-118 | the spawn step: the announced next piece at the top centre, a fresh next piece, and the end of the game when it does not fit |
| BlockPuzzle.ClearSpec | games/BlockPuzzle.tsx:77-104 | the clearing step: the board without its full rows, the points for them times the level, and best score, level and interval updated from the score |
| BlockPuzzle.LockSpec | games/BlockPuzzle.tsx:126-130 | the locking step: merge, clear and spawn, in that order |
| BlockPuzzle.MoveSpec | games/BlockPuzzle.tsx:120-132 | the move step: the shifted piece when it fits, a lock when a downward move is blocked, and no change otherwise |
| BlockPuzzle.RotateSpec | games/BlockPuzzle.tsx:134-147 | the rotation step: the rotated shape shifted by the first kick that fits, or no change |
| BlockPuzzle.GhostRow | games/BlockPuzzle.tsx:203-209 | the row where the piece would come to rest falling straight down |
| BlockPuzzle.DropSpec | games/BlockPuzzle.tsx:176-178 | the hard drop: the piece moved to its ghost row and locked there |
| BlockPuzzle.GhostRowSpec | games/BlockPuzzle.tsx:203-209 | the ghost row is the first row at or below the piece where it comes to rest: the piece fits on every row below its start down to it and collides one row lower, and it is above the floor when the start is; this holds even when the piece already overlaps the stack |
| BlockPuzzle.MergedLines | games/BlockPuzzle.tsx:66-89 | only the piece's own rows can fill, so at most four rows clear at once and the points table is never read past its end; this holds after the end of the game too |
| BlockPuzzle.SpawnKeepsValid | games/BlockPuzzle.tsx:106-118 | a spawned piece is the announced next piece, at the top, and the state stays well formed; the score state does not change, and a game that is over stays over |
| BlockPuzzle.LockKeepsValid | games/BlockPuzzle.tsx:126-130 | locking a piece, before or after the end of the game, keeps the state well formed, adds the table points times the level, and never lowers level or best score |
| BlockPuzzle.ClearKeepsValid | games/BlockPuzzle.tsx:77-104 | clearing leaves no full row, adds the points for the rows times the level, keeps best score, level and interval in step with the score, and touches nothing else |
| BlockPuzzle.MoveKeepsValid | games/BlockPuzzle.tsx:120-132 | a move, before or after the end of the game, keeps the state well formed, never lowers the score, and a game that is over stays over |
| BlockPuzzle.RotateKeepsValid | games/BlockPuzzle.tsx:134-147 | a rotation keeps the state well formed |
| BlockPuzzle.InitialFits | games/BlockPuzzle.tsx:35-37 | the first piece fits where it is placed before any game |
| BlockPuzzle.StartFits | games/BlockPuzzle.tsx:192-201 | every piece fits at the top of the empty board, so a new game never starts over |
| BlockPuzzle.DropStep | games/BlockPuzzle.tsx:177 | one iteration of the hard drop from any row above the ghost row: if the next row fits the piece moves down one row with the same ghost row; on the ghost row the move is the hard drop's lock |
| BlockPuzzle.ButtonSpec | games/BlockPuzzle.tsx:335-358 | the four touch buttons: left, rotate, down and right, each the move or rotation it calls |
| BlockPuzzle.OverExampleValid | games/BlockPuzzle.tsx:106-118 | a well-formed state that is over, with the piece spawned onto the stack, exists |
| BlockPuzzle.ButtonScoresAfterGameOver | games/BlockPuzzle.tsx:346-350 | after the end of the game the down button can still lock the piece, clear a row and raise the score and the best score |
| BlockPuzzle.BlockPuzzle.constructor | games/BlockPuzzle.tsx:27-43 | the state before the first game: empty board, the I piece at (4, 0), a drawn next piece, score 0, level 1, 800 ms |
| BlockPuzzle.BlockPuzzle.Merge | games/BlockPuzzle.tsx:66-75 | the board becomes the merged board, whether or not the game is over; nothing else changes |
| BlockPuzzle.BlockPuzzle.ClearLines | games/BlockPuzzle.tsx:77-104 | the state becomes the cleared state with its scoring |
| BlockPuzzle.BlockPuzzle.Spawn | games/BlockPuzzle.tsx:106-118 | the state becomes the spawned state |
| BlockPuzzle.BlockPuzzle.Move | games/BlockPuzzle.tsx:120-132 | the result is true exactly when the piece fits at the new place, and then only the position moves; otherwise the state becomes the moved state, and a blocked downward move locks the piece; this holds after the end of the game too |
| BlockPuzzle.BlockPuzzle.Lock | games/BlockPuzzle.tsx:126-130 | merge, clear and spawn make the state the locked state |
| BlockPuzzle.BlockPuzzle.Rotate | games/BlockPuzzle.tsx:134-147 | the piece takes the rotated shape at the first kick that fits, or nothing changes |
| BlockPuzzle.BlockPuzzle.GetGhostY | games/BlockPuzzle.tsx:203-209 | the loop returns the ghost row, also while the game is over |
| BlockPuzzle.BlockPuzzle.HardDrop | games/BlockPuzzle.tsx:176-178 | `while (move(0, 1))` ends with the piece locked on its ghost row |
| BlockPuzzle.BlockPuzzle.Key | games/BlockPuzzle.tsx:169-183 | after the end or before the start keys do nothing; the arrows move left, right and down or rotate, the space bar hard-drops, and other keys do nothing |
| BlockPuzzle.BlockPuzzle.PressAsWritten | games/BlockPuzzle.tsx:335-358 | a touch button calls its move or rotation with no check that a game is running, so the state becomes the button's step even after the end of the game |
| BlockPuzzle.BlockPuzzle.Press | games/BlockPuzzle.tsx:335-358 | a touch button guarded like the keys: nothing changes after the end or before the start, otherwise the state becomes the button's step |
| BlockPuzzle.BlockPuzzle.Tick | games/BlockPuzzle.tsx:153-165 | a frame counts, and the piece moves down once more than the drop interval has passed since the last fall, which restarts the interval |
| BlockPuzzle.BlockPuzzle.StartGame | games/BlockPuzzle.tsx:192-201 | an empty board, score 0, level 1, 800 ms and a spawned piece that fits; the best score is kept |
| Sudoku.Digit | games/Sudoku.tsx:27 | parseInt of one decimal digit is a value from 0 to 9 |
| Sudoku.DigitChar | games/Sudoku.tsx:27 | every value 0..9 has a digit character that parses back to it |
| Sudoku.NineRows | games/Sudoku.tsx:5-10 | nine rows of nine digits make an 81-digit puzzle string |
| Sudoku.PuzzlesWellFormed | games/Sudoku.tsx:5-10 | every built-in puzzle is exactly 81 decimal digits, so loadPuzzle reads a digit at every index |
| Sudoku.Puzzle | games/Sudoku.tsx:20 | the puzzle picked by index is a well-formed puzzle string |
| Sudoku.GridPart | games/Sudoku.tsx:21-30 | the grid loadPuzzle holds part-way through its loop is always 9 x 9 |
| Sudoku.GivenPart | games/Sudoku.tsx:22-30 | the givens loadPuzzle holds part-way through its loop are always 9 x 9 |
| Sudoku.Parse | games/Sudoku.tsx:24-30 | the grid of a puzzle string is 9 x 9 |
| Sudoku.Givens | games/Sudoku.tsx:29 | the givens of a puzzle string are 9 x 9 |
| Sudoku.ParseStart | games/Sudoku.tsx:21-22 | before the loop reads anything the grid is all zeros and no cell is a given |
| Sudoku.ParseStep | games/Sudoku.tsx:24-30 | reading character i sets exactly cell (i div 9, i mod 9) to its digit, and marks it a given exactly when the digit is not 0 |
| Sudoku.ParseSerialise | games/Sudoku.tsx:24-30 | character i lands in cell (i div 9, i mod 9), a cell is a given exactly when it is non-zero, and writing the grid out row by row gives back the string |
| Sudoku.SerialiseParse | games/Sudoku.tsx:24-30 | reading back the string of a grid of digits gives the same grid, so parsing is a bijection between puzzle strings and digit grids |
| Sudoku.Serialise | games/Sudoku.tsx:24-30 | the written-out grid is 81 characters long |
| Sudoku.EmptyGrid | games/Sudoku.tsx:13-21 | the initial grid is 9 x 9 with every cell 0 |
| Sudoku.NoMarks | games/Sudoku.tsx:14-22 | the initial givens are 9 x 9 with no cell marked |
| Sudoku.Third | games/Sudoku.tsx:113-114 | floor(x / 3) of a grid coordinate is a band 0..2 |
| Sudoku.ThirdIsDiv | games/Sudoku.tsx:73-74 | the band is x div 3 and the offset inside it x mod 3 |
| Sudoku.RowUnit | games/Sudoku.tsx:47-58 | a row scan visits nine cells |
| Sudoku.ColUnit | games/Sudoku.tsx:59-66 | a column scan visits nine cells |
| Sudoku.BoxUnit | games/Sudoku.tsx:71-79 | a box scan visits nine cells |
| Sudoku.BoxOf | games/Sudoku.tsx:71-74 | each cell lies in one of the nine boxes |
| Sudoku.PlaceInBox | games/Sudoku.tsx:75-78 | each cell has one of nine places inside its box |
| Sudoku.BoxIndex | games/Sudoku.tsx:71-79 | the box scan of BoxOf(r, c) visits (r, c) at place PlaceInBox(r, c) |
| Sudoku.BoxEntries | games/Sudoku.tsx:71-79 | every cell a box scan visits lies on the grid, in that box, at its own place |
| Sudoku.BoxCell | games/Sudoku.tsx:73-78 | entry 3 i + j of box b is (startR + i, startC + j) with the source's startR and startC |
| Sudoku.UnitsOnGrid | games/Sudoku.tsx:47-90 | every row, column and box scan stays on the grid |
| Sudoku.RowMembers | games/Sudoku.tsx:52 | a cell is in row i exactly when its row is i |
| Sudoku.ColMembers | games/Sudoku.tsx:60 | a cell is in column i exactly when its column is i |
| Sudoku.BoxMembers | games/Sudoku.tsx:71-79 | a cell is in box b exactly when it is on the grid and BoxOf names b |
| Sudoku.SameBox | games/Sudoku.tsx:113-114 | two cells share a box exactly when their row bands and their column bands agree |
| Sudoku.SharedUnitRelated | games/Sudoku.tsx:108-116 | two different cells sharing a row, column or box are related |
| Sudoku.RelatedSharedUnit | games/Sudoku.tsx:108-116 | related cells are different and share a row, column or box |
| Sudoku.RelatedIffSharedUnit | games/Sudoku.tsx:108-116 | isRelated holds exactly for two different cells that share a row, column or box, and it is symmetric |
| Sudoku.RelatedIffSharedUnitAt | games/Sudoku.tsx:108-116 | with no selection nothing is related; with one, the same iff as above |
| Sudoku.SeenStep | games/Sudoku.tsx:57 | remembering a non-zero value with the current cell keeps the scan's map faithful to the cells scanned |
| Sudoku.DupsStep | games/Sudoku.tsx:52-57 | a value already in the map marks the current cell and the remembered cell, and no other cell becomes a duplicate |
| Sudoku.DupsGrow | games/Sudoku.tsx:53-56 | a repeated value adds exactly the current and the remembered cell to the duplicates |
| Sudoku.DupsSame | games/Sudoku.tsx:52 | a zero or a new value adds no duplicate |
| Sudoku.ScanNext | games/Sudoku.tsx:52-57 | one more cell of a scan: skip zero, mark both cells on a repeat, then remember the value with this cell |
| Sudoku.ScanSeen | games/Sudoku.tsx:48-66 | the scan's map holds, for each value met, a scanned cell holding it |
| Sudoku.ScanDups | games/Sudoku.tsx:48-66 | a scan marks exactly the cells whose value appears again in the unit |
| Sudoku.FoundNext | games/Sudoku.tsx:47 | each further unit adds its own duplicates to those found |
| Sudoku.FoundNone | games/Sudoku.tsx:44 | before any unit is scanned nothing is marked |
| Sudoku.RowMarkIsMistake | games/Sudoku.tsx:53-56 | a cell a row scan marks is a mistake |
| Sudoku.ColMarkIsMistake | games/Sudoku.tsx:61-64 | a cell a column scan marks is a mistake |
| Sudoku.BoxMarkIsMistake | games/Sudoku.tsx:81-85 | a cell a box scan marks is a mistake |
| Sudoku.MistakeIsMarked | games/Sudoku.tsx:47-90 | every mistake is marked by the scan of its row, its column or its box |
| Sudoku.Mistakes | games/Sudoku.tsx:47-90 | the cells marked as mistakes: a filled cell whose value occurs again in its row, column or box |
| Sudoku.Solved | games/Sudoku.tsx:95-96 | the win test: every cell filled and no mistakes |
| Sudoku.Related | games/Sudoku.tsx:108-116 | `isRelated` with a selection: another cell in the selected cell's row, column or 3 x 3 box |
| Sudoku.FoundMistakes | games/Sudoku.tsx:43-90 | all scans together mark exactly the cells that hold a value some related cell also holds |
| Sudoku.ScanLine | games/Sudoku.tsx:48-67 | scanning row i and column i side by side adds exactly their duplicates |
| Sudoku.LinesNext | games/Sudoku.tsx:47-68 | each line pass adds its row's and its column's duplicates |
| Sudoku.ScanLines | games/Sudoku.tsx:47-68 | the row and column loop marks exactly the duplicates of all rows and columns |
| Sudoku.ScanBox | games/Sudoku.tsx:72-89 | scanning one box row by row adds exactly its duplicates |
| Sudoku.ScanBoxes | games/Sudoku.tsx:71-90 | the box loop adds exactly the duplicates of all boxes |
| Sudoku.FindMistakes | games/Sudoku.tsx:43-90 | checkMistakes' loops compute exactly the set of mistakes |
| Sudoku.SolvedIff | games/Sudoku.tsx:95-96 | the win check holds exactly for a full grid in which no two different cells of a row, column or box hold the same value |
| Sudoku.Sudoku.constructor | games/Sudoku.tsx:39-41 | mounting loads the picked puzzle: its grid and givens, no selection, no mistakes, not won |
| Sudoku.Sudoku.LoadPuzzle | games/Sudoku.tsx:19-37 | the grid and givens become those of the picked puzzle; selection, mistakes and win are cleared |
| Sudoku.Sudoku.Select | games/Sudoku.tsx:15 | a click selects the cell and changes nothing else |
| Sudoku.Sudoku.IsRelated | games/Sudoku.tsx:108-116 | true exactly when there is a selection, the cell is another one, and the two share a row, column or box |
| Sudoku.Sudoku.CheckMistakes | games/Sudoku.tsx:43-97 | the mistakes shown become exactly the grid's mistakes, and the game is won once the grid is solved; won stays won |
| Sudoku.Sudoku.HandleInput | games/Sudoku.tsx:99-106 | without a selection, on a given or after a win nothing changes; otherwise exactly the selected cell takes the number and mistakes and win are recomputed; givens never change |
| Maze.Carve | games/Maze.tsx:16-21 | opening one cell keeps the board 15 x 15 |
| Maze.CarveCell | games/Maze.tsx:16-21 | opening cell p sets exactly that cell to 0 and leaves every other cell as it was |
| Maze.CarveOpen | games/Maze.tsx:29-30 | opening a cell that is already open changes nothing |
| Maze.StepGeometry | games/Maze.tsx:17-21 | a two-cell step from a lattice cell that lands inside the outer ring lands on a lattice cell, and the cell half-way is an interior corridor cell adjacent to both |
| Maze.OpenedTrans | games/Maze.tsx:15-25 | cells opened stay open across successive carvings |
| Maze.WallsMonotone | games/Maze.tsx:15-25 | carving never adds lattice walls, so walk's measure never grows |
| Maze.CorridorKeepsWalls | games/Maze.tsx:21 | opening a corridor cell leaves the lattice walls as they are |
| Maze.WallsShrink | games/Maze.tsx:16-20 | opening a lattice wall strictly shrinks the lattice walls, which is why the recursion ends |
| Maze.CarveKeeps | games/Maze.tsx:16-21 | opening an interior cell keeps the board of walls and open cells with its outer ring of wall, and closes nothing |
| Maze.CarveRooted | games/Maze.tsx:16-21 | opening a cell next to an open cell (or the entrance) keeps every open cell connected back to the entrance |
| Maze.CarveExplored | games/Maze.tsx:16-21 | opening a cell keeps every open lattice cell either finished or still being walked |
| Maze.Dig | games/Maze.tsx:16-21 | the array write newMaze[y][x] = 0 makes the board hold the grid with (x, y) opened |
| Maze.EnterCell | games/Maze.tsx:16 | walk's first write at a lattice wall keeps the generator's invariant with the cell on the stack, and opens one lattice wall |
| Maze.OpenCorridor | games/Maze.tsx:21 | opening the corridor from an open cell keeps the invariant and the lattice walls |
| Maze.TriedMore | games/Maze.tsx:18-24 | after each direction of the shuffle the target of that direction, when inside the ring, is open |
| Maze.LeaveCell | games/Maze.tsx:18-25 | once all four directions are tried the cell is finished and leaves the stack |
| Maze.Walk | games/Maze.tsx:15-25 | the recursive backtracker opens its start cell, closes nothing, and keeps the board a ring-walled maze whose open cells all connect back to the entrance |
| Maze.Tunnel | games/Maze.tsx:19-23 | one turn of walk's loop leaves the target of that direction open whenever it lies inside the ring |
| Maze.Solid | games/Maze.tsx:13 | the fresh board is 15 x 15 and wall everywhere |
| Maze.SolidCarving | games/Maze.tsx:13-27 | the solid board meets the generator's invariant with nothing being walked |
| Maze.RowOpen | games/Maze.tsx:27 | after walk(1, 1) every lattice cell of the top lattice row is open |
| Maze.ColumnOpen | games/Maze.tsx:27 | after walk(1, 1) every lattice cell is open, column by column |
| Maze.AllLatticeOpen | games/Maze.tsx:15-27 | the generator reaches every lattice cell of the board |
| Maze.PathTo | games/Maze.tsx:15-27 | every open cell of a carved board is reachable from the entrance through open cells |
| Maze.ExitReachable | games/Maze.tsx:27-30 | in a generated maze a path of open cells leads from the entrance (1, 1) to the exit (13, 13) |
| Maze.NewBoard | games/Maze.tsx:12-31 | generateMaze's board is a generated maze: walls and open cells, a wall all round, every lattice cell open, every open cell connected to the entrance |
| Maze.NextPos | games/Maze.tsx:45-56 | the player moves onto the target exactly when it is an open cell of the board, otherwise stays |
| Maze.Travel | games/Maze.tsx:42-58 | a sequence of moves from an open cell always ends on an open cell |
| Maze.Deltas | games/Maze.tsx:62-65 | a path of n cells takes n - 1 steps |
| Maze.DeltasUnit | games/Maze.tsx:62-65 | each step along a path is one of the four moves the controls make |
| Maze.PathTail | games/Maze.tsx:42-58 | a path without its first cell is still a path |
| Maze.DeltasTail | games/Maze.tsx:42-58 | the steps of a path's tail are the path's steps after the first |
| Maze.TravelPath | games/Maze.tsx:42-58 | pressing the keys for a path's steps walks the player along the path to its end |
| Maze.Winnable | games/Maze.tsx:12-65 | every generated maze can be won: some sequence of key presses takes the player from the entrance to the exit |
| Maze.KeyMove | games/Maze.tsx:61-65 | exactly the arrow keys and WASD in either case move the player: ArrowUp, w and W go up (0, -1); ArrowDown, s and S down (0, 1); ArrowLeft, a and A left (-1, 0); ArrowRight, d and D right (1, 0); each move is one unit step |
| Maze.Maze.constructor | games/Maze.tsx:7-10 | before any maze exists the player is on the entrance, not won, not started |
| Maze.Maze.Generate | games/Maze.tsx:12-36 | a fresh generated maze, the player back on the entrance, not won, started |
| Maze.Maze.MovePlayer | games/Maze.tsx:42-58 | ignored once won or before a maze exists; otherwise the player steps onto an open target, the board is untouched, and the game is won exactly on reaching the exit |
| Maze.Maze.After | games/Maze.tsx:42-58 | where a move takes the player: nowhere new once won or before a maze exists, otherwise the target when it is open |
| Maze.Maze.KeyDown | games/Maze.tsx:60-65 | a movement key moves the player as MovePlayer does in its direction; any other key changes nothing |

## Left out

- **Rendering.** Canvas drawing, DOM layout, CSS, sounds and the feedback flashes are not modelled. This covers ColorMatch's 200 ms flash, MathPuzzle's 300 ms flash and its input focus, and Snake's particles.
- **Randomness.** `Math.random` is not modelled; each draw is a parameter restricted to the range the source draws from. A shuffle by `sort(() => Math.random() - 0.5)` is taken as an arbitrary permutation. For the maze it is an arbitrary direction order at each cell. The distribution of these draws is not modelled.
- **localStorage.** Reads and writes are I/O and are left out.
  - Only the in-memory rule "the best score is replaced only by a larger one" is kept (`Scores.Best`).
  - Snake, ColorMatch and Clicker start from 0, as their state does before the mount effect reads the store.
  - The block puzzle takes the stored best as a constructor parameter.
- **Timers and animation frames.** These are explicit events:
  - ColorMatch and MathPuzzle: `Tick` for an interval tick;
  - Snake: `Frame` for an animation frame;
  - the block puzzle: `Tick(time, …)` for a frame at a time stamp;
  - MemoryMatch: `FlipBack` for the delayed flip-back.
  The source's `disabled` flag already blocks clicks during the MemoryMatch delay.
- TicTacToe.TicTacToe.Click: the AI's reply, delayed by 300 ms in the source, is one atomic step with the player's move. A second player click inside those 300 ms is not modelled. In the source such a click would be overwritten when the delayed reply writes back its own copy of the board.
- **Pause flag.** Snake's `isPaused` prop and the pause/sound flags of the surrounding player are not modelled. The model has no paused state (see the next line for what pausing does in the source).
- Snake.SnakeGame.Frame: frames go on while the player is paused, as they do in the source, and the model does not capture what else pausing does. Turning `isPaused` on re-runs the game-loop effect, which returns at once (games/Snake.tsx:27). Its cleanup cancels only the running loop's first frame id (games/Snake.tsx:174-177). That loop was created with `isPaused == false` in its closure, so its test at games/Snake.tsx:93 never fires, and it keeps rescheduling itself (games/Snake.tsx:171). The snake therefore keeps stepping during a pause, and a crash still ends the game. Only the key and touch listeners are removed (games/Snake.tsx:178-180), so the player cannot steer; the model still accepts `Key` and `Swipe` then. Resuming re-runs the effect (games/Snake.tsx:182), which starts one more loop with a fresh three-segment snake (games/Snake.tsx:37) beside the old one. No loop the component can create honours the pause. The intended behaviour, no frame while paused, is not modelled either.
- Snake.SnakeGame.FrameAsWritten: only the loop that is drawn is modelled. Each re-run of the game-loop effect cancels just the first frame id of the old loop (games/Snake.tsx:174, 177), while the old loop goes on scheduling itself (games/Snake.tsx:171), so older loops keep running unseen. Each keeps its own grown snake and food, shares `directionRef` with the drawn loop, can call `setScore` and `setGameOver` (a crash of an unseen snake ends the game), ignores pause and keeps running after the end. These loops, and the interleaving of their frames, are not modelled.
- **Input plumbing.** Key, touch and click handlers are modelled by what they decide; `preventDefault` and the listener registration are not.
  - Snake's swipe takes the two pixel deltas. Reading them from the touch event is not modelled.
  - The maze's on-screen buttons call the same `MovePlayer` as the keys.
  - The block puzzle's on-screen buttons are modelled by `PressAsWritten`: they call `Move` / `Rotate` directly, without the key handler's check of `started` and `gameOver` (see Findings).
  - 2048's arrow-key handler passes the direction (`Dir`) to `Move`; the `replace('Arrow', '').toLowerCase()` string step is not modelled.
- **2048 game over.** `gameOver` is declared but never set to true in the component, so the model has no game-over state for 2048.
- **In-place updates on values.** Grids and boards are sequences that the methods reassign whole, except the maze board, which is a 2-D array written cell by cell.
  - 2048's `addRandom` writes and Sudoku's input write go to fresh local copies, so no aliasing is lost.
  - The block puzzle's `merge` and `clearLines` write in place into `stateRef.current.grid` (games/BlockPuzzle.tsx:66-86), the one board the component keeps. The model replaces that board with the updated value. Nothing else holds a reference to it, since the drawn grid is a copy (games/BlockPuzzle.tsx:213), so the model loses only the in-place form of the update, not any shared state.
- BlockPuzzle.BlockPuzzle.Tick: the frame loop is created by an effect whose dependencies are `[started, gameOver, level]` (games/BlockPuzzle.tsx:190), so the `clearLines` it reaches reads the `highScore` of the render that last re-ran the effect. A best score raised since then is compared against the stale value. The model reads the current best score. The requestAnimationFrame scheduling is not modelled either.
- BlockPuzzle.BlockPuzzle.Key: the key handler is created by the same effect (games/BlockPuzzle.tsx:169-183, inside the effect at games/BlockPuzzle.tsx:149-190), so its moves read the same stale `highScore`. The model reads the current value.
- BlockPuzzle.BlockPuzzle.HardDrop: the space bar's `while (move(0, 1))` runs inside that key handler and reads the same stale `highScore` when it locks the piece. The model reads the current value.
- BlockPuzzle.ButtonScoresAfterGameOver: the game-over state it starts from (`OverExample`) is shown to be well formed, not to be reachable from `StartGame` by a sequence of moves. A proof of reachability would have to play out a whole game on concrete boards. The discrepancy it exhibits needs only what every game-over state shares: the buttons still call `move` and `rotate` there.
- Clicker.Clicker.Click: the floating "+n" labels, with their `Date.now()` ids, click positions and removal timeout, are presentation and are not modelled.
- Clicker.Grow: `floor(cost * 1.8)` is computed exactly on integers, as `(9 * cost) / 5`. Floating-point rounding of the product is not modelled.
- Catalog.ToLower: lowercasing is ASCII only. Unicode case mapping is not modelled. The registry entries keep only the fields the filter reads.
- MathPuzzle.ParseIntRoundTrip: `parseInt` is modelled for decimal text (leading white space, a sign, digits). The hexadecimal `0x` prefix that `parseInt` also accepts without a radix is not modelled.
- Sudoku.Sudoku.CheckMistakes: the mistake set holds cells as (row, column) pairs rather than the source's `"r-c"` strings. The two sets are in one-to-one correspondence.
- **Maze bookkeeping.** The maze's `dist` and `parent` maps are ghost bookkeeping added for the reachability proof. They have no counterpart in the source.
- The games outside this core are not part of this model: the canvas-physics games, the bubble shooter, whack-a-mole and the balloon game. The portal's header, footer, legal pages, contact form and game player are not part of it either.

## Findings

| source | as written | input that shows it | evidently intended | confidence | as-written member | corrected member |
|---|---|---|---|---|---|---|
| games/Snake.tsx:117 | The game-loop effect lists `score` among its dependencies (line 182), and its closure owns the snake (line 37). Eating calls `setScore`, which re-runs the effect. The new loop, the one drawn, starts from the three-segment starting snake and the starting food. The old loop is not stopped, since only its first frame id is cancelled, and its grown snake keeps moving unseen. | Any frame in which the head reaches the food: the score goes from s to s + 10 and the snake that is drawn is back to `START_BODY`. | Eating grows the snake by one segment and the game continues. | high, not executed | Snake.SnakeGame.FrameAsWritten | Snake.SnakeGame.Frame |
| games/Snake.tsx:182-189 | The replay button only sets score 0, not over, started and direction right. If none of the effect's inputs changes, the loop is not restarted. This happens when replay is pressed in a running game at score 0. The old snake then stays while its direction is forced to the right. | Start, press up, step, press left, step: the snake is (9,9),(10,9),(10,10) heading left. Pressing replay turns it right, and the next step crashes into the segment behind the head (`Snake.ResetMidGameCrashes`). | Replay always starts a fresh game with the starting snake heading right. Its first step is safe (`Snake.ResetMidGameSafe`). | medium, not executed | Snake.SnakeGame.ResetAsWritten | Snake.SnakeGame.Reset |
| games/BlockPuzzle.tsx:335-358 | The four touch buttons call `move` and `rotate` directly. Unlike the key handler (line 170), they do not check `started` or `gameOver`. | `BlockPuzzle.ButtonScoresAfterGameOver`: in a game that is over with the piece spawned onto the stack (`BlockPuzzle.OverExample`), pressing the down button locks the piece, clears a row and raises the score and the best score. | The buttons, like the keys, do nothing before the start or after the end. | medium, not executed | BlockPuzzle.BlockPuzzle.PressAsWritten | BlockPuzzle.BlockPuzzle.Press |
