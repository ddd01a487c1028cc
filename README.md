# Game builder: verified model of the five mini-games and the wizard

The repository is a Next.js game builder. It has a four-step wizard (name,
template, customisation, publish), and five small games written as React
components that the preview component dispatches to: match-three, tic-tac-toe,
the sliding number puzzle, memory cards and snake. This project models the game logic of those
five components and the wizard's stepper in Dafny, and proves what each handler
promises.

Each component becomes one module and one class. React state variables become
the class's fields, and each handler becomes a method with a `modifies` clause.
A class invariant `Valid()` is kept by every event handler. The match-three
helpers that run inside one handler (`MarkSelected`, `SwapColors`,
`ClearMatched`, `DropAndRefill` and the like) may break it in between; for
example, `ClearMatched` leaves empty cells until the refill. Where the source loops
(match detection, the cascade, shuffles, the winner scan, `isSolved`, the deck
build, food placement), the model is a method with a loop and invariants, proved
against a specification function. Pure decisions are functions with lemmas:
run membership, the winner, adjacency, tile mobility, the score formulas, the
direction guard, `trim` and the feature toggle.

Inputs the code takes from outside are parameters:
- `Math.random` values: the colour matrix for a new grid, the refill colours of
  a cascade, the shuffle picks, and the candidate food cells.
- `Date.now`: the `now` argument.
- The `onScoreChange` callback: each handler's `reported: Option<int>` result.

Timers become explicit steps that the caller runs:
- match-three's 300 ms cascade: `Resolve`;
- its 1000 ms scan interval: `AutoScanTick`;
- memory's 500/1000 ms resolution: `ResolvePair`;
- snake's interval: one `MoveSnake` per tick.

Modules: `Common` (option type, duplicate-free sequences, `[...new Set(xs)]`,
the Fisher–Yates shuffle), `MatchThree`, `TicTacToe`, `NumberPuzzle`,
`MemoryCards`, `Snake`, `GameBuilder`.

## Model

| member | source | states |
|---|---|---|
| Common.Dedup | components/games/MatchThreeGame.tsx:115 | the result has no duplicates, holds exactly the elements of the input, and is no longer |
| Common.DistinctCardinality | components/games/MatchThreeGame.tsx:115-122 | a duplicate-free match list has as many entries as distinct cells, so the score counts a cell matched in both directions once |
| Common.ShuffledIsPermutation | components/games/NumberPuzzleGame.tsx:31-34 | the Fisher–Yates specification keeps the length and the multiset of its input |
| Common.Shuffle | components/games/MemoryCardsGame.tsx:48-51 | the in-place swap loop with picks in [0, i] leaves the array equal to the Fisher–Yates specification, and is a permutation of the old contents |
| Common.TwoOccurrences | components/games/MemoryCardsGame.tsx:48-51 | two positions holding equal values give that value multiplicity at least 2 (used to carry distinct ids through the shuffle) |
| Common.DistinctMultiplicity | components/games/MemoryCardsGame.tsx:39-45 | in a duplicate-free deck every card has multiplicity at most 1 |
| MatchThree.GridSize | components/games/MatchThreeGame.tsx:31 | side 6 exactly for "easy", 8 exactly for "medium", 10 otherwise |
| MatchThree.AdjacentIsOrthogonalNeighbour | components/games/MatchThreeGame.tsx:179 | Manhattan distance 1 holds iff the second cell is one of the four orthogonal neighbours; never the cell itself, never a diagonal |
| MatchThree.InRunIffLongRun | components/games/MatchThreeGame.tsx:69-88 | inside a maximal run of equal colours, a position lies in a window of three equal colours iff the run has length at least 3 |
| MatchThree.ScanLine | components/games/MatchThreeGame.tsx:69-88 | the count/currentColor scan over one line returns an index iff it lies in a run of three or more equal colours, in strictly increasing order |
| MatchThree.FindMatches | components/games/MatchThreeGame.tsx:64-116 | duplicate-free, and a position is returned iff it is in a horizontal or vertical run of at least 3 equal colours (sound and complete) |
| MatchThree.SurvivorsMembership | components/games/MatchThreeGame.tsx:131-143 | the cells a column keeps are exactly its cells not in the match list, never more than the column held |
| MatchThree.KeptAfterMarking | components/games/MatchThreeGame.tsx:131-143 | marking matched cells -1 then collecting the non-(-1) cells bottom-up gives the unmatched cells in their bottom-up order |
| MatchThree.SettledWellFormed | components/games/MatchThreeGame.tsx:146-158 | every cell the fill writes sits at its own row and column with a colour in [0,5), never -1 |
| MatchThree.MatchThreeGame.constructor | components/games/MatchThreeGame.tsx:25-31 | unstarted, score 0, nothing selected, not animating, grid built from the colour matrix |
| MatchThree.MatchThreeGame.InitializeGrid | components/games/MatchThreeGame.tsx:46-62 | a fresh size × size grid whose cell (r, c) has the drawn colour, row r, column c, unselected |
| MatchThree.MatchThreeGame.StartGame | components/games/MatchThreeGame.tsx:205-209 | started, score 0, a newly drawn grid |
| MatchThree.MatchThreeGame.ResetGame | components/games/MatchThreeGame.tsx:211-222 | stopped, score 0, selection empty, and the grid rebuilt (the cleared grid is refilled by the effect at lines 218-222) |
| MatchThree.MatchThreeGame.MarkSelected | components/games/MatchThreeGame.tsx:174-176 | every cell keeps its colour and position; exactly the target cell, if any, is flagged selected |
| MatchThree.MatchThreeGame.SwapColors | components/games/MatchThreeGame.tsx:184-187 | the two cells exchange colours; every other cell is unchanged |
| MatchThree.MatchThreeGame.RemoveMatches | components/games/MatchThreeGame.tsx:118-125 | an empty list changes nothing; otherwise the score grows by exactly 10 × |matches|, the new score is reported, and the lock is taken until the cascade runs |
| MatchThree.MatchThreeGame.CollectColumn | components/games/MatchThreeGame.tsx:138-143 | the column's non-empty cells read bottom-up |
| MatchThree.MatchThreeGame.FillColumn | components/games/MatchThreeGame.tsx:146-158 | column c becomes the kept cells from the bottom re-addressed to their new row, then fresh colours above; other columns unchanged |
| MatchThree.MatchThreeGame.ClearMatched | components/games/MatchThreeGame.tsx:131-134 | exactly the listed cells get colour -1 |
| MatchThree.MatchThreeGame.DropAndRefill | components/games/MatchThreeGame.tsx:137-159 | every column is compacted downward in order and refilled at the top |
| MatchThree.MatchThreeGame.Cascade | components/games/MatchThreeGame.tsx:128-161 | marks the listed cells empty, then in every column the surviving cells keep their bottom-to-top order in the bottom rows and fresh colours fill the rest; the grid stays well formed |
| MatchThree.MatchThreeGame.Resolve | components/games/MatchThreeGame.tsx:126-164 | with a cascade pending, each column's unmatched cells keep their bottom-to-top order in the bottom rows, fresh colours fill the rest, every cell carries its own position and a colour in [0,5), and the lock is released; with none pending nothing changes |
| MatchThree.MatchThreeGame.HandleCellClick | components/games/MatchThreeGame.tsx:167-203 | locked or unstarted: no-op; first click selects exactly that cell; non-adjacent second click empties the selection and leaves the grid; adjacent second click swaps exactly the two colours, clears every flag and keeps the swap, and schedules a cascade iff the new grid has a match, adding 10 per matched cell |
| MatchThree.MatchThreeGame.CheckMatches | components/games/MatchThreeGame.tsx:295-298 | the manual check: scores and locks iff the grid has a match, with the pending list exactly the matched cells |
| MatchThree.MatchThreeGame.AutoScanTick | components/games/MatchThreeGame.tsx:225-236 | one interval tick: nothing while locked or unstarted, otherwise as the manual check |
| TicTacToe.FirstOwnerIsAnOwner | components/games/TicTacToeGame.tsx:33-38 | the early-return scan reports the owner of some listed line, and reports none only when no line is owned |
| TicTacToe.DecideCorrect | components/games/TicTacToeGame.tsx:26-39 | with no line, the result is a draw iff the board is full and undecided iff it is not; a player wins iff they hold a line, when the other player holds none |
| TicTacToe.CheckWinner | components/games/TicTacToeGame.tsx:32-40 | the loop over the eight combinations computes exactly the decision above |
| TicTacToe.MoveGivesNoLineToOther | components/games/TicTacToeGame.tsx:45-49 | a mark by one player never completes a line for the other, so a win is always the mover's |
| TicTacToe.TicTacToeGame.constructor | components/games/TicTacToeGame.tsx:20-24 | empty board, X to move, no result, tallies 0 |
| TicTacToe.TicTacToeGame.MakeMove | components/games/TicTacToeGame.tsx:42-64 | no-op on an occupied cell, a decided game or before start; otherwise exactly that cell takes the mover's mark, the result is recomputed, the turn passes only when undecided, and a draw or a win adds 1 to exactly its own tally (the winner's new tally is reported) |
| TicTacToe.TicTacToeGame.ResetGame | components/games/TicTacToeGame.tsx:66-70 | empty board, X to move, no result; tallies unchanged |
| TicTacToe.TicTacToeGame.StartGame | components/games/TicTacToeGame.tsx:72-75 | started, with a fresh round and tallies unchanged |
| TicTacToe.TicTacToeGame.ResetAll | components/games/TicTacToeGame.tsx:166-170 | stopped, all tallies 0, fresh round |
| NumberPuzzle.GridSize | components/games/NumberPuzzleGame.tsx:23 | side 3 exactly for "easy", 4 exactly for "medium", 5 otherwise |
| NumberPuzzle.NumbersAt | components/games/NumberPuzzleGame.tsx:27 | entry k of the generated numbers is tile lo + k |
| NumberPuzzle.OrderedAt | components/games/NumberPuzzleGame.tsx:27-28 | the unshuffled board holds tile i+1 at slot i and the blank last |
| NumberPuzzle.SolvedIffOrdered | components/games/NumberPuzzleGame.tsx:42-47 | the solved condition holds exactly for the unshuffled board |
| NumberPuzzle.OneBlank | components/games/NumberPuzzleGame.tsx:26-39 | every permutation of the board holds exactly one blank |
| NumberPuzzle.IndexOfBlank | components/games/NumberPuzzleGame.tsx:64 | `findIndex`: the first blank slot, or -1 exactly when there is none |
| NumberPuzzle.CanMoveIffNeighbour | components/games/NumberPuzzleGame.tsx:49-59 | movable iff the blank is directly above, below, or beside in the same row (no wrap between rows) |
| NumberPuzzle.CanMoveIsNeighbour | components/games/NumberPuzzleGame.tsx:49-59 | a movable tile is one row above or below the blank, or beside it in the same row |
| NumberPuzzle.NeighbourCanMove | components/games/NumberPuzzleGame.tsx:49-59 | every tile one row above or below the blank, or beside it without wrapping rows, is movable |
| NumberPuzzle.FinalScore | components/games/NumberPuzzleGame.tsx:74-76 | at least 20, at most 200 for non-negative inputs, and 200 − seconds − moves while neither bonus is clamped |
| NumberPuzzle.SwapKeepsPermuted | components/games/NumberPuzzleGame.tsx:66-67 | exchanging two slots keeps the board a permutation of 1..n²−1 and one blank |
| NumberPuzzle.IsSolved | components/games/NumberPuzzleGame.tsx:42-47 | the loop returns true iff tiles[i] = i+1 below the last slot and the last slot is blank |
| NumberPuzzle.NumberPuzzleGame.constructor | components/games/NumberPuzzleGame.tsx:104-108 | unstarted, a shuffled board of side² slots, 0 moves |
| NumberPuzzle.NumberPuzzleGame.InitializePuzzle | components/games/NumberPuzzleGame.tsx:26-39 | the board is the Fisher–Yates shuffle of 1..n²−1 plus the blank (a permutation), 0 moves, not won, clock restarted |
| NumberPuzzle.NumberPuzzleGame.HandleTileClick | components/games/NumberPuzzleGame.tsx:61-80 | no-op before start or after winning; a movable tile swaps with the blank and adds exactly 1 move, winning iff solved and reporting the score from the pre-click move count; an immovable one changes nothing; the board stays a permutation |
| NumberPuzzle.NumberPuzzleGame.StartGame | components/games/NumberPuzzleGame.tsx:82-85 | started with a newly shuffled board |
| NumberPuzzle.NumberPuzzleGame.ResetGame | components/games/NumberPuzzleGame.tsx:87-90 | stopped with a newly shuffled board |
| MemoryCards.DeckSize | components/games/MemoryCardsGame.tsx:32 | 8 exactly for "easy", 12 exactly for "medium", 16 otherwise |
| MemoryCards.FindCard | components/games/MemoryCardsGame.tsx:63 | `find`: the first card with that id, or none exactly when no card has it |
| MemoryCards.BuildDeck | components/games/MemoryCardsGame.tsx:36-45 | 2 × pairs cards; cards 2i and 2i+1 carry ids 2i and 2i+1 and both show symbol i mod 6, face down |
| MemoryCards.DeckIsDealt | components/games/MemoryCardsGame.tsx:39-45 | card k of the built deck is exactly the dealt card k: id k, the symbol of pair k / 2, face down and unmatched |
| MemoryCards.ShuffleDeck | components/games/MemoryCardsGame.tsx:48-51 | swapping in place from the last card down to card 1 leaves exactly the Fisher–Yates shuffle of the deck for the given draws |
| MemoryCards.ShuffledDeckWellFormed | components/games/MemoryCardsGame.tsx:48-51 | a permutation of the deck keeps ids distinct and in range, each card with its pair's symbol |
| MemoryCards.DealtDeckFacts | components/games/MemoryCardsGame.tsx:35-57 | a shuffle of the dealt deck is a permutation of it and satisfies the game invariant (distinct ids, nothing face up, no pair, not won) |
| MemoryCards.FlipConsistent | components/games/MemoryCardsGame.tsx:66-74 | turning one face-down card up and listing its id keeps the invariant, the second card counting one move |
| MemoryCards.Deal | components/games/MemoryCardsGame.tsx:35-51 | the built deck shuffled in place is the Fisher–Yates shuffle of the dealt deck |
| MemoryCards.WinScore | components/games/MemoryCardsGame.tsx:92 | at least 10, and 100 − moves while that is at least 10 |
| MemoryCards.WonIffAllMatched | components/games/MemoryCardsGame.tsx:88-93 | in every reachable state the game is won exactly when every card is matched |
| MemoryCards.AllMatchedIffCount | components/games/MemoryCardsGame.tsx:88-93 | the count of matched cards equals the deck size exactly when every card is matched |
| MemoryCards.FreshConsistent | components/games/MemoryCardsGame.tsx:53-57 | a freshly dealt deck satisfies the game invariant with nothing face up, no pair and not won |
| MemoryCards.ResolvedConsistent | components/games/MemoryCardsGame.tsx:80-107 | resolving the two face-up cards, matched or turned back, keeps the invariant, and the game is won iff the pair count reaches half the deck |
| MemoryCards.MemoryCardsGame.constructor | components/games/MemoryCardsGame.tsx:139-143 | unstarted, with the deck of the difficulty's size built and Fisher–Yates shuffled by the picks; nothing face up, no pair, no move, not won |
| MemoryCards.MemoryCardsGame.InitializeGame | components/games/MemoryCardsGame.tsx:35-58 | the cards are the Fisher–Yates shuffle of the paired deck (a permutation of it, by DealtDeckFacts); face-up list, pairs, moves and the won flag cleared |
| MemoryCards.MemoryCardsGame.HandleCardClick | components/games/MemoryCardsGame.tsx:60-75 | no-op before start, after winning, on an unknown, face-up or matched card, or with two cards up; otherwise only that card turns face up, its id joins the list (never beyond 2), and the second card adds exactly 1 move |
| MemoryCards.MemoryCardsGame.ResolvePair | components/games/MemoryCardsGame.tsx:76-107 | equal symbols: both cards matched, one more pair, won iff all pairs found, score max(100 − moves, 10) from the moves the handler read; different symbols: both face down; either way the list empties |
| MemoryCards.MemoryCardsGame.StartGame | components/games/MemoryCardsGame.tsx:112-115 | started, with the deck rebuilt and reshuffled by the new picks and every counter cleared |
| MemoryCards.MemoryCardsGame.ResetGame | components/games/MemoryCardsGame.tsx:117-120 | stopped, with the deck rebuilt and reshuffled by the new picks and every counter cleared |
| Snake.Step | components/games/SnakeGame.tsx:50-65 | the new head is exactly one cell away, in the current direction |
| Snake.Steer | components/games/SnakeGame.tsx:98-115 | never the reverse of the current direction; an arrow key's direction otherwise; other keys keep the direction |
| Snake.GenerateFood | components/games/SnakeGame.tsx:34-43 | the first drawn cell not on the snake, which is on the board; no result exactly when every draw hits the snake |
| Snake.SnakeGame.constructor | components/games/SnakeGame.tsx:24-29 | snake [(10,10)], food (15,15), heading right, unstarted, score 0 |
| Snake.SnakeGame.MoveSnake | components/games/SnakeGame.tsx:45-93 | no-op unless running; leaving [0,20)² or hitting a segment ends the game with the snake unchanged; eating prepends the head (length + 1), adds and reports 10 and moves the food to the first draw off the new snake, or leaves it when every draw hits the snake; otherwise the head is prepended and the tail dropped; the snake stays distinct cells on the board with score 10 × growth |
| Snake.SnakeGame.HandleKeyPress | components/games/SnakeGame.tsx:95-116 | ignored unless running; otherwise the direction guard, never reversing |
| Snake.SnakeGame.StartGame | components/games/SnakeGame.tsx:118-125 | snake [(10,10)], food (15,15), heading right, running, not over, score 0 |
| Snake.SnakeGame.ResetGame | components/games/SnakeGame.tsx:127-131 | stopped, not over, score 0; snake, food and direction kept |
| GameBuilder.TrimNonEmptyIff | app/page.tsx:72 | the trimmed name is non-empty iff the name holds a non-whitespace character |
| GameBuilder.Without | app/page.tsx:101 | `filter`: exactly the other features remain, duplicate-free lists stay so |
| GameBuilder.ToggleFeature | app/page.tsx:97-104 | flips whether the feature is listed and leaves every other feature's membership unchanged |
| GameBuilder.ToggleTwice | app/page.tsx:100-102 | toggling twice restores every membership, and a list without the feature exactly |
| GameBuilder.WithoutAppended | app/page.tsx:100-102 | removing a feature that was just added to a list that lacked it gives back that list |
| GameBuilder.GameBuilder.constructor | app/page.tsx:33-44 | step 1, empty name, no template, no features |
| GameBuilder.GameBuilder.CanProceed | app/page.tsx:69-82 | step 1: iff the name has a visible character; step 2: iff a template is chosen; true at steps 3 and 4; false otherwise |
| GameBuilder.GameBuilder.HandleNext | app/page.tsx:53-57 | one step forward only below step 4; stays in [1,4] |
| GameBuilder.GameBuilder.HandleBack | app/page.tsx:59-63 | one step back only above step 1; stays in [1,4] |
| GameBuilder.GameBuilder.ClickNext | app/page.tsx:535-538 | advances iff below step 4 and `canProceed`, so step 2 is reached only with a visible name and step 3 only with a template |
| GameBuilder.GameBuilder.SetGameName | app/page.tsx:188 | the name becomes the input's value; nothing else changes |
| GameBuilder.GameBuilder.SelectTemplate | app/page.tsx:219 | the chosen template becomes the clicked id; nothing else changes |
| GameBuilder.GameBuilder.ToggleFeatureClick | app/page.tsx:360 | the feature list becomes its toggle and stays duplicate-free |

## Left out

- Rendering: JSX, colour and icon lookups (`getColorClass`, `getDifficultyColor`, `renderIcon`, `renderSymbol`) and the theme, colour-scheme, sound and power-up settings. They are presentation only.
- components/GameTemplateCard.tsx and components/GamePreview.tsx are not part of this model. One is static markup; the other dispatches to a game component and logs scores.
- Timers and effects are explicit steps rather than concurrency. The 100 ms delay between an adjacent swap and `removeMatches` (MatchThreeGame.tsx:192) is collapsed, so a click landing inside that window is not modelled.
- A reset while a cascade or a pair resolution is still pending is not modelled. React would still run the old timer against the new state; in the model a reset keeps `pending` and the lock state as they were.
- React batching, stale closures and aliasing are not modelled: the shallow row copies that mutate shared cell objects in match-three (MatchThreeGame.tsx:128, 184), and the captured `score`/`moves`. The model follows the sequential reading. Its one deliberate stale value is the pre-increment move count used by the memory and puzzle scores, because the handlers read the render's value before their own increment takes effect.
- `Math.random` and `Date.now` are parameters. The cascade refill takes a full size × size colour matrix, of which only the top rows of each column are used.
- `window.open` on publish (app/page.tsx:66) and the keyboard listener registration (SnakeGame.tsx:150-153) are I/O.
- Snake.GenerateFood: the source retries forever. The model reads a finite list of draws, so when every draw lands on the snake the food stays where it was, which can be under the new head.
- MatchThree.MatchThreeGame.HandleCellClick: clicks are taken on cells inside the grid. A rendered cell id always is, so no out-of-range path exists. Out-of-range indices are likewise excluded for the puzzle and tic-tac-toe clicks.
- MemoryCards.MemoryCardsGame.HandleCardClick: an unknown id is modelled as a no-op.
- Common.Dedup: does not state that the first occurrences keep their order. Only membership, no duplicates and the length bound are proved, which is all the score and the cascade use.
- GameBuilder.IsWhitespace: the set of stripped characters is the ECMAScript WhiteSpace and LineTerminator code points written out. Unicode category data is not consulted.
