# Bloom and Gem: session rules, level tables and screen decisions

A Dafny model of the in-session rules of the Bloom and Gem match-3 game. The
board is a grid of optional gems (`seq<seq<Option<Gem>>>`). Every rule is a
pure function over explicit records:

- **Engine transitions** (`GameEngine`, from `src/hooks/useGameEngine.ts`).
  Swapping two gems, the bomb (3×3 clear), the hammer (one cell) and the
  shuffle (new board). Each one is a function from a `GameState` to an
  `Outcome`. The outcome is `Ignored` for an early return, `Faulted` when a
  missing board row is indexed (the JavaScript lookup throws), or `Updated`
  with the new state and the cascade it schedules.
- **Level tables** (`LevelTable`, from `src/config/levels.ts`). The 100 level
  configurations, the six gem kinds and the seven-day reward calendar.
- **Page and component decisions.** These are `GamePage`, `GameBoardView`,
  `BoosterBar`, `DailyRewardView`, `LevelCompleteView`, `LevelSelectView` and
  `GameOverView`. They cover the daily-reward claim, the won/lost tests,
  booster arming, board-click dispatch, adjacency, disabled buttons, star
  ratings, unlock gating and hearts.

Some functions are used by the engine but their bodies are not in the engine
file: `findMatches`, `applyGravity`, `createBoard`, `startLevel` and
`selectGem`. They are the fields of a `Collaborators` value. The only
assumption about them is `ShapePreserving`: gravity keeps the board's shape,
and `createBoard(n, _)` is `n` by `n`. The engine's "processing" ref becomes
the `inFlight` field of `GameState`. The four transitions read this field
and never write it. The model assumes that only the cascade routine
`processMatchesAndCascade` sets it; that routine is not part of this model.
The delayed `processMatchesAndCascade(board, score, 0, level)` call is
returned as a `CascadeRequest` and is not run.

JavaScript arithmetic is written out in `JsMath`:
- `%` truncates toward zero (`Rem`);
- `Math.floor(a / n)` is `FloorDiv`;
- the 1.5× star threshold is the integer test `2 * score >= 3 * target`.

## Model

| member | source | states |
|---|---|---|
| GameTypes.AllGemTypes | src/types/game.ts:1 | There are exactly six gem kinds, each listed once, and every gem kind is among them |
| GameTypes.WithCount | src/types/game.ts:33-38 | Setting one booster counter changes that counter only; the other three keep their values |
| LevelTable.ConfigFor | src/hooks/useGameEngine.ts:40 | Levels 1..100 get their own table entry; any other level falls back to the first entry |
| LevelTable.Levels | src/config/levels.ts:4-26 | The table has 100 entries and entry i is level i+1, played on an 8×8 board |
| LevelTable.GemTypeList | src/config/levels.ts:29 | The gem-kind list is the six kinds of the gem type, each once |
| LevelTable.LevelEntries | src/config/levels.ts:4-26 | The table has 100 entries; entry i is level i+1; every level is 8×8 with 5 or 6 gem kinds, never more than the six defined |
| LevelTable.GeneratedLevelFormulas | src/config/levels.ts:18-25 | Levels 11..100 have moves = max(12, 18 − floor((n−11)/10)), so 12 ≤ moves ≤ 18, and target = 2000 + (n−10)·400 |
| LevelTable.NextLevelIsHarder | src/config/levels.ts:6-22 | Each level has a higher target than the one before and no more moves |
| LevelTable.LaterLevelsAreHarder | src/config/levels.ts:6-22 | Across the whole table the target strictly increases with the level and moves never increase |
| LevelTable.DailyRewardCalendar | src/config/levels.ts:53-61 | The calendar lists days 1..7 in order, and a later day pays strictly more gems |
| LevelTable.DailyRewards | src/config/levels.ts:53-61 | The calendar has seven entries; entry i is day i+1 and pays a positive number of gems |
| GameEngine.SwapCells | src/hooks/useGameEngine.ts:7-15 | The tentative swap changes only the two cells; each receives the other's gem with its row/col rewritten to the new cell |
| GameEngine.SwapGems | src/hooks/useGameEngine.ts:3-34 | Nothing happens while in flight, when not playing, or when a cell is empty; a missing row throws. With a match the swapped board is committed, one move is spent, the selection is cleared, the score is kept and a cascade starts from the old score. Without a match only the selection is cleared |
| GameEngine.SwapTwiceRestores | src/hooks/useGameEngine.ts:13-15 | If every gem records its own cell, swapping the same two cells again restores the board exactly |
| GameEngine.SwapKeepsConsistent | src/hooks/useGameEngine.ts:13-15 | After a swap, every gem still records the cell that holds it |
| GameEngine.Blast | src/hooks/useGameEngine.ts:43-50 | Before gravity, the bomb empties exactly the in-bounds cells within one row and one column of the target; shape and all other cells are kept |
| GameEngine.ClearBlastArea | src/hooks/useGameEngine.ts:43-50 | The engine's nested clearing loop computes exactly the board `Blast` describes |
| GameEngine.BlastIdempotent | src/hooks/useGameEngine.ts:43-50 | A second bomb at the same place clears nothing more |
| GameEngine.UseBomb | src/hooks/useGameEngine.ts:37-66 | Applies only when playing, not in flight and holding a bomb. Gravity runs on the blasted board, the score gains a flat 90, only the bomb counter drops by 1, moves and all other fields are kept, and a cascade starts from the new score |
| GameEngine.Smash | src/hooks/useGameEngine.ts:74-76 | Before gravity, the hammer empties the target cell and nothing else |
| GameEngine.UseHammer | src/hooks/useGameEngine.ts:68-92 | Applies only when playing, not in flight and holding a hammer; a missing row throws. Otherwise gravity runs on the smashed board, the score gains a flat 10 even if the cell was already empty, only the hammer counter drops by 1, and a cascade starts |
| GameEngine.HammerWithinBlast | src/hooks/useGameEngine.ts:74-76 | On a rectangular board, any cell the hammer empties would also be emptied by a bomb at the same target |
| GameEngine.ShuffleBoard | src/hooks/useGameEngine.ts:94-107 | Applies only when playing, not in flight and holding a shuffle. The board becomes a fresh board for the level's configuration (the first level's when the level is out of range), only the shuffle counter drops by 1, the score and moves are kept, and no cascade starts |
| GameEngine.StepInvariants | src/hooks/useGameEngine.ts:3-107 | One engine call keeps booster counters non-negative, never raises moves, never lowers the score, never changes the in-flight flag, and keeps an 8×8 board 8×8 |
| GameEngine.RunInvariants | src/hooks/useGameEngine.ts:3-107 | Over any sequence of swaps and boosters, counters never go negative, moves never increase, the score never decreases, and the board stays 8×8 |
| GameEngine.InFlightRunIsNoOp | src/hooks/useGameEngine.ts:3-107 | While a cascade is in flight, any sequence of engine calls leaves the state unchanged |
| GameEngine.StepSpendsAtMostOneBooster | src/hooks/useGameEngine.ts:3-107 | One engine call changes only its own booster counter, by 0 or −1; a swap leaves the whole inventory unchanged |
| GameBoardView.AdjacencyIsUnitDistance | src/components/game/GameBoard.tsx:21 | Two cells are adjacent iff their Manhattan distance is 1; adjacency is symmetric and irreflexive |
| GameBoardView.IsAdjacent | src/components/game/GameBoard.tsx:21 | Adjacent cells are distinct and at Manhattan distance exactly 1 |
| GameBoardView.HandleGemClick | src/components/game/GameBoard.tsx:16-30 | Exactly one callback fires. It is a swap from the selection iff a gem is selected and the clicked cell is adjacent to it; otherwise it is a click on the cell |
| GameBoardView.ClickCell | src/components/game/GameBoard.tsx:80-87 | A cell fires a callback iff it holds a gem; empty cells fire nothing |
| GameBoardView.SelectedCellIsUnique | src/components/game/GameBoard.tsx:78-87 | Counted over the rendered rows, exactly one cell is drawn selected when the selection is a cell holding a gem, and none otherwise (an empty cell draws no gem to highlight) |
| GameBoardView.ReclickingSelectionIsAClick | src/components/game/GameBoard.tsx:19-29 | Clicking the selected gem again reports a click, never a swap |
| BoosterBar.BoosterOrder | src/components/game/BoosterBar.tsx:15-20 | The bar lists the four boosters, each exactly once, left to right in the order bomb, hammer, shuffle, rainbow |
| BoosterBar.ClickBooster | src/components/game/BoosterBar.tsx:35-40 | A button passes its own id to the callback iff its count is positive; a disabled button passes nothing |
| BoosterBar.Highlights | src/components/game/BoosterBar.tsx:34 | A button is highlighted iff its id is the armed booster |
| BoosterBar.AtMostOneHighlight | src/components/game/BoosterBar.tsx:32-50 | Exactly one button is highlighted when a booster is armed, and none otherwise |
| DailyRewardView.SafeStreak | src/components/game/DailyReward.tsx:13 | The safe streak is at least 1; a positive streak is kept and zero or less reads as 1 |
| DailyRewardView.RewardIndex | src/components/game/DailyReward.tsx:14 | The offered index is always a calendar index; for a positive streak it is (streak−1) mod 7 |
| DailyRewardView.TodayReward | src/components/game/DailyReward.tsx:15 | The offered reward is a calendar entry; for a positive streak it is the entry of day (streak−1) mod 7 + 1, otherwise the first entry |
| DailyRewardView.DayLabel | src/components/game/DailyReward.tsx:70 | For a positive streak the label is (streak−1) mod 7 + 1, in 1..7; from the raw streak, a streak ≤ 0 gives a label in −5..1 |
| DailyRewardView.DayLabelNamesOffer | src/components/game/DailyReward.tsx:14-70 | For a positive streak the "day n of 7" label is in 1..7, equals the offered index + 1, and is the offered entry's day |
| DailyRewardView.Borders | src/components/game/DailyReward.tsx:104 | A week cell gets the today border iff its index is (streak−1) mod 7 (JavaScript remainder) |
| DailyRewardView.OneTodayBorder | src/components/game/DailyReward.tsx:85-105 | For a positive streak exactly one week cell has the today border: the labelled day's cell |
| DailyRewardView.CompletedCells | src/components/game/DailyReward.tsx:98 | Cell i is drawn completed iff i < streak mod 7, or the streak is a positive multiple of 7 |
| DailyRewardView.CellLookAsWritten | src/components/game/DailyReward.tsx:98-102 | As written, a cell looks completed iff it passes the completed test, and for a positive streak no cell ever looks like today |
| DailyRewardView.TodayCellDrawnCompleted | src/components/game/DailyReward.tsx:98-102 | As written, for a positive streak the completed cells are exactly the first DayLabel cells, so the current cell is drawn completed and no cell gets the today background |
| DailyRewardView.FirstDayCounterexample | src/components/game/DailyReward.tsx:98-102 | With streak 1 the first cell, which is today, is drawn completed |
| DailyRewardView.CellLookIntended | src/components/game/DailyReward.tsx:98-104 | Corrected, a cell looks like today iff it has the today border, and for a positive streak it looks completed iff it comes before the labelled day |
| DailyRewardView.IntendedWeekRow | src/components/game/DailyReward.tsx:98-104 | Corrected: for a positive streak, earlier days are completed, the labelled day is today and later days are upcoming |
| LevelCompleteView.Stars | src/components/game/LevelComplete.tsx:65 | The rating is 1..3: 3 iff score ≥ 2·target; 2 iff 2·score ≥ 3·target but score < 2·target; otherwise 1 |
| LevelCompleteView.StarsMonotone | src/components/game/LevelComplete.tsx:65 | For a fixed target, a higher score never earns fewer stars |
| LevelCompleteView.StarSlots | src/components/game/LevelComplete.tsx:190-199 | There are three star slots, and slot i is filled iff i < stars |
| LevelCompleteView.FilledStarsMatchRating | src/components/game/LevelComplete.tsx:190-199 | The number of filled slots equals the rating |
| LevelSelectView.DisplayLevels | src/components/game/LevelSelect.tsx:14 | The grid shows the first min(50, table size) configurations, in table order |
| LevelSelectView.DisplayedLevelNumbers | src/components/game/LevelSelect.tsx:14 | The grid shows levels 1..50 in order |
| LevelSelectView.ClickLevel | src/components/game/LevelSelect.tsx:92-98 | A level button passes its own level number iff that number is at most the unlocked level; a locked level passes nothing |
| LevelSelectView.UnlockedIsPrefix | src/components/game/LevelSelect.tsx:92 | If a shown level is unlocked, every shown level before it is too |
| GameOverView.Actions | src/components/game/GameOver.tsx:54-75 | Retry is offered iff lives > 0; the main menu is always offered |
| GameOverView.HeartSlots | src/components/game/GameOver.tsx:42-50 | There are five heart slots, and slot i is filled iff i < lives |
| GameOverView.FilledHearts | src/components/game/GameOver.tsx:42-50 | The number of filled hearts is min(max(lives, 0), 5) |
| GamePage.HandlePlay | src/pages/Game.tsx:46-49 | "Play" starts the highest unlocked level and shows the playing screen |
| GamePage.HandleSelectLevel | src/pages/Game.tsx:51-54 | Picking a level starts it and shows the playing screen |
| GamePage.HandleMainMenu | src/pages/Game.tsx:56-59 | Returning to the menu shows the menu and disarms any booster; the dialog flag is kept |
| GamePage.HandleNextLevel | src/pages/Game.tsx:200 | "Continue" after a win starts the next level |
| GamePage.HandleRetry | src/pages/Game.tsx:212 | "Retry" after a loss restarts the same level |
| GamePage.HandleOpenLevelSelect | src/pages/Game.tsx:122 | "Levels" on the menu opens the level grid and changes nothing else on the page |
| GamePage.HandlePause | src/pages/Game.tsx:162 | The pause button shows the pause dialog and changes nothing else on the page |
| GamePage.HandleResume | src/pages/Game.tsx:224 | "Continue" in the pause dialog returns to the board and changes nothing else on the page |
| GamePage.PauseResumeRestores | src/pages/Game.tsx:162-224 | Pausing and then resuming returns the page exactly as it was, armed booster included |
| GamePage.HandleBoosterSelect | src/pages/Game.tsx:61-67 | Shuffle is used at once and leaves the armed booster alone. Any other booster becomes armed iff it was not the armed one; otherwise nothing is armed. No other page field changes |
| GamePage.SelectTwiceRestores | src/pages/Game.tsx:65 | Choosing the same arming booster twice returns to the starting state when nothing, or that booster, was armed |
| GamePage.ShuffleNeverArmed | src/pages/Game.tsx:56-79 | No page handler ever arms the shuffle |
| GamePage.HandleBoardClick | src/pages/Game.tsx:69-79 | An armed bomb or hammer is used at the clicked cell and then disarmed, unless the engine call throws (see `GamePage.Settle`); otherwise the gem is selected and the armed booster stays |
| GamePage.Settle | src/pages/Game.tsx:46-79 | A handler makes its engine call before it touches the page, so an engine call that throws leaves both the page and the session as they were; otherwise the page takes the handler's update |
| GamePage.ArmedBoosterDisarmedUnlessThrow | src/pages/Game.tsx:69-76 | An armed bomb is always disarmed by a click; an armed hammer is disarmed unless the click's row is missing while the hammer applies, in which case `useHammer` throws and the hammer stays armed |
| GamePage.PressBooster | src/pages/Game.tsx:187-191 | A disabled bar button changes nothing and calls nothing; an enabled one is handled as a booster choice |
| GamePage.UsedUpBoosterDoesNothing | src/components/game/BoosterBar.tsx:40 | Pressing a booster with count ≤ 0 leaves both the page and the session unchanged |
| GamePage.ClickOnBoard | src/pages/Game.tsx:180-185 | Clicking an empty cell changes nothing and calls nothing |
| GamePage.AdjacentClickSwapsDespiteArmedBooster | src/pages/Game.tsx:180-185 | With a gem selected, clicking an adjacent gem always asks for a swap and keeps the armed booster, even a bomb or hammer |
| GamePage.ArmedBombClick | src/pages/Game.tsx:69-72 | With a bomb armed and no selection, clicking a gem fires the bomb there and disarms it. The session spends at most one bomb and no move |
| GamePage.BoardClicksNeverThrow | src/pages/Game.tsx:180-185 | A click through the board never makes the engine throw while the selection lies on an existing row, so, with no gem selected, an armed bomb or hammer clicked on a gem is always disarmed |
| GamePage.ClaimDay | src/pages/Game.tsx:82 | For a streak ≥ 0 the new streak day is streak mod 7 + 1, so it lies in 1..7; a negative streak gives a day in −5..1, which the calendar lacks except for 1 |
| GamePage.AddGrants | src/pages/Game.tsx:88-93 | Each booster counter rises by that reward's grant, or 0 if the reward does not list it |
| GamePage.ClaimDailyReward | src/pages/Game.tsx:81-99 | The claim succeeds iff the new day is a calendar day, which holds for every streak ≥ 0. It sets the streak to (streak mod 7)+1 and adds that day's gems and booster grants. Nothing else changes |
| GamePage.HandleClaimDailyReward | src/pages/Game.tsx:81-99 | The claim button always closes the dialog. The queued state update is the claim; it always succeeds from a streak ≥ 0, and when the day is not in the calendar it throws later, when applied, and not in the handler |
| GamePage.BrokenClaimStillClosesDialog | src/pages/Game.tsx:82-98 | With streak −1 the claim reads day 0, which is not in the calendar: the queued update throws, but the dialog is closed all the same |
| GamePage.ShownRewardIsClaimed | src/pages/Game.tsx:127-133 | For a streak ≥ 0 the dialog (opened with streak+1) offers the very entry the claim then pays |
| GamePage.ClaimAdvancesDay | src/pages/Game.tsx:82 | Claim after claim moves to the next calendar day, wrapping after day 7 |
| GamePage.ClaimPaysNextEntry | src/pages/Game.tsx:82-95 | From a streak ≥ 0, a claim pays calendar entry streak mod 7 and leaves the streak at the next index |
| GamePage.ClaimTimesPays | src/pages/Game.tsx:81-99 | From a streak ≥ 0, n claims in a row all succeed and pay the sum of the n calendar entries that follow |
| GamePage.FullWeekTotals | src/config/levels.ts:53-61 | Any seven calendar days in a row pay 485 gems, 9 bombs, 9 hammers, 5 shuffles and 3 rainbows |
| GamePage.WeekOfClaims | src/pages/Game.tsx:81-99 | A week of claims from any streak ≥ 0 adds exactly 485 gems and 9 bombs, 9 hammers, 5 shuffles and 3 rainbows |
| GamePage.LevelResultCases | src/pages/Game.tsx:107-108 | Won and lost never hold together. Neither holds while playing or with an empty board. Reaching the target wins even with no moves left. A stopped session below target with moves left shows neither screen |
| GamePage.EndOfLevelChoices | src/pages/Game.tsx:193-215 | After a win "Continue" starts level+1. After a loss "Retry" is offered exactly while lives > 0 and restarts the same level, and "Main Menu" is always offered |
| GamePage.GemsEarned | src/pages/Game.tsx:199 | Gems earned are floor(score/100): 100·g ≤ score < 100·g + 100, and never negative for a non-negative score |
| GamePage.IsLevelWon | src/pages/Game.tsx:107 | A won session is never also lost |
| GamePage.IsLevelLost | src/pages/Game.tsx:108 | A lost session has no moves left and a score below target |

## Left out

- `findMatches`, `applyGravity`, `createBoard`, `startLevel`, `selectGem` and `processMatchesAndCascade`: their bodies are not in the engine file. The first five are opaque `Collaborators` functions. The cascade is only requested, as a `CascadeRequest`, and never run. So combo scoring, gravity refill and match detection are not modelled.
- Render-time state and updater state are taken to be one state. The source reads the guard, the board and the cascade's starting score from the `gameState` captured when the handler was rendered (useGameEngine.ts:5-7, 28, 38-41, 64). It reads moves, score and counters from the `prev` argument of the `setGameState` updater (useGameEngine.ts:23, 57-58, 83-84, 103; Game.tsx:87-94). Each transition takes one `GameState` for both, so an update that lands between the render and the click is not modelled.
- `setTimeout` scheduling and the processing ref: the flag is the plain `inFlight` field, and the transitions never change it.
- `saveProgress` calls and the whole progress hook: persistence I/O.
- Authentication, the session check, logout, and the `localStorage` date comparison and write: network, storage and clock. The claim handler writes the date before it closes the dialog, whether or not its queued update will throw.
- GamePage.HandleClaimDailyReward: the queued update that throws is modelled as `None`. What React does with an error thrown at render time (an error boundary or a blank page) is not modelled.
- The optional `obstacles` count of a level configuration: no level sets it and nothing reads it.
- The daily-reward dialog's own open and close buttons and the settings button: they only set a flag or do nothing.
- `specialChance` and `cellSize`: floating point, with no decision logic in the core.
- `Math.random` particle and confetti layout, and all styling and animation.
- The PWA install hook, the install prompt, and the main menu, shop, header, gem, error-boundary and routing components: they hold no decision logic.
- GameEngine.UseBomb and GameEngine.ClearBlastArea: if a board row is shorter than the first row and the blast reaches past its end, JavaScript appends a `null` to that row. The model only clears cells that exist (the loop's `col < |nb[r]|` guard), so it matches the source only on rectangular boards. Boards stay rectangular only under the `ShapePreserving` assumption about `createBoard` and `applyGravity`, whose bodies are not part of this model.
- LevelCompleteView.Stars: the 1.5× threshold is compared in exact integers. The source compares `score >= targetScore * 1.5` in floating point. The two agree while |3·target| ≤ 2^53 (for example, any target below 2^51), because then `targetScore * 1.5` is exact. Beyond that the product is rounded: with target 2^52 − 1 and score 6755399441055742 the source gives 2 stars and the model 1.
- GamePage.ClickOnBoard: its contract covers only the empty-cell case. The click paths for gem cells are stated by `GameBoardView.HandleGemClick`, `GamePage.HandleBoardClick`, `GamePage.AdjacentClickSwapsDespiteArmedBooster` and `GamePage.ArmedBombClick`.
- Positions and counters are mathematical integers. Non-integer or `NaN` numbers cannot occur in the model, so the source's handling of them (for example, `streak || 1` for `NaN`) is not modelled.

## Findings

| source | as written | input that shows it | evidently intended | confidence | as-written member | corrected member |
|---|---|---|---|---|---|---|
| src/components/game/DailyReward.tsx:98-102 | The week cell's background tests "completed" (`i < streak % 7`, or a positive multiple of 7) before "today" (`i === (streak − 1) % 7`). For every positive streak the today cell passes the completed test, so the orange today background is never drawn | streak = 1: cell 0 is today (it has the gold border) but is drawn with the completed background | Test today first: earlier days completed, the current day orange, later days grey | medium, not executed | DailyRewardView.CellLookAsWritten (shown by DailyRewardView.TodayCellDrawnCompleted and DailyRewardView.FirstDayCounterexample) | DailyRewardView.CellLookIntended (proved by DailyRewardView.IntendedWeekRow) |
