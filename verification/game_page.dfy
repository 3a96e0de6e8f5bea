/** The game page: its screen and booster selection, the handlers that
    turn clicks into engine calls, the daily-reward claim, and the
    won/lost tests that decide which end-of-level screen is shown. */
module GamePage {
  import opened Wrappers
  import opened JsMath
  import opened GameTypes
  import opened Grid
  import opened LevelTable
  import opened GameEngine
  import GameBoardView
  import BoosterBar
  import DailyRewardView
  import GameOverView

  datatype Screen = MenuScreen | LevelSelectScreen | PlayingScreen | PausedScreen

  /** The page's own state (the signed-in user's address is not modelled). */
  datatype Ui = Ui(screen: Screen, activeBooster: Option<BoosterKind>, showDailyReward: bool)

  /** The engine function a handler invokes, if any. */
  datatype EngineCall =
    | NoCall
    | CallStart(level: int)
    | CallSelect(pos: Position)
    | CallSwap(p1: Position, p2: Position)
    | CallBomb(pos: Position)
    | CallHammer(pos: Position)
    | CallShuffle

  /** A handler's effect: the new page state and the engine call made. */
  datatype Reaction = Reaction(ui: Ui, call: EngineCall)

  /** Runs an engine call: the four modelled transitions, or the opaque
      level start and gem selection. */
  function Perform(c: Collaborators, s: GameState, call: EngineCall): Outcome {
    match call
    case NoCall => Ignored
    case CallStart(level) => Updated(c.startLevel(s, level), None)
    case CallSelect(pos) => Updated(c.selectGem(s, pos), None)
    case CallSwap(p1, p2) => GameEngine.SwapGems(c, s, p1, p2)
    case CallBomb(pos) => GameEngine.UseBomb(c, s, pos)
    case CallHammer(pos) => GameEngine.UseHammer(c, s, pos)
    case CallShuffle => GameEngine.ShuffleBoard(c, s)
  }

  /** A handler run to completion: its engine call, then the page updates
      it makes after that call. Every handler here makes its one engine call
      before it touches the page, so a call that throws ends the handler
      there: the page keeps its state and so does the session. */
  function Settle(c: Collaborators, s: GameState, ui: Ui, r: Reaction): (res: (GameState, Ui))
    ensures res.0 == After(s, Perform(c, s, r.call))
    ensures Perform(c, s, r.call).Faulted? ==> res == (s, ui)
    ensures !Perform(c, s, r.call).Faulted? ==> res.1 == r.ui
  {
    var o := Perform(c, s, r.call);
    if o.Faulted? then (s, ui) else (After(s, o), r.ui)
  }

  // ------------------------------------------------------------ navigation

  /** "Play": start the highest unlocked level. */
  function HandlePlay(s: GameState, ui: Ui): (r: Reaction)
    ensures r.call == CallStart(s.unlockedLevels)
    ensures r.ui == ui.(screen := PlayingScreen)
  {
    Reaction(ui.(screen := PlayingScreen), CallStart(s.unlockedLevels))
  }

  /** Picking a level (also "next level" and "retry"): start it. */
  function HandleSelectLevel(ui: Ui, level: int): (r: Reaction)
    ensures r.call == CallStart(level)
    ensures r.ui == ui.(screen := PlayingScreen)
  {
    Reaction(ui.(screen := PlayingScreen), CallStart(level))
  }

  /** Back to the main menu: the menu screen, with no booster armed. */
  function HandleMainMenu(ui: Ui): (r: Ui)
    ensures r.screen == MenuScreen && r.activeBooster.None?
    ensures r.showDailyReward == ui.showDailyReward
  {
    ui.(screen := MenuScreen, activeBooster := None)
  }

  /** "Continue" on the level-complete screen starts the next level. */
  function HandleNextLevel(s: GameState, ui: Ui): (r: Reaction)
    ensures r.call == CallStart(s.level + 1)
  {
    HandleSelectLevel(ui, s.level + 1)
  }

  /** "Retry" on the game-over screen restarts the same level. */
  function HandleRetry(s: GameState, ui: Ui): (r: Reaction)
    ensures r.call == CallStart(s.level)
  {
    HandleSelectLevel(ui, s.level)
  }

  /** "Levels" on the main menu opens the level grid. */
  function HandleOpenLevelSelect(ui: Ui): (r: Ui)
    ensures r.screen == LevelSelectScreen
    ensures r.(screen := ui.screen) == ui
  {
    ui.(screen := LevelSelectScreen)
  }

  /** The pause button over the board. */
  function HandlePause(ui: Ui): (r: Ui)
    ensures r.screen == PausedScreen
    ensures r.(screen := ui.screen) == ui
  {
    ui.(screen := PausedScreen)
  }

  /** "Continue" in the pause dialog. */
  function HandleResume(ui: Ui): (r: Ui)
    ensures r.screen == PlayingScreen
    ensures r.(screen := ui.screen) == ui
  {
    ui.(screen := PlayingScreen)
  }

  /** Pausing and resuming a game returns the page exactly as it was: the
      armed booster and the dialog flag survive the pause. */
  lemma PauseResumeRestores(ui: Ui)
    requires ui.screen == PlayingScreen
    ensures HandleResume(HandlePause(ui)) == ui
    ensures HandlePause(ui).activeBooster == ui.activeBooster
  {
  }

  // -------------------------------------------------------------- boosters

  /** A booster chosen in the bar: the shuffle is used at once and leaves
      the armed booster alone; any other booster is armed, or disarmed when
      it was the armed one. */
  function HandleBoosterSelect(ui: Ui, k: BoosterKind): (r: Reaction)
    ensures k == Shuffle ==> r == Reaction(ui, CallShuffle)
    ensures k != Shuffle ==> r.call == NoCall && r.ui.(activeBooster := ui.activeBooster) == ui
    ensures k != Shuffle ==> (r.ui.activeBooster == Some(k) <==> ui.activeBooster != Some(k))
    ensures k != Shuffle ==> r.ui.activeBooster.None? || r.ui.activeBooster == Some(k)
  {
    if k == Shuffle then Reaction(ui, CallShuffle)
    else Reaction(ui.(activeBooster := if ui.activeBooster == Some(k) then None else Some(k)), NoCall)
  }

  /** Choosing the same arming booster twice restores the bar when it was
      either unarmed or armed with that booster. */
  lemma SelectTwiceRestores(ui: Ui, k: BoosterKind)
    requires k != Shuffle
    requires ui.activeBooster.None? || ui.activeBooster == Some(k)
    ensures HandleBoosterSelect(HandleBoosterSelect(ui, k).ui, k).ui == ui
  {
  }

  /** A click on a board gem that reached the page: an armed bomb or hammer
      is used at that cell and then disarmed (also when the engine refuses
      the call, but not when it throws: see `Settle`); otherwise the gem is
      selected and the armed booster stays. */
  function HandleBoardClick(ui: Ui, pos: Position): (r: Reaction)
    ensures ui.activeBooster == Some(Bomb) ==> r == Reaction(ui.(activeBooster := None), CallBomb(pos))
    ensures ui.activeBooster == Some(Hammer) ==> r == Reaction(ui.(activeBooster := None), CallHammer(pos))
    ensures ui.activeBooster != Some(Bomb) && ui.activeBooster != Some(Hammer) ==>
      r == Reaction(ui, CallSelect(pos))
  {
    if ui.activeBooster == Some(Bomb) then Reaction(ui.(activeBooster := None), CallBomb(pos))
    else if ui.activeBooster == Some(Hammer) then Reaction(ui.(activeBooster := None), CallHammer(pos))
    else Reaction(ui, CallSelect(pos))
  }

  /** Run to completion, a click with the bomb or hammer armed disarms it
      unless the engine call throws, which only the hammer does, on a
      missing row; then the page, hammer still armed, and the session stay
      as they were. */
  lemma ArmedBoosterDisarmedUnlessThrow(c: Collaborators, s: GameState, ui: Ui, pos: Position)
    requires ui.activeBooster == Some(Bomb) || ui.activeBooster == Some(Hammer)
    ensures var throws := ui.activeBooster == Some(Hammer) && s.isPlaying && s.boosters.hammer > 0
                          && !s.inFlight && !RowExists(s.board, pos.row);
      var res := Settle(c, s, ui, HandleBoardClick(ui, pos));
      && (res.1.activeBooster.None? <==> !throws)
      && (throws ==> res == (s, ui))
  {
  }

  /** No handler ever arms the shuffle: it is used at once instead. */
  lemma ShuffleNeverArmed(ui: Ui, k: BoosterKind, pos: Position)
    requires ui.activeBooster != Some(Shuffle)
    ensures HandleBoosterSelect(ui, k).ui.activeBooster != Some(Shuffle)
    ensures HandleBoardClick(ui, pos).ui.activeBooster != Some(Shuffle)
    ensures HandleMainMenu(ui).activeBooster != Some(Shuffle)
  {
  }

  /** Pressing a button of the booster bar. */
  function PressBooster(s: GameState, ui: Ui, k: BoosterKind): (r: Reaction)
    ensures BoosterBar.IsDisabled(s.boosters, k) ==> r == Reaction(ui, NoCall)
    ensures !BoosterBar.IsDisabled(s.boosters, k) ==> r == HandleBoosterSelect(ui, k)
  {
    match BoosterBar.ClickBooster(s.boosters, k)
    case None => Reaction(ui, NoCall)
    case Some(id) => HandleBoosterSelect(ui, id)
  }

  /** A used-up booster's button changes neither the page nor the session. */
  lemma UsedUpBoosterDoesNothing(c: Collaborators, s: GameState, ui: Ui, k: BoosterKind)
    requires Count(s.boosters, k) <= 0
    ensures PressBooster(s, ui, k).ui == ui
    ensures After(s, Perform(c, s, PressBooster(s, ui, k).call)) == s
  {
  }

  /** A click on cell (row, col) of the board, through the board component
      (swap or click) and then the page (bomb, hammer or select). */
  function ClickOnBoard(s: GameState, ui: Ui, row: int, col: int): (r: Reaction)
    ensures CellAt(s.board, row, col).None? ==> r == Reaction(ui, NoCall)
  {
    match GameBoardView.ClickCell(s.board, s.selectedGem, row, col)
    case None => Reaction(ui, NoCall)
    case Some(GemSwap(p1, p2)) => Reaction(ui, CallSwap(p1, p2))
    case Some(GemClick(p)) => HandleBoardClick(ui, p)
  }

  /** With a gem selected, clicking a gem next to it always asks for a swap
      and keeps the armed booster armed: the bomb or hammer is not used. */
  lemma AdjacentClickSwapsDespiteArmedBooster(s: GameState, ui: Ui, row: int, col: int)
    requires s.selectedGem.Some?
    requires GameBoardView.IsAdjacent(s.selectedGem.value, Position(row, col))
    requires CellAt(s.board, row, col).Some?
    ensures ClickOnBoard(s, ui, row, col) == Reaction(ui, CallSwap(s.selectedGem.value, Position(row, col)))
  {
  }

  /** With a bomb armed and no gem selected, a click on a gem uses the bomb
      there and disarms it; the session then spends at most that one bomb
      and makes no move. */
  lemma ArmedBombClick(c: Collaborators, s: GameState, ui: Ui, row: int, col: int)
    requires s.selectedGem.None?
    requires ui.activeBooster == Some(Bomb)
    requires CellAt(s.board, row, col).Some?
    ensures ClickOnBoard(s, ui, row, col) == Reaction(ui.(activeBooster := None), CallBomb(Position(row, col)))
    ensures var t := After(s, Perform(c, s, CallBomb(Position(row, col))));
      && t.moves == s.moves
      && (t.boosters.bomb == s.boosters.bomb || t.boosters.bomb == s.boosters.bomb - 1)
  {
  }

  /** A click that reaches a gem never makes the engine throw, provided
      the selection (if any) lies on an existing row: so, with no gem
      selected, an armed bomb or hammer clicked on a gem is always disarmed
      (with a gem selected, an adjacent click swaps and the booster stays
      armed). */
  lemma BoardClicksNeverThrow(c: Collaborators, s: GameState, ui: Ui, row: int, col: int)
    requires s.selectedGem.None? || RowExists(s.board, s.selectedGem.value.row)
    ensures !Perform(c, s, ClickOnBoard(s, ui, row, col).call).Faulted?
    ensures CellAt(s.board, row, col).Some? && s.selectedGem.None? && ui.activeBooster.Some?
            && ui.activeBooster.value in {Bomb, Hammer} ==>
      Settle(c, s, ui, ClickOnBoard(s, ui, row, col)).1.activeBooster.None?
  {
  }

  // ------------------------------------------------------------ daily reward

  /** The streak day the next claim reaches: `(streak % 7) + 1` with
      JavaScript's remainder. */
  function ClaimDay(streak: int): (day: int)
    ensures streak >= 0 ==> 1 <= day <= 7
    ensures streak >= 0 ==> day == streak % 7 + 1
    ensures streak < 0 ==> -5 <= day <= 1
  {
    Rem(streak, 7) + 1
  }

  /** The inventory after a reward: each counter raised by that booster's
      grant (0 when the reward does not list it). */
  function AddGrants(b: Boosters, e: DailyRewardEntry): (r: Boosters)
    ensures forall k :: Count(r, k) == Count(b, k) + Grant(e, k)
  {
    Boosters(b.bomb + Grant(e, Bomb), b.hammer + Grant(e, Hammer),
             b.shuffle + Grant(e, Shuffle), b.rainbow + Grant(e, Rainbow))
  }

  /** Claiming the daily reward. The calendar entry is the one of the new
      streak day; when that day is not in the calendar (a negative streak
      that is not a multiple of 7) the lookup throws and nothing changes. */
  function ClaimDailyReward(s: GameState): (r: Option<GameState>)
    ensures r.Some? <==> 0 <= ClaimDay(s.streak) - 1 < 7
    ensures s.streak >= 0 ==> r.Some?
    ensures r.Some? ==> r.value.streak == ClaimDay(s.streak) && 1 <= r.value.streak <= 7
    ensures r.Some? ==>
      var e := DailyRewards()[r.value.streak - 1];
      && r.value.gems == s.gems + e.gems
      && (forall k :: Count(r.value.boosters, k) == Count(s.boosters, k) + Grant(e, k))
      && r.value.(gems := s.gems, boosters := s.boosters, streak := s.streak) == s
  {
    var day := ClaimDay(s.streak);
    if 0 <= day - 1 < |DailyRewards()| then
      var e := DailyRewards()[day - 1];
      Some(s.(gems := s.gems + e.gems, boosters := AddGrants(s.boosters, e), streak := day))
    else None
  }

  /** The claim button. The calendar entry is looked up when the handler
      runs but read only inside the queued state update, so an entry past
      the calendar does not stop the handler: the dialog closes in every
      case, and the queued update (`None` here) is the one that throws, when
      it is applied at the next render. */
  function HandleClaimDailyReward(s: GameState, ui: Ui): (r: (Option<GameState>, Ui))
    ensures r.1 == ui.(showDailyReward := false)
    ensures r.0 == ClaimDailyReward(s)
    ensures s.streak >= 0 ==> r.0.Some? && r.0.value.streak == ClaimDay(s.streak)
  {
    (ClaimDailyReward(s), ui.(showDailyReward := false))
  }

  /** A streak of -1 makes the claim read day 0, which the calendar lacks:
      the update throws, yet the dialog is closed all the same. */
  lemma BrokenClaimStillClosesDialog(s: GameState, ui: Ui)
    requires s.streak == -1
    ensures HandleClaimDailyReward(s, ui).0.None?
    ensures !HandleClaimDailyReward(s, ui).1.showDailyReward
  {
  }

  /** The dialog is opened with `streak + 1`; for a non-negative streak the
      reward it shows is the reward the claim then pays. */
  lemma ShownRewardIsClaimed(s: GameState)
    requires s.streak >= 0
    ensures DailyRewardView.TodayReward(s.streak + 1) == DailyRewards()[ClaimDailyReward(s).value.streak - 1]
  {
  }

  /** Each claim moves on to the next calendar day, wrapping after day 7. */
  lemma ClaimAdvancesDay(s: GameState)
    requires s.streak >= 0
    ensures var t := ClaimDailyReward(s).value;
      ClaimDailyReward(t).Some? && ClaimDailyReward(t).value.streak - 1 == t.streak % 7
  {
  }

  /** `n` claims in a row, or nothing if one of them throws. */
  function ClaimTimes(s: GameState, n: nat): Option<GameState>
    decreases n
  {
    if n == 0 then Some(s)
    else match ClaimDailyReward(s)
      case None => None
      case Some(t) => ClaimTimes(t, n - 1)
  }

  /** Gems paid by `n` claims whose first pays calendar index `d`. */
  function GemsOver(d: nat, n: nat): int
    requires d < 7
    decreases n
  {
    if n == 0 then 0 else DailyRewards()[d].gems + GemsOver((d + 1) % 7, n - 1)
  }

  /** Units of booster `k` granted by `n` claims whose first pays calendar
      index `d`. */
  function GrantsOver(d: nat, n: nat, k: BoosterKind): int
    requires d < 7
    decreases n
  {
    if n == 0 then 0 else Grant(DailyRewards()[d], k) + GrantsOver((d + 1) % 7, n - 1, k)
  }

  /** One claim from a non-negative streak pays calendar index
      `streak % 7` and moves the streak to the following index. */
  lemma ClaimPaysNextEntry(s: GameState)
    requires s.streak >= 0
    ensures ClaimDailyReward(s).Some?
    ensures var t := ClaimDailyReward(s).value;
      var e := DailyRewards()[s.streak % 7];
      && t.streak >= 0
      && t.streak % 7 == (s.streak % 7 + 1) % 7
      && t.gems == s.gems + e.gems
      && t.boosters == AddGrants(s.boosters, e)
  {
  }

  /** From a non-negative streak, `n` claims all succeed and pay the sums of
      the `n` calendar entries that follow the streak, in order. */
  lemma {:induction false} ClaimTimesPays(s: GameState, n: nat)
    requires s.streak >= 0
    ensures ClaimTimes(s, n).Some?
    ensures var t := ClaimTimes(s, n).value;
      var d := s.streak % 7;
      && t.gems == s.gems + GemsOver(d, n)
      && t.boosters.bomb == s.boosters.bomb + GrantsOver(d, n, Bomb)
      && t.boosters.hammer == s.boosters.hammer + GrantsOver(d, n, Hammer)
      && t.boosters.shuffle == s.boosters.shuffle + GrantsOver(d, n, Shuffle)
      && t.boosters.rainbow == s.boosters.rainbow + GrantsOver(d, n, Rainbow)
    decreases n
  {
    if n > 0 {
      ClaimPaysNextEntry(s);
      var t := ClaimDailyReward(s).value;
      assert ClaimTimes(s, n) == ClaimTimes(t, n - 1);
      ClaimTimesPays(t, n - 1);
    }
  }

  /** Days in the reward calendar's cycle. */
  function WeekLength(): nat {
    |DailyRewards()|
  }

  /** Any seven calendar days in a row pay 485 gems, 9 bombs, 9 hammers,
      5 shuffles and 3 rainbows. */
  lemma FullWeekTotals(d: nat)
    requires d < 7
    ensures GemsOver(d, WeekLength()) == 485
    ensures GrantsOver(d, WeekLength(), Bomb) == 9 && GrantsOver(d, WeekLength(), Hammer) == 9
    ensures GrantsOver(d, WeekLength(), Shuffle) == 5 && GrantsOver(d, WeekLength(), Rainbow) == 3
  {
    if d == 0 {
    } else if d == 1 {
    } else if d == 2 {
    } else if d == 3 {
    } else if d == 4 {
    } else if d == 5 {
    } else {
    }
  }

  /** A full week of claims, whatever day the streak is on, pays 485 gems
      and 9 bombs, 9 hammers, 5 shuffles and 3 rainbows. */
  lemma WeekOfClaims(s: GameState)
    requires s.streak >= 0
    ensures ClaimTimes(s, WeekLength()).Some?
    ensures ClaimTimes(s, WeekLength()).value.gems == s.gems + 485
    ensures ClaimTimes(s, WeekLength()).value.boosters ==
      Boosters(s.boosters.bomb + 9, s.boosters.hammer + 9, s.boosters.shuffle + 5, s.boosters.rainbow + 3)
  {
    ClaimTimesPays(s, WeekLength());
    FullWeekTotals(s.streak % 7);
  }

  // ------------------------------------------------------------ level result

  /** The level-complete screen is shown. */
  predicate IsLevelWon(s: GameState)
    ensures IsLevelWon(s) ==> !IsLevelLost(s)
  {
    !s.isPlaying && s.score >= s.targetScore && |s.board| > 0
  }

  /** The game-over screen is shown. */
  predicate IsLevelLost(s: GameState)
    ensures IsLevelLost(s) ==> s.moves <= 0 && s.score < s.targetScore
  {
    !s.isPlaying && s.score < s.targetScore && s.moves <= 0 && |s.board| > 0
  }

  /** Won and lost never hold together; neither holds while playing or
      before a board exists; reaching the target wins even with no moves
      left; and a stopped session below target with moves to spare shows
      neither screen. */
  lemma LevelResultCases(s: GameState)
    ensures !(IsLevelWon(s) && IsLevelLost(s))
    ensures s.isPlaying || |s.board| == 0 ==> !IsLevelWon(s) && !IsLevelLost(s)
    ensures !s.isPlaying && |s.board| > 0 ==>
      (IsLevelWon(s) <==> s.score >= s.targetScore) &&
      (IsLevelLost(s) <==> s.score < s.targetScore && s.moves <= 0)
    ensures !s.isPlaying && |s.board| > 0 && s.score < s.targetScore && s.moves > 0 ==>
      !IsLevelWon(s) && !IsLevelLost(s)
  {
  }

  /** The end-of-level screens: after a win "Continue" starts the next
      level; after a loss retry is offered exactly while lives remain and
      restarts the same level, and the menu is always offered. */
  lemma EndOfLevelChoices(s: GameState, ui: Ui)
    ensures IsLevelWon(s) ==> HandleNextLevel(s, ui) == Reaction(ui.(screen := PlayingScreen), CallStart(s.level + 1))
    ensures IsLevelLost(s) ==>
      && (GameOverView.Retry in GameOverView.Actions(s.lives) <==> s.lives > 0)
      && GameOverView.MainMenu in GameOverView.Actions(s.lives)
      && HandleRetry(s, ui) == Reaction(ui.(screen := PlayingScreen), CallStart(s.level))
  {
  }

  /** Gems shown as earned on the level-complete screen: `floor(score / 100)`. */
  function GemsEarned(score: int): (g: int)
    ensures 100 * g <= score < 100 * g + 100
    ensures score >= 0 ==> g >= 0
  {
    FloorDiv(score, 100)
  }
}
