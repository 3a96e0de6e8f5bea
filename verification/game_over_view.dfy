/** The game-over screen: five heart slots for the remaining lives, a retry
    action only while lives remain, and the main-menu action always. */
module GameOverView {
  import opened JsMath
  import opened Counting

  /** Number of heart slots drawn. */
  const HeartCount := 5

  datatype GameOverAction = Retry | MainMenu

  /** The actions the screen offers. */
  function Actions(lives: int): (r: set<GameOverAction>)
    ensures MainMenu in r
    ensures Retry in r <==> lives > 0
  {
    if lives > 0 then {Retry, MainMenu} else {MainMenu}
  }

  /** The heart slots; slot `i` is filled iff `i < lives`. */
  function HeartSlots(lives: int): (slots: seq<bool>)
    ensures |slots| == HeartCount
    ensures forall i :: 0 <= i < HeartCount ==> (slots[i] <==> i < lives)
  {
    Below(HeartCount, lives)
  }

  /** The number of filled hearts is the number of lives, clamped to 0..5. */
  lemma FilledHearts(lives: int)
    ensures CountTrue(HeartSlots(lives)) == Min(Max(lives, 0), HeartCount)
  {
    CountBelow(HeartCount, lives);
  }
}
