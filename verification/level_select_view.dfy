/** The level-select screen: the first fifty levels, of which those up to
    the unlocked level can be opened. */
module LevelSelectView {
  import opened Wrappers
  import opened JsMath
  import opened GameTypes
  import opened LevelTable

  /** Number of levels the grid shows at most. */
  const ShownLevels := 50

  /** `LEVELS.slice(0, 50)`. */
  function DisplayLevels(): (r: seq<LevelConfig>)
    ensures |r| == Min(ShownLevels, |Levels()|)
    ensures forall i :: 0 <= i < |r| ==> r[i] == Levels()[i]
  {
    Levels()[..Min(ShownLevels, |Levels()|)]
  }

  /** The grid shows levels 1 to 50, in order. */
  lemma DisplayedLevelNumbers()
    ensures |DisplayLevels()| == 50
    ensures forall i :: 0 <= i < |DisplayLevels()| ==> DisplayLevels()[i].level == i + 1
  {
  }

  predicate IsUnlocked(config: LevelConfig, unlockedLevels: int) {
    config.level <= unlockedLevels
  }

  /** Clicking a level button: the level number passed to `onSelectLevel`,
      or nothing for a locked level. */
  function ClickLevel(config: LevelConfig, unlockedLevels: int): (selected: Option<int>)
    ensures selected.Some? <==> config.level <= unlockedLevels
    ensures selected.Some? ==> selected.value == config.level
  {
    if IsUnlocked(config, unlockedLevels) then Some(config.level) else None
  }

  /** The unlocked buttons form a prefix of the grid: if a shown level is
      unlocked, so is every shown level before it. */
  lemma UnlockedIsPrefix(unlockedLevels: int, i: int, j: int)
    requires 0 <= i <= j < |DisplayLevels()|
    requires IsUnlocked(DisplayLevels()[j], unlockedLevels)
    ensures IsUnlocked(DisplayLevels()[i], unlockedLevels)
  {
  }
}
