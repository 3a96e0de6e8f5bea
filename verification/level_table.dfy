/** The static configuration tables: the 100 levels (ten written out, ninety
    generated by formula), the six gem kinds in play order, and the seven-day
    reward calendar. */
module LevelTable {
  import opened GameTypes
  import opened JsMath

  /** Number of entries of the level table. */
  const LevelCount := 100

  /** Levels 1 to 10, written out. */
  function ExplicitLevels(): seq<LevelConfig> {
    [ LevelConfig(1, 8, 35, 300, 5),
      LevelConfig(2, 8, 33, 400, 5),
      LevelConfig(3, 8, 32, 500, 5),
      LevelConfig(4, 8, 30, 600, 6),
      LevelConfig(5, 8, 28, 800, 6),
      LevelConfig(6, 8, 26, 1000, 6),
      LevelConfig(7, 8, 24, 1200, 6),
      LevelConfig(8, 8, 22, 1500, 6),
      LevelConfig(9, 8, 20, 1800, 6),
      LevelConfig(10, 8, 18, 2000, 6) ]
  }

  /** The `i`-th generated entry (`i` counts from 0, so it is level `i + 11`). */
  function GeneratedLevel(i: nat): LevelConfig {
    LevelConfig(i + 11, 8, Max(12, 18 - FloorDiv(i, 10)), 2000 + (i + 1) * 400, 6)
  }

  /** The whole level table, in level order. */
  function Levels(): (r: seq<LevelConfig>)
    ensures |r| == LevelCount
    ensures forall i :: 0 <= i < |r| ==> r[i].level == i + 1 && r[i].gridSize == 8
  {
    ExplicitLevels() + seq(90, i requires 0 <= i => GeneratedLevel(i))
  }

  /** The configuration the engine plays for `level`: the table entry of that
      level, or the first entry when the level is outside the table. */
  function ConfigFor(level: int): (c: LevelConfig)
    ensures 1 <= level <= LevelCount ==> c == Levels()[level - 1]
    ensures !(1 <= level <= LevelCount) ==> c == Levels()[0]
  {
    if 0 <= level - 1 < |Levels()| then Levels()[level - 1] else Levels()[0]
  }

  /** The gem kinds, in the order the game lists them. (Which of them a
      level with `gemTypes` kinds draws is decided by `createBoard` and
      `applyGravity`, which are not part of this model.) */
  function GemTypeList(): (r: seq<GemType>)
    ensures r == AllGemTypes()
  {
    [Leaf, Cherry, Tulip, Sunflower, Hibiscus, Daisy]
  }

  /** One day of the reward calendar; `grants` maps a booster to the number
      of units given (a booster absent from the map is given 0). */
  datatype DailyRewardEntry = DailyRewardEntry(day: int, gems: int, grants: map<BoosterKind, int>)

  /** Units of booster `k` that a reward grants (`reward.boosters[k] || 0`). */
  function Grant(e: DailyRewardEntry, k: BoosterKind): int {
    if k in e.grants then e.grants[k] else 0
  }

  /** The seven-day reward calendar, one entry per streak day. */
  function DailyRewards(): (r: seq<DailyRewardEntry>)
    ensures |r| == 7
    ensures forall i :: 0 <= i < |r| ==> r[i].day == i + 1 && r[i].gems > 0
  {
    [ DailyRewardEntry(1, 10, map[Bomb := 1]),
      DailyRewardEntry(2, 20, map[Hammer := 2]),
      DailyRewardEntry(3, 30, map[Shuffle := 2]),
      DailyRewardEntry(4, 50, map[Bomb := 2, Hammer := 1]),
      DailyRewardEntry(5, 75, map[Rainbow := 1]),
      DailyRewardEntry(6, 100, map[Bomb := 3, Hammer := 3]),
      DailyRewardEntry(7, 200, map[Rainbow := 2, Bomb := 3, Hammer := 3, Shuffle := 3]) ]
  }

  /** Entry `i` of the table is level `i + 1`; every level is played on an
      8 by 8 board with five or six of the six gem kinds. */
  lemma LevelEntries()
    ensures forall i :: 0 <= i < |Levels()| ==>
      && Levels()[i].level == i + 1
      && Levels()[i].gridSize == 8
      && 5 <= Levels()[i].gemTypes <= 6
      && Levels()[i].gemTypes <= |GemTypeList()|
  {
  }

  /** Generated level `n` (11 to 100) has moves `max(12, 18 - floor((n - 11) / 10))`,
      which lies between 12 and 18, and target `2000 + (n - 10) * 400`. */
  lemma GeneratedLevelFormulas(n: int)
    requires 11 <= n <= LevelCount
    ensures Levels()[n - 1].moves == Max(12, 18 - FloorDiv(n - 11, 10))
    ensures 12 <= Levels()[n - 1].moves <= 18
    ensures Levels()[n - 1].targetScore == 2000 + (n - 10) * 400
  {
  }

  /** The target of table entry `i`. */
  function TargetAt(i: nat): int
    requires i < LevelCount
  {
    Levels()[i].targetScore
  }

  /** The move budget of table entry `i`. */
  function MovesAt(i: nat): int
    requires i < LevelCount
  {
    Levels()[i].moves
  }

  /** Consecutive levels: the target rises and the move budget does not. */
  lemma NextLevelIsHarder(i: nat)
    requires i + 1 < LevelCount
    ensures TargetAt(i) < TargetAt(i + 1)
    ensures MovesAt(i + 1) <= MovesAt(i)
  {
  }

  /** Across the whole table the target strictly increases with the level
      and the move budget never increases. */
  lemma LaterLevelsAreHarder(i: nat, j: nat)
    requires i < j < LevelCount
    ensures TargetAt(i) < TargetAt(j)
    ensures MovesAt(j) <= MovesAt(i)
  {
  }

  /** The calendar lists days 1 to 7 in order, and a later day always pays
      strictly more gems. */
  lemma DailyRewardCalendar()
    ensures forall i :: 0 <= i < 7 ==> DailyRewards()[i].day == i + 1
    ensures forall i, j :: 0 <= i < j < 7 ==> DailyRewards()[i].gems < DailyRewards()[j].gems
  {
  }
}
