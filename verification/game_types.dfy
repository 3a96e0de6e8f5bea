/** The records of the game: gems, positions, the board, the booster
    inventory, the session state and a level's configuration. */
module GameTypes {
  import opened Wrappers

  /** The six ordinary flower kinds a gem can have. */
  datatype GemType = Leaf | Cherry | Tulip | Sunflower | Hibiscus | Daisy

  /** The optional special marker of a gem: a gem carries at most one. */
  datatype SpecialGemType = NoSpecial | BombGem | LightningGem | RainbowGem

  /** A gem on the board. `row`/`col` are meant to equal the cell holding it;
      the three flags are presentation hints. */
  datatype Gem = Gem(
    id: string,
    kind: GemType,
    special: SpecialGemType,
    row: int,
    col: int,
    isMatched: bool,
    isNew: bool,
    isFalling: bool)

  datatype Position = Position(row: int, col: int)

  /** A board cell holds a gem or is empty (`null`). */
  type Cell = Option<Gem>

  /** Rows of cells, indexed `board[row][col]`. */
  type Board = seq<seq<Cell>>

  /** The four booster kinds, also used as the booster buttons' ids. */
  datatype BoosterKind = Bomb | Hammer | Shuffle | Rainbow

  /** The booster inventory: one counter per booster kind. */
  datatype Boosters = Boosters(bomb: int, hammer: int, shuffle: int, rainbow: int)

  /** The counter that belongs to booster `k`. */
  function Count(b: Boosters, k: BoosterKind): int {
    match k
    case Bomb => b.bomb
    case Hammer => b.hammer
    case Shuffle => b.shuffle
    case Rainbow => b.rainbow
  }

  /** The inventory with the counter of `k` set to `v` and every other
      counter kept. */
  function WithCount(b: Boosters, k: BoosterKind, v: int): (r: Boosters)
    ensures Count(r, k) == v
    ensures forall k' :: k' != k ==> Count(r, k') == Count(b, k')
  {
    match k
    case Bomb => b.(bomb := v)
    case Hammer => b.(hammer := v)
    case Shuffle => b.(shuffle := v)
    case Rainbow => b.(rainbow := v)
  }

  /** True when no counter of the inventory is negative. */
  predicate NonNegative(b: Boosters) {
    forall k :: Count(b, k) >= 0
  }

  /** The state of one play session together with the persisted progress it
      carries. `inFlight` stands for the engine's "cascade in progress" flag. */
  datatype GameState = GameState(
    board: Board,
    score: int,
    moves: int,
    targetScore: int,
    level: int,
    isPlaying: bool,
    selectedGem: Option<Position>,
    combo: int,
    lives: int,
    maxLives: int,
    gems: int,
    boosters: Boosters,
    dailyRewardClaimed: bool,
    lastDailyReward: Option<string>,
    unlockedLevels: int,
    totalScore: int,
    streak: int,
    inFlight: bool)

  /** The immutable configuration of one level (the floating-point special
      gem chance and the unused obstacle count are not modelled). */
  datatype LevelConfig = LevelConfig(
    level: int,
    gridSize: int,
    moves: int,
    targetScore: int,
    gemTypes: int)

  /** Every gem kind, in declaration order. */
  function AllGemTypes(): (r: seq<GemType>)
    ensures |r| == 6
    ensures forall g :: g in r
    ensures forall i, j :: 0 <= i < j < |r| ==> r[i] != r[j]
  {
    var r := [Leaf, Cherry, Tulip, Sunflower, Hibiscus, Daisy];
    assert forall g :: g in r by {
      forall g ensures g in r {
        if g.Leaf? { assert r[0] == g; }
        else if g.Cherry? { assert r[1] == g; }
        else if g.Tulip? { assert r[2] == g; }
        else if g.Sunflower? { assert r[3] == g; }
        else if g.Hibiscus? { assert r[4] == g; }
        else { assert r[5] == g; }
      }
    }
    r
  }
}
