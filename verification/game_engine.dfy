/** The session transitions of the game engine hook: swapping two gems and
    using the bomb, hammer and shuffle boosters. Each is a pure function from
    the current state to an `Outcome`.

    Match detection, gravity refill, board generation, level start and gem
    selection are not part of this model: they are supplied as the opaque
    functions of a `Collaborators` value. The cascade the engine schedules
    after a committed change is returned as a `CascadeRequest` rather than
    run. */
module GameEngine {
  import opened Wrappers
  import opened GameTypes
  import opened Grid
  import opened LevelTable

  /** The engine functions whose bodies are outside this model. */
  datatype Collaborators = Collaborators(
    findMatches: Board -> seq<Position>,
    applyGravity: (Board, int) -> Board,
    createBoard: (int, int) -> Board,
    startLevel: (GameState, int) -> GameState,
    selectGem: (GameState, Position) -> GameState)

  /** The only assumptions made about the collaborators: gravity keeps the
      board's shape and a generated board of size `n` is `n` by `n`. */
  ghost predicate ShapePreserving(c: Collaborators) {
    && (forall b, k :: SameShape(b, c.applyGravity(b, k)))
    && (forall n, k :: n >= 0 ==> IsGrid(c.createBoard(n, k), n))
  }

  /** The delayed `processMatchesAndCascade(board, score, combo, level)` call. */
  datatype CascadeRequest = CascadeRequest(board: Board, score: int, combo: int, level: int)

  /** What an engine call does to the session:
      - `Ignored`: an early `return`, nothing changes;
      - `Faulted`: a lookup of a missing board row throws, nothing changes;
      - `Updated`: the new state, and the cascade scheduled after it, if any. */
  datatype Outcome =
    | Ignored
    | Faulted
    | Updated(next: GameState, cascade: Option<CascadeRequest>)

  /** The state after an outcome. */
  function After(s: GameState, o: Outcome): GameState {
    if o.Updated? then o.next else s
  }

  /** Score the bomb adds, whatever it clears. */
  const BombBonus := 90

  /** Score the hammer adds, whatever it clears. */
  const HammerBonus := 10

  /** Gem `g` moved into cell `p`: same payload, coordinates of `p`. */
  function MovedTo(g: Gem, p: Position): (m: Gem)
    ensures m.row == p.row && m.col == p.col
    ensures m.(row := g.row, col := g.col) == g
  {
    g.(row := p.row, col := p.col)
  }

  // ---------------------------------------------------------------- swap

  /** The tentative board of a swap: the gem of `p2` moves to `p1` and the
      gem of `p1` moves to `p2`, each taking its new cell's coordinates. */
  function SwapCells(b: Board, p1: Position, p2: Position): (b': Board)
    requires CellAt(b, p1.row, p1.col).Some? && CellAt(b, p2.row, p2.col).Some?
    ensures AgreesExcept(b, b', {p1, p2})
    ensures b'[p2.row][p2.col] == Some(MovedTo(b[p1.row][p1.col].value, p2))
    ensures p1 != p2 ==> b'[p1.row][p1.col] == Some(MovedTo(b[p2.row][p2.col].value, p1))
  {
    var g1 := b[p1.row][p1.col].value;
    var g2 := b[p2.row][p2.col].value;
    var b1 := SetCell(b, p1.row, p1.col, Some(MovedTo(g2, p1)));
    SetCell(b1, p2.row, p2.col, Some(MovedTo(g1, p2)))
  }

  /** `swapGems(pos1, pos2)`: refused while a cascade is in flight or the
      session is not playing; a missing row throws; an empty cell refuses.
      Otherwise the tentative swap is committed, at the cost of one move and
      with a cascade scheduled from the unchanged score, exactly when it
      makes a match; without a match only the selection is cleared. */
  function SwapGems(c: Collaborators, s: GameState, p1: Position, p2: Position): (o: Outcome)
    ensures s.inFlight || !s.isPlaying ==> o == Ignored
    ensures o.Faulted? <==>
      !s.inFlight && s.isPlaying && !(RowExists(s.board, p1.row) && RowExists(s.board, p2.row))
    ensures o.Updated? <==>
      && !s.inFlight && s.isPlaying
      && CellAt(s.board, p1.row, p1.col).Some? && CellAt(s.board, p2.row, p2.col).Some?
    ensures o.Updated? && o.cascade.Some? ==>
      && o.next == s.(board := SwapCells(s.board, p1, p2), moves := s.moves - 1, selectedGem := None)
      && |c.findMatches(o.next.board)| > 0
      && o.cascade.value == CascadeRequest(o.next.board, s.score, 0, s.level)
    ensures o.Updated? && o.cascade.None? ==>
      && o.next == s.(selectedGem := None)
      && |c.findMatches(SwapCells(s.board, p1, p2))| == 0
  {
    if s.inFlight || !s.isPlaying then Ignored
    else if !RowExists(s.board, p1.row) || !RowExists(s.board, p2.row) then Faulted
    else if CellAt(s.board, p1.row, p1.col).None? || CellAt(s.board, p2.row, p2.col).None? then Ignored
    else
      var tentative := SwapCells(s.board, p1, p2);
      if |c.findMatches(tentative)| > 0 then
        Updated(s.(board := tentative, moves := s.moves - 1, selectedGem := None),
                Some(CascadeRequest(tentative, s.score, 0, s.level)))
      else
        Updated(s.(selectedGem := None), None)
  }

  /** Swapping back restores a board whose gems record their own cells, so a
      committed swap is undone by the same swap. */
  lemma SwapTwiceRestores(b: Board, p1: Position, p2: Position)
    requires CellAt(b, p1.row, p1.col).Some? && CellAt(b, p2.row, p2.col).Some?
    requires Consistent(b)
    ensures SwapCells(SwapCells(b, p1, p2), p1, p2) == b
  {
    var b' := SwapCells(b, p1, p2);
    var b'' := SwapCells(b', p1, p2);
    assert |b''| == |b|;
    forall r | 0 <= r < |b|
      ensures b''[r] == b[r]
    {
      assert |b''[r]| == |b[r]|;
      forall col | 0 <= col < |b[r]|
        ensures b''[r][col] == b[r][col]
      {
        var p := Position(r, col);
        if p == p2 {
        } else if p == p1 {
        }
      }
    }
  }

  /** A swap keeps every gem recording its own cell. */
  lemma SwapKeepsConsistent(b: Board, p1: Position, p2: Position)
    requires CellAt(b, p1.row, p1.col).Some? && CellAt(b, p2.row, p2.col).Some?
    requires Consistent(b)
    ensures Consistent(SwapCells(b, p1, p2))
  {
  }

  // ---------------------------------------------------------------- bomb

  /** Cell (r, col) lies in the bomb's 3 by 3 area around `pos` and inside
      the board, whose width is read from its first row. */
  predicate InBlast(b: Board, pos: Position, r: int, col: int) {
    && pos.row - 1 <= r <= pos.row + 1
    && pos.col - 1 <= col <= pos.col + 1
    && 0 <= r < |b| && 0 <= col < |b[0]|
  }

  /** The board before gravity: every cell in the blast area emptied. */
  function Blast(b: Board, pos: Position): (b': Board)
    ensures SameShape(b, b')
    ensures forall r, col :: InBounds(b, r, col) ==>
      b'[r][col] == if InBlast(b, pos, r, col) then None else b[r][col]
  {
    seq(|b|, r requires 0 <= r < |b| =>
      seq(|b[r]|, col requires 0 <= col < |b[r]| =>
        if InBlast(b, pos, r, col) then None else b[r][col]))
  }

  /** The bomb's clearing loop as the engine writes it: rows `pos.row - 1` to
      `pos.row + 1`, columns `pos.col - 1` to `pos.col + 1`, each in-bounds
      cell set to empty. It computes exactly `Blast`. */
  method ClearBlastArea(b: Board, pos: Position) returns (nb: Board)
    ensures nb == Blast(b, pos)
  {
    nb := b;
    var r := pos.row - 1;
    while r <= pos.row + 1
      invariant pos.row - 1 <= r <= pos.row + 2
      invariant SameShape(b, nb)
      invariant forall i, j :: InBounds(b, i, j) ==>
        nb[i][j] == if InBlast(b, pos, i, j) && i < r then None else b[i][j]
    {
      var col := pos.col - 1;
      while col <= pos.col + 1
        invariant pos.col - 1 <= col <= pos.col + 2
        invariant SameShape(b, nb)
        invariant forall i, j :: InBounds(b, i, j) ==>
          nb[i][j] == if InBlast(b, pos, i, j) && (i < r || (i == r && j < col)) then None else b[i][j]
      {
        if r >= 0 && r < |nb| && col >= 0 && col < |nb[0]| && col < |nb[r]| {
          nb := SetCell(nb, r, col, None);
        }
        col := col + 1;
      }
      r := r + 1;
    }
    assert SameShape(Blast(b, pos), nb);
    assert forall i :: 0 <= i < |nb| ==> nb[i] == Blast(b, pos)[i];
  }

  /** `useBomb(pos)`: refused unless playing, not in flight and holding a
      bomb. Otherwise the blast area is emptied, gravity refills the board
      with the level's gem kinds, the score gains a flat 90, one bomb is
      spent and a cascade is scheduled from the new score. Moves and every
      other field are kept. */
  function UseBomb(c: Collaborators, s: GameState, pos: Position): (o: Outcome)
    ensures o.Faulted? == false
    ensures o.Updated? <==> s.isPlaying && s.boosters.bomb > 0 && !s.inFlight
    ensures o.Updated? ==>
      && o.next.board == c.applyGravity(Blast(s.board, pos), ConfigFor(s.level).gemTypes)
      && o.next.score == s.score + BombBonus
      && o.next.boosters == WithCount(s.boosters, Bomb, Count(s.boosters, Bomb) - 1)
      && o.next.(board := s.board, score := s.score, boosters := s.boosters) == s
      && o.cascade == Some(CascadeRequest(o.next.board, o.next.score, 0, s.level))
  {
    if !s.isPlaying || s.boosters.bomb <= 0 || s.inFlight then Ignored
    else
      var config := ConfigFor(s.level);
      var filled := c.applyGravity(Blast(s.board, pos), config.gemTypes);
      Updated(s.(board := filled, score := s.score + BombBonus,
                 boosters := s.boosters.(bomb := s.boosters.bomb - 1)),
              Some(CascadeRequest(filled, s.score + BombBonus, 0, s.level)))
  }

  /** Bombing the same place twice clears nothing more. */
  lemma BlastIdempotent(b: Board, pos: Position)
    ensures Blast(Blast(b, pos), pos) == Blast(b, pos)
  {
    var b1 := Blast(b, pos);
    var b2 := Blast(b1, pos);
    assert |b| > 0 ==> |b1[0]| == |b[0]|;
    forall r | 0 <= r < |b|
      ensures b2[r] == b1[r]
    {
      forall col | 0 <= col < |b[r]|
        ensures b2[r][col] == b1[r][col]
      {
        assert InBlast(b1, pos, r, col) == InBlast(b, pos, r, col);
      }
    }
  }

  // -------------------------------------------------------------- hammer

  /** The board before gravity: the target cell emptied if it holds a gem;
      a missing column leaves the board as it is. */
  function Smash(b: Board, pos: Position): (b': Board)
    ensures AgreesExcept(b, b', {pos})
    ensures CellAt(b', pos.row, pos.col).None?
  {
    if CellAt(b, pos.row, pos.col).Some? then SetCell(b, pos.row, pos.col, None) else b
  }

  /** `useHammer(pos)`: refused unless playing, not in flight and holding a
      hammer; a missing row throws. Otherwise the target cell is emptied,
      gravity refills, the score gains a flat 10 (also when the target was
      already empty), one hammer is spent and a cascade is scheduled. */
  function UseHammer(c: Collaborators, s: GameState, pos: Position): (o: Outcome)
    ensures !s.isPlaying || s.boosters.hammer <= 0 || s.inFlight ==> o == Ignored
    ensures o.Faulted? <==>
      s.isPlaying && s.boosters.hammer > 0 && !s.inFlight && !RowExists(s.board, pos.row)
    ensures o.Updated? <==>
      s.isPlaying && s.boosters.hammer > 0 && !s.inFlight && RowExists(s.board, pos.row)
    ensures o.Updated? ==>
      && o.next.board == c.applyGravity(Smash(s.board, pos), ConfigFor(s.level).gemTypes)
      && o.next.score == s.score + HammerBonus
      && o.next.boosters == WithCount(s.boosters, Hammer, Count(s.boosters, Hammer) - 1)
      && o.next.(board := s.board, score := s.score, boosters := s.boosters) == s
      && o.cascade == Some(CascadeRequest(o.next.board, o.next.score, 0, s.level))
  {
    if !s.isPlaying || s.boosters.hammer <= 0 || s.inFlight then Ignored
    else if !RowExists(s.board, pos.row) then Faulted
    else
      var config := ConfigFor(s.level);
      var filled := c.applyGravity(Smash(s.board, pos), config.gemTypes);
      Updated(s.(board := filled, score := s.score + HammerBonus,
                 boosters := s.boosters.(hammer := s.boosters.hammer - 1)),
              Some(CascadeRequest(filled, s.score + HammerBonus, 0, s.level)))
  }

  /** On a rectangular board, every cell the hammer empties is one a bomb
      aimed at the same cell would empty too. */
  lemma HammerWithinBlast(b: Board, pos: Position)
    requires forall r :: 0 <= r < |b| ==> |b[r]| == |b[0]|
    ensures forall r, col :: InBounds(b, r, col) && Smash(b, pos)[r][col] != b[r][col] ==>
      Blast(b, pos)[r][col] == None && InBlast(b, pos, r, col)
  {
  }

  // ------------------------------------------------------------- shuffle

  /** `shuffleBoard()`: refused unless playing, not in flight and holding a
      shuffle. Otherwise the board is replaced by a fresh board generated
      for the level's configuration (the first level's when the level is
      outside the table), one shuffle is spent, and no cascade follows. */
  function ShuffleBoard(c: Collaborators, s: GameState): (o: Outcome)
    ensures o.Faulted? == false
    ensures o.Updated? <==> s.isPlaying && s.boosters.shuffle > 0 && !s.inFlight
    ensures o.Updated? ==>
      && o.next.board == c.createBoard(ConfigFor(s.level).gridSize, ConfigFor(s.level).gemTypes)
      && o.next.boosters == WithCount(s.boosters, Shuffle, Count(s.boosters, Shuffle) - 1)
      && o.next.(board := s.board, boosters := s.boosters) == s
      && o.cascade.None?
  {
    if !s.isPlaying || s.boosters.shuffle <= 0 || s.inFlight then Ignored
    else
      var config := ConfigFor(s.level);
      Updated(s.(board := c.createBoard(config.gridSize, config.gemTypes),
                 boosters := s.boosters.(shuffle := s.boosters.shuffle - 1)),
              None)
  }

  // ---------------------------------------------------- action sequences

  /** The engine calls a player can make on the board. */
  datatype Action =
    | SwapAction(p1: Position, p2: Position)
    | BombAction(at: Position)
    | HammerAction(at: Position)
    | ShuffleAction

  function Step(c: Collaborators, s: GameState, a: Action): Outcome {
    match a
    case SwapAction(p1, p2) => SwapGems(c, s, p1, p2)
    case BombAction(p) => UseBomb(c, s, p)
    case HammerAction(p) => UseHammer(c, s, p)
    case ShuffleAction => ShuffleBoard(c, s)
  }

  /** The state after performing `actions` in order (scheduled cascades are
      not run in between). */
  function Run(c: Collaborators, s: GameState, actions: seq<Action>): GameState
    decreases |actions|
  {
    if |actions| == 0 then s
    else Run(c, After(s, Step(c, s, actions[0])), actions[1..])
  }

  /** One engine call keeps the booster counters non-negative, never raises
      the move budget, never lowers the score, never touches the in-flight
      flag, and keeps an 8 by 8 board 8 by 8. */
  lemma StepInvariants(c: Collaborators, s: GameState, a: Action)
    requires ShapePreserving(c)
    requires NonNegative(s.boosters)
    ensures var t := After(s, Step(c, s, a));
      && NonNegative(t.boosters)
      && t.moves <= s.moves
      && t.score >= s.score
      && t.inFlight == s.inFlight
      && (IsGrid(s.board, 8) ==> IsGrid(t.board, 8))
  {
  }

  /** The booster an engine call spends, if any. */
  function ActionBooster(a: Action): Option<BoosterKind> {
    match a
    case SwapAction(_, _) => None
    case BombAction(_) => Some(Bomb)
    case HammerAction(_) => Some(Hammer)
    case ShuffleAction => Some(Shuffle)
  }

  /** One engine call spends at most one unit of its own booster and leaves
      every other counter alone; a swap leaves the inventory as it was. */
  lemma StepSpendsAtMostOneBooster(c: Collaborators, s: GameState, a: Action)
    ensures var t := After(s, Step(c, s, a));
      && (forall k :: Some(k) != ActionBooster(a) ==> Count(t.boosters, k) == Count(s.boosters, k))
      && (ActionBooster(a).Some? ==>
            var k := ActionBooster(a).value;
            Count(t.boosters, k) == Count(s.boosters, k) || Count(t.boosters, k) == Count(s.boosters, k) - 1)
      && (ActionBooster(a).None? ==> t.boosters == s.boosters)
  {
  }

  /** Over any sequence of engine calls the booster counters never go
      negative, moves never increase, the score never decreases, and the
      board keeps its 8 by 8 shape. */
  lemma {:induction false} RunInvariants(c: Collaborators, s: GameState, actions: seq<Action>)
    requires ShapePreserving(c)
    requires NonNegative(s.boosters)
    ensures var t := Run(c, s, actions);
      && NonNegative(t.boosters)
      && t.moves <= s.moves
      && t.score >= s.score
      && (IsGrid(s.board, 8) ==> IsGrid(t.board, 8))
    decreases |actions|
  {
    if |actions| > 0 {
      StepInvariants(c, s, actions[0]);
      RunInvariants(c, After(s, Step(c, s, actions[0])), actions[1..]);
    }
  }

  /** While a cascade is in flight, every engine call is refused, so any
      sequence of calls leaves the state exactly as it was. */
  lemma {:induction false} InFlightRunIsNoOp(c: Collaborators, s: GameState, actions: seq<Action>)
    requires s.inFlight
    ensures Run(c, s, actions) == s
    decreases |actions|
  {
    if |actions| > 0 {
      assert Step(c, s, actions[0]) == Ignored;
      InFlightRunIsNoOp(c, s, actions[1..]);
    }
  }
}
