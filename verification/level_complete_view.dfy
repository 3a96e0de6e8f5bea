/** The level-complete screen: the star rating of a finished level and the
    three star slots it fills. */
module LevelCompleteView {
  import opened Counting

  /** Stars for `score` against `target`: three from twice the target, two
      from one and a half times the target (written in integers as
      `2 * score >= 3 * target`), otherwise one. */
  function Stars(score: int, target: int): (stars: int)
    ensures 1 <= stars <= 3
    ensures stars == 3 <==> score >= 2 * target
    ensures stars == 2 <==> 2 * score >= 3 * target && score < 2 * target
    ensures stars == 1 <==> 2 * score < 3 * target && score < 2 * target
  {
    if score >= target * 2 then 3 else if 2 * score >= 3 * target then 2 else 1
  }

  /** A higher score never earns fewer stars. */
  lemma StarsMonotone(s1: int, s2: int, target: int)
    requires s1 <= s2
    ensures Stars(s1, target) <= Stars(s2, target)
  {
  }

  /** The three star slots; slot `i` is filled iff `i < stars`. */
  function StarSlots(stars: int): (slots: seq<bool>)
    ensures |slots| == 3
    ensures forall i :: 0 <= i < 3 ==> (slots[i] <==> i < stars)
  {
    Below(3, stars)
  }

  /** The screen fills exactly as many slots as stars were earned. */
  lemma FilledStarsMatchRating(score: int, target: int)
    ensures CountTrue(StarSlots(Stars(score, target))) == Stars(score, target)
  {
  }
}
