/** The booster bar: four buttons in a fixed order, each disabled when its
    counter is used up and highlighted when it is the active booster. */
module BoosterBar {
  import opened Wrappers
  import opened GameTypes
  import opened Counting

  /** The buttons, left to right. */
  function BoosterOrder(): (r: seq<BoosterKind>)
    ensures |r| == 4
    ensures forall k :: k in r
    ensures forall i, j :: 0 <= i < j < |r| ==> r[i] != r[j]
    ensures r[0] == Bomb && r[1] == Hammer && r[2] == Shuffle && r[3] == Rainbow
  {
    var r := [Bomb, Hammer, Shuffle, Rainbow];
    assert forall k :: k in r by {
      forall k ensures k in r {
        if k.Bomb? { assert r[0] == k; }
        else if k.Hammer? { assert r[1] == k; }
        else if k.Shuffle? { assert r[2] == k; }
        else { assert r[3] == k; }
      }
    }
    r
  }

  /** The button of `k` is disabled. */
  predicate IsDisabled(boosters: Boosters, k: BoosterKind) {
    Count(boosters, k) <= 0
  }

  /** The button of `k` is highlighted. */
  predicate IsActive(active: Option<BoosterKind>, k: BoosterKind) {
    active == Some(k)
  }

  /** Clicking the button of `k`: the id passed to `onBoosterSelect`, or
      nothing when the button is disabled. */
  function ClickBooster(boosters: Boosters, k: BoosterKind): (selected: Option<BoosterKind>)
    ensures selected.Some? <==> Count(boosters, k) > 0
    ensures selected.Some? ==> selected.value == k
  {
    if IsDisabled(boosters, k) then None else Some(k)
  }

  /** The highlight of each button, in bar order. */
  function Highlights(active: Option<BoosterKind>): (h: seq<bool>)
    ensures |h| == |BoosterOrder()|
    ensures forall i :: 0 <= i < |h| ==> (h[i] <==> IsActive(active, BoosterOrder()[i]))
  {
    var order := BoosterOrder();
    seq(|order|, i requires 0 <= i < |order| => IsActive(active, order[i]))
  }

  /** Exactly one button is highlighted when a booster is active, and none
      otherwise. */
  lemma AtMostOneHighlight(active: Option<BoosterKind>)
    ensures CountTrue(Highlights(active)) == if active.Some? then 1 else 0
  {
    var order := BoosterOrder();
    var h := Highlights(active);
    var k := if active.None? then -1
             else if active.value.Bomb? then 0
             else if active.value.Hammer? then 1
             else if active.value.Shuffle? then 2
             else 3;
    assert h == Marked(4, k);
    CountMarked(4, k);
  }
}
