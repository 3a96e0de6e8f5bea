/** Counting the filled slots of a row of indicators (stars, hearts, week
    cells, highlighted buttons). */
module Counting {

  /** Number of `true` entries of `s`. */
  function CountTrue(s: seq<bool>): (n: nat)
    ensures n <= |s|
  {
    if |s| == 0 then 0
    else CountTrue(s[..|s| - 1]) + (if s[|s| - 1] then 1 else 0)
  }

  /** The slot row in which slot `i` of `n` is filled iff `i < limit`. */
  function Below(n: nat, limit: int): (s: seq<bool>)
    ensures |s| == n
    ensures forall i :: 0 <= i < n ==> (s[i] <==> i < limit)
  {
    seq(n, i => i < limit)
  }

  /** The slot row in which only slot `k` (if any) is marked. */
  function Marked(n: nat, k: int): (s: seq<bool>)
    ensures |s| == n
    ensures forall i :: 0 <= i < n ==> (s[i] <==> i == k)
  {
    seq(n, i => i == k)
  }

  /** Filling the slots below `limit` fills exactly `limit` of them, clamped
      to the row. */
  lemma {:induction false} CountBelow(n: nat, limit: int)
    ensures CountTrue(Below(n, limit)) == if limit <= 0 then 0 else if limit >= n then n else limit
  {
    if n > 0 {
      CountBelow(n - 1, limit);
      assert Below(n, limit)[..n - 1] == Below(n - 1, limit);
    }
  }

  /** Marking one index marks exactly one slot when the index is in the row,
      and none otherwise. */
  lemma {:induction false} CountMarked(n: nat, k: int)
    ensures CountTrue(Marked(n, k)) == if 0 <= k < n then 1 else 0
  {
    if n > 0 {
      CountMarked(n - 1, k);
      assert Marked(n, k)[..n - 1] == Marked(n - 1, k);
    }
  }
}
