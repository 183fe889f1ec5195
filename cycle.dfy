/** The cycling counter two cards run on an interval: the story index of the Instagram card
    and the mode of the location line. */
module Cycling {
  /** One tick of a cycling interval, `(index + 1) % count`. */
  function NextIndex(index: nat, count: nat): (r: nat)
    requires count > 0
    ensures r < count
  {
    (index + 1) % count
  }

  function Steps(count: nat, k: nat): nat
    requires count > 0
  {
    if k == 0 then 0 else NextIndex(Steps(count, k - 1), count)
  }

  /** The remainder of `x` is `r` whenever `x` is a multiple of `n` plus `r`. */
  lemma ModUnique(x: nat, n: nat, q: nat, r: nat)
    requires n > 0 && r < n && x == n * q + r
    ensures x % n == r
  {
    var d := x / n - q;
    assert n * d == r - x % n;
    if d >= 1 {
      assert false;
    } else if d <= -1 {
      assert false;
    }
  }

  /** Stepping from a remainder is stepping from the number itself. */
  lemma NextMod(a: nat, n: nat)
    requires n > 0
    ensures NextIndex(a % n, n) == (a + 1) % n
  {
    var q, p := a / n, a % n;
    assert a == n * q + p;
    if p + 1 < n {
      ModUnique(p + 1, n, 0, p + 1);
      ModUnique(a + 1, n, q, p + 1);
    } else {
      ModUnique(p + 1, n, 1, 0);
      assert a + 1 == n * (q + 1);
      ModUnique(a + 1, n, q + 1, 0);
    }
  }

  /** From index `0`, `k` ticks reach `k mod count`: the cycle visits every index in order
      and starts over. */
  lemma {:induction false} StepsCycle(count: nat, k: nat)
    requires count > 0
    ensures Steps(count, k) == k % count
  {
    if k > 0 {
      var j := k - 1;
      StepsCycle(count, j);
      assert Steps(count, k) == NextIndex(Steps(count, j), count);
      NextMod(j, count);
      assert j + 1 == k;
    }
  }
}
