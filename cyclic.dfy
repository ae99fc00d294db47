/** Round-robin choice over a sorted list, as in `qvec[t % workers.size()]` and
    `qlist[i % len(qlist)]`: the i-th of m picks is the element at position i mod |s|. */
module Cyclic {

  /** m picks going round s. */
  function Pick<T>(s: seq<T>, m: nat): (r: seq<T>)
    requires m > 0 ==> s != []
    ensures |r| == m
    ensures forall i :: 0 <= i < m ==> r[i] in s
  {
    seq(m, i requires 0 <= i < m => s[i % |s|])
  }

  /** Picks i and i + |s| are the same element. */
  lemma PickRepeats<T>(s: seq<T>, m: nat, i: nat)
    requires s != [] && i + |s| < m
    ensures Pick(s, m)[i + |s|] == Pick(s, m)[i]
  {
    ModStep(i, |s|);
  }

  /** No more picks than elements: the picks are the first m elements, each once. */
  lemma PickPrefix<T>(s: seq<T>, m: nat)
    requires m <= |s|
    ensures Pick(s, m) == s[..m]
  {
    forall i | 0 <= i < m
      ensures Pick(s, m)[i] == s[i]
    {
      ModOfSplit(i, |s|, 0, i);
    }
  }

  /** At least as many picks as elements: every element is picked. */
  lemma PickCoversAll<T>(s: seq<T>, m: nat)
    requires |s| <= m && s != []
    ensures forall x :: x in s ==> x in Pick(s, m)
  {
    forall x | x in s
      ensures x in Pick(s, m)
    {
      var i :| 0 <= i < |s| && s[i] == x;
      ModOfSplit(i, |s|, 0, i);
      assert Pick(s, m)[i] == x;
    }
  }

  // ---------------------------------------------------------------- arithmetic

  lemma MulAtLeast(a: int, w: int)
    requires a >= 1 && w > 0
    ensures a * w >= w
    decreases a
  {
    if a > 1 {
      MulAtLeast(a - 1, w);
      assert a * w == (a - 1) * w + w;
    }
  }

  lemma Distributes(a: int, b: int, w: int)
    ensures (a - b) * w == a * w - b * w
  {
  }

  /** The remainder is the r of any x == q * w + r with 0 <= r < w. */
  lemma ModOfSplit(x: int, w: int, q: int, r: int)
    requires w > 0 && x == q * w + r && 0 <= r < w
    ensures x % w == r
  {
    var q', r' := x / w, x % w;
    assert x == q' * w + r';
    Distributes(q, q', w);
    Distributes(q', q, w);
    if q > q' {
      MulAtLeast(q - q', w);
    } else if q < q' {
      MulAtLeast(q' - q, w);
    }
  }

  lemma ModStep(t: nat, w: nat)
    requires w > 0
    ensures (t + w) % w == t % w
  {
    ModOfSplit(t + w, w, t / w + 1, t % w);
  }
}
