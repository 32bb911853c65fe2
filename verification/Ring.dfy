/** Indexing around a fixed-size buffer, as both of the program's ring buffers do. */
module Ring {

  /** The last `n` elements, or all of a shorter sequence. */
  function LastN<T>(s: seq<T>, n: nat): seq<T> {
    if |s| <= n then s else s[|s| - n..]
  }

  /** An index less than once around wraps at most once. */
  lemma ModSmall(a: nat, w: nat)
    requires w > 0 && a < 2 * w
    ensures a % w == if a < w then a else a - w
  {
    var q, r := a / w, a % w;
    assert a == w * q + r;
    QuotientBound(w, q, w * q);
  }

  lemma QuotientBound(w: int, q: int, p: int)
    requires w > 0 && p == w * q
    ensures q >= 2 ==> p >= 2 * w
    ensures q <= -1 ==> p <= -w
    ensures q == 1 ==> p == w
    ensures q == 0 ==> p == 0
  {
    if q >= 2 {
      assert w * (q - 2) >= 0;
    } else if q <= -1 {
      assert w * (q + 1) <= 0;
    }
  }
}
