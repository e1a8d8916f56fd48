/** Sums over the positions that fall into one bin. */
module Bins {

  /** Sum of w[i] over the first n positions whose bin is b. */
  ghost function BinSum(bins: seq<nat>, w: seq<real>, b: nat, n: nat): real
    requires n <= |bins| == |w|
  {
    if n == 0 then 0.0 else BinSum(bins, w, b, n - 1) + if bins[n-1] == b then w[n-1] else 0.0
  }

  lemma {:induction false} BinSumAgrees(bins: seq<nat>, v: seq<real>, w: seq<real>, b: nat, n: nat)
    requires n <= |bins| == |v| == |w|
    requires forall i | 0 <= i < n && bins[i] == b :: v[i] == w[i]
    ensures BinSum(bins, v, b, n) == BinSum(bins, w, b, n)
  {
    if n > 0 {
      BinSumAgrees(bins, v, w, b, n - 1);
    }
  }

  lemma {:induction false} BinSumNonNegative(bins: seq<nat>, w: seq<real>, b: nat, n: nat)
    requires n <= |bins| == |w|
    requires forall i | 0 <= i < n && bins[i] == b :: w[i] >= 0.0
    ensures BinSum(bins, w, b, n) >= 0.0
    ensures BinSum(bins, w, b, n) == 0.0 ==> forall i | 0 <= i < n && bins[i] == b :: w[i] == 0.0
  {
    if n > 0 {
      BinSumNonNegative(bins, w, b, n - 1);
    }
  }

  lemma {:induction false} BinSumZero(bins: seq<nat>, w: seq<real>, b: nat, n: nat)
    requires n <= |bins| == |w|
    requires forall i | 0 <= i < n && bins[i] == b :: w[i] == 0.0
    ensures BinSum(bins, w, b, n) == 0.0
  {
    if n > 0 {
      BinSumZero(bins, w, b, n - 1);
    }
  }

  /** total is a plus k times b. */
  ghost predicate Blend(total: real, a: real, k: real, b: real) {
    total == a + k * b
  }

  lemma {:induction false} BinSumLinear(bins: seq<nat>, u: seq<real>, v: seq<real>, w: seq<real>, k: real, b: nat, n: nat)
    requires n <= |bins| == |u| == |v| == |w|
    requires forall i | 0 <= i < n && bins[i] == b :: Blend(w[i], u[i], k, v[i])
    ensures Blend(BinSum(bins, w, b, n), BinSum(bins, u, b, n), k, BinSum(bins, v, b, n))
  {
    if n > 0 {
      BinSumLinear(bins, u, v, w, k, b, n - 1);
      if bins[n-1] == b {
        BlendSum(BinSum(bins, w, b, n - 1), BinSum(bins, u, b, n - 1), BinSum(bins, v, b, n - 1),
                 w[n-1], u[n-1], v[n-1], k);
      }
    }
  }

  lemma BlendSum(p: real, q: real, r: real, w: real, u: real, v: real, k: real)
    requires Blend(p, q, k, r) && Blend(w, u, k, v)
    ensures Blend(p + w, q + u, k, r + v)
  {
    assert k * (r + v) == k * r + k * v;
  }
}
