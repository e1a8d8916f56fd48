/** The flat parameter vector of an interpolated model. */
module MixtureParams {
  // First a bias for every component but the first, then a factor for every feature, order after order; orders may
  // share theirs, and components may share the factors of their features.

  /** How many orders, how many features each component has, and what is shared. */
  datatype Layout = Layout(orders: nat, features: seq<nat>, tieOrder: bool, tieLM: bool) {

    /** Components that share factors have equally many features. */
    ghost predicate Valid() {
      |features| > 0 && (tieLM ==> forall l | 0 <= l < |features| :: features[l] == features[0])
    }

    function Rows(): nat {
      if tieOrder then 1 else orders
    }

    /** Features of the components before l. */
    function Before(l: nat): nat
      requires l <= |features|
    {
      if l == 0 then 0 else Before(l - 1) + features[l-1]
    }

    function PerOrder(): nat
      requires |features| > 0
    {
      if tieLM then features[0] else Before(|features|)
    }

    function NumParams(): nat
      requires |features| > 0
    {
      (|features| - 1) * Rows() + PerOrder() * Rows()
    }

    // ---------- where a parameter stands ----------

    ghost function BiasAt(o: nat, l: nat): nat
      requires 1 <= l < |features|
    {
      Place(if tieOrder then 0 else o, |features| - 1, l - 1)
    }

    ghost function FeatureAt(o: nat, l: nat, f: nat): nat
      requires l < |features|
    {
      (|features| - 1) * Rows() + Place(if tieOrder then 0 else o, PerOrder(), (if tieLM then 0 else Before(l)) + f)
    }

    /** Where order o's biases begin, and its factors. */
    ghost function BiasStart(o: nat): nat
      requires |features| > 0
    {
      if tieOrder then 0 else o * (|features| - 1)
    }

    ghost function FeatStart(o: nat): nat
      requires |features| > 0
    {
      (|features| - 1) * Rows() + if tieOrder then 0 else o * PerOrder()
    }

    lemma StartsMove(o: nat)
      requires |features| > 0
      ensures BiasStart(0) == 0 && FeatStart(0) == (|features| - 1) * Rows()
      ensures tieOrder ==> BiasStart(o) == 0 && FeatStart(o) == (|features| - 1) * Rows()
      ensures !tieOrder ==> BiasStart(o + 1) == BiasStart(o) + |features| - 1 && FeatStart(o + 1) == FeatStart(o) + PerOrder()
    {
    }

    ghost predicate IsBias(o: nat, l: nat) {
      o < orders && 1 <= l < |features|
    }

    ghost predicate IsFeature(o: nat, l: nat, f: nat) {
      o < orders && l < |features| && f < features[l]
    }

    lemma {:induction false} BeforeGrows(l: nat, m: nat)
      requires l < m <= |features|
      ensures Before(l) + features[l] <= Before(m)
    {
      if l + 1 < m {
        BeforeGrows(l, m - 1);
      }
    }

    /** Within an order, a feature's factor is one of that order's. */
    lemma InOrder(l: nat, f: nat)
      requires Valid() && l < |features| && f < features[l]
      ensures (if tieLM then 0 else Before(l)) + f < PerOrder()
    {
      BeforeGrows(l, |features|);
    }

    /** Every parameter asked for is there, and biases stand before factors. */
    lemma InRange(o: nat, l: nat, f: nat)
      requires Valid()
      ensures IsBias(o, l) ==> BiasAt(o, l) < (|features| - 1) * Rows() <= NumParams()
      ensures IsFeature(o, l, f) ==> (|features| - 1) * Rows() <= FeatureAt(o, l, f) < NumParams()
    {
      if IsBias(o, l) {
        PlaceBelow(if tieOrder then 0 else o, |features| - 1, l - 1, Rows());
        PlaceBelow(0, PerOrder(), 0, Rows());
      }
      if IsFeature(o, l, f) {
        InOrder(l, f);
        PlaceBelow(if tieOrder then 0 else o, PerOrder(), (if tieLM then 0 else Before(l)) + f, Rows());
      }
    }

    /** Two biases are one parameter exactly if they are of one component and of one order, or orders share. */
    lemma BiasShared(o: nat, l: nat, p: nat, m: nat)
      requires Valid() && IsBias(o, l) && IsBias(p, m)
      ensures BiasAt(o, l) == BiasAt(p, m) <==> l == m && (tieOrder || o == p)
    {
      PlaceUnique(if tieOrder then 0 else o, if tieOrder then 0 else p, |features| - 1, l - 1, m - 1);
    }

    lemma {:induction false} SameFeature(l: nat, f: nat, m: nat, g: nat)
      requires l < |features| && m < |features| && f < features[l] && g < features[m]
      ensures Before(l) + f == Before(m) + g <==> l == m && f == g
    {
      if l < m {
        BeforeGrows(l, m);
      } else if m < l {
        BeforeGrows(m, l);
      }
    }

    /** Two factors are one parameter exactly if they are of one feature, of one component or components share, and
        of one order or orders share. */
    lemma FeatureShared(o: nat, l: nat, f: nat, p: nat, m: nat, g: nat)
      requires Valid() && IsFeature(o, l, f) && IsFeature(p, m, g)
      ensures FeatureAt(o, l, f) == FeatureAt(p, m, g)
         <==> f == g && (tieLM || l == m) && (tieOrder || o == p)
    {
      hide Place;
      InOrder(l, f);
      InOrder(m, g);
      SameFeature(l, f, m, g);
      PlaceUnique(if tieOrder then 0 else o, if tieOrder then 0 else p, PerOrder(),
                  (if tieLM then 0 else Before(l)) + f, (if tieLM then 0 else Before(m)) + g);
    }

    /** Parameters that are not shared stand order by order, then component by component, then feature by feature. */
    lemma BiasesAscend(o: nat, l: nat, p: nat, m: nat)
      requires Valid() && !tieOrder && IsBias(o, l) && IsBias(p, m)
      ensures BiasAt(o, l) < BiasAt(p, m) <==> o < p || (o == p && l < m)
    {
      PlacesAscend(o, p, |features| - 1, l - 1, m - 1);
    }

    lemma FeaturesAscend(o: nat, l: nat, f: nat, p: nat, m: nat, g: nat)
      requires Valid() && !tieOrder && !tieLM && IsFeature(o, l, f) && IsFeature(p, m, g)
      ensures FeatureAt(o, l, f) < FeatureAt(p, m, g) <==> o < p || (o == p && (l < m || (l == m && f < g)))
    {
      hide Place;
      InOrder(l, f);
      InOrder(m, g);
      if l < m {
        BeforeGrows(l, m);
      } else if m < l {
        BeforeGrows(m, l);
      }
      PlacesAscend(o, p, PerOrder(), Before(l) + f, Before(m) + g);
    }

    lemma {:induction false} FeatureOf(m: nat, k: nat) returns (l: nat, f: nat)
      requires m <= |features| && k < Before(m)
      ensures l < m && f < features[l] && Before(l) + f == k
    {
      if k < Before(m - 1) {
        l, f := FeatureOf(m - 1, k);
      } else {
        l, f := m - 1, k - Before(m - 1);
      }
    }

    /** No parameter is left unused. */
    lemma AllUsed(k: nat) returns (o: nat, l: nat, f: nat)
      requires Valid() && orders > 0 && k < NumParams()
      ensures (IsBias(o, l) && BiasAt(o, l) == k) || (IsFeature(o, l, f) && FeatureAt(o, l, f) == k)
    {
      var biases := (|features| - 1) * Rows();
      if k < biases {
        var a;
        o, a := PlaceOf(k, |features| - 1, Rows());
        l, f := a + 1, 0;
      } else {
        var a;
        o, a := PlaceOf(k - biases, PerOrder(), Rows());
        if tieLM {
          l, f := 0, a;
        } else {
          l, f := FeatureOf(|features|, a);
        }
      }
    }

    lemma NotEmpty()
      requires Valid()
      ensures |features| > 0
    {
    }

    /** How many of an order's factors are passed before component l. */
    ghost function Reached(l: nat): nat
      requires l <= |features|
    {
      if !tieLM then Before(l) else if l == 0 then 0 else features[0]
    }

    lemma Reach(l: nat)
      requires Valid() && l < |features|
      ensures Reached(0) == 0 && Reached(|features|) == PerOrder()
      ensures Reached(l + 1) == (if tieLM then 0 else Before(l)) + features[l] <= PerOrder()
      ensures !tieLM ==> Reached(l) == Before(l)
    {
      BeforeGrows(l, |features|);
    }

    /** Order o's biases and factors lie within the vector. */
    lemma OrderFits(o: nat)
      requires Valid() && o < orders
      ensures BiasStart(o) + |features| - 1 <= NumParams() && FeatStart(o) + PerOrder() <= NumParams()
    {
      var n, k := |features| - 1, if tieOrder then 0 else o;
      RowsGrow(k, Rows(), n);
      RowsGrow(k, Rows(), PerOrder());
      assert PerOrder() * Rows() >= 0;
    }
  }

  /** Item a of row o, in rows of n. */
  function Place(o: nat, n: nat, a: nat): nat {
    o * n + a
  }

  lemma RowsGrow(o: nat, p: nat, n: nat)
    requires o < p
    ensures o * n + n <= p * n
  {
    assert p * n == o * n + (p - o) * n;
    AtLeastOnce(p - o, n);
  }

  lemma AtLeastOnce(k: nat, n: nat)
    requires k >= 1
    ensures k * n >= n
  {
    assert k * n == (k - 1) * n + n;
  }

  lemma PlaceBelow(o: nat, n: nat, a: nat, rows: nat)
    ensures o < rows && a < n ==> Place(o, n, a) < n * rows
    ensures n * rows >= 0
  {
    if o < rows {
      RowsGrow(o, rows, n);
    }
  }

  lemma PlaceUnique(o: nat, p: nat, n: nat, a: nat, b: nat)
    requires a < n && b < n
    ensures Place(o, n, a) == Place(p, n, b) <==> o == p && a == b
  {
    if o < p {
      RowsGrow(o, p, n);
    } else if p < o {
      RowsGrow(p, o, n);
    }
  }

  lemma PlacesAscend(o: nat, p: nat, n: nat, a: nat, b: nat)
    requires a < n && b < n
    ensures Place(o, n, a) < Place(p, n, b) <==> o < p || (o == p && a < b)
  {
    if o < p {
      RowsGrow(o, p, n);
    } else if p < o {
      RowsGrow(p, o, n);
    }
  }

  lemma PlaceOf(k: nat, n: nat, rows: nat) returns (o: nat, a: nat)
    requires k < n * rows
    ensures o < rows && a < n && Place(o, n, a) == k
  {
    o, a := k / n, k % n;
    Quotient(k, n, rows);
  }

  lemma Quotient(k: nat, n: nat, rows: nat)
    requires k < n * rows && n > 0
    ensures k / n < rows && k / n * n + k % n == k
  {
    var o := k / n;
    if o > rows {
      RowsGrow(rows, o, n);
    }
  }

  // ---------- which parameters are tuned ----------

  /** The places below i that are tuned. */
  ghost function Tuned(mask: seq<bool>, i: nat): set<nat>
    requires i <= |mask|
  {
    set k: nat | k < i && mask[k]
  }

  lemma TunedNext(mask: seq<bool>, i: nat)
    requires i < |mask|
    ensures |Tuned(mask, i + 1)| == |Tuned(mask, i)| + if mask[i] then 1 else 0
  {
    var before, after := Tuned(mask, i), Tuned(mask, i + 1);
    assert after == if mask[i] then before + {i} else before;
  }

  lemma {:induction false} TunedGrows(mask: seq<bool>, i: nat, j: nat)
    requires i <= j <= |mask|
    ensures |Tuned(mask, i)| <= |Tuned(mask, j)|
  {
    if i < j {
      TunedGrows(mask, i, j - 1);
      TunedNext(mask, j - 1);
    }
  }

  /** Tuned places take the parameters given, in order; all others keep their default. */
  method MapParams(mask: seq<bool>, defaults: seq<real>, params: seq<real>) returns (all: seq<real>)
    requires |mask| == |defaults| && |params| == |Tuned(mask, |mask|)|
    ensures |all| == |mask|
    ensures forall i | 0 <= i < |mask| && !mask[i] :: all[i] == defaults[i]
    ensures forall i | 0 <= i < |mask| && mask[i] :: |Tuned(mask, i)| < |params| && all[i] == params[|Tuned(mask, i)|]
  {
    all := defaults;
    var p := 0;
    for i := 0 to |mask|
      invariant |all| == |mask| && p == |Tuned(mask, i)|
      invariant forall k | i <= k < |mask| :: all[k] == defaults[k]
      invariant forall k | 0 <= k < i && !mask[k] :: all[k] == defaults[k]
      invariant forall k | 0 <= k < i && mask[k] :: |Tuned(mask, k)| < |params| && all[k] == params[|Tuned(mask, k)|]
    {
      TunedNext(mask, i);
      if mask[i] {
        TunedGrows(mask, i + 1, |mask|);
        all := all[i := params[p]];
        p := p + 1;
      }
    }
  }

  // ---------- reading it ----------

  method ReadFactors(params: seq<real>, from: nat, n: nat) returns (own: seq<real>, pFeat: nat)
    requires from + n <= |params|
    ensures own == params[from..from + n] && pFeat == from + n
  {
    own, pFeat := [], from;
    for f := 0 to n
      invariant pFeat == from + f && own == params[from..from + f]
    {
      own := own + [params[pFeat]];
      pFeat := pFeat + 1;
    }
  }

  /** Component l has its factors, where its order's begin at the given place. */
  ghost predicate ReadAt(lay: Layout, params: seq<real>, featStart: nat, l: nat, own: seq<real>)
    requires l < |lay.features|
  {
    var from := featStart + if lay.tieLM then 0 else lay.Before(l);
    from + lay.features[l] <= |params| && own == params[from..from + lay.features[l]]
  }

  /** The biases and factors of one order, read from two places of the vector on; the first component has no bias.
      Also how far reading got. */
  method ReadOrder(lay: Layout, params: seq<real>, biasStart: nat, featStart: nat)
    returns (biases: seq<real>, factors: seq<seq<real>>, pBias: nat, pFeat: nat)
    requires lay.Valid() && biasStart + |lay.features| - 1 <= |params| && featStart + lay.PerOrder() <= |params|
    ensures pBias == biasStart + |lay.features| - 1 && pFeat == featStart + lay.PerOrder()
    ensures |biases| == |factors| == |lay.features| && biases[0] == 0.0
    ensures forall l | 1 <= l < |biases| :: biases[l] == params[biasStart + l - 1]
    ensures forall l | 0 <= l < |factors| :: ReadAt(lay, params, featStart, l, factors[l])
  {
    hide Layout.Valid, Layout.Before, Layout.PerOrder, ReadAt;
    lay.NotEmpty();
    lay.Reach(0);
    biases, factors, pBias, pFeat := [], [], biasStart, featStart;
    for l := 0 to |lay.features|
      invariant |biases| == |factors| == l && pBias == biasStart + (if l == 0 then 0 else l - 1)
      invariant pFeat == featStart + lay.Reached(l)
      invariant l > 0 ==> biases[0] == 0.0
      invariant forall k | 1 <= k < l :: biases[k] == params[biasStart + k - 1]
      invariant forall k | 0 <= k < l :: ReadAt(lay, params, featStart, k, factors[k])
    {
      lay.Reach(l);
      if lay.tieLM {
        pFeat := featStart;
      }
      if l == 0 {
        biases := biases + [0.0];
      } else {
        biases := biases + [params[pBias]];
        pBias := pBias + 1;
      }
      var own;
      own, pFeat := ReadFactors(params, pFeat, lay.features[l]);
      assert ReadAt(lay, params, featStart, l, own) by { OneRead(lay, params, featStart, l, own); }
      factors := factors + [own];
    }
    lay.Reach(|lay.features| - 1);
  }

  lemma OneRead(lay: Layout, params: seq<real>, featStart: nat, l: nat, own: seq<real>)
    requires l < |lay.features| && featStart + (if lay.tieLM then 0 else lay.Before(l)) + lay.features[l] <= |params|
    requires var from := featStart + if lay.tieLM then 0 else lay.Before(l); own == params[from..from + lay.features[l]]
    ensures ReadAt(lay, params, featStart, l, own)
  {
  }

  /** Order o's biases and factors are the parameters of its own, or of all orders. */
  ghost predicate OrderRead(lay: Layout, params: seq<real>, o: nat, biases: seq<real>, factors: seq<seq<real>>) {
    && |biases| == |factors| == |lay.features| > 0
    && biases[0] == 0.0
    && (forall l | 1 <= l < |biases| :: BiasRead(lay, params, o, l, biases[l]))
    && (forall l | 0 <= l < |factors| :: |factors[l]| == lay.features[l])
    && forall l, f | 0 <= l < |factors| && 0 <= f < |factors[l]| :: FactorRead(lay, params, o, l, f, factors[l][f])
  }

  ghost predicate BiasRead(lay: Layout, params: seq<real>, o: nat, l: nat, x: real)
    requires 1 <= l < |lay.features|
  {
    lay.BiasAt(o, l) < |params| && x == params[lay.BiasAt(o, l)]
  }

  ghost predicate FactorRead(lay: Layout, params: seq<real>, o: nat, l: nat, f: nat, x: real)
    requires l < |lay.features|
  {
    lay.FeatureAt(o, l, f) < |params| && x == params[lay.FeatureAt(o, l, f)]
  }

  /** The biases and factors of every order. */
  method ReadParams(lay: Layout, params: seq<real>) returns (biases: seq<seq<real>>, factors: seq<seq<seq<real>>>)
    requires lay.Valid() && |params| >= lay.NumParams()
    ensures |biases| == |factors| == lay.orders
    ensures forall o | 0 <= o < lay.orders :: OrderRead(lay, params, o, biases[o], factors[o])
  {
    hide Layout.Valid, Layout.PerOrder, Layout.Rows, Layout.NumParams, Layout.BiasStart, Layout.FeatStart, OrderRead, ReadAt;
    biases, factors := [], [];
    lay.NotEmpty();
    lay.StartsMove(0);
    var pBias, pFeat := 0, (|lay.features| - 1) * lay.Rows();
    for o := 0 to lay.orders
      invariant |biases| == |factors| == o
      invariant !lay.tieOrder ==> pBias == lay.BiasStart(o) && pFeat == lay.FeatStart(o)
      invariant forall k | 0 <= k < o :: OrderRead(lay, params, k, biases[k], factors[k])
    {
      lay.StartsMove(o);
      if lay.tieOrder {
        pBias, pFeat := 0, (|lay.features| - 1) * lay.Rows();
      }
      lay.OrderFits(o);
      var b, w;
      b, w, pBias, pFeat := ReadOrder(lay, params, pBias, pFeat);
      OrderIsRead(lay, params, o, b, w);
      biases, factors := biases + [b], factors + [w];
    }
  }

  lemma OrderIsRead(lay: Layout, params: seq<real>, o: nat, biases: seq<real>, factors: seq<seq<real>>)
    requires lay.Valid() && |biases| == |factors| == |lay.features| && biases[0] == 0.0
    requires lay.BiasStart(o) + |lay.features| - 1 <= |params|
    requires forall l | 1 <= l < |biases| :: biases[l] == params[lay.BiasStart(o) + l - 1]
    requires forall l | 0 <= l < |factors| :: ReadAt(lay, params, lay.FeatStart(o), l, factors[l])
    ensures OrderRead(lay, params, o, biases, factors)
  {
    forall l | 1 <= l < |biases| ensures BiasRead(lay, params, o, l, biases[l]) {
    }
    forall l, f | 0 <= l < |factors| && 0 <= f < |factors[l]| ensures FactorRead(lay, params, o, l, f, factors[l][f]) {
      assert ReadAt(lay, params, lay.FeatStart(o), l, factors[l]);
    }
    forall l | 0 <= l < |factors| ensures |factors[l]| == lay.features[l] {
      assert ReadAt(lay, params, lay.FeatStart(o), l, factors[l]);
    }
  }
}
