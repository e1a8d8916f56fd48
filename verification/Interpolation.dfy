/** Interpolating component models over one trie. */
module Interpolation {
  // Weighted probabilities, recomputed backoff weights, and the same under masks.

  import opened Bins
  import opened Tries
  import Concave

  /** One order of the mixture. Component l has probabilities probs[l]; its weight after a history is the
      exponential of a bias plus a linear combination of history features. */
  datatype Mixture = Mixture(exp: real -> real, numLower: nat, hists: seq<nat>, probs: seq<seq<real>>,
                             biases: seq<real>, params: seq<seq<real>>, features: seq<seq<seq<real>>>)
  {
    ghost predicate PositiveAt(x: real) {
      exp(x) > 0.0
    }

    ghost predicate Valid() {
      && |probs| > 0 && |biases| == |params| == |features| == |probs|
      && (forall x: real :: PositiveAt(x))
      && (forall l | 0 <= l < |probs| :: ComponentOk(l))
      && forall i | 0 <= i < |hists| :: hists[i] < numLower
    }

    ghost predicate ComponentOk(l: nat)
      requires l < |probs| == |params| == |features|
    {
      && |probs[l]| == |hists| && |params[l]| == |features[l]|
      && forall f | 0 <= f < |features[l]| :: |features[l][f]| == numLower
    }

    /** Bias plus the first f features. */
    ghost function LogWeight(l: nat, h: nat, f: nat): real
      requires Valid() && l < |probs| && h < numLower && f <= |features[l]|
    {
      assert ComponentOk(l);
      if f == 0 then biases[l] else LogWeight(l, h, f - 1) + features[l][f-1][h] * params[l][f-1]
    }

    ghost function Weight(l: nat, h: nat): (w: real)
      requires Valid() && l < |probs| && h < numLower
      ensures w > 0.0
    {
      assert PositiveAt(LogWeight(l, h, |features[l]|));
      exp(LogWeight(l, h, |features[l]|))
    }

    /** Without features, or with all parameters zero, a component's weight is the exponential of its bias. */
    lemma {:induction false} PlainWeight(l: nat, h: nat, n: nat)
      requires Valid() && l < |probs| && h < numLower && |params[l]| == |features[l]| && n <= |features[l]|
      requires forall f | 0 <= f < |params[l]| :: params[l][f] == 0.0
      ensures LogWeight(l, h, n) == biases[l]
      ensures n == |features[l]| ==> Weight(l, h) == exp(biases[l])
    {
      if n > 0 {
        assert ComponentOk(l);
        PlainWeight(l, h, n - 1);
      }
    }

    /** So a component of bias zero has weight one. */
    lemma UnitWeight(l: nat, h: nat)
      requires Valid() && Concave.IsExp(exp) && l < |probs| && h < numLower && |params[l]| == |features[l]| && biases[l] == 0.0
      requires forall f | 0 <= f < |params[l]| :: params[l][f] == 0.0
      ensures Weight(l, h) == 1.0
    {
      PlainWeight(l, h, |features[l]|);
      Concave.ExpPositive(exp, 0.0);
    }

    /** Total weight of the first n components. */
    ghost function TotWeight(h: nat, n: nat): (w: real)
      requires Valid() && h < numLower && n <= |probs|
      ensures w >= 0.0 && (n > 0 ==> w > 0.0)
    {
      if n == 0 then 0.0 else TotWeight(h, n - 1) + Weight(n - 1, h)
    }

    ghost function At(l: nat, i: nat): real
      requires Valid() && l < |probs| && i < |hists|
    {
      assert ComponentOk(l);
      probs[l][i]
    }

    ghost function Weighted(i: nat, n: nat): real
      requires Valid() && i < |hists| && n <= |probs|
    {
      if n == 0 then 0.0 else Weighted(i, n - 1) + At(n - 1, i) * Weight(n - 1, hists[i])
    }

    /** The interpolated probability: a weighted mean over the components. */
    ghost function Prob(i: nat): real
      requires Valid() && i < |hists|
    {
      Weighted(i, |probs|) / TotWeight(hists[i], |probs|)
    }

    ghost function Probs(): (s: seq<real>)
      requires Valid()
      ensures |s| == |hists|
    {
      seq(|hists|, i requires 0 <= i < |hists| => Prob(i))
    }

    // ---------- what a history's n-grams hold ----------

    ghost function WeightedAll(n: nat): (s: seq<real>)
      requires Valid() && n <= |probs|
      ensures |s| == |hists|
    {
      seq(|hists|, i requires 0 <= i < |hists| => Weighted(i, n))
    }

    ghost function HeldBy(l: nat, h: nat): real
      requires Valid() && l < |probs|
    {
      assert ComponentOk(l);
      BinSum(hists, probs[l], h, |hists|)
    }

    /** The first n components' masses under h, weighted. */
    ghost function HeldSum(h: nat, n: nat): real
      requires Valid() && h < numLower && n <= |probs|
    {
      if n == 0 then 0.0 else HeldSum(h, n - 1) + Weight(n - 1, h) * HeldBy(n - 1, h)
    }

    lemma {:induction false} WeightedSum(h: nat, n: nat)
      requires Valid() && h < numLower && n <= |probs|
      ensures BinSum(hists, WeightedAll(n), h, |hists|) == HeldSum(h, n)
    {
      hide Valid, Weight, At;
      if n == 0 {
        BinSumZero(hists, WeightedAll(0), h, |hists|);
      } else {
        var l := n - 1;
        WeightedSum(h, l);
        ComponentFacts(l);
        forall i | 0 <= i < |hists| && hists[i] == h
          ensures Blend(WeightedAll(n)[i], WeightedAll(l)[i], Weight(l, h), probs[l][i])
        {
          AtUnfold(l, i);
        }
        BinSumLinear(hists, WeightedAll(l), probs[l], WeightedAll(n), Weight(l, h), h, |hists|);
      }
    }

    lemma ComponentFacts(l: nat)
      requires Valid() && l < |probs|
      ensures |probs| == |biases| == |params| == |features| && ComponentOk(l)
    {
    }

    lemma AtUnfold(l: nat, i: nat)
      requires Valid() && l < |probs| && i < |hists|
      ensures |probs[l]| == |hists| && At(l, i) == probs[l][i]
    {
      ComponentFacts(l);
    }

    /** The mixture's mass under a history is the weighted mean of the components' masses. */
    lemma MixtureHolds(h: nat)
      requires Valid() && h < numLower
      ensures BinSum(hists, Probs(), h, |hists|) * TotWeight(h, |probs|) == HeldSum(h, |probs|)
    {
      hide Valid, Weight, At, HeldBy, Weighted, WeightedAll, TotWeight, Probs, HeldSum;
      WeightedSum(h, |probs|);
      var t := TotWeight(h, |probs|);
      forall i | 0 <= i < |hists| && hists[i] == h
        ensures Blend(WeightedAll(|probs|)[i], 0.0, t, Probs()[i])
      {
        ProbTimes(i);
      }
      var zeros: seq<real> := seq(|hists|, _ => 0.0);
      BinSumLinear(hists, zeros, Probs(), WeightedAll(|probs|), t, h, |hists|);
      BinSumZero(hists, zeros, h, |hists|);
    }

    lemma ProbTimes(i: nat)
      requires Valid() && i < |hists| && hists[i] < numLower
      ensures Blend(WeightedAll(|probs|)[i], 0.0, TotWeight(hists[i], |probs|), Probs()[i])
    {
      hide Weight, At, Weighted, TotWeight;
      TotPositive(hists[i]);
      QuotientTimes(Weighted(i, |probs|), TotWeight(hists[i], |probs|));
    }

    lemma TotPositive(h: nat)
      requires Valid() && h < numLower
      ensures TotWeight(h, |probs|) > 0.0
    {
    }

    /** If every component's n-grams under h sum to one, so do the mixture's. */
    lemma MeanOfOnes(h: nat)
      requires Valid() && h < numLower && forall l | 0 <= l < |probs| :: HeldBy(l, h) == 1.0
      ensures BinSum(hists, Probs(), h, |hists|) == 1.0
    {
      hide Valid, Weight, HeldBy, Probs, BinSum;
      MixtureHolds(h);
      HeldOnes(h, |probs|);
      TotPositive(h);
      UnitFactor(BinSum(hists, Probs(), h, |hists|), TotWeight(h, |probs|), HeldSum(h, |probs|));
    }

    lemma {:induction false} HeldOnes(h: nat, n: nat)
      requires Valid() && h < numLower && n <= |probs| && forall l | 0 <= l < |probs| :: HeldBy(l, h) == 1.0
      ensures HeldSum(h, n) == TotWeight(h, n)
    {
      hide Valid, Weight, HeldBy;
      if n > 0 {
        HeldOnes(h, n - 1);
      }
    }
  }

  // ---------- what the parameters do ----------

  /** Component k's bias raised by d. */
  ghost function BiasRaised(m: Mixture, k: nat, d: real): Mixture
    requires k < |m.biases|
  {
    m.(biases := m.biases[k := m.biases[k] + d])
  }

  /** Component k's parameter for feature f raised by d. */
  ghost function ParamRaised(m: Mixture, k: nat, f: nat, d: real): Mixture
    requires k < |m.params| && f < |m.params[k]|
  {
    m.(params := m.params[k := m.params[k][f := m.params[k][f] + d]])
  }

  /** What raising a parameter by d adds to the logarithm of the weight after h. */
  ghost function Rise(m: Mixture, k: nat, f: nat, d: real, h: nat): real
    requires k < |m.features| && f < |m.features[k]| && h < |m.features[k][f]|
  {
    d * m.features[k][f][h]
  }

  lemma BiasRaisedValid(m: Mixture, k: nat, d: real)
    requires m.Valid() && k < |m.probs|
    ensures |m.biases| == |m.probs| && BiasRaised(m, k, d).Valid()
  {
    var m' := BiasRaised(m, k, d);
    forall x: real ensures m'.PositiveAt(x) {
      assert m.PositiveAt(x);
    }
    forall l | 0 <= l < |m'.probs| ensures m'.ComponentOk(l) {
      assert m.ComponentOk(l);
    }
  }

  lemma ParamRaisedValid(m: Mixture, k: nat, f: nat, d: real)
    requires m.Valid() && k < |m.probs| && f < |m.features[k]|
    ensures |m.params| == |m.probs| && f < |m.params[k]| && ParamRaised(m, k, f, d).Valid()
  {
    m.ComponentFacts(k);
    var m' := ParamRaised(m, k, f, d);
    forall x: real ensures m'.PositiveAt(x) {
      assert m.PositiveAt(x);
    }
    forall l | 0 <= l < |m'.probs| ensures m'.ComponentOk(l) {
      assert m.ComponentOk(l);
    }
  }

  lemma {:induction false} BiasRaisedLog(m: Mixture, k: nat, d: real, l: nat, h: nat, n: nat)
    requires m.Valid() && k < |m.probs| && l < |m.probs| && h < m.numLower && n <= |m.features[l]|
    ensures |m.biases| == |m.probs| && BiasRaised(m, k, d).Valid()
    ensures BiasRaised(m, k, d).LogWeight(l, h, n) == m.LogWeight(l, h, n) + if l == k then d else 0.0
  {
    hide Mixture.Valid;
    BiasRaisedValid(m, k, d);
    m.ComponentFacts(l);
    if n > 0 {
      BiasRaisedLog(m, k, d, l, h, n - 1);
    }
  }

  lemma {:induction false} ParamRaisedLog(m: Mixture, k: nat, f: nat, d: real, l: nat, h: nat, n: nat)
    requires m.Valid() && k < |m.probs| && f < |m.features[k]| && l < |m.probs| && h < m.numLower && n <= |m.features[l]|
    ensures |m.params| == |m.probs| == |m.features| && f < |m.params[k]| && h < |m.features[k][f]| && ParamRaised(m, k, f, d).Valid()
    ensures ParamRaised(m, k, f, d).LogWeight(l, h, n)
         == m.LogWeight(l, h, n) + if l == k && f < n then Rise(m, k, f, d, h) else 0.0
  {
    hide Mixture.Valid;
    ParamRaisedValid(m, k, f, d);
    m.ComponentFacts(l);
    m.ComponentFacts(k);
    if n > 0 {
      ParamRaisedLog(m, k, f, d, l, h, n - 1);
      if l == k && f == n - 1 {
        RaisedTerm(m.features[k][f][h], m.params[k][f], d);
      }
    }
  }

  lemma RaisedTerm(x: real, p: real, d: real)
    ensures x * (p + d) == x * p + d * x
  {
  }

  /** Raising a bias by d multiplies that component's weight by the exponential of d, after every history, and changes
      no other component's. */
  lemma BiasRaisedWeight(m: Mixture, k: nat, d: real, l: nat, h: nat)
    requires m.Valid() && Concave.IsExp(m.exp) && k < |m.probs| && l < |m.probs| && h < m.numLower
    ensures |m.biases| == |m.probs| && BiasRaised(m, k, d).Valid()
    ensures BiasRaised(m, k, d).Weight(l, h) == if l == k then m.Weight(l, h) * m.exp(d) else m.Weight(l, h)
  {
    hide Mixture.Valid;
    m.ComponentFacts(l);
    BiasRaisedLog(m, k, d, l, h, |m.features[l]|);
    assert Concave.SumLaw(m.exp, m.LogWeight(l, h, |m.features[l]|), d);
  }

  /** Raising a feature's parameter by d multiplies it by the exponential of d times what the feature is there. */
  lemma ParamRaisedWeight(m: Mixture, k: nat, f: nat, d: real, l: nat, h: nat)
    requires m.Valid() && Concave.IsExp(m.exp) && k < |m.probs| && f < |m.features[k]| && l < |m.probs| && h < m.numLower
    ensures |m.params| == |m.probs| == |m.features| && f < |m.params[k]| && h < |m.features[k][f]| && ParamRaised(m, k, f, d).Valid()
    ensures ParamRaised(m, k, f, d).Weight(l, h)
         == if l == k then m.Weight(l, h) * m.exp(Rise(m, k, f, d, h)) else m.Weight(l, h)
  {
    hide Mixture.Valid;
    m.ComponentFacts(l);
    ParamRaisedLog(m, k, f, d, l, h, |m.features[l]|);
    assert Concave.SumLaw(m.exp, m.LogWeight(l, h, |m.features[l]|), Rise(m, k, f, d, h));
  }

  /** The same components, of which after h only k weighs more, by x. */
  ghost predicate Heavier(m: Mixture, m': Mixture, k: nat, h: nat, x: real)
    requires m.Valid() && m'.Valid() && h < m.numLower
  {
    && m'.probs == m.probs && m'.hists == m.hists && m'.numLower == m.numLower
    && forall l | 0 <= l < |m.probs| :: m'.Weight(l, h) == m.Weight(l, h) + if l == k then x else 0.0
  }

  lemma {:induction false} HeavierTotal(m: Mixture, m': Mixture, k: nat, h: nat, x: real, n: nat)
    requires m.Valid() && m'.Valid() && h < m.numLower && Heavier(m, m', k, h, x) && n <= |m.probs|
    ensures m'.TotWeight(h, n) == m.TotWeight(h, n) + if k < n then x else 0.0
  {
    hide Mixture.Valid, Mixture.Weight;
    if n > 0 {
      HeavierTotal(m, m', k, h, x, n - 1);
    }
  }

  lemma {:induction false} HeavierWeighted(m: Mixture, m': Mixture, k: nat, x: real, i: nat, n: nat)
    requires m.Valid() && m'.Valid() && i < |m.hists| && m.hists[i] < m.numLower && k < |m.probs|
    requires Heavier(m, m', k, m.hists[i], x) && n <= |m.probs|
    ensures m'.Weighted(i, n) == m.Weighted(i, n) + if k < n then m.At(k, i) * x else 0.0
  {
    hide Mixture.Valid, Mixture.Weight, Mixture.At;
    if n > 0 {
      HeavierWeighted(m, m', k, x, i, n - 1);
      SameEntryAt(m, m', n - 1, i);
      RaisedTerm(m.At(n - 1, i), m.Weight(n - 1, m.hists[i]), x);
    }
  }

  lemma SameEntryAt(m: Mixture, m': Mixture, l: nat, i: nat)
    requires m.Valid() && m'.Valid() && m'.probs == m.probs && m'.hists == m.hists && l < |m.probs| && i < |m.hists|
    ensures m'.At(l, i) == m.At(l, i)
  {
    hide Mixture.Valid;
    m.AtUnfold(l, i);
    m'.AtUnfold(l, i);
  }

  /** What the mixture then gives: its total weight, and its weighted sum, grow by component k's extra weight. */
  lemma HeavierProb(m: Mixture, m': Mixture, k: nat, x: real, i: nat)
    requires m.Valid() && m'.Valid() && i < |m.hists| && m.hists[i] < m.numLower && k < |m.probs|
    requires Heavier(m, m', k, m.hists[i], x)
    ensures var t := m.TotWeight(m.hists[i], |m.probs|);
            t > 0.0 && t + x > 0.0 && m'.Prob(i) * (t + x) == m.Prob(i) * t + m.At(k, i) * x
  {
    hide Mixture.Valid, Mixture.Weight, Mixture.At, Mixture.TotWeight, Mixture.Weighted;
    var h, n := m.hists[i], |m.probs|;
    m.TotPositive(h);
    m'.TotPositive(h);
    HeavierTotal(m, m', k, h, x, n);
    HeavierWeighted(m, m', k, x, i, n);
    QuotientTimes(m.Weighted(i, n), m.TotWeight(h, n));
    QuotientTimes(m'.Weighted(i, n), m'.TotWeight(h, n));
  }

  /** What a weight gains when it is multiplied by e. */
  ghost function Gained(w: real, e: real): real {
    w * (e - 1.0)
  }

  lemma GainedIs(w: real, e: real)
    ensures w * e == w + Gained(w, e)
  {
  }

  /** With the bias of component k raised by d, the interpolated probability moves towards that component's. */
  lemma BiasRaisedProb(m: Mixture, k: nat, d: real, i: nat)
    requires m.Valid() && Concave.IsExp(m.exp) && k < |m.probs| && i < |m.hists| && m.hists[i] < m.numLower
    ensures |m.biases| == |m.probs| && BiasRaised(m, k, d).Valid()
    ensures var t, x := m.TotWeight(m.hists[i], |m.probs|), Gained(m.Weight(k, m.hists[i]), m.exp(d));
            t + x > 0.0 && BiasRaised(m, k, d).Prob(i) * (t + x) == m.Prob(i) * t + m.At(k, i) * x
  {
    hide Mixture.Valid, Mixture.Weight, Mixture.At, Mixture.TotWeight, Mixture.Prob;
    BiasRaisedValid(m, k, d);
    var h, m' := m.hists[i], BiasRaised(m, k, d);
    var w := m.Weight(k, h);
    var x := Gained(w, m.exp(d));
    GainedIs(w, m.exp(d));
    hide Gained;
    forall l | 0 <= l < |m.probs| ensures m'.Weight(l, h) == m.Weight(l, h) + if l == k then x else 0.0 {
      BiasRaisedWeight(m, k, d, l, h);
    }
    HeavierProb(m, m', k, x, i);
  }

  /** The same for a feature's parameter. */
  lemma ParamRaisedProb(m: Mixture, k: nat, f: nat, d: real, i: nat)
    requires m.Valid() && Concave.IsExp(m.exp) && k < |m.probs| && f < |m.features[k]|
    requires i < |m.hists| && m.hists[i] < m.numLower
    ensures |m.params| == |m.probs| == |m.features| && f < |m.params[k]| && m.hists[i] < |m.features[k][f]| && ParamRaised(m, k, f, d).Valid()
    ensures var t := m.TotWeight(m.hists[i], |m.probs|);
            var x := Gained(m.Weight(k, m.hists[i]), m.exp(Rise(m, k, f, d, m.hists[i])));
            t + x > 0.0 && ParamRaised(m, k, f, d).Prob(i) * (t + x) == m.Prob(i) * t + m.At(k, i) * x
  {
    hide Mixture.Valid, Mixture.Weight, Mixture.At, Mixture.TotWeight, Mixture.Prob;
    ParamRaisedValid(m, k, f, d);
    m.ComponentFacts(k);
    var h, m' := m.hists[i], ParamRaised(m, k, f, d);
    var w, e := m.Weight(k, h), m.exp(Rise(m, k, f, d, h));
    var x := Gained(w, e);
    GainedIs(w, e);
    hide Gained, Rise;
    forall l | 0 <= l < |m.probs| ensures m'.Weight(l, h) == m.Weight(l, h) + if l == k then x else 0.0 {
      ParamRaisedWeight(m, k, f, d, l, h);
    }
    HeavierProb(m, m', k, x, i);
  }

  lemma QuotientTimes(x: real, t: real)
    requires t > 0.0
    ensures x == 0.0 + t * (x / t)
  {
  }

  lemma UnitFactor(x: real, t: real, s: real)
    requires t > 0.0 && x * t == s && s == t
    ensures x == 1.0
  {
    assert (x - 1.0) * t == 0.0;
  }

  // ---------- backoff weights and normalisation ----------

  /** The recomputed backoff weight: undefined when the lower order already gives everything to stored words. */
  ghost predicate Recomputed(bow: real, numerator: real, denominator: real) {
    denominator != 1.0 && bow == (1.0 - numerator) / (1.0 - denominator)
  }

  /** The weight the division leaves; undefined is what dividing by zero does. */
  ghost predicate Divided(bow: real, numerator: real, denominator: real, undefined: real) {
    if denominator == 1.0 then bow == undefined else Recomputed(bow, numerator, denominator)
  }

  ghost function Numerator(g: Trie, t: Tables, n: nat, h: nat): real
    requires g.Valid() && g.Fits(t) && 1 <= n <= |g.levels|
  {
    BinSum(g.Hists(n), t.probs[n], h, g.Size(n))
  }

  ghost function Denominator(g: Trie, t: Tables, n: nat, h: nat): real
    requires g.Valid() && g.Fits(t) && 1 <= n <= |g.levels|
  {
    BinSum(g.Hists(n), g.Lower(t, n), h, g.Size(n))
  }

  /** Given a normalised shorter history, h is normalised exactly when its weight spreads what is left. */
  lemma NormalisedIff(g: Trie, t: Tables, n: nat, h: nat)
    requires g.Valid() && g.Fits(t) && 1 <= n <= |g.levels| && h < g.Size(n - 1)
    requires g.Mass(t, n - 1, g.Shorter(n, h), g.vocab) == 1.0
    ensures g.Mass(t, n, h, g.vocab) == 1.0
       <==> g.BowAt(t, n, h) * (1.0 - Denominator(g, t, n, h)) == 1.0 - Numerator(g, t, n, h)
    ensures Denominator(g, t, n, h) != 1.0 ==>
      (Recomputed(g.BowAt(t, n, h), Numerator(g, t, n, h), Denominator(g, t, n, h))
       <==> g.Mass(t, n, h, g.vocab) == 1.0)
  {
    hide Trie.Valid, Trie.Mass, BinSum, Trie.BowAt, Trie.Lower, Trie.Shorter, Trie.Fits;
    g.MassSplit(t, n, h);
    Spread(g.Mass(t, n, h, g.vocab), g.BowAt(t, n, h), Numerator(g, t, n, h), Denominator(g, t, n, h));
  }

  lemma Spread(mass: real, b: real, num: real, den: real)
    requires Blend(mass, num, b, 1.0 - den)
    ensures mass == 1.0 <==> b * (1.0 - den) == 1.0 - num
    ensures den != 1.0 ==> (mass == 1.0 <==> Recomputed(b, num, den))
  {
    if den != 1.0 {
      var d := 1.0 - den;
      assert (1.0 - num) / d * d == 1.0 - num;
      if b * d == 1.0 - num {
        assert (b - (1.0 - num) / d) * d == 0.0;
      }
    }
  }

  /** The weight of history k is what the division leaves. */
  ghost predicate DividedAt(g: Trie, t: Tables, m: nat, k: nat, undefined: real)
    requires g.Valid() && g.Fits(t) && 1 <= m <= |g.levels| && k < g.Size(m - 1)
  {
    Divided(g.BowAt(t, m, k), Numerator(g, t, m, k), Denominator(g, t, m, k), undefined)
  }

  /** Where the shorter history already gives everything to the words stored after k, these hold everything. */
  ghost predicate NothingLeft(g: Trie, t: Tables, m: nat, k: nat)
    requires g.Valid() && g.Fits(t) && 1 <= m <= |g.levels| && k < g.Size(m - 1)
  {
    Denominator(g, t, m, k) == 1.0 ==> Numerator(g, t, m, k) == 1.0
  }

  /** One order up. */
  lemma NormalisedStep(g: Trie, t: Tables, m: nat, k: nat, undefined: real)
    requires g.Valid() && g.Fits(t) && 1 <= m <= |g.levels| && k < g.Size(m - 1) && DividedAt(g, t, m, k, undefined)
    requires g.Mass(t, m - 1, g.Shorter(m, k), g.vocab) == 1.0
    ensures g.Mass(t, m, k, g.vocab) == 1.0 <==> NothingLeft(g, t, m, k)
  {
    hide Trie.Valid, Trie.Mass, Trie.BowAt, Trie.Lower, Trie.Shorter, Trie.Fits, Numerator, Denominator;
    NormalisedIff(g, t, m, k);
  }

  /** With recomputed weights and normalised unigrams, every history of the mixture is normalised. */
  lemma {:induction false} MixtureNormalised(g: Trie, t: Tables, n: nat, h: nat, undefined: real)
    requires g.Valid() && g.Fits(t) && 1 <= n <= |g.levels| && h < g.Size(n - 1)
    requires Numerator(g, t, 1, 0) == 1.0
    requires forall m, k | 2 <= m <= |g.levels| && 0 <= k < g.Size(m - 1) ::
               DividedAt(g, t, m, k, undefined) && NothingLeft(g, t, m, k)
    ensures g.Mass(t, n, h, g.vocab) == 1.0
  {
    hide Trie.Valid, Trie.Mass, Trie.Shorter, Trie.Fits, Numerator, DividedAt, NothingLeft;
    if n == 1 {
      UnigramsHoldAll(g, t);
    } else {
      MixtureNormalised(g, t, n - 1, g.Shorter(n, h), undefined);
      NormalisedStep(g, t, n, h, undefined);
    }
  }

  ghost predicate AllNormalised(g: Trie, t: Tables)
    requires g.Valid() && g.Fits(t)
  {
    forall n, h | 1 <= n <= |g.levels| && 0 <= h < g.Size(n - 1) :: g.Mass(t, n, h, g.vocab) == 1.0
  }

  /** Exactly when recomputed weights over normalised unigrams normalise every history. */
  lemma MixtureNormalisedExactly(g: Trie, t: Tables, undefined: real)
    requires g.Valid() && g.Fits(t) && Numerator(g, t, 1, 0) == 1.0
    requires forall m, k | 2 <= m <= |g.levels| && 0 <= k < g.Size(m - 1) :: DividedAt(g, t, m, k, undefined)
    ensures AllNormalised(g, t) <==> forall m, k | 2 <= m <= |g.levels| && 0 <= k < g.Size(m - 1) :: NothingLeft(g, t, m, k)
  {
    hide Trie.Valid, Trie.Mass, Trie.Shorter, Trie.Fits, Numerator, DividedAt, NothingLeft;
    if forall m, k | 2 <= m <= |g.levels| && 0 <= k < g.Size(m - 1) :: NothingLeft(g, t, m, k) {
      forall n, h | 1 <= n <= |g.levels| && 0 <= h < g.Size(n - 1) ensures g.Mass(t, n, h, g.vocab) == 1.0 {
        MixtureNormalised(g, t, n, h, undefined);
      }
    }
    if AllNormalised(g, t) {
      forall m, k | 2 <= m <= |g.levels| && 0 <= k < g.Size(m - 1) ensures NothingLeft(g, t, m, k) {
        ShorterThere(g, m, k);
        assert g.Mass(t, m - 1, g.Shorter(m, k), g.vocab) == 1.0;
        NormalisedStep(g, t, m, k, undefined);
      }
    }
  }

  lemma ShorterThere(g: Trie, m: nat, k: nat)
    requires g.Valid() && 2 <= m <= |g.levels| && k < g.Size(m - 1)
    ensures g.Shorter(m, k) < g.Size(m - 2)
  {
  }

  lemma UnigramsHoldAll(g: Trie, t: Tables)
    requires g.Valid() && g.Fits(t) && Numerator(g, t, 1, 0) == 1.0
    ensures g.Mass(t, 1, 0, g.vocab) == 1.0
  {
    g.UnigramMass(t);
  }

  // ---------- estimation in place ----------

  /** Exponential weights of component l, at the masked histories. */
  method ComponentWeights(m: Mixture, l: nat, mask: seq<bool>, weights: array<real>)
    requires m.Valid() && l < |m.probs| && weights.Length == |mask| == m.numLower
    modifies weights
    ensures forall h | 0 <= h < m.numLower && mask[h] :: weights[h] == m.Weight(l, h)
  {
    hide Mixture.Valid;
    m.ComponentFacts(l);
    for h := 0 to weights.Length
      invariant forall j | 0 <= j < h :: weights[j] == m.biases[l]
    {
      weights[h] := m.biases[l];
    }
    for f := 0 to |m.features[l]|
      invariant forall h | 0 <= h < m.numLower && mask[h] :: weights[h] == m.LogWeight(l, h, f)
    {
      var param := m.params[l][f];
      if param != 0.0 {
        AddFeature(m, l, f, mask, weights);
      }
    }
    for h := 0 to weights.Length
      invariant forall j | 0 <= j < h && mask[j] :: weights[j] == m.Weight(l, j)
      invariant forall j | h <= j < weights.Length && mask[j] :: weights[j] == m.LogWeight(l, j, |m.features[l]|)
    {
      if mask[h] {
        weights[h] := m.exp(weights[h]);
      }
    }
  }

  method AddFeature(m: Mixture, l: nat, f: nat, mask: seq<bool>, weights: array<real>)
    requires m.Valid() && l < |m.probs| && weights.Length == |mask| == m.numLower
    requires |m.params[l]| == |m.features[l]| && f < |m.features[l]|
    requires forall h | 0 <= h < m.numLower && mask[h] :: weights[h] == m.LogWeight(l, h, f)
    modifies weights
    ensures forall h | 0 <= h < m.numLower && mask[h] :: weights[h] == m.LogWeight(l, h, f + 1)
  {
    hide Mixture.Valid;
    m.ComponentFacts(l);
    for h := 0 to weights.Length
      invariant forall j | 0 <= j < h && mask[j] :: weights[j] == m.LogWeight(l, j, f + 1)
      invariant forall j | h <= j < weights.Length && mask[j] :: weights[j] == m.LogWeight(l, j, f)
    {
      if mask[h] {
        weights[h] := weights[h] + m.features[l][f][h] * m.params[l][f];
      }
    }
  }

  /** Interpolated probabilities at the masked n-grams (zero elsewhere); the unmasked pass is the one with
      every mask bit set. */
  method EstimateProbs(m: Mixture, weightMask: seq<bool>, probMask: seq<bool>,
                       weights: array<real>, totWeights: array<real>, probs: array<real>)
    requires m.Valid() && weights.Length == totWeights.Length == |weightMask| == m.numLower
    requires probs.Length == |probMask| == |m.hists|
    requires weights != totWeights && weights != probs && totWeights != probs
    requires forall i | 0 <= i < |m.hists| && probMask[i] :: m.hists[i] < m.numLower && weightMask[m.hists[i]]
    modifies weights, totWeights, probs
    ensures forall i | 0 <= i < |m.hists| :: probs[i] == if probMask[i] then m.Prob(i) else 0.0
  {
    hide Mixture.Valid, Mixture.Weight;
    Clear(totWeights);
    Clear(probs);
    for l := 0 to |m.probs|
      invariant forall h | 0 <= h < m.numLower && weightMask[h] :: totWeights[h] == m.TotWeight(h, l)
      invariant forall i | 0 <= i < |m.hists| :: probs[i] == if probMask[i] then m.Weighted(i, l) else 0.0
    {
      ComponentWeights(m, l, weightMask, weights);
      AddWeights(m, l, weightMask, weights, totWeights);
      AddComponent(m, l, weightMask, probMask, weights, probs);
    }
    for i := 0 to |m.hists|
      invariant forall h | 0 <= h < m.numLower && weightMask[h] :: totWeights[h] == m.TotWeight(h, |m.probs|)
      invariant forall j | 0 <= j < i :: probs[j] == if probMask[j] then m.Prob(j) else 0.0
      invariant forall j | i <= j < |m.hists| :: probs[j] == if probMask[j] then m.Weighted(j, |m.probs|) else 0.0
    {
      if probMask[i] {
        m.TotPositive(m.hists[i]);
        probs[i] := probs[i] / totWeights[m.hists[i]];
      }
    }
  }

  method Clear(a: array<real>)
    modifies a
    ensures forall i | 0 <= i < a.Length :: a[i] == 0.0
  {
    for i := 0 to a.Length
      invariant forall j | 0 <= j < i :: a[j] == 0.0
    {
      a[i] := 0.0;
    }
  }

  method AddWeights(m: Mixture, l: nat, mask: seq<bool>, weights: array<real>, totWeights: array<real>)
    requires m.Valid() && l < |m.probs| && weights.Length == totWeights.Length == |mask| == m.numLower
    requires weights != totWeights
    requires forall h | 0 <= h < m.numLower && mask[h] :: weights[h] == m.Weight(l, h) && totWeights[h] == m.TotWeight(h, l)
    modifies totWeights
    ensures forall h | 0 <= h < m.numLower && mask[h] :: totWeights[h] == m.TotWeight(h, l + 1)
  {
    hide Mixture.Valid, Mixture.Weight;
    for h := 0 to totWeights.Length
      invariant forall j | 0 <= j < h && mask[j] :: totWeights[j] == m.TotWeight(j, l + 1)
      invariant forall j | h <= j < totWeights.Length && mask[j] :: totWeights[j] == m.TotWeight(j, l)
    {
      if mask[h] {
        totWeights[h] := totWeights[h] + weights[h];
      }
    }
  }

  method AddComponent(m: Mixture, l: nat, weightMask: seq<bool>, probMask: seq<bool>, weights: array<real>,
                      probs: array<real>)
    requires m.Valid() && l < |m.probs| && weights.Length == |weightMask| == m.numLower
    requires probs.Length == |probMask| == |m.hists| && weights != probs
    requires forall h | 0 <= h < m.numLower && weightMask[h] :: weights[h] == m.Weight(l, h)
    requires forall i | 0 <= i < |m.hists| && probMask[i] :: m.hists[i] < m.numLower && weightMask[m.hists[i]]
    requires forall i | 0 <= i < |m.hists| :: probs[i] == if probMask[i] then m.Weighted(i, l) else 0.0
    modifies probs
    ensures forall i | 0 <= i < |m.hists| :: probs[i] == if probMask[i] then m.Weighted(i, l + 1) else 0.0
  {
    hide Mixture.Valid, Mixture.Weight, Mixture.At;
    for i := 0 to |m.hists|
      invariant forall j | 0 <= j < i :: probs[j] == if probMask[j] then m.Weighted(j, l + 1) else 0.0
      invariant forall j | i <= j < |m.hists| :: probs[j] == if probMask[j] then m.Weighted(j, l) else 0.0
    {
      if probMask[i] {
        m.AtUnfold(l, i);
        probs[i] := probs[i] + m.probs[l][i] * weights[m.hists[i]];
      }
    }
  }

  /** Lower-order probabilities of the backoffs. */
  ghost function LowerOf(backoffs: seq<nat>, boProbs: seq<real>): (s: seq<real>)
    requires Below(backoffs, |boProbs|)
    ensures |s| == |backoffs|
  {
    seq(|backoffs|, i requires 0 <= i < |backoffs| => boProbs[backoffs[i]])
  }

  /** Recomputes the backoff weights of the masked histories; the unmasked pass sets every mask bit. */
  method EstimateBows(hists: seq<nat>, backoffs: seq<nat>, probs: seq<real>, boProbs: seq<real>, bowMask: seq<bool>,
                      numerator: array<real>, denominator: array<real>, bows: array<real>, undefined: real)
    requires |hists| == |backoffs| == |probs| && forall i | 0 <= i < |hists| :: hists[i] < bows.Length
    requires Below(backoffs, |boProbs|)
    requires numerator.Length == denominator.Length == bows.Length == |bowMask|
    requires numerator != denominator && numerator != bows && denominator != bows
    modifies numerator, denominator, bows
    ensures forall h | 0 <= h < bows.Length ::
              if bowMask[h] then Divided(bows[h], BinSum(hists, probs, h, |hists|),
                                         BinSum(hists, LowerOf(backoffs, boProbs), h, |hists|), undefined)
              else bows[h] == old(bows[h])
  {
    Clear(numerator);
    Clear(denominator);
    for i := 0 to |hists|
      invariant bows[..] == old(bows[..])
      invariant forall h | 0 <= h < bows.Length && bowMask[h] :: numerator[h] == BinSum(hists, probs, h, i)
      invariant forall h | 0 <= h < bows.Length && bowMask[h] ::
                  denominator[h] == BinSum(hists, LowerOf(backoffs, boProbs), h, i)
    {
      if bowMask[hists[i]] {
        numerator[hists[i]] := numerator[hists[i]] + probs[i];
        denominator[hists[i]] := denominator[hists[i]] + boProbs[backoffs[i]];
      }
    }
    Divide(bowMask, numerator, denominator, bows, undefined);
  }

  method Divide(bowMask: seq<bool>, numerator: array<real>, denominator: array<real>, bows: array<real>, undefined: real)
    requires numerator.Length == denominator.Length == bows.Length == |bowMask|
    requires numerator != bows && denominator != bows
    modifies bows
    ensures forall h | 0 <= h < bows.Length ::
              if bowMask[h] then Divided(bows[h], numerator[h], denominator[h], undefined) else bows[h] == old(bows[h])
  {
    for h := 0 to bows.Length
      invariant forall j | 0 <= j < h && bowMask[j] :: Divided(bows[j], numerator[j], denominator[j], undefined)
      invariant forall j | 0 <= j < bows.Length && (j >= h || !bowMask[j]) :: bows[j] == old(bows[j])
    {
      if bowMask[h] {
        bows[h] := if denominator[h] == 1.0 then undefined else (1.0 - numerator[h]) / (1.0 - denominator[h]);
      }
    }
  }

  // ---------- masks over all orders ----------

  /** Masks are vectors per order, sized like the trie. */
  ghost predicate SizedFor(g: Trie, rows: seq<seq<bool>>, n: nat)
    requires n <= |g.levels| + 1
  {
    |rows| == n && forall k | 0 <= k < n :: |rows[k]| == g.Size(k)
  }

  /** A masked backoff weight sums the probabilities of its n-grams and of their backoffs. */
  ghost predicate EntryCovered(g: Trie, n: nat, bow: seq<bool>, own: seq<bool>, lower: seq<bool>, i: nat)
    requires g.Valid() && 1 <= n <= |g.levels| && i < g.Size(n)
    requires |bow| == |lower| == g.Size(n - 1) && |own| == g.Size(n)
  {
    g.NgramFacts(n, i);
    bow[g.levels[n-1].hists[i]] ==> own[i] && lower[g.levels[n-1].backoffs[i]]
  }

  ghost predicate OrderCovered(g: Trie, n: nat, bow: seq<bool>, own: seq<bool>, lower: seq<bool>)
    requires g.Valid() && 1 <= n <= |g.levels|
    requires |bow| == |lower| == g.Size(n - 1) && |own| == g.Size(n)
  {
    forall i | 0 <= i < g.Size(n) :: EntryCovered(g, n, bow, own, lower, i)
  }

  lemma CoverGrows(g: Trie, n: nat, bow: seq<bool>, own: seq<bool>, lower: seq<bool>, own': seq<bool>,
                   lower': seq<bool>, i: nat)
    requires g.Valid() && 1 <= n <= |g.levels| && i < g.Size(n)
    requires |bow| == |lower| == g.Size(n - 1) && |own| == g.Size(n)
    requires RowWithin(own, own') && RowWithin(lower, lower')
    requires EntryCovered(g, n, bow, own, lower, i)
    ensures EntryCovered(g, n, bow, own', lower', i)
  {
    hide Trie.Valid;
    g.NgramFacts(n, i);
  }

  ghost predicate Covered(g: Trie, prob: seq<seq<bool>>, bow: seq<seq<bool>>, n: nat)
    requires g.Valid() && SizedFor(g, prob, |g.levels| + 1) && SizedFor(g, bow, |g.levels|)
    requires 1 <= n <= |g.levels|
  {
    OrderCovered(g, n, bow[n-1], prob[n], prob[n-1])
  }

  ghost predicate RowWithin(a: seq<bool>, b: seq<bool>) {
    |a| == |b| && forall i | 0 <= i < |a| && a[i] :: b[i]
  }

  /** Marks, for one order, what its masked backoff weights sum. */
  method CoverOrder(g: Trie, n: nat, bow: seq<bool>, own: seq<bool>, lower: seq<bool>)
    returns (own': seq<bool>, lower': seq<bool>)
    requires g.Valid() && 1 <= n <= |g.levels|
    requires |bow| == |lower| == g.Size(n - 1) && |own| == g.Size(n)
    ensures RowWithin(own, own') && RowWithin(lower, lower')
    ensures OrderCovered(g, n, bow, own', lower')
  {
    hide Trie.Valid;
    own', lower' := own, lower;
    for i := 0 to |own|
      invariant RowWithin(own, own') && RowWithin(lower, lower')
      invariant forall j | 0 <= j < i :: EntryCovered(g, n, bow, own', lower', j)
    {
      g.NgramFacts(n, i);
      ghost var own0, lower0 := own', lower';
      if bow[g.levels[n-1].hists[i]] {
        own' := own'[i := true];
        lower' := lower'[g.levels[n-1].backoffs[i] := true];
      }
      forall j | 0 <= j < i ensures EntryCovered(g, n, bow, own', lower', j) {
        CoverGrows(g, n, bow, own0, lower0, own', lower', j);
      }
    }
  }

  /** Extends the requested probability masks so that every masked backoff weight can be summed. */
  method GetMask(g: Trie, probMaskVectors: seq<seq<bool>>, bowMaskVectors: seq<seq<bool>>)
    returns (prob: seq<seq<bool>>)
    requires g.Valid()
    requires SizedFor(g, probMaskVectors, |g.levels| + 1) && SizedFor(g, bowMaskVectors, |g.levels|)
    ensures SizedFor(g, prob, |g.levels| + 1)
    ensures forall k | 0 <= k < |prob| :: RowWithin(probMaskVectors[k], prob[k])
    ensures forall n | 1 <= n <= |g.levels| :: Covered(g, prob, bowMaskVectors, n)
  {
    hide Trie.Valid, Covered, Trie.NgramOk;
    prob := probMaskVectors;
    var n := 1;
    while n <= |g.levels|
      invariant 1 <= n <= |g.levels| + 1 && SizedFor(g, prob, |g.levels| + 1)
      invariant forall k | 0 <= k < |prob| :: RowWithin(probMaskVectors[k], prob[k])
      invariant forall k | 1 <= k < n :: Covered(g, prob, bowMaskVectors, k)
    {
      var own, lower := CoverOrder(g, n, bowMaskVectors[n-1], prob[n], prob[n-1]);
      ghost var was := prob;
      prob := prob[n := own][n-1 := lower];
      CoverStep(g, was, prob, bowMaskVectors, n);
      n := n + 1;
    }
  }

  lemma CoverStep(g: Trie, was: seq<seq<bool>>, prob: seq<seq<bool>>, bow: seq<seq<bool>>, n: nat)
    requires g.Valid() && SizedFor(g, was, |g.levels| + 1) && SizedFor(g, prob, |g.levels| + 1)
    requires SizedFor(g, bow, |g.levels|) && 1 <= n <= |g.levels|
    requires forall k | 0 <= k < |prob| :: RowWithin(was[k], prob[k])
    requires OrderCovered(g, n, bow[n-1], prob[n], prob[n-1])
    ensures Covered(g, prob, bow, n)
    ensures forall k | 1 <= k < n && Covered(g, was, bow, k) :: Covered(g, prob, bow, k)
  {
    hide Trie.Valid;
    forall k | 1 <= k < n && Covered(g, was, bow, k) ensures Covered(g, prob, bow, k) {
      CoverKept(g, was, prob, bow, k);
    }
  }

  lemma CoverKept(g: Trie, was: seq<seq<bool>>, prob: seq<seq<bool>>, bow: seq<seq<bool>>, k: nat)
    requires g.Valid() && SizedFor(g, was, |g.levels| + 1) && SizedFor(g, prob, |g.levels| + 1)
    requires SizedFor(g, bow, |g.levels|) && 1 <= k <= |g.levels|
    requires forall j | 0 <= j < |prob| :: RowWithin(was[j], prob[j])
    requires Covered(g, was, bow, k)
    ensures Covered(g, prob, bow, k)
  {
    hide Trie.Valid;
    var b, own, lower, own', lower' := bow[k-1], was[k], was[k-1], prob[k], prob[k-1];
    forall i | 0 <= i < g.Size(k) ensures EntryCovered(g, k, b, own', lower', i) {
      CoverGrows(g, k, b, own, lower, own', lower', i);
    }
  }

  /** Marks the histories of the masked n-grams. */
  method WeightMask(g: Trie, n: nat, probMask: seq<bool>) returns (mask: seq<bool>)
    requires g.Valid() && 1 <= n <= |g.levels| && |probMask| == g.Size(n)
    ensures |mask| == g.Size(n - 1)
    ensures forall i | 0 <= i < g.Size(n) && probMask[i] ::
              g.levels[n-1].hists[i] < |mask| && mask[g.levels[n-1].hists[i]]
  {
    hide Trie.Valid;
    mask := seq(if n == 1 then 1 else |g.levels[n-2].hists|, _ => false);
    for i := 0 to |probMask|
      invariant |mask| == g.Size(n - 1)
      invariant forall j | 0 <= j < i && probMask[j] ::
                  g.levels[n-1].hists[j] < |mask| && mask[g.levels[n-1].hists[j]]
    {
      g.NgramFacts(n, i);
      if probMask[i] {
        mask := mask[g.levels[n-1].hists[i] := true];
      }
    }
  }

  // ---------- masked estimation equals full estimation where masked ----------

  /** The same order with component probabilities that are right only where masked. */
  ghost predicate SameWhere(mask: seq<bool>, m: Mixture, full: Mixture)
    requires full.Valid()
  {
    && m.Valid() && |mask| == |m.hists|
    && m == full.(probs := m.probs) && |m.probs| == |full.probs|
    && forall l, i | 0 <= l < |m.probs| && 0 <= i < |mask| && mask[i] :: m.At(l, i) == full.At(l, i)
  }

  lemma {:induction false} SameLogWeight(m: Mixture, full: Mixture, mask: seq<bool>, l: nat, h: nat, f: nat)
    requires full.Valid() && SameWhere(mask, m, full) && l < |m.probs| && h < m.numLower && f <= |m.features[l]|
    ensures m.LogWeight(l, h, f) == full.LogWeight(l, h, f)
  {
    if f > 0 {
      SameLogWeight(m, full, mask, l, h, f - 1);
    }
  }

  lemma SameWeight(m: Mixture, full: Mixture, mask: seq<bool>, l: nat, h: nat)
    requires full.Valid() && SameWhere(mask, m, full) && l < |m.probs| && h < m.numLower
    ensures m.Weight(l, h) == full.Weight(l, h)
  {
    m.ComponentFacts(l);
    SameLogWeight(m, full, mask, l, h, |m.features[l]|);
  }

  lemma {:induction false} SameSums(m: Mixture, full: Mixture, mask: seq<bool>, i: nat, n: nat)
    requires full.Valid() && SameWhere(mask, m, full) && i < |mask| && mask[i] && n <= |m.probs|
    ensures m.hists[i] < m.numLower
    ensures m.Weighted(i, n) == full.Weighted(i, n) && m.TotWeight(m.hists[i], n) == full.TotWeight(m.hists[i], n)
  {
    hide Mixture.Weight, Mixture.At;
    if n > 0 {
      SameSums(m, full, mask, i, n - 1);
      SameWeight(m, full, mask, n - 1, m.hists[i]);
    }
  }

  lemma SameProb(m: Mixture, full: Mixture, mask: seq<bool>, i: nat)
    requires full.Valid() && SameWhere(mask, m, full) && i < |mask| && mask[i]
    ensures m.Prob(i) == full.Prob(i)
  {
    hide Mixture.Weighted, Mixture.TotWeight;
    SameSums(m, full, mask, i, |m.probs|);
  }

  /** The full probability table of order n; the zeroth-order entry is zero. */
  ghost function FullTable(full: seq<Mixture>, n: nat): seq<real>
    requires n <= |full| && forall k | 0 <= k < |full| :: full[k].Valid()
  {
    if n == 0 then [0.0] else full[n-1].Probs()
  }

  ghost predicate Mixes(g: Trie, full: seq<Mixture>)
    requires g.Valid()
  {
    && |full| == |g.levels|
    && (forall k | 0 <= k < |full| :: full[k].Valid())
    && forall k | 0 <= k < |full| :: full[k].numLower == g.Size(k) && full[k].hists == g.levels[k].hists
  }

  /** Probabilities agree with the full table where masked. */
  ghost predicate RightWhere(mask: seq<bool>, row: seq<real>, full: seq<real>) {
    |row| == |full| == |mask| && forall i | 0 <= i < |mask| && mask[i] :: row[i] == full[i]
  }

  /** One order's probabilities under masks. */
  method EstimateOrder(g: Trie, n: nat, m: Mixture, ghost full: seq<Mixture>, probMask: seq<bool>)
    returns (row: seq<real>)
    requires g.Valid() && Mixes(g, full) && 1 <= n <= |full| && SameWhere(probMask, m, full[n-1])
    ensures RightWhere(probMask, row, FullTable(full, n))
  {
    var weightMask := WeightMask(g, n, probMask);
    var weights, totWeights := new real[m.numLower](_ => 0.0), new real[m.numLower](_ => 0.0);
    var probs := new real[|m.hists|](_ => 0.0);
    EstimateProbs(m, weightMask, probMask, weights, totWeights, probs);
    row := probs[..];
    forall i | 0 <= i < |probMask| && probMask[i] ensures row[i] == FullTable(full, n)[i] {
      SameProb(m, full[n-1], probMask, i);
    }
  }

  /** The full backoff weight of a history. */
  ghost predicate FullBow(g: Trie, full: seq<Mixture>, n: nat, h: nat, bow: real, undefined: real)
    requires g.Valid() && Mixes(g, full) && 1 <= n <= |full|
  {
    Divided(bow, BinSum(g.Hists(n), full[n-1].Probs(), h, g.Size(n)),
            BinSum(g.Hists(n), FullLower(g, full, n), h, g.Size(n)), undefined)
  }

  ghost function FullLower(g: Trie, full: seq<Mixture>, n: nat): (s: seq<real>)
    requires g.Valid() && Mixes(g, full) && 1 <= n <= |full|
    ensures |s| == g.Size(n)
  {
    BackoffsInRange(g, n);
    LowerOf(g.levels[n-1].backoffs, FullTable(full, n - 1))
  }

  lemma BackoffsInRange(g: Trie, n: nat)
    requires g.Valid() && 1 <= n <= |g.levels|
    ensures g.Shaped(n)
    ensures Below(g.levels[n-1].backoffs, g.Size(n - 1)) && Below(g.levels[n-1].hists, g.Size(n - 1))
  {
    g.LevelFacts(n);
    var l := g.levels[n-1];
    forall i | 0 <= i < |l.hists| ensures l.backoffs[i] < g.Size(n - 1) && l.hists[i] < g.Size(n - 1) {
      g.NgramFacts(n, i);
    }
  }

  ghost predicate Below(s: seq<nat>, bound: nat) {
    forall i | 0 <= i < |s| :: s[i] < bound
  }

  /** One order's backoff weights under masks, from probabilities that are right where masked. */
  method EstimateOrderBows(g: Trie, n: nat, ghost full: seq<Mixture>, prob: seq<seq<bool>>, bow: seq<seq<bool>>,
                           probs: seq<real>, boProbs: seq<real>, stale: seq<real>, undefined: real)
    returns (row: seq<real>)
    requires g.Valid() && Mixes(g, full) && 1 <= n <= |full|
    requires SizedFor(g, prob, |g.levels| + 1) && SizedFor(g, bow, |g.levels|) && Covered(g, prob, bow, n)
    requires RightWhere(prob[n], probs, FullTable(full, n)) && RightWhere(prob[n-1], boProbs, FullTable(full, n - 1))
    requires |stale| == g.Size(n - 1)
    ensures |row| == |stale|
    ensures forall h | 0 <= h < g.Size(n - 1) ::
              if bow[n-1][h] then FullBow(g, full, n, h, row[h], undefined) else row[h] == stale[h]
  {
    hide Trie.Valid, Mixture.Valid, BinSum, Mixture.Probs;
    BackoffsInRange(g, n);
    var level, mask := g.levels[n-1], bow[n-1];
    forall h | 0 <= h < g.Size(n - 1) && mask[h] {
      SumsAgree(g, n, full, prob, bow, probs, boProbs, h);
    }
    var numerator, denominator := new real[|stale|](_ => 0.0), new real[|stale|](_ => 0.0);
    var bows := new real[|stale|](i requires 0 <= i < |stale| => stale[i]);
    EstimateBows(level.hists, level.backoffs, probs, boProbs, mask, numerator, denominator, bows, undefined);
    row := bows[..];
  }

  /** Under a masked history the sums read only masked positions. */
  lemma SumsAgree(g: Trie, n: nat, full: seq<Mixture>, prob: seq<seq<bool>>, bow: seq<seq<bool>>,
                  probs: seq<real>, boProbs: seq<real>, h: nat)
    requires g.Valid() && Mixes(g, full) && 1 <= n <= |full|
    requires SizedFor(g, prob, |g.levels| + 1) && SizedFor(g, bow, |g.levels|) && Covered(g, prob, bow, n)
    requires RightWhere(prob[n], probs, FullTable(full, n)) && RightWhere(prob[n-1], boProbs, FullTable(full, n - 1))
    requires h < g.Size(n - 1) && bow[n-1][h]
    ensures |full[n-1].Probs()| == |probs| == g.Size(n)
    ensures Below(g.levels[n-1].backoffs, |boProbs|)
    ensures |g.levels[n-1].backoffs| == g.Size(n)
    ensures BinSum(g.Hists(n), probs, h, g.Size(n)) == BinSum(g.Hists(n), full[n-1].Probs(), h, g.Size(n))
    ensures BinSum(g.Hists(n), LowerOf(g.levels[n-1].backoffs, boProbs), h, g.Size(n))
         == BinSum(g.Hists(n), FullLower(g, full, n), h, g.Size(n))
  {
    hide Trie.Valid, Mixture.Valid, Mixture.Probs;
    BackoffsInRange(g, n);
    var l, b, own, lower := g.levels[n-1], bow[n-1], prob[n], prob[n-1];
    var lo, fullLo := LowerOf(l.backoffs, boProbs), FullLower(g, full, n);
    forall i | 0 <= i < |l.hists| && l.hists[i] == h
      ensures probs[i] == FullTable(full, n)[i] && lo[i] == fullLo[i]
    {
      assert EntryCovered(g, n, b, own, lower, i);
    }
    BinSumAgrees(l.hists, probs, full[n-1].Probs(), h, |l.hists|);
    BinSumAgrees(l.hists, lo, fullLo, h, |l.hists|);
  }
}
