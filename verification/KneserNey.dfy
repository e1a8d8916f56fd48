/** Kneser-Ney estimation of one order of a model. */
module KneserNey {
  // Discounts, backoff weights and interpolated probabilities, in full and restricted to masks.

  import opened Reals
  import opened Bins

  /** What one order is estimated from. The lower order has numLower entries; each is the history of
      some n-grams here, and each n-gram backs off to one of them. */
  datatype Order = Order(numLower: nat, hists: seq<nat>, backoffs: seq<nat>, effCounts: seq<nat>,
                         weights: seq<real>, discParams: seq<real>, openUnigrams: bool)
  {
    ghost predicate Valid() {
      && |hists| == |backoffs| == |effCounts| == |weights|
      && |discParams| > 0 && discParams[0] == 0.0
      && (forall i | 0 <= i < |hists| :: EntryOk(i))
      && forall k | 0 <= k < |discParams| :: 0.0 <= discParams[k] <= k as real
    }

    ghost predicate EntryOk(i: nat)
      requires i < |hists| == |backoffs| == |weights|
    {
      hists[i] < numLower && backoffs[i] < numLower && weights[i] > 0.0
    }

    lemma Facts(i: nat)
      requires Valid() && i < |hists|
      ensures |hists| == |backoffs| == |effCounts| == |weights| && EntryOk(i)
    {
    }

    function Clipped(c: nat): (k: nat)
      requires |discParams| > 0
      ensures k < |discParams| && k <= c
    {
      if c < |discParams| then c else |discParams| - 1
    }

    /** Discount of an n-gram, by its count, clipped to the discount order. */
    ghost function Discount(i: nat): (d: real)
      requires Valid() && i < |hists|
      ensures 0.0 <= d <= effCounts[i] as real
    {
      discParams[Clipped(effCounts[i])]
    }

    /** Counts below the discount order have a discount of their own; all others share the last. */
    lemma DiscountOf(i: nat, k: nat)
      requires Valid() && i < |hists| && k < |discParams|
      ensures |effCounts| == |hists|
      ensures effCounts[i] == k ==> Discount(i) == discParams[k]
      ensures effCounts[i] >= |discParams| - 1 ==> Discount(i) == discParams[|discParams|-1]
    {
    }

    ghost function WeightedCounts(): (s: seq<real>)
      requires Valid()
      ensures |s| == |hists|
    {
      seq(|hists|, i requires 0 <= i < |hists| => effCounts[i] as real * weights[i])
    }

    ghost function WeightedDiscounts(): (s: seq<real>)
      requires Valid()
      ensures |s| == |hists|
    {
      seq(|hists|, i requires 0 <= i < |hists| => weights[i] * Discount(i))
    }

    ghost function HistCount(h: nat): real
      requires Valid()
    {
      BinSum(hists, WeightedCounts(), h, |hists|)
    }

    ghost function InvHistCount(h: nat): (r: real)
      requires Valid()
    {
      if HistCount(h) == 0.0 then 0.0 else 1.0 / HistCount(h)
    }

    /** Backoff weight of a history: the discounted share of its count, or 1 for an unseen history. */
    ghost function Bow(h: nat): real
      requires Valid()
    {
      if InvHistCount(h) == 0.0 then 1.0
      else BinSum(hists, WeightedDiscounts(), h, |hists|) * InvHistCount(h)
    }

    /** The n-gram's own share. */
    ghost function Share(i: nat): real
      requires Valid() && i < |hists|
    {
      if effCounts[i] == 0 then 0.0
      else weights[i] * (effCounts[i] as real - Discount(i)) * InvHistCount(hists[i])
    }

    /** Interpolated probability, given the probabilities of the lower order. */
    ghost function Prob(i: nat, lower: seq<real>): real
      requires Valid() && i < |hists| && |lower| == numLower
    {
      Facts(i);
      if openUnigrams && effCounts[i] == 0 then 0.0
      else Share(i) + lower[backoffs[i]] * Bow(hists[i])
    }

    /** With full interpolation. */
    lemma ProbBlends(i: nat, lower: seq<real>)
      requires Valid() && i < |hists| && |lower| == numLower && !openUnigrams
      ensures |backoffs| == |hists| && backoffs[i] < numLower
      ensures Blend(Prob(i, lower), Share(i), Bow(hists[i]), lower[backoffs[i]])
    {
      hide Valid, Share, Bow;
      Facts(i);
      Swapped(lower[backoffs[i]], Bow(hists[i]));
    }

    lemma InvHistCountFacts(h: nat)
      requires Valid()
      ensures HistCount(h) >= 0.0 && InvHistCount(h) >= 0.0
      ensures InvHistCount(h) == 0.0 <==> HistCount(h) == 0.0
      ensures HistCount(h) != 0.0 ==> HistCount(h) * InvHistCount(h) == 1.0
    {
      forall i | 0 <= i < |hists| ensures WeightedCounts()[i] >= 0.0 {
        Facts(i);
        ProductNonNegative(effCounts[i] as real, weights[i]);
      }
      BinSumNonNegative(hists, WeightedCounts(), h, |hists|);
      if HistCount(h) != 0.0 {
        Reciprocal(HistCount(h));
      }
    }

    /** The value of an entry multiplied out: of its history's weighted count, its own weighted count less its
        discount, and of all that is discounted there the backoff's part. */
    lemma EntryValue(i: nat, lower: seq<real>)
      requires Valid() && i < |hists| && |lower| == numLower
      requires HistCount(hists[i]) != 0.0 && !(openUnigrams && effCounts[i] == 0)
      ensures |hists| == |backoffs| == |effCounts| == |weights| && EntryOk(i)
      ensures Prob(i, lower) * HistCount(hists[i])
           == weights[i] * (effCounts[i] as real - Discount(i))
              + lower[backoffs[i]] * BinSum(hists, WeightedDiscounts(), hists[i], |hists|)
      ensures HistCount(hists[i]) == BinSum(hists, WeightedCounts(), hists[i], |hists|)
      ensures WeightedCounts()[i] == effCounts[i] as real * weights[i]
      ensures WeightedDiscounts()[i] == weights[i] * Discount(i)
    {
      hide Valid, Discount, HistCount, InvHistCount, WeightedCounts, WeightedDiscounts;
      Facts(i);
      Terms(i);
      InvHistCountFacts(hists[i]);
      var own, taken := weights[i] * (effCounts[i] as real - Discount(i)),
                        BinSum(hists, WeightedDiscounts(), hists[i], |hists|);
      if effCounts[i] == 0 {
        NoDiscount(i);
      }
      CrossMultiplied(own, taken, lower[backoffs[i]], InvHistCount(hists[i]), HistCount(hists[i]));
    }

    lemma Terms(i: nat)
      requires Valid() && i < |hists|
      ensures HistCount(hists[i]) == BinSum(hists, WeightedCounts(), hists[i], |hists|)
      ensures |hists| == |effCounts| == |weights|
      ensures WeightedCounts()[i] == effCounts[i] as real * weights[i]
      ensures WeightedDiscounts()[i] == weights[i] * Discount(i)
    {
    }

    lemma NoDiscount(i: nat)
      requires Valid() && i < |hists| && effCounts[i] == 0
      ensures Discount(i) == 0.0
    {
    }

    lemma BowNonNegative(h: nat)
      requires Valid()
      ensures Bow(h) >= 0.0
    {
      InvHistCountFacts(h);
      forall i | 0 <= i < |hists| ensures WeightedDiscounts()[i] >= 0.0 {
        Facts(i);
        ProductNonNegative(weights[i], Discount(i));
      }
      BinSumNonNegative(hists, WeightedDiscounts(), h, |hists|);
      ProductNonNegative(BinSum(hists, WeightedDiscounts(), h, |hists|), InvHistCount(h));
    }

    /** Probabilities are never negative. */
    lemma ProbNonNegative(i: nat, lower: seq<real>)
      requires Valid() && i < |hists| && |lower| == numLower
      requires forall k | 0 <= k < numLower :: lower[k] >= 0.0
      ensures Share(i) >= 0.0 && Prob(i, lower) >= 0.0
    {
      Facts(i);
      InvHistCountFacts(hists[i]);
      BowNonNegative(hists[i]);
      ProductNonNegative(weights[i], effCounts[i] as real - Discount(i));
      ProductNonNegative(weights[i] * (effCounts[i] as real - Discount(i)), InvHistCount(hists[i]));
      ProductNonNegative(lower[backoffs[i]], Bow(hists[i]));
    }

    ghost function Shares(): (s: seq<real>)
      requires Valid()
      ensures |s| == |hists|
    {
      seq(|hists|, i requires 0 <= i < |hists| => Share(i))
    }

    /** The shares of a history's n-grams are what its discounts leave. */
    lemma {:induction false} SharesSum(h: nat, n: nat)
      requires Valid() && n <= |hists| && HistCount(h) != 0.0
      ensures BinSum(hists, Shares(), h, n)
           == (BinSum(hists, WeightedCounts(), h, n) - BinSum(hists, WeightedDiscounts(), h, n)) * InvHistCount(h)
    {
      hide Valid, HistCount, InvHistCount, Share, Shares, WeightedCounts, WeightedDiscounts;
      if n > 0 {
        SharesSum(h, n - 1);
        var i := n - 1;
        if hists[i] == h {
          ShareTerm(i);
          AddTerm(BinSum(hists, Shares(), h, i), BinSum(hists, WeightedCounts(), h, i),
                  BinSum(hists, WeightedDiscounts(), h, i), Shares()[i],
                  WeightedCounts()[i], WeightedDiscounts()[i], InvHistCount(h));
        }
      }
    }

    lemma ShareTerm(i: nat)
      requires Valid() && i < |hists|
      ensures Shares()[i] == (WeightedCounts()[i] - WeightedDiscounts()[i]) * InvHistCount(hists[i])
    {
      hide HistCount, InvHistCount;
      var c, d, w := effCounts[i] as real, Discount(i), weights[i];
      assert w * (c - d) == c * w - w * d;
    }

    /** Shares plus backoff weight make one, for every history. */
    lemma SharesAndBow(h: nat)
      requires Valid()
      ensures BinSum(hists, Shares(), h, |hists|) + Bow(h) == 1.0
    {
      hide Share, Shares, WeightedDiscounts;
      InvHistCountFacts(h);
      if HistCount(h) != 0.0 {
        SharesSum(h, |hists|);
        DistributeDifference(0.0, 0.0, HistCount(h), BinSum(hists, WeightedDiscounts(), h, |hists|), InvHistCount(h));
        assert (HistCount(h) - BinSum(hists, WeightedDiscounts(), h, |hists|)) * InvHistCount(h)
            == HistCount(h) * InvHistCount(h) - BinSum(hists, WeightedDiscounts(), h, |hists|) * InvHistCount(h);
      } else {
        UnseenShares(h);
      }
    }

    lemma UnseenShares(h: nat)
      requires Valid() && HistCount(h) == 0.0
      ensures BinSum(hists, Shares(), h, |hists|) == 0.0
    {
      forall i | 0 <= i < |hists| && hists[i] == h ensures Shares()[i] == 0.0 {
        InvHistCountFacts(h);
        assert Share(i) == 0.0;
      }
      BinSumZero(hists, Shares(), h, |hists|);
    }
  }

  lemma CrossMultiplied(own: real, taken: real, below: real, inv: real, all: real)
    requires all * inv == 1.0
    ensures (own * inv + below * (taken * inv)) * all == own + below * taken
  {
    assert own * inv * all == own * (all * inv);
    assert below * (taken * inv) * all == below * taken * (all * inv);
  }

  lemma Swapped(a: real, b: real)
    ensures a * b == b * a
  {
  }

  lemma Reciprocal(x: real)
    requires x > 0.0
    ensures x * (1.0 / x) == 1.0 && 1.0 / x > 0.0
  {
  }

  lemma AddTerm(s: real, a: real, b: real, t: real, c: real, d: real, k: real)
    requires s == (a - b) * k && t == (c - d) * k
    ensures s + t == (a + c - (b + d)) * k
  {
    DistributeDifference(a, b, c, d, k);
  }

  lemma DistributeDifference(a: real, b: real, c: real, d: real, k: real)
    ensures (a - b) * k + (c - d) * k == ((a + c) - (b + d)) * k
  {
  }

  // ---------- counts and discounts ----------

  /** How many higher-order n-grams with a positive count back off to b, among the first n. */
  ghost function LeftBranches(hoCounts: seq<nat>, hoBackoffs: seq<nat>, b: nat, n: nat): nat
    requires n <= |hoCounts| == |hoBackoffs|
  {
    if n == 0 then 0
    else LeftBranches(hoCounts, hoBackoffs, b, n - 1) + if hoCounts[n-1] > 0 && hoBackoffs[n-1] == b then 1 else 0
  }

  /** The higher-order n-grams with a positive count that back off to b: its different left contexts. */
  ghost function Contexts(hoCounts: seq<nat>, hoBackoffs: seq<nat>, b: nat, n: nat): set<nat>
    requires n <= |hoCounts| == |hoBackoffs|
  {
    set i: nat | i < n && hoCounts[i] > 0 && hoBackoffs[i] == b
  }

  /** Each left context is counted once, however often it was seen. */
  lemma {:induction false} LeftBranchesCount(hoCounts: seq<nat>, hoBackoffs: seq<nat>, b: nat, n: nat)
    requires n <= |hoCounts| == |hoBackoffs|
    ensures LeftBranches(hoCounts, hoBackoffs, b, n) == |Contexts(hoCounts, hoBackoffs, b, n)|
  {
    hide Contexts;
    ContextsNext(hoCounts, hoBackoffs, b, n);
    if n > 0 {
      LeftBranchesCount(hoCounts, hoBackoffs, b, n - 1);
    }
  }

  lemma ContextsNext(hoCounts: seq<nat>, hoBackoffs: seq<nat>, b: nat, n: nat)
    requires n <= |hoCounts| == |hoBackoffs|
    ensures n == 0 ==> |Contexts(hoCounts, hoBackoffs, b, n)| == 0
    ensures n > 0 ==>
              |Contexts(hoCounts, hoBackoffs, b, n)|
                == |Contexts(hoCounts, hoBackoffs, b, n - 1)| + if hoCounts[n-1] > 0 && hoBackoffs[n-1] == b then 1 else 0
  {
    if n > 0 {
      var before, here := Contexts(hoCounts, hoBackoffs, b, n - 1), Contexts(hoCounts, hoBackoffs, b, n);
      assert here == if hoCounts[n-1] > 0 && hoBackoffs[n-1] == b then before + {n - 1} else before;
    }
  }

  /** Adjusted counts below the highest order: the number of left contexts, or the original count where there are
      none. */
  method AdjustCounts(counts: seq<nat>, hoCounts: seq<nat>, hoBackoffs: seq<nat>) returns (effCounts: array<nat>)
    requires |hoCounts| == |hoBackoffs| && forall i | 0 <= i < |hoBackoffs| :: hoBackoffs[i] < |counts|
    ensures fresh(effCounts) && effCounts.Length == |counts|
    ensures forall b | 0 <= b < |counts| ::
              var left := LeftBranches(hoCounts, hoBackoffs, b, |hoCounts|);
              effCounts[b] == if left == 0 then counts[b] else left
    ensures forall b | 0 <= b < |counts| ::
              var left := Contexts(hoCounts, hoBackoffs, b, |hoCounts|);
              effCounts[b] == if left == {} then counts[b] else |left|
  {
    effCounts := new nat[|counts|](_ => 0);
    for i := 0 to |hoCounts|
      invariant forall b | 0 <= b < |counts| :: effCounts[b] == LeftBranches(hoCounts, hoBackoffs, b, i)
    {
      if hoCounts[i] > 0 {
        effCounts[hoBackoffs[i]] := effCounts[hoBackoffs[i]] + 1;
      }
    }
    for b := 0 to |counts|
      invariant forall j | b <= j < |counts| ::
                  effCounts[j] == LeftBranches(hoCounts, hoBackoffs, j, |hoCounts|)
      invariant forall j | 0 <= j < b ::
                  var left := LeftBranches(hoCounts, hoBackoffs, j, |hoCounts|);
                  effCounts[j] == if left == 0 then counts[j] else left
    {
      if effCounts[b] == 0 {
        effCounts[b] := counts[b];
      }
    }
    forall b | 0 <= b < |counts| {
      LeftBranchesCount(hoCounts, hoBackoffs, b, |hoCounts|);
    }
  }

  lemma {:induction false} LeftBranchesPositive(hoCounts: seq<nat>, hoBackoffs: seq<nat>, b: nat, n: nat)
    requires n <= |hoCounts| == |hoBackoffs|
    ensures LeftBranches(hoCounts, hoBackoffs, b, n) > 0
       <==> exists i :: 0 <= i < n && hoCounts[i] > 0 && hoBackoffs[i] == b
  {
    if n > 0 {
      LeftBranchesPositive(hoCounts, hoBackoffs, b, n - 1);
    }
  }

  /** Positive adjusted counts and positive counts cover the same n-grams exactly when no n-gram of count
      zero is the backoff of one with a positive count. */
  lemma SameSupport(counts: seq<nat>, hoCounts: seq<nat>, hoBackoffs: seq<nat>, effCounts: seq<nat>)
    requires |hoCounts| == |hoBackoffs| && |effCounts| == |counts|
    requires forall i | 0 <= i < |hoBackoffs| :: hoBackoffs[i] < |counts|
    requires forall b | 0 <= b < |counts| ::
               var left := LeftBranches(hoCounts, hoBackoffs, b, |hoCounts|);
               effCounts[b] == if left == 0 then counts[b] else left
    ensures (forall b | 0 <= b < |counts| :: effCounts[b] > 0 <==> counts[b] > 0)
       <==> forall i | 0 <= i < |hoCounts| && hoCounts[i] > 0 :: counts[hoBackoffs[i]] > 0
  {
    forall b | 0 <= b < |counts| {
      LeftBranchesPositive(hoCounts, hoBackoffs, b, |hoCounts|);
    }
  }

  /** Fixed discount for count i from the count-of-count statistics; None is the undefined quotient 0/0. */
  datatype Maybe = None | Some(value: real)

  function FixedDiscount(n: seq<nat>, i: nat): (d: Maybe)
    requires 1 <= i && i + 1 < |n|
    ensures d.Some? ==> 0.0 <= d.value <= i as real
    ensures d.None? <==> n[i] > 0 && n[1] == 0 && n[2] == 0
  {
    if n[i] == 0 then Some(i as real)
    else if n[1] == 0 && n[2] == 0 then None
    else
      var y := n[1] as real / (n[1] as real + 2.0 * n[2] as real);
      var d := i as real - (i + 1) as real * y * n[i+1] as real / n[i] as real;
      Some(if d < 0.0 then 0.0 else if d > i as real then i as real else d)
  }

  /** The discount i - (i + 1) Y n[i+1] / n[i] with Y = n[1] / (n[1] + 2 n[2]), multiplied out, and where it is cut. */
  lemma DiscountValue(n: seq<nat>, i: nat)
    requires 1 <= i && i + 1 < |n|
    ensures n[i] == 0 ==> FixedDiscount(n, i) == Some(i as real)
    ensures n[i] > 0 && n[1] + n[2] > 0 ==>
              var d := FixedDiscount(n, i);
              && d.Some?
              && (d.value == 0.0 <==> (i + 1) * n[1] * n[i+1] >= i * n[i] * (n[1] + 2 * n[2]))
              && (d.value == i as real <==> n[1] * n[i+1] == 0)
              && (d.value > 0.0 ==>
                    (i as real - d.value) * (n[i] * (n[1] + 2 * n[2])) as real == ((i + 1) * n[1] * n[i+1]) as real)
  {
    hide Taken, Cut;
    if n[i] > 0 && n[1] + n[2] > 0 {
      hide FixedDiscount;
      TakenWhole(n, i);
      NoneTaken(i, n[1], n[i+1]);
      UncutDiscount(n, i);
      CutValue(Taken(n, i), i, n[i], n[1] + 2 * n[2], (i + 1) * n[1] * n[i+1]);
    }
  }

  lemma CutValue(taken: real, i: nat, own: nat, both: nat, all: nat)
    requires i > 0 && own * both > 0 && taken * (own * both) as real == all as real
    ensures var d := Cut(i as real - taken, i as real);
            && (d == 0.0 <==> all >= i * own * both) && (d == i as real <==> all == 0)
            && (d > 0.0 ==> (i as real - d) * (own * both) as real == all as real)
  {
    hide Cut;
    var k := own * both;
    RealTimes(i, k);
    CutOff(taken, i as real, k as real, all as real);
    assert i * own * both == i * k by { Reassociated(i, own, both); }
  }

  lemma Reassociated(a: nat, b: nat, c: nat)
    ensures a * b * c == a * (b * c)
  {
  }

  /** A discount, cut at zero and at the count. */
  function Cut(d: real, i: real): real {
    if d < 0.0 then 0.0 else if d > i then i else d
  }

  lemma CutOff(taken: real, i: real, k: real, all: real)
    requires k > 0.0 && i > 0.0 && all >= 0.0 && taken * k == all
    ensures Cut(i - taken, i) == 0.0 <==> all >= i * k
    ensures Cut(i - taken, i) == i <==> all == 0.0
    ensures Cut(i - taken, i) > 0.0 ==> (i - Cut(i - taken, i)) * k == all
  {
    ProductsCompared(taken, i, k, all);
  }

  /** What is taken, times both denominators. */
  lemma TakenWhole(n: seq<nat>, i: nat)
    requires 1 <= i && i + 1 < |n| && n[i] > 0 && n[1] + n[2] > 0
    ensures n[i] * (n[1] + 2 * n[2]) > 0
    ensures Taken(n, i) * (n[i] * (n[1] + 2 * n[2])) as real == ((i + 1) * n[1] * n[i+1]) as real
  {
    var own, both := n[i], n[1] + 2 * n[2];
    TakenTimes((i + 1) as real, n[1] as real, both as real, n[i+1] as real, own as real);
    InReals(i, n[1], n[i+1], own, both);
    Positives(own, both);
  }

  lemma Positives(a: nat, b: nat)
    requires a > 0 && b > 0
    ensures a * b > 0
  {
  }

  /** What is taken off count i. */
  function Taken(n: seq<nat>, i: nat): real
    requires 1 <= i && i + 1 < |n| && n[i] > 0 && n[1] + n[2] > 0
  {
    (i + 1) as real * (n[1] as real / (n[1] as real + 2.0 * n[2] as real)) * n[i+1] as real / n[i] as real
  }

  lemma UncutDiscount(n: seq<nat>, i: nat)
    requires 1 <= i && i + 1 < |n| && n[i] > 0 && n[1] + n[2] > 0
    ensures FixedDiscount(n, i) == Some(Cut(i as real - Taken(n, i), i as real))
  {
  }

  lemma TakenTimes(k: real, p: real, q: real, b: real, a: real)
    requires q > 0.0 && a > 0.0
    ensures k * (p / q) * b / a * (a * q) == k * b * p
  {
    var y := p / q;
    var z := k * y * b;
    assert z / a * (a * q) == z / a * a * q == z * q;
    assert y * q == p;
    assert z * q == k * b * (y * q);
  }

  lemma ProductsCompared(x: real, y: real, k: real, t: real)
    requires k > 0.0 && x * k == t
    ensures x >= y <==> t >= y * k
    ensures x == 0.0 <==> t == 0.0
    ensures x >= 0.0 <==> t >= 0.0
  {
    Grows(x, y, k);
    Grows(x, 0.0, k);
  }

  lemma Grows(x: real, y: real, k: real)
    requires k > 0.0
    ensures x >= y <==> x * k >= y * k
    ensures x == y <==> x * k == y * k
  {
    if x > y {
      assert (x - y) * k > 0.0;
    } else if x < y {
      assert (y - x) * k > 0.0;
    }
  }

  lemma InReals(i: nat, n1: nat, next: nat, own: nat, both: nat)
    ensures (i + 1) as real * next as real * n1 as real == ((i + 1) * n1 * next) as real
    ensures own as real * both as real == (own * both) as real
  {
    RealTimes(i + 1, n1);
    RealTimes((i + 1) * n1, next);
    RealTimes(own, both);
    assert (i + 1) as real * next as real * n1 as real == (i + 1) as real * n1 as real * next as real;
  }

  lemma {:induction false} RealTimes(a: nat, b: nat)
    ensures a as real * b as real == (a * b) as real
  {
    if a > 0 {
      RealTimes(a - 1, b);
      assert (a - 1) * b + b == a * b;
      assert a as real * b as real == (a - 1) as real * b as real + b as real;
    }
  }

  lemma NoneTaken(i: nat, n1: nat, next: nat)
    ensures (i + 1) * n1 * next >= 0 && n1 * next >= 0 && ((i + 1) * n1 * next == 0 <==> n1 * next == 0)
  {
    assert (i + 1) * n1 * next == (i + 1) * (n1 * next);
  }

  /** The n-grams whose adjusted count is k. */
  ghost function OfCount(effCounts: seq<nat>, k: nat, n: nat): set<nat>
    requires n <= |effCounts|
  {
    set i: nat | i < n && effCounts[i] == k
  }

  /** How many n-grams have each count below len; larger counts are left out. */
  method BinClippedCount(effCounts: seq<nat>, len: nat) returns (n: seq<nat>)
    ensures |n| == len && forall k | 0 <= k < len :: n[k] == |OfCount(effCounts, k, |effCounts|)|
  {
    n := seq(len, _ => 0);
    for i := 0 to |effCounts|
      invariant |n| == len && forall k | 0 <= k < len :: n[k] == |OfCount(effCounts, k, i)|
    {
      forall k | 0 <= k < len {
        OneCounted(effCounts, k, i);
      }
      var index := effCounts[i];
      if index < len {
        n := n[index := n[index] + 1];
      }
    }
  }

  lemma OneCounted(effCounts: seq<nat>, k: nat, i: nat)
    requires i < |effCounts|
    ensures |OfCount(effCounts, k, i + 1)| == |OfCount(effCounts, k, i)| + if effCounts[i] == k then 1 else 0
  {
    var before, after := OfCount(effCounts, k, i), OfCount(effCounts, k, i + 1);
    assert after == if effCounts[i] == k then before + {i} else before;
  }

  /** The fixed discounts of an order, from how many of its n-grams have each adjusted count. */
  method EstimateDiscounts(effCounts: seq<nat>, discOrder: nat) returns (discParams: seq<Maybe>, n: seq<nat>)
    requires discOrder >= 1
    ensures |n| == discOrder + 2 && forall k | 0 <= k < |n| :: n[k] == |OfCount(effCounts, k, |effCounts|)|
    ensures |discParams| == discOrder + 1 && discParams[0] == Some(0.0)
    ensures forall i | 1 <= i <= discOrder :: discParams[i] == FixedDiscount(n, i)
  {
    n := BinClippedCount(effCounts, discOrder + 2);
    discParams := [Some(0.0)];
    for i := 1 to discOrder + 1
      invariant |discParams| == i && discParams[0] == Some(0.0)
      invariant forall k | 1 <= k < i :: discParams[k] == FixedDiscount(n, k)
    {
      discParams := discParams + [FixedDiscount(n, i)];
    }
  }

  /** All discounts are defined exactly when the first two statistics are not both zero, or every later one
      up to the discount order is zero too. */
  lemma DiscountsDefined(n: seq<nat>, discOrder: nat)
    requires |n| == discOrder + 2 && discOrder >= 1
    ensures (forall i | 1 <= i <= discOrder :: FixedDiscount(n, i).Some?)
       <==> n[1] > 0 || n[2] > 0 || forall i | 3 <= i <= discOrder :: n[i] == 0
  {
    if n[1] == 0 && n[2] == 0 {
      forall i | 1 <= i <= discOrder ensures FixedDiscount(n, i).Some? <==> n[i] == 0 {
      }
      if forall i | 1 <= i <= discOrder :: FixedDiscount(n, i).Some? {
        forall i | 3 <= i <= discOrder ensures n[i] == 0 {
          assert FixedDiscount(n, i).Some?;
        }
      }
    }
  }

  // ---------- estimation in place ----------

  method InverseHistCounts(o: Order) returns (inv: array<real>)
    requires o.Valid()
    ensures fresh(inv) && inv.Length == o.numLower
    ensures forall h | 0 <= h < o.numLower :: inv[h] == o.InvHistCount(h)
  {
    inv := new real[o.numLower](_ => 0.0);
    for i := 0 to |o.hists|
      invariant forall h | 0 <= h < o.numLower :: inv[h] == BinSum(o.hists, o.WeightedCounts(), h, i)
    {
      o.Facts(i);
      inv[o.hists[i]] := inv[o.hists[i]] + o.effCounts[i] as real * o.weights[i];
    }
    for h := 0 to o.numLower
      invariant forall j | 0 <= j < h :: inv[j] == o.InvHistCount(j)
      invariant forall j | h <= j < o.numLower :: inv[j] == o.HistCount(j)
    {
      inv[h] := if inv[h] == 0.0 then 0.0 else 1.0 / inv[h];
    }
  }

  /** The whole order. The probability buffer first holds the discounts. */
  method Estimate(o: Order, inv: array<real>, lower: array<real>, probs: array<real>, bows: array<real>)
    requires o.Valid() && inv.Length == lower.Length == bows.Length == o.numLower && probs.Length == |o.hists|
    requires probs != bows && probs != inv && probs != lower && bows != inv && bows != lower
    requires forall h | 0 <= h < o.numLower :: inv[h] == o.InvHistCount(h)
    modifies probs, bows
    ensures forall h | 0 <= h < o.numLower :: bows[h] == o.Bow(h)
    ensures forall i | 0 <= i < |o.hists| :: probs[i] == o.Prob(i, lower[..])
  {
    hide Order.Valid, Order.Discount, Order.HistCount, Order.InvHistCount, Order.Bow, Order.Share;
    ghost var lo := lower[..];
    for i := 0 to probs.Length
      invariant forall j | 0 <= j < i :: probs[j] == o.Discount(j)
    {
      o.Facts(i);
      probs[i] := DiscountAt(o, i);
    }
    AllHists(o);
    BowsInPlace(o, inv, probs, seq(o.numLower, _ => true), bows);
    for i := 0 to probs.Length
      invariant lower[..] == lo
      invariant forall h | 0 <= h < o.numLower :: bows[h] == o.Bow(h) && inv[h] == o.InvHistCount(h)
      invariant forall j | 0 <= j < i :: probs[j] == o.Prob(j, lo)
      invariant forall j | i <= j < probs.Length :: probs[j] == o.Discount(j)
    {
      o.Facts(i);
      ProbUnfold(o, i, lo);
      probs[i] := if o.openUnigrams && o.effCounts[i] == 0 then 0.0 else
        (if o.effCounts[i] == 0 then 0.0
         else o.weights[i] * (o.effCounts[i] as real - probs[i]) * inv[o.hists[i]])
        + lower[o.backoffs[i]] * bows[o.hists[i]];
    }
  }

  lemma AllHists(o: Order)
    requires o.Valid()
    ensures forall i | 0 <= i < |o.hists| :: o.hists[i] < o.numLower
  {
    forall i | 0 <= i < |o.hists| ensures o.hists[i] < o.numLower {
      o.Facts(i);
    }
  }

  method DiscountAt(o: Order, i: nat) returns (d: real)
    requires o.Valid() && i < |o.hists|
    ensures d == o.Discount(i)
  {
    d := o.discParams[o.Clipped(o.effCounts[i])];
  }

  lemma ProbUnfold(o: Order, i: nat, lower: seq<real>)
    requires o.Valid() && i < |o.hists| && |lower| == o.numLower
    ensures |o.hists| == |o.backoffs| == |o.effCounts| == |o.weights| && o.EntryOk(i)
    ensures o.Prob(i, lower) ==
      if o.openUnigrams && o.effCounts[i] == 0 then 0.0 else
        (if o.effCounts[i] == 0 then 0.0
         else o.weights[i] * (o.effCounts[i] as real - o.Discount(i)) * o.InvHistCount(o.hists[i]))
        + lower[o.backoffs[i]] * o.Bow(o.hists[i])
  {
    o.Facts(i);
  }

  /** The sums of weighted discounts by history, over the histories of the mask. */
  method BinDiscounts(o: Order, discounts: array<real>, mask: seq<bool>, bows: array<real>)
    requires o.Valid() && bows.Length == |mask| == o.numLower && discounts.Length == |o.hists| && discounts != bows
    requires forall i | 0 <= i < |o.hists| :: o.hists[i] < o.numLower && mask[o.hists[i]] ==> discounts[i] == o.Discount(i)
    modifies bows
    ensures forall h | 0 <= h < o.numLower ::
              bows[h] == if mask[h] then BinSum(o.hists, o.WeightedDiscounts(), h, |o.hists|) else old(bows[h])
  {
    hide Order.Valid, Order.Discount;
    for h := 0 to bows.Length
      invariant forall j | 0 <= j < bows.Length :: bows[j] == if j < h && mask[j] then 0.0 else old(bows[j])
    {
      if mask[h] {
        bows[h] := 0.0;
      }
    }
    for i := 0 to |o.hists|
      invariant forall h | 0 <= h < o.numLower ::
                  bows[h] == if mask[h] then BinSum(o.hists, o.WeightedDiscounts(), h, i) else old(bows[h])
    {
      o.Facts(i);
      if mask[o.hists[i]] {
        bows[o.hists[i]] := bows[o.hists[i]] + o.weights[i] * discounts[i];
      }
    }
  }

  method BowsInPlace(o: Order, inv: array<real>, discounts: array<real>, mask: seq<bool>, bows: array<real>)
    requires o.Valid() && inv.Length == bows.Length == |mask| == o.numLower && discounts.Length == |o.hists|
    requires discounts != bows && bows != inv
    requires forall h | 0 <= h < o.numLower :: inv[h] == o.InvHistCount(h)
    requires forall i | 0 <= i < |o.hists| :: o.hists[i] < o.numLower && mask[o.hists[i]] ==> discounts[i] == o.Discount(i)
    modifies bows
    ensures forall h | 0 <= h < o.numLower :: bows[h] == if mask[h] then o.Bow(h) else old(bows[h])
  {
    hide Order.Valid, Order.Discount, Order.HistCount, Order.InvHistCount, Order.WeightedDiscounts;
    BinDiscounts(o, discounts, mask, bows);
    for h := 0 to bows.Length
      invariant forall j | 0 <= j < bows.Length && (j < h || !mask[j]) ::
                  bows[j] == if mask[j] then o.Bow(j) else old(bows[j])
      invariant forall j | h <= j < bows.Length && mask[j] ::
                  bows[j] == BinSum(o.hists, o.WeightedDiscounts(), j, |o.hists|)
    {
      if mask[h] {
        if inv[h] == 0.0 {
          bows[h] := 1.0;
        } else {
          bows[h] := bows[h] * inv[h];
        }
      }
    }
  }

  // ---------- masks ----------

  /** Some masked position among the first n points at b. */
  ghost predicate Marked(mask: seq<bool>, targets: seq<nat>, b: nat, n: nat) {
    exists i :: 0 <= i < n && i < |mask| && i < |targets| && mask[i] && targets[i] == b
  }

  /** Marks what the masked probabilities depend on: their backoffs and their histories' weights. The result
      marks the n-grams whose discount a masked backoff weight sums. */
  method UpdateMask(o: Order, probMask: array<bool>, boProbMask: array<bool>, boBowMask: array<bool>)
    returns (discMask: array<bool>)
    requires o.Valid() && probMask.Length == |o.hists| && boProbMask.Length == boBowMask.Length == o.numLower
    requires probMask != boProbMask && probMask != boBowMask && boProbMask != boBowMask
    modifies boProbMask, boBowMask
    ensures fresh(discMask) && discMask.Length == |o.hists| == |o.backoffs|
    ensures forall b | 0 <= b < o.numLower :: boProbMask[b] <==>
              old(boProbMask[b]) || Marked(probMask[..], o.backoffs, b, |o.hists|)
    ensures forall h | 0 <= h < o.numLower :: boBowMask[h] <==>
              old(boBowMask[h]) || Marked(probMask[..], o.hists, h, |o.hists|)
    ensures forall i | 0 <= i < |o.hists| :: o.hists[i] < o.numLower && discMask[i] == boBowMask[o.hists[i]]
  {
    hide Order.Valid;
    if |o.hists| > 0 {
      o.Facts(0);
    } else {
      Empty(o);
    }
    ghost var mask := probMask[..];
    for i := 0 to probMask.Length
      invariant probMask[..] == mask
      invariant forall b | 0 <= b < o.numLower :: boProbMask[b] <==>
                  old(boProbMask[b]) || Marked(mask, o.backoffs, b, i)
      invariant forall h | 0 <= h < o.numLower :: boBowMask[h] <==>
                  old(boBowMask[h]) || Marked(mask, o.hists, h, i)
    {
      o.Facts(i);
      if probMask[i] {
        if !boProbMask[o.backoffs[i]] {
          boProbMask[o.backoffs[i]] := true;
        }
        if !boBowMask[o.hists[i]] {
          boBowMask[o.hists[i]] := true;
        }
      }
    }
    discMask := new bool[|o.hists|](_ => false);
    for i := 0 to |o.hists|
      modifies discMask
      invariant forall j | 0 <= j < i :: o.hists[j] < o.numLower && discMask[j] == boBowMask[o.hists[j]]
    {
      o.Facts(i);
      discMask[i] := boBowMask[o.hists[i]];
    }
    assert probMask[..] == mask;
  }

  lemma Empty(o: Order)
    requires o.Valid()
    ensures |o.hists| == |o.backoffs|
  {
  }

  /** The masked order: correct wherever the masks ask, whatever the buffers held before. */
  method EstimateMasked(o: Order, inv: array<real>, lower: array<real>, probMask: seq<bool>, bowMask: seq<bool>,
                        discMask: seq<bool>, probs: array<real>, bows: array<real>)
    requires o.Valid() && inv.Length == lower.Length == bows.Length == |bowMask| == o.numLower
    requires probs.Length == |probMask| == |discMask| == |o.hists|
    requires probs != bows && probs != inv && probs != lower && bows != inv && bows != lower
    requires forall h | 0 <= h < o.numLower :: inv[h] == o.InvHistCount(h)
    requires forall i | 0 <= i < |o.hists| :: o.hists[i] < o.numLower
               && discMask[i] == bowMask[o.hists[i]] && (probMask[i] ==> bowMask[o.hists[i]])
    modifies probs, bows
    ensures forall h | 0 <= h < o.numLower :: bows[h] == if bowMask[h] then o.Bow(h) else old(bows[h])
    ensures forall i | 0 <= i < |o.hists| && probMask[i] :: probs[i] == o.Prob(i, lower[..])
  {
    hide Order.Valid, Order.Discount, Order.HistCount, Order.InvHistCount, Order.Bow, Order.Share, Order.Prob;
    ghost var lo := lower[..];
    for i := 0 to probs.Length
      invariant bows[..] == old(bows[..])
      invariant forall j | 0 <= j < i && discMask[j] :: probs[j] == o.Discount(j)
    {
      if discMask[i] {
        probs[i] := DiscountAt(o, i);
      }
    }
    BowsInPlace(o, inv, probs, bowMask, bows);
    for i := 0 to probs.Length
      invariant lower[..] == lo
      invariant forall h | 0 <= h < o.numLower :: inv[h] == o.InvHistCount(h)
      invariant forall h | 0 <= h < o.numLower :: bows[h] == if bowMask[h] then o.Bow(h) else old(bows[h])
      invariant forall j | 0 <= j < i && probMask[j] :: probs[j] == o.Prob(j, lo)
      invariant forall j | i <= j < probs.Length && discMask[j] :: probs[j] == o.Discount(j)
    {
      if probMask[i] {
        ProbUnfold(o, i, lo);
        probs[i] := if o.openUnigrams && o.effCounts[i] == 0 then 0.0 else
          (if o.effCounts[i] == 0 then 0.0
           else o.weights[i] * (o.effCounts[i] as real - probs[i]) * inv[o.hists[i]])
          + lower[o.backoffs[i]] * bows[o.hists[i]];
      }
    }
  }
}
