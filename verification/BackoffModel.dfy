/** Kneser-Ney tables of all orders are normalised. */
module BackoffModel {
  // After every history the probabilities of the vocabulary sum to one.

  import opened Reals
  import opened Bins
  import opened Tries
  import opened KneserNey

  /** orders[n-1] is what order n of the trie is estimated from; p0 is the zeroth-order probability. */
  datatype Model = Model(trie: Trie, orders: seq<Order>, p0: real) {

    ghost predicate OrderOk(n: nat)
      requires 1 <= n <= |orders| == |trie.levels|
    {
      && orders[n-1].Valid()
      && orders[n-1].hists == trie.levels[n-1].hists
      && orders[n-1].backoffs == trie.levels[n-1].backoffs
      && orders[n-1].numLower == trie.Size(n - 1)
      && (n > 1 ==> !orders[n-1].openUnigrams)
    }

    ghost predicate Valid() {
      && trie.Valid() && |orders| == |trie.levels|
      && forall n | 1 <= n <= |orders| :: OrderOk(n)
    }

    lemma TrieOk()
      requires Valid()
      ensures trie.Valid() && |orders| == |trie.levels| > 0
    {
    }

    lemma OrderFacts(n: nat)
      requires Valid() && 1 <= n <= |orders|
      ensures |orders| == |trie.levels| && OrderOk(n)
    {
    }

    /** The probability table of order n; order 0 is the single zeroth-order entry. */
    ghost function Table(n: nat): (t: seq<real>)
      requires Valid() && n <= |orders|
      ensures |t| == trie.Size(n)
    {
      if n == 0 then [p0]
      else
        OrderFacts(n);
        var lower := Table(n - 1);
        seq(trie.Size(n), i requires 0 <= i < trie.Size(n) => orders[n-1].Prob(i, lower))
    }

    ghost function Bows(n: nat): (b: seq<real>)
      requires Valid() && n < |orders|
      ensures |b| == trie.Size(n) && forall h | 0 <= h < |b| :: orders[n].Valid() && b[h] == orders[n].Bow(h)
    {
      OrderFacts(n + 1);
      seq(trie.Size(n), h requires 0 <= h < trie.Size(n) => orders[n].Bow(h))
    }

    ghost function AllTables(): (t: Tables)
      requires Valid()
      ensures trie.Fits(t)
      ensures forall n | 0 <= n <= |orders| :: t.probs[n] == Table(n)
      ensures forall n | 0 <= n < |orders| :: t.bows[n] == Bows(n)
    {
      Tables(seq(|orders| + 1, n requires 0 <= n <= |orders| => Table(n)),
             seq(|orders|, n requires 0 <= n < |orders| => Bows(n)))
    }

    /** The probability of a word after a history, looked up with backoff. */
    ghost function P(n: nat, h: nat, w: nat): real
      requires Valid() && n <= |orders| && (n > 0 ==> h < trie.Size(n - 1))
    {
      trie.P(AllTables(), n, h, w)
    }

    ghost function Mass(n: nat, h: nat): real
      requires Valid() && n <= |orders| && (n > 0 ==> h < trie.Size(n - 1))
    {
      trie.Mass(AllTables(), n, h, trie.vocab)
    }

    lemma TableEntry(n: nat, i: nat)
      requires Valid() && 1 <= n <= |orders| && i < trie.Size(n)
      ensures OrderOk(n) && |Table(n - 1)| == orders[n-1].numLower
      ensures Table(n)[i] == orders[n-1].Prob(i, Table(n - 1))
      ensures orders[n-1].Shares()[i] == orders[n-1].Share(i)
    {
      OrderFacts(n);
    }

    /** With full interpolation an entry is its own share plus the backed-off probability. */
    lemma EntryBlends(n: nat, i: nat)
      requires Valid() && 1 <= n <= |orders| && i < trie.Size(n) && !orders[n-1].openUnigrams
      ensures OrderOk(n)
      ensures Blend(Table(n)[i], orders[n-1].Shares()[i], orders[n-1].Bow(orders[n-1].hists[i]),
                    trie.Lower(AllTables(), n)[i])
    {
      hide Valid, Order.Valid, Order.Share, Order.Bow, Trie.Valid, Table, Bows, Trie.LevelOk;
      TrieOk();
      TableEntry(n, i);
      trie.NgramFacts(n, i);
      orders[n-1].ProbBlends(i, Table(n - 1));
    }

    /** If the shorter history's probabilities sum to one, so do those of any history above it. */
    lemma MassStep(n: nat, h: nat)
      requires Valid() && 1 <= n <= |orders| && h < trie.Size(n - 1) && !orders[n-1].openUnigrams
      requires Mass(n - 1, trie.Shorter(n, h)) == 1.0
      ensures Mass(n, h) == 1.0
    {
      hide Valid, OrderOk, Table, Bows, AllTables, Order.Valid, Order.Shares, Order.Bow;
      hide Trie.Valid, Trie.Fits, Trie.Mass, Trie.Shorter, Trie.Lower, BinSum, Blend;
      TrieOk();
      OrderFacts(n);
      var t, o := AllTables(), orders[n-1];
      trie.MassSplit(t, n, h);
      forall i | 0 <= i < |o.hists| && o.hists[i] == h
        ensures Blend(Table(n)[i], o.Shares()[i], o.Bow(h), trie.Lower(t, n)[i])
      {
        EntryBlends(n, i);
      }
      BinSumLinear(o.hists, o.Shares(), trie.Lower(t, n), Table(n), o.Bow(h), h, |o.hists|);
      o.SharesAndBow(h);
      Cancel(Mass(n, h), BinSum(o.hists, Table(n), h, |o.hists|), BinSum(o.hists, o.Shares(), h, |o.hists|), o.Bow(h),
             BinSum(o.hists, trie.Lower(t, n), h, |o.hists|));
    }

    // ---------- unigrams ----------

    /** How many unigrams have a positive adjusted count, among the first m. */
    ghost function Seen(m: nat): nat
      requires Valid() && |orders| > 0 && m <= |orders[0].effCounts|
    {
      if m == 0 then 0 else Seen(m - 1) + if orders[0].effCounts[m-1] > 0 then 1 else 0
    }

    lemma UnigramFacts()
      requires Valid()
      ensures |orders| > 0 && orders[0].Valid() && orders[0].numLower == 1 && Table(0) == [p0]
      ensures |orders[0].hists| == |orders[0].effCounts| == trie.Size(1) && orders[0].hists == trie.Hists(1)
    {
      OrderFacts(1);
    }

    lemma OpenEntry(i: nat)
      requires Valid() && |orders| > 0 && orders[0].openUnigrams && i < trie.Size(1)
      ensures orders[0].Valid() && |orders[0].hists| == |orders[0].effCounts| == trie.Size(1) && orders[0].hists[i] == 0
      ensures Table(1)[i] == orders[0].Shares()[i] + if orders[0].effCounts[i] > 0 then p0 * orders[0].Bow(0) else 0.0
    {
      UnigramFacts();
      TableEntry(1, i);
      trie.NgramFacts(1, i);
    }

    /** Open vocabulary: words never counted get nothing, so the zeroth-order share is paid out only to seen words. */
    lemma {:induction false} OpenSum(m: nat, share: real)
      requires Valid() && |orders| > 0 && orders[0].Valid() && orders[0].openUnigrams
      requires share == p0 * orders[0].Bow(0)
      requires m <= |orders[0].hists| == |orders[0].effCounts| == trie.Size(1)
      ensures Blend(BinSum(orders[0].hists, Table(1), 0, m), BinSum(orders[0].hists, orders[0].Shares(), 0, m),
                    share, Seen(m) as real)
    {
      hide Valid, Order.Valid, Order.Share, Order.Shares, Order.Bow, Table, OrderOk;
      if m > 0 {
        OpenSum(m - 1, share);
        OpenEntry(m - 1);
        BlendSum(BinSum(orders[0].hists, Table(1), 0, m - 1), BinSum(orders[0].hists, orders[0].Shares(), 0, m - 1),
                 Seen(m - 1) as real, Table(1)[m-1], orders[0].Shares()[m-1],
                 if orders[0].effCounts[m-1] > 0 then 1.0 else 0.0, share);
      }
    }

    /** Exactly when open-vocabulary unigrams are normalised: nothing is discounted, or the zeroth-order
        probability is one over the number of words with a positive adjusted count. */
    lemma OpenUnigrams()
      requires Valid() && |orders| > 0 && orders[0].openUnigrams
      ensures |orders[0].hists| == |orders[0].effCounts| && orders[0].Valid()
      ensures Mass(1, 0) == 1.0
         <==> orders[0].Bow(0) == 0.0 || p0 * Seen(|orders[0].hists|) as real == 1.0
    {
      hide Valid, Order.Valid, Order.Bow, Order.Shares, Table, Trie.Mass, BinSum, OrderOk, Seen, Trie.Valid;
      TrieOk();
      UnigramFacts();
      trie.UnigramMass(AllTables());
      OpenSum(|orders[0].hists|, p0 * orders[0].Bow(0));
      orders[0].SharesAndBow(0);
      PaidOut(Mass(1, 0), orders[0].Bow(0), p0, Seen(|orders[0].hists|) as real);
    }

    lemma {:induction false} ZerothMass(v: nat)
      requires Valid()
      ensures Blend(trie.Mass(AllTables(), 0, 0, v), 0.0, p0, v as real)
    {
      hide Valid, Trie.Valid;
      TrieOk();
      if v > 0 {
        ZerothMass(v - 1);
        BlendSum(trie.Mass(AllTables(), 0, 0, v - 1), 0.0, (v - 1) as real, p0, 0.0, 1.0, p0);
      } else {
        assert p0 * 0.0 == 0.0;
      }
    }

    /** The zeroth-order probability is one that makes unigrams sum to one. */
    ghost predicate ZerothOk()
      requires Valid()
    {
      UnigramFacts();
      if orders[0].openUnigrams then orders[0].Bow(0) == 0.0 || p0 * Seen(|orders[0].hists|) as real == 1.0
      else p0 * trie.vocab as real == 1.0
    }

    /** The zeroth-order probability as it is set: one over the number of unigrams for a fixed vocabulary,
        one over the number of unigrams with a positive count otherwise. */
    ghost predicate ZerothSet(counts: seq<nat>)
      requires Valid() && |counts| == trie.Size(1)
    {
      UnigramFacts();
      if orders[0].openUnigrams then p0 * Positive(counts, |counts|) as real == 1.0
      else p0 * trie.Size(1) as real == 1.0
    }

    /** Setting it that way is right for a fixed vocabulary always, and for an open one exactly when nothing is
        discounted or as many unigrams have a positive adjusted count as have a positive count. */
    lemma ZerothSetOk(counts: seq<nat>)
      requires Valid() && |counts| == trie.Size(1) && ZerothSet(counts)
      ensures |orders| > 0 && orders[0].Valid() && |orders[0].effCounts| == |counts|
      ensures ZerothOk() <==> !orders[0].openUnigrams || orders[0].Bow(0) == 0.0
                              || Seen(|counts|) == Positive(counts, |counts|)
    {
      hide Valid, Order.Valid, OrderOk, Order.Bow, Seen, Positive, Trie.Valid, Trie.Mass, BinSum, Table;
      TrieOk();
      UnigramFacts();
      trie.UnigramMass(AllTables());
      if orders[0].openUnigrams {
        CancelCounts(p0, Seen(|counts|), Positive(counts, |counts|));
      }
    }

    // ---------- all orders ----------

    lemma UnigramsNormalised()
      requires Valid() && ZerothOk()
      ensures Mass(1, 0) == 1.0
    {
      hide Order.Bow, Trie.Mass, Order.Valid, Seen, Trie.Valid, OrderOk, Table, Valid;
      TrieOk();
      UnigramFacts();
      if orders[0].openUnigrams {
        OpenUnigrams();
      } else {
        ZerothMass(trie.vocab);
        MassStep(1, 0);
      }
    }

    /** Normalisation: at every order, after every history, the probabilities of the vocabulary sum to one. */
    lemma {:induction false} Normalised(n: nat, h: nat)
      requires Valid() && ZerothOk() && 1 <= n <= |orders| && h < trie.Size(n - 1)
      ensures Mass(n, h) == 1.0
    {
      hide Valid, Mass, Order.Valid, Trie.Valid, ZerothOk, Table;
      TrieOk();
      OrderFacts(n);
      if n > 1 {
        Normalised(n - 1, trie.Shorter(n, h));
        MassStep(n, h);
      } else {
        UnigramsNormalised();
      }
    }

    /** No probability is negative. */
    lemma {:induction false} NonNegative(n: nat, h: nat, w: nat)
      requires Valid() && p0 >= 0.0 && n <= |orders| && (n > 0 ==> h < trie.Size(n - 1))
      ensures P(n, h, w) >= 0.0
    {
      hide Valid, Order.Bow, Order.Share, Order.Valid, Table, Bows, Trie.Valid, Trie.Stored, OrderOk, Trie.Shorter, Trie.Is, P, Blend;
      TrieOk();
      if n > 0 {
        NonNegative(n - 1, trie.Shorter(n, h), w);
        OrderOkFacts(n);
        orders[n-1].BowNonNegative(h);
        if trie.Stored(n, h, w) {
          TableNonNegative(n, trie.IndexOf(n, h, w));
        }
        LookedUp(n, h, w);
        BlendNonNegative(P(n, h, w), orders[n-1].Bow(h), P(n - 1, trie.Shorter(n, h), w));
      } else {
        ZerothLookedUp(h, w);
      }
    }

    lemma ZerothLookedUp(h: nat, w: nat)
      requires Valid()
      ensures P(0, h, w) == p0
    {
      UnigramFacts();
    }

    lemma LookedUp(n: nat, h: nat, w: nat)
      requires Valid() && 1 <= n <= |orders| && h < trie.Size(n - 1)
      ensures orders[n-1].Valid() && |trie.levels| == |orders| && trie.Valid()
      ensures trie.Stored(n, h, w) ==> P(n, h, w) == Table(n)[trie.IndexOf(n, h, w)]
      ensures !trie.Stored(n, h, w) ==> Blend(P(n, h, w), 0.0, orders[n-1].Bow(h), P(n - 1, trie.Shorter(n, h), w))
    {
      hide Valid, Order.Bow, Order.Valid, Table, Trie.Valid, Trie.Stored, OrderOk, Trie.Shorter, Trie.P, Blend;
      TrieOk();
      OrderOkFacts(n);
      trie.LookUp(AllTables(), n, h, w);
      assert AllTables().bows[n-1] == Bows(n - 1);
    }

    lemma OrderOkFacts(n: nat)
      requires Valid() && 1 <= n <= |orders|
      ensures orders[n-1].Valid() && |orders| == |trie.levels|
    {
      OrderFacts(n);
    }

    lemma {:induction false} TableNonNegative(n: nat, i: nat)
      requires Valid() && p0 >= 0.0 && n <= |orders| && i < trie.Size(n)
      ensures Table(n)[i] >= 0.0
    {
      hide Valid, Order.Bow, Order.Share, Order.Valid, Order.Prob;
      if n > 0 {
        TableEntry(n, i);
        var lower := Table(n - 1);
        forall k | 0 <= k < |lower| ensures lower[k] >= 0.0 {
          TableNonNegative(n - 1, k);
        }
        orders[n-1].ProbNonNegative(i, lower);
      }
    }
  }

  /** How many of the first n counts are positive. */
  ghost function Positive(counts: seq<nat>, n: nat): nat
    requires n <= |counts|
  {
    if n == 0 then 0 else Positive(counts, n - 1) + if counts[n-1] > 0 then 1 else 0
  }

  lemma BlendNonNegative(total: real, k: real, b: real)
    requires k >= 0.0 && b >= 0.0
    ensures Blend(total, 0.0, k, b) ==> total >= 0.0
  {
    ProductNonNegative(k, b);
  }

  lemma CancelCounts(p: real, a: nat, b: nat)
    requires p * b as real == 1.0
    ensures p * a as real == 1.0 <==> a == b
  {
    if p * a as real == 1.0 {
      assert p * (a as real - b as real) == 0.0;
    }
  }

  /** What the backoff weight takes from the stored words it gives to the others. */
  lemma Cancel(mass: real, total: real, shares: real, b: real, lower: real)
    requires Blend(total, shares, b, lower) && shares + b == 1.0 && Blend(mass, total, b, 1.0 - lower)
    ensures mass == 1.0
  {
    assert b * (1.0 - lower) == b - b * lower;
  }

  lemma PaidOut(mass: real, b: real, p: real, s: real)
    requires Blend(mass, 1.0 - b, p * b, s)
    ensures mass == 1.0 <==> b == 0.0 || p * s == 1.0
  {
    assert p * b * s == b * (p * s);
    if b != 0.0 && b * (p * s) == b {
      assert b * (p * s - 1.0) == 0.0;
    }
  }
}
