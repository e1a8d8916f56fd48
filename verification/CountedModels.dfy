/** Models estimated from the counts of a corpus. */
module CountedModels {
  import opened Sorting
  import opened Probing
  import opened NgramVectors
  import opened Layers
  import opened NgramModels
  import opened CorpusCounts
  import opened BackoffModel
  import Bins
  import KneserNey
  import Tries

  /** Each count moved to where its n-gram went. */
  ghost predicate Moved(was: seq<seq<Key>>, ngramMap: seq<seq<nat>>, counts: seq<seq<nat>>, sorted: seq<seq<nat>>, n: nat, i: nat)
    requires n < |was| && n < |ngramMap| && n < |counts| && n < |sorted| && i < |was[n]|
  {
    && i < |ngramMap[n]| && i < |counts[n]| && ngramMap[n][i] < |sorted[n]|
    && sorted[n][ngramMap[n][i]] == counts[n][i]
  }

  /** Sorting the model keeps n-grams no more frequent than their suffixes. */
  lemma SortedShrinks(was: seq<seq<Key>>, now: seq<seq<Key>>, vocabMap: seq<nat>, ngramMap: seq<seq<nat>>,
                      counts: seq<seq<nat>>, sorted: seq<seq<nat>>)
    requires Ok(was) && Ok(now) && Closed(was) && Sorted(was, now, vocabMap, ngramMap, |was|)
    requires Counters(was, counts) && Counters(now, sorted) && Shrinks(was, counts) && |ngramMap| == |was| == |now| == |counts| == |sorted|
    requires forall n, i | 1 <= n < |was| && 0 <= i < |was[n]| :: Moved(was, ngramMap, counts, sorted, n, i)
    ensures Shrinks(now, sorted)
  {
    hide Ok, Closed, Counters, CountOf, Sorted, Moved, Shrinks;
    forall n, g: seq<int> | 2 <= n < |now| && |g| == n ensures ShrinksAt(now, sorted, n, g) {
      if Has(now, n, g) {
        var j: nat :| Spells(now, n, j, g);
        var i := SortedFrom(was, now, vocabMap, ngramMap, n, j);
        assert Moved(was, ngramMap, counts, sorted, n, i);
        CarriedShrinks(was, now, vocabMap, ngramMap, counts, sorted, n, i);
      } else {
        NotCounted(now, sorted, n, g);
      }
    }
    ShrinksFrom(now, sorted);
  }

  lemma ShrinksFrom(ls: seq<seq<Key>>, counts: seq<seq<nat>>)
    requires Ok(ls) && Counters(ls, counts)
    requires forall n, g: seq<int> | 2 <= n < |ls| && |g| == n :: ShrinksAt(ls, counts, n, g)
    ensures Shrinks(ls, counts)
  {
  }

  lemma NotCounted(ls: seq<seq<Key>>, counts: seq<seq<nat>>, n: nat, g: seq<int>)
    requires Ok(ls) && Counters(ls, counts) && 2 <= n < |ls| && |g| == n && !Has(ls, n, g)
    ensures ShrinksAt(ls, counts, n, g)
  {
    hide Ok, Counters, Has;
  }

  /** Every sorted n-gram comes from one before. */
  lemma SortedFrom(was: seq<seq<Key>>, now: seq<seq<Key>>, vocabMap: seq<nat>, ngramMap: seq<seq<nat>>, n: nat, j: nat) returns (i: nat)
    requires Sorted(was, now, vocabMap, ngramMap, |was|) && 1 <= n < |was| && n < |now| && j < |now[n]|
    ensures n < |ngramMap| && i < |was[n]| == |ngramMap[n]| && ngramMap[n][i] == j
  {
    assert Permutes(ngramMap[n], |was[n]|);
    assert j in ngramMap[n];
    i :| 0 <= i < |ngramMap[n]| && ngramMap[n][i] == j;
  }

  lemma CarriedShrinks(was: seq<seq<Key>>, now: seq<seq<Key>>, vocabMap: seq<nat>, ngramMap: seq<seq<nat>>,
                       counts: seq<seq<nat>>, sorted: seq<seq<nat>>, n: nat, i: nat)
    requires Ok(was) && Ok(now) && Closed(was) && Sorted(was, now, vocabMap, ngramMap, |was|)
    requires Counters(was, counts) && Counters(now, sorted) && Shrinks(was, counts) && |ngramMap| == |was| == |now| == |counts| == |sorted|
    requires forall n, i | 1 <= n < |was| && 0 <= i < |was[n]| :: Moved(was, ngramMap, counts, sorted, n, i)
    requires 2 <= n < |was| && i < |was[n]| == |ngramMap[n]|
    ensures Spells(now, n, ngramMap[n][i], Renamed(vocabMap, Spell(was, n, i)))
    ensures ShrinksAt(now, sorted, n, Renamed(vocabMap, Spell(was, n, i)))
  {
    hide Ok, Closed, Counters, CountOf, Sorted, Shrinks, Has;
    var f := Spell(was, n, i);
    SortedMaps(was, now, vocabMap, ngramMap);
    SpellCarried(was, now, vocabMap, ngramMap, |was|, n, i);
    assert Moved(was, ngramMap, counts, sorted, n, i);
    CountsSorted(was, now, vocabMap, ngramMap, counts, sorted, n, i);
    ShrinksFacts(was, counts, n, f);
    Held(was, n, i, f);
    var k := SuffixAt(was, n, f);
    assert Moved(was, ngramMap, counts, sorted, n - 1, k);
    CountsSorted(was, now, vocabMap, ngramMap, counts, sorted, n - 1, k);
    assert Renamed(vocabMap, f[1..]) == Renamed(vocabMap, f)[1..];
  }

  lemma SortedMaps(was: seq<seq<Key>>, now: seq<seq<Key>>, vocabMap: seq<nat>, ngramMap: seq<seq<nat>>)
    requires Sorted(was, now, vocabMap, ngramMap, |was|)
    ensures |now| == |was| == |ngramMap| && Carried(was, now, vocabMap, ngramMap, |was|)
    ensures forall m | 0 <= m < |was| :: |ngramMap[m]| == |was[m]|
  {
    forall m | 0 <= m < |was| ensures |ngramMap[m]| == |was[m]| {
      assert Permutes(ngramMap[m], |was[m]|);
    }
  }

  lemma ShrinksFacts(ls: seq<seq<Key>>, counts: seq<seq<nat>>, n: nat, g: seq<int>)
    requires Ok(ls) && Counters(ls, counts) && Shrinks(ls, counts) && 2 <= n < |ls| && |g| == n
    ensures ShrinksAt(ls, counts, n, g)
  {
  }

  lemma SuffixAt(ls: seq<seq<Key>>, n: nat, g: seq<int>) returns (k: nat)
    requires Ok(ls) && Closed(ls) && 2 <= n < |ls| && |g| == n && Has(ls, n, g)
    ensures Spells(ls, n - 1, k, g[1..])
  {
    assert SuffixHeld(ls, n, g);
    k :| Spells(ls, n - 1, k, g[1..]);
  }

  /** The count of an n-gram is at most that of its backoff. */
  lemma BackoffCounted(ls: seq<seq<Key>>, backoffs: seq<seq<int>>, counts: seq<seq<nat>>, n: nat, i: nat)
    requires Linked(ls, backoffs) && Closed(ls) && Counters(ls, counts) && Shrinks(ls, counts)
    requires 2 <= n < |ls| && i < |ls[n]|
    ensures |backoffs| == |ls| && |backoffs[n]| == |ls[n]| && 0 <= backoffs[n][i] < |ls[n-1]|
    ensures |ls[n]| <= |counts[n]| && |ls[n-1]| <= |counts[n-1]| && counts[n][i] <= counts[n-1][backoffs[n][i]]
  {
    hide Ok, Closed, CountOf, Shrinks, Spell, BackoffsOf;
    LinkedSizes(ls, backoffs);
    LinkedFacts(ls, backoffs, n);
    NeverInvalid(ls, n, backoffs[n], i);
    var g := Spell(ls, n, i);
    ShrinksFacts(ls, counts, n, g);
    CountAt(ls, counts, n, i, g);
    CountAt(ls, counts, n - 1, backoffs[n][i], g[1..]);
  }

  // ---------- the adjusted counts ----------

  /** The counts of the n-grams of order n. */
  ghost function CountsOf(ls: seq<seq<Key>>, counts: seq<seq<nat>>, n: nat): (r: seq<nat>)
    requires Counters(ls, counts) && 1 <= n < |ls|
    ensures |r| == |ls[n]|
  {
    counts[n][..|ls[n]|]
  }

  ghost function BackoffsAt(ls: seq<seq<Key>>, backoffs: seq<seq<int>>, vocab: nat, n: nat): (r: seq<nat>)
    requires Linked(ls, backoffs) && Closed(ls) && 1 <= n < |ls|
    ensures |r| == |ls[n]|
  {
    LevelAt(ls, backoffs, vocab, n);
    ToTrie(ls, backoffs, vocab).levels[n-1].backoffs
  }

  /** eff is what the counts of order n are adjusted to: left-branch counts below the highest order, and the
      counts themselves where there are none and at the highest order. */
  ghost predicate AdjustedTo(ls: seq<seq<Key>>, backoffs: seq<seq<int>>, vocab: nat, counts: seq<seq<nat>>, n: nat, eff: seq<nat>)
    requires Linked(ls, backoffs) && Closed(ls) && Counters(ls, counts) && 1 <= n < |ls|
  {
    && |eff| == |ls[n]|
    && (n == |ls| - 1 ==> eff == CountsOf(ls, counts, n))
    && (n < |ls| - 1 ==>
          var hoBackoffs := BackoffsAt(ls, backoffs, vocab, n + 1);
          forall b | 0 <= b < |eff| ::
            var left := KneserNey.LeftBranches(CountsOf(ls, counts, n + 1), hoBackoffs, b, |ls[n+1]|);
            eff[b] == if left == 0 then counts[n][b] else left)
  }

  /** Adjusting the counts of a corpus changes no zero and makes none. */
  lemma SupportKept(ls: seq<seq<Key>>, backoffs: seq<seq<int>>, vocab: nat, counts: seq<seq<nat>>, n: nat, eff: seq<nat>)
    requires Linked(ls, backoffs) && Closed(ls) && Counters(ls, counts) && Shrinks(ls, counts) && 1 <= n < |ls|
    requires AdjustedTo(ls, backoffs, vocab, counts, n, eff)
    ensures |eff| == |ls[n]| && forall b | 0 <= b < |eff| :: eff[b] > 0 <==> CountsOf(ls, counts, n)[b] > 0
  {
    hide Ok, Closed, Shrinks, Linked, ToTrie, KneserNey.LeftBranches;
    if n < |ls| - 1 {
      LevelAt(ls, backoffs, vocab, n + 1);
      var hoBackoffs := BackoffsAt(ls, backoffs, vocab, n + 1);
      var lo, hi := CountsOf(ls, counts, n), CountsOf(ls, counts, n + 1);
      forall i | 0 <= i < |hoBackoffs| ensures hoBackoffs[i] < |lo| && (hi[i] > 0 ==> lo[hoBackoffs[i]] > 0) {
        BackoffCounted(ls, backoffs, counts, n + 1, i);
      }
      KneserNey.SameSupport(lo, hi, hoBackoffs, eff);
    }
  }

  lemma {:induction false} SeenIsPositive(m: Model, counts: seq<nat>, k: nat)
    requires m.Valid() && |m.orders| > 0 && |m.orders[0].effCounts| == |counts| && k <= |counts|
    requires forall b | 0 <= b < |counts| :: m.orders[0].effCounts[b] > 0 <==> counts[b] > 0
    ensures m.Seen(k) == Positive(counts, k)
  {
    if k > 0 {
      SeenIsPositive(m, counts, k - 1);
    }
  }

  /** A model estimated from the counts of a corpus, with its zeroth-order probability as it is set, is normalised
      after every history, whether its vocabulary is open or fixed. */
  lemma CountedNormalised(m: Model, ls: seq<seq<Key>>, backoffs: seq<seq<int>>, vocab: nat, counts: seq<seq<nat>>, n: nat, h: nat)
    requires Linked(ls, backoffs) && Closed(ls) && Counters(ls, counts) && Shrinks(ls, counts) && |ls| > 1
    requires m.Valid() && m.trie == ToTrie(ls, backoffs, vocab) && |m.orders| > 0
    requires AdjustedTo(ls, backoffs, vocab, counts, 1, m.orders[0].effCounts)
    requires |CountsOf(ls, counts, 1)| == m.trie.Size(1) && m.ZerothSet(CountsOf(ls, counts, 1))
    requires 1 <= n <= |m.orders| == |m.trie.levels| && h < m.trie.Size(n - 1)
    ensures m.Mass(n, h) == 1.0
  {
    hide Linked, Closed, Counters, Shrinks, Model.Valid, ToTrie, Tries.Trie.Valid, Model.ZerothSet, Model.ZerothOk, Model.Mass, AdjustedTo, Model.Seen, CountsOf;
    LevelAt(ls, backoffs, vocab, 1);
    SupportKept(ls, backoffs, vocab, counts, 1, m.orders[0].effCounts);
    var unigrams := CountsOf(ls, counts, 1);
    SeenIsPositive(m, unigrams, |unigrams|);
    m.ZerothSetOk(unigrams);
    m.Normalised(n, h);
  }

  // ---------- counts that come from no corpus ----------

  /** Two words and one bigram, counted once although its second word is not. */
  function ListedTrie(): Tries.Trie {
    Tries.Trie([Tries.Level([0, 1], [0, 0], [0, 0]), Tries.Level([1], [0], [1])], 2)
  }

  function ListedModel(): Model {
    var half := [0.0, 0.5];
    Model(ListedTrie(), [KneserNey.Order(1, [0, 0], [0, 0], [1, 1], [1.0, 1.0], half, true),
                         KneserNey.Order(2, [0], [1], [1], [1.0], half, false)], 1.0)
  }

  lemma ListedTrieValid()
    ensures ListedTrie().Valid()
  {
    var t := ListedTrie();
    assert t.Is(1, 0, 0, 0) && t.Is(1, 1, 0, 1) && t.Is(2, 0, 0, 1);
    assert t.NgramOk(1, 0) && t.NgramOk(1, 1) && t.NgramOk(2, 0);
    forall n | 1 <= n <= |t.levels| ensures t.LevelOk(n) {
      assert n == 1 || n == 2;
    }
    forall w | 0 <= w < t.vocab ensures t.HasUnigram(w) {
      assert t.Is(1, w, 0, w);
    }
  }

  lemma ListedModelValid()
    ensures ListedModel().Valid()
  {
    hide Tries.Trie.Valid;
    ListedTrieValid();
    var m := ListedModel();
    forall n | 1 <= n <= |m.orders| ensures m.OrderOk(n) {
      assert n == 1 || n == 2;
    }
  }

  /** Half of the unigram mass is discounted. */
  lemma ListedBow()
    ensures ListedModel().orders[0].Valid() && ListedModel().orders[0].Bow(0) == 0.5
  {
    var o := ListedModel().orders[0];
    assert Bins.BinSum(o.hists, o.WeightedCounts(), 0, 1) == 1.0;
    assert o.HistCount(0) == 2.0;
    assert Bins.BinSum(o.hists, o.WeightedDiscounts(), 0, 1) == 0.5;
    assert Bins.BinSum(o.hists, o.WeightedDiscounts(), 0, 2) == 1.0;
  }

  /** With such counts an open vocabulary is not normalised: the adjusted counts see a word the counts do not. */
  lemma ListedOnly()
    ensures var m, counts, hoCounts := ListedModel(), [1, 0], [1];
            && m.Valid() && m.trie == ListedTrie() && m.trie.Size(1) == 2 && m.ZerothSet(counts)
            && (forall b | 0 <= b < 2 ::
                  var left := KneserNey.LeftBranches(hoCounts, m.trie.levels[1].backoffs, b, 1);
                  m.orders[0].effCounts[b] == if left == 0 then counts[b] else left)
            && m.Mass(1, 0) != 1.0
  {
    hide Tries.Trie.Valid, Model.Valid, Model.OrderOk, Model.Mass, KneserNey.Order.Bow, KneserNey.Order.Valid;
    ListedModelValid();
    ListedBow();
    var m := ListedModel();
    m.UnigramFacts();
    assert Positive([1, 0], 1) == 1 == Positive([1, 0], 2);
    assert m.Seen(1) == 1 && m.Seen(2) == 2;
    assert KneserNey.LeftBranches([1], [1], 0, 0) == KneserNey.LeftBranches([1], [1], 1, 0) == 0;
    m.OpenUnigrams();
  }
}
