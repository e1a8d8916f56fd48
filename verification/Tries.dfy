/** N-gram models of all orders, and lookup with backoff. */
module Tries {
  // The mass identity at the end is what normalisation rests on.

  import opened Bins

  /** The n-grams of one order: last word, history and backoff (the suffix without the first word). */
  datatype Level = Level(words: seq<nat>, hists: seq<nat>, backoffs: seq<nat>)

  /** Probabilities for orders 0 .. N and backoff weights for orders 0 .. N - 1. */
  datatype Tables = Tables(probs: seq<seq<real>>, bows: seq<seq<real>>)

  /** levels[n-1] holds order n; the words are 0 .. vocab - 1. */
  datatype Trie = Trie(levels: seq<Level>, vocab: nat) {

    ghost function Hists(n: nat): seq<nat>
      requires 1 <= n <= |levels|
    {
      levels[n-1].hists
    }

    /** Number of n-grams of order n; order 0 has the single empty one. */
    ghost function Size(n: nat): nat
      requires n <= |levels|
    {
      if n == 0 then 1 else |levels[n-1].hists|
    }

    ghost predicate Shaped(n: nat)
      requires 1 <= n <= |levels|
    {
      |levels[n-1].words| == |levels[n-1].hists| == |levels[n-1].backoffs|
    }

    /** n-gram i of order n extends history h by word w. */
    ghost predicate Is(n: nat, i: nat, h: nat, w: nat)
      requires 1 <= n <= |levels|
    {
      i < |levels[n-1].hists| && i < |levels[n-1].words| && levels[n-1].hists[i] == h && levels[n-1].words[i] == w
    }

    /** Its history and backoff exist, its word is known, and the backoff drops the first word. */
    ghost predicate NgramOk(n: nat, i: nat)
      requires 1 <= n <= |levels| && Shaped(n) && i < Size(n)
    {
      var l := levels[n-1];
      && l.hists[i] < Size(n - 1) && l.backoffs[i] < Size(n - 1) && l.words[i] < vocab
      && (n > 1 ==>
           && l.hists[i] < |levels[n-2].backoffs|
           && Is(n - 1, l.backoffs[i], levels[n-2].backoffs[l.hists[i]], l.words[i]))
    }

    /** Order n is consistent and holds no n-gram twice. */
    ghost predicate LevelOk(n: nat)
      requires 1 <= n <= |levels|
    {
      && Shaped(n)
      && (forall i, j, h, w :: Is(n, i, h, w) && Is(n, j, h, w) ==> i == j)
      && forall i | 0 <= i < Size(n) :: NgramOk(n, i)
    }

    ghost predicate HasUnigram(w: nat)
      requires |levels| > 0
    {
      exists i: nat :: Is(1, i, 0, w)
    }

    ghost predicate Valid() {
      && |levels| > 0
      && (forall n | 1 <= n <= |levels| :: LevelOk(n))
      && forall w | 0 <= w < vocab :: HasUnigram(w)
    }

    lemma LevelFacts(n: nat)
      requires Valid() && 1 <= n <= |levels|
      ensures LevelOk(n)
    {
    }

    lemma NgramFacts(n: nat, i: nat)
      requires Valid() && 1 <= n <= |levels| && i < Size(n)
      ensures Shaped(n) && NgramOk(n, i)
    {
      assert LevelOk(n);
    }

    /** The history left when the first word of history h is dropped. */
    ghost function Shorter(n: nat, h: nat): (r: nat)
      requires Valid() && 1 <= n <= |levels| && h < Size(n - 1)
      ensures n > 1 ==> r < Size(n - 2)
    {
      if n == 1 then 0 else
        NgramFacts(n - 1, h);
        levels[n-2].backoffs[h]
    }

    ghost predicate Stored(n: nat, h: nat, w: nat)
      requires Valid() && 1 <= n <= |levels|
    {
      exists i: nat :: Is(n, i, h, w)
    }

    ghost function IndexOf(n: nat, h: nat, w: nat): (i: nat)
      requires Valid() && 1 <= n <= |levels| && Stored(n, h, w)
      ensures Is(n, i, h, w) && i < Size(n)
    {
      var i: nat :| Is(n, i, h, w);
      i
    }

    lemma IndexUnique(n: nat, i: nat, h: nat, w: nat)
      requires Valid() && 1 <= n <= |levels| && Is(n, i, h, w)
      ensures Stored(n, h, w) && IndexOf(n, h, w) == i && i < Size(n)
    {
      LevelFacts(n);
    }

    // ---------- lookup ----------

    ghost predicate Fits(t: Tables) {
      && |t.probs| == |levels| + 1 && |t.bows| == |levels|
      && (forall n | 0 <= n <= |levels| :: |t.probs[n]| == Size(n))
      && forall n | 0 <= n < |levels| :: |t.bows[n]| == Size(n)
    }

    /** The stored probability, or the history's backoff weight times the shorter history's probability. */
    ghost function P(t: Tables, n: nat, h: nat, w: nat): real
      requires Valid() && Fits(t) && n <= |levels| && (n > 0 ==> h < Size(n - 1))
      decreases n
    {
      if n == 0 then t.probs[0][0]
      else if Stored(n, h, w) then t.probs[n][IndexOf(n, h, w)]
      else t.bows[n-1][h] * P(t, n - 1, Shorter(n, h), w)
    }

    lemma LookUp(t: Tables, n: nat, h: nat, w: nat)
      requires Valid() && Fits(t) && 1 <= n <= |levels| && h < Size(n - 1)
      ensures Stored(n, h, w) ==> P(t, n, h, w) == t.probs[n][IndexOf(n, h, w)]
      ensures !Stored(n, h, w) ==> Blend(P(t, n, h, w), 0.0, t.bows[n-1][h], P(t, n - 1, Shorter(n, h), w))
    {
      hide Valid, Stored, Shorter;
    }

    /** Total probability of the first v words after history h. */
    ghost function Mass(t: Tables, n: nat, h: nat, v: nat): real
      requires Valid() && Fits(t) && n <= |levels| && (n > 0 ==> h < Size(n - 1))
    {
      if v == 0 then 0.0 else Mass(t, n, h, v - 1) + P(t, n, h, v - 1)
    }

    /** Lower-order probability of each n-gram's backoff. */
    ghost function Lower(t: Tables, n: nat): (s: seq<real>)
      requires Valid() && Fits(t) && 1 <= n <= |levels|
      ensures |s| == Size(n)
    {
      seq(Size(n), i requires 0 <= i < Size(n) => (NgramFacts(n, i); t.probs[n-1][levels[n-1].backoffs[i]]))
    }

    /** That is the shorter history's probability of the same word. */
    lemma BackoffEntry(t: Tables, n: nat, i: nat)
      requires Valid() && Fits(t) && 1 <= n <= |levels| && i < Size(n)
      ensures Shaped(n) && levels[n-1].hists[i] < Size(n - 1)
      ensures Lower(t, n)[i] == P(t, n - 1, Shorter(n, levels[n-1].hists[i]), levels[n-1].words[i])
    {
      hide Valid, LevelOk, HasUnigram, Stored;
      NgramFacts(n, i);
      if n > 1 {
        IndexUnique(n - 1, levels[n-1].backoffs[i], Shorter(n, levels[n-1].hists[i]), levels[n-1].words[i]);
      }
    }

    // ---------- summing over the vocabulary ----------

    /** The value of the n-gram that extends h by w, if it is stored. */
    ghost function Pick(n: nat, vals: seq<real>, h: nat, w: nat): real
      requires Valid() && 1 <= n <= |levels| && |vals| == Size(n)
    {
      if Stored(n, h, w) then vals[IndexOf(n, h, w)] else 0.0
    }

    ghost function PickSum(n: nat, vals: seq<real>, h: nat, v: nat): real
      requires Valid() && 1 <= n <= |levels| && |vals| == Size(n)
    {
      if v == 0 then 0.0 else PickSum(n, vals, h, v - 1) + Pick(n, vals, h, v - 1)
    }

    /** The same, over the first m n-grams only. */
    ghost function Partial(n: nat, vals: seq<real>, h: nat, v: nat, m: nat): real
      requires Valid() && 1 <= n <= |levels| && m <= |vals| == Size(n)
    {
      if v == 0 then 0.0 else Partial(n, vals, h, v - 1, m) + PartialPick(n, vals, h, v - 1, m)
    }

    ghost function PartialPick(n: nat, vals: seq<real>, h: nat, w: nat, m: nat): real
      requires Valid() && 1 <= n <= |levels| && m <= |vals| == Size(n)
    {
      if Stored(n, h, w) && IndexOf(n, h, w) < m then vals[IndexOf(n, h, w)] else 0.0
    }

    lemma {:induction false} PartialGrows(n: nat, vals: seq<real>, h: nat, v: nat, m: nat)
      requires Valid() && 1 <= n <= |levels| && Shaped(n) && m < |vals| == Size(n)
      ensures Partial(n, vals, h, v, m + 1)
           == Partial(n, vals, h, v, m)
              + if levels[n-1].hists[m] == h && levels[n-1].words[m] < v then vals[m] else 0.0
    {
      hide Valid;
      if v > 0 {
        PartialGrows(n, vals, h, v - 1, m);
        if levels[n-1].hists[m] == h && levels[n-1].words[m] == v - 1 {
          IndexUnique(n, m, h, v - 1);
        }
      }
    }

    lemma {:induction false} PartialEnds(n: nat, vals: seq<real>, h: nat, v: nat)
      requires Valid() && 1 <= n <= |levels| && |vals| == Size(n)
      ensures Partial(n, vals, h, v, 0) == 0.0
      ensures Partial(n, vals, h, v, |vals|) == PickSum(n, vals, h, v)
    {
      hide Valid;
      if v > 0 {
        PartialEnds(n, vals, h, v - 1);
      }
    }

    lemma {:induction false} PartialIsBinSum(n: nat, vals: seq<real>, h: nat, m: nat)
      requires Valid() && 1 <= n <= |levels| && m <= |vals| == Size(n)
      ensures Partial(n, vals, h, vocab, m) == BinSum(Hists(n), vals, h, m)
    {
      hide Valid, Is;
      if m == 0 {
        PartialEnds(n, vals, h, vocab);
      } else {
        PartialIsBinSum(n, vals, h, m - 1);
        NgramFacts(n, m - 1);
        PartialGrows(n, vals, h, vocab, m - 1);
      }
    }

    /** Summing by word over the vocabulary is summing the n-grams of the history. */
    lemma SumByWord(n: nat, vals: seq<real>, h: nat)
      requires Valid() && 1 <= n <= |levels| && |vals| == Size(n)
      ensures PickSum(n, vals, h, vocab) == BinSum(Hists(n), vals, h, |vals|)
    {
      PartialEnds(n, vals, h, vocab);
      PartialIsBinSum(n, vals, h, |vals|);
    }

    /** Backoff weight of history h at order n - 1. */
    ghost function BowAt(t: Tables, n: nat, h: nat): real
      requires Valid() && Fits(t) && 1 <= n <= |levels| && h < Size(n - 1)
    {
      t.bows[n-1][h]
    }

    /** A stored word adds its own probability in place of its backed-off one. */
    lemma WordSplit(t: Tables, n: nat, h: nat, w: nat)
      requires Valid() && Fits(t) && 1 <= n <= |levels| && h < Size(n - 1)
      ensures Blend(P(t, n, h, w), Pick(n, t.probs[n], h, w), BowAt(t, n, h),
                    P(t, n - 1, Shorter(n, h), w) - Pick(n, Lower(t, n), h, w))
    {
      hide Valid, Shorter, Lower;
      if Stored(n, h, w) {
        BackoffEntry(t, n, IndexOf(n, h, w));
      }
    }

    lemma {:induction false} MassSplitUpTo(t: Tables, n: nat, h: nat, v: nat)
      requires Valid() && Fits(t) && 1 <= n <= |levels| && h < Size(n - 1)
      ensures Blend(Mass(t, n, h, v), PickSum(n, t.probs[n], h, v), BowAt(t, n, h),
                    Mass(t, n - 1, Shorter(n, h), v) - PickSum(n, Lower(t, n), h, v))
    {
      hide Valid, Shorter, Lower, Stored, IndexOf, BowAt, Pick;
      if v == 0 {
        assert Blend(0.0, 0.0, BowAt(t, n, h), 0.0 - 0.0);
      } else {
        MassSplitUpTo(t, n, h, v - 1);
        WordSplit(t, n, h, v - 1);
        BlendSum(Mass(t, n, h, v - 1), PickSum(n, t.probs[n], h, v - 1),
                 Mass(t, n - 1, Shorter(n, h), v - 1) - PickSum(n, Lower(t, n), h, v - 1),
                 P(t, n, h, v - 1), Pick(n, t.probs[n], h, v - 1),
                 P(t, n - 1, Shorter(n, h), v - 1) - Pick(n, Lower(t, n), h, v - 1), BowAt(t, n, h));
      }
    }

    /** The mass after h: what its n-grams hold, plus the backoff weight times what the shorter history gives
        to all other words. */
    lemma MassSplit(t: Tables, n: nat, h: nat)
      requires Valid() && Fits(t) && 1 <= n <= |levels| && h < Size(n - 1)
      ensures Blend(Mass(t, n, h, vocab), BinSum(Hists(n), t.probs[n], h, Size(n)), BowAt(t, n, h),
                    Mass(t, n - 1, Shorter(n, h), vocab) - BinSum(Hists(n), Lower(t, n), h, Size(n)))
    {
      hide Valid, Mass, PickSum, BinSum, Blend;
      MassSplitUpTo(t, n, h, vocab);
      SumByWord(n, t.probs[n], h);
      SumByWord(n, Lower(t, n), h);
    }

    lemma {:induction false} OnesByWord(v: nat)
      requires Valid() && v <= vocab
      ensures PickSum(1, seq(Size(1), _ => 1.0), 0, v) == v as real
    {
      if v > 0 {
        OnesByWord(v - 1);
        hide LevelOk;
        assert HasUnigram(v - 1);
      }
    }

    lemma {:induction false} OnesByIndex(m: nat)
      requires Valid() && m <= Size(1)
      ensures BinSum(Hists(1), seq(Size(1), _ => 1.0), 0, m) == m as real
    {
      if m > 0 {
        OnesByIndex(m - 1);
        NgramFacts(1, m - 1);
      }
    }

    /** There are as many unigrams as vocabulary words, and they hold all of the unigram mass. */
    lemma UnigramMass(t: Tables)
      requires Valid() && Fits(t)
      ensures Size(1) == vocab
      ensures Mass(t, 1, 0, vocab) == BinSum(Hists(1), t.probs[1], 0, Size(1))
    {
      OnesByWord(vocab);
      OnesByIndex(Size(1));
      SumByWord(1, seq(Size(1), _ => 1.0), 0);
      UnigramsStored(t, vocab);
      SumByWord(1, t.probs[1], 0);
    }

    lemma {:induction false} UnigramsStored(t: Tables, v: nat)
      requires Valid() && Fits(t) && v <= vocab
      ensures Mass(t, 1, 0, v) == PickSum(1, t.probs[1], 0, v)
    {
      if v > 0 {
        UnigramsStored(t, v - 1);
        hide LevelOk;
        assert HasUnigram(v - 1);
      }
    }
  }
}
