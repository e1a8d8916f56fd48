/** Moving a component onto a merged n-gram model. */
module Merging {
  // The component's tables are rearranged, the slots it never had are filled by backoff, and no probability it gave
  // changes.

  import opened Tries
  import opened Sorting

  /** Where a component's words and n-grams went; ngramMap[n] maps order n, order 0 being the empty n-gram. */
  datatype Embedding = Embedding(part: Trie, merged: Trie, wordMap: seq<nat>, ngramMap: seq<seq<nat>>) {

    /** n-gram i of order n kept its history and word, under their new numbers. */
    ghost predicate Kept(n: nat, i: nat)
      requires 1 <= n <= |part.levels| == |merged.levels| && |ngramMap| == |part.levels| + 1 && part.Shaped(n)
      requires i < part.Size(n) == |ngramMap[n]|
    {
      var l := part.levels[n-1];
      && l.hists[i] < |ngramMap[n-1]| && l.words[i] < |wordMap|
      && merged.Is(n, ngramMap[n][i], ngramMap[n-1][l.hists[i]], wordMap[l.words[i]])
    }

    ghost predicate OrderOk(n: nat)
      requires 1 <= n <= |part.levels| == |merged.levels| && |ngramMap| == |part.levels| + 1
    {
      && |ngramMap[n]| == part.Size(n) && part.Shaped(n)
      && forall i | 0 <= i < part.Size(n) :: Kept(n, i)
    }

    ghost predicate Valid() {
      && part.Valid() && merged.Valid() && |part.levels| == |merged.levels|
      && |wordMap| == part.vocab && Below(wordMap, merged.vocab) && Distinct(wordMap)
      && |ngramMap| == |part.levels| + 1 && ngramMap[0] == [0]
      && forall n | 1 <= n <= |part.levels| :: OrderOk(n)
    }

    lemma Parts()
      requires Valid()
      ensures part.Valid() && merged.Valid() && |part.levels| == |merged.levels| > 0
      ensures |wordMap| == part.vocab && Below(wordMap, merged.vocab) && Distinct(wordMap)
      ensures |ngramMap| == |part.levels| + 1 && ngramMap[0] == [0]
    {
    }

    lemma KeptFacts(n: nat, i: nat)
      requires Valid() && 1 <= n <= |part.levels| && i < part.Size(n)
      ensures |ngramMap| == |part.levels| + 1 == |merged.levels| + 1 && |ngramMap[n]| == part.Size(n) && part.Shaped(n)
      ensures Kept(n, i) && part.NgramOk(n, i)
      ensures ngramMap[n][i] < merged.Size(n)
    {
      assert OrderOk(n);
      part.NgramFacts(n, i);
    }

    lemma SizeFacts(n: nat)
      requires Valid() && n <= |part.levels|
      ensures |ngramMap| == |part.levels| + 1 == |merged.levels| + 1 && |ngramMap[n]| == part.Size(n)
      ensures Below(ngramMap[n], merged.Size(n))
    {
      if n > 0 {
        assert OrderOk(n);
        forall i | 0 <= i < |ngramMap[n]| ensures ngramMap[n][i] < merged.Size(n) {
          KeptFacts(n, i);
        }
      }
    }

    /** The new number of history h, and of n-gram h at order n. */
    ghost function To(n: nat, h: nat): (r: nat)
      requires Valid() && n <= |part.levels| && h < part.Size(n)
      ensures r < merged.Size(n) && |merged.levels| == |part.levels|
    {
      SizeFacts(n);
      ngramMap[n][h]
    }

    /** Different n-grams stay different. */
    lemma {:induction false} Injective(n: nat, i: nat, j: nat)
      requires Valid() && n <= |part.levels| && i < part.Size(n) && j < part.Size(n) && To(n, i) == To(n, j)
      ensures i == j
    {
      hide Valid, Trie.Valid;
      Parts();
      if n > 0 {
        KeptFacts(n, i);
        KeptFacts(n, j);
        Injective(n - 1, part.levels[n-1].hists[i], part.levels[n-1].hists[j]);
        part.LevelFacts(n);
        assert part.Is(n, i, part.levels[n-1].hists[i], part.levels[n-1].words[i]);
        assert part.Is(n, j, part.levels[n-1].hists[i], part.levels[n-1].words[i]);
      }
    }

    /** Dropping the first word commutes with the move. */
    lemma {:induction false} BackoffMoves(n: nat, i: nat)
      requires Valid() && 1 <= n <= |part.levels| && i < part.Size(n)
      ensures merged.Valid() && |merged.levels| == |part.levels| && part.Valid()
      ensures Backoff(merged, n, To(n, i)) == To(n - 1, Backoff(part, n, i))
    {
      hide Valid, Trie.Valid, Trie.Is, Trie.LevelOk;
      Parts();
      KeptFacts(n, i);
      if n > 1 {
        var h, w, b := part.levels[n-1].hists[i], part.levels[n-1].words[i], Backoff(part, n, i);
        BackoffMoves(n - 1, h);
        BackoffIs(part, n, i);
        BackoffIs(merged, n, To(n, i));
        KeptHistory(n, i);
        KeptUnder(n - 1, b, Backoff(part, n - 1, h), w);
        merged.IndexUnique(n - 1, To(n - 1, b), To(n - 2, Backoff(part, n - 1, h)), wordMap[w]);
        merged.IndexUnique(n - 1, Backoff(merged, n, To(n, i)), To(n - 2, Backoff(part, n - 1, h)), wordMap[w]);
      }
    }

    lemma KeptHistory(n: nat, i: nat)
      requires Valid() && 1 <= n <= |part.levels| && i < part.Size(n)
      ensures part.Shaped(n) && part.NgramOk(n, i) && part.levels[n-1].words[i] < |wordMap|
      ensures |merged.levels| == |part.levels| && merged.Shaped(n) && To(n, i) < merged.Size(n)
      ensures merged.levels[n-1].hists[To(n, i)] == To(n - 1, part.levels[n-1].hists[i])
      ensures merged.levels[n-1].words[To(n, i)] == wordMap[part.levels[n-1].words[i]]
    {
      hide Valid, Trie.Valid, Trie.LevelOk;
      Parts();
      KeptFacts(n, i);
      merged.NgramFacts(n, To(n, i));
    }

    /** An n-gram of the part is found under its history's and word's new numbers. */
    lemma KeptUnder(n: nat, i: nat, h: nat, w: nat)
      requires Valid() && 1 <= n <= |part.levels| && part.Is(n, i, h, w)
      ensures i < part.Size(n) && h < part.Size(n - 1) && w < |wordMap|
      ensures |merged.levels| == |part.levels| && merged.Is(n, To(n, i), To(n - 1, h), wordMap[w])
    {
      hide Valid, Trie.Valid, Trie.LevelOk;
      Parts();
      KeptFacts(n, i);
    }

    /** What is found under them came from the part only if the part held it. */
    lemma KeptOnly(n: nat, i: nat, h: nat, w: nat)
      requires Valid() && 1 <= n <= |part.levels| && i < part.Size(n) && h < part.Size(n - 1) && w < part.vocab
      requires |merged.levels| == |part.levels| && |wordMap| == part.vocab
      requires merged.Is(n, To(n, i), To(n - 1, h), wordMap[w])
      ensures part.Is(n, i, h, w)
    {
      hide Valid, Trie.Valid, Trie.LevelOk;
      Parts();
      KeptHistory(n, i);
      Injective(n - 1, part.levels[n-1].hists[i], h);
    }

    // ---------- the tables after the move ----------

    /** Slot j of order n came from the component. */
    ghost predicate Came(n: nat, j: nat)
      requires Valid() && n <= |part.levels|
    {
      exists i: nat :: CameFrom(n, j, i)
    }

    ghost predicate CameFrom(n: nat, j: nat, i: nat)
      requires Valid() && n <= |part.levels|
    {
      i < part.Size(n) && To(n, i) == j
    }

    /** The component's values in their new slots, and a default in all others. */
    ghost predicate Spread(n: nat, before: seq<real>, after: seq<real>, default: real)
      requires Valid() && n <= |part.levels|
    {
      && |before| == part.Size(n) && |merged.levels| == |part.levels| && |after| == merged.Size(n)
      && (forall i | 0 <= i < part.Size(n) :: after[To(n, i)] == before[i])
      && forall j | 0 <= j < merged.Size(n) && !Came(n, j) :: after[j] == default
    }

    /** What the backoff would give entry j of order n. */
    ghost function BackedOff(t: Trie, tables: Tables, n: nat, j: nat): real
      requires t.Valid() && t.Fits(tables) && 1 <= n <= |t.levels| && j < t.Size(n)
    {
      t.NgramFacts(n, j);
      tables.probs[n-1][Backoff(t, n, j)] * tables.bows[n-1][t.levels[n-1].hists[j]]
    }

    /** Entry j of order n holds the component's own value if that is not zero, and else what backoff gives. */
    ghost predicate Filled(before: Tables, after: Tables, n: nat, j: nat)
      requires Valid() && part.Fits(before) && merged.Fits(after) && 1 <= n <= |part.levels|
      requires |merged.levels| == |part.levels| && merged.Valid() && j < merged.Size(n)
    {
      && (!Came(n, j) ==> after.probs[n][j] == BackedOff(merged, after, n, j))
      && forall i: nat | CameFrom(n, j, i) ::
           after.probs[n][j] == if before.probs[n][i] != 0.0 then before.probs[n][i] else BackedOff(merged, after, n, j)
    }

    /** The tables of the merged model. */
    ghost predicate Moved(before: Tables, after: Tables) {
      && Valid() && part.Fits(before) && merged.Fits(after) && |merged.levels| == |part.levels| && merged.Valid()
      && after.probs[0] == before.probs[0]
      && (forall n | 0 <= n < |part.levels| :: Spread(n, before.bows[n], after.bows[n], 1.0))
      && forall n, j | 1 <= n <= |part.levels| && 0 <= j < merged.Size(n) :: Filled(before, after, n, j)
    }

    lemma MovedFacts(before: Tables, after: Tables)
      requires Moved(before, after)
      ensures Valid() && part.Valid() && part.Fits(before) && merged.Valid() && merged.Fits(after)
      ensures |merged.levels| == |part.levels| > 0
      ensures |wordMap| == part.vocab
    {
    }

    lemma BowMoves(before: Tables, after: Tables, n: nat, h: nat)
      requires Moved(before, after) && 1 <= n <= |part.levels| && h < part.Size(n - 1)
      ensures |after.bows| == |before.bows| == |part.levels| && To(n - 1, h) < |after.bows[n-1]|
      ensures |before.bows[n-1]| == part.Size(n - 1)
      ensures after.bows[n-1][To(n - 1, h)] == before.bows[n-1][h]
    {
      assert Spread(n - 1, before.bows[n-1], after.bows[n-1], 1.0);
    }

    lemma FilledFacts(before: Tables, after: Tables, n: nat, j: nat)
      requires Moved(before, after) && 1 <= n <= |part.levels| && j < merged.Size(n)
      ensures Filled(before, after, n, j)
    {
    }

    /** An entry's backed-off value is its history's backoff weight times the shorter history's probability. */
    lemma BackedOffIs(t: Trie, tables: Tables, n: nat, j: nat, h: nat, w: nat)
      requires t.Valid() && t.Fits(tables) && 1 <= n <= |t.levels| && t.Is(n, j, h, w)
      ensures j < t.Size(n) && h < t.Size(n - 1)
      ensures BackedOff(t, tables, n, j) == t.P(tables, n - 1, t.Shorter(n, h), w) * tables.bows[n-1][h]
    {
      hide Trie.Valid, Trie.LevelOk, Trie.P, Trie.Shorter, Trie.Stored;
      t.NgramFacts(n, j);
      t.BackoffEntry(tables, n, j);
      assert t.Lower(tables, n)[j] == tables.probs[n-1][t.levels[n-1].backoffs[j]];
    }

    /** Every zero the component stores, up to order n, is also what its own backoff gives. */
    ghost predicate ZerosBackOff(before: Tables, n: nat)
      requires part.Valid() && part.Fits(before) && n <= |part.levels|
    {
      forall k, i | 1 <= k <= n && 0 <= i < part.Size(k) :: ZeroBacksOff(before, k, i)
    }

    ghost predicate ZeroBacksOff(before: Tables, n: nat, i: nat)
      requires part.Valid() && part.Fits(before) && 1 <= n <= |part.levels| && i < part.Size(n)
    {
      before.probs[n][i] == 0.0 ==> BackedOff(part, before, n, i) == 0.0
    }

    /** The shorter history moves to the shorter history. */
    lemma ShorterMoves(n: nat, h: nat)
      requires Valid() && 1 <= n <= |part.levels| && h < part.Size(n - 1)
      ensures |merged.levels| == |part.levels| && merged.Valid() && part.Valid()
      ensures n > 1 ==> merged.Shorter(n, To(n - 1, h)) == To(n - 2, part.Shorter(n, h))
    {
      hide Valid, Trie.Valid;
      Parts();
      if n > 1 {
        BackoffMoves(n - 1, h);
      }
    }

    ghost function P(tables: Tables, n: nat, h: nat, w: nat): real
      requires part.Valid() && part.Fits(tables) && n <= |part.levels| && (n > 0 ==> h < part.Size(n - 1))
    {
      part.P(tables, n, h, w)
    }

    /** The merged model's probability of the same word after the same history. */
    ghost function MovedP(after: Tables, n: nat, h: nat, w: nat): real
      requires Valid() && merged.Valid() && merged.Fits(after)
      requires n <= |part.levels| == |merged.levels| && w < |wordMap|
      requires n > 0 ==> h < part.Size(n - 1)
    {
      merged.P(after, n, if n == 0 then 0 else To(n - 1, h), wordMap[w])
    }

    /** A word the part stores after h: its value moved with it, a zero being replaced by the backed-off value. */
    lemma StoredMoves(before: Tables, after: Tables, n: nat, h: nat, w: nat, i: nat)
      requires Moved(before, after) && 1 <= n <= |part.levels| && w < part.vocab && part.Is(n, i, h, w)
      ensures Valid() && merged.Valid() && merged.Fits(after) && |merged.levels| == |part.levels| && w < |wordMap|
      ensures part.Fits(before) && i < part.Size(n) && h < part.Size(n - 1) && part.Valid()
      ensures part.P(before, n, h, w) == before.probs[n][i]
      ensures MovedP(after, n, h, w)
           == if before.probs[n][i] != 0.0 then before.probs[n][i]
              else merged.P(after, n - 1, merged.Shorter(n, To(n - 1, h)), wordMap[w]) * before.bows[n-1][h]
    {
      hide Moved, Valid, Trie.Valid, Trie.LevelOk, Trie.Is, Trie.Shorter;
      MovedFacts(before, after);
      KeptUnder(n, i, h, w);
      part.IndexUnique(n, i, h, w);
      merged.IndexUnique(n, To(n, i), To(n - 1, h), wordMap[w]);
      FilledFacts(before, after, n, To(n, i));
      assert CameFrom(n, To(n, i), i);
      BackedOffIs(merged, after, n, To(n, i), To(n - 1, h), wordMap[w]);
      BowMoves(before, after, n, h);
    }

    /** A word the part does not store after h is backed off, whether or not the merged model has a slot for it. */
    lemma UnstoredMoves(before: Tables, after: Tables, n: nat, h: nat, w: nat)
      requires Moved(before, after) && 1 <= n <= |part.levels| && w < part.vocab
      requires part.Valid() && h < part.Size(n - 1) && !part.Stored(n, h, w)
      ensures Valid() && merged.Valid() && merged.Fits(after) && |merged.levels| == |part.levels| && w < |wordMap|
      ensures part.Fits(before)
      ensures MovedP(after, n, h, w)
           == merged.P(after, n - 1, merged.Shorter(n, To(n - 1, h)), wordMap[w]) * before.bows[n-1][h]
    {
      hide Moved, Valid, Trie.Valid, Trie.LevelOk, Trie.Is, Trie.Shorter;
      MovedFacts(before, after);
      BowMoves(before, after, n, h);
      var g := To(n - 1, h);
      if merged.Stored(n, g, wordMap[w]) {
        var j := merged.IndexOf(n, g, wordMap[w]);
        if Came(n, j) {
          var i: nat :| CameFrom(n, j, i);
          KeptOnly(n, i, h, w);
        }
        FilledFacts(before, after, n, j);
        BackedOffIs(merged, after, n, j, g, wordMap[w]);
      }
    }

    /** Merging preserves meaning: if every zero the component stores is what its own backoff gives (so in
        particular if it stores no zero), every word has the probability it had after every history. */
    lemma {:induction false} MeaningKept(before: Tables, after: Tables, n: nat, h: nat, w: nat)
      requires Moved(before, after) && n <= |part.levels| && w < part.vocab
      requires part.Valid() && part.Fits(before) && (n > 0 ==> h < part.Size(n - 1))
      requires ZerosBackOff(before, n)
      ensures Valid() && merged.Valid() && merged.Fits(after) && |merged.levels| == |part.levels| && w < |wordMap|
      ensures MovedP(after, n, h, w) == P(before, n, h, w)
    {
      hide Moved, Valid, Trie.Valid, Trie.LevelOk, Trie.Is, Trie.Shorter, BackedOff, ZerosBackOff;
      MovedFacts(before, after);
      if n == 0 {
        assert after.probs[0] == before.probs[0] by { ZerothMoves(before, after); }
      } else {
        ShorterMoves(n, h);
        ZerosBelow(before, n);
        MeaningKept(before, after, n - 1, part.Shorter(n, h), w);
        if part.Stored(n, h, w) {
          var i := part.IndexOf(n, h, w);
          StoredMoves(before, after, n, h, w, i);
          BackedOffIs(part, before, n, i, h, w);
          assert ZeroBacksOff(before, n, i) by { ZeroAt(before, n, i); }
        } else {
          UnstoredMoves(before, after, n, h, w);
        }
      }
    }

    ghost predicate SameAt(before: Tables, after: Tables, n: nat, h: nat, w: nat)
      requires Valid() && part.Valid() && part.Fits(before) && merged.Valid() && merged.Fits(after)
      requires n <= |part.levels| == |merged.levels| && w < |wordMap| && (n > 0 ==> h < part.Size(n - 1))
    {
      MovedP(after, n, h, w) == P(before, n, h, w)
    }

    /** Every word keeps its probability after every history, at every order. */
    ghost predicate SameMeaning(before: Tables, after: Tables)
      requires Valid() && part.Valid() && part.Fits(before) && merged.Valid() && merged.Fits(after)
      requires |part.levels| == |merged.levels|
    {
      forall n, h, w | 0 <= n <= |part.levels| && 0 <= h < (if n == 0 then 1 else part.Size(n - 1)) && 0 <= w < |wordMap| ::
        SameAt(before, after, n, h, w)
    }

    /** Merging preserves meaning exactly for a component whose stored zeros are all what its own backoff gives. */
    lemma MeaningKeptExactly(before: Tables, after: Tables)
      requires Moved(before, after)
      ensures Valid() && part.Valid() && part.Fits(before) && merged.Valid() && merged.Fits(after)
      ensures |merged.levels| == |part.levels|
      ensures SameMeaning(before, after) <==> ZerosBackOff(before, |part.levels|)
    {
      hide Moved, Valid, Trie.Valid, Trie.LevelOk, Trie.Is, ZerosBackOff, MovedP, P;
      MovedFacts(before, after);
      if ZerosBackOff(before, |part.levels|) {
        forall n, h, w | 0 <= n <= |part.levels| && 0 <= h < (if n == 0 then 1 else part.Size(n - 1))
                         && 0 <= w < |wordMap|
          ensures SameAt(before, after, n, h, w)
        {
          ZerosUpTo(before, n);
          MeaningKept(before, after, n, h, w);
        }
      }
      if SameMeaning(before, after) {
        forall n, i | 1 <= n <= |part.levels| && 0 <= i < part.Size(n) ensures ZeroBacksOff(before, n, i) {
          SameZero(before, after, n, i);
        }
        ZerosTogether(before);
      }
    }

    lemma SameZero(before: Tables, after: Tables, n: nat, i: nat)
      requires Moved(before, after) && 1 <= n <= |part.levels|
      requires Valid() && part.Valid() && part.Fits(before) && merged.Valid() && merged.Fits(after)
      requires |merged.levels| == |part.levels| && i < part.Size(n) && SameMeaning(before, after)
      ensures ZeroBacksOff(before, n, i)
    {
      hide Moved, Valid, Trie.Valid, Trie.LevelOk, Trie.Shorter, BackedOff, ZerosBackOff, SameMeaning;
      MovedFacts(before, after);
      part.NgramFacts(n, i);
      var h, w := part.levels[n-1].hists[i], part.levels[n-1].words[i];
      StoredMoves(before, after, n, h, w, i);
      BackedOffIs(part, before, n, i, h, w);
      ShorterMoves(n, h);
      SameFact(before, after, n, h, w);
      SameFact(before, after, n - 1, part.Shorter(n, h), w);
    }

    lemma SameFact(before: Tables, after: Tables, n: nat, h: nat, w: nat)
      requires Valid() && part.Valid() && part.Fits(before) && merged.Valid() && merged.Fits(after)
      requires |part.levels| == |merged.levels| && SameMeaning(before, after)
      requires n <= |part.levels| && w < |wordMap| && (n > 0 ==> h < part.Size(n - 1))
      ensures MovedP(after, n, h, w) == P(before, n, h, w)
    {
      if n == 0 {
        assert SameAt(before, after, 0, 0, w);
      } else {
        assert SameAt(before, after, n, h, w);
      }
    }

    lemma ZerosUpTo(before: Tables, n: nat)
      requires part.Valid() && part.Fits(before) && n <= |part.levels| && ZerosBackOff(before, |part.levels|)
      ensures ZerosBackOff(before, n)
    {
    }

    lemma ZerosTogether(before: Tables)
      requires part.Valid() && part.Fits(before)
      requires forall n, i | 1 <= n <= |part.levels| && 0 <= i < part.Size(n) :: ZeroBacksOff(before, n, i)
      ensures ZerosBackOff(before, |part.levels|)
    {
    }

    /** A slot the component never had holds its history's backoff weight times the shorter history's
        probability, the weight being one if the component lacks the history too. */
    lemma NewSlot(before: Tables, after: Tables, n: nat, j: nat)
      requires Moved(before, after) && 1 <= n <= |part.levels| && Valid() && j < merged.Size(n) && !Came(n, j)
      ensures merged.Valid() && merged.Fits(after) && |merged.levels| == |part.levels| && merged.Shaped(n)
      ensures merged.levels[n-1].hists[j] < merged.Size(n - 1)
      ensures var h := merged.levels[n-1].hists[j];
              after.probs[n][j] == merged.P(after, n - 1, merged.Shorter(n, h), merged.levels[n-1].words[j]) * after.bows[n-1][h]
      ensures !Came(n - 1, merged.levels[n-1].hists[j]) ==> after.bows[n-1][merged.levels[n-1].hists[j]] == 1.0
    {
      hide Moved, Valid, Trie.Valid, Trie.LevelOk, BackedOff, Trie.P, Trie.Shorter;
      MovedFacts(before, after);
      merged.NgramFacts(n, j);
      FilledFacts(before, after, n, j);
      BackedOffIs(merged, after, n, j, merged.levels[n-1].hists[j], merged.levels[n-1].words[j]);
      SpreadFacts(before, after, n - 1);
    }

    lemma SpreadFacts(before: Tables, after: Tables, n: nat)
      requires Moved(before, after) && n < |part.levels|
      ensures Valid() && part.Fits(before) && merged.Fits(after) && |merged.levels| == |part.levels|
      ensures Spread(n, before.bows[n], after.bows[n], 1.0)
    {
    }

    lemma ZerothMoves(before: Tables, after: Tables)
      requires Moved(before, after)
      ensures after.probs[0] == before.probs[0]
    {
    }

    lemma ZerosBelow(before: Tables, n: nat)
      requires part.Valid() && part.Fits(before) && 1 <= n <= |part.levels| && ZerosBackOff(before, n)
      ensures ZerosBackOff(before, n - 1)
    {
    }

    lemma ZeroAt(before: Tables, n: nat, i: nat)
      requires part.Valid() && part.Fits(before) && 1 <= n <= |part.levels| && i < part.Size(n) && ZerosBackOff(before, n)
      ensures ZeroBacksOff(before, n, i)
    {
    }

    // ---------- making the move, order by order ----------

    /** Order 0 stays as it is. */
    lemma SpreadEmpty(before: Tables)
      requires Valid() && part.Valid() && part.Fits(before) && |part.levels| > 0
      ensures Spread(0, before.bows[0], before.bows[0], 1.0)
    {
      assert CameFrom(0, 0, 0);
    }

    lemma SortedSpread(n: nat, data: seq<real>, sorted: seq<real>, default: real)
      requires Valid() && n <= |part.levels| == |merged.levels| && n < |ngramMap|
      requires |data| == part.Size(n) == |ngramMap[n]| && |sorted| == merged.Size(n) && Below(ngramMap[n], |sorted|)
      requires forall i | 0 <= i < |ngramMap[n]| :: sorted[ngramMap[n][i]] == data[i]
      requires forall j | 0 <= j < |sorted| && j !in ngramMap[n] :: sorted[j] == default
      ensures Spread(n, data, sorted, default)
    {
      hide Valid;
      forall i | 0 <= i < |ngramMap[n]| ensures Came(n, ngramMap[n][i]) {
        assert CameFrom(n, ngramMap[n][i], i);
      }
    }

    lemma Distinctly(n: nat)
      requires Valid() && n <= |part.levels|
      ensures n < |ngramMap| && Distinct(ngramMap[n])
    {
      SizeFacts(n);
      forall i, j | 0 <= i < |ngramMap[n]| && 0 <= j < |ngramMap[n]| && ngramMap[n][i] == ngramMap[n][j] ensures i == j {
        assert To(n, i) == To(n, j);
        Injective(n, i, j);
      }
    }

    /** Spread everywhere, and filled below order o. */
    ghost predicate Unfilled(before: Tables, t: Tables, o: nat) {
      && Valid() && part.Fits(before) && merged.Valid() && merged.Fits(t) && |merged.levels| == |part.levels|
      && t.probs[0] == before.probs[0]
      && (forall k | 0 <= k < |part.levels| :: Spread(k, before.bows[k], t.bows[k], 1.0))
      && (forall k, j | 1 <= k < o && k <= |part.levels| && 0 <= j < merged.Size(k) :: Filled(before, t, k, j))
      && forall k | o <= k <= |part.levels| :: Spread(k, before.probs[k], t.probs[k], 0.0)
    }

    lemma SpreadEnds(before: Tables, t: Tables)
      requires Valid() && part.Valid() && part.Fits(before) && merged.Valid() && |merged.levels| == |part.levels| > 0
      requires |t.probs| == |part.levels| + 1 && |t.bows| == |part.levels| && t.probs[0] == before.probs[0]
      requires forall k | 0 <= k < |part.levels| :: Spread(k, before.bows[k], t.bows[k], 1.0)
      requires forall k | 1 <= k <= |part.levels| :: Spread(k, before.probs[k], t.probs[k], 0.0)
      ensures Unfilled(before, t, 1)
    {
      hide Valid;
      forall n | 0 <= n <= |merged.levels| ensures |t.probs[n]| == merged.Size(n) {
        if n > 0 {
          assert Spread(n, before.probs[n], t.probs[n], 0.0);
        }
      }
      forall n | 0 <= n < |merged.levels| ensures |t.bows[n]| == merged.Size(n) {
        assert Spread(n, before.bows[n], t.bows[n], 1.0);
      }
    }

    lemma Sizes(before: Tables, t: Tables, o: nat)
      requires Unfilled(before, t, o) && 1 <= o <= |part.levels|
      ensures |merged.levels| == |part.levels| && merged.Shaped(o)
      ensures |t.probs| == |part.levels| + 1 && |t.bows| == |part.levels| && |t.probs[o]| == merged.Size(o)
      ensures Below(merged.levels[o-1].hists, |t.bows[o-1]|) && Below(merged.levels[o-1].backoffs, |t.probs[o-1]|)
    {
      hide Valid, Trie.Valid, Spread, Filled;
      merged.LevelFacts(o);
      var l := merged.levels[o-1];
      forall i | 0 <= i < |l.hists| ensures l.hists[i] < merged.Size(o - 1) && l.backoffs[i] < merged.Size(o - 1)
      {
        merged.NgramFacts(o, i);
      }
    }

    /** Filling one order keeps the orders below filled. */
    lemma FillStep(before: Tables, t: Tables, o: nat, probs: seq<real>)
      requires Unfilled(before, t, o) && 1 <= o <= |part.levels|
      requires |merged.levels| == |part.levels| && merged.Shaped(o) && |probs| == |t.probs[o]| == merged.Size(o)
      requires Below(merged.levels[o-1].hists, |t.bows[o-1]|) && Below(merged.levels[o-1].backoffs, |t.probs[o-1]|)
      requires forall j | 0 <= j < |probs| ::
                 probs[j] == if t.probs[o][j] == 0.0
                             then t.probs[o-1][merged.levels[o-1].backoffs[j]] * t.bows[o-1][merged.levels[o-1].hists[j]]
                             else t.probs[o][j]
      ensures Unfilled(before, Tables(t.probs[o := probs], t.bows), o + 1)
    {
      hide Valid, Trie.Valid, Spread, Filled;
      var after := Tables(t.probs[o := probs], t.bows);
      assert merged.Fits(after);
      forall k, j | 1 <= k < o + 1 && k <= |part.levels| && 0 <= j < merged.Size(k) ensures Filled(before, after, k, j) {
        if k < o {
          assert Filled(before, t, k, j);
          FilledStays(before, t, after, k, j);
        } else {
          assert Spread(o, before.probs[o], t.probs[o], 0.0);
          FilledNow(before, t, after, o, j);
        }
      }
    }

    lemma FilledStays(before: Tables, t: Tables, after: Tables, n: nat, j: nat)
      requires Valid() && part.Fits(before) && merged.Valid() && merged.Fits(t) && merged.Fits(after)
      requires 1 <= n <= |part.levels| == |merged.levels| && j < merged.Size(n) && Filled(before, t, n, j)
      requires t.probs[n] == after.probs[n] && t.probs[n-1] == after.probs[n-1] && t.bows == after.bows
      ensures Filled(before, after, n, j)
    {
      hide Valid, Trie.Valid;
      assert BackedOff(merged, t, n, j) == BackedOff(merged, after, n, j);
    }

    lemma FilledNow(before: Tables, t: Tables, after: Tables, n: nat, j: nat)
      requires Valid() && part.Fits(before) && merged.Valid() && merged.Fits(t) && merged.Fits(after)
      requires 1 <= n <= |part.levels| == |merged.levels| && j < merged.Size(n)
      requires Spread(n, before.probs[n], t.probs[n], 0.0)
      requires t.probs[n-1] == after.probs[n-1] && t.bows == after.bows
      requires after.probs[n][j] == if t.probs[n][j] == 0.0 then BackedOff(merged, t, n, j) else t.probs[n][j]
      ensures Filled(before, after, n, j)
    {
      hide Valid, Trie.Valid;
      assert BackedOff(merged, t, n, j) == BackedOff(merged, after, n, j);
    }

    lemma AllFilled(before: Tables, t: Tables)
      requires Unfilled(before, t, |part.levels| + 1)
      ensures Moved(before, t)
    {
      hide Valid, Trie.Valid, Spread, Filled;
    }
  }

  ghost function Backoff(t: Trie, n: nat, i: nat): (b: nat)
    requires t.Valid() && 1 <= n <= |t.levels| && i < t.Size(n)
    ensures b < t.Size(n - 1)
  {
    t.NgramFacts(n, i);
    t.levels[n-1].backoffs[i]
  }

  lemma BackoffIs(t: Trie, n: nat, i: nat)
    requires t.Valid() && 2 <= n <= |t.levels| && i < t.Size(n)
    ensures t.Shaped(n) && t.levels[n-1].hists[i] < t.Size(n - 1)
    ensures t.Is(n - 1, Backoff(t, n, i), Backoff(t, n - 1, t.levels[n-1].hists[i]), t.levels[n-1].words[i])
  {
    hide Trie.Valid, Trie.LevelOk;
    t.NgramFacts(n, i);
  }

  /** The data rearranged: element i goes to slot map[i], and slots nothing goes to hold the default. */
  method ApplySort<T>(ngramMap: seq<nat>, data: seq<T>, length: nat, defValue: T) returns (sortedData: seq<T>)
    requires |data| >= |ngramMap| && Below(ngramMap, length) && Distinct(ngramMap)
    ensures |sortedData| == length
    ensures forall i | 0 <= i < |ngramMap| :: sortedData[ngramMap[i]] == data[i]
    ensures forall j | 0 <= j < length && j !in ngramMap :: sortedData[j] == defValue
  {
    sortedData := seq(length, _ => defValue);
    for i := 0 to |ngramMap|
      invariant |sortedData| == length
      invariant forall k | 0 <= k < i :: sortedData[ngramMap[k]] == data[k]
      invariant forall j | 0 <= j < length && j !in ngramMap[..i] :: sortedData[j] == defValue
    {
      sortedData := sortedData[ngramMap[i] := data[i]];
      assert ngramMap[..i+1] == ngramMap[..i] + [ngramMap[i]];
    }
    assert ngramMap[..|ngramMap|] == ngramMap;
  }

  function Truncated(t: Trie, n: nat): Trie
    requires n <= |t.levels|
  {
    Trie(t.levels[..n], t.vocab)
  }

  /** A component language model: the n-gram model it stands on, and its own tables up to its own order. */
  class NgramLMBase {
    const order: nat
    var model: Trie
    var probVectors: seq<seq<real>>
    var bowVectors: seq<seq<real>>

    ghost predicate Valid()
      reads this
    {
      && order <= |model.levels| && Truncated(model, order).Valid()
      && Truncated(model, order).Fits(Tables(probVectors, bowVectors))
    }

    /** Moves this component to model m, in which its n-grams have the numbers of ngramMap. */
    method SetModel(m: Trie, ghost vocabMap: seq<nat>, ngramMap: seq<seq<nat>>)
      requires Valid() && order <= |m.levels| && order + 1 == |ngramMap|
      requires Embedding(Truncated(model, order), Truncated(m, order), vocabMap, [[0]] + ngramMap[1..]).Valid()
      modifies this
      ensures Valid() && model == m
      ensures Embedding(Truncated(old(model), order), Truncated(m, order), vocabMap, [[0]] + ngramMap[1..]).
              Moved(old(Tables(probVectors, bowVectors)), Tables(probVectors, bowVectors))
    {
      hide Embedding.Valid, Trie.Valid, Embedding.Filled, Embedding.Spread, Embedding.Unfilled, Embedding.Moved;
      ghost var e := Embedding(Truncated(model, order), Truncated(m, order), vocabMap, [[0]] + ngramMap[1..]);
      ghost var before := Tables(probVectors, bowVectors);
      e.Parts();
      MoveVectors(m, e, ngramMap);
      model := m;
      FillVectors(m, e, before);
      e.MovedFacts(before, Tables(probVectors, bowVectors));
    }

    /** The data of every order goes where its n-grams went. */
    method MoveVectors(m: Trie, ghost e: Embedding, ngramMap: seq<seq<nat>>)
      requires order <= |m.levels| && order + 1 == |ngramMap| && e.Valid() && e.part.Valid() && e.merged.Valid()
      requires e.merged == Truncated(m, order) && |e.part.levels| == order && e.ngramMap == [[0]] + ngramMap[1..]
      requires e.part.Fits(Tables(probVectors, bowVectors))
      modifies this`probVectors, this`bowVectors
      ensures |probVectors| == order + 1 && e.Unfilled(old(Tables(probVectors, bowVectors)), Tables(probVectors, bowVectors), 1)
    {
      hide Embedding.Valid, Trie.Valid, Embedding.Filled, Embedding.Spread, Embedding.Unfilled;
      ghost var before := Tables(probVectors, bowVectors);
      e.Parts();
      e.SpreadEmpty(before);
      var o := 1;
      while o <= order
        modifies this`probVectors, this`bowVectors
        invariant 1 <= o <= order + 1
        invariant |probVectors| == order + 1 && |bowVectors| == order && probVectors[0] == before.probs[0]
        invariant e.Spread(0, before.bows[0], bowVectors[0], 1.0)
        invariant forall k | 1 <= k < o :: e.Spread(k, before.probs[k], probVectors[k], 0.0)
        invariant forall k | 1 <= k < o && k < order :: e.Spread(k, before.bows[k], bowVectors[k], 1.0)
        invariant forall k | o <= k <= order :: probVectors[k] == before.probs[k]
        invariant forall k | o <= k < order :: bowVectors[k] == before.bows[k]
      {
        var len := |m.levels[o-1].hists|;
        e.SizeFacts(o);
        e.Distinctly(o);
        var sorted := ApplySort(ngramMap[o], probVectors[o], len, 0.0);
        e.SortedSpread(o, before.probs[o], sorted, 0.0);
        probVectors := probVectors[o := sorted];
        if o < order {
          sorted := ApplySort(ngramMap[o], bowVectors[o], len, 1.0);
          e.SortedSpread(o, before.bows[o], sorted, 1.0);
          bowVectors := bowVectors[o := sorted];
        }
        o := o + 1;
      }
      e.SpreadEnds(before, Tables(probVectors, bowVectors));
    }

    /** New n-grams, and those with a zero, get the backed-off value. */
    method FillVectors(m: Trie, ghost e: Embedding, ghost before: Tables)
      requires order <= |m.levels| && e.Valid() && e.part.Valid() && e.merged.Valid() && e.part.Fits(before)
      requires e.merged == Truncated(m, order) && |e.part.levels| == order
      requires |probVectors| == order + 1 && e.Unfilled(before, Tables(probVectors, bowVectors), 1)
      modifies this`probVectors
      ensures e.Moved(before, Tables(probVectors, bowVectors))
    {
      hide Embedding.Valid, Trie.Valid, Embedding.Filled, Embedding.Spread, Embedding.Unfilled, Embedding.Moved;
      var o := 1;
      while o <= order
        modifies this`probVectors
        invariant 1 <= o <= order + 1 && |probVectors| == order + 1
        invariant e.Unfilled(before, Tables(probVectors, bowVectors), o)
      {
        e.Sizes(before, Tables(probVectors, bowVectors), o);
        var probs := FillIn(m.levels[o-1].hists, m.levels[o-1].backoffs, probVectors[o-1], bowVectors[o-1], probVectors[o]);
        e.FillStep(before, Tables(probVectors, bowVectors), o, probs);
        probVectors := probVectors[o := probs];
        o := o + 1;
      }
      e.AllFilled(before, Tables(probVectors, bowVectors));
    }
  }

  /** Zero entries get the backed-off value. */
  method FillIn(hists: seq<nat>, backoffs: seq<nat>, boProbs: seq<real>, bows: seq<real>, stale: seq<real>)
    returns (probs: seq<real>)
    requires |hists| == |backoffs| == |stale| && Below(hists, |bows|) && Below(backoffs, |boProbs|)
    ensures |probs| == |stale|
    ensures forall j | 0 <= j < |stale| ::
              probs[j] == if stale[j] == 0.0 then boProbs[backoffs[j]] * bows[hists[j]] else stale[j]
  {
    probs := stale;
    for j := 0 to |stale|
      invariant |probs| == |stale|
      invariant forall k | 0 <= k < j ::
                  probs[k] == if stale[k] == 0.0 then boProbs[backoffs[k]] * bows[hists[k]] else stale[k]
      invariant forall k | j <= k < |stale| :: probs[k] == stale[k]
    {
      if probs[j] == 0.0 {
        probs := probs[j := boProbs[backoffs[j]] * bows[hists[j]]];
      }
    }
  }
}
