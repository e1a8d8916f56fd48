/** The n-gram model: a vocabulary, one vector of n-grams an order, and their backoffs. */
module NgramModels {
  import opened Probing
  import opened Sorting
  import opened NgramVectors
  import opened Layers
  import Vocabs

  class NgramModel {
    const vocab: Vocabs.Vocab
    var vectors: seq<NgramVector>
    var backoffVectors: seq<seq<int>>

    ghost predicate Shaped()
      reads this`vectors, vectors
    {
      && |vectors| > 0
      && (forall m, n | 0 <= m < |vectors| && 0 <= n < |vectors| && vectors[m] == vectors[n] :: m == n)
      && forall v | v in vectors :: v.Shaped()
    }

    function Layers(): (ls: seq<seq<Key>>)
      requires Shaped()
      reads this`vectors, vectors
      ensures |ls| == |vectors|
    {
      var vs := vectors;
      seq(|vs|, n requires 0 <= n < |vs| && vs[n].Shaped() reads vs => vs[n].Keys())
    }

    /** The n-grams are in order, and no vector's index is wrong about what it finds. */
    ghost predicate Sound()
      reads this`vectors, vectors
    {
      Shaped() && (forall v | v in vectors :: v.Usable()) && Ok(Layers())
    }

    ghost predicate Valid()
      reads this`vectors, vectors
    {
      Sound() && forall v | v in vectors :: v.Valid()
    }

    /** The probing tables of all orders. */
    ghost function Slots(): (t: seq<seq<int>>)
      reads this`vectors, vectors
      ensures |t| == |vectors| && forall n | 0 <= n < |t| :: t[n] == vectors[n].indices
    {
      var vs := vectors;
      seq(|vs|, n requires 0 <= n < |vs| reads vs => vs[n].indices)
    }

    /** Wherever the n-gram without n-gram i's first word is, its name leads to it. */
    ghost predicate SuffixFound(n: nat, i: nat)
      requires Sound() && 2 <= n < |vectors| && i < |Layers()[n]|
      reads this`vectors, vectors
    {
      forall j: nat | SuffixOf(Layers(), n, i, j) :: vectors[n-1].Shaped() && vectors[n-1].Finds(j)
    }

    ghost predicate SuffixesFound(n: nat)
      requires Sound() && 2 <= n < |vectors|
      reads this`vectors, vectors
    {
      forall i | 0 <= i < |Layers()[n]| :: SuffixFound(n, i)
    }

    ghost predicate AllSuffixesFound()
      requires Sound()
      reads this`vectors, vectors
    {
      FoundTo(|vectors|)
    }

    ghost predicate FoundTo(n: nat)
      requires Sound() && n <= |vectors|
      reads this`vectors, vectors
    {
      forall m | 2 <= m < n :: SuffixesFound(m)
    }

    /** They are all found if every table is right. */
    lemma ValidSuffixes()
      requires Valid()
      ensures AllSuffixesFound()
    {
      hide Ok, NgramVector.Valid, NgramVector.Usable, NgramVector.Finds, Spell;
      forall n, i | 2 <= n < |vectors| && 0 <= i < |Layers()[n]| ensures SuffixFound(n, i) {
        vectors[n-1].ValidFinds();
      }
    }

    /** Which n-grams have to be found for it. */
    lemma FoundForSuffixes(n: nat)
      requires Sound() && 1 <= n && n + 1 < |vectors|
      ensures vectors[n].Shaped()
      ensures SuffixesFound(n + 1) <==> forall j | 0 <= j < |Layers()[n]| && IsSuffix(Layers(), n + 1, j) :: vectors[n].Finds(j)
    {
      hide Ok, NgramVector.Usable, NgramVector.Finds, Spell;
      assert vectors[n] in vectors;
      var ls := Layers();
      if SuffixesFound(n + 1) {
        forall j | 0 <= j < |ls[n]| && IsSuffix(ls, n + 1, j) ensures vectors[n].Finds(j) {
          var i: nat :| SuffixOf(ls, n + 1, i, j);
          assert SuffixFound(n + 1, i);
        }
      }
    }

    constructor (order: nat, wordHash: string -> nat, ngramHash: (int, int) -> nat)
      ensures Valid() && |vectors| == order + 1
      ensures Layers()[0] == [Key(0, 0)] && forall n | 1 <= n <= order :: Layers()[n] == []
      ensures vocab.Valid() && vocab.Words() == ["</s>"] && !vocab.fixedVocab
    {
      hide Ok, NgramVector.Usable, NgramVector.Valid;
      vocab := new Vocabs.Vocab(wordHash, 65536);
      var vs := NewVectors(order, ngramHash);
      vectors := vs;
      backoffVectors := [];
      new;
      EmptyOk(Layers());
      forall v | v in vectors ensures v.Usable() {
        v.ValidUsable();
      }
    }

    /** Adds one n-gram whose history is there. */
    method Add(n: nat, hist: nat, word: nat) returns (index: nat, isNew: bool)
      requires Valid() && 1 <= n < |vectors| && hist < |Layers()[n-1]|
      modifies vectors[n]
      ensures Valid() && Layers() == old(Layers()[n := Added(Layers()[n], Key(hist, word))])
      ensures index < |Layers()[n]| && Layers()[n][index] == Key(hist, word)
      ensures isNew <==> Key(hist, word) !in old(Layers()[n])
    {
      hide Ok, NgramVector.Valid, NgramVector.Usable;
      ghost var ls := Layers();
      index, isNew := vectors[n].Add(hist, word);
      vectors[n].ValidUsable();
      assert Layers() == ls[n := Added(ls[n], Key(hist, word))];
      AddKeeps(ls, n, hist, word);
    }

    /** Adds all n-grams of one order of another model; the result says where each of them is here. */
    method ExtendOrder(n: nat, keys: seq<Key>, histMap: seq<nat>, vocabMap: seq<nat>) returns (to: seq<nat>)
      requires Valid() && 1 <= n < |vectors| && Below(histMap, |Layers()[n-1]|)
      requires forall i | 0 <= i < |keys| :: 0 <= keys[i].hist < |histMap| && 0 <= keys[i].word < |vocabMap|
      modifies vectors[n]
      ensures Valid() && vectors == old(vectors) && Layers() == old(Layers())[n := Layers()[n]]
      ensures old(Layers()[n]) <= Layers()[n]
      ensures CarriedLayer(keys, Layers()[n], vocabMap, histMap, to)
      ensures forall j | 0 <= j < |Layers()[n]| :: j < old(|Layers()[n]|) || j in to
    {
      hide Ok, NgramVector.Valid, NgramVector.Usable, CarriedLayer, Added;
      ghost var ls := Layers();
      to := [];
      assert CarriedLayer(keys[..0], ls[n], vocabMap, histMap, to) by { NoneCarried(keys[..0], ls[n], vocabMap, histMap); }
      for i := 0 to |keys|
        modifies vectors[n]
        invariant Valid() && Layers() == ls[n := Layers()[n]] && ls[n] <= Layers()[n]
        invariant CarriedLayer(keys[..i], Layers()[n], vocabMap, histMap, to)
        invariant NewIn(|ls[n]|, |Layers()[n]|, to)
      {
        ghost var was := Layers()[n];
        var index, isNew := Add(n, histMap[keys[i].hist], vocabMap[keys[i].word]);
        AddedFacts(was, Key(histMap[keys[i].hist], vocabMap[keys[i].word]), index);
        NewNext(|ls[n]|, |was|, |Layers()[n]|, to, index);
        CarriedNext(keys, i, was, Layers()[n], vocabMap, histMap, to, index);
        to := to + [index];
      }
      assert keys[..|keys|] == keys;
      forall j | 0 <= j < |Layers()[n]| ensures j < |ls[n]| || j in to {
      }
    }

    /** Adds the words of another vocabulary; the result says where each of them is here. */
    method ExtendVocab(words: seq<string>) returns (vocabMap: seq<nat>)
      requires vocab.Valid() && !vocab.fixedVocab && Distinct(words)
      requires forall i | 0 <= i < |words| :: words[i] != "<s>" && Vocabs.Terminator !in words[i]
      modifies vocab
      ensures vocab.Valid() && !vocab.fixedVocab && vocab.unkIndex == old(vocab.unkIndex)
      ensures old(vocab.Words()) <= vocab.Words()
      ensures |vocabMap| == |words| && Below(vocabMap, vocab.length) && Distinct(vocabMap)
      ensures Through(vocab.Words(), vocabMap) == words
      ensures forall w | old(vocab.length) <= w < vocab.length :: w in vocabMap
    {
      vocab.ValidShaped();
      hide JoinedSoFar, Vocabs.Vocab.Valid, Vocabs.Vocab.Shaped, Vocabs.Vocab.Words;
      vocabMap := [];
      ghost var before := vocab.Words();
      NoneJoined(before, words);
      for i := 0 to |words|
        modifies vocab
        invariant vocab.Valid() && vocab.Shaped() && !vocab.fixedVocab && vocab.unkIndex == old(vocab.unkIndex)
        invariant JoinedSoFar(before, vocab.Words(), words[..i], vocabMap)
      {
        ghost var was := vocab.Words();
        var index := vocab.Add(words[i]);
        vocab.ValidShaped();
        assert words[i] in vocab.Words();
        JoinNext(before, was, vocab.Words(), words, i, vocabMap, index);
        vocabMap := vocabMap + [index];
      }
      AllJoined(before, vocab.Words(), words, vocabMap);
    }

    /** The words and n-grams of model m, of no more orders than this one, join those here. */
    method ExtendModel(m: NgramModel) returns (vocabMap: seq<nat>, ngramMap: seq<seq<nat>>)
      requires Valid() && m.Valid() && 1 < |m.vectors| <= |vectors|
      requires vocab.Valid() && !vocab.fixedVocab && m.vocab.Valid() && m.vocab != vocab
      requires forall v | v in vectors :: v !in m.vectors
      requires forall n, i | 1 <= n < |m.vectors| && 0 <= i < |m.Layers()[n]| :: m.Layers()[n][i].word < m.vocab.length
      modifies vocab, vectors
      ensures Valid() && vectors == old(vectors) && m.Shaped() && m.Layers() == old(m.Layers())
      ensures vocab.Valid() && !vocab.fixedVocab && vocab.unkIndex == old(vocab.unkIndex)
      ensures Joined(old(vocab.Words()), vocab.Words(), m.vocab.Words(), vocabMap)
      ensures Extended(old(Layers()), Layers(), m.Layers(), vocabMap, ngramMap, |m.vectors|)
    {
      hide Ok, NgramVector.Valid, NgramVector.Usable, Indexed, Vocabs.AllPlaced, Extended, Joined;
      forall i | 0 <= i < m.vocab.length
        ensures m.vocab.Words()[i] != "<s>" && Vocabs.Terminator !in m.vocab.Words()[i]
      {
        m.vocab.WordFacts(i);
      }
      m.vocab.WordsDistinct();
      var keys := m.Layers();
      vocabMap, ngramMap := ExtendBy(m.vocab.Words(), keys);
      assert forall n | 0 <= n < |m.vectors| :: m.vectors[n] in m.vectors;
      assert m.Layers() == keys;
    }

    /** Words, and n-grams over them, join those here. */
    method ExtendBy(words: seq<string>, a: seq<seq<Key>>) returns (vocabMap: seq<nat>, ngramMap: seq<seq<nat>>)
      requires Valid() && vocab.Valid() && !vocab.fixedVocab && 1 < |a| <= |vectors| && Ok(a) && Distinct(words)
      requires forall i | 0 <= i < |words| :: words[i] != "<s>" && Vocabs.Terminator !in words[i]
      requires forall n, i | 1 <= n < |a| && 0 <= i < |a[n]| :: a[n][i].word < |words|
      modifies vocab, vectors
      ensures Valid() && vectors == old(vectors)
      ensures vocab.Valid() && !vocab.fixedVocab && vocab.unkIndex == old(vocab.unkIndex)
      ensures Joined(old(vocab.Words()), vocab.Words(), words, vocabMap)
      ensures Extended(old(Layers()), Layers(), a, vocabMap, ngramMap, |a|)
    {
      hide Ok, NgramVector.Valid, NgramVector.Usable, Indexed, Vocabs.AllPlaced, Extended;
      ghost var was := Layers();
      vocabMap := ExtendVocab(words);
      assert Layers() == was;
      ngramMap := ExtendVectors(a, vocabMap);
    }

    method ExtendVectors(a: seq<seq<Key>>, vocabMap: seq<nat>) returns (ngramMap: seq<seq<nat>>)
      requires Valid() && 1 < |a| <= |vectors| && Ok(a)
      requires forall n, i | 1 <= n < |a| && 0 <= i < |a[n]| :: a[n][i].word < |vocabMap|
      modifies vectors
      ensures Valid() && vectors == old(vectors)
      ensures Extended(old(Layers()), Layers(), a, vocabMap, ngramMap, |a|)
    {
      hide Ok, NgramVector.Valid, NgramVector.Usable, CarriedLayer, FromEither;
      ghost var was := Layers();
      ngramMap := [[0]];
      for n := 1 to |a|
        modifies vectors
        invariant Valid() && Extended(was, Layers(), a, vocabMap, ngramMap, n)
      {
        ghost var now := Layers();
        ExtendedFacts(was, now, a, vocabMap, ngramMap, n);
        var to := ExtendOrder(n, a[n], ngramMap[n-1], vocabMap);
        ExtendedStep(was, now, a, vocabMap, ngramMap, n, Layers()[n], to);
        ngramMap := ngramMap + [to];
      }
    }

    /** Links every n-gram to its backoff, and says whether each has one. All links are right exactly if every suffix
        that is there is found; in a closed model that is when each n-gram has a link. */
    method ComputeBackoffs() returns (linked: bool)
      requires Sound() && |vectors| > 1
      modifies this`backoffVectors
      ensures Linked(Layers(), backoffVectors) <==> AllSuffixesFound()
      ensures Closed(Layers()) ==> (linked <==> Linked(Layers(), backoffVectors))
    {
      hide Ok, Closed, NgramVector.Valid, NgramVector.Usable, BackoffAt, BackoffsOf, SuffixesFound;
      ghost var ls := Layers();
      var backoffs := [Zeros(vectors[0].length), Zeros(vectors[1].length)];
      UnigramBackoffs(ls, backoffs[1]);
      linked := true;
      for n := 2 to |vectors|
        modifies {}
        invariant |backoffs| == n && |backoffs[n-1]| == |ls[n-1]|
        invariant RightTo(ls, backoffs, n) <==> FoundTo(n)
        invariant Closed(ls) ==> (linked <==> RightTo(ls, backoffs, n))
      {
        var next, all := OrderBackoffs(n, backoffs[n-1]);
        RightNext(ls, backoffs, next);
        assert FoundTo(n + 1) <==> FoundTo(n) && SuffixesFound(n);
        backoffs, linked := backoffs + [next], linked && all;
      }
      assert Linked(ls, backoffs) <==> RightTo(ls, backoffs, |ls|);
      backoffVectors := backoffs;
    }

    /** The backoffs of one order, from those of the order below; bigrams are looked up under the empty history. */
    method OrderBackoffs(n: nat, lower: seq<int>) returns (backoffs: seq<int>, all: bool)
      requires Sound() && 2 <= n < |vectors| && |lower| == |Layers()[n-1]|
      ensures |backoffs| == |Layers()[n]|
      ensures BackoffsOf(Layers(), n, backoffs) ==> SuffixesFound(n)
      ensures BackoffsOf(Layers(), n - 1, lower) && SuffixesFound(n) ==> BackoffsOf(Layers(), n, backoffs)
      ensures Closed(Layers()) && BackoffsOf(Layers(), n - 1, lower) ==> (all <==> BackoffsOf(Layers(), n, backoffs))
    {
      hide Ok, Closed, NgramVector.Valid, NgramVector.Usable, NgramVector.Finds, NgramVector.Misses, BackoffAt, SuffixFound, NoneMissing,
           BackoffsOf, LinkOk, SuffixesFound;
      ghost var ls := Layers();
      var v, below := vectors[n], vectors[n-1];
      assert v.Shaped() && below.Usable();
      backoffs, all := Zeros(v.length), true;
      assert NoneMissing(backoffs, 0) by { NoneYet(backoffs); }
      for i := 0 to v.length
        invariant |backoffs| == v.length
        invariant forall k | 0 <= k < i :: LinkOk(n, lower, k, backoffs[k])
        invariant all <==> NoneMissing(backoffs, i)
      {
        KeyFacts(ls, n, i);
        var h, w := v.hists[i], v.words[i];
        assert ls[n][i] == Key(h, w);
        var hist := if n == 2 then 0 else lower[h];
        var b := below.Find(hist, w);
        assert b != Invalid ==> 0 <= b < |ls[n-1]| && ls[n-1][b] == Key(hist, w);
        OneLink(n, lower, i, hist, b);
        MissingNext(backoffs, i, b);
        backoffs, all := backoffs[i := b], all && b != Invalid;
      }
      LinksOk(n, lower, backoffs);
    }

    /** b is right exactly if what it should lead to is found, given the links of the order below; and if these are right
        and b leads somewhere, it is right. */
    ghost predicate LinkOk(n: nat, lower: seq<int>, i: nat, b: int)
      requires Sound() && 2 <= n < |vectors| && i < |Layers()[n]|
      reads this`vectors, vectors
    {
      && (BackoffAt(Layers(), n, i, b) ==> SuffixFound(n, i))
      && (BackoffsOf(Layers(), n - 1, lower) && (SuffixFound(n, i) || b != Invalid) ==> BackoffAt(Layers(), n, i, b))
    }

    lemma LinksOk(n: nat, lower: seq<int>, backoffs: seq<int>)
      requires Sound() && 2 <= n < |vectors| && |backoffs| == |Layers()[n]|
      requires forall k | 0 <= k < |backoffs| :: LinkOk(n, lower, k, backoffs[k])
      ensures BackoffsOf(Layers(), n, backoffs) ==> SuffixesFound(n)
      ensures BackoffsOf(Layers(), n - 1, lower) && SuffixesFound(n) ==> BackoffsOf(Layers(), n, backoffs)
      ensures Closed(Layers()) && BackoffsOf(Layers(), n - 1, lower) ==>
                (NoneMissing(backoffs, |backoffs|) <==> BackoffsOf(Layers(), n, backoffs))
    {
      hide Ok, Closed, NgramVector.Usable, BackoffAt, SuffixFound;
      if BackoffsOf(Layers(), n - 1, lower) && (NoneMissing(backoffs, |backoffs|) || SuffixesFound(n)) {
        forall k | 0 <= k < |backoffs| ensures BackoffAt(Layers(), n, k, backoffs[k]) {
          assert LinkOk(n, lower, k, backoffs[k]);
        }
      }
      if BackoffsOf(Layers(), n, backoffs) {
        forall k | 0 <= k < |backoffs| ensures SuffixFound(n, k) {
          assert LinkOk(n, lower, k, backoffs[k]);
        }
        if Closed(Layers()) {
          AllLinked(Layers(), n, backoffs);
        }
      }
    }

    lemma OneLink(n: nat, lower: seq<int>, i: nat, hist: int, b: int)
      requires Sound() && 2 <= n < |vectors| && i < |Layers()[n]| && |lower| == |Layers()[n-1]| && vectors[n-1].Shaped()
      requires var k := Layers()[n][i]; 0 <= k.hist < |lower| && hist == if n == 2 then 0 else lower[k.hist]
      requires if b == Invalid then vectors[n-1].Misses(Key(hist, Layers()[n][i].word))
               else 0 <= b < |Layers()[n-1]| && Layers()[n-1][b] == Key(hist, Layers()[n][i].word) && vectors[n-1].Finds(b)
      ensures LinkOk(n, lower, i, b)
    {
      hide Ok, NgramVector.Usable, NgramVector.Finds, NgramVector.Misses, BackoffAt, SuffixFound;
      var ls: seq<seq<Key>> := Layers();
      var h := ls[n][i].hist;
      if BackoffAt(ls, n, i, b) {
        LinkedFound(n, i, b);
      }
      if BackoffsOf(ls, n - 1, lower) {
        assert BackoffAt(ls, n - 1, h, lower[h]);
        if n == 2 {
          BigramHistory(ls, h, lower[h]);
        }
        if b != Invalid {
          BackoffFound(ls, n, i, hist, b);
        } else if SuffixFound(n, i) {
          FoundLinked(n, i, hist, b);
        }
      }
    }

    /** A right link that was looked up shows its target found. */
    lemma LinkedFound(n: nat, i: nat, b: int)
      requires Sound() && 2 <= n < |vectors| && i < |Layers()[n]| && BackoffAt(Layers(), n, i, b)
      requires b != Invalid ==> 0 <= b < |Layers()[n-1]| && vectors[n-1].Shaped() && vectors[n-1].Finds(b)
      ensures SuffixFound(n, i)
    {
      hide Ok, NgramVector.Usable, NgramVector.Finds, Spell;
      var ls := Layers();
      assert vectors[n-1] in vectors;
      forall j: nat | SuffixOf(ls, n, i, j) ensures vectors[n-1].Shaped() && vectors[n-1].Finds(j) {
        if b != Invalid {
          SpellInjective(ls, n - 1, j, b);
        }
      }
    }

    /** A suffix that is found is linked to, if the history is linked right. */
    lemma FoundLinked(n: nat, i: nat, hb: int, b: int)
      requires Sound() && 2 <= n < |vectors| && i < |Layers()[n]| && SuffixFound(n, i)
      requires 0 <= Layers()[n][i].hist < |Layers()[n-1]| && BackoffAt(Layers(), n - 1, Layers()[n][i].hist, hb)
      requires vectors[n-1].Shaped()
      requires if b == Invalid then vectors[n-1].Misses(Key(hb, Layers()[n][i].word))
               else 0 <= b < |Layers()[n-1]| && Layers()[n-1][b] == Key(hb, Layers()[n][i].word)
      ensures BackoffAt(Layers(), n, i, b)
    {
      hide Ok, NgramVector.Usable, NgramVector.Finds, Spell, BackoffAt;
      var ls: seq<seq<Key>> := Layers();
      var k := Key(hb, ls[n][i].word);
      var below, keys := vectors[n-1], ls[n-1];
      forall j | 0 <= j < |keys| && keys[j] == k ensures below.Finds(j) {
        KeySuffix(ls, n, i, hb, j);
      }
      BackoffFound(ls, n, i, hb, b);
    }

    /** Renames the words and sorts every order; the result says where each n-gram went. */
    method SortVectors(vocabMap: seq<nat>) returns (ngramMap: seq<seq<nat>>)
      requires Valid() && |vectors| > 1 && Distinct(vocabMap)
      requires forall n, i | 1 <= n < |vectors| && 0 <= i < |Layers()[n]| :: Layers()[n][i].word < |vocabMap|
      requires forall n | 1 <= n < |vectors| :: |Layers()[n]| > 0
      modifies vectors
      ensures Sound() && vectors == old(vectors)
      ensures Sorted(old(Layers()), Layers(), vocabMap, ngramMap, |vectors|)
      ensures FindsSafe(old(Layers()), old(Slots()), vocabMap, ngramMap) && vectors[0].Valid()
    {
      hide Ok, NgramVector.Valid, NgramVector.Usable, NgramVector.Finds, Permutes, SafeAt, Sorted, FindsSafe, StillToSort;
      ghost var was, slots := Layers(), Slots();
      ngramMap := [[0]];
      SortedNone(was, vocabMap);
      assert FindsSafe(was, slots, vocabMap, ngramMap) by { NoneSortedYet(vocabMap); }
      assert StillToSort(was, slots, 1) by { NoneSortedYet(vocabMap); }
      for n := 1 to |vectors|
        modifies vectors
        invariant Sound() && vectors == old(vectors) && n == |ngramMap| && Sorted(was, Layers(), vocabMap, ngramMap, n)
        invariant StillToSort(was, slots, n) && FindsSafe(was, slots, vocabMap, ngramMap)
      {
        var to := SortNext(n, vocabMap, ngramMap, was, slots);
        ngramMap := ngramMap + [to];
      }
      assert vectors[0].Valid() by { RootValid(was, slots, |vectors|); }
    }

    /** Orders from n on are as they were, and the empty n-gram always is. */
    ghost predicate StillToSort(was: seq<seq<Key>>, slots: seq<seq<int>>, n: nat)
      reads this`vectors, vectors
    {
      && |vectors| == |was| == |slots| && |vectors| > 0 && vectors[0].Valid()
      && forall m | n <= m < |vectors| ::
           vectors[m].Valid() && vectors[m].Shaped() && vectors[m].indices == slots[m] && vectors[m].Keys() == was[m]
    }

    lemma NoneSortedYet(vocabMap: seq<nat>)
      requires Valid()
      ensures FindsSafe(Layers(), Slots(), vocabMap, [[0]]) && StillToSort(Layers(), Slots(), 1)
    {
      hide Ok, NgramVector.Valid, NgramVector.Usable;
    }

    lemma RootValid(was: seq<seq<Key>>, slots: seq<seq<int>>, n: nat)
      requires StillToSort(was, slots, n)
      ensures |vectors| > 0 && vectors[0].Valid()
    {
    }

    /** The next order. */
    method SortNext(n: nat, vocabMap: seq<nat>, ngramMap: seq<seq<nat>>, ghost was: seq<seq<Key>>, ghost slots: seq<seq<int>>)
      returns (to: seq<nat>)
      requires Sound() && 1 <= n < |vectors| && n == |ngramMap| && Sorted(was, Layers(), vocabMap, ngramMap, n) && Distinct(vocabMap)
      requires StillToSort(was, slots, n) && FindsSafe(was, slots, vocabMap, ngramMap)
      requires |was[n]| > 0 && forall i | 0 <= i < |was[n]| :: was[n][i].word < |vocabMap|
      modifies vectors
      ensures Sound() && vectors == old(vectors) && Sorted(was, Layers(), vocabMap, ngramMap + [to], n + 1)
      ensures StillToSort(was, slots, n + 1) && FindsSafe(was, slots, vocabMap, ngramMap + [to])
    {
      hide Ok, NgramVector.Valid, NgramVector.Usable, NgramVector.Finds, Permutes, SafeAt, CarriedLayer, Sorted;
      ghost var cur := Layers();
      SortedLast(was, cur, vocabMap, ngramMap, n);
      to := SortOrder(n, vocabMap, ngramMap[n-1]);
      SortedStep(was, cur, vocabMap, ngramMap, n, Layers()[n], to);
      forall m, i | 1 <= m < n + 1 && 0 <= i < |was[m]| && SafeAt(was, slots, vocabMap, ngramMap + [to], m, i)
        ensures vectors[m].Finds(i)
      {
        SafeStays(was, slots, vocabMap, ngramMap, to, m, i);
        if m == n {
          SafeHere(was, slots, vocabMap, ngramMap, n, i);
        }
      }
    }

    /** Every n-gram that had a safe place is found, in the orders sorted so far. */
    ghost predicate FindsSafe(was: seq<seq<Key>>, slots: seq<seq<int>>, vocabMap: seq<nat>, ngramMap: seq<seq<nat>>)
      reads this`vectors, vectors
    {
      && |ngramMap| <= |vectors| == |was| == |slots|
      && (forall v | v in vectors :: v.Shaped())
      && forall n, i | 1 <= n < |ngramMap| && 0 <= i < |was[n]| && SafeAt(was, slots, vocabMap, ngramMap, n, i) :: vectors[n].Finds(i)
    }

    /** Sorts the words, then renames and sorts the n-grams of every order, then links them to their backoffs. */
    method SortModel() returns (vocabMap: seq<nat>, ngramMap: seq<seq<nat>>, linked: bool)
      requires Valid() && |vectors| > 1 && vocab.Valid() && vocab.FixedWords() < vocab.length
      requires forall n, i | 1 <= n < |vectors| && 0 <= i < |Layers()[n]| :: Layers()[n][i].word < vocab.length
      requires forall n | 1 <= n < |vectors| :: |Layers()[n]| > 0
      modifies this`backoffVectors, vocab, vectors
      ensures vocab.Valid() && Permutes(vocabMap, vocab.length) && Through(vocab.Words(), vocabMap) == old(vocab.Words())
      ensures vocab.unkIndex == old(vocab.unkIndex) && vocab.fixedVocab == old(vocab.fixedVocab)
      ensures Sound() && Sorted(old(Layers()), Layers(), vocabMap, ngramMap, |vectors|) && vectors == old(vectors)
      ensures FindsSafe(old(Layers()), old(Slots()), vocabMap, ngramMap)
      ensures Linked(Layers(), backoffVectors) <==> AllSuffixesFound()
      ensures Closed(Layers()) ==> (linked <==> Linked(Layers(), backoffVectors))
      ensures SortedWell(old(Layers()), old(Slots()), vocabMap, ngramMap) ==> Valid() && Linked(Layers(), backoffVectors)
    {
      hide Ok, NgramVector.Valid, NgramVector.Usable, NgramVector.Finds, SafeAt, SortedWell, FindsSafe, AllSuffixesFound, Linked, Sorted,
           Closed, SafePlace, Indexed, Vocabs.AllPlaced, Vocabs.Vocab.Indexing, StepsUp, Ascends;
      ghost var was, slots := Layers(), Slots();
      var sorted;
      vocab.ValidShaped();
      sorted, vocabMap := vocab.Sort();
      vocab.ValidShaped();
      assert Layers() == was && Slots() == slots;
      assert Permutes(vocabMap, vocab.length);
      hide Vocabs.Vocab.Words, Vocabs.Vocab.Shaped, Vocabs.Vocab.Valid, Permutes;
      ngramMap, linked := SortAndLink(vocabMap);
    }

    method SortAndLink(vocabMap: seq<nat>) returns (ngramMap: seq<seq<nat>>, linked: bool)
      requires Valid() && |vectors| > 1 && Distinct(vocabMap)
      requires forall n, i | 1 <= n < |vectors| && 0 <= i < |Layers()[n]| :: Layers()[n][i].word < |vocabMap|
      requires forall n | 1 <= n < |vectors| :: |Layers()[n]| > 0
      modifies this`backoffVectors, vectors
      ensures Sound() && Sorted(old(Layers()), Layers(), vocabMap, ngramMap, |vectors|) && vectors == old(vectors)
      ensures FindsSafe(old(Layers()), old(Slots()), vocabMap, ngramMap)
      ensures Linked(Layers(), backoffVectors) <==> AllSuffixesFound()
      ensures Closed(Layers()) ==> (linked <==> Linked(Layers(), backoffVectors))
      ensures SortedWell(old(Layers()), old(Slots()), vocabMap, ngramMap) ==> Valid() && Linked(Layers(), backoffVectors)
    {
      hide Ok, NgramVector.Valid, NgramVector.Usable, NgramVector.Finds, SafeAt, SortedWell, AllSuffixesFound, Linked, Sorted, Closed;
      ghost var was, slots := Layers(), Slots();
      ngramMap := SortVectors(vocabMap);
      SortedSizes(was, Layers(), vocabMap, ngramMap, |vectors|);
      ghost var now := Layers();
      linked := ComputeBackoffs();
      assert Layers() == now;
      assert FindsSafe(was, slots, vocabMap, ngramMap);
      if SortedWell(was, slots, vocabMap, ngramMap) {
        SortedValid(was, slots, vocabMap, ngramMap);
        ValidSuffixes();
      }
    }

    /** If every place was safe the model is valid. */
    lemma SortedValid(was: seq<seq<Key>>, slots: seq<seq<int>>, vocabMap: seq<nat>, ngramMap: seq<seq<nat>>)
      requires Sound() && |vectors| > 0 && vectors[0].Valid()
      requires |was| == |vectors| == |slots| == |ngramMap| && forall n | 0 <= n < |was| :: |Layers()[n]| == |was[n]|
      requires FindsSafe(was, slots, vocabMap, ngramMap) && SortedWell(was, slots, vocabMap, ngramMap)
      ensures Valid()
    {
      hide Ok, NgramVector.Valid, NgramVector.Usable, NgramVector.Finds, SafeAt;
      forall n | 0 <= n < |vectors| ensures vectors[n].Valid() {
        if n > 0 {
          vectors[n].AllFound();
        }
      }
      AllValid();
    }

    lemma AllValid()
      requires Sound() && forall n | 0 <= n < |vectors| :: vectors[n].Valid()
      ensures Valid()
    {
      hide Ok, NgramVector.Valid, NgramVector.Usable;
      forall v | v in vectors ensures v.Valid() {
        var n :| 0 <= n < |vectors| && vectors[n] == v;
      }
    }

    method SortOrder(n: nat, vocabMap: seq<nat>, histMap: seq<nat>) returns (to: seq<nat>)
      requires Sound() && 1 <= n < |vectors| && vectors[n].Valid() && |Layers()[n]| > 0 && Distinct(vocabMap)
      requires forall i | 0 <= i < |Layers()[n]| :: Layers()[n][i].word < |vocabMap|
      requires Permutes(histMap, |Layers()[n-1]|)
      modifies vectors[n]
      ensures Sound() && vectors == old(vectors) && |Layers()[n]| == old(|Layers()[n]|)
      ensures Layers() == old(Layers())[n := Layers()[n]]
      ensures forall m | 0 <= m < |vectors| && m != n :: unchanged(vectors[m])
      ensures Permutes(to, |Layers()[n]|)
      ensures CarriedLayer(old(Layers()[n]), Layers()[n], vocabMap, histMap, to)
      ensures forall i | 0 <= i < |Layers()[n]| && SafePlace(old(vectors[n].indices), old(Layers()[n]), vocabMap, histMap, i) ::
                vectors[n].Finds(i)
    {
      hide Ok, NgramVector.Valid, NgramVector.Usable, NgramVector.Finds, SafelyNamed, StepsUp, Ascends, CarriedLayer;
      ghost var ls := Layers();
      LayerFacts(ls, n);
      RelabelDistinct(ls[n], vocabMap, histMap);
      var sorted;
      sorted, to := vectors[n].Sort(vocabMap, histMap);
      if sorted {
        vectors[n].ValidFinds();
      }
      assert Layers() == ls[n := Layers()[n]];
      RelabelCarried(ls[n], Layers()[n], vocabMap, histMap, to);
      SortKeeps(ls, n, Layers()[n], vocabMap, histMap, to);
    }
  }

  /** The words have joined the vocabulary, each at its number in the map, and no others have. */
  ghost predicate Joined(before: seq<string>, after: seq<string>, words: seq<string>, vocabMap: seq<nat>) {
    && before <= after && Below(vocabMap, |after|) && Distinct(vocabMap) && Through(after, vocabMap) == words
    && forall w | |before| <= w < |after| :: w in vocabMap
  }

  ghost predicate JoinedSoFar(before: seq<string>, after: seq<string>, words: seq<string>, vocabMap: seq<nat>) {
    && before <= after && Below(vocabMap, |after|) && Through(after, vocabMap) == words
    && forall w | |before| <= w < |after| :: w in vocabMap
  }

  lemma NoneJoined(before: seq<string>, words: seq<string>)
    ensures JoinedSoFar(before, before, words[..0], [])
  {
  }

  lemma JoinNext(before: seq<string>, mid: seq<string>, after: seq<string>, words: seq<string>, i: nat, vocabMap: seq<nat>, index: nat)
    requires i < |words| && JoinedSoFar(before, mid, words[..i], vocabMap)
    requires after == (if words[i] in mid then mid else mid + [words[i]]) && index < |after| && after[index] == words[i]
    ensures JoinedSoFar(before, after, words[..i+1], vocabMap + [index])
  {
    assert Through(after, vocabMap) == Through(mid, vocabMap);
    assert words[..i+1] == words[..i] + [words[i]];
    assert Through(after, vocabMap + [index]) == words[..i] + [words[i]];
  }

  lemma AllJoined(before: seq<string>, after: seq<string>, words: seq<string>, vocabMap: seq<nat>)
    requires JoinedSoFar(before, after, words[..|words|], vocabMap) && Distinct(words)
    ensures |vocabMap| == |words| && Joined(before, after, words, vocabMap)
  {
    assert words[..|words|] == words;
    assert |Through(after, vocabMap)| == |vocabMap|;
    ThroughDistinct(after, vocabMap, words);
  }

  ghost predicate Permutes(s: seq<nat>, n: nat) {
    |s| == n && Below(s, n) && Distinct(s) && forall y :: 0 <= y < n ==> y in s
  }

  /** The renamed n-grams step up somewhere, so that they are sorted and indexed again, or the old table of slots leads
      to n-gram i under its new name, whatever the hash function. */
  ghost predicate SafePlace(slots: seq<int>, keys: seq<Key>, vocabMap: seq<nat>, histMap: seq<nat>, i: nat) {
    && i < |keys|
    && (forall i | 0 <= i < |keys| :: 0 <= keys[i].hist < |histMap| && 0 <= keys[i].word < |vocabMap|)
    && (StepsUp(Relabel(keys, vocabMap, histMap), Before)
        || SafelyNamed(slots, keys, Relabel(keys, vocabMap, histMap), i))
  }

  ghost predicate SafeAt(was: seq<seq<Key>>, slots: seq<seq<int>>, vocabMap: seq<nat>, ngramMap: seq<seq<nat>>, n: nat, i: nat)
    requires 1 <= n < |was| && n < |slots| && n <= |ngramMap|
  {
    SafePlace(slots[n], was[n], vocabMap, ngramMap[n-1], i)
  }

  /** All n-grams of all orders have a safe place. */
  ghost predicate SortedWell(was: seq<seq<Key>>, slots: seq<seq<int>>, vocabMap: seq<nat>, ngramMap: seq<seq<nat>>)
    requires |was| == |slots| == |ngramMap|
  {
    forall n, i | 1 <= n < |was| && 0 <= i < |was[n]| :: SafeAt(was, slots, vocabMap, ngramMap, n, i)
  }

  /** Orders that step up or are not renamed are safe. */
  lemma SafeLayer(slots: seq<int>, keys: seq<Key>, vocabMap: seq<nat>, histMap: seq<nat>, i: nat)
    requires |slots| > 0 && i < |keys|
    requires forall i | 0 <= i < |keys| :: 0 <= keys[i].hist < |histMap| && 0 <= keys[i].word < |vocabMap|
    requires StepsUp(Relabel(keys, vocabMap, histMap), Before) || Relabel(keys, vocabMap, histMap) == keys
    ensures SafePlace(slots, keys, vocabMap, histMap, i)
  {
    if Relabel(keys, vocabMap, histMap) == keys {
      KeptName(slots, keys, keys, i);
    }
  }

  /** The backoffs of orders below n are right. */
  ghost predicate RightTo(ls: seq<seq<Key>>, backoffs: seq<seq<int>>, n: nat)
    requires Ok(ls) && n <= |ls| && n <= |backoffs|
  {
    forall m | 1 <= m < n :: BackoffsOf(ls, m, backoffs[m])
  }

  lemma RightNext(ls: seq<seq<Key>>, backoffs: seq<seq<int>>, next: seq<int>)
    requires Ok(ls) && 1 <= |backoffs| < |ls|
    ensures RightTo(ls, backoffs + [next], |backoffs| + 1)
       <==> RightTo(ls, backoffs, |backoffs|) && BackoffsOf(ls, |backoffs|, next)
    ensures |backoffs| > 1 && RightTo(ls, backoffs, |backoffs|) ==> BackoffsOf(ls, |backoffs| - 1, backoffs[|backoffs|-1])
  {
    hide BackoffsOf;
    var more := backoffs + [next];
    if RightTo(ls, more, |more|) {
      forall m | 1 <= m < |backoffs| ensures BackoffsOf(ls, m, backoffs[m]) {
        assert more[m] == backoffs[m];
      }
      assert more[|backoffs|] == next;
    }
  }

  /** n-gram j of the order below is what some n-gram of order n is without its first word. */
  ghost predicate IsSuffix(ls: seq<seq<Key>>, n: nat, j: nat)
    requires Ok(ls) && 1 <= n < |ls|
  {
    exists i: nat :: SuffixOf(ls, n, i, j)
  }

  /** Exactly when the links into an order that was renamed and not sorted stay right: whatever hash function its table
      was built with, all suffixes in it are found if and only if all suffixes are safely named. */
  lemma LinksAfterRenaming(ls: seq<seq<Key>>, n: nat, slots: seq<int>, keys: seq<Key>, hash: (int, int) -> nat)
    requires Ok(ls) && 1 <= n && n + 1 < |ls| && Distinct(keys) && |ls[n]| == |keys| && Fits(slots, hash, keys)
    ensures |slots| > 0
    ensures (forall f: (int, int) -> nat | Fits(slots, f, keys) ::
               forall j | 0 <= j < |keys| && IsSuffix(ls, n + 1, j) :: Reached(slots, HashOf(f, ls[n][j]), j))
       <==> forall j | 0 <= j < |keys| && IsSuffix(ls, n + 1, j) :: SafelyNamed(slots, keys, ls[n], j)
  {
    hide Ok, Distinct, Fits, Reached, SafelyNamed, IsSuffix;
    FitsSize(slots, hash, keys);
    forall j | 0 <= j < |keys|
      ensures (forall f: (int, int) -> nat | Fits(slots, f, keys) :: Reached(slots, HashOf(f, ls[n][j]), j))
         <==> SafelyNamed(slots, keys, ls[n], j)
    {
      FoundAfterRenaming(slots, keys, ls[n], hash, j);
    }
  }

  /** Orders below n are permuted and renamed, the others as they were. */
  ghost predicate Sorted(was: seq<seq<Key>>, now: seq<seq<Key>>, vocabMap: seq<nat>, ngramMap: seq<seq<nat>>, n: nat) {
    && |was| == |now| && 0 < n == |ngramMap| <= |was| && Carried(was, now, vocabMap, ngramMap, n)
    && (forall m | 0 <= m < |was| :: |now[m]| == |was[m]|)
    && (forall m | 0 <= m < n :: Permutes(ngramMap[m], |was[m]|))
    && now[0] == was[0] && forall m | n <= m < |was| :: now[m] == was[m]
  }

  lemma SortedNone(was: seq<seq<Key>>, vocabMap: seq<nat>)
    requires Ok(was)
    ensures Sorted(was, was, vocabMap, [[0]], 1)
  {
    RootPermutes();
  }

  lemma SortedLast(was: seq<seq<Key>>, now: seq<seq<Key>>, vocabMap: seq<nat>, ngramMap: seq<seq<nat>>, n: nat)
    requires Sorted(was, now, vocabMap, ngramMap, n)
    ensures 0 < n == |ngramMap| <= |was| == |now| && |now[n-1]| == |was[n-1]| && Permutes(ngramMap[n-1], |now[n-1]|)
    ensures n < |was| ==> now[n] == was[n]
  {
    hide Permutes;
  }

  lemma SortedStep(was: seq<seq<Key>>, now: seq<seq<Key>>, vocabMap: seq<nat>, ngramMap: seq<seq<nat>>, n: nat, layer: seq<Key>, to: seq<nat>)
    requires Sorted(was, now, vocabMap, ngramMap, n) && n < |was| && |layer| == |was[n]| && Permutes(to, |layer|)
    requires CarriedLayer(was[n], layer, vocabMap, ngramMap[n-1], to)
    ensures Sorted(was, now[n := layer], vocabMap, ngramMap + [to], n + 1)
  {
    hide Permutes;
    var after, maps := now[n := layer], ngramMap + [to];
    forall m, m' | 0 <= m < n + 1 && m' == m + 1 && m' < n + 1
      ensures CarriedLayer(was[m'], after[m'], vocabMap, maps[m], maps[m'])
    {
      if m' < n {
        assert CarriedLayer(was[m'], now[m'], vocabMap, ngramMap[m], ngramMap[m']);
      }
    }
  }

  lemma SafeHere(was: seq<seq<Key>>, slots: seq<seq<int>>, vocabMap: seq<nat>, ngramMap: seq<seq<nat>>, n: nat, i: nat)
    requires 1 <= n < |was| && n < |slots| && n <= |ngramMap| && SafeAt(was, slots, vocabMap, ngramMap, n, i)
    ensures SafePlace(slots[n], was[n], vocabMap, ngramMap[n-1], i)
  {
  }

  lemma SafeStays(was: seq<seq<Key>>, slots: seq<seq<int>>, vocabMap: seq<nat>, ngramMap: seq<seq<nat>>, to: seq<nat>, m: nat, i: nat)
    requires 1 <= m < |was| && m < |slots| && m <= |ngramMap| && SafeAt(was, slots, vocabMap, ngramMap + [to], m, i)
    ensures SafeAt(was, slots, vocabMap, ngramMap, m, i)
  {
    assert (ngramMap + [to])[m-1] == ngramMap[m-1];
  }

  lemma SortedSizes(was: seq<seq<Key>>, now: seq<seq<Key>>, vocabMap: seq<nat>, ngramMap: seq<seq<nat>>, n: nat)
    requires Sorted(was, now, vocabMap, ngramMap, n)
    ensures |was| == |now| && n == |ngramMap| <= |was| && forall m | 0 <= m < |was| :: |now[m]| == |was[m]|
  {
  }

  lemma ThroughDistinct(all: seq<string>, s: seq<nat>, words: seq<string>)
    requires Below(s, |all|) && Through(all, s) == words && Distinct(words)
    ensures Distinct(s)
  {
    forall i, j | 0 <= i < |s| && 0 <= j < |s| && s[i] == s[j] ensures i == j {
      assert words[i] == words[j];
    }
  }

  /** The layers was have grown by those of a below order n, and by nothing else. */
  ghost predicate Extended(was: seq<seq<Key>>, now: seq<seq<Key>>, a: seq<seq<Key>>, vocabMap: seq<nat>, ngramMap: seq<seq<nat>>, n: nat) {
    && 0 < n == |ngramMap| <= |a| <= |was| && Extends(was, now) && Carried(a, now, vocabMap, ngramMap, n)
    && (forall m | 1 <= m < n :: FromEither(was, now, ngramMap, m))
    && now[0] == was[0] && forall m | n <= m < |was| :: now[m] == was[m]
  }

  lemma ExtendedFacts(was: seq<seq<Key>>, now: seq<seq<Key>>, a: seq<seq<Key>>, vocabMap: seq<nat>, ngramMap: seq<seq<nat>>, n: nat)
    requires Extended(was, now, a, vocabMap, ngramMap, n) && n < |a| && Ok(was) && Ok(a)
    requires forall i | 0 <= i < |a[n]| :: a[n][i].word < |vocabMap|
    ensures |ngramMap| == n && |now| == |was| && n < |was| && Below(ngramMap[n-1], |now[n-1]|)
    ensures forall i | 0 <= i < |a[n]| :: 0 <= a[n][i].hist < |ngramMap[n-1]| && 0 <= a[n][i].word < |vocabMap|
  {
    hide Ok;
    ZerothLayer(a);
    ZerothLayer(was);
    if n > 1 {
      assert CarriedLayer(a[n-1], now[n-1], vocabMap, ngramMap[n-2], ngramMap[n-1]);
      var to := ngramMap[n-1];
      forall i | 0 <= i < |to| ensures to[i] < |now[n-1]| {
        assert CarriedKey(a[n-1], now[n-1], vocabMap, ngramMap[n-2], ngramMap[n-1], i);
      }
    }
    forall i | 0 <= i < |a[n]| ensures 0 <= a[n][i].hist < |a[n-1]| && 0 <= a[n][i].word {
      KeyFacts(a, n, i);
    }
  }

  lemma ExtendedStep(was: seq<seq<Key>>, now: seq<seq<Key>>, a: seq<seq<Key>>, vocabMap: seq<nat>, ngramMap: seq<seq<nat>>, n: nat, layer: seq<Key>, to: seq<nat>)
    requires Extended(was, now, a, vocabMap, ngramMap, n) && n < |a| && n < |now| && now[n] <= layer
    requires CarriedLayer(a[n], layer, vocabMap, ngramMap[n-1], to)
    requires forall j | 0 <= j < |layer| :: j < |now[n]| || j in to
    ensures Extended(was, now[n := layer], a, vocabMap, ngramMap + [to], n + 1)
  {
    hide CarriedLayer;
    var after, maps := now[n := layer], ngramMap + [to];
    forall m, m' | 0 <= m < n + 1 && m' == m + 1 && m' < n + 1
      ensures CarriedLayer(a[m'], after[m'], vocabMap, maps[m], maps[m'])
    {
      if m' < n {
        assert CarriedLayer(a[m'], now[m'], vocabMap, ngramMap[m], ngramMap[m']);
      }
    }
    forall m | 1 <= m < n + 1 ensures FromEither(was, after, maps, m) {
      if m < n {
        assert FromEither(was, now, ngramMap, m);
        forall j | 0 <= j < |after[m]| ensures From(|was[m]|, maps, m, j) {
          assert From(|was[m]|, ngramMap, m, j);
        }
      }
    }
  }

  lemma RootPermutes()
    ensures Permutes([0], 1)
  {
    assert 0 in [0];
  }

  method EmptyVectors(n: nat, hash: (int, int) -> nat) returns (vs: seq<NgramVector>)
    ensures |vs| == n && forall v | v in vs :: fresh(v) && v.Valid() && v.Keys() == []
    ensures forall i, j | 0 <= i < n && 0 <= j < n && vs[i] == vs[j] :: i == j
  {
    vs := [];
    for i := 0 to n
      invariant |vs| == i && forall v | v in vs :: fresh(v) && v.Valid() && v.Keys() == []
      invariant forall j, k | 0 <= j < i && 0 <= k < i && vs[j] == vs[k] :: j == k
    {
      var v := new NgramVector(hash);
      vs := vs + [v];
    }
  }

  /** Vectors for orders 0 .. order, the empty n-gram in the first. */
  method NewVectors(order: nat, hash: (int, int) -> nat) returns (vs: seq<NgramVector>)
    ensures |vs| == order + 1 && forall v | v in vs :: fresh(v) && v.Shaped() && v.Valid()
    ensures forall i, j | 0 <= i < |vs| && 0 <= j < |vs| && vs[i] == vs[j] :: i == j
    ensures vs[0].Keys() == [Key(0, 0)] && forall i | 1 <= i < |vs| :: vs[i].Keys() == []
  {
    vs := EmptyVectors(order + 1, hash);
    assert forall i | 0 <= i < |vs| :: vs[i] in vs;
    var _, _ := vs[0].Add(0, 0);
  }

  lemma EmptyOk(ls: seq<seq<Key>>)
    requires |ls| > 0 && |ls[0]| == 1 && forall n | 1 <= n < |ls| :: ls[n] == []
    ensures Ok(ls)
  {
  }

  function Zeros(n: nat): (s: seq<int>)
    ensures |s| == n && forall i | 0 <= i < n :: s[i] == 0
  {
    seq(n, _ => 0)
  }

  /** Every number from before on is in the map. */
  ghost predicate NewIn(before: nat, after: nat, to: seq<nat>) {
    forall j | before <= j < after :: j in to
  }

  lemma NewNext(before: nat, mid: nat, after: nat, to: seq<nat>, index: nat)
    requires NewIn(before, mid, to) && (after == mid || (after == mid + 1 && index == mid))
    ensures NewIn(before, after, to + [index])
  {
  }

  lemma AddedFacts(keys: seq<Key>, k: Key, index: nat)
    requires index < |Added(keys, k)| && Added(keys, k)[index] == k
    ensures keys <= Added(keys, k)
    ensures |Added(keys, k)| == |keys| || (|Added(keys, k)| == |keys| + 1 && index == |keys|)
  {
  }

  lemma NoneCarried(keys: seq<Key>, layer: seq<Key>, wordMap: seq<nat>, histMap: seq<nat>)
    requires keys == []
    ensures CarriedLayer(keys, layer, wordMap, histMap, [])
  {
  }

  lemma CarriedNext(keys: seq<Key>, i: nat, was: seq<Key>, layer: seq<Key>, wordMap: seq<nat>, histMap: seq<nat>, to: seq<nat>, index: nat)
    requires i < |keys| && CarriedLayer(keys[..i], was, wordMap, histMap, to) && was <= layer
    requires 0 <= keys[i].hist < |histMap| && 0 <= keys[i].word < |wordMap|
    requires index < |layer| && layer[index] == Key(histMap[keys[i].hist], wordMap[keys[i].word])
    ensures CarriedLayer(keys[..i+1], layer, wordMap, histMap, to + [index])
  {
    var next, cut := to + [index], keys[..i+1];
    forall k | 0 <= k < |cut| ensures CarriedKey(cut, layer, wordMap, histMap, next, k) {
      assert next[k] == if k < i then to[k] else index;
      if k < i {
        assert CarriedKey(keys[..i], was, wordMap, histMap, to, k);
      }
    }
  }

  ghost predicate NoneMissing(b: seq<int>, n: nat)
    requires n <= |b|
  {
    forall i | 0 <= i < n :: b[i] != Invalid
  }

  lemma NoneYet(b: seq<int>)
    ensures NoneMissing(b, 0)
  {
  }

  lemma MissingNext(b: seq<int>, n: nat, next: int)
    requires n < |b|
    ensures NoneMissing(b[n := next], n + 1) <==> NoneMissing(b, n) && next != Invalid
  {
    var after := b[n := next];
    assert after[n] == next && forall i | 0 <= i < n :: after[i] == b[i];
  }

  lemma AllLinked(ls: seq<seq<Key>>, n: nat, b: seq<int>)
    requires Ok(ls) && Closed(ls) && 1 <= n < |ls| && BackoffsOf(ls, n, b)
    ensures NoneMissing(b, |b|)
  {
    hide Ok, Closed, BackoffAt;
    forall i | 0 <= i < |b| ensures b[i] != Invalid {
      NeverInvalid(ls, n, b, i);
    }
  }

  /** The key of a right history link and the n-gram's word spells the suffix. */
  lemma KeySuffix(ls: seq<seq<Key>>, n: nat, i: nat, hb: int, j: nat)
    requires Ok(ls) && 2 <= n < |ls| && i < |ls[n]| && j < |ls[n-1]| && ls[n-1][j] == Key(hb, ls[n][i].word)
    requires 0 <= ls[n][i].hist < |ls[n-1]| && BackoffAt(ls, n - 1, ls[n][i].hist, hb)
    ensures SuffixOf(ls, n, i, j)
  {
    hide Ok;
    KeyFacts(ls, n - 1, j);
    var h, w := ls[n][i].hist, ls[n][i].word;
    SpellOf(ls, n, i, h, w);
    SpellOf(ls, n - 1, j, hb, w);
    assert (Spell(ls, n - 1, h) + [w])[1..] == Spell(ls, n - 1, h)[1..] + [w];
  }

  /** A bigram's backoff is looked up under the empty history. */
  lemma BigramHistory(ls: seq<seq<Key>>, h: nat, b: int)
    requires Ok(ls) && 2 <= |ls| && h < |ls[1]| && BackoffAt(ls, 1, h, b)
    ensures b == 0
  {
    hide Ok;
    ZerothLayer(ls);
    var g := Spell(ls, 1, h);
    assert g[1..] == [];
    assert Spells(ls, 0, 0, []);
  }

  lemma RelabelDistinct(keys: seq<Key>, vocabMap: seq<nat>, histMap: seq<nat>)
    requires LayerOk(keys, |histMap|) && Distinct(vocabMap) && Distinct(histMap)
    requires forall i | 0 <= i < |keys| :: keys[i].word < |vocabMap|
    ensures forall i | 0 <= i < |keys| :: 0 <= keys[i].hist < |histMap| && 0 <= keys[i].word < |vocabMap|
    ensures Distinct(Relabel(keys, vocabMap, histMap))
  {
    forall i | 0 <= i < |keys| ensures 0 <= keys[i].hist < |histMap| && 0 <= keys[i].word {
      assert KeyOk(keys[i], |histMap|);
    }
    var r := Relabel(keys, vocabMap, histMap);
    forall i, j | 0 <= i < |r| && 0 <= j < |r| && r[i] == r[j] ensures i == j {
      assert keys[i] == keys[j];
    }
  }

  lemma RelabelCarried(keys: seq<Key>, layer: seq<Key>, vocabMap: seq<nat>, histMap: seq<nat>, to: seq<nat>)
    requires forall i | 0 <= i < |keys| :: 0 <= keys[i].hist < |histMap| && 0 <= keys[i].word < |vocabMap|
    requires Below(to, |layer|) && Through(layer, to) == Relabel(keys, vocabMap, histMap)
    ensures CarriedLayer(keys, layer, vocabMap, histMap, to)
  {
    forall i | 0 <= i < |keys| ensures CarriedKey(keys, layer, vocabMap, histMap, to, i) {
      assert Through(layer, to)[i] == Relabel(keys, vocabMap, histMap)[i];
    }
  }

  /** A layer renumbered in place is still one. */
  lemma SortKeeps(ls: seq<seq<Key>>, n: nat, layer: seq<Key>, vocabMap: seq<nat>, histMap: seq<nat>, to: seq<nat>)
    requires Ok(ls) && 1 <= n < |ls| && |layer| == |ls[n]| && Distinct(layer)
    requires Permutes(histMap, |ls[n-1]|) && Permutes(to, |layer|)
    requires CarriedLayer(ls[n], layer, vocabMap, histMap, to)
    ensures Ok(ls[n := layer])
  {
    var after := ls[n := layer];
    forall j | 0 <= j < |layer| ensures KeyOk(layer[j], |ls[n-1]|) {
      assert j in to;
      var i :| 0 <= i < |to| && to[i] == j;
      assert CarriedKey(ls[n], layer, vocabMap, histMap, to, i);
    }
    forall m, m' | 0 <= m < |after| && m' == m + 1 && m' < |after| ensures LayerOk(after[m'], |after[m]|) {
      assert LayerOk(ls[m'], |ls[m]|);
    }
  }
}
