/** Merging whole models, seen from one component. */
module MergedModels {
  // Components are added to one model, which is then sorted.

  import opened Sorting
  import opened Tries
  import opened NgramVectors
  import Vocabs
  import opened Probing
  import opened Layers
  import opened Merging
  import opened NgramModels

  /** First one map, then the other. */
  function Compose(first: seq<nat>, second: seq<nat>): (r: seq<nat>)
    requires Below(first, |second|)
    ensures |r| == |first|
  {
    seq(|first|, i requires 0 <= i < |first| => second[first[i]])
  }

  ghost predicate Composes(first: seq<seq<nat>>, second: seq<seq<nat>>, both: seq<seq<nat>>) {
    && |both| == |first| <= |second|
    && forall n | 0 <= n < |first| :: ComposesAt(first[n], second[n], both[n])
  }

  ghost predicate ComposesAt(first: seq<nat>, second: seq<nat>, both: seq<nat>) {
    Below(first, |second|) && both == Compose(first, second)
  }

  /** Models added later do not move what was carried over before. */
  lemma CarriedGrows(a: seq<seq<Key>>, b: seq<seq<Key>>, c: seq<seq<Key>>, wordMap: seq<nat>, ngramMap: seq<seq<nat>>, n: nat)
    requires Carried(a, b, wordMap, ngramMap, n) && Extends(b, c)
    ensures Carried(a, c, wordMap, ngramMap, n)
  {
    forall m, m' | 0 <= m < n && m' == m + 1 && m' < n
      ensures CarriedLayer(a[m'], c[m'], wordMap, ngramMap[m], ngramMap[m'])
    {
      assert CarriedLayer(a[m'], b[m'], wordMap, ngramMap[m], ngramMap[m']);
      forall i | 0 <= i < |a[m']| ensures CarriedKey(a[m'], c[m'], wordMap, ngramMap[m], ngramMap[m'], i) {
        assert CarriedKey(a[m'], b[m'], wordMap, ngramMap[m], ngramMap[m'], i);
      }
    }
  }

  lemma CarriedLayerCompose(a: seq<Key>, b: seq<Key>, c: seq<Key>, words: seq<nat>, words2: seq<nat>,
                            hists: seq<nat>, hists2: seq<nat>, to: seq<nat>, to2: seq<nat>)
    requires Below(words, |words2|) && Below(hists, |hists2|) && Below(to, |to2|)
    requires CarriedLayer(a, b, words, hists, to) && CarriedLayer(b, c, words2, hists2, to2)
    ensures CarriedLayer(a, c, Compose(words, words2), Compose(hists, hists2), Compose(to, to2))
  {
    forall i | 0 <= i < |a|
      ensures CarriedKey(a, c, Compose(words, words2), Compose(hists, hists2), Compose(to, to2), i)
    {
      assert CarriedKey(a, b, words, hists, to, i);
      assert CarriedKey(b, c, words2, hists2, to2, to[i]);
    }
  }

  lemma CarriedCompose(a: seq<seq<Key>>, b: seq<seq<Key>>, c: seq<seq<Key>>, words: seq<nat>, words2: seq<nat>,
                       first: seq<seq<nat>>, second: seq<seq<nat>>, both: seq<seq<nat>>, n: nat)
    requires Below(words, |words2|) && Composes(first, second, both) && 0 < n <= |first|
    requires Carried(a, b, words, first, n) && n <= |second| && Carried(b, c, words2, second, n)
    ensures Carried(a, c, Compose(words, words2), both, n)
  {
    hide CarriedLayer;
    assert ComposesAt(first[0], second[0], both[0]);
    forall m, m' | 0 <= m < n && m' == m + 1 && m' < n
      ensures CarriedLayer(a[m'], c[m'], Compose(words, words2), both[m], both[m'])
    {
      assert CarriedLayer(a[m'], b[m'], words, first[m], first[m']);
      assert CarriedLayer(b[m'], c[m'], words2, second[m], second[m']);
      assert ComposesAt(first[m], second[m], both[m]) && ComposesAt(first[m'], second[m'], both[m']);
      CarriedLayerCompose(a[m'], b[m'], c[m'], words, words2, first[m], second[m], first[m'], second[m']);
    }
  }

  lemma TruncatedLevel(t: Trie, k: nat, n: nat)
    requires t.Valid() && 1 <= n <= k <= |t.levels|
    ensures Truncated(t, k).LevelOk(n)
  {
    hide Trie.Valid;
    t.LevelFacts(n);
    var s := Truncated(t, k);
    forall i | 0 <= i < s.Size(n) ensures s.NgramOk(n, i) {
      assert t.NgramOk(n, i);
    }
    forall i: nat, j: nat, h: nat, w: nat | s.Is(n, i, h, w) && s.Is(n, j, h, w) ensures i == j {
      assert t.Is(n, i, h, w) && t.Is(n, j, h, w);
    }
  }

  /** The lower orders of a consistent model are consistent. */
  lemma TruncatedValid(t: Trie, k: nat)
    requires t.Valid() && 1 <= k <= |t.levels|
    ensures Truncated(t, k).Valid()
  {
    hide Trie.LevelOk;
    var s := Truncated(t, k);
    forall n | 1 <= n <= |s.levels| ensures s.LevelOk(n) {
      TruncatedLevel(t, k, n);
    }
    forall w | 0 <= w < s.vocab ensures s.HasUnigram(w) {
      assert t.HasUnigram(w);
      var i: nat :| t.Is(1, i, 0, w);
      assert s.Is(1, i, 0, w);
    }
  }

  /** A model and its backoffs, all in place. */
  datatype Built = Built(ls: seq<seq<Key>>, backoffs: seq<seq<int>>, vocab: nat) {
    ghost predicate Valid() {
      Linked(ls, backoffs) && Closed(ls) && WordsKnown(ls, vocab)
    }

    function Trie(): Tries.Trie
      requires Valid()
    {
      ToTrie(ls, backoffs, vocab)
    }

    lemma Facts()
      requires Valid()
      ensures Ok(ls) && |ls| > 1 && |backoffs| == |ls| && Trie().Valid()
      ensures |Trie().levels| == |ls| - 1 && Trie().vocab == vocab
    {
      hide ToTrie, Ok, Closed;
      LinkedSizes(ls, backoffs);
      LevelAt(ls, backoffs, vocab, 1);
      TrieValid(ls, backoffs, vocab);
      TrieVocab(ls, backoffs, vocab);
    }

    lemma Order(n: nat)
      requires Valid() && 1 <= n < |ls|
      ensures |Trie().levels| == |ls| - 1 && Trie().Size(n) == |ls[n]| && Trie().Size(n - 1) == |ls[n-1]|
      ensures var l := Trie().levels[n-1];
              && |l.words| == |l.hists| == |l.backoffs| == |ls[n]|
              && forall i | 0 <= i < |ls[n]| :: ls[n][i] == Key(l.hists[i], l.words[i])
    {
      hide ToTrie, Ok, Closed;
      LevelAt(ls, backoffs, vocab, n);
    }
  }

  /** Carrying a component's n-grams into a merged model is an embedding of the one into the other. */
  lemma CarriedEmbeds(a: Built, b: Built, wordMap: seq<nat>, ngramMap: seq<seq<nat>>)
    requires a.Valid() && b.Valid() && |a.ls| <= |b.ls| && |ngramMap| == |a.ls|
    requires |wordMap| == a.vocab && Below(wordMap, b.vocab) && Distinct(wordMap)
    requires Carried(a.ls, b.ls, wordMap, ngramMap, |a.ls|)
    ensures |b.Trie().levels| >= |a.ls| - 1
    ensures Embedding(a.Trie(), Truncated(b.Trie(), |a.ls| - 1), wordMap, ngramMap).Valid()
  {
    hide Built.Valid, Built.Trie, Trie.Valid, Carried, Embedding.OrderOk;
    a.Facts();
    b.Facts();
    TruncatedValid(b.Trie(), |a.ls| - 1);
    var e := Embedding(a.Trie(), Truncated(b.Trie(), |a.ls| - 1), wordMap, ngramMap);
    CarriedRoot(a.ls, b.ls, wordMap, ngramMap, |a.ls|);
    forall n | 1 <= n <= |e.part.levels| ensures e.OrderOk(n) {
      CarriedOrder(a, b, wordMap, ngramMap, n);
    }
  }

  lemma CarriedRoot(a: seq<seq<Key>>, b: seq<seq<Key>>, wordMap: seq<nat>, ngramMap: seq<seq<nat>>, n: nat)
    requires Carried(a, b, wordMap, ngramMap, n) && n > 0
    ensures |ngramMap| > 0 && ngramMap[0] == [0]
  {
  }

  lemma CarriedOrder(a: Built, b: Built, wordMap: seq<nat>, ngramMap: seq<seq<nat>>, n: nat)
    requires a.Valid() && b.Valid() && |a.ls| <= |b.ls| && |ngramMap| == |a.ls| && 1 <= n < |a.ls|
    requires Carried(a.ls, b.ls, wordMap, ngramMap, |a.ls|)
    ensures |a.Trie().levels| == |a.ls| - 1 <= |b.Trie().levels|
    ensures Embedding(a.Trie(), Truncated(b.Trie(), |a.ls| - 1), wordMap, ngramMap).OrderOk(n)
  {
    hide Built.Valid, Built.Trie, Trie.Valid, Carried, Ok;
    a.Facts();
    b.Facts();
    a.Order(n);
    b.Order(n);
    CarriedCount(a.ls, b.ls, wordMap, ngramMap, n);
    var e := Embedding(a.Trie(), Truncated(b.Trie(), |a.ls| - 1), wordMap, ngramMap);
    forall i | 0 <= i < a.Trie().Size(n) ensures e.Kept(n, i) {
      CarriedFacts(a.ls, b.ls, wordMap, ngramMap, |a.ls|, n, i);
      var k := a.ls[n][i];
      assert b.ls[n][ngramMap[n][i]] == Key(ngramMap[n-1][k.hist], wordMap[k.word]);
    }
  }

  /** A component carried into a model that grew and was then sorted is embedded there by the two maps one after the
      other, so that resetting it is called as it asks to be. */
  lemma MergedEmbeds(a: Built, mid: seq<seq<Key>>, grown: seq<seq<Key>>, b: Built,
                     words: seq<nat>, words2: seq<nat>, first: seq<seq<nat>>, second: seq<seq<nat>>, both: seq<seq<nat>>)
    requires a.Valid() && b.Valid() && |a.ls| <= |b.ls| && |first| == |a.ls|
    requires |words| == a.vocab && Below(words, |words2|) && Below(words2, b.vocab) && Distinct(words) && Distinct(words2)
    requires Carried(a.ls, mid, words, first, |a.ls|) && Extends(mid, grown)
    requires Sorted(grown, b.ls, words2, second, |b.ls|) && Composes(first, second, both)
    ensures |b.Trie().levels| >= |a.ls| - 1
    ensures Embedding(a.Trie(), Truncated(b.Trie(), |a.ls| - 1), Compose(words, words2), both).Valid()
  {
    hide Built.Valid, Built.Trie, Trie.Valid, Carried;
    a.Facts();
    b.Facts();
    CarriedGrows(a.ls, mid, grown, words, first, |a.ls|);
    CarriedLess(grown, b.ls, words2, second, |b.ls|, |a.ls|);
    CarriedCompose(a.ls, grown, b.ls, words, words2, first, second, both, |a.ls|);
    ComposeDistinct(words, words2, b.vocab);
    CarriedEmbeds(a, b, Compose(words, words2), both);
  }

  lemma CarriedLess(a: seq<seq<Key>>, b: seq<seq<Key>>, wordMap: seq<nat>, ngramMap: seq<seq<nat>>, n: nat, m: nat)
    requires Carried(a, b, wordMap, ngramMap, n) && m <= n
    ensures Carried(a, b, wordMap, ngramMap, m)
  {
  }

  lemma ComposeDistinct(first: seq<nat>, second: seq<nat>, n: nat)
    requires Below(first, |second|) && Below(second, n) && Distinct(first) && Distinct(second)
    ensures Below(Compose(first, second), n) && Distinct(Compose(first, second))
  {
  }

  // ---------- every word of the merged model has a unigram ----------

  /** Words are known, but word 0, the sentence end, may still lack its unigram. */
  ghost predicate Expecting(ls: seq<seq<Key>>, vocab: nat) {
    && |ls| > 1
    && (forall n, i | 1 <= n < |ls| && 0 <= i < |ls[n]| :: ls[n][i].word < vocab)
    && forall w | 0 < w < vocab :: Key(0, w) in ls[1]
  }

  /** Words joining a vocabulary together with all their unigrams leave no word without one. */
  lemma ExtendedKnown(was: seq<seq<Key>>, now: seq<seq<Key>>, a: seq<seq<Key>>, words: seq<nat>, maps: seq<seq<nat>>, before: nat, vocab: nat)
    requires Expecting(was, before) && Extended(was, now, a, words, maps, |a|) && WordsKnown(a, |words|)
    requires before <= vocab && Below(words, vocab) && 0 in words && forall w | before <= w < vocab :: w in words
    ensures WordsKnown(now, vocab)
  {
    hide Carried, CarriedLayer, FromEither, Extends;
    ExtendsSizes(was, now);
    forall n, i | 1 <= n < |now| && 0 <= i < |now[n]| ensures now[n][i].word < vocab {
      ExtendedWord(was, now, a, words, maps, n, i);
    }
    forall w | 0 <= w < vocab ensures Key(0, w) in now[1] {
      if w in words {
        MappedUnigram(was, now, a, words, maps, w);
      } else {
        assert Key(0, w) in was[1];
        StillUnigram(was, now, w);
      }
    }
  }

  lemma StillUnigram(was: seq<seq<Key>>, now: seq<seq<Key>>, w: nat)
    requires Extends(was, now) && |was| > 1 && Key(0, w) in was[1]
    ensures |now| == |was| && Key(0, w) in now[1]
  {
    assert was[1] <= now[1];
  }

  /** An n-gram's word was there before or is one of the new numbers. */
  lemma ExtendedWord(was: seq<seq<Key>>, now: seq<seq<Key>>, a: seq<seq<Key>>, words: seq<nat>, maps: seq<seq<nat>>, n: nat, i: nat)
    requires Extended(was, now, a, words, maps, |a|) && 1 <= n < |now| && i < |now[n]|
    ensures |was| == |now|
    ensures (i < |was[n]| && now[n][i] == was[n][i]) || now[n][i].word in words
  {
    hide Carried;
    assert was[n] <= now[n];
    if i >= |was[n]| {
      assert n < |a|;
      assert FromEither(was, now, maps, n);
      assert From(|was[n]|, maps, n, i);
      CarriedCount(a, now, words, maps, n);
      var k :| 0 <= k < |maps[n]| && maps[n][k] == i;
      CarriedAt(a, now, words, maps, n, k);
    }
  }

  lemma CarriedAt(a: seq<seq<Key>>, b: seq<seq<Key>>, words: seq<nat>, maps: seq<seq<nat>>, n: nat, k: nat)
    requires Carried(a, b, words, maps, |a|) && 1 <= n < |a| && k < |a[n]|
    ensures |maps| >= |a| && |b| >= |a| && |maps[n]| == |a[n]|
    ensures CarriedKey(a[n], b[n], words, maps[n-1], maps[n], k) && maps[0] == [0]
  {
    assert CarriedLayer(a[n], b[n], words, maps[n-1], maps[n]);
  }

  lemma MappedUnigram(was: seq<seq<Key>>, now: seq<seq<Key>>, a: seq<seq<Key>>, words: seq<nat>, maps: seq<seq<nat>>, w: nat)
    requires Extended(was, now, a, words, maps, |a|) && WordsKnown(a, |words|) && w in words
    ensures |now| > 1 && Key(0, w) in now[1]
  {
    hide Extended, Carried;
    ExtendedParts(was, now, a, words, maps);
    CarriedUnigram(a, now, words, maps, w);
  }

  lemma ExtendedParts(was: seq<seq<Key>>, now: seq<seq<Key>>, a: seq<seq<Key>>, words: seq<nat>, maps: seq<seq<nat>>)
    requires Extended(was, now, a, words, maps, |a|)
    ensures Extends(was, now) && Carried(a, now, words, maps, |a|) && |maps| == |a| <= |was| == |now|
  {
  }

  /** A word with a unigram has one under its new number. */
  lemma CarriedUnigram(a: seq<seq<Key>>, b: seq<seq<Key>>, words: seq<nat>, maps: seq<seq<nat>>, w: nat)
    requires Carried(a, b, words, maps, |a|) && WordsKnown(a, |words|) && w in words
    ensures |b| > 1 && Key(0, w) in b[1]
  {
    hide Carried;
    var x :| 0 <= x < |words| && words[x] == w;
    assert Key(0, x) in a[1];
    var i :| 0 <= i < |a[1]| && a[1][i] == Key(0, x);
    CarriedAt(a, b, words, maps, 1, i);
    assert b[1][maps[1][i]] == Key(0, w);
  }

  /** Renumbering the words of a model in which all are known. */
  lemma SortedKnown(was: seq<seq<Key>>, now: seq<seq<Key>>, words: seq<nat>, maps: seq<seq<nat>>, vocab: nat)
    requires WordsKnown(was, vocab) && Sorted(was, now, words, maps, |now|) && Permutes(words, vocab)
    ensures WordsKnown(now, vocab)
  {
    hide Carried;
    forall n, i | 1 <= n < |now| && 0 <= i < |now[n]| ensures now[n][i].word < vocab {
      assert Permutes(maps[n], |was[n]|);
      assert i in maps[n];
      var k :| 0 <= k < |maps[n]| && maps[n][k] == i;
      CarriedAt(was, now, words, maps, n, k);
    }
    forall w | 0 <= w < vocab ensures Key(0, w) in now[1] {
      CarriedUnigram(was, now, words, maps, w);
    }
  }

  lemma SortedClosed(was: seq<seq<Key>>, now: seq<seq<Key>>, words: seq<nat>, maps: seq<seq<nat>>)
    requires Ok(was) && Ok(now) && Closed(was) && Sorted(was, now, words, maps, |now|)
    ensures Closed(now)
  {
    hide Ok, Carried, Closed;
    forall m, j | 1 <= m < |now| && 0 <= j < |now[m]| ensures j in maps[m] {
      assert Permutes(maps[m], |was[m]|);
    }
    RenumberedClosed(was, now, words, maps);
  }

  lemma ExtendedClosed(was: seq<seq<Key>>, now: seq<seq<Key>>, a: seq<seq<Key>>, words: seq<nat>, maps: seq<seq<nat>>)
    requires Ok(was) && Ok(a) && Ok(now) && Closed(was) && Closed(a) && Extended(was, now, a, words, maps, |a|)
    ensures Closed(now)
  {
    hide Ok, Carried, Closed;
    forall m | 1 <= m < |now| ensures FromEither(was, now, maps, m) {
      if m >= |a| {
        assert now[m] == was[m];
      }
    }
    UnionClosed(was, a, now, words, maps);
  }

  // ---------- merging any number of models ----------

  /** A component: its vocabulary, the sentence end first, and its n-grams with their backoffs. */
  datatype Part = Part(words: seq<string>, ls: seq<seq<Key>>, backoffs: seq<seq<int>>) {
    function AsBuilt(): Built {
      Built(ls, backoffs, |words|)
    }

    ghost predicate Valid() {
      && AsBuilt().Valid() && Distinct(words) && |words| > 0 && words[0] == "</s>"
      && forall i | 0 <= i < |words| :: words[i] != "<s>" && Vocabs.Terminator !in words[i]
    }

    lemma Facts()
      requires Valid()
      ensures Ok(ls) && Closed(ls) && WordsKnown(ls, |words|) && 1 < |ls|
      ensures forall n, i | 1 <= n < |ls| && 0 <= i < |ls[n]| :: ls[n][i].word < |words|
    {
      hide Ok, Closed;
      LinkedSizes(ls, backoffs);
    }
  }

  /** A component's words and n-grams are in the model, at the numbers of the maps. */
  ghost predicate Loaded(p: Part, ls: seq<seq<Key>>, all: seq<string>, words: seq<nat>, maps: seq<seq<nat>>) {
    && Below(words, |all|) && Distinct(words) && Through(all, words) == p.words
    && |maps| == |p.ls| && Carried(p.ls, ls, words, maps, |p.ls|)
  }

  lemma LoadedGrows(p: Part, ls: seq<seq<Key>>, all: seq<string>, words: seq<nat>, maps: seq<seq<nat>>, more: seq<seq<Key>>, allMore: seq<string>)
    requires Loaded(p, ls, all, words, maps) && Extends(ls, more) && all <= allMore
    ensures Loaded(p, more, allMore, words, maps)
  {
    hide Carried;
    CarriedGrows(p.ls, ls, more, words, maps, |p.ls|);
    assert Through(allMore, words) == Through(all, words);
  }

  /** One component more. */
  lemma OneLoaded(p: Part, was: seq<seq<Key>>, now: seq<seq<Key>>, before: seq<string>, after: seq<string>, words: seq<nat>, maps: seq<seq<nat>>)
    requires p.Valid() && Ok(was) && Ok(now) && Closed(was) && Expecting(was, |before|)
    requires Distinct(after) && |before| > 0 && before[0] == "</s>"
    requires Joined(before, after, p.words, words) && Extended(was, now, p.ls, words, maps, |p.ls|)
    ensures Loaded(p, now, after, words, maps) && Extends(was, now) && before <= after
    ensures Closed(now) && WordsKnown(now, |after|) && Expecting(now, |after|)
  {
    hide Ok, Closed, Carried, Extended, Expecting, WordsKnown, Part.Valid;
    p.Facts();
    PartWords(p);
    ExtendedParts(was, now, p.ls, words, maps);
    ExtendedClosed(was, now, p.ls, words, maps);
    assert words[0] == 0 by {
      assert Through(after, words)[0] == after[words[0]];
      assert after[0] == before[0];
    }
    ExtendedKnown(was, now, p.ls, words, maps, |before|, |after|);
    KnownExpecting(now, |after|);
  }

  lemma PartWords(p: Part)
    requires p.Valid()
    ensures |p.words| > 0 && p.words[0] == "</s>" && Distinct(p.words)
    ensures forall i | 0 <= i < |p.words| :: p.words[i] != "<s>" && Vocabs.Terminator !in p.words[i]
  {
  }

  lemma KnownExpecting(ls: seq<seq<Key>>, vocab: nat)
    requires WordsKnown(ls, vocab)
    ensures Expecting(ls, vocab)
  {
  }

  /** An order that a component has n-grams of is not empty. */
  lemma LoadedSome(a: seq<seq<Key>>, b: seq<seq<Key>>, words: seq<nat>, maps: seq<seq<nat>>, n: nat)
    requires Carried(a, b, words, maps, |a|) && 1 <= n < |a| && |a[n]| > 0
    ensures n < |b| && |b[n]| > 0
  {
    hide Carried;
    CarriedAt(a, b, words, maps, n, 0);
  }

  /** Some component has n-grams of this order. */
  ghost predicate Supplied(parts: seq<Part>, n: nat) {
    exists l :: 0 <= l < |parts| && n < |parts[l].ls| && |parts[l].ls[n]| > 0
  }

  ghost predicate AllLoaded(parts: seq<Part>, k: nat, ls: seq<seq<Key>>, all: seq<string>, words: seq<seq<nat>>, maps: seq<seq<seq<nat>>>) {
    && k <= |parts| && k == |words| == |maps|
    && forall l | 0 <= l < k :: Loaded(parts[l], ls, all, words[l], maps[l])
  }

  lemma AllLoadedNext(parts: seq<Part>, k: nat, ls: seq<seq<Key>>, all: seq<string>, words: seq<seq<nat>>, maps: seq<seq<seq<nat>>>,
                      more: seq<seq<Key>>, allMore: seq<string>, w: seq<nat>, m: seq<seq<nat>>)
    requires AllLoaded(parts, k, ls, all, words, maps) && k < |parts| && Extends(ls, more) && all <= allMore
    requires Loaded(parts[k], more, allMore, w, m)
    ensures AllLoaded(parts, k + 1, more, allMore, words + [w], maps + [m])
  {
    hide Loaded, Extends;
    forall l | 0 <= l < k + 1 ensures Loaded(parts[l], more, allMore, (words + [w])[l], (maps + [m])[l]) {
      if l < k {
        LoadedGrows(parts[l], ls, all, words[l], maps[l], more, allMore);
      }
    }
  }

  /** All components loaded, there are n-grams of every order that is supplied, and words but the sentence end if a
      component has one. */
  lemma EnoughLoaded(parts: seq<Part>, ls: seq<seq<Key>>, all: seq<string>, words: seq<seq<nat>>, maps: seq<seq<seq<nat>>>)
    requires AllLoaded(parts, |parts|, ls, all, words, maps) && forall l | 0 <= l < |parts| :: parts[l].Valid()
    ensures forall n | 1 <= n < |ls| && Supplied(parts, n) :: |ls[n]| > 0
    ensures (exists l :: 0 <= l < |parts| && |parts[l].words| > 1) ==> |all| > 1
  {
    hide Carried, Part.Valid;
    forall n | 1 <= n < |ls| && Supplied(parts, n) ensures |ls[n]| > 0 {
      var l :| 0 <= l < |parts| && n < |parts[l].ls| && |parts[l].ls[n]| > 0;
      assert Loaded(parts[l], ls, all, words[l], maps[l]);
      LoadedSome(parts[l].ls, ls, words[l], maps[l], n);
    }
    if l :| 0 <= l < |parts| && |parts[l].words| > 1 {
      assert Loaded(parts[l], ls, all, words[l], maps[l]);
      assert |Through(all, words[l])| == |words[l]|;
      assert words[l][0] != words[l][1] && words[l][0] < |all| && words[l][1] < |all|;
    }
  }

  /** The first k components are in the model. */
  ghost predicate MergeState(m: NgramModel, parts: seq<Part>, k: nat, words: seq<seq<nat>>, maps: seq<seq<seq<nat>>>)
    reads m, m.vocab, m.vectors
  {
    && m.Valid() && 1 < |m.vectors| && Closed(m.Layers())
    && m.vocab.Valid() && !m.vocab.fixedVocab && m.vocab.unkIndex == Invalid
    && Expecting(m.Layers(), m.vocab.length) && (k > 0 ==> WordsKnown(m.Layers(), m.vocab.length))
    && AllLoaded(parts, k, m.Layers(), m.vocab.Words(), words, maps)
  }

  method ExtendPart(m: NgramModel, parts: seq<Part>, k: nat, ghost words: seq<seq<nat>>, ghost maps: seq<seq<seq<nat>>>)
    returns (w: seq<nat>, ngramMap: seq<seq<nat>>)
    requires MergeState(m, parts, k, words, maps) && k < |parts| && parts[k].Valid() && |parts[k].ls| <= |m.vectors|
    modifies m.vocab, m.vectors
    ensures MergeState(m, parts, k + 1, words + [w], maps + [ngramMap]) && m.vectors == old(m.vectors)
  {
    hide Ok, Closed, Expecting, WordsKnown, Extended, Joined, Loaded, Extends, Part.Valid, AllLoaded, Indexed,
         Vocabs.AllPlaced, NgramVector.Valid, NgramVector.Usable;
    var p := parts[k];
    p.Facts();
    PartWords(p);
    ghost var was, before := m.Layers(), m.vocab.Words();
    w, ngramMap := m.ExtendBy(p.words, p.ls);
    m.vocab.WordsDistinct();
    OneLoaded(p, was, m.Layers(), before, m.vocab.Words(), w, ngramMap);
    AllLoadedNext(parts, k, was, before, words, maps, m.Layers(), m.vocab.Words(), w, ngramMap);
  }

  /** Adds all components to a model and sorts it: words, n-grams of every order, backoffs. The maps say where each
      component's words and n-grams were put and where sorting moved them. The model is one that all components' tables
      can be moved to exactly if no backoff link is missing, that is, if every suffix is found; so it is if every n-gram
      had a safe place. */
  method MergeParts(merged: NgramModel, parts: seq<Part>)
    returns (vocabMaps: seq<seq<nat>>, ngramMaps: seq<seq<seq<nat>>>, vocabSort: seq<nat>, ngramSort: seq<seq<nat>>,
             linked: bool, ghost grown: seq<seq<Key>>, ghost slots: seq<seq<int>>, ghost all: seq<string>)
    requires merged.Valid() && 1 < |merged.vectors| && Closed(merged.Layers())
    requires merged.vocab.Valid() && !merged.vocab.fixedVocab && merged.vocab.unkIndex == Invalid
    requires Expecting(merged.Layers(), merged.vocab.length)
    requires |parts| > 0 && forall l | 0 <= l < |parts| :: parts[l].Valid() && |parts[l].ls| <= |merged.vectors|
    requires forall n | 1 <= n < |merged.vectors| :: Supplied(parts, n)
    requires exists l :: 0 <= l < |parts| && |parts[l].words| > 1
    modifies merged`backoffVectors, merged.vocab, merged.vectors
    ensures merged.vocab.Valid() && merged.Sound() && merged.vectors == old(merged.vectors)
    ensures Permutes(vocabSort, merged.vocab.length)
    ensures AllLoaded(parts, |parts|, grown, all, vocabMaps, ngramMaps)
    ensures |all| == merged.vocab.length && Below(vocabSort, |all|) && Through(merged.vocab.Words(), vocabSort) == all
    ensures Sorted(grown, merged.Layers(), vocabSort, ngramSort, |merged.vectors|)
    ensures linked <==> Built(merged.Layers(), merged.backoffVectors, merged.vocab.length).Valid()
    ensures linked <==> merged.AllSuffixesFound()
    ensures |slots| == |grown| && (SortedWell(grown, slots, vocabSort, ngramSort) ==> linked)
  {
    hide NgramModel.FindsSafe, NgramModel.AllSuffixesFound;
    hide Ok, Closed, Expecting, WordsKnown, Loaded, Linked, Sorted, SortedWell, Part.Valid, Permutes, Supplied, AllLoaded,
         Indexed, Vocabs.AllPlaced, NgramVector.Valid, NgramVector.Usable;
    vocabMaps, ngramMaps := [], [];
    NoneLoaded(parts, merged.Layers(), merged.vocab.Words());
    for l := 0 to |parts|
      modifies merged.vocab, merged.vectors
      invariant MergeState(merged, parts, l, vocabMaps, ngramMaps) && merged.vectors == old(merged.vectors)
    {
      var words, maps := ExtendPart(merged, parts, l, vocabMaps, ngramMaps);
      vocabMaps, ngramMaps := vocabMaps + [words], ngramMaps + [maps];
    }
    grown, slots := merged.Layers(), merged.Slots();
    all := merged.vocab.Words();
    EnoughLoaded(parts, grown, all, vocabMaps, ngramMaps);
    KnownWords(grown, merged.vocab.length);
    vocabSort, ngramSort, linked := merged.SortModel();
    PermutesBelow(vocabSort, merged.vocab.length);
    assert |Through(merged.vocab.Words(), vocabSort)| == |all|;
    SortedKnown(grown, merged.Layers(), vocabSort, ngramSort, merged.vocab.length);
    SortedSizes(grown, merged.Layers(), vocabSort, ngramSort, |merged.vectors|);
    SortedClosed(grown, merged.Layers(), vocabSort, ngramSort);
  }

  lemma PermutesBelow(s: seq<nat>, n: nat)
    requires Permutes(s, n)
    ensures |s| == n && Below(s, n)
  {
  }

  lemma NoneLoaded(parts: seq<Part>, ls: seq<seq<Key>>, all: seq<string>)
    ensures AllLoaded(parts, 0, ls, all, [], [])
  {
  }

  lemma KnownWords(ls: seq<seq<Key>>, vocab: nat)
    requires WordsKnown(ls, vocab)
    ensures forall n, i | 1 <= n < |ls| && 0 <= i < |ls[n]| :: ls[n][i].word < vocab
  {
  }

  // ---------- moving every component to the merged model ----------

  method ComposeMaps(first: seq<seq<nat>>, second: seq<seq<nat>>) returns (both: seq<seq<nat>>)
    requires |first| <= |second| && forall n | 0 <= n < |first| :: Below(first[n], |second[n]|)
    ensures Composes(first, second, both)
  {
    both := [];
    for n := 0 to |first|
      invariant |both| == n && forall k | 0 <= k < n :: ComposesAt(first[k], second[k], both[k])
    {
      both := both + [Compose(first[n], second[n])];
    }
  }

  /** A component, its place in the sorted model, and the maps that lead there. */
  ghost predicate Placed(p: Part, b: Built, words: seq<nat>, maps: seq<seq<nat>>, vocabSort: seq<nat>, ngramSort: seq<seq<nat>>,
                         grown: seq<seq<Key>>, all: seq<string>) {
    && p.Valid() && b.Valid() && |p.ls| <= |b.ls| && |all| == b.vocab
    && Loaded(p, grown, all, words, maps)
    && Sorted(grown, b.ls, vocabSort, ngramSort, |b.ls|) && Permutes(vocabSort, b.vocab)
  }

  lemma PlacedMaps(p: Part, b: Built, words: seq<nat>, maps: seq<seq<nat>>, vocabSort: seq<nat>, ngramSort: seq<seq<nat>>,
                   grown: seq<seq<Key>>, all: seq<string>)
    requires Placed(p, b, words, maps, vocabSort, ngramSort, grown, all)
    ensures |words| == |p.words| && Below(words, |vocabSort|) && Below(vocabSort, b.vocab)
    ensures |maps| == |p.ls| <= |ngramSort| == |b.ls| && forall n | 0 <= n < |maps| :: Below(maps[n], |ngramSort[n]|)
  {
    hide Built.Valid, Carried;
    assert |Through(all, words)| == |words|;
    b.Facts();
    assert |grown[0]| == 1 by {
      ZerothLayer(b.ls);
    }
    CarriedSizes(p.ls, grown, words, maps, |p.ls|);
    forall n | 0 <= n < |maps| ensures Below(maps[n], |ngramSort[n]|) {
      assert Permutes(ngramSort[n], |grown[n]|);
      LoadedBelow(p, grown, words, maps, n);
    }
  }

  lemma LoadedBelow(p: Part, grown: seq<seq<Key>>, words: seq<nat>, maps: seq<seq<nat>>, n: nat)
    requires p.Valid() && |maps| == |p.ls| && Carried(p.ls, grown, words, maps, |p.ls|) && n < |p.ls|
    requires n == 0 ==> |grown| > 0 && |grown[0]| == 1
    ensures n < |grown| && Below(maps[n], |grown[n]|)
  {
    hide Carried, Part.Valid;
    CarriedSizes(p.ls, grown, words, maps, |p.ls|);
    if n == 0 {
      CarriedRoot(p.ls, grown, words, maps, |p.ls|);
    } else {
      CarriedCount(p.ls, grown, words, maps, n);
      forall i | 0 <= i < |maps[n]| ensures maps[n][i] < |grown[n]| {
        CarriedAt(p.ls, grown, words, maps, n, i);
      }
    }
  }

  /** What becomes of a component's tables: they are moved to the merged model, and if (and only if) the zeros they
      store are what backoff gives, every word keeps its probability after every history. */
  ghost predicate Reset(p: Part, b: Built, words: seq<nat>, maps: seq<seq<nat>>, vocabSort: seq<nat>, ngramSort: seq<seq<nat>>,
                        before: Tables, after: Tables) {
    && p.Valid() && b.Valid() && |p.ls| <= |b.ls|
    && Below(words, |vocabSort|)
    && exists both: seq<seq<nat>> :: Composes(maps, ngramSort, both) && Kept(p, b, Compose(words, vocabSort), both, before, after)
  }

  ghost predicate Kept(p: Part, b: Built, words: seq<nat>, both: seq<seq<nat>>, before: Tables, after: Tables)
    requires p.Valid() && b.Valid() && |p.ls| <= |b.ls|
  {
    p.AsBuilt().Facts();
    b.Facts();
    var e := Embedding(p.AsBuilt().Trie(), Truncated(b.Trie(), |p.ls| - 1), words, both);
    && e.Moved(before, after) && e.Valid() && e.part.Valid() && e.part.Fits(before) && e.merged.Valid() && e.merged.Fits(after)
    && |e.part.levels| == |e.merged.levels|
    && (e.SameMeaning(before, after) <==> e.ZerosBackOff(before, |e.part.levels|))
  }

  /** Moves one component to the merged model. */
  method ResetPart(lm: NgramLMBase, p: Part, b: Built, words: seq<nat>, maps: seq<seq<nat>>, vocabSort: seq<nat>,
                   ngramSort: seq<seq<nat>>, ghost grown: seq<seq<Key>>, ghost all: seq<string>)
    requires Placed(p, b, words, maps, vocabSort, ngramSort, grown, all)
    requires lm.Valid() && lm.model == p.AsBuilt().Trie() && lm.order == |p.ls| - 1
    modifies lm
    ensures lm.Valid() && lm.model == b.Trie()
    ensures Reset(p, b, words, maps, vocabSort, ngramSort, old(Tables(lm.probVectors, lm.bowVectors)), Tables(lm.probVectors, lm.bowVectors))
  {
    hide Built.Valid, Built.Trie, Trie.Valid, Carried, Embedding.Valid, Embedding.Moved, Embedding.SameMeaning,
         Embedding.ZerosBackOff, Sorted, Loaded;
    PlacedMaps(p, b, words, maps, vocabSort, ngramSort, grown, all);
    p.AsBuilt().Facts();
    b.Facts();
    var both := ComposeMaps(maps, ngramSort);
    ghost var vocabMap := Compose(words, vocabSort);
    PlacedEmbeds(p, b, words, maps, vocabSort, ngramSort, grown, all, both);
    ghost var e := Embedding(p.AsBuilt().Trie(), Truncated(b.Trie(), |p.ls| - 1), vocabMap, both);
    e.Parts();
    assert [[0]] + both[1..] == both;
    TruncatedWhole(lm.model);
    ghost var before := Tables(lm.probVectors, lm.bowVectors);
    lm.SetModel(b.Trie(), vocabMap, both);
    ghost var after := Tables(lm.probVectors, lm.bowVectors);
    e.MovedFacts(before, after);
    e.MeaningKeptExactly(before, after);
    assert Kept(p, b, vocabMap, both, before, after);
  }

  lemma TruncatedWhole(t: Trie)
    ensures Truncated(t, |t.levels|) == t
  {
  }

  lemma PlacedEmbeds(p: Part, b: Built, words: seq<nat>, maps: seq<seq<nat>>, vocabSort: seq<nat>, ngramSort: seq<seq<nat>>,
                     grown: seq<seq<Key>>, all: seq<string>, both: seq<seq<nat>>)
    requires Placed(p, b, words, maps, vocabSort, ngramSort, grown, all) && Composes(maps, ngramSort, both)
    requires Below(words, |vocabSort|)
    ensures |p.ls| > 1 && |b.Trie().levels| >= |p.ls| - 1
    ensures Embedding(p.AsBuilt().Trie(), Truncated(b.Trie(), |p.ls| - 1), Compose(words, vocabSort), both).Valid()
  {
    hide Built.Valid, Built.Trie, Trie.Valid, Carried, Sorted, Embedding.Valid, Composes;
    p.AsBuilt().Facts();
    PlacedMaps(p, b, words, maps, vocabSort, ngramSort, grown, all);
    assert Extends(grown, grown);
    MergedEmbeds(p.AsBuilt(), grown, grown, b, words, vocabSort, maps, ngramSort, both);
  }

  /** What merging leaves is what moving the components asks for. */
  lemma AllArePlaced(parts: seq<Part>, b: Built, vocabMaps: seq<seq<nat>>, ngramMaps: seq<seq<seq<nat>>>,
                     vocabSort: seq<nat>, ngramSort: seq<seq<nat>>, grown: seq<seq<Key>>, all: seq<string>)
    requires AllLoaded(parts, |parts|, grown, all, vocabMaps, ngramMaps) && |all| == b.vocab && b.Valid()
    requires forall l | 0 <= l < |parts| :: parts[l].Valid() && |parts[l].ls| <= |b.ls|
    requires Sorted(grown, b.ls, vocabSort, ngramSort, |b.ls|) && Permutes(vocabSort, b.vocab)
    ensures forall l | 0 <= l < |parts| ::
              Placed(parts[l], b, vocabMaps[l], ngramMaps[l], vocabSort, ngramSort, grown, all)
  {
  }

  /** Moves all components to the merged model. */
  method ResetParts(lms: seq<NgramLMBase>, parts: seq<Part>, b: Built, vocabMaps: seq<seq<nat>>, ngramMaps: seq<seq<seq<nat>>>,
                    vocabSort: seq<nat>, ngramSort: seq<seq<nat>>, ghost grown: seq<seq<Key>>, ghost all: seq<string>)
    requires b.Valid() && |lms| == |parts| == |vocabMaps| == |ngramMaps|
    requires forall l, k | 0 <= l < |lms| && 0 <= k < |lms| && lms[l] == lms[k] :: l == k
    requires forall l | 0 <= l < |parts| ::
               && Placed(parts[l], b, vocabMaps[l], ngramMaps[l], vocabSort, ngramSort, grown, all)
               && lms[l].Valid() && lms[l].model == parts[l].AsBuilt().Trie() && lms[l].order == |parts[l].ls| - 1
    modifies lms
    ensures forall l | 0 <= l < |parts| ::
              && lms[l].Valid() && lms[l].model == b.Trie()
              && Reset(parts[l], b, vocabMaps[l], ngramMaps[l], vocabSort, ngramSort,
                       old(Tables(lms[l].probVectors, lms[l].bowVectors)), Tables(lms[l].probVectors, lms[l].bowVectors))
  {
    hide Placed, Reset, NgramLMBase.Valid, Built.Trie, Built.Valid;
    for l := 0 to |lms|
      modifies lms
      invariant forall k | 0 <= k < l ::
                  && lms[k].Valid() && lms[k].model == b.Trie()
                  && Reset(parts[k], b, vocabMaps[k], ngramMaps[k], vocabSort, ngramSort,
                           old(Tables(lms[k].probVectors, lms[k].bowVectors)), Tables(lms[k].probVectors, lms[k].bowVectors))
      invariant forall k | l <= k < |lms| ::
                  && lms[k].Valid() && lms[k].model == old(lms[k].model) && lms[k].probVectors == old(lms[k].probVectors)
                  && lms[k].bowVectors == old(lms[k].bowVectors)
    {
      ResetPart(lms[l], parts[l], b, vocabMaps[l], ngramMaps[l], vocabSort, ngramSort, grown, all);
    }
  }

  /** The tables are the component's. */
  ghost predicate Holds(lm: NgramLMBase, p: Part)
    reads lm
  {
    lm.Valid() && p.AsBuilt().Valid() && lm.model == p.AsBuilt().Trie() && lm.order == |p.ls| - 1
  }

  /** Merges the components and moves them all to the merged model, unless a link is missing. */
  method LoadLMs(merged: NgramModel, lms: seq<NgramLMBase>, parts: seq<Part>)
    returns (linked: bool, b: Built, vocabMaps: seq<seq<nat>>, ngramMaps: seq<seq<seq<nat>>>, vocabSort: seq<nat>,
             ngramSort: seq<seq<nat>>, ghost grown: seq<seq<Key>>, ghost slots: seq<seq<int>>)
    requires merged.Valid() && 1 < |merged.vectors| && Closed(merged.Layers())
    requires merged.vocab.Valid() && !merged.vocab.fixedVocab && merged.vocab.unkIndex == Invalid
    requires Expecting(merged.Layers(), merged.vocab.length)
    requires |lms| == |parts| > 0
    requires forall l | 0 <= l < |parts| :: parts[l].Valid() && |parts[l].ls| <= |merged.vectors|
    requires forall n | 1 <= n < |merged.vectors| :: Supplied(parts, n)
    requires exists l :: 0 <= l < |parts| && |parts[l].words| > 1
    requires forall l, k | 0 <= l < |lms| && 0 <= k < |lms| && lms[l] == lms[k] :: l == k
    requires forall l | 0 <= l < |lms| :: Holds(lms[l], parts[l])
    modifies merged`backoffVectors, merged.vocab, merged.vectors, lms
    ensures merged.vocab.Valid() && merged.Sound()
    ensures b == Built(merged.Layers(), merged.backoffVectors, merged.vocab.length)
    ensures (linked <==> b.Valid()) && (linked <==> merged.AllSuffixesFound())
    ensures |grown| == |slots| == |ngramSort| && (SortedWell(grown, slots, vocabSort, ngramSort) ==> linked)
    ensures |vocabMaps| == |ngramMaps| == |parts|
    ensures forall l | 0 <= l < |lms| && linked ::
              && lms[l].Valid() && lms[l].model == b.Trie()
              && Reset(parts[l], b, vocabMaps[l], ngramMaps[l], vocabSort, ngramSort,
                       old(Tables(lms[l].probVectors, lms[l].bowVectors)), Tables(lms[l].probVectors, lms[l].bowVectors))
    ensures forall l | 0 <= l < |lms| && !linked :: unchanged(lms[l])
  {
    hide Ok, Closed, Expecting, Loaded, Sorted, SortedWell, Part.Valid, Permutes, Placed, Reset, NgramLMBase.Valid, Built.Trie,
         Built.Valid, NgramModel.AllSuffixesFound, NgramVector.Valid, NgramVector.Usable, Indexed, Vocabs.AllPlaced;
    ghost var all;
    vocabMaps, ngramMaps, vocabSort, ngramSort, linked, grown, slots, all := MergeParts(merged, parts);
    b := Built(merged.Layers(), merged.backoffVectors, merged.vocab.length);
    SortedSizes(grown, merged.Layers(), vocabSort, ngramSort, |merged.vectors|);
    if linked {
      AllArePlaced(parts, b, vocabMaps, ngramMaps, vocabSort, ngramSort, grown, all);
      ResetParts(lms, parts, b, vocabMaps, ngramMaps, vocabSort, ngramSort, grown, all);
    }
  }
}
