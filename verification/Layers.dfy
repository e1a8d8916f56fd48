/** The n-grams of all orders as a trie of layers, each n-gram a key that extends one of the layer below; the
    words an n-gram spells are what it means. */
module Layers {
  import opened Sorting
  import opened Probing
  import opened NgramVectors
  import Tries

  ghost predicate KeyOk(k: Key, below: nat) {
    0 <= k.hist < below && 0 <= k.word
  }

  ghost predicate LayerOk(layer: seq<Key>, below: nat) {
    Distinct(layer) && forall i | 0 <= i < |layer| :: KeyOk(layer[i], below)
  }

  /** ls[n] is order n; order 0 holds the single empty n-gram. */
  ghost predicate Ok(ls: seq<seq<Key>>) {
    && |ls| > 0 && |ls[0]| == 1
    && forall n, m | 0 <= n < |ls| && m == n + 1 && m < |ls| :: LayerOk(ls[m], |ls[n]|)
  }

  lemma LayerFacts(ls: seq<seq<Key>>, n: nat)
    requires Ok(ls) && 1 <= n < |ls|
    ensures LayerOk(ls[n], |ls[n-1]|)
  {
  }

  lemma KeyFacts(ls: seq<seq<Key>>, n: nat, i: nat)
    requires Ok(ls) && 1 <= n < |ls| && i < |ls[n]|
    ensures 0 <= ls[n][i].hist < |ls[n-1]| && 0 <= ls[n][i].word
  {
    LayerFacts(ls, n);
    assert KeyOk(ls[n][i], |ls[n-1]|);
  }

  /** The words of n-gram i of order n. */
  ghost function Spell(ls: seq<seq<Key>>, n: nat, i: nat): (g: seq<int>)
    requires Ok(ls) && n < |ls| && i < |ls[n]|
    ensures |g| == n
    decreases n
  {
    if n == 0 then []
    else
      KeyFacts(ls, n, i);
      Spell(ls, n - 1, ls[n][i].hist) + [ls[n][i].word]
  }

  ghost predicate Spells(ls: seq<seq<Key>>, n: nat, i: nat, g: seq<int>)
    requires Ok(ls) && n < |ls|
  {
    i < |ls[n]| && Spell(ls, n, i) == g
  }

  ghost predicate Has(ls: seq<seq<Key>>, n: nat, g: seq<int>)
    requires Ok(ls) && n < |ls|
  {
    exists i: nat :: Spells(ls, n, i, g)
  }

  lemma Held(ls: seq<seq<Key>>, m: nat, i: nat, g: seq<int>)
    requires Ok(ls) && m < |ls| && Spells(ls, m, i, g)
    ensures Has(ls, m, g)
  {
  }

  /** No two n-grams spell the same words. */
  lemma {:induction false} SpellInjective(ls: seq<seq<Key>>, n: nat, i: nat, j: nat)
    requires Ok(ls) && n < |ls| && i < |ls[n]| && j < |ls[n]| && Spell(ls, n, i) == Spell(ls, n, j)
    ensures i == j
    decreases n
  {
    hide Ok;
    if n == 0 {
      assert |ls[0]| == 1 by { ZerothLayer(ls); }
    } else {
      KeyFacts(ls, n, i);
      KeyFacts(ls, n, j);
      var a, b := ls[n][i], ls[n][j];
      assert Spell(ls, n, i)[..n-1] == Spell(ls, n - 1, a.hist);
      assert Spell(ls, n, j)[..n-1] == Spell(ls, n - 1, b.hist);
      assert Spell(ls, n, i)[n-1] == a.word && Spell(ls, n, j)[n-1] == b.word;
      SpellInjective(ls, n - 1, a.hist, b.hist);
      LayerFacts(ls, n);
    }
  }

  lemma ZerothLayer(ls: seq<seq<Key>>)
    requires Ok(ls)
    ensures |ls| > 0 && |ls[0]| == 1
  {
  }

  /** An n-gram spells its history's words and its own. */
  lemma SpellOf(ls: seq<seq<Key>>, n: nat, i: nat, h: nat, w: int)
    requires Ok(ls) && 1 <= n < |ls| && i < |ls[n]| && ls[n][i] == Key(h, w)
    ensures h < |ls[n-1]| && Spell(ls, n, i) == Spell(ls, n - 1, h) + [w]
  {
    KeyFacts(ls, n, i);
  }

  /** A history and a word are a key exactly when their words are spelled. */
  lemma KeySpelled(ls: seq<seq<Key>>, n: nat, h: nat, w: int)
    requires Ok(ls) && 1 <= n < |ls| && h < |ls[n-1]|
    ensures Key(h, w) in ls[n] <==> Has(ls, n, Spell(ls, n - 1, h) + [w])
  {
    hide Ok;
    var g := Spell(ls, n - 1, h) + [w];
    if Key(h, w) in ls[n] {
      var i :| 0 <= i < |ls[n]| && ls[n][i] == Key(h, w);
      SpellOf(ls, n, i, h, w);
      assert Spells(ls, n, i, g);
    }
    if Has(ls, n, g) {
      var i: nat :| Spells(ls, n, i, g);
      KeyFacts(ls, n, i);
      SpellOf(ls, n, i, ls[n][i].hist, ls[n][i].word);
      assert g[..n-1] == Spell(ls, n - 1, h) && g[n-1] == w;
      assert g[..n-1] == Spell(ls, n - 1, ls[n][i].hist);
      SpellInjective(ls, n - 1, h, ls[n][i].hist);
    }
  }

  /** What is spelled at an order has its first words spelled at the order below. */
  lemma PrefixHeld(ls: seq<seq<Key>>, n: nat, g: seq<int>)
    requires Ok(ls) && 1 <= n < |ls| && Has(ls, n, g)
    ensures |g| == n && Has(ls, n - 1, g[..n-1])
  {
    hide Ok;
    var i: nat :| Spells(ls, n, i, g);
    KeyFacts(ls, n, i);
    assert g[..n-1] == Spell(ls, n - 1, ls[n][i].hist);
    assert Spells(ls, n - 1, ls[n][i].hist, g[..n-1]);
  }

  // ---------- growing ----------

  /** The same n-grams under the same numbers, and perhaps more after them. */
  ghost predicate Extends(a: seq<seq<Key>>, b: seq<seq<Key>>) {
    |a| == |b| && forall n | 0 <= n < |a| :: a[n] <= b[n]
  }

  lemma {:induction false} SpellExtends(a: seq<seq<Key>>, b: seq<seq<Key>>, n: nat, i: nat)
    requires Ok(a) && Ok(b) && Extends(a, b) && n < |a| && i < |a[n]|
    ensures i < |b[n]| && Spell(a, n, i) == Spell(b, n, i)
    decreases n
  {
    hide Ok;
    if n > 0 {
      KeyFacts(a, n, i);
      assert a[n][i] == b[n][i];
      SpellExtends(a, b, n - 1, a[n][i].hist);
    }
  }

  lemma HasExtends(a: seq<seq<Key>>, b: seq<seq<Key>>, n: nat, g: seq<int>)
    requires Ok(a) && Ok(b) && Extends(a, b) && n < |a| && Has(a, n, g)
    ensures Has(b, n, g)
  {
    hide Ok;
    var i: nat :| Spells(a, n, i, g);
    SpellExtends(a, b, n, i);
    assert Spells(b, n, i, g);
  }

  /** Adding an n-gram whose history is there. */
  lemma AddKeeps(ls: seq<seq<Key>>, n: nat, h: nat, w: nat)
    requires Ok(ls) && 1 <= n < |ls| && h < |ls[n-1]|
    ensures Ok(ls[n := Added(ls[n], Key(h, w))]) && Extends(ls, ls[n := Added(ls[n], Key(h, w))])
  {
    var k := Key(h, w);
    var after := ls[n := Added(ls[n], k)];
    assert LayerOk(ls[n], |ls[n-1]|);
    forall m, m' | 0 <= m < |after| && m' == m + 1 && m' < |after| ensures LayerOk(after[m'], |after[m]|) {
      assert LayerOk(ls[m'], |ls[m]|);
      if m' == n {
        assert forall i | 0 <= i < |ls[n]| :: KeyOk(ls[n][i], |ls[n-1]|);
      } else {
        assert forall i | 0 <= i < |ls[m']| :: KeyOk(ls[m'][i], |ls[m]|);
      }
    }
  }

  /** It adds these words at this order, and nothing else. */
  lemma AddSpells(ls: seq<seq<Key>>, n: nat, h: nat, w: nat, m: nat, g: seq<int>)
    requires Ok(ls) && 1 <= n < |ls| && h < |ls[n-1]| && m < |ls|
    ensures Ok(ls[n := Added(ls[n], Key(h, w))])
    ensures Has(ls[n := Added(ls[n], Key(h, w))], m, g)
       <==> Has(ls, m, g) || (m == n && g == Spell(ls, n - 1, h) + [w])
  {
    hide Ok, Extends;
    AddKeeps(ls, n, h, w);
    var after := ls[n := Added(ls[n], Key(h, w))];
    if Has(ls, m, g) {
      HasExtends(ls, after, m, g);
    }
    SpellExtends(ls, after, n - 1, h);
    if m == n && g == Spell(ls, n - 1, h) + [w] {
      KeySpelled(after, n, h, w);
    }
    if Has(after, m, g) {
      var i: nat :| Spells(after, m, i, g);
      if i < |ls[m]| {
        SpellExtends(ls, after, m, i);
        assert Spells(ls, m, i, g);
      } else {
        assert m == n && after[n][i] == Key(h, w);
        SpellOf(after, n, i, h, w);
      }
    }
  }

  // ---------- suffixes ----------

  /** Dropping the first word of an n-gram leaves an n-gram. */
  ghost predicate Closed(ls: seq<seq<Key>>)
    requires Ok(ls)
  {
    forall n, g: seq<int> | 2 <= n < |ls| && |g| == n && Has(ls, n, g) :: SuffixHeld(ls, n, g)
  }

  ghost predicate SuffixHeld(ls: seq<seq<Key>>, n: nat, g: seq<int>)
    requires Ok(ls) && 1 <= n < |ls| && |g| == n
  {
    Has(ls, n - 1, g[1..])
  }

  /** n-gram j of the order below spells what n-gram i of order n does without its first word. */
  ghost predicate SuffixOf(ls: seq<seq<Key>>, n: nat, i: nat, j: nat)
    requires Ok(ls) && 1 <= n < |ls|
  {
    i < |ls[n]| && Spells(ls, n - 1, j, Spell(ls, n, i)[1..])
  }

  /** b is n-gram i's backoff: the n-gram without its first word, or Invalid if that is not there. */
  ghost predicate BackoffAt(ls: seq<seq<Key>>, n: nat, i: nat, b: int)
    requires Ok(ls) && 1 <= n < |ls| && i < |ls[n]|
  {
    if b == Invalid then !Has(ls, n - 1, Spell(ls, n, i)[1..])
    else 0 <= b && Spells(ls, n - 1, b, Spell(ls, n, i)[1..])
  }

  ghost predicate BackoffsOf(ls: seq<seq<Key>>, n: nat, b: seq<int>)
    requires Ok(ls) && 1 <= n < |ls|
  {
    |b| == |ls[n]| && forall i | 0 <= i < |ls[n]| :: BackoffAt(ls, n, i, b[i])
  }

  /** Unigrams back off to the empty n-gram. */
  lemma UnigramBackoffs(ls: seq<seq<Key>>, b: seq<int>)
    requires Ok(ls) && 1 < |ls| && |b| == |ls[1]| && forall i | 0 <= i < |b| :: b[i] == 0
    ensures BackoffsOf(ls, 1, b)
  {
    hide Ok;
    ZerothLayer(ls);
    forall i | 0 <= i < |ls[1]| ensures BackoffAt(ls, 1, i, b[i]) {
      assert Spell(ls, 1, i)[1..] == [];
      assert Spells(ls, 0, 0, []);
    }
  }

  /** The backoff is found under the history's backoff and the same word. */
  lemma BackoffFound(ls: seq<seq<Key>>, n: nat, i: nat, hb: int, b: int)
    requires Ok(ls) && 2 <= n < |ls| && i < |ls[n]|
    requires 0 <= ls[n][i].hist < |ls[n-1]| && BackoffAt(ls, n - 1, ls[n][i].hist, hb)
    requires if b == Invalid then Key(hb, ls[n][i].word) !in ls[n-1]
             else 0 <= b < |ls[n-1]| && ls[n-1][b] == Key(hb, ls[n][i].word)
    ensures BackoffAt(ls, n, i, b)
  {
    hide Ok;
    var h, w := ls[n][i].hist, ls[n][i].word;
    SpellOf(ls, n, i, h, w);
    var g, tail := Spell(ls, n, i), Spell(ls, n - 1, h)[1..];
    assert g[1..] == tail + [w] && g[1..][..n-2] == tail;
    if hb == Invalid {
      if b != Invalid {
        KeyFacts(ls, n - 1, b);
      }
      if Has(ls, n - 1, g[1..]) {
        PrefixHeld(ls, n - 1, g[1..]);
      }
    } else {
      KeySpelled(ls, n - 1, hb, w);
      if b != Invalid {
        SpellOf(ls, n - 1, b, hb, w);
      }
    }
  }

  /** In a closed trie every n-gram has its backoff. */
  lemma NeverInvalid(ls: seq<seq<Key>>, n: nat, b: seq<int>, i: nat)
    requires Ok(ls) && Closed(ls) && 1 <= n < |ls| && BackoffsOf(ls, n, b) && i < |ls[n]|
    ensures |b| == |ls[n]| && 0 <= b[i] < |ls[n-1]| && Spell(ls, n - 1, b[i]) == Spell(ls, n, i)[1..]
  {
    hide Ok;
    ZerothLayer(ls);
    assert BackoffAt(ls, n, i, b[i]);
    var g := Spell(ls, n, i);
    assert Spells(ls, n, i, g);
    if n == 1 {
      assert g[1..] == [];
      assert Spells(ls, 0, 0, []);
    } else {
      assert SuffixHeld(ls, n, g);
    }
  }

  // ---------- renumbering ----------

  /** The words under their new numbers. */
  ghost function Renamed(wordMap: seq<nat>, g: seq<int>): (r: seq<int>)
    ensures |r| == |g|
  {
    seq(|g|, k requires 0 <= k < |g| => if 0 <= g[k] < |wordMap| then wordMap[g[k]] else Invalid)
  }

  /** Key i of one layer is key to[i] of the other, under new numbers for its history and word. */
  ghost predicate CarriedKey(a: seq<Key>, b: seq<Key>, wordMap: seq<nat>, histMap: seq<nat>, to: seq<nat>, i: nat)
    requires i < |a| == |to|
  {
    && 0 <= a[i].hist < |histMap| && 0 <= a[i].word < |wordMap|
    && to[i] < |b| && b[to[i]] == Key(histMap[a[i].hist], wordMap[a[i].word])
  }

  ghost predicate CarriedLayer(a: seq<Key>, b: seq<Key>, wordMap: seq<nat>, histMap: seq<nat>, to: seq<nat>) {
    |to| == |a| && forall i | 0 <= i < |a| :: CarriedKey(a, b, wordMap, histMap, to, i)
  }

  /** Every n-gram of a below order n is one of b under new numbers. */
  ghost predicate Carried(a: seq<seq<Key>>, b: seq<seq<Key>>, wordMap: seq<nat>, ngramMap: seq<seq<nat>>, n: nat) {
    && n <= |a| && n <= |b| && n <= |ngramMap| && (n > 0 ==> ngramMap[0] == [0])
    && forall m, m' | 0 <= m < n && m' == m + 1 && m' < n :: CarriedLayer(a[m'], b[m'], wordMap, ngramMap[m], ngramMap[m'])
  }

  lemma CarriedFacts(a: seq<seq<Key>>, b: seq<seq<Key>>, wordMap: seq<nat>, ngramMap: seq<seq<nat>>, n: nat, m: nat, i: nat)
    requires Ok(a) && Ok(b) && Carried(a, b, wordMap, ngramMap, n) && 1 <= m < n && i < |a[m]|
    ensures |ngramMap[m]| == |a[m]| && CarriedKey(a[m], b[m], wordMap, ngramMap[m-1], ngramMap[m], i)
    ensures 0 <= a[m][i].hist < |a[m-1]|
  {
    assert CarriedLayer(a[m], b[m], wordMap, ngramMap[m-1], ngramMap[m]);
    KeyFacts(a, m, i);
  }

  /** It spells the same words under their new numbers. */
  lemma {:induction false} SpellCarried(a: seq<seq<Key>>, b: seq<seq<Key>>, wordMap: seq<nat>, ngramMap: seq<seq<nat>>, n: nat, m: nat, i: nat)
    requires Ok(a) && Ok(b) && Carried(a, b, wordMap, ngramMap, n) && m < n && i < |a[m]|
    ensures |ngramMap[m]| == |a[m]| && Spells(b, m, ngramMap[m][i], Renamed(wordMap, Spell(a, m, i)))
    decreases m
  {
    hide Ok, Carried;
    CarriedSizes(a, b, wordMap, ngramMap, n);
    if m == 0 {
      ZerothLayer(a);
      ZerothLayer(b);
      ZerothCarried(a, b, wordMap, ngramMap, n);
    } else {
      CarriedFacts(a, b, wordMap, ngramMap, n, m, i);
      var h, w := a[m][i].hist, a[m][i].word;
      SpellCarried(a, b, wordMap, ngramMap, n, m - 1, h);
      SpellOf(a, m, i, h, w);
      SpellOf(b, m, ngramMap[m][i], ngramMap[m-1][h], wordMap[w]);
      assert Renamed(wordMap, Spell(a, m, i)) == Renamed(wordMap, Spell(a, m - 1, h)) + [wordMap[w]];
    }
  }

  lemma ZerothCarried(a: seq<seq<Key>>, b: seq<seq<Key>>, wordMap: seq<nat>, ngramMap: seq<seq<nat>>, n: nat)
    requires Carried(a, b, wordMap, ngramMap, n) && n > 0
    ensures ngramMap[0] == [0]
  {
  }

  /** Words that are an n-gram with its suffix there, are so under their new numbers. */
  lemma SuffixCarried(a: seq<seq<Key>>, b: seq<seq<Key>>, wordMap: seq<nat>, ngramMap: seq<seq<nat>>, n: nat, m: nat, g: seq<int>)
    requires Ok(a) && Ok(b) && Closed(a) && Carried(a, b, wordMap, ngramMap, n) && 2 <= m < n && Has(a, m, g)
    ensures |Renamed(wordMap, g)| == m && SuffixHeld(b, m, Renamed(wordMap, g))
  {
    hide Ok, Carried;
    CarriedSizes(a, b, wordMap, ngramMap, n);
    var i: nat :| Spells(a, m, i, g);
    assert SuffixHeld(a, m, g);
    var j: nat :| Spells(a, m - 1, j, g[1..]);
    SpellCarried(a, b, wordMap, ngramMap, n, m - 1, j);
    assert Renamed(wordMap, g[1..]) == Renamed(wordMap, g)[1..];
  }

  lemma CarriedSizes(a: seq<seq<Key>>, b: seq<seq<Key>>, wordMap: seq<nat>, ngramMap: seq<seq<nat>>, n: nat)
    requires Carried(a, b, wordMap, ngramMap, n)
    ensures n <= |a| && n <= |b| && n <= |ngramMap|
  {
  }

  /** Every n-gram of order m of b was there before or was carried over. */
  ghost predicate FromEither(was: seq<seq<Key>>, b: seq<seq<Key>>, ngramMap: seq<seq<nat>>, m: nat)
    requires m < |was| && m < |b|
  {
    forall j | 0 <= j < |b[m]| :: From(|was[m]|, ngramMap, m, j)
  }

  ghost predicate From(size: nat, ngramMap: seq<seq<nat>>, m: nat, j: nat) {
    j < size || (m < |ngramMap| && j in ngramMap[m])
  }

  /** Adding a closed trie to a closed trie gives a closed trie. */
  lemma UnionClosed(was: seq<seq<Key>>, a: seq<seq<Key>>, b: seq<seq<Key>>, wordMap: seq<nat>, ngramMap: seq<seq<nat>>)
    requires Ok(was) && Ok(a) && Ok(b) && Closed(was) && Closed(a)
    requires Extends(was, b) && Carried(a, b, wordMap, ngramMap, |a|) && |ngramMap| == |a|
    requires forall m | 1 <= m < |b| :: FromEither(was, b, ngramMap, m)
    ensures Closed(b)
  {
    hide Ok, Carried, Extends;
    CarriedSizes(a, b, wordMap, ngramMap, |a|);
    ExtendsSizes(was, b);
    forall n, g: seq<int> | 2 <= n < |b| && |g| == n && Has(b, n, g) ensures SuffixHeld(b, n, g) {
      var j: nat :| Spells(b, n, j, g);
      assert FromEither(was, b, ngramMap, n);
      assert From(|was[n]|, ngramMap, n, j);
      if j < |was[n]| {
        SpellExtends(was, b, n, j);
        assert Spells(was, n, j, g);
        assert SuffixHeld(was, n, g);
        HasExtends(was, b, n - 1, g[1..]);
      } else {
        var i :| 0 <= i < |ngramMap[n]| && ngramMap[n][i] == j;
        CarriedCount(a, b, wordMap, ngramMap, n);
        SpellCarried(a, b, wordMap, ngramMap, |a|, n, i);
        assert Spells(a, n, i, Spell(a, n, i));
        SuffixCarried(a, b, wordMap, ngramMap, |a|, n, Spell(a, n, i));
      }
    }
  }

  lemma CarriedCount(a: seq<seq<Key>>, b: seq<seq<Key>>, wordMap: seq<nat>, ngramMap: seq<seq<nat>>, m: nat)
    requires Carried(a, b, wordMap, ngramMap, |a|) && 1 <= m < |a|
    ensures m < |ngramMap| && |ngramMap[m]| == |a[m]|
  {
    assert CarriedLayer(a[m], b[m], wordMap, ngramMap[m-1], ngramMap[m]);
  }

  lemma ExtendsSizes(a: seq<seq<Key>>, b: seq<seq<Key>>)
    requires Extends(a, b)
    ensures |a| == |b|
  {
  }

  /** Renumbering a closed trie gives a closed trie. */
  lemma RenumberedClosed(a: seq<seq<Key>>, b: seq<seq<Key>>, wordMap: seq<nat>, ngramMap: seq<seq<nat>>)
    requires Ok(a) && Ok(b) && Closed(a) && |a| == |b| == |ngramMap| && Carried(a, b, wordMap, ngramMap, |a|)
    requires forall m, j | 1 <= m < |b| && 0 <= j < |b[m]| :: j in ngramMap[m]
    ensures Closed(b)
  {
    hide Ok, Carried;
    forall n, g: seq<int> | 2 <= n < |b| && |g| == n && Has(b, n, g) ensures SuffixHeld(b, n, g) {
      var j: nat :| Spells(b, n, j, g);
      assert j in ngramMap[n];
      var i :| 0 <= i < |ngramMap[n]| && ngramMap[n][i] == j;
      CarriedCount(a, b, wordMap, ngramMap, n);
      SpellCarried(a, b, wordMap, ngramMap, |a|, n, i);
      assert Spells(a, n, i, Spell(a, n, i));
      SuffixCarried(a, b, wordMap, ngramMap, |a|, n, Spell(a, n, i));
    }
  }

  // ---------- as a trie of levels ----------

  function Level(layer: seq<Key>, b: seq<int>): Tries.Level
    requires |b| == |layer|
  {
    Tries.Level(seq(|layer|, i requires 0 <= i < |layer| => if layer[i].word < 0 then 0 else layer[i].word),
                seq(|layer|, i requires 0 <= i < |layer| => if layer[i].hist < 0 then 0 else layer[i].hist),
                seq(|layer|, i requires 0 <= i < |layer| => if b[i] < 0 then 0 else b[i]))
  }

  ghost predicate Linked(ls: seq<seq<Key>>, backoffs: seq<seq<int>>) {
    Ok(ls) && |backoffs| == |ls| && forall n | 1 <= n < |ls| :: BackoffsOf(ls, n, backoffs[n])
  }

  lemma LinkedFacts(ls: seq<seq<Key>>, backoffs: seq<seq<int>>, n: nat)
    requires Linked(ls, backoffs) && 1 <= n < |ls|
    ensures BackoffsOf(ls, n, backoffs[n]) && |backoffs[n]| == |ls[n]|
  {
  }

  function ToTrie(ls: seq<seq<Key>>, backoffs: seq<seq<int>>, vocab: nat): Tries.Trie
    requires Linked(ls, backoffs)
  {
    var levels := seq(|ls| - 1, n requires 0 <= n < |ls| - 1 => (LinkedFacts(ls, backoffs, n + 1); Level(ls[n+1], backoffs[n+1])));
    Tries.Trie(levels, vocab)
  }

  ghost predicate WordsKnown(ls: seq<seq<Key>>, vocab: nat) {
    && |ls| > 1
    && (forall n, i | 1 <= n < |ls| && 0 <= i < |ls[n]| :: ls[n][i].word < vocab)
    && forall w | 0 <= w < vocab :: Key(0, w) in ls[1]
  }

  lemma LevelAt(ls: seq<seq<Key>>, backoffs: seq<seq<int>>, vocab: nat, n: nat)
    requires Linked(ls, backoffs) && Closed(ls) && 1 <= n < |ls|
    ensures |ToTrie(ls, backoffs, vocab).levels| == |ls| - 1 && |backoffs[n]| == |ls[n]|
    ensures ToTrie(ls, backoffs, vocab).Size(n) == |ls[n]| && ToTrie(ls, backoffs, vocab).Size(n - 1) == |ls[n-1]|
    ensures var l := ToTrie(ls, backoffs, vocab).levels[n-1];
            && |l.words| == |l.hists| == |l.backoffs| == |ls[n]|
            && forall i | 0 <= i < |ls[n]| ::
                 ls[n][i] == Key(l.hists[i], l.words[i]) && backoffs[n][i] == l.backoffs[i]
  {
    hide Linked;
    LinkedSizes(ls, backoffs);
    LinkedFacts(ls, backoffs, n);
    ZerothLayer(ls);
    forall i | 0 <= i < |ls[n]| ensures 0 <= ls[n][i].hist && 0 <= ls[n][i].word && 0 <= backoffs[n][i] {
      KeyFacts(ls, n, i);
      NeverInvalid(ls, n, backoffs[n], i);
    }
    if n > 1 {
      LinkedFacts(ls, backoffs, n - 1);
    }
  }

  lemma LinkedSizes(ls: seq<seq<Key>>, backoffs: seq<seq<int>>)
    requires Linked(ls, backoffs)
    ensures Ok(ls) && |backoffs| == |ls|
  {
  }

  /** A closed trie with its backoffs is consistent. */
  lemma TrieValid(ls: seq<seq<Key>>, backoffs: seq<seq<int>>, vocab: nat)
    requires Linked(ls, backoffs) && Closed(ls) && WordsKnown(ls, vocab)
    ensures ToTrie(ls, backoffs, vocab).Valid()
  {
    hide Ok, Linked, Closed, ToTrie, WordsKnown;
    var t := ToTrie(ls, backoffs, vocab);
    KnownFacts(ls, vocab);
    LevelAt(ls, backoffs, vocab, 1);
    forall n | 1 <= n <= |t.levels| ensures t.LevelOk(n) {
      TrieLevel(ls, backoffs, vocab, n);
    }
    forall w | 0 <= w < t.vocab ensures t.HasUnigram(w) {
      TrieVocab(ls, backoffs, vocab);
      assert Key(0, w) in ls[1];
      var i :| 0 <= i < |ls[1]| && ls[1][i] == Key(0, w);
      assert t.Is(1, i, 0, w);
    }
    TrieVocab(ls, backoffs, vocab);
  }

  lemma TrieVocab(ls: seq<seq<Key>>, backoffs: seq<seq<int>>, vocab: nat)
    requires Linked(ls, backoffs)
    ensures ToTrie(ls, backoffs, vocab).vocab == vocab
  {
  }

  lemma KnownFacts(ls: seq<seq<Key>>, vocab: nat)
    requires WordsKnown(ls, vocab)
    ensures |ls| > 1
    ensures forall n, i | 1 <= n < |ls| && 0 <= i < |ls[n]| :: ls[n][i].word < vocab
    ensures forall w | 0 <= w < vocab :: Key(0, w) in ls[1]
  {
  }

  lemma TrieLevel(ls: seq<seq<Key>>, backoffs: seq<seq<int>>, vocab: nat, n: nat)
    requires Linked(ls, backoffs) && Closed(ls) && WordsKnown(ls, vocab) && 1 <= n < |ls|
    ensures |ToTrie(ls, backoffs, vocab).levels| == |ls| - 1
    ensures ToTrie(ls, backoffs, vocab).LevelOk(n)
  {
    hide Ok, Linked, Closed, ToTrie, WordsKnown;
    var t := ToTrie(ls, backoffs, vocab);
    LevelAt(ls, backoffs, vocab, n);
    LinkedSizes(ls, backoffs);
    LayerFacts(ls, n);
    forall i: nat, j: nat, h: nat, w: nat | t.Is(n, i, h, w) && t.Is(n, j, h, w) ensures i == j {
      assert ls[n][i] == ls[n][j];
    }
    forall i | 0 <= i < t.Size(n) ensures t.NgramOk(n, i) {
      TrieNgram(ls, backoffs, vocab, n, i);
    }
  }

  lemma TrieNgram(ls: seq<seq<Key>>, backoffs: seq<seq<int>>, vocab: nat, n: nat, i: nat)
    requires Linked(ls, backoffs) && Closed(ls) && WordsKnown(ls, vocab) && 1 <= n < |ls| && i < |ls[n]|
    ensures |ToTrie(ls, backoffs, vocab).levels| == |ls| - 1 && ToTrie(ls, backoffs, vocab).Shaped(n)
    ensures i < ToTrie(ls, backoffs, vocab).Size(n)
    ensures ToTrie(ls, backoffs, vocab).NgramOk(n, i)
  {
    hide Ok, Linked, Closed, ToTrie, WordsKnown;
    var t := ToTrie(ls, backoffs, vocab);
    LevelAt(ls, backoffs, vocab, n);
    LinkedSizes(ls, backoffs);
    LinkedFacts(ls, backoffs, n);
    TrieVocab(ls, backoffs, vocab);
    KnownFacts(ls, vocab);
    KeyFacts(ls, n, i);
    NeverInvalid(ls, n, backoffs[n], i);
    if n > 1 {
      var h, w, b := ls[n][i].hist, ls[n][i].word, backoffs[n][i];
      LevelAt(ls, backoffs, vocab, n - 1);
      LinkedFacts(ls, backoffs, n - 1);
      NeverInvalid(ls, n - 1, backoffs[n-1], h);
      SpellOf(ls, n, i, h, w);
      BackoffKey(ls, n, i, h, w, b, backoffs[n-1][h]);
    }
  }

  /** The backoff of an n-gram is the key of its history's backoff and its own word. */
  lemma BackoffKey(ls: seq<seq<Key>>, n: nat, i: nat, h: nat, w: int, b: nat, hb: nat)
    requires Ok(ls) && 2 <= n < |ls| && i < |ls[n]| && ls[n][i] == Key(h, w) && h < |ls[n-1]|
    requires b < |ls[n-1]| && Spell(ls, n - 1, b) == Spell(ls, n, i)[1..]
    requires hb < |ls[n-2]| && Spell(ls, n - 2, hb) == Spell(ls, n - 1, h)[1..]
    ensures ls[n-1][b] == Key(hb, w)
  {
    hide Ok;
    KeyFacts(ls, n - 1, b);
    var k := ls[n-1][b];
    SpellOf(ls, n, i, h, w);
    SpellOf(ls, n - 1, b, k.hist, k.word);
    var tail := Spell(ls, n - 2, hb);
    assert Spell(ls, n - 1, b) == tail + [w];
    assert Spell(ls, n - 1, b)[n-2] == w && Spell(ls, n - 1, b)[..n-2] == tail;
    assert Spell(ls, n - 1, b)[..n-2] == Spell(ls, n - 2, k.hist);
    SpellInjective(ls, n - 2, k.hist, hb);
  }
}
