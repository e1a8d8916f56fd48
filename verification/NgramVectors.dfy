/** The n-grams of one order, found by history and word through a probing index. */
module NgramVectors {
  import opened Probing
  import opened Sorting

  datatype Key = Key(hist: int, word: int)

  predicate Before(a: Key, b: Key) {
    if a.hist == b.hist then a.word < b.word else a.hist < b.hist
  }

  /** N-grams are grouped by their histories, in the order of these, and by their words within. */
  lemma BeforeExactly(a: Key, b: Key)
    ensures a.hist < b.hist ==> Before(a, b)
    ensures a.hist == b.hist && a.word < b.word ==> Before(a, b)
    ensures Before(a, b) ==> a.hist <= b.hist && (a.hist == b.hist ==> a.word < b.word)
  {
  }

  lemma BeforeOrders()
    ensures Order(Before)
  {
  }

  function Relabel(keys: seq<Key>, wordMap: seq<nat>, histMap: seq<nat>): (r: seq<Key>)
    requires forall i | 0 <= i < |keys| :: 0 <= keys[i].hist < |histMap| && 0 <= keys[i].word < |wordMap|
    ensures |r| == |keys|
  {
    seq(|keys|, i requires 0 <= i < |keys| => Key(histMap[keys[i].hist], wordMap[keys[i].word]))
  }

  /** The keys after adding one: at the end, unless it is there. */
  function Added(keys: seq<Key>, k: Key): seq<Key> {
    if k in keys then keys else keys + [k]
  }

  class NgramVector {
    const hash: (int, int) -> nat
    var length: nat
    var words: seq<nat>
    var hists: seq<nat>
    var indices: seq<int>

    ghost predicate Shaped()
      reads this
    {
      length <= |words| == |hists|
    }

    /** The n-grams, by index. */
    function Keys(): (s: seq<Key>)
      requires Shaped()
      reads this
      ensures |s| == length && forall i | 0 <= i < length :: s[i] == Key(hists[i], words[i])
    {
      seq(length, i requires 0 <= i < length reads this requires Shaped() => Key(hists[i], words[i]))
    }

    ghost predicate Valid()
      reads this
    {
      && Shaped() && |words| < |indices|
      && Distinct(Keys())
      && Indexed(indices, Hashes(hash, Keys()))
    }

    /** Probing ends and never finds a wrong n-gram, though after an unfinished sort it may miss one. */
    ghost predicate Usable()
      reads this
    {
      && Shaped() && |words| < |indices| && Distinct(Keys())
      && exists hashes: seq<nat> :: |hashes| == length && Indexed(indices, hashes)
    }

    /** Looking for n-gram j by its name comes to it. */
    ghost predicate Finds(j: nat)
      requires Shaped()
      reads this
    {
      |indices| > 0 && j < length && Reached(indices, hash(hists[j], words[j]), j)
    }

    /** Looking for a key comes to no n-gram. */
    ghost predicate Misses(k: Key)
      requires Shaped()
      reads this
    {
      forall j | 0 <= j < length && Keys()[j] == k :: !Finds(j)
    }

    lemma ValidFinds()
      requires Valid()
      ensures forall j | 0 <= j < length :: Finds(j)
    {
      forall j | 0 <= j < length ensures Finds(j) {
        AllReached(indices, Hashes(hash, Keys()), j);
      }
    }

    /** A table is right if its n-grams are all found. */
    lemma AllFound()
      requires Usable()
      ensures Valid() <==> forall j | 0 <= j < length :: Finds(j)
    {
      hide Reached;
      var hashes: seq<nat> :| |hashes| == length && Indexed(indices, hashes);
      IndexedAnyway(indices, hashes, Hashes(hash, Keys()));
      assert forall i | 0 <= i < length :: Finds(i) <==> Reached(indices, Hashes(hash, Keys())[i], i);
    }

    lemma ValidUsable()
      requires Valid()
      ensures Usable()
    {
      assert Indexed(indices, Hashes(hash, Keys()));
    }

    constructor (hash: (int, int) -> nat)
      ensures Valid() && Keys() == [] && this.hash == hash
    {
      this.hash := hash;
      length, words, hists := 0, [], [];
      new;
      Reindex(1);
    }

    /** The slot that holds the n-gram, or the free slot where it would go. */
    method FindIndex(hist: int, word: int) returns (pos: nat, ghost skip: nat)
      requires Usable()
      ensures pos < |indices| && pos == Step(hash(hist, word), skip, |indices|)
      ensures ReachedAt(indices, hash(hist, word), indices[pos], skip)
      ensures if indices[pos] == Invalid then Misses(Key(hist, word))
              else 0 <= indices[pos] < length && Keys()[indices[pos]] == Key(hist, word) && Finds(indices[pos])
    {
      hide PowerOfTwo, Step, Triangle, Indexed, Distinct, Finds, Misses, Reached, Passed, MissedBefore, Missed;
      ghost var hashes: seq<nat> :| |hashes| == length && Indexed(indices, hashes);
      ghost var keys, k := Keys(), Key(hist, word);
      IndexedSize(indices, hashes);
      var m, h, t := |indices|, hash(hist, word), 0;
      pos := h % m;
      NoneMissed(indices, keys, k, h);
      SlotFacts(indices, hashes, pos);
      while indices[pos] != Invalid && !(words[indices[pos]] == word && hists[indices[pos]] == hist)
        invariant pos < m && pos == Step(h, t, m) && MissedBefore(indices, keys, k, h, t)
        invariant indices[pos] == Invalid || 0 <= indices[pos] < length
        decreases m - t
      {
        IsMissed(indices, keys, k, pos);
        OneMissed(indices, hashes, keys, k, h, t);
        t := t + 1;
        pos := (pos + t) % m;
        SlotFacts(indices, hashes, pos);
      }
      skip := t;
      BeforePassed(indices, keys, k, h, t);
      if indices[pos] == Invalid {
        MissesAll(k, t);
      } else {
        FoundHere(indices[pos], t);
      }
    }

    lemma MissesAll(k: Key, t: nat)
      requires Shaped() && |indices| > 0 && ReachedAt(indices, hash(k.hist, k.word), Invalid, t)
      requires MissedBefore(indices, Keys(), k, hash(k.hist, k.word), t)
      ensures Misses(k)
    {
      hide Reached, ReachedAt, Step;
      forall j | 0 <= j < length && Keys()[j] == k ensures !Finds(j) {
        MissedNotReached(indices, hash(k.hist, k.word), Keys(), k, t, j);
      }
    }

    lemma FoundHere(j: nat, t: nat)
      requires Shaped() && |indices| > 0 && j < length && ReachedAt(indices, hash(hists[j], words[j]), j, t)
      ensures Finds(j)
    {
      hide ReachedAt;
    }

    /** The n-gram's index, or Invalid if the n-gram is not there or its name does not lead to it, which in a valid
        table never happens. */
    method Find(hist: int, word: int) returns (index: int)
      requires Usable()
      ensures if index == Invalid then Misses(Key(hist, word))
              else 0 <= index < length && Keys()[index] == Key(hist, word) && Finds(index)
      ensures Valid() ==> (index == Invalid <==> Key(hist, word) !in Keys())
    {
      hide Finds;
      var pos, _ := FindIndex(hist, word);
      index := indices[pos];
      if Valid() {
        ValidFinds();
      }
    }

    method Add(hist: nat, word: nat) returns (index: nat, isNew: bool)
      requires Valid()
      modifies this
      ensures Valid() && Keys() == Added(old(Keys()), Key(hist, word))
      ensures isNew <==> Key(hist, word) !in old(Keys())
      ensures index < length && Keys()[index] == Key(hist, word)
    {
      hide Indexed, PowerOfTwo, Step, Usable, Finds, ReachedAt;
      ValidUsable();
      ValidFinds();
      var pos, skip := FindIndex(hist, word);
      isNew := indices[pos] == Invalid;
      if isNew {
        if length >= |words| {
          Reserve(if 2 * |words| > 65536 then 2 * |words| else 65536);
          ValidUsable();
          ValidFinds();
          pos, skip := FindIndex(hist, word);
        }
        assert length < |words| < |indices|;
        PlaceKeeps(indices, Hashes(hash, Keys()), hash(hist, word), skip);
        ghost var keys := Keys();
        indices := indices[pos := length];
        words := words[length := word];
        hists := hists[length := hist];
        length := length + 1;
        assert Keys() == keys + [Key(hist, word)];
        assert Hashes(hash, Keys()) == Hashes(hash, keys) + [hash(hist, word)];
      }
      index := indices[pos];
    }

    method Reserve(capacity: nat)
      requires Valid() && length <= capacity
      modifies this
      ensures Valid() && Keys() == old(Keys())
      ensures |words| == capacity
    {
      if capacity != |words| {
        Reindex(NextPowerOfTwo(capacity + capacity / 4));
        ghost var keys := Keys();
        words := Resize(words, capacity);
        hists := Resize(hists, capacity);
        assert Keys() == keys;
      }
    }

    /** Rebuilds the index with the given number of slots. */
    method Reindex(indexSize: nat)
      requires Shaped() && Distinct(Keys()) && PowerOfTwo(indexSize) && length < indexSize
      modifies this`indices
      ensures |indices| == indexSize && Indexed(indices, Hashes(hash, Keys()))
    {
      hide PowerOfTwo, Step, Indexed, Triangle;
      indices := seq(indexSize, _ => Invalid);
      EmptyIndexed(indexSize);
      ghost var hashes := Hashes(hash, Keys());
      assert hashes[..0] == [];
      for i := 0 to length
        invariant |indices| == indexSize && Keys() == old(Keys())
        invariant Indexed(indices, hashes[..i])
      {
        var h := hash(hists[i], words[i]);
        var pos, t := ProbeFree(indices, hashes[..i], h);
        PlaceKeeps(indices, hashes[..i], h, t);
        indices := indices[pos := i];
        assert hashes[..i+1] == hashes[..i] + [h];
      }
      assert hashes[..length] == hashes;
    }

    /** Renames words and histories, and sorts if some neighbour steps up. On true the table is ordered and
        indexed again, and ngramMap says where each n-gram went. On false the n-grams stay where they were under
        their new names: two or more of them are then in descending order, and the index is the one made for the old
        names. It finds those that are safely named; whether it finds another depends on the hash function
        (FoundAfterRenaming). */
    method Sort(vocabMap: seq<nat>, boNgramMap: seq<nat>) returns (sorted: bool, ngramMap: seq<nat>)
      requires Valid() && length > 0
      requires forall i | 0 <= i < length :: hists[i] < |boNgramMap| && words[i] < |vocabMap|
      requires Distinct(Relabel(Keys(), vocabMap, boNgramMap))
      modifies this
      ensures Shaped() && length == old(length) == |ngramMap| && Below(ngramMap, length) && Distinct(ngramMap)
      ensures forall y :: 0 <= y < length ==> y in ngramMap
      ensures Through(Keys(), ngramMap) == old(Relabel(Keys(), vocabMap, boNgramMap))
      ensures sorted <==> StepsUp(old(Relabel(Keys(), vocabMap, boNgramMap)), Before)
      ensures Ascends(Keys(), Before) <==> sorted || length == 1
      ensures Usable() && Distinct(Keys()) && (sorted ==> Valid())
      ensures !sorted ==> ngramMap == Range(length) && indices == old(indices)
      ensures !sorted ==> Keys() == old(Relabel(Keys(), vocabMap, boNgramMap))
      ensures !sorted ==> (Valid() <==> forall i | 0 <= i < length :: Finds(i))
      ensures !sorted ==> forall i | 0 <= i < length && SafelyNamed(old(indices), old(Keys()), Keys(), i) :: Finds(i)
    {
      hide Indexed, Reached, StepsUp, Ascends, Order, SafelyNamed;
      IndexedSize(indices, Hashes(hash, Keys()));
      ghost var renamed := Relabel(Keys(), vocabMap, boNgramMap);
      Rename(vocabMap, boNgramMap);
      assert Keys() == renamed;
      BeforeOrders();
      var sortIndices;
      sorted, sortIndices := SortIndices(Keys(), Before, Range(length));
      assert Through(Keys(), Range(length)) == Keys();
      if !sorted {
        SortedAnyway(Keys(), Before);
        NotRebuilt(indices, hash, old(Keys()), Keys());
        assert forall i | 0 <= i < length :: Finds(i) <==> Reached(indices, HashOf(hash, Keys()[i]), i);
        ngramMap := Range(length);
        return;
      }
      Apply(sortIndices);
      ngramMap := Invert(sortIndices);
      assert Through(Keys(), ngramMap) == renamed;
      ghost var keys := Keys();
      AscendingDistinct(keys);
      Reindex(|indices|);
      assert Keys() == keys;
      ValidUsable();
    }

    method Rename(vocabMap: seq<nat>, boNgramMap: seq<nat>)
      requires Shaped()
      requires forall i | 0 <= i < length :: hists[i] < |boNgramMap| && words[i] < |vocabMap|
      modifies this`words, this`hists
      ensures Shaped() && |words| == old(|words|)
      ensures Keys() == old(Relabel(Keys(), vocabMap, boNgramMap))
    {
      for i := 0 to length
        invariant |words| == |hists| == old(|words|)
        invariant forall k | 0 <= k < i :: words[k] == vocabMap[old(words[k])] && hists[k] == boNgramMap[old(hists[k])]
        invariant forall k | i <= k < |words| :: words[k] == old(words[k]) && hists[k] == old(hists[k])
      {
        words := words[i := vocabMap[words[i]]];
        hists := hists[i := boNgramMap[hists[i]]];
      }
      assert Keys() == old(Relabel(Keys(), vocabMap, boNgramMap));
    }

    /** Puts the n-grams in the given order. */
    method Apply(sortIndices: seq<nat>)
      requires Shaped() && |sortIndices| == length && Below(sortIndices, length)
      modifies this`words, this`hists
      ensures Shaped() && |words| == old(|words|)
      ensures Keys() == Through(old(Keys()), sortIndices)
    {
      var newWords, newHists := Resize([], |words|), Resize([], |hists|);
      for i := 0 to length
        invariant |newWords| == |newHists| == |words|
        invariant forall k | 0 <= k < i :: newWords[k] == words[sortIndices[k]] && newHists[k] == hists[sortIndices[k]]
      {
        newWords := newWords[i := words[sortIndices[i]]];
        newHists := newHists[i := hists[sortIndices[i]]];
      }
      words, hists := newWords, newHists;
      assert Keys() == Through(old(Keys()), sortIndices);
    }
  }

  ghost function Hashes(hash: (int, int) -> nat, keys: seq<Key>): (s: seq<nat>)
    ensures |s| == |keys|
  {
    seq(|keys|, i requires 0 <= i < |keys| => hash(keys[i].hist, keys[i].word))
  }

  function Resize(s: seq<nat>, n: nat): (r: seq<nat>)
    ensures |r| == n && forall i | 0 <= i < n && i < |s| :: r[i] == s[i]
  {
    seq(n, i requires 0 <= i < n => if i < |s| then s[i] else 0)
  }

  /** The slot is taken, by another key. */
  ghost predicate Missed(slots: seq<int>, keys: seq<Key>, k: Key, p: nat)
    requires p < |slots|
  {
    0 <= slots[p] < |keys| && keys[slots[p]] != k
  }

  /** The first t slots were passed, and none holds the key. */
  ghost predicate MissedBefore(slots: seq<int>, keys: seq<Key>, k: Key, h: nat, t: nat)
    requires |slots| > 0
  {
    Passed(slots, h, t) && forall s | 0 <= s < t :: Missed(slots, keys, k, Step(h, s, |slots|))
  }

  lemma NoneMissed(slots: seq<int>, keys: seq<Key>, k: Key, h: nat)
    requires |slots| > 0
    ensures MissedBefore(slots, keys, k, h, 0) && h % |slots| == Step(h, 0, |slots|)
  {
    FirstStep(h, |slots|);
  }

  lemma OneMissed(slots: seq<int>, hashes: seq<nat>, keys: seq<Key>, k: Key, h: nat, t: nat)
    requires Indexed(slots, hashes) && |slots| > 0 && MissedBefore(slots, keys, k, h, t)
    requires Missed(slots, keys, k, Step(h, t, |slots|))
    ensures MissedBefore(slots, keys, k, h, t + 1) && t < |slots|
    ensures Step(h, t + 1, |slots|) == (Step(h, t, |slots|) + t + 1) % |slots|
  {
    hide Indexed, Step;
    StepNext(h, t, |slots|);
    ProbingEnds(slots, hashes, h, t);
  }

  lemma BeforePassed(slots: seq<int>, keys: seq<Key>, k: Key, h: nat, t: nat)
    requires |slots| > 0 && MissedBefore(slots, keys, k, h, t)
    ensures Passed(slots, h, t)
  {
  }

  lemma IsMissed(slots: seq<int>, keys: seq<Key>, k: Key, p: nat)
    requires p < |slots| && 0 <= slots[p] < |keys| && keys[slots[p]] != k
    ensures Missed(slots, keys, k, p)
  {
  }

  /** An entry whose key was missed up to a free slot is not reached. */
  lemma MissedNotReached(slots: seq<int>, h: nat, keys: seq<Key>, k: Key, t: nat, j: nat)
    requires |slots| > 0 && ReachedAt(slots, h, Invalid, t) && j < |keys| && keys[j] == k
    requires forall s | 0 <= s < t :: Missed(slots, keys, k, Step(h, s, |slots|))
    ensures !Reached(slots, h, j)
  {
    hide PowerOfTwo, Step;
    forall s: nat ensures !ReachedAt(slots, h, j, s) {
      if s < t {
        assert Missed(slots, keys, k, Step(h, s, |slots|));
      }
    }
  }

  lemma AscendingDistinct(keys: seq<Key>)
    requires Ascends(keys, Before)
    ensures Distinct(keys)
  {
  }

  /** Probing for each hash comes to its entry. */
  ghost predicate StillFound(slots: seq<int>, hashes: seq<nat>) {
    |slots| > 0 && forall i | 0 <= i < |hashes| :: Reached(slots, hashes[i], i)
  }

  lemma IndexedAnyway(slots: seq<int>, before: seq<nat>, after: seq<nat>)
    requires Indexed(slots, before) && |before| == |after|
    ensures Indexed(slots, after) <==> StillFound(slots, after)
  {
  }

  /** From every slot from which probing comes to entry j it also comes to entry i. */
  ghost predicate Stands(slots: seq<int>, i: nat, j: nat) {
    |slots| > 0 && forall h: nat | Reached(slots, h, j) :: Reached(slots, h, i)
  }

  /** The name that n-gram i has got was the name of an n-gram that stands before it wherever probing begins. An
      n-gram that keeps its name is one. */
  ghost predicate SafelyNamed(slots: seq<int>, keys: seq<Key>, renamed: seq<Key>, i: nat)
    requires i < |renamed|
  {
    exists j: nat :: j < |keys| && renamed[i] == keys[j] && Stands(slots, i, j)
  }

  ghost predicate Fits(slots: seq<int>, hash: (int, int) -> nat, keys: seq<Key>) {
    Indexed(slots, Hashes(hash, keys))
  }

  ghost function HashOf(f: (int, int) -> nat, k: Key): nat {
    f(k.hist, k.word)
  }

  lemma FitsSize(slots: seq<int>, hash: (int, int) -> nat, keys: seq<Key>)
    requires Fits(slots, hash, keys)
    ensures |keys| < |slots|
  {
  }

  /** Exactly which n-gram is still found after a renaming under which the index is not built again: whatever hash
      function the index was built with, its new name leads to it if and only if it is safely named. */
  lemma FoundAfterRenaming(slots: seq<int>, keys: seq<Key>, renamed: seq<Key>, hash: (int, int) -> nat, i: nat)
    requires Distinct(keys) && |renamed| == |keys| && Fits(slots, hash, keys) && i < |keys|
    ensures |slots| > 0
    ensures (forall f: (int, int) -> nat | Fits(slots, f, keys) :: Reached(slots, HashOf(f, renamed[i]), i))
       <==> SafelyNamed(slots, keys, renamed, i)
  {
    hide Indexed, Reached, Stands, SafelyNamed;
    IndexedSize(slots, Hashes(hash, keys));
    if SafelyNamed(slots, keys, renamed, i) {
      forall f: (int, int) -> nat | Fits(slots, f, keys) ensures Reached(slots, HashOf(f, renamed[i]), i) {
        SafeRenaming(slots, keys, renamed, f, i);
      }
    } else {
      var f := UnsafeRenaming(slots, keys, renamed, hash, i);
    }
  }

  /** Exactly which renamings leave such an index right: whatever hash function it was built with, it finds the renamed
      n-grams if and only if all of them are safely named. */
  lemma RightAfterRenaming(slots: seq<int>, keys: seq<Key>, renamed: seq<Key>, hash: (int, int) -> nat)
    requires Distinct(keys) && |renamed| == |keys| && Fits(slots, hash, keys)
    ensures (forall f: (int, int) -> nat | Fits(slots, f, keys) :: Fits(slots, f, renamed))
       <==> forall i | 0 <= i < |keys| :: SafelyNamed(slots, keys, renamed, i)
  {
    hide Indexed, Reached, Stands, SafelyNamed;
    IndexedSize(slots, Hashes(hash, keys));
    if forall i | 0 <= i < |keys| :: SafelyNamed(slots, keys, renamed, i) {
      forall f: (int, int) -> nat | Fits(slots, f, keys) ensures Fits(slots, f, renamed) {
        forall i | 0 <= i < |renamed| ensures Reached(slots, Hashes(f, renamed)[i], i) {
          SafeRenaming(slots, keys, renamed, f, i);
        }
        IndexedAnyway(slots, Hashes(f, keys), Hashes(f, renamed));
      }
    }
    if i :| 0 <= i < |keys| && !SafelyNamed(slots, keys, renamed, i) {
      var f := UnsafeRenaming(slots, keys, renamed, hash, i);
      if Fits(slots, f, renamed) {
        AllReached(slots, Hashes(f, renamed), i);
      }
    }
  }

  lemma SafeRenaming(slots: seq<int>, keys: seq<Key>, renamed: seq<Key>, f: (int, int) -> nat, i: nat)
    requires |renamed| == |keys| && Fits(slots, f, keys) && i < |renamed| && SafelyNamed(slots, keys, renamed, i)
    ensures |slots| > 0 && Reached(slots, HashOf(f, renamed[i]), i)
  {
    hide Indexed, Reached;
    IndexedSize(slots, Hashes(f, keys));
    var j: nat :| j < |keys| && renamed[i] == keys[j] && Stands(slots, i, j);
    AllReached(slots, Hashes(f, keys), j);
  }

  /** An n-gram that keeps its name is safely named. */
  lemma KeptName(slots: seq<int>, keys: seq<Key>, renamed: seq<Key>, i: nat)
    requires |slots| > 0 && i < |keys| == |renamed| && renamed[i] == keys[i]
    ensures SafelyNamed(slots, keys, renamed, i)
  {
    assert Stands(slots, i, i);
  }

  /** What an index made for the old names is worth for the new ones. */
  lemma NotRebuilt(slots: seq<int>, hash: (int, int) -> nat, keys: seq<Key>, renamed: seq<Key>)
    requires Fits(slots, hash, keys) && |renamed| == |keys|
    ensures |slots| > 0
    ensures Fits(slots, hash, renamed) <==> forall i | 0 <= i < |renamed| :: Reached(slots, HashOf(hash, renamed[i]), i)
    ensures forall i | 0 <= i < |renamed| && SafelyNamed(slots, keys, renamed, i) :: Reached(slots, HashOf(hash, renamed[i]), i)
  {
    hide Indexed, Reached, SafelyNamed;
    IndexedSize(slots, Hashes(hash, keys));
    IndexedAnyway(slots, Hashes(hash, keys), Hashes(hash, renamed));
    assert forall i | 0 <= i < |renamed| :: Hashes(hash, renamed)[i] == HashOf(hash, renamed[i]);
    forall i | 0 <= i < |renamed| && SafelyNamed(slots, keys, renamed, i) ensures Reached(slots, HashOf(hash, renamed[i]), i) {
      SafeRenaming(slots, keys, renamed, hash, i);
    }
  }

  function Override(hash: (int, int) -> nat, k: Key, v: nat): (int, int) -> nat {
    (h, w) => if Key(h, w) == k then v else hash(h, w)
  }

  lemma Rehomed(slots: seq<int>, hashes: seq<nat>, j: nat, home: nat)
    requires Indexed(slots, hashes) && j < |hashes| && Reached(slots, home, j)
    ensures Indexed(slots, hashes[j := home])
  {
    hide Reached;
  }

  /** For an n-gram that is not safely named there is a hash function that fitted and does not lead to it. */
  lemma UnsafeRenaming(slots: seq<int>, keys: seq<Key>, renamed: seq<Key>, hash: (int, int) -> nat, i: nat)
    returns (f: (int, int) -> nat)
    requires Distinct(keys) && |renamed| == |keys| && Fits(slots, hash, keys)
    requires i < |keys| && !SafelyNamed(slots, keys, renamed, i)
    ensures Fits(slots, f, keys) && |slots| > 0 && !Reached(slots, HashOf(f, renamed[i]), i)
  {
    hide Indexed, Reached;
    IndexedSize(slots, Hashes(hash, keys));
    var k := renamed[i];
    var home: nat;
    if k in keys {
      var j :| 0 <= j < |keys| && keys[j] == k;
      home :| Reached(slots, home, j) && !Reached(slots, home, i);
      f := Override(hash, k, home);
      Rehomed(slots, Hashes(hash, keys), j, home);
      assert Hashes(f, keys) == Hashes(hash, keys)[j := home];
    } else {
      home := FreeSlot(slots, Hashes(hash, keys));
      FreeReachesNone(slots, home, i);
      f := Override(hash, k, home);
      assert Hashes(f, keys) == Hashes(hash, keys);
    }
  }

  lemma FreeReachesNone(slots: seq<int>, home: nat, i: nat)
    requires home < |slots| && slots[home] == Invalid
    ensures !Reached(slots, home, i)
  {
    hide Triangle, Step;
    FirstStep(home, |slots|);
    assert Step(home, 0, |slots|) == home;
    forall t: nat ensures !ReachedAt(slots, home, i, t) {
    }
  }

  lemma AllReached(slots: seq<int>, hashes: seq<nat>, i: nat)
    requires Indexed(slots, hashes) && i < |hashes|
    ensures Reached(slots, hashes[i], i)
  {
  }

  lemma Descending(keys: seq<Key>)
    requires |keys| > 1 && forall i, j | 0 <= i < j < |keys| :: Before(keys[j], keys[i])
    ensures !StepsUp(keys, Before) && !Ascends(keys, Before)
  {
    assert Before(keys[1], keys[0]);
  }

  /** Two n-grams renamed into descending order by a sorted vocabulary: nothing is sorted, and a lookup misses the
      first of them. */
  lemma RenamedAndLost(slots: seq<int>, keys: seq<Key>, vocabMap: seq<nat>, hash: (int, int) -> nat)
    requires slots == [Invalid, 0, 1, Invalid] && keys == [Key(0, 1), Key(0, 2)] && vocabMap == [0, 3, 1, 2]
    requires forall h, w: nat :: hash(h, w) == w
    ensures Fits(slots, hash, keys)
    ensures !StepsUp(Relabel(keys, vocabMap, [0]), Before) && !Ascends(Relabel(keys, vocabMap, [0]), Before)
    ensures ReachedAt(slots, hash(0, 3), Invalid, 0) && !Fits(slots, hash, Relabel(keys, vocabMap, [0]))
  {
    hide Indexed, StepsUp, Ascends, Reached, ReachedAt;
    var renamed := Relabel(keys, vocabMap, [0]);
    assert Hashes(hash, keys) == [1, 2];
    assert renamed == [Key(0, 3), Key(0, 1)];
    assert Hashes(hash, renamed) == [3, 1];
    Descending(renamed);
    SmallIndex();
    FreeReachesNone(slots, 3, 0);
    if Indexed(slots, [3, 1]) {
      AllReached(slots, [3, 1], 0);
    }
  }

  /** Two entries in their home slots, and a free slot. */
  lemma SmallIndex()
    ensures Indexed([Invalid, 0, 1, Invalid], [1, 2])
    ensures ReachedAt([Invalid, 0, 1, Invalid], 3, Invalid, 0)
  {
    hide Triangle, Step;
    var slots := [Invalid, 0, 1, Invalid];
    FirstStep(1, 4);
    FirstStep(2, 4);
    FirstStep(3, 4);
    assert PowerOfTwo(4) by {
      assert PowerOfTwo(2);
    }
    assert ReachedAt(slots, 1, 0, 0);
    assert ReachedAt(slots, 2, 1, 0);
  }

  // ---------- a renaming that is not the identity, and safe ----------

  /** The first steps in a table of four slots. */
  lemma FourSteps(h: nat)
    ensures Step(h, 0, 4) == h % 4 && Step(h, 1, 4) == (h + 1) % 4 && Step(h, 2, 4) == (h + 3) % 4
  {
  }

  /** In this table the first two entries are met from the same slots. */
  lemma MetTogether(h: nat, i: nat, j: nat)
    requires i < 2 && j < 2 && Reached([0, 1, 2, Invalid], h, j)
    ensures Reached([0, 1, 2, Invalid], h, i)
  {
    hide Triangle, Step;
    var slots := [0, 1, 2, Invalid];
    FourSteps(h);
    var first, second := slots[Step(h, 0, 4)], slots[Step(h, 1, 4)];
    assert h % 4 == 3 ==> first == Invalid;
    assert h % 4 == 2 ==> first == 2 && second == Invalid;
    var t: nat :| ReachedAt(slots, h, j, t);
    assert h % 4 < 2;
    assert h % 4 == 0 ==> ReachedAt(slots, h, 0, 0) && ReachedAt(slots, h, 1, 1);
    assert h % 4 == 1 ==> ReachedAt(slots, h, 1, 0) && ReachedAt(slots, h, 0, 2);
  }

  /** Three n-grams of which a sorted vocabulary exchanges two, into descending order. They are renamed and not sorted,
      and yet the old index finds them, whatever the hash function it was built with: not being renamed is more than
      is needed. */
  lemma RenamedAndFound(slots: seq<int>, keys: seq<Key>, vocabMap: seq<nat>, f: (int, int) -> nat)
    requires slots == [0, 1, 2, Invalid] && keys == [Key(0, 1), Key(0, 2), Key(0, 0)] && vocabMap == [0, 2, 1]
    requires Fits(slots, f, keys)
    ensures Relabel(keys, vocabMap, [0]) != keys && !StepsUp(Relabel(keys, vocabMap, [0]), Before)
    ensures Fits(slots, f, Relabel(keys, vocabMap, [0]))
  {
    hide Indexed, Reached, StepsUp;
    var renamed := Relabel(keys, vocabMap, [0]);
    assert renamed == [Key(0, 2), Key(0, 1), Key(0, 0)];
    Descending(renamed);
    forall i: nat, j: nat, h: nat | i < 2 && j < 2 && Reached(slots, h, j) ensures Reached(slots, h, i) {
      MetTogether(h, i, j);
    }
    assert Stands(slots, 0, 1) && Stands(slots, 1, 0) && Stands(slots, 2, 2);
    assert renamed[0] == keys[1] && renamed[1] == keys[0] && renamed[2] == keys[2];
    assert SafelyNamed(slots, keys, renamed, 0) && SafelyNamed(slots, keys, renamed, 1) && SafelyNamed(slots, keys, renamed, 2);
    RightAfterRenaming(slots, keys, renamed, f);
  }
}
