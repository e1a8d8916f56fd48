/** The vocabulary: words kept one after another in a single buffer, numbered, and found through a probing index. */
module Vocabs {
  import opened Probing
  import opened Sorting

  datatype OffsetLen = OffsetLen(offset: nat, len: nat)

  const Terminator: char := '\0'
  const EndOfSentence: nat := 0

  /** Whether a comes before b, character by character. */
  predicate Before(a: string, b: string) {
    if b == [] then false
    else if a == [] then true
    else if a[0] == b[0] then Before(a[1..], b[1..])
    else a[0] < b[0]
  }

  /** a and b are alike up to place k, where a ends and b does not, or a has the smaller character. */
  ghost predicate DiffersAt(a: string, b: string, k: nat) {
    && k <= |a| && k < |b| && a[..k] == b[..k]
    && (k == |a| || a[k] < b[k])
  }

  /** The first place at which the words differ decides, and a word comes before those it begins. */
  lemma {:induction false} BeforeExactly(a: string, b: string)
    ensures Before(a, b) <==> exists k: nat :: DiffersAt(a, b, k)
  {
    if a != [] && b != [] && a[0] == b[0] {
      BeforeExactly(a[1..], b[1..]);
      if k: nat :| DiffersAt(a[1..], b[1..], k) {
        assert a[..k + 1] == [a[0]] + a[1..][..k] && b[..k + 1] == [b[0]] + b[1..][..k];
        assert DiffersAt(a, b, k + 1);
      }
      if k: nat :| DiffersAt(a, b, k) {
        assert k > 0;
        assert a[1..][..k - 1] == a[..k][1..] && b[1..][..k - 1] == b[..k][1..];
        assert DiffersAt(a[1..], b[1..], k - 1);
      }
    } else if b != [] && (a == [] || a[0] < b[0]) {
      assert DiffersAt(a, b, 0);
    } else {
      forall k: nat ensures !DiffersAt(a, b, k) {
        if k > 0 && k <= |a| && k < |b| {
          assert a[..k][0] == a[0] && b[..k][0] == b[0];
        }
      }
    }
  }

  lemma {:induction false} BeforeAsymmetric(a: string, b: string)
    requires Before(a, b)
    ensures !Before(b, a)
  {
    if a != [] && a[0] == b[0] {
      BeforeAsymmetric(a[1..], b[1..]);
    }
  }

  lemma {:induction false} BeforeTransitive(a: string, b: string, c: string)
    requires Before(a, b) && Before(b, c)
    ensures Before(a, c)
  {
    if a != [] && a[0] == b[0] == c[0] {
      BeforeTransitive(a[1..], b[1..], c[1..]);
    }
  }

  lemma {:induction false} BeforeTotal(a: string, b: string)
    requires a != b
    ensures Before(a, b) || Before(b, a)
  {
    if a != [] && b != [] && a[0] == b[0] {
      assert a == [a[0]] + a[1..] && b == [b[0]] + b[1..];
      BeforeTotal(a[1..], b[1..]);
    }
  }

  lemma BeforeOrders()
    ensures Order(Before)
  {
    forall a, b | Before(a, b) ensures !Before(b, a) {
      BeforeAsymmetric(a, b);
    }
    forall a, b, c | Before(a, b) && Before(b, c) ensures Before(a, c) {
      BeforeTransitive(a, b, c);
    }
    forall a: string, b | a != b ensures Before(a, b) || Before(b, a) {
      BeforeTotal(a, b);
    }
  }

  /** The word lies within the buffer and ends at a terminator. */
  ghost predicate Placed(buffer: string, w: OffsetLen) {
    && w.offset + w.len < |buffer| && buffer[w.offset + w.len] == Terminator
    && Terminator !in buffer[w.offset..w.offset + w.len]
  }

  ghost predicate AllPlaced(buffer: string, ws: seq<OffsetLen>, n: nat)
    requires n <= |ws|
  {
    forall i | 0 <= i < n :: Placed(buffer, ws[i])
  }

  function Text(buffer: string, w: OffsetLen): string
    requires Placed(buffer, w)
  {
    buffer[w.offset..w.offset + w.len]
  }

  function Texts(buffer: string, ws: seq<OffsetLen>, n: nat): (s: seq<string>)
    requires n <= |ws| && AllPlaced(buffer, ws, n)
    ensures |s| == n && forall i | 0 <= i < n :: s[i] == Text(buffer, ws[i])
  {
    seq(n, i requires 0 <= i < n => Text(buffer, ws[i]))
  }

  /** Appending to the buffer moves no word. */
  lemma AppendKeeps(buffer: string, ws: seq<OffsetLen>, n: nat, more: string)
    requires n <= |ws| && AllPlaced(buffer, ws, n)
    ensures AllPlaced(buffer + more, ws, n)
    ensures Texts(buffer + more, ws, n) == Texts(buffer, ws, n)
  {
    forall i | 0 <= i < n ensures Placed(buffer + more, ws[i]) && Text(buffer + more, ws[i]) == Text(buffer, ws[i]) {
      var w := ws[i];
      assert Placed(buffer, w);
      assert (buffer + more)[w.offset..w.offset + w.len] == buffer[w.offset..w.offset + w.len];
    }
  }

  /** A word appended with its terminator is the next one. */
  lemma AppendPlaces(buffer: string, ws: seq<OffsetLen>, n: nat, word: string)
    requires n < |ws| && AllPlaced(buffer, ws, n) && Terminator !in word
    requires ws[n] == OffsetLen(|buffer|, |word|)
    ensures AllPlaced(buffer + word + [Terminator], ws, n + 1)
    ensures Texts(buffer + word + [Terminator], ws, n + 1) == Texts(buffer, ws, n) + [word]
  {
    var after := buffer + word + [Terminator];
    assert after == buffer + (word + [Terminator]);
    AppendKeeps(buffer, ws, n, word + [Terminator]);
    assert after[|buffer|..|buffer| + |word|] == word;
    assert Placed(after, ws[n]);
    forall i | 0 <= i < n + 1 ensures Placed(after, ws[i]) {
    }
    assert Texts(after, ws, n + 1) == Texts(after, ws, n) + [word];
  }

  ghost function Hashes(hash: string -> nat, words: seq<string>): (s: seq<nat>)
    ensures |s| == |words|
  {
    seq(|words|, i requires 0 <= i < |words| => hash(words[i]))
  }

  /** The slot is taken, by another word. */
  ghost predicate Missed(slots: seq<int>, words: seq<string>, word: string, p: nat)
    requires p < |slots|
  {
    0 <= slots[p] < |words| && words[slots[p]] != word
  }

  lemma MissedWord(slots: seq<int>, hash: string -> nat, words: seq<string>, word: string, t: nat)
    requires Indexed(slots, Hashes(hash, words)) && ReachedAt(slots, hash(word), Invalid, t)
    requires forall s | 0 <= s < t :: Missed(slots, words, word, Step(hash(word), s, |slots|))
    ensures word !in words
  {
    hide PowerOfTwo, Step, Indexed;
    if word in words {
      var i :| 0 <= i < |words| && words[i] == word;
      MissedMeansAbsent(slots, Hashes(hash, words), hash(word), t, i);
    }
  }

  lemma SentenceEnd()
    ensures Terminator !in "</s>" && "</s>" != "<s>"
  {
  }

  /** The order the words are to have, the first ones staying where they are. */
  method SortedOrder(words: seq<string>, fixed: nat) returns (sorted: bool, sortIndices: seq<nat>)
    requires Distinct(words) && fixed < |words|
    ensures |sortIndices| == |words| && Below(sortIndices, |words|) && Distinct(sortIndices)
    ensures forall y :: 0 <= y < |words| ==> y in sortIndices
    ensures sortIndices[..fixed] == Range(fixed)
    ensures sorted <==> StepsUp(words[fixed..], Before)
    ensures Ascends(Through(words, sortIndices)[fixed..], Before) <==> sorted || |words| == fixed + 1
    ensures !sorted ==> sortIndices == Range(|words|) && Through(words, sortIndices) == words
  {
    hide StepsUp, Ascends, Order, Before;
    BeforeOrders();
    var view := Range(|words|)[fixed..];
    RangeFrom(|words|, fixed);
    ViewThrough(words, fixed);
    sorted, sortIndices := SortIndices(words, Before, view);
    sortIndices := Range(fixed) + sortIndices;
    WholePermutation(sortIndices, |words|, fixed);
    FixedThrough(words, sortIndices, fixed);
    if !sorted {
      RangeSplit(|words|, fixed);
      ViewThrough(words, 0);
      SortedAnyway(words[fixed..], Before);
    } else {
      MoreThanOne(words[fixed..], Before);
    }
  }

  class Vocab {
    const hash: string -> nat
    var length: nat
    var offsetLens: seq<OffsetLen>
    var indices: seq<int>
    var buffer: string
    var fixedVocab: bool
    var unkIndex: int

    ghost predicate Shaped()
      reads this
    {
      length <= |offsetLens| && AllPlaced(buffer, offsetLens, length)
    }

    /** The words, by number. */
    function Words(): (s: seq<string>)
      requires Shaped()
      reads this
      ensures |s| == length
    {
      Texts(buffer, offsetLens, length)
    }

    ghost predicate Indexing()
      reads this
    {
      && Shaped() && |offsetLens| < |indices|
      && Distinct(Words()) && "<s>" !in Words()
      && Indexed(indices, Hashes(hash, Words()))
    }

    /** The end of sentence is word 0, and the unknown word, if there is one, is word 1. */
    ghost predicate Valid()
      reads this
    {
      && Indexing()
      && length > 0 && Words()[0] == "</s>"
      && (unkIndex == Invalid || (unkIndex == 1 < length && Words()[1] == "<unk>"))
    }

    lemma WordFacts(i: nat)
      requires Valid() && i < length
      ensures Words()[i] != "<s>" && Terminator !in Words()[i]
    {
      WordUnterminated(buffer, offsetLens, length, i);
      assert Words()[i] in Words();
    }

    lemma ValidShaped()
      requires Valid()
      ensures Shaped()
    {
    }

    lemma WordsDistinct()
      requires Valid()
      ensures Distinct(Words())
    {
    }

    constructor (hash: string -> nat, capacity: nat)
      requires capacity > 0
      ensures Valid() && Words() == ["</s>"] && !fixedVocab && unkIndex == Invalid
    {
      this.hash := hash;
      length, offsetLens, buffer := 0, [], "";
      fixedVocab, unkIndex := false, Invalid;
      indices := [];
      new;
      assert Shaped() && Words() == [];
      hide Shaped, Words, Indexing, Valid;
      Start(capacity);
    }

    /** Room for the words, and the sentence end as the first of them. */
    method Start(capacity: nat)
      requires Shaped() && Words() == [] && offsetLens == [] && capacity > 0 && unkIndex == Invalid
      modifies this`length, this`offsetLens, this`indices, this`buffer
      ensures Valid() && Words() == ["</s>"]
    {
      hide Indexed, AllPlaced, Placed, Texts, Text, Hashes;
      SentenceEnd();
      Reserve(capacity);
      hide Shaped, Words, Distinct;
      var _ := Append("</s>");
    }

    method UseUnknown()
      requires Valid() && !fixedVocab
      requires length == 1 || Words()[1] == "<unk>"
      modifies this
      ensures Valid() && unkIndex == 1 && fixedVocab == old(fixedVocab)
      ensures Words() == if old(length) == 1 then ["</s>", "<unk>"] else old(Words())
    {
      if unkIndex == Invalid {
        var index := Append("<unk>");
        unkIndex := index;
        assert Words()[1] == "<unk>";
      }
    }

    /** The slot that holds the word, or the free slot where it would go. */
    method FindIndex(word: string) returns (pos: nat, ghost skip: nat)
      requires Indexing()
      ensures pos < |indices| && pos == Step(hash(word), skip, |indices|)
      ensures ReachedAt(indices, hash(word), indices[pos], skip)
      ensures if indices[pos] == Invalid then word !in Words()
              else 0 <= indices[pos] < length && Words()[indices[pos]] == word
    {
      hide PowerOfTwo, Step, Triangle, Placed, Indexed, Distinct, Hashes;
      ghost var words := Words();
      ghost var hashes := Hashes(hash, words);
      IndexedSize(indices, hashes);
      var m, h, t := |indices|, hash(word), 0;
      pos := h % m;
      assert pos == Step(h, 0, m) by { FirstStep(h, m); }
      SlotFacts(indices, hashes, pos);
      while indices[pos] != Invalid && Words()[indices[pos]] != word
        invariant pos < m && pos == Step(h, t, m) && Passed(indices, h, t)
        invariant indices[pos] == Invalid || 0 <= indices[pos] < length
        invariant forall s | 0 <= s < t :: Missed(indices, words, word, Step(h, s, m))
        decreases m - t
      {
        assert Missed(indices, words, word, pos);
        StepNext(h, t, m);
        ProbingEnds(indices, hashes, h, t);
        t := t + 1;
        pos := (pos + t) % m;
        SlotFacts(indices, hashes, pos);
      }
      skip := t;
      if indices[pos] == Invalid {
        MissedWord(indices, hash, words, word, t);
      }
    }

    /** The word's number; a sentence start counts as a sentence end, and a word not there as unknown. */
    method Find(word: string) returns (index: int)
      requires Valid()
      ensures if word == "<s>" then index == EndOfSentence
              else if word in Words() then 0 <= index < length && Words()[index] == word
              else index == unkIndex
    {
      if word == "<s>" {
        return EndOfSentence;
      }
      var pos, _ := FindIndex(word);
      index := if indices[pos] == Invalid then unkIndex else indices[pos];
      assert indices[pos] != Invalid ==> word in Words();
    }

    /** Adds the word unless it is there or the vocabulary is fixed. */
    method Add(word: string) returns (index: int)
      requires Valid() && Terminator !in word
      modifies this
      ensures Valid() && fixedVocab == old(fixedVocab) && unkIndex == old(unkIndex)
      ensures Words() == if word == "<s>" || fixedVocab || word in old(Words()) then old(Words())
                         else old(Words()) + [word]
      ensures if word == "<s>" then index == EndOfSentence
              else if word in Words() then 0 <= index < length && Words()[index] == word
              else index == unkIndex
    {
      if word == "<s>" {
        return EndOfSentence;
      }
      if fixedVocab {
        index := Find(word);
      } else {
        index := Append(word);
        assert Words()[index] in Words();
      }
    }

    /** The part of adding a word that leaves the marks alone. */
    method Append(word: string) returns (index: nat)
      requires Indexing() && Terminator !in word && word != "<s>"
      modifies this`length, this`offsetLens, this`indices, this`buffer
      ensures Indexing()
      ensures Words() == if word in old(Words()) then old(Words()) else old(Words()) + [word]
      ensures index < length && Words()[index] == word
    {
      hide Indexed, PowerOfTwo, Step, AllPlaced, Placed, ReachedAt;
      var pos, skip := FindIndex(word);
      if indices[pos] == Invalid {
        if length >= |offsetLens| {
          Reserve(if 2 * |offsetLens| > 65536 then 2 * |offsetLens| else 65536);
          pos, skip := FindIndex(word);
        }
        ghost var words := Words();
        PlaceKeeps(indices, Hashes(hash, words), hash(word), skip);
        ghost var slots := indices;
        indices := indices[pos := length];
        offsetLens := Store(offsetLens, length, OffsetLen(|buffer|, |word|), buffer);
        AppendPlaces(buffer, offsetLens, length, word);
        buffer := buffer + word + [Terminator];
        length := length + 1;
        assert Words() == words + [word];
        assert Hashes(hash, Words()) == Hashes(hash, words) + [hash(word)];
        AppendDistinct(words, word);
        return length - 1;
      }
      index := indices[pos];
      assert Words()[index] in Words();
    }

    method Reserve(capacity: nat)
      requires Shaped() && Distinct(Words()) && "<s>" !in Words() && length <= capacity
      requires capacity == |offsetLens| ==> Indexing()
      modifies this`offsetLens, this`indices
      ensures Indexing() && Words() == old(Words()) && |offsetLens| == capacity
    {
      if capacity != |offsetLens| {
        Reindex(NextPowerOfTwo(capacity + capacity / 4));
        ghost var words := Words();
        offsetLens := Resized(offsetLens, capacity, length, buffer);
        assert Words() == words;
      }
    }

    /** Rebuilds the index with the given number of slots. */
    method Reindex(indexSize: nat)
      requires Shaped() && PowerOfTwo(indexSize) && length < indexSize
      modifies this`indices
      ensures |indices| == indexSize && Indexed(indices, Hashes(hash, Words()))
    {
      hide PowerOfTwo, Step, Indexed, Triangle, Placed, AllPlaced;
      indices := seq(indexSize, _ => Invalid);
      EmptyIndexed(indexSize);
      ghost var hashes := Hashes(hash, Words());
      assert hashes[..0] == [];
      for i := 0 to length
        invariant |indices| == indexSize && Shaped() && Words() == old(Words())
        invariant Indexed(indices, hashes[..i])
      {
        var h := hash(Words()[i]);
        var pos, t := ProbeFree(indices, hashes[..i], h);
        PlaceKeeps(indices, hashes[..i], h, t);
        indices := indices[pos := i];
        assert hashes[..i+1] == hashes[..i] + [h];
      }
      assert hashes[..length] == hashes;
    }

    function FixedWords(): nat
      reads this
    {
      if unkIndex == Invalid then 1 else 2
    }

    /** Sorts the words after the fixed ones, if some neighbour steps up; sortMap says where each word went.
        The slots are renamed in place: no word is hashed again. */
    method Sort() returns (sorted: bool, sortMap: seq<nat>)
      requires Valid() && FixedWords() < length
      modifies this`offsetLens, this`buffer, this`indices
      ensures Valid() && |sortMap| == length && Below(sortMap, length) && Distinct(sortMap)
      ensures forall y :: 0 <= y < length ==> y in sortMap
      ensures Through(Words(), sortMap) == old(Words())
      ensures forall i | 0 <= i < FixedWords() :: Words()[i] == old(Words()[i])
      ensures sorted <==> StepsUp(old(Words()[FixedWords()..]), Before)
      ensures Ascends(Words()[FixedWords()..], Before) <==> sorted || length == FixedWords() + 1
      ensures !sorted ==> Words() == old(Words()) && indices == old(indices)
    {
      hide Indexed, StepsUp, Ascends, AllPlaced, Placed, Before;
      var sortIndices;
      sorted, sortIndices := SortedOrder(Words(), FixedWords());
      if !sorted {
        sortMap := Range(length);
        return;
      }
      ghost var words := Words();
      Rebuild(sortIndices);
      sortMap := Invert(sortIndices);
      FixedThrough(words, sortIndices, FixedWords());
      PermutedDistinct(words, sortIndices);
      ThroughBack(words, sortIndices, sortMap);
      RelabelSlots(sortMap, words);
    }

    /** Every taken slot gets its entry's new number. */
    method RelabelSlots(sortMap: seq<nat>, ghost words: seq<string>)
      requires Shaped() && Indexed(indices, Hashes(hash, words)) && |sortMap| == |words| == length
      requires Below(sortMap, length) && Distinct(sortMap) && forall y :: 0 <= y < length ==> y in sortMap
      requires Through(Words(), sortMap) == words
      modifies this`indices
      ensures |indices| == old(|indices|) && Indexed(indices, Hashes(hash, Words()))
    {
      hide Indexed, AllPlaced, Placed;
      ghost var slots := indices;
      for p := 0 to |indices|
        invariant |indices| == |slots|
        invariant forall q | 0 <= q < p ::
                    indices[q] == if 0 <= slots[q] < length then sortMap[slots[q]] else Invalid
        invariant forall q | p <= q < |slots| :: indices[q] == slots[q]
      {
        SlotFacts(slots, Hashes(hash, words), p);
        if indices[p] != Invalid {
          indices := indices[p := sortMap[indices[p]]];
        }
      }
      Renamed(slots, hash, words, sortMap, indices, Words());
    }

    /** Copies the words to a new buffer in the given order. */
    method Rebuild(sortIndices: seq<nat>)
      requires Shaped() && |sortIndices| == length && Below(sortIndices, length)
      modifies this`offsetLens, this`buffer
      ensures Shaped() && |offsetLens| == length
      ensures Words() == Through(old(Words()), sortIndices)
    {
      hide AllPlaced, Placed;
      var newBuffer, newOffsetLens := "", seq(length, _ => OffsetLen(0, 0));
      NothingPlaced(newBuffer, newOffsetLens);
      for i := 0 to length
        modifies {}
        invariant |newOffsetLens| == length && AllPlaced(newBuffer, newOffsetLens, i)
        invariant Texts(newBuffer, newOffsetLens, i) == Through(Words(), sortIndices)[..i]
      {
        var word := Words()[sortIndices[i]];
        WordUnterminated(buffer, offsetLens, length, sortIndices[i]);
        newOffsetLens := Store(newOffsetLens, i, OffsetLen(|newBuffer|, offsetLens[sortIndices[i]].len), newBuffer);
        AppendPlaces(newBuffer, newOffsetLens, i, word);
        newBuffer := newBuffer + word + [Terminator];
      }
      buffer, offsetLens := newBuffer, newOffsetLens;
    }
  }

  lemma NothingPlaced(buffer: string, ws: seq<OffsetLen>)
    ensures AllPlaced(buffer, ws, 0)
  {
  }

  lemma WordUnterminated(buffer: string, ws: seq<OffsetLen>, n: nat, i: nat)
    requires i < n <= |ws| && AllPlaced(buffer, ws, n)
    ensures Terminator !in Texts(buffer, ws, n)[i] && |Texts(buffer, ws, n)[i]| == ws[i].len
  {
    assert Placed(buffer, ws[i]);
  }

  /** Writing entry n moves no word before it. */
  function Store(ws: seq<OffsetLen>, n: nat, w: OffsetLen, ghost buffer: string): (r: seq<OffsetLen>)
    requires n < |ws| && AllPlaced(buffer, ws, n)
    ensures |r| == |ws| && r[n] == w && AllPlaced(buffer, r, n)
    ensures Texts(buffer, r, n) == Texts(buffer, ws, n)
  {
    var r := ws[n := w];
    assert forall i | 0 <= i < n :: r[i] == ws[i];
    assert AllPlaced(buffer, r, n);
    assert Texts(buffer, r, n) == Texts(buffer, ws, n);
    r
  }

  function Resized(ws: seq<OffsetLen>, capacity: nat, ghost n: nat, ghost buffer: string): (r: seq<OffsetLen>)
    requires n <= |ws| && n <= capacity && AllPlaced(buffer, ws, n)
    ensures |r| == capacity && AllPlaced(buffer, r, n)
    ensures Texts(buffer, r, n) == Texts(buffer, ws, n)
  {
    var r := seq(capacity, i requires 0 <= i < capacity => if i < |ws| then ws[i] else OffsetLen(0, 0));
    assert forall i | 0 <= i < n :: r[i] == ws[i];
    assert AllPlaced(buffer, r, n);
    assert Texts(buffer, r, n) == Texts(buffer, ws, n);
    r
  }

  lemma AppendDistinct(words: seq<string>, word: string)
    requires Distinct(words) && word !in words && word != "<s>" && "<s>" !in words
    ensures Distinct(words + [word]) && "<s>" !in words + [word]
  {
  }

  lemma RangeFrom(n: nat, k: nat)
    requires k <= n
    ensures Below(Range(n)[k..], n) && Distinct(Range(n)[k..])
  {
  }

  lemma RangeSplit(n: nat, k: nat)
    requires k <= n
    ensures Range(k) + Range(n)[k..] == Range(n)
  {
    var a, b := Range(k) + Range(n)[k..], Range(n);
    forall i | 0 <= i < n ensures a[i] == b[i] {
      assert a[i] == if i < k then Range(k)[i] else b[i];
    }
  }

  lemma MoreThanOne(words: seq<string>, less: (string, string) -> bool)
    requires StepsUp(words, less)
    ensures |words| > 1
  {
  }

  lemma ThroughBack(words: seq<string>, s: seq<nat>, inv: seq<nat>)
    requires |s| == |inv| == |words| && Below(s, |words|) && Below(inv, |words|)
    requires forall i | 0 <= i < |s| :: s[inv[i]] == i
    ensures Through(Through(words, s), inv) == words
  {
  }

  lemma ViewThrough(words: seq<string>, k: nat)
    requires k <= |words|
    ensures Below(Range(|words|)[k..], |words|) && Through(words, Range(|words|)[k..]) == words[k..]
  {
    hide Range;
    var view := Range(|words|)[k..];
    forall i | 0 <= i < |view| ensures view[i] == k + i < |words| {
      assert view[i] == Range(|words|)[k + i];
    }
    assert Through(words, view) == words[k..];
  }

  /** The fixed words' own numbers, followed by a permutation of the others, are a permutation of all. */
  lemma WholePermutation(s: seq<nat>, n: nat, k: nat)
    requires k <= n == |s| && s[..k] == Range(k) && Below(s[k..], n) && Distinct(s[k..])
    requires forall y :: y in s[k..] <==> y in Range(n)[k..]
    ensures Below(s, n) && Distinct(s) && forall y :: 0 <= y < n ==> y in s
  {
    forall i | 0 <= i < n ensures if i < k then s[i] == i else k <= s[i] < n {
      if i < k {
        assert s[..k][i] == i;
      } else {
        assert s[k..][i-k] in Range(n)[k..];
      }
    }
    forall i, j | 0 <= i < n && 0 <= j < n && s[i] == s[j] ensures i == j {
      if i >= k && j >= k {
        assert s[k..][i-k] == s[k..][j-k];
      }
    }
    forall y | 0 <= y < n ensures y in s {
      if y < k {
        assert s[y] == y;
      } else {
        assert Range(n)[k..][y-k] == y;
        assert y in s[k..];
      }
    }
  }

  lemma FixedThrough(words: seq<string>, s: seq<nat>, k: nat)
    requires k <= |s| == |words| && Below(s, |words|) && s[..k] == Range(k)
    ensures forall i | 0 <= i < k :: Through(words, s)[i] == words[i]
    ensures Below(s[k..], |words|) && Through(words, s)[k..] == Through(words, s[k..])
  {
    forall i | 0 <= i < k ensures s[i] == i {
      assert s[..k][i] == i;
    }
  }

  lemma PermutedDistinct(words: seq<string>, s: seq<nat>)
    requires Distinct(words) && Below(s, |words|) && Distinct(s)
    ensures Distinct(Through(words, s)) && ("<s>" !in words ==> "<s>" !in Through(words, s))
  {
  }

  /** Renaming the slots of permuted words gives an index of the permuted words. */
  lemma Renamed(slots: seq<int>, hash: string -> nat, words: seq<string>, sortMap: seq<nat>, after: seq<int>, sorted: seq<string>)
    requires Indexed(slots, Hashes(hash, words)) && |sortMap| == |words| == |sorted| && |after| == |slots|
    requires Below(sortMap, |words|) && Distinct(sortMap) && forall y :: 0 <= y < |words| ==> y in sortMap
    requires Through(sorted, sortMap) == words
    requires forall p | 0 <= p < |slots| ::
               after[p] == if 0 <= slots[p] < |sortMap| then sortMap[slots[p]] else Invalid
    ensures Indexed(after, Hashes(hash, sorted))
  {
    hide Indexed;
    forall i | 0 <= i < |sortMap| ensures Hashes(hash, sorted)[sortMap[i]] == Hashes(hash, words)[i] {
      assert Through(sorted, sortMap)[i] == words[i];
    }
    RelabelKeeps(slots, Hashes(hash, words), sortMap, after, Hashes(hash, sorted));
  }
}
