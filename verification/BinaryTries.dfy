/** Count tries in binary files: counts of two, four or eight bytes, and subtries led by their length, whose width is
    guessed and mended afterwards if the guess was too small. */
module BinaryTries {

  datatype Option<T> = None | Some(value: T)

  datatype Trie = Trie(count: nat, kids: seq<Kid>)
  datatype Kid = Kid(word: nat, trie: Trie)

  // ---------- counts as bytes ----------

  /** The last k bytes of v, highest first. */
  function Bytes(v: nat, k: nat): (s: seq<nat>)
    ensures |s| == k
  {
    if k == 0 then [] else Bytes(v / 256, k - 1) + [v % 256]
  }

  function Worth(s: seq<nat>): nat {
    if s == [] then 0 else 256 * Worth(s[..|s|-1]) + s[|s|-1]
  }

  lemma BytesTwo(v: nat)
    requires v < 0x1_0000
    ensures Worth(Bytes(v, 2)) == v
  {
    WorthNext(v, 1);
    WorthNext(v / 256, 0);
  }

  lemma WorthNext(v: nat, k: nat)
    ensures Bytes(v, k + 1)[..k] == Bytes(v / 256, k)
    ensures Worth(Bytes(v, k + 1)) == 256 * Worth(Bytes(v / 256, k)) + v % 256
  {
  }

  /** The first bytes of a number are those of the number without its last two. */
  lemma BytesLead(v: nat, k: nat)
    ensures Bytes(v, k + 2)[..k] == Bytes(v / 0x1_0000, k)
    ensures Worth(Bytes(v, k + 2)) == 0x1_0000 * Worth(Bytes(v / 0x1_0000, k)) + v % 0x1_0000
  {
    WorthNext(v, k + 1);
    WorthNext(v / 256, k);
    assert v / 256 / 256 == v / 0x1_0000;
    assert Bytes(v, k + 2)[..k] == Bytes(v, k + 2)[..k+1][..k];
  }

  lemma BytesFour(v: nat)
    requires v < 0x1_0000_0000
    ensures Worth(Bytes(v, 4)) == v && Worth(Bytes(v, 4)[..2]) == v / 0x1_0000
  {
    BytesLead(v, 2);
    BytesTwo(v / 0x1_0000);
  }

  lemma BytesEight(v: nat)
    requires v < 0x1_0000_0000_0000_0000
    ensures Worth(Bytes(v, 8)) == v && Worth(Bytes(v, 8)[..4]) == v / 0x1_0000_0000
    ensures Worth(Bytes(v, 8)[..2]) == v / 0x1_0000_0000_0000
  {
    hide Bytes, Worth;
    var six, four := v / 0x1_0000, v / 0x1_0000 / 0x1_0000;
    BytesLead(v, 6);
    BytesLead(six, 4);
    BytesFour(four);
    assert four == v / 0x1_0000_0000 && four / 0x1_0000 == v / 0x1_0000_0000_0000;
    assert Bytes(v, 8)[..6][..4] == Bytes(v, 8)[..4];
    assert Bytes(v, 8)[..4][..2] == Bytes(v, 8)[..2];
  }

  const LongBit: nat := 0x8000
  const LongLongBit: nat := 0x4000_0000
  const TooLongBit: nat := 0x4000_0000_0000_0000

  /** The bytes of a count: two, four or eight of them, no fewer than asked for; none if it is too large. */
  function Encode(count: nat, minBytes: nat): (s: seq<nat>)
    ensures |s| == 0 || |s| == 2 || |s| == 4 || |s| == 8
    ensures |s| == 0 <==> count >= TooLongBit
    ensures minBytes <= 8 && |s| > 0 ==> |s| >= minBytes
  {
    if minBytes <= 2 && count < LongBit then Bytes(count, 2)
    else if minBytes <= 4 && count < LongLongBit then Bytes(0x8000_0000 + count, 4)
    else if count < TooLongBit then Bytes(0xC000_0000_0000_0000 + count, 8)
    else []
  }

  /** The first bits of a count say how many bytes it takes and the rest are the count, its highest byte first:
      0 before fifteen bits, 10 before thirty, 11 before sixty-two. */
  lemma EncodeTwo(count: nat, minBytes: nat)
    ensures |Encode(count, minBytes)| == 2 <==> minBytes <= 2 && count < 0x8000
    ensures minBytes <= 2 && count < 0x8000 ==> Encode(count, minBytes) == [count / 256, count % 256]
  {
    hide Bytes;
    if minBytes <= 2 && count < 0x8000 {
      TwoBytes(count);
    }
  }

  lemma EncodeFour(count: nat, minBytes: nat)
    ensures |Encode(count, minBytes)| == 4 <==> minBytes <= 4 && count < 0x4000_0000 && (minBytes > 2 || count >= 0x8000)
    ensures |Encode(count, minBytes)| == 4 ==>
              Encode(count, minBytes) == [128 + count / 0x100_0000, count / 0x1_0000 % 256, count / 256 % 256, count % 256]
  {
    hide Bytes;
    if |Encode(count, minBytes)| == 4 {
      FourBytes(0x8000_0000 + count);
      FirstOfFour(count);
    }
  }

  lemma EncodeEight(count: nat, minBytes: nat)
    ensures |Encode(count, minBytes)| == 8
       <==> count < 0x4000_0000_0000_0000 && (minBytes > 4 || count >= 0x4000_0000)
    ensures |Encode(count, minBytes)| == 8 ==>
              Encode(count, minBytes) == [192 + count / 0x100_0000_0000_0000, count / 0x1_0000_0000_0000 % 256,
                                          count / 0x100_0000_0000 % 256, count / 0x1_0000_0000 % 256, count / 0x100_0000 % 256,
                                          count / 0x1_0000 % 256, count / 256 % 256, count % 256]
  {
    hide Bytes;
    if |Encode(count, minBytes)| == 8 {
      EightBytes(0xC000_0000_0000_0000 + count);
      FirstOfEight(count);
    }
  }

  lemma FirstOfFour(count: nat)
    requires count < LongLongBit
    ensures var v := 0x8000_0000 + count;
            v / 0x100_0000 % 256 == 128 + count / 0x100_0000 && v / 0x1_0000 % 256 == count / 0x1_0000 % 256
            && v / 256 % 256 == count / 256 % 256 && v % 256 == count % 256
  {
    var v := 0x8000_0000 + count;
    Lifted(128, count, 0x100_0000);
    LowByte(v, 0x8000, count, 0x1_0000);
    LowByte(v, 0x80_0000, count, 256);
    LowByte(v, 0x8000_0000, count, 1);
  }

  lemma FirstOfEight(count: nat)
    requires count < TooLongBit
    ensures var v := 0xC000_0000_0000_0000 + count;
            && v / 0x100_0000_0000_0000 % 256 == 192 + count / 0x100_0000_0000_0000
            && v / 0x1_0000_0000_0000 % 256 == count / 0x1_0000_0000_0000 % 256
            && v / 0x100_0000_0000 % 256 == count / 0x100_0000_0000 % 256
            && v / 0x1_0000_0000 % 256 == count / 0x1_0000_0000 % 256
            && v / 0x100_0000 % 256 == count / 0x100_0000 % 256 && v / 0x1_0000 % 256 == count / 0x1_0000 % 256
            && v / 256 % 256 == count / 256 % 256 && v % 256 == count % 256
  {
    var v := 0xC000_0000_0000_0000 + count;
    TopOfEight(count);
    LowByte(v, 0xC000, count, 0x1_0000_0000_0000);
    LowByte(v, 0xC0_0000, count, 0x100_0000_0000);
    LowByte(v, 0xC000_0000, count, 0x1_0000_0000);
    LowByte(v, 0xC0_0000_0000, count, 0x100_0000);
    LowByte(v, 0xC000_0000_0000, count, 0x1_0000);
    LowByte(v, 0xC0_0000_0000_0000, count, 256);
    LowByte(v, 0xC000_0000_0000_0000, count, 1);
  }

  lemma TopOfEight(count: nat)
    requires count < TooLongBit
    ensures (0xC000_0000_0000_0000 + count) / 0x100_0000_0000_0000 % 256 == 192 + count / 0x100_0000_0000_0000
  {
    Lifted(192, count, 0x100_0000_0000_0000);
  }

  /** What is added above a byte leaves it as it is. */
  lemma LowByte(v: nat, a: nat, count: nat, unit: nat)
    requires unit > 0 && a % 256 == 0 && v == a * unit + count
    ensures v / unit % 256 == count / unit % 256
  {
    Lifted(a, count, unit);
    WholeAdded(a, count / unit);
  }

  lemma WholeAdded(a: nat, b: nat)
    requires a % 256 == 0
    ensures (a + b) % 256 == b % 256
  {
  }

  lemma Lifted(a: nat, count: nat, unit: nat)
    requires unit > 0
    ensures (a * unit + count) / unit == a + count / unit
  {
    var whole := a + count / unit;
    var d := (a * unit + count) / unit;
    assert a * unit + count == whole * unit + count % unit;
    Multiples(d, whole, unit);
    Multiples(whole, d, unit);
  }

  lemma {:induction false} Multiples(a: nat, b: nat, unit: nat)
    ensures a < b ==> a * unit + unit <= b * unit
  {
    if a < b {
      Multiples(a, b - 1, unit);
      assert b * unit == (b - 1) * unit + unit;
    }
  }

  /** Two more bytes. */
  lemma LastTwo(v: nat, k: nat)
    ensures Bytes(v, k + 2) == Bytes(v / 0x1_0000, k) + [v / 256 % 256, v % 256]
  {
    assert v / 256 / 256 == v / 0x1_0000;
    assert Bytes(v, k + 2) == Bytes(v / 256, k + 1) + [v % 256];
    assert Bytes(v / 256, k + 1) == Bytes(v / 256 / 256, k) + [v / 256 % 256];
  }

  lemma TwoBytes(v: nat)
    ensures Bytes(v, 2) == [v / 256 % 256, v % 256]
  {
    LastTwo(v, 0);
  }

  lemma FourBytes(v: nat)
    ensures Bytes(v, 4) == [v / 0x100_0000 % 256, v / 0x1_0000 % 256, v / 256 % 256, v % 256]
  {
    hide Bytes;
    LastTwo(v, 2);
    TwoBytes(v / 0x1_0000);
    assert v / 0x1_0000 / 256 == v / 0x100_0000;
  }

  lemma EightBytes(v: nat)
    ensures Bytes(v, 8) == [v / 0x100_0000_0000_0000 % 256, v / 0x1_0000_0000_0000 % 256, v / 0x100_0000_0000 % 256,
                            v / 0x1_0000_0000 % 256, v / 0x100_0000 % 256, v / 0x1_0000 % 256, v / 256 % 256, v % 256]
  {
    hide Bytes;
    LastTwo(v, 6);
    LastTwo(v / 0x1_0000, 4);
    assert v / 0x1_0000 / 0x1_0000 == v / 0x1_0000_0000 && v / 0x1_0000 / 256 == v / 0x100_0000;
    FourBytes(v / 0x1_0000_0000);
    Quotients(v);
  }

  lemma Quotients(v: nat)
    ensures v / 0x1_0000_0000 / 0x100_0000 == v / 0x100_0000_0000_0000
    ensures v / 0x1_0000_0000 / 0x1_0000 == v / 0x1_0000_0000_0000
    ensures v / 0x1_0000_0000 / 256 == v / 0x100_0000_0000
  {
  }

  datatype Decoded = Bad | Good(count: nat, size: nat)

  /** The count at a place in a file, and how many bytes it takes. */
  function Decode(file: seq<nat>, at: nat): (d: Decoded)
    ensures d.Good? ==> d.size >= 2 && at + d.size <= |file|
  {
    if at + 2 > |file| then Bad
    else
      var short := Worth(file[at..at+2]);
      if short < LongBit then Good(short, 2)
      else if at + 4 > |file| then Bad
      else
        var long := Worth(file[at..at+4]);
        if long < 0x8000_0000 + LongLongBit then Good(Minus(long, 0x8000_0000), 4)
        else if at + 8 > |file| then Bad
        else Good(Minus(Worth(file[at..at+8]), 0xC000_0000_0000_0000), 8)
  }

  function Minus(a: nat, b: nat): nat {
    if a >= b then a - b else 0
  }

  ghost predicate HoldsAt(file: seq<nat>, at: nat, s: seq<nat>) {
    at + |s| <= |file| && file[at..at+|s|] == s
  }

  lemma HoldsSplit(file: seq<nat>, at: nat, a: seq<nat>, b: seq<nat>)
    requires HoldsAt(file, at, a + b)
    ensures HoldsAt(file, at, a) && HoldsAt(file, at + |a|, b)
  {
    assert file[at..at+|a|] == file[at..at+|a + b|][..|a|];
    assert file[at+|a|..at+|a|+|b|] == file[at..at+|a + b|][|a|..];
  }

  /** A count written is read back, with its size. */
  lemma DecodeEncode(file: seq<nat>, at: nat, count: nat, minBytes: nat)
    requires HoldsAt(file, at, Encode(count, minBytes)) && count < TooLongBit
    ensures Decode(file, at) == Good(count, |Encode(count, minBytes)|)
  {
    hide Bytes, Worth;
    var s := Encode(count, minBytes);
    assert file[at..at+|s|] == s;
    assert file[at..at+2] == s[..2];
    if |s| == 2 {
      assert s[..2] == s;
      BytesTwo(count);
    } else if |s| == 4 {
      assert file[at..at+4] == s;
      BytesFour(0x8000_0000 + count);
    } else {
      assert file[at..at+4] == s[..4];
      BytesEight(0xC000_0000_0000_0000 + count);
    }
  }

  // ---------- what a trie is written as ----------

  /** How deep to write, and whether only counts of the deepest level are wanted: order is zero for all. */
  datatype Shape = Shape(order: nat, full: nat) {
    function Depth(): nat {
      if order > 0 then order else full
    }
  }

  /** Bytes for a length, by the depth of what it is the length of. */
  function Guess(depth: nat): nat {
    if depth == 0 then 2 else if depth <= 3 then 4 else 8
  }

  /** The width at which a length that counts itself fits; zero if none does. */
  function Width(guess: nat, body: nat): (w: nat)
    requires guess == 2 || guess == 4 || guess == 8
    ensures w == 0 || (w >= guess && |Encode(w + body, w)| == w && (w == 2 || w == 4 || w == 8))
    ensures w == 0 ==> guess + body + 6 >= TooLongBit
    decreases 8 - guess
  {
    var n := |Encode(guess + body, guess)|;
    if n == guess || n == 0 then n else Width(n, body)
  }

  function Written(s: Shape, level: nat, count: nat): nat {
    if s.order > 0 && level < s.order then 0 else count
  }

  /** The first i children of a node at this level, or nothing if something is too large. */
  function Kids(t: Trie, i: nat, level: nat, s: Shape): Option<seq<nat>>
    requires i <= |t.kids|
    decreases t, i
  {
    if i == 0 then Some([])
    else
      var before, k := Kids(t, i - 1, level, s), t.kids[i-1];
      var word, count, sub := Encode(k.word, 0), Encode(Written(s, level, k.trie.count), 0), Node(k.trie, level + 1, s);
      if before.None? || word == [] || count == [] || sub.None? then None
      else Some(before.value + word + count + sub.value)
  }

  /** A node: its length and its children, or nothing beyond the last level. */
  function Node(t: Trie, level: nat, s: Shape): Option<seq<nat>>
    decreases t, |t.kids| + 1
  {
    if level > s.Depth() then Some([])
    else
      var body := Kids(t, |t.kids|, level, s);
      if body.None? then None
      else
        var w := Width(Guess(s.Depth() - level), |body.value|);
        if w == 0 then None else Some(Encode(w + |body.value|, w) + body.value)
  }

  /** Every length is the number of bytes of its subtrie, the length's own among them. */
  lemma LengthExact(t: Trie, level: nat, s: Shape, file: seq<nat>, at: nat)
    requires level <= s.Depth() && Node(t, level, s).Some? && HoldsAt(file, at, Node(t, level, s).value)
    ensures Decode(file, at).Good? && Decode(file, at).count == |Node(t, level, s).value|
    ensures Kids(t, |t.kids|, level, s).Some?
    ensures |Node(t, level, s).value| == Decode(file, at).size + |Kids(t, |t.kids|, level, s).value|
    ensures HoldsAt(file, at + Decode(file, at).size, Kids(t, |t.kids|, level, s).value)
  {
    hide Encode, Decode, Width;
    var body := Kids(t, |t.kids|, level, s).value;
    WidthFacts(Guess(s.Depth() - level), |body|);
    var w := Width(Guess(s.Depth() - level), |body|);
    HoldsSplit(file, at, Encode(w + |body|, w), body);
    DecodeEncode(file, at, w + |body|, w);
  }

  lemma WidthFacts(guess: nat, body: nat)
    requires guess == 2 || guess == 4 || guess == 8
    ensures Width(guess, body) > 0 ==> |Encode(Width(guess, body) + body, Width(guess, body))| == Width(guess, body)
    ensures Width(guess, body) > 0 ==> Width(guess, body) + body < TooLongBit
  {
  }

  // ---------- reading ----------

  datatype Read = Failed | Got(node: Trie, offset: nat)

  /** Where a word's child is among the children; their number if it is not. */
  function Place(kids: seq<Kid>, word: nat): (i: nat)
    ensures i <= |kids| && (i < |kids| ==> kids[i].word == word)
    ensures forall j | 0 <= j < i :: kids[j].word != word
  {
    if kids == [] then 0
    else
      var i := Place(kids[..|kids|-1], word);
      if i < |kids| - 1 then i
      else if kids[|kids|-1].word == word then |kids| - 1
      else |kids|
  }

  function ChildOf(kids: seq<Kid>, word: nat): Trie {
    var i := Place(kids, word);
    if i < |kids| then kids[i].trie else Trie(0, [])
  }

  function WithChild(t: Trie, word: nat, child: Trie): Trie {
    var i := Place(t.kids, word);
    Trie(t.count, if i < |t.kids| then t.kids[i := Kid(word, child)] else t.kids + [Kid(word, child)])
  }

  /** What is known of the reader: the words by their numbers in the file, and whether to keep to n-grams there are. */
  datatype Reader = Reader(file: seq<nat>, vocabMap: seq<Option<nat>>, intersect: bool) {

    function Left(offset: nat): nat {
      if offset <= |file| then |file| - offset else 0
    }

    /** One node of a file that has maxOrder levels from here down, of which order are wanted. */
    function ReadNode(node: Trie, order: nat, maxOrder: nat, offset: nat): (r: Read)
      ensures r.Got? ==> r.offset >= offset
      decreases maxOrder, Left(offset) + 1
    {
      if maxOrder == 0 then Got(node, offset)
      else
        var d := Decode(file, offset);
        if d.Bad? then Failed
        else if order == 0 then Got(node, offset + d.count)
        else ReadKids(node, order, maxOrder, offset + d.size, offset + d.count)
    }

    /** Children up to the end that the length gave; they must stop there exactly. */
    function ReadKids(node: Trie, order: nat, maxOrder: nat, offset: nat, end: nat): (r: Read)
      requires order > 0 && maxOrder > 0
      ensures r.Got? ==> r.offset == end
      decreases maxOrder, Left(offset)
    {
      if offset >= end then (if offset == end then Got(node, offset) else Failed)
      else
        var w := Decode(file, offset);
        if w.Bad? || w.count >= |vocabMap| then Failed
        else
          var c := Decode(file, offset + w.size);
          if c.Bad? then Failed
          else
            var next, wid := offset + w.size + c.size, vocabMap[w.count];
            if wid.None? || (intersect && Place(node.kids, wid.value) == |node.kids|) then
              var r := ReadNode(node, 0, maxOrder - 1, next);
              if r.Failed? then Failed else ReadKids(node, order, maxOrder, r.offset, end)
            else
              var child := ChildOf(node.kids, wid.value);
              var r := ReadNode(Trie(child.count + c.count, child.kids), order - 1, maxOrder - 1, next);
              if r.Failed? then Failed
              else ReadKids(WithChild(node, wid.value, r.node), order, maxOrder, r.offset, end)
    }
  }

  // ---------- reading what was written ----------

  /** The number that a word of the file has in the vocabulary. */
  function Named(r: Reader, word: nat): Option<nat> {
    if word < |r.vocabMap| then r.vocabMap[word] else None
  }

  /** The word is one to skip: it has no number, or only children that are there are kept and it is not one. */
  ghost predicate Skipped(r: Reader, node: Trie, word: nat) {
    Named(r, word).None? || (r.intersect && Place(node.kids, Named(r, word).value) == |node.kids|)
  }

  /** The node with the written trie's first k levels added to it. */
  ghost function Merge(r: Reader, node: Trie, t: Trie, k: nat, level: nat, s: Shape): Trie
    decreases t, |t.kids| + 1
  {
    if level > s.Depth() || k == 0 then node else MergeKids(r, node, t, |t.kids|, k, level, s)
  }

  /** ... with its first i children added. */
  ghost function MergeKids(r: Reader, node: Trie, t: Trie, i: nat, k: nat, level: nat, s: Shape): Trie
    requires i <= |t.kids| && k > 0
    decreases t, i
  {
    if i == 0 then node
    else MergeKid(r, MergeKids(r, node, t, i - 1, k, level, s), t.kids[i-1], k, level, s)
  }

  /** ... with one child added, or passed over. */
  ghost function MergeKid(r: Reader, node: Trie, kid: Kid, k: nat, level: nat, s: Shape): Trie
    requires k > 0
    decreases kid, 0
  {
    if Skipped(r, node, kid.word) then node
    else
      var wid := Named(r, kid.word).value;
      var child := ChildOf(node.kids, wid);
      WithChild(node, wid, Merge(r, Trie(child.count + Written(s, level, kid.trie.count), child.kids), kid.trie, k - 1, level + 1, s))
  }

  /** Every word is one of the file's list. */
  ghost predicate Listed(r: Reader, t: Trie)
    decreases t
  {
    forall i | 0 <= i < |t.kids| :: t.kids[i].word < |r.vocabMap| && Listed(r, t.kids[i].trie)
  }

  function Levels(level: nat, s: Shape): nat {
    if level > s.Depth() then 0 else s.Depth() - level + 1
  }

  lemma {:induction false} KidsPrefix(t: Trie, i: nat, n: nat, level: nat, s: Shape)
    requires i <= n <= |t.kids| && Kids(t, n, level, s).Some?
    ensures Kids(t, i, level, s).Some? && Kids(t, i, level, s).value <= Kids(t, n, level, s).value
  {
    hide Encode, Node;
    if i < n {
      KidsPrefix(t, i, n - 1, level, s);
    }
  }

  /** A child is in the file from off to next. */
  ghost predicate KidAt(file: seq<nat>, k: Kid, level: nat, s: Shape, off: nat, next: nat) {
    var word, count, sub := Encode(k.word, 0), Encode(Written(s, level, k.trie.count), 0), Node(k.trie, level + 1, s);
    && sub.Some? && Decode(file, off) == Good(k.word, |word|)
    && Decode(file, off + |word|) == Good(Written(s, level, k.trie.count), |count|)
    && HoldsAt(file, off + |word| + |count|, sub.value)
    && next == off + |word| + |count| + |sub.value| && off < next
  }

  /** Where child i is in the file. */
  lemma KidThere(r: Reader, t: Trie, i: nat, level: nat, s: Shape, at: nat)
    requires i < |t.kids| && Kids(t, |t.kids|, level, s).Some? && HoldsAt(r.file, at, Kids(t, |t.kids|, level, s).value)
    ensures Kids(t, i, level, s).Some? && Kids(t, i + 1, level, s).Some?
    ensures KidAt(r.file, t.kids[i], level, s, at + |Kids(t, i, level, s).value|, at + |Kids(t, i + 1, level, s).value|)
    ensures |Kids(t, i + 1, level, s).value| <= |Kids(t, |t.kids|, level, s).value|
  {
    hide Encode, Decode, Node, HoldsAt, Kids, Written;
    KidsPrefix(t, i + 1, |t.kids|, level, s);
    KidsNext(t, i, level, s);
    var all, next := Kids(t, |t.kids|, level, s).value, Kids(t, i + 1, level, s).value;
    assert all == next + all[|next|..];
    HoldsSplit(r.file, at, next, all[|next|..]);
    var k := t.kids[i];
    var before, word, count, sub := Kids(t, i, level, s).value, Encode(k.word, 0),
        Encode(Written(s, level, k.trie.count), 0), Node(k.trie, level + 1, s).value;
    EncodeFits(k.word);
    EncodeFits(Written(s, level, k.trie.count));
    HoldsSplit(r.file, at, before + word + count, sub);
    HoldsSplit(r.file, at, before + word, count);
    HoldsSplit(r.file, at, before, word);
    DecodeEncode(r.file, at + |before|, k.word, 0);
    DecodeEncode(r.file, at + |before| + |word|, Written(s, level, k.trie.count), 0);
  }

  lemma KidsNext(t: Trie, i: nat, level: nat, s: Shape)
    requires i < |t.kids| && Kids(t, i + 1, level, s).Some?
    ensures var k := t.kids[i];
            var word, count, sub := Encode(k.word, 0), Encode(Written(s, level, k.trie.count), 0), Node(k.trie, level + 1, s);
            && Kids(t, i, level, s).Some? && sub.Some? && word != [] && count != []
            && Kids(t, i + 1, level, s).value == Kids(t, i, level, s).value + word + count + sub.value
  {
    hide Encode, Node, Written;
  }

  /** One child read or skipped; the reader goes exactly past it. */
  lemma OneKid(r: Reader, node: Trie, k: nat, m: nat, off: nat, end: nat, word: nat, count: nat, a: nat, b: nat, kid: Trie, next: nat)
    requires k > 0 && m > 0 && off < end && word < |r.vocabMap|
    requires Decode(r.file, off) == Good(word, a) && Decode(r.file, off + a) == Good(count, b)
    requires Skipped(r, node, word) ==> r.ReadNode(node, 0, m - 1, off + a + b) == Got(node, next)
    requires !Skipped(r, node, word) ==>
               var child := ChildOf(node.kids, Named(r, word).value);
               r.ReadNode(Trie(child.count + count, child.kids), k - 1, m - 1, off + a + b) == Got(kid, next)
    ensures r.ReadKids(node, k, m, off, end)
         == r.ReadKids(if Skipped(r, node, word) then node else WithChild(node, Named(r, word).value, kid), k, m, next, end)
  {
    hide Decode, Place, Reader.ReadNode, WithChild, ChildOf;
  }

  lemma EncodeFits(count: nat)
    ensures Encode(count, 0) != [] <==> count < TooLongBit
  {
  }

  /** Reading a node that was written adds it to the node down to the levels wanted, and goes exactly past it. */
  lemma {:induction false} ReadsBack(r: Reader, node: Trie, t: Trie, k: nat, level: nat, s: Shape, at: nat)
    requires Listed(r, t) && Node(t, level, s).Some? && HoldsAt(r.file, at, Node(t, level, s).value)
    ensures r.ReadNode(node, k, Levels(level, s), at)
         == Got(Merge(r, node, t, k, level, s), at + |Node(t, level, s).value|)
    decreases t, |t.kids| + 1
  {
    hide Encode, Decode, HoldsAt, Reader.ReadKids, Listed;
    if level <= s.Depth() {
      LengthExact(t, level, s, r.file, at);
      hide Node, Kids;
      if k > 0 {
        var start := at + Decode(r.file, at).size;
        KidsEmpty(t, level, s);
        KidsBack(r, node, t, 0, k, level, s, start);
      }
    }
  }

  lemma KidsEmpty(t: Trie, level: nat, s: Shape)
    ensures Kids(t, 0, level, s) == Some([])
  {
  }

  /** With i children read, the others are read after them. */
  lemma {:induction false} KidsBack(r: Reader, node: Trie, t: Trie, i: nat, k: nat, level: nat, s: Shape, at: nat)
    requires Listed(r, t) && i <= |t.kids| && k > 0 && level <= s.Depth()
    requires Kids(t, |t.kids|, level, s).Some? && HoldsAt(r.file, at, Kids(t, |t.kids|, level, s).value)
    ensures Kids(t, i, level, s).Some? && Levels(level, s) > 0
    ensures r.ReadKids(MergeKids(r, node, t, i, k, level, s), k, Levels(level, s),
                       at + |Kids(t, i, level, s).value|, at + |Kids(t, |t.kids|, level, s).value|)
         == Got(MergeKids(r, node, t, |t.kids|, k, level, s), at + |Kids(t, |t.kids|, level, s).value|)
    decreases t, |t.kids| - i
  {
    hide Encode, Decode, HoldsAt, Node, Kids, Listed, Written, Reader.ReadNode, Reader.ReadKids, Merge, MergeKids, MergeKid, Skipped;
    KidsPrefix(t, i, |t.kids|, level, s);
    if i == |t.kids| {
      KidsEnd(r, MergeKids(r, node, t, i, k, level, s), k, Levels(level, s), at + |Kids(t, i, level, s).value|);
    } else {
      var kid, off := t.kids[i], at + |Kids(t, i, level, s).value|;
      ListedKid(r, t, i);
      KidThere(r, t, i, level, s, at);
      var end, next := at + |Kids(t, |t.kids|, level, s).value|, at + |Kids(t, i + 1, level, s).value|;
      ReadsKid(r, MergeKids(r, node, t, i, k, level, s), kid, k, level, s, off, next, end);
      MergeNext(r, node, t, i, k, level, s);
      KidsBack(r, node, t, i + 1, k, level, s, at);
    }
  }

  lemma MergeNext(r: Reader, node: Trie, t: Trie, i: nat, k: nat, level: nat, s: Shape)
    requires i < |t.kids| && k > 0
    ensures MergeKids(r, node, t, i + 1, k, level, s) == MergeKid(r, MergeKids(r, node, t, i, k, level, s), t.kids[i], k, level, s)
  {
    hide MergeKid;
  }

  lemma {:induction false} ReadsKid(r: Reader, node: Trie, kid: Kid, k: nat, level: nat, s: Shape, off: nat, next: nat, end: nat)
    requires KidAt(r.file, kid, level, s, off, next) && next <= end && k > 0 && level <= s.Depth()
    requires kid.word < |r.vocabMap| && Listed(r, kid.trie)
    ensures Levels(level, s) > 0
    ensures r.ReadKids(node, k, Levels(level, s), off, end)
         == r.ReadKids(MergeKid(r, node, kid, k, level, s), k, Levels(level, s), next, end)
    decreases kid, 0
  {
    hide Encode, Decode, HoldsAt, Node, Kids, Written, Reader.ReadNode, Reader.ReadKids, Skipped, Listed, ChildOf, WithChild;
    assert Levels(level + 1, s) == Levels(level, s) - 1;
    var count := Written(s, level, kid.trie.count);
    var a, b := |Encode(kid.word, 0)|, |Encode(count, 0)|;
    ReadsBack(r, node, kid.trie, 0, level + 1, s, off + a + b);
    assert Merge(r, node, kid.trie, 0, level + 1, s) == node;
    var into := node;
    hide Merge;
    if !Skipped(r, node, kid.word) {
      NotSkipped(r, node, kid.word);
      var child := ChildOf(node.kids, Named(r, kid.word).value);
      into := Trie(child.count + count, child.kids);
    }
    ReadsBack(r, into, kid.trie, k - 1, level + 1, s, off + a + b);
    OneKid(r, node, k, Levels(level, s), off, end, kid.word, count, a, b, Merge(r, into, kid.trie, k - 1, level + 1, s), next);
  }

  lemma NotSkipped(r: Reader, node: Trie, word: nat)
    requires !Skipped(r, node, word)
    ensures Named(r, word).Some?
  {
  }

  lemma KidsEnd(r: Reader, node: Trie, k: nat, m: nat, end: nat)
    requires k > 0 && m > 0
    ensures r.ReadKids(node, k, m, end, end) == Got(node, end)
  {
  }

  lemma ListedKid(r: Reader, t: Trie, i: nat)
    requires Listed(r, t) && i < |t.kids|
    ensures t.kids[i].word < |r.vocabMap| && Listed(r, t.kids[i].trie)
  {
  }

  // ---------- what adding means ----------

  /** The count of the n-gram that the words g spell. */
  function CountIn(t: Trie, g: seq<nat>): nat
    decreases |g|
  {
    if g == [] then t.count else CountIn(ChildOf(t.kids, g[0]), g[1..])
  }

  function Present(t: Trie, g: seq<nat>): bool
    decreases |g|
  {
    g == [] || (Place(t.kids, g[0]) < |t.kids| && Present(ChildOf(t.kids, g[0]), g[1..]))
  }

  /** What the first k levels of a written trie count for g: over all the words of the file that have its numbers. */
  ghost function Given(r: Reader, t: Trie, g: seq<nat>, k: nat, level: nat, s: Shape): nat
    requires g != []
    decreases t, |t.kids| + 1
  {
    if level > s.Depth() || k == 0 then 0 else GivenBy(r, t, |t.kids|, g, k, level, s)
  }

  ghost function GivenBy(r: Reader, t: Trie, i: nat, g: seq<nat>, k: nat, level: nat, s: Shape): nat
    requires i <= |t.kids| && g != [] && k > 0
    decreases t, i
  {
    if i == 0 then 0
    else GivenBy(r, t, i - 1, g, k, level, s) + GivenByKid(r, t.kids[i-1], g, k, level, s)
  }

  ghost function GivenByKid(r: Reader, kid: Kid, g: seq<nat>, k: nat, level: nat, s: Shape): nat
    requires g != [] && k > 0
    decreases kid, 0
  {
    if Named(r, kid.word) != Some(g[0]) then 0
    else if |g| == 1 then Written(s, level, kid.trie.count)
    else Given(r, kid.trie, g[1..], k - 1, level + 1, s)
  }

  lemma ChildAfter(t: Trie, word: nat, child: Trie, x: nat)
    ensures ChildOf(WithChild(t, word, child).kids, x) == if x == word then child else ChildOf(t.kids, x)
    ensures Place(WithChild(t, word, child).kids, x) < |WithChild(t, word, child).kids|
       <==> x == word || Place(t.kids, x) < |t.kids|
  {
    hide Place;
    var was, now := t.kids, WithChild(t, word, child).kids;
    var q, p := Place(was, word), Place(was, x);
    assert now[q] == Kid(word, child) && forall j | 0 <= j < |was| && j != q :: now[j] == was[j];
    FirstPlace(now, word, q);
    if x != word && p < |was| {
      FirstPlace(now, x, p);
    }
  }

  lemma FirstPlace(kids: seq<Kid>, word: nat, p: nat)
    requires p < |kids| && kids[p].word == word && forall j | 0 <= j < p :: kids[j].word != word
    ensures Place(kids, word) == p
  {
    hide Place;
  }

  /** Whether what is added counts for g. */
  ghost predicate Counts(r: Reader, node: Trie, g: seq<nat>) {
    g != [] && (r.intersect ==> Present(node, g))
  }

  /** One child adds its counts, and under intersection makes nothing present that was not. */
  lemma {:induction false} MergeKidCounts(r: Reader, node: Trie, kid: Kid, k: nat, level: nat, s: Shape, g: seq<nat>)
    requires k > 0
    ensures CountIn(MergeKid(r, node, kid, k, level, s), g)
         == CountIn(node, g) + if Counts(r, node, g) then GivenByKid(r, kid, g, k, level, s) else 0
    ensures r.intersect ==> (Present(MergeKid(r, node, kid, k, level, s), g) <==> Present(node, g))
    decreases kid, 0
  {
    hide Place, Merge, Given, Written;
    if !Skipped(r, node, kid.word) && g != [] {
      var wid := Named(r, kid.word).value;
      var child := ChildOf(node.kids, wid);
      var count := Written(s, level, kid.trie.count);
      var into := Trie(child.count + count, child.kids);
      var merged := Merge(r, into, kid.trie, k - 1, level + 1, s);
      hide ChildOf, WithChild;
      ChildAfter(node, wid, merged, g[0]);
      MergeCounts(r, into, kid.trie, k - 1, level + 1, s, g[1..]);
      OnlyCount(child, count, g[1..]);
    }
  }

  lemma OnlyCount(t: Trie, more: nat, g: seq<nat>)
    ensures CountIn(Trie(t.count + more, t.kids), g) == CountIn(t, g) + if g == [] then more else 0
    ensures Present(Trie(t.count + more, t.kids), g) <==> Present(t, g)
  {
  }

  /** Reading adds to every n-gram what the file counts for it: all of it, or only where the n-gram is there already. */
  lemma {:induction false} MergeCounts(r: Reader, node: Trie, t: Trie, k: nat, level: nat, s: Shape, g: seq<nat>)
    ensures CountIn(Merge(r, node, t, k, level, s), g)
         == CountIn(node, g) + if Counts(r, node, g) then Given(r, t, g, k, level, s) else 0
    ensures r.intersect ==> (Present(Merge(r, node, t, k, level, s), g) <==> Present(node, g))
    decreases t, |t.kids| + 1
  {
    hide MergeKids, CountIn, Present, GivenBy;
    if level <= s.Depth() && k > 0 {
      MergeKidsCounts(r, node, t, |t.kids|, k, level, s, g);
    }
  }

  lemma {:induction false} MergeKidsCounts(r: Reader, node: Trie, t: Trie, i: nat, k: nat, level: nat, s: Shape, g: seq<nat>)
    requires i <= |t.kids| && k > 0
    ensures CountIn(MergeKids(r, node, t, i, k, level, s), g)
         == CountIn(node, g) + if Counts(r, node, g) then GivenBy(r, t, i, g, k, level, s) else 0
    ensures r.intersect ==> (Present(MergeKids(r, node, t, i, k, level, s), g) <==> Present(node, g))
    decreases t, i
  {
    hide MergeKid, CountIn, Present, GivenByKid;
    if i > 0 {
      MergeKidsCounts(r, node, t, i - 1, k, level, s, g);
      MergeKidCounts(r, MergeKids(r, node, t, i - 1, k, level, s), t.kids[i-1], k, level, s, g);
    }
  }

  // ---------- counts of one order ----------

  /** A file written with an order counts n-grams of that order only, and these as a whole file does. */
  lemma {:induction false} GivenAtOrder(r: Reader, t: Trie, g: seq<nat>, k: nat, level: nat, s: Shape)
    requires g != [] && s.order > 0
    ensures Given(r, t, g, k, level, s)
         == if level + |g| == s.order + 1 then Given(r, t, g, k, level, Shape(0, s.order)) else 0
    decreases t, |t.kids| + 1
  {
    if level <= s.order && k > 0 {
      GivenByOrder(r, t, |t.kids|, g, k, level, s);
    }
  }

  lemma {:induction false} GivenByOrder(r: Reader, t: Trie, i: nat, g: seq<nat>, k: nat, level: nat, s: Shape)
    requires i <= |t.kids| && g != [] && k > 0 && 0 < s.order && level <= s.order
    ensures GivenBy(r, t, i, g, k, level, s)
         == if level + |g| == s.order + 1 then GivenBy(r, t, i, g, k, level, Shape(0, s.order)) else 0
    decreases t, i
  {
    hide Given, Named;
    if i > 0 {
      GivenByOrder(r, t, i - 1, g, k, level, s);
      if |g| > 1 {
        GivenAtOrder(r, t.kids[i-1].trie, g[1..], k - 1, level + 1, s);
      }
    }
  }

  /** Every word has its own number. */
  ghost predicate OwnNumbers(r: Reader) {
    forall w | 0 <= w < |r.vocabMap| :: r.vocabMap[w] == Some(w)
  }

  /** Where every word has its own number, a whole file counts for an n-gram what the trie counts for it. */
  lemma {:induction false} GivenOwn(r: Reader, t: Trie, g: seq<nat>, k: nat, level: nat, n: nat)
    requires g != [] && Known(r, t) && OwnNumbers(r)
    ensures Given(r, t, g, k, level, Shape(0, n)) == if |g| <= k && level + |g| <= n + 1 then CountIn(t, g) else 0
    decreases t, 0
  {
    hide Known, OwnNumbers, GivenBy, Place, Written;
    if level <= n && k > 0 {
      var q := Place(t.kids, g[0]);
      OneGiver(r, t, |t.kids|, g, k, level, n);
      if q < |t.kids| {
        KnownKid(r, t, q);
        OwnNamed(r, t.kids[q].word);
        if |g| > 1 {
          GivenOwn(r, t.kids[q].trie, g[1..], k - 1, level + 1, n);
        } else {
          assert g[1..] == [];
          assert Written(Shape(0, n), level, t.kids[q].trie.count) == t.kids[q].trie.count by { WholeWritten(n, level, t.kids[q].trie.count); }
        }
      } else {
        EmptyCounts(g[1..]);
      }
    }
  }

  lemma WholeWritten(n: nat, level: nat, count: nat)
    ensures Written(Shape(0, n), level, count) == count
  {
  }

  lemma OwnNamed(r: Reader, word: nat)
    requires OwnNumbers(r) && Named(r, word).Some?
    ensures Named(r, word) == Some(word)
  {
  }

  lemma {:induction false} EmptyCounts(g: seq<nat>)
    ensures CountIn(Trie(0, []), g) == 0
    decreases |g|
  {
    if g != [] {
      EmptyCounts(g[1..]);
    }
  }

  /** Only the child with the n-gram's first word counts for it. */
  lemma {:induction false} OneGiver(r: Reader, t: Trie, i: nat, g: seq<nat>, k: nat, level: nat, n: nat)
    requires i <= |t.kids| && g != [] && k > 0 && Known(r, t) && OwnNumbers(r)
    ensures var q := Place(t.kids, g[0]);
            GivenBy(r, t, i, g, k, level, Shape(0, n)) == if q < i then GivenByKid(r, t.kids[q], g, k, level, Shape(0, n)) else 0
    decreases i
  {
    hide Given, Place, OwnNumbers, Named, Written;
    if i > 0 {
      OneGiver(r, t, i - 1, g, k, level, n);
      KnownKid(r, t, i - 1);
      OwnNamed(r, t.kids[i-1].word);
      var q := Place(t.kids, g[0]);
      if q < i - 1 {
        KnownKid(r, t, q);
        OwnNamed(r, t.kids[q].word);
        assert Named(r, t.kids[q].word) != Named(r, t.kids[i-1].word);
      }
    }
  }

  /** What is read back from a file written with an order: the counts of that order, if the levels wanted go so deep,
      and no others. */
  lemma OrderReadBack(r: Reader, t: Trie, s: Shape, k: nat, at: nat, g: seq<nat>)
    requires !r.intersect && Known(r, t) && OwnNumbers(r) && s.order > 0 && g != []
    requires Node(t, 1, s).Some? && HoldsAt(r.file, at, Node(t, 1, s).value)
    ensures var read := r.ReadNode(Trie(0, []), k, s.order, at);
            && read.Got? && read.offset == at + |Node(t, 1, s).value|
            && CountIn(read.node, g) == if |g| == s.order <= k then CountIn(t, g) else 0
  {
    hide Node, Known, HoldsAt, Listed, Merge, Given, CountIn, OwnNumbers;
    KnownListed(r, t);
    ReadsBack(r, Trie(0, []), t, k, 1, s, at);
    MergeCounts(r, Trie(0, []), t, k, 1, s, g);
    EmptyCounts(g);
    GivenAtOrder(r, t, g, k, 1, s);
    GivenOwn(r, t, g, k, 1, s.order);
  }

  // ---------- into an empty node ----------

  /** Every word has a number, and no node has two children of one number. */
  ghost predicate Known(r: Reader, t: Trie)
    decreases t
  {
    && (forall i | 0 <= i < |t.kids| :: Named(r, t.kids[i].word).Some? && Known(r, t.kids[i].trie))
    && forall i, j | 0 <= i < j < |t.kids| :: Named(r, t.kids[i].word) != Named(r, t.kids[j].word)
  }

  lemma {:induction false} KnownListed(r: Reader, t: Trie)
    requires Known(r, t)
    ensures Listed(r, t)
    decreases t
  {
    forall i | 0 <= i < |t.kids| ensures t.kids[i].word < |r.vocabMap| && Listed(r, t.kids[i].trie) {
      KnownListed(r, t.kids[i].trie);
    }
  }

  /** The trie down to k levels, its words by their numbers in the vocabulary. */
  function Renumbered(r: Reader, t: Trie, k: nat): Trie
    decreases t
  {
    if k == 0 then Trie(t.count, [])
    else Trie(t.count, seq(|t.kids|, i requires 0 <= i < |t.kids| => RenumberedKid(r, t, i, k)))
  }

  function RenumberedKid(r: Reader, t: Trie, i: nat, k: nat): Kid
    requires i < |t.kids| && k > 0
    decreases t, 0
  {
    var word := Named(r, t.kids[i].word);
    Kid(if word.Some? then word.value else 0, Renumbered(r, t.kids[i].trie, k - 1))
  }

  ghost predicate Within(t: Trie, k: nat)
    decreases t
  {
    if k == 0 then t.kids == [] else forall i | 0 <= i < |t.kids| :: Within(t.kids[i].trie, k - 1)
  }

  /** With every word under its own number, renumbering to the depth of the trie changes nothing. */
  lemma {:induction false} RenumberedSame(r: Reader, t: Trie, k: nat)
    requires Within(t, k) && Listed(r, t) && forall w | 0 <= w < |r.vocabMap| :: r.vocabMap[w] == Some(w)
    ensures Renumbered(r, t, k) == t
    decreases t
  {
    if k > 0 {
      forall i | 0 <= i < |t.kids| ensures RenumberedKid(r, t, i, k) == t.kids[i] {
        RenumberedSame(r, t.kids[i].trie, k - 1);
      }
    }
  }

  function Least(a: nat, b: nat): nat {
    if a < b then a else b
  }

  /** Added to an empty node, all children of a trie are new. */
  lemma {:induction false} MergeEmpty(r: Reader, t: Trie, k: nat, level: nat, s: Shape)
    requires !r.intersect && Known(r, t) && s.order == 0
    ensures Merge(r, Trie(t.count, []), t, k, level, s) == Renumbered(r, t, Least(k, Levels(level, s)))
    decreases t, |t.kids| + 1
  {
    hide Known, Named;
    if level <= s.Depth() && k > 0 {
      MergeNew(r, t, |t.kids|, k, level, s);
    }
  }

  lemma {:induction false} MergeNew(r: Reader, t: Trie, i: nat, k: nat, level: nat, s: Shape)
    requires !r.intersect && Known(r, t) && s.order == 0 && i <= |t.kids| && k > 0 && level <= s.Depth()
    ensures Least(k, Levels(level, s)) > 0 && |Renumbered(r, t, Least(k, Levels(level, s))).kids| == |t.kids|
    ensures MergeKids(r, Trie(t.count, []), t, i, k, level, s)
         == Trie(t.count, Renumbered(r, t, Least(k, Levels(level, s))).kids[..i])
    decreases t, i
  {
    hide Known, Named, Merge, WithChild, ChildOf, Place, Skipped;
    var kids := Renumbered(r, t, Least(k, Levels(level, s))).kids;
    if i > 0 {
      MergeNew(r, t, i - 1, k, level, s);
      var kid, before := t.kids[i-1], Trie(t.count, kids[..i-1]);
      NewKid(r, t, i - 1, Least(k, Levels(level, s)));
      KnownKid(r, t, i - 1);
      MergeEmpty(r, kid.trie, k - 1, level + 1, s);
      var wid := Named(r, kid.word).value;
      NewChild(before, wid, Renumbered(r, kid.trie, Least(k, Levels(level, s)) - 1));
      assert kids[i-1] == RenumberedKid(r, t, i - 1, Least(k, Levels(level, s)));
      assert !Skipped(r, before, kid.word) by { NotSkippedNew(r, before, kid.word); }
      assert kids[..i] == kids[..i-1] + [kids[i-1]];
    }
  }

  lemma NotSkippedNew(r: Reader, node: Trie, word: nat)
    requires !r.intersect && Named(r, word).Some?
    ensures !Skipped(r, node, word)
  {
  }

  lemma KnownKid(r: Reader, t: Trie, i: nat)
    requires Known(r, t) && i < |t.kids|
    ensures Named(r, t.kids[i].word).Some? && Known(r, t.kids[i].trie)
  {
  }

  lemma NewKid(r: Reader, t: Trie, i: nat, k: nat)
    requires Known(r, t) && i < |t.kids| && k > 0
    ensures Named(r, t.kids[i].word).Some? && |Renumbered(r, t, k).kids| == |t.kids|
    ensures Place(Renumbered(r, t, k).kids[..i], Named(r, t.kids[i].word).value) == i
  {
    hide Named, Place;
    var kids := Renumbered(r, t, k).kids;
    var wid := Named(r, t.kids[i].word).value;
    forall j | 0 <= j < i ensures kids[..i][j].word != wid {
      assert kids[j] == RenumberedKid(r, t, j, k);
      assert Named(r, t.kids[j].word).Some?;
    }
  }

  lemma NewChild(node: Trie, word: nat, child: Trie)
    requires Place(node.kids, word) == |node.kids|
    ensures WithChild(node, word, child) == Trie(node.count, node.kids + [Kid(word, child)])
    ensures ChildOf(node.kids, word) == Trie(0, [])
  {
    hide Place;
  }

  /** A trie of n levels, written whole and read down to k of them into an empty node, comes back down to k levels,
      its words by their numbers in the vocabulary: the same trie if these are their own and k is enough. */
  lemma RoundTrip(r: Reader, t: Trie, n: nat, k: nat, at: nat)
    requires !r.intersect && Known(r, t) && Within(t, n)
    requires Node(t, 1, Shape(0, n)).Some? && HoldsAt(r.file, at, Node(t, 1, Shape(0, n)).value)
    ensures r.ReadNode(Trie(t.count, []), k, n, at)
         == Got(Renumbered(r, t, Least(k, n)), at + |Node(t, 1, Shape(0, n)).value|)
    ensures k >= n && (forall w | 0 <= w < |r.vocabMap| :: r.vocabMap[w] == Some(w)) ==> Renumbered(r, t, Least(k, n)) == t
  {
    hide Node, Known, HoldsAt, Renumbered, Listed, Within;
    KnownListed(r, t);
    ReadsBack(r, Trie(t.count, []), t, k, 1, Shape(0, n), at);
    MergeEmpty(r, t, k, 1, Shape(0, n));
    if k >= n && forall w | 0 <= w < |r.vocabMap| :: r.vocabMap[w] == Some(w) {
      RenumberedSame(r, t, n);
    }
  }

  // ---------- the two programs ----------

  /** Bytes written over those from p on. */
  ghost function Overwrite(d: seq<nat>, p: nat, s: seq<nat>): (r: seq<nat>)
    requires p <= |d|
    ensures |r| >= p + |s| && |r| >= |d|
  {
    d[..p] + s + if p + |s| < |d| then d[p+|s|..] else []
  }

  lemma OverwriteOn(d: seq<nat>, p: nat, a: seq<nat>, b: seq<nat>)
    requires p <= |d|
    ensures Overwrite(Overwrite(d, p, a), p + |a|, b) == Overwrite(d, p, a + b)
  {
  }

  /** Writing over the start of what was written, or over all of it. */
  lemma OverwriteAgain(d: seq<nat>, p: nat, a: seq<nat>, b: seq<nat>)
    requires p <= |d|
    ensures |b| <= |a| ==> Overwrite(Overwrite(d, p, a), p, b) == Overwrite(d, p, b + a[|b|..])
    ensures |b| >= |a| ==> Overwrite(Overwrite(d, p, a), p, b) == Overwrite(d, p, b)
  {
  }

  lemma OverwriteNone(d: seq<nat>, p: nat)
    requires p <= |d|
    ensures Overwrite(d, p, []) == d
  {
  }

  /** A zero and the children written over what an earlier try left, and then the length over the zero. */
  lemma Patched(was: seq<nat>, start: nat, junk: seq<nat>, zero: seq<nat>, body: seq<nat>, length: seq<nat>)
    requires start <= |was| && |junk| <= |zero + body| && |length| <= |zero + body|
    ensures var first := zero + body;
            && Overwrite(Overwrite(Overwrite(was, start, junk), start, zero), start + |zero|, body) == Overwrite(was, start, first)
            && Overwrite(Overwrite(was, start, first), start, length) == Overwrite(was, start, length + first[|length|..])
            && (|length| == |zero| ==> first[|length|..] == body)
  {
    hide Overwrite;
    OverwriteOn(Overwrite(was, start, junk), start, zero, body);
    OverwriteAgain(was, start, junk, zero + body);
    OverwriteAgain(was, start, zero + body, length);
  }

  class File {
    var data: seq<nat>
    var at: nat

    method Put(s: seq<nat>)
      requires at <= |data|
      modifies this
      ensures data == Overwrite(old(data), old(at), s) && at == old(at) + |s|
    {
      data := data[..at] + s + if at + |s| < |data| then data[at+|s|..] else [];
      at := at + |s|;
    }

    method Seek(to: nat)
      modifies this`at
      ensures at == to
    {
      at := to;
    }
  }

  /** Writes a node over what is in the file from here on. The length is written as zero, the children after it, and
      then the length over the zero; if it needs more bytes than were left for it, all is written again. */
  method WriteNode(f: File, t: Trie, level: nat, s: Shape) returns (ok: bool)
    requires f.at <= |f.data|
    modifies f
    ensures ok <==> Node(t, level, s).Some?
    ensures ok ==> f.data == Overwrite(old(f.data), old(f.at), Node(t, level, s).value)
    ensures ok ==> f.at == old(f.at) + |Node(t, level, s).value|
    decreases t, |t.kids| + 2
  {
    hide Encode, Overwrite, Kids, Width;
    OverwriteNone(f.data, f.at);
    if level > s.Depth() {
      return true;
    }
    var offsetBytes, start := Guess(s.Depth() - level), f.at;
    ghost var was, junk: seq<nat> := f.data, [];
    ghost var body := Kids(t, |t.kids|, level, s);
    while true
      modifies f
      invariant offsetBytes == 2 || offsetBytes == 4 || offsetBytes == 8
      invariant f.at == start && f.data == Overwrite(was, start, junk)
      invariant junk != [] ==> body.Some? && |junk| < offsetBytes + |body.value|
      invariant body.Some? ==> Width(Guess(s.Depth() - level), |body.value|) == Width(offsetBytes, |body.value|)
      decreases 8 - offsetBytes
    {
      var width;
      ok, width := TryNode(f, t, level, s, offsetBytes, was, junk);
      if !ok {
        return;
      }
      if width > offsetBytes {
        ZeroEncodes(offsetBytes);
        junk := Encode(offsetBytes + |body.value|, offsetBytes) + (Encode(0, offsetBytes) + body.value)[width..];
        offsetBytes := width;
        f.Seek(start);
      } else {
        return true;
      }
    }
  }

  /** Writes a node with so many bytes for its length, over what an earlier try left. */
  method TryNode(f: File, t: Trie, level: nat, s: Shape, offsetBytes: nat, ghost was: seq<nat>, ghost junk: seq<nat>)
    returns (ok: bool, width: nat)
    requires offsetBytes == 2 || offsetBytes == 4 || offsetBytes == 8
    requires f.at <= |was| && f.data == Overwrite(was, f.at, junk)
    requires junk != [] ==> Kids(t, |t.kids|, level, s).Some? && |junk| < offsetBytes + |Kids(t, |t.kids|, level, s).value|
    modifies f
    ensures ok ==> Kids(t, |t.kids|, level, s).Some?
    ensures ok ==> var body := Kids(t, |t.kids|, level, s).value;
                   && width == |Encode(offsetBytes + |body|, offsetBytes)| && offsetBytes <= width <= offsetBytes + |body|
                   && f.data == Overwrite(was, old(f.at), Encode(offsetBytes + |body|, offsetBytes)
                                                          + (Encode(0, offsetBytes) + body)[width..])
                   && f.at == old(f.at) + offsetBytes + |body|
                   && (width == offsetBytes ==> (Encode(0, offsetBytes) + body)[width..] == body)
                   && (width == offsetBytes ==> Width(offsetBytes, |body|) == width)
                   && (width > offsetBytes ==> Width(offsetBytes, |body|) == Width(width, |body|) && (width == 4 || width == 8))
    ensures !ok ==> Kids(t, |t.kids|, level, s).None? || Width(offsetBytes, |Kids(t, |t.kids|, level, s).value|) == 0
    decreases t, |t.kids| + 1
  {
    hide Encode, Overwrite, Kids, Width;
    width := 0;
    var start := f.at;
    ZeroEncodes(offsetBytes);
    f.Put(Encode(0, offsetBytes));
    ok := WriteKids(f, t, level, s);
    if !ok {
      return;
    }
    ghost var body := Kids(t, |t.kids|, level, s).value;
    var end := f.at;
    var length := Encode(end - start, offsetBytes);
    WidthNext(offsetBytes, |body|);
    if length == [] {
      return false, 0;
    }
    Patched(was, start, junk, Encode(0, offsetBytes), body, length);
    f.Seek(start);
    f.Put(length);
    width := |length|;
    f.Seek(end);
  }

  lemma ZeroEncodes(width: nat)
    requires width == 2 || width == 4 || width == 8
    ensures |Encode(0, width)| == width
  {
  }

  lemma WidthNext(width: nat, body: nat)
    requires width == 2 || width == 4 || width == 8
    ensures var n := |Encode(width + body, width)|;
            && (n == 0 || n >= width) && (n == 0 || n == width ==> Width(width, body) == n)
            && (n != 0 && n != width ==> Width(width, body) == Width(n, body) && (n == 4 || n == 8) && n > width)
            && (n > width ==> n <= width + body)
  {
  }

  /** Writes the children one after another. */
  method WriteKids(f: File, t: Trie, level: nat, s: Shape) returns (ok: bool)
    requires f.at <= |f.data|
    modifies f
    ensures ok <==> Kids(t, |t.kids|, level, s).Some?
    ensures ok ==> f.data == Overwrite(old(f.data), old(f.at), Kids(t, |t.kids|, level, s).value)
    ensures ok ==> f.at == old(f.at) + |Kids(t, |t.kids|, level, s).value|
    decreases t, |t.kids|
  {
    hide Encode, Overwrite, Node;
    ghost var was, start := f.data, f.at;
    OverwriteNone(was, start);
    for i := 0 to |t.kids|
      modifies f
      invariant Kids(t, i, level, s).Some? && f.at <= |f.data|
      invariant f.data == Overwrite(was, start, Kids(t, i, level, s).value)
      invariant f.at == start + |Kids(t, i, level, s).value|
    {
      ghost var before := Kids(t, i, level, s).value;
      ghost var whole := Kids(t, i + 1, level, s);
      var word, count := Encode(t.kids[i].word, 0), Encode(Written(s, level, t.kids[i].trie.count), 0);
      if whole.None? {
        NoneLater(t, i + 1, level, s);
      }
      if word == [] {
        return false;
      }
      f.Put(word);
      if count == [] {
        return false;
      }
      f.Put(count);
      OverwriteOn(was, start, before, word);
      OverwriteOn(was, start, before + word, count);
      ok := WriteNode(f, t.kids[i].trie, level + 1, s);
      if !ok {
        return;
      }
      OverwriteOn(was, start, before + word + count, Node(t.kids[i].trie, level + 1, s).value);
    }
    ok := true;
  }

  lemma {:induction false} NoneLater(t: Trie, i: nat, level: nat, s: Shape)
    requires i <= |t.kids| && Kids(t, i, level, s).None?
    ensures Kids(t, |t.kids|, level, s).None?
  {
    if Kids(t, |t.kids|, level, s).Some? {
      KidsPrefix(t, i, |t.kids|, level, s);
    }
  }

  /** Reads a node; the position comes back with it. */
  method ReadNode(r: Reader, node: Trie, order: nat, maxOrder: nat, offset: nat) returns (result: Read)
    ensures result == r.ReadNode(node, order, maxOrder, offset)
    decreases maxOrder, 1
  {
    hide Decode, Place, WithChild, ChildOf;
    if maxOrder == 0 {
      return Got(node, offset);
    }
    var length := Decode(r.file, offset);
    if length.Bad? {
      return Failed;
    }
    if order == 0 {
      return Got(node, offset + length.count);
    }
    var now, at: nat, end: nat := node, offset + length.size, offset + length.count;
    while at < end
      invariant r.ReadKids(now, order, maxOrder, at, end) == r.ReadNode(node, order, maxOrder, offset)
      decreases r.Left(at)
    {
      var ok;
      ok, now, at := ReadKid(r, now, order, maxOrder, at, end);
      if !ok {
        return Failed;
      }
    }
    result := if at == end then Got(now, at) else Failed;
  }

  /** One child of a node: its word, its count, and its subtrie, which is passed over if the word is not wanted. */
  method ReadKid(r: Reader, node: Trie, order: nat, maxOrder: nat, offset: nat, ghost end: nat)
    returns (ok: bool, now: Trie, at: nat)
    requires order > 0 && maxOrder > 0 && offset < end
    ensures r.ReadKids(node, order, maxOrder, offset, end)
         == if ok then r.ReadKids(now, order, maxOrder, at, end) else Failed
    ensures ok ==> r.Left(at) < r.Left(offset)
    decreases maxOrder, 0
  {
    hide Decode, Place, ChildOf, WithChild, Reader.ReadNode;
    now, at := node, offset;
    var word := Decode(r.file, offset);
    if word.Bad? || word.count >= |r.vocabMap| {
      return false, now, at;
    }
    var count := Decode(r.file, offset + word.size);
    if count.Bad? {
      return false, now, at;
    }
    var next, wid := offset + word.size + count.size, r.vocabMap[word.count];
    var sub;
    if wid.None? || (r.intersect && Place(node.kids, wid.value) == |node.kids|) {
      sub := ReadNode(r, node, 0, maxOrder - 1, next);
    } else {
      var child := ChildOf(node.kids, wid.value);
      sub := ReadNode(r, Trie(child.count + count.count, child.kids), order - 1, maxOrder - 1, next);
      if sub.Got? {
        now := WithChild(node, wid.value, sub.node);
      }
    }
    if sub.Failed? {
      return false, now, at;
    }
    ok, at := true, sub.offset;
  }
}
