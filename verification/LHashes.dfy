/** A hash table that is a packed list while small and probes one slot after another when larger, with deletion
    that moves later entries back into the hole it makes. */
module LHashes {
  import Probing

  datatype Entry<K, V> = Free | Entry(key: K, value: V)

  const MinHashBits: nat := 3

  function HashSize(bits: nat): (n: nat)
    ensures n > bits
  {
    if bits == 0 then 1 else 2 * HashSize(bits - 1)
  }

  /** The least size for so many entries: small tables may be full, larger ones four fifths. */
  function RoundSize(size: nat): (n: nat)
    ensures n >= size && (size >= HashSize(MinHashBits) ==> n > size)
  {
    if size < HashSize(MinHashBits) then size else (size + 1) * 5 / 4
  }

  /** As many as asked for where they are listed; where they are hashed, five for every four of one more, rounded
      down. */
  lemma RoundSizeIs(size: nat)
    ensures HashSize(MinHashBits) == 8
    ensures size < 8 ==> RoundSize(size) == size
    ensures size >= 8 ==> 4 * RoundSize(size) <= 5 * (size + 1) < 4 * (RoundSize(size) + 1)
  {
    assert HashSize(0) == 1 && HashSize(1) == 2 && HashSize(2) == 4 && HashSize(3) == 8;
  }

  /** The slot s steps after h. */
  function Slot(h: nat, s: nat, m: nat): (p: nat)
    requires m > 0
    ensures p < m
  {
    (h + s) % m
  }

  lemma SlotStart(h: nat, m: nat)
    requires h < m
    ensures Slot(h, 0, m) == h
  {
  }

  lemma SlotAdd(h: nat, s: nat, u: nat, m: nat)
    requires m > 0
    ensures Slot(Slot(h, s, m), u, m) == Slot(h, s + u, m)
  {
    Probing.ModAdd(h + s, u, m);
  }

  /** Fewer than m steps never come back to the same slot. */
  lemma SlotsDiffer(h: nat, s: nat, t: nat, m: nat)
    requires s < t < m
    ensures Slot(h, s, m) != Slot(h, t, m)
  {
    if Slot(h, s, m) == Slot(h, t, m) {
      var q := Probing.SameRemainder(h + t, h + s, m);
      Probing.SmallMultiple(m, q);
    }
  }

  /** Every slot is some number of steps ahead. */
  lemma SlotAhead(h: nat, p: nat, m: nat) returns (s: nat)
    requires h < m && p < m
    ensures s < m && Slot(h, s, m) == p
  {
    s := if p >= h then p - h else p + m - h;
    if p < h {
      Probing.Remainder(p + m, m, 1, p);
    }
  }

  // ---------- what a table holds ----------

  ghost predicate Unique<K, V>(d: seq<Entry<K, V>>) {
    forall p, q | 0 <= p < |d| && 0 <= q < |d| && d[p].Entry? && d[q].Entry? && d[p].key == d[q].key :: p == q
  }

  ghost predicate Has<K, V>(d: seq<Entry<K, V>>, k: K, v: V) {
    Entry(k, v) in d
  }

  /** The entries are those of the map, each once. */
  ghost predicate Holds<K(!new), V(!new)>(d: seq<Entry<K, V>>, m: map<K, V>) {
    && Unique(d)
    && (forall p | 0 <= p < |d| && d[p].Entry? :: d[p].key in m && m[d[p].key] == d[p].value)
    && forall k | k in m :: Has(d, k, m[k])
  }

  lemma AllFree<K(!new), V(!new)>(d: seq<Entry<K, V>>)
    requires forall p | 0 <= p < |d| :: d[p].Free?
    ensures Holds(d, map[])
  {
  }

  lemma PutHolds<K(!new), V(!new)>(d: seq<Entry<K, V>>, m: map<K, V>, p: nat, k: K, v: V)
    requires Holds(d, m) && p < |d| && d[p].Free? && k !in m
    ensures Holds(d[p := Entry(k, v)], m[k := v])
  {
    var e, more := d[p := Entry(k, v)], m[k := v];
    forall l | l in more ensures Has(e, l, more[l]) {
      if l == k {
        assert e[p] == Entry(k, v);
      } else {
        var q :| 0 <= q < |d| && d[q] == Entry(l, m[l]);
        assert e[q] == d[q];
      }
    }
  }

  lemma DropHolds<K(!new), V(!new)>(d: seq<Entry<K, V>>, m: map<K, V>, p: nat)
    requires Holds(d, m) && p < |d| && d[p].Entry?
    ensures Holds(d[p := Free], m - {d[p].key})
  {
    var e := d[p := Free];
    forall l | l in m && l != d[p].key ensures Has(e, l, m[l]) {
      var q :| 0 <= q < |d| && d[q] == Entry(l, m[l]);
      assert e[q] == d[q];
    }
  }

  lemma MoveHolds<K(!new), V(!new)>(d: seq<Entry<K, V>>, m: map<K, V>, p: nat, q: nat)
    requires Holds(d, m) && p < |d| && q < |d| && d[p].Entry? && d[q].Free?
    ensures Holds(d[q := d[p]][p := Free], m)
  {
    var e := d[q := d[p]][p := Free];
    forall l | l in m ensures Has(e, l, m[l]) {
      var r :| 0 <= r < |d| && d[r] == Entry(l, m[l]);
      if r == p {
        assert e[q] == d[p];
      } else {
        assert e[r] == d[r];
      }
    }
  }

  ghost function Keys<K(!new), V>(d: seq<Entry<K, V>>, n: nat): set<K>
    requires n <= |d| && forall p | 0 <= p < n :: d[p].Entry?
  {
    set p | 0 <= p < n :: d[p].key
  }

  lemma {:induction false} KeysCount<K(!new), V>(d: seq<Entry<K, V>>, n: nat)
    requires n <= |d| && Unique(d) && forall p | 0 <= p < n :: d[p].Entry?
    ensures |Keys(d, n)| == n
  {
    if n > 0 {
      KeysCount(d, n - 1);
      assert d[n-1].key !in Keys(d, n - 1);
      assert Keys(d, n) == Keys(d, n - 1) + {d[n-1].key};
    }
  }

  /** A table with more slots than entries has a free one. */
  lemma FreeSlot<K(!new), V(!new)>(d: seq<Entry<K, V>>, m: map<K, V>) returns (p: nat)
    requires Holds(d, m) && |m| < |d|
    ensures p < |d| && d[p].Free?
  {
    if forall p | 0 <= p < |d| :: d[p].Entry? {
      KeysCount(d, |d|);
      assert Keys(d, |d|) <= m.Keys;
      Probing.SubsetSize(Keys(d, |d|), m.Keys);
    }
    p :| 0 <= p < |d| && d[p].Free?;
  }

  // ---------- probing ----------

  /** The first t slots from h are taken, leaving hole out of account (no slot is, if hole is |d|). */
  ghost predicate Passed<K(!new), V(!new)>(d: seq<Entry<K, V>>, h: nat, t: nat, hole: nat)
    requires |d| > 0
  {
    forall s | 0 <= s < t :: Slot(h, s, |d|) == hole || d[Slot(h, s, |d|)].Entry?
  }

  ghost predicate ReachedAt<K(!new), V(!new)>(d: seq<Entry<K, V>>, h: nat, p: nat, t: nat, hole: nat)
    requires |d| > 0
  {
    t < |d| && Slot(h, t, |d|) == p && Passed(d, h, t, hole)
  }

  ghost predicate Reached<K(!new), V(!new)>(d: seq<Entry<K, V>>, h: nat, p: nat, hole: nat)
    requires |d| > 0
  {
    exists t: nat :: ReachedAt(d, h, p, t, hole)
  }

  /** Every entry is reached from its home slot with no free slot between, but perhaps the hole. */
  ghost predicate Probed<K(!new), V(!new)>(d: seq<Entry<K, V>>, home: K -> nat, hole: nat) {
    |d| > 0 && forall p | 0 <= p < |d| && d[p].Entry? :: Reached(d, home(d[p].key), p, hole)
  }

  lemma ProbedAt<K(!new), V(!new)>(d: seq<Entry<K, V>>, home: K -> nat, hole: nat, p: nat) returns (t: nat)
    requires Probed(d, home, hole) && p < |d| && d[p].Entry?
    ensures ReachedAt(d, home(d[p].key), p, t, hole)
  {
    assert Reached(d, home(d[p].key), p, hole);
    t :| ReachedAt(d, home(d[p].key), p, t, hole);
  }

  /** Where the search for a key stops: at the key, or at the first free slot. */
  ghost predicate Stops<K(!new), V(!new)>(d: seq<Entry<K, V>>, h: nat, k: K, p: nat, t: nat)
    requires |d| > 0
  {
    && ReachedAt(d, h, p, t, |d|) && (d[p].Free? || d[p].key == k)
    && forall s | 0 <= s < t :: d[Slot(h, s, |d|)].Entry? && d[Slot(h, s, |d|)].key != k
  }

  /** A search that stops at a free slot has shown the key absent. */
  lemma Absent<K(!new), V(!new)>(d: seq<Entry<K, V>>, m: map<K, V>, home: K -> nat, k: K, p: nat, t: nat)
    requires Holds(d, m) && Probed(d, home, |d|) && Stops(d, home(k), k, p, t) && d[p].Free?
    ensures k !in m
  {
    if k in m {
      Present(d, m, home, k, p, t);
    }
  }

  /** A key that is there is found. */
  lemma Present<K(!new), V(!new)>(d: seq<Entry<K, V>>, m: map<K, V>, home: K -> nat, k: K, p: nat, t: nat)
    requires Holds(d, m) && Probed(d, home, |d|) && Stops(d, home(k), k, p, t) && k in m
    ensures d[p].Entry?
  {
    hide Slot;
    assert Has(d, k, m[k]);
    var q :| 0 <= q < |d| && d[q] == Entry(k, m[k]);
    var u := ProbedAt(d, home, |d|, q);
    NotBoth(d, home(k), k, p, t, q, u);
  }

  lemma NotBoth<K(!new), V(!new)>(d: seq<Entry<K, V>>, h: nat, k: K, p: nat, t: nat, q: nat, u: nat)
    requires |d| > 0 && Stops(d, h, k, p, t) && q < |d| && d[q].Entry? && d[q].key == k && ReachedAt(d, h, q, u, |d|)
    ensures d[p].Entry?
  {
    hide Slot;
    assert forall s | 0 <= s < t :: Slot(h, s, |d|) != q;
    if t < u {
      assert d[Slot(h, t, |d|)].Entry?;
    }
  }

  /** An entry put where its search stopped is found there, and so are the others. */
  lemma PutProbed<K(!new), V(!new)>(d: seq<Entry<K, V>>, home: K -> nat, k: K, v: V, p: nat, t: nat)
    requires Probed(d, home, |d|) && Stops(d, home(k), k, p, t) && d[p].Free?
    ensures Probed(d[p := Entry(k, v)], home, |d|)
  {
    hide Slot;
    var e := d[p := Entry(k, v)];
    forall q | 0 <= q < |e| && e[q].Entry? ensures Reached(e, home(e[q].key), q, |e|) {
      if q == p {
        assert ReachedAt(e, home(k), p, t, |e|);
      } else {
        var u := ProbedAt(d, home, |d|, q);
        assert ReachedAt(e, home(d[q].key), q, u, |e|);
      }
    }
  }

  // ---------- filling the hole that deletion leaves ----------

  /** The slots after the hole, up to n further on, are taken and found in spite of it. */
  ghost predicate Examined<K(!new), V(!new)>(d: seq<Entry<K, V>>, home: K -> nat, hole: nat, n: nat)
    requires |d| > 0
  {
    forall u | 1 <= u <= n :: Fine(d, home, Slot(hole, u, |d|))
  }

  ghost predicate Fine<K(!new), V(!new)>(d: seq<Entry<K, V>>, home: K -> nat, p: nat)
    requires |d| > 0
  {
    p < |d| && d[p].Entry? && Reached(d, home(d[p].key), p, |d|)
  }

  lemma DropProbed<K(!new), V(!new)>(d: seq<Entry<K, V>>, home: K -> nat, hole: nat)
    requires Probed(d, home, |d|) && hole < |d|
    ensures Probed(d[hole := Free], home, hole)
  {
    hide Slot;
    var e := d[hole := Free];
    forall q | 0 <= q < |e| && e[q].Entry? ensures Reached(e, home(e[q].key), q, hole) {
      var u := ProbedAt(d, home, |d|, q);
      assert ReachedAt(e, home(d[q].key), q, u, hole);
    }
  }

  /** Once the next slot is free, the hole does no harm. */
  lemma HoleClosed<K(!new), V(!new)>(d: seq<Entry<K, V>>, home: K -> nat, hole: nat, n: nat)
    requires Probed(d, home, hole) && hole < |d| && d[hole].Free? && Examined(d, home, hole, n) && n + 1 < |d|
    requires d[Slot(hole, n + 1, |d|)].Free?
    ensures Probed(d, home, |d|)
  {
    hide Slot;
    forall p | 0 <= p < |d| && d[p].Entry? ensures Reached(d, home(d[p].key), p, |d|) {
      var h := home(d[p].key);
      var t := ProbedAt(d, home, hole, p);
      if s :| 0 <= s < t && Slot(h, s, |d|) == hole {
        SlotAdd(h, s, t - s, |d|);
        if t - s <= n {
          assert Fine(d, home, Slot(hole, t - s, |d|));
        } else {
          BeyondHole(d, h, p, t, s, hole, n);
        }
      } else {
        assert ReachedAt(d, h, p, t, |d|);
      }
    }
  }

  lemma BeyondHole<K(!new), V(!new)>(d: seq<Entry<K, V>>, h: nat, p: nat, t: nat, s: nat, hole: nat, n: nat)
    requires |d| > 0 && p < |d| && d[p].Entry? && ReachedAt(d, h, p, t, hole)
    requires s < t && Slot(h, s, |d|) == hole && n < t - s
    ensures d[Slot(hole, n + 1, |d|)].Entry?
  {
    hide Slot;
    SlotAdd(h, s, n + 1, |d|);
    SlotsDiffer(h, s, s + n + 1, |d|);
  }

  /** An entry found past the hole is fine where it is. */
  lemma FoundFine<K(!new), V(!new)>(d: seq<Entry<K, V>>, home: K -> nat, hole: nat, n: nat, p: nat, t: nat)
    requires |d| > 0 && Unique(d) && p < |d| && Examined(d, home, hole, n)
    requires var next := Slot(hole, n + 1, |d|);
             d[next].Entry? && d[p].Entry? && Stops(d, home(d[next].key), d[next].key, p, t)
    ensures Examined(d, home, hole, n + 1)
  {
    hide Slot;
    var next := Slot(hole, n + 1, |d|);
    assert p == next;
    assert ReachedAt(d, home(d[next].key), next, t, |d|);
    forall u | 1 <= u <= n + 1 ensures Fine(d, home, Slot(hole, u, |d|)) {
    }
  }

  /** An entry whose search stops at a free slot stops at the hole, and moving it there moves the hole. */
  lemma MoveProbed<K(!new), V(!new)>(d: seq<Entry<K, V>>, home: K -> nat, hole: nat, next: nat, p: nat, t: nat)
    requires Probed(d, home, hole) && hole < |d| && d[hole].Free? && next < |d| && d[next].Entry?
    requires p < |d| && d[p].Free? && Stops(d, home(d[next].key), d[next].key, p, t)
    ensures p == hole && Probed(d[hole := d[next]][next := Free], home, next)
  {
    hide Slot;
    var k, h := d[next].key, home(d[next].key);
    var u := ProbedAt(d, home, hole, next);
    assert forall s | 0 <= s < t :: Slot(h, s, |d|) != next;
    assert t < u;
    var e := d[hole := d[next]][next := Free];
    forall q | 0 <= q < |e| && e[q].Entry? ensures Reached(e, home(e[q].key), q, next) {
      if q == hole {
        assert ReachedAt(e, h, hole, t, next);
      } else {
        var w := ProbedAt(d, home, hole, q);
        assert ReachedAt(e, home(d[q].key), q, w, next);
      }
    }
  }

  /** The home slots of a table of m slots. */
  function Home<K(!new)>(hash: (K, nat) -> nat, bits: nat, m: nat): (home: K -> nat)
    requires m > 0
    ensures forall k :: home(k) < m
  {
    k => hash(k, bits) % m
  }

  /** The first n slots are taken and the others free. */
  ghost predicate Packed<K(!new), V(!new)>(d: seq<Entry<K, V>>, n: nat) {
    n <= |d| && forall p | 0 <= p < |d| :: d[p].Entry? <==> p < n
  }

  /** A packed table lists the map's entries. */
  lemma PackedCount<K(!new), V(!new)>(d: seq<Entry<K, V>>, m: map<K, V>, n: nat)
    requires Holds(d, m) && Packed(d, n)
    ensures |m| == n
  {
    KeysCount(d, n);
    forall k | k in m ensures k in Keys(d, n) {
      assert Has(d, k, m[k]);
    }
    assert Keys(d, n) == m.Keys;
  }

  // ---------- searching ----------

  /** The hashed search; it ends because some slot is free. */
  method Probe<K(==,!new), V(!new)>(d: array<Entry<K, V>>, h: nat, key: K, ghost free: nat)
    returns (found: bool, index: nat, ghost steps: nat)
    requires h < d.Length && free < d.Length && d[free].Free?
    ensures Stops(d[..], h, key, index, steps) && index < d.Length && (found <==> d[index].Entry?)
  {
    hide Slot;
    var i, m := h, d.Length;
    steps := 0;
    SlotStart(h, m);
    ghost var away := SlotAhead(h, free, m);
    while d[i].Entry? && d[i].key != key
      invariant i < m && steps <= away < m && i == Slot(h, steps, m)
      invariant forall s | 0 <= s < steps :: d[Slot(h, s, m)].Entry? && d[Slot(h, s, m)].key != key
      decreases m - steps
    {
      NextSlot(h, steps, m);
      steps := steps + 1;
      i := (i + 1) % m;
    }
    found, index := d[i].Entry?, i;
    assert ReachedAt(d[..], h, index, steps, m);
  }

  lemma NextSlot(h: nat, s: nat, m: nat)
    requires m > 0
    ensures (Slot(h, s, m) + 1) % m == Slot(h, s + 1, m)
  {
    SlotAdd(h, s, 1, m);
  }

  /** One slot further from the hole is one slot nearer to the free one. */
  lemma OneSlotOn(hole: nat, n: nat, index: nat, away: nat, free: nat, m: nat)
    requires 0 < m && index == Slot(hole, n, m) && free == Slot(index, away, m) && 0 < away
    ensures (index + 1) % m < m && (index + 1) % m == Slot(hole, n + 1, m) && free == Slot((index + 1) % m, away - 1, m)
    ensures away == 1 ==> (index + 1) % m == free
  {
    hide Slot;
    NextSlot(hole, n, m);
    SlotAdd(hole, n, away, m);
    SlotAdd(hole, n + 1, away - 1, m);
    SlotStart((index + 1) % m, m);
  }

  /** The linear search through the first n slots. */
  method Scan<K(==,!new), V(!new)>(d: array<Entry<K, V>>, n: nat, key: K) returns (found: bool, index: nat)
    requires n <= d.Length && forall p | 0 <= p < n :: d[p].Entry?
    ensures index <= n && (found <==> index < n) && (found ==> d[index].key == key)
    ensures forall p | 0 <= p < index :: d[p].key != key
  {
    for i := 0 to n
      invariant forall p | 0 <= p < i :: d[p].key != key
    {
      if d[i].key == key {
        return true, i;
      }
    }
    return false, n;
  }

  /** A new table of at least the given size. */
  method Alloc<K(!new), V(!new)>(size: nat) returns (bits: nat, d: array<Entry<K, V>>)
    ensures fresh(d) && d.Length == HashSize(bits) && d.Length >= size
    ensures forall p | 0 <= p < d.Length :: d[p].Free?
  {
    bits := 0;
    while HashSize(bits) < size
      decreases size - bits
    {
      bits := bits + 1;
    }
    d := new Entry<K, V>[HashSize(bits)](_ => Free);
  }

  lemma SmallBits(bits: nat)
    ensures bits < MinHashBits <==> HashSize(bits) < HashSize(MinHashBits)
    ensures bits < MinHashBits || HashSize(bits) >= 8
  {
    assert HashSize(MinHashBits) == 8 by {
      assert HashSize(2) == 4 by {
        assert HashSize(1) == 2;
      }
    }
    if bits < MinHashBits {
      assert HashSize(0) == 1 && HashSize(1) == 2;
    } else {
      SizeGrows(MinHashBits, bits);
    }
  }

  lemma {:induction false} SizeGrows(a: nat, b: nat)
    requires a <= b
    ensures HashSize(a) <= HashSize(b)
  {
    if a < b {
      SizeGrows(a, b - 1);
    }
  }

  class LHash<K(==,!new), V(!new)> {
    const hash: (K, nat) -> nat
    const zero: V
    var maxBits: nat
    var nEntries: nat
    var data: array<Entry<K, V>>
    ghost var contents: map<K, V>

    /** The table, if there is one, holds the contents: packed while small, probed when larger. */
    ghost predicate Valid()
      reads this, data
    {
      if data.Length == 0 then contents == map[] && nEntries == 0
      else data.Length == HashSize(maxBits) && Table(data[..], contents, hash, maxBits, nEntries)
    }

    constructor (hash: (K, nat) -> nat, zero: V, size: nat)
      ensures Valid() && contents == map[] && fresh(data)
    {
      this.hash, this.zero := hash, zero;
      nEntries, contents, maxBits := 0, map[], 0;
      if size == 0 {
        data := new Entry<K, V>[0];
      } else {
        var bits, d := Alloc<K, V>(RoundSize(size));
        maxBits, data := bits, d;
        EmptyTable(d[..], hash, bits);
      }
    }

    method Locate(key: K) returns (found: bool, index: nat, ghost steps: nat)
      requires Valid()
      ensures found <==> key in contents
      ensures found ==> index < data.Length && data[index] == Entry(key, contents[key])
      ensures data.Length > 0 ==> Landed(data[..], hash, maxBits, nEntries, key, index, steps)
    {
      hide Table, Landed;
      found, index, steps := false, 0, 0;
      if data.Length > 0 {
        if maxBits < MinHashBits {
          TablePacked(data[..], contents, hash, maxBits, nEntries);
          found, index := Scan(data, nEntries, key);
          Scanned(data[..], contents, hash, maxBits, nEntries, key, index);
        } else {
          ghost var free := TableFree(data[..], contents, hash, maxBits, nEntries);
          found, index, steps := Probe(data, Home(hash, maxBits, data.Length)(key), key, free);
          Landing(data[..], contents, hash, maxBits, nEntries, key, index, steps);
        }
      }
    }

    method Find(key: K) returns (found: bool, index: nat)
      requires Valid()
      ensures found <==> key in contents
      ensures found ==> index < data.Length && data[index] == Entry(key, contents[key])
    {
      ghost var steps;
      found, index, steps := Locate(key);
    }

    /** Where the key's value is; a new key gets a slot, in a larger table if this one is too full, and the value
        zero. */
    method Insert(key: K) returns (found: bool, index: nat)
      requires Valid()
      modifies this, data
      ensures Valid() && (data == old(data) || fresh(data))
      ensures found <==> key in old(contents)
      ensures contents == if found then old(contents) else old(contents)[key := zero]
      ensures index < data.Length && data[index] == Entry(key, contents[key])
    {
      hide Table, Landed;
      if data.Length == 0 {
        var bits, d := Alloc<K, V>(1);
        maxBits, data := bits, d;
        EmptyTable(d[..], hash, bits);
      }
      ghost var steps;
      found, index, steps := Locate(key);
      if !found {
        if RoundSize(nEntries + 1) > data.Length {
          Grow(RoundSize(nEntries + 1));
          found, index, steps := Locate(key);
        }
        EntryPlaced(data[..], contents, hash, maxBits, nEntries, key, zero, index, steps);
        ghost var before := data[..];
        data[index] := Entry(key, zero);
        assert data[..] == before[index := Entry(key, zero)];
        nEntries, contents := nEntries + 1, contents[key := zero];
      }
    }

    /** Stores a value where the key was found. */
    method Assign(index: nat, value: V)
      requires Valid() && index < data.Length && data[index].Entry?
      modifies this`contents, data
      ensures Valid() && contents == old(contents[data[index].key := value])
    {
      hide Table;
      ValueStored(data[..], contents, hash, maxBits, nEntries, index, value);
      ghost var before := data[..];
      contents := contents[data[index].key := value];
      data[index] := Entry(data[index].key, value);
      assert data[..] == before[index := Entry(before[index].key, value)];
    }

    /** Stores a value under a key, which is added if it is new. */
    method Put(key: K, value: V)
      requires Valid()
      modifies this, data
      ensures Valid() && (data == old(data) || fresh(data))
      ensures contents == old(contents)[key := value]
    {
      hide Valid;
      var _, index := Insert(key);
      Assign(index, value);
    }

    /** A larger table with the same contents: copied if it is still small, hashed again if not. */
    method Grow(size: nat)
      requires Valid() && data.Length > 0 && size > data.Length && size == RoundSize(nEntries + 1)
      modifies this`data, this`maxBits
      ensures Valid() && fresh(data) && data.Length >= size
    {
      hide Table, Landed, Probed, Holds;
      var bits, d := Alloc<K, V>(size);
      SmallBits(bits);
      SmallBits(maxBits);
      TableHolds(data[..], contents, hash, maxBits, nEntries);
      if bits < MinHashBits {
        TablePacked(data[..], contents, hash, maxBits, nEntries);
        for i := 0 to nEntries
          modifies d
          invariant forall p | 0 <= p < d.Length :: d[p] == if p < i then data[p] else Free
        {
          d[i] := data[i];
        }
        CopiedTable(data[..], d[..], contents, hash, maxBits, bits, nEntries);
      } else {
        Rehash(d, bits);
        WholeTable(d[..], contents, hash, bits, nEntries);
      }
      maxBits, data := bits, d;
    }

    /** Puts the entries into a new table, each where its search there ends. */
    method Rehash(d: array<Entry<K, V>>, bits: nat)
      requires Holds(data[..], contents) && |contents| < d.Length && d != data
      requires forall p | 0 <= p < d.Length :: d[p].Free?
      modifies d
      ensures Holds(d[..], contents) && Probed(d[..], Home(hash, bits, d.Length), d.Length)
    {
      hide Probed, Holds, Stops, CopiedSoFar;
      ghost var part: map<K, V> := map[];
      AllFree(d[..]);
      AllProbed(d[..], Home(hash, bits, d.Length));
      NothingCopied(data[..], contents);
      for i := 0 to data.Length
        invariant Holds(d[..], part) && Probed(d[..], Home(hash, bits, d.Length), d.Length)
        invariant CopiedSoFar(data[..], contents, part, i)
      {
        CopyStep(data[..], contents, part, i);
        if data[i].Entry? {
          var k := data[i].key;
          ghost var free := FreeSlot(d[..], part);
          var found, index;
          ghost var steps;
          found, index, steps := Probe(d, Home(hash, bits, d.Length)(k), k, free);
          NotYet(d[..], part, Home(hash, bits, d.Length), k, index, steps);
          PutHolds(d[..], part, index, k, data[i].value);
          PutProbed(d[..], Home(hash, bits, d.Length), k, data[i].value, index, steps);
          ghost var before := d[..];
          d[index] := data[i];
          assert d[..] == before[index := Entry(k, data[i].value)];
          part := part[k := data[i].value];
        }
      }
      AllCopied(data[..], contents, part);
    }

    /** Removes the key and gives back its value. */
    method Remove(key: K) returns (removed: bool, value: V)
      requires Valid()
      modifies this`nEntries, this`contents, data
      ensures Valid() && (removed <==> key in old(contents))
      ensures removed ==> value == old(contents)[key]
      ensures contents == old(contents) - {key}
    {
      hide Table, Landed;
      value := zero;
      var index;
      ghost var steps;
      removed, index, steps := Locate(key);
      if removed {
        value := data[index].value;
        if maxBits < MinHashBits {
          RemovePacked(index);
        } else {
          RemoveProbed(index);
        }
      }
    }

    method RemovePacked(index: nat)
      requires Valid() && maxBits < MinHashBits && index < data.Length && data[index].Entry?
      modifies this`nEntries, this`contents, data
      ensures Valid() && contents == old(contents - {data[index].key})
    {
      hide Table;
      TablePacked(data[..], contents, hash, maxBits, nEntries);
      ghost var before := data[..];
      assert index < nEntries;
      CloseGap(index);
      GapClosed(before, data[..], contents, hash, maxBits, nEntries, index);
      nEntries, contents := nEntries - 1, contents - {before[index].key};
    }

    method RemoveProbed(index: nat)
      requires Valid() && maxBits >= MinHashBits && index < data.Length && data[index].Entry?
      modifies this`nEntries, this`contents, data
      ensures Valid() && contents == old(contents - {data[index].key})
    {
      hide Table, Holds, Probed;
      TableProbed(data[..], contents, hash, maxBits, nEntries);
      ghost var key := data[index].key;
      KeyHeld(data[..], contents, index);
      FillHole(index);
      nEntries, contents := nEntries - 1, contents - {key};
      WholeTable(data[..], contents, hash, maxBits, nEntries);
    }

    /** Moves the entries after a slot one slot down. */
    method CloseGap(index: nat)
      requires index < nEntries <= data.Length
      modifies data
      ensures data[..] == Shifted(old(data[..]), nEntries, index)
    {
      ghost var was := data[..];
      for i := index + 1 to nEntries
        modifies data
        invariant forall p | 0 <= p < data.Length && !(index <= p < i - 1) :: data[p] == was[p]
        invariant forall p, q | index <= p < i - 1 && q == p + 1 :: data[p] == was[q]
      {
        data[i-1] := data[i];
      }
      data[nEntries-1] := Free;
      forall p | 0 <= p < data.Length ensures data[p] == Shifted(was, nEntries, index)[p] {
        ghost var q := p + 1;
        assert index <= p < nEntries - 1 ==> data[p] == was[q];
      }
    }

    /** Moves an entry whose search stops at the hole into it. */
    method MoveEntry(ghost rest: map<K, V>, ghost home: K -> nat, ghost hole: nat, index: nat, newIndex: nat, ghost steps: nat)
      requires hole < data.Length && index < data.Length && newIndex < data.Length && data[hole].Free? && data[index].Entry?
      requires Holds(data[..], rest) && Probed(data[..], home, hole)
      requires data[newIndex].Free? && Stops(data[..], home(data[index].key), data[index].key, newIndex, steps)
      modifies data
      ensures newIndex == hole && data[..] == old(data[..])[hole := old(data[index])][index := Free]
      ensures Holds(data[..], rest) && Probed(data[..], home, index)
    {
      hide Holds, Probed, Slot, Stops;
      MoveProbed(data[..], home, hole, index, newIndex, steps);
      MoveHolds(data[..], rest, index, newIndex);
      ghost var before := data[..];
      data[newIndex] := data[index];
      data[index] := Free;
      assert data[..] == before[hole := before[index]][index := Free];
    }

    /** Frees a slot and moves later entries back so that every entry can still be found. */
    method FillHole(start: nat)
      requires start < data.Length && data[start].Entry? && data.Length == HashSize(maxBits) && nEntries == |contents| < data.Length
      requires Holds(data[..], contents) && Probed(data[..], Home(hash, maxBits, data.Length), data.Length)
      modifies data
      ensures Holds(data[..], contents - {old(data[start].key)})
      ensures Probed(data[..], Home(hash, maxBits, data.Length), data.Length)
    {
      hide Holds, Probed, Slot, Stops, Examined;
      var m := data.Length;
      ghost var home, rest := Home(hash, maxBits, m), contents - {data[start].key};
      ghost var free := FreeSlot(data[..], contents);
      DropHolds(data[..], contents, start);
      DropProbed(data[..], home, start);
      ghost var was := data[..];
      data[start] := Free;
      assert data[..] == was[start := Free];
      var index := start;
      ghost var hole: nat, n: nat := start, 0;
      ghost var away := SlotAhead(start, free, m);
      SlotStart(start, m);
      NothingExamined(data[..], home, hole);
      while true
        invariant index < m && hole < m && free < m && hole != free && data[free].Free? && data[hole].Free?
        invariant Holds(data[..], rest) && Probed(data[..], home, hole) && Examined(data[..], home, hole, n)
        invariant index == Slot(hole, n, m) && free == Slot(index, away, m) && n + away < m && away > 0
        decreases away
      {
        OneSlotOn(hole, n, index, away, free, m);
        index := (index + 1) % m;
        if data[index].Free? {
          HoleClosed(data[..], home, hole, n);
          break;
        }
        var found, newIndex;
        ghost var steps;
        found, newIndex, steps := Probe(data, Home(hash, maxBits, m)(data[index].key), data[index].key, free);
        if found {
          HoldsUnique(data[..], rest);
          FoundFine(data[..], home, hole, n, newIndex, steps);
          n := n + 1;
        } else {
          MoveEntry(rest, home, hole, index, newIndex, steps);
          hole, n := index, 0;
          SlotStart(hole, m);
          NothingExamined(data[..], home, hole);
        }
        away := away - 1;
      }
    }
  }

  // ---------- the table as a whole ----------

  ghost predicate Table<K(!new), V(!new)>(d: seq<Entry<K, V>>, m: map<K, V>, hash: (K, nat) -> nat, bits: nat, n: nat) {
    && |d| > 0 && Holds(d, m) && |m| == n
    && if bits < MinHashBits then Packed(d, n) else n < |d| && Probed(d, Home(hash, bits, |d|), |d|)
  }

  /** Where a search ends up: at the key, or where the key would go. */
  ghost predicate Landed<K(!new), V(!new)>(d: seq<Entry<K, V>>, hash: (K, nat) -> nat, bits: nat, n: nat, k: K, index: nat, steps: nat)
    requires |d| > 0
  {
    if bits < MinHashBits then index == n || (index < |d| && d[index].Entry? && d[index].key == k)
    else index < |d| && Stops(d, Home(hash, bits, |d|)(k), k, index, steps)
  }

  lemma EmptyTable<K(!new), V(!new)>(d: seq<Entry<K, V>>, hash: (K, nat) -> nat, bits: nat)
    requires |d| > 0 && forall p | 0 <= p < |d| :: d[p].Free?
    ensures Table(d, map[], hash, bits, 0)
  {
    AllFree(d);
  }

  lemma AllProbed<K(!new), V(!new)>(d: seq<Entry<K, V>>, home: K -> nat)
    requires |d| > 0 && forall p | 0 <= p < |d| :: d[p].Free?
    ensures Probed(d, home, |d|)
  {
  }

  lemma TableHolds<K(!new), V(!new)>(d: seq<Entry<K, V>>, m: map<K, V>, hash: (K, nat) -> nat, bits: nat, n: nat)
    requires Table(d, m, hash, bits, n)
    ensures |d| > 0 && Holds(d, m) && |m| == n
  {
  }

  lemma TablePacked<K(!new), V(!new)>(d: seq<Entry<K, V>>, m: map<K, V>, hash: (K, nat) -> nat, bits: nat, n: nat)
    requires Table(d, m, hash, bits, n) && bits < MinHashBits
    ensures Holds(d, m) && Packed(d, n) && n <= |d| && forall p | 0 <= p < |d| :: d[p].Entry? <==> p < n
  {
  }

  lemma TableProbed<K(!new), V(!new)>(d: seq<Entry<K, V>>, m: map<K, V>, hash: (K, nat) -> nat, bits: nat, n: nat)
    requires Table(d, m, hash, bits, n) && bits >= MinHashBits
    ensures |d| > 0 && Holds(d, m) && |m| == n < |d| && Probed(d, Home(hash, bits, |d|), |d|)
  {
  }

  lemma TableFree<K(!new), V(!new)>(d: seq<Entry<K, V>>, m: map<K, V>, hash: (K, nat) -> nat, bits: nat, n: nat) returns (free: nat)
    requires Table(d, m, hash, bits, n) && bits >= MinHashBits
    ensures free < |d| && d[free].Free?
  {
    hide Holds, Probed;
    free := FreeSlot(d, m);
  }

  lemma Scanned<K(!new), V(!new)>(d: seq<Entry<K, V>>, m: map<K, V>, hash: (K, nat) -> nat, bits: nat, n: nat, k: K, index: nat)
    requires Table(d, m, hash, bits, n) && bits < MinHashBits && index <= n
    requires n <= |d| && (index < n ==> d[index].Entry? && d[index].key == k)
    requires forall p | 0 <= p < index :: d[p].Entry? && d[p].key != k
    ensures index < n <==> k in m
    ensures index < n ==> d[index] == Entry(k, m[k])
    ensures Landed(d, hash, bits, n, k, index, 0)
  {
    if k in m {
      assert Has(d, k, m[k]);
      var p :| 0 <= p < |d| && d[p] == Entry(k, m[k]);
    }
  }

  lemma Landing<K(!new), V(!new)>(d: seq<Entry<K, V>>, m: map<K, V>, hash: (K, nat) -> nat, bits: nat, n: nat, k: K, index: nat, steps: nat)
    requires Table(d, m, hash, bits, n) && bits >= MinHashBits && index < |d|
    requires Stops(d, Home(hash, bits, |d|)(k), k, index, steps)
    ensures d[index].Entry? <==> k in m
    ensures d[index].Entry? ==> d[index] == Entry(k, m[k])
    ensures Landed(d, hash, bits, n, k, index, steps)
  {
    hide Probed, ReachedAt, Slot;
    if d[index].Free? {
      Absent(d, m, Home(hash, bits, |d|), k, index, steps);
    }
  }

  /** A new key's entry, put where its search landed. */
  lemma EntryPlaced<K(!new), V(!new)>(d: seq<Entry<K, V>>, m: map<K, V>, hash: (K, nat) -> nat, bits: nat, n: nat, k: K, v: V, index: nat, steps: nat)
    requires Table(d, m, hash, bits, n) && k !in m && Landed(d, hash, bits, n, k, index, steps)
    requires RoundSize(n + 1) <= |d| && |d| == HashSize(bits)
    ensures index < |d| && Table(d[index := Entry(k, v)], m[k := v], hash, bits, n + 1)
  {
    hide Probed, Slot;
    SmallBits(bits);
    NotElsewhere(d, m, k, index);
    if bits >= MinHashBits {
      StopsFree(d, m, k, index, Home(hash, bits, |d|), steps);
      PutProbed(d, Home(hash, bits, |d|), k, v, index, steps);
    }
    PutHolds(d, m, index, k, v);
  }

  lemma NotElsewhere<K(!new), V(!new)>(d: seq<Entry<K, V>>, m: map<K, V>, k: K, index: nat)
    requires Holds(d, m) && k !in m
    ensures !(index < |d| && d[index].Entry? && d[index].key == k)
  {
  }

  lemma StopsFree<K(!new), V(!new)>(d: seq<Entry<K, V>>, m: map<K, V>, k: K, index: nat, home: K -> nat, steps: nat)
    requires |d| > 0 && Holds(d, m) && k !in m && index < |d| && Stops(d, home(k), k, index, steps)
    ensures d[index].Free?
  {
  }

  lemma ValueStored<K(!new), V(!new)>(d: seq<Entry<K, V>>, m: map<K, V>, hash: (K, nat) -> nat, bits: nat, n: nat, index: nat, v: V)
    requires Table(d, m, hash, bits, n) && index < |d| && d[index].Entry?
    ensures Table(d[index := Entry(d[index].key, v)], m[d[index].key := v], hash, bits, n)
  {
    hide Slot, Holds, Probed;
    ValueHolds(d, m, index, v);
    if bits >= MinHashBits {
      ValueProbed(d, Home(hash, bits, |d|), index, v);
    }
  }

  lemma ValueHolds<K(!new), V(!new)>(d: seq<Entry<K, V>>, m: map<K, V>, index: nat, v: V)
    requires Holds(d, m) && index < |d| && d[index].Entry?
    ensures Holds(d[index := Entry(d[index].key, v)], m[d[index].key := v]) && |m[d[index].key := v]| == |m|
  {
    var k := d[index].key;
    var e, more := d[index := Entry(k, v)], m[k := v];
    forall l | l in more ensures Has(e, l, more[l]) {
      if l == k {
        assert e[index] == Entry(k, v);
      } else {
        assert Has(d, l, m[l]);
        var q :| 0 <= q < |d| && d[q] == Entry(l, m[l]);
        assert e[q] == d[q];
      }
    }
    assert more.Keys == m.Keys;
    assert |more| == |more.Keys| == |m.Keys| == |m|;
  }

  lemma ValueProbed<K(!new), V(!new)>(d: seq<Entry<K, V>>, home: K -> nat, index: nat, v: V)
    requires |d| > 0 && Probed(d, home, |d|) && index < |d| && d[index].Entry?
    ensures Probed(d[index := Entry(d[index].key, v)], home, |d|)
  {
    hide Slot;
    var e := d[index := Entry(d[index].key, v)];
    forall q | 0 <= q < |e| && e[q].Entry? ensures Reached(e, home(e[q].key), q, |e|) {
      var u := ProbedAt(d, home, |d|, q);
      assert ReachedAt(e, home(e[q].key), q, u, |e|);
    }
  }

  lemma CopiedTable<K(!new), V(!new)>(d: seq<Entry<K, V>>, e: seq<Entry<K, V>>, m: map<K, V>, hash: (K, nat) -> nat, bits: nat, more: nat, n: nat)
    requires Table(d, m, hash, bits, n) && bits < MinHashBits && more < MinHashBits && |e| >= |d|
    requires forall p | 0 <= p < |e| :: e[p] == if p < n && p < |d| then d[p] else Free
    ensures Table(e, m, hash, more, n)
  {
    forall l | l in m ensures Has(e, l, m[l]) {
      assert Has(d, l, m[l]);
      var q :| 0 <= q < |d| && d[q] == Entry(l, m[l]);
      assert e[q] == d[q];
    }
  }

  /** The entries of the first i slots make up part of the map. */
  ghost predicate CopiedSoFar<K(!new), V(!new)>(d: seq<Entry<K, V>>, m: map<K, V>, part: map<K, V>, i: nat) {
    && i <= |d| && (forall k | k in part :: k in m && part[k] == m[k] && Entry(k, m[k]) in d[..i])
    && forall p | 0 <= p < i && d[p].Entry? :: d[p].key in part
  }

  lemma NothingCopied<K(!new), V(!new)>(d: seq<Entry<K, V>>, m: map<K, V>)
    ensures CopiedSoFar(d, m, map[], 0)
  {
  }

  lemma CopyStep<K(!new), V(!new)>(d: seq<Entry<K, V>>, m: map<K, V>, part: map<K, V>, i: nat)
    requires Holds(d, m) && CopiedSoFar(d, m, part, i) && i < |d|
    ensures |part| <= |m|
    ensures d[i].Entry? ==> d[i].key !in part && CopiedSoFar(d, m, part[d[i].key := d[i].value], i + 1)
    ensures d[i].Free? ==> CopiedSoFar(d, m, part, i + 1)
  {
    hide Holds, CopiedSoFar;
    PartSize(d, m, part, i);
    if d[i].Entry? {
      NotCopied(d, m, part, i);
      EntryHeld(d, m, i);
      CopiedMore(d, m, part, i);
    } else {
      CopiedOn(d, m, part, i);
    }
  }

  lemma PartSize<K(!new), V(!new)>(d: seq<Entry<K, V>>, m: map<K, V>, part: map<K, V>, i: nat)
    requires CopiedSoFar(d, m, part, i)
    ensures |part| <= |m|
  {
    Probing.SubsetSize(part.Keys, m.Keys);
    assert |part| == |part.Keys| && |m| == |m.Keys|;
  }

  lemma CopiedOn<K(!new), V(!new)>(d: seq<Entry<K, V>>, m: map<K, V>, part: map<K, V>, i: nat)
    requires CopiedSoFar(d, m, part, i) && i < |d| && d[i].Free?
    ensures CopiedSoFar(d, m, part, i + 1)
  {
    assert d[..i+1] == d[..i] + [d[i]];
  }

  lemma EntryHeld<K(!new), V(!new)>(d: seq<Entry<K, V>>, m: map<K, V>, i: nat)
    requires Holds(d, m) && i < |d| && d[i].Entry?
    ensures d[i].key in m && m[d[i].key] == d[i].value
  {
  }

  lemma NotCopied<K(!new), V(!new)>(d: seq<Entry<K, V>>, m: map<K, V>, part: map<K, V>, i: nat)
    requires Holds(d, m) && CopiedSoFar(d, m, part, i) && i < |d| && d[i].Entry?
    ensures d[i].key !in part
  {
    forall k | k in part ensures k != d[i].key {
      var p :| 0 <= p < i && d[..i][p] == Entry(k, m[k]);
      assert d[p].key == k;
    }
  }

  lemma CopiedMore<K(!new), V(!new)>(d: seq<Entry<K, V>>, m: map<K, V>, part: map<K, V>, i: nat)
    requires CopiedSoFar(d, m, part, i) && i < |d| && d[i].Entry? && d[i].key in m && m[d[i].key] == d[i].value
    ensures CopiedSoFar(d, m, part[d[i].key := d[i].value], i + 1)
  {
    assert d[..i+1] == d[..i] + [d[i]];
  }

  lemma NotYet<K(!new), V(!new)>(d: seq<Entry<K, V>>, part: map<K, V>, home: K -> nat, k: K, index: nat, steps: nat)
    requires Holds(d, part) && k !in part && |d| > 0 && index < |d| && Stops(d, home(k), k, index, steps)
    ensures d[index].Free?
  {
  }

  lemma AllCopied<K(!new), V(!new)>(d: seq<Entry<K, V>>, m: map<K, V>, part: map<K, V>)
    requires Holds(d, m) && CopiedSoFar(d, m, part, |d|)
    ensures part == m
  {
    forall k | k in m ensures k in part {
      assert Has(d, k, m[k]);
    }
  }

  lemma WholeTable<K(!new), V(!new)>(d: seq<Entry<K, V>>, m: map<K, V>, hash: (K, nat) -> nat, bits: nat, n: nat)
    requires |d| > n == |m| && Holds(d, m) && bits >= MinHashBits && Probed(d, Home(hash, bits, |d|), |d|)
    ensures Table(d, m, hash, bits, n)
  {
  }

  lemma KeyHeld<K(!new), V(!new)>(d: seq<Entry<K, V>>, m: map<K, V>, p: nat)
    requires Holds(d, m) && p < |d| && d[p].Entry?
    ensures d[p].key in m && |m - {d[p].key}| == |m| - 1
  {
    var k := d[p].key;
    assert (m - {k}).Keys == m.Keys - {k};
    assert |m - {k}| == |(m - {k}).Keys| && |m| == |m.Keys|;
  }

  ghost function Shifted<K(!new), V(!new)>(d: seq<Entry<K, V>>, n: nat, index: nat): seq<Entry<K, V>>
    requires index < n <= |d|
  {
    d[..index] + d[index+1..n] + [Free] + d[n..]
  }

  lemma GapClosed<K(!new), V(!new)>(d: seq<Entry<K, V>>, e: seq<Entry<K, V>>, m: map<K, V>, hash: (K, nat) -> nat, bits: nat, n: nat, index: nat)
    requires Table(d, m, hash, bits, n) && bits < MinHashBits && index < n <= |d| && d[index].Entry?
    requires e == Shifted(d, n, index)
    ensures Table(e, m - {d[index].key}, hash, bits, n - 1)
  {
    hide Shifted;
    var rest := m - {d[index].key};
    ShiftedAt(d, n, index);
    ShiftedHolds(d, e, m, n, index);
    PackedCount(e, rest, n - 1);
  }

  lemma ShiftedAt<K(!new), V(!new)>(d: seq<Entry<K, V>>, n: nat, index: nat)
    requires index < n <= |d|
    ensures |Shifted(d, n, index)| == |d| && Shifted(d, n, index)[n-1] == Free
    ensures forall p | 0 <= p < index || n <= p < |d| :: Shifted(d, n, index)[p] == d[p]
    ensures forall p, q | index <= p < n - 1 && q == p + 1 :: Shifted(d, n, index)[p] == d[q]
  {
  }

  lemma ShiftedHolds<K(!new), V(!new)>(d: seq<Entry<K, V>>, e: seq<Entry<K, V>>, m: map<K, V>, n: nat, index: nat)
    requires Holds(d, m) && Packed(d, n) && index < n <= |d| && |e| == |d| && e[n-1] == Free
    requires forall p | 0 <= p < index || n <= p < |d| :: e[p] == d[p]
    requires forall p, q | index <= p < n - 1 && q == p + 1 :: e[p] == d[q]
    ensures Holds(e, m - {d[index].key}) && Packed(e, n - 1)
  {
    var rest := m - {d[index].key};
    forall p | 0 <= p < n - 1 ensures e[p].Entry? {
      var q := p + 1;
      assert p >= index ==> e[p] == d[q];
    }
    forall p | 0 <= p < |e| && e[p].Entry? ensures e[p] == d[if p < index then p else p + 1] && p < n - 1 {
      if p >= index {
        var q := p + 1;
        assert p < n - 1 ==> e[p] == d[q];
      }
    }
    forall p, q | 0 <= p < |e| && 0 <= q < |e| && e[p].Entry? && e[q].Entry? && e[p].key == e[q].key ensures p == q {
      var p', q' := if p < index then p else p + 1, if q < index then q else q + 1;
      assert d[p'].key == d[q'].key;
    }
    forall l | l in rest ensures Has(e, l, rest[l]) {
      assert Has(d, l, m[l]);
      var q :| 0 <= q < |d| && d[q] == Entry(l, m[l]);
      var p := if q < index then q else q - 1;
      assert e[p] == d[q];
    }
  }

  lemma HoldsUnique<K(!new), V(!new)>(d: seq<Entry<K, V>>, m: map<K, V>)
    requires Holds(d, m)
    ensures Unique(d)
  {
  }

  lemma NothingExamined<K(!new), V(!new)>(d: seq<Entry<K, V>>, home: K -> nat, hole: nat)
    requires |d| > 0
    ensures Examined(d, home, hole, 0)
  {
  }
}
