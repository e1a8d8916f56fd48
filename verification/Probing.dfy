/** Open addressing with triangular steps: a table of slots whose size is a power of two, each slot free or
    holding the index of an entry, and each entry known here by its hash. */
module Probing {

  const Invalid: int := -1

  predicate PowerOfTwo(m: nat) {
    m == 1 || (m > 1 && m % 2 == 0 && PowerOfTwo(m / 2))
  }

  /** The smallest power of two greater than x. */
  function NextPowerOfTwo(x: nat): (m: nat)
    ensures PowerOfTwo(m) && x < m && (x > 0 ==> m <= 2 * x)
  {
    if x == 0 then 1 else 2 * NextPowerOfTwo(x / 2)
  }

  function Triangle(t: nat): nat {
    if t == 0 then 0 else Triangle(t - 1) + t
  }

  /** The slot tried after t misses. */
  function Step(h: nat, t: nat, m: nat): (p: nat)
    requires m > 0
    ensures p < m
  {
    (h + Triangle(t)) % m
  }

  lemma FirstStep(h: nat, m: nat)
    requires m > 0
    ensures Step(h, 0, m) == h % m
  {
  }

  lemma StepNext(h: nat, t: nat, m: nat)
    requires m > 0
    ensures Step(h, t + 1, m) == (Step(h, t, m) + t + 1) % m
  {
    ModAdd(h + Triangle(t), t + 1, m);
  }

  lemma Multiple(m: nat, q: int)
    ensures q >= 1 ==> m * q >= m
    ensures q <= -1 ==> m * q <= 0 - m
  {
    if q >= 1 {
      assert m * q == m + m * (q - 1);
    } else if q <= -1 {
      assert m * q == 0 - m - m * (-1 - q);
    }
  }

  /** A multiple of m strictly between -m and m is zero. */
  lemma SmallMultiple(m: int, q: int)
    requires 0 - m < m * q < m
    ensures q == 0
  {
    Multiple(m, q);
  }

  lemma Remainder(x: nat, m: nat, q: int, r: nat)
    requires r < m && x == m * q + r
    ensures x % m == r
  {
    var q', r' := x / m, x % m;
    assert x == m * q' + r';
    assert m * (q - q') == r' - r;
    SmallMultiple(m, q - q');
  }

  lemma ModAdd(a: nat, b: nat, m: nat)
    requires m > 0
    ensures (a + b) % m == (a % m + b) % m
  {
    var q, c := a / m, a % m + b;
    assert a == m * q + a % m;
    var d, r := c / m, c % m;
    assert c == m * d + r;
    assert a + b == m * (q + d) + r;
    Remainder(a + b, m, q + d, r);
  }

  // ---------- every slot is visited ----------

  lemma {:induction false} TwiceTriangle(t: nat)
    ensures 2 * Triangle(t) == t * (t + 1)
  {
    if t > 0 {
      TwiceTriangle(t - 1);
    }
  }

  /** An odd factor adds nothing to the power of two that divides a product. */
  lemma {:induction false} OddFactor(a: int, b: int, m: nat, q: int) returns (r: int)
    requires PowerOfTwo(m) && a % 2 == 1 && a * b == m * q
    ensures b == m * r
    decreases m
  {
    if m == 1 {
      r := b;
    } else {
      var u, half := a / 2, m / 2;
      assert a * b == 2 * (u * b) + b;
      assert m * q == 2 * (half * q);
      var c := half * q - u * b;
      assert a * (2 * c) == 2 * (a * c);
      r := OddFactor(a, c, half, q);
      assert 2 * (half * r) == m * r;
    }
  }

  lemma SameRemainder(a: nat, b: nat, m: nat) returns (q: int)
    requires m > 0 && a % m == b % m
    ensures a - b == m * q
  {
    q := a / m - b / m;
    assert a == m * (a / m) + a % m;
    assert b == m * (b / m) + b % m;
  }

  /** A product of a number below m and one below 2m, one of them odd, is no multiple of 2m. */
  lemma NoMultiple(a: nat, b: nat, m: nat, d: int)
    requires PowerOfTwo(m) && 0 < a < m && 0 < b < 2 * m && (a % 2 == 1 || b % 2 == 1)
    ensures a * b != (2 * m) * d
  {
    if a * b == (2 * m) * d {
      assert PowerOfTwo(2 * m);
      if a % 2 == 1 {
        var r := OddFactor(a, b, 2 * m, d);
        SmallMultiple(2 * m, r);
      } else {
        assert b * a == (2 * m) * d;
        var r := OddFactor(b, a, 2 * m, d);
        SmallMultiple(2 * m, r);
      }
    }
  }

  /** The first m steps visit m different slots. */
  lemma StepsDiffer(h: nat, s: nat, t: nat, m: nat)
    requires PowerOfTwo(m) && s < t < m
    ensures Step(h, s, m) != Step(h, t, m)
  {
    hide PowerOfTwo, Triangle, Step;
    if Step(h, s, m) == Step(h, t, m) {
      var d := SameStep(h, s, t, m);
      NoMultiple(t - s, t + s + 1, m, d);
    }
  }

  /** Two steps to one slot differ by a multiple of the size. */
  lemma SameStep(h: nat, s: nat, t: nat, m: nat) returns (d: int)
    requires m > 0 && Step(h, s, m) == Step(h, t, m)
    ensures (t - s) * (t + s + 1) == (2 * m) * d
  {
    hide Triangle;
    d := SameRemainder(h + Triangle(t), h + Triangle(s), m);
    TwiceTriangle(s);
    TwiceTriangle(t);
    Doubled(Triangle(t), Triangle(s), t * (t + 1), s * (s + 1), m, d);
    Factors(s, t, m, d);
  }

  lemma Doubled(a: int, b: int, c: int, e: int, m: int, d: int)
    requires a - b == m * d && 2 * a == c && 2 * b == e
    ensures c - e == 2 * (m * d)
  {
  }

  lemma Factors(s: nat, t: nat, m: nat, d: int)
    requires t * (t + 1) - s * (s + 1) == 2 * (m * d)
    ensures (t - s) * (t + s + 1) == (2 * m) * d
  {
  }

  /** The slots of the first n steps. */
  ghost function Visited(h: nat, n: nat, m: nat): set<nat>
    requires m > 0
  {
    set t | 0 <= t < n :: Step(h, t, m)
  }

  lemma {:induction false} VisitedSize(h: nat, n: nat, m: nat)
    requires PowerOfTwo(m) && n <= m
    ensures |Visited(h, n, m)| == n
  {
    if n > 0 {
      VisitedSize(h, n - 1, m);
      forall s | 0 <= s < n - 1 ensures Step(h, s, m) != Step(h, n - 1, m) {
        StepsDiffer(h, s, n - 1, m);
      }
      assert Visited(h, n, m) == Visited(h, n - 1, m) + {Step(h, n - 1, m)};
    }
  }

  function UpTo(m: nat): (s: set<int>)
    ensures |s| == m && forall x :: x in s <==> 0 <= x < m
  {
    if m == 0 then {} else UpTo(m - 1) + {m - 1}
  }

  lemma SubsetSize<T>(a: set<T>, b: set<T>)
    requires a <= b
    ensures |a| <= |b| && (|a| == |b| ==> a == b)
  {
    assert b == a + (b - a);
  }

  /** Every slot is tried within the first m steps. */
  lemma VisitsAll(h: nat, m: nat, p: nat) returns (t: nat)
    requires PowerOfTwo(m) && p < m
    ensures t < m && Step(h, t, m) == p
  {
    VisitedSize(h, m, m);
    SubsetSize(Visited(h, m, m), UpTo(m));
    assert p in Visited(h, m, m);
    t :| 0 <= t < m && Step(h, t, m) == p;
  }

  // ---------- the table ----------

  /** The first t slots tried from h are taken. */
  ghost predicate Passed(slots: seq<int>, h: nat, t: nat)
    requires |slots| > 0
  {
    forall s | 0 <= s < t :: slots[Step(h, s, |slots|)] != Invalid
  }

  ghost predicate ReachedAt(slots: seq<int>, h: nat, i: int, t: nat)
    requires |slots| > 0
  {
    slots[Step(h, t, |slots|)] == i && Passed(slots, h, t)
  }

  /** Probing from h comes to entry i with no free slot before it. */
  ghost predicate Reached(slots: seq<int>, h: nat, i: int)
    requires |slots| > 0
  {
    exists t: nat :: ReachedAt(slots, h, i, t)
  }

  ghost predicate SlotOk(slots: seq<int>, n: nat, p: nat)
    requires p < |slots|
  {
    slots[p] == Invalid || 0 <= slots[p] < n
  }

  /** No entry is in two slots. */
  ghost predicate Once(slots: seq<int>) {
    forall p, q | 0 <= p < |slots| && 0 <= q < |slots| && slots[p] == slots[q] != Invalid :: p == q
  }

  /** The table holds entries 0 .. |hashes| - 1, each where probing for its hash finds it, with room to spare. */
  ghost predicate Indexed(slots: seq<int>, hashes: seq<nat>) {
    && PowerOfTwo(|slots|) && |hashes| < |slots|
    && (forall p | 0 <= p < |slots| :: SlotOk(slots, |hashes|, p))
    && Once(slots)
    && forall i | 0 <= i < |hashes| :: Reached(slots, hashes[i], i)
  }

  lemma IndexedSize(slots: seq<int>, hashes: seq<nat>)
    requires Indexed(slots, hashes)
    ensures PowerOfTwo(|slots|) && |hashes| < |slots|
  {
  }

  lemma SlotFacts(slots: seq<int>, hashes: seq<nat>, p: nat)
    requires Indexed(slots, hashes) && p < |slots|
    ensures slots[p] == Invalid || 0 <= slots[p] < |hashes|
  {
    assert SlotOk(slots, |hashes|, p);
  }

  lemma {:induction false} TakenSlots(slots: seq<int>, n: nat, k: nat)
    requires k <= |slots| && Once(slots) && forall p | 0 <= p < k :: 0 <= slots[p] < n
    ensures k <= n
  {
    var taken := set p | 0 <= p < k :: slots[p];
    TakenSize(slots, k);
    SubsetSize(taken, UpTo(n));
  }

  lemma {:induction false} TakenSize(slots: seq<int>, k: nat)
    requires k <= |slots| && Once(slots) && forall p | 0 <= p < k :: 0 <= slots[p]
    ensures |set p | 0 <= p < k :: slots[p]| == k
  {
    if k > 0 {
      TakenSize(slots, k - 1);
      var before := set p | 0 <= p < k - 1 :: slots[p];
      assert slots[k-1] !in before;
      assert (set p | 0 <= p < k :: slots[p]) == before + {slots[k-1]};
    }
  }

  /** There is always a free slot. */
  lemma FreeSlot(slots: seq<int>, hashes: seq<nat>) returns (p: nat)
    requires Indexed(slots, hashes)
    ensures p < |slots| && slots[p] == Invalid
  {
    if forall p | 0 <= p < |slots| :: slots[p] != Invalid {
      forall p | 0 <= p < |slots| ensures 0 <= slots[p] < |hashes| {
        SlotFacts(slots, hashes, p);
      }
      TakenSlots(slots, |hashes|, |slots|);
    }
    p :| 0 <= p < |slots| && slots[p] == Invalid;
  }

  /** So probing past taken slots ends within as many steps as there are slots. */
  lemma ProbingEnds(slots: seq<int>, hashes: seq<nat>, h: nat, t: nat)
    requires Indexed(slots, hashes) && Passed(slots, h, t)
    ensures t < |slots|
  {
    var p := FreeSlot(slots, hashes);
    var free := VisitsAll(h, |slots|, p);
  }

  /** The first free slot met from h. */
  method ProbeFree(slots: seq<int>, ghost hashes: seq<nat>, h: nat) returns (pos: nat, ghost t: nat)
    requires Indexed(slots, hashes)
    ensures pos < |slots| && pos == Step(h, t, |slots|) && ReachedAt(slots, h, Invalid, t)
  {
    hide PowerOfTwo, Step, Indexed, Triangle;
    IndexedSize(slots, hashes);
    var skip, m := 0, |slots|;
    pos := h % m;
    assert pos == Step(h, 0, m) by { FirstStep(h, m); }
    while slots[pos] != Invalid
      invariant pos < m && pos == Step(h, skip, m) && Passed(slots, h, skip)
      decreases m - skip
    {
      StepNext(h, skip, m);
      ProbingEnds(slots, hashes, h, skip);
      skip := skip + 1;
      pos := (pos + skip) % m;
    }
    t := skip;
  }

  /** Putting a new entry in the first free slot met keeps the table in order. */
  lemma PlaceKeeps(slots: seq<int>, hashes: seq<nat>, h: nat, t: nat)
    requires Indexed(slots, hashes) && |hashes| + 1 < |slots|
    requires ReachedAt(slots, h, Invalid, t)
    ensures Indexed(slots[Step(h, t, |slots|) := |hashes|], hashes + [h])
  {
    hide PowerOfTwo, Step, Passed;
    var at := Step(h, t, |slots|);
    var after, more := slots[at := |hashes|], hashes + [h];
    forall p | 0 <= p < |slots| ensures SlotOk(after, |more|, p) {
      SlotFacts(slots, hashes, p);
    }
    forall p, q | 0 <= p < |slots| && 0 <= q < |slots| && after[p] == after[q] != Invalid ensures p == q {
      SlotFacts(slots, hashes, p);
      SlotFacts(slots, hashes, q);
    }
    forall i | 0 <= i < |more| ensures Reached(after, more[i], i) {
      if i < |hashes| {
        assert Reached(slots, hashes[i], i);
        var k: nat :| ReachedAt(slots, hashes[i], i, k);
        StillPassed(slots, at, |hashes|, hashes[i], k);
        assert ReachedAt(after, more[i], i, k);
      } else {
        StillPassed(slots, at, |hashes|, h, t);
        assert ReachedAt(after, h, i, t);
      }
    }
  }

  lemma StillPassed(slots: seq<int>, at: nat, i: nat, h: nat, t: nat)
    requires at < |slots| && Passed(slots, h, t)
    ensures Passed(slots[at := i], h, t)
  {
  }

  /** Two tables that hold the entries of the same hash in one slot: renaming entries in place needs no rehash. */
  lemma RelabelKeeps(slots: seq<int>, hashes: seq<nat>, to: seq<nat>, after: seq<int>, hashed: seq<nat>)
    requires Indexed(slots, hashes) && |to| == |hashes| == |hashed| && |after| == |slots|
    requires forall i, j | 0 <= i < |to| && 0 <= j < |to| && to[i] == to[j] :: i == j
    requires forall i | 0 <= i < |to| :: to[i] < |hashed| && hashed[to[i]] == hashes[i]
    requires forall j | 0 <= j < |to| :: j in to
    requires forall p | 0 <= p < |slots| ::
               after[p] == if 0 <= slots[p] < |to| then to[slots[p]] else Invalid
    ensures Indexed(after, hashed)
  {
    hide PowerOfTwo, Step;
    forall p | 0 <= p < |slots| ensures SlotOk(after, |hashed|, p) && (slots[p] == Invalid <==> after[p] == Invalid) {
      SlotFacts(slots, hashes, p);
    }
    forall p, q | 0 <= p < |slots| && 0 <= q < |slots| && after[p] == after[q] != Invalid ensures p == q {
      SlotFacts(slots, hashes, p);
      SlotFacts(slots, hashes, q);
    }
    forall j | 0 <= j < |hashed| ensures Reached(after, hashed[j], j) {
      assert j in to;
      var i :| 0 <= i < |to| && to[i] == j;
      assert Reached(slots, hashes[i], i);
      var k: nat :| ReachedAt(slots, hashes[i], i, k);
      assert ReachedAt(after, hashed[j], j, k);
    }
  }

  /** If an entry of this hash exists it is met before any free slot. */
  lemma MissedMeansAbsent(slots: seq<int>, hashes: seq<nat>, h: nat, t: nat, i: nat)
    requires Indexed(slots, hashes) && i < |hashes| && hashes[i] == h
    requires ReachedAt(slots, h, Invalid, t)
    ensures exists s :: 0 <= s < t && slots[Step(h, s, |slots|)] == i
  {
    hide PowerOfTwo, Step;
    assert Reached(slots, h, i);
    var k: nat :| ReachedAt(slots, h, i, k);
    assert k < t;
  }

  /** An empty table with room for one entry. */
  lemma EmptyIndexed(m: nat)
    requires PowerOfTwo(m)
    ensures Indexed(seq(m, _ => Invalid), [])
  {
  }
}
