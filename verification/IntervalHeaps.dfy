/** A double-ended heap: node i holds an interval, the intervals of children lie within those of their parents,
    and the last node of an odd heap holds its one element twice. Nodes are numbered from 1. */
module IntervalHeaps {

  /** Parents come before children, for nodes 1 .. n. */
  ghost predicate Edges<T(!new)>(s: seq<T>, n: nat, key: T -> real) {
    n < |s| && forall p, i | 1 <= p && 2 <= i <= n && p == i / 2 :: key(s[p]) <= key(s[i])
  }

  ghost predicate Nested<T(!new)>(left: seq<T>, right: seq<T>, n: nat, key: T -> real) {
    n < |left| && n < |right| && forall i | 1 <= i <= n :: key(left[i]) <= key(right[i])
  }

  /** The order upside down: what holds of left ends under key holds of right ends under Opposite(key). */
  function Opposite<T(!new)>(key: T -> real): T -> real {
    x => -key(x)
  }

  ghost predicate HeapOk<T(!new)>(left: seq<T>, right: seq<T>, n: nat, key: T -> real) {
    var nodes := (n + 1) / 2;
    && Edges(left, nodes, key) && Edges(right, nodes, Opposite(key)) && Nested(left, right, nodes, key)
    && (n % 2 == 1 ==> left[nodes] == right[nodes])
  }

  /** The elements of nodes 1 .. n at one end. */
  ghost function Ends<T(!new)>(s: seq<T>, n: nat): multiset<T>
    requires n < |s|
  {
    multiset(s[1..n+1])
  }

  ghost function Elements<T(!new)>(left: seq<T>, right: seq<T>, n: nat): multiset<T>
    requires (n + 1) / 2 < |left| && n / 2 < |right|
  {
    Ends(left, (n + 1) / 2) + Ends(right, n / 2)
  }

  // ---------- ends under update ----------

  lemma EndsSet<T(!new)>(s: seq<T>, n: nat, i: nat, x: T)
    requires n < |s| && 1 <= i <= n
    ensures s[i] in Ends(s, n) && Ends(s[i := x], n) == Ends(s, n) - multiset{s[i]} + multiset{x}
  {
    var part := s[1..n+1];
    assert s[i := x][1..n+1] == part[i - 1 := x];
    assert part[i-1] == s[i];
  }

  lemma EndsBeyond<T(!new)>(s: seq<T>, n: nat, i: nat, x: T)
    requires n < |s| && n < i < |s|
    ensures Ends(s[i := x], n) == Ends(s, n)
  {
    assert s[i := x][1..n+1] == s[1..n+1];
  }

  lemma EndsMore<T(!new)>(s: seq<T>, n: nat)
    requires 0 < n < |s|
    ensures Ends(s, n) == Ends(s, n - 1) + multiset{s[n]}
  {
    assert s[1..n+1] == s[1..n] + [s[n]];
  }

  // ---------- the two ends of the heap ----------

  lemma {:induction false} RootFirst<T(!new)>(s: seq<T>, n: nat, i: nat, key: T -> real)
    requires Edges(s, n, key) && 1 <= i <= n
    ensures key(s[1]) <= key(s[i])
  {
    if i > 1 {
      RootFirst(s, n, i / 2, key);
      assert key(s[i / 2]) <= key(s[i]);
    }
  }

  /** The root holds the least and the greatest element. */
  lemma RootBounds<T(!new)>(left: seq<T>, right: seq<T>, n: nat, key: T -> real, x: T)
    requires HeapOk(left, right, n, key) && (n + 1) / 2 < |left| && n / 2 < |right| && x in Elements(left, right, n)
    ensures n > 0 && key(left[1]) <= key(x) <= key(right[1])
  {
    hide HeapOk, Ends;
    if x in Ends(left, (n + 1) / 2) {
      var i := EndAt(left, (n + 1) / 2, x);
      NodeBounds(left, right, n, key, i);
    } else {
      var i := EndAt(right, n / 2, x);
      NodeBounds(left, right, n, key, i);
    }
  }

  lemma EndAt<T(!new)>(s: seq<T>, n: nat, x: T) returns (i: nat)
    requires n < |s| && x in Ends(s, n)
    ensures 1 <= i <= n && s[i] == x
  {
    var k :| 0 <= k < n && s[1..n+1][k] == x;
    i := k + 1;
  }

  lemma NodeBounds<T(!new)>(left: seq<T>, right: seq<T>, n: nat, key: T -> real, i: nat)
    requires HeapOk(left, right, n, key) && 1 <= i <= (n + 1) / 2
    ensures (n + 1) / 2 < |left| && (n + 1) / 2 < |right|
    ensures key(left[1]) <= key(left[i]) <= key(right[i]) <= key(right[1])
  {
    RootFirst(left, (n + 1) / 2, i, key);
    RootFirst(right, (n + 1) / 2, i, Opposite(key));
  }

  // ---------- sifting up ----------

  ghost predicate Parent(p: nat, i: nat) {
    p >= 1 && i >= 2 && p == i / 2
  }

  /** All of s[1..n] in heap order, but for node i and its parent. */
  ghost predicate EdgesBut<T(!new)>(s: seq<T>, n: nat, hole: nat, key: T -> real) {
    && 1 <= hole <= n < |s|
    && (forall p: nat, i: nat | Parent(p, i) && i <= n && i != hole :: key(s[p]) <= key(s[i]))
    && forall p: nat, i: nat | Parent(p, hole) && Parent(hole, i) && i <= n :: key(s[p]) <= key(s[i])
  }

  /** x belongs at the hole or above it; m of the nodes have a far end too, which bounds the near ones. */
  ghost predicate Rising<T(!new)>(s: seq<T>, far: seq<T>, n: nat, m: nat, hole: nat, x: T, key: T -> real) {
    && 1 <= hole <= n < |s| && m <= n <= m + 1
    && EdgesBut(s[hole := x], n, hole, key) && Nested(s[hole := x], far, m, key)
    && forall p: nat | Parent(p, hole) && hole <= m :: key(s[p]) <= key(far[hole])
  }

  /** The parent moves down into the hole. */
  lemma Rise<T(!new)>(s: seq<T>, far: seq<T>, n: nat, m: nat, hole: nat, x: T, key: T -> real)
    requires Rising(s, far, n, m, hole, x, key) && hole > 1 && key(x) <= key(s[hole / 2])
    ensures Rising(s[hole := s[hole / 2]], far, n, m, hole / 2, x, key)
    ensures Ends(s[hole := s[hole / 2]][hole / 2 := x], n) == Ends(s[hole := x], n)
  {
    hide Ends;
    var up := hole / 2;
    var v, after := s[hole := x], s[hole := s[up]];
    var w := after[up := x];
    assert w == v[hole := v[up]][up := x];
    assert Parent(up, hole);
    EndsSwap(v, n, hole, up);
    forall p: nat, i: nat | Parent(p, i) && i <= n && i != up ensures key(w[p]) <= key(w[i]) {
      RiseEdge(s, far, n, m, hole, x, key, p, i);
    }
    forall p: nat, i: nat | Parent(p, up) && Parent(up, i) && i <= n ensures key(w[p]) <= key(w[i]) {
      RiseGrand(s, far, n, m, hole, x, key, p, i);
    }
    assert EdgesBut(w, n, up, key);
    forall i | 1 <= i <= m ensures key(w[i]) <= key(far[i]) {
      assert key(v[i]) <= key(far[i]);
    }
    forall p: nat | Parent(p, up) && up <= m ensures key(after[p]) <= key(far[up]) {
      assert key(v[p]) <= key(v[up]);
    }
  }

  lemma RiseGrand<T(!new)>(s: seq<T>, far: seq<T>, n: nat, m: nat, hole: nat, x: T, key: T -> real, p: nat, i: nat)
    requires Rising(s, far, n, m, hole, x, key) && hole > 1 && key(x) <= key(s[hole / 2])
    requires Parent(p, hole / 2) && Parent(hole / 2, i) && i <= n
    ensures key(s[hole := s[hole / 2]][hole / 2 := x][p]) <= key(s[hole := s[hole / 2]][hole / 2 := x][i])
  {
    var up := hole / 2;
    var v := s[hole := x];
    assert key(v[p]) <= key(v[up]);
    if i != hole {
      assert key(v[up]) <= key(v[i]);
    }
  }

  lemma EndsSwap<T(!new)>(v: seq<T>, n: nat, i: nat, j: nat)
    requires 1 <= i <= n < |v| && 1 <= j <= n && i != j
    ensures Ends(v[i := v[j]][j := v[i]], n) == Ends(v, n)
  {
    hide Ends;
    var w := v[i := v[j]];
    EndsSet(v, n, i, v[j]);
    EndsSet(w, n, j, v[i]);
    assert w[j] == v[j];
  }

  lemma RiseEdge<T(!new)>(s: seq<T>, far: seq<T>, n: nat, m: nat, hole: nat, x: T, key: T -> real, p: nat, i: nat)
    requires Rising(s, far, n, m, hole, x, key) && hole > 1 && key(x) <= key(s[hole / 2])
    requires Parent(p, i) && i <= n && i != hole / 2
    ensures key(s[hole := s[hole / 2]][hole / 2 := x][p]) <= key(s[hole := s[hole / 2]][hole / 2 := x][i])
  {
    var up := hole / 2;
    var v := s[hole := x];
    assert Parent(up, hole);
    if i != hole {
      assert key(v[p]) <= key(v[i]);
    }
  }

  /** x settles in the hole. */
  lemma Settle<T(!new)>(s: seq<T>, far: seq<T>, n: nat, m: nat, hole: nat, x: T, key: T -> real)
    requires Rising(s, far, n, m, hole, x, key) && (hole == 1 || key(s[hole / 2]) <= key(x))
    ensures Edges(s[hole := x], n, key) && Nested(s[hole := x], far, m, key)
  {
    var v := s[hole := x];
    forall p, i | 1 <= p && 2 <= i <= n && p == i / 2 ensures key(v[p]) <= key(v[i]) {
      assert Parent(p, i);
    }
  }

  // ---------- sifting down ----------

  /** All of s[1..n] in heap order, but for node hole and its children, whose order with its parent stands. */
  ghost predicate EdgesAbove<T(!new)>(s: seq<T>, n: nat, hole: nat, key: T -> real) {
    && 1 <= hole <= n < |s|
    && (forall p: nat, i: nat | Parent(p, i) && i <= n && p != hole :: key(s[p]) <= key(s[i]))
    && forall p: nat, i: nat | Parent(p, hole) && Parent(hole, i) && i <= n :: key(s[p]) <= key(s[i])
  }

  ghost predicate Sinking<T(!new)>(s: seq<T>, far: seq<T>, n: nat, hole: nat, y: T, key: T -> real) {
    && 1 <= hole <= n < |s| && EdgesAbove(s[hole := y], n, hole, key)
    && Edges(far, n, Opposite(key)) && Nested(s[hole := y], far, n, key)
  }

  /** c is the child of the hole that comes first. */
  ghost predicate FirstChild<T(!new)>(s: seq<T>, n: nat, hole: nat, c: nat, key: T -> real) {
    && 1 <= hole && Parent(hole, c) && c <= n < |s|
    && forall i: nat | Parent(hole, i) && i <= n :: key(s[c]) <= key(s[i])
  }

  /** Child c moves up into the hole; y changes places with c's far end if it lies beyond it. */
  lemma Sink<T(!new)>(s: seq<T>, far: seq<T>, n: nat, hole: nat, y: T, c: nat, key: T -> real)
    requires Sinking(s, far, n, hole, y, key) && FirstChild(s, n, hole, c, key) && key(s[c]) < key(y)
    ensures c < |far|
    ensures key(y) <= key(far[c]) ==> Sinking(s[hole := s[c]], far, n, c, y, key)
    ensures key(y) > key(far[c]) ==> Sinking(s[hole := s[c]], far[c := y], n, c, far[c], key)
  {
    var v, after := s[hole := y], s[hole := s[c]];
    var z, farther := if key(y) > key(far[c]) then far[c] else y, if key(y) > key(far[c]) then far[c := y] else far;
    var w := after[c := z];
    assert Parent(hole, c);
    assert key(v[c]) <= key(far[c]) && key(v[hole]) <= key(far[hole]);
    forall p: nat, i: nat | Parent(p, i) && i <= n && p != c ensures key(w[p]) <= key(w[i]) {
      SinkEdge(s, far, n, hole, y, c, key, z, p, i);
    }
    forall p: nat, i: nat | Parent(p, c) && Parent(c, i) && i <= n ensures key(w[p]) <= key(w[i]) {
      assert key(v[c]) <= key(v[i]);
    }
    forall p, i | 1 <= p && 2 <= i <= n && p == i / 2
      ensures Opposite(key)(farther[p]) <= Opposite(key)(farther[i])
    {
      assert Opposite(key)(far[p]) <= Opposite(key)(far[i]);
      assert Opposite(key)(far[hole]) <= Opposite(key)(far[c]);
    }
    assert key(far[c]) <= key(far[hole]) by {
      assert Opposite(key)(far[hole]) <= Opposite(key)(far[c]);
    }
    forall i | 1 <= i <= n ensures key(w[i]) <= key(farther[i]) {
      assert key(v[i]) <= key(far[i]);
    }
  }

  lemma SinkEdge<T(!new)>(s: seq<T>, far: seq<T>, n: nat, hole: nat, y: T, c: nat, key: T -> real, z: T, p: nat, i: nat)
    requires Sinking(s, far, n, hole, y, key) && FirstChild(s, n, hole, c, key) && key(s[c]) < key(y)
    requires key(s[c]) <= key(z) && Parent(p, i) && i <= n && p != c
    ensures key(s[hole := s[c]][c := z][p]) <= key(s[hole := s[c]][c := z][i])
  {
    var v := s[hole := y];
    if p != hole {
      assert key(v[p]) <= key(v[i]);
      if i == hole {
        assert key(v[p]) <= key(v[c]);
      }
    }
  }

  /** y settles in the hole. */
  lemma Land<T(!new)>(s: seq<T>, far: seq<T>, n: nat, hole: nat, y: T, key: T -> real)
    requires Sinking(s, far, n, hole, y, key)
    requires forall i: nat | Parent(hole, i) && i <= n :: key(y) <= key(s[i])
    ensures Edges(s[hole := y], n, key) && Edges(far, n, Opposite(key)) && Nested(s[hole := y], far, n, key)
  {
    var v := s[hole := y];
    forall p, i | 1 <= p && 2 <= i <= n && p == i / 2 ensures key(v[p]) <= key(v[i]) {
      assert Parent(p, i);
    }
  }

  // ---------- the sifting loops; for the right ends the order is turned upside down ----------

  /** Moves parents down from node last until x can be put at the hole. */
  method SiftUp<T(!new)>(s: seq<T>, last: nat, x: T, key: T -> real, ghost far: seq<T>, ghost m: nat) returns (r: seq<T>)
    requires Rising(s, far, last, m, last, x, key)
    ensures |r| == |s| && Edges(r, last, key) && Nested(r, far, m, key)
    ensures Ends(r, last) == Ends(s[last := x], last)
    ensures r[last] == x || (last > 1 && key(x) <= key(s[last / 2]) && r[last] == s[last / 2])
    ensures last > 1 && key(x) <= key(s[last / 2]) ==> r[last] == s[last / 2]
    ensures last > 1 && key(x) > key(s[last / 2]) ==> r[last] == x
  {
    hide Rising, Ends;
    RisingShape(s, far, last, m, last, x, key);
    r := s;
    var i := last;
    while i != 1 && key(x) <= key(r[i / 2])
      invariant 1 <= i <= last < |r| == |s| && Rising(r, far, last, m, i, x, key)
      invariant Ends(r[i := x], last) == Ends(s[last := x], last)
      invariant i == last ==> r == s
      invariant i < last ==> key(x) <= key(s[last / 2]) && r[last] == s[last / 2]
    {
      Rise(r, far, last, m, i, x, key);
      r := r[i := r[i / 2]];
      i := i / 2;
    }
    Settle(r, far, last, m, i, x, key);
    r := r[i := x];
  }

  lemma RisingShape<T(!new)>(s: seq<T>, far: seq<T>, n: nat, m: nat, hole: nat, x: T, key: T -> real)
    requires Rising(s, far, n, m, hole, x, key)
    ensures 1 <= hole <= n < |s|
  {
  }

  /** Moves first children up from the root until y can be put at the hole. Elements at the far end of nodes
      passed give way to y where it lies beyond them. A last node whose ends are equal is not passed by a y that
      does not lie beyond it. */
  method SiftDown<T(!new)>(s: seq<T>, far: seq<T>, last: nat, y0: T, key: T -> real, ghost counted: nat) returns (r: seq<T>, f: seq<T>)
    requires Sinking(s, far, last, 1, y0, key) && last - 1 <= counted <= last
    requires counted < last ==> last > 1 && s[last] == far[last] && key(y0) <= key(far[last])
    ensures |r| == |s| && |f| == |far| && last < |far|
    ensures Edges(r, last, key) && Edges(f, last, Opposite(key)) && Nested(r, f, last, key)
    ensures Ends(r, last) + Ends(f, counted) == Ends(s[1 := y0], last) + Ends(far, counted)
    ensures counted < last ==> r[last] == f[last]
  {
    hide Sinking, Ends, FirstChild;
    SinkingShape(s, far, last, 1, y0, key);
    r, f := s, far;
    var i, ci, y := 1, 2, y0;
    while ci <= last
      invariant 1 <= i <= last < |r| == |s| && |f| == |far| && last < |far| && ci == 2 * i
      invariant Sinking(r, f, last, i, y, key)
      invariant Ends(r[i := y], last) + Ends(f, counted) == Ends(s[1 := y0], last) + Ends(far, counted)
      invariant counted < last ==> i < last && r[last] == f[last] && key(y) <= key(f[last])
    {
      if ci < last && key(r[ci]) > key(r[ci+1]) {
        ci := ci + 1;
      }
      ChildFirst(r, last, i, ci, key);
      if key(y) <= key(r[ci]) {
        FirstBelow(r, last, i, y, ci, key);
        break;
      }
      Sink(r, f, last, i, y, ci, key);
      SinkEnds(r, f, last, counted, i, y, ci);
      r := r[i := r[ci]];
      if key(y) > key(f[ci]) {
        y, f := f[ci], f[ci := y];
      }
      i := ci;
      ci := 2 * ci;
    }
    Land(r, f, last, i, y, key);
    r := r[i := y];
  }

  lemma SinkingShape<T(!new)>(s: seq<T>, far: seq<T>, n: nat, hole: nat, y: T, key: T -> real)
    requires Sinking(s, far, n, hole, y, key)
    ensures 1 <= hole <= n < |s| && n < |far|
  {
  }

  lemma ChildFirst<T(!new)>(s: seq<T>, n: nat, hole: nat, c: nat, key: T -> real)
    requires 1 <= hole <= n < |s| && (c == 2 * hole || c == 2 * hole + 1) && c <= n
    requires c == 2 * hole ==> c == n || key(s[c]) <= key(s[c+1])
    requires c == 2 * hole + 1 ==> key(s[c]) <= key(s[c-1])
    ensures FirstChild(s, n, hole, c, key)
  {
  }

  lemma FirstBelow<T(!new)>(s: seq<T>, n: nat, hole: nat, y: T, c: nat, key: T -> real)
    requires FirstChild(s, n, hole, c, key) && key(y) <= key(s[c])
    ensures forall i: nat | Parent(hole, i) && i <= n :: key(y) <= key(s[i])
  {
  }

  /** Moving a child up, and exchanging y with a far end, loses no element. */
  lemma SinkEnds<T(!new)>(s: seq<T>, far: seq<T>, n: nat, counted: nat, hole: nat, y: T, c: nat)
    requires 1 <= hole < c <= n < |s| && n < |far| && counted <= n
    ensures Ends(s[hole := s[c]][c := y], n) == Ends(s[hole := y], n)
    ensures c <= counted ==>
              Ends(s[hole := s[c]][c := far[c]], n) + Ends(far[c := y], counted) == Ends(s[hole := y], n) + Ends(far, counted)
  {
    hide Ends;
    var v := s[hole := y];
    EndsSwap(v, n, hole, c);
    assert v[hole := v[c]][c := v[hole]] == s[hole := s[c]][c := y];
    var w := s[hole := s[c]];
    EndsSet(w[c := y], n, c, far[c]);
    assert w[c := y][c := far[c]] == w[c := far[c]];
    if c <= counted {
      EndsSet(far, counted, c, y);
    }
  }

  // ---------- before and after each operation ----------

  /** An odd heap's last node takes one more element at either end. */
  lemma OddStart<T(!new)>(left: seq<T>, right: seq<T>, n: nat, x: T, key: T -> real)
    requires HeapOk(left, right, n, key) && n % 2 == 1 && n > 2
    ensures var last := (n + 1) / 2;
            && last < |left| && last < |right|
            && (key(x) < key(left[last]) ==> Rising(left, right, last, last, last, x, key))
            && (key(x) >= key(left[last]) ==> Rising(right, left, last, last, last, x, Opposite(key)))
            && Ends(left[last := x], last) + Ends(right, last) == Elements(left, right, n) + multiset{x}
            && Ends(right[last := x], last) + Ends(left, last) == Elements(left, right, n) + multiset{x}
  {
    hide Ends;
    var last := (n + 1) / 2;
    assert key(left[last / 2]) <= key(left[last]);
    assert Opposite(key)(right[last / 2]) <= Opposite(key)(right[last]);
    EndsSet(left, last, last, x);
    EndsMore(right, last);
    EndsSet(right, last, last, x);
  }

  /** An even heap gets a new node, which rises on the side of the parent's interval that x is on. */
  lemma EvenStart<T(!new)>(left: seq<T>, right: seq<T>, n: nat, x: T, key: T -> real)
    requires HeapOk(left, right, n, key) && n % 2 == 0 && n >= 2 && |left| > n / 2 + 1 && |right| > n / 2 + 1
    ensures var last := n / 2 + 1;
            && (key(x) <= key(left[last / 2]) ==> Rising(left, right, last, last - 1, last, x, key))
            && (key(x) > key(left[last / 2]) ==> Rising(right, left, last, last - 1, last, x, Opposite(key)))
            && Ends(left[last := x], last) + Ends(right, last - 1) == Elements(left, right, n) + multiset{x}
            && Ends(right[last := x], last) + Ends(left, last - 1) == Elements(left, right, n) + multiset{x}
  {
    hide Ends;
    var last := n / 2 + 1;
    EndsBeyond(left, last - 1, last, x);
    EndsMore(left[last := x], last);
    EndsBeyond(right, last - 1, last, x);
    EndsMore(right[last := x], last);
  }

  /** An even heap with one element more on one side: the other end of its last node is the same element. */
  lemma EvenEnd<T(!new)>(near: seq<T>, far: seq<T>, last: nat, key: T -> real)
    requires last >= 2 && Edges(near, last, key) && Nested(near, far, last - 1, key) && last < |far|
    requires Edges(far, last - 1, Opposite(key)) && key(near[last]) <= key(far[last / 2])
    ensures Edges(far[last := near[last]], last, Opposite(key)) && Nested(near, far[last := near[last]], last, key)
    ensures Ends(far[last := near[last]], last - 1) == Ends(far, last - 1)
    ensures Ends(far[last := near[last]], last) == Ends(far, last - 1) + multiset{near[last]}
    ensures Ends(near, last) == Ends(near, last - 1) + multiset{near[last]}
  {
    hide Ends;
    var f := far[last := near[last]];
    EndsBeyond(far, last - 1, last, near[last]);
    EndsMore(f, last);
    EndsMore(near, last);
    forall p, i | 1 <= p && 2 <= i <= last && p == i / 2 ensures Opposite(key)(f[p]) <= Opposite(key)(f[i]) {
      if i < last {
        assert Opposite(key)(far[p]) <= Opposite(key)(far[i]);
      }
    }
  }

  /** Taking the near end of the root out of an odd heap: the last node goes, and its element is to be put back. */
  lemma OddPop<T(!new)>(near: seq<T>, far: seq<T>, last: nat, key: T -> real)
    requires last >= 2 && Edges(near, last, key) && Edges(far, last, Opposite(key)) && Nested(near, far, last, key)
    requires near[last] == far[last]
    ensures Sinking(near, far, last - 1, 1, near[last], key)
    ensures near[1] in Ends(near, last) + Ends(far, last - 1)
    ensures Ends(near[1 := near[last]], last - 1) + Ends(far, last - 1)
         == Ends(near, last) + Ends(far, last - 1) - multiset{near[1]}
  {
    hide Ends;
    RootFirst(far, last, last, Opposite(key));
    EndsMore(near, last);
    EndsSet(near, last - 1, 1, near[last]);
    var v := near[1 := near[last]];
    forall p: nat, i: nat | Parent(p, i) && i <= last - 1 && p != 1 ensures key(v[p]) <= key(v[i]) {
      assert key(near[p]) <= key(near[i]);
    }
    assert Edges(far, last - 1, Opposite(key));
    assert Nested(v, far, last - 1, key);
  }

  /** Out of an even one: the last node keeps its far element at both ends, and the near one is to be put back. */
  lemma EvenPop<T(!new)>(near: seq<T>, far: seq<T>, last: nat, key: T -> real)
    requires last >= 2 && Edges(near, last, key) && Edges(far, last, Opposite(key)) && Nested(near, far, last, key)
    ensures Sinking(near[last := far[last]], far, last, 1, near[last], key) && key(near[last]) <= key(far[last])
  {
    RootFirst(far, last, last, Opposite(key));
    var v := near[last := far[last]][1 := near[last]];
    forall p: nat, i: nat | Parent(p, i) && i <= last && p != 1 ensures key(v[p]) <= key(v[i]) {
      assert key(near[p]) <= key(near[i]);
    }
    forall i | 1 <= i <= last ensures key(v[i]) <= key(far[i]) {
      assert key(near[i]) <= key(far[i]);
    }
  }

  lemma EvenPopEnds<T(!new)>(near: seq<T>, far: seq<T>, last: nat)
    requires 2 <= last < |near| && last < |far|
    ensures near[1] in Ends(near, last) + Ends(far, last)
    ensures Ends(near[last := far[last]][1 := near[last]], last) + Ends(far, last - 1)
         == Ends(near, last) + Ends(far, last) - multiset{near[1]}
  {
    hide Ends;
    var s, y := near[last := far[last]], near[last];
    EndsMore(far, last);
    EndsMore(near, last);
    EndsSet(near, last - 1, 1, y);
    EndsMore(s[1 := y], last);
    EndsBeyond(near[1 := y], last - 1, last, far[last]);
    assert near[1 := y][last := far[last]] == s[1 := y];
  }

  lemma Parts<T(!new)>(left: seq<T>, right: seq<T>, n: nat, key: T -> real)
    requires HeapOk(left, right, n, key)
    ensures var nodes := (n + 1) / 2;
            && nodes < |left| && nodes < |right|
            && Edges(left, nodes, key) && Edges(right, nodes, Opposite(key)) && Nested(left, right, nodes, key)
            && (n % 2 == 1 ==> left[nodes] == right[nodes])
            && Elements(left, right, n) == Ends(left, nodes) + Ends(right, n / 2)
  {
  }

  lemma Whole<T(!new)>(left: seq<T>, right: seq<T>, n: nat, key: T -> real)
    requires var nodes := (n + 1) / 2;
             && nodes < |left| && nodes < |right|
             && Edges(left, nodes, key) && Edges(right, nodes, Opposite(key)) && Nested(left, right, nodes, key)
             && (n % 2 == 1 ==> left[nodes] == right[nodes])
    ensures HeapOk(left, right, n, key)
    ensures Elements(left, right, n) == Ends(left, (n + 1) / 2) + Ends(right, n / 2)
  {
  }

  /** Upside down twice is as before. */
  lemma Flip<T(!new)>(left: seq<T>, right: seq<T>, n: nat, key: T -> real)
    ensures Edges(left, n, Opposite(Opposite(key))) <==> Edges(left, n, key)
    ensures Nested(right, left, n, Opposite(key)) <==> Nested(left, right, n, key)
  {
  }

  /** Nodes up to n, old ones as they were. */
  function Reach<T>(s: seq<T>, n: nat, filler: T): (r: seq<T>)
    ensures |r| > n && |r| >= |s| && r[..|s|] == s
    ensures |r| == if n < |s| then |s| else n + 1
  {
    if n < |s| then s else s + seq(n + 1 - |s|, _ => filler)
  }

  lemma ReachKeeps<T(!new)>(left: seq<T>, right: seq<T>, n: nat, key: T -> real, k: nat, filler: T)
    requires HeapOk(left, right, n, key)
    ensures (n + 1) / 2 < |left| && (n + 1) / 2 < |right|
    ensures HeapOk(Reach(left, k, filler), Reach(right, k, filler), n, key)
    ensures Elements(Reach(left, k, filler), Reach(right, k, filler), n) == Elements(left, right, n)
  {
    hide Ends, Edges, Reach;
    var nodes := (n + 1) / 2;
    EdgesSize(left, nodes, key);
    EdgesSize(right, nodes, Opposite(key));
    ReachEdges(left, nodes, key, k, filler);
    ReachEdges(right, nodes, Opposite(key), k, filler);
    ReachEnds(left, nodes, k, filler);
    ReachEnds(right, n / 2, k, filler);
  }

  lemma ReachEdges<T(!new)>(s: seq<T>, n: nat, key: T -> real, k: nat, filler: T)
    requires Edges(s, n, key)
    ensures Edges(Reach(s, k, filler), n, key)
  {
    hide Reach;
    var r := Reach(s, k, filler);
    assert forall i | 0 <= i < |s| :: r[i] == r[..|s|][i];
  }

  lemma ReachEnds<T(!new)>(s: seq<T>, n: nat, k: nat, filler: T)
    requires n < |s|
    ensures n < |Reach(s, k, filler)| && Ends(Reach(s, k, filler), n) == Ends(s, n)
    ensures forall i | 0 <= i < |s| :: Reach(s, k, filler)[i] == s[i]
  {
    hide Reach;
    var r := Reach(s, k, filler);
    assert forall i | 0 <= i < |s| :: r[i] == r[..|s|][i];
    assert r[1..n+1] == s[1..n+1];
  }

  lemma EndsFew<T(!new)>(s: seq<T>)
    requires |s| > 1
    ensures Ends(s, 0) == multiset{} && Ends(s, 1) == multiset{s[1]}
  {
    assert s[1..1] == [] && s[1..2] == [s[1]];
  }

  // ---------- the operations on both ends ----------

  method PushOdd<T(!new)>(left: seq<T>, right: seq<T>, n: nat, x: T, key: T -> real) returns (l: seq<T>, r: seq<T>)
    requires HeapOk(left, right, n, key) && n % 2 == 1 && n > 2
    ensures HeapOk(l, r, n + 1, key) && |l| == |left| && |r| == |right|
    ensures (n + 1) / 2 < |left| && n / 2 < |right| && (n + 2) / 2 < |l| && (n + 1) / 2 < |r|
    ensures Elements(l, r, n + 1) == Elements(left, right, n) + multiset{x}
  {
    hide HeapOk, Edges, Nested, Ends, Elements, Rising;
    Parts(left, right, n, key);
    var last := n / 2 + n % 2;
    OddStart(left, right, n, x, key);
    l, r := left, right;
    if key(x) < key(left[last]) {
      l := SiftUp(left, last, x, key, right, last);
    } else {
      r := SiftUp(right, last, x, Opposite(key), left, last);
      Flip(l, r, last, key);
    }
    Whole(l, r, n + 1, key);
  }

  method PushEven<T(!new)>(left: seq<T>, right: seq<T>, n: nat, x: T, key: T -> real) returns (l: seq<T>, r: seq<T>)
    requires HeapOk(left, right, n, key) && n % 2 == 0 && n >= 2
    requires n / 2 + 1 < |left| && n / 2 + 1 < |right|
    ensures HeapOk(l, r, n + 1, key) && |l| == |left| && |r| == |right|
    ensures Elements(l, r, n + 1) == Elements(left, right, n) + multiset{x}
  {
    hide HeapOk, Edges, Nested, Ends, Elements, Rising;
    Parts(left, right, n, key);
    var last := n / 2 + n % 2 + 1;
    EvenStart(left, right, n, x, key);
    l, r := left, right;
    EvenParent(left, right, n, key);
    if key(x) <= key(left[last / 2]) {
      l := SiftUp(left, last, x, key, right, last - 1);
      EvenEnd(l, r, last, key);
      r := r[last := l[last]];
    } else {
      r := SiftUp(right, last, x, Opposite(key), left, last - 1);
      Flip(left, r, last - 1, key);
      EvenEnd(r, l, last, Opposite(key));
      l := l[last := r[last]];
      Flip(l, r, last, key);
    }
    Whole(l, r, n + 1, key);
  }

  lemma EvenParent<T(!new)>(left: seq<T>, right: seq<T>, n: nat, key: T -> real)
    requires HeapOk(left, right, n, key) && n % 2 == 0 && n >= 2
    ensures n / 2 < |left| && n / 2 < |right|
    ensures key(left[(n / 2 + 1) / 2]) <= key(right[(n / 2 + 1) / 2])
  {
  }

  /** Takes the near end of the root out; three or more elements. */
  method Pop<T(!new)>(near: seq<T>, far: seq<T>, n: nat, key: T -> real) returns (r: seq<T>, f: seq<T>)
    requires HeapOk(near, far, n, key) && n > 2
    ensures HeapOk(r, f, n - 1, key) && |r| == |near| && |f| == |far|
    ensures (n + 1) / 2 < |near| && n / 2 < |far| && n / 2 < |r| && (n - 1) / 2 < |f|
    ensures near[1] in Elements(near, far, n)
    ensures Elements(r, f, n - 1) == Elements(near, far, n) - multiset{near[1]}
  {
    hide HeapOk, Edges, Nested, Ends, Elements, Sinking;
    Parts(near, far, n, key);
    var last := n / 2 + n % 2;
    var y := near[last];
    if n % 2 == 1 {
      OddPop(near, far, last, key);
      last := last - 1;
      r, f := SiftDown(near, far, last, y, key, last);
    } else {
      EvenPop(near, far, last, key);
      EvenPopEnds(near, far, last);
      r := near[last := far[last]];
      r, f := SiftDown(r, far, last, y, key, last - 1);
    }
    Whole(r, f, n - 1, key);
  }

  /** A heap upside down is a heap with the same elements. */
  lemma Upside<T(!new)>(left: seq<T>, right: seq<T>, n: nat, key: T -> real)
    ensures HeapOk(left, right, n, key) <==> HeapOk(right, left, n, Opposite(key))
    ensures HeapOk(left, right, n, key) ==>
              (n + 1) / 2 < |left| && (n + 1) / 2 < |right| && Elements(left, right, n) == Elements(right, left, n)
  {
    hide Ends, Edges, Nested;
    var nodes := (n + 1) / 2;
    Flip(left, right, nodes, key);
    Flip(right, left, nodes, key);
    EdgesSize(left, nodes, key);
    EdgesSize(right, nodes, Opposite(key));
    if nodes < |left| && nodes < |right| && n % 2 == 1 {
      EndsMore(left, nodes);
      EndsMore(right, nodes);
    }
  }

  lemma EdgesSize<T(!new)>(s: seq<T>, n: nat, key: T -> real)
    ensures Edges(s, n, key) ==> n < |s|
  {
  }

  lemma FewPop<T(!new)>(near: seq<T>, far: seq<T>, n: nat, key: T -> real)
    requires HeapOk(near, far, n, key) && 1 <= n <= 2
    ensures 1 < |near| && 1 < |far| && near[1] in Elements(near, far, n)
    ensures n == 1 ==> HeapOk(near, far, 0, key) && Elements(near, far, 0) == Elements(near, far, 1) - multiset{near[1]}
    ensures n == 2 ==> HeapOk(near[1 := far[1]], far, 1, key)
                       && Elements(near[1 := far[1]], far, 1) == Elements(near, far, 2) - multiset{near[1]}
  {
    hide Ends;
    EndsFew(near);
    EndsFew(far);
    EndsFew(near[1 := far[1]]);
  }

  lemma FewPush<T(!new)>(left: seq<T>, right: seq<T>, n: nat, x: T, key: T -> real)
    requires HeapOk(left, right, n, key) && n < 2 && 1 < |left| && 1 < |right|
    ensures n == 0 ==> HeapOk(left[1 := x], right[1 := x], 1, key)
                       && Elements(left[1 := x], right[1 := x], 1) == Elements(left, right, 0) + multiset{x}
    ensures n == 1 && key(x) < key(left[1]) ==>
              HeapOk(left[1 := x], right, 2, key) && Elements(left[1 := x], right, 2) == Elements(left, right, 1) + multiset{x}
    ensures n == 1 && key(x) >= key(left[1]) ==>
              HeapOk(left, right[1 := x], 2, key) && Elements(left, right[1 := x], 2) == Elements(left, right, 1) + multiset{x}
  {
    hide Ends;
    EndsFew(left);
    EndsFew(right);
    EndsFew(left[1 := x]);
    EndsFew(right[1 := x]);
  }

  class IntervalHeap<T(0,!new)> {
    const key: T -> real
    var currentSize: nat
    var left: seq<T>
    var right: seq<T>

    ghost predicate Valid()
      reads this
    {
      |left| == |right| && HeapOk(left, right, currentSize, key)
    }

    ghost function Contents(): multiset<T>
      requires Valid()
      reads this
    {
      Elements(left, right, currentSize)
    }

    constructor (key: T -> real, capacity: nat)
      ensures Valid() && Contents() == multiset{} && currentSize == 0 && this.key == key
    {
      this.key := key;
      currentSize := 0;
      var filler: T := *;
      left := seq(capacity / 2 + capacity % 2 + 1, _ => filler);
      right := seq(capacity / 2 + capacity % 2 + 1, _ => filler);
    }

    method TopMin() returns (x: T)
      requires Valid() && currentSize > 0
      ensures x in Contents() && forall y | y in Contents() :: key(x) <= key(y)
    {
      x := left[1];
      EndsSet(left, (currentSize + 1) / 2, 1, x);
      forall y | y in Contents() ensures key(x) <= key(y) {
        RootBounds(left, right, currentSize, key, y);
      }
    }

    method TopMax() returns (x: T)
      requires Valid() && currentSize > 0
      ensures x in Contents() && forall y | y in Contents() :: key(y) <= key(x)
    {
      x := right[1];
      if currentSize == 1 {
        EndsSet(left, 1, 1, x);
      } else {
        EndsSet(right, currentSize / 2, 1, x);
      }
      forall y | y in Contents() ensures key(y) <= key(x) {
        RootBounds(left, right, currentSize, key, y);
      }
    }

    method Push(x: T)
      requires Valid()
      modifies this`left, this`right, this`currentSize
      ensures Valid() && currentSize == old(currentSize) + 1
      ensures Contents() == old(Contents()) + multiset{x}
    {
      hide HeapOk, Elements;
      ReachKeeps(left, right, currentSize, key, currentSize / 2 + 1, x);
      left, right := Reach(left, currentSize / 2 + 1, x), Reach(right, currentSize / 2 + 1, x);
      if currentSize < 2 {
        FewPush(left, right, currentSize, x, key);
        if currentSize == 1 {
          if key(x) < key(left[1]) {
            left := left[1 := x];
          } else {
            right := right[1 := x];
          }
        } else {
          left, right := left[1 := x], right[1 := x];
        }
      } else if currentSize % 2 == 1 {
        left, right := PushOdd(left, right, currentSize, x, key);
      } else {
        left, right := PushEven(left, right, currentSize, x, key);
      }
      currentSize := currentSize + 1;
    }

    /** Takes out the least element, which is at the root; of two elements the other stays at both ends. */
    method PopMin()
      requires Valid() && currentSize > 0
      modifies this`left, this`right, this`currentSize
      ensures Valid() && currentSize == old(currentSize) - 1
      ensures old(left[1]) in old(Contents()) && Contents() == old(Contents()) - multiset{old(left[1])}
    {
      hide HeapOk, Elements;
      if currentSize <= 2 {
        FewPop(left, right, currentSize, key);
        if currentSize == 2 {
          left := left[1 := right[1]];
        }
      } else {
        left, right := Pop(left, right, currentSize, key);
      }
      currentSize := currentSize - 1;
    }

    /** Takes out the greatest element, which is at the root: the same with the ends exchanged. */
    method PopMax()
      requires Valid() && currentSize > 0
      modifies this`left, this`right, this`currentSize
      ensures Valid() && currentSize == old(currentSize) - 1
      ensures old(right[1]) in old(Contents()) && Contents() == old(Contents()) - multiset{old(right[1])}
    {
      hide HeapOk, Elements;
      Upside(left, right, currentSize, key);
      if currentSize <= 2 {
        FewPop(right, left, currentSize, Opposite(key));
        if currentSize == 2 {
          right := right[1 := left[1]];
        }
      } else {
        right, left := Pop(right, left, currentSize, Opposite(key));
      }
      currentSize := currentSize - 1;
      Upside(left, right, currentSize, key);
    }
  }
}
