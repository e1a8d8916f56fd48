/** The n best paths of a lattice. */
module NBest {
  import opened Lattices
  import opened Viterbi

  /** A partial path: its score with the best completion, and the node it has reached. */
  datatype Path = Path(score: real, node: nat)

  // ---------- totals of complete paths ----------

  ghost function Total(g: Lattice, base: real, p: seq<nat>): real
    requires g.Valid()
  {
    if g.Arcs(p) then base + g.PathScore(p) else base
  }

  ghost function Totals(g: Lattice, base: real, paths: seq<seq<nat>>): multiset<real>
    requires g.Valid()
  {
    if paths == [] then multiset{}
    else multiset{Total(g, base, paths[0])} + Totals(g, base, paths[1..])
  }

  lemma SumAssoc(a: multiset<real>, b: multiset<real>, c: multiset<real>)
    ensures a + b + c == a + (b + c)
  {
  }

  lemma {:induction false} TotalsAppend(g: Lattice, base: real, a: seq<seq<nat>>, b: seq<seq<nat>>)
    requires g.Valid()
    ensures Totals(g, base, a + b) == Totals(g, base, a) + Totals(g, base, b)
  {
    hide Lattice.Valid, Total;
    if a == [] {
      assert a + b == b;
    } else {
      var h, x, y := multiset{Total(g, base, a[0])}, Totals(g, base, a[1..]), Totals(g, base, b);
      calc {
        Totals(g, base, a + b);
        { assert (a + b)[0] == a[0] && (a + b)[1..] == a[1..] + b; }
        h + Totals(g, base, a[1..] + b);
        { TotalsAppend(g, base, a[1..], b); }
        h + (x + y);
        { SumAssoc(h, x, y); }
        h + x + y;
      }
    }
  }

  lemma TotalsNone(g: Lattice, base: real)
    requires g.Valid()
    ensures Totals(g, base, []) == multiset{}
  {
  }

  lemma {:induction false} TotalsSize(g: Lattice, base: real, paths: seq<seq<nat>>)
    requires g.Valid()
    ensures |Totals(g, base, paths)| == |paths|
  {
    hide Lattice.Valid, Total;
    if paths != [] {
      TotalsSize(g, base, paths[1..]);
    }
  }

  /** Paths through arc i total the arc's weight more than their tails. */
  lemma {:induction false} TotalsPrepend(g: Lattice, base: real, n: nat, i: nat, tails: seq<seq<nat>>)
    requires g.Valid() && n < g.finalNode && g.First(n) <= i < g.Past(n) && i < |g.weights|
    requires forall k | 0 <= k < |tails| :: g.IsPath(g.End(i), tails[k])
    ensures Totals(g, base, Prepend(i, tails)) == Totals(g, base + g.weights[i], tails)
  {
    hide Lattice.Valid;
    if tails != [] {
      ConsPath(g, n, i, tails[0]);
      TotalsPrepend(g, base, n, i, tails[1..]);
      assert Prepend(i, tails)[1..] == Prepend(i, tails[1..]);
    }
  }

  lemma {:induction false} TotalsBound(g: Lattice, base: real, n: nat, paths: seq<seq<nat>>, t: real)
    requires g.Valid() && n <= g.finalNode
    requires forall k | 0 <= k < |paths| :: g.IsPath(n, paths[k])
    requires t in Totals(g, base, paths)
    ensures base + Best(g, n) <= t
  {
    hide Lattice.Valid, Best;
    BestIsLeast(g, n, paths[0]);
    if t != Total(g, base, paths[0]) {
      TotalsBound(g, base, n, paths[1..], t);
    }
  }

  // ---------- what a queue entry stands for ----------

  ghost predicate EntryFits(g: Lattice, e: Path)
    requires g.Valid()
  {
    e.node <= g.finalNode
  }

  /** Totals of all complete paths that extend the partial path. */
  ghost function Completions(g: Lattice, e: Path): multiset<real>
    requires g.Valid() && EntryFits(g, e)
  {
    Totals(g, e.score - Best(g, e.node), g.AllPaths(e.node))
  }

  ghost predicate QueueFits(g: Lattice, q: seq<Path>)
    requires g.Valid()
  {
    forall k | 0 <= k < |q| :: EntryFits(g, q[k])
  }

  ghost function Pending(g: Lattice, q: seq<Path>): multiset<real>
    requires g.Valid() && QueueFits(g, q)
  {
    if q == [] then multiset{} else Pending(g, q[..|q|-1]) + Completions(g, q[|q|-1])
  }

  lemma PendingSnoc(g: Lattice, q: seq<Path>, e: Path)
    requires g.Valid() && QueueFits(g, q) && EntryFits(g, e)
    ensures QueueFits(g, q + [e]) && Pending(g, q + [e]) == Pending(g, q) + Completions(g, e)
  {
    hide Lattice.Valid, Completions, EntryFits;
    assert (q + [e])[..|q|] == q;
  }

  function Without<T>(q: seq<T>, k: nat): seq<T>
    requires k < |q|
  {
    q[..k] + q[k+1..]
  }

  lemma {:induction false} PendingWithout(g: Lattice, q: seq<Path>, k: nat)
    requires g.Valid() && QueueFits(g, q) && k < |q|
    ensures QueueFits(g, Without(q, k))
    ensures Pending(g, q) == Pending(g, Without(q, k)) + Completions(g, q[k])
    decreases |q|
  {
    hide Lattice.Valid, Completions, EntryFits;
    var last := |q| - 1;
    if k < last {
      PendingWithout(g, q[..last], k);
      assert Without(q, k) == Without(q[..last], k) + [q[last]];
      PendingSnoc(g, Without(q[..last], k), q[last]);
    } else {
      assert Without(q, k) == q[..last];
    }
  }

  lemma CompletionsBound(g: Lattice, e: Path, t: real)
    requires g.Valid() && EntryFits(g, e) && t in Completions(g, e)
    ensures e.score <= t
  {
    hide Lattice.Valid, Best, Totals;
    var paths := g.AllPaths(e.node);
    forall k | 0 <= k < |paths| ensures g.IsPath(e.node, paths[k]) {
      AllPathsSound(g, e.node, paths[k]);
    }
    TotalsBound(g, e.score - Best(g, e.node), e.node, paths, t);
  }

  lemma {:induction false} PendingBound(g: Lattice, q: seq<Path>, low: real, t: real)
    requires g.Valid() && QueueFits(g, q) && t in Pending(g, q)
    requires forall k | 0 <= k < |q| :: low <= q[k].score
    ensures low <= t
    decreases |q|
  {
    hide Lattice.Valid, Completions, EntryFits;
    var last := |q| - 1;
    if t in Completions(g, q[last]) {
      CompletionsBound(g, q[last], t);
    } else {
      PendingBound(g, q[..last], low, t);
    }
  }

  /** A complete path stands for itself alone. */
  lemma FinalCompletion(g: Lattice, e: Path)
    requires g.Valid() && e.node == g.finalNode
    ensures EntryFits(g, e) && Completions(g, e) == multiset{e.score}
  {
    assert g.AllPaths(e.node) == [[]];
    assert Totals(g, e.score, [[]]) == multiset{Total(g, e.score, [])} + Totals(g, e.score, []);
  }

  // ---------- size of the search below an entry ----------

  ghost function Size(g: Lattice, n: nat): nat
    requires g.Valid() && n <= g.finalNode
    decreases g.finalNode - n, 1, 0
  {
    1 + if n == g.finalNode then 0 else ArcsSize(g, n, g.Past(n))
  }

  ghost function ArcsSize(g: Lattice, n: nat, hi: nat): nat
    requires g.Valid() && n < g.finalNode && g.First(n) <= hi <= g.Past(n)
    decreases g.finalNode - n, 0, hi
  {
    if hi == g.First(n) then 0
    else
      g.Onward(n, hi - 1);
      ArcsSize(g, n, hi - 1) + Size(g, g.End(hi - 1))
  }

  ghost function QueueSize(g: Lattice, q: seq<Path>): nat
    requires g.Valid() && QueueFits(g, q)
  {
    if q == [] then 0 else QueueSize(g, q[..|q|-1]) + Size(g, q[|q|-1].node)
  }

  lemma QueueSizeSnoc(g: Lattice, q: seq<Path>, e: Path)
    requires g.Valid() && QueueFits(g, q) && EntryFits(g, e)
    ensures QueueFits(g, q + [e]) && QueueSize(g, q + [e]) == QueueSize(g, q) + Size(g, e.node)
  {
    hide Lattice.Valid, Size;
    assert (q + [e])[..|q|] == q;
  }

  lemma {:induction false} QueueSizeWithout(g: Lattice, q: seq<Path>, k: nat)
    requires g.Valid() && QueueFits(g, q) && k < |q|
    ensures QueueFits(g, Without(q, k))
    ensures QueueSize(g, q) == QueueSize(g, Without(q, k)) + Size(g, q[k].node)
    decreases |q|
  {
    hide Lattice.Valid, Size;
    var last := |q| - 1;
    if k < last {
      QueueSizeWithout(g, q[..last], k);
      assert Without(q, k) == Without(q[..last], k) + [q[last]];
      QueueSizeSnoc(g, Without(q[..last], k), q[last]);
    } else {
      assert Without(q, k) == q[..last];
    }
  }

  // ---------- the search ----------

  /** Paths left to expand, given the totals already reported. */
  ghost predicate SearchInv(g: Lattice, all: multiset<real>, found: seq<real>, q: seq<Path>)
    requires g.Valid()
  {
    && QueueFits(g, q)
    && multiset(found) + Pending(g, q) == all
    && (forall i, j | 0 <= i < j < |found| :: found[i] <= found[j])
    && forall i, k | 0 <= i < |found| && 0 <= k < |q| :: found[i] <= q[k].score
  }

  ghost predicate IsTop(q: seq<Path>, k: nat) {
    k < |q| && forall j | 0 <= j < |q| :: q[k].score <= q[j].score
  }

  lemma {:induction false} HasTop(q: seq<Path>)
    requires q != []
    ensures exists k: nat :: k < |q| && IsTop(q, k)
  {
    if |q| == 1 {
      assert IsTop(q, 0);
    } else {
      HasTop(q[..|q|-1]);
      var k: nat :| k < |q| - 1 && IsTop(q[..|q|-1], k);
      assert IsTop(q, if q[|q|-1].score < q[k].score then |q| - 1 else k);
    }
  }

  /** Pops an entry of least score; ties are broken arbitrarily. */
  method PopTop(q: seq<Path>) returns (path: Path, rest: seq<Path>, ghost k: nat)
    requires q != []
    ensures IsTop(q, k) && path == q[k] && rest == Without(q, k)
  {
    HasTop(q);
    var at: nat :| at < |q| && forall j | 0 <= j < |q| :: q[at].score <= q[j].score;
    path, rest, k := q[at], Without(q, at), at;
  }

  /** The first children of node, as the search pushes them. */
  lemma ChildFacts(g: Lattice, base: real, n: nat, i: nat)
    requires g.Valid() && n < g.finalNode && g.First(n) <= i < g.Past(n)
    ensures i < |g.ends| == |g.weights| && g.ends[i] <= g.finalNode
    ensures base + Best(g, n) <= base + g.weights[i] + Best(g, g.ends[i])
    ensures var child := Path(base + g.weights[i] + Best(g, g.ends[i]), g.ends[i]);
            && EntryFits(g, child)
            && Totals(g, base, g.ArcPaths(n, i + 1)) == Totals(g, base, g.ArcPaths(n, i)) + Completions(g, child)
            && ArcsSize(g, n, i + 1) == ArcsSize(g, n, i) + Size(g, child.node)
  {
    hide BestFrom, Totals, Lattice.Valid;
    g.Onward(n, i);
    g.ArcFacts(i);
    BestFromBound(g, n, g.First(n), i);
    var tails := g.AllPaths(g.End(i));
    forall k | 0 <= k < |tails| ensures g.IsPath(g.End(i), tails[k]) {
      AllPathsSound(g, g.End(i), tails[k]);
    }
    TotalsAppend(g, base, g.ArcPaths(n, i), Prepend(i, tails));
    TotalsPrepend(g, base, n, i, tails);
  }

  /** Pushes one entry per arc of node, scored with the table. */
  method PushArcs(g: Lattice, bestArcs: array<ArcScore>, node: nat, baseScore: real, q: seq<Path>)
    returns (q': seq<Path>)
    requires g.Valid() && node < g.finalNode && TableOk(g, bestArcs[..]) && QueueFits(g, q)
    ensures QueueFits(g, q')
    ensures Pending(g, q') == Pending(g, q) + Totals(g, baseScore, g.AllPaths(node))
    ensures QueueSize(g, q') == QueueSize(g, q) + Size(g, node) - 1
    ensures |q'| >= |q| && q'[..|q|] == q
    ensures forall k | |q| <= k < |q'| :: baseScore + Best(g, node) <= q'[k].score
  {
    hide Best, Completions, Lattice.Valid, Pending, QueueSize, Totals, EntryOk, QueueFits;
    g.NodeFacts(node);
    TotalsNone(g, baseScore);
    q' := q;
    for i := g.nodeArcs[node] to g.nodeArcs[node + 1]
      invariant |q| <= |q'| && q'[..|q|] == q && QueueFits(g, q')
      invariant Pending(g, q') == Pending(g, q) + Totals(g, baseScore, g.ArcPaths(node, i))
      invariant QueueSize(g, q') == QueueSize(g, q) + ArcsSize(g, node, i)
      invariant forall k | |q| <= k < |q'| :: baseScore + Best(g, node) <= q'[k].score
    {
      ChildFacts(g, baseScore, node, i);
      assert EntryOk(g, g.ends[i], bestArcs[..][g.ends[i]]);
      EntryScore(g, g.ends[i], bestArcs[g.ends[i]]);
      var score := baseScore + g.weights[i] + bestArcs[g.ends[i]].score;
      PendingSnoc(g, q', Path(score, g.ends[i]));
      QueueSizeSnoc(g, q', Path(score, g.ends[i]));
      SumAssoc(Pending(g, q), Totals(g, baseScore, g.ArcPaths(node, i)), Completions(g, Path(score, g.ends[i])));
      q' := q' + [Path(score, g.ends[i])];
    }
  }

  lemma SearchStart(g: Lattice)
    requires g.Valid()
    ensures g.finalNode > 0 && QueueFits(g, []) && Pending(g, []) == multiset{} && QueueSize(g, []) == 0
    ensures 0.0 + Best(g, 0) == Best(g, 0) && |Totals(g, 0.0, g.AllPaths(0))| == |g.AllPaths(0)|
  {
    TotalsSize(g, 0.0, g.AllPaths(0));
  }

  /** Reporting a complete path keeps the invariant. */
  lemma ReportStep(g: Lattice, all: multiset<real>, found: seq<real>, q: seq<Path>, k: nat)
    requires g.Valid() && SearchInv(g, all, found, q) && IsTop(q, k) && q[k].node == g.finalNode
    ensures SearchInv(g, all, found + [q[k].score], Without(q, k))
    ensures QueueSize(g, Without(q, k)) < QueueSize(g, q)
  {
    hide Lattice.Valid, Pending, QueueSize, Completions, Without, EntryFits;
    var rest := q[..k] + q[k+1..];
    assert rest == Without(q, k) by { UnfoldWithout(q, k); }
    PendingWithout(g, q, k);
    QueueSizeWithout(g, q, k);
    FinalCompletion(g, q[k]);
    assert multiset(found + [q[k].score]) == multiset(found) + multiset{q[k].score};
    SumAssoc(multiset(found), multiset{q[k].score}, Pending(g, rest));
  }

  lemma UnfoldWithout(q: seq<Path>, k: nat)
    requires k < |q|
    ensures Without(q, k) == q[..k] + q[k+1..]
  {
  }

  /** So does replacing a partial path by its extensions, none of which scores less. */
  lemma ExpandStep(g: Lattice, all: multiset<real>, found: seq<real>, q: seq<Path>, k: nat, q': seq<Path>)
    requires g.Valid() && SearchInv(g, all, found, q) && IsTop(q, k) && EntryFits(g, q[k])
    requires var rest := Without(q, k);
             && QueueFits(g, rest) && QueueFits(g, q')
             && Pending(g, q') == Pending(g, rest) + Completions(g, q[k])
             && QueueSize(g, q') == QueueSize(g, rest) + Size(g, q[k].node) - 1
             && |q'| >= |rest| && q'[..|rest|] == rest
             && forall j | |rest| <= j < |q'| :: q[k].score <= q'[j].score
    ensures SearchInv(g, all, found, q')
    ensures QueueSize(g, q') < QueueSize(g, q)
  {
    hide Lattice.Valid, Pending, QueueSize, Completions, Without, EntryFits, Size;
    var rest := q[..k] + q[k+1..];
    assert rest == Without(q, k) by { UnfoldWithout(q, k); }
    PendingWithout(g, q, k);
    QueueSizeWithout(g, q, k);
    forall i, j | 0 <= i < |found| && 0 <= j < |q'| ensures found[i] <= q'[j].score {
      assert found[i] <= q[k].score;
      if j < |rest| {
        assert q'[j] == rest[j];
      }
    }
  }

  /** found lists, in order, the least n of all totals (or all of them if there are fewer). */
  ghost predicate LeastOf(found: seq<real>, all: multiset<real>, n: nat) {
    && multiset(found) <= all
    && |found| == (if n < |all| then n else |all|)
    && (forall i, j | 0 <= i < j < |found| :: found[i] <= found[j])
    && forall i, t | 0 <= i < |found| && t in all - multiset(found) :: found[i] <= t
  }

  lemma SearchDone(g: Lattice, all: multiset<real>, found: seq<real>, q: seq<Path>, n: nat)
    requires g.Valid() && SearchInv(g, all, found, q)
    requires |found| == n || (|found| < n && q == [])
    ensures LeastOf(found, all, n)
  {
    hide Lattice.Valid, EntryFits, Completions;
    assert |multiset(found)| == |found|;
    assert all - multiset(found) == Pending(g, q);
    assert |all| == |found| + |Pending(g, q)|;
    forall i, t | 0 <= i < |found| && t in all - multiset(found) ensures found[i] <= t {
      PendingBound(g, q, found[i], t);
    }
  }

  /** Reports, in order, the n least totals over all complete paths of the lattice. */
  method FindNBestPaths(g: Lattice, bestArcs: array<ArcScore>, n: nat) returns (nbestScores: seq<real>)
    requires g.Valid() && TableOk(g, bestArcs[..]) && n >= 1
    ensures LeastOf(nbestScores, Totals(g, 0.0, g.AllPaths(0)), n)
    ensures |Totals(g, 0.0, g.AllPaths(0))| == |g.AllPaths(0)|
  {
    hide Lattice.Valid, Pending, QueueSize, Best, LeastOf, IsTop, Totals, EntryOk, Without, Size;
    nbestScores := [];
    ghost var all := Totals(g, 0.0, g.AllPaths(0));
    SearchStart(g);
    var paths := PushArcs(g, bestArcs, 0, 0.0, []);
    while paths != []
      invariant SearchInv(g, all, nbestScores, paths) && |nbestScores| < n
      decreases QueueSize(g, paths)
    {
      var path, rest, k := PopTop(paths);
      TopInRange(paths, k);
      PendingWithout(g, paths, k);
      var node := path.node;
      if node == g.finalNode {
        ReportStep(g, all, nbestScores, paths, k);
        nbestScores := nbestScores + [path.score];
        if |nbestScores| == n {
          SearchDone(g, all, nbestScores, rest, n);
          return;
        }
        paths := rest;
      } else {
        assert EntryOk(g, node, bestArcs[..][node]);
        EntryScore(g, node, bestArcs[node]);
        var baseScore := path.score - bestArcs[node].score;
        ghost var before := paths;
        paths := PushArcs(g, bestArcs, node, baseScore, rest);
        ExpandStep(g, all, nbestScores, before, k, paths);
      }
    }
    SearchDone(g, all, nbestScores, paths, n);
  }

  lemma TopInRange(q: seq<Path>, k: nat)
    requires IsTop(q, k)
    ensures k < |q|
  {
  }
}
