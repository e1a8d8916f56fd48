/** Arc sequences from node 0 to a node, and the complete paths they are part of. */
module Ways {

  import opened Lattices

  /** p is a sequence of arcs leading from node 0 to node n. */
  ghost predicate IsWay(g: Lattice, n: nat, p: seq<nat>)
    requires g.Valid()
    decreases |p|
  {
    if p == [] then n == 0
    else
      var i := p[|p|-1];
      i < |g.starts| && g.End(i) == n && IsWay(g, g.starts[i], p[..|p|-1])
  }

  /** Every such sequence, by its last arc. */
  ghost function WaysTo(g: Lattice, n: nat): seq<seq<nat>>
    requires g.Valid() && n <= g.finalNode
    decreases n, 1, 0
  {
    if n == 0 then [[]] else WaysBy(g, n, |g.starts|)
  }

  /** The ones whose last arc is below hi. */
  ghost function WaysBy(g: Lattice, n: nat, hi: nat): seq<seq<nat>>
    requires g.Valid() && n <= g.finalNode && hi <= |g.starts|
    decreases n, 0, hi
  {
    if hi == 0 then []
    else
      g.ArcFacts(hi - 1);
      WaysBy(g, n, hi - 1) +
      if g.End(hi - 1) == n then Append(WaysTo(g, g.starts[hi-1]), hi - 1) else []
  }

  function Append(paths: seq<seq<nat>>, i: nat): (r: seq<seq<nat>>)
    ensures |r| == |paths| && forall k | 0 <= k < |paths| :: r[k] == paths[k] + [i]
  {
    if paths == [] then [] else [paths[0] + [i]] + Append(paths[1..], i)
  }

  lemma Appended(paths: seq<seq<nat>>, i: nat, p: seq<nat>)
    ensures p in Append(paths, i) <==> p != [] && p[|p|-1] == i && p[..|p|-1] in paths
  {
    if p in Append(paths, i) {
      var k :| 0 <= k < |paths| && Append(paths, i)[k] == p;
      assert p[..|p|-1] == paths[k];
    }
    if p != [] && p[|p|-1] == i && p[..|p|-1] in paths {
      var k :| 0 <= k < |paths| && paths[k] == p[..|p|-1];
      assert Append(paths, i)[k] == p;
    }
  }

  // ---------- WaysTo lists exactly the ways, each once ----------

  lemma WayStep(g: Lattice, i: nat)
    requires g.Valid() && i < |g.starts|
    ensures g.starts[i] < g.End(i) <= g.finalNode
    ensures g.First(g.starts[i]) <= i < g.Past(g.starts[i])
  {
    g.ArcFacts(i);
    g.NodeFacts(g.starts[i]);
  }

  lemma {:induction false} WaysSound(g: Lattice, n: nat, p: seq<nat>)
    requires g.Valid() && n <= g.finalNode
    ensures p in WaysTo(g, n) ==> IsWay(g, n, p)
    decreases n, 1, 0
  {
    if n > 0 {
      WaysBySound(g, n, |g.starts|, p);
    }
  }

  lemma {:induction false} WaysBySound(g: Lattice, n: nat, hi: nat, p: seq<nat>)
    requires g.Valid() && n <= g.finalNode && hi <= |g.starts|
    ensures p in WaysBy(g, n, hi) ==> IsWay(g, n, p) && p != [] && p[|p|-1] < hi
    decreases n, 0, hi
  {
    hide Lattice.Valid, Append;
    if hi > 0 {
      WayStep(g, hi - 1);
      WaysBySound(g, n, hi - 1, p);
      if g.End(hi - 1) == n {
        var heads := WaysTo(g, g.starts[hi-1]);
        if p in Append(heads, hi - 1) {
          Appended(heads, hi - 1, p);
          WaysSound(g, g.starts[hi-1], p[..|p|-1]);
        }
      }
    }
  }

  lemma {:induction false} WaysComplete(g: Lattice, n: nat, p: seq<nat>)
    requires g.Valid() && n <= g.finalNode && IsWay(g, n, p)
    ensures p in WaysTo(g, n)
    decreases n, 1, 0
  {
    if p != [] {
      WayStep(g, p[|p|-1]);
      WaysByComplete(g, n, |g.starts|, p);
    }
  }

  lemma {:induction false} WaysByComplete(g: Lattice, n: nat, hi: nat, p: seq<nat>)
    requires g.Valid() && n <= g.finalNode && IsWay(g, n, p) && p != [] && p[|p|-1] < hi <= |g.starts|
    ensures p in WaysBy(g, n, hi)
    decreases n, 0, hi
  {
    hide Lattice.Valid, Append;
    if p[|p|-1] < hi - 1 {
      WaysByComplete(g, n, hi - 1, p);
    } else {
      WayStep(g, hi - 1);
      var heads := WaysTo(g, g.starts[hi-1]);
      WaysComplete(g, g.starts[hi-1], p[..|p|-1]);
      Appended(heads, hi - 1, p);
    }
  }

  lemma {:induction false} WaysDistinct(g: Lattice, n: nat)
    requires g.Valid() && n <= g.finalNode
    ensures NoRepeat(WaysTo(g, n))
    decreases n, 1, 0
  {
    if n > 0 {
      WaysByDistinct(g, n, |g.starts|);
    }
  }

  lemma {:induction false} WaysByDistinct(g: Lattice, n: nat, hi: nat)
    requires g.Valid() && n <= g.finalNode && hi <= |g.starts|
    ensures NoRepeat(WaysBy(g, n, hi))
    decreases n, 0, hi
  {
    hide Lattice.Valid;
    if hi > 0 {
      WayStep(g, hi - 1);
      WaysByDistinct(g, n, hi - 1);
      if g.End(hi - 1) == n {
        WaysDistinct(g, g.starts[hi-1]);
        var before, heads := WaysBy(g, n, hi - 1), WaysTo(g, g.starts[hi-1]);
        var after := Append(heads, hi - 1);
        forall i | 0 <= i < |before| ensures before[i] != [] && before[i][|before[i]|-1] < hi - 1 {
          WaysBySound(g, n, hi - 1, before[i]);
        }
        forall i, j | 0 <= i < j < |after| ensures after[i] != after[j] {
          assert after[i][..|after[i]|-1] == heads[i] && after[j][..|after[j]|-1] == heads[j];
        }
        DistinctLast(before, after, hi - 1);
      }
    }
  }

  lemma DistinctLast(before: seq<seq<nat>>, after: seq<seq<nat>>, arc: nat)
    requires NoRepeat(before) && NoRepeat(after)
    requires forall i | 0 <= i < |before| :: before[i] != [] && before[i][|before[i]|-1] < arc
    requires forall i | 0 <= i < |after| :: after[i] != [] && after[i][|after[i]|-1] == arc
    ensures NoRepeat(before + after)
  {
  }

  /** p occurs once in the listing if it is a way to n, and not at all otherwise. */
  lemma WaysExact(g: Lattice, n: nat, p: seq<nat>)
    requires g.Valid() && n <= g.finalNode
    ensures multiset(WaysTo(g, n))[p] == if IsWay(g, n, p) then 1 else 0
  {
    WaysSound(g, n, p);
    WaysDistinct(g, n);
    var ways := WaysTo(g, n);
    if IsWay(g, n, p) {
      WaysComplete(g, n, p);
      OnceOnly(ways, p);
    } else {
      assert p !in ways;
    }
  }

  // ---------- the paths through an arc ----------

  /** A way to n and a path from n make a complete path. */
  lemma {:induction false} JoinIsPath(g: Lattice, n: nat, a: seq<nat>, b: seq<nat>)
    requires g.Valid() && IsWay(g, n, a) && g.IsPath(n, b)
    ensures g.IsPath(0, a + b)
    decreases |a|
  {
    hide Lattice.Valid;
    if a == [] {
      assert a + b == b;
    } else {
      var i := a[|a|-1];
      WayStep(g, i);
      assert ([i] + b)[1..] == b;
      JoinIsPath(g, g.starts[i], a[..|a|-1], [i] + b);
      assert a[..|a|-1] + ([i] + b) == a + b;
    }
  }

  /** A complete path splits anywhere into a way to some node and a path from there. */
  lemma {:induction false} PathSplits(g: Lattice, p: seq<nat>, k: nat) returns (n: nat)
    requires g.Valid() && g.IsPath(0, p) && k <= |p|
    ensures IsWay(g, n, p[..k]) && g.IsPath(n, p[k..])
  {
    hide Lattice.Valid;
    if k == 0 {
      n := 0;
      assert p[0..] == p;
    } else {
      var before := PathSplits(g, p, k - 1);
      var i := p[k-1];
      assert p[k-1..][0] == i && p[k-1..][1..] == p[k..];
      assert p[..k][..k-1] == p[..k-1] && p[..k][k-1] == i;
      OwnStart(g, before, i);
      n := g.End(i);
    }
  }

  lemma OwnStart(g: Lattice, n: nat, i: nat)
    requires g.Valid() && n < g.finalNode && g.First(n) <= i < g.Past(n)
    ensures i < |g.starts| && g.starts[i] == n
  {
    g.NodeFacts(n);
  }

  /** A path uses arc i exactly if it is a way to the arc's start, the arc, and a path from its end. */
  lemma UsesArc(g: Lattice, i: nat, a: seq<nat>, b: seq<nat>)
    requires g.Valid() && i < |g.starts|
    requires IsWay(g, g.starts[i], a) && g.IsPath(g.End(i), b)
    ensures g.IsPath(0, a + [i] + b)
  {
    hide Lattice.Valid;
    WayStep(g, i);
    assert ([i] + b)[1..] == b;
    JoinIsPath(g, g.starts[i], a, [i] + b);
    assert a + ([i] + b) == a + [i] + b;
  }

  lemma SplitAtArc(g: Lattice, i: nat, p: seq<nat>) returns (a: seq<nat>, b: seq<nat>)
    requires g.Valid() && g.IsPath(0, p) && i in p
    ensures i < |g.starts| && p == a + [i] + b
    ensures IsWay(g, g.starts[i], a) && g.IsPath(g.End(i), b)
  {
    hide Lattice.Valid;
    var k :| 0 <= k < |p| && p[k] == i;
    var n := PathSplits(g, p, k);
    a, b := p[..k], p[k+1..];
    assert p[k..][0] == i && p[k..][1..] == b;
    OwnStart(g, n, i);
  }

  /** Every arc of a way to n starts before n. */
  lemma {:induction false} ArcsBefore(g: Lattice, n: nat, a: seq<nat>, i: nat)
    requires g.Valid() && IsWay(g, n, a) && i in a
    ensures i < |g.starts| && g.starts[i] < n
    decreases |a|
  {
    hide Lattice.Valid;
    var last := a[|a|-1];
    WayStep(g, last);
    if i != last {
      assert i in a[..|a|-1];
      ArcsBefore(g, g.starts[last], a[..|a|-1], i);
    }
  }

  /** Each tail behind p. */
  function Glue(p: seq<nat>, tails: seq<seq<nat>>): (r: seq<seq<nat>>)
    ensures |r| == |tails| && forall k | 0 <= k < |tails| :: r[k] == p + tails[k]
  {
    if tails == [] then [] else [p + tails[0]] + Glue(p, tails[1..])
  }

  /** Each head, then arc i, then each tail. */
  function Joins(heads: seq<seq<nat>>, i: nat, tails: seq<seq<nat>>): seq<seq<nat>> {
    if heads == [] then [] else Glue(heads[0] + [i], tails) + Joins(heads[1..], i, tails)
  }

  lemma {:induction false} JoinListed(heads: seq<seq<nat>>, i: nat, tails: seq<seq<nat>>, a: seq<nat>, b: seq<nat>)
    requires a in heads && b in tails
    ensures a + [i] + b in Joins(heads, i, tails)
  {
    if a == heads[0] {
      var k :| 0 <= k < |tails| && tails[k] == b;
      assert Glue(a + [i], tails)[k] == a + [i] + b;
    } else {
      assert a in heads[1..];
      JoinListed(heads[1..], i, tails, a, b);
    }
  }

  lemma {:induction false} ListedJoin(heads: seq<seq<nat>>, i: nat, tails: seq<seq<nat>>, p: seq<nat>)
    returns (a: seq<nat>, b: seq<nat>)
    requires p in Joins(heads, i, tails)
    ensures a in heads && b in tails && p == a + [i] + b
  {
    if p in Glue(heads[0] + [i], tails) {
      var k :| 0 <= k < |tails| && p == heads[0] + [i] + tails[k];
      a, b := heads[0], tails[k];
    } else {
      a, b := ListedJoin(heads[1..], i, tails, p);
    }
  }

  /** Where arc i is not in the heads, different heads make different paths. */
  lemma JoinsDiffer(i: nat, a: seq<nat>, b: seq<nat>, a': seq<nat>, b': seq<nat>)
    requires i !in a && i !in a' && a != a'
    ensures a + [i] + b != a' + [i] + b'
  {
    var p, q := a + [i] + b, a' + [i] + b';
    assert p[|a|] == i && q[|a'|] == i;
    assert |a| < |a'| ==> q[|a|] == a'[|a|];
    assert |a'| < |a| ==> p[|a'|] == a[|a'|];
    assert a == p[..|a|] && a' == q[..|a'|];
  }

  lemma {:induction false} JoinsDistinct(heads: seq<seq<nat>>, i: nat, tails: seq<seq<nat>>)
    requires NoRepeat(heads) && NoRepeat(tails)
    requires forall k | 0 <= k < |heads| :: i !in heads[k]
    ensures NoRepeat(Joins(heads, i, tails))
  {
    if heads != [] {
      JoinsDistinct(heads[1..], i, tails);
      var first, rest := Glue(heads[0] + [i], tails), Joins(heads[1..], i, tails);
      forall x, y | 0 <= x < y < |first| ensures first[x] != first[y] {
        assert first[x][|heads[0]|+1..] == tails[x] && first[y][|heads[0]|+1..] == tails[y];
      }
      forall x, y | 0 <= x < |first| && 0 <= y < |rest| ensures first[x] != rest[y] {
        var a, b := ListedJoin(heads[1..], i, tails, rest[y]);
        assert heads[0] !in heads[1..];
        JoinsDiffer(i, heads[0], tails[x], a, b);
      }
    }
  }

  /** The listed paths that use arc i. */
  function Using(paths: seq<seq<nat>>, i: nat): seq<seq<nat>> {
    if paths == [] then [] else (if i in paths[0] then [paths[0]] else []) + Using(paths[1..], i)
  }

  lemma {:induction false} UsingExact(paths: seq<seq<nat>>, i: nat, p: seq<nat>)
    ensures p in Using(paths, i) <==> p in paths && i in p
  {
    if paths != [] {
      UsingExact(paths[1..], i, p);
    }
  }

  lemma {:induction false} UsingDistinct(paths: seq<seq<nat>>, i: nat)
    requires NoRepeat(paths)
    ensures NoRepeat(Using(paths, i))
  {
    if paths != [] {
      UsingDistinct(paths[1..], i);
      UsingExact(paths[1..], i, paths[0]);
      assert paths[0] !in paths[1..];
    }
  }

  /** Two listings of the same paths, each once. */
  ghost predicate SameListed(xs: seq<seq<nat>>, ys: seq<seq<nat>>) {
    NoRepeat(xs) && NoRepeat(ys) && forall p: seq<nat> :: p in xs <==> p in ys
  }

  /** The complete paths through arc i are the ways to its start joined to the paths from its end. */
  lemma PathsThrough(g: Lattice, i: nat)
    requires g.Valid() && i < |g.starts|
    ensures g.starts[i] <= g.finalNode
    ensures SameListed(Using(g.AllPaths(0), i), Joins(WaysTo(g, g.starts[i]), i, g.AllPaths(g.End(i))))
  {
    hide Lattice.Valid, Lattice.IsPath, IsWay, Using, Joins, Lattice.AllPaths, WaysTo;
    WayStep(g, i);
    var all, heads, tails := g.AllPaths(0), WaysTo(g, g.starts[i]), g.AllPaths(g.End(i));
    forall p: seq<nat> ensures p in Using(all, i) <==> p in Joins(heads, i, tails) {
      UsingExact(all, i, p);
      if p in Using(all, i) {
        AllPathsSound(g, 0, p);
        var a, b := SplitAtArc(g, i, p);
        WaysComplete(g, g.starts[i], a);
        AllPathsComplete(g, g.End(i), b);
        JoinListed(heads, i, tails, a, b);
      }
      if p in Joins(heads, i, tails) {
        var a, b := ListedJoin(heads, i, tails, p);
        WaysSound(g, g.starts[i], a);
        AllPathsSound(g, g.End(i), b);
        UsesArc(g, i, a, b);
        AllPathsComplete(g, 0, p);
        assert p[|a|] == i;
      }
    }
    AllPathsDistinct(g, 0);
    UsingDistinct(all, i);
    WaysDistinct(g, g.starts[i]);
    AllPathsDistinct(g, g.End(i));
    forall k | 0 <= k < |heads| ensures i !in heads[k] {
      WaysSound(g, g.starts[i], heads[k]);
      if i in heads[k] {
        ArcsBefore(g, g.starts[i], heads[k], i);
      }
    }
    JoinsDistinct(heads, i, tails);
  }
}
