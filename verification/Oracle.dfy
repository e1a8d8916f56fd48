/** The least error count of a lattice. */
module Oracle {
  import opened Lattices
  import opened Alignments

  /** A lattice node and the number of reference words consumed. */
  type State = (nat, nat)

  /** What the search may do in a state: consume an arc and a reference word, skip a reference word,
      or consume an arc alone. */
  datatype Step = Substitute(arc: nat) | Skip | Consume(arc: nat)

  /** A queued search path; arc -1 is the one before the first. */
  datatype OraclePath = OraclePath(wer: nat, score: real, arcIndex: int, prevRefIndex: nat, refIndex: nat)

  datatype Task = Task(g: Lattice, ref: seq<nat>) {

    ghost predicate Fits(s: State) {
      s.0 <= g.finalNode && s.1 <= |ref|
    }

    ghost predicate Enabled(s: State, step: Step)
      requires g.Valid() && Fits(s)
    {
      match step
      case Substitute(i) => s.1 < |ref| && s.0 < g.finalNode && g.First(s.0) <= i < g.Past(s.0)
      case Skip => s.1 < |ref|
      case Consume(i) => s.0 < g.finalNode && g.First(s.0) <= i < g.Past(s.0)
    }

    ghost function Target(s: State, step: Step): (t: State)
      requires g.Valid() && Fits(s) && Enabled(s, step)
      ensures Fits(t) && Left(t) < Left(s)
    {
      match step
      case Substitute(i) => g.Onward(s.0, i); (g.End(i), s.1 + 1)
      case Skip => (s.0, s.1 + 1)
      case Consume(i) => g.Onward(s.0, i); (g.End(i), s.1)
    }

    /** Errors of a step; consuming an epsilon arc (word 0) alone is free. */
    ghost function StepCost(s: State, step: Step): nat
      requires g.Valid() && Fits(s) && Enabled(s, step)
    {
      match step
      case Substitute(i) => g.ArcFacts(i); EditCost(Match(g.words[i], ref[s.1]), {0})
      case Skip => 1
      case Consume(i) => g.ArcFacts(i); EditCost(Insert(g.words[i]), {0})
    }

    ghost function Left(s: State): nat
      requires Fits(s)
    {
      (g.finalNode - s.0) + (|ref| - s.1)
    }

    ghost predicate IsGoal(s: State) {
      s == (g.finalNode, |ref|)
    }

    /** Least number of errors from a state to the goal. */
    ghost function ToGo(s: State): nat
      requires g.Valid() && Fits(s)
      decreases Left(s), 1, 0
    {
      if s.0 == g.finalNode then |ref| - s.1
      else if s.1 < |ref| then Min(ArcsToGo(s, g.First(s.0)), 1 + ToGo((s.0, s.1 + 1)))
      else ArcsToGo(s, g.First(s.0))
    }

    /** The same over the steps that consume an arc from lo on. */
    ghost function ArcsToGo(s: State, lo: nat): nat
      requires g.Valid() && Fits(s) && s.0 < g.finalNode && g.First(s.0) <= lo < g.Past(s.0)
      decreases Left(s), 0, g.Past(s.0) - lo
    {
      var here := ArcToGo(s, lo);
      if lo + 1 == g.Past(s.0) then here else Min(ArcsToGo(s, lo + 1), here)
    }

    ghost function ArcToGo(s: State, i: nat): nat
      requires g.Valid() && Fits(s) && s.0 < g.finalNode && g.First(s.0) <= i < g.Past(s.0)
      decreases Left(s), 0, 0
    {
      g.Onward(s.0, i);
      var alone := StepCost(s, Consume(i)) + ToGo((g.End(i), s.1));
      if s.1 < |ref| then Min(StepCost(s, Substitute(i)) + ToGo((g.End(i), s.1 + 1)), alone) else alone
    }

    lemma {:induction false} ArcsToGoBound(s: State, lo: nat, i: nat)
      requires g.Valid() && Fits(s) && s.0 < g.finalNode && g.First(s.0) <= lo <= i < g.Past(s.0)
      ensures ArcsToGo(s, lo) <= ArcToGo(s, i)
      decreases i - lo
    {
      hide Lattice.Valid, ArcToGo;
      if lo < i {
        ArcsToGoBound(s, lo + 1, i);
      }
    }

    lemma {:induction false} ArcsToGoMet(s: State, lo: nat) returns (i: nat)
      requires g.Valid() && Fits(s) && s.0 < g.finalNode && g.First(s.0) <= lo < g.Past(s.0)
      ensures lo <= i < g.Past(s.0) && ArcsToGo(s, lo) == ArcToGo(s, i)
      decreases g.Past(s.0) - lo
    {
      hide Lattice.Valid, ArcToGo;
      i := lo;
      if lo + 1 < g.Past(s.0) {
        var j := ArcsToGoMet(s, lo + 1);
        if ArcsToGo(s, lo) == ArcsToGo(s, lo + 1) {
          i := j;
        }
      }
    }

    /** No step does better than the least. */
    lemma ToGoBound(s: State, step: Step)
      requires g.Valid() && Fits(s) && Enabled(s, step)
      ensures ToGo(s) <= StepCost(s, step) + ToGo(Target(s, step))
    {
      hide Lattice.Valid, ArcsToGo;
      match step {
        case Skip =>
        case Substitute(i) => ArcsToGoBound(s, g.First(s.0), i);
        case Consume(i) => ArcsToGoBound(s, g.First(s.0), i);
      }
    }

    /** Short of the goal some step attains it. */
    lemma ToGoMet(s: State) returns (step: Step)
      requires g.Valid() && Fits(s) && !IsGoal(s)
      ensures Enabled(s, step) && ToGo(s) == StepCost(s, step) + ToGo(Target(s, step))
    {
      hide Lattice.Valid, ArcsToGo;
      if s.0 == g.finalNode || (s.1 < |ref| && ToGo(s) == 1 + ToGo((s.0, s.1 + 1))) {
        step := Skip;
      } else {
        var i := ArcsToGoMet(s, g.First(s.0));
        if s.1 < |ref| && ArcToGo(s, i) == StepCost(s, Substitute(i)) + ToGo((g.End(i), s.1 + 1)) {
          step := Substitute(i);
        } else {
          step := Consume(i);
        }
      }
    }
  }

  // ---------- the least number of steps is the least number of errors ----------

  ghost function Words(g: Lattice, p: seq<nat>): seq<nat>
    requires g.Valid() && g.Arcs(p)
  {
    if p == [] then [] else
      assert forall k | 0 <= k < |p[1..]| :: p[1..][k] == p[k+1];
      [g.words[p[0]]] + Words(g, p[1..])
  }

  /** a aligns the words of the path p from a state with the reference words left there. */
  ghost predicate Explains(t: Task, s: State, p: seq<nat>, a: seq<Edit>)
    requires t.g.Valid()
  {
    t.Fits(s) && t.g.IsPath(s.0, p) && t.g.Arcs(p) && Aligns(a, Words(t.g, p), t.ref[s.1..])
  }

  lemma {:induction false} ToGoIsLeast(t: Task, s: State, p: seq<nat>, a: seq<Edit>)
    requires t.g.Valid() && Explains(t, s, p, a)
    ensures t.ToGo(s) <= Cost(a, {0})
    decreases |a|
  {
    hide Lattice.Valid, Task.ToGo;
    if a == [] {
      assert |t.ref[s.1..]| == 0;
      AtGoal(t, s, p);
    } else {
      var step, p' := FirstStep(t, s, p, a);
      t.ToGoBound(s, step);
      ToGoIsLeast(t, t.Target(s, step), p', a[1..]);
    }
  }

  lemma AtGoal(t: Task, s: State, p: seq<nat>)
    requires t.g.Valid() && t.Fits(s) && s.1 == |t.ref| && t.g.IsPath(s.0, p) && t.g.Arcs(p) && Words(t.g, p) == []
    ensures t.IsGoal(s) && t.ToGo(s) == 0
  {
  }

  /** The first column of an alignment is a step of the search, at the same cost. */
  lemma FirstStep(t: Task, s: State, p: seq<nat>, a: seq<Edit>) returns (step: Step, p': seq<nat>)
    requires t.g.Valid() && Explains(t, s, p, a) && a != []
    ensures t.Enabled(s, step) && EditCost(a[0], {0}) == t.StepCost(s, step)
    ensures Explains(t, t.Target(s, step), p', a[1..])
  {
    hide Lattice.Valid, Task.ToGo;
    var words, rest := Words(t.g, p), t.ref[s.1..];
    match a[0] {
      case Delete(r) =>
        step, p' := Skip, p;
        assert rest == [r] + RefOf(a[1..]);
        assert t.ref[s.1+1..] == rest[1..];
      case Match(h, r) =>
        step, p' := Substitute(p[0]), p[1..];
        t.g.PathArcs(t.g.End(p[0]), p');
        assert words == [h] + HypOf(a[1..]) && rest == [r] + RefOf(a[1..]);
        assert words[1..] == Words(t.g, p');
        assert t.ref[s.1+1..] == rest[1..];
      case Insert(h) =>
        step, p' := Consume(p[0]), p[1..];
        t.g.PathArcs(t.g.End(p[0]), p');
        assert words == [h] + HypOf(a[1..]);
        assert words[1..] == Words(t.g, p');
    }
  }

  lemma {:induction false} ToGoIsMet(t: Task, s: State) returns (p: seq<nat>, a: seq<Edit>)
    requires t.g.Valid() && t.Fits(s)
    ensures Explains(t, s, p, a) && Cost(a, {0}) == t.ToGo(s)
    decreases t.Left(s)
  {
    hide Lattice.Valid;
    if t.IsGoal(s) {
      p, a := [], [];
    } else {
      hide Task.ToGo;
      var step := t.ToGoMet(s);
      var p', a' := ToGoIsMet(t, t.Target(s, step));
      p, a := AddStep(t, s, step, p', a');
    }
  }

  lemma AddStep(t: Task, s: State, step: Step, p': seq<nat>, a': seq<Edit>) returns (p: seq<nat>, a: seq<Edit>)
    requires t.g.Valid() && t.Fits(s) && t.Enabled(s, step) && Explains(t, t.Target(s, step), p', a')
    ensures Explains(t, s, p, a) && Cost(a, {0}) == t.StepCost(s, step) + Cost(a', {0})
  {
    hide Lattice.Valid, Task.ToGo, Words, HypOf, RefOf, Cost, Lattice.IsPath, Lattice.Arcs;
    match step {
      case Skip =>
        p, a := p', [Delete(t.ref[s.1])] + a';
        Cons(Delete(t.ref[s.1]), a');
        assert t.ref[s.1..] == [t.ref[s.1]] + t.ref[s.1+1..];
      case Substitute(i) =>
        t.g.ArcFacts(i);
        PathCons(t.g, s.0, i, p');
        p, a := [i] + p', [Match(t.g.words[i], t.ref[s.1])] + a';
        Cons(Match(t.g.words[i], t.ref[s.1]), a');
        assert t.ref[s.1..] == [t.ref[s.1]] + t.ref[s.1+1..];
      case Consume(i) =>
        t.g.ArcFacts(i);
        PathCons(t.g, s.0, i, p');
        p, a := [i] + p', [Insert(t.g.words[i])] + a';
        Cons(Insert(t.g.words[i]), a');
    }
  }

  /** What one more column in front adds. */
  lemma Cons(e: Edit, a: seq<Edit>)
    ensures HypOf([e] + a) == (if e.Delete? then [] else [e.hyp]) + HypOf(a)
    ensures RefOf([e] + a) == (if e.Insert? then [] else [e.ref]) + RefOf(a)
    ensures Cost([e] + a, {0}) == EditCost(e, {0}) + Cost(a, {0})
  {
    assert ([e] + a)[1..] == a;
  }

  /** An arc in front of a path. */
  lemma PathCons(g: Lattice, n: nat, i: nat, p: seq<nat>)
    requires g.Valid() && n < g.finalNode && g.First(n) <= i < g.Past(n) && g.IsPath(g.End(i), p) && g.Arcs(p)
    ensures g.IsPath(n, [i] + p) && g.Arcs([i] + p) && |g.words| == |g.starts| && Words(g, [i] + p) == [g.words[i]] + Words(g, p)
  {
    hide Lattice.Valid;
    g.ArcFacts(i);
    assert ([i] + p)[1..] == p;
    g.PathArcs(n, [i] + p);
  }

  // ---------- the search ----------

  ghost predicate PathFits(t: Task, x: OraclePath)
    requires t.g.Valid()
  {
    -1 <= x.arcIndex < |t.g.starts| && x.refIndex <= |t.ref|
  }

  /** The state a queued path has reached. */
  ghost function StateOf(t: Task, x: OraclePath): (s: State)
    requires t.g.Valid() && PathFits(t, x)
    ensures t.Fits(s)
  {
    (if x.arcIndex == -1 then 0 else t.g.End(x.arcIndex), x.refIndex)
  }

  ghost predicate QueueFits(t: Task, q: seq<OraclePath>)
    requires t.g.Valid()
  {
    forall k | 0 <= k < |q| :: PathFits(t, q[k])
  }

  /** Entry k has reached s with at most the given number of errors. */
  ghost predicate Offers(t: Task, q: seq<OraclePath>, k: nat, s: State, most: nat)
    requires t.g.Valid() && QueueFits(t, q)
  {
    k < |q| && StateOf(t, q[k]) == s && q[k].wer <= most
  }

  ghost predicate Offered(t: Task, q: seq<OraclePath>, s: State, most: nat)
    requires t.g.Valid() && QueueFits(t, q)
  {
    exists k: nat :: Offers(t, q, k, s, most)
  }

  /** s was reached, or is about to be, with at most the given number of errors. */
  ghost predicate Covered(t: Task, q: seq<OraclePath>, reached: map<State, nat>, s: State, most: nat)
    requires t.g.Valid() && QueueFits(t, q)
  {
    if s in reached then reached[s] <= most else Offered(t, q, s, most)
  }

  /** Every step out of s is covered at its cost. */
  ghost predicate Closed(t: Task, q: seq<OraclePath>, reached: map<State, nat>, s: State)
    requires t.g.Valid() && QueueFits(t, q) && s in reached && t.Fits(s)
  {
    forall step | t.Enabled(s, step) :: Covered(t, q, reached, t.Target(s, step), reached[s] + t.StepCost(s, step))
  }

  ghost predicate Promising(t: Task, x: OraclePath)
    requires t.g.Valid() && PathFits(t, x)
  {
    x.wer + t.ToGo(StateOf(t, x)) >= t.ToGo((0, 0))
  }

  ghost predicate SearchInv(t: Task, q: seq<OraclePath>, reached: map<State, nat>)
    requires t.g.Valid()
  {
    && QueueFits(t, q)
    && (forall k | 0 <= k < |q| :: Promising(t, q[k]))
    && (forall s, k | s in reached && 0 <= k < |q| :: reached[s] <= q[k].wer)
    && Covered(t, q, reached, (0, 0), 0)
    && forall s | s in reached :: t.Fits(s) && !t.IsGoal(s) && Closed(t, q, reached, s)
  }

  /** Some queued path still leads to an optimum: follow an optimal walk to the first state not reached. */
  lemma {:induction false} Witness(t: Task, q: seq<OraclePath>, reached: map<State, nat>, s: State, most: nat)
    returns (k: nat)
    requires t.g.Valid() && SearchInv(t, q, reached) && t.Fits(s)
    requires Covered(t, q, reached, s, most) && most + t.ToGo(s) <= t.ToGo((0, 0))
    ensures k < |q| && StateOf(t, q[k]) !in reached
    ensures q[k].wer + t.ToGo(StateOf(t, q[k])) <= t.ToGo((0, 0))
    decreases t.Left(s)
  {
    hide Lattice.Valid, Task.ToGo, PathFits, StateOf, Task.StepCost, Promising;
    if s in reached {
      assert Closed(t, q, reached, s);
      var step := t.ToGoMet(s);
      k := Witness(t, q, reached, t.Target(s, step), reached[s] + t.StepCost(s, step));
    } else {
      k :| Offers(t, q, k, s, most);
    }
  }

  predicate IsTop(q: seq<OraclePath>, k: nat) {
    k < |q| && forall j | 0 <= j < |q| ::
      q[k].wer < q[j].wer || (q[k].wer == q[j].wer && q[k].score <= q[j].score)
  }

  lemma {:induction false} HasTop(q: seq<OraclePath>)
    requires q != []
    ensures exists k: nat :: k < |q| && IsTop(q, k)
  {
    if |q| == 1 {
      assert IsTop(q, 0);
    } else {
      var front, last := q[..|q|-1], q[|q|-1];
      HasTop(front);
      var k: nat :| k < |front| && IsTop(front, k);
      var keep := q[k].wer < last.wer || (q[k].wer == last.wer && q[k].score <= last.score);
      assert IsTop(q, if keep then k else |q| - 1);
    }
  }

  /** Pops an entry of fewest errors, and of least score among those. */
  method PopTop(q: seq<OraclePath>) returns (path: OraclePath, rest: seq<OraclePath>, ghost k: nat)
    requires q != []
    ensures IsTop(q, k) && path == q[k] && rest == q[..k] + q[k+1..]
  {
    HasTop(q);
    var at: nat :| at < |q| && IsTop(q, at);
    path, rest, k := q[at], q[..at] + q[at+1..], at;
  }

  /** Popping an entry whose state was reached before loses nothing. */
  lemma DropKeeps(t: Task, q: seq<OraclePath>, reached: map<State, nat>, k: nat)
    requires t.g.Valid() && SearchInv(t, q, reached) && k < |q| && StateOf(t, q[k]) in reached
    ensures SearchInv(t, q[..k] + q[k+1..], reached)
  {
    hide Lattice.Valid, Task.ToGo, PathFits, StateOf, Task.StepCost, Promising, Covered, Task.Enabled, Task.Target;
    var rest := q[..k] + q[k+1..];
    forall s: State, most: nat | Covered(t, q, reached, s, most) ensures Covered(t, rest, reached, s, most) {
      DropCovered(t, q, reached, k, s, most);
    }
    forall s | s in reached ensures Closed(t, rest, reached, s) {
      assert Closed(t, q, reached, s);
    }
  }

  lemma DropCovered(t: Task, q: seq<OraclePath>, reached: map<State, nat>, k: nat, s: State, most: nat)
    requires t.g.Valid() && QueueFits(t, q) && k < |q| && StateOf(t, q[k]) in reached
    requires Covered(t, q, reached, s, most)
    ensures QueueFits(t, q[..k] + q[k+1..]) && Covered(t, q[..k] + q[k+1..], reached, s, most)
  {
    hide Lattice.Valid, PathFits, StateOf;
    var rest := q[..k] + q[k+1..];
    if s !in reached {
      var j: nat :| Offers(t, q, j, s, most);
      assert Offers(t, rest, if j < k then j else j - 1, s, most);
    }
  }

  /** q' keeps the entries of rest and offers every step out of s at its cost. */
  ghost predicate Expanded(t: Task, rest: seq<OraclePath>, q': seq<OraclePath>, s: State, wer: nat)
    requires t.g.Valid() && QueueFits(t, q') && t.Fits(s)
  {
    && |rest| <= |q'| && q'[..|rest|] == rest
    && (forall k | |rest| <= k < |q'| :: q'[k].wer >= wer && q'[k].wer + t.ToGo(StateOf(t, q'[k])) >= wer + t.ToGo(s))
    && forall step | t.Enabled(s, step) ::
         Offered(t, q', t.Target(s, step), wer + t.StepCost(s, step))
  }

  lemma VisitCovered(t: Task, q: seq<OraclePath>, reached: map<State, nat>, k: nat, q': seq<OraclePath>,
                     s: State, most: nat)
    requires t.g.Valid() && QueueFits(t, q) && QueueFits(t, q') && IsTop(q, k)
    requires StateOf(t, q[k]) !in reached && Covered(t, q, reached, s, most)
    requires var rest := q[..k] + q[k+1..]; |rest| <= |q'| && q'[..|rest|] == rest
    ensures Covered(t, q', reached[StateOf(t, q[k]) := q[k].wer], s, most)
  {
    hide Lattice.Valid, PathFits, StateOf;
    var rest := q[..k] + q[k+1..];
    if s !in reached {
      var j: nat :| Offers(t, q, j, s, most);
      if s != StateOf(t, q[k]) {
        var j' := if j < k then j else j - 1;
        assert q'[j'] == rest[j'] == q[j];
        assert Offers(t, q', j', s, most);
      }
    }
  }

  /** Visiting the top entry's state and queueing its steps keeps the invariant. */
  lemma VisitKeeps(t: Task, q: seq<OraclePath>, reached: map<State, nat>, k: nat, q': seq<OraclePath>)
    requires t.g.Valid() && SearchInv(t, q, reached) && IsTop(q, k) && QueueFits(t, q')
    requires var s := StateOf(t, q[k]);
             && s !in reached && !t.IsGoal(s)
             && Expanded(t, q[..k] + q[k+1..], q', s, q[k].wer)
    ensures SearchInv(t, q', reached[StateOf(t, q[k]) := q[k].wer])
  {
    hide Lattice.Valid, Task.ToGo, PathFits, StateOf, Task.StepCost, Covered, Task.Enabled, Task.Target, IsTop, Task.IsGoal;
    TopInRange(q, k);
    var x, rest := StateOf(t, q[k]), q[..k] + q[k+1..];
    var reached' := reached[x := q[k].wer];
    forall s: State, most: nat | Covered(t, q, reached, s, most) ensures Covered(t, q', reached', s, most) {
      VisitCovered(t, q, reached, k, q', s, most);
    }
    assert Covered(t, q', reached', (0, 0), 0);
    forall j | 0 <= j < |q'| ensures q[k].wer <= q'[j].wer {
      if j < |rest| {
        assert q'[j] == rest[j];
      }
    }
    forall j | 0 <= j < |q'| ensures Promising(t, q'[j]) {
      if j < |rest| {
        assert q'[j] == rest[j];
      } else {
        assert Promising(t, q[k]);
      }
    }
    forall s | s in reached' ensures Closed(t, q', reached', s) {
      if s == x {
        NewlyClosed(t, rest, q', reached', x, q[k].wer);
      } else {
        assert Closed(t, q, reached, s);
      }
    }
  }

  lemma NewlyClosed(t: Task, rest: seq<OraclePath>, q': seq<OraclePath>, reached: map<State, nat>, s: State, wer: nat)
    requires t.g.Valid() && t.Fits(s) && QueueFits(t, q') && Expanded(t, rest, q', s, wer)
    requires s in reached && reached[s] == wer && forall r | r in reached :: reached[r] <= wer
    ensures Closed(t, q', reached, s)
  {
    hide Lattice.Valid, Task.ToGo, PathFits, StateOf, Task.StepCost, Task.Enabled, Task.Target;
  }

  lemma TopInRange(q: seq<OraclePath>, k: nat)
    requires IsTop(q, k)
    ensures k < |q| && forall j | 0 <= j < |q| :: q[k].wer <= q[j].wer
  {
  }

  // ---------- pushing the steps out of a state ----------

  /** Every entry pushed so far is one step out of s and costs at least what the step does. */
  ghost predicate Grown(t: Task, rest: seq<OraclePath>, q: seq<OraclePath>, s: State, wer: nat)
    requires t.g.Valid() && t.Fits(s)
  {
    && QueueFits(t, q)
    && |rest| <= |q| && q[..|rest|] == rest
    && forall k | |rest| <= k < |q| :: q[k].wer >= wer && q[k].wer + t.ToGo(StateOf(t, q[k])) >= wer + t.ToGo(s)
  }

  ghost predicate StepOffered(t: Task, q: seq<OraclePath>, s: State, wer: nat, step: Step)
    requires t.g.Valid() && t.Fits(s) && QueueFits(t, q)
  {
    t.Enabled(s, step) ==> Offered(t, q, t.Target(s, step), wer + t.StepCost(s, step))
  }

  /** e is the entry reached from s by the step, charged at least the step's cost. */
  ghost predicate Reaches(t: Task, s: State, wer: nat, step: Step, e: OraclePath)
    requires t.g.Valid() && t.Fits(s)
  {
    && t.Enabled(s, step) && PathFits(t, e) && StateOf(t, e) == t.Target(s, step)
    && e.wer >= wer + t.StepCost(s, step)
  }

  lemma PushGrows(t: Task, rest: seq<OraclePath>, q: seq<OraclePath>, s: State, wer: nat, step: Step, e: OraclePath)
    requires t.g.Valid() && t.Fits(s) && Grown(t, rest, q, s, wer) && Reaches(t, s, wer, step, e)
    ensures Grown(t, rest, q + [e], s, wer)
    ensures forall other | StepOffered(t, q, s, wer, other) :: StepOffered(t, q + [e], s, wer, other)
    ensures e.wer == wer + t.StepCost(s, step) ==> StepOffered(t, q + [e], s, wer, step)
  {
    hide Lattice.Valid, Task.ToGo, PathFits, StateOf, Task.StepCost, Task.Enabled, Task.Target;
    t.ToGoBound(s, step);
    var q' := q + [e];
    assert q'[|q|] == e;
    forall r: State, most: nat | Offered(t, q, r, most) ensures Offered(t, q', r, most) {
      var k: nat :| Offers(t, q, k, r, most);
      assert Offers(t, q', k, r, most);
    }
    if e.wer == wer + t.StepCost(s, step) {
      assert Offers(t, q', |q|, t.Target(s, step), e.wer);
    }
  }

  lemma ArcSteps(t: Task, s: State, wer: nat, i: nat, score: real, prev: nat)
    requires t.g.Valid() && t.Fits(s) && s.0 < t.g.finalNode && t.g.First(s.0) <= i < t.g.Past(s.0)
    ensures i < |t.g.words| == |t.g.weights|
    ensures t.Enabled(s, Consume(i)) && t.StepCost(s, Consume(i)) == if t.g.words[i] == 0 then 0 else 1
    ensures Reaches(t, s, wer, Consume(i), OraclePath(wer + 1, score + t.g.weights[i], i, prev, s.1))
    ensures t.g.words[i] == 0 ==> Reaches(t, s, wer, Consume(i), OraclePath(wer, score + t.g.weights[i], i, prev, s.1))
    ensures s.1 < |t.ref| ==>
      var c := if t.g.words[i] == t.ref[s.1] then 0 else 1;
      && t.Enabled(s, Substitute(i)) && t.StepCost(s, Substitute(i)) == c
      && Reaches(t, s, wer, Substitute(i), OraclePath(wer + c, score + t.g.weights[i], i, prev, s.1 + 1))
  {
    t.g.ArcFacts(i);
    t.g.Onward(s.0, i);
  }

  /** The arcs leaving a node: none at the final node. */
  lemma NodeRange(t: Task, n: nat)
    requires t.g.Valid() && n <= t.g.finalNode
    ensures n + 1 < |t.g.nodeArcs| && t.g.nodeArcs[n] <= t.g.nodeArcs[n+1]
    ensures n < t.g.finalNode ==> t.g.nodeArcs[n] == t.g.First(n) && t.g.nodeArcs[n+1] == t.g.Past(n)
    ensures n == t.g.finalNode ==> t.g.nodeArcs[n] == t.g.nodeArcs[n+1]
  {
    if n < t.g.finalNode {
      t.g.NodeFacts(n);
    }
  }

  ghost predicate Pushed(t: Task, q: seq<OraclePath>, s: State, wer: nat)
    requires t.g.Valid() && t.Fits(s) && QueueFits(t, q)
  {
    forall step :: StepOffered(t, q, s, wer, step)
  }

  /** Pushes the substitutions of all arcs, then the deletion of the reference word. */
  method PushReference(t: Task, path: OraclePath, s: State, rest: seq<OraclePath>) returns (q: seq<OraclePath>)
    requires t.g.Valid() && PathFits(t, path) && StateOf(t, path) == s && QueueFits(t, rest)
    ensures Grown(t, rest, q, s, path.wer) && QueueFits(t, q)
    ensures forall i: nat :: StepOffered(t, q, s, path.wer, Substitute(i))
    ensures StepOffered(t, q, s, path.wer, Skip)
  {
    hide Lattice.Valid, Task.ToGo, Reaches, Grown, StepOffered, Task.Enabled;
    var wer, score, node, refIndex := path.wer, path.score, s.0, path.refIndex;
    q := rest;
    NoneGrown(t, rest, s, wer);
    NodeRange(t, node);
    if refIndex < |t.ref| {
      for i := t.g.nodeArcs[node] to t.g.nodeArcs[node + 1]
        invariant Grown(t, rest, q, s, wer) && QueueFits(t, q)
        invariant forall j: nat | t.g.nodeArcs[node] <= j < i :: StepOffered(t, q, s, wer, Substitute(j))
      {
        ArcSteps(t, s, wer, i, score, refIndex);
        var cost := if t.g.words[i] == t.ref[refIndex] then 0 else 1;
        var e := OraclePath(wer + cost, score + t.g.weights[i], i, refIndex, refIndex + 1);
        PushGrows(t, rest, q, s, wer, Substitute(i), e);
        GrownFits(t, rest, q + [e], s, wer);
        q := q + [e];
      }
      var e := OraclePath(wer + 1, score, path.arcIndex, refIndex, refIndex + 1);
      SkipReaches(t, s, path, e);
      PushGrows(t, rest, q, s, wer, Skip, e);
      GrownFits(t, rest, q + [e], s, wer);
      q := q + [e];
    }
    forall i: nat ensures StepOffered(t, q, s, wer, Substitute(i)) {
      OutOfRange(t, q, s, wer, i);
    }
    OutOfRange(t, q, s, wer, 0);
  }

  lemma NoneGrown(t: Task, rest: seq<OraclePath>, s: State, wer: nat)
    requires t.g.Valid() && t.Fits(s) && QueueFits(t, rest)
    ensures Grown(t, rest, rest, s, wer)
  {
  }

  lemma GrownFits(t: Task, rest: seq<OraclePath>, q: seq<OraclePath>, s: State, wer: nat)
    requires t.g.Valid() && t.Fits(s) && Grown(t, rest, q, s, wer)
    ensures QueueFits(t, q)
  {
  }

  lemma SkipReaches(t: Task, s: State, path: OraclePath, e: OraclePath)
    requires t.g.Valid() && PathFits(t, path) && StateOf(t, path) == s && s.1 < |t.ref|
    requires e.wer == path.wer + 1 && e.arcIndex == path.arcIndex && e.refIndex == s.1 + 1
    ensures Reaches(t, s, path.wer, Skip, e)
  {
  }

  /** Steps that are not enabled need not be offered. */
  lemma OutOfRange(t: Task, q: seq<OraclePath>, s: State, wer: nat, i: nat)
    requires t.g.Valid() && t.Fits(s) && QueueFits(t, q)
    ensures s.1 >= |t.ref| ==> StepOffered(t, q, s, wer, Skip) && StepOffered(t, q, s, wer, Substitute(i))
    ensures s.0 >= t.g.finalNode ==> StepOffered(t, q, s, wer, Substitute(i)) && StepOffered(t, q, s, wer, Consume(i))
    ensures s.0 < t.g.finalNode && !(t.g.First(s.0) <= i < t.g.Past(s.0)) ==>
      StepOffered(t, q, s, wer, Substitute(i)) && StepOffered(t, q, s, wer, Consume(i))
  {
  }

  /** Pushes every arc as an insertion, and every epsilon arc once more for free. */
  method PushArcs(t: Task, path: OraclePath, s: State, ghost rest: seq<OraclePath>, q: seq<OraclePath>)
    returns (q': seq<OraclePath>)
    requires t.g.Valid() && PathFits(t, path) && StateOf(t, path) == s && QueueFits(t, q)
    requires Grown(t, rest, q, s, path.wer)
    requires forall i: nat :: StepOffered(t, q, s, path.wer, Substitute(i))
    requires StepOffered(t, q, s, path.wer, Skip)
    ensures Grown(t, rest, q', s, path.wer) && QueueFits(t, q')
    ensures Pushed(t, q', s, path.wer)
  {
    hide Lattice.Valid, Task.ToGo, Reaches, Grown, StepOffered, Task.Enabled;
    var wer, score, node, refIndex := path.wer, path.score, s.0, path.refIndex;
    q' := q;
    NodeRange(t, node);
    for i := t.g.nodeArcs[node] to t.g.nodeArcs[node + 1]
      invariant Grown(t, rest, q', s, wer) && QueueFits(t, q')
      invariant forall j: nat :: StepOffered(t, q', s, wer, Substitute(j))
      invariant StepOffered(t, q', s, wer, Skip)
      invariant forall j: nat | t.g.nodeArcs[node] <= j < i && j < |t.g.words| && t.g.words[j] != 0 ::
                  StepOffered(t, q', s, wer, Consume(j))
    {
      ArcSteps(t, s, wer, i, score, refIndex);
      var e := OraclePath(wer + 1, score + t.g.weights[i], i, refIndex, refIndex);
      PushGrows(t, rest, q', s, wer, Consume(i), e);
      GrownFits(t, rest, q' + [e], s, wer);
      q' := q' + [e];
    }
    for i := t.g.nodeArcs[node] to t.g.nodeArcs[node + 1]
      invariant Grown(t, rest, q', s, wer) && QueueFits(t, q')
      invariant forall j: nat :: StepOffered(t, q', s, wer, Substitute(j))
      invariant StepOffered(t, q', s, wer, Skip)
      invariant forall j: nat | t.g.nodeArcs[node] <= j < t.g.nodeArcs[node + 1] && j < |t.g.words| && (j < i || t.g.words[j] != 0) ::
                  StepOffered(t, q', s, wer, Consume(j))
    {
      ArcSteps(t, s, wer, i, score, refIndex);
      if t.g.words[i] == 0 {
        var e := OraclePath(wer, score + t.g.weights[i], i, refIndex, refIndex);
        PushGrows(t, rest, q', s, wer, Consume(i), e);
        GrownFits(t, rest, q' + [e], s, wer);
        q' := q' + [e];
      }
    }
    forall step ensures StepOffered(t, q', s, wer, step) {
      if step.Consume? {
        OutOfRange(t, q', s, wer, step.arc);
        ArcWords(t, s, step.arc);
      }
    }
  }

  lemma ArcWords(t: Task, s: State, i: nat)
    requires t.g.Valid() && t.Fits(s)
    ensures s.0 < t.g.finalNode && t.g.First(s.0) <= i < t.g.Past(s.0) ==> i < |t.g.words|
  {
  }

  lemma PushedIsExpanded(t: Task, rest: seq<OraclePath>, q: seq<OraclePath>, s: State, wer: nat)
    requires t.g.Valid() && t.Fits(s) && QueueFits(t, q) && Grown(t, rest, q, s, wer) && Pushed(t, q, s, wer)
    ensures Expanded(t, rest, q, s, wer)
  {
    hide Lattice.Valid, Task.ToGo, PathFits, StateOf, Task.StepCost, Task.Target, Offered, Task.Enabled;
    forall step | t.Enabled(s, step) ensures Offered(t, q, t.Target(s, step), wer + t.StepCost(s, step)) {
      assert StepOffered(t, q, s, wer, step);
    }
  }

  /** All states, to bound how many can still be visited. */
  ghost function States(t: Task): set<State> {
    set n, r | 0 <= n <= t.g.finalNode && 0 <= r <= |t.ref| :: (n, r)
  }

  lemma NewState(t: Task, reached: map<State, nat>, s: State, wer: nat)
    requires t.Fits(s) && s !in reached
    ensures States(t) - reached[s := wer].Keys < States(t) - reached.Keys
  {
    assert s in States(t);
    assert reached[s := wer].Keys == reached.Keys + {s};
    assert States(t) - reached[s := wer].Keys == (States(t) - reached.Keys) - {s};
  }

  lemma StartOk(t: Task)
    requires t.g.Valid()
    ensures SearchInv(t, [OraclePath(0, 0.0, -1, 0, 0)], map[])
  {
    assert Offers(t, [OraclePath(0, 0.0, -1, 0, 0)], 0, (0, 0), 0);
  }

  /** A queued path always remains, and the top one is never above the optimum. */
  lemma TopIsLow(t: Task, q: seq<OraclePath>, reached: map<State, nat>)
    requires t.g.Valid() && SearchInv(t, q, reached)
    ensures q != [] && forall k: nat | IsTop(q, k) :: q[k].wer <= t.ToGo((0, 0))
  {
    hide Lattice.Valid, Task.ToGo, Covered, Closed, StateOf, PathFits;
    var k := Witness(t, q, reached, (0, 0), 0);
  }

  lemma EntryFacts(t: Task, q: seq<OraclePath>, reached: map<State, nat>, k: nat)
    requires t.g.Valid() && SearchInv(t, q, reached) && k < |q|
    ensures QueueFits(t, q) && QueueFits(t, q[..k] + q[k+1..]) && PathFits(t, q[k])
    ensures q[k].arcIndex != -1 ==> 0 <= q[k].arcIndex < |t.g.ends| == |t.g.starts|
    ensures StateOf(t, q[k]) == (if q[k].arcIndex == -1 then 0 else t.g.ends[q[k].arcIndex], q[k].refIndex)
    ensures q[k].wer + t.ToGo(StateOf(t, q[k])) >= t.ToGo((0, 0))
  {
    assert PathFits(t, q[k]) && Promising(t, q[k]);
    hide Task.ToGo, Covered, Closed;
  }

  lemma GoalCost(t: Task, s: State)
    requires t.g.Valid() && t.Fits(s)
    ensures t.IsGoal(s) <==> s.0 == t.g.finalNode && s.1 == |t.ref|
    ensures t.IsGoal(s) ==> t.ToGo(s) == 0
  {
  }

  /** The best-first search. It never exhausts its queue, so found is always true. */
  method BestFirst(t: Task) returns (found: bool, oracleWER: nat)
    requires t.g.Valid()
    ensures found && oracleWER == t.ToGo((0, 0))
  {
    hide Lattice.Valid, Task.ToGo, SearchInv, StateOf, PathFits, QueueFits, IsTop, Task.IsGoal, Grown, Pushed, Expanded;
    found, oracleWER := false, 0;
    var bestParent: map<State, State> := map[];
    ghost var reached: map<State, nat> := map[];
    var paths := [OraclePath(0, 0.0, -1, 0, 0)];
    StartOk(t);
    TopIsLow(t, paths, reached);
    while !found && paths != []
      invariant found ==> oracleWER == t.ToGo((0, 0))
      invariant !found ==> SearchInv(t, paths, reached) && paths != [] && bestParent.Keys == reached.Keys
      decreases !found, States(t) - reached.Keys, |paths|
    {
      TopIsLow(t, paths, reached);
      var path, rest, k := PopTop(paths);
      TopInRange(paths, k);
      EntryFacts(t, paths, reached, k);
      var node := if path.arcIndex == -1 then 0 else t.g.ends[path.arcIndex];
      var backtrace := (node, path.refIndex);
      GoalCost(t, backtrace);
      if backtrace in bestParent {
        DropKeeps(t, paths, reached, k);
        paths := rest;
        TopIsLow(t, paths, reached);
      } else {
        bestParent := bestParent[backtrace :=
          (if path.arcIndex == -1 then 0 else t.g.starts[path.arcIndex], path.prevRefIndex)];
        if node == t.g.finalNode && path.refIndex == |t.ref| {
          found, oracleWER := true, path.wer;
        } else {
          var q := PushReference(t, path, backtrace, rest);
          q := PushArcs(t, path, backtrace, rest, q);
          PushedIsExpanded(t, rest, q, backtrace, path.wer);
          VisitKeeps(t, paths, reached, k, q);
          NewState(t, reached, backtrace, path.wer);
          paths, reached := q, reached[backtrace := path.wer];
          TopIsLow(t, paths, reached);
        }
      }
    }
  }

  /** The oracle error count: the minimum over all complete lattice paths and all alignments of their words
      with the reference, word 0 being free to insert. */
  method FindOracleWER(g: Lattice, ref: seq<nat>) returns (oracleWER: nat)
    requires g.Valid()
    ensures forall p, a | Explains(Task(g, ref), (0, 0), p, a) :: oracleWER <= Cost(a, {0})
    ensures exists p, a :: Explains(Task(g, ref), (0, 0), p, a) && oracleWER == Cost(a, {0})
  {
    hide Lattice.Valid, Task.ToGo, Explains;
    var t := Task(g, ref);
    var found, wer := BestFirst(t);
    oracleWER := wer;
    forall p, a | Explains(t, (0, 0), p, a) ensures oracleWER <= Cost(a, {0}) {
      ToGoIsLeast(t, (0, 0), p, a);
    }
    ghost var p, a := ToGoIsMet(t, (0, 0));
  }
}
