/** Sorting a vector of indices by the keys they stand for, and inverting the permutation it gives. */
module Sorting {

  /** A strict total order. */
  ghost predicate Order<T(!new)>(less: (T, T) -> bool) {
    && (forall a, b :: less(a, b) ==> !less(b, a))
    && (forall a, b, c :: less(a, b) && less(b, c) ==> less(a, c))
    && forall a, b :: a != b ==> less(a, b) || less(b, a)
  }

  ghost predicate Distinct<T>(s: seq<T>) {
    forall i, j | 0 <= i < |s| && 0 <= j < |s| && s[i] == s[j] :: i == j
  }

  ghost predicate Below(s: seq<nat>, n: nat) {
    forall i | 0 <= i < |s| :: s[i] < n
  }

  /** Strictly increasing under less. */
  ghost predicate Ascends<T>(s: seq<T>, less: (T, T) -> bool) {
    forall i, j | 0 <= i < j < |s| :: less(s[i], s[j])
  }

  /** Each element of s stands for the key at that index. */
  function Through<T>(keys: seq<T>, s: seq<nat>): (r: seq<T>)
    requires Below(s, |keys|)
    ensures |r| == |s|
  {
    seq(|s|, i requires 0 <= i < |s| => keys[s[i]])
  }

  /** One neighbour is smaller than the next. */
  ghost predicate StepsUp<T>(s: seq<T>, less: (T, T) -> bool) {
    exists i, j :: 0 <= i < |s| && j == i + 1 && j < |s| && less(s[i], s[j])
  }

  /** Inserts x where the keys stay in order. */
  method Insert<T(!new)>(keys: seq<T>, less: (T, T) -> bool, s: seq<nat>, x: nat) returns (r: seq<nat>)
    requires Order(less) && Distinct(keys) && Below(s, |keys|) && x < |keys| && x !in s && Distinct(s)
    requires Ascends(Through(keys, s), less)
    ensures Below(r, |keys|) && Ascends(Through(keys, r), less) && Distinct(r)
    ensures |r| == |s| + 1 && forall y :: y in r <==> y in s || y == x
  {
    var k := 0;
    while k < |s| && less(keys[s[k]], keys[x])
      invariant k <= |s|
      invariant forall i | 0 <= i < k :: less(keys[s[i]], keys[x])
    {
      k := k + 1;
    }
    assert forall i | k <= i < |s| :: less(keys[x], keys[s[i]]) by {
      forall i | k <= i < |s| ensures less(keys[x], keys[s[i]]) {
        assert s[i] in s;
        assert less(keys[x], keys[s[k]]);
        assert k < i ==> less(Through(keys, s)[k], Through(keys, s)[i]);
      }
    }
    r := s[..k] + [x] + s[k..];
    InsertedAscends(keys, less, s, x, k);
    AscendsDistinct(keys, less, r);
    assert s == s[..k] + s[k..];
  }

  lemma InsertedAscends<T>(keys: seq<T>, less: (T, T) -> bool, s: seq<nat>, x: nat, k: nat)
    requires Below(s, |keys|) && x < |keys| && k <= |s|
    requires Ascends(Through(keys, s), less)
    requires forall i | 0 <= i < k :: less(keys[s[i]], keys[x])
    requires forall i | k <= i < |s| :: less(keys[x], keys[s[i]])
    ensures Below(s[..k] + [x] + s[k..], |keys|)
    ensures Ascends(Through(keys, s[..k] + [x] + s[k..]), less)
  {
    var r := s[..k] + [x] + s[k..];
    var was := Through(keys, s);
    assert Below(r, |keys|);
    forall i, j | 0 <= i < j < |r| ensures less(Through(keys, r)[i], Through(keys, r)[j]) {
      if i != k && j != k {
        assert less(was[if i < k then i else i - 1], was[if j < k then j else j - 1]);
      }
    }
  }

  lemma AscendsDistinct<T(!new)>(keys: seq<T>, less: (T, T) -> bool, s: seq<nat>)
    requires Order(less) && Below(s, |keys|) && Ascends(Through(keys, s), less)
    ensures Distinct(s)
  {
    forall i, j | 0 <= i < j < |s| ensures s[i] != s[j] {
      assert less(Through(keys, s)[i], Through(keys, s)[j]);
    }
  }

  /** Sorts a view of indices, and tells whether it did: it does when some neighbour steps up. */
  method SortIndices<T(!new)>(keys: seq<T>, less: (T, T) -> bool, view: seq<nat>) returns (sorted: bool, r: seq<nat>)
    requires Order(less) && Distinct(keys) && Below(view, |keys|) && Distinct(view) && |view| > 0
    ensures Below(r, |keys|) && Distinct(r) && |r| == |view| && forall y :: y in r <==> y in view
    ensures sorted <==> StepsUp(Through(keys, view), less)
    ensures if sorted then Ascends(Through(keys, r), less) else r == view
  {
    r := view;
    for i := 0 to |view| - 1
      invariant r == view
      invariant forall k, l | 0 <= k < i && l == k + 1 :: !less(Through(keys, view)[k], Through(keys, view)[l])
    {
      if less(keys[view[i]], keys[view[i+1]]) {
        assert less(Through(keys, view)[i], Through(keys, view)[i+1]);
        r := StdSort(keys, less, view);
        return true, r;
      }
    }
    sorted := false;
  }

  method StdSort<T(!new)>(keys: seq<T>, less: (T, T) -> bool, view: seq<nat>) returns (r: seq<nat>)
    requires Order(less) && Distinct(keys) && Below(view, |keys|) && Distinct(view)
    ensures Below(r, |keys|) && Distinct(r) && |r| == |view| && forall y :: y in r <==> y in view
    ensures Ascends(Through(keys, r), less)
  {
    r := [];
    for i := 0 to |view|
      invariant Below(r, |keys|) && Distinct(r) && |r| == i && forall y :: y in r <==> y in view[..i]
      invariant Ascends(Through(keys, r), less)
    {
      r := Insert(keys, less, r, view[i]);
      assert view[..i+1] == view[..i] + [view[i]];
    }
  }

  /** Unsorted keys that never step up are in exactly the reverse order, so only a short vector is sorted then. */
  lemma SortedAnyway<T(!new)>(keys: seq<T>, less: (T, T) -> bool)
    requires Order(less) && Distinct(keys) && !StepsUp(keys, less)
    ensures Ascends(keys, less) <==> |keys| <= 1
  {
    if |keys| > 1 {
      var i, j := 0, 1;
      assert !less(keys[i], keys[j]);
    }
  }

  function Range(n: nat): (s: seq<nat>)
    ensures |s| == n && forall i | 0 <= i < n :: s[i] == i
    ensures forall y :: y in s <==> 0 <= y < n
  {
    if n == 0 then [] else Range(n - 1) + [n - 1]
  }

  /** Where each index went. */
  method Invert(perm: seq<nat>) returns (inv: seq<nat>)
    requires Below(perm, |perm|) && Distinct(perm) && forall y :: 0 <= y < |perm| ==> y in perm
    ensures |inv| == |perm| && Below(inv, |perm|) && Distinct(inv)
    ensures forall i | 0 <= i < |perm| :: perm[inv[i]] == i
    ensures forall i | 0 <= i < |perm| :: inv[perm[i]] == i
    ensures forall y :: 0 <= y < |perm| ==> y in inv
  {
    inv := seq(|perm|, _ => 0);
    for i := 0 to |perm|
      invariant |inv| == |perm| && Below(inv, |perm|)
      invariant forall k | 0 <= k < i :: inv[perm[k]] == k
    {
      inv := inv[perm[i] := i];
    }
    forall i | 0 <= i < |perm| ensures perm[inv[i]] == i && i in inv {
      assert i in perm;
      assert inv[perm[i]] == i;
    }
  }
}
