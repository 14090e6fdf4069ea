/** Paths and cycles of a relation. */
module Graphs {

  ghost predicate AllIn<T(!new)>(w: seq<T>, s: set<T>) {
    forall i :: 0 <= i < |w| ==> w[i] in s
  }

  ghost predicate IsPath<T(!new)>(edge: (T, T) -> bool, w: seq<T>) {
    forall i, j :: 0 <= i && j == i + 1 < |w| ==> edge(w[i], w[j])
  }

  ghost predicate IsCycle<T(!new)>(edge: (T, T) -> bool, c: seq<T>, among: set<T>) {
    0 < |c| && AllIn(c, among) && IsPath(edge, c) && edge(c[|c| - 1], c[0])
  }

  ghost predicate HasCycle<T(!new)>(edge: (T, T) -> bool, among: set<T>) {
    exists c :: IsCycle(edge, c, among)
  }

  /** `a` has an edge into `s`. */
  ghost predicate WaitsOn<T(!new)>(edge: (T, T) -> bool, a: T, s: set<T>) {
    exists d :: d in s && edge(a, d)
  }

  /** Every member of `s` waits on another. */
  ghost predicate Blocked<T(!new)>(edge: (T, T) -> bool, s: set<T>) {
    forall a :: a in s ==> WaitsOn(edge, a, s)
  }

  /** More places than values: some value repeats. */
  lemma {:induction false} Pigeonhole<T(!new)>(w: seq<T>, s: set<T>) returns (i: nat, j: nat)
    requires |s| < |w| && AllIn(w, s)
    ensures i < j < |w| && w[i] == w[j]
    decreases |w|
  {
    var last := |w| - 1;
    if k :| 0 <= k < last && w[k] == w[last] {
      i, j := k, last;
    } else {
      i, j := Pigeonhole(w[..last], s - {w[last]});
    }
  }

  lemma {:induction false} Walk<T(!new)>(edge: (T, T) -> bool, s: set<T>, start: T, n: nat) returns (w: seq<T>)
    requires Blocked(edge, s) && start in s
    ensures |w| == n + 1 && AllIn(w, s) && IsPath(edge, w)
  {
    if n == 0 {
      w := [start];
    } else {
      w := Walk(edge, s, start, n - 1);
      assert WaitsOn(edge, w[n - 1], s);
      var d :| d in s && edge(w[n - 1], d);
      w := w + [d];
    }
  }

  lemma SubPath<T(!new)>(edge: (T, T) -> bool, w: seq<T>, s: set<T>, i: nat, j: nat)
    requires IsPath(edge, w) && AllIn(w, s) && i < j < |w| && w[i] == w[j]
    ensures IsCycle(edge, w[i..j], s)
  {
    var c := w[i..j];
    assert forall k :: 0 <= k < |c| ==> c[k] == w[i + k];
    assert edge(w[j - 1], w[j]);
  }

  /** A non-empty set whose members wait on each other has a cycle. */
  lemma BlockedHasCycle<T(!new)>(edge: (T, T) -> bool, s: set<T>)
    requires Blocked(edge, s) && s != {}
    ensures HasCycle(edge, s)
  {
    var start :| start in s;
    var w := Walk(edge, s, start, |s|);
    var i, j := Pigeonhole(w, s);
    SubPath(edge, w, s, i, j);
  }

  /** The members of a cycle wait on each other. */
  lemma CycleBlocked<T(!new)>(edge: (T, T) -> bool, c: seq<T>, among: set<T>) returns (s: set<T>)
    requires IsCycle(edge, c, among)
    ensures s != {} && s <= among && Blocked(edge, s)
  {
    s := set a | a in c;
    assert c[0] in s;
    forall a | a in s
      ensures WaitsOn(edge, a, s)
    {
      var i :| 0 <= i < |c| && c[i] == a;
      var d := if i + 1 < |c| then c[i + 1] else c[0];
      assert d in s && edge(a, d);
    }
  }

  lemma CycleLarger<T(!new)>(edge: (T, T) -> bool, s: set<T>, among: set<T>)
    requires HasCycle(edge, s) && s <= among
    ensures HasCycle(edge, among)
  {
    var c :| IsCycle(edge, c, s);
    assert IsCycle(edge, c, among);
  }
}
