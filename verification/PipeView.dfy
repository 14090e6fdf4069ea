/** One instruction of an O3 pipeline trace: the ticks of its stages, 0 for a stage not reached. */
module PipeTrace {
  datatype Inst = Inst(sn: nat, fetch: nat, decode: nat, rename: nat, dispatch: nat, issue: nat, complete: nat,
      retire: nat, store: nat)
}

/**
 The print queue of the pipeline viewer, after custom_gem5/util/o3-pipeview.py: instructions
 arrive out of order, and whenever more than `max_threshold` are waiting the queue is sorted
 and printed down to `min_threshold`.
 */
module ReorderQueue {
  import opened PipeTrace

  /** The requested window; 0 stands for no bound. */
  datatype Filter = Filter(snStart: int, snStop: int, tickStart: int, tickStop: int, onlyCommitted: bool)

  predicate Passes(f: Filter, i: Inst) {
    && !(0 < f.snStart && i.sn < f.snStart)
    && !(0 < f.snStop && f.snStop < i.sn)
    && !(0 < f.tickStart && i.fetch < f.tickStart)
    && !(0 < f.tickStop && f.tickStop < i.fetch)
    && !(f.onlyCommitted && i.retire == 0)
  }

  function Filtered(f: Filter, s: seq<Inst>): seq<Inst> {
    if s == [] then [] else
      var r := Filtered(f, s[..|s| - 1]);
      if Passes(f, s[|s| - 1]) then r + [s[|s| - 1]] else r
  }

  lemma FilteredOne(f: Filter, s: seq<Inst>, x: Inst)
    ensures Filtered(f, s + [x]) == if Passes(f, x) then Filtered(f, s) + [x] else Filtered(f, s)
  {
    assert (s + [x])[..|s|] == s;
  }

  ghost predicate Sorted(s: seq<Inst>) {
    forall i, j :: 0 <= i < j < |s| ==> s[i].sn <= s[j].sn
  }

  /** The place behind everything not larger, so that the sort below is stable like the library's. */
  function Place(s: seq<Inst>, sn: nat): (k: nat)
    requires Sorted(s)
    ensures k <= |s|
    ensures forall i :: 0 <= i < k ==> s[i].sn <= sn
    ensures forall i :: k <= i < |s| ==> sn < s[i].sn
  {
    if s == [] || s[|s| - 1].sn <= sn then |s| else Place(s[..|s| - 1], sn)
  }

  function Insert(s: seq<Inst>, x: Inst): (r: seq<Inst>)
    requires Sorted(s)
    ensures Sorted(r) && |r| == |s| + 1 && multiset(r) == multiset(s) + multiset{x}
  {
    var k := Place(s, x.sn);
    assert s == s[..k] + s[k..];
    s[..k] + [x] + s[k..]
  }

  function SortBySn(s: seq<Inst>): (r: seq<Inst>)
    ensures Sorted(r) && |r| == |s| && multiset(r) == multiset(s)
  {
    if s == [] then [] else
      assert s == s[..|s| - 1] + [s[|s| - 1]];
      Insert(SortBySn(s[..|s| - 1]), s[|s| - 1])
  }

  // ---------------------------------------------------------------- the queue on values

  /** What waits, and what was taken out so far, before filtering. */
  datatype Queue = Queue(waiting: seq<Inst>, popped: seq<Inst>)

  function Excess(n: nat, lower: nat): nat {
    if lower < n then n - lower else 0
  }

  function Flush(q: Queue, lower: nat): Queue {
    var s := SortBySn(q.waiting);
    var k := Excess(|q.waiting|, lower);
    Queue(s[k..], q.popped + s[..k])
  }

  function Push(q: Queue, x: Inst, minT: nat, maxT: nat): Queue {
    var q' := q.(waiting := q.waiting + [x]);
    if maxT < |q'.waiting| then Flush(q', minT) else q'
  }

  function PushAll(xs: seq<Inst>, minT: nat, maxT: nat): Queue {
    if xs == [] then Queue([], []) else Push(PushAll(xs[..|xs| - 1], minT, maxT), xs[|xs| - 1], minT, maxT)
  }

  lemma SplitAt(a: seq<Inst>, b: seq<Inst>, p: seq<Inst>, s: seq<Inst>, k: nat)
    requires a + b == p + s && k <= |s| && |b| == |s| - k
    ensures a == p + s[..k] && b == s[k..]
  {
    assert a == (a + b)[..|a|] && b == (a + b)[|a|..];
  }

  // ---------------------------------------------------------------- the viewer's queue object

  class InstQueue {
    const minThreshold: nat
    const maxThreshold: nat
    const filter: Filter
    var queue: seq<Inst>
    var printed: seq<Inst>
    ghost var popped: seq<Inst>

    ghost function View(): Queue
      reads this
    {
      Queue(queue, popped)
    }

    ghost predicate Valid()
      reads this
    {
      printed == Filtered(filter, popped) && |queue| <= maxThreshold && minThreshold <= maxThreshold
    }

    constructor (minT: nat, maxT: nat, f: Filter)
      requires minT <= maxT
      ensures Valid() && View() == Queue([], []) && minThreshold == minT && maxThreshold == maxT && filter == f
    {
      minThreshold, maxThreshold, filter := minT, maxT, f;
      queue, printed, popped := [], [], [];
    }

    /** Takes instructions off the front until `lower` are left, printing those that pass the filters. */
    method PopTo(lower: nat)
      requires printed == Filtered(filter, popped)
      modifies this
      ensures printed == Filtered(filter, popped)
      ensures popped + queue == old(popped + queue) && |queue| == |old(queue)| - Excess(|old(queue)|, lower)
    {
      ghost var all, n := popped + queue, |queue|;
      while lower < |queue|
        invariant popped + queue == all && n - Excess(n, lower) <= |queue| <= n
        invariant printed == Filtered(filter, popped)
      {
        var item := queue[0];
        FilteredOne(filter, popped, item);
        assert popped + queue == popped + [item] + queue[1..];
        queue, popped := queue[1..], popped + [item];
        if Passes(filter, item) {
          printed := printed + [item];
        }
      }
    }

    method PrintInsts(lower: nat)
      requires printed == Filtered(filter, popped)
      modifies this
      ensures View() == Flush(old(View()), lower) && printed == Filtered(filter, popped)
    {
      queue := SortBySn(queue);
      ghost var sorted, p0 := queue, popped;
      PopTo(lower);
      SplitAt(popped, queue, p0, sorted, Excess(|sorted|, lower));
    }

    /** The queue never holds more than `maxThreshold` + 1, and at most `maxThreshold` when this returns. */
    method QueueInst(x: Inst)
      requires Valid()
      modifies this
      ensures Valid() && View() == Push(old(View()), x, minThreshold, maxThreshold)
    {
      queue := queue + [x];
      assert |queue| <= maxThreshold + 1;
      if maxThreshold < |queue| {
        PrintInsts(minThreshold);
      }
    }
  }

  /** A whole trace: everything is queued, and the rest is printed at the end of the file. */
  method ProcessTrace(xs: seq<Inst>, minT: nat, maxT: nat, f: Filter) returns (out: seq<Inst>)
    requires minT <= maxT
    ensures out == Filtered(f, Flush(PushAll(xs, minT, maxT), 0).popped)
    ensures forall x :: multiset(out)[x] == if Wanted(f, x) then multiset(xs)[x] else 0
    ensures DisorderWithin(xs, minT) ==> Sorted(out)
  {
    var q := new InstQueue(minT, maxT, f);
    for i := 0 to |xs|
      invariant q.Valid() && fresh(q) && q.View() == PushAll(xs[..i], minT, maxT)
      invariant q.minThreshold == minT && q.maxThreshold == maxT && q.filter == f
    {
      assert xs[..i + 1][..i] == xs[..i];
      q.QueueInst(xs[i]);
    }
    assert xs[..|xs|] == xs;
    q.PrintInsts(0);
    out := q.printed;
    OutputIs(xs, minT, maxT, f);
    if DisorderWithin(xs, minT) {
      OutputSorted(xs, minT, maxT, f);
    }
  }

  // ---------------------------------------------------------------- bounded disorder

  /** How many instructions of `s` have a larger sequence number than `sn`. */
  function Larger(s: seq<Inst>, sn: nat): nat {
    if s == [] then 0 else Larger(s[..|s| - 1], sn) + if sn < s[|s| - 1].sn then 1 else 0
  }

  /** Each instruction arrives after at most `k` with larger sequence numbers. */
  ghost predicate DisorderWithin(xs: seq<Inst>, k: nat) {
    forall i :: 0 <= i < |xs| ==> Larger(xs[..i], xs[i].sn) <= k
  }

  lemma {:induction false} LargerConcat(a: seq<Inst>, b: seq<Inst>, sn: nat)
    ensures Larger(a + b, sn) == Larger(a, sn) + Larger(b, sn)
    decreases |b|
  {
    if b == [] {
      assert a + b == a;
    } else {
      assert (a + b)[..|a + b| - 1] == a + b[..|b| - 1];
      LargerConcat(a, b[..|b| - 1], sn);
    }
  }

  lemma LargerRemove(b: seq<Inst>, i: nat, sn: nat) returns (r: seq<Inst>)
    requires i < |b|
    ensures |r| == |b| - 1 && multiset(b) == multiset(r) + multiset{b[i]}
    ensures Larger(b, sn) == Larger(r, sn) + if sn < b[i].sn then 1 else 0
  {
    var l, x, t := b[..i], b[i], b[i + 1..];
    r := l + t;
    assert b == (l + [x]) + t;
    LargerConcat(l, t, sn);
    LargerConcat(l + [x], t, sn);
    LargerConcat(l, [x], sn);
    assert [x][..0] == [];
  }

  lemma {:induction false} LargerPermuted(a: seq<Inst>, b: seq<Inst>, sn: nat)
    requires multiset(a) == multiset(b)
    ensures Larger(a, sn) == Larger(b, sn)
    decreases |a|
  {
    assert |a| == |b| by { assert |multiset(a)| == |multiset(b)|; }
    if a != [] {
      var a' := LargerRemove(a, 0, sn);
      assert a[0] in multiset(b);
      var i :| 0 <= i < |b| && b[i] == a[0];
      var b' := LargerRemove(b, i, sn);
      assert multiset(a') == multiset(a) - multiset{a[0]} && multiset(b') == multiset(b) - multiset{a[0]};
      LargerPermuted(a', b', sn);
    }
  }

  /** In a sorted sequence everything from an element larger than `sn` on is larger. */
  lemma {:induction false} LargerTail(s: seq<Inst>, i: nat, sn: nat)
    requires Sorted(s) && i <= |s| && (i < |s| ==> sn < s[i].sn)
    ensures |s| - i <= Larger(s, sn)
  {
    if i < |s| {
      assert sn < s[|s| - 1].sn;
      LargerTail(s[..|s| - 1], i, sn);
    }
  }

  lemma LargerPrefix(xs: seq<Inst>, k: nat, j: nat, sn: nat)
    requires k <= j <= |xs|
    ensures Larger(xs[..k], sn) <= Larger(xs[..j], sn)
  {
    assert xs[..j] == xs[..k] + xs[k..j];
    LargerConcat(xs[..k], xs[k..j], sn);
  }

  ghost predicate AllBelow(a: seq<Inst>, b: seq<Inst>) {
    forall i, j :: 0 <= i < |a| && 0 <= j < |b| ==> a[i].sn <= b[j].sn
  }

  /**
   After `k` arrivals: nothing is lost, what was taken out is sorted and below everything waiting or
   still to come.
   */
  ghost predicate InOrder(q: Queue, xs: seq<Inst>, k: nat) {
    && Arrived(q, xs, k)
    && Sorted(q.popped) && AllBelow(q.popped, q.waiting) && AllBelow(q.popped, xs[k..])
  }

  ghost predicate Arrived(q: Queue, xs: seq<Inst>, k: nat) {
    k <= |xs| && multiset(q.waiting) + multiset(q.popped) == multiset(xs[..k])
  }

  /** The lowest of the sorted queue is not above a later arrival, or that arrival would be too far out of order. */
  lemma LowestBelowFuture(s: seq<Inst>, popped: seq<Inst>, xs: seq<Inst>, k: nat, minT: nat, i: nat, j: nat)
    requires Sorted(s) && k <= j < |xs| && multiset(s) + multiset(popped) == multiset(xs[..k])
    requires DisorderWithin(xs, minT) && i + minT < |s|
    ensures s[i].sn <= xs[j].sn
  {
    var sn := xs[j].sn;
    if sn < s[i].sn {
      LargerTail(s, i, sn);
      LargerConcat(popped, s, sn);
      assert multiset(popped + s) == multiset(xs[..k]);
      LargerPermuted(popped + s, xs[..k], sn);
      LargerPrefix(xs, k, j, sn);
    }
  }

  lemma BelowPermuted(a: seq<Inst>, b: seq<Inst>, c: seq<Inst>)
    requires AllBelow(a, b) && multiset(b) == multiset(c)
    ensures AllBelow(a, c)
  {
    forall i, j | 0 <= i < |a| && 0 <= j < |c|
      ensures a[i].sn <= c[j].sn
    {
      assert c[j] in multiset(b);
    }
  }

  lemma SplitKeeps(p: seq<Inst>, s: seq<Inst>, m: nat)
    requires m <= |s|
    ensures multiset(s[m..]) + multiset(p + s[..m]) == multiset(s) + multiset(p)
  {
    assert s == s[..m] + s[m..];
    assert multiset(s) == multiset(s[..m]) + multiset(s[m..]);
    assert multiset(p + s[..m]) == multiset(p) + multiset(s[..m]);
  }

  lemma FlushKeeps(q: Queue, lower: nat)
    ensures multiset(Flush(q, lower).waiting) + multiset(Flush(q, lower).popped) ==
            multiset(q.waiting) + multiset(q.popped)
  {
    SplitKeeps(q.popped, SortBySn(q.waiting), Excess(|q.waiting|, lower));
  }

  lemma FlushSorted(q: Queue, lower: nat)
    requires Sorted(q.popped) && AllBelow(q.popped, q.waiting)
    ensures Sorted(Flush(q, lower).popped) && AllBelow(Flush(q, lower).popped, Flush(q, lower).waiting)
  {
    BelowPermuted(q.popped, q.waiting, SortBySn(q.waiting));
  }

  lemma BelowConcat(a: seq<Inst>, b: seq<Inst>, c: seq<Inst>)
    requires AllBelow(a, c) && AllBelow(b, c)
    ensures AllBelow(a + b, c)
  {
  }

  lemma LowestBelow(s: seq<Inst>, popped: seq<Inst>, xs: seq<Inst>, k: nat, minT: nat, m: nat)
    requires Sorted(s) && k <= |xs| && multiset(s) + multiset(popped) == multiset(xs[..k])
    requires DisorderWithin(xs, minT) && m <= |s| && (m == 0 || m + minT <= |s| || k == |xs|)
    ensures AllBelow(s[..m], xs[k..])
  {
    var low, future := s[..m], xs[k..];
    forall i, j | 0 <= i < |low| && 0 <= j < |future|
      ensures low[i].sn <= future[j].sn
    {
      LowestBelowFuture(s, popped, xs, k, minT, i, k + j);
    }
  }

  lemma FlushFuture(q: Queue, xs: seq<Inst>, k: nat, minT: nat, lower: nat)
    requires InOrder(q, xs, k) && DisorderWithin(xs, minT) && (minT <= lower || k == |xs|)
    ensures AllBelow(Flush(q, lower).popped, xs[k..])
  {
    var m, s := Excess(|q.waiting|, lower), SortBySn(q.waiting);
    LowestBelow(s, q.popped, xs, k, minT, m);
    BelowConcat(q.popped, s[..m], xs[k..]);
  }

  lemma FlushInOrder(q: Queue, xs: seq<Inst>, k: nat, minT: nat, lower: nat)
    requires InOrder(q, xs, k) && DisorderWithin(xs, minT) && (minT <= lower || k == |xs|)
    ensures InOrder(Flush(q, lower), xs, k)
  {
    FlushKeeps(q, lower);
    FlushSorted(q, lower);
    FlushFuture(q, xs, k, minT, lower);
  }

  lemma ArriveInOrder(q: Queue, xs: seq<Inst>, k: nat)
    requires InOrder(q, xs, k) && k < |xs|
    ensures InOrder(q.(waiting := q.waiting + [xs[k]]), xs, k + 1)
  {
    var future := xs[k..];
    assert xs[..k + 1] == xs[..k] + [xs[k]] && xs[k] == future[0] && xs[k + 1..] == future[1..];
  }

  lemma PushInOrder(q: Queue, xs: seq<Inst>, k: nat, minT: nat, maxT: nat)
    requires InOrder(q, xs, k) && k < |xs| && DisorderWithin(xs, minT)
    ensures InOrder(Push(q, xs[k], minT, maxT), xs, k + 1)
  {
    ArriveInOrder(q, xs, k);
    var q' := q.(waiting := q.waiting + [xs[k]]);
    if maxT < |q'.waiting| {
      FlushInOrder(q', xs, k + 1, minT, minT);
    }
  }

  lemma {:induction false} FilteredIs(f: Filter, s: seq<Inst>, x: Inst)
    ensures multiset(Filtered(f, s))[x] == if Passes(f, x) then multiset(s)[x] else 0
  {
    if s != [] {
      assert s == s[..|s| - 1] + [s[|s| - 1]];
      FilteredIs(f, s[..|s| - 1], x);
    }
  }

  /** Inside the window of sequence numbers and fetch ticks that was asked for, and retired if that was. */
  ghost predicate Wanted(f: Filter, x: Inst) {
    && (f.snStart <= 0 || f.snStart <= x.sn) && (f.snStop <= 0 || x.sn <= f.snStop)
    && (f.tickStart <= 0 || f.tickStart <= x.fetch) && (f.tickStop <= 0 || x.fetch <= f.tickStop)
    && (f.onlyCommitted ==> 0 < x.retire)
  }

  /** Nothing of `xs` is lost or doubled. */
  ghost predicate Accounts(q: Queue, xs: seq<Inst>) {
    multiset(q.waiting) + multiset(q.popped) == multiset(xs)
  }

  lemma PushAccounts(q: Queue, xs: seq<Inst>, k: nat, minT: nat, maxT: nat)
    requires k < |xs| && Accounts(q, xs[..k])
    ensures Accounts(Push(q, xs[k], minT, maxT), xs[..k + 1])
  {
    FlushKeeps(q.(waiting := q.waiting + [xs[k]]), minT);
    assert xs[..k + 1] == xs[..k] + [xs[k]];
  }

  lemma PushAllAccounts(xs: seq<Inst>, minT: nat, maxT: nat) returns (q: Queue)
    ensures q == PushAll(xs, minT, maxT) && Accounts(q, xs)
  {
    q := Queue([], []);
    for k := 0 to |xs|
      invariant q == PushAll(xs[..k], minT, maxT) && Accounts(q, xs[..k])
    {
      assert xs[..k + 1][..k] == xs[..k];
      PushAccounts(q, xs, k, minT, maxT);
      q := Push(q, xs[k], minT, maxT);
    }
    assert xs[..|xs|] == xs;
  }

  /** For any trace the output is the instructions that were asked for, each as often as it arrived. */
  lemma OutputIs(xs: seq<Inst>, minT: nat, maxT: nat, f: Filter)
    ensures var out := Filtered(f, Flush(PushAll(xs, minT, maxT), 0).popped);
            forall x :: multiset(out)[x] == if Wanted(f, x) then multiset(xs)[x] else 0
  {
    var q := PushAllAccounts(xs, minT, maxT);
    var q' := Flush(q, 0);
    FlushKeeps(q, 0);
    assert q'.waiting == [];
    forall x
      ensures multiset(Filtered(f, q'.popped))[x] == if Wanted(f, x) then multiset(xs)[x] else 0
    {
      FilteredIs(f, q'.popped, x);
    }
  }

  lemma {:induction false} FilteredSorted(f: Filter, s: seq<Inst>)
    requires Sorted(s)
    ensures Sorted(Filtered(f, s)) && forall x :: x in Filtered(f, s) ==> x in s
  {
    if s != [] {
      var init := s[..|s| - 1];
      FilteredSorted(f, init);
      forall i | 0 <= i < |Filtered(f, init)|
        ensures Filtered(f, init)[i].sn <= s[|s| - 1].sn
      {
        assert Filtered(f, init)[i] in init;
      }
    }
  }

  lemma FilteredPermuted(f: Filter, a: seq<Inst>, b: seq<Inst>)
    requires multiset(a) == multiset(b)
    ensures multiset(Filtered(f, a)) == multiset(Filtered(f, b))
  {
    forall x
      ensures multiset(Filtered(f, a))[x] == multiset(Filtered(f, b))[x]
    {
      FilteredIs(f, a, x);
      FilteredIs(f, b, x);
    }
  }

  lemma AllInOrder(xs: seq<Inst>, minT: nat, maxT: nat) returns (q: Queue)
    requires DisorderWithin(xs, minT)
    ensures q == PushAll(xs, minT, maxT) && InOrder(q, xs, |xs|)
  {
    q := Queue([], []);
    for k := 0 to |xs|
      invariant q == PushAll(xs[..k], minT, maxT) && InOrder(q, xs, k)
    {
      assert xs[..k + 1][..k] == xs[..k];
      PushInOrder(q, xs, k, minT, maxT);
      q := Push(q, xs[k], minT, maxT);
    }
    assert xs[..|xs|] == xs;
  }

  /**
   If every instruction arrives after at most `minT` with larger sequence numbers, the output is in
   sequence order and is exactly the instructions that pass the filters, each as often as it arrived.
   */
  lemma OutputSorted(xs: seq<Inst>, minT: nat, maxT: nat, f: Filter)
    requires DisorderWithin(xs, minT)
    ensures var out := Filtered(f, Flush(PushAll(xs, minT, maxT), 0).popped);
            Sorted(out) && multiset(out) == multiset(Filtered(f, xs))
  {
    var q := AllInOrder(xs, minT, maxT);
    FlushInOrder(q, xs, |xs|, minT, 0);
    var q' := Flush(q, 0);
    assert q'.waiting == [] && xs[..|xs|] == xs;
    FilteredSorted(f, q'.popped);
    FilteredPermuted(f, q'.popped, xs);
  }

  // ---------------------------------------------------------------- the bound is the best possible

  function At(sn: nat): Inst {
    Inst(sn, 1, 0, 0, 0, 0, 0, 0, 0)
  }

  /** Instructions numbered 2, 4, ..., 2n. */
  function Evens(n: nat): (r: seq<Inst>)
    ensures |r| == n && forall i :: 0 <= i < n ==> r[i] == At(2 * i + 2)
  {
    if n == 0 then [] else Evens(n - 1) + [At(2 * n)]
  }

  lemma {:induction false} SortSorted(s: seq<Inst>)
    requires Sorted(s)
    ensures SortBySn(s) == s
  {
    if s != [] {
      var init, last := s[..|s| - 1], s[|s| - 1];
      SortSorted(init);
      assert Place(init, last.sn) == |init|;
      assert s == init + [last];
    }
  }

  lemma {:induction false} LargerAtMost(s: seq<Inst>, i: nat, sn: nat)
    requires i <= |s| && forall j :: 0 <= j < i ==> s[j].sn <= sn
    ensures Larger(s, sn) <= |s| - i
  {
    if i < |s| {
      LargerAtMost(s[..|s| - 1], i, sn);
    } else if 0 < |s| {
      LargerAtMost(s[..|s| - 1], i - 1, sn);
    }
  }

  lemma PushAllOne(xs: seq<Inst>, x: Inst, minT: nat, maxT: nat)
    ensures PushAll(xs + [x], minT, maxT) == Push(PushAll(xs, minT, maxT), x, minT, maxT)
  {
    assert (xs + [x])[..|xs|] == xs;
  }

  /** As long as they fit, arrivals just wait. */
  lemma {:induction false} PushWaits(xs: seq<Inst>, minT: nat, maxT: nat)
    requires |xs| <= maxT
    ensures PushAll(xs, minT, maxT) == Queue(xs, [])
  {
    if xs != [] {
      var init, x := xs[..|xs| - 1], xs[|xs| - 1];
      PushWaits(init, minT, maxT);
      assert init + [x] == xs;
      PushAllOne(init, x, minT, maxT);
    }
  }

  lemma FlushSortedQueue(s: seq<Inst>, lower: nat)
    requires Sorted(s)
    ensures Flush(Queue(s, []), lower) == Queue(s[Excess(|s|, lower)..], s[..Excess(|s|, lower)])
  {
    SortSorted(s);
    assert [] + s[..Excess(|s|, lower)] == s[..Excess(|s|, lower)];
  }

  /** One arrival more than fits, in order: the flush takes the lowest out. */
  lemma FlushAscending(xs: seq<Inst>, minT: nat, maxT: nat)
    requires Sorted(xs) && |xs| == maxT + 1
    ensures PushAll(xs, minT, maxT) == Queue(xs[Excess(|xs|, minT)..], xs[..Excess(|xs|, minT)])
  {
    var init, x := xs[..maxT], xs[maxT];
    assert init + [x] == xs;
    PushWaits(init, minT, maxT);
    PushAllOne(init, x, minT, maxT);
    FlushSortedQueue(xs, minT);
  }

  lemma StragglerDisorder(es: seq<Inst>, k: nat, x: Inst, minT: nat)
    requires Sorted(es) && 0 < k && |es| == k + minT && forall j :: 0 <= j < k - 1 ==> es[j].sn <= x.sn
    ensures DisorderWithin(es + [x], minT + 1)
  {
    var xs := es + [x];
    forall i | 0 <= i < |xs|
      ensures Larger(xs[..i], xs[i].sn) <= minT + 1
    {
      if i < |es| {
        assert xs[..i] == es[..i] && xs[i] == es[i];
        LargerAtMost(es[..i], i, es[i].sn);
      } else {
        assert xs[..i] == es;
        LargerAtMost(es, k - 1, x.sn);
      }
    }
  }

  lemma MisplacedUnsorted(p: seq<Inst>, e: seq<Inst>, x: Inst)
    requires e != [] && e <= p && x in p && x !in e && x.sn < e[|e| - 1].sn
    ensures !Sorted(p)
  {
    var j :| 0 <= j < |p| && p[j] == x;
    assert forall i :: 0 <= i < |e| ==> p[i] == e[i];
    assert |e| <= j;
  }

  lemma FlushEmpties(q: Queue)
    ensures q.popped <= Flush(q, 0).popped && multiset(Flush(q, 0).popped) == multiset(q.waiting) + multiset(q.popped)
  {
    FlushKeeps(q, 0);
    assert Flush(q, 0).waiting == [];
  }

  /** Whatever the thresholds, a pushed instruction ends up behind what was already taken out. */
  lemma PushedBehind(q: Queue, x: Inst, minT: nat, maxT: nat)
    ensures var p := Flush(Push(q, x, minT, maxT), 0).popped; q.popped <= p && x in p
  {
    var q1, q2 := q.(waiting := q.waiting + [x]), Push(q, x, minT, maxT);
    FlushKeeps(q1, minT);
    FlushEmpties(q2);
    assert x in multiset(q1.waiting);
    assert x in multiset(q2.waiting) + multiset(q2.popped);
    assert x in multiset(Flush(q2, 0).popped);
  }

  lemma EvensFacts(n: nat, k: nat)
    requires 0 < k <= n
    ensures Sorted(Evens(n)) && Evens(n)[k - 1].sn == 2 * k && At(2 * k - 1) !in Evens(n)[..k]
    ensures forall j :: 0 <= j < k - 1 ==> Evens(n)[j].sn <= 2 * k - 1
  {
  }

  lemma PushedUnsorted(xs: seq<Inst>, p: seq<Inst>, x: Inst, minT: nat, maxT: nat)
    requires PushAll(xs, minT, maxT).popped == p && p != [] && x !in p && x.sn < p[|p| - 1].sn
    ensures !Sorted(Flush(PushAll(xs + [x], minT, maxT), 0).popped)
  {
    var q := PushAll(xs, minT, maxT);
    PushAllOne(xs, x, minT, maxT);
    PushedBehind(q, x, minT, maxT);
    MisplacedUnsorted(Flush(Push(q, x, minT, maxT), 0).popped, p, x);
  }

  /** For every pair of thresholds some trace with disorder just one above `minT` comes out unsorted. */
  lemma BoundIsTight(minT: nat, maxT: nat) returns (xs: seq<Inst>)
    requires minT <= maxT
    ensures DisorderWithin(xs, minT + 1) && !Sorted(Flush(PushAll(xs, minT, maxT), 0).popped)
  {
    var es, k := Evens(maxT + 1), maxT + 1 - minT;
    EvensFacts(maxT + 1, k);
    xs := es + [At(2 * k - 1)];
    StragglerDisorder(es, k, At(2 * k - 1), minT);
    FlushAscending(es, minT, maxT);
    PushedUnsorted(es, es[..k], At(2 * k - 1), minT, maxT);
  }
}
