/**
 In which order the checkpoint upgrader runs its scripts, and when it runs all of them. The worklist
 of custom_gem5/util/cpt_upgrader.py works in rounds: each round runs, in any order, the scripts that
 were ready when it began.
 */
module UpgradeOrder {
  import opened Basics
  import opened CptUpgrader
  import Graphs

  // ---------------------------------------------------------------- levels

  /** Script `y` has to wait for the upgrader of `d`, which is still to run. */
  predicate Needs(t: Table, start: set<Tag>, y: Tag, d: Tag) {
    Edge(t, y, d) && d in t.tagSet - start
  }

  /** A chain of `k` dependencies on upgraders that are still to run begins at `y`. */
  ghost predicate Heads(t: Table, start: set<Tag>, y: Tag, k: nat)
    decreases k
  {
    y in ToApply(t, start) && (k == 0 || exists d :: Needs(t, start, y, d) && Heads(t, start, d, k - 1))
  }

  /** The longest chain that begins at `y` has `k` dependencies. */
  ghost predicate IsLevel(t: Table, start: set<Tag>, y: Tag, k: nat) {
    Heads(t, start, y, k) && !Heads(t, start, y, k + 1)
  }

  lemma {:induction false} HeadsLess(t: Table, start: set<Tag>, y: Tag, k: nat, j: nat)
    requires Heads(t, start, y, k) && j <= k
    ensures Heads(t, start, y, j)
    decreases k
  {
    if 0 < j {
      var d :| Needs(t, start, y, d) && Heads(t, start, d, k - 1);
      HeadsLess(t, start, d, k - 1, j - 1);
    }
  }

  /** A chain is a path of the dependency graph through scripts still to run. */
  lemma {:induction false} HeadsPath(t: Table, start: set<Tag>, y: Tag, k: nat) returns (w: seq<Tag>)
    requires Heads(t, start, y, k)
    ensures |w| == k + 1 && w[0] == y && Graphs.IsPath(Edges(t), w) && Graphs.AllIn(w, ToApply(t, start))
    ensures forall i :: 0 < i <= k ==> w[i] in t.tagSet - start
    decreases k
  {
    w := [y];
    if 0 < k {
      var d :| Needs(t, start, y, d) && Heads(t, start, d, k - 1);
      var rest := HeadsPath(t, start, d, k - 1);
      w := [y] + rest;
    }
  }

  lemma {:induction false} PathHeads(t: Table, start: set<Tag>, w: seq<Tag>)
    requires 0 < |w| && Graphs.IsPath(Edges(t), w) && w[0] in ToApply(t, start)
    requires forall i :: 0 < i < |w| ==> w[i] in t.tagSet - start
    ensures Heads(t, start, w[0], |w| - 1)
  {
    if 1 < |w| {
      PathHeads(t, start, w[1..]);
      assert Needs(t, start, w[0], w[1..][0]);
    }
  }

  /** Without a cycle among the upgraders still to run every script has a level, below their number. */
  lemma HasLevel(t: Table, start: set<Tag>, y: Tag) returns (k: nat)
    requires !HasCycle(t, t.tagSet - start) && y in ToApply(t, start)
    ensures IsLevel(t, start, y, k) && k <= |t.tagSet - start|
  {
    k := 0;
    while Heads(t, start, y, k + 1)
      invariant Heads(t, start, y, k) && k <= |t.tagSet - start|
      decreases |t.tagSet - start| - k
    {
      ShortChains(t, start, y, k + 1);
      k := k + 1;
    }
  }

  lemma ShortChains(t: Table, start: set<Tag>, y: Tag, k: nat)
    requires !HasCycle(t, t.tagSet - start) && Heads(t, start, y, k)
    ensures k <= |t.tagSet - start|
  {
    var w := HeadsPath(t, start, y, k);
    if |t.tagSet - start| < k {
      var v := w[1..];
      assert Graphs.AllIn(v, t.tagSet - start);
      var i, j := Graphs.Pigeonhole(v, t.tagSet - start);
      Graphs.SubPath(Edges(t), v, t.tagSet - start, i, j);
    }
  }

  // ---------------------------------------------------------------- when the worklist empties

  /** A script whose chain is longer than the rounds so far is still pending. */
  lemma {:induction false} ChainWaits(t: Table, start: set<Tag>, y: Tag, k: nat)
    requires Proper(t) && Heads(t, start, y, k)
    ensures y in Rounds(t, start, k).pending
    decreases k
  {
    if 0 < k {
      HeadsLess(t, start, y, k, k - 1);
      ChainWaits(t, start, y, k - 1);
      var d :| Needs(t, start, y, d) && Heads(t, start, d, k - 1);
      ChainWaits(t, start, d, k - 1);
      TagsAt(t, start, k - 1, d);
    }
  }

  lemma {:induction false} PendingShrinks(t: Table, start: set<Tag>, k: nat, j: nat)
    requires t.tagSet + t.untagSet <= t.depends.Keys && k <= j
    ensures Rounds(t, start, j).pending <= Rounds(t, start, k).pending
    decreases j
  {
    if k < j {
      PendingShrinks(t, start, k, j - 1);
    }
  }

  /** A script that depends on a tag to be removed which is gone already never runs. */
  lemma GoneBlocks(t: Table, start: set<Tag>, k: nat, j: nat, y: Tag, x: Tag)
    requires Proper(t) && Edge(t, y, x) && x in t.untagSet && k <= j
    requires y in Rounds(t, start, k).pending && x !in Rounds(t, start, k).tags
    ensures y in Rounds(t, start, j).pending
  {
    for i := k to j
      invariant y in Rounds(t, start, i).pending
    {
      TagsAt(t, start, k, x);
      TagsAt(t, start, i, x);
      PendingShrinks(t, start, k, i);
    }
  }

  /**
   A completing worklist takes the tags to remove away only after, or in the same round as, the
   scripts that depend on them.
   */
  lemma NotGone(t: Table, start: set<Tag>, k: nat, y: Tag, x: Tag)
    requires Proper(t) && Completes(t, start) && Edge(t, y, x) && x in t.untagSet && y in Rounds(t, start, k).pending
    ensures x in Rounds(t, start, k).tags
  {
    var n: nat :| Rounds(t, start, n).pending == {};
    if x !in Rounds(t, start, k).tags {
      if n < k {
        EmptyStays(t, start, n, k);
      } else {
        GoneBlocks(t, start, k, n, y, x);
      }
    }
  }

  /** When a script's chain runs out, the tags to remove that it depends on are still there. */
  ghost predicate Steady(t: Table, start: set<Tag>)
    requires Proper(t)
  {
    forall k: nat, y, x ::
      y in Rounds(t, start, k).pending && Heads(t, start, y, k) && Edge(t, y, x) && x in t.untagSet ==>
          x in Rounds(t, start, k).tags
  }

  lemma ReadyOnTime(t: Table, start: set<Tag>, k: nat, y: Tag)
    requires Proper(t) && y in Rounds(t, start, k).pending && !Heads(t, start, y, k + 1)
    requires forall d :: d in Rounds(t, start, k).pending ==> Heads(t, start, d, k)
    requires forall x :: Edge(t, y, x) && x in t.untagSet ==> x in Rounds(t, start, k).tags
    ensures y in RoundSet(t, start, k)
  {
    PendingIn(t, start, k);
    forall d | d in t.depends[y]
      ensures d in Rounds(t, start, k).tags
    {
      assert Edge(t, y, d);
      assert d in t.tagSet - start && Heads(t, start, d, k) ==> Needs(t, start, y, d);
      TagsAt(t, start, k, d);
    }
  }

  /** Every script runs in the round of its level, and in no other. */
  lemma {:induction false} OnTime(t: Table, start: set<Tag>, k: nat, y: Tag)
    requires Proper(t) && Steady(t, start)
    ensures y in Rounds(t, start, k).pending <==> Heads(t, start, y, k)
    decreases k
  {
    if Heads(t, start, y, k) {
      ChainWaits(t, start, y, k);
    }
    if 0 < k {
      var j: nat := k - 1;
      var pending := Rounds(t, start, j).pending;
      forall d | d in pending
        ensures Heads(t, start, d, j)
      {
        OnTime(t, start, j, d);
      }
      if y in pending && !Heads(t, start, y, k) {
        ReadyOnTime(t, start, j, y);
      }
    }
  }

  /** `x` heads a chain at least as long as every chain that `y` heads. */
  ghost predicate NoDeeper(t: Table, start: set<Tag>, y: Tag, x: Tag) {
    forall k: nat :: Heads(t, start, y, k) ==> Heads(t, start, x, k)
  }

  /** What the dependencies have to look like for the worklist to empty. */
  ghost predicate Orderly(t: Table, start: set<Tag>) {
    && !HasCycle(t, t.tagSet - start)
    && forall y, x :: y in ToApply(t, start) && Edge(t, y, x) && x in t.untagSet ==>
         x in start && NoDeeper(t, start, y, x)
  }

  lemma CompletingIsSteady(t: Table, start: set<Tag>)
    requires Proper(t) && Completes(t, start)
    ensures Steady(t, start)
  {
    forall k: nat, y, x |
      y in Rounds(t, start, k).pending && Heads(t, start, y, k) && Edge(t, y, x) && x in t.untagSet
      ensures x in Rounds(t, start, k).tags
    {
      NotGone(t, start, k, y, x);
    }
  }

  lemma OrderlyIsSteady(t: Table, start: set<Tag>)
    requires Proper(t) && Orderly(t, start)
    ensures Steady(t, start)
  {
    forall k: nat, y, x |
      y in Rounds(t, start, k).pending && Heads(t, start, y, k) && Edge(t, y, x) && x in t.untagSet
      ensures x in Rounds(t, start, k).tags
    {
      PendingIn(t, start, k);
      assert Heads(t, start, x, k);
      ChainWaits(t, start, x, k);
      TagsAt(t, start, k, x);
    }
  }

  lemma OrderlyCompletes(t: Table, start: set<Tag>)
    requires Proper(t) && Orderly(t, start)
    ensures Completes(t, start)
  {
    OrderlyIsSteady(t, start);
    var n := |t.tagSet - start| + 1;
    forall y
      ensures y !in Rounds(t, start, n).pending
    {
      OnTime(t, start, n, y);
      if Heads(t, start, y, n) {
        ShortChains(t, start, y, n);
      }
    }
  }

  lemma {:induction false} BlockedHeads(t: Table, start: set<Tag>, s: set<Tag>, y: Tag, k: nat)
    requires Blocked(t, s) && s <= t.tagSet - start && y in s
    ensures Heads(t, start, y, k)
    decreases k
  {
    if 0 < k {
      assert WaitsOn(t, y, s);
      var d :| d in s && Edge(t, y, d);
      BlockedHeads(t, start, s, d, k - 1);
      assert Needs(t, start, y, d);
    }
  }

  lemma CompletingHasNoCycle(t: Table, start: set<Tag>)
    requires Proper(t) && Completes(t, start)
    ensures !HasCycle(t, t.tagSet - start)
  {
    var n: nat :| Rounds(t, start, n).pending == {};
    if HasCycle(t, t.tagSet - start) {
      var s := CycleBlocked(t, t.tagSet - start);
      var y :| y in s;
      BlockedHeads(t, start, s, y, n);
      ChainWaits(t, start, y, n);
    }
  }

  lemma CompletingIsOrderly(t: Table, start: set<Tag>)
    requires Proper(t) && Completes(t, start)
    ensures Orderly(t, start)
  {
    CompletingHasNoCycle(t, start);
    CompletingIsSteady(t, start);
    forall y, x | y in ToApply(t, start) && Edge(t, y, x) && x in t.untagSet
      ensures x in start && NoDeeper(t, start, y, x)
    {
      NotGone(t, start, 0, y, x);
      forall k: nat | Heads(t, start, y, k)
        ensures Heads(t, start, x, k)
      {
        ChainWaits(t, start, y, k);
        NotGone(t, start, k, y, x);
        TagsAt(t, start, k, x);
        OnTime(t, start, k, x);
      }
    }
  }

  /**
   With downgraders: the worklist runs everything exactly when the upgraders still to run do not
   depend on each other in a cycle, and every tag to remove that a script depends on is there and is
   not removed in an earlier round than that of the script.
   */
  lemma CompletesIff(t: Table, start: set<Tag>)
    requires Proper(t)
    ensures Completes(t, start) <==> Orderly(t, start)
  {
    if Completes(t, start) {
      CompletingIsOrderly(t, start);
    }
    if Orderly(t, start) {
      OrderlyCompletes(t, start);
    }
  }

  /** On an upgrade-only table the condition is the one on cycles alone. */
  lemma UpgradesComplete(t: Table, start: set<Tag>)
    requires UpgradeOnly(t)
    ensures Completes(t, start) <==> !HasCycle(t, t.tagSet - start)
  {
    CompletesIff(t, start);
  }

  // ---------------------------------------------------------------- the order of a run

  /** Every run of the worklist runs `x` before `y`. */
  ghost predicate SureBefore(t: Table, start: set<Tag>, x: Tag, y: Tag)
    requires Proper(t)
  {
    forall applied: seq<Tag>, p: nat, q: nat ::
      IsRun(t, start, applied) && p < |applied| && q < |applied| && applied[p] == x && applied[q] == y ==> p < q
  }

  lemma {:induction false} RunListing(t: Table, start: set<Tag>, k: nat, applied: seq<Tag>)
    requires Proper(t) && RunsTo(t, start, k, applied)
    ensures Lists(applied, ToApply(t, start) - Rounds(t, start, k).pending)
    decreases k
  {
    var all := ToApply(t, start);
    if 0 < k {
      var j: nat := k - 1;
      var n :| 0 <= n <= |applied| && RunsTo(t, start, j, applied[..n]) && Lists(applied[n..], RoundSet(t, start, j));
      RunListing(t, start, j, applied[..n]);
      PendingIn(t, start, j);
      var before, r := Rounds(t, start, j).pending, RoundSet(t, start, j);
      ListsConcat(applied[..n], applied[n..], all - before, r);
      assert applied == applied[..n] + applied[n..];
      assert all - (before - r) == (all - before) + r;
    } else {
      assert all - all == {};
    }
  }

  /** The first `k` rounds of a longer run. */
  lemma {:induction false} RunPrefix(t: Table, start: set<Tag>, k: nat, j: nat, applied: seq<Tag>) returns (n: nat)
    requires Proper(t) && RunsTo(t, start, j, applied) && k <= j
    ensures n <= |applied| && RunsTo(t, start, k, applied[..n])
    decreases j
  {
    if k == j {
      n := |applied|;
      assert applied[..n] == applied;
    } else {
      var m :| 0 <= m <= |applied| && RunsTo(t, start, j - 1, applied[..m]) &&
          Lists(applied[m..], RoundSet(t, start, j - 1));
      n := RunPrefix(t, start, k, j - 1, applied[..m]);
      assert applied[..m][..n] == applied[..n];
    }
  }

  lemma InFront(s: seq<Tag>, n: nat, p: nat, q: nat)
    requires Distinct(s) && n <= |s| && p < |s| && q < |s| && s[p] in s[..n] && s[q] !in s[..n]
    ensures p < q
  {
    var i :| 0 <= i < n && s[i] == s[p];
    assert i == p;
    assert forall j :: 0 <= j < n ==> s[j] in s[..n];
  }

  /** A script of an earlier round is in front of a script of a later one. */
  lemma EarlierRound(t: Table, start: set<Tag>, k: nat, applied: seq<Tag>, p: nat, q: nat)
    requires Proper(t) && IsRun(t, start, applied) && p < |applied| && q < |applied|
    requires applied[p] !in Rounds(t, start, k).pending && applied[q] in Rounds(t, start, k).pending
    ensures p < q
  {
    var j: nat :| RunsTo(t, start, j, applied) && RoundSet(t, start, j) == {};
    RunListing(t, start, j, applied);
    assert applied[q] in applied && applied[p] in applied;
    if j < k {
      PendingShrinks(t, start, j, k);
    } else {
      var n := RunPrefix(t, start, k, j, applied);
      RunListing(t, start, k, applied[..n]);
      InFront(applied, n, p, q);
    }
  }

  lemma {:induction false} ListFirst(s: set<Tag>, y: Tag) returns (l: seq<Tag>)
    ensures Lists(l, s) && (y in s ==> 0 < |l| && l[0] == y)
    decreases |s|
  {
    if s == {} {
      l := [];
    } else {
      var x := if y in s then y else var z :| z in s; z;
      var rest := ListFirst(s - {x}, x);
      l := [x] + rest;
    }
  }

  lemma RunOn(t: Table, start: set<Tag>, k: nat, applied: seq<Tag>, j: nat) returns (all: seq<Tag>)
    requires Proper(t) && RunsTo(t, start, k, applied) && k <= j
    ensures RunsTo(t, start, j, all) && applied <= all
  {
    all := applied;
    for i := k to j
      invariant RunsTo(t, start, i, all) && applied <= all
    {
      var r := RoundSet(t, start, i);
      var order := ListFirst(r, Tag([]));
      RunsOn(t, start, i, all, order);
      all := all + order;
    }
  }

  /** In a completing run every script is run. */
  lemma RunsAll(t: Table, start: set<Tag>, applied: seq<Tag>)
    requires Proper(t) && Completes(t, start) && IsRun(t, start, applied)
    ensures Lists(applied, ToApply(t, start))
  {
    var j: nat :| RunsTo(t, start, j, applied) && RoundSet(t, start, j) == {};
    RunListing(t, start, j, applied);
    StuckCompletes(t, start, j);
    assert ToApply(t, start) - {} == ToApply(t, start);
  }

  lemma RunToEnd(t: Table, start: set<Tag>, k: nat, applied: seq<Tag>) returns (all: seq<Tag>)
    requires Proper(t) && Completes(t, start) && RunsTo(t, start, k, applied)
    ensures IsRun(t, start, all) && applied <= all
  {
    var n: nat :| Rounds(t, start, n).pending == {};
    var j := if n < k then k else n;
    EmptyStays(t, start, n, j);
    all := RunOn(t, start, k, applied, j);
    assert RoundSet(t, start, j) == {};
  }

  /** A script runs in the round of its level. */
  lemma InItsRound(t: Table, start: set<Tag>, y: Tag, n: nat)
    requires Proper(t) && Completes(t, start) && IsLevel(t, start, y, n)
    ensures y in RoundSet(t, start, n)
  {
    CompletingIsSteady(t, start);
    OnTime(t, start, n, y);
    OnTime(t, start, n + 1, y);
  }

  lemma RoundBegins(t: Table, start: set<Tag>, y: Tag, n: nat) returns (before: seq<Tag>, round: seq<Tag>)
    requires Proper(t) && y in RoundSet(t, start, n)
    ensures RunsTo(t, start, n, before) && RunsTo(t, start, n + 1, before + round) && 0 < |round| && round[0] == y
  {
    before := RunOn(t, start, 0, [], n);
    round := ListFirst(RoundSet(t, start, n), y);
    RunsOn(t, start, n, before, round);
  }

  lemma RunThrough(t: Table, start: set<Tag>, y: Tag, n: nat) returns (applied: seq<Tag>, q: nat)
    requires Proper(t) && Completes(t, start) && y in RoundSet(t, start, n)
    ensures IsRun(t, start, applied) && q < |applied| && applied[q] == y && RunsTo(t, start, n, applied[..q])
  {
    var before, round := RoundBegins(t, start, y, n);
    applied := RunToEnd(t, start, n + 1, before + round);
    PrefixAt(before, round, applied);
    q := |before|;
  }

  /** Some run takes `y` as the first script of its round. */
  lemma FirstOfRound(t: Table, start: set<Tag>, y: Tag, n: nat) returns (applied: seq<Tag>, q: nat)
    requires Proper(t) && Completes(t, start) && IsLevel(t, start, y, n)
    ensures IsRun(t, start, applied) && q < |applied| && applied[q] == y && RunsTo(t, start, n, applied[..q])
  {
    InItsRound(t, start, y, n);
    applied, q := RunThrough(t, start, y, n);
  }

  lemma PrefixAt(before: seq<Tag>, round: seq<Tag>, all: seq<Tag>)
    requires before + round <= all && 0 < |round|
    ensures |before| < |all| && all[..|before|] == before && all[|before|] == round[0]
  {
    assert all[|before|] == (before + round)[|before|];
  }

  lemma Separated(t: Table, start: set<Tag>, k: nat, x: Tag, y: Tag)
    requires Proper(t) && x !in Rounds(t, start, k).pending && y in Rounds(t, start, k).pending
    ensures SureBefore(t, start, x, y)
  {
    forall applied: seq<Tag>, p: nat, q: nat |
      IsRun(t, start, applied) && p < |applied| && q < |applied| && applied[p] == x && applied[q] == y
      ensures p < q
    {
      EarlierRound(t, start, k, applied, p, q);
    }
  }

  lemma LowerFirst(t: Table, start: set<Tag>, x: Tag, m: nat, y: Tag, n: nat)
    requires Proper(t) && Completes(t, start) && IsLevel(t, start, x, m) && IsLevel(t, start, y, n) && m < n
    ensures SureBefore(t, start, x, y)
  {
    CompletingIsSteady(t, start);
    HeadsLess(t, start, y, n, m + 1);
    OnTime(t, start, m + 1, x);
    OnTime(t, start, m + 1, y);
    Separated(t, start, m + 1, x, y);
  }

  lemma NotLowerNotFirst(t: Table, start: set<Tag>, x: Tag, m: nat, y: Tag, n: nat)
      returns (applied: seq<Tag>, p: nat, q: nat)
    requires Proper(t) && Completes(t, start) && IsLevel(t, start, x, m) && IsLevel(t, start, y, n) && n <= m
    ensures IsRun(t, start, applied) && q <= p < |applied| && applied[p] == x && applied[q] == y
  {
    applied, q := FirstOfRound(t, start, y, n);
    RunsAll(t, start, applied);
    RunListing(t, start, n, applied[..q]);
    HeadsLess(t, start, x, m, n);
    ChainWaits(t, start, x, n);
    assert x in applied && x !in applied[..q];
    p :| 0 <= p < |applied| && applied[p] == x;
    assert forall i :: 0 <= i < q ==> applied[i] in applied[..q];
  }

  /** A script is sure to run before another exactly when its longest chain of scripts to wait for is shorter. */
  lemma RunOrderIff(t: Table, start: set<Tag>, x: Tag, m: nat, y: Tag, n: nat)
    requires Proper(t) && Completes(t, start) && IsLevel(t, start, x, m) && IsLevel(t, start, y, n)
    ensures SureBefore(t, start, x, y) <==> m < n
  {
    if m < n {
      LowerFirst(t, start, x, m, y, n);
    } else {
      var applied, p, q := NotLowerNotFirst(t, start, x, m, y, n);
    }
  }

  // ---------------------------------------------------------------- legacy versions

  ghost predicate IsBefore(t: Table, i: int, d: Tag) {
    2 < i && i - 1 in t.legacy && d == t.legacy[i - 1]
  }

  /** Versions 2 to m are there, and each depends on the one before and on nothing else; other scripts are free. */
  ghost predicate LegacyChain(t: Table, m: int) {
    && (forall i :: 2 <= i <= m ==> i in t.legacy && t.legacy[i] in t.tagSet)
    && forall i, d :: 2 <= i <= m && i in t.legacy ==> (Edge(t, t.legacy[i], d) <==> IsBefore(t, i, d))
  }

  lemma {:induction false} TagsAre(ss: seq<Script>, upgrade: bool, a: Tag)
    ensures a in TagsOf(ss, upgrade) <==> exists k :: 0 <= k < |ss| && ss[k].upgrade == upgrade && ss[k].tag == a
  {
    if ss != [] {
      TagsAre(ss[..|ss| - 1], upgrade, a);
      assert forall k :: 0 <= k < |ss| - 1 ==> ss[..|ss| - 1][k] == ss[k];
    }
  }

  /** Scripts with different tags make a proper table. */
  lemma LoadedProper(ss: seq<Script>, t: Table)
    requires Loaded(ss, t) && Audited(t) && DistinctTags(ss)
    ensures Proper(t)
  {
    TablesAre(ss);
    forall a
      ensures a in TagsOf(ss, true) <==> a in ByTag(ss) && ss[ByTag(ss)[a]].upgrade
      ensures !(a in TagsOf(ss, true) && a in TagsOf(ss, false))
    {
      TagsAre(ss, true, a);
      TagsAre(ss, false, a);
      forall k | 0 <= k < |ss| && ss[k].tag == a
        ensures a in ByTag(ss) && ByTag(ss)[a] == k
      {
        ByTagOf(ss, k);
      }
    }
  }

  /**
   The scripts of versions 2 to m are upgraders, no script forwards a dependency to them, and
   version 2 has none of its own.
   */
  ghost predicate PlainLegacy(ss: seq<Script>, m: int) {
    TablesAre(ss);
    && VersionsUpTo(ss, m) && DistinctTags(ss)
    && (forall v :: 2 <= v <= m && v in ByVersion(ss) ==> ss[ByVersion(ss)[v]].upgrade)
    && (forall k, v :: 0 <= k < |ss| && 2 <= v <= m && v in ByVersion(ss) ==>
        ss[ByVersion(ss)[v]].tag !in ss[k].fwdDepends)
    && (2 in ByVersion(ss) ==> ss[ByVersion(ss)[2]].depends == [])
  }

  /** Loading chains the legacy versions, whatever other scripts there are. */
  lemma LoadedChain(ss: seq<Script>, t: Table, m: int)
    requires Loaded(ss, t) && PlainLegacy(ss, m)
    ensures LegacyChain(t, m)
  {
    forall i | 2 <= i <= m
      ensures i in t.legacy && t.legacy[i] in t.tagSet
    {
      LoadedVersion(ss, t, m, i);
    }
    forall i, d | 2 <= i <= m && i in t.legacy
      ensures Edge(t, t.legacy[i], d) <==> IsBefore(t, i, d)
    {
      LoadedVersion(ss, t, m, i);
      LoadedEdge(ss, t, m, i, d);
    }
  }

  lemma LoadedVersion(ss: seq<Script>, t: Table, m: int, i: int)
    requires Loaded(ss, t) && PlainLegacy(ss, m) && 2 <= i <= m
    ensures i in ByVersion(ss) && i in t.legacy && ByVersion(ss)[i] < |ss| && t.legacy[i] in t.tagSet
    ensures t.legacy[i] in ByTag(ss) && ByTag(ss)[t.legacy[i]] == ByVersion(ss)[i]
  {
    assert i in ByVersion(ss);
    VersionIs(ss, i);
    ByTagOf(ss, ByVersion(ss)[i]);
    TagsAre(ss, true, t.legacy[i]);
  }

  lemma LoadedEdge(ss: seq<Script>, t: Table, m: int, i: int, d: Tag)
    requires Loaded(ss, t) && PlainLegacy(ss, m) && 2 <= i <= m && i in t.legacy
    ensures Edge(t, t.legacy[i], d) <==> IsBefore(t, i, d)
  {
    LoadedVersion(ss, t, m, i);
    var k := ByVersion(ss)[i];
    TablesAre(ss);
    VersionIs(ss, i);
    assert Edge(t, t.legacy[i], d) <==> DependsOn(ss, t.legacy[i], d);
    assert DependsOn(ss, t.legacy[i], d) <==> d in ChainedDeps(ss, k);
    if 2 < i {
      LoadedVersion(ss, t, m, i - 1);
      assert VersionsUpTo(ss, i);
      var k', prev := ChainedAt(ss, i);
    } else {
      assert !Linked(ss, k);
    }
  }

  /** How many versions in a row, ending with version `a`, the file lacks. */
  function Gap(t: Table, start: set<Tag>, a: int): nat
    decreases a
  {
    if a < 2 || a !in t.legacy || t.legacy[a] in start then 0 else 1 + Gap(t, start, a - 1)
  }

  /** Below the gap lies the highest version that the file has, or nothing. */
  lemma {:induction false} GapIs(t: Table, m: int, start: set<Tag>, a: int)
    requires LegacyChain(t, m) && 1 <= a <= m
    ensures var h := a - Gap(t, start, a);
            1 <= h && (h == 1 || t.legacy[h] in start) && forall i :: h < i <= a ==> t.legacy[i] !in start
    decreases a
  {
    if 2 <= a {
      GapIs(t, m, start, a - 1);
    }
  }

  lemma {:induction false} LegacyHeads(t: Table, m: int, start: set<Tag>, a: int, k: nat)
    requires Proper(t) && LegacyChain(t, m) && 2 <= a <= m
    ensures Heads(t, start, t.legacy[a], k) <==> k < Gap(t, start, a)
    decreases k
  {
    if 0 < k && t.legacy[a] !in start {
      if 2 < a {
        LegacyHeads(t, m, start, a - 1, k - 1);
        assert IsBefore(t, a, t.legacy[a - 1]);
        assert t.legacy[a - 1] !in start ==> Needs(t, start, t.legacy[a], t.legacy[a - 1]);
      }
      assert forall d :: Needs(t, start, t.legacy[a], d) ==> IsBefore(t, a, d);
    }
  }

  lemma LegacyLevel(t: Table, m: int, start: set<Tag>, a: int) returns (k: nat)
    requires Proper(t) && LegacyChain(t, m) && 2 <= a <= m && t.legacy[a] !in start
    ensures k + 1 == Gap(t, start, a) && IsLevel(t, start, t.legacy[a], k)
  {
    k := Gap(t, start, a) - 1;
    LegacyHeads(t, m, start, a, k);
    LegacyHeads(t, m, start, a, k + 1);
  }

  /**
   Version a is sure to run before version b exactly when fewer versions in a row are missing up to a
   than up to b.
   */
  lemma LegacyOrderIff(t: Table, m: int, start: set<Tag>, a: int, b: int)
    requires Proper(t) && Completes(t, start) && LegacyChain(t, m) && 2 <= a <= m && 2 <= b <= m
    requires t.legacy[a] !in start && t.legacy[b] !in start
    ensures SureBefore(t, start, t.legacy[a], t.legacy[b]) <==> Gap(t, start, a) < Gap(t, start, b)
  {
    var p := LegacyLevel(t, m, start, a);
    var q := LegacyLevel(t, m, start, b);
    RunOrderIff(t, start, t.legacy[a], p, t.legacy[b], q);
  }

  /** A missing version whose predecessor is there can run before every other missing version, older ones included. */
  lemma GapUnordered(t: Table, m: int, start: set<Tag>, a: int, b: int)
    requires Proper(t) && Completes(t, start) && LegacyChain(t, m) && 2 <= a < b <= m
    requires t.legacy[a] !in start && t.legacy[b] !in start && t.legacy[b - 1] in start
    ensures !SureBefore(t, start, t.legacy[a], t.legacy[b])
  {
    LegacyOrderIff(t, m, start, a, b);
    assert Gap(t, start, b) == 1 + Gap(t, start, b - 1);
    assert Gap(t, start, a) == 1 + Gap(t, start, a - 1);
  }

  // ---------------------------------------------------------------- downgraders

  /** The tag to remove that a script depends on was removed before the script ran, or was not there. */
  ghost predicate Promised(t: Table, start: set<Tag>, applied: seq<Tag>) {
    forall i, x :: 0 <= i < |applied| && Edge(t, applied[i], x) && x in t.untagSet ==> x !in start || x in applied[..i]
  }

  /** A script that depends on a tag to be removed which the file does not have never runs. */
  lemma AbsentAborts(t: Table, start: set<Tag>, y: Tag, x: Tag, k: nat)
    requires Proper(t) && y in ToApply(t, start) && Edge(t, y, x) && x in t.untagSet && x !in start
    ensures y in Rounds(t, start, k).pending && !Completes(t, start)
  {
    GoneBlocks(t, start, 0, k, y, x);
    if Completes(t, start) {
      NotGone(t, start, 0, y, x);
    }
  }

  /** The documented meaning of depending on a downgraded tag holds exactly when no script to run does so. */
  lemma PromiseIff(t: Table, start: set<Tag>)
    requires Proper(t) && Completes(t, start)
    ensures (forall applied :: IsRun(t, start, applied) ==> Promised(t, start, applied)) <==>
            forall y, x :: y in ToApply(t, start) && Edge(t, y, x) ==> x !in t.untagSet
  {
    forall applied | IsRun(t, start, applied)
      ensures (forall y, x :: y in ToApply(t, start) && Edge(t, y, x) ==> x !in t.untagSet) ==>
              Promised(t, start, applied)
    {
      RunsAll(t, start, applied);
    }
    if y, x :| y in ToApply(t, start) && Edge(t, y, x) && x in t.untagSet {
      var applied := Unpromised(t, start, y, x);
    }
  }

  lemma Unpromised(t: Table, start: set<Tag>, y: Tag, x: Tag) returns (applied: seq<Tag>)
    requires Proper(t) && Completes(t, start) && y in ToApply(t, start) && Edge(t, y, x) && x in t.untagSet
    ensures IsRun(t, start, applied) && !Promised(t, start, applied)
  {
    CompletingIsOrderly(t, start);
    var n := HasLevel(t, start, y);
    var q;
    applied, q := FirstOfRound(t, start, y, n);
    RunListing(t, start, n, applied[..q]);
    assert Heads(t, start, x, n);
    ChainWaits(t, start, x, n);
    assert x in start && x !in applied[..q] && Edge(t, applied[q], x);
  }

  /** A table on which a completing run breaks the documented meaning, and on which a file without the tag is stuck. */
  lemma PromiseBroken(x: Tag, y: Tag) returns (t: Table, applied: seq<Tag>)
    requires x != y
    ensures Proper(t) && t.untagSet == {x} && Edge(t, y, x)
    ensures Completes(t, {x}) && IsRun(t, {x}, applied) && !Promised(t, {x}, applied)
    ensures !Completes(t, {})
  {
    t := Table({y}, {x}, {y}, map[x := [], y := [x]], map[]);
    assert Proper(t) && Edge(t, y, x);
    assert RoundSet(t, {x}, 0) == {x, y};
    assert Rounds(t, {x}, 1).pending == {};
    applied := Unpromised(t, {x}, y, x);
    AbsentAborts(t, {}, y, x, 0);
  }
}
