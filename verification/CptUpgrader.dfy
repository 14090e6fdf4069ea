/**
 The checkpoint upgrader, after custom_gem5/util/cpt_upgrader.py: scripts are
 registered by tag, dependencies are resolved and audited, and a worklist applies
 the scripts whose tags a checkpoint lacks.
 */
module CptUpgrader {
  import opened Basics
  import Graphs

  datatype Tag = Tag(name: string)

  /** One upgrader script; `upgrade` says that it defines an upgrader rather than a downgrader. */
  datatype Script = Script(tag: Tag, depends: seq<Tag>, fwdDepends: seq<Tag>, upgrade: bool, legacyVersion: Option<int>)

  /** What the worklist reads from the loaded scripts. */
  datatype Table = Table(tagSet: set<Tag>, untagSet: set<Tag>, upgrades: set<Tag>, depends: map<Tag, seq<Tag>>,
      legacy: map<int, Tag>)

  /** The version information of a checkpoint file. */
  datatype Version = Legacy(version: int) | Tags(tags: set<Tag>) | Unversioned

  /** How processing a file ends; `applied` lists the scripts run, in order. */
  datatype Outcome =
    | Done(tags: set<Tag>, applied: seq<Tag>, changed: bool)
    | Aborted(pending: set<Tag>)
    | Fatal
    | MissingKey

  /** Every dependency names a known tag, as the audit in `load_all` checks. */
  ghost predicate Audited(t: Table) {
    && t.tagSet + t.untagSet == t.depends.Keys
    && t.upgrades <= t.depends.Keys
    && forall a, d :: a in t.depends && d in t.depends[a] ==> d in t.depends
  }

  ghost predicate UpgradeOnly(t: Table) {
    Audited(t) && t.untagSet == {} && t.upgrades == t.tagSet
  }

  /** A tag has either an upgrader or a downgrader, as when tags are not used twice. */
  ghost predicate Proper(t: Table) {
    Audited(t) && t.upgrades == t.tagSet && t.tagSet !! t.untagSet
  }

  predicate IsReady(t: Table, tag: Tag, tags: set<Tag>)
    requires tag in t.depends
  {
    forall d :: d in t.depends[tag] ==> d in tags
  }

  function Ready(t: Table, tags: set<Tag>, pending: set<Tag>): set<Tag>
    requires pending <= t.depends.Keys
  {
    set tag | tag in pending && IsReady(t, tag, tags)
  }

  /** The worklist on an upgrade-only table: the tags it ends with and the tags it leaves stuck. */
  function Drain(t: Table, tags: set<Tag>, pending: set<Tag>): (set<Tag>, set<Tag>)
    requires pending <= t.depends.Keys
    decreases |pending|
  {
    var r := Ready(t, tags, pending);
    if r == {} then (tags, pending) else
      RoundShrinks(t, tags, pending);
      Drain(t, tags + r, pending - r)
  }

  // ---------------------------------------------------------------- cycles

  predicate Edge(t: Table, a: Tag, b: Tag) {
    a in t.depends && b in t.depends[a]
  }

  function Edges(t: Table): (Tag, Tag) -> bool {
    (a, b) => Edge(t, a, b)
  }

  ghost predicate HasCycle(t: Table, among: set<Tag>) {
    Graphs.HasCycle(Edges(t), among)
  }

  ghost predicate WaitsOn(t: Table, a: Tag, s: set<Tag>) {
    exists d :: d in s && Edge(t, a, d)
  }

  /** Each member waits for another member. */
  ghost predicate Blocked(t: Table, s: set<Tag>) {
    forall a :: a in s ==> WaitsOn(t, a, s)
  }

  lemma WaitsEdges(t: Table, a: Tag, s: set<Tag>)
    ensures WaitsOn(t, a, s) <==> Graphs.WaitsOn(Edges(t), a, s)
  {
    if WaitsOn(t, a, s) {
      var d :| d in s && Edge(t, a, d);
      assert Edges(t)(a, d);
    }
  }

  lemma BlockedEdges(t: Table, s: set<Tag>)
    ensures Blocked(t, s) <==> Graphs.Blocked(Edges(t), s)
  {
    var edges := Edges(t);
    forall a
      ensures WaitsOn(t, a, s) <==> Graphs.WaitsOn(edges, a, s)
    {
      WaitsEdges(t, a, s);
    }
  }

  /** A non-empty set whose members all wait for each other holds a cycle. */
  lemma BlockedHasCycle(t: Table, s: set<Tag>)
    requires Blocked(t, s) && s != {}
    ensures HasCycle(t, s)
  {
    BlockedEdges(t, s);
    Graphs.BlockedHasCycle(Edges(t), s);
  }

  /** The members of a cycle wait for each other. */
  lemma CycleBlocked(t: Table, among: set<Tag>) returns (s: set<Tag>)
    requires HasCycle(t, among)
    ensures s != {} && s <= among && Blocked(t, s)
  {
    var c :| Graphs.IsCycle(Edges(t), c, among);
    s := Graphs.CycleBlocked(Edges(t), c, among);
    BlockedEdges(t, s);
  }

  /** With an audited table, a pending tag is not ready exactly when it waits for a pending tag. */
  lemma NotReadyWaits(t: Table, tags: set<Tag>, a: Tag)
    requires UpgradeOnly(t) && a in t.tagSet
    ensures !IsReady(t, a, tags) <==> WaitsOn(t, a, t.tagSet - tags)
  {
    if !IsReady(t, a, tags) {
      var d :| d in t.depends[a] && d !in tags;
      assert Edge(t, a, d) && d in t.tagSet - tags;
    }
  }

  lemma RoundShrinks(t: Table, tags: set<Tag>, pending: set<Tag>)
    requires pending <= t.depends.Keys && Ready(t, tags, pending) != {}
    ensures |pending - Ready(t, tags, pending)| < |pending|
  {
    var r := Ready(t, tags, pending);
    assert pending == r + (pending - r);
  }

  lemma NoneReady(t: Table, tags: set<Tag>)
    requires UpgradeOnly(t) && Ready(t, tags, t.tagSet - tags) == {}
    ensures Blocked(t, t.tagSet - tags)
  {
    forall a | a in t.tagSet - tags
      ensures WaitsOn(t, a, t.tagSet - tags)
    {
      NotReadyWaits(t, tags, a);
      assert a !in Ready(t, tags, t.tagSet - tags);
    }
  }

  lemma BlockedNotReady(t: Table, tags: set<Tag>, s: set<Tag>)
    requires UpgradeOnly(t) && s <= t.tagSet - tags && Blocked(t, s)
    ensures s !! Ready(t, tags, t.tagSet - tags)
  {
    forall a | a in s
      ensures a !in Ready(t, tags, t.tagSet - tags)
    {
      WaitsMore(t, a, s, t.tagSet - tags);
      NotReadyWaits(t, tags, a);
    }
  }

  lemma DrainStep(t: Table, tags: set<Tag>)
    requires t.tagSet <= t.depends.Keys && Ready(t, tags, t.tagSet - tags) != {}
    ensures var r := Ready(t, tags, t.tagSet - tags);
            && |t.tagSet - (tags + r)| < |t.tagSet - tags|
            && Drain(t, tags, t.tagSet - tags) == Drain(t, tags + r, t.tagSet - (tags + r))
  {
    var r := Ready(t, tags, t.tagSet - tags);
    RoundShrinks(t, tags, t.tagSet - tags);
    assert t.tagSet - (tags + r) == t.tagSet - tags - r;
  }

  ghost predicate IsLargestBlocked(t: Table, tags: set<Tag>, final: set<Tag>, stuck: set<Tag>, s: set<Tag>) {
    s <= stuck <= t.tagSet - tags && Blocked(t, stuck) && final == tags + (t.tagSet - stuck)
  }

  /** What is left stuck is exactly the largest set of pending tags that block each other; all the rest is applied. */
  lemma {:induction false} DrainStuck(t: Table, tags: set<Tag>, s: set<Tag>)
    requires UpgradeOnly(t) && s <= t.tagSet - tags && Blocked(t, s)
    ensures var (final, stuck) := Drain(t, tags, t.tagSet - tags);
            IsLargestBlocked(t, tags, final, stuck, s)
    decreases |t.tagSet - tags|
  {
    var r := Ready(t, tags, t.tagSet - tags);
    if r == {} {
      NoneReady(t, tags);
      assert tags + (t.tagSet - (t.tagSet - tags)) == tags;
    } else {
      DrainStep(t, tags);
      BlockedNotReady(t, tags, s);
      DrainStuck(t, tags + r, s);
      StuckWeaken(t, tags, r, s);
    }
  }

  lemma StuckWeaken(t: Table, tags: set<Tag>, r: set<Tag>, s: set<Tag>)
    requires t.tagSet <= t.depends.Keys && r <= t.tagSet
    ensures var (final, stuck) := Drain(t, tags + r, t.tagSet - (tags + r));
            IsLargestBlocked(t, tags + r, final, stuck, s) ==> IsLargestBlocked(t, tags, final, stuck, s)
  {
    var (final, stuck) := Drain(t, tags + r, t.tagSet - (tags + r));
    if IsLargestBlocked(t, tags + r, final, stuck, s) {
      assert tags + r + (t.tagSet - stuck) == tags + (t.tagSet - stuck);
    }
  }

  lemma WaitsMore(t: Table, a: Tag, s: set<Tag>, u: set<Tag>)
    requires WaitsOn(t, a, s) && s <= u
    ensures WaitsOn(t, a, u)
  {
    var d :| d in s && Edge(t, a, d);
    assert d in u;
  }

  /** The worklist gives up exactly when the pending tags depend on each other in a cycle. */
  lemma StuckIffCycle(t: Table, tags: set<Tag>)
    requires UpgradeOnly(t)
    ensures Drain(t, tags, t.tagSet - tags).1 != {} <==> HasCycle(t, t.tagSet - tags)
    ensures Drain(t, tags, t.tagSet - tags).1 == {} ==> Drain(t, tags, t.tagSet - tags).0 == tags + t.tagSet
  {
    var pending := t.tagSet - tags;
    DrainStuck(t, tags, {});
    var stuck := Drain(t, tags, pending).1;
    if stuck != {} {
      BlockedHasCycle(t, stuck);
      Graphs.CycleLarger(Edges(t), stuck, pending);
    }
    if HasCycle(t, pending) {
      var s := CycleBlocked(t, pending);
      DrainStuck(t, tags, s);
    }
  }

  // ---------------------------------------------------------------- processing a file

  /** The tags a file starts from: legacy version n stands for the tags of versions 2 to n. */
  function StartTags(t: Table, v: Version): Option<set<Tag>> {
    match v
    case Unversioned => None
    case Tags(tags) => Some(tags)
    case Legacy(n) =>
      if forall i :: 2 <= i <= n ==> i in t.legacy then Some(set i | 2 <= i <= n :: t.legacy[i]) else None
  }

  ghost predicate Distinct(s: seq<Tag>) {
    forall i, j :: 0 <= i < j < |s| ==> s[i] != s[j]
  }

  ghost predicate Lists(s: seq<Tag>, tags: set<Tag>) {
    Distinct(s) && forall a :: a in s <==> a in tags
  }

  /** Each script ran when all its dependencies were present. */
  ghost predicate InOrder(t: Table, start: set<Tag>, applied: seq<Tag>) {
    forall i, d :: 0 <= i < |applied| && Edge(t, applied[i], d) ==> d in start || d in applied[..i]
  }

  /** The tags after the scripts of `done` ran: upgrades add their tag, downgrades remove it. */
  function After(t: Table, tags: set<Tag>, done: set<Tag>): set<Tag> {
    tags + done * t.upgrades - (done - t.upgrades)
  }

  lemma AfterOne(t: Table, tags: set<Tag>, done: set<Tag>, tag: Tag)
    requires tag !in done
    ensures tag in t.upgrades ==> After(t, tags, done + {tag}) == After(t, tags, done) + {tag}
    ensures tag !in t.upgrades ==> After(t, tags, done + {tag}) == After(t, tags, done) - {tag}
    ensures tag in After(t, tags, done) <==> tag in tags
  {
  }

  lemma ListsOne(order: seq<Tag>, done: set<Tag>, tag: Tag)
    requires Lists(order, done) && tag !in done
    ensures Lists(order + [tag], done + {tag})
  {
  }

  lemma RoundOne(t: Table, tags: set<Tag>, ready: set<Tag>, done: set<Tag>, order: seq<Tag>, tag: Tag)
    requires tag in ready && tag !in done && Lists(order, done) && done <= ready
    ensures After(t, tags, done + {tag}) == if tag in t.upgrades then After(t, tags, done) + {tag}
            else After(t, tags, done) - {tag}
    ensures tag in After(t, tags, done) <==> tag in tags
    ensures Lists(order + [tag], done + {tag}) && |ready - (done + {tag})| < |ready - done|
  {
    AfterOne(t, tags, done, tag);
    ListsOne(order, done, tag);
    assert ready - (done + {tag}) == ready - done - {tag};
  }

  /** One script: an upgrader adds its tag, a downgrader removes it and fails when it is not there. */
  method Update(t: Table, tags: set<Tag>, tag: Tag) returns (ok: bool, tags': set<Tag>)
    ensures ok <==> tag in t.upgrades || tag in tags
    ensures ok ==> tags' == if tag in t.upgrades then tags + {tag} else tags - {tag}
  {
    ok, tags' := true, tags;
    if tag in t.upgrades {
      tags' := tags + {tag};
    } else if tag in tags {
      tags' := tags - {tag};
    } else {
      ok := false;
    }
  }

  /** One round of the worklist, in whatever order the set of ready tags is visited. */
  method ApplyRound(t: Table, tags: set<Tag>, ready: set<Tag>) returns (ok: bool, tags': set<Tag>, order: seq<Tag>)
    ensures ok <==> ready - t.upgrades <= tags
    ensures ok ==> Lists(order, ready) && tags' == After(t, tags, ready)
  {
    ok, tags', order := true, tags, [];
    var done: set<Tag> := {};
    while done != ready
      invariant done <= ready && Lists(order, done) && done - t.upgrades <= tags
      invariant ok && tags' == After(t, tags, done)
      decreases |ready - done|
    {
      assert ready - done != {};
      var tag :| tag in ready - done;
      RoundOne(t, tags, ready, done, order, tag);
      ok, tags' := Update(t, tags', tag);
      if !ok {
        return;
      }
      order, done := order + [tag], done + {tag};
    }
  }

  lemma ListsConcat(a: seq<Tag>, b: seq<Tag>, s: set<Tag>, u: set<Tag>)
    requires Lists(a, s) && Lists(b, u) && s !! u
    ensures Lists(a + b, s + u)
  {
    forall i, j | 0 <= i < j < |a + b|
      ensures (a + b)[i] != (a + b)[j]
    {
      if i < |a| <= j {
        assert a[i] in s && b[j - |a|] in u;
      }
    }
  }

  lemma InOrderConcat(t: Table, start: set<Tag>, a: seq<Tag>, b: seq<Tag>, tags: set<Tag>)
    requires InOrder(t, start, a) && Lists(a, tags - start)
    requires forall x :: x in b ==> x in t.depends && IsReady(t, x, tags)
    ensures InOrder(t, start, a + b)
  {
    var c := a + b;
    forall i, d | 0 <= i < |c| && Edge(t, c[i], d)
      ensures d in start || d in c[..i]
    {
      if i < |a| {
        assert c[..i] == a[..i] && c[i] == a[i];
      } else {
        assert c[i] == b[i - |a|];
        assert d in tags;
        if d !in start {
          assert d in a && a == c[..|a|] && c[..i] == a + b[..i - |a|];
        }
      }
    }
  }

  /** What the worklist has achieved on an upgrade-only table when it holds `tags`. */
  ghost predicate Progress(t: Table, start: set<Tag>, tags: set<Tag>, applied: seq<Tag>)
    requires t.tagSet <= t.depends.Keys
  {
    && start <= tags <= start + t.tagSet
    && Lists(applied, tags - start) && InOrder(t, start, applied)
    && Drain(t, tags, t.tagSet - tags) == Drain(t, start, t.tagSet - start)
  }

  lemma ProgressRound(t: Table, start: set<Tag>, tags: set<Tag>, applied: seq<Tag>, order: seq<Tag>)
    requires UpgradeOnly(t) && Progress(t, start, tags, applied)
    requires Ready(t, tags, t.tagSet - tags) != {} && Lists(order, Ready(t, tags, t.tagSet - tags))
    ensures Progress(t, start, tags + Ready(t, tags, t.tagSet - tags), applied + order)
  {
    var r := Ready(t, tags, t.tagSet - tags);
    InOrderConcat(t, start, applied, order, tags);
    ListsConcat(applied, order, tags - start, r);
    assert tags - start + r == tags + r - start;
    DrainStep(t, tags);
  }

  /** What a file needs: scripts whose tag it lacks, and downgrades of tags it has. */
  function ToApply(t: Table, start: set<Tag>): set<Tag> {
    t.tagSet - start + t.untagSet * start
  }

  ghost predicate LoopInv(t: Table, start: set<Tag>, tags: set<Tag>, applied: seq<Tag>, pending: set<Tag>) {
    && Audited(t)
    && pending <= ToApply(t, start) && Lists(applied, ToApply(t, start) - pending)
    && (UpgradeOnly(t) ==> pending == t.tagSet - tags && Progress(t, start, tags, applied))
  }

  lemma LoopInvRound(t: Table, start: set<Tag>, tags: set<Tag>, applied: seq<Tag>, pending: set<Tag>, order: seq<Tag>)
    requires LoopInv(t, start, tags, applied, pending)
    requires Ready(t, tags, pending) != {} && Lists(order, Ready(t, tags, pending))
    ensures LoopInv(t, start, After(t, tags, Ready(t, tags, pending)), applied + order,
            pending - Ready(t, tags, pending))
  {
    var all, r := ToApply(t, start), Ready(t, tags, pending);
    ListsConcat(applied, order, all - pending, r);
    assert all - (pending - r) == (all - pending) + r;
    if UpgradeOnly(t) {
      ProgressRound(t, start, tags, applied, order);
      assert After(t, tags, r) == tags + r;
      assert pending - r == t.tagSet - (tags + r);
    }
  }

  lemma LoopInvEnd(t: Table, start: set<Tag>, tags: set<Tag>, applied: seq<Tag>, pending: set<Tag>)
    requires LoopInv(t, start, tags, applied, pending) && UpgradeOnly(t)
    requires Ready(t, tags, pending) == {}
    ensures (tags, pending) == Drain(t, start, t.tagSet - start) && InOrder(t, start, applied)
  {
  }

  // ---------------------------------------------------------------- rounds

  /** The two sets that the worklist loop updates. */
  datatype Worklist = Worklist(tags: set<Tag>, pending: set<Tag>)

  function NextRound(t: Table, w: Worklist): Worklist
    requires w.pending <= t.depends.Keys
  {
    var r := Ready(t, w.tags, w.pending);
    Worklist(After(t, w.tags, r), w.pending - r)
  }

  /** The worklist of a file with tags `start` after `k` rounds; a round without a ready script changes nothing. */
  function Rounds(t: Table, start: set<Tag>, k: nat): (w: Worklist)
    requires t.tagSet + t.untagSet <= t.depends.Keys
    ensures w.pending <= t.depends.Keys
  {
    if k == 0 then Worklist(start, ToApply(t, start)) else NextRound(t, Rounds(t, start, k - 1))
  }

  /** The scripts that round `k` runs. */
  function RoundSet(t: Table, start: set<Tag>, k: nat): set<Tag>
    requires t.tagSet + t.untagSet <= t.depends.Keys
  {
    Ready(t, Rounds(t, start, k).tags, Rounds(t, start, k).pending)
  }

  /** `applied` lists the scripts of rounds 0 to k - 1, round by round, each round in any order. */
  ghost predicate RunsTo(t: Table, start: set<Tag>, k: nat, applied: seq<Tag>)
    requires t.tagSet + t.untagSet <= t.depends.Keys
  {
    if k == 0 then applied == []
    else exists n ::
      0 <= n <= |applied| && RunsTo(t, start, k - 1, applied[..n]) && Lists(applied[n..], RoundSet(t, start, k - 1))
  }

  /** `applied` is what the worklist may have run, in order, when no script is ready any more. */
  ghost predicate IsRun(t: Table, start: set<Tag>, applied: seq<Tag>)
    requires t.tagSet + t.untagSet <= t.depends.Keys
  {
    exists k :: RunsTo(t, start, k, applied) && RoundSet(t, start, k) == {}
  }

  /** The worklist empties. */
  ghost predicate Completes(t: Table, start: set<Tag>)
    requires t.tagSet + t.untagSet <= t.depends.Keys
  {
    exists k: nat :: Rounds(t, start, k).pending == {}
  }

  lemma RunsOn(t: Table, start: set<Tag>, k: nat, applied: seq<Tag>, order: seq<Tag>)
    requires t.tagSet + t.untagSet <= t.depends.Keys
    requires RunsTo(t, start, k, applied) && Lists(order, RoundSet(t, start, k))
    ensures RunsTo(t, start, k + 1, applied + order)
  {
    var r := applied + order;
    assert r[..|applied|] == applied && r[|applied|..] == order;
  }

  lemma StuckStays(t: Table, start: set<Tag>, k: nat, j: nat)
    requires t.tagSet + t.untagSet <= t.depends.Keys && RoundSet(t, start, k) == {} && k <= j
    ensures Rounds(t, start, j) == Rounds(t, start, k)
  {
    for i := k to j
      invariant Rounds(t, start, i) == Rounds(t, start, k)
    {
      assert Rounds(t, start, i + 1) == NextRound(t, Rounds(t, start, k));
    }
  }

  lemma EmptyStays(t: Table, start: set<Tag>, k: nat, j: nat)
    requires t.tagSet + t.untagSet <= t.depends.Keys && Rounds(t, start, k).pending == {} && k <= j
    ensures Rounds(t, start, j).pending == {}
  {
    StuckStays(t, start, k, j);
  }

  /** A worklist without a ready script is empty exactly if the worklist ever gets empty. */
  lemma StuckCompletes(t: Table, start: set<Tag>, k: nat)
    requires t.tagSet + t.untagSet <= t.depends.Keys && RoundSet(t, start, k) == {}
    ensures Completes(t, start) <==> Rounds(t, start, k).pending == {}
  {
    if Completes(t, start) {
      var j: nat :| Rounds(t, start, j).pending == {};
      if j < k {
        EmptyStays(t, start, j, k);
      } else {
        StuckStays(t, start, k, j);
      }
    }
  }

  /** What is there after `k` rounds: tags to remove until their downgrader ran, tags to add once their upgrader ran. */
  lemma {:induction false} TagsAt(t: Table, start: set<Tag>, k: nat, x: Tag)
    requires Proper(t)
    ensures var w := Rounds(t, start, k);
            x in w.tags <==>
              if x in t.untagSet then x in w.pending else x in start || (x in t.tagSet && x !in w.pending)
  {
    if 0 < k {
      TagsAt(t, start, k - 1, x);
      PendingIn(t, start, k - 1);
    }
  }

  lemma {:induction false} PendingIn(t: Table, start: set<Tag>, k: nat)
    requires t.tagSet + t.untagSet <= t.depends.Keys
    ensures Rounds(t, start, k).pending <= ToApply(t, start)
  {
    if 0 < k {
      PendingIn(t, start, k - 1);
    }
  }

  /** On a proper table no downgrader finds its tag missing. */
  lemma Removable(t: Table, start: set<Tag>, k: nat)
    requires Proper(t)
    ensures RoundSet(t, start, k) - t.upgrades <= Rounds(t, start, k).tags
  {
    PendingIn(t, start, k);
    forall x | x in RoundSet(t, start, k) - t.upgrades
      ensures x in Rounds(t, start, k).tags
    {
      TagsAt(t, start, k, x);
    }
  }

  /** The loop of the worklist stands after `k` rounds. */
  ghost predicate Stands(t: Table, start: set<Tag>, k: nat, tags: set<Tag>, applied: seq<Tag>, pending: set<Tag>) {
    && LoopInv(t, start, tags, applied, pending)
    && Rounds(t, start, k) == Worklist(tags, pending) && RunsTo(t, start, k, applied)
  }

  /** What the worklist returns. */
  ghost predicate Migrated(t: Table, start: set<Tag>, tags: set<Tag>, applied: seq<Tag>, pending: set<Tag>)
    requires Audited(t)
  {
    && IsRun(t, start, applied) && (pending == {} <==> Completes(t, start))
    && (pending == {} ==> Lists(applied, ToApply(t, start)))
    && (pending == {} && Proper(t) ==> tags == start + t.tagSet - t.untagSet)
    && (UpgradeOnly(t) ==> (tags, pending) == Drain(t, start, t.tagSet - start) && InOrder(t, start, applied))
  }

  lemma StandsStart(t: Table, start: set<Tag>)
    requires Audited(t)
    ensures Stands(t, start, 0, start, [], ToApply(t, start))
  {
    assert ToApply(t, start) - ToApply(t, start) == {};
  }

  lemma StandsRound(t: Table, start: set<Tag>, k: nat, tags: set<Tag>, applied: seq<Tag>, pending: set<Tag>,
                    order: seq<Tag>)
    requires Stands(t, start, k, tags, applied, pending)
    requires Ready(t, tags, pending) != {} && Lists(order, Ready(t, tags, pending))
    ensures var r := Ready(t, tags, pending);
            Stands(t, start, k + 1, After(t, tags, r), applied + order, pending - r)
  {
    LoopInvRound(t, start, tags, applied, pending, order);
    RunsOn(t, start, k, applied, order);
  }

  lemma FinalTags(t: Table, start: set<Tag>, k: nat)
    requires Proper(t) && Rounds(t, start, k).pending == {}
    ensures Rounds(t, start, k).tags == start + t.tagSet - t.untagSet
  {
    forall x
      ensures x in Rounds(t, start, k).tags <==> x in start + t.tagSet - t.untagSet
    {
      TagsAt(t, start, k, x);
    }
  }

  lemma StandsEnd(t: Table, start: set<Tag>, k: nat, tags: set<Tag>, applied: seq<Tag>, pending: set<Tag>)
    requires Stands(t, start, k, tags, applied, pending) && Ready(t, tags, pending) == {}
    ensures Migrated(t, start, tags, applied, pending)
  {
    StuckCompletes(t, start, k);
    if Proper(t) && pending == {} {
      FinalTags(t, start, k);
    }
    if UpgradeOnly(t) {
      LoopInvEnd(t, start, tags, applied, pending);
    }
    assert ToApply(t, start) - {} == ToApply(t, start);
  }

  /** The loop of the worklist stands after some number of rounds. */
  ghost predicate Reached(t: Table, start: set<Tag>, tags: set<Tag>, applied: seq<Tag>, pending: set<Tag>) {
    exists k: nat :: Stands(t, start, k, tags, applied, pending)
  }

  /** The loop body: one round of ready scripts. */
  method TakeRound(t: Table, ready: set<Tag>, tags: set<Tag>, applied: seq<Tag>, pending: set<Tag>,
                   ghost start: set<Tag>)
    returns (ok: bool, tags': set<Tag>, applied': seq<Tag>, pending': set<Tag>)
    requires Reached(t, start, tags, applied, pending) && pending <= t.depends.Keys &&
             ready == Ready(t, tags, pending) && ready != {}
    ensures ok ==> Reached(t, start, tags', applied', pending') && |pending'| < |pending| && pending' <= t.depends.Keys
    ensures Proper(t) ==> ok
  {
    ghost var k: nat :| Stands(t, start, k, tags, applied, pending);
    RoundShrinks(t, tags, pending);
    if Proper(t) { Removable(t, start, k); }
    var order;
    ok, tags', order := ApplyRound(t, tags, ready);
    applied', pending' := applied + order, pending - ready;
    if ok {
      StandsRound(t, start, k, tags, applied, pending, order);
    }
  }

  /** Applying what a checkpoint lacks. `pending` is what is left over, empty unless the run aborts. */
  method Migrate(t: Table, start: set<Tag>) returns (ok: bool, tags: set<Tag>, applied: seq<Tag>, pending: set<Tag>)
    requires Audited(t)
    ensures ok ==> Migrated(t, start, tags, applied, pending)
    ensures Proper(t) ==> ok
  {
    StandsStart(t, start);
    ok, tags, applied, pending := true, start, [], ToApply(t, start);
    while pending != {}
      invariant ok && Reached(t, start, tags, applied, pending) && pending <= t.depends.Keys
      decreases |pending|
    {
      var ready := Ready(t, tags, pending);
      if ready == {} {
        break;
      }
      ok, tags, applied, pending := TakeRound(t, ready, tags, applied, pending, start);
      if !ok {
        return;
      }
    }
    ReachedEnd(t, start, tags, applied, pending);
  }

  lemma ReachedEnd(t: Table, start: set<Tag>, tags: set<Tag>, applied: seq<Tag>, pending: set<Tag>)
    requires Audited(t) && Reached(t, start, tags, applied, pending) && pending <= t.depends.Keys &&
             Ready(t, tags, pending) == {}
    ensures Migrated(t, start, tags, applied, pending)
  {
    var k: nat :| Stands(t, start, k, tags, applied, pending);
    StandsEnd(t, start, k, tags, applied, pending);
  }

  /** The file counts as having tag `a`: it lists the tag, or its version is not below the one the tag stands for. */
  ghost predicate HasTag(t: Table, v: Version, a: Tag) {
    match v
    case Unversioned => false
    case Tags(tags) => a in tags
    case Legacy(n) => exists i :: 2 <= i <= n && i in t.legacy && t.legacy[i] == a
  }

  lemma StartTagsAre(t: Table, v: Version)
    ensures v.Legacy? ==> (StartTags(t, v).None? <==> exists i :: 2 <= i <= v.version && i !in t.legacy)
    ensures StartTags(t, v).Some? ==> forall a :: a in StartTags(t, v).value <==> HasTag(t, v, a)
  {
  }

  /** A script ran exactly if it adds a tag that the file did not have, or removes one that it had. */
  ghost predicate RanMissing(t: Table, v: Version, applied: seq<Tag>) {
    forall a :: a in applied <==> if a in t.tagSet then !HasTag(t, v, a) else a in t.untagSet && HasTag(t, v, a)
  }

  /** The file ends up with the tags it had and the ones added, but none of those to be removed. */
  ghost predicate EndsWith(t: Table, v: Version, tags: set<Tag>) {
    forall a :: a in tags <==> a !in t.untagSet && (a in t.tagSet || HasTag(t, v, a))
  }

  lemma MigratedFrom(t: Table, v: Version, start: set<Tag>, tags: set<Tag>, applied: seq<Tag>)
    requires Proper(t) && StartTags(t, v) == Some(start)
    requires tags == start + t.tagSet - t.untagSet && Lists(applied, ToApply(t, start))
    ensures RanMissing(t, v, applied) && EndsWith(t, v, tags)
  {
    StartTagsAre(t, v);
  }

  method ProcessFile(t: Table, v: Version) returns (r: Outcome)
    requires Audited(t)
    ensures v.Unversioned? <==> r.Fatal?
    ensures Proper(t) ==> (r.MissingKey? <==> v.Legacy? && exists i :: 2 <= i <= v.version && i !in t.legacy)
    ensures Proper(t) && r.Done? ==> RanMissing(t, v, r.applied) && EndsWith(t, v, r.tags)
    ensures Proper(t) ==> (r.MissingKey? <==> v.Legacy? && StartTags(t, v).None?)
    ensures Proper(t) && StartTags(t, v).Some? ==>
              var start := StartTags(t, v).value;
              && (r.Aborted? <==> !Completes(t, start))
              && (r.Done? ==>
                    && r.tags == start + t.tagSet - t.untagSet
                    && Lists(r.applied, ToApply(t, start)) && IsRun(t, start, r.applied)
                    && (r.changed <==> v.Legacy? || r.applied != []))
    ensures UpgradeOnly(t) && StartTags(t, v).Some? ==>
              var start := StartTags(t, v).value;
              && (r.Aborted? <==> HasCycle(t, t.tagSet - start))
              && (r.Aborted? ==> r.pending == Drain(t, start, t.tagSet - start).1)
              && (r.Done? ==> InOrder(t, start, r.applied))
  {
    var tags, changed := {}, false;
    match v {
      case Unversioned =>
        return Fatal;
      case Tags(given) =>
        tags := given;
      case Legacy(n) =>
        var i := 2;
        while i <= n
          invariant 2 <= i && (i <= n || i == 2 || i == n + 1)
          invariant forall k :: 2 <= k < i ==> k in t.legacy
          invariant tags == set k | 2 <= k < i :: t.legacy[k]
        {
          if i !in t.legacy {
            return MissingKey;
          }
          tags := tags + {t.legacy[i]};
          i := i + 1;
        }
        assert tags == set k | 2 <= k <= n :: t.legacy[k];
        changed := true;
    }
    assert StartTags(t, v) == Some(tags);
    StartTagsAre(t, v);
    if UpgradeOnly(t) {
      StuckIffCycle(t, tags);
    }
    var ok, final, applied, pending := Migrate(t, tags);
    if !ok {
      return MissingKey;
    }
    if pending != {} {
      return Aborted(pending);
    }
    if Proper(t) {
      MigratedFrom(t, v, tags, final, applied);
    }
    r := Done(final, applied, changed || applied != []);
  }

  lemma ListsNothing(s: seq<Tag>)
    ensures Lists(s, {}) ==> s == []
  {
    assert s != [] ==> s[0] in s;
  }

  /** Running the upgrader again on its own output changes nothing. */
  method ProcessTwice(t: Table, v: Version) returns (first: Outcome, second: Outcome)
    requires Proper(t)
    ensures first.Done? ==> second == Done(first.tags, [], false)
  {
    first := ProcessFile(t, v);
    second := Fatal;
    if first.Done? {
      second := ProcessFile(t, Tags(first.tags));
      assert StartTags(t, Tags(first.tags)) == Some(first.tags);
      assert ToApply(t, first.tags) == {};
      assert Rounds(t, first.tags, 0).pending == {};
      ListsNothing(second.applied);
      assert first.tags + t.tagSet - t.untagSet == first.tags;
    }
  }

  /** Legacy versions a to b that are all missing run in ascending order, because each depends on the one before. */
  lemma {:induction false} LegacyAscending(t: Table, start: set<Tag>, applied: seq<Tag>, a: int, b: int, p: nat, q: nat)
    requires InOrder(t, start, applied) && Distinct(applied) && a < b
    requires forall i :: a <= i <= b ==> i in t.legacy && t.legacy[i] !in start
    requires forall i :: a < i <= b ==> Edge(t, t.legacy[i], t.legacy[i - 1])
    requires p < |applied| && applied[p] == t.legacy[a] && q < |applied| && applied[q] == t.legacy[b]
    ensures p < q
    decreases b - a
  {
    assert Edge(t, applied[q], t.legacy[b - 1]);
    assert t.legacy[b - 1] in applied[..q];
    var k :| 0 <= k < q && applied[k] == t.legacy[b - 1];
    if a < b - 1 {
      LegacyAscending(t, start, applied, a, b - 1, p, k);
    }
  }

  /** In a file with a legacy version number the missing versions always run in ascending order. */
  lemma LegacyFileAscending(t: Table, n: int, start: set<Tag>, applied: seq<Tag>, a: int, b: int, p: nat, q: nat)
    requires (forall x :: x in start <==> HasTag(t, Legacy(n), x)) && Lists(applied, t.tagSet - start)
    requires InOrder(t, start, applied)
    requires 2 <= a < b && (forall i :: 2 <= i <= b ==> i in t.legacy) && forall i :: 2 < i <= b ==>
             Edge(t, t.legacy[i], t.legacy[i - 1])
    requires forall i, j :: i in t.legacy && j in t.legacy && t.legacy[i] == t.legacy[j] ==> i == j
    requires p < |applied| && applied[p] == t.legacy[a] && q < |applied| && applied[q] == t.legacy[b]
    ensures p < q
  {
    assert t.legacy[a] !in start;
    LegacyAscending(t, start, applied, a, b, p, q);
  }

  // ---------------------------------------------------------------- loading the scripts

  function ByTag(ss: seq<Script>): map<Tag, nat> {
    if ss == [] then map[] else ByTag(ss[..|ss| - 1])[ss[|ss| - 1].tag := |ss| - 1]
  }

  function ByVersion(ss: seq<Script>): map<int, nat> {
    if ss == [] then map[] else
      var m := ByVersion(ss[..|ss| - 1]);
      if ss[|ss| - 1].legacyVersion.Some? then m[ss[|ss| - 1].legacyVersion.value := |ss| - 1] else m
  }

  function TagsOf(ss: seq<Script>, upgrade: bool): set<Tag> {
    if ss == [] then {} else
      var tags := TagsOf(ss[..|ss| - 1], upgrade);
      if ss[|ss| - 1].upgrade == upgrade then tags + {ss[|ss| - 1].tag} else tags
  }

  lemma {:induction false} TablesAre(ss: seq<Script>)
    ensures forall t :: t in ByTag(ss) ==> ByTag(ss)[t] < |ss| && ss[ByTag(ss)[t]].tag == t
    ensures ByTag(ss).Keys == TagsOf(ss, true) + TagsOf(ss, false)
    ensures forall v :: v in ByVersion(ss) ==> ByVersion(ss)[v] < |ss| && ss[ByVersion(ss)[v]].legacyVersion == Some(v)
  {
    if ss != [] {
      TablesAre(ss[..|ss| - 1]);
    }
  }

  /** Script `k` is legacy version v >= 3 and versions 3 to v all exist, so `load_all` reaches it. */
  predicate Linked(ss: seq<Script>, k: nat)
    requires k < |ss|
  {
    && ss[k].legacyVersion.Some?
    && var v, m := ss[k].legacyVersion.value, ByVersion(ss);
    && 3 <= v && v in m && m[v] == k && (forall i :: 2 <= i <= v ==> i in m)
  }

  /** Dependencies after the legacy versions are chained: a reached version depends on its predecessor alone. */
  function ChainedDeps(ss: seq<Script>, k: nat): seq<Tag>
    requires k < |ss|
  {
    TablesAre(ss);
    if Linked(ss, k) then [ss[ByVersion(ss)[ss[k].legacyVersion.value - 1]].tag] else ss[k].depends
  }

  /** Dependencies once the versions below `i` are chained. */
  function ChainedBelow(ss: seq<Script>, k: nat, i: int): seq<Tag>
    requires k < |ss|
  {
    if Linked(ss, k) && ss[k].legacyVersion.value < i then ChainedDeps(ss, k) else ss[k].depends
  }

  predicate VersionsUpTo(ss: seq<Script>, i: int) {
    forall v :: 2 <= v <= i ==> v in ByVersion(ss)
  }

  lemma VersionIs(ss: seq<Script>, v: int)
    requires v in ByVersion(ss)
    ensures ByVersion(ss)[v] < |ss| && ss[ByVersion(ss)[v]].legacyVersion == Some(v)
  {
    TablesAre(ss);
  }

  lemma LinkedAt(ss: seq<Script>, i: int) returns (k: nat)
    requires 3 <= i && VersionsUpTo(ss, i)
    ensures i in ByVersion(ss) && k == ByVersion(ss)[i] && k < |ss| && ss[k].legacyVersion == Some(i) && Linked(ss, k)
  {
    assert i in ByVersion(ss);
    VersionIs(ss, i);
    k := ByVersion(ss)[i];
  }

  lemma ChainedStep(ss: seq<Script>, k: nat, i: int)
    requires 3 <= i && VersionsUpTo(ss, i) && k < |ss|
    ensures ByVersion(ss)[i - 1] < |ss|
    ensures ChainedBelow(ss, k, i + 1) == if k == ByVersion(ss)[i] then [ss[ByVersion(ss)[i - 1]].tag]
            else ChainedBelow(ss, k, i)
  {
    assert i - 1 in ByVersion(ss);
    VersionIs(ss, i - 1);
    var n := LinkedAt(ss, i);
    if k != n {
      assert Linked(ss, k) ==> ss[k].legacyVersion.value != i;
    }
  }

  lemma ChainedEnd(ss: seq<Script>, k: nat, i: int)
    requires 3 <= i && i !in ByVersion(ss) && k < |ss|
    ensures ChainedBelow(ss, k, i) == ChainedDeps(ss, k)
  {
    TablesAre(ss);
  }

  lemma FewerVersions(m: map<int, nat>, i: int)
    requires i in m
    ensures |set v | v in m && i + 1 <= v| < |set v | v in m && i <= v|
  {
    assert (set v | v in m && i <= v) == (set v | v in m && i + 1 <= v) + {i};
  }

  ghost predicate DistinctTags(ss: seq<Script>) {
    forall i, j :: 0 <= i < j < |ss| ==> ss[i].tag != ss[j].tag
  }

  lemma {:induction false} ByTagOf(ss: seq<Script>, k: nat)
    requires k < |ss| && DistinctTags(ss)
    ensures ss[k].tag in ByTag(ss) && ByTag(ss)[ss[k].tag] == k
  {
    if k < |ss| - 1 {
      ByTagOf(ss[..|ss| - 1], k);
    }
  }

  lemma ChainedAt(ss: seq<Script>, i: int) returns (k: nat, prev: nat)
    requires 3 <= i && VersionsUpTo(ss, i)
    ensures k < |ss| && prev < |ss| && k == ByVersion(ss)[i] && prev == ByVersion(ss)[i - 1]
    ensures ChainedDeps(ss, k) == [ss[prev].tag]
  {
    assert i in ByVersion(ss) && i - 1 in ByVersion(ss);
    VersionIs(ss, i - 1);
    VersionIs(ss, i);
    k, prev := ByVersion(ss)[i], ByVersion(ss)[i - 1];
    assert Linked(ss, k);
  }

  /** With distinct tags, loading makes every reached legacy version depend on the version before it. */
  lemma LegacyChained(ss: seq<Script>, i: int) returns (k: nat, prev: nat)
    requires 3 <= i && VersionsUpTo(ss, i) && DistinctTags(ss)
    ensures k < |ss| && prev < |ss| && k == ByVersion(ss)[i] && prev == ByVersion(ss)[i - 1]
    ensures ss[k].tag in ByTag(ss) && DependsOn(ss, ss[k].tag, ss[prev].tag)
  {
    k, prev := ChainedAt(ss, i);
    ByTagOf(ss, k);
  }

  predicate DependsOn(ss: seq<Script>, t: Tag, d: Tag)
    requires t in ByTag(ss)
  {
    TablesAre(ss);
    d in ChainedDeps(ss, ByTag(ss)[t]) || (d in ByTag(ss) && t in ss[ByTag(ss)[d]].fwdDepends)
  }

  /** Dependencies once the forward dependencies of the tags in `done` are resolved. */
  ghost predicate DependsBy(ss: seq<Script>, done: set<Tag>, t: Tag, d: Tag) {
    TablesAre(ss);
    t in ByTag(ss) && (d in ChainedDeps(ss, ByTag(ss)[t]) ||
        (d in done && d in ByTag(ss) && t in ss[ByTag(ss)[d]].fwdDepends))
  }

  /** The audit of one tag. */
  ghost predicate Sound(ss: seq<Script>, t: Tag) {
    TablesAre(ss);
    && t in ByTag(ss)
    && (forall f :: f in ss[ByTag(ss)[t]].fwdDepends ==> f in ByTag(ss))
    && (forall d :: d in ChainedDeps(ss, ByTag(ss)[t]) ==> d in ByTag(ss))
  }

  ghost predicate ResolvedBy(ss: seq<Script>, deps: seq<seq<Tag>>, done: set<Tag>) {
    TablesAre(ss);
    |deps| == |ss| && forall t, d :: t in ByTag(ss) ==> (d in deps[ByTag(ss)[t]] <==> DependsBy(ss, done, t, d))
  }

  /** The effect of one script's forward dependencies on the dependency lists. */
  ghost predicate Forwarded(ss: seq<Script>, before: seq<seq<Tag>>, after: seq<seq<Tag>>, u: Tag) {
    TablesAre(ss);
    && |before| == |after| == |ss| && u in ByTag(ss)
    && forall t, d :: t in ByTag(ss) ==>
         (d in after[ByTag(ss)[t]] <==> d in before[ByTag(ss)[t]] || (d == u && t in ss[ByTag(ss)[u]].fwdDepends))
  }

  lemma ResolveOne(ss: seq<Script>, before: seq<seq<Tag>>, after: seq<seq<Tag>>, done: set<Tag>, u: Tag)
    requires ResolvedBy(ss, before, done) && Forwarded(ss, before, after, u)
    ensures ResolvedBy(ss, after, done + {u})
  {
    TablesAre(ss);
    forall t, d | t in ByTag(ss)
      ensures d in after[ByTag(ss)[t]] <==> DependsBy(ss, done + {u}, t, d)
    {
      assert d in before[ByTag(ss)[t]] <==> DependsBy(ss, done, t, d);
    }
  }

  lemma SoundIff(ss: seq<Script>, deps: seq<seq<Tag>>, done: set<Tag>, u: Tag)
    requires ResolvedBy(ss, deps, done) && u in ByTag(ss) && done <= ByTag(ss).Keys
    ensures ByTag(ss)[u] < |ss|
    ensures (forall f :: f in ss[ByTag(ss)[u]].fwdDepends ==> f in ByTag(ss)) ==>
              (Sound(ss, u) <==> forall d :: d in deps[ByTag(ss)[u]] ==> d in ByTag(ss))
  {
    TablesAre(ss);
    assert forall d :: d in deps[ByTag(ss)[u]] <==> DependsBy(ss, done, u, d);
    forall d | d in ChainedDeps(ss, ByTag(ss)[u])
      ensures d in deps[ByTag(ss)[u]]
    {
      assert DependsBy(ss, done, u, d);
    }
  }

  lemma {:induction false} OnlyUpgrades(ss: seq<Script>)
    ensures (forall i :: 0 <= i < |ss| ==> ss[i].upgrade) ==> TagsOf(ss, false) == {}
  {
    if ss != [] {
      OnlyUpgrades(ss[..|ss| - 1]);
    }
  }

  /** The table `t` holds the scripts `ss` after loading. */
  ghost predicate Loaded(ss: seq<Script>, t: Table) {
    TablesAre(ss);
    && t.tagSet == TagsOf(ss, true) && t.untagSet == TagsOf(ss, false)
    && (forall a :: a in t.upgrades <==> a in ByTag(ss) && ss[ByTag(ss)[a]].upgrade)
    && t.legacy.Keys == ByVersion(ss).Keys && (forall v :: v in t.legacy ==> t.legacy[v] == ss[ByVersion(ss)[v]].tag)
    && forall a, d :: a in ByTag(ss) ==> (Edge(t, a, d) <==> DependsOn(ss, a, d))
  }

  /** What loading insists on: version 3 needs version 2, and every dependency, forward or not, names a known tag. */
  ghost predicate Loadable(ss: seq<Script>) {
    (3 in ByVersion(ss) ==> 2 in ByVersion(ss)) && forall t :: t in ByTag(ss) ==> Sound(ss, t)
  }

  /** What the worklist sees of scripts `ss` whose dependency lists have become `deps`. */
  function TableOf(ss: seq<Script>, deps: seq<seq<Tag>>): Table
    requires |deps| == |ss|
  {
    TablesAre(ss);
    Table(TagsOf(ss, true), TagsOf(ss, false), set t | t in ByTag(ss) && ss[ByTag(ss)[t]].upgrade,
          map t | t in ByTag(ss) :: deps[ByTag(ss)[t]],
          map v | v in ByVersion(ss) :: ss[ByVersion(ss)[v]].tag)
  }

  lemma TableEdges(ss: seq<Script>, deps: seq<seq<Tag>>)
    requires ResolvedBy(ss, deps, ByTag(ss).Keys)
    ensures Loaded(ss, TableOf(ss, deps))
  {
    TablesAre(ss);
    var t := TableOf(ss, deps);
    forall a, d | a in ByTag(ss)
      ensures Edge(t, a, d) <==> DependsOn(ss, a, d)
    {
      assert d in deps[ByTag(ss)[a]] <==> DependsBy(ss, ByTag(ss).Keys, a, d);
    }
  }

  lemma TableAudited(ss: seq<Script>, deps: seq<seq<Tag>>)
    requires ResolvedBy(ss, deps, ByTag(ss).Keys) && forall t :: t in ByTag(ss) ==> Sound(ss, t)
    ensures Audited(TableOf(ss, deps))
  {
    TablesAre(ss);
    forall a, d | a in ByTag(ss) && d in deps[ByTag(ss)[a]]
      ensures d in ByTag(ss)
    {
      assert DependsBy(ss, ByTag(ss).Keys, a, d) && Sound(ss, a);
    }
  }

  lemma TableUpgrades(ss: seq<Script>, deps: seq<seq<Tag>>)
    requires |deps| == |ss| && Audited(TableOf(ss, deps))
    ensures (forall i :: 0 <= i < |ss| ==> ss[i].upgrade) ==> UpgradeOnly(TableOf(ss, deps))
  {
    TablesAre(ss);
    OnlyUpgrades(ss);
  }

  class Registry {
    var scripts: seq<Script>
    var depends: seq<seq<Tag>>
    var byTag: map<Tag, nat>
    var legacy: map<int, nat>
    var tagSet: set<Tag>
    var untagSet: set<Tag>

    /** The class-level tables hold exactly the scripts registered so far. */
    ghost predicate Registered()
      reads this
    {
      && byTag == ByTag(scripts) && legacy == ByVersion(scripts)
      && tagSet == TagsOf(scripts, true) && untagSet == TagsOf(scripts, false)
      && |depends| == |scripts|
    }

    constructor ()
      ensures Registered() && scripts == []
    {
      scripts, depends, byTag, legacy, tagSet, untagSet := [], [], map[], map[], {}, {};
    }

    method Register(s: Script)
      requires Registered()
      modifies this
      ensures Registered() && scripts == old(scripts) + [s] && depends == old(depends) + [s.depends]
    {
      var k := |scripts|;
      assert (scripts + [s])[..k] == scripts;
      if s.upgrade {
        tagSet := tagSet + {s.tag};
      } else {
        untagSet := untagSet + {s.tag};
      }
      if s.legacyVersion.Some? {
        legacy := legacy[s.legacyVersion.value := k];
      }
      byTag := byTag[s.tag := k];
      scripts, depends := scripts + [s], depends + [s.depends];
    }

    /** Linear dependencies between legacy versions; fails if version 3 exists without version 2. */
    method ChainLegacy() returns (ok: bool)
      requires Registered() && forall k :: 0 <= k < |scripts| ==> depends[k] == scripts[k].depends
      modifies this`depends
      ensures |depends| == |scripts|
      ensures ok <==> (3 in legacy ==> 2 in legacy)
      ensures ok ==> forall k :: 0 <= k < |scripts| ==> depends[k] == ChainedDeps(scripts, k)
    {
      var i := 3;
      while i in legacy
        invariant 3 <= i && |depends| == |scripts|
        invariant i != 3 ==> VersionsUpTo(scripts, i - 1)
        invariant forall k :: 0 <= k < |scripts| ==> depends[k] == ChainedBelow(scripts, k, i)
        decreases |set v | v in legacy && i <= v|
      {
        if i - 1 !in legacy {
          return false;
        }
        assert VersionsUpTo(scripts, i);
        VersionIs(scripts, i - 1);
        VersionIs(scripts, i);
        depends := depends[legacy[i] := [scripts[legacy[i - 1]].tag]];
        forall k | 0 <= k < |scripts|
          ensures depends[k] == ChainedBelow(scripts, k, i + 1)
        {
          ChainedStep(scripts, k, i);
        }
        FewerVersions(legacy, i);
        i := i + 1;
      }
      forall k | 0 <= k < |scripts|
        ensures depends[k] == ChainedDeps(scripts, k)
      {
        ChainedEnd(scripts, k, i);
      }
      ok := true;
    }

    /** Forward dependencies of one script: its tag joins the dependencies of every tag it names. */
    method AddForward(u: Tag) returns (ok: bool)
      requires Registered() && u in byTag
      modifies this`depends
      ensures |depends| == |scripts| && byTag[u] < |scripts|
      ensures ok <==> forall f :: f in scripts[byTag[u]].fwdDepends ==> f in byTag
      ensures ok ==> Forwarded(scripts, old(depends), depends, u)
    {
      TablesAre(scripts);
      var fwd := scripts[byTag[u]].fwdDepends;
      for j := 0 to |fwd|
        invariant |depends| == |scripts|
        invariant forall i :: 0 <= i < j ==> fwd[i] in byTag
        invariant forall t, d :: t in byTag ==>
                    (d in depends[byTag[t]] <==> d in old(depends[byTag[t]]) || (d == u && t in fwd[..j]))
      {
        if fwd[j] !in byTag {
          return false;
        }
        var k := byTag[fwd[j]];
        depends := depends[k := depends[k] + [u]];
        assert fwd[..j + 1] == fwd[..j] + [fwd[j]];
      }
      assert fwd[..|fwd|] == fwd;
      ok := true;
    }

    method Audit(u: Tag) returns (ok: bool)
      requires Registered() && u in byTag && byTag[u] < |scripts|
      ensures ok <==> forall d :: d in depends[byTag[u]] ==> d in byTag
    {
      var deps := depends[byTag[u]];
      for j := 0 to |deps|
        invariant forall i :: 0 <= i < j ==> deps[i] in byTag
      {
        if deps[j] !in byTag {
          return false;
        }
      }
      ok := true;
    }

    /** Forward dependencies are resolved and all dependencies audited, whatever order the tags are visited in. */
    method ResolveAndAudit() returns (ok: bool)
      requires Registered() && forall k :: 0 <= k < |scripts| ==> depends[k] == ChainedDeps(scripts, k)
      modifies this`depends
      ensures |depends| == |scripts|
      ensures ok <==> forall t :: t in byTag ==> Sound(scripts, t)
      ensures ok ==> ResolvedBy(scripts, depends, byTag.Keys)
    {
      assert ResolvedBy(scripts, depends, {}) by { TablesAre(scripts); }
      var done: set<Tag> := {};
      while done != byTag.Keys
        invariant done <= byTag.Keys && ResolvedBy(scripts, depends, done)
        invariant forall t :: t in done ==> Sound(scripts, t)
        decreases |byTag.Keys - done|
      {
        assert byTag.Keys - done != {};
        var u :| u in byTag.Keys - done;
        ghost var before := depends;
        ok := AddForward(u);
        if !ok {
          return;
        }
        ResolveOne(scripts, before, depends, done, u);
        SoundIff(scripts, depends, done + {u}, u);
        ok := Audit(u);
        if !ok {
          return;
        }
        assert byTag.Keys - (done + {u}) == byTag.Keys - done - {u};
        done := done + {u};
      }
      ok := true;
    }

    /** The table the worklist reads. */
    function View(): Table
      reads this
      requires |depends| == |scripts| && byTag == ByTag(scripts) && legacy == ByVersion(scripts)
    {
      TablesAre(scripts);
      Table(tagSet, untagSet, set t | t in byTag && scripts[byTag[t]].upgrade,
            map t | t in byTag :: depends[byTag[t]],
            map v | v in legacy :: scripts[legacy[v]].tag)
    }

    method RegisterAll(ss: seq<Script>)
      requires Registered() && scripts == []
      modifies this
      ensures Registered() && scripts == ss && forall k :: 0 <= k < |ss| ==> depends[k] == ss[k].depends
    {
      for i := 0 to |ss|
        invariant Registered() && scripts == ss[..i]
        invariant forall k :: 0 <= k < i ==> depends[k] == ss[k].depends
      {
        Register(ss[i]);
        assert ss[..i + 1] == ss[..i] + [ss[i]];
      }
      assert ss[..|ss|] == ss;
    }

    method LoadAll(ss: seq<Script>) returns (ok: bool)
      requires Registered() && scripts == []
      modifies this
      ensures Registered() && scripts == ss
      ensures ok <==> Loadable(ss)
      ensures ok ==> Audited(View())
      ensures ok ==> Loaded(ss, View())
      ensures ok ==> ((forall i :: 0 <= i < |ss| ==> ss[i].upgrade) ==> UpgradeOnly(View()))
    {
      RegisterAll(ss);
      ok := ChainLegacy();
      if ok {
        ok := ResolveAndAudit();
      }
      if ok {
        assert View() == TableOf(ss, depends);
        TableEdges(ss, depends);
        TableAudited(ss, depends);
        TableUpgrades(ss, depends);
      }
    }
  }
}
