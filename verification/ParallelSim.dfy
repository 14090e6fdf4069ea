/**
 The parallel simulation scheduler, after lapidary/simulate/ParallelSim.py.
 A run is a sequence of observations: clock readings, and for every task in flight
 whether it is ready. Between observations the scheduler stands at the head of one of
 its loops, so a statement about every sequence of observations is one about every
 loop head of every run.
 */
module Scheduler {
  import opened Basics
  import opened EvenSelection

  datatype Checkpoint = Checkpoint(path: string)

  datatype Status = NotRun | Invalid | Failed | Successful | TimedOut

  /** Tasks are numbered in the order they are started, which is the order their dictionary lists them. */
  type Task = nat

  /** What polling a task shows: finished, with or without a result file, or still running at some time. */
  datatype Look = Ready(resultExists: bool) | Waiting(now: real)

  datatype Observation = Observation(clock: Task -> real, look: Task -> Look)

  /** The dictionaries and counters of one run; `unsubmitted` is in natural sort order. */
  datatype State = State(
    unsubmitted: seq<Checkpoint>,
    tasks: map<Task, real>,
    results: map<Task, Checkpoint>,
    checkpoints: map<Task, Checkpoint>,
    status: map<Checkpoint, Status>,
    successes: int,
    failures: int,
    nextTask: nat)

  /** Which loop head the run stands at; `Done(true)` is an exit through the straggler loop. */
  datatype Phase = MainHead | Polling | Stragglers | Done(short: bool)

  datatype Sim = Sim(phase: Phase, s: State)

  const TIMEOUT_SECONDS := 60.0 * 60.0

  // ---------------------------------------------------------------- steps

  function Without(s: seq<Checkpoint>, xs: seq<Checkpoint>): seq<Checkpoint> {
    if s == [] then [] else
      var rest := Without(s[..|s| - 1], xs);
      if s[|s| - 1] in xs then rest else rest + [s[|s| - 1]]
  }

  function Launch(s: State, c: Checkpoint, now: real): State {
    s.(tasks := s.tasks[s.nextTask := now], results := s.results[s.nextTask := c],
       checkpoints := s.checkpoints[s.nextTask := c], nextTask := s.nextTask + 1)
  }

  function LaunchAll(s: State, cs: seq<Checkpoint>, clock: Task -> real): State
    decreases |cs|
  {
    if cs == [] then s else LaunchAll(Launch(s, cs[0], clock(s.nextTask)), cs[1..], clock)
  }

  /** One main-loop round: select what is still needed, drop it from the candidates, start it. */
  function Submit(s: State, target: int, clock: Task -> real): State {
    var picked := SelectEvenlySpaced(s.unsubmitted, target - s.successes);
    LaunchAll(s.(unsubmitted := Without(s.unsubmitted, picked)), picked, clock)
  }

  /** A task leaves two of the dictionaries and its checkpoint gets its final status. */
  function Finish(s: State, t: Task, st: Status): State {
    if t !in s.checkpoints then s else
      s.(results := s.results - {t}, checkpoints := s.checkpoints - {t},
         status := s.status[s.checkpoints[t] := st],
         successes := if st == Successful then s.successes + 1 else s.successes,
         failures := if st == Successful then s.failures else s.failures + 1)
  }

  function Outcome(resultExists: bool): Status {
    if resultExists then Successful else Failed
  }

  datatype Pass = Pass(s: State, finished: set<Task>, successful: bool, done: bool, maxTime: real)

  function PollOne(p: Pass, t: Task, look: Look): Pass {
    if t !in p.s.tasks then p else
      match look
      case Ready(exists_) =>
        p.(s := Finish(p.s, t, Outcome(exists_)), finished := p.finished + {t}, successful := true)
      case Waiting(now) =>
        if p.successful then p.(done := false, s := p.s.(tasks := p.s.tasks[t := now]))
        else p.(done := false, maxTime := if p.maxTime < now - p.s.tasks[t] then now - p.s.tasks[t] else p.maxTime)
  }

  /** The polling pass over the tasks numbered below `n`. */
  function PollBelow(s: State, look: Task -> Look, n: nat): Pass {
    if n == 0 then Pass(s, {}, false, true, 0.0) else PollOne(PollBelow(s, look, n - 1), n - 1, look(n - 1))
  }

  predicate PollTimesOut(p: Pass) {
    !p.successful && TIMEOUT_SECONDS < p.maxTime
  }

  function Sweep(p: Pass): State {
    p.s.(tasks := p.s.tasks - p.finished)
  }

  predicate DoneWaiting(p: Pass, target: int) {
    p.done || PollTimesOut(p) || Sweep(p).tasks == map[] || target <= p.s.successes
  }

  function StragglerOne(p: Pass, t: Task, look: Look): Pass {
    if t !in p.s.tasks then p else
      match look
      case Ready(exists_) => p.(s := Finish(p.s, t, Outcome(exists_)), finished := p.finished + {t}, done := false)
      case Waiting(now) =>
        if now - p.s.tasks[t] < TIMEOUT_SECONDS then p.(done := false)
        else p.(s := Finish(p.s, t, TimedOut), finished := p.finished + {t})
  }

  /** The straggler pass; `done` is the source's `ready_to_terminate`. */
  function StragglersBelow(s: State, look: Task -> Look, n: nat): Pass {
    if n == 0 then Pass(s, {}, false, true, 0.0) else StragglerOne(StragglersBelow(s, look, n - 1), n - 1, look(n - 1))
  }

  function Step(sim: Sim, target: int, o: Observation): Sim {
    var s := sim.s;
    match sim.phase
    case MainHead =>
      if s.successes < target && 0 < |s.unsubmitted| then Sim(Polling, Submit(s, target, o.clock))
      else Sim(if target <= s.successes then Done(false) else Stragglers, s)
    case Polling =>
      var p := PollBelow(s, o.look, s.nextTask);
      Sim(if DoneWaiting(p, target) then MainHead else Polling, Sweep(p))
    case Stragglers =>
      var p := StragglersBelow(s, o.look, s.nextTask);
      Sim(if p.done then Done(true) else Stragglers, Sweep(p))
    case Done(_) => sim
  }

  function Run(sim: Sim, target: int, os: seq<Observation>): Sim {
    if os == [] then sim else Step(Run(sim, target, os[..|os| - 1]), target, os[|os| - 1])
  }

  // ---------------------------------------------------------------- conservation

  predicate Terminal(st: Status) {
    st == Failed || st == Successful || st == TimedOut
  }

  ghost predicate Distinct(cs: seq<Checkpoint>) {
    forall i, j :: 0 <= i < j < |cs| ==> cs[i] != cs[j]
  }

  function Elems(cs: seq<Checkpoint>): set<Checkpoint> {
    set c | c in cs
  }

  function WithStatus(cs: set<Checkpoint>, status: map<Checkpoint, Status>, good: bool): set<Checkpoint> {
    set c | c in cs && c in status && Terminal(status[c]) && (status[c] == Successful) == good
  }

  /** The candidates that have a final status. */
  function Finished(cs: set<Checkpoint>, status: map<Checkpoint, Status>): set<Checkpoint> {
    set c | c in cs && c in status && Terminal(status[c])
  }

  ghost predicate Partition(cs: set<Checkpoint>, a: set<Checkpoint>, b: set<Checkpoint>, c: set<Checkpoint>,
                            d: set<Checkpoint>) {
    cs == a + b + c + d && a !! b && a !! c && a !! d && b !! c && b !! d && c !! d
  }

  /** Every candidate is in exactly one place: unsubmitted, about to be launched, in flight, or finished. */
  ghost predicate Split(s: State, cs: set<Checkpoint>, limbo: seq<Checkpoint>) {
    Partition(cs, Elems(s.unsubmitted), Elems(limbo), s.checkpoints.Values, Finished(cs, s.status))
  }

  lemma Select(cs: set<Checkpoint>, a: set<Checkpoint>, c: set<Checkpoint>, d: set<Checkpoint>, m: set<Checkpoint>)
    requires Partition(cs, a, {}, c, d) && m <= a
    ensures Partition(cs, a - m, m, c, d)
  {
  }

  lemma Move(cs: set<Checkpoint>, a: set<Checkpoint>, b: set<Checkpoint>, c: set<Checkpoint>, d: set<Checkpoint>,
             x: Checkpoint)
    requires Partition(cs, a, b, c, d) && x in b
    ensures Partition(cs, a, b - {x}, c + {x}, d)
  {
  }

  ghost predicate Injective(m: map<Task, Checkpoint>) {
    forall t, u :: t in m && u in m && m[t] == m[u] ==> t == u
  }

  /**
   The dictionaries of tasks: same keys apart from tasks just finished, one checkpoint per task and no
   checkpoint twice.
   */
  ghost predicate Keyed(s: State, finished: set<Task>) {
    && s.results == s.checkpoints && Injective(s.checkpoints)
    && s.tasks.Keys == s.checkpoints.Keys + finished && finished !! s.checkpoints.Keys
    && (forall t :: t in s.tasks ==> t < s.nextTask)
  }

  ghost predicate Counted(s: State, cs: set<Checkpoint>, base: (int, int)) {
    && s.successes == base.0 + |WithStatus(cs, s.status, true)|
    && s.failures == base.1 + |WithStatus(cs, s.status, false)|
  }

  /** `base` holds the counters the run started from, `cs` its candidates. */
  ghost predicate Conserved(s: State, cs: set<Checkpoint>, base: (int, int), finished: set<Task>,
                            limbo: seq<Checkpoint>) {
    && Distinct(s.unsubmitted) && Distinct(limbo)
    && Split(s, cs, limbo) && Keyed(s, finished) && Counted(s, cs, base)
  }

  lemma ValuesWithout(m: map<Task, Checkpoint>, t: Task)
    requires Injective(m) && t in m
    ensures (m - {t}).Values == m.Values - {m[t]} && Injective(m - {t})
  {
    var m' := m - {t};
    forall c | c in m.Values - {m[t]}
      ensures c in m'.Values
    {
      var u :| u in m && m[u] == c;
      assert u in m' && m'[u] == c;
    }
    forall c | c in m'.Values
      ensures c in m.Values && c != m[t]
    {
      var u :| u in m' && m'[u] == c;
      assert u in m && u != t;
    }
  }

  lemma FinishSplit(s: State, cs: set<Checkpoint>, finished: set<Task>, t: Task, st: Status)
    requires Split(s, cs, []) && Keyed(s, finished) && t in s.checkpoints && Terminal(st)
    ensures Split(Finish(s, t, st), cs, []) && Keyed(Finish(s, t, st), finished + {t})
  {
    var s', c := Finish(s, t, st), s.checkpoints[t];
    ValuesWithout(s.checkpoints, t);
    assert c in s.checkpoints.Values && c in cs;
    assert Finished(cs, s'.status) == Finished(cs, s.status) + {c};
    assert s.checkpoints.Values == s'.checkpoints.Values + {c};
  }

  lemma StatusCounted(cs: set<Checkpoint>, status: map<Checkpoint, Status>, c: Checkpoint, st: Status, good: bool)
    requires c in cs && Terminal(st) && c !in Finished(cs, status)
    ensures |WithStatus(cs, status[c := st], good)| ==
            |WithStatus(cs, status, good)| + if good == (st == Successful) then 1 else 0
  {
    var before, after := WithStatus(cs, status, good), WithStatus(cs, status[c := st], good);
    if good == (st == Successful) {
      assert after == before + {c} && c !in before;
    } else {
      assert after == before;
    }
  }

  lemma FinishConserved(s: State, cs: set<Checkpoint>, base: (int, int), finished: set<Task>, t: Task, st: Status)
    requires Conserved(s, cs, base, finished, []) && t in s.tasks && t !in finished && Terminal(st)
    ensures Conserved(Finish(s, t, st), cs, base, finished + {t}, [])
  {
    var c := s.checkpoints[t];
    assert c in s.checkpoints.Values && c in cs;
    FinishSplit(s, cs, finished, t, st);
    StatusCounted(cs, s.status, c, st, true);
    StatusCounted(cs, s.status, c, st, false);
  }

  // ---------------------------------------------------------------- passes

  /** What a pass over the tasks below `n` of state `s` leaves alone, and how far the success count can move. */
  ghost predicate PassFrame(p: Pass, s: State, n: nat) {
    && (forall t :: t in p.finished ==> t < n && t in s.tasks)
    && p.s.tasks.Keys == s.tasks.Keys && p.s.unsubmitted == s.unsubmitted && p.s.nextTask == s.nextTask
    && s.successes <= p.s.successes <= s.successes + |p.finished|
  }

  lemma PassFinish(p: Pass, s: State, t: Task, st: Status, q: Pass)
    requires PassFrame(p, s, t) && t in s.tasks
    requires q.s == Finish(p.s, t, st) && q.finished == p.finished + {t}
    ensures PassFrame(q, s, t + 1)
  {
    assert t !in p.finished;
  }

  /** What a pass that is done has seen: every task is finished. */
  ghost predicate Saw(p: Pass, s: State, n: nat) {
    p.done ==> forall t :: t in s.tasks && t < n ==> t in p.finished
  }

  lemma PollOneFrame(p: Pass, s: State, t: Task, l: Look)
    requires PassFrame(p, s, t) && Saw(p, s, t)
    ensures PassFrame(PollOne(p, t, l), s, t + 1) && Saw(PollOne(p, t, l), s, t + 1)
  {
    if t in p.s.tasks && l.Ready? {
      PassFinish(p, s, t, Outcome(l.resultExists), PollOne(p, t, l));
    }
  }

  lemma StragglerOneFrame(p: Pass, s: State, t: Task, l: Look)
    requires PassFrame(p, s, t) && Saw(p, s, t)
    ensures PassFrame(StragglerOne(p, t, l), s, t + 1) && Saw(StragglerOne(p, t, l), s, t + 1)
  {
    if t in p.s.tasks && (l.Ready? || TIMEOUT_SECONDS <= l.now - p.s.tasks[t]) {
      PassFinish(p, s, t, if l.Ready? then Outcome(l.resultExists) else TimedOut, StragglerOne(p, t, l));
    }
  }

  lemma PollFrame(s: State, look: Task -> Look, n: nat) returns (p: Pass)
    ensures p == PollBelow(s, look, n) && PassFrame(p, s, n) && Saw(p, s, n)
  {
    p := PollBelow(s, look, 0);
    for t := 0 to n
      invariant p == PollBelow(s, look, t) && PassFrame(p, s, t) && Saw(p, s, t)
    {
      PollOneFrame(p, s, t, look(t));
      p := PollOne(p, t, look(t));
    }
  }

  lemma StragglerFrame(s: State, look: Task -> Look, n: nat) returns (p: Pass)
    ensures p == StragglersBelow(s, look, n) && PassFrame(p, s, n) && Saw(p, s, n)
  {
    p := StragglersBelow(s, look, 0);
    for t := 0 to n
      invariant p == StragglersBelow(s, look, t) && PassFrame(p, s, t) && Saw(p, s, t)
    {
      StragglerOneFrame(p, s, t, look(t));
      p := StragglerOne(p, t, look(t));
    }
  }

  lemma PollOneConserved(p: Pass, cs: set<Checkpoint>, base: (int, int), t: Task, l: Look)
    requires Conserved(p.s, cs, base, p.finished, []) && t !in p.finished
    ensures Conserved(PollOne(p, t, l).s, cs, base, PollOne(p, t, l).finished, [])
  {
    if t in p.s.tasks && l.Ready? {
      FinishConserved(p.s, cs, base, p.finished, t, Outcome(l.resultExists));
    } else {
      assert PollOne(p, t, l).s.tasks.Keys == p.s.tasks.Keys;
    }
  }

  lemma StragglerOneConserved(p: Pass, cs: set<Checkpoint>, base: (int, int), t: Task, l: Look)
    requires Conserved(p.s, cs, base, p.finished, []) && t !in p.finished
    ensures Conserved(StragglerOne(p, t, l).s, cs, base, StragglerOne(p, t, l).finished, [])
  {
    if t in p.s.tasks && (l.Ready? || TIMEOUT_SECONDS <= l.now - p.s.tasks[t]) {
      FinishConserved(p.s, cs, base, p.finished, t, if l.Ready? then Outcome(l.resultExists) else TimedOut);
    }
  }

  lemma PollConserved(s: State, cs: set<Checkpoint>, base: (int, int), look: Task -> Look, n: nat) returns (p: Pass)
    requires Conserved(s, cs, base, {}, [])
    ensures p == PollBelow(s, look, n) && Conserved(p.s, cs, base, p.finished, [])
  {
    p := PollBelow(s, look, 0);
    for t := 0 to n
      invariant p == PollBelow(s, look, t)
      invariant Conserved(p.s, cs, base, p.finished, [])
    {
      var q := PollFrame(s, look, t);
      assert t !in q.finished;
      PollOneConserved(p, cs, base, t, look(t));
      p := PollOne(p, t, look(t));
    }
  }

  lemma StragglersConserved(s: State, cs: set<Checkpoint>, base: (int, int), look: Task -> Look, n: nat)
      returns (p: Pass)
    requires Conserved(s, cs, base, {}, [])
    ensures p == StragglersBelow(s, look, n) && Conserved(p.s, cs, base, p.finished, [])
  {
    p := StragglersBelow(s, look, 0);
    for t := 0 to n
      invariant p == StragglersBelow(s, look, t)
      invariant Conserved(p.s, cs, base, p.finished, [])
    {
      var q := StragglerFrame(s, look, t);
      assert t !in q.finished;
      StragglerOneConserved(p, cs, base, t, look(t));
      p := StragglerOne(p, t, look(t));
    }
  }

  lemma SweepConserved(p: Pass, cs: set<Checkpoint>, base: (int, int))
    requires Conserved(p.s, cs, base, p.finished, [])
    ensures Conserved(Sweep(p), cs, base, {}, [])
    ensures Sweep(p).tasks.Keys == p.s.tasks.Keys - p.finished
  {
    assert Sweep(p).tasks.Keys == p.s.checkpoints.Keys;
  }

  // ---------------------------------------------------------------- submission

  lemma {:induction false} WithoutIs(s: seq<Checkpoint>, xs: seq<Checkpoint>)
    requires Distinct(s)
    ensures Distinct(Without(s, xs)) && Elems(Without(s, xs)) == Elems(s) - Elems(xs)
  {
    if s != [] {
      var init, last := s[..|s| - 1], s[|s| - 1];
      WithoutIs(init, xs);
      var w := Without(init, xs);
      assert last !in init;
      assert s == init + [last];
      assert Elems(s) == Elems(init) + {last};
      assert forall c :: c in w ==> c in Elems(w);
      assert last !in w;
      assert Elems(w + [last]) == Elems(w) + {last};
    }
  }

  lemma {:induction false} DistinctCount(s: seq<Checkpoint>)
    requires Distinct(s)
    ensures |Elems(s)| == |s|
  {
    if s != [] {
      var init, last := s[..|s| - 1], s[|s| - 1];
      DistinctCount(init);
      assert s == init + [last] && last !in init;
      assert Elems(s) == Elems(init) + {last};
    }
  }

  lemma LimboHead(limbo: seq<Checkpoint>)
    requires Distinct(limbo) && limbo != []
    ensures Distinct(limbo[1..]) && limbo[0] in Elems(limbo) && Elems(limbo[1..]) == Elems(limbo) - {limbo[0]}
  {
    assert limbo == [limbo[0]] + limbo[1..];
    assert forall i :: 1 <= i < |limbo| ==> limbo[i] in limbo[1..];
  }

  lemma LaunchTasks(m: map<Task, real>, ks: set<Task>, n: nat, now: real)
    requires m.Keys == ks + {} && forall t :: t in m ==> t < n
    ensures var m' := m[n := now]; m'.Keys == ks + {n} + {} && (forall t :: t in m' ==> t < n + 1) && |m'| == |m| + 1
  {
    assert m[n := now].Keys == m.Keys + {n};
  }

  lemma LaunchKeyed(s: State, c: Checkpoint, now: real)
    requires Keyed(s, {}) && c !in s.checkpoints.Values
    ensures Keyed(Launch(s, c, now), {})
    ensures Launch(s, c, now).checkpoints.Values == s.checkpoints.Values + {c}
  {
    LaunchTasks(s.tasks, s.checkpoints.Keys, s.nextTask, now);
    LaunchValues(s.checkpoints, s.nextTask, c);
  }

  lemma LaunchConserved(s: State, cs: set<Checkpoint>, base: (int, int), limbo: seq<Checkpoint>, now: real)
    requires Conserved(s, cs, base, {}, limbo) && limbo != []
    ensures Conserved(Launch(s, limbo[0], now), cs, base, {}, limbo[1..])
  {
    LimboHead(limbo);
    Move(cs, Elems(s.unsubmitted), Elems(limbo), s.checkpoints.Values, Finished(cs, s.status), limbo[0]);
    LaunchKeyed(s, limbo[0], now);
  }

  lemma LaunchValues(m: map<Task, Checkpoint>, t: Task, c: Checkpoint)
    requires Injective(m) && t !in m && c !in m.Values
    ensures Injective(m[t := c]) && m[t := c].Values == m.Values + {c} && m[t := c].Keys == m.Keys + {t}
  {
    var m' := m[t := c];
    assert t in m' && c in m'.Values;
    forall d | d in m.Values
      ensures d in m'.Values
    {
      var u :| u in m && m[u] == d;
      assert u in m' && m'[u] == d;
    }
    forall u, v | u in m' && v in m' && m'[u] == m'[v]
      ensures u == v
    {
      assert u != t ==> m[u] in m.Values;
      assert v != t ==> m[v] in m.Values;
    }
  }

  lemma SelectedConserved(s: State, cs: set<Checkpoint>, base: (int, int), picked: seq<Checkpoint>)
    requires Conserved(s, cs, base, {}, []) && Distinct(picked) &&
             (forall i :: 0 <= i < |picked| ==> picked[i] in s.unsubmitted)
    ensures Conserved(s.(unsubmitted := Without(s.unsubmitted, picked)), cs, base, {}, picked)
  {
    WithoutIs(s.unsubmitted, picked);
    assert Elems([]) == {};
    Select(cs, Elems(s.unsubmitted), s.checkpoints.Values, Finished(cs, s.status), Elems(picked));
  }

  lemma {:induction false} LaunchAllConserved(s: State, cs: set<Checkpoint>, base: (int, int), picked: seq<Checkpoint>,
                                              clock: Task -> real)
    requires Conserved(s, cs, base, {}, picked)
    ensures Conserved(LaunchAll(s, picked, clock), cs, base, {}, [])
    decreases |picked|
  {
    if picked != [] {
      LaunchConserved(s, cs, base, picked, clock(s.nextTask));
      LaunchAllConserved(Launch(s, picked[0], clock(s.nextTask)), cs, base, picked[1..], clock);
    }
  }

  lemma {:induction false} LaunchAllFrame(s: State, picked: seq<Checkpoint>, clock: Task -> real)
    requires forall t :: t in s.tasks ==> t < s.nextTask
    ensures var s' := LaunchAll(s, picked, clock);
            && s' == s.(tasks := s'.tasks, results := s'.results, checkpoints := s'.checkpoints,
                nextTask := s'.nextTask)
            && |s'.tasks| == |s.tasks| + |picked|
    decreases |picked|
  {
    if picked != [] {
      LaunchTasks(s.tasks, s.tasks.Keys, s.nextTask, clock(s.nextTask));
      LaunchAllFrame(Launch(s, picked[0], clock(s.nextTask)), picked[1..], clock);
    }
  }

  lemma WithoutCount(s: seq<Checkpoint>, xs: seq<Checkpoint>)
    requires Distinct(s) && Distinct(xs) && forall i :: 0 <= i < |xs| ==> xs[i] in s
    ensures |Without(s, xs)| == |s| - |xs| && Elems(Without(s, xs)) == Elems(s) - Elems(xs)
  {
    WithoutIs(s, xs);
    DistinctCount(s);
    DistinctCount(xs);
    DistinctCount(Without(s, xs));
    assert Elems(xs) <= Elems(s);
    assert Elems(s) == (Elems(s) - Elems(xs)) + Elems(xs);
  }

  /** How many checkpoints a main-loop round starts: as many as are still needed, or all that are left. */
  function RoundSize(s: State, target: int): int {
    if |s.unsubmitted| < target - s.successes then |s.unsubmitted| else target - s.successes
  }

  lemma PickedConserved(s: State, cs: set<Checkpoint>, base: (int, int), target: int)
      returns (picked: seq<Checkpoint>, s1: State)
    requires Conserved(s, cs, base, {}, []) && s.successes < target && 0 < |s.unsubmitted|
    ensures picked == SelectEvenlySpaced(s.unsubmitted, target - s.successes)
    ensures s1 == s.(unsubmitted := Without(s.unsubmitted, picked)) && Conserved(s1, cs, base, {}, picked)
    ensures |picked| == RoundSize(s, target)
    ensures |s1.unsubmitted| == |s.unsubmitted| - |picked| && Elems(s1.unsubmitted) <= Elems(s.unsubmitted)
  {
    picked := SelectEvenlySpaced(s.unsubmitted, target - s.successes);
    SelectionDistinct(s.unsubmitted, target - s.successes);
    SelectedConserved(s, cs, base, picked);
    WithoutCount(s.unsubmitted, picked);
    s1 := s.(unsubmitted := Without(s.unsubmitted, picked));
  }

  /** Each main-loop round starts the selected checkpoints, at least one and no more than needed, and loses none. */
  lemma SubmitConserved(s: State, cs: set<Checkpoint>, base: (int, int), target: int, clock: Task -> real)
      returns (s': State)
    requires Conserved(s, cs, base, {}, []) && s.successes < target && 0 < |s.unsubmitted|
    ensures s' == Submit(s, target, clock)
    ensures Conserved(s', cs, base, {}, [])
    ensures 1 <= RoundSize(s, target) <= target - s.successes
    ensures |s'.unsubmitted| == |s.unsubmitted| - RoundSize(s, target) && Elems(s'.unsubmitted) <= Elems(s.unsubmitted)
    ensures s'.successes == s.successes && s'.status == s.status
    ensures |s'.tasks| == |s.tasks| + RoundSize(s, target)
  {
    var picked, s1 := PickedConserved(s, cs, base, target);
    LaunchAllFrame(s1, picked, clock);
    LaunchAllConserved(s1, cs, base, picked, clock);
    s' := LaunchAll(s1, picked, clock);
  }

  // ---------------------------------------------------------------- every run

  /** What holds at every loop head: conservation, and what each way out of a loop implies. */
  ghost predicate Consistent(sim: Sim, cs: set<Checkpoint>, base: (int, int), target: int) {
    && Conserved(sim.s, cs, base, {}, [])
    && (sim.phase.Stragglers? ==> sim.s.unsubmitted == [])
    && (sim.phase == Done(true) ==> sim.s.unsubmitted == [] && sim.s.tasks == map[])
    && (sim.phase == Done(false) ==> target <= sim.s.successes)
  }

  /** Final statuses never change, and a submitted checkpoint never becomes submittable again. */
  ghost predicate Keeps(before: State, after: State, cs: set<Checkpoint>) {
    && Elems(after.unsubmitted) <= Elems(before.unsubmitted)
    && forall c :: c in Finished(cs, before.status) ==> c in after.status && after.status[c] == before.status[c]
  }

  lemma PollStep(s: State, cs: set<Checkpoint>, base: (int, int), look: Task -> Look) returns (s': State)
    requires Conserved(s, cs, base, {}, [])
    ensures s' == Sweep(PollBelow(s, look, s.nextTask)) && Conserved(s', cs, base, {}, [])
  {
    var p := PollConserved(s, cs, base, look, s.nextTask);
    SweepConserved(p, cs, base);
    s' := Sweep(p);
  }

  lemma StragglerStep(s: State, cs: set<Checkpoint>, base: (int, int), look: Task -> Look) returns (s': State)
    requires Conserved(s, cs, base, {}, [])
    ensures s' == Sweep(StragglersBelow(s, look, s.nextTask)) && Conserved(s', cs, base, {}, [])
    ensures s'.unsubmitted == s.unsubmitted
    ensures StragglersBelow(s, look, s.nextTask).done ==> s'.tasks == map[]
  {
    var p := StragglersConserved(s, cs, base, look, s.nextTask);
    SweepConserved(p, cs, base);
    var _ := StragglerFrame(s, look, s.nextTask);
    s' := Sweep(p);
    if p.done {
      assert s'.tasks.Keys == {};
    }
  }

  lemma StepConsistent(sim: Sim, cs: set<Checkpoint>, base: (int, int), target: int, o: Observation) returns (sim': Sim)
    requires Consistent(sim, cs, base, target)
    ensures sim' == Step(sim, target, o) && Consistent(sim', cs, base, target)
  {
    sim' := Step(sim, target, o);
    match sim.phase {
      case MainHead =>
        if sim.s.successes < target && 0 < |sim.s.unsubmitted| {
          var _ := SubmitConserved(sim.s, cs, base, target, o.clock);
        }
      case Polling =>
        var _ := PollStep(sim.s, cs, base, o.look);
      case Stragglers =>
        var _ := StragglerStep(sim.s, cs, base, o.look);
      case Done(_) =>
    }
  }

  /** Conservation at every loop head of every run. */
  lemma RunConsistent(sim: Sim, cs: set<Checkpoint>, base: (int, int), target: int, os: seq<Observation>)
      returns (sim': Sim)
    requires Consistent(sim, cs, base, target)
    ensures sim' == Run(sim, target, os) && Consistent(sim', cs, base, target)
  {
    sim' := sim;
    for k := 0 to |os|
      invariant sim' == Run(sim, target, os[..k]) && Consistent(sim', cs, base, target)
    {
      assert os[..k + 1][..k] == os[..k];
      sim' := StepConsistent(sim', cs, base, target, os[k]);
    }
    assert os[..|os|] == os;
  }

  lemma AllFinished(s: State, cs: set<Checkpoint>, base: (int, int))
    requires Conserved(s, cs, base, {}, []) && s.unsubmitted == [] && s.tasks == map[]
    ensures s.tasks.Keys == s.results.Keys == s.checkpoints.Keys == {} && Finished(cs, s.status) == cs
    ensures s.successes + s.failures == base.0 + base.1 + |cs|
  {
    assert Elems([]) == {} && s.checkpoints.Keys == {};
    assert s.checkpoints.Values == {};
    var good, bad := WithStatus(cs, s.status, true), WithStatus(cs, s.status, false);
    assert Finished(cs, s.status) == good + bad && good !! bad;
  }

  /**
   A run that ends short of its target has finished every candidate: each has a final status and
   nothing is in flight.
   */
  lemma ShortExitComplete(sim: Sim, cs: set<Checkpoint>, base: (int, int), target: int, os: seq<Observation>)
    requires Consistent(sim, cs, base, target) && Run(sim, target, os).phase == Done(true)
    ensures var s := Run(sim, target, os).s;
            && s.tasks.Keys == s.results.Keys == s.checkpoints.Keys == {}
            && Finished(cs, s.status) == cs
            && s.successes + s.failures == base.0 + base.1 + |cs|
  {
    var sim' := RunConsistent(sim, cs, base, target, os);
    AllFinished(sim'.s, cs, base);
  }

  // ---------------------------------------------------------------- nothing happens twice

  lemma FinishKeeps(s0: State, s: State, cs: set<Checkpoint>, t: Task, st: Status)
    requires Keeps(s0, s, cs) && Split(s, cs, []) && Terminal(st)
    ensures Keeps(s0, Finish(s, t, st), cs)
  {
    if t in s.checkpoints {
      assert s.checkpoints[t] in s.checkpoints.Values;
      forall c | c in Finished(cs, s0.status)
        ensures c != s.checkpoints[t]
      {
        assert c in Finished(cs, s.status);
      }
    }
  }

  lemma PollOneKeeps(s0: State, p: Pass, cs: set<Checkpoint>, t: Task, l: Look)
    requires Keeps(s0, p.s, cs) && Split(p.s, cs, [])
    ensures Keeps(s0, PollOne(p, t, l).s, cs)
  {
    if l.Ready? {
      FinishKeeps(s0, p.s, cs, t, Outcome(l.resultExists));
    }
  }

  lemma StragglerOneKeeps(s0: State, p: Pass, cs: set<Checkpoint>, t: Task, l: Look)
    requires Keeps(s0, p.s, cs) && Split(p.s, cs, [])
    ensures Keeps(s0, StragglerOne(p, t, l).s, cs)
  {
    FinishKeeps(s0, p.s, cs, t, if l.Ready? then Outcome(l.resultExists) else TimedOut);
  }

  lemma PollKeeps(s: State, cs: set<Checkpoint>, base: (int, int), look: Task -> Look, n: nat) returns (p: Pass)
    requires Conserved(s, cs, base, {}, [])
    ensures p == PollBelow(s, look, n) && Keeps(s, p.s, cs)
  {
    p := PollBelow(s, look, 0);
    for t := 0 to n
      invariant p == PollBelow(s, look, t) && Keeps(s, p.s, cs)
    {
      var q := PollConserved(s, cs, base, look, t);
      PollOneKeeps(s, q, cs, t, look(t));
      p := PollOne(p, t, look(t));
    }
  }

  lemma StragglersKeep(s: State, cs: set<Checkpoint>, base: (int, int), look: Task -> Look, n: nat) returns (p: Pass)
    requires Conserved(s, cs, base, {}, [])
    ensures p == StragglersBelow(s, look, n) && Keeps(s, p.s, cs)
  {
    p := StragglersBelow(s, look, 0);
    for t := 0 to n
      invariant p == StragglersBelow(s, look, t) && Keeps(s, p.s, cs)
    {
      var q := StragglersConserved(s, cs, base, look, t);
      StragglerOneKeeps(s, q, cs, t, look(t));
      p := StragglerOne(p, t, look(t));
    }
  }

  lemma StepKeeps(sim: Sim, cs: set<Checkpoint>, base: (int, int), target: int, o: Observation)
    requires Consistent(sim, cs, base, target)
    ensures Keeps(sim.s, Step(sim, target, o).s, cs)
  {
    match sim.phase {
      case MainHead =>
        if sim.s.successes < target && 0 < |sim.s.unsubmitted| {
          var _ := SubmitConserved(sim.s, cs, base, target, o.clock);
        }
      case Polling =>
        var _ := PollKeeps(sim.s, cs, base, o.look, sim.s.nextTask);
      case Stragglers =>
        var _ := StragglersKeep(sim.s, cs, base, o.look, sim.s.nextTask);
      case Done(_) =>
    }
  }

  /** Over any stretch of any run, no checkpoint is submitted again or changes its final status. */
  lemma RunKeeps(sim: Sim, cs: set<Checkpoint>, base: (int, int), target: int, os: seq<Observation>) returns (sim': Sim)
    requires Consistent(sim, cs, base, target)
    ensures sim' == Run(sim, target, os) && Keeps(sim.s, sim'.s, cs)
  {
    sim' := sim;
    for k := 0 to |os|
      invariant sim' == Run(sim, target, os[..k]) && Consistent(sim', cs, base, target) && Keeps(sim.s, sim'.s, cs)
    {
      assert os[..k + 1][..k] == os[..k];
      StepKeeps(sim', cs, base, target, os[k]);
      KeepsAlong(sim.s, sim'.s, Step(sim', target, os[k]).s, cs);
      sim' := StepConsistent(sim', cs, base, target, os[k]);
    }
    assert os[..|os|] == os;
  }

  lemma KeepsAlong(a: State, b: State, c: State, cs: set<Checkpoint>)
    requires Keeps(a, b, cs) && Keeps(b, c, cs)
    ensures Keeps(a, c, cs)
  {
    forall x | x in Finished(cs, a.status)
      ensures x in c.status && c.status[x] == a.status[x]
    {
      assert x in Finished(cs, b.status);
    }
  }

  // ---------------------------------------------------------------- the target

  /** No polling pass of the run gives up on its tasks. */
  ghost predicate NoPollTimeout(sim: Sim, target: int, os: seq<Observation>) {
    os == [] ||
    var init, o := os[..|os| - 1], os[|os| - 1];
    NoPollTimeout(sim, target, init) && PollsPatiently(Run(sim, target, init), o)
  }

  predicate PollsPatiently(sim: Sim, o: Observation) {
    sim.phase.Polling? ==> !PollTimesOut(PollBelow(sim.s, o.look, sim.s.nextTask))
  }

  /** Without polling timeouts: what is running still fits under the target. */
  ghost predicate UnderTarget(sim: Sim, target: int, start: int) {
    && sim.s.successes <= (if target < start then start else target)
    && (sim.phase.MainHead? ==> sim.s.tasks == map[] || target <= sim.s.successes)
    && (sim.phase.Polling? ==> sim.s.successes + |sim.s.tasks| <= target)
    && (sim.phase.Stragglers? ==> sim.s.tasks == map[])
  }

  lemma SweepCount(p: Pass, s: State, n: nat)
    requires PassFrame(p, s, n)
    ensures |Sweep(p).tasks| == |s.tasks| - |p.finished|
    ensures p.finished == s.tasks.Keys ==> Sweep(p).tasks == map[]
    ensures s.tasks == map[] ==> Sweep(p).tasks == map[] && p.s.successes == s.successes
  {
    assert p.finished <= s.tasks.Keys;
    assert Sweep(p).tasks.Keys == s.tasks.Keys - p.finished;
    assert s.tasks.Keys == (s.tasks.Keys - p.finished) + p.finished;
  }

  lemma PollUnderTarget(s: State, target: int, look: Task -> Look)
    requires s.successes + |s.tasks| <= target && forall t :: t in s.tasks ==> t < s.nextTask
    ensures var p := PollBelow(s, look, s.nextTask);
            && Sweep(p).successes + |Sweep(p).tasks| <= target
            && (p.done ==> Sweep(p).tasks == map[])
  {
    var p := PollFrame(s, look, s.nextTask);
    SweepCount(p, s, s.nextTask);
    if p.done {
      assert p.finished == s.tasks.Keys;
    }
  }

  lemma StepUnderTarget(sim: Sim, cs: set<Checkpoint>, base: (int, int), target: int, start: int, o: Observation)
    requires Consistent(sim, cs, base, target) && UnderTarget(sim, target, start) && PollsPatiently(sim, o)
    ensures UnderTarget(Step(sim, target, o), target, start)
  {
    var s := sim.s;
    match sim.phase {
      case MainHead =>
        if s.successes < target && 0 < |s.unsubmitted| {
          var _ := SubmitConserved(s, cs, base, target, o.clock);
        }
      case Polling =>
        PollUnderTarget(s, target, o.look);
      case Stragglers =>
        var p := StragglerFrame(s, o.look, s.nextTask);
        SweepCount(p, s, s.nextTask);
      case Done(_) =>
    }
  }

  /** In a run without polling timeouts the success count never passes the target. */
  lemma {:induction false} NoOvershoot(sim: Sim, cs: set<Checkpoint>, base: (int, int), target: int, start: int,
                                       os: seq<Observation>)
    returns (sim': Sim)
    requires Consistent(sim, cs, base, target) && UnderTarget(sim, target, start) && NoPollTimeout(sim, target, os)
    ensures sim' == Run(sim, target, os) && UnderTarget(sim', target, start)
    decreases |os|
  {
    sim' := sim;
    if os != [] {
      var init, o := os[..|os| - 1], os[|os| - 1];
      sim' := NoOvershoot(sim, cs, base, target, start, init);
      var _ := RunConsistent(sim, cs, base, target, init);
      StepUnderTarget(sim', cs, base, target, start, o);
      sim' := Step(sim', target, o);
    }
  }

  /** A fresh start: nothing in flight, and the counters stand where the run begins. */
  ghost predicate Fresh(s: State, cs: set<Checkpoint>) {
    Conserved(s, cs, (s.successes, s.failures), {}, []) && s.tasks == map[]
  }

  // ---------------------------------------------------------------- the scheduler object

  lemma RunExtend(sim: Sim, target: int, os: seq<Observation>, k: nat)
    requires k < |os|
    ensures Run(sim, target, os[..k + 1]) == Step(Run(sim, target, os[..k]), target, os[k])
  {
    assert os[..k + 1][..k] == os[..k];
  }

  lemma DoneStays(sim: Sim, target: int, o: Observation)
    requires sim.phase.Done?
    ensures Step(sim, target, o) == sim
  {
  }

  lemma RunStopped(sim: Sim, target: int, os: seq<Observation>, k: nat)
    requires k <= |os| && Run(sim, target, os[..k]).phase.Done?
    ensures Run(sim, target, os) == Run(sim, target, os[..k])
  {
    var r := Run(sim, target, os[..k]);
    for j := k to |os|
      invariant Run(sim, target, os[..j]) == r
    {
      RunExtend(sim, target, os, j);
      DoneStays(r, target, os[j]);
    }
    assert os[..|os|] == os;
  }

  lemma RunKeyed(sim: Sim, cs: set<Checkpoint>, base: (int, int), target: int, os: seq<Observation>)
    requires Consistent(sim, cs, base, target)
    ensures Keyed(Run(sim, target, os).s, {})
  {
    var _ := RunConsistent(sim, cs, base, target, os);
  }

  lemma LaunchNext(s: State, cs: seq<Checkpoint>, i: nat, clock: Task -> real)
    requires i < |cs|
    ensures LaunchAll(s, cs[i..], clock) == LaunchAll(Launch(s, cs[i], clock(s.nextTask)), cs[i + 1..], clock)
  {
    assert cs[i..][1..] == cs[i + 1..];
  }

  class ParallelSim {
    const target: int
    var allProcArgs: seq<Checkpoint>
    var tasks: map<Task, real>
    var taskResults: map<Task, Checkpoint>
    var taskCheckpoint: map<Task, Checkpoint>
    var status: map<Checkpoint, Status>
    var successful: int
    var failed: int
    var nextTask: nat

    function View(): State
      reads this
    {
      State(allProcArgs, tasks, taskResults, taskCheckpoint, status, successful, failed, nextTask)
    }

    constructor (s: State, target: int)
      ensures View() == s && this.target == target
    {
      this.target := target;
      allProcArgs, tasks, taskResults, taskCheckpoint := s.unsubmitted, s.tasks, s.results, s.checkpoints;
      status, successful, failed, nextTask := s.status, s.successes, s.failures, s.nextTask;
    }

    method LaunchTask(c: Checkpoint, clock: Task -> real)
      modifies this
      ensures View() == Launch(old(View()), c, clock(old(nextTask)))
    {
      var task := nextTask;
      nextTask := nextTask + 1;
      tasks := tasks[task := clock(task)];
      taskResults := taskResults[task := c];
      taskCheckpoint := taskCheckpoint[task := c];
    }

    method SubmitRound(clock: Task -> real)
      modifies this
      ensures View() == Submit(old(View()), target, clock)
    {
      var picked := SelectEvenlySpaced(allProcArgs, target - successful);
      allProcArgs := Without(allProcArgs, picked);
      ghost var all := LaunchAll(View(), picked, clock);
      assert picked[0..] == picked;
      for i := 0 to |picked|
        invariant LaunchAll(View(), picked[i..], clock) == all
      {
        LaunchNext(View(), picked, i, clock);
        LaunchTask(picked[i], clock);
      }
      assert LaunchAll(View(), [], clock) == View();
    }

    /** A task leaves the result and checkpoint dictionaries and is counted; `tasks` is swept after the pass. */
    method Conclude(t: Task, st: Status)
      requires t in taskCheckpoint && t in taskResults
      modifies this
      ensures View() == Finish(old(View()), t, st)
    {
      var checkpoint := taskCheckpoint[t];
      taskResults := taskResults - {t};
      taskCheckpoint := taskCheckpoint - {t};
      if st == Successful {
        successful := successful + 1;
      } else {
        failed := failed + 1;
      }
      status := status[checkpoint := st];
    }

    /** Every task that is not finished has its entries in the other two dictionaries. */
    ghost predicate Entered(finished: set<Task>)
      reads this
    {
      tasks.Keys == taskCheckpoint.Keys + finished && taskResults.Keys == taskCheckpoint.Keys
    }

    /** The body of the polling loop, for a task that is there. */
    method PollTask(t: Task, l: Look, finished: set<Task>, anyDone: bool, maxTime: real)
      returns (finished': set<Task>, anyDone': bool, waiting: bool, maxTime': real)
      requires Entered(finished) && t in tasks && t !in finished
      modifies this
      ensures Entered(finished') && finished <= finished' <= finished + {t} && nextTask == old(nextTask)
      ensures forall done :: Pass(View(), finished', anyDone', done && !waiting, maxTime') ==
                             PollOne(Pass(old(View()), finished, anyDone, done, maxTime), t, l)
    {
      finished', anyDone', waiting, maxTime' := finished, anyDone, !l.Ready?, maxTime;
      if l.Ready? {
        anyDone' := true;
        finished' := finished + {t};
        Conclude(t, Outcome(l.resultExists));
      } else if anyDone {
        tasks := tasks[t := l.now];
      } else if maxTime < l.now - tasks[t] {
        maxTime' := l.now - tasks[t];
      }
    }

    method PollTasks(look: Task -> Look) returns (doneWaiting: bool)
      requires Keyed(View(), {})
      modifies this
      ensures View() == Sweep(PollBelow(old(View()), look, old(nextTask)))
      ensures doneWaiting == DoneWaiting(PollBelow(old(View()), look, old(nextTask)), target)
    {
      var n, finished: set<Task>, anyDone, maxTime := nextTask, {}, false, 0.0;
      doneWaiting := true;
      ghost var start := View();
      for t := 0 to n
        invariant Pass(View(), finished, anyDone, doneWaiting, maxTime) == PollBelow(start, look, t)
        invariant Entered(finished) && forall u :: u in finished ==> u < t
      {
        if t in tasks {
          var waiting;
          finished, anyDone, waiting, maxTime := PollTask(t, look(t), finished, anyDone, maxTime);
          doneWaiting := doneWaiting && !waiting;
        }
      }
      tasks := tasks - finished;
      if (!anyDone && TIMEOUT_SECONDS < maxTime) || tasks == map[] || target <= successful {
        doneWaiting := true;
      }
    }

    /** The body of the straggler loop, for a task that is there. */
    method PollStraggler(t: Task, l: Look, finished: set<Task>) returns (finished': set<Task>, waiting: bool)
      requires Entered(finished) && t in tasks && t !in finished
      modifies this
      ensures Entered(finished') && finished <= finished' <= finished + {t} && nextTask == old(nextTask)
      ensures forall done :: Pass(View(), finished', false, done && !waiting, 0.0) ==
                             StragglerOne(Pass(old(View()), finished, false, done, 0.0), t, l)
    {
      finished', waiting := finished, false;
      if l.Ready? {
        waiting := true;
        finished' := finished + {t};
        Conclude(t, Outcome(l.resultExists));
      } else if l.now - tasks[t] < TIMEOUT_SECONDS {
        waiting := true;
      } else {
        finished' := finished + {t};
        Conclude(t, TimedOut);
      }
    }

    method PollStragglers(look: Task -> Look) returns (readyToTerminate: bool)
      requires Keyed(View(), {})
      modifies this
      ensures View() == Sweep(StragglersBelow(old(View()), look, old(nextTask)))
      ensures readyToTerminate == StragglersBelow(old(View()), look, old(nextTask)).done
    {
      var n, finished: set<Task> := nextTask, {};
      readyToTerminate := true;
      ghost var start := View();
      for t := 0 to n
        invariant Pass(View(), finished, false, readyToTerminate, 0.0) == StragglersBelow(start, look, t)
        invariant Entered(finished) && forall u :: u in finished ==> u < t
      {
        if t in tasks {
          var waiting;
          finished, waiting := PollStraggler(t, look(t), finished);
          readyToTerminate := readyToTerminate && !waiting;
        }
      }
      tasks := tasks - finished;
    }

    /** The run from `first` stands at this state and loop head after `k` observations. */
    ghost predicate At(first: Sim, os: seq<Observation>, k: nat, phase: Phase)
      reads this
    {
      k <= |os| && Run(first, target, os[..k]) == Sim(phase, View())
    }

    /** Polling until the round is over or the observations run out. */
    method PollRound(os: seq<Observation>, k0: nat, ghost first: Sim, ghost cs: set<Checkpoint>,
                     ghost base: (int, int)) returns (k: nat, done: bool)
      requires Consistent(first, cs, base, target) && At(first, os, k0, Polling)
      modifies this
      ensures k0 <= k && At(first, os, k, if done then MainHead else Polling)
      ensures !done ==> k == |os|
    {
      k, done := k0, false;
      while !done && k < |os|
        invariant k0 <= k && At(first, os, k, if done then MainHead else Polling)
        decreases |os| - k
      {
        RunExtend(first, target, os, k);
        RunKeyed(first, cs, base, target, os[..k]);
        done := PollTasks(os[k].look);
        k := k + 1;
      }
    }

    /** The main loop: rounds of submitting and polling. */
    method MainLoop(os: seq<Observation>, ghost first: Sim, ghost cs: set<Checkpoint>, ghost base: (int, int))
        returns (k: nat, phase: Phase)
      requires Consistent(first, cs, base, target) && At(first, os, 0, MainHead)
      modifies this
      ensures At(first, os, k, phase) && (phase == MainHead || phase == Polling)
      ensures phase == Polling || (successful < target && 0 < |allProcArgs|) ==> k == |os|
    {
      k, phase := 0, MainHead;
      while successful < target && 0 < |allProcArgs| && k < |os|
        invariant At(first, os, k, MainHead) && phase == MainHead
        decreases |os| - k
      {
        RunExtend(first, target, os, k);
        SubmitRound(os[k].clock);
        var done;
        k, done := PollRound(os, k + 1, first, cs, base);
        if !done {
          phase := Polling;
          return;
        }
      }
    }

    method StragglerLoop(os: seq<Observation>, k0: nat, ghost first: Sim, ghost cs: set<Checkpoint>,
                         ghost base: (int, int))
      returns (k: nat, phase: Phase)
      requires Consistent(first, cs, base, target) && At(first, os, k0, Stragglers)
      modifies this
      ensures At(first, os, k, phase) && (phase == Done(true) || (phase == Stragglers && k == |os|))
    {
      k, phase := k0, Stragglers;
      while phase == Stragglers && k < |os|
        invariant At(first, os, k, phase) && (phase == Stragglers || phase == Done(true))
        decreases |os| - k
      {
        RunExtend(first, target, os, k);
        RunKeyed(first, cs, base, target, os[..k]);
        var readyToTerminate := PollStragglers(os[k].look);
        phase := if readyToTerminate then Done(true) else Stragglers;
        k := k + 1;
      }
    }

    /** The whole of `start`, as far as the given observations take it. */
    method Start(os: seq<Observation>, ghost cs: set<Checkpoint>) returns (phase: Phase)
      requires Consistent(Sim(MainHead, View()), cs, (successful, failed), target)
      modifies this
      ensures Sim(phase, View()) == Run(Sim(MainHead, old(View())), target, os)
      ensures Consistent(Sim(phase, View()), cs, (old(successful), old(failed)), target)
    {
      ghost var first, base := Sim(MainHead, View()), (successful, failed);
      var k;
      k, phase := MainLoop(os, first, cs, base);
      if k < |os| {
        RunExtend(first, target, os, k);
        k := k + 1;
        if target <= successful {
          phase := Done(false);
        } else {
          k, phase := StragglerLoop(os, k, first, cs, base);
        }
        if phase.Done? {
          RunStopped(first, target, os, k);
        }
      }
      assert k == |os| ==> os[..k] == os;
      ghost var _ := RunConsistent(first, cs, base, target, os);
    }
  }

  // ---------------------------------------------------------------- resuming

  function Recorded(prior: map<Checkpoint, Status>, seen: set<Checkpoint>, st: Status): set<Checkpoint> {
    set c | c in seen && c in prior && prior[c] == st
  }

  /** Checkpoints an earlier run already dealt with. */
  function Ran(prior: map<Checkpoint, Status>, seen: set<Checkpoint>): set<Checkpoint> {
    set c | c in seen && c in prior && prior[c] != NotRun
  }

  lemma RecordedOne(prior: map<Checkpoint, Status>, seen: set<Checkpoint>, c: Checkpoint, st: Status)
    requires c in prior && c !in seen
    ensures |Recorded(prior, seen + {c}, st)| == |Recorded(prior, seen, st)| + if prior[c] == st then 1 else 0
  {
    var before, after := Recorded(prior, seen, st), Recorded(prior, seen + {c}, st);
    assert c !in before;
    assert prior[c] == st ==> after == before + {c};
    assert prior[c] != st ==> after == before;
  }

  lemma RanOne(prior: map<Checkpoint, Status>, seen: set<Checkpoint>, c: Checkpoint)
    requires c in prior
    ensures Ran(prior, seen + {c}) == if prior[c] != NotRun then Ran(prior, seen) + {c} else Ran(prior, seen)
  {
  }

  /** Drops what an earlier run dealt with and recounts its successes and failures. */
  method Recount(prior: map<Checkpoint, Status>, dirents: seq<Checkpoint>)
      returns (chkpts: seq<Checkpoint>, successes: int, failures: int)
    requires Distinct(dirents)
    ensures Distinct(chkpts) && Elems(chkpts) == Elems(dirents) - Ran(prior, prior.Keys)
    ensures successes == |Recorded(prior, prior.Keys, Successful)| && failures == |Recorded(prior, prior.Keys, Failed)|
    ensures forall c :: c in chkpts <==> c in dirents && !(c in prior && prior[c] != NotRun)
    ensures successes == |set c | c in prior && prior[c] == Successful|
    ensures failures == |set c | c in prior && prior[c] == Failed|
  {
    chkpts, successes, failures := dirents, 0, 0;
    var seen: set<Checkpoint> := {};
    while seen != prior.Keys
      invariant seen <= prior.Keys && Distinct(chkpts) && Elems(chkpts) == Elems(dirents) - Ran(prior, seen)
      invariant successes == |Recorded(prior, seen, Successful)| && failures == |Recorded(prior, seen, Failed)|
      decreases |prior.Keys - seen|
    {
      assert prior.Keys - seen != {};
      var c :| c in prior.Keys - seen;
      RecordedOne(prior, seen, c, Successful);
      RecordedOne(prior, seen, c, Failed);
      RanOne(prior, seen, c);
      WithoutIs(chkpts, [c]);
      assert Elems([c]) == {c};
      if prior[c] != NotRun {
        chkpts := Without(chkpts, [c]);
        if prior[c] == Failed {
          failures := failures + 1;
        } else if prior[c] == Successful {
          successes := successes + 1;
        }
      }
      assert prior.Keys - (seen + {c}) == prior.Keys - seen - {c};
      seen := seen + {c};
    }
    assert Recorded(prior, prior.Keys, Successful) == set c | c in prior && prior[c] == Successful;
    assert Recorded(prior, prior.Keys, Failed) == set c | c in prior && prior[c] == Failed;
    assert forall c :: c in chkpts <==> c in Elems(chkpts);
  }

  /** The starting state of a run: `images` are the checkpoints that have a memory image. */
  method Resume(prior: map<Checkpoint, Status>, dirents: seq<Checkpoint>, images: set<Checkpoint>, wanted: Option<int>)
    returns (r: Option<(State, int)>)
    requires Distinct(dirents)
    ensures r.None? <==> forall c :: c in dirents && c in images ==> c in prior && prior[c] != NotRun
    ensures r.Some? ==>
              var (s, target) := r.value;
              && (forall c :: c in s.unsubmitted <==>
                    c in dirents && c in images && !(c in prior && prior[c] != NotRun))
              && s.successes == |set c | c in prior && prior[c] == Successful|
              && s.failures == |set c | c in prior && prior[c] == Failed|
              && (forall c :: c in dirents && c !in images && !(c in prior && prior[c] != NotRun) ==>
                    c in s.status && s.status[c] == Invalid)
              && (forall c :: c in prior && prior[c] != NotRun ==> c in s.status && s.status[c] == prior[c])
    ensures r.Some? ==>
              var (s, target) := r.value;
              && Elems(s.unsubmitted) == (Elems(dirents) - Ran(prior, prior.Keys)) * images
              && Consistent(Sim(MainHead, s), Elems(s.unsubmitted), (s.successes, s.failures), target)
              && Fresh(s, Elems(s.unsubmitted)) && UnderTarget(Sim(MainHead, s), target, s.successes)
              && s.successes == |Recorded(prior, prior.Keys, Successful)| &&
                  s.failures == |Recorded(prior, prior.Keys, Failed)|
              && (forall c :: c in Elems(dirents) - Ran(prior, prior.Keys) - images ==>
                    c in s.status && s.status[c] == Invalid)
              && target <= |s.unsubmitted| + s.successes && (wanted.Some? ==> target <= wanted.value)
              && (target == |s.unsubmitted| + s.successes || wanted == Some(target))
  {
    var chkpts, successes, failures := Recount(prior, dirents);
    var status, args, invalid: nat := prior, [], 0;
    for i := 0 to |chkpts|
      invariant Distinct(args) && Elems(args) == Elems(chkpts[..i]) * images && invalid + |args| == i
      invariant forall c :: c in args ==> c in status && status[c] == NotRun
      invariant forall c :: c in args ==> c in chkpts[..i]
      invariant forall c :: c in chkpts[..i] && c !in images ==> c in status && status[c] == Invalid
      invariant forall c :: c in prior && c !in chkpts ==> c in status && status[c] == prior[c]
    {
      assert chkpts[..i + 1] == chkpts[..i] + [chkpts[i]];
      assert chkpts[i] !in chkpts[..i];
      assert Elems(chkpts[..i + 1]) == Elems(chkpts[..i]) + {chkpts[i]};
      if chkpts[i] !in images {
        invalid := invalid + 1;
        status := status[chkpts[i] := Invalid];
      } else {
        assert Elems(args + [chkpts[i]]) == Elems(args) + {chkpts[i]};
        status := status[chkpts[i] := NotRun];
        args := args + [chkpts[i]];
      }
    }
    assert chkpts[..|chkpts|] == chkpts;
    assert args != [] ==> args[0] in Elems(args);
    assert forall c :: c in args <==> c in Elems(args);
    assert forall c :: c in chkpts <==> c in Elems(chkpts);
    if invalid == |chkpts| {
      assert args == [];
      return None;
    }
    var target := |args| + successes;
    if wanted.Some? && wanted.value < target {
      target := wanted.value;
    }
    var s := State(args, map[], map[], map[], status, successes, failures, 0);
    StartConsistent(s, target);
    r := Some((s, target));
  }

  lemma StartConsistent(s: State, target: int)
    requires s.tasks == map[] && s.results == map[] && s.checkpoints == map[] && Distinct(s.unsubmitted)
    requires forall c :: c in s.unsubmitted ==> c in s.status && s.status[c] == NotRun
    ensures Consistent(Sim(MainHead, s), Elems(s.unsubmitted), (s.successes, s.failures), target)
    ensures UnderTarget(Sim(MainHead, s), target, s.successes)
  {
    var cs := Elems(s.unsubmitted);
    assert Elems([]) == {} && Finished(cs, s.status) == {};
    assert WithStatus(cs, s.status, true) == {} && WithStatus(cs, s.status, false) == {};
  }
}
