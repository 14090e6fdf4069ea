/**
 Runs of the parallel simulation scheduler: how far a run can get, when it ends, and when it counts
 more successes than it was asked for.
 */
module SchedulerRuns {
  import opened EvenSelection
  import opened Scheduler

  // ---------------------------------------------------------------- progress

  lemma {:induction false} LaunchAllNext(s: State, picked: seq<Checkpoint>, clock: Task -> real)
    ensures LaunchAll(s, picked, clock).nextTask == s.nextTask + |picked|
    decreases |picked|
  {
    if picked != [] {
      LaunchAllNext(Launch(s, picked[0], clock(s.nextTask)), picked[1..], clock);
    }
  }

  /** A round starts as many tasks as it takes candidates away. */
  lemma SubmitNext(s: State, cs: set<Checkpoint>, base: (int, int), target: int, clock: Task -> real)
    requires Conserved(s, cs, base, {}, []) && s.successes < target && 0 < |s.unsubmitted|
    ensures var s' := Submit(s, target, clock);
            s'.nextTask + |s'.unsubmitted| == s.nextTask + |s.unsubmitted| && s.nextTask < s'.nextTask
  {
    var s' := SubmitConserved(s, cs, base, target, clock);
    var picked, s1 := PickedConserved(s, cs, base, target);
    LaunchAllNext(s1, picked, clock);
  }

  /** Tasks started plus candidates left: the same at every loop head. */
  function Budget(s: State): nat {
    s.nextTask + |s.unsubmitted|
  }

  predicate StartsRound(sim: Sim, target: int) {
    sim.phase.MainHead? && sim.s.successes < target && 0 < |sim.s.unsubmitted|
  }

  lemma StepBudget(sim: Sim, cs: set<Checkpoint>, base: (int, int), target: int, o: Observation)
    requires Consistent(sim, cs, base, target)
    ensures var s' := Step(sim, target, o).s;
            Budget(s') == Budget(sim.s) && sim.s.nextTask + (if StartsRound(sim, target) then 1 else 0) <= s'.nextTask
  {
    if StartsRound(sim, target) {
      SubmitNext(sim.s, cs, base, target, o.clock);
    } else if sim.phase.Polling? {
      var _ := PollFrame(sim.s, o.look, sim.s.nextTask);
    } else if sim.phase.Stragglers? {
      var _ := StragglerFrame(sim.s, o.look, sim.s.nextTask);
    }
  }

  /** How many main-loop rounds a run starts. */
  function RoundsStarted(sim: Sim, target: int, os: seq<Observation>): nat {
    if os == [] then 0 else
      var init := os[..|os| - 1];
      RoundsStarted(sim, target, init) + if StartsRound(Run(sim, target, init), target) then 1 else 0
  }

  /** No run starts more rounds than tasks, nor more tasks than there are candidates, each of them once. */
  lemma RunBudget(sim: Sim, cs: set<Checkpoint>, base: (int, int), target: int, os: seq<Observation>)
    requires Consistent(sim, cs, base, target)
    ensures var s' := Run(sim, target, os).s;
            && Budget(s') == Budget(sim.s)
            && RoundsStarted(sim, target, os) <= s'.nextTask - sim.s.nextTask <= |sim.s.unsubmitted|
  {
    var now := sim;
    for k := 0 to |os|
      invariant now == Run(sim, target, os[..k]) && Consistent(now, cs, base, target) && Budget(now.s) == Budget(sim.s)
      invariant RoundsStarted(sim, target, os[..k]) <= now.s.nextTask - sim.s.nextTask
    {
      assert os[..k + 1][..k] == os[..k];
      StepBudget(now, cs, base, target, os[k]);
      now := StepConsistent(now, cs, base, target, os[k]);
    }
    assert os[..|os|] == os;
  }

  // ---------------------------------------------------------------- the end of the straggler loop

  /** Every task in flight is ready or has been running too long. */
  ghost predicate Settled(s: State, o: Observation) {
    forall t :: t in s.tasks ==> o.look(t).Ready? || TIMEOUT_SECONDS <= o.look(t).now - s.tasks[t]
  }

  ghost predicate AllSeen(p: Pass, s: State, n: nat) {
    p.s.tasks == s.tasks && forall t :: t in s.tasks && t < n ==> t in p.finished
  }

  lemma SeenOne(p: Pass, s: State, t: Task, l: Look)
    requires AllSeen(p, s, t)
    requires t in s.tasks ==> l.Ready? || TIMEOUT_SECONDS <= l.now - s.tasks[t]
    ensures AllSeen(StragglerOne(p, t, l), s, t + 1)
  {
  }

  lemma SweepAll(p: Pass, s: State, n: nat)
    requires AllSeen(p, s, n) && forall t :: t in s.tasks ==> t < n
    ensures Sweep(p).tasks == map[]
  {
    assert Sweep(p).tasks.Keys == {};
  }

  /** A pass over settled tasks leaves none in flight. */
  lemma SettledPass(s: State, o: Observation)
    requires Settled(s, o) && forall t :: t in s.tasks ==> t < s.nextTask
    ensures Sweep(StragglersBelow(s, o.look, s.nextTask)).tasks == map[]
  {
    var p := StragglersBelow(s, o.look, 0);
    for t := 0 to s.nextTask
      invariant p == StragglersBelow(s, o.look, t) && AllSeen(p, s, t)
    {
      SeenOne(p, s, t, o.look(t));
      p := StragglerOne(p, t, o.look(t));
    }
    SweepAll(p, s, s.nextTask);
  }

  /** A pass with nothing in flight ends the run. */
  lemma EmptyPass(s: State, o: Observation, n: nat)
    requires s.tasks == map[]
    ensures StragglersBelow(s, o.look, n).done
  {
    var p := StragglersBelow(s, o.look, 0);
    for t := 0 to n
      invariant p == StragglersBelow(s, o.look, t) && p.done && p.s == s
    {
      p := StragglerOne(p, t, o.look(t));
    }
  }

  /** Once every straggler is ready or has run too long, two more passes end the run, whatever the second one sees. */
  lemma StragglersEnd(s: State, cs: set<Checkpoint>, base: (int, int), target: int, o: Observation, o': Observation)
    requires Consistent(Sim(Stragglers, s), cs, base, target) && Settled(s, o)
    ensures Run(Sim(Stragglers, s), target, [o, o']).phase == Done(true)
  {
    var sim := Sim(Stragglers, s);
    SettledPass(s, o);
    var next := Step(sim, target, o);
    assert next.s.tasks == map[];
    EmptyPass(next.s, o', next.s.nextTask);
    assert [o, o'][..1] == [o] && [o][..0] == [];
    assert Run(sim, target, [o]) == next;
  }

  // ---------------------------------------------------------------- passing the target

  /** All times that an observation shows lie from `lo` to `hi`, and later tasks are looked at later. */
  ghost predicate During(o: Observation, lo: real, hi: real) {
    && (forall t :: lo <= o.clock(t) <= hi)
    && (forall t :: o.look(t).Waiting? ==> lo <= o.look(t).now <= hi)
    && (forall t, u :: t < u ==> o.clock(t) <= o.clock(u))
    && (forall t, u :: t < u && o.look(t).Waiting? && o.look(u).Waiting? ==> o.look(t).now <= o.look(u).now)
  }

  ghost predicate Apart(os: seq<Observation>, times: seq<real>) {
    |times| == |os| + 1 && forall k, j :: 0 <= k < |os| && j == k + 1 ==> During(os[k], times[k], times[j])
  }

  /** The clock never goes back. */
  ghost predicate ClockAscends(os: seq<Observation>) {
    exists times :: Apart(os, times)
  }

  /** Tasks are started, or seen waiting, at time 0. */
  function Early(): Observation {
    Observation(_ => 0.0, _ => Waiting(0.0))
  }

  /** The same at a time when tasks started at 0 have outlasted the polling timeout. */
  function Late(): Observation {
    Observation(_ => 4000.0, _ => Waiting(4000.0))
  }

  /** Every task has finished with a result. */
  function AllReady(): Observation {
    Observation(_ => 4000.0, _ => Ready(true))
  }

  function LostThenWon(): seq<Observation> {
    [Early(), Late(), Late(), AllReady()]
  }

  lemma LostThenWonAscends()
    ensures ClockAscends(LostThenWon())
  {
    assert Apart(LostThenWon(), [0.0, 0.0, 4000.0, 4000.0, 4000.0]);
  }

  ghost predicate AtZero(s: State) {
    forall t :: t in s.tasks ==> s.tasks[t] == 0.0
  }

  lemma {:induction false} LaunchAllZero(s: State, picked: seq<Checkpoint>, clock: Task -> real)
    requires AtZero(s) && forall t :: clock(t) == 0.0
    ensures AtZero(LaunchAll(s, picked, clock))
    decreases |picked|
  {
    if picked != [] {
      LaunchAllZero(Launch(s, picked[0], clock(s.nextTask)), picked[1..], clock);
    }
  }

  /** A polling pass over tasks that have all waited too long changes nothing and ends the round. */
  lemma GivesUp(s: State, target: int)
    requires AtZero(s) && s.tasks != map[] && forall t :: t in s.tasks ==> t < s.nextTask
    ensures Step(Sim(Polling, s), target, Late()) == Sim(MainHead, s)
  {
    var look := Late().look;
    var p := PollBelow(s, look, 0);
    for t := 0 to s.nextTask
      invariant p == PollBelow(s, look, t) && p.s == s && p.finished == {} && !p.successful
      invariant forall u :: u in s.tasks && u < t ==> 4000.0 <= p.maxTime
    {
      p := PollOne(p, t, look(t));
    }
    var u :| u in s.tasks;
    assert PollTimesOut(p) && Sweep(p).tasks == s.tasks;
  }

  /** Everything in flight below `n` has been counted as a success. */
  ghost predicate AllCounted(p: Pass, s: State, n: nat) {
    p.s.successes == s.successes + |p.finished| && forall u :: u in s.tasks && u < n ==> u in p.finished
  }

  lemma CountOne(p: Pass, s: State, t: Task, q: Pass)
    requires AllCounted(p, s, t) && t !in p.finished && p.s.tasks.Keys == s.tasks.Keys
    requires t in p.s.tasks ==> t in p.s.checkpoints
    requires q == PollOne(p, t, Ready(true))
    ensures AllCounted(q, s, t + 1)
  {
    if t in s.tasks {
      assert q.s.successes == p.s.successes + 1 && q.finished == p.finished + {t};
    }
  }

  lemma CountedBelow(s: State, cs: set<Checkpoint>, base: (int, int), look: Task -> Look, n: nat) returns (p: Pass)
    requires Conserved(s, cs, base, {}, []) && forall t :: look(t) == Ready(true)
    ensures p == PollBelow(s, look, n) && AllCounted(p, s, n)
  {
    p := PollBelow(s, look, 0);
    for t := 0 to n
      invariant p == PollBelow(s, look, t) && AllCounted(p, s, t)
    {
      var q := PollConserved(s, cs, base, look, t);
      var r := PollFrame(s, look, t);
      var next := PollOne(p, t, Ready(true));
      CountOne(p, s, t, next);
      p := next;
    }
  }

  lemma CountedAll(p: Pass, s: State, n: nat)
    requires AllCounted(p, s, n) && (forall t :: t in s.tasks ==> t < n) && forall t :: t in p.finished ==> t in s.tasks
    ensures p.s.successes == s.successes + |s.tasks|
  {
    assert p.finished == s.tasks.Keys;
  }

  /** When every task has a result, all of them are counted. */
  lemma AllSucceed(s: State, cs: set<Checkpoint>, base: (int, int), look: Task -> Look)
    requires Conserved(s, cs, base, {}, []) && forall t :: look(t) == Ready(true)
    ensures PollBelow(s, look, s.nextTask).s.successes == s.successes + |s.tasks|
  {
    var p := CountedBelow(s, cs, base, look, s.nextTask);
    var q := PollFrame(s, look, s.nextTask);
    CountedAll(p, s, s.nextTask);
  }

  lemma FourSteps(target: int, a: Sim, b: Sim, c: Sim, d: Sim, e: Sim, o0: Observation, o1: Observation,
                  o2: Observation, o3: Observation)
    requires b == Step(a, target, o0) && c == Step(b, target, o1) && d == Step(c, target, o2) &&
             e == Step(d, target, o3)
    ensures Run(a, target, [o0, o1, o2, o3]) == e
  {
    assert [o0, o1, o2, o3][..3] == [o0, o1, o2] && [o0, o1, o2][..2] == [o0, o1] && [o0, o1][..1] == [o0];
    assert Run(a, target, [o0]) == b;
    assert Run(a, target, [o0, o1]) == c;
    assert Run(a, target, [o0, o1, o2]) == d;
  }

  lemma SubmitZero(s: State, target: int)
    requires AtZero(s)
    ensures AtZero(Submit(s, target, Early().clock))
  {
    var picked := SelectEvenlySpaced(s.unsubmitted, target - s.successes);
    LaunchAllZero(s.(unsubmitted := Without(s.unsubmitted, picked)), picked, Early().clock);
  }

  /**
   A first round whose tasks all outlast the polling timeout: the run is back at the main loop with
   them in flight.
   */
  lemma LostRound(s: State, cs: set<Checkpoint>, base: (int, int), target: int) returns (s': State)
    requires Conserved(s, cs, base, {}, []) && AtZero(s) && s.successes < target && 0 < |s.unsubmitted|
    ensures Step(Sim(MainHead, s), target, Early()) == Sim(Polling, s')
    ensures Step(Sim(Polling, s'), target, Late()) == Sim(MainHead, s')
    ensures Conserved(s', cs, base, {}, []) && s'.successes == s.successes
    ensures |s'.tasks| == |s.tasks| + RoundSize(s, target) && |s'.unsubmitted| == |s.unsubmitted| - RoundSize(s, target)
  {
    s' := SubmitConserved(s, cs, base, target, Early().clock);
    SubmitZero(s, target);
    assert s'.tasks != map[];
    GivesUp(s', target);
  }

  /** A second round, started late, whose tasks and those of the first all succeed. */
  lemma WonRound(s: State, cs: set<Checkpoint>, base: (int, int), target: int) returns (s': State, end: Sim)
    requires Conserved(s, cs, base, {}, []) && s.successes < target && 0 < |s.unsubmitted|
    ensures Step(Sim(MainHead, s), target, Late()) == Sim(Polling, s') &&
            Step(Sim(Polling, s'), target, AllReady()) == end
    ensures end.s.successes == s.successes + |s.tasks| + RoundSize(s, target) && 0 < RoundSize(s, target)
  {
    s' := SubmitConserved(s, cs, base, target, Late().clock);
    AllSucceed(s', cs, base, AllReady().look);
    end := Step(Sim(Polling, s'), target, AllReady());
  }

  lemma TwoRounds(s: State, cs: set<Checkpoint>, target: int) returns (s1: State, s2: State, end: Sim)
    requires Fresh(s, cs) && 0 < target - s.successes < |s.unsubmitted|
    ensures Step(Sim(MainHead, s), target, Early()) == Sim(Polling, s1)
    ensures Step(Sim(Polling, s1), target, Late()) == Sim(MainHead, s1)
    ensures Step(Sim(MainHead, s1), target, Late()) == Sim(Polling, s2)
    ensures Step(Sim(Polling, s2), target, AllReady()) == end && target < end.s.successes
  {
    var base := (s.successes, s.failures);
    s1 := LostRound(s, cs, base, target);
    assert |s1.tasks| == target - s.successes && 0 < |s1.unsubmitted|;
    s2, end := WonRound(s1, cs, base, target);
  }

  /** With more candidates than needed, a lost first round lets the count pass the target. */
  lemma Overshoots(s: State, cs: set<Checkpoint>, target: int)
    requires Fresh(s, cs) && 0 < target - s.successes < |s.unsubmitted|
    ensures ClockAscends(LostThenWon()) && target < Run(Sim(MainHead, s), target, LostThenWon()).s.successes
  {
    var s1, s2, end := TwoRounds(s, cs, target);
    LostThenWonAscends();
    FourSteps(target, Sim(MainHead, s), Sim(Polling, s1), Sim(MainHead, s1), Sim(Polling, s2), end,
              Early(), Late(), Late(), AllReady());
  }

  lemma NothingToDo(s: State, target: int, os: seq<Observation>)
    requires target <= s.successes
    ensures Run(Sim(MainHead, s), target, os).s == s
  {
    var sim := Sim(MainHead, s);
    for k := 0 to |os|
      invariant sim == Run(Sim(MainHead, s), target, os[..k]) && sim.s == s &&
                (sim.phase == MainHead || sim.phase == Done(false))
    {
      assert os[..k + 1][..k] == os[..k];
      sim := Step(sim, target, os[k]);
    }
    assert os[..|os|] == os;
  }

  /** No run counts more successes than there were candidates. */
  lemma SuccessesBounded(s: State, cs: set<Checkpoint>, target: int, os: seq<Observation>)
    requires Fresh(s, cs)
    ensures Run(Sim(MainHead, s), target, os).s.successes <= s.successes + |s.unsubmitted|
  {
    var base := (s.successes, s.failures);
    var sim := RunConsistent(Sim(MainHead, s), cs, base, target, os);
    var good, bad := WithStatus(cs, s.status, true), WithStatus(cs, s.status, false);
    assert Finished(cs, s.status) == good + bad && good == {} && bad == {};
    assert Elems([]) == {} && s.checkpoints.Keys == {};
    assert s.checkpoints.Values == {};
    assert cs == Elems(s.unsubmitted);
    DistinctCount(s.unsubmitted);
    var won := WithStatus(cs, sim.s.status, true);
    assert cs == won + (cs - won);
  }

  /** The run counts more than it started with and more than it was asked for. */
  ghost predicate PassesTarget(s: State, target: int, os: seq<Observation>) {
    var n := Run(Sim(MainHead, s), target, os).s.successes;
    s.successes < n && target < n
  }

  /**
   Some run with a clock that never goes back passes its target exactly when, at the start, there are
   more candidates than are still needed and at least one is needed.
   */
  lemma OvershootIff(s: State, cs: set<Checkpoint>, target: int)
    requires Fresh(s, cs)
    ensures (exists os :: ClockAscends(os) && PassesTarget(s, target, os)) <==>
            0 < target - s.successes < |s.unsubmitted|
  {
    if 0 < target - s.successes < |s.unsubmitted| {
      Overshoots(s, cs, target);
      assert PassesTarget(s, target, LostThenWon());
    } else {
      forall os
        ensures !PassesTarget(s, target, os)
      {
        if target <= s.successes {
          NothingToDo(s, target, os);
        } else {
          SuccessesBounded(s, cs, target, os);
        }
      }
    }
  }
}
