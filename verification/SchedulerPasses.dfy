/**
 What one step of the parallel simulation scheduler does, read off the observation: which checkpoints
 get which status, how far the counters move, what stays in flight and since when, and which loop
 head comes next.
 */
module SchedulerPasses {
  import opened EvenSelection
  import opened Scheduler

  // ---------------------------------------------------------------- tasks that end

  /** The tasks of `ends` that end as a success, or those that do not. */
  function Ending(ends: map<Task, Status>, good: bool): set<Task> {
    set t | t in ends && (ends[t] == Successful) == good
  }

  /** If checkpoint `c` belongs to a task in `ends`, it has the status given there; otherwise the one it had. */
  ghost predicate MarkedAt(s: State, s': State, ends: map<Task, Status>, c: Checkpoint)
    requires ends.Keys <= s.checkpoints.Keys
  {
    && (forall t :: t in ends && s.checkpoints[t] == c ==> c in s'.status && s'.status[c] == ends[t])
    && ((forall t :: t in ends ==> s.checkpoints[t] != c) ==>
          (c in s'.status <==> c in s.status) && (c in s.status ==> s'.status[c] == s.status[c]))
  }

  ghost predicate Marked(s: State, s': State, ends: map<Task, Status>) {
    ends.Keys <= s.checkpoints.Keys && forall c :: MarkedAt(s, s', ends, c)
  }

  /** The tasks in `ends` have left two dictionaries and are counted; the candidates are untouched. */
  ghost predicate Taken(s: State, s': State, ends: map<Task, Status>) {
    && s'.checkpoints == s.checkpoints - ends.Keys && s'.results == s.results - ends.Keys
    && s'.successes == s.successes + |Ending(ends, true)| && s'.failures == s.failures + |Ending(ends, false)|
    && s'.unsubmitted == s.unsubmitted && s'.nextTask == s.nextTask
  }

  lemma FinishMarkedAt(s: State, s1: State, ends: map<Task, Status>, t: Task, st: Status, c: Checkpoint)
    requires ends.Keys <= s.checkpoints.Keys && Injective(s.checkpoints) && t in s.checkpoints && t !in ends
    requires t in s1.checkpoints && s1.checkpoints[t] == s.checkpoints[t] && MarkedAt(s, s1, ends, c)
    ensures MarkedAt(s, Finish(s1, t, st), ends[t := st], c)
  {
    var ends' := ends[t := st];
    assert t in ends';
    assert forall u :: u in ends ==> u in ends';
  }

  lemma FinishMarked(s: State, s1: State, ends: map<Task, Status>, t: Task, st: Status)
    requires Injective(s.checkpoints) && t in s.checkpoints && t !in ends && t in s1.checkpoints
    requires s1.checkpoints[t] == s.checkpoints[t] && Marked(s, s1, ends)
    ensures Marked(s, Finish(s1, t, st), ends[t := st])
  {
    forall c {:trigger MarkedAt(s, Finish(s1, t, st), ends[t := st], c)}
      ensures MarkedAt(s, Finish(s1, t, st), ends[t := st], c)
    {
      FinishMarkedAt(s, s1, ends, t, st, c);
    }
  }

  lemma EndingOne(ends: map<Task, Status>, t: Task, st: Status, good: bool)
    requires t !in ends
    ensures |Ending(ends[t := st], good)| == |Ending(ends, good)| + if (st == Successful) == good then 1 else 0
  {
    var before, after := Ending(ends, good), Ending(ends[t := st], good);
    assert after == if (st == Successful) == good then before + {t} else before;
  }

  lemma FinishTaken(s: State, s1: State, ends: map<Task, Status>, t: Task, st: Status)
    requires t in s.checkpoints && t !in ends && Taken(s, s1, ends)
    ensures Taken(s, Finish(s1, t, st), ends[t := st])
  {
    EndingOne(ends, t, st, true);
    EndingOne(ends, t, st, false);
    assert ends[t := st].Keys == ends.Keys + {t};
    assert s.checkpoints - ends.Keys - {t} == s.checkpoints - (ends.Keys + {t});
    assert s.results - ends.Keys - {t} == s.results - (ends.Keys + {t});
  }

  /** The pass over the tasks of `s` has ended those in `ends`. */
  ghost predicate Ended(p: Pass, s: State, ends: map<Task, Status>) {
    Marked(s, p.s, ends) && Taken(s, p.s, ends) && p.finished == ends.Keys && p.s.tasks.Keys == s.tasks.Keys
  }

  lemma EndedOne(p: Pass, q: Pass, s: State, ends: map<Task, Status>, t: Task, st: Status)
    requires Keyed(s, {}) && t in s.tasks && t !in ends && Ended(p, s, ends)
    requires q.s == Finish(p.s, t, st) && q.finished == p.finished + {t}
    ensures Ended(q, s, ends[t := st])
  {
    assert t in p.s.checkpoints && p.s.checkpoints[t] == s.checkpoints[t];
    FinishMarked(s, p.s, ends, t, st);
    FinishTaken(s, p.s, ends, t, st);
  }

  lemma EndedNone(p: Pass, q: Pass, s: State, ends: map<Task, Status>)
    requires Ended(p, s, ends) && q.finished == p.finished
    requires q.s == p.s.(tasks := q.s.tasks) && q.s.tasks.Keys == p.s.tasks.Keys
    ensures Ended(q, s, ends)
  {
    assert forall c :: MarkedAt(s, p.s, ends, c) ==> MarkedAt(s, q.s, ends, c);
  }

  lemma SweepEnded(p: Pass, s: State, ends: map<Task, Status>)
    requires Ended(p, s, ends)
    ensures Marked(s, Sweep(p), ends) && Taken(s, Sweep(p), ends) && Sweep(p).tasks.Keys == s.tasks.Keys - ends.Keys
  {
    assert forall c :: MarkedAt(s, p.s, ends, c) ==> MarkedAt(s, Sweep(p), ends, c);
  }

  lemma NoneEnds(s: State)
    ensures Marked(s, s, map[]) && Taken(s, s, map[])
  {
    assert Ending(map[], true) == {} && Ending(map[], false) == {};
    assert s.checkpoints - {} == s.checkpoints && s.results - {} == s.results;
  }

  // ---------------------------------------------------------------- the polling pass

  /** What ends in a polling pass over the tasks below `n`: those that are ready, by whether there is a result. */
  function PollEnds(s: State, look: Task -> Look, n: nat): map<Task, Status> {
    map t | t in s.tasks && t < n && look(t).Ready? :: if look(t) == Ready(true) then Successful else Failed
  }

  /** A task before `t` has finished. */
  ghost predicate ReadyBefore(s: State, look: Task -> Look, t: nat) {
    exists u :: u in s.tasks && u < t && look(u).Ready?
  }

  lemma PollEndsOne(s: State, look: Task -> Look, t: Task)
    ensures t !in PollEnds(s, look, t)
    ensures PollEnds(s, look, t + 1) ==
            if t in s.tasks && look(t).Ready?
            then PollEnds(s, look, t)[t := if look(t) == Ready(true) then Successful else Failed]
            else PollEnds(s, look, t)
  {
  }

  lemma AllPollEnds(s: State, look: Task -> Look)
    requires forall t :: t in s.tasks ==> t < s.nextTask
    ensures PollEnds(s, look, s.nextTask) ==
            map t | t in s.tasks && look(t).Ready? :: if look(t) == Ready(true) then Successful else Failed
  {
  }

  lemma PolledOne(p: Pass, s: State, look: Task -> Look, t: Task)
    requires Keyed(s, {}) && Ended(p, s, PollEnds(s, look, t))
    ensures Ended(PollOne(p, t, look(t)), s, PollEnds(s, look, t + 1))
  {
    var q := PollOne(p, t, look(t));
    PollEndsOne(s, look, t);
    if t in s.tasks && look(t).Ready? {
      EndedOne(p, q, s, PollEnds(s, look, t), t, if look(t) == Ready(true) then Successful else Failed);
    } else {
      assert q.s.tasks.Keys == p.s.tasks.Keys;
      EndedNone(p, q, s, PollEnds(s, look, t));
    }
  }

  /** Waiting tasks behind a finished one start their hour anew. */
  ghost predicate Restarted(p: Pass, s: State, look: Task -> Look, n: nat) {
    && p.s.tasks.Keys == s.tasks.Keys
    && forall t :: t in s.tasks ==>
         p.s.tasks[t] == if t < n && look(t).Waiting? && ReadyBefore(s, look, t) then look(t).now else s.tasks[t]
  }

  /** What the flags of the pass mean. */
  ghost predicate Flagged(p: Pass, s: State, look: Task -> Look, n: nat) {
    && (p.successful <==> ReadyBefore(s, look, n))
    && (p.done <==> forall t :: t in s.tasks && t < n ==> look(t).Ready?)
    && (!p.successful ==>
          (3600.0 < p.maxTime <==>
             exists t :: t in s.tasks && t < n && look(t).Waiting? && 3600.0 < look(t).now - s.tasks[t]))
  }

  lemma FlaggedOne(p: Pass, s: State, look: Task -> Look, t: Task)
    requires Restarted(p, s, look, t) && Flagged(p, s, look, t)
    ensures Flagged(PollOne(p, t, look(t)), s, look, t + 1)
  {
    var q := PollOne(p, t, look(t));
    assert ReadyBefore(s, look, t) ==> ReadyBefore(s, look, t + 1);
    if t in s.tasks && look(t).Ready? {
      assert t < t + 1;
    }
    if !q.successful && 3600.0 < p.maxTime {
      var u :| u in s.tasks && u < t && look(u).Waiting? && 3600.0 < look(u).now - s.tasks[u];
      assert u < t + 1;
    }
  }

  lemma RestartedOne(p: Pass, s: State, look: Task -> Look, t: Task)
    requires Restarted(p, s, look, t) && Flagged(p, s, look, t)
    ensures Restarted(PollOne(p, t, look(t)), s, look, t + 1)
  {
    var q := PollOne(p, t, look(t));
    assert q.s.tasks.Keys == s.tasks.Keys;
  }

  lemma PollIs(s: State, look: Task -> Look, n: nat) returns (p: Pass)
    requires Keyed(s, {})
    ensures p == PollBelow(s, look, n) && Ended(p, s, PollEnds(s, look, n))
    ensures Restarted(p, s, look, n) && Flagged(p, s, look, n)
  {
    p := PollBelow(s, look, 0);
    NoneEnds(s);
    assert PollEnds(s, look, 0) == map[];
    for t := 0 to n
      invariant p == PollBelow(s, look, t)
      invariant Ended(p, s, PollEnds(s, look, t)) && Restarted(p, s, look, t) && Flagged(p, s, look, t)
    {
      PolledOne(p, s, look, t);
      RestartedOne(p, s, look, t);
      FlaggedOne(p, s, look, t);
      p := PollOne(p, t, look(t));
    }
  }

  /** All tasks in flight have finished. */
  ghost predicate AllDone(s: State, look: Task -> Look) {
    forall t :: t in s.tasks ==> look(t).Ready?
  }

  /** No task has finished, and one has been running for more than an hour. */
  ghost predicate GivenUp(s: State, look: Task -> Look) {
    && (forall t :: t in s.tasks ==> look(t).Waiting?)
    && exists t :: t in s.tasks && look(t).Waiting? && 3600.0 < look(t).now - s.tasks[t]
  }

  lemma SweptAll(p: Pass, s: State, look: Task -> Look)
    requires Keyed(s, {}) && p.finished == PollEnds(s, look, s.nextTask).Keys && p.s.tasks.Keys == s.tasks.Keys
    ensures Sweep(p).tasks == map[] <==> AllDone(s, look)
  {
    assert Sweep(p).tasks.Keys == s.tasks.Keys - p.finished;
    forall t | t in s.tasks
      ensures t in p.finished <==> look(t).Ready?
    {
    }
    if t :| t in s.tasks && t !in p.finished {
      assert t in Sweep(p).tasks;
    }
  }

  lemma DoneWaitingIs(p: Pass, s: State, look: Task -> Look, target: int)
    requires Keyed(s, {}) && p.finished == PollEnds(s, look, s.nextTask).Keys && p.s.tasks.Keys == s.tasks.Keys
    requires Flagged(p, s, look, s.nextTask)
    ensures DoneWaiting(p, target) <==> AllDone(s, look) || GivenUp(s, look) || target <= p.s.successes
  {
    SweptAll(p, s, look);
    assert forall t :: t in s.tasks ==> t < s.nextTask;
    assert ReadyBefore(s, look, s.nextTask) <==> exists t :: t in s.tasks && look(t).Ready?;
  }

  /** A task that waits keeps the time since when it has been waiting, unless a task before it has finished. */
  ghost predicate Waits(s: State, s': State, look: Task -> Look, t: Task)
    requires t in s'.tasks
  {
    && t in s.tasks && look(t).Waiting?
    && s'.tasks[t] == if ReadyBefore(s, look, t) then look(t).now else s.tasks[t]
  }

  lemma PollWaits(p: Pass, s: State, look: Task -> Look, t: Task)
    requires Keyed(s, {}) && p.finished == PollEnds(s, look, s.nextTask).Keys && Restarted(p, s, look, s.nextTask)
    requires t in Sweep(p).tasks
    ensures Waits(s, Sweep(p), look, t)
  {
    assert t in s.tasks && t < s.nextTask && t !in p.finished;
  }

  /**
   A polling pass: finished tasks are counted by whether they have a result, and their checkpoints say
   so; the others stay in flight. The round is over when all have finished, when the target is reached,
   or when nothing has finished and something has been running for more than an hour.
   */
  lemma PollResult(s: State, target: int, o: Observation)
      returns (next: Sim, ends: map<Task, Status>)
    requires Keyed(s, {})
    ensures next == Step(Sim(Polling, s), target, o)
    ensures ends == map t | t in s.tasks && o.look(t).Ready? :: if o.look(t) == Ready(true) then Successful else Failed
    ensures Marked(s, next.s, ends) && Taken(s, next.s, ends) && next.s.tasks.Keys == s.tasks.Keys - ends.Keys
    ensures forall t :: t in next.s.tasks ==> Waits(s, next.s, o.look, t)
    ensures next.phase == if AllDone(s, o.look) || GivenUp(s, o.look) || target <= next.s.successes then MainHead
            else Polling
  {
    var p := PollIs(s, o.look, s.nextTask);
    next, ends := Sim(if DoneWaiting(p, target) then MainHead else Polling, Sweep(p)), PollEnds(s, o.look, s.nextTask);
    AllPollEnds(s, o.look);
    SweepEnded(p, s, ends);
    forall t | t in next.s.tasks
      ensures Waits(s, next.s, o.look, t)
    {
      PollWaits(p, s, o.look, t);
    }
    DoneWaitingIs(p, s, o.look, target);
  }

  // ---------------------------------------------------------------- the straggler pass

  /** Task `t` is ready, or has been running for an hour or longer. */
  ghost predicate Over(s: State, look: Task -> Look, t: Task)
    requires t in s.tasks
  {
    look(t).Ready? || 3600.0 <= look(t).now - s.tasks[t]
  }

  /** What ends in a straggler pass over the tasks below `n`. */
  ghost function StragglerEnds(s: State, look: Task -> Look, n: nat): map<Task, Status> {
    map t | t in s.tasks && t < n && Over(s, look, t) ::
      if look(t).Waiting? then TimedOut else if look(t) == Ready(true) then Successful else Failed
  }

  /** The pass is not over while a task below `n` is ready or has been running for less than an hour. */
  ghost predicate Stagnant(p: Pass, s: State, look: Task -> Look, n: nat) {
    && p.s.tasks == s.tasks
    && (p.done <==> forall t :: t in s.tasks && t < n ==> look(t).Waiting? && Over(s, look, t))
  }

  lemma StragglerEndsOne(s: State, look: Task -> Look, t: Task)
    ensures t !in StragglerEnds(s, look, t)
    ensures StragglerEnds(s, look, t + 1) ==
            if t in s.tasks && Over(s, look, t)
            then StragglerEnds(s, look, t)[t :=
                if look(t).Waiting? then TimedOut else if look(t) == Ready(true) then Successful else Failed]
            else StragglerEnds(s, look, t)
  {
  }

  lemma AllStragglerEnds(s: State, look: Task -> Look)
    requires forall t :: t in s.tasks ==> t < s.nextTask
    ensures StragglerEnds(s, look, s.nextTask) ==
            map t | t in s.tasks && (look(t).Ready? || 3600.0 <= look(t).now - s.tasks[t]) ::
              if look(t).Waiting? then TimedOut else if look(t) == Ready(true) then Successful else Failed
  {
  }

  lemma StagnantIs(p: Pass, s: State, look: Task -> Look)
    requires Stagnant(p, s, look, s.nextTask) && forall t :: t in s.tasks ==> t < s.nextTask
    ensures var ends := StragglerEnds(s, look, s.nextTask);
            p.done <==> forall t :: t in s.tasks ==> t in ends && ends[t] == TimedOut
  {
    var ends := StragglerEnds(s, look, s.nextTask);
    forall t | t in s.tasks
      ensures t in ends && ends[t] == TimedOut <==> look(t).Waiting? && Over(s, look, t)
    {
    }
  }

  lemma StagnantOne(p: Pass, s: State, look: Task -> Look, t: Task)
    requires Stagnant(p, s, look, t)
    ensures Stagnant(StragglerOne(p, t, look(t)), s, look, t + 1)
  {
  }

  lemma GatheredOne(p: Pass, s: State, look: Task -> Look, t: Task)
    requires Keyed(s, {}) && Ended(p, s, StragglerEnds(s, look, t)) && p.s.tasks == s.tasks
    ensures Ended(StragglerOne(p, t, look(t)), s, StragglerEnds(s, look, t + 1))
  {
    var q := StragglerOne(p, t, look(t));
    StragglerEndsOne(s, look, t);
    if t in s.tasks && Over(s, look, t) {
      EndedOne(p, q, s, StragglerEnds(s, look, t), t,
          if look(t).Waiting? then TimedOut else if look(t) == Ready(true) then Successful else Failed);
    } else {
      EndedNone(p, q, s, StragglerEnds(s, look, t));
    }
  }

  lemma StragglersAre(s: State, look: Task -> Look, n: nat) returns (p: Pass)
    requires Keyed(s, {})
    ensures p == StragglersBelow(s, look, n) && Ended(p, s, StragglerEnds(s, look, n)) && Stagnant(p, s, look, n)
  {
    p := StragglersBelow(s, look, 0);
    NoneEnds(s);
    assert StragglerEnds(s, look, 0) == map[];
    for t := 0 to n
      invariant p == StragglersBelow(s, look, t)
      invariant Ended(p, s, StragglerEnds(s, look, t)) && Stagnant(p, s, look, t)
    {
      StagnantOne(p, s, look, t);
      GatheredOne(p, s, look, t);
      p := StragglerOne(p, t, look(t));
    }
  }

  /**
   A straggler pass: as in a polling pass, and tasks that have been running for an hour are recorded as
   timed out. The run ends when every straggler is of that kind, or there is none.
   */
  lemma StragglerResult(s: State, target: int, o: Observation)
      returns (next: Sim, ends: map<Task, Status>)
    requires Keyed(s, {})
    ensures next == Step(Sim(Stragglers, s), target, o)
    ensures ends == map t | t in s.tasks && (o.look(t).Ready? || 3600.0 <= o.look(t).now - s.tasks[t]) ::
                    if o.look(t).Waiting? then TimedOut else if o.look(t) == Ready(true) then Successful else Failed
    ensures Marked(s, next.s, ends) && Taken(s, next.s, ends) && next.s.tasks == s.tasks - ends.Keys
    ensures next.phase == if forall t :: t in s.tasks ==> t in ends && ends[t] == TimedOut then Done(true)
            else Stragglers
  {
    var p := StragglersAre(s, o.look, s.nextTask);
    next, ends := Sim(if p.done then Done(true) else Stragglers, Sweep(p)), StragglerEnds(s, o.look, s.nextTask);
    AllStragglerEnds(s, o.look);
    SweepEnded(p, s, ends);
    assert next.s.tasks == s.tasks - ends.Keys;
    StagnantIs(p, s, o.look);
  }

  // ---------------------------------------------------------------- a main-loop round

  /** The candidates of `s` that are not in `picked`, in their old order. */
  ghost predicate Rest(s: seq<Checkpoint>, picked: seq<Checkpoint>, rest: seq<Checkpoint>) {
    && (forall c :: c in rest <==> c in s && c !in picked)
    && forall i, j :: 0 <= i < j < |rest| ==> exists a, b :: 0 <= a < b < |s| && s[a] == rest[i] && s[b] == rest[j]
  }

  lemma {:induction false} WithoutKeepsOrder(s: seq<Checkpoint>, xs: seq<Checkpoint>)
    ensures Rest(s, xs, Without(s, xs))
  {
    if s != [] {
      var init, last := s[..|s| - 1], s[|s| - 1];
      WithoutKeepsOrder(init, xs);
      var w, r := Without(init, xs), Without(s, xs);
      assert s == init + [last];
      forall i, j | 0 <= i < j < |r|
        ensures exists a, b :: 0 <= a < b < |s| && s[a] == r[i] && s[b] == r[j]
      {
        if j < |w| {
          var a, b :| 0 <= a < b < |init| && init[a] == w[i] && init[b] == w[j];
          assert s[a] == r[i] && s[b] == r[j];
        } else {
          assert w[i] in w;
          var a :| 0 <= a < |init| && init[a] == w[i];
          assert s[a] == r[i] && s[|s| - 1] == r[j];
        }
      }
    }
  }

  /** Tasks `n` to `n'` have been added, each with its own clock reading. */
  ghost predicate Timed(m: map<Task, real>, m': map<Task, real>, n: nat, n': nat, clock: Task -> real) {
    && (forall t :: t in m' <==> t in m || n <= t < n')
    && (forall t :: t in m' ==> m'[t] == if n <= t then clock(t) else m[t])
  }

  /** Tasks `n` onwards have been added, for the checkpoints `picked` in that order. */
  ghost predicate Assigned(m: map<Task, Checkpoint>, m': map<Task, Checkpoint>, n: nat, picked: seq<Checkpoint>) {
    && (forall t :: t in m' <==> t in m || n <= t < n + |picked|)
    && (forall t :: t in m && t < n ==> m'[t] == m[t])
    && (forall t :: n <= t < n + |picked| ==> m'[t] == picked[t - n])
  }

  /** Tasks `s.nextTask` onwards run the checkpoints `picked`, in that order, each since its own clock reading. */
  ghost predicate Launched(s: State, s': State, picked: seq<Checkpoint>, clock: Task -> real) {
    && s'.nextTask == s.nextTask + |picked| && Timed(s.tasks, s'.tasks, s.nextTask, s'.nextTask, clock)
    && Assigned(s.checkpoints, s'.checkpoints, s.nextTask, picked) && s'.results == s'.checkpoints
  }

  ghost predicate Numbered(s: State) {
    (forall t :: t in s.tasks ==> t < s.nextTask) && forall t :: t in s.checkpoints ==> t < s.nextTask
  }

  lemma TimedMore(m: map<Task, real>, m': map<Task, real>, n: nat, n': nat, clock: Task -> real)
    requires (forall t :: t in m ==> t < n) && n < n' && Timed(m[n := clock(n)], m', n + 1, n', clock)
    ensures Timed(m, m', n, n', clock)
  {
  }

  lemma AssignedMore(m: map<Task, Checkpoint>, m': map<Task, Checkpoint>, n: nat, picked: seq<Checkpoint>)
    requires (forall t :: t in m ==> t < n) && picked != [] && Assigned(m[n := picked[0]], m', n + 1, picked[1..])
    ensures Assigned(m, m', n, picked)
  {
    forall t | n <= t < n + |picked|
      ensures t in m' && m'[t] == picked[t - n]
    {
      if t == n {
        assert m[n := picked[0]][n] == picked[0];
      } else {
        assert m'[t] == picked[1..][t - (n + 1)];
      }
    }
  }

  /** Apart from the dictionaries of tasks a launch changes nothing. */
  ghost predicate LaunchFrame(s: State, s': State) {
    && s'.unsubmitted == s.unsubmitted && s'.status == s.status
    && s'.successes == s.successes && s'.failures == s.failures
  }

  lemma {:induction false} LaunchAllIs(s: State, picked: seq<Checkpoint>, clock: Task -> real) returns (s': State)
    requires s.results == s.checkpoints && Numbered(s)
    ensures s' == LaunchAll(s, picked, clock) && Launched(s, s', picked, clock) && LaunchFrame(s, s')
    decreases |picked|
  {
    s' := s;
    if picked != [] {
      var s1 := Launch(s, picked[0], clock(s.nextTask));
      s' := LaunchAllIs(s1, picked[1..], clock);
      TimedMore(s.tasks, s'.tasks, s.nextTask, s'.nextTask, clock);
      AssignedMore(s.checkpoints, s'.checkpoints, s.nextTask, picked);
    }
  }

  /** The candidates a round starts, by their places: all of them when no more are needed, else spread evenly. */
  ghost predicate Spread(keys: seq<Checkpoint>, needed: int, picked: seq<Checkpoint>) {
    if needed <= 0 || |keys| < needed then picked == keys
    else
      |picked| == needed && forall i: nat :: i < needed ==> SpreadAt(keys, needed, i, picked[i])
  }

  ghost predicate SpreadAt(keys: seq<Checkpoint>, needed: int, i: nat, c: Checkpoint)
    requires 0 < needed
  {
    var k := i * |keys| / needed + |keys| / (2 * needed);
    0 <= k < |keys| && keys[k] == c
  }

  lemma SpreadIs(keys: seq<Checkpoint>, needed: int)
    requires 0 < needed
    ensures Spread(keys, needed, SelectEvenlySpaced(keys, needed))
  {
    if needed <= |keys| {
      var picked := SelectEvenlySpaced(keys, needed);
      forall i: nat | i < needed
        ensures SpreadAt(keys, needed, i, picked[i])
      {
        PickInRange(i, |keys|, needed);
        assert picked[i] == KeyAt(keys, i, needed);
      }
    }
  }

  lemma SubmitLaunches(s: State, target: int, clock: Task -> real) returns (picked: seq<Checkpoint>, s': State)
    requires s.results == s.checkpoints && Numbered(s)
    ensures picked == SelectEvenlySpaced(s.unsubmitted, target - s.successes) && s' == Submit(s, target, clock)
    ensures Launched(s, s', picked, clock) && LaunchFrame(s.(unsubmitted := Without(s.unsubmitted, picked)), s')
  {
    picked := SelectEvenlySpaced(s.unsubmitted, target - s.successes);
    s' := LaunchAllIs(s.(unsubmitted := Without(s.unsubmitted, picked)), picked, clock);
  }

  /**
   At the head of the main loop: with candidates left and successes missing a round of evenly spread
   candidates starts, otherwise the run is done or waits for the stragglers.
   */
  lemma MainResult(s: State, target: int, o: Observation)
      returns (next: Sim, picked: seq<Checkpoint>)
    requires Keyed(s, {})
    ensures next == Step(Sim(MainHead, s), target, o)
    ensures next.phase == if target <= s.successes then Done(false) else if s.unsubmitted == [] then Stragglers
            else Polling
    ensures !next.phase.Polling? ==> next.s == s
    ensures next.phase.Polling? ==>
              && Spread(s.unsubmitted, target - s.successes, picked) && Launched(s, next.s, picked, o.clock)
              && Rest(s.unsubmitted, picked, next.s.unsubmitted)
              && LaunchFrame(s.(unsubmitted := next.s.unsubmitted), next.s)
  {
    next, picked := Step(Sim(MainHead, s), target, o), [];
    if s.successes < target && 0 < |s.unsubmitted| {
      var s';
      picked, s' := SubmitLaunches(s, target, o.clock);
      SpreadIs(s.unsubmitted, target - s.successes);
      WithoutKeepsOrder(s.unsubmitted, picked);
    }
  }
}
