/** The thread pool over whole runs: what holds in every state that some interleaving leads to. */
module ThreadPoolRuns {
  import opened Options
  import opened ThreadPools

  /** The state after a run, if every step of it can be taken. */
  function Run(s: Pool, steps: seq<Step>): Option<Pool>
    decreases |steps|
  {
    if steps == [] then Some(s)
    else
      match Apply(s, steps[0])
      case None => None
      case Some(t) => Run(t, steps[1..])
  }

  lemma {:induction false} RunKeeps(s: Pool, steps: seq<Step>)
    requires Inv(s) && Run(s, steps).Some?
    ensures Inv(Run(s, steps).value)
    decreases |steps|
  {
    hide Inv, Apply;
    if steps != [] {
      StepKeeps(s, steps[0]);
      RunKeeps(Apply(s, steps[0]).value, steps[1..]);
    }
  }

  /** `s` is where some interleaving leads. */
  ghost predicate Reachable(s: Pool) {
    exists workers: nat, callers: nat, maxJobs: nat, steps: seq<Step> ::
      Run(Initial(workers, callers, maxJobs), steps) == Some(s)
  }

  lemma ReachableInv(s: Pool)
    requires Reachable(s)
    ensures Inv(s)
  {
    hide Inv, Run;
    var workers: nat, callers: nat, maxJobs: nat, steps: seq<Step> :|
      Run(Initial(workers, callers, maxJobs), steps) == Some(s);
    InitialInv(workers, callers, maxJobs);
    RunKeeps(Initial(workers, callers, maxJobs), steps);
  }

  lemma {:induction false} NonePushed(cs: seq<Caller>)
    requires Pushed !in cs
    ensures CountPushed(cs) == 0
  {
    if cs != [] {
      NonePushed(cs[1..]);
    }
  }

  /** A job in the queue that nobody is about to announce finds a worker that is not waiting. */
  lemma NoLostWakeup(s: Pool)
    requires Reachable(s) && s.workers != [] && !s.quit && s.queue != [] && Pushed !in s.callers
    ensures exists i | 0 <= i < |s.workers| :: s.workers[i] != Blocked && s.workers[i] != Exited
  {
    ReachableInv(s);
    NonePushed(s.callers);
    var i :| 0 <= i < |s.workers| && s.workers[i] != Blocked;
  }

  /** In every reachable state: the bound, the order of acceptance, and at most one execution and deletion. */
  lemma JobsInOrder(s: Pool)
    requires Reachable(s)
    ensures |s.queue| <= s.maxJobs && s.accepted == s.popped + |s.queue|
    ensures forall k | 0 <= k < |s.queue| :: s.queue[k] == s.popped + k
    ensures forall j: nat :: s.executions[j] <= 1 && s.deletions[j] <= 1
    ensures forall j: nat | s.popped <= j :: s.executions[j] == 0 && s.deletions[j] == 0
  {
    ReachableInv(s);
    forall j: nat
      ensures s.executions[j] <= 1 && s.deletions[j] <= 1
      ensures s.popped <= j ==> s.executions[j] == 0 && s.deletions[j] == 0
    {
      AccountedFor(s, j);
    }
  }

  /** The job that a worker takes is the next one in the order of acceptance. */
  lemma TakesNext(s: Pool, i: nat)
    requires Reachable(s) && i < |s.workers| && s.workers[i] == Holding && s.queue != []
    ensures WorkStep(s, i).Some? && WorkStep(s, i).value.workers[i] == Fetched(s.popped)
    ensures s.executions[s.popped] == 0 && forall k | 0 <= k < |s.workers| :: JobOf(s.workers[k]) != Some(s.popped)
  {
    ReachableInv(s);
    AccountedFor(s, s.popped);
    forall k | 0 <= k < |s.workers|
      ensures JobOf(s.workers[k]) != Some(s.popped)
    {
      assert HeldAt(s, k);
    }
  }

  /** While the destructor does not flush the queue, a deleted job has been executed, and exactly once. */
  lemma ExecutedBeforeDeleted(s: Pool, j: nat)
    requires Reachable(s) && !s.destructor.Flushing? && !s.destructor.Gone? && j in s.deletions
    ensures s.executions[j] == 1 && s.deletions[j] == 1
  {
    ReachableInv(s);
    AccountedFor(s, j);
    assert DoneAt(s, j);
  }

  /** What flushing has done since `f`: the jobs that have left the queue are deleted, and none is executed. */
  ghost predicate Flushed(f: Pool, t: Pool) {
    && (t.destructor.Flushing? || t.destructor.Gone?)
    && t.executions == f.executions && t.accepted == f.accepted && f.popped <= t.popped
    && forall j: nat :: t.deletions[j] == f.deletions[j] + if f.popped <= j < t.popped then 1 else 0
  }

  /** Behind the join only the destructor has steps left. */
  lemma OnlyDestroys(f: Pool, s: Pool, step: Step)
    requires Inv(s) && Flushed(f, s) && Apply(s, step).Some?
    ensures step.Destroy? && Flushed(f, Apply(s, step).value)
  {
    assert forall i | 0 <= i < |s.workers| :: s.workers[i] == Exited;
    assert s.queue != [] ==> s.queue[0] == s.popped;
  }

  lemma {:induction false} RunFlushes(f: Pool, s: Pool, steps: seq<Step>)
    requires Inv(s) && Flushed(f, s) && Run(s, steps).Some?
    ensures Flushed(f, Run(s, steps).value)
    decreases |steps|
  {
    hide Inv, Apply, Flushed;
    if steps != [] {
      OnlyDestroys(f, s, steps[0]);
      StepKeeps(s, steps[0]);
      RunFlushes(f, Apply(s, steps[0]).value, steps[1..]);
    }
  }

  /** When the last worker has been joined, the jobs that have left the queue are those executed and deleted. */
  lemma JoinedAccounts(s: Pool, j: nat)
    requires Inv(s) && s.destructor.Joining? && Apply(s, Destroy).Some?
    requires Apply(s, Destroy).value.destructor.Flushing?
    ensures var once := if j < s.popped then 1 else 0; s.executions[j] == once && s.deletions[j] == once
  {
    AccountedFor(s, j);
    assert forall i | 0 <= i < |s.workers| :: s.workers[i] == Exited && JobOf(s.workers[i]) == None;
    assert !HeldBySome(s, j);
    assert DoneAt(s, j);
  }

  /**
   * `s` is where the last worker has been joined and `t` any state after that: the jobs that were not in the queue at
   * `s` have been executed and deleted once, and those that have left it since are deleted without being executed.
   */
  lemma OnlyFlushedUnexecuted(s: Pool, steps: seq<Step>, j: nat)
    requires Reachable(s) && s.destructor.Joining? && Apply(s, Destroy).Some?
    requires Apply(s, Destroy).value.destructor.Flushing? && Run(Apply(s, Destroy).value, steps).Some?
    ensures var t := Run(Apply(s, Destroy).value, steps).value;
      && t.executions[j] == (if j < s.accepted && j !in s.queue then 1 else 0)
      && t.deletions[j] == (if j < s.accepted && j !in t.queue then 1 else 0)
      && (t.destructor.Gone? ==> t.queue == [])
  {
    ReachableInv(s);
    JoinedAccounts(s, j);
    var f := Apply(s, Destroy).value;
    StepKeeps(s, Destroy);
    RunFlushes(f, f, steps);
    RunKeeps(f, steps);
    QueueHolds(s, j);
    QueueHolds(Run(f, steps).value, j);
  }

  /** The queue holds the accepted jobs from the next one on. */
  lemma QueueHolds(s: Pool, j: nat)
    requires Ordered(s)
    ensures j in s.queue <==> s.popped <= j < s.accepted
  {
    if s.popped <= j < s.accepted {
      assert s.queue[j - s.popped] == j;
    }
  }

  /** When the destructor has returned, every accepted job has been deleted exactly once. */
  lemma AllDeleted(s: Pool, j: nat)
    requires Reachable(s) && s.destructor.Gone? && j < s.accepted
    ensures s.deletions[j] == 1 && s.executions[j] <= 1
  {
    ReachableInv(s);
    AccountedFor(s, j);
    assert forall i | 0 <= i < |s.workers| :: s.workers[i] == Exited && JobOf(s.workers[i]) == None;
    assert !HeldBySome(s, j);
  }

  /** A job is turned down exactly when the queue is full; otherwise it is the last in the queue. */
  lemma AcceptsWhileRoom(s: Pool, i: nat)
    requires Reachable(s) && i < |s.callers| && s.callers[i] == Inside
    ensures Apply(s, Call(i)).Some?
    ensures var t := Apply(s, Call(i)).value;
      if |s.queue| == s.maxJobs then t.queue == s.queue && t.callers[i] == Outside
      else t.queue == s.queue + [s.popped + |s.queue|] && t.callers[i] == Pushed
  {
    ReachableInv(s);
  }

  /** After quit is set, each worker starts at most one more job. */
  lemma AtMostOneMore(s: Pool, i: nat)
    requires Reachable(s) && i < |s.workers|
    ensures s.late[i] <= 1
  {
    ReachableInv(s);
  }

  /**
   * Quit is set and announced without the lock, so a worker that has just tested it can miss the announcement and
   * wait for ever: nothing but a spurious wake-up or a new call of `addJob` is left to happen.
   */
  lemma QuitCanBeMissed(s: Pool)
    requires s == Pool([Blocked], [], Joining(0), None, true, [], 0, 0, 0, multiset{}, multiset{}, multiset{})
    ensures Reachable(s)
    ensures forall step | Apply(s, step).Some? :: step.WakeSpuriously?
  {
    var s0 := Initial(1, 0, 0);
    var s1 := s0.(workers := [Locking]);
    var s2 := s1.(workers := [Holding], owner := Some(ByWorker(0)));
    var s3 := s2.(destructor := Quitting, quit := true);
    var s4 := s3.(destructor := Joining(0));
    assert s0.workers == [Testing] && s0.callers == [];
    assert s0.workers[0 := Locking] == [Locking] && s1.workers[0 := Holding] == [Holding];
    assert s4.workers[0 := Blocked] == [Blocked];
    assert Apply(s0, Work(0)) == Some(s1);
    assert Apply(s1, Work(0)) == Some(s2);
    assert Apply(s2, Destroy) == Some(s3);
    assert WakeAll([Holding]) == [Holding];
    assert Apply(s3, Destroy) == Some(s4);
    assert Apply(s4, Work(0)) == Some(s);
    var steps := [Work(0), Work(0), Destroy, Destroy, Work(0)];
    assert steps[1..] == [Work(0), Destroy, Destroy, Work(0)];
    assert steps[1..][1..] == [Destroy, Destroy, Work(0)];
    assert steps[1..][1..][1..] == [Destroy, Work(0)];
    assert steps[1..][1..][1..][1..] == [Work(0)];
    assert Run(s4, [Work(0)]) == Run(s, []) == Some(s);
    assert Run(s3, [Destroy, Work(0)]) == Some(s);
    assert Run(s2, [Destroy, Destroy, Work(0)]) == Some(s);
    assert Run(s1, [Work(0), Destroy, Destroy, Work(0)]) == Some(s);
    assert Run(s0, steps) == Some(s);
  }
}
