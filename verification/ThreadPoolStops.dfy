/**
 * The end of the thread pool: once the destructor has announced that it quits, with no call of `addJob` under way or
 * to come and no spurious wake-up, when it returns and when some worker misses the announcement.
 */
module ThreadPoolStops {
  import opened ThreadPoolRuns
  import opened ThreadPools

  /** The steps that are left: those of the workers and of the destructor. */
  predicate Quiet(step: Step) {
    step.Work? || step.Destroy?
  }

  predicate AllQuiet(steps: seq<Step>) {
    forall step | step in steps :: Quiet(step)
  }

  /** The destructor has announced that it quits and nobody calls: no worker is blocked yet. */
  ghost predicate Announced(s: Pool) {
    s.destructor.Joining? && Blocked !in s.workers && forall c | c in s.callers :: c == Outside
  }

  function Count(ws: seq<Worker>, w: Worker): nat {
    multiset(ws)[w]
  }

  /** The workers that have tested the quit flag, found it clear and have not looked at the queue. */
  function Late(ws: seq<Worker>): nat {
    Count(ws, Locking) + Count(ws, Holding)
  }

  /** How many such and blocked workers there are more than jobs for them. */
  function Excess(s: Pool): int {
    Late(s.workers) + Count(s.workers, Blocked) - |s.queue|
  }

  /** What holds from the announcement on. */
  ghost predicate Ending(s: Pool) {
    && (s.destructor.Joining? || s.destructor.Flushing? || s.destructor.Gone?) && Inv(s)
    && (forall c | c in s.callers :: c == Outside)
    && (Blocked in s.workers ==> s.queue == [])
  }

  lemma AnnouncedEnding(s: Pool)
    requires Inv(s) && Announced(s)
    ensures Ending(s) && Excess(s) == Late(s.workers) - |s.queue|
  {}

  // ----- every quiet step

  lemma CountSet(ws: seq<Worker>, i: nat, w: Worker, v: Worker)
    requires i < |ws|
    ensures Count(ws[i := w], v) + (if ws[i] == v then 1 else 0) == Count(ws, v) + (if w == v then 1 else 0)
  {}

  lemma WorkKeepsExcess(s: Pool, i: nat)
    requires s.quit && i < |s.workers| && WorkStep(s, i).Some?
    ensures Excess(WorkStep(s, i).value) == Excess(s)
  {
    hide Count;
    var w := WorkStep(s, i).value.workers[i];
    CountSet(s.workers, i, w, Locking);
    CountSet(s.workers, i, w, Holding);
    CountSet(s.workers, i, w, Blocked);
  }

  /** Blocked workers and those on their way to the queue cancel out with the jobs there. */
  lemma KeepsExcess(s: Pool, step: Step)
    requires Ending(s) && s.destructor.Joining? && Quiet(step) && Apply(s, step).Some?
    ensures Excess(Apply(s, step).value) == Excess(s)
  {
    QuitSet(s);
    hide Inv, WorkStep, Count;
    if step.Work? {
      WorkKeepsExcess(s, step.i);
    }
  }

  lemma QuitSet(s: Pool)
    requires Ending(s)
    ensures s.quit
  {}

  lemma WorkBlocks(s: Pool, i: nat)
    requires (Blocked in s.workers ==> s.queue == []) && i < |s.workers| && WorkStep(s, i).Some?
    ensures var t := WorkStep(s, i).value;
      (Blocked in t.workers ==> t.queue == []) && t.destructor == s.destructor && t.callers == s.callers
  {
    var t := WorkStep(s, i).value;
    if Blocked in t.workers && t.workers[i] != Blocked {
      var k :| 0 <= k < |t.workers| && t.workers[k] == Blocked;
      assert s.workers[k] == Blocked;
    }
  }

  lemma KeepsEnding(s: Pool, step: Step)
    requires Ending(s) && Quiet(step) && Apply(s, step).Some?
    ensures Ending(Apply(s, step).value)
  {
    StepKeeps(s, step);
    hide Inv, WorkStep;
    if step.Work? {
      WorkBlocks(s, step.i);
    }
  }

  /** Behind the join nobody is late or blocked. */
  lemma NoneLeft(s: Pool)
    requires Ending(s) && !s.destructor.Joining?
    ensures Late(s.workers) == 0 && Blocked !in s.workers
  {
    forall w | w in s.workers ensures w == Exited {
      var i :| 0 <= i < |s.workers| && s.workers[i] == w;
    }
    assert Locking !in s.workers && Holding !in s.workers;
  }

  // ----- quiet runs are finite

  function WorkerLeft(w: Worker): nat {
    match w
    case Locking => 5
    case Holding => 4
    case Fetched(_) => 3
    case Executed(_) => 2
    case Waking => 2
    case Testing => 1
    case Blocked => 0
    case Exited => 0
  }

  function WorkersLeft(ws: seq<Worker>): nat {
    if ws == [] then 0 else WorkerLeft(ws[0]) + WorkersLeft(ws[1..])
  }

  function DestructorLeft(d: Destructor, workers: nat): int {
    match d
    case Joining(k) => workers - k + 2
    case Flushing => 1
    case _ => 0
  }

  /** A bound on the quiet steps that are left. */
  function StepsLeft(s: Pool): int {
    WorkersLeft(s.workers) + DestructorLeft(s.destructor, |s.workers|) + |s.queue|
  }

  lemma {:induction false} WorkersLeftSet(ws: seq<Worker>, i: nat, w: Worker)
    requires i < |ws|
    ensures WorkersLeft(ws[i := w]) + WorkerLeft(ws[i]) == WorkersLeft(ws) + WorkerLeft(w)
  {
    if i == 0 {
      assert ws[i := w][1..] == ws[1..];
    } else {
      assert ws[i := w][1..] == ws[1..][i - 1 := w];
      WorkersLeftSet(ws[1..], i - 1, w);
    }
  }

  lemma WorkFalls(s: Pool, i: nat)
    requires s.quit && i < |s.workers| && WorkStep(s, i).Some?
    ensures StepsLeft(WorkStep(s, i).value) < StepsLeft(s)
  {
    hide WorkersLeft;
    WorkersLeftSet(s.workers, i, WorkStep(s, i).value.workers[i]);
  }

  lemma StepsFall(s: Pool, step: Step)
    requires Ending(s) && Quiet(step) && Apply(s, step).Some?
    ensures StepsLeft(Apply(s, step).value) < StepsLeft(s)
  {
    QuitSet(s);
    JoinBounds(s);
    hide Inv, WorkStep, WorkersLeft;
    if step.Work? {
      WorkFalls(s, step.i);
    }
  }

  lemma JoinBounds(s: Pool)
    requires Ending(s)
    ensures s.destructor.Joining? ==> s.destructor.joined <= |s.workers|
  {}

  /** From the announcement on only so many quiet steps can be taken, in any order. */
  lemma {:induction false} QuietRunsEnd(s: Pool, steps: seq<Step>)
    requires Ending(s) && AllQuiet(steps) && Run(s, steps).Some?
    ensures Ending(Run(s, steps).value) && |steps| <= StepsLeft(s)
    ensures Run(s, steps).value.destructor.Joining? ==>
      s.destructor.Joining? && Excess(Run(s, steps).value) == Excess(s)
    ensures s.destructor.Joining? && !Run(s, steps).value.destructor.Joining? ==> Excess(s) <= 0
    decreases |steps|
  {
    hide Ending, Apply, StepsLeft, Excess;
    if steps == [] {
      StepsLeftNat(s);
    } else {
      var t := Apply(s, steps[0]).value;
      assert steps[0] in steps && AllQuiet(steps[1..]);
      KeepsEnding(s, steps[0]);
      StepsFall(s, steps[0]);
      QuietRunsEnd(t, steps[1..]);
      JoinStays(s, steps[0]);
      if s.destructor.Joining? {
        KeepsExcess(s, steps[0]);
        if !t.destructor.Joining? {
          LeftNoExcess(t);
        }
      }
    }
  }

  lemma StepsLeftNat(s: Pool)
    requires Ending(s)
    ensures StepsLeft(s) >= 0
  {
    JoinBounds(s);
  }

  lemma JoinStays(s: Pool, step: Step)
    requires Apply(s, step).Some? && Ending(s) && Quiet(step)
    ensures Apply(s, step).value.destructor.Joining? ==> s.destructor.Joining?
  {}

  lemma LeftNoExcess(s: Pool)
    requires Ending(s) && !s.destructor.Joining?
    ensures Excess(s) <= 0
  {
    NoneLeft(s);
  }

  // ----- where quiet runs end

  /** Neither a worker nor the destructor can take a step. */
  ghost predicate Finished(s: Pool) {
    forall step | Quiet(step) :: Apply(s, step).None?
  }

  lemma OwnerWorks(s: Pool)
    requires Ending(s)
    ensures s.owner.Some? ==> s.owner.value.i < |s.workers| && s.workers[s.owner.value.i] == Holding
  {
    forall i | 0 <= i < |s.callers| ensures s.callers[i] != Inside {
      assert s.callers[i] in s.callers;
    }
  }

  /** A worker that is neither blocked nor gone can go on, or the one that has the mutex can. */
  lemma WorkerGoesOn(s: Pool, i: nat)
    requires Ending(s) && i < |s.workers| && s.workers[i] != Blocked && s.workers[i] != Exited
    ensures !Finished(s)
  {
    OwnerWorks(s);
    var k := if s.owner.Some? then s.owner.value.i else i;
    assert Apply(s, Work(k)).Some?;
  }

  /** Where no quiet step is left, the destructor has returned, or waits for a worker that is blocked. */
  lemma FinishedStates(s: Pool)
    requires Ending(s) && Finished(s)
    ensures Late(s.workers) == 0
    ensures s.destructor.Gone? || (s.destructor.Joining? && Blocked in s.workers)
  {
    forall w | w in s.workers ensures w == Blocked || w == Exited {
      var i :| 0 <= i < |s.workers| && s.workers[i] == w;
      if w != Blocked && w != Exited {
        WorkerGoesOn(s, i);
      }
    }
    assert Locking !in s.workers && Holding !in s.workers;
    assert Apply(s, Destroy).None?;
    if Blocked !in s.workers {
      assert forall i | 0 <= i < |s.workers| :: s.workers[i] in s.workers;
      assert s.destructor.Gone?;
    }
  }

  /**
   * From the announcement on, the destructor returns in every order of steps if there are no more late workers than
   * jobs in the queue; if there are more, it returns in none, and in the end some worker is blocked for ever.
   */
  lemma DestructorReturns(s: Pool, steps: seq<Step>)
    requires Reachable(s) && Announced(s) && AllQuiet(steps) && Run(s, steps).Some?
    ensures var t := Run(s, steps).value;
      && |steps| <= StepsLeft(s)
      && (Late(s.workers) > |s.queue| ==> t.destructor.Joining?)
      && (Finished(t) ==> (t.destructor.Gone? <==> Late(s.workers) <= |s.queue|))
      && (Finished(t) ==> (Blocked in t.workers <==> Late(s.workers) > |s.queue|))
  {
    ReachableInv(s);
    AnnouncedEnding(s);
    hide Inv, Reachable, Announced, StepsLeft, Run, AllQuiet, Late, Ending;
    QuietRunsEnd(s, steps);
    var t := Run(s, steps).value;
    if Finished(t) {
      FinishedStates(t);
      EndCounts(s, t);
    }
  }

  lemma EndCounts(s: Pool, t: Pool)
    requires Ending(t) && Late(t.workers) == 0
    requires t.destructor.Gone? || (t.destructor.Joining? && Blocked in t.workers)
    ensures t.destructor.Gone? ==> Blocked !in t.workers
    ensures t.destructor.Joining? ==> Excess(t) > 0
  {
    if t.destructor.Gone? {
      NoneLeft(t);
    } else {
      assert Blocked in multiset(t.workers);
    }
  }

  /** Where the announcement comes from. */
  lemma QuittingAnnounces(s: Pool)
    requires Reachable(s) && s.destructor.Quitting? && forall c | c in s.callers :: c == Outside
    ensures Apply(s, Destroy).Some? && Announced(Apply(s, Destroy).value)
    ensures Apply(s, Destroy).value.queue == s.queue
  {
    var t := Apply(s, Destroy).value;
    forall w | w in t.workers ensures w != Blocked {
      var i :| 0 <= i < |t.workers| && t.workers[i] == w;
    }
  }
}
