/**
 * The work of the thread pool: while nobody asks it to quit, the calls of `addJob` under way and the jobs accepted by
 * them are dealt with in every order of steps.
 */
module ThreadPoolWork {
  import opened Options
  import opened ThreadPoolRuns
  import opened ThreadPools

  /** A step of a worker, or one that takes a call of `addJob` further; no new call, no spurious wake-up, no quit. */
  predicate Busy(s: Pool, step: Step) {
    step.Work? || step.NotifyOne? || (step.Call? && step.i < |s.callers| && s.callers[step.i] != Outside)
  }

  /** A run of busy steps. */
  ghost predicate AllBusy(s: Pool, steps: seq<Step>)
    decreases |steps|
  {
    steps == [] || (Busy(s, steps[0]) && Apply(s, steps[0]).Some? && AllBusy(Apply(s, steps[0]).value, steps[1..]))
  }

  function WorkerDue(w: Worker): nat {
    match w
    case Blocked => 0
    case Exited => 0
    case Holding => 1
    case Locking => 2
    case Testing => 3
    case Waking => 4
    case Executed(_) => 4
    case Fetched(_) => 5
  }

  function CallerDue(c: Caller): nat {
    match c
    case Outside => 0
    case Pushed => 5
    case Inside => 11
    case Entering => 12
  }

  function WorkersDue(ws: seq<Worker>): nat {
    if ws == [] then 0 else WorkerDue(ws[0]) + WorkersDue(ws[1..])
  }

  function CallersDue(cs: seq<Caller>): nat {
    if cs == [] then 0 else CallerDue(cs[0]) + CallersDue(cs[1..])
  }

  /** A bound on the busy steps that can still be taken. */
  function Due(s: Pool): nat {
    WorkersDue(s.workers) + CallersDue(s.callers) + 5 * |s.queue|
  }

  lemma {:induction false} WorkersDueSet(ws: seq<Worker>, i: nat, w: Worker)
    requires i < |ws|
    ensures WorkersDue(ws[i := w]) + WorkerDue(ws[i]) == WorkersDue(ws) + WorkerDue(w)
  {
    if i == 0 {
      assert ws[i := w][1..] == ws[1..];
    } else {
      assert ws[i := w][1..] == ws[1..][i - 1 := w];
      WorkersDueSet(ws[1..], i - 1, w);
    }
  }

  lemma {:induction false} CallersDueSet(cs: seq<Caller>, i: nat, c: Caller)
    requires i < |cs|
    ensures CallersDue(cs[i := c]) + CallerDue(cs[i]) == CallersDue(cs) + CallerDue(c)
  {
    if i == 0 {
      assert cs[i := c][1..] == cs[1..];
    } else {
      assert cs[i := c][1..] == cs[1..][i - 1 := c];
      CallersDueSet(cs[1..], i - 1, c);
    }
  }

  lemma WorkFallsDue(s: Pool, i: nat)
    requires !s.quit && i < |s.workers| && WorkStep(s, i).Some?
    ensures Due(WorkStep(s, i).value) < Due(s) && !WorkStep(s, i).value.quit
  {
    hide WorkersDue, CallersDue;
    WorkersDueSet(s.workers, i, WorkStep(s, i).value.workers[i]);
  }

  lemma CallFallsDue(s: Pool, i: nat)
    requires i < |s.callers| && s.callers[i] != Outside && CallStep(s, i).Some?
    ensures Due(CallStep(s, i).value) < Due(s)
  {
    hide WorkersDue, CallersDue;
    CallersDueSet(s.callers, i, CallStep(s, i).value.callers[i]);
  }

  lemma NotifyFallsDue(s: Pool, i: nat, woken: Option<nat>)
    requires i < |s.callers| && NotifyStep(s, i, woken).Some?
    ensures Due(NotifyStep(s, i, woken).value) < Due(s)
  {
    hide WorkersDue, CallersDue;
    CallersDueSet(s.callers, i, Outside);
    if woken.Some? {
      WorkersDueSet(s.workers, woken.value, Waking);
    }
  }

  lemma BusyFalls(s: Pool, step: Step)
    requires !s.quit && Busy(s, step) && Apply(s, step).Some?
    ensures Due(Apply(s, step).value) < Due(s)
    ensures !Apply(s, step).value.quit && |Apply(s, step).value.workers| == |s.workers|
  {
    hide WorkStep, Due;
    if step.Work? {
      WorkFallsDue(s, step.i);
      WorkersStay(s, step);
    } else if step.Call? {
      CallFallsDue(s, step.i);
    } else {
      NotifyFallsDue(s, step.i, step.woken);
    }
  }

  lemma {:induction false} BusyRunsEnd(s: Pool, steps: seq<Step>)
    requires Inv(s) && !s.quit && AllBusy(s, steps)
    ensures Run(s, steps).Some? && |steps| <= Due(s)
    ensures var t := Run(s, steps).value; Inv(t) && !t.quit && |t.workers| == |s.workers|
    decreases |steps|
  {
    hide Inv, Apply, Due, Busy;
    if steps != [] {
      BusyFalls(s, steps[0]);
      StepKeeps(s, steps[0]);
      BusyRunsEnd(Apply(s, steps[0]).value, steps[1..]);
    }
  }

  /** No busy step can be taken. */
  ghost predicate Still(s: Pool) {
    forall step | Busy(s, step) :: Apply(s, step).None?
  }

  /** Somebody has the mutex and gives it back, or it can be taken. */
  lemma OwnerGoesOn(s: Pool)
    requires Inv(s) && s.destructor.Idle? && s.owner.Some?
    ensures !Still(s)
  {
    var step := if s.owner.value.ByWorker? then Work(s.owner.value.i) else Call(s.owner.value.i);
    assert Busy(s, step) && Apply(s, step).Some?;
  }

  lemma WorkerGoesOn(s: Pool, i: nat)
    requires Inv(s) && s.destructor.Idle? && i < |s.workers| && s.workers[i] != Blocked
    ensures !Still(s)
  {
    if s.owner.Some? {
      OwnerGoesOn(s);
    } else {
      assert Busy(s, Work(i)) && Apply(s, Work(i)).Some?;
    }
  }

  lemma CallerGoesOn(s: Pool, i: nat)
    requires Inv(s) && s.destructor.Idle? && i < |s.callers| && s.callers[i] != Outside
    ensures !Still(s)
  {
    if s.callers[i] == Pushed {
      if Blocked in s.workers {
        var k :| 0 <= k < |s.workers| && s.workers[k] == Blocked;
        assert Busy(s, NotifyOne(i, Some(k))) && Apply(s, NotifyOne(i, Some(k))).Some?;
      } else {
        assert Busy(s, NotifyOne(i, None)) && Apply(s, NotifyOne(i, None)).Some?;
      }
    } else if s.owner.Some? {
      OwnerGoesOn(s);
    } else {
      assert Busy(s, Call(i)) && Apply(s, Call(i)).Some?;
    }
  }

  /** Where no busy step is left, all workers wait for work, and there is none. */
  lemma StillIsDone(s: Pool)
    requires Inv(s) && !s.quit && s.workers != [] && Still(s)
    ensures AllBlocked(s) && s.queue == [] && (forall c | c in s.callers :: c == Outside)
  {
    hide Inv, Still;
    StillBefore(s);
    forall i | 0 <= i < |s.workers| ensures s.workers[i] == Blocked {
      if s.workers[i] != Blocked {
        WorkerGoesOn(s, i);
      }
    }
    forall c | c in s.callers ensures c == Outside {
      var i :| 0 <= i < |s.callers| && s.callers[i] == c;
      if c != Outside {
        CallerGoesOn(s, i);
      }
    }
    NonePushed(s.callers);
    assert Awake(s);
  }

  lemma StillBefore(s: Pool)
    requires Inv(s) && !s.quit
    ensures s.destructor.Idle? && Awake(s)
  {}

  lemma DoneWhenStill(s: Pool, j: nat)
    requires Inv(s) && !s.quit && AllBlocked(s) && s.queue == [] && j < s.accepted
    ensures s.executions[j] == 1 && s.deletions[j] == 1
  {
    AccountedFor(s, j);
    assert !HeldBySome(s, j);
    assert DoneAt(s, j);
  }

  /**
   * From every reachable state that is not quitting, busy runs are bounded, and where none of their steps is left
   * every job ever accepted has been executed and deleted, once each, and every worker waits for the next.
   */
  lemma JobsGetDone(s: Pool, steps: seq<Step>)
    requires Reachable(s) && !s.quit && s.workers != [] && AllBusy(s, steps)
    ensures |steps| <= Due(s) && Run(s, steps).Some?
    ensures var t := Run(s, steps).value;
      Still(t) ==>
        && t.queue == [] && (forall i | 0 <= i < |t.workers| :: t.workers[i] == Blocked)
        && (forall c | c in t.callers :: c == Outside)
        && (forall j | 0 <= j < t.accepted :: t.executions[j] == 1 && t.deletions[j] == 1)
  {
    ReachableInv(s);
    BusyRunsEnd(s, steps);
    var t := Run(s, steps).value;
    if Still(t) {
      StillIsDone(t);
      forall j | 0 <= j < t.accepted ensures t.executions[j] == 1 && t.deletions[j] == 1 {
        DoneWhenStill(t, j);
      }
    }
  }
}
