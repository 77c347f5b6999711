/**
 * The thread pool as a step system: workers, callers of `addJob` and the destructor interleave freely, one mutex
 * guards the queue, and a condition variable blocks workers on an empty queue. Jobs are numbered as accepted.
 */
module ThreadPools {
  import opened Options

  /** Where a worker is in `work`. */
  datatype Worker =
    | Testing
    | Locking
    | Holding
    | Fetched(job: nat)
    | Executed(job: nat)
    | Blocked
    | Waking
    | Exited

  /** Where a caller is in `addJob`; `Pushed` is after the lock is released and before `notify_one`. */
  datatype Caller = Outside | Entering | Inside | Pushed

  datatype Destructor = Idle | Quitting | Joining(joined: nat) | Flushing | Gone

  datatype Holder = ByWorker(i: nat) | ByCaller(i: nat)

  /**
   * `executions` and `deletions` count what happens to each job, `late` the jobs that each worker starts after quit
   * is set.
   */
  datatype Pool = Pool(
    workers: seq<Worker>, callers: seq<Caller>, destructor: Destructor, owner: Option<Holder>, quit: bool,
    queue: seq<nat>, maxJobs: nat, accepted: nat, popped: nat,
    executions: multiset<nat>, deletions: multiset<nat>, late: multiset<nat>)

  datatype Step =
    | Work(i: nat)
    | WakeSpuriously(i: nat)
    | Call(i: nat)
    | NotifyOne(i: nat, woken: Option<nat>)
    | Destroy

  function Fill<T>(n: nat, x: T): (r: seq<T>)
    ensures |r| == n && forall i | 0 <= i < n :: r[i] == x
  {
    seq(n, _ => x)
  }

  function Initial(workers: nat, callers: nat, maxJobs: nat): Pool {
    Pool(Fill(workers, Testing), Fill(callers, Outside), Idle, None, false, [], maxJobs, 0, 0,
         multiset{}, multiset{}, multiset{})
  }

  /** One step of worker `i` in `work`; it can neither take a held mutex nor leave `wait` by itself. */
  function WorkStep(s: Pool, i: nat): Option<Pool>
    requires i < |s.workers|
  {
    match s.workers[i]
    case Testing => Some(s.(workers := s.workers[i := if s.quit then Exited else Locking]))
    case Locking =>
      if s.owner.Some? then None
      else Some(s.(workers := s.workers[i := Holding], owner := Some(ByWorker(i))))
    case Holding =>
      if s.queue == [] then Some(s.(workers := s.workers[i := Blocked], owner := None))
      else Some(s.(workers := s.workers[i := Fetched(s.queue[0])], owner := None, queue := s.queue[1..],
                   popped := s.popped + 1, late := if s.quit then s.late + multiset{i} else s.late))
    case Fetched(j) => Some(s.(workers := s.workers[i := Executed(j)], executions := s.executions + multiset{j}))
    case Executed(j) => Some(s.(workers := s.workers[i := Testing], deletions := s.deletions + multiset{j}))
    case Waking => if s.owner.Some? then None else Some(s.(workers := s.workers[i := Testing]))
    case _ => None
  }

  /** One step of a call of `addJob`, up to its notification; no call may overlap the end of the destructor. */
  function CallStep(s: Pool, i: nat): Option<Pool>
    requires i < |s.callers|
  {
    if s.destructor.Flushing? || s.destructor.Gone? then None
    else match s.callers[i]
      case Outside => Some(s.(callers := s.callers[i := Entering]))
      case Entering =>
        if s.owner.Some? then None else Some(s.(callers := s.callers[i := Inside], owner := Some(ByCaller(i))))
      case Inside =>
        if |s.queue| >= s.maxJobs then Some(s.(callers := s.callers[i := Outside], owner := None))
        else Some(s.(callers := s.callers[i := Pushed], owner := None, queue := s.queue + [s.accepted],
                     accepted := s.accepted + 1))
      case Pushed => None
  }

  /** `notify_one` wakes a blocked worker if there is one. */
  function NotifyStep(s: Pool, i: nat, woken: Option<nat>): Option<Pool>
    requires i < |s.callers|
  {
    if s.callers[i] != Pushed then None
    else match woken
      case None => if Blocked in s.workers then None else Some(s.(callers := s.callers[i := Outside]))
      case Some(k) =>
        if k >= |s.workers| || s.workers[k] != Blocked then None
        else Some(s.(callers := s.callers[i := Outside], workers := s.workers[k := Waking]))
  }

  function WakeAll(ws: seq<Worker>): (r: seq<Worker>)
    ensures |r| == |ws| && forall i | 0 <= i < |ws| :: r[i] == if ws[i] == Blocked then Waking else ws[i]
  {
    seq(|ws|, i requires 0 <= i < |ws| => if ws[i] == Blocked then Waking else ws[i])
  }

  /** The destructor: quit is set and notified without the lock, then the workers are joined and the queue flushed. */
  function DestroyStep(s: Pool): Option<Pool> {
    match s.destructor
    case Idle => Some(s.(destructor := Quitting, quit := true))
    case Quitting => Some(s.(destructor := Joining(0), workers := WakeAll(s.workers)))
    case Joining(k) =>
      if k < |s.workers| then if s.workers[k] == Exited then Some(s.(destructor := Joining(k + 1))) else None
      else if exists c | c in s.callers :: c != Outside then None
      else Some(s.(destructor := Flushing))
    case Flushing =>
      if s.queue == [] then Some(s.(destructor := Gone))
      else Some(s.(queue := s.queue[1..], popped := s.popped + 1, deletions := s.deletions + multiset{s.queue[0]}))
    case Gone => None
  }

  /** What a step leads to; None where it cannot be taken. */
  function Apply(s: Pool, step: Step): Option<Pool> {
    match step
    case Work(i) => if i < |s.workers| then WorkStep(s, i) else None
    case WakeSpuriously(i) =>
      if i < |s.workers| && s.workers[i] == Blocked then Some(s.(workers := s.workers[i := Waking])) else None
    case Call(i) => if i < |s.callers| then CallStep(s, i) else None
    case NotifyOne(i, woken) => if i < |s.callers| then NotifyStep(s, i, woken) else None
    case Destroy => DestroyStep(s)
  }

  // ----- what every step keeps

  /** The mutex is held by who is inside a critical section, and by nobody else. */
  ghost predicate Exclusive(s: Pool) {
    && (forall i | 0 <= i < |s.workers| :: s.workers[i] == Holding <==> s.owner == Some(ByWorker(i)))
    && (forall i | 0 <= i < |s.callers| :: s.callers[i] == Inside <==> s.owner == Some(ByCaller(i)))
    && (s.owner.Some? ==> s.owner.value.i < if s.owner.value.ByWorker? then |s.workers| else |s.callers|)
  }

  /** The queue holds the accepted jobs that have not left it, in order, and never more than its limit. */
  ghost predicate Ordered(s: Pool) {
    && |s.queue| <= s.maxJobs && s.accepted == s.popped + |s.queue|
    && forall k | 0 <= k < |s.queue| :: s.queue[k] == s.popped + k
  }

  function CountPushed(cs: seq<Caller>): nat {
    if cs == [] then 0 else (if cs[0] == Pushed then 1 else 0) + CountPushed(cs[1..])
  }

  ghost predicate AllBlocked(s: Pool) {
    forall i | 0 <= i < |s.workers| :: s.workers[i] == Blocked
  }

  /** While all workers are blocked, every queued job has a notification coming. */
  ghost predicate Awake(s: Pool) {
    s.workers != [] && AllBlocked(s) ==> |s.queue| <= CountPushed(s.callers)
  }

  /** The job that a worker has taken and not deleted yet. */
  function JobOf(w: Worker): Option<nat> {
    match w
    case Fetched(j) => Some(j)
    case Executed(j) => Some(j)
    case _ => None
  }

  /** A worker that has a job has executed it exactly when it says so. */
  ghost predicate HeldAt(s: Pool, i: nat)
    requires i < |s.workers|
  {
    match JobOf(s.workers[i])
    case None => true
    case Some(j) =>
      j < s.popped && s.deletions[j] == 0 && s.executions[j] == if s.workers[i].Executed? then 1 else 0
  }

  /** No two workers have the same job. */
  ghost predicate Held(s: Pool) {
    && (forall i | 0 <= i < |s.workers| :: HeldAt(s, i))
    && (forall i, k | 0 <= i < k < |s.workers| && JobOf(s.workers[i]).Some? ::
          JobOf(s.workers[i]) != JobOf(s.workers[k]))
  }

  ghost predicate HeldBySome(s: Pool, j: nat) {
    exists i | 0 <= i < |s.workers| :: JobOf(s.workers[i]) == Some(j)
  }

  /** Jobs still queued are untouched; the others are with a worker or deleted. */
  ghost predicate AccountedAt(s: Pool, j: nat) {
    && s.executions[j] <= 1 && s.deletions[j] <= 1
    && (s.popped <= j ==> s.executions[j] == 0 && s.deletions[j] == 0)
    && (j < s.popped && s.deletions[j] == 0 ==> HeldBySome(s, j))
  }

  ghost predicate Accounted(s: Pool) {
    forall j: nat :: AccountedAt(s, j)
  }

  /** Until the destructor flushes the queue, a job is deleted only after it has been executed. */
  ghost predicate DoneAt(s: Pool, j: nat) {
    s.destructor.Flushing? || s.destructor.Gone? || s.deletions[j] <= s.executions[j]
  }

  ghost predicate Done(s: Pool) {
    forall j: nat :: DoneAt(s, j)
  }

  /** Each worker starts at most one job after quit is set, and does not come back for another. */
  ghost predicate StartsOnce(s: Pool) {
    && (!s.quit ==> forall i: nat :: s.late[i] == 0)
    && (forall i: nat | i < |s.workers| && s.late[i] > 0 ::
          s.late[i] == 1 && s.workers[i] != Locking && s.workers[i] != Holding && s.workers[i] != Blocked
          && s.workers[i] != Waking)
  }

  /** Workers leave only after quit, and the destructor goes on only when those it has joined have left. */
  ghost predicate Stopping(s: Pool) {
    && (s.quit <==> s.destructor != Idle)
    && (forall i | 0 <= i < |s.workers| && s.workers[i] == Exited :: s.quit)
    && (s.destructor.Joining? ==> s.destructor.joined <= |s.workers|)
    && (s.destructor.Joining? ==> forall i | 0 <= i < s.destructor.joined :: s.workers[i] == Exited)
    && (s.destructor.Flushing? || s.destructor.Gone? ==> forall i | 0 <= i < |s.workers| :: s.workers[i] == Exited)
    && (s.destructor.Flushing? || s.destructor.Gone? ==> forall i | 0 <= i < |s.callers| :: s.callers[i] == Outside)
    && (s.destructor.Gone? ==> s.queue == [])
  }

  ghost predicate Inv(s: Pool) {
    && Exclusive(s) && Ordered(s) && Awake(s) && Held(s) && Accounted(s) && Done(s) && StartsOnce(s)
    && Stopping(s)
  }

  // What one step of each kind does to the state, and no more.

  lemma WorkKeepsExclusive(s: Pool, i: nat)
    requires Exclusive(s) && i < |s.workers| && WorkStep(s, i).Some?
    ensures Exclusive(WorkStep(s, i).value)
  {}

  lemma CallKeepsExclusive(s: Pool, i: nat)
    requires Exclusive(s) && i < |s.callers| && CallStep(s, i).Some?
    ensures Exclusive(CallStep(s, i).value)
  {}

  lemma NotifyKeepsExclusive(s: Pool, i: nat, woken: Option<nat>)
    requires Exclusive(s) && i < |s.callers| && NotifyStep(s, i, woken).Some?
    ensures Exclusive(NotifyStep(s, i, woken).value)
  {}

  lemma DestroyKeepsExclusive(s: Pool)
    requires Exclusive(s) && DestroyStep(s).Some?
    ensures Exclusive(DestroyStep(s).value)
  {}

  lemma KeepsExclusive(s: Pool, step: Step)
    requires Exclusive(s) && Apply(s, step).Some?
    ensures Exclusive(Apply(s, step).value)
  {
    hide WorkStep, CallStep, NotifyStep, DestroyStep;
    match step
    case Work(i) => WorkKeepsExclusive(s, i);
    case WakeSpuriously(_) =>
    case Call(i) => CallKeepsExclusive(s, i);
    case NotifyOne(i, woken) => NotifyKeepsExclusive(s, i, woken);
    case Destroy => DestroyKeepsExclusive(s);
  }

  lemma WorkKeepsOrdered(s: Pool, i: nat)
    requires Ordered(s) && i < |s.workers| && WorkStep(s, i).Some?
    ensures Ordered(WorkStep(s, i).value)
  {}

  lemma CallKeepsOrdered(s: Pool, i: nat)
    requires Ordered(s) && i < |s.callers| && CallStep(s, i).Some?
    ensures Ordered(CallStep(s, i).value)
  {}

  lemma KeepsOrdered(s: Pool, step: Step)
    requires Ordered(s) && Apply(s, step).Some?
    ensures Ordered(Apply(s, step).value)
  {
    hide WorkStep, CallStep;
    match step
    case Work(i) => WorkKeepsOrdered(s, i);
    case Call(i) => CallKeepsOrdered(s, i);
    case _ =>
  }

  lemma WorkKeepsHeld(s: Pool, w: nat, i: nat)
    requires Ordered(s) && Held(s) && AccountedAt(s, s.popped)
    requires w < |s.workers| && i < |s.workers| && WorkStep(s, w).Some?
    ensures HeldAt(WorkStep(s, w).value, i)
    ensures JobOf(WorkStep(s, w).value.workers[i]) in {None, JobOf(s.workers[i]), Some(s.popped)}
    ensures i != w ==> JobOf(WorkStep(s, w).value.workers[i]) == JobOf(s.workers[i]) != Some(s.popped)
  {
    assert HeldAt(s, i) && HeldAt(s, w);
  }

  lemma OthersKeepHeld(s: Pool, step: Step, i: nat)
    requires Ordered(s) && i < |s.workers| && HeldAt(s, i) && !step.Work? && Apply(s, step).Some?
    requires forall k | 0 <= k < |s.workers| :: HeldAt(s, k)
    ensures var t := Apply(s, step).value;
      |t.workers| == |s.workers| && JobOf(t.workers[i]) == JobOf(s.workers[i]) && HeldAt(t, i)
  {}

  lemma KeepsHeld(s: Pool, step: Step)
    requires Ordered(s) && Held(s) && Accounted(s) && Apply(s, step).Some?
    ensures Held(Apply(s, step).value)
  {
    hide WorkStep, CallStep, NotifyStep, DestroyStep, Ordered, Accounted, HeldAt, AccountedAt;
    var t := Apply(s, step).value;
    AccountedFor(s, s.popped);
    WorkersStay(s, step);
    forall i | 0 <= i < |t.workers|
      ensures HeldAt(t, i)
    {
      if step.Work? {
        WorkKeepsHeld(s, step.i, i);
      } else {
        OthersKeepHeld(s, step, i);
      }
    }
    forall i, k | 0 <= i < k < |t.workers| && JobOf(t.workers[i]).Some?
      ensures JobOf(t.workers[i]) != JobOf(t.workers[k])
    {
      if step.Work? {
        WorkKeepsHeld(s, step.i, i);
        WorkKeepsHeld(s, step.i, k);
      } else {
        OthersKeepHeld(s, step, i);
        OthersKeepHeld(s, step, k);
      }
    }
  }

  lemma AccountedFor(s: Pool, j: nat)
    requires Accounted(s)
    ensures AccountedAt(s, j)
  {}

  lemma WorkersStay(s: Pool, step: Step)
    requires Apply(s, step).Some?
    ensures |Apply(s, step).value.workers| == |s.workers|
  {}

  lemma WorkKeepsAccounted(s: Pool, w: nat, j: nat)
    requires Ordered(s) && Held(s) && AccountedAt(s, j) && w < |s.workers| && WorkStep(s, w).Some?
    ensures AccountedAt(WorkStep(s, w).value, j)
  {
    var t := WorkStep(s, w).value;
    assert HeldAt(s, w);
    if HeldBySome(s, j) {
      var i :| 0 <= i < |s.workers| && JobOf(s.workers[i]) == Some(j);
      assert HeldAt(s, i);
      assert t.deletions[j] == 0 ==> JobOf(t.workers[i]) == Some(j);
    }
    assert j == s.popped && t.popped == j + 1 ==> JobOf(t.workers[w]) == Some(j);
  }

  lemma OthersKeepAccounted(s: Pool, step: Step, j: nat)
    requires Ordered(s) && Held(s) && AccountedAt(s, j) && Stopping(s) && !step.Work? && Apply(s, step).Some?
    ensures AccountedAt(Apply(s, step).value, j)
  {
    var t := Apply(s, step).value;
    if HeldBySome(s, j) {
      var i :| 0 <= i < |s.workers| && JobOf(s.workers[i]) == Some(j);
      assert HeldAt(s, i);
      assert JobOf(t.workers[i]) == Some(j);
    }
  }

  lemma KeepsAccounted(s: Pool, step: Step)
    requires Ordered(s) && Held(s) && Accounted(s) && Stopping(s) && Apply(s, step).Some?
    ensures Accounted(Apply(s, step).value)
  {
    hide WorkStep, CallStep, NotifyStep, DestroyStep, Ordered, AccountedAt, Held, Stopping;
    forall j: nat
      ensures AccountedAt(Apply(s, step).value, j)
    {
      if step.Work? {
        WorkKeepsAccounted(s, step.i, j);
      } else {
        OthersKeepAccounted(s, step, j);
      }
    }
  }

  lemma KeepsDoneAt(s: Pool, step: Step, j: nat)
    requires Held(s) && AccountedAt(s, j) && DoneAt(s, j) && Apply(s, step).Some?
    ensures DoneAt(Apply(s, step).value, j)
  {
    if step.Work? && s.workers[step.i].Executed? {
      assert HeldAt(s, step.i);
    }
  }

  lemma KeepsDone(s: Pool, step: Step)
    requires Held(s) && Accounted(s) && Done(s) && Apply(s, step).Some?
    ensures Done(Apply(s, step).value)
  {
    hide Apply, AccountedAt, Held, DoneAt;
    forall j: nat
      ensures DoneAt(Apply(s, step).value, j)
    {
      KeepsDoneAt(s, step, j);
    }
  }

  lemma WorkKeepsStartsOnce(s: Pool, i: nat)
    requires StartsOnce(s) && Stopping(s) && i < |s.workers| && WorkStep(s, i).Some?
    ensures StartsOnce(WorkStep(s, i).value)
  {}

  lemma KeepsStartsOnce(s: Pool, step: Step)
    requires StartsOnce(s) && Stopping(s) && Apply(s, step).Some?
    ensures StartsOnce(Apply(s, step).value)
  {
    hide WorkStep;
    if step.Work? {
      WorkKeepsStartsOnce(s, step.i);
    }
  }

  lemma WorkKeepsStopping(s: Pool, i: nat)
    requires Stopping(s) && i < |s.workers| && WorkStep(s, i).Some?
    ensures Stopping(WorkStep(s, i).value)
  {}

  lemma KeepsStopping(s: Pool, step: Step)
    requires Stopping(s) && Apply(s, step).Some?
    ensures Stopping(Apply(s, step).value)
  {
    hide WorkStep;
    if step.Work? {
      WorkKeepsStopping(s, step.i);
    }
    assert forall i | 0 <= i < |s.callers| :: s.callers[i] in s.callers;
  }

  // ----- wake-ups

  lemma {:induction false} PushedSet(cs: seq<Caller>, i: nat, c: Caller)
    requires i < |cs|
    ensures CountPushed(cs[i := c]) + (if cs[i] == Pushed then 1 else 0) ==
      CountPushed(cs) + (if c == Pushed then 1 else 0)
  {
    if i == 0 {
      assert cs[i := c][1..] == cs[1..];
    } else {
      assert cs[i := c][1..] == cs[1..][i - 1 := c];
      PushedSet(cs[1..], i - 1, c);
    }
  }

  lemma NotifyWakes(s: Pool, i: nat, woken: Option<nat>)
    requires s.workers != [] && i < |s.callers| && NotifyStep(s, i, woken).Some?
    ensures !AllBlocked(NotifyStep(s, i, woken).value)
  {
    var t := NotifyStep(s, i, woken).value;
    if woken.Some? {
      assert t.workers[woken.value] == Waking;
    } else {
      assert t.workers[0] in s.workers;
      assert t.workers[0] != Blocked;
    }
  }

  lemma DestroyWakes(s: Pool)
    requires Stopping(s) && Awake(s) && DestroyStep(s).Some?
    ensures Awake(DestroyStep(s).value)
  {
    var t := DestroyStep(s).value;
    if s.workers != [] {
      assert s.destructor.Flushing? ==> t.workers[0] == Exited;
      assert s.destructor.Quitting? ==> t.workers[0] != Blocked;
    }
  }

  lemma CallKeepsAwake(s: Pool, i: nat)
    requires Awake(s) && i < |s.callers| && CallStep(s, i).Some?
    ensures Awake(CallStep(s, i).value)
  {
    hide CountPushed;
    PushedSet(s.callers, i, CallStep(s, i).value.callers[i]);
  }

  lemma KeepsAwake(s: Pool, step: Step)
    requires Awake(s) && Stopping(s) && Apply(s, step).Some?
    ensures Awake(Apply(s, step).value)
  {
    hide CountPushed, CallStep, NotifyStep, DestroyStep;
    var t := Apply(s, step).value;
    match step
    case Work(i) =>
      assert t.workers[i] == Blocked ==> t.queue == [];
    case WakeSpuriously(i) =>
      assert t.workers[i] == Waking;
    case Call(i) => CallKeepsAwake(s, i);
    case NotifyOne(i, woken) =>
      if s.workers != [] {
        NotifyWakes(s, i, woken);
      } else {
        WorkersStay(s, step);
      }
    case Destroy => DestroyWakes(s);
  }

  // ----- every step

  lemma StepKeeps(s: Pool, step: Step)
    requires Inv(s) && Apply(s, step).Some?
    ensures Inv(Apply(s, step).value)
  {
    hide Exclusive, Ordered, Awake, Held, Accounted, Done, StartsOnce, Stopping, Apply;
    KeepsExclusive(s, step);
    KeepsOrdered(s, step);
    KeepsAwake(s, step);
    KeepsHeld(s, step);
    KeepsAccounted(s, step);
    KeepsDone(s, step);
    KeepsStartsOnce(s, step);
    KeepsStopping(s, step);
  }

  lemma InitialInv(workers: nat, callers: nat, maxJobs: nat)
    ensures Inv(Initial(workers, callers, maxJobs))
  {}
}
