/** Shutting the worker down: what `stop` waits for, whatever the request threads
    do meanwhile. */
module Shutdown {
  import opened BusyLock

  /** The items in front of the sentinel. */
  function UntilStop(queue: seq<Item>): seq<Item> {
    if queue == [] || queue[0].Stop? then [] else [queue[0]] + UntilStop(queue[1..])
  }

  /** The items behind the first sentinel. */
  function Behind(queue: seq<Item>): seq<Item> {
    if queue == [] then [] else if queue[0].Stop? then queue[1..] else Behind(queue[1..])
  }

  lemma {:induction false} QueueSplits(queue: seq<Item>)
    requires Stop in queue
    ensures queue == UntilStop(queue) + [Stop] + Behind(queue)
  {
    if queue[0].Run? {
      QueueSplits(queue[1..]);
      assert queue == [queue[0]] + queue[1..];
    }
  }

  lemma {:induction false} PutBehind(queue: seq<Item>, item: Item)
    requires Stop in queue
    ensures Stop in queue + [item]
    ensures UntilStop(queue + [item]) == UntilStop(queue)
    ensures Behind(queue + [item]) == Behind(queue) + [item]
  {
    assert (queue + [item])[1..] == queue[1..] + [item];
    if queue[0].Run? {
      PutBehind(queue[1..], item);
    }
  }

  // ------------------------------------------------------------ the worker's way

  /** The sentinel is queued and not yet met. */
  predicate Stopping(s: System) {
    Stop in s.queue && s.worker != Stopped
  }

  /** The step moves the worker on; logging does not. */
  predicate Advances(s: System, step: Step) {
    match step
    case Get => s.worker == Idle && s.queue != []
    case EndBuild(_) => s.worker.Executing? && s.worker.phase == Building
    case RegisterFiles => s.worker.Executing? && s.worker.phase.Decided?
    case Release => s.worker.Executing? && s.worker.phase.Registered?
    case TaskDone => s.worker.Executing? && s.worker.phase == Released
    case _ => false
  }

  /** How many steps the worker needs at most to be done with its job. */
  function Rank(w: Worker): nat {
    if !w.Executing? then 0
    else match w.phase case Building => 4 case Decided(_) => 3 case Registered(_) => 2 case Released => 1
  }

  /** And to meet the sentinel. */
  function Work(s: System): nat {
    if s.worker == Stopped then 0 else Rank(s.worker) + 5 * |UntilStop(s.queue)| + 1
  }

  function Cost(s: System, step: Step): nat {
    if Advances(s, step) then 1 else 0
  }

  /** The steps of a run that move the worker on. */
  function Advanced(s: System, steps: seq<Step>): nat
    decreases steps
  {
    if steps == [] then 0 else Cost(s, steps[0]) + Advanced(Next(s, steps[0]), steps[1..])
  }

  /** While the sentinel is queued, the jobs in front of it and the ones already
      started stay the same in all, and what is behind it only grows. */
  ghost predicate Nearer(s: System, s': System) {
    if s'.worker == Stopped then
      && UntilStop(s.queue) == [] && s'.queue == Behind(s.queue) && s'.started == s.started
    else
      && Stop in s'.queue && Behind(s.queue) <= Behind(s'.queue)
      && s'.started + QueuedJobs(UntilStop(s'.queue)) == s.started + QueuedJobs(UntilStop(s.queue))
  }

  lemma GetIsNearer(s: System)
    requires Stopping(s)
    ensures Nearer(s, Next(s, Get)) && Work(Next(s, Get)) + Cost(s, Get) <= Work(s)
  {
    if s.worker == Idle && s.queue[0].Run? {
      var job := s.queue[0].job;
      var s' := Next(s, Get);
      assert QueuedJobs(UntilStop(s.queue)) == [job] + QueuedJobs(UntilStop(s'.queue));
      assert s'.started + QueuedJobs(UntilStop(s'.queue))
             == s.started + ([job] + QueuedJobs(UntilStop(s'.queue)));
      assert s.queue == [s.queue[0]] + s.queue[1..];
    }
  }

  lemma StepIsNearer(s: System, step: Step)
    requires Inv(s) && Disciplined(s, step) && Stopping(s)
    ensures Nearer(s, Next(s, step)) && Work(Next(s, step)) + Cost(s, step) <= Work(s)
  {
    hide QueuedJobs, CountJobs, UntilStop, Behind, Inv, Next, Disciplined, Advances;
    match step
    case Get => GetIsNearer(s);
    case Put(_) => PutIsNearer(s, step);
    case PutStop => PutIsNearer(s, step);
    case _ => QueueIsLeft(s, step);
  }

  lemma QueueIsLeft(s: System, step: Step)
    requires !step.Get? && !step.Put? && !step.PutStop? && s.worker != Stopped
    ensures var s' := Next(s, step);
            && s'.queue == s.queue && s'.started == s.started && s'.worker != Stopped
            && Rank(s'.worker) + Cost(s, step) <= Rank(s.worker)
  {
  }

  lemma PutIsNearer(s: System, step: Step)
    requires Stopping(s) && (step.Put? || step.PutStop?)
    ensures Nearer(s, Next(s, step)) && Work(Next(s, step)) + Cost(s, step) <= Work(s)
  {
    hide QueuedJobs, CountJobs, UntilStop, Behind;
    match step
    case Put(i) =>
      if i < |s.locked| {
        PutBehind(s.queue, Item.Run(s.locked[i]));
      }
    case PutStop => PutBehind(s.queue, Stop);
  }

  /** Something moves a worker that has not met the sentinel, whether its build
      raises or not. */
  lemma WorkerCanMove(s: System, raised: bool) returns (step: Step)
    requires Inv(s) && Stopping(s)
    ensures Advances(s, step) && Disciplined(s, step)
    ensures step in {Get, EndBuild(raised), RegisterFiles, Release, TaskDone}
  {
    step := if s.worker == Idle then Get
    else match s.worker.phase
      case Building => EndBuild(raised)
      case Decided(_) => RegisterFiles
      case Registered(_) => Release
      case Released => TaskDone;
  }

  /** A stopped worker stays stopped, and nothing leaves the queue any more. */
  lemma StoppedStays(s: System, step: Step)
    requires Inv(s) && Disciplined(s, step) && s.worker == Stopped
    ensures var s' := Next(s, step);
            s'.worker == Stopped && s.queue <= s'.queue && s'.started == s.started && Cost(s, step) == 0
  {
    hide QueuedJobs, CountJobs, Inv;
  }

  lemma Unfinished(s: System)
    requires Inv(s)
    ensures s.unfinished == |s.queue| + if s.worker.Executing? then 1 else 0
    ensures s.worker != Dead
  {
    hide QueuedJobs, CountJobs, LockInv;
  }

  // --------------------------------------------------------------- over all runs

  /** Whatever is interleaved, a job that was started reaches its `task_done`
      after at most four further steps of the worker. */
  lemma {:induction false} JobRuns(s: System, steps: seq<Step>) returns (k: nat)
    requires Inv(s) && AllDisciplined(s, steps)
    requires s.worker.Executing? && Advanced(s, steps) >= Rank(s.worker)
    ensures k < |steps| && steps[k] == TaskDone && Advances(Exec(s, steps[..k]), TaskDone)
    ensures forall j: nat | j <= k :: var w := Exec(s, steps[..j]).worker; w.Executing? && w.job == s.worker.job
    decreases steps
  {
    hide Inv, Disciplined, Next, Advanced;
    k := 0;
    assert steps[..0] == [];
    assert steps != [] by { NothingAdvances(s); RankIsPositive(s); }
    var s' := Next(s, steps[0]);
    InvIsKept(s, steps[0]);
    OneStepOfJob(s, steps[0]);
    AdvancedStep(s, steps);
    if !(steps[0] == TaskDone && Advances(s, TaskDone)) {
      k := JobRuns(s', steps[1..]);
      ExecPrefixes(s, steps, k);
      k := k + 1;
      forall j: nat | j <= k
        ensures var w := Exec(s, steps[..j]).worker; w.Executing? && w.job == s.worker.job
      {
        if j > 0 {
          assert Exec(s, steps[..j]) == Exec(s', steps[1..][..j - 1]);
        }
      }
    }
  }

  lemma ExecPrefix(s: System, steps: seq<Step>, j: nat)
    requires j < |steps|
    ensures Exec(s, steps[..j + 1]) == Exec(Next(s, steps[0]), steps[1..][..j])
  {
    hide Next;
    assert steps[..j + 1][1..] == steps[1..][..j];
  }

  lemma NothingAdvances(s: System)
    ensures Advanced(s, []) == 0
  {
  }

  lemma AdvancedStep(s: System, steps: seq<Step>)
    requires steps != []
    ensures Advanced(s, steps) == Cost(s, steps[0]) + Advanced(Next(s, steps[0]), steps[1..])
  {
    hide Next;
  }

  lemma RankIsPositive(s: System)
    requires s.worker.Executing?
    ensures Rank(s.worker) > 0
  {
  }

  lemma OneStepOfJob(s: System, step: Step)
    requires Inv(s) && Inv(Next(s, step)) && s.worker.Executing?
    ensures var s' := Next(s, step);
            if step == TaskDone && Advances(s, TaskDone) then s'.worker == Idle
            else s'.worker.Executing? && s'.worker.job == s.worker.job
                 && Rank(s'.worker) + Cost(s, step) <= Rank(s.worker)
  {
    hide QueuedJobs, CountJobs, LockInv;
  }

  /** `e` is `s` after the worker has met the sentinel: all jobs in front of it
      were started, in order, and what is left are the items behind it. */
  ghost predicate Drained(s: System, e: System) {
    && e.worker == Stopped
    && e.started == s.started + QueuedJobs(UntilStop(s.queue))
    && Behind(s.queue) <= e.queue && e.unfinished == |e.queue|
  }

  lemma DrainedLater(s: System, s': System, e: System)
    requires Nearer(s, s') && s'.worker != Stopped && Drained(s', e)
    ensures Drained(s, e)
  {
    hide QueuedJobs, UntilStop, Behind;
  }

  /** In every interleaving: the steps that move the worker before it meets the
      sentinel are never more than `Work`. After that many it has stopped, and
      when it stopped, at the `k`-th step, the queue was drained. */
  lemma {:induction false} StopDrainsQueue(s: System, steps: seq<Step>) returns (k: nat)
    requires Inv(s) && AllDisciplined(s, steps) && Stopping(s)
    ensures k <= |steps| && forall j: nat | j < k :: Stopping(Exec(s, steps[..j]))
    ensures if Exec(s, steps).worker == Stopped then k > 0 && Drained(s, Exec(s, steps[..k])) else k == |steps|
    ensures Work(Exec(s, steps)) + Advanced(s, steps) <= Work(s)
    ensures Advanced(s, steps) >= Work(s) ==> Exec(s, steps).worker == Stopped
    decreases steps
  {
    hide Inv, Disciplined, Next, Advanced, Work, Nearer, Stopping;
    k := 0;
    if steps == [] {
      NothingAdvances(s);
      NotDone(s);
    } else {
      var s' := Next(s, steps[0]);
      InvIsKept(s, steps[0]);
      StepIsNearer(s, steps[0]);
      AdvancedStep(s, steps);
      assert steps[..0] == [];
      if s'.worker == Stopped {
        k := 1;
        assert steps[..1] == [steps[0]];
        OneStep(s, steps[0]);
        StaysStopped(s', steps[1..]);
        DrainedNow(s, s');
      } else {
        StillStopping(s, s');
        k := StopDrainsQueue(s', steps[1..]);
        ExecPrefixes(s, steps, k);
        if Exec(s', steps[1..]).worker == Stopped {
          DrainedLater(s, s', Exec(s', steps[1..][..k]));
        }
        k := k + 1;
        forall j: nat | j < k ensures Stopping(Exec(s, steps[..j])) {
          if j > 0 {
            assert Stopping(Exec(s', steps[1..][..j - 1]));
          }
        }
      }
    }
  }

  lemma ExecPrefixes(s: System, steps: seq<Step>, k: nat)
    requires steps != [] && k <= |steps| - 1
    ensures forall j: nat | j <= k :: Exec(s, steps[..j + 1]) == Exec(Next(s, steps[0]), steps[1..][..j])
    ensures forall j: nat | 0 < j <= k + 1 :: Exec(s, steps[..j]) == Exec(Next(s, steps[0]), steps[1..][..j - 1])
  {
    hide Next, Exec;
    forall j: nat | j <= k ensures Exec(s, steps[..j + 1]) == Exec(Next(s, steps[0]), steps[1..][..j]) {
      ExecPrefix(s, steps, j);
    }
    forall j: nat | 0 < j <= k + 1
      ensures Exec(s, steps[..j]) == Exec(Next(s, steps[0]), steps[1..][..j - 1])
    {
      ExecPrefix(s, steps, j - 1);
    }
  }

  lemma NotDone(s: System)
    requires Stopping(s)
    ensures Work(s) > 0 && s.worker != Stopped
  {
  }

  lemma StillStopping(s: System, s': System)
    requires Nearer(s, s') && s'.worker != Stopped
    ensures Stopping(s')
  {
  }

  lemma DrainedNow(s: System, s': System)
    requires Nearer(s, s') && s'.worker == Stopped && Inv(s')
    ensures Drained(s, s')
  {
    Unfinished(s');
    assert s.started + [] == s.started;
  }

  lemma {:induction false} StaysStopped(s: System, steps: seq<Step>)
    requires Inv(s) && AllDisciplined(s, steps) && s.worker == Stopped
    ensures Exec(s, steps).worker == Stopped && s.queue <= Exec(s, steps).queue
    ensures Inv(Exec(s, steps)) && Exec(s, steps).started == s.started
    ensures Advanced(s, steps) == 0 && Work(s) == 0 && Work(Exec(s, steps)) == 0
    decreases steps
  {
    hide Inv, Disciplined, Next, Advanced;
    if steps == [] {
      NothingAdvances(s);
    } else {
      InvIsKept(s, steps[0]);
      StoppedStays(s, steps[0]);
      AdvancedStep(s, steps);
      StaysStopped(Next(s, steps[0]), steps[1..]);
    }
  }

  // ---------------------------------------------------------- the join of `stop`

  /** `queue.join()` waits until no put is unfinished. */
  ghost predicate JoinReturns(s: System, steps: seq<Step>) {
    exists m: nat | m <= |steps| :: Exec(s, steps[..m]).unfinished == 0
  }

  lemma UnfinishedAt(s: System, steps: seq<Step>, k: nat, m: nat)
    requires Inv(s) && AllDisciplined(s, steps) && k <= |steps| && m <= |steps|
    requires forall j: nat | j < k :: Stopping(Exec(s, steps[..j]))
    ensures m < k ==> Exec(s, steps[..m]).unfinished > 0
    ensures m >= k && Exec(s, steps[..k]).worker == Stopped
            ==> Exec(s, steps[..m]).unfinished >= |Exec(s, steps[..k]).queue|
  {
    hide Inv, Next, Disciplined;
    assert steps == steps[..m] + steps[m..];
    ExecAppend(s, steps[..m], steps[m..]);
    RunsKeepInv(s, steps[..m]);
    Unfinished(Exec(s, steps[..m]));
    if m >= k && Exec(s, steps[..k]).worker == Stopped {
      assert steps[..m] == steps[..k] + steps[k..m];
      ExecAppend(s, steps[..k], steps[k..m]);
      RunsKeepInv(s, steps[..k]);
      StaysStopped(Exec(s, steps[..k]), steps[k..m]);
    }
  }

  /** In every interleaving: the join returns exactly when the worker stops and
      finds nothing behind the sentinel. A job behind it is never marked done. */
  lemma JoinReturnsExactly(s: System, steps: seq<Step>) returns (k: nat)
    requires Inv(s) && AllDisciplined(s, steps) && Stopping(s)
    ensures k <= |steps| && (Exec(s, steps).worker == Stopped ==> Drained(s, Exec(s, steps[..k])))
    ensures JoinReturns(s, steps) <==> Exec(s, steps).worker == Stopped && Exec(s, steps[..k]).queue == []
  {
    hide Inv, Next, Disciplined, Advanced, Work;
    k := StopDrainsQueue(s, steps);
    forall m: nat | m <= |steps|
      ensures m < k ==> Exec(s, steps[..m]).unfinished > 0
      ensures m >= k && Exec(s, steps[..k]).worker == Stopped
              ==> Exec(s, steps[..m]).unfinished >= |Exec(s, steps[..k]).queue|
    {
      UnfinishedAt(s, steps, k, m);
    }
    if Exec(s, steps).worker != Stopped {
      assert steps[..|steps|] == steps;
      RunsKeepInv(s, steps);
      StillQueued(s, steps);
    }
  }

  lemma {:induction false} StillQueued(s: System, steps: seq<Step>)
    requires Inv(s) && AllDisciplined(s, steps) && Stopping(s) && Exec(s, steps).worker != Stopped
    ensures Exec(s, steps).unfinished > 0
    decreases steps
  {
    hide Inv, Next, Disciplined, Nearer;
    if steps == [] {
      Unfinished(s);
    } else {
      var s' := Next(s, steps[0]);
      InvIsKept(s, steps[0]);
      StepIsNearer(s, steps[0]);
      if s'.worker == Stopped {
        StaysStopped(s', steps[1..]);
      }
      StillStopping(s, s');
      StillQueued(s', steps[1..]);
    }
  }

  /** The worker on its own meets the sentinel, and puts nothing behind it. */
  lemma {:induction false} WorkerAlone(s: System) returns (steps: seq<Step>)
    requires Inv(s) && Stopping(s)
    ensures AllDisciplined(s, steps) && Inv(Exec(s, steps))
    ensures Exec(s, steps).worker == Stopped && Exec(s, steps).queue == Behind(s.queue)
    decreases Work(s)
  {
    hide Inv, Next, Disciplined, Nearer, Work, Stopping;
    var step := WorkerCanMove(s, false);
    var s' := Next(s, step);
    InvIsKept(s, step);
    StepIsNearer(s, step);
    WorkerPutsNothing(s, step);
    if s'.worker == Stopped {
      steps := [step];
      OneStep(s, step);
      assert steps[1..] == [];
    } else {
      StillStopping(s, s');
      var rest := WorkerAlone(s');
      steps := [step] + rest;
      assert steps[1..] == rest;
    }
  }

  lemma WorkerPutsNothing(s: System, step: Step)
    requires Advances(s, step) && Stopping(s)
    ensures var s' := Next(s, step); if s'.worker == Stopped then s'.queue == Behind(s.queue)
                                     else Behind(s'.queue) == Behind(s.queue)
  {
    if step == Get {
      assert s.queue == [s.queue[0]] + s.queue[1..];
    }
  }

  /** From every state with the sentinel queued: `stop` can still return exactly
      if nothing stands behind the sentinel. */
  lemma StopCanReturn(s: System)
    requires Inv(s) && Stopping(s)
    ensures (exists steps :: AllDisciplined(s, steps) && Exec(s, steps).unfinished == 0) <==> Behind(s.queue) == []
  {
    hide Inv, Next, Disciplined, Stopping, Behind;
    if Behind(s.queue) == [] {
      var steps := WorkerAlone(s);
      Unfinished(Exec(s, steps));
      assert AllDisciplined(s, steps);
    }
    forall steps | AllDisciplined(s, steps) && Exec(s, steps).unfinished == 0 ensures Behind(s.queue) == [] {
      var k := JoinReturnsExactly(s, steps);
      assert steps[..|steps|] == steps;
      assert JoinReturns(s, steps);
    }
  }

  lemma HangingSteps(job: Job)
    ensures var s := Next(Next(Next(INIT, Create(job.project)), Check(job)), Lock(0));
            && s.locked == [job]
            && Next(Next(Next(s, PutStop), Put(0)), Get).worker == Stopped
            && Next(Next(Next(s, PutStop), Put(0)), Get).queue == [Item.Run(job)]
  {
  }

  /** A request that has passed `set_busy` but not yet put its job when `stop`
      puts the sentinel makes `stop` wait for ever. */
  lemma StopCanHang(job: Job, more: seq<Step>)
    ensures var s := Exec(INIT, [Create(job.project), Check(job), Lock(0), PutStop, Put(0), Get]);
            && Inv(s) && s.worker == Stopped && s.queue == [Item.Run(job)] && s.unfinished == 1
            && (AllDisciplined(s, more) ==> Exec(s, more).unfinished > 0)
  {
    HangingSteps(job);
    InitInv();
    hide Inv, Next, INIT;
    var a, b := [Create(job.project), Check(job), Lock(0)], [PutStop, Put(0), Get];
    var s3 := Next(Next(Next(INIT, Create(job.project)), Check(job)), Lock(0));
    var s := Next(Next(Next(s3, PutStop), Put(0)), Get);
    ThreeSteps(INIT, Create(job.project), Check(job), Lock(0));
    ThreeSteps(s3, PutStop, Put(0), Get);
    ExecAppend(INIT, a, b);
    assert a + b == [Create(job.project), Check(job), Lock(0), PutStop, Put(0), Get];
    RunsKeepInv(INIT, a + b);
    Unfinished(s);
    if AllDisciplined(s, more) {
      StaysStopped(s, more);
      Unfinished(Exec(s, more));
    }
  }

  lemma ThreeSteps(s: System, a: Step, b: Step, c: Step)
    ensures Exec(s, [a, b, c]) == Next(Next(Next(s, a), b), c)
    ensures AllDisciplined(s, [a, b, c])
            <==> Disciplined(s, a) && Disciplined(Next(s, a), b) && Disciplined(Next(Next(s, a), b), c)
  {
    hide Next, Disciplined;
    var s1, s2 := Next(s, a), Next(Next(s, a), b);
    assert [a, b, c][1..] == [b, c] && [b, c][1..] == [c] && [c][1..] == [];
    assert Exec(s2, [c]) == Next(s2, c) && Exec(s1, [b, c]) == Exec(s2, [c]);
    assert AllDisciplined(s2, [c]) <==> Disciplined(s2, c);
    assert AllDisciplined(s1, [b, c]) <==> Disciplined(s1, b) && AllDisciplined(s2, [c]);
  }
}
