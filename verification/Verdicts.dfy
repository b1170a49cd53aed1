/** The status that a build leaves behind, told by the steps of its run. */
module Verdicts {
  import opened BusyLock
  import opened ElbeDb

  /** The place of the first end of a build in a run. */
  function FirstEnd(steps: seq<Step>): (b: nat)
    ensures b <= |steps| && forall j: nat | j < b :: !steps[j].EndBuild?
    ensures b < |steps| ==> steps[b].EndBuild?
  {
    if steps == [] || steps[0].EndBuild? then 0 else 1 + FirstEnd(steps[1..])
  }

  /** An error is logged before the first end of a build. */
  predicate LogsError(steps: seq<Step>) {
    exists j: nat | j < FirstEnd(steps) :: steps[j].Log? && steps[j].level >= 40
  }

  /** The first build that ends in the run raises. */
  predicate Raises(steps: seq<Step>) {
    FirstEnd(steps) < |steps| && steps[FirstEnd(steps)].raised
  }

  /** What the kind of the job makes of it. */
  ghost predicate Fails(kind: JobKind, steps: seq<Step>) {
    match kind
    case UpdatePbuilder => false
    case CreatePbuilder => Raises(steps)
    case _ => Raises(steps) || LogsError(steps)
  }

  // -------------------------------------------------------- the worker of the run

  predicate Decides(w: Worker, job: Job, records: seq<nat>, raised: bool) {
    w.Executing? && w.job == job && w.records == records && w.raised == raised && w.phase != Building
  }

  predicate Builds(w: Worker, job: Job, records: seq<nat>) {
    w == Executing(job, Building, records, false)
  }

  lemma BuildingStep(s: System, step: Step, job: Job, records: seq<nat>)
    requires Builds(s.worker, job, records)
    ensures var w := Next(s, step).worker;
            match step
            case Log(level) => Builds(w, job, records + [level])
            case EndBuild(raised) => Decides(w, job, records, raised)
            case _ => Builds(w, job, records)
  {
  }

  lemma DecidedStep(s: System, step: Step, job: Job, records: seq<nat>, raised: bool)
    requires Inv(s) && Inv(Next(s, step)) && step != TaskDone
    requires Decides(s.worker, job, records, raised)
    ensures Decides(Next(s, step).worker, job, records, raised)
  {
    hide QueuedJobs, CountJobs, LockInv, QueueRight, LevelsRight;
  }

  lemma {:induction false} DecidedRun(s: System, steps: seq<Step>, job: Job, records: seq<nat>, raised: bool)
    requires Inv(s) && AllDisciplined(s, steps) && TaskDone !in steps
    requires Decides(s.worker, job, records, raised)
    ensures Decides(Exec(s, steps).worker, job, records, raised)
    decreases steps
  {
    hide Inv, Next, Disciplined, Decides;
    if steps != [] {
      InvIsKept(s, steps[0]);
      DecidedStep(s, steps[0], job, records, raised);
      DecidedRun(Next(s, steps[0]), steps[1..], job, records, raised);
    }
  }

  predicate HasError(records: seq<nat>) {
    exists l | l in records :: l >= 40
  }

  lemma HasErrorSnoc(records: seq<nat>, level: nat)
    ensures HasError(records + [level]) <==> HasError(records) || level >= 40
  {
    assert forall l :: l in records + [level] <==> l in records || l == level;
    assert level in records + [level];
    if l :| l in records && l >= 40 {
      assert l in records + [level];
    }
  }

  lemma AfterFirst(steps: seq<Step>)
    requires steps != [] && !steps[0].EndBuild?
    ensures FirstEnd(steps) == 1 + FirstEnd(steps[1..])
    ensures Raises(steps) <==> Raises(steps[1..])
    ensures LogsError(steps) <==> LogsError(steps[1..]) || (steps[0].Log? && steps[0].level >= 40)
  {
    if LogsError(steps[1..]) {
      var j: nat :| j < FirstEnd(steps[1..]) && steps[1..][j].Log? && steps[1..][j].level >= 40;
      assert steps[j + 1].Log?;
    }
    if LogsError(steps) {
      var j: nat :| j < FirstEnd(steps) && steps[j].Log? && steps[j].level >= 40;
      if j > 0 {
        assert steps[1..][j - 1].Log?;
      }
    }
  }

  /** A build in progress: at the end of the run the worker knows whether it has
      raised and whether it has logged an error, as the steps say. */
  lemma {:induction false} BuildRuns(s: System, steps: seq<Step>, job: Job, records: seq<nat>) returns (all: seq<nat>)
    requires Inv(s) && AllDisciplined(s, steps) && TaskDone !in steps
    requires Builds(s.worker, job, records)
    ensures if FirstEnd(steps) == |steps| then Builds(Exec(s, steps).worker, job, all)
            else Decides(Exec(s, steps).worker, job, all, Raises(steps))
    ensures HasError(all) <==> HasError(records) || LogsError(steps)
    decreases steps
  {
    hide Inv, Next, Disciplined, Decides, Builds, HasError;
    all := records;
    if steps != [] {
      var s', rest := Next(s, steps[0]), steps[1..];
      InvIsKept(s, steps[0]);
      BuildingStep(s, steps[0], job, records);
      if steps[0].EndBuild? {
        DecidedRun(s', rest, job, records, steps[0].raised);
      } else {
        AfterFirst(steps);
        var more := if steps[0].Log? then records + [steps[0].level] else records;
        all := BuildRuns(s', rest, job, more);
        if steps[0].Log? {
          HasErrorSnoc(records, steps[0].level);
        }
      }
    }
  }

  lemma GetStarts(s: System, job: Job)
    requires s.worker == Idle && s.queue != [] && s.queue[0] == Item.Run(job)
    ensures Builds(Next(s, Get).worker, job, [])
  {
  }

  /** What `execute` of a kind writes at its end. */
  lemma ReleaseOfRecords(s: System, job: Job, records: seq<nat>, raised: bool)
    requires Inv(s) && Decides(s.worker, job, records, raised) && s.worker.phase.Registered?
    ensures var db := Next(s, Release).db;
            && job.project in db
            && db[job.project] == match job.kind
                                  case UpdatePbuilder => BuildDone
                                  case CreatePbuilder => if raised then BuildFailed else BuildDone
                                  case _ => if raised || HasError(records) then BuildFailed else BuildDone
  {
    ReleaseWritesDeservedStatus(s);
    hide Inv, Next;
  }

  /** From the moment a job is taken from the queue to its `reset_busy`, whatever
      all other threads do in between: the status written is `build_failed` exactly
      if, for the kinds that look at it, the build raised or an ERROR was logged
      before it ended. */
  lemma VerdictOfRun(s: System, steps: seq<Step>, job: Job)
    requires Inv(s) && s.worker == Idle && s.queue != [] && s.queue[0] == Item.Run(job)
    requires AllDisciplined(s, [Get] + steps) && TaskDone !in steps
    requires Releases(Exec(s, [Get] + steps), Release, job.project)
    ensures var db := Next(Exec(s, [Get] + steps), Release).db;
            && job.project in db
            && db[job.project] == if Fails(job.kind, steps) then BuildFailed else BuildDone
  {
    var s' := Next(s, Get);
    InvIsKept(s, Get);
    GetStarts(s, job);
    assert ([Get] + steps)[1..] == steps;
    assert Exec(s, [Get] + steps) == Exec(s', steps);
    var all := BuildRuns(s', steps, job, []);
    RunsKeepInv(s', steps);
    var e := Exec(s', steps);
    hide Inv, Next, Exec;
    ReleaseOfRecords(e, job, all, Raises(steps));
  }

  /** For example: a build that logs one error and does not raise. */
  lemma LoggedErrorFails(p: Project)
    ensures var steps := [Log(40), EndBuild(false), RegisterFiles];
            Fails(Build, steps) && !Fails(Build, [Log(39), EndBuild(false), RegisterFiles])
  {
    var steps := [Log(40), EndBuild(false), RegisterFiles];
    assert steps[1..] == [EndBuild(false), RegisterFiles];
    assert FirstEnd(steps) == 1 && steps[0].Log? && steps[0].level >= 40;
    var quiet := [Log(39), EndBuild(false), RegisterFiles];
    assert quiet[1..] == [EndBuild(false), RegisterFiles];
    assert FirstEnd(quiet) == 1;
  }
}
