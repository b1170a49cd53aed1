/** Request threads, one FIFO queue and one worker, interleaved step by step
    over the project database: the busy status as a lock. */
module BusyLock {
  import opened ElbeDb

  const ERROR: nat := 40

  const STARTABLE: set<Status> := {EmptyProject, NeedsBuild, HasChanges, BuildDone, BuildFailed}

  datatype JobKind =
    BuildSysroot | BuildSDK | BuildCDROMs | BuildChrootTar | Build | Pdebuild | CreatePbuilder | UpdatePbuilder

  datatype Job = Job(project: Project, kind: JobKind)

  datatype Item = Stop | Run(job: Job)

  type FinalStatus = s: Status | s == BuildDone || s == BuildFailed witness BuildDone

  /** How far `execute` is: building; status decided, with the files still to
      be registered; files registered; lock given back. */
  datatype Phase = Building | Decided(status: FinalStatus) | Registered(status: FinalStatus) | Released

  // `records` are the levels logged for the project from the start of the
  // build to its end.
  datatype Worker = Idle | Executing(job: Job, phase: Phase, records: seq<nat>, raised: bool) | Dead | Stopped

  datatype System = System(
    db: Db,
    checked: seq<Job>,             // threads past the `_assert_not_busy` pre-check
    locked: seq<Job>,              // threads past `set_busy`, not yet on the queue
    queue: seq<Item>,
    worker: Worker,
    uploads: multiset<Project>,    // uploads whose part 0 was accepted
    maxLevel: map<Project, nat>,   // running maximum of the logging queues
    unfinished: nat,               // puts without their task_done
    enqueued: seq<Job>,            // history: jobs in the order of their put
    started: seq<Job>)             // history: jobs in the order of their get

  datatype Step =
    | Create(p: Project)
    | SetXml(p: Project, valid: bool)
    | Delete(p: Project)
    | Reset(p: Project, hasSource: bool)
    | Check(job: Job)              // a build request passes `open_project(allow_busy=False)`
    | Lock(i: nat)                 // `set_busy` of the i-th checked request
    | Put(i: nat)                  // reset_level and `queue.put` of the i-th locked request
    | PutStop
    | UploadStart(p: Project)      // `upload_file` with part 0, from `set_busy` on
    | UploadFinish(p: Project)     // `upload_file` with part -1, up to `reset_busy`
    | Get
    | Log(level: nat)
    | EndBuild(raised: bool)
    | RegisterFiles
    | Release
    | TaskDone

  function Level(maxLevel: map<Project, nat>, p: Project): nat {
    if p in maxLevel then maxLevel[p] else 0
  }

  function NoteLevel(maxLevel: map<Project, nat>, p: Project, level: nat): map<Project, nat> {
    if level > Level(maxLevel, p) then maxLevel[p := level] else maxLevel
  }

  function RemoveAt<T>(s: seq<T>, i: nat): seq<T>
    requires i < |s|
  {
    s[..i] + s[i + 1..]
  }

  /** The status that `execute` decides on from the stored maximum level. */
  function Verdict(kind: JobKind, raised: bool, maxLevel: nat): FinalStatus {
    match kind
    case UpdatePbuilder => BuildDone
    case CreatePbuilder => if raised then BuildFailed else BuildDone
    case _ => if raised || maxLevel >= ERROR then BuildFailed else BuildDone
  }

  function Next(s: System, step: Step): System {
    match step
    case Create(p) => s.(db := CreateTx(s.db, p).0)
    case SetXml(p, valid) => s.(db := SetXmlTx(s.db, p, valid).0)
    case Delete(p) => s.(db := DeleteTx(s.db, p).0)
    case Reset(p, hasSource) => s.(db := ResetTx(s.db, p, hasSource).0)
    case Check(job) =>
      if job.project in s.db && s.db[job.project] != Busy then s.(checked := s.checked + [job]) else s
    case Lock(i) =>
      if i < |s.checked| then
        var job := s.checked[i];
        var (db, r) := SetBusyTx(s.db, job.project, STARTABLE);
        s.(db := db, checked := RemoveAt(s.checked, i), locked := if r.Ok? then s.locked + [job] else s.locked)
      else s
    case Put(i) =>
      if i < |s.locked| then
        var job := s.locked[i];
        s.(locked := RemoveAt(s.locked, i),
           queue := s.queue + [Run(job)],
           maxLevel := s.maxLevel[job.project := 0],
           unfinished := s.unfinished + 1,
           enqueued := s.enqueued + [job])
      else s
    case PutStop => s.(queue := s.queue + [Stop], unfinished := s.unfinished + 1)
    case UploadStart(p) =>
      var (db, r) := SetBusyTx(s.db, p, STARTABLE);
      s.(db := db, uploads := if r.Ok? then s.uploads + multiset{p} else s.uploads)
    case UploadFinish(p) =>
      s.(db := ResetBusyTx(s.db, p, HasChanges).0, uploads := s.uploads - multiset{p})
    case Get =>
      if s.worker == Idle && s.queue != [] then
        match s.queue[0]
        case Stop =>
          s.(queue := s.queue[1..], worker := Stopped, unfinished := if s.unfinished > 0 then s.unfinished - 1 else 0)
        case Run(job) =>
          s.(queue := s.queue[1..], worker := Executing(job, Building, [], false), started := s.started + [job])
      else s
    case Log(level) =>
      if s.worker.Executing? && s.worker.phase != Released then
        s.(worker := if s.worker.phase == Building then s.worker.(records := s.worker.records + [level]) else s.worker,
           maxLevel := NoteLevel(s.maxLevel, s.worker.job.project, level))
      else s
    case EndBuild(raised) =>
      if s.worker.Executing? && s.worker.phase == Building then
        var verdict := Verdict(s.worker.job.kind, raised, Level(s.maxLevel, s.worker.job.project));
        s.(worker := s.worker.(
             raised := raised,
             phase := if s.worker.job.kind == UpdatePbuilder && !raised then Registered(verdict)
                      else Decided(verdict)))
      else s
    case RegisterFiles =>
      if s.worker.Executing? && s.worker.phase.Decided? then
        s.(worker := if s.worker.job.project in s.db then s.worker.(phase := Registered(s.worker.phase.status))
                     else Dead)
      else s
    case Release =>
      if s.worker.Executing? && s.worker.phase.Registered? then
        var (db, r) := ResetBusyTx(s.db, s.worker.job.project, s.worker.phase.status);
        s.(db := db, worker := if r.Ok? then s.worker.(phase := Released) else Dead)
      else s
    case TaskDone =>
      if s.worker.Executing? && s.worker.phase == Released then
        s.(worker := Idle, unfinished := if s.unfinished > 0 then s.unfinished - 1 else 0)
      else s
  }

  // ---------------------------------------------------------------- holders

  function CountJobs(jobs: seq<Job>, p: Project): nat {
    if jobs == [] then 0 else (if jobs[0].project == p then 1 else 0) + CountJobs(jobs[1..], p)
  }

  function QueuedJobs(queue: seq<Item>): seq<Job> {
    if queue == [] then []
    else (match queue[0] case Stop => [] case Run(job) => [job]) + QueuedJobs(queue[1..])
  }

  function WorkerHolds(w: Worker, p: Project): nat {
    if w.Executing? && w.phase != Released && w.job.project == p then 1 else 0
  }

  /** Everybody who is still going to reset the busy status of `p`. */
  function Holders(s: System, p: Project): nat {
    CountJobs(s.locked, p) + CountJobs(QueuedJobs(s.queue), p) + WorkerHolds(s.worker, p) + s.uploads[p]
  }

  ghost predicate LockedRight(s: System, p: Project) {
    Holders(s, p) == if IsBusy(s.db, p) then 1 else 0
  }

  /** A project has one outstanding holder when it is busy, and none else. */
  ghost predicate LockInv(s: System) {
    forall p :: LockedRight(s, p)
  }

  lemma {:induction false} CountAppend(a: seq<Job>, b: seq<Job>, p: Project)
    ensures CountJobs(a + b, p) == CountJobs(a, p) + CountJobs(b, p)
  {
    if a == [] {
      assert a + b == b;
    } else {
      assert (a + b)[1..] == a[1..] + b;
      CountAppend(a[1..], b, p);
    }
  }

  lemma CountOne(job: Job, p: Project)
    ensures CountJobs([job], p) == if job.project == p then 1 else 0
  {
    assert CountJobs([job][1..], p) == 0;
  }

  lemma CountRemoveAt(jobs: seq<Job>, i: nat, p: Project)
    requires i < |jobs|
    ensures CountJobs(jobs, p) == CountJobs(RemoveAt(jobs, i), p) + if jobs[i].project == p then 1 else 0
  {
    assert jobs == jobs[..i] + ([jobs[i]] + jobs[i + 1..]);
    CountAppend(jobs[..i], [jobs[i]] + jobs[i + 1..], p);
    CountAppend([jobs[i]], jobs[i + 1..], p);
    CountOne(jobs[i], p);
    CountAppend(jobs[..i], jobs[i + 1..], p);
  }

  lemma {:induction false} QueuedAppend(a: seq<Item>, b: seq<Item>)
    ensures QueuedJobs(a + b) == QueuedJobs(a) + QueuedJobs(b)
  {
    if a == [] {
      assert a + b == b;
    } else {
      assert (a + b)[1..] == a[1..] + b;
      QueuedAppend(a[1..], b);
    }
  }

  /** The two steps that the code does not guard. */
  predicate Disciplined(s: System, step: Step) {
    match step
    case Reset(p, _) => !IsBusy(s.db, p)
    case UploadFinish(p) => IsBusy(s.db, p) ==> p in s.uploads
    case _ => true
  }

  lemma HoldersAfterLock(s: System, i: nat, p: Project)
    requires LockInv(s)
    ensures LockedRight(Next(s, Lock(i)), p)
  {
    hide QueuedJobs, WorkerHolds, CountJobs;
    assert LockedRight(s, p);
    if i < |s.checked| {
      CountAppend(s.locked, [s.checked[i]], p);
      CountOne(s.checked[i], p);
      assert LockedRight(s, s.checked[i].project);
    }
  }

  lemma QueuedCount(queue: seq<Item>, item: Item, p: Project)
    ensures CountJobs(QueuedJobs(queue + [item]), p) ==
            CountJobs(QueuedJobs(queue), p) + if item.Run? && item.job.project == p then 1 else 0
  {
    QueuedAppend(queue, [item]);
    assert QueuedJobs([item]) == if item.Run? then [item.job] else [];
    CountAppend(QueuedJobs(queue), QueuedJobs([item]), p);
    if item.Run? {
      CountOne(item.job, p);
    }
  }

  lemma HoldersAfterPut(s: System, i: nat, p: Project)
    requires LockInv(s)
    ensures LockedRight(Next(s, Put(i)), p)
  {
    hide QueuedJobs, WorkerHolds, CountJobs, RemoveAt;
    assert LockedRight(s, p);
    if i < |s.locked| {
      CountRemoveAt(s.locked, i, p);
      QueuedCount(s.queue, Item.Run(s.locked[i]), p);
    }
  }

  lemma HoldersAfterPutStop(s: System, p: Project)
    requires LockInv(s)
    ensures LockedRight(Next(s, PutStop), p)
  {
    hide QueuedJobs, WorkerHolds, CountJobs;
    assert LockedRight(s, p);
    QueuedCount(s.queue, Stop, p);
  }

  lemma HoldersAfterGet(s: System, p: Project)
    requires LockInv(s)
    ensures LockedRight(Next(s, Get), p)
  {
    assert LockedRight(s, p);
    if s.worker == Idle && s.queue != [] {
      var item := s.queue[0];
      var jobs := match item case Stop => [] case Run(job) => [job];
      assert QueuedJobs(s.queue) == jobs + QueuedJobs(s.queue[1..]);
      CountAppend(jobs, QueuedJobs(s.queue[1..]), p);
      if item.Run? {
        CountOne(item.job, p);
      }
    }
  }

  lemma HoldersAfterWorker(s: System, step: Step, p: Project)
    requires LockInv(s)
    requires step.Log? || step.EndBuild? || step.RegisterFiles? || step.Release? || step.TaskDone?
    ensures LockedRight(Next(s, step), p)
  {
    hide QueuedJobs, CountJobs;
    assert LockedRight(s, p);
    if s.worker.Executing? {
      assert LockedRight(s, s.worker.job.project);
    }
  }

  lemma HoldersAfterDbRequest(s: System, step: Step, p: Project)
    requires LockInv(s) && Disciplined(s, step)
    requires step.Create? || step.SetXml? || step.Delete? || step.Reset? || step.Check?
    ensures LockedRight(Next(s, step), p)
  {
    hide QueuedJobs, CountJobs, WorkerHolds;
    assert LockedRight(s, p);
  }

  lemma HoldersAfterUpload(s: System, step: Step, p: Project)
    requires LockInv(s) && Disciplined(s, step)
    requires step.UploadStart? || step.UploadFinish?
    ensures LockedRight(Next(s, step), p)
  {
    hide QueuedJobs, CountJobs, WorkerHolds;
    assert LockedRight(s, p) && LockedRight(s, step.p);
    AddAndTake(s.uploads, step.p, p);
  }

  lemma AddAndTake(m: multiset<Project>, q: Project, p: Project)
    ensures (m + multiset{q})[p] == m[p] + if p == q then 1 else 0
    ensures (m - multiset{q})[p] == if p == q && m[p] > 0 then m[p] - 1 else m[p]
  {
  }

  lemma HoldersOfNext(s: System, step: Step, p: Project)
    requires LockInv(s) && Disciplined(s, step)
    ensures LockedRight(Next(s, step), p)
  {
    hide Next, LockedRight;
    match step
    case Lock(i) => HoldersAfterLock(s, i, p);
    case Put(i) => HoldersAfterPut(s, i, p);
    case Get => HoldersAfterGet(s, p);
    case PutStop => HoldersAfterPutStop(s, p);
    case Log(_) => HoldersAfterWorker(s, step, p);
    case EndBuild(_) => HoldersAfterWorker(s, step, p);
    case RegisterFiles => HoldersAfterWorker(s, step, p);
    case Release => HoldersAfterWorker(s, step, p);
    case TaskDone => HoldersAfterWorker(s, step, p);
    case UploadStart(_) => HoldersAfterUpload(s, step, p);
    case UploadFinish(_) => HoldersAfterUpload(s, step, p);
    case _ => HoldersAfterDbRequest(s, step, p);
  }

  /** The busy status is a lock exactly as long as nobody resets a busy
      project and nobody finishes an upload of a busy project without having
      started one: every other step of every thread keeps it. */
  lemma LockIsKept(s: System, step: Step)
    requires LockInv(s)
    ensures LockInv(Next(s, step)) <==> Disciplined(s, step)
  {
    if Disciplined(s, step) {
      forall p ensures LockedRight(Next(s, step), p) {
        HoldersOfNext(s, step, p);
      }
    } else {
      var p := step.p;
      assert LockedRight(s, p) && !LockedRight(Next(s, step), p);
    }
  }

  predicate IsFree(s: System, p: Project) {
    p in s.db && s.db[p] != Busy
  }

  /** A build request or an upload gets the project exactly if it is registered and
      not busy, whatever its status is otherwise; for a build the pre-check says the
      same at its own moment. */
  lemma RequestsAreAccepted(s: System, job: Job, i: nat, p: Project)
    ensures Next(s, Check(job)).checked == s.checked + [job] <==> IsFree(s, job.project)
    ensures i < |s.checked| ==>
      (Next(s, Lock(i)).locked == s.locked + [s.checked[i]] <==> IsFree(s, s.checked[i].project))
    ensures Next(s, UploadStart(p)).uploads == s.uploads + multiset{p} <==> IsFree(s, p)
  {
    assert |s.locked + [job]| != |s.locked| && |s.checked + [job]| != |s.checked|;
    assert (s.uploads + multiset{p})[p] == s.uploads[p] + 1;
    if i < |s.checked| {
      assert |s.locked + [s.checked[i]]| != |s.locked|;
      AnyStatusIsStartable(s.db, s.checked[i].project);
    }
    AnyStatusIsStartable(s.db, p);
  }

  lemma AnyStatusIsStartable(db: Db, p: Project)
    ensures SetBusyTx(db, p, STARTABLE).1.Ok? <==> p in db && db[p] != Busy
  {
  }

  /** A finished upload leaves its project with changes, and no upload of it. */
  lemma UploadLeavesChanges(s: System, p: Project)
    requires LockInv(s) && p in s.uploads
    ensures var t := Next(s, UploadFinish(p));
            p in t.db && t.db[p] == HasChanges && p !in t.uploads
  {
    HolderIsBusy(s, p);
    assert s.uploads[p] == 1;
  }

  // ------------------------------------------------- the worker and its jobs

  function MaxOf(levels: seq<nat>): nat {
    if levels == [] then 0
    else
      var m := MaxOf(levels[..|levels| - 1]);
      if levels[|levels| - 1] > m then levels[|levels| - 1] else m
  }

  lemma {:induction false} MaxOfReaches(levels: seq<nat>, bound: nat)
    requires bound > 0
    ensures MaxOf(levels) >= bound <==> exists l | l in levels :: l >= bound
  {
    if levels != [] {
      var init, last := levels[..|levels| - 1], levels[|levels| - 1];
      MaxOfReaches(init, bound);
      assert levels == init + [last];
      assert last in levels && forall l | l in init :: l in levels;
    }
  }

  /** The result that a build deserves by what was raised and logged while it
      was executed. */
  ghost predicate Succeeds(kind: JobKind, raised: bool, records: seq<nat>) {
    match kind
    case UpdatePbuilder => true
    case CreatePbuilder => !raised
    case _ => !raised && !exists l | l in records :: l >= ERROR
  }

  ghost function Deserved(kind: JobKind, raised: bool, records: seq<nat>): FinalStatus {
    if Succeeds(kind, raised, records) then BuildDone else BuildFailed
  }

  ghost predicate WorkerInv(s: System) {
    match s.worker
    case Executing(job, Building, records, _) => Level(s.maxLevel, job.project) == MaxOf(records)
    case Executing(job, Decided(v), records, raised) => v == Deserved(job.kind, raised, records)
    case Executing(job, Registered(v), records, raised) => v == Deserved(job.kind, raised, records)
    case Dead => false
    case _ => true
  }

  ghost predicate Inv(s: System) {
    && LockInv(s)
    && WorkerInv(s)
    && LevelsRight(s)
    && QueueRight(s)
  }

  const INIT: System := System(map[], [], [], [], Idle, multiset{}, map[], 0, [], [])

  ghost predicate QueueRight(s: System) {
    && s.enqueued == s.started + QueuedJobs(s.queue)
    && s.unfinished == |s.queue| + if s.worker.Executing? then 1 else 0
  }

  lemma QueueAfterPut(s: System, i: nat)
    requires QueueRight(s)
    ensures QueueRight(Next(s, Put(i))) && QueueRight(Next(s, PutStop))
  {
    hide QueuedJobs;
    QueuedAppend(s.queue, [Stop]);
    QueuedOne(Stop);
    if i < |s.locked| {
      var job := s.locked[i];
      QueuedAppend(s.queue, [Item.Run(job)]);
      QueuedOne(Item.Run(job));
      assert s.enqueued + [job] == s.started + (QueuedJobs(s.queue) + [job]);
    }
    assert QueuedJobs(s.queue) + [] == QueuedJobs(s.queue);
  }

  lemma QueueAfterGet(s: System)
    requires QueueRight(s)
    ensures QueueRight(Next(s, Get))
  {
    if s.worker == Idle && s.queue != [] {
      var jobs := match s.queue[0] case Stop => [] case Run(job) => [job];
      assert QueuedJobs(s.queue) == jobs + QueuedJobs(s.queue[1..]);
    }
  }

  lemma QueueOfNext(s: System, step: Step)
    requires Inv(s)
    ensures QueueRight(Next(s, step))
  {
    match step
    case Put(i) => QueueAfterPut(s, i);
    case PutStop => QueueAfterPut(s, 0);
    case Get => QueueAfterGet(s);
    case _ =>
      hide QueuedJobs, CountJobs;
      if s.worker.Executing? && s.worker.phase != Released {
        HolderIsBusy(s, s.worker.job.project);
      }
  }

  /** A project with an outstanding holder is registered and busy. */
  lemma HolderIsBusy(s: System, p: Project)
    requires LockInv(s) && Holders(s, p) >= 1
    ensures IsBusy(s.db, p) && Holders(s, p) == 1
  {
    assert LockedRight(s, p);
  }

  /** A queued job is the only holder of its project. */
  lemma QueuedJobIsAlone(s: System, job: Job, p: Project)
    requires LockInv(s) && job in QueuedJobs(s.queue)
    requires WorkerHolds(s.worker, p) == 1 || CountJobs(s.locked, p) >= 1
    ensures p != job.project
  {
    CountMember(QueuedJobs(s.queue), job);
    assert LockedRight(s, job.project);
  }

  /** No log level is noted for a queued job's project. */
  ghost predicate LevelsRight(s: System) {
    forall job | job in QueuedJobs(s.queue) :: Level(s.maxLevel, job.project) == 0
  }

  lemma LevelsAfterPut(s: System, step: Step)
    requires LevelsRight(s) && (step.Put? || step == PutStop)
    ensures LevelsRight(Next(s, step))
  {
    hide CountJobs;
    match step
    case Put(i) =>
      if i < |s.locked| {
        QueuedAppend(s.queue, [Item.Run(s.locked[i])]);
      }
    case PutStop =>
      QueuedAppend(s.queue, [Stop]);
  }

  lemma LevelsAfterGet(s: System)
    requires LevelsRight(s)
    ensures LevelsRight(Next(s, Get))
  {
    hide CountJobs;
  }

  lemma LevelsAfterLog(s: System, level: nat)
    requires LockInv(s) && LevelsRight(s)
    ensures LevelsRight(Next(s, Log(level)))
  {
    hide CountJobs, LockInv;
    if s.worker.Executing? && s.worker.phase != Released {
      forall job | job in QueuedJobs(s.queue) ensures job.project != s.worker.job.project {
        QueuedJobIsAlone(s, job, s.worker.job.project);
      }
    }
  }

  lemma LevelsOfNext(s: System, step: Step)
    requires Inv(s)
    ensures LevelsRight(Next(s, step))
  {
    hide CountJobs, QueuedJobs;
    match step
    case Put(_) => LevelsAfterPut(s, step);
    case PutStop => LevelsAfterPut(s, step);
    case Get => LevelsAfterGet(s);
    case Log(level) => LevelsAfterLog(s, level);
    case _ =>
  }

  lemma WorkerAfterPut(s: System, i: nat)
    requires Inv(s)
    ensures WorkerInv(Next(s, Put(i)))
  {
    hide QueuedJobs, CountJobs, Succeeds;
    if i < |s.locked| && s.worker.Executing? && s.worker.phase == Building {
      CountRemoveAt(s.locked, i, s.locked[i].project);
      assert LockedRight(s, s.locked[i].project);
    }
  }

  lemma MaxOfSnoc(levels: seq<nat>, level: nat)
    ensures MaxOf(levels + [level]) == if level > MaxOf(levels) then level else MaxOf(levels)
  {
    assert (levels + [level])[..|levels|] == levels;
  }

  lemma WorkerAfterLog(s: System, level: nat)
    requires WorkerInv(s)
    ensures WorkerInv(Next(s, Log(level)))
  {
    hide MaxOf, Succeeds;
    if s.worker.Executing? && s.worker.phase == Building {
      MaxOfSnoc(s.worker.records, level);
    }
  }

  lemma WorkerAfterBuilding(s: System, raised: bool)
    requires WorkerInv(s)
    ensures WorkerInv(Next(s, EndBuild(raised)))
  {
    hide MaxOf;
    if s.worker.Executing? && s.worker.phase == Building {
      MaxOfReaches(s.worker.records, ERROR);
    }
  }

  lemma WorkerOfNext(s: System, step: Step)
    requires Inv(s)
    ensures WorkerInv(Next(s, step))
  {
    hide QueuedJobs, CountJobs, Succeeds, MaxOf;
    match step
    case Put(i) => WorkerAfterPut(s, i);
    case Log(level) => WorkerAfterLog(s, level);
    case EndBuild(raised) => WorkerAfterBuilding(s, raised);
    case Get => WorkerAfterGet(s);
    case RegisterFiles =>
      if s.worker.Executing? && s.worker.phase.Decided? {
        HolderIsBusy(s, s.worker.job.project);
      }
    case Release =>
      if s.worker.Executing? && s.worker.phase.Registered? {
        HolderIsBusy(s, s.worker.job.project);
      }
    case _ =>
  }

  lemma WorkerAfterGet(s: System)
    requires Inv(s)
    ensures WorkerInv(Next(s, Get))
  {
    if s.worker == Idle && s.queue != [] && s.queue[0].Run? {
      assert s.queue[0].job in QueuedJobs(s.queue);
    }
  }

  lemma InvIsKept(s: System, step: Step)
    requires Inv(s) && Disciplined(s, step)
    ensures Inv(Next(s, step))
  {
    LockIsKept(s, step);
    WorkerOfNext(s, step);
    LevelsOfNext(s, step);
    QueueOfNext(s, step);
  }

  // --------------------------------------------------------------- whole runs

  function Exec(s: System, steps: seq<Step>): System
    decreases steps
  {
    if steps == [] then s else Exec(Next(s, steps[0]), steps[1..])
  }

  ghost predicate AllDisciplined(s: System, steps: seq<Step>)
    decreases steps
  {
    steps != [] ==> Disciplined(s, steps[0]) && AllDisciplined(Next(s, steps[0]), steps[1..])
  }

  /** Every interleaving of the threads keeps the invariant: at most one
      holder per project, one exactly while it is busy; no error in `execute`
      kills the worker; jobs are started in the order of their put. */
  lemma {:induction false} RunsKeepInv(s: System, steps: seq<Step>)
    requires Inv(s) && AllDisciplined(s, steps)
    ensures Inv(Exec(s, steps))
    decreases steps
  {
    if steps != [] {
      InvIsKept(s, steps[0]);
      RunsKeepInv(Next(s, steps[0]), steps[1..]);
    }
  }

  /** And over a whole run, which may break the lock and repair it: it is kept
      all the time exactly if every step is disciplined. */
  lemma {:induction false} RunsKeepLock(s: System, steps: seq<Step>)
    requires LockInv(s)
    ensures (forall j: nat | j <= |steps| :: LockInv(Exec(s, steps[..j]))) <==> AllDisciplined(s, steps)
    decreases steps
  {
    hide LockInv, Next, Disciplined;
    assert steps[..0] == [];
    if steps != [] {
      var s', rest := Next(s, steps[0]), steps[1..];
      LockIsKept(s, steps[0]);
      assert steps[..1] == [steps[0]] && Exec(s, steps[..1]) == s' by { OneStep(s, steps[0]); }
      forall j: nat | j < |steps| ensures Exec(s, steps[..j + 1]) == Exec(s', rest[..j]) {
        assert steps[..j + 1][1..] == rest[..j];
      }
      if LockInv(s') {
        RunsKeepLock(s', rest);
        if AllDisciplined(s', rest) {
          forall j: nat | j <= |steps| ensures LockInv(Exec(s, steps[..j])) {
            if j > 0 {
              assert Exec(s, steps[..j - 1 + 1]) == Exec(s', rest[..j - 1]);
            }
          }
        } else {
          var j: nat :| j <= |rest| && !LockInv(Exec(s', rest[..j]));
          assert Exec(s, steps[..j + 1]) == Exec(s', rest[..j]);
        }
      }
    }
  }

  lemma OneStep(s: System, step: Step)
    ensures Exec(s, [step]) == Next(s, step)
  {
    hide Next;
  }

  lemma InitInv()
    ensures Inv(INIT)
  {
  }

  /** What `execute` writes is what the build deserves. */
  lemma ReleaseWritesDeservedStatus(s: System)
    requires Inv(s) && s.worker.Executing? && s.worker.phase.Registered?
    ensures var w, s' := s.worker, Next(s, Release);
            && s'.worker.Executing? && s'.worker.phase == Released && w.job.project in s'.db
            && s'.db[w.job.project] == Deserved(w.job.kind, w.raised, w.records)
  {
    hide QueuedJobs, CountJobs;
    HolderIsBusy(s, s.worker.job.project);
  }

  // ------------------------------------------------------- until the job is done

  /** The job is still to be queued, started or finished. */
  predicate Outstanding(s: System, job: Job) {
    || job in s.locked
    || job in QueuedJobs(s.queue)
    || (s.worker.Executing? && s.worker.phase != Released && s.worker.job == job)
  }

  predicate Releases(s: System, step: Step, p: Project) {
    step == Release && s.worker.Executing? && s.worker.phase.Registered? && s.worker.job.project == p
  }

  lemma {:induction false} CountMember(jobs: seq<Job>, job: Job)
    requires job in jobs
    ensures CountJobs(jobs, job.project) >= 1
  {
    if jobs[0] != job {
      CountMember(jobs[1..], job);
    }
  }

  /** An outstanding job is the only holder of its project. */
  lemma OutstandingHolds(s: System, job: Job)
    requires LockInv(s) && Outstanding(s, job)
    ensures IsBusy(s.db, job.project) && Holders(s, job.project) == 1
    ensures WorkerHolds(s.worker, job.project) == 1 ==> s.worker.job == job
  {
    hide QueuedJobs, CountJobs;
    if job in s.locked {
      CountMember(s.locked, job);
    } else if job in QueuedJobs(s.queue) {
      CountMember(QueuedJobs(s.queue), job);
    }
    HolderIsBusy(s, job.project);
  }

  lemma QueuedOne(item: Item)
    ensures QueuedJobs([item]) == if item.Run? then [item.job] else []
  {
    assert QueuedJobs([item][1..]) == [];
  }

  lemma RemovedOrKept<T>(xs: seq<T>, i: nat, x: T)
    requires i < |xs| && x in xs
    ensures x == xs[i] || x in RemoveAt(xs, i)
  {
    assert xs == xs[..i] + [xs[i]] + xs[i + 1..];
  }

  lemma OutstandingAfterPut(s: System, step: Step, job: Job)
    requires Outstanding(s, job) && (step.Put? || step == PutStop)
    ensures Outstanding(Next(s, step), job)
  {
    hide QueuedJobs, CountJobs, RemoveAt;
    match step
    case Put(i) =>
      if i < |s.locked| {
        QueuedAppend(s.queue, [Item.Run(s.locked[i])]);
        QueuedOne(Item.Run(s.locked[i]));
        if job in s.locked {
          RemovedOrKept(s.locked, i, job);
        }
      }
    case PutStop =>
      QueuedAppend(s.queue, [Stop]);
  }

  lemma OutstandingAfterGet(s: System, job: Job)
    requires Outstanding(s, job)
    ensures Outstanding(Next(s, Get), job)
  {
    hide CountJobs;
  }

  /** Only the job's own `reset_busy` ends it. */
  lemma OnlyReleaseEndsJob(s: System, step: Step, job: Job)
    requires Inv(s) && Disciplined(s, step) && Outstanding(s, job) && !Releases(s, step, job.project)
    ensures Outstanding(Next(s, step), job)
  {
    hide QueuedJobs, CountJobs;
    match step
    case Put(_) => OutstandingAfterPut(s, step, job);
    case PutStop => OutstandingAfterPut(s, step, job);
    case Get => OutstandingAfterGet(s, job);
    case RegisterFiles => OutstandingHolds(s, job);
    case _ =>
  }

  /** The project of an accepted job is not busy any more only behind the
      `reset_busy` of that very job: until then it is outstanding at every
      moment. */
  lemma {:induction false} FinishedOnlyAfterRelease(s: System, steps: seq<Step>, job: Job) returns (k: nat)
    requires Inv(s) && AllDisciplined(s, steps)
    requires Outstanding(s, job) && !IsBusy(Exec(s, steps).db, job.project)
    ensures k < |steps| && Releases(Exec(s, steps[..k]), steps[k], job.project)
    ensures Exec(s, steps[..k]).worker.job == job
    ensures forall j: nat | j <= k :: Outstanding(Exec(s, steps[..j]), job)
    decreases steps
  {
    hide Inv, Next, Outstanding, Disciplined;
    k := 0;
    assert steps[..0] == [];
    assert IsBusy(s.db, job.project) && (WorkerHolds(s.worker, job.project) == 1 ==> s.worker.job == job) by {
      InvHasLock(s);
      OutstandingHolds(s, job);
    }
    if !Releases(s, steps[0], job.project) {
      var s' := Next(s, steps[0]);
      OnlyReleaseEndsJob(s, steps[0], job);
      InvIsKept(s, steps[0]);
      k := FinishedOnlyAfterRelease(s', steps[1..], job);
      forall j: nat | j <= k ensures Exec(s, steps[..j + 1]) == Exec(s', steps[1..][..j]) {
        assert steps[..j + 1][1..] == steps[1..][..j];
      }
      k := k + 1;
      forall j: nat | j <= k ensures Outstanding(Exec(s, steps[..j]), job) {
        if j > 0 {
          assert Outstanding(Exec(s', steps[1..][..j - 1]), job);
        }
      }
    }
  }

  lemma InvHasLock(s: System)
    requires Inv(s)
    ensures LockInv(s)
  {
  }

  // ------------------------------------------------------ what a reset can do

  /** A build is running, and somebody resets the project. */
  function ResetSteps(job: Job, hasSource: bool): seq<Step> {
    [Create(job.project), Check(job), Lock(0), Put(0), Get]
    + [EndBuild(false), Reset(job.project, hasSource), RegisterFiles, Release]
  }

  lemma UpToBuilding(job: Job)
    ensures var s := Next(Next(Next(Next(Next(INIT, Create(job.project)), Check(job)), Lock(0)), Put(0)), Get);
            s.worker == Executing(job, Building, [], false) && s.db == map[job.project := Busy]
  {
  }

  lemma ResetWhileBuilding(s: System, hasSource: bool)
    requires s.worker.Executing? && s.worker.phase == Building && s.worker.job.project in s.db
    ensures var p := s.worker.job.project;
            Next(Next(Next(Next(s, EndBuild(false)), Reset(p, hasSource)), RegisterFiles), Release).worker == Dead
  {
  }

  lemma {:induction false} DeadForEver(s: System, steps: seq<Step>)
    requires s.worker == Dead
    ensures Exec(s, steps).worker == Dead && Exec(s, steps).started == s.started
    decreases steps
  {
    if steps != [] {
      DeadForEver(Next(s, steps[0]), steps[1..]);
    }
  }

  lemma {:induction false} ExecAppend(s: System, a: seq<Step>, b: seq<Step>)
    ensures Exec(s, a + b) == Exec(Exec(s, a), b)
    ensures AllDisciplined(s, a + b) <==> AllDisciplined(s, a) && AllDisciplined(Exec(s, a), b)
    decreases a
  {
    hide Next, Disciplined;
    if a == [] {
      assert a + b == b;
    } else {
      assert (a + b)[1..] == a[1..] + b;
      ExecAppend(Next(s, a[0]), a[1..], b);
    }
  }

  lemma TwoSteps(s: System, a: Step, b: Step)
    ensures Exec(s, [a, b]) == Next(Next(s, a), b)
  {
    hide Next;
    assert [a, b][1..] == [b];
    OneStep(Next(s, a), b);
  }

  lemma FourSteps(s: System, a: Step, b: Step, c: Step, d: Step)
    ensures Exec(s, [a, b, c, d]) == Next(Next(Next(Next(s, a), b), c), d)
  {
    hide Next;
    ExecAppend(s, [a, b], [c, d]);
    TwoSteps(s, a, b);
    TwoSteps(Next(Next(s, a), b), c, d);
    assert [a, b] + [c, d] == [a, b, c, d];
  }

  /** One `reset_project` during a build, whatever its kind, ends the only worker
      thread: the `reset_busy` of the build fails, and no job is ever started
      again. */
  lemma ResetEndsWorker(job: Job, hasSource: bool, more: seq<Step>)
    ensures var s := Exec(INIT, ResetSteps(job, hasSource));
            s.worker == Dead && Exec(s, more).worker == Dead && Exec(s, more).started == s.started
  {
    UpToBuilding(job);
    hide Next, INIT;
    var s4 := Next(Next(Next(Next(INIT, Create(job.project)), Check(job)), Lock(0)), Put(0));
    var s5 := Next(s4, Get);
    ResetWhileBuilding(s5, hasSource);
    var first, second := [Create(job.project), Check(job), Lock(0), Put(0)], [Get];
    FourSteps(INIT, Create(job.project), Check(job), Lock(0), Put(0));
    OneStep(s4, Get);
    ExecAppend(INIT, first, second);
    FourSteps(s5, EndBuild(false), Reset(job.project, hasSource), RegisterFiles, Release);
    var third := [EndBuild(false), Reset(job.project, hasSource), RegisterFiles, Release];
    ExecAppend(INIT, first + second, third);
    assert ResetSteps(job, hasSource) == first + second + third;
    DeadForEver(Exec(INIT, ResetSteps(job, hasSource)), more);
  }
}
