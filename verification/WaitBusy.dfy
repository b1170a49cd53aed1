/** A client that waits for the end of its build: the messages of the project,
    the two reads behind every poll, and the loop of `wait_busy`. */
module WaitBusy {
  import opened Base85
  import opened BusyLock
  import opened Bytes
  import opened ElbeDb
  import opened Lists

  /** A log message, as its bytes. */
  type Msg = seq<Byte>

  type Encoding = seq<Digit>

  /** `ELBE-FINISH`, whose 11 characters belong to the base85 alphabet. */
  const FINISH: Encoding := [14, 21, 11, 14, 71, 15, 18, 23, 18, 28, 17]

  const MAXLEN := 1024

  // ------------------------------------------------------------- the client's loop

  datatype Reply = SocketError | Fault | Answer(text: Encoding)

  datatype Progress = Polling | Left | Raised

  datatype Client = Client(tries: nat, yielded: seq<Msg>, state: Progress)

  const START := Client(0, [], Polling)

  /** What the loop does with the reply of one poll. Every poll counts as a try. */
  function Consume(c: Client, reply: Reply, retries: nat): Client {
    if c.state != Polling then c
    else
      var d := c.(tries := c.tries + 1);
      match reply
      case SocketError => if d.tries > retries then d.(state := Raised) else d
      case Fault => d.(state := Raised)
      case Answer(text) =>
        if text == [] then d
        else if text == FINISH then d.(state := Left)
        else
          match Decode(text)
          case None => d.(state := Raised)
          case Some(msg) => d.(yielded := c.yielded + [msg])
  }

  function ConsumeAll(replies: seq<Reply>, retries: nat): Client {
    if replies == [] then START else Consume(ConsumeAll(Front(replies), retries), Last(replies), retries)
  }

  /** The poll at which the loop ends: the sentinel, a fault, a text that is no
      encoding, or a socket error that is not among the first `retries` polls. */
  predicate Ends(replies: seq<Reply>, i: nat, retries: nat)
    requires i < |replies|
  {
    match replies[i]
    case SocketError => i >= retries
    case Fault => true
    case Answer(text) => text == FINISH || (text != [] && Decode(text) == None)
  }

  /** The non-empty texts of the replies, decoded, in order. */
  function Texts(replies: seq<Reply>): seq<Msg> {
    if replies == [] then []
    else
      var last := Last(replies);
      Texts(Front(replies))
      + if last.Answer? && last.text != [] && Decode(last.text).Some? then [Decode(last.text).value] else []
  }

  method WaitBusy(replies: seq<Reply>, retries: nat) returns (c: Client, polls: nat)
    ensures polls <= |replies| && forall i: nat | i < polls :: !Ends(replies, i, retries)
    ensures c.state == Polling <==> polls == |replies|
    ensures c.state != Polling ==>
              Ends(replies, polls, retries) && (c.state == Left <==> replies[polls] == Answer(FINISH))
    ensures c.yielded == Texts(replies[..polls])
    ensures c == ConsumeAll(replies, retries)
  {
    hide Decode, ConsumeAll, Texts;
    var currentRetries := 0;
    var messages := [];
    polls := 0;
    NoReplies(replies, retries);
    while polls < |replies|
      invariant polls <= |replies| && currentRetries == polls
      invariant forall i: nat | i < polls :: !Ends(replies, i, retries)
      invariant messages == Texts(replies[..polls])
      invariant ConsumeAll(replies[..polls], retries) == Client(currentRetries, messages, Polling)
    {
      currentRetries := currentRetries + 1;
      NextReply(replies, polls, retries);
      AfterTheEnd(replies, polls + 1, retries);
      match replies[polls] {
        case SocketError =>
          if currentRetries > retries {
            return Client(currentRetries, messages, Raised), polls;
          }
        case Fault =>
          return Client(currentRetries, messages, Raised), polls;
        case Answer(text) =>
          if text == FINISH {
            return Client(currentRetries, messages, Left), polls;
          }
          if text != [] {
            var decoded := Decode(text);
            if decoded == None {
              return Client(currentRetries, messages, Raised), polls;
            }
            messages := messages + [decoded.value];
          }
      }
      polls := polls + 1;
    }
    assert replies[..|replies|] == replies;
    c := Client(currentRetries, messages, Polling);
  }

  lemma NoReplies(replies: seq<Reply>, retries: nat)
    ensures ConsumeAll(replies[..0], retries) == START && Texts(replies[..0]) == []
  {
  }

  lemma NextReply(replies: seq<Reply>, n: nat, retries: nat)
    requires n < |replies|
    ensures ConsumeAll(replies[..n + 1], retries)
            == Consume(ConsumeAll(replies[..n], retries), replies[n], retries)
    ensures var r := replies[n];
            Texts(replies[..n + 1])
            == Texts(replies[..n])
               + if r.Answer? && r.text != [] && Decode(r.text).Some? then [Decode(r.text).value] else []
  {
    hide Decode, Consume;
    assert Front(replies[..n + 1]) == replies[..n] && Last(replies[..n + 1]) == replies[n];
  }

  /** No reply matters after the loop has ended. */
  lemma {:induction false} AfterTheEnd(replies: seq<Reply>, n: nat, retries: nat)
    requires n <= |replies|
    ensures ConsumeAll(replies[..n], retries).state != Polling
            ==> ConsumeAll(replies, retries) == ConsumeAll(replies[..n], retries)
  {
    hide Decode;
    if n < |replies| {
      assert Front(replies)[..n] == replies[..n];
      AfterTheEnd(Front(replies), n, retries);
    } else {
      assert replies[..n] == replies;
    }
  }

  // --------------------------------------------------------- one project's messages

  datatype Taker = Overflow | Other | Mine

  /** What the client's current poll has read from the queue. */
  datatype Asked = NotAsked | Nothing | Popped(msg: Msg)

  /** The system with the message queue of one project and one of its clients. */
  datatype World = World(
    sys: System,
    queue: seq<Msg>,
    client: Client,
    asked: Asked,
    replies: seq<Reply>,             // history: to the client
    logged: seq<Msg>,                // history: all messages of the project
    taken: seq<(Msg, Taker)>,        // history: what left the queue, in order
    answered: seq<(Msg, bool)>)      // history: the client's messages, and whether they arrived

  datatype Event =
    | Act(step: Step, msg: Msg)      // any step of the system; `Log` also queues the message
    | OtherPop                       // another poll of the same project
    | Ask                            // the client's poll: `popleft`
    | Respond                        // the same poll: read the status, answer
    | Break                          // or the connection fails

  function Append(w: World, msg: Msg): World {
    if |w.queue| < MAXLEN then w.(queue := w.queue + [msg], logged := w.logged + [msg])
    else w.(queue := w.queue[1..] + [msg],
            logged := w.logged + [msg],
            taken := w.taken + [(w.queue[0], Overflow)])
  }

  predicate Logs(s: System, step: Step, p: Project) {
    step.Log? && s.worker.Executing? && s.worker.phase != Released && s.worker.job.project == p
  }

  function Received(w: World, reply: Reply, arrived: bool, retries: nat): World {
    w.(asked := NotAsked,
       client := Consume(w.client, reply, retries),
       replies := w.replies + [reply],
       answered := if w.asked.Popped? then w.answered + [(w.asked.msg, arrived)] else w.answered)
  }

  /** `get_project_busy` after its read of the queue. */
  function AnswerOf(w: World, p: Project): Reply {
    var msg := if w.asked.Popped? then w.asked.msg else [];
    if p !in w.sys.db then Fault
    else if msg == [] && !IsBusy(w.sys.db, p) then Answer(FINISH)
    else Answer(Encode(msg))
  }

  function After(w: World, e: Event, p: Project, retries: nat): World {
    match e
    case Act(step, msg) =>
      var next := w.(sys := Next(w.sys, step));
      if Logs(w.sys, step, p) then Append(next, msg) else next
    case OtherPop =>
      if w.queue == [] then w
      else w.(queue := w.queue[1..], taken := w.taken + [(w.queue[0], Other)])
    case Ask =>
      if w.client.state != Polling || w.asked != NotAsked then w
      else if w.queue == [] then w.(asked := Nothing)
      else w.(asked := Popped(w.queue[0]), queue := w.queue[1..], taken := w.taken + [(w.queue[0], Mine)])
    case Respond =>
      if w.asked == NotAsked then w
      else var reply := AnswerOf(w, p); Received(w, reply, reply != Fault, retries)
    case Break =>
      if w.client.state != Polling then w else Received(w, SocketError, false, retries)
  }

  function Events(w: World, es: seq<Event>, p: Project, retries: nat): World
    decreases es
  {
    if es == [] then w else Events(After(w, es[0], p, retries), es[1..], p, retries)
  }

  ghost predicate Fair(w: World, e: Event) {
    e.Act? ==> Disciplined(w.sys, e.step)
  }

  ghost predicate AllFair(w: World, es: seq<Event>, p: Project, retries: nat)
    decreases es
  {
    es != [] ==> Fair(w, es[0]) && AllFair(After(w, es[0], p, retries), es[1..], p, retries)
  }

  // ------------------------------------------------- what happens to the messages

  function Messages<T>(pairs: seq<(Msg, T)>): seq<Msg> {
    if pairs == [] then [] else Messages(Front(pairs)) + [Last(pairs).0]
  }

  /** The messages that were taken by the client. */
  function MineOf(taken: seq<(Msg, Taker)>): seq<Msg> {
    if taken == [] then []
    else MineOf(Front(taken)) + if Last(taken).1 == Mine then [Last(taken).0] else []
  }

  /** The non-empty messages that arrived. */
  function Arrived(answered: seq<(Msg, bool)>): seq<Msg> {
    if answered == [] then []
    else Arrived(Front(answered)) + if Last(answered).1 && Last(answered).0 != [] then [Last(answered).0] else []
  }

  /** Every message ever logged is taken or still queued, in the order of its
      logging; the client has read the ones that are its own, in this order, and
      yielded exactly those that are not empty and were not lost on the way. */
  ghost predicate Accounted(w: World, retries: nat) {
    && |w.queue| <= MAXLEN
    && w.logged == Messages(w.taken) + w.queue
    && MineOf(w.taken) == Messages(w.answered) + (if w.asked.Popped? then [w.asked.msg] else [])
    && w.client.yielded == Arrived(w.answered)
    && w.client == ConsumeAll(w.replies, retries)
    && (w.asked != NotAsked ==> w.client.state == Polling)
  }

  lemma TookOne(taken: seq<(Msg, Taker)>, msg: Msg, taker: Taker)
    ensures Messages(taken + [(msg, taker)]) == Messages(taken) + [msg]
    ensures MineOf(taken + [(msg, taker)]) == MineOf(taken) + if taker == Mine then [msg] else []
  {
    assert Front(taken + [(msg, taker)]) == taken;
  }

  lemma AnsweredOne(answered: seq<(Msg, bool)>, msg: Msg, arrived: bool)
    ensures Messages(answered + [(msg, arrived)]) == Messages(answered) + [msg]
    ensures Arrived(answered + [(msg, arrived)]) == Arrived(answered) + if arrived && msg != [] then [msg] else []
  {
    assert Front(answered + [(msg, arrived)]) == answered;
  }

  /** The client takes an answer for what it is: only the sentinel ends the
      loop, as no encoding has its length, and an encoding gives the message. */
  lemma AnswerIsUnderstood(c: Client, w: World, p: Project, retries: nat)
    requires c.state == Polling
    ensures var msg := if w.asked.Popped? then w.asked.msg else [];
            var d := Consume(c, AnswerOf(w, p), retries);
            && (d.state == Left <==> msg == [] && p in w.sys.db && !IsBusy(w.sys.db, p))
            && d.yielded == c.yielded + if p in w.sys.db && msg != [] then [msg] else []
  {
    hide Encode, Decode;
    var msg := if w.asked.Popped? then w.asked.msg else [];
    NeverElevenLong(msg);
    DecodeEncode(msg);
    assert |FINISH| == 11;
  }

  lemma AccountingIsKept(w: World, e: Event, p: Project, retries: nat)
    requires Accounted(w, retries)
    ensures Accounted(After(w, e, p, retries), retries)
  {
    hide Next, Encode, Decode, IsBusy, Consume, Messages, MineOf, Arrived;
    match e
    case Act(step, msg) =>
      if Logs(w.sys, step, p) {
        AppendIsAccounted(w.(sys := Next(w.sys, step)), msg, retries);
      }
    case OtherPop =>
      if w.queue != [] {
        TookOne(w.taken, w.queue[0], Other);
      }
    case Ask =>
      if w.queue != [] {
        TookOne(w.taken, w.queue[0], Mine);
      }
    case Respond =>
      if w.asked != NotAsked {
        AnswerIsUnderstood(w.client, w, p, retries);
        var reply := AnswerOf(w, p);
        ReceivedIsAccounted(w, reply, reply != Fault, retries);
      }
    case Break =>
      if w.client.state == Polling {
        BreakYieldsNothing(w.client, retries);
        ReceivedIsAccounted(w, SocketError, false, retries);
      }
  }

  lemma AppendIsAccounted(w: World, msg: Msg, retries: nat)
    requires Accounted(w, retries)
    ensures Accounted(Append(w, msg), retries)
  {
    hide Messages, MineOf, Arrived, ConsumeAll;
    if |w.queue| >= MAXLEN {
      TookOne(w.taken, w.queue[0], Overflow);
    }
  }

  lemma BreakYieldsNothing(c: Client, retries: nat)
    ensures Consume(c, SocketError, retries).yielded == c.yielded
  {
  }

  lemma ReceivedIsAccounted(w: World, reply: Reply, arrived: bool, retries: nat)
    requires Accounted(w, retries) && w.client.state == Polling
    requires Consume(w.client, reply, retries).yielded
             == w.client.yielded + if arrived && w.asked.Popped? && w.asked.msg != [] then [w.asked.msg] else []
    ensures Accounted(Received(w, reply, arrived, retries), retries)
  {
    hide Consume, ConsumeAll, Messages, MineOf, Arrived;
    var r := Received(w, reply, arrived, retries);
    ConsumedOne(w.replies, reply, retries);
    if w.asked.Popped? {
      AnsweredOne(w.answered, w.asked.msg, arrived);
      assert MineOf(w.taken) == Messages(r.answered) + [];
    }
    assert r.client.yielded == Arrived(r.answered);
  }

  lemma ConsumedOne(replies: seq<Reply>, reply: Reply, retries: nat)
    ensures ConsumeAll(replies + [reply], retries) == Consume(ConsumeAll(replies, retries), reply, retries)
  {
    assert Front(replies + [reply]) == replies;
  }

  /** Over every run, whoever else logs, polls or breaks connections. */
  lemma {:induction false} MessagesAreAccounted(w: World, es: seq<Event>, p: Project, retries: nat)
    requires Accounted(w, retries)
    ensures Accounted(Events(w, es, p, retries), retries)
    decreases es
  {
    hide After, Accounted;
    if es != [] {
      AccountingIsKept(w, es[0], p, retries);
      MessagesAreAccounted(After(w, es[0], p, retries), es[1..], p, retries);
    }
  }

  // ----------------------------------------------------------- when the loop ends

  lemma EventsPrefix(w: World, es: seq<Event>, n: nat, p: Project, retries: nat)
    requires es != [] && n <= |es| - 1
    ensures forall i: nat | i <= n ::
              Events(w, es[..i + 1], p, retries) == Events(After(w, es[0], p, retries), es[1..][..i], p, retries)
    ensures Events(w, es[..0], p, retries) == w
  {
    hide After;
    forall i: nat | i <= n
      ensures Events(w, es[..i + 1], p, retries) == Events(After(w, es[0], p, retries), es[1..][..i], p, retries)
    {
      assert es[..i + 1][1..] == es[1..][..i];
    }
  }

  lemma AfterEnd(w: World, e: Event, p: Project, retries: nat)
    requires w.client.state != Polling && w.asked == NotAsked
    ensures After(w, e, p, retries).client.state == w.client.state && After(w, e, p, retries).asked == NotAsked
  {
    hide Next, AnswerOf;
  }

  lemma {:induction false} EndedStaysEnded(w: World, es: seq<Event>, p: Project, retries: nat)
    requires w.client.state != Polling && w.asked == NotAsked
    ensures Events(w, es, p, retries).client.state == w.client.state
    decreases es
  {
    hide After;
    if es != [] {
      AfterEnd(w, es[0], p, retries);
      EndedStaysEnded(After(w, es[0], p, retries), es[1..], p, retries);
    }
  }

  /** The client's state only changes when a poll ends, and to `Left` only when
      the status read by this very poll was not busy. */
  lemma ClientAfter(w: World, e: Event, p: Project, retries: nat)
    requires w.client.state == Polling
    ensures var v := After(w, e, p, retries);
            && (v.client.state != Polling ==> v.asked == NotAsked && (e == Respond || e == Break))
            && (v.client.state == Left <==>
                  e == Respond && w.asked != NotAsked && (w.asked.Popped? ==> w.asked.msg == [])
                  && p in w.sys.db && !IsBusy(w.sys.db, p))
  {
    hide Next, AnswerOf, IsBusy;
    AnswerIsUnderstood(w.client, w, p, retries);
  }

  lemma SystemAfter(w: World, e: Event, p: Project, retries: nat)
    ensures After(w, e, p, retries).sys == if e.Act? then Next(w.sys, e.step) else w.sys
    ensures e.Act? ==> After(w, e, p, retries).client == w.client
  {
    hide Next;
  }

  /** Where the loop ends. */
  lemma {:induction false} LeavesAtSomePoll(w: World, es: seq<Event>, p: Project, retries: nat) returns (j: nat)
    requires w.client.state == Polling && Events(w, es, p, retries).client.state == Left
    ensures j < |es| && es[j] == Respond
    ensures Events(w, es[..j], p, retries).client.state == Polling
    ensures Events(w, es[..j + 1], p, retries).client.state == Left
    decreases es
  {
    hide After;
    j := 0;
    var v := After(w, es[0], p, retries);
    ClientAfter(w, es[0], p, retries);
    EventsPrefix(w, es, |es| - 1, p, retries);
    if v.client.state == Polling {
      j := LeavesAtSomePoll(v, es[1..], p, retries);
      j := j + 1;
    } else {
      EndedStaysEnded(v, es[1..], p, retries);
      assert es[1..][..0] == [];
    }
  }

  lemma JobAfter(w: World, e: Event, p: Project, retries: nat, job: Job)
    requires Inv(w.sys) && Fair(w, e) && Outstanding(w.sys, job) && job.project == p
    ensures Inv(After(w, e, p, retries).sys) && IsBusy(w.sys.db, p)
    ensures if e.Act? && Releases(w.sys, e.step, p) then w.sys.worker.job == job
            else Outstanding(After(w, e, p, retries).sys, job)
  {
    hide Next, Inv, Outstanding, After;
    SystemAfter(w, e, p, retries);
    InvHasLock(w.sys);
    OutstandingHolds(w.sys, job);
    if e.Act? {
      InvIsKept(w.sys, e.step);
      if !Releases(w.sys, e.step, p) {
        OnlyReleaseEndsJob(w.sys, e.step, job);
      }
    }
  }

  /** A client whose build request was accepted leaves its loop only at a poll
      that answers behind the `reset_busy` of that very job, whatever all other
      threads and clients do. */
  lemma {:induction false} LeavesOnlyBehindRelease(w: World, es: seq<Event>, p: Project, retries: nat, job: Job)
    returns (k: nat, j: nat)
    requires Inv(w.sys) && AllFair(w, es, p, retries)
    requires Outstanding(w.sys, job) && job.project == p
    requires w.client.state == Polling && Events(w, es, p, retries).client.state == Left
    ensures k < j < |es|
    ensures var at := Events(w, es[..k], p, retries).sys;
            es[k].Act? && Releases(at, es[k].step, p) && at.worker.job == job
    ensures forall i: nat | i <= k :: Outstanding(Events(w, es[..i], p, retries).sys, job)
    ensures es[j] == Respond
    ensures Events(w, es[..j], p, retries).client.state == Polling
    ensures Events(w, es[..j + 1], p, retries).client.state == Left
    decreases es
  {
    hide After, Inv, Outstanding, Fair, Releases;
    k, j := 0, 0;
    var v := After(w, es[0], p, retries);
    JobAfter(w, es[0], p, retries, job);
    ClientAfter(w, es[0], p, retries);
    SystemAfter(w, es[0], p, retries);
    EventsPrefix(w, es, |es| - 1, p, retries);
    if v.client.state != Polling {
      EndedStaysEnded(v, es[1..], p, retries);
    } else if es[0].Act? && Releases(w.sys, es[0].step, p) {
      j := LeavesAtSomePoll(v, es[1..], p, retries);
      j := j + 1;
    } else {
      k, j := LeavesOnlyBehindRelease(v, es[1..], p, retries, job);
      forall i: nat | i <= k + 1 ensures Outstanding(Events(w, es[..i], p, retries).sys, job) {
        if i > 0 {
          assert Outstanding(Events(v, es[1..][..i - 1], p, retries).sys, job);
        }
      }
      k, j := k + 1, j + 1;
    }
  }

  /** The client's result over a whole run: the loop over the replies of its own
      polls, and exactly the messages it read that are not empty and were not
      lost with a connection, in the order of their logging. */
  method Wait(w: World, es: seq<Event>, p: Project, retries: nat) returns (c: Client)
    requires w.client == START && w.replies == [] && w.answered == [] && w.asked == NotAsked
    requires w.taken == [] && w.logged == w.queue && |w.queue| <= MAXLEN
    ensures var e := Events(w, es, p, retries);
            && c == e.client && c.yielded == Arrived(e.answered)
            && MineOf(e.taken) == Messages(e.answered) + (if e.asked.Popped? then [e.asked.msg] else [])
            && e.logged == Messages(e.taken) + e.queue
  {
    MessagesAreAccounted(w, es, p, retries);
    var polls;
    c, polls := WaitBusy(Events(w, es, p, retries).replies, retries);
  }

  lemma BuildEnds(s: System)
    requires Inv(s) && s.worker.Executing? && s.worker.phase == Building
    ensures var p, ended := s.worker.job.project, Next(Next(Next(s, EndBuild(false)), RegisterFiles), Release);
            p in ended.db && !IsBusy(ended.db, p)
  {
    InvHasLock(s);
    HolderIsBusy(s, s.worker.job.project);
    hide QueuedJobs, CountJobs, Inv, LockInv;
  }

  /** Not every message arrives: one that is logged between the two reads of a
      poll, with the build ending in between, stays in the queue. */
  lemma LastMessagesCanBeMissed(w: World, p: Project, retries: nat, msg: Msg)
    requires Inv(w.sys) && w.sys.worker.Executing? && w.sys.worker.phase == Building
    requires w.sys.worker.job.project == p
    requires w.client.state == Polling && w.asked == NotAsked && w.queue == []
    ensures var es := [Ask, Act(Log(20), msg), Act(EndBuild(false), []), Act(RegisterFiles, []), Act(Release, []),
                       Respond];
            var e := Events(w, es, p, retries);
            e.client.state == Left && e.client.yielded == w.client.yielded && e.queue == [msg]
  {
    var w1 := After(w, Ask, p, retries);
    var w2 := After(w1, Act(Log(20), msg), p, retries);
    assert Inv(w2.sys) && w2.queue == [msg] && w2.asked == Nothing && w2.client == w.client
           && w2.sys.worker.phase == Building && w2.sys.worker.job == w.sys.worker.job by {
      LogKeepsBuilding(w.sys, 20);
      hide Next, Inv;
    }
    BuildEnds(w2.sys);
    hide Inv;
    ThreeActs(w2, EndBuild(false), RegisterFiles, Release, p, retries);
    hide Next;
    hide Events;
    var w5 := After(After(After(w2, Act(EndBuild(false), []), p, retries), Act(RegisterFiles, []), p, retries),
                    Act(Release, []), p, retries);
    ClientAfter(w5, Respond, p, retries);
    AnswerIsUnderstood(w5.client, w5, p, retries);
    var e := After(w5, Respond, p, retries);
    assert e.queue == [msg] && e.client.state == Left && e.client.yielded == w.client.yielded + [];
    hide After;
    var last := [Respond];
    var release, files := [Act(Release, [])] + last, [Act(RegisterFiles, []), Act(Release, [])] + last;
    var build := [Act(EndBuild(false), [])] + files;
    FirstEvent(w5, Respond, [], p, retries);
    FirstEvent(After(After(w2, Act(EndBuild(false), []), p, retries), Act(RegisterFiles, []), p, retries),
               Act(Release, []), last, p, retries);
    FirstEvent(After(w2, Act(EndBuild(false), []), p, retries), Act(RegisterFiles, []), release, p, retries);
    FirstEvent(w2, Act(EndBuild(false), []), files, p, retries);
    FirstEvent(w1, Act(Log(20), msg), build, p, retries);
    FirstEvent(w, Ask, [Act(Log(20), msg)] + build, p, retries);
    assert [Respond] + [] == last && [Act(RegisterFiles, [])] + release == files;
    assert [Ask] + ([Act(Log(20), msg)] + build)
           == [Ask, Act(Log(20), msg), Act(EndBuild(false), []), Act(RegisterFiles, []), Act(Release, []), Respond];
  }

  lemma FirstEvent(w: World, e: Event, es: seq<Event>, p: Project, retries: nat)
    ensures Events(w, [e] + es, p, retries) == Events(After(w, e, p, retries), es, p, retries)
    ensures Events(w, [], p, retries) == w
  {
    assert ([e] + es)[1..] == es;
  }

  lemma LogKeepsBuilding(s: System, level: nat)
    requires Inv(s) && s.worker.Executing? && s.worker.phase == Building
    ensures var t := Next(s, Log(level));
            Inv(t) && t.worker.Executing? && t.worker.phase == Building && t.worker.job == s.worker.job
  {
    InvIsKept(s, Log(level));
  }

  lemma ThreeActs(w: World, a: Step, b: Step, c: Step, p: Project, retries: nat)
    requires !a.Log? && !b.Log? && !c.Log?
    ensures var v := After(After(After(w, Act(a, []), p, retries), Act(b, []), p, retries), Act(c, []), p, retries);
            v == w.(sys := Next(Next(Next(w.sys, a), b), c))
  {
    hide Next;
  }

  // ------------------------------------------------------ when nothing is missed

  /** The messages that are not empty. */
  function Full(msgs: seq<Msg>): seq<Msg> {
    if msgs == [] then []
    else Full(Front(msgs)) + if Last(msgs) == [] then [] else [Last(msgs)]
  }

  lemma FullOne(msgs: seq<Msg>, msg: Msg)
    ensures Full(msgs + [msg]) == Full(msgs) + if msg == [] then [] else [msg]
    ensures Full([]) == []
  {
    assert Front(msgs + [msg]) == msgs;
  }

  lemma {:induction false} FullAppend(a: seq<Msg>, b: seq<Msg>)
    ensures Full(a + b) == Full(a) + Full(b)
  {
    hide Full;
    if b == [] {
      FullOne([], []);
      assert a + b == a;
    } else {
      FullAppend(a, Front(b));
      FullOne(Front(b), Last(b));
      FullOne(a + Front(b), Last(b));
      assert b == Front(b) + [Last(b)] && a + b == a + Front(b) + [Last(b)];
    }
  }

  predicate NoneFull(msgs: seq<Msg>) {
    forall m :: m in msgs ==> m == []
  }

  lemma {:induction false} FullIsEmpty(msgs: seq<Msg>)
    ensures Full(msgs) == [] <==> NoneFull(msgs)
  {
    if msgs != [] {
      var before, last := Front(msgs), Last(msgs);
      assert msgs == before + [last] && last in msgs;
      FullIsEmpty(before);
      assert NoneFull(msgs) <==> NoneFull(before) && last == [] by {
        assert forall m :: m in msgs <==> m in before || m == last;
      }
    }
  }

  /** Nothing but the client took a message that is not empty. */
  predicate NoneTakenByOthers(taken: seq<(Msg, Taker)>) {
    forall t :: t in taken && t.1 != Mine ==> t.0 == []
  }

  predicate NoneLost(answered: seq<(Msg, bool)>) {
    forall a :: a in answered && !a.1 ==> a.0 == []
  }

  lemma {:induction false} FullOfTaken(taken: seq<(Msg, Taker)>)
    ensures |Full(MineOf(taken))| <= |Full(Messages(taken))|
    ensures |Full(MineOf(taken))| == |Full(Messages(taken))| <==> NoneTakenByOthers(taken)
    ensures NoneTakenByOthers(taken) ==> Full(MineOf(taken)) == Full(Messages(taken))
  {
    hide Full;
    FullOne([], []);
    if taken != [] {
      var before, last := Front(taken), Last(taken);
      assert taken == before + [last];
      FullOfTaken(before);
      FullOne(Messages(before), last.0);
      FullOne(MineOf(before), last.0);
      assert MineOf(taken) == if last.1 == Mine then MineOf(before) + [last.0] else MineOf(before);
      assert NoneTakenByOthers(taken) <==> NoneTakenByOthers(before) && (last.1 != Mine ==> last.0 == []) by {
        assert forall t :: t in taken <==> t in before || t == last;
      }
    }
  }

  lemma {:induction false} FullOfAnswered(answered: seq<(Msg, bool)>)
    ensures |Arrived(answered)| <= |Full(Messages(answered))|
    ensures |Arrived(answered)| == |Full(Messages(answered))| <==> NoneLost(answered)
    ensures NoneLost(answered) ==> Arrived(answered) == Full(Messages(answered))
  {
    hide Full;
    FullOne([], []);
    if answered != [] {
      var before, last := Front(answered), Last(answered);
      assert answered == before + [last];
      FullOfAnswered(before);
      FullOne(Messages(before), last.0);
      assert NoneLost(answered) <==> NoneLost(before) && (!last.1 ==> last.0 == []) by {
        assert forall a :: a in answered <==> a in before || a == last;
      }
    }
  }

  /** No message that is not empty is still queued or about to be answered, was
      pushed out of the queue, read by somebody else, or lost with a connection. */
  predicate NothingMissed(w: World) {
    && NoneFull(w.queue)
    && (w.asked.Popped? ==> w.asked.msg == [])
    && NoneTakenByOthers(w.taken) && NoneLost(w.answered)
  }

  /** The client has yielded everything that was logged exactly if nothing was
      missed. */
  lemma AllYieldedExactly(w: World, retries: nat)
    requires Accounted(w, retries)
    ensures w.client.yielded == Full(w.logged) <==> NothingMissed(w)
  {
    hide Full, Messages, MineOf, Arrived, ConsumeAll, NoneTakenByOthers, NoneLost, NoneFull;
    var asked := if w.asked.Popped? then [w.asked.msg] else [];
    FullAppend(Messages(w.taken), w.queue);
    FullAppend(Messages(w.answered), asked);
    FullOfTaken(w.taken);
    FullOfAnswered(w.answered);
    FullIsEmpty(w.queue);
    FullIsEmpty(asked);
    AskedIsEmpty(w);
    assert |Full(w.logged)| == |Full(Messages(w.taken))| + |Full(w.queue)|;
    assert |Full(MineOf(w.taken))| == |Full(Messages(w.answered))| + |Full(asked)|;
  }

  lemma AskedIsEmpty(w: World)
    ensures NoneFull(if w.asked.Popped? then [w.asked.msg] else []) <==> (w.asked.Popped? ==> w.asked.msg == [])
  {
    if w.asked.Popped? {
      assert w.asked.msg in [w.asked.msg];
    }
  }

  lemma NothingYet(w: World, retries: nat)
    requires w.client == START && w.replies == [] && w.answered == [] && w.asked == NotAsked
    requires w.taken == [] && w.logged == [] && w.queue == []
    ensures Accounted(w, retries)
  {
    assert Messages(w.taken) == [] && MineOf(w.taken) == [] && Messages(w.answered) == [] && Arrived(w.answered) == [];
    assert ConsumeAll(w.replies, retries) == START;
  }

  /** Over every run from a client's start, before which nothing was logged: when
      it has left its loop, it has the messages of its build completely and in
      order exactly if none was left in the queue, pushed out, read by another
      client or lost. */
  lemma DeliversExactly(w: World, es: seq<Event>, p: Project, retries: nat)
    requires w.client == START && w.replies == [] && w.answered == [] && w.asked == NotAsked
    requires w.taken == [] && w.logged == [] && w.queue == []
    requires Events(w, es, p, retries).client.state == Left
    ensures var e := Events(w, es, p, retries);
            && e.asked == NotAsked
            && (e.client.yielded == Full(e.logged)
                <==> NoneFull(e.queue) && NoneTakenByOthers(e.taken) && NoneLost(e.answered))
  {
    hide Events, Full, Accounted;
    NothingYet(w, retries);
    MessagesAreAccounted(w, es, p, retries);
    AllYieldedExactly(Events(w, es, p, retries), retries);
    AccountedWhenLeft(Events(w, es, p, retries), retries);
  }

  lemma AccountedWhenLeft(w: World, retries: nat)
    requires Accounted(w, retries)
    ensures w.client.state != Polling ==> w.asked == NotAsked
  {
    hide Messages, MineOf, Arrived, ConsumeAll;
  }

  // ------------------------------------------------------- when messages are pushed out

  /** A message is pushed out of the queue exactly if another one is logged for the
      project while 1024 are queued, and it is the oldest. */
  lemma PushedOutExactly(w: World, e: Event, p: Project, retries: nat)
    requires Accounted(w, retries)
    ensures var v := After(w, e, p, retries);
            if e.Act? && Logs(w.sys, e.step, p) && |w.queue| == 1024
            then v.taken == w.taken + [(w.queue[0], Overflow)] && |v.queue| == 1024
            else v.taken == w.taken || (exists t :: v.taken == w.taken + [t] && t.1 != Overflow)
  {
    hide Next, AnswerOf, Messages, MineOf, Arrived, ConsumeAll, Consume;
  }

  predicate NonePushedOut(taken: seq<(Msg, Taker)>) {
    forall t :: t in taken ==> t.1 != Overflow
  }

  lemma LoggedOnlyGrows(w: World, e: Event, p: Project, retries: nat)
    ensures |After(w, e, p, retries).logged| >= |w.logged|
    ensures e.Act? && Logs(w.sys, e.step, p) ==> |After(w, e, p, retries).logged| == |w.logged| + 1
  {
    hide Next, AnswerOf, Consume;
  }

  lemma {:induction false} LoggedNeverShrinks(w: World, es: seq<Event>, p: Project, retries: nat)
    ensures |Events(w, es, p, retries).logged| >= |w.logged|
    decreases es
  {
    hide After;
    if es != [] {
      LoggedOnlyGrows(w, es[0], p, retries);
      LoggedNeverShrinks(After(w, es[0], p, retries), es[1..], p, retries);
    }
  }

  /** A build with at most 1024 messages loses none of them to the queue's size. */
  lemma {:induction false} FewMessagesFit(w: World, es: seq<Event>, p: Project, retries: nat)
    requires Accounted(w, retries) && NonePushedOut(w.taken)
    requires |Events(w, es, p, retries).logged| <= 1024
    ensures NonePushedOut(Events(w, es, p, retries).taken)
    decreases es
  {
    hide After, Accounted, Logs;
    if es != [] {
      var v := After(w, es[0], p, retries);
      AccountingIsKept(w, es[0], p, retries);
      LoggedNeverShrinks(v, es[1..], p, retries);
      LoggedOnlyGrows(w, es[0], p, retries);
      PushedOutExactly(w, es[0], p, retries);
      QueueIsLogged(w, retries);
      TakenGrows(w.taken, v.taken);
      FewMessagesFit(v, es[1..], p, retries);
    }
  }

  lemma QueueIsLogged(w: World, retries: nat)
    requires Accounted(w, retries)
    ensures |w.queue| <= |w.logged|
  {
    hide Messages, MineOf, Arrived, ConsumeAll;
  }

  lemma TakenGrows(before: seq<(Msg, Taker)>, after: seq<(Msg, Taker)>)
    requires NonePushedOut(before)
    requires after == before || exists t :: after == before + [t] && t.1 != Overflow
    ensures NonePushedOut(after)
  {
  }
}
