/** The project status transactions of `ElbeDB`, each of them atomic. */
module ElbeDb {
  type Project = string

  datatype Status = EmptyProject | NeedsBuild | HasChanges | BuildDone | BuildFailed | Busy

  type Db = map<Project, Status>

  datatype Result<T> = Ok(value: T) | NotRegistered | AlreadyExists | InvalidStatus | InvalidXml

  function CreateTx(db: Db, p: Project): (Db, Result<()>) {
    if p in db then (db, AlreadyExists) else (db[p := EmptyProject], Ok(()))
  }

  /** `valid` says whether the XML file could be read and validated. */
  function SetXmlTx(db: Db, p: Project, valid: bool): (Db, Result<()>) {
    if p !in db then (db, NotRegistered)
    else if db[p] == Busy then (db, InvalidStatus)
    else if !valid then (db, InvalidXml)
    else
      (match db[p]
       case EmptyProject | BuildFailed => db[p := NeedsBuild]
       case BuildDone => db[p := HasChanges]
       case _ => db, Ok(()))
  }

  function DeleteTx(db: Db, p: Project): (Db, Result<()>) {
    if p !in db then (db, NotRegistered)
    else if db[p] == Busy then (db, InvalidStatus)
    else (db - {p}, Ok(()))
  }

  /** Does not look at the old status. */
  function ResetTx(db: Db, p: Project, hasSource: bool): (Db, Result<()>) {
    if p !in db then (db, NotRegistered)
    else (db[p := if hasSource then NeedsBuild else EmptyProject], Ok(()))
  }

  function SetBusyTx(db: Db, p: Project, allowed: set<Status>): (Db, Result<Status>) {
    if p !in db then (db, NotRegistered)
    else if db[p] !in allowed then (db, InvalidStatus)
    else (db[p := Busy], Ok(db[p]))
  }

  function ResetBusyTx(db: Db, p: Project, newStatus: Status): (Db, Result<()>) {
    if p !in db then (db, NotRegistered)
    else if db[p] != Busy then (db, InvalidStatus)
    else (db[p := newStatus], Ok(()))
  }

  class ElbeDB {
    var projects: Db

    constructor ()
      ensures projects == map[]
    {
      projects := map[];
    }

    method CreateProject(p: Project) returns (r: Result<()>)
      modifies this
      ensures (projects, r) == CreateTx(old(projects), p)
    {
      if p in projects {
        return AlreadyExists;
      }
      projects := projects[p := EmptyProject];
      return Ok(());
    }

    method SetXml(p: Project, valid: bool) returns (r: Result<()>)
      modifies this
      ensures (projects, r) == SetXmlTx(old(projects), p, valid)
    {
      if p !in projects {
        return NotRegistered;
      }
      if projects[p] == Busy {
        return InvalidStatus;
      }
      if !valid {
        return InvalidXml;
      }
      if projects[p] == EmptyProject || projects[p] == BuildFailed {
        projects := projects[p := NeedsBuild];
      } else if projects[p] == BuildDone {
        projects := projects[p := HasChanges];
      }
      return Ok(());
    }

    method DelProject(p: Project) returns (r: Result<()>)
      modifies this
      ensures (projects, r) == DeleteTx(old(projects), p)
    {
      if p !in projects {
        return NotRegistered;
      }
      if projects[p] == Busy {
        return InvalidStatus;
      }
      projects := projects - {p};
      return Ok(());
    }

    method ResetProject(p: Project, hasSource: bool) returns (r: Result<()>)
      modifies this
      ensures (projects, r) == ResetTx(old(projects), p, hasSource)
    {
      if p !in projects {
        return NotRegistered;
      }
      if hasSource {
        projects := projects[p := NeedsBuild];
      } else {
        projects := projects[p := EmptyProject];
      }
      return Ok(());
    }

    method SetBusy(p: Project, allowed: set<Status>) returns (r: Result<Status>)
      requires Busy !in allowed
      modifies this
      ensures (projects, r) == SetBusyTx(old(projects), p, allowed)
    {
      if p !in projects {
        return NotRegistered;
      }
      if projects[p] !in allowed {
        return InvalidStatus;
      }
      var oldStatus := projects[p];
      projects := projects[p := Busy];
      return Ok(oldStatus);
    }

    method ResetBusy(p: Project, newStatus: Status) returns (r: Result<()>)
      requires newStatus in {HasChanges, BuildDone, BuildFailed}
      modifies this
      ensures (projects, r) == ResetBusyTx(old(projects), p, newStatus)
    {
      if p !in projects {
        return NotRegistered;
      }
      if projects[p] != Busy {
        return InvalidStatus;
      }
      projects := projects[p := newStatus];
      return Ok(());
    }

    method Transact(tx: Tx) returns (ok: bool)
      modifies this
      ensures (projects, ok) == Apply(old(projects), tx)
    {
      match tx {
        case NewProject(p) =>
          var r := CreateProject(p);
          ok := r.Ok?;
        case NewXml(p, valid) =>
          var r := SetXml(p, valid);
          ok := r.Ok?;
        case Remove(p) =>
          var r := DelProject(p);
          ok := r.Ok?;
        case ResetStatus(p, hasSource) =>
          var r := ResetProject(p, hasSource);
          ok := r.Ok?;
        case TakeBusy(p, allowed) =>
          var r := SetBusy(p, allowed);
          ok := r.Ok?;
        case GiveBack(p, newStatus) =>
          var r := ResetBusy(p, newStatus);
          ok := r.Ok?;
      }
    }

    /** The transactions of all requests and jobs in the order in which they
        take place; `oks` says which of them were not refused. */
    method Serve(txs: seq<Tx>) returns (oks: seq<bool>)
      modifies this
      ensures |oks| == |txs| && projects == ApplyAll(old(projects), txs)
      ensures forall k: nat | k < |txs| :: oks[k] == Succeeds(old(projects), txs, k)
    {
      hide Apply;
      oks := [];
      assert txs[..0] == [];
      for i := 0 to |txs|
        invariant |oks| == i && projects == ApplyAll(old(projects), txs[..i])
        invariant forall k: nat | k < i :: oks[k] == Succeeds(old(projects), txs, k)
      {
        assert txs[..i + 1][..i] == txs[..i];
        var ok := Transact(txs[i]);
        oks := oks + [ok];
      }
      assert txs[..|txs|] == txs;
    }
  }

  // ------------------------------------------------- sequences of transactions

  type Startable = a: set<Status> | Busy !in a witness {}

  type HandedBack = s: Status | s in {HasChanges, BuildDone, BuildFailed} witness HasChanges

  datatype Tx =
    | NewProject(p: Project)
    | NewXml(p: Project, valid: bool)
    | Remove(p: Project)
    | ResetStatus(p: Project, hasSource: bool)
    | TakeBusy(p: Project, allowed: Startable)
    | GiveBack(p: Project, newStatus: HandedBack)

  function Apply(db: Db, tx: Tx): (Db, bool) {
    match tx
    case NewProject(p) => var (d, r) := CreateTx(db, p); (d, r.Ok?)
    case NewXml(p, valid) => var (d, r) := SetXmlTx(db, p, valid); (d, r.Ok?)
    case Remove(p) => var (d, r) := DeleteTx(db, p); (d, r.Ok?)
    case ResetStatus(p, hasSource) => var (d, r) := ResetTx(db, p, hasSource); (d, r.Ok?)
    case TakeBusy(p, allowed) => var (d, r) := SetBusyTx(db, p, allowed); (d, r.Ok?)
    case GiveBack(p, newStatus) => var (d, r) := ResetBusyTx(db, p, newStatus); (d, r.Ok?)
  }

  function ApplyAll(db: Db, txs: seq<Tx>): Db {
    if txs == [] then db else Apply(ApplyAll(db, txs[..|txs| - 1]), txs[|txs| - 1]).0
  }

  predicate Succeeds(db: Db, txs: seq<Tx>, k: nat)
    requires k < |txs|
  {
    Apply(ApplyAll(db, txs[..k]), txs[k]).1
  }

  predicate IsBusy(db: Db, p: Project) {
    p in db && db[p] == Busy
  }

  /** One transaction: a project becomes busy only by taking it, is freed only
      by giving it back or by `reset_project`, and everything else that is asked
      of a busy project is refused and changes nothing. */
  lemma BusyIsExclusive(db: Db, tx: Tx, p: Project)
    ensures var (after, ok) := Apply(db, tx);
            && (!IsBusy(db, p) && IsBusy(after, p) <==>
                  tx.TakeBusy? && tx.p == p && p in db && db[p] in tx.allowed)
            && (IsBusy(db, p) && !IsBusy(after, p) <==>
                  IsBusy(db, p) && tx.p == p && (tx.GiveBack? || tx.ResetStatus?))
            && (IsBusy(db, p) && tx.p == p && !tx.GiveBack? && !tx.ResetStatus? ==> after == db && !ok)
            && (tx.p != p ==> (p in after <==> p in db) && (p in db ==> after[p] == db[p]))
            && (!ok ==> after == db)
  {
  }

  predicate Takes(db: Db, txs: seq<Tx>, k: nat, p: Project)
    requires k < |txs|
  {
    txs[k].TakeBusy? && txs[k].p == p && Succeeds(db, txs, k)
  }

  predicate Frees(txs: seq<Tx>, k: nat, p: Project)
    requires k < |txs|
  {
    (txs[k].GiveBack? || txs[k].ResetStatus?) && txs[k].p == p
  }

  lemma PrefixSucceeds(db: Db, txs: seq<Tx>, n: nat, k: nat)
    requires k < n <= |txs|
    ensures Succeeds(db, txs[..n], k) == Succeeds(db, txs, k)
  {
    assert txs[..n][..k] == txs[..k];
  }

  /** A busy project has one owner: the last transaction that took it. Since
      then nobody freed it, and whatever else was asked of it was refused. */
  lemma {:induction false} BusyHasTaker(db: Db, txs: seq<Tx>, p: Project) returns (k: nat)
    requires !IsBusy(db, p) && IsBusy(ApplyAll(db, txs), p)
    ensures k < |txs| && Takes(db, txs, k, p)
    ensures forall j: nat | k < j < |txs| && txs[j].p == p :: !Succeeds(db, txs, j) && !Frees(txs, j, p)
  {
    hide Apply;
    var n := |txs| - 1;
    var before := txs[..n];
    BusyIsExclusive(ApplyAll(db, before), txs[n], p);
    if IsBusy(ApplyAll(db, before), p) {
      k := BusyHasTaker(db, before, p);
      forall j: nat | j < n ensures Succeeds(db, before, j) == Succeeds(db, txs, j) {
        PrefixSucceeds(db, txs, n, j);
      }
    } else {
      k := n;
    }
  }

  lemma {:induction false} StaysBusy(db: Db, txs: seq<Tx>, p: Project, i: nat, j: nat)
    requires i < j <= |txs| && Takes(db, txs, i, p)
    requires forall k: nat | i < k < j :: !Frees(txs, k, p)
    ensures IsBusy(ApplyAll(db, txs[..j]), p)
  {
    hide Apply;
    var upTo := txs[..j];
    assert upTo[..|upTo| - 1] == txs[..j - 1] && upTo[|upTo| - 1] == txs[j - 1];
    assert ApplyAll(db, upTo) == Apply(ApplyAll(db, txs[..j - 1]), txs[j - 1]).0;
    BusyIsExclusive(ApplyAll(db, txs[..j - 1]), txs[j - 1], p);
    if i < j - 1 {
      assert !Frees(txs, j - 1, p);
      StaysBusy(db, txs, p, i, j - 1);
    } else {
      TakenIsBusy(ApplyAll(db, txs[..i]), txs[i]);
    }
  }

  lemma TakenIsBusy(db: Db, tx: Tx)
    requires tx.TakeBusy? && Apply(db, tx).1
    ensures IsBusy(Apply(db, tx).0, tx.p) && !IsBusy(db, tx.p)
  {
  }

  /** Between two owners of a project somebody frees it. */
  lemma TakersAlternate(db: Db, txs: seq<Tx>, p: Project, i: nat, j: nat)
    requires i < j < |txs| && Takes(db, txs, i, p) && Takes(db, txs, j, p)
    ensures exists k: nat | i < k < j :: Frees(txs, k, p)
  {
    hide Apply;
    TakenIsBusy(ApplyAll(db, txs[..j]), txs[j]);
    if forall k: nat | i < k < j :: !Frees(txs, k, p) {
      StaysBusy(db, txs, p, i, j);
    }
  }

  predicate HasResult(db: Db, p: Project) {
    p in db && db[p] in {HasChanges, BuildDone, BuildFailed}
  }

  /** A status that speaks of a finished build or upload is never invented: some
      owner of the project has given it back. */
  lemma {:induction false} ResultsComeFromOwners(db: Db, txs: seq<Tx>, p: Project) returns (k: nat)
    requires !HasResult(db, p) && HasResult(ApplyAll(db, txs), p)
    ensures k < |txs| && txs[k].GiveBack? && txs[k].p == p && Succeeds(db, txs, k)
  {
    hide Apply;
    var n := |txs| - 1;
    if HasResult(ApplyAll(db, txs[..n]), p) {
      k := ResultsComeFromOwners(db, txs[..n], p);
      PrefixSucceeds(db, txs, n, k);
    } else {
      ResultIsGivenBack(ApplyAll(db, txs[..n]), txs[n], p);
      k := n;
    }
  }

  lemma ResultIsGivenBack(db: Db, tx: Tx, p: Project)
    requires !HasResult(db, p) && HasResult(Apply(db, tx).0, p)
    ensures tx.GiveBack? && tx.p == p && Apply(db, tx).1
  {
  }

  /** What a transaction that is not refused makes of its project: a new project is
      empty; after a new XML file a project that was built needs its changes built,
      every other one a build; the rest is as asked for. A new XML file once more
      changes nothing. */
  lemma NewStatus(db: Db, tx: Tx)
    requires Apply(db, tx).1
    ensures var after, p := Apply(db, tx).0, tx.p;
            match tx
            case NewProject(_) => p !in db && after == db[p := EmptyProject]
            case NewXml(_, valid) =>
              && valid && p in db
              && after == db[p := if db[p] == BuildDone || db[p] == HasChanges then HasChanges else NeedsBuild]
              && Apply(after, tx) == (after, true)
            case Remove(_) => p in db && after == db - {p}
            case ResetStatus(_, hasSource) =>
              p in db && after == db[p := if hasSource then NeedsBuild else EmptyProject]
            case TakeBusy(_, _) => p in db && after == db[p := Busy]
            case GiveBack(_, newStatus) => p in db && after == db[p := newStatus]
  {
  }
}
