/** The tables sandboxd keeps and the write operations on them
    (control-plane/internal/store/writer.go, control-plane/internal/store/tasks.go). */
module Rows {
  import opened Common
  import opened Protocol

  datatype RowStatus = Creating | Running | Stopped | Errored

  datatype IdlePolicy = Sleep | AlwaysOn

  /** A sandbox row with its ports; NULL columns are `None`. */
  datatype Row = Row(
    status: RowStatus,
    ports: seq<int>,
    visibility: string,
    policy: IdlePolicy,
    containerId: Option<string>,
    cgroup: Option<string>,
    error: Option<string>,
    createdAt: int,
    updatedAt: int,
    lastActive: int,
    stoppedAt: Option<int>,
    keepalive: Option<int>,
    ip: Option<string>,
    user: Option<string>,
    project: Option<string>,
    workspace: Option<string>)

  datatype Owner = Owner(user: string, project: Option<string>, workspace: Option<string>, createdAt: int)

  datatype TaskRow = TaskRow(sandbox: string, status: TaskStatus, result: Option<TaskResult>, createdAt: int,
                             finishedAt: Option<int>)

  datatype Db = Db(sandboxes: map<string, Row>, owners: map<string, Owner>, tasks: map<string, TaskRow>)

  datatype NewRow = NewRow(status: RowStatus, ports: seq<int>, visibility: string, policy: IdlePolicy,
                           user: Option<string>, project: Option<string>, workspace: Option<string>, now: int)

  /** The single-statement updates of one sandbox row. */
  datatype Change =
    | MarkRunning(container: string, group: string)
    | MarkStopped
    | MarkError(msg: string)
    | BumpLastActive(t: int)
    | MarkStoppedAt(at: int)
    | MarkRunningWoke(container: string, group: string, woke: int)
    | SetKeepaliveUntil(until: int)
    | SetContainerIP(addr: string)
    | ClearContainerIP

  datatype Op =
    | Create(id: string, row: NewRow)
    | Claim(id: string, user: string, project: string, workspace: string, now: int)
    | PurgeSandbox(id: string)
    | Delete(id: string)
    | Update(id: string, change: Change, now: int)
    | CreateTask(task: string, sandbox: string, now: int)
    | FinishTask(task: string, status: TaskStatus, result: TaskResult, now: int)

  datatype Outcome = Ok | Conflict | NotFound | Failed

  function NullIfEmpty(s: string): Option<string> {
    if s == "" then None else Some(s)
  }

  function Changed(r: Row, c: Change, now: int): Row {
    match c
    case MarkRunning(container, group) =>
      r.(status := Running, containerId := Some(container), cgroup := Some(group), error := None, updatedAt := now)
    case MarkStopped => r.(status := Stopped, updatedAt := now)
    case MarkError(msg) => r.(status := Errored, error := Some(msg), updatedAt := now)
    case BumpLastActive(t) => r.(lastActive := if t > r.lastActive then t else r.lastActive, updatedAt := now)
    case MarkStoppedAt(at) => r.(status := Stopped, stoppedAt := Some(at), updatedAt := at)
    case MarkRunningWoke(container, group, woke) =>
      r.(status := Running, containerId := Some(container), cgroup := Some(group), error := None,
         stoppedAt := None, lastActive := woke, updatedAt := woke)
    case SetKeepaliveUntil(until) => r.(keepalive := Some(until), updatedAt := now)
    case SetContainerIP(addr) => r.(ip := Some(addr), updatedAt := now)
    case ClearContainerIP => r.(ip := None, updatedAt := now)
  }

  function Inserted(n: NewRow): Row {
    Row(n.status, n.ports, if n.visibility == "" then "public" else n.visibility, n.policy, None, None, None,
        n.now, n.now, 0, None, None, None, n.user, n.project, n.workspace)
  }

  predicate Distinct(ports: seq<int>) {
    forall i, j :: 0 <= i < j < |ports| ==> ports[i] != ports[j]
  }

  /** The index of the last statement of an insert: begin, the row, its ports, its owner, commit. */
  function CommitOf(n: NewRow): nat {
    2 + |n.ports| + if n.user.Some? then 1 else 0
  }

  /** What one operation does when its statement number `failAt` fails (none, if it has fewer). */
  function Exec(db: Db, op: Op, failAt: nat): (Db, Outcome) {
    match op
    case Create(id, n) =>
      if failAt <= 1 then (db, Failed)
      else if id in db.sandboxes then (db, Conflict)
      else if failAt <= CommitOf(n) || !Distinct(n.ports) then (db, Failed)
      else
        var owners := if n.user.Some? && id !in db.owners
                      then db.owners[id := Owner(n.user.value, n.project, n.workspace, n.now)] else db.owners;
        (db.(sandboxes := db.sandboxes[id := Inserted(n)], owners := owners), Ok)
    case Claim(id, user, project, workspace, now) =>
      if failAt <= 2 then (db, Failed)
      else if id !in db.sandboxes then (db, NotFound)
      else if failAt <= 4 then (db, Failed)
      else
        var p, w := NullIfEmpty(project), NullIfEmpty(workspace);
        var row := db.sandboxes[id].(user := Some(user), project := p, workspace := w, updatedAt := now);
        var created := if id in db.owners then db.owners[id].createdAt else now;
        (db.(sandboxes := db.sandboxes[id := row], owners := db.owners[id := Owner(user, p, w, created)]), Ok)
    case PurgeSandbox(id) =>
      if failAt <= 3 then (db, Failed)
      else (db.(sandboxes := db.sandboxes - {id}, owners := db.owners - {id}), Ok)
    case Delete(id) =>
      if failAt == 0 then (db, Failed)
      else (db.(sandboxes := db.sandboxes - {id}),
            if failAt == 1 then Failed else if id in db.sandboxes then Ok else NotFound)
    case Update(id, change, now) =>
      if failAt == 0 then (db, Failed)
      else if id !in db.sandboxes then (db, Ok)
      else (db.(sandboxes := db.sandboxes[id := Changed(db.sandboxes[id], change, now)]), Ok)
    case CreateTask(task, sandbox, now) =>
      if failAt == 0 || task in db.tasks then (db, Failed)
      else (db.(tasks := db.tasks[task := TaskRow(sandbox, TaskRunning, None, now, None)]), Ok)
    case FinishTask(task, status, result, now) =>
      if failAt == 0 then (db, Failed)
      else if task !in db.tasks then (db, Ok)
      else
        var row := db.tasks[task].(status := status, result := Some(result), finishedAt := Some(now));
        (db.(tasks := db.tasks[task := row]), Ok)
  }

  /** An operation the writer runs and that does not return Ok has left every table as it was, with one exception:
      a delete whose affected-rows count cannot be read reports the failure after the row is gone. */
  lemma {:induction false} FailureChangesNothingIff(db: Db, op: Op, failAt: nat)
    requires Exec(db, op, failAt).1 != Ok
    ensures Exec(db, op, failAt).0 == db <==> !(op.Delete? && failAt == 1 && op.id in db.sandboxes)
  {
    if op.Delete? && op.id !in db.sandboxes {
      assert db.sandboxes - {op.id} == db.sandboxes;
    }
    if op.Delete? && failAt == 1 && op.id in db.sandboxes {
      assert op.id !in Exec(db, op, failAt).0.sandboxes;
    }
  }

  /** Which statements each operation needs, and what it refuses. */
  lemma {:induction false} OkIff(db: Db, op: Op, failAt: nat)
    ensures var o := Exec(db, op, failAt).1;
      match op
      case Create(id, n) =>
        && (o == Ok <==>
              && failAt > 2 + |n.ports| + (if n.user.Some? then 1 else 0)
              && id !in db.sandboxes && Distinct(n.ports))
        && (o == Conflict <==> failAt > 1 && id in db.sandboxes)
      case Claim(id, _, _, _, _) =>
        (o == Ok <==> failAt > 4 && id in db.sandboxes) && (o == NotFound <==> failAt > 2 && id !in db.sandboxes)
      case PurgeSandbox(id) => o == Ok <==> failAt > 3
      case Delete(id) =>
        (o == Ok <==> failAt > 1 && id in db.sandboxes) && (o == NotFound <==> failAt > 1 && id !in db.sandboxes)
      case Update(_, _, _) => o == Ok <==> failAt > 0
      case CreateTask(task, _, _) => o == Ok <==> failAt > 0 && task !in db.tasks
      case FinishTask(_, _, _, _) => o == Ok <==> failAt > 0
  {
  }

  // --- columns --------------------------------------------------------------------------------

  ghost predicate SameBut<V>(a: map<string, V>, b: map<string, V>, k: string) {
    forall x | x != k :: (x in a <==> x in b) && (x in a ==> a[x] == b[x])
  }

  /** A created sandbox has what was asked for in its row: status, ports in order, policy and owner,
      a visibility that is "public" where none was asked for, and nothing of a container yet. Its
      owner is bound unless the id has one already. */
  lemma {:induction false} CreatedRow(db: Db, id: string, n: NewRow, failAt: nat)
    requires Exec(db, Create(id, n), failAt).1 == Ok
    ensures var next := Exec(db, Create(id, n), failAt).0;
      && SameBut(next.sandboxes, db.sandboxes, id) && SameBut(next.owners, db.owners, id) && next.tasks == db.tasks
      && id !in db.sandboxes && id in next.sandboxes
      && var r := next.sandboxes[id];
         && r.status == n.status && r.ports == n.ports && r.policy == n.policy
         && r.user == n.user && r.project == n.project && r.workspace == n.workspace
         && (n.visibility != "" ==> r.visibility == n.visibility) && (n.visibility == "" ==> r.visibility == "public")
         && r.containerId == None && r.cgroup == None && r.error == None && r.stoppedAt == None
         && r.keepalive == None && r.ip == None && r.lastActive == 0
         && r.createdAt == n.now && r.updatedAt == n.now
    ensures var next := Exec(db, Create(id, n), failAt).0;
      && (id in db.owners || n.user.None? ==> next.owners == db.owners)
      && (id !in db.owners && n.user.Some? ==>
            id in next.owners && next.owners[id] == Owner(n.user.value, n.project, n.workspace, n.now))
  {
  }

  /** A claim hands row and binding to the user, and keeps the rest of the row and the binding's age. */
  lemma {:induction false} ClaimedRow(db: Db, id: string, user: string, project: string, workspace: string, now: int,
                                      failAt: nat)
    requires Exec(db, Claim(id, user, project, workspace, now), failAt).1 == Ok
    ensures var next := Exec(db, Claim(id, user, project, workspace, now), failAt).0;
      && SameBut(next.sandboxes, db.sandboxes, id) && SameBut(next.owners, db.owners, id) && next.tasks == db.tasks
      && id in db.sandboxes && id in next.sandboxes && id in next.owners
      && var r, r', o := db.sandboxes[id], next.sandboxes[id], next.owners[id];
         && r'.user == Some(user) && o.user == user && r'.updatedAt == now
         && r'.project == o.project == (if project == "" then None else Some(project))
         && r'.workspace == o.workspace == (if workspace == "" then None else Some(workspace))
         && r' == r.(user := r'.user, project := r'.project, workspace := r'.workspace, updatedAt := now)
         && o.createdAt == if id in db.owners then db.owners[id].createdAt else now
  {
  }

  /** A purge removes row and binding, a delete the row alone; nobody else's. */
  lemma {:induction false} RemovedRow(db: Db, id: string, failAt: nat)
    ensures var (next, o) := Exec(db, PurgeSandbox(id), failAt);
      o == Ok ==>
        && SameBut(next.sandboxes, db.sandboxes, id) && SameBut(next.owners, db.owners, id) && next.tasks == db.tasks
        && id !in next.sandboxes && id !in next.owners
    ensures var (next, o) := Exec(db, Delete(id), failAt);
      o == Ok ==>
        && SameBut(next.sandboxes, db.sandboxes, id) && next.owners == db.owners && next.tasks == db.tasks
        && id in db.sandboxes && id !in next.sandboxes
  {
  }

  /** The values an update stores. */
  lemma {:induction false} UpdateStores(db: Db, id: string, c: Change, now: int, failAt: nat)
    requires failAt > 0 && id in db.sandboxes
    ensures var next := Exec(db, Update(id, c, now), failAt).0;
      && id in next.sandboxes
      && var r, r' := db.sandboxes[id], next.sandboxes[id];
         match c
         case MarkRunning(container, group) =>
           && r'.status == Running && r'.containerId == Some(container) && r'.cgroup == Some(group)
           && r'.error == None && r'.updatedAt == now
         case MarkStopped => r'.status == Stopped && r'.updatedAt == now
         case MarkError(msg) => r'.status == Errored && r'.error == Some(msg) && r'.updatedAt == now
         case BumpLastActive(t) => r'.lastActive >= t && r'.lastActive >= r.lastActive && r'.updatedAt == now
         case MarkStoppedAt(at) => r'.status == Stopped && r'.stoppedAt == Some(at) && r'.updatedAt == at
         case MarkRunningWoke(container, group, woke) =>
           && r'.status == Running && r'.containerId == Some(container) && r'.cgroup == Some(group)
           && r'.error == None && r'.stoppedAt == None && r'.lastActive == woke && r'.updatedAt == woke
         case SetKeepaliveUntil(until) => r'.keepalive == Some(until) && r'.updatedAt == now
         case SetContainerIP(addr) => r'.ip == Some(addr) && r'.updatedAt == now
         case ClearContainerIP => r'.ip == None && r'.updatedAt == now
  {
  }

  /** The rows the two task statements write. */
  lemma {:induction false} TaskStores(db: Db, task: string, sandbox: string, status: TaskStatus, res: TaskResult, now: int,
                                      failAt: nat)
    requires failAt > 0
    ensures var next := Exec(db, CreateTask(task, sandbox, now), failAt).0;
      && SameBut(next.tasks, db.tasks, task) && next.sandboxes == db.sandboxes && next.owners == db.owners
      && task in next.tasks
      && (task in db.tasks ==> next.tasks[task] == db.tasks[task])
      && (task !in db.tasks ==> next.tasks[task] == TaskRow(sandbox, TaskRunning, None, now, None))
    ensures var next := Exec(db, FinishTask(task, status, res, now), failAt).0;
      && SameBut(next.tasks, db.tasks, task) && next.sandboxes == db.sandboxes && next.owners == db.owners
      && (task in next.tasks <==> task in db.tasks)
      && (task in db.tasks ==>
            var t, t' := db.tasks[task], next.tasks[task];
            && t'.status == status && t'.result == Some(res) && t'.finishedAt == Some(now)
            && t'.sandbox == t.sandbox && t'.createdAt == t.createdAt)
  {
  }

  predicate SetsStatus(c: Change) {
    c.MarkRunning? || c.MarkStopped? || c.MarkError? || c.MarkStoppedAt? || c.MarkRunningWoke?
  }

  /** A single-statement update touches one row, of that row neither identity nor configuration,
      and each other column only where the statement names it; activity moves backward only when
      a wake assigns it. */
  lemma {:induction false} UpdateTouchesOnly(db: Db, id: string, c: Change, now: int, failAt: nat)
    ensures var next := Exec(db, Update(id, c, now), failAt).0;
      && next.owners == db.owners && next.tasks == db.tasks && next.sandboxes.Keys == db.sandboxes.Keys
      && (forall k | k in db.sandboxes && k != id :: next.sandboxes[k] == db.sandboxes[k])
      && (id in db.sandboxes ==>
            var r, r' := db.sandboxes[id], next.sandboxes[id];
            && r'.ports == r.ports && r'.visibility == r.visibility && r'.policy == r.policy
            && r'.createdAt == r.createdAt && r'.user == r.user && r'.project == r.project && r'.workspace == r.workspace
            && (r'.status != r.status ==> SetsStatus(c))
            && (r'.lastActive != r.lastActive ==> c.BumpLastActive? || c.MarkRunningWoke?)
            && (r'.lastActive < r.lastActive ==> c.MarkRunningWoke? && c.woke < r.lastActive)
            && (c.BumpLastActive? && failAt > 0 ==> r'.lastActive >= c.t && (r'.lastActive == c.t || r'.lastActive == r.lastActive))
            && (r'.keepalive != r.keepalive ==> c.SetKeepaliveUntil?)
            && (r'.ip != r.ip ==> c.SetContainerIP? || c.ClearContainerIP?)
            && (r'.stoppedAt != r.stoppedAt ==> c.MarkStoppedAt? || c.MarkRunningWoke?)
            && (r'.containerId != r.containerId || r'.cgroup != r.cgroup ==> c.MarkRunning? || c.MarkRunningWoke?)
            && (r'.error != r.error ==> c.MarkError? || c.MarkRunning? || c.MarkRunningWoke?))
  {
  }

  /** The code stores NULL for an empty project or workspace. So a claim of an id that has an owner
      leaves a column as it was exactly if the column already holds what the claim stores; a claim
      with an empty project exactly if there was none. */
  lemma {:induction false} ClaimKeepsColumnsIff(db: Db, id: string, user: string, project: string, workspace: string,
                                                now: int, failAt: nat)
    requires id in db.owners && Exec(db, Claim(id, user, project, workspace, now), failAt).1 == Ok
    ensures var next := Exec(db, Claim(id, user, project, workspace, now), failAt).0;
      && (next.owners[id].project == db.owners[id].project <==> db.owners[id].project == NullIfEmpty(project))
      && (next.owners[id].workspace == db.owners[id].workspace <==> db.owners[id].workspace == NullIfEmpty(workspace))
      && next.sandboxes[id].project == next.owners[id].project
      && next.sandboxes[id].workspace == next.owners[id].workspace
  {
  }

  /** A claim that names no project forgets the one that was bound. */
  lemma {:induction false} ClaimForgetsProject() returns (db: Db, claim: Op)
    ensures claim.Claim? && claim.project == "" && Exec(db, claim, 5).1 == Ok
    ensures claim.id in db.owners && db.owners[claim.id].project == Some("p")
    ensures Exec(db, claim, 5).0.owners[claim.id].project == None
  {
    var n := NewRow(Stopped, [], "", Sleep, Some("u"), Some("p"), None, 0);
    db := Exec(Db(map[], map[], map[]), Create("x", n), 4).0;
    claim := Claim("x", "u", "", "", 1);
  }

  // --- what a caller of the store gets ------------------------------------------------------

  /** How the wait for the writer ends: with the outcome, or with the caller's context, the
      operation never being carried out or being carried out all the same. The tables below are
      those after the writer has dealt with the operation. */
  datatype Patience = Stays | LeavesUnapplied | LeavesApplied

  datatype Reply = Replied(o: Outcome) | ContextError

  /** A store call as its caller and the tables see it. */
  function Submitted(db: Db, op: Op, failAt: nat, patience: Patience): (Db, Reply) {
    match patience
    case Stays => var (next, o) := Exec(db, op, failAt); (next, Replied(o))
    case LeavesUnapplied => (db, ContextError)
    case LeavesApplied => (Exec(db, op, failAt).0, ContextError)
  }

  /** The operation finds something to change, and no statement it needs for that fails. */
  predicate Bites(db: Db, op: Op, failAt: nat) {
    match op
    case Create(id, n) => failAt > CommitOf(n) && id !in db.sandboxes && Distinct(n.ports)
    case Claim(id, user, project, workspace, now) =>
      failAt > 4 && id in db.sandboxes &&
      var p, w := NullIfEmpty(project), NullIfEmpty(workspace);
      var r := db.sandboxes[id];
      !(r.user == Some(user) && r.project == p && r.workspace == w && r.updatedAt == now
        && id in db.owners && db.owners[id].user == user && db.owners[id].project == p
        && db.owners[id].workspace == w)
    case PurgeSandbox(id) => failAt > 3 && (id in db.sandboxes || id in db.owners)
    case Delete(id) => failAt > 0 && id in db.sandboxes
    case Update(id, change, now) =>
      failAt > 0 && id in db.sandboxes && Changed(db.sandboxes[id], change, now) != db.sandboxes[id]
    case CreateTask(task, _, _) => failAt > 0 && task !in db.tasks
    case FinishTask(task, status, result, now) =>
      failAt > 0 && task in db.tasks &&
      !(db.tasks[task].status == status && db.tasks[task].result == Some(result)
        && db.tasks[task].finishedAt == Some(now))
  }

  lemma {:induction false} ExecChangesIff(db: Db, op: Op, failAt: nat)
    ensures Exec(db, op, failAt).0 != db <==> Bites(db, op, failAt)
  {
    var next := Exec(db, op, failAt).0;
    match op {
      case Create(id, n) => assert Bites(db, op, failAt) ==> id in next.sandboxes;
      case Claim(id, user, project, workspace, now) =>
        if failAt > 4 && id in db.sandboxes {
          assert next.sandboxes[id] == db.sandboxes[id] ==> next.sandboxes == db.sandboxes;
          assert id in next.owners;
          assert id in db.owners && next.owners[id] == db.owners[id] ==> next.owners == db.owners;
        }
      case PurgeSandbox(id) =>
        assert failAt > 3 ==> id !in next.sandboxes && id !in next.owners;
        assert id !in db.sandboxes ==> db.sandboxes - {id} == db.sandboxes;
        assert id !in db.owners ==> db.owners - {id} == db.owners;
      case Delete(id) =>
        assert failAt > 0 ==> id !in next.sandboxes;
        assert id !in db.sandboxes ==> db.sandboxes - {id} == db.sandboxes;
      case Update(id, change, now) =>
        if failAt > 0 && id in db.sandboxes {
          assert next.sandboxes[id] == Changed(db.sandboxes[id], change, now);
          assert next.sandboxes[id] == db.sandboxes[id] ==> next.sandboxes == db.sandboxes;
        }
      case CreateTask(task, _, _) => assert Bites(db, op, failAt) ==> task in next.tasks;
      case FinishTask(task, status, result, now) =>
        if failAt > 0 && task in db.tasks {
          assert next.tasks[task] == db.tasks[task] ==> next.tasks == db.tasks;
        }
    }
  }

  /** A store call that does not return Ok has left the tables as they were exactly if its
      caller left before the operation was applied, or the operation did not bite: it failed at
      a statement, was refused, or had nothing to change. */
  lemma {:induction false} SubmitFailureChangesNothingIff(db: Db, op: Op, failAt: nat, patience: Patience)
    requires Submitted(db, op, failAt, patience).1 != Replied(Ok)
    ensures Submitted(db, op, failAt, patience).0 == db <==> patience == LeavesUnapplied || !Bites(db, op, failAt)
  {
    ExecChangesIff(db, op, failAt);
  }

  // --- the tables updated in place --------------------------------------------------------

  class Tables {
    var sandboxes: map<string, Row>
    var owners: map<string, Owner>
    var tasks: map<string, TaskRow>

    ghost function Abs(): Db
      reads this
    {
      Db(sandboxes, owners, tasks)
    }

    constructor ()
      ensures Abs() == Db(map[], map[], map[])
    {
      sandboxes, owners, tasks := map[], map[], map[];
    }

    /** A transaction works on its own copy and commits by the last assignment; every early
        return is the rollback. */
    method Create(id: string, n: NewRow, failAt: nat) returns (o: Outcome)
      modifies this
      ensures (Abs(), o) == Exec(old(Abs()), Op.Create(id, n), failAt)
    {
      if failAt == 0 || failAt == 1 {
        return Failed;
      }
      if id in sandboxes {
        return Conflict;
      }
      var row := Inserted(n).(ports := []);
      for i := 0 to |n.ports|
        invariant unchanged(this)
        invariant row == Inserted(n).(ports := n.ports[..i]) && Distinct(n.ports[..i])
        invariant failAt >= 2 + i
      {
        if failAt == 2 + i {
          return Failed;
        }
        if n.ports[i] in row.ports {
          return Failed;
        }
        row := row.(ports := row.ports + [n.ports[i]]);
      }
      assert n.ports[..|n.ports|] == n.ports;
      var bound := owners;
      if n.user.Some? {
        if failAt == 2 + |n.ports| {
          return Failed;
        }
        if id !in bound {
          bound := bound[id := Owner(n.user.value, n.project, n.workspace, n.now)];
        }
      }
      if failAt == CommitOf(n) {
        return Failed;
      }
      sandboxes, owners := sandboxes[id := row], bound;
      return Ok;
    }

    method Claim(id: string, user: string, project: string, workspace: string, now: int, failAt: nat)
      returns (o: Outcome)
      modifies this
      ensures (Abs(), o) == Exec(old(Abs()), Op.Claim(id, user, project, workspace, now), failAt)
    {
      if failAt <= 2 {
        return Failed;
      }
      if id !in sandboxes {
        return NotFound;
      }
      var p, w := NullIfEmpty(project), NullIfEmpty(workspace);
      var row := sandboxes[id].(user := Some(user), project := p, workspace := w, updatedAt := now);
      if failAt == 3 || failAt == 4 {
        return Failed;
      }
      var bound := Owner(user, p, w, now);
      if id in owners {
        bound := owners[id].(user := user, project := p, workspace := w);
      }
      sandboxes, owners := sandboxes[id := row], owners[id := bound];
      return Ok;
    }

    method PurgeSandbox(id: string, failAt: nat) returns (o: Outcome)
      modifies this
      ensures (Abs(), o) == Exec(old(Abs()), Op.PurgeSandbox(id), failAt)
    {
      if failAt <= 3 {
        return Failed;
      }
      sandboxes := sandboxes - {id};
      owners := owners - {id};
      return Ok;
    }

    method Delete(id: string, failAt: nat) returns (o: Outcome)
      modifies this
      ensures (Abs(), o) == Exec(old(Abs()), Op.Delete(id), failAt)
    {
      if failAt == 0 {
        return Failed;
      }
      var n := if id in sandboxes then 1 else 0;
      sandboxes := sandboxes - {id};
      if failAt == 1 {
        return Failed;
      }
      return if n == 0 then NotFound else Ok;
    }

    method Update(id: string, change: Change, now: int, failAt: nat) returns (o: Outcome)
      modifies this
      ensures (Abs(), o) == Exec(old(Abs()), Op.Update(id, change, now), failAt)
    {
      if failAt == 0 {
        return Failed;
      }
      if id in sandboxes {
        sandboxes := sandboxes[id := Changed(sandboxes[id], change, now)];
      }
      return Ok;
    }

    method CreateTask(task: string, sandbox: string, now: int, failAt: nat) returns (o: Outcome)
      modifies this
      ensures (Abs(), o) == Exec(old(Abs()), Op.CreateTask(task, sandbox, now), failAt)
    {
      if failAt == 0 || task in tasks {
        return Failed;
      }
      tasks := tasks[task := TaskRow(sandbox, TaskRunning, None, now, None)];
      return Ok;
    }

    method FinishTask(task: string, status: TaskStatus, result: TaskResult, now: int, failAt: nat)
      returns (o: Outcome)
      modifies this
      ensures (Abs(), o) == Exec(old(Abs()), Op.FinishTask(task, status, result, now), failAt)
    {
      if failAt == 0 {
        return Failed;
      }
      if task in tasks {
        tasks := tasks[task := tasks[task].(status := status, result := Some(result), finishedAt := Some(now))];
      }
      return Ok;
    }

    /** The closure an operation carries to the writer. */
    method Execute(op: Op, failAt: nat) returns (o: Outcome)
      modifies this
      ensures (Abs(), o) == Exec(old(Abs()), op, failAt)
    {
      match op {
        case Create(id, n) => o := Create(id, n, failAt);
        case Claim(id, user, project, workspace, now) => o := Claim(id, user, project, workspace, now, failAt);
        case PurgeSandbox(id) => o := PurgeSandbox(id, failAt);
        case Delete(id) => o := Delete(id, failAt);
        case Update(id, change, now) => o := Update(id, change, now, failAt);
        case CreateTask(task, sandbox, now) => o := CreateTask(task, sandbox, now, failAt);
        case FinishTask(task, status, result, now) => o := FinishTask(task, status, result, now, failAt);
      }
    }

    /** A call through `submit`, from its caller's side. */
    method Submit(op: Op, failAt: nat, patience: Patience) returns (r: Reply)
      modifies this
      ensures (Abs(), r) == Submitted(old(Abs()), op, failAt, patience)
    {
      if patience == LeavesUnapplied {
        return ContextError;
      }
      var o := Execute(op, failAt);
      return if patience == LeavesApplied then ContextError else Replied(o);
    }
  }

  // --- ownership over whole histories ------------------------------------------------------

  /** An executed operation and where it failed. */
  datatype Call = Call(op: Op, failAt: nat)

  function Run(db: Db, calls: seq<Call>): Db
    decreases |calls|
  {
    if calls == [] then db else Run(Exec(db, calls[0].op, calls[0].failAt).0, calls[1..])
  }

  lemma {:induction false} RunSnoc(db: Db, calls: seq<Call>, c: Call)
    ensures Run(db, calls + [c]) == Exec(Run(db, calls), c.op, c.failAt).0
    decreases |calls|
  {
    if calls == [] {
      assert calls + [c] == [c] && [c][1..] == [];
    } else {
      assert (calls + [c])[1..] == calls[1..] + [c];
      RunSnoc(Exec(db, calls[0].op, calls[0].failAt).0, calls[1..], c);
    }
  }

  predicate Purges(c: Call, id: string) {
    c.op == PurgeSandbox(id) && c.failAt > 3
  }

  predicate ClaimsFor(c: Call, id: string, user: string) {
    c.op.Claim? && c.op.id == id && c.op.user == user && c.failAt > 4
  }

  lemma {:induction false} OwnerStep(db: Db, c: Call, id: string)
    requires id in db.owners && !Purges(c, id)
    ensures id in Exec(db, c.op, c.failAt).0.owners
    ensures Exec(db, c.op, c.failAt).0.owners[id].createdAt == db.owners[id].createdAt
    ensures Exec(db, c.op, c.failAt).0.owners[id].user == db.owners[id].user
         || ClaimsFor(c, id, Exec(db, c.op, c.failAt).0.owners[id].user)
  {
  }

  /** Over any history an ownership binding disappears only by a successful purge of that id. */
  lemma {:induction false} OwnerLostOnlyByPurge(db: Db, calls: seq<Call>, id: string)
    requires id in db.owners && id !in Run(db, calls).owners
    ensures exists i :: 0 <= i < |calls| && Purges(calls[i], id)
    decreases |calls|
  {
    if calls != [] && !Purges(calls[0], id) {
      var rest := calls[1..];
      OwnerStep(db, calls[0], id);
      OwnerLostOnlyByPurge(Exec(db, calls[0].op, calls[0].failAt).0, rest, id);
      var i :| 0 <= i < |rest| && Purges(rest[i], id);
      assert Purges(calls[i + 1], id);
    }
  }

  /** Without a purge, the binding survives with its creation time, and its user is the
      original one or one that a successful claim of this id named; in particular deleting the
      sandbox row and creating the id again leave the user as it was. */
  lemma {:induction false} UserChangesOnlyByClaim(db: Db, calls: seq<Call>, id: string)
    requires id in db.owners && forall i :: 0 <= i < |calls| ==> !Purges(calls[i], id)
    ensures id in Run(db, calls).owners
    ensures Run(db, calls).owners[id].createdAt == db.owners[id].createdAt
    ensures Run(db, calls).owners[id].user == db.owners[id].user
         || exists i :: 0 <= i < |calls| && ClaimsFor(calls[i], id, Run(db, calls).owners[id].user)
    decreases |calls|
  {
    if calls != [] {
      var rest := calls[1..];
      var next := Exec(db, calls[0].op, calls[0].failAt).0;
      assert !Purges(calls[0], id);
      OwnerStep(db, calls[0], id);
      assert forall i :: 0 <= i < |rest| ==> rest[i] == calls[i + 1];
      UserChangesOnlyByClaim(next, rest, id);
      var user := Run(db, calls).owners[id].user;
      if i :| 0 <= i < |rest| && ClaimsFor(rest[i], id, user) {
        assert ClaimsFor(calls[i + 1], id, user);
      } else if user != db.owners[id].user {
        assert ClaimsFor(calls[0], id, user);
      }
    }
  }

  /** Over any history a task row, once there, is never removed and keeps its sandbox and creation
      time; its status and result change only by a finish that names it. */
  lemma {:induction false} TaskRowsPersist(db: Db, calls: seq<Call>, task: string)
    requires task in db.tasks
    ensures var r := db.tasks[task];
      && task in Run(db, calls).tasks
      && var r' := Run(db, calls).tasks[task];
         && r'.sandbox == r.sandbox && r'.createdAt == r.createdAt
         && (r' != r ==> exists i :: 0 <= i < |calls| && Finishes(calls[i], task, r'))
    decreases |calls|
  {
    if calls != [] {
      var rest, c := calls[1..], calls[0];
      var next := Exec(db, c.op, c.failAt).0;
      TaskRowsPersist(next, rest, task);
      var r' := Run(db, calls).tasks[task];
      if i :| 0 <= i < |rest| && Finishes(rest[i], task, r') {
        assert Finishes(calls[i + 1], task, r');
      } else if r' != db.tasks[task] {
        assert Finishes(calls[0], task, r');
      }
    }
  }

  /** A finish of this task with what its row holds. */
  predicate Finishes(c: Call, task: string, r: TaskRow) {
    && c.op.FinishTask? && c.op.task == task && c.failAt > 0
    && r.status == c.op.status && r.result == Some(c.op.result) && r.finishedAt == Some(c.op.now)
  }

  /** A call that can take `id`'s activity back: a wake, or the row being removed or made anew. */
  predicate ResetsActivity(op: Op, id: string) {
    match op
    case Update(k, change, _) => k == id && change.MarkRunningWoke?
    case Create(k, _) => k == id
    case Delete(k) => k == id
    case PurgeSandbox(k) => k == id
    case _ => false
  }

  /** Over any history without such a call the last activity of a row only moves forward. */
  lemma {:induction false} ActivityMovesForward(db: Db, calls: seq<Call>, id: string)
    requires id in db.sandboxes && forall i :: 0 <= i < |calls| ==> !ResetsActivity(calls[i].op, id)
    ensures id in Run(db, calls).sandboxes && Run(db, calls).sandboxes[id].lastActive >= db.sandboxes[id].lastActive
    decreases |calls|
  {
    if calls != [] {
      var rest := calls[1..];
      var c := calls[0];
      assert !ResetsActivity(c.op, id);
      if c.op.Update? {
        UpdateTouchesOnly(db, c.op.id, c.op.change, c.op.now, c.failAt);
      }
      assert forall i :: 0 <= i < |rest| ==> rest[i] == calls[i + 1];
      ActivityMovesForward(Exec(db, c.op, c.failAt).0, rest, id);
    }
  }

  // --- the two owners of a sandbox ------------------------------------------------------------

  /** Every sandbox row has a durable owner, and both name the same user. */
  ghost predicate Agree(db: Db) {
    forall id | id in db.sandboxes ::
      id in db.owners && db.sandboxes[id].user == Some(db.owners[id].user)
  }

  datatype GuardResult = Pass | RowExists | OwnerMismatch(expected: string)

  /** The checks `handleCreate` makes before it inserts. */
  function Guard(db: Db, id: string, user: string): GuardResult {
    if id in db.sandboxes then RowExists
    else if id in db.owners && db.owners[id].user != user then OwnerMismatch(db.owners[id].user)
    else Pass
  }

  /** The user a create request acts for: an empty one stands for "local". */
  function RequestUser(user: string): (u: string)
    ensures u != ""
  {
    if user == "" then "local" else user
  }

  datatype Request =
    | NewSandbox(id: string, externalUser: string, row: NewRow)
    | Direct(op: Op)

  /** Guard and insert as one step; every other operation as it is. */
  function Serve(db: Db, r: Request, failAt: nat): Db {
    match r
    case NewSandbox(id, externalUser, n) =>
      var user := RequestUser(externalUser);
      if Guard(db, id, user) != Pass then db
      else Exec(db, Create(id, n.(user := NullIfEmpty(user))), failAt).0
    case Direct(op) => Exec(db, op, failAt).0
  }

  /** A request for an id without a row gets one exactly if the id is not bound to another user, its
      ports are distinct and no statement fails; row and binding then name the user it acts for. One
      for an id with a row changes nothing. */
  lemma {:induction false} RequestCreatesIff(db: Db, id: string, externalUser: string, n: NewRow, failAt: nat)
    ensures var next := Serve(db, NewSandbox(id, externalUser, n), failAt);
      var user := if externalUser == "" then "local" else externalUser;
      && (id in db.sandboxes ==> next == db)
      && (id !in db.sandboxes ==>
            (id in next.sandboxes <==>
               (id in db.owners ==> db.owners[id].user == user) && failAt > 3 + |n.ports| && Distinct(n.ports)))
      && (id !in db.sandboxes && id in next.sandboxes ==>
            next.sandboxes[id].user == Some(user) && id in next.owners && next.owners[id].user == user)
  {
  }

  function ServeAll(db: Db, requests: seq<(Request, nat)>): Db
    decreases |requests|
  {
    if requests == [] then db else ServeAll(Serve(db, requests[0].0, requests[0].1), requests[1..])
  }

  lemma {:induction false} AgreeStep(db: Db, r: Request, failAt: nat)
    requires Agree(db) && (r.Direct? ==> !r.op.Create?)
    ensures Agree(Serve(db, r, failAt))
  {
    var next := Serve(db, r, failAt);
    forall id | id in next.sandboxes
      ensures id in next.owners && next.sandboxes[id].user == Some(next.owners[id].user)
    {
      if r.Direct? && r.op.Update? && id in db.sandboxes {
        assert Changed(db.sandboxes[id], r.op.change, r.op.now).user == db.sandboxes[id].user;
      }
    }
  }

  /** When guard and insert are one step, the row's user and the durable owner's user agree in
      every state any history of creates, claims, deletes, purges and marks can reach. */
  lemma {:induction false} OwnersAlwaysAgree(db: Db, requests: seq<(Request, nat)>)
    requires Agree(db)
    requires forall i :: 0 <= i < |requests| ==> requests[i].0.Direct? ==> !requests[i].0.op.Create?
    ensures Agree(ServeAll(db, requests))
    decreases |requests|
  {
    if requests != [] {
      var rest := requests[1..];
      assert requests[0].0.Direct? ==> !requests[0].0.op.Create?;
      AgreeStep(db, requests[0].0, requests[0].1);
      assert forall i :: 0 <= i < |rest| ==> rest[i] == requests[i + 1];
      OwnersAlwaysAgree(Serve(db, requests[0].0, requests[0].1), rest);
    }
  }

  /** An insert by itself keeps the two owners in agreement exactly when it does not happen, or
      finds no other user's binding for the id. */
  lemma {:induction false} InsertKeepsAgreementIff(db: Db, id: string, n: NewRow, failAt: nat)
    requires Agree(db)
    ensures var (next, o) := Exec(db, Create(id, n), failAt);
      Agree(next) <==> o != Ok || (n.user.Some? && (id in db.owners ==> db.owners[id].user == n.user.value))
  {
    var (next, o) := Exec(db, Create(id, n), failAt);
    if o == Ok {
      assert next.sandboxes[id].user == n.user;
      assert forall k | k in db.sandboxes :: k in next.sandboxes && next.sandboxes[k] == db.sandboxes[k];
      assert forall k | k in next.sandboxes && k != id :: k in db.sandboxes;
    }
  }

  /** As coded the guard and the insert are two steps: another user's create and delete between
      them leave a row whose user is not the durable owner. */
  lemma {:induction false} GuardedCreateCanRace() returns (db: Db, calls: seq<Call>, id: string, n: NewRow)
    ensures Agree(db) && n.user.Some? && Guard(db, id, n.user.value) == Pass
    ensures Agree(Run(db, calls)) && !Agree(Run(db, calls + [Call(Create(id, n), CommitOf(n) + 1)]))
  {
    db, id := Db(map[], map[], map[]), "x";
    n := NewRow(Creating, [], "", Sleep, Some("a"), None, None, 0);
    var b := n.(user := Some("b"));
    calls := [Call(Create(id, b), 4), Call(Delete(id), 2)];
    var mid := Exec(db, Create(id, b), 4).0;
    assert mid.owners[id].user == "b";
    var after := Exec(mid, Delete(id), 2).0;
    assert calls[1..] == [calls[1]] && calls[1..][1..] == [];
    assert Run(mid, calls[1..]) == Run(after, []);
    assert Run(db, calls) == after;
    assert id !in after.sandboxes && after.owners == mid.owners;
    InsertKeepsAgreementIff(after, id, n, CommitOf(n) + 1);
    RunSnoc(db, calls, Call(Create(id, n), CommitOf(n) + 1));
  }
}
