/**
 * The tenant-scoped queries of ``queries.py`` over the table contents, and the
 * three helpers there that change a row in place.
 *
 * A column compared with ``g.get("tenant_id")`` matches only when the request
 * has a tenant: comparing with ``None`` is ``IS NULL`` in SQL and no tenant id
 * is null, so without a tenant every query is empty.
 */
module Queries {
  import opened Wrappers
  import opened Sequences
  import opened Models
  import opened Requests

  /** ``X.tenant_id == g.get("tenant_id")``. */
  predicate InTenant(tenantId: nat, current: Option<nat>) {
    current == Some(tenantId)
  }

  /** ``.join(User, Task.author_id == User.id)`` together with ``User.tenant_id == g.get("tenant_id")``. */
  predicate AuthorIn(users: seq<User>, authorId: nat, current: Option<nat>) {
    exists u :: u in users && u.id == authorId && InTenant(u.tenantId, current)
  }

  /** The filter the task lists share: the author is ``userId`` and both the task and the author are in the current tenant. */
  predicate Owned(t: Task, users: seq<User>, userId: nat, current: Option<nat>) {
    t.authorId == userId && InTenant(t.tenantId, current) && AuthorIn(users, t.authorId, current)
  }

  function OwnedTasks(tasks: seq<Task>, users: seq<User>, userId: nat, current: Option<nat>): (r: seq<Task>)
    ensures forall t :: t in r <==> t in tasks && Owned(t, users, userId, current)
    ensures forall t :: multiset(r)[t] == if Owned(t, users, userId, current) then multiset(tasks)[t] else 0
  {
    Filter(tasks, (t: Task) => Owned(t, users, userId, current))
  }

  predicate IsDone(t: Task) { t.status == Done }
  predicate NotDone(t: Task) { t.status != Done }
  predicate IsOverdue(t: Task) { t.status == Overdue }

  /** ``order_by(Task.created.desc())`` as an ascending sort on the negated day. */
  function NewestFirst(t: Task): int { -t.created }

  /** ``order_by(TaskComment.task_id.asc())``. */
  function ByTaskId(c: TaskComment): int { c.taskId }

  /** ``order_by(Task.created.desc())`` of a list of tasks. */
  function NewestFirstOf(ts: seq<Task>): (r: seq<Task>)
    ensures forall t :: t in r <==> t in ts
    ensures multiset(r) == multiset(ts)
    ensures forall i, j :: 0 <= i < j < |r| ==> r[i].created >= r[j].created
  {
    SortByMembers(ts, NewestFirst);
    var r := SortBy(ts, NewestFirst);
    assert forall i, j :: 0 <= i < j < |r| ==> NewestFirst(r[i]) <= NewestFirst(r[j]);
    r
  }

  /** ``get_active_tasks``: the user's tasks in the current tenant that are not DONE, newest first. */
  function ActiveTasks(tasks: seq<Task>, users: seq<User>, userId: nat, current: Option<nat>): (r: seq<Task>)
    ensures forall t :: t in r <==> t in tasks && Owned(t, users, userId, current) && t.status != Done
    ensures forall t :: multiset(r)[t] == if Owned(t, users, userId, current) && t.status != Done then multiset(tasks)[t] else 0
    ensures forall i, j :: 0 <= i < j < |r| ==> r[i].created >= r[j].created
  {
    NewestFirstOf(Filter(OwnedTasks(tasks, users, userId, current), NotDone))
  }

  /** ``get_done_tasks``: the same filter with status DONE. */
  function DoneTasks(tasks: seq<Task>, users: seq<User>, userId: nat, current: Option<nat>): (r: seq<Task>)
    ensures forall t :: t in r <==> t in tasks && Owned(t, users, userId, current) && t.status == Done
    ensures forall t :: multiset(r)[t] == if Owned(t, users, userId, current) && t.status == Done then multiset(tasks)[t] else 0
    ensures forall i, j :: 0 <= i < j < |r| ==> r[i].created >= r[j].created
  {
    NewestFirstOf(Filter(OwnedTasks(tasks, users, userId, current), IsDone))
  }

  /** ``get_overdue_tasks``: the same filter with status OVERDUE. */
  function OverdueTasks(tasks: seq<Task>, users: seq<User>, userId: nat, current: Option<nat>): (r: seq<Task>)
    ensures forall t :: t in r <==> t in tasks && Owned(t, users, userId, current) && t.status == Overdue
    ensures forall t :: multiset(r)[t] == if Owned(t, users, userId, current) && t.status == Overdue then multiset(tasks)[t] else 0
    ensures forall i, j :: 0 <= i < j < |r| ==> r[i].created >= r[j].created
  {
    NewestFirstOf(Filter(OwnedTasks(tasks, users, userId, current), IsOverdue))
  }

  /** Every overdue task of the user is also on the active list. */
  lemma OverdueAreActive(tasks: seq<Task>, users: seq<User>, userId: nat, current: Option<nat>)
    ensures forall t :: t in OverdueTasks(tasks, users, userId, current) ==> t in ActiveTasks(tasks, users, userId, current)
  {
  }

  /**
   * The active and done lists split the user's tasks in the tenant: no task is
   * on both, and together they hold each of those tasks exactly once.
   */
  lemma ActiveAndDonePartition(tasks: seq<Task>, users: seq<User>, userId: nat, current: Option<nat>)
    ensures forall t :: t in ActiveTasks(tasks, users, userId, current) ==> t !in DoneTasks(tasks, users, userId, current)
    ensures multiset(ActiveTasks(tasks, users, userId, current)) + multiset(DoneTasks(tasks, users, userId, current))
            == multiset(OwnedTasks(tasks, users, userId, current))
  {
    FilterSplits(OwnedTasks(tasks, users, userId, current), NotDone, IsDone);
  }

  /** The head of a newest-first list, or None when it is empty. */
  function Head(ts: seq<Task>): (r: Option<Task>)
    requires forall i, j :: 0 <= i < j < |ts| ==> ts[i].created >= ts[j].created
    ensures r.None? <==> ts == []
    ensures r.Some? ==> r.value in ts && forall t :: t in ts ==> t.created <= r.value.created
  {
    if ts == [] then None
    else
      assert forall t :: t in ts ==> t.created <= ts[0].created by {
        forall t | t in ts ensures t.created <= ts[0].created {
          var i :| 0 <= i < |ts| && ts[i] == t;
        }
      }
      Some(ts[0])
  }

  /** ``get_latest_task``: the newest active task of the user, None when there is none. */
  function LatestTask(tasks: seq<Task>, users: seq<User>, userId: nat, current: Option<nat>): (r: Option<Task>)
    ensures r.None? <==> forall t :: t in tasks && Owned(t, users, userId, current) ==> t.status == Done
    ensures r.Some? ==> r.value in tasks && Owned(r.value, users, userId, current) && r.value.status != Done
    ensures r.Some? ==> forall t :: t in tasks && Owned(t, users, userId, current) && t.status != Done ==>
                                    t.created <= r.value.created
  {
    var active := ActiveTasks(tasks, users, userId, current);
    Head(active)
  }

  /** ``get_latest_done_task``: the newest done task of the user, None when there is none. */
  function LatestDoneTask(tasks: seq<Task>, users: seq<User>, userId: nat, current: Option<nat>): (r: Option<Task>)
    ensures r.None? <==> forall t :: t in tasks && Owned(t, users, userId, current) ==> t.status != Done
    ensures r.Some? ==> r.value in tasks && Owned(r.value, users, userId, current) && r.value.status == Done
    ensures r.Some? ==> forall t :: t in tasks && Owned(t, users, userId, current) && t.status == Done ==>
                                    t.created <= r.value.created
  {
    var done := DoneTasks(tasks, users, userId, current);
    Head(done)
  }

  /** ``order_by(TaskComment.task_id.asc())`` of a list of comments. */
  function ByTaskIdOf(cs: seq<TaskComment>): (r: seq<TaskComment>)
    ensures forall c :: c in r <==> c in cs
    ensures multiset(r) == multiset(cs)
    ensures forall i, j :: 0 <= i < j < |r| ==> r[i].taskId <= r[j].taskId
  {
    SortByMembers(cs, ByTaskId);
    var r := SortBy(cs, ByTaskId);
    assert forall i, j :: 0 <= i < j < |r| ==> ByTaskId(r[i]) <= ByTaskId(r[j]);
    r
  }

  /** A comment of task ``taskId`` whose comment, task and task-author tenants are all the current tenant. */
  predicate CommentOfTaskInTenant(c: TaskComment, tasks: seq<Task>, users: seq<User>, taskId: nat, current: Option<nat>) {
    c.taskId == taskId && InTenant(c.tenantId, current) &&
    exists t :: t in tasks && t.id == c.taskId && InTenant(t.tenantId, current) && AuthorIn(users, t.authorId, current)
  }

  /** ``get_comments_for_task``. */
  function CommentsForTask(comments: seq<TaskComment>, tasks: seq<Task>, users: seq<User>, taskId: nat,
                           current: Option<nat>): (r: seq<TaskComment>)
    ensures forall c :: c in r <==> c in comments && CommentOfTaskInTenant(c, tasks, users, taskId, current)
    ensures forall c :: multiset(r)[c] == if CommentOfTaskInTenant(c, tasks, users, taskId, current) then multiset(comments)[c] else 0
    ensures forall c :: c in r ==> c.taskId == taskId && current == Some(c.tenantId)
  {
    ByTaskIdOf(Filter(comments, (c: TaskComment) => CommentOfTaskInTenant(c, tasks, users, taskId, current)))
  }

  /** A comment on a not-DONE task of ``userId``, with task and comment in the current tenant. */
  predicate CommentOnActiveTask(c: TaskComment, tasks: seq<Task>, userId: nat, current: Option<nat>) {
    InTenant(c.tenantId, current) &&
    exists t :: t in tasks && t.id == c.taskId && t.authorId == userId && t.status != Done && InTenant(t.tenantId, current)
  }

  /** ``get_comments``: comments on the user's tasks that are not DONE, ordered by task id. */
  function CommentsOnActive(comments: seq<TaskComment>, tasks: seq<Task>, userId: nat, current: Option<nat>): (r: seq<TaskComment>)
    ensures forall c :: c in r <==> c in comments && CommentOnActiveTask(c, tasks, userId, current)
    ensures forall c :: multiset(r)[c] == if CommentOnActiveTask(c, tasks, userId, current) then multiset(comments)[c] else 0
    ensures forall i, j :: 0 <= i < j < |r| ==> r[i].taskId <= r[j].taskId
  {
    ByTaskIdOf(Filter(comments, (c: TaskComment) => CommentOnActiveTask(c, tasks, userId, current)))
  }

  /** ``Task.query.filter_by(id=id, tenant_id=g.get("tenant_id"))``. */
  predicate TaskInTenant(t: Task, id: nat, current: Option<nat>) {
    t.id == id && InTenant(t.tenantId, current)
  }

  /**
   * ``get_task``: the position of the task with that id in the current tenant.
   * No such task aborts with 404; with ``check_user`` a task of another author
   * aborts with 403 (and a request without user fails on ``g.user.id``).
   */
  function GetTask(tasks: seq<Task>, ctx: Context, id: nat, checkUser: bool): (r: Result<nat, Failure>)
    ensures r == Err(NotFound) <==> forall t :: t in tasks ==> !TaskInTenant(t, id, ctx.tenantId)
    ensures r.Ok? ==> r.value < |tasks| && TaskInTenant(tasks[r.value], id, ctx.tenantId)
    ensures r.Ok? && checkUser ==> ctx.user.Some? && tasks[r.value].authorId == ctx.user.value.id
    ensures r == Err(Forbidden) ==> checkUser && ctx.user.Some? &&
                                    exists t :: t in tasks && TaskInTenant(t, id, ctx.tenantId) && t.authorId != ctx.user.value.id
    ensures r == Err(ServerError) ==> checkUser && ctx.user.None?
  {
    match FirstIndex(tasks, (t: Task) => TaskInTenant(t, id, ctx.tenantId))
    case None => Err(NotFound)
    case Some(k) =>
      if !checkUser then Ok(k)
      else if ctx.user.None? then Err(ServerError)
      else if tasks[k].authorId != ctx.user.value.id then Err(Forbidden)
      else Ok(k)
  }

  /** With unique task ids, ``get_task`` finds the user's own task of the tenant, and only it. */
  lemma GetTaskFindsOwnTask(tasks: seq<Task>, ctx: Context, k: nat)
    requires TaskKeys(tasks) && k < |tasks|
    requires ctx.user.Some? && ctx.tenantId == Some(tasks[k].tenantId) && tasks[k].authorId == ctx.user.value.id
    ensures GetTask(tasks, ctx, tasks[k].id, true) == Ok(k)
  {
    var r := FirstIndex(tasks, (t: Task) => TaskInTenant(t, tasks[k].id, ctx.tenantId));
    assert r.Some?;
    assert TaskId(tasks[r.value]) == TaskId(tasks[k]);
  }

  /** The row ``get_done_task`` and ``get_status`` look for: the id, status DONE, task and author in the tenant. */
  predicate DoneTaskInTenant(t: Task, users: seq<User>, id: nat, current: Option<nat>) {
    t.id == id && t.status == Done && AuthorIn(users, t.authorId, current) && InTenant(t.tenantId, current)
  }

  /** ``get_done_task``: like ``get_task``, but a task that is not DONE is also a 404. */
  function GetDoneTask(tasks: seq<Task>, users: seq<User>, ctx: Context, id: nat, checkUser: bool): (r: Result<Task, Failure>)
    ensures r == Err(NotFound) <==> forall t :: t in tasks ==> !DoneTaskInTenant(t, users, id, ctx.tenantId)
    ensures r.Ok? ==> r.value in tasks && DoneTaskInTenant(r.value, users, id, ctx.tenantId)
    ensures r.Ok? && checkUser ==> ctx.user.Some? && r.value.authorId == ctx.user.value.id
    ensures r == Err(Forbidden) ==> checkUser && ctx.user.Some? &&
                                    exists t :: t in tasks && DoneTaskInTenant(t, users, id, ctx.tenantId) && t.authorId != ctx.user.value.id
    ensures r == Err(ServerError) ==> checkUser && ctx.user.None?
  {
    match First(tasks, (t: Task) => DoneTaskInTenant(t, users, id, ctx.tenantId))
    case None => Err(NotFound)
    case Some(t) =>
      if !checkUser then Ok(t)
      else if ctx.user.None? then Err(ServerError)
      else if t.authorId != ctx.user.value.id then Err(Forbidden)
      else Ok(t)
  }

  /** The columns ``get_status`` selects. */
  datatype StatusRow = StatusRow(id: nat, authorId: nat, status: Status, tenantId: nat)

  /** ``get_status``: the projected row of the DONE task with that id, under the same aborts as ``get_done_task``. */
  function GetStatus(tasks: seq<Task>, users: seq<User>, ctx: Context, id: nat, checkUser: bool): (r: Result<StatusRow, Failure>)
    ensures r == Err(NotFound) <==> forall t :: t in tasks ==> !DoneTaskInTenant(t, users, id, ctx.tenantId)
    ensures r.Ok? ==> r.value.id == id && r.value.status == Done && ctx.tenantId == Some(r.value.tenantId) &&
                      exists t :: t in tasks && DoneTaskInTenant(t, users, id, ctx.tenantId) && r.value.authorId == t.authorId
    ensures r.Ok? && checkUser ==> ctx.user.Some? && r.value.authorId == ctx.user.value.id
    ensures r.Err? <==> GetDoneTask(tasks, users, ctx, id, checkUser).Err?
    ensures r.Err? ==> r.error == GetDoneTask(tasks, users, ctx, id, checkUser).error
  {
    match GetDoneTask(tasks, users, ctx, id, checkUser)
    case Err(f) => Err(f)
    case Ok(t) => Ok(StatusRow(t.id, t.authorId, t.status, t.tenantId))
  }

  /**
   * ``get_timezone_setting``: the stored timezone of ``tenantId``, but only
   * when that is the request's own tenant; None otherwise.
   */
  function GetTimezoneSetting(tenants: seq<Tenant>, ctx: Context, tenantId: nat): (r: Option<string>)
    ensures ctx.tenantId != Some(tenantId) ==> r.None?
    ensures r.Some? ==> exists t :: t in tenants && t.id == tenantId && t.timezone == r.value
    ensures ctx.tenantId == Some(tenantId) && HasTenant(tenants, tenantId) ==> r.Some?
  {
    if ctx.tenantId == Some(tenantId) then
      match First(tenants, (t: Tenant) => t.id == tenantId)
      case None => None
      case Some(t) => Some(t.timezone)
    else None
  }

  /** ``TaskComment.query.filter_by(id=id, tenant_id=g.get("tenant_id"))``. */
  predicate CommentInTenant(c: TaskComment, id: nat, current: Option<nat>) {
    c.id == id && InTenant(c.tenantId, current)
  }

  /**
   * ``delete_single_comment``: deletes the first comment with that id in the
   * current tenant; when there is none the store is left as it is.
   */
  method DeleteSingleComment(db: Database, ctx: Context, id: nat)
    requires db.Valid()
    modifies db`comments
    ensures db.Valid()
    ensures (forall c :: c in old(db.comments) ==> !CommentInTenant(c, id, ctx.tenantId)) ==> db.comments == old(db.comments)
    ensures (exists c :: c in old(db.comments) && CommentInTenant(c, id, ctx.tenantId)) ==>
              exists k :: 0 <= k < |old(db.comments)| && CommentInTenant(old(db.comments)[k], id, ctx.tenantId) &&
                          db.comments == old(db.comments)[..k] + old(db.comments)[k + 1..]
  {
    var found := FirstIndex(db.comments, (c: TaskComment) => CommentInTenant(c, id, ctx.tenantId));
    if found.Some? {
      db.DeleteCommentAt(found.value);
    }
  }

  /**
   * ``set_task_overdue`` does not look at the due date, so unlike the routed
   * views it can make a task OVERDUE that has none.
   */
  lemma SetOverdueIgnoresDue(t: Task)
    requires t.dueDate.None? && t.status != Overdue
    ensures OverdueHasDue([t]) && !OverdueHasDue([t.(status := Overdue)])
  {
    assert t.(status := Overdue) in [t.(status := Overdue)];
  }

  /** ``set_task_overdue``: ``get_task`` (with its aborts), then the task's status becomes OVERDUE. */
  method SetTaskOverdue(db: Database, ctx: Context, id: nat) returns (failure: Option<Failure>)
    requires db.Valid()
    modifies db`tasks
    ensures db.Valid()
    ensures failure.Some? <==> GetTask(old(db.tasks), ctx, id, true).Err?
    ensures failure.Some? ==> failure.value == GetTask(old(db.tasks), ctx, id, true).error && db.tasks == old(db.tasks)
    ensures failure.None? ==> var k := GetTask(old(db.tasks), ctx, id, true).value;
                              db.tasks == old(db.tasks)[k := old(db.tasks)[k].(status := Overdue)]
  {
    match GetTask(db.tasks, ctx, id, true)
    case Err(f) =>
      failure := Some(f);
    case Ok(k) =>
      db.UpdateTask(k, db.tasks[k].(status := Overdue));
      failure := None;
  }

  /**
   * ``set_timezone_setting``: stores the timezone on the tenant with that id
   * and answers True, or answers False and changes nothing when there is no
   * such tenant.
   */
  method SetTimezoneSetting(db: Database, tenantId: nat, timezone: string) returns (found: bool)
    requires db.Valid()
    modifies db`tenants
    ensures db.Valid()
    ensures found <==> HasTenant(old(db.tenants), tenantId)
    ensures !found ==> db.tenants == old(db.tenants)
    ensures found ==> exists k :: 0 <= k < |old(db.tenants)| && old(db.tenants)[k].id == tenantId &&
                                  db.tenants == old(db.tenants)[k := old(db.tenants)[k].(timezone := timezone)]
  {
    var k := FirstIndex(db.tenants, (t: Tenant) => t.id == tenantId);
    if k.Some? {
      db.SetTenantTimezone(k.value, timezone);
      found := true;
    } else {
      found := false;
      assert forall t :: t in db.tenants ==> t.id != tenantId by {
        forall t | t in db.tenants ensures t.id != tenantId {
          var i :| 0 <= i < |db.tenants| && db.tenants[i] == t;
        }
      }
    }
  }
}
