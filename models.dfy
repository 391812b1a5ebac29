/**
 * The four tables of the task tracker (``Tenant``, ``User``, ``Task``,
 * ``TaskComment``), their column defaults and the constraints the schema
 * declares: primary keys, unique names, non-null tenant ids, foreign keys and
 * the comment-to-task ``ON DELETE CASCADE``.
 */
module Models {
  import opened Wrappers
  import opened Sequences

  /** A calendar day number; ``created`` and ``due_date`` are date-granular. */
  type Day = int

  /** The ``status`` column: "ACTIVE", "OVERDUE" or "DONE". */
  datatype Status = Active | Overdue | Done

  datatype Tenant = Tenant(id: nat, name: string, timezone: string)

  datatype User = User(id: nat, tenantId: nat, username: string, password: string)

  datatype Task = Task(id: nat, tenantId: nat, created: Day, dueDate: Option<Day>, title: string,
                       status: Status, body: Option<string>, authorId: nat)

  datatype TaskComment = TaskComment(id: nat, tenantId: nat, taskId: nat, created: Day, content: string)

  /** Default of ``Tenant.timezone``. */
  const DefaultTimezone: string := "UTC"

  /** A ``Tenant(...)`` row as the constructor builds it; an omitted timezone takes the column default. */
  function NewTenant(id: nat, name: string, timezone: Option<string>): (t: Tenant)
    ensures t.id == id && t.name == name
    ensures timezone.None? ==> t.timezone == "UTC"
    ensures timezone.Some? ==> t.timezone == timezone.value
  {
    Tenant(id, name, if timezone.Some? then timezone.value else DefaultTimezone)
  }

  /**
   * A ``Task(...)`` row as the constructor builds it: the status defaults to
   * ACTIVE, and due date and body stay empty unless given.
   */
  function NewTask(id: nat, tenantId: nat, authorId: nat, created: Day, title: string,
                   dueDate: Option<Day>, status: Option<Status>, body: Option<string>): (t: Task)
    ensures t.id == id && t.tenantId == tenantId && t.authorId == authorId && t.created == created && t.title == title
    ensures status.None? ==> t.status == Active
    ensures status.Some? ==> t.status == status.value
    ensures t.dueDate == dueDate && t.body == body
  {
    Task(id, tenantId, created, dueDate, title, if status.Some? then status.value else Active, body, authorId)
  }

  // ---- Table constraints ----

  function TenantId(t: Tenant): nat { t.id }
  function TenantName(t: Tenant): string { t.name }
  function UserId(u: User): nat { u.id }
  function Username(u: User): string { u.username }
  function TaskId(t: Task): nat { t.id }
  function CommentId(c: TaskComment): nat { c.id }

  predicate TenantKeys(ts: seq<Tenant>) {
    DistinctBy(ts, TenantId) && DistinctBy(ts, TenantName)
  }

  predicate UserKeys(us: seq<User>) {
    DistinctBy(us, UserId) && DistinctBy(us, Username)
  }

  predicate TaskKeys(ts: seq<Task>) {
    DistinctBy(ts, TaskId)
  }

  predicate CommentKeys(cs: seq<TaskComment>) {
    DistinctBy(cs, CommentId)
  }

  predicate HasTenant(ts: seq<Tenant>, id: nat) {
    exists t :: t in ts && t.id == id
  }

  predicate HasUserIn(us: seq<User>, id: nat, tenantId: nat) {
    exists u :: u in us && u.id == id && u.tenantId == tenantId
  }

  predicate HasTaskIn(ts: seq<Task>, id: nat, tenantId: nat) {
    exists t :: t in ts && t.id == id && t.tenantId == tenantId
  }

  /**
   * The constraints every reachable state keeps: unique keys (tenant names and
   * usernames are unique across the whole store, not per tenant), every user
   * belongs to an existing tenant, every task's tenant exists and its author is
   * a user of that same tenant, and every comment hangs off an existing task of
   * its own tenant (no orphans).
   */
  predicate Consistent(tenants: seq<Tenant>, users: seq<User>, tasks: seq<Task>, comments: seq<TaskComment>) {
    TenantKeys(tenants) && UserKeys(users) && TaskKeys(tasks) && CommentKeys(comments) &&
    (forall u :: u in users ==> HasTenant(tenants, u.tenantId)) &&
    (forall t :: t in tasks ==> HasTenant(tenants, t.tenantId) && HasUserIn(users, t.authorId, t.tenantId)) &&
    (forall c :: c in comments ==> HasTaskIn(tasks, c.taskId, c.tenantId))
  }

  /** The status lifecycle's invariant: a task is OVERDUE only when it has a due date. */
  predicate OverdueHasDue(tasks: seq<Task>) {
    forall t :: t in tasks && t.status == Overdue ==> t.dueDate.Some?
  }

  /** A username picks out at most one user in the whole store, whatever the tenant. */
  lemma UsernameIsGlobal(users: seq<User>, a: User, b: User)
    requires UserKeys(users) && a in users && b in users
    requires a.username == b.username
    ensures a == b
  {
    var i :| 0 <= i < |users| && users[i] == a;
    var j :| 0 <= j < |users| && users[j] == b;
  }

  /** In a consistent store every comment's tenant is the tenant of its task and of that task's author. */
  lemma CommentTenantChain(tenants: seq<Tenant>, users: seq<User>, tasks: seq<Task>, comments: seq<TaskComment>,
                           c: TaskComment)
    requires Consistent(tenants, users, tasks, comments) && c in comments
    ensures exists t :: t in tasks && t.id == c.taskId && t.tenantId == c.tenantId &&
                        HasUserIn(users, t.authorId, c.tenantId) && HasTenant(tenants, c.tenantId)
  {
    var t :| t in tasks && t.id == c.taskId && t.tenantId == c.tenantId;
    assert HasUserIn(users, t.authorId, t.tenantId);
  }

  /** Rows kept when the task with key ``id`` is deleted. */
  function OtherThanTask(id: nat): Task -> bool {
    (t: Task) => t.id != id
  }

  /** Comments kept by the ``ON DELETE CASCADE`` of task ``id``: those of other tasks. */
  function NotOnTask(id: nat): TaskComment -> bool {
    (c: TaskComment) => c.taskId != id
  }

  /**
   * Deleting a task together with its comments keeps the store consistent:
   * keys stay unique and every remaining comment still has its task.
   */
  lemma CascadeKeepsConsistent(tenants: seq<Tenant>, users: seq<User>, tasks: seq<Task>, comments: seq<TaskComment>, id: nat)
    requires Consistent(tenants, users, tasks, comments)
    ensures Consistent(tenants, users, Filter(tasks, OtherThanTask(id)), Filter(comments, NotOnTask(id)))
  {
    var tasks' := Filter(tasks, OtherThanTask(id));
    FilterDistinct(tasks, OtherThanTask(id), TaskId);
    FilterDistinct(comments, NotOnTask(id), CommentId);
    forall c | c in Filter(comments, NotOnTask(id)) ensures HasTaskIn(tasks', c.taskId, c.tenantId) {
      var x :| x in tasks && x.id == c.taskId && x.tenantId == c.tenantId;
      assert x in tasks';
    }
  }

  function OnTask(id: nat): TaskComment -> bool {
    (c: TaskComment) => c.taskId == id
  }

  /**
   * The cascade removes exactly the comments of the deleted task: every other
   * comment stays, with its multiplicity, and nothing but those comments goes.
   */
  lemma CascadeRemovesExactly(comments: seq<TaskComment>, id: nat)
    ensures forall c :: c in Filter(comments, NotOnTask(id)) <==> c in comments && c.taskId != id
    ensures multiset(Filter(comments, NotOnTask(id))) + multiset(Filter(comments, OnTask(id))) == multiset(comments)
  {
    FilterSplits(comments, NotOnTask(id), OnTask(id));
  }

  /**
   * The database: one sequence per table in insertion order, plus the next
   * value of each autoincrement primary key.
   */
  class Database {
    var tenants: seq<Tenant>
    var users: seq<User>
    var tasks: seq<Task>
    var comments: seq<TaskComment>
    var nextTenantId: nat
    var nextUserId: nat
    var nextTaskId: nat
    var nextCommentId: nat

    ghost predicate Valid()
      reads this
    {
      Consistent(tenants, users, tasks, comments) &&
      (forall t :: t in tenants ==> t.id < nextTenantId) &&
      (forall u :: u in users ==> u.id < nextUserId) &&
      (forall t :: t in tasks ==> t.id < nextTaskId) &&
      (forall c :: c in comments ==> c.id < nextCommentId)
    }

    constructor ()
      ensures Valid()
      ensures tenants == [] && users == [] && tasks == [] && comments == []
    {
      tenants, users, tasks, comments := [], [], [], [];
      nextTenantId, nextUserId, nextTaskId, nextCommentId := 1, 1, 1, 1;
    }

    /**
     * ``db.session.add(Tenant(...))``: the new row gets the next tenant id, and
     * the column default "UTC" when no timezone is given.
     */
    method AddTenant(name: string, timezone: Option<string>) returns (id: nat)
      requires Valid()
      requires forall t :: t in tenants ==> t.name != name
      modifies this`tenants, this`nextTenantId
      ensures Valid()
      ensures id == old(nextTenantId) && nextTenantId == id + 1
      ensures tenants == old(tenants) + [NewTenant(id, name, timezone)]
      ensures timezone.None? ==> tenants[|tenants| - 1].timezone == "UTC"
    {
      id := nextTenantId;
      tenants := tenants + [NewTenant(id, name, timezone)];
      nextTenantId := nextTenantId + 1;
      assert forall t :: t in old(tenants) ==> t in tenants;
    }

    /** ``db.session.add(User(...))`` for a user of an existing tenant. */
    method AddUser(tenantId: nat, username: string, password: string) returns (id: nat)
      requires Valid()
      requires HasTenant(tenants, tenantId)
      requires forall u :: u in users ==> u.username != username
      modifies this`users, this`nextUserId
      ensures Valid()
      ensures id == old(nextUserId) && nextUserId == id + 1
      ensures users == old(users) + [User(id, tenantId, username, password)]
    {
      id := nextUserId;
      users := users + [User(id, tenantId, username, password)];
      nextUserId := nextUserId + 1;
      assert forall u :: u in old(users) ==> u in users;
    }

    /** ``db.session.add(Task(...))``: the task's author must be a user of the task's tenant. */
    method AddTask(t: Task) returns (id: nat)
      requires Valid()
      requires HasTenant(tenants, t.tenantId) && HasUserIn(users, t.authorId, t.tenantId)
      modifies this`tasks, this`nextTaskId
      ensures Valid()
      ensures id == old(nextTaskId) && nextTaskId == id + 1
      ensures tasks == old(tasks) + [t.(id := id)]
    {
      id := nextTaskId;
      tasks := tasks + [t.(id := id)];
      nextTaskId := nextTaskId + 1;
      assert forall x :: x in old(tasks) ==> x in tasks;
    }

    /** ``db.session.add(TaskComment(...))`` on an existing task of the same tenant. */
    method AddComment(c: TaskComment) returns (id: nat)
      requires Valid()
      requires HasTaskIn(tasks, c.taskId, c.tenantId)
      modifies this`comments, this`nextCommentId
      ensures Valid()
      ensures id == old(nextCommentId) && nextCommentId == id + 1
      ensures comments == old(comments) + [c.(id := id)]
    {
      id := nextCommentId;
      comments := comments + [c.(id := id)];
      nextCommentId := nextCommentId + 1;
      assert forall x :: x in old(comments) ==> x in comments;
    }

    /**
     * Assignment to the mapped attributes of the task at position ``k``
     * (``task.title = ...``, ``task.status = ...``); its key, tenant and
     * author stay as they are.
     */
    method UpdateTask(k: nat, t: Task)
      requires Valid() && k < |tasks|
      requires t.id == tasks[k].id && t.tenantId == tasks[k].tenantId && t.authorId == tasks[k].authorId
      modifies this`tasks
      ensures Valid()
      ensures tasks == old(tasks)[k := t]
    {
      ghost var before := tasks;
      tasks := tasks[k := t];
      forall i, j | 0 <= i < |tasks| && 0 <= j < |tasks| && i != j ensures TaskId(tasks[i]) != TaskId(tasks[j]) {
        assert TaskId(tasks[i]) == TaskId(before[i]) && TaskId(tasks[j]) == TaskId(before[j]);
      }
      forall x | x in tasks ensures HasTenant(tenants, x.tenantId) && HasUserIn(users, x.authorId, x.tenantId) {
        var i :| 0 <= i < |tasks| && tasks[i] == x;
        assert before[i] in before;
      }
      forall c | c in comments ensures HasTaskIn(tasks, c.taskId, c.tenantId) {
        var x :| x in before && x.id == c.taskId && x.tenantId == c.tenantId;
        var i :| 0 <= i < |before| && before[i] == x;
        assert tasks[i] in tasks;
      }
    }

    /**
     * ``db.session.delete(task)`` for the task with key ``id``; the
     * ``ON DELETE CASCADE`` foreign key of ``TaskComment.task_id`` removes the
     * comments of that task with it.
     */
    method DeleteTask(id: nat)
      requires Valid()
      modifies this`tasks, this`comments
      ensures Valid()
      ensures tasks == Filter(old(tasks), OtherThanTask(id))
      ensures comments == Filter(old(comments), NotOnTask(id))
    {
      CascadeKeepsConsistent(tenants, users, tasks, comments, id);
      tasks := Filter(tasks, OtherThanTask(id));
      comments := Filter(comments, NotOnTask(id));
    }

    /** ``db.session.delete(comment)`` for the comment at position ``k``. */
    method DeleteCommentAt(k: nat)
      requires Valid() && k < |comments|
      modifies this`comments
      ensures Valid()
      ensures comments == old(comments)[..k] + old(comments)[k + 1..]
    {
      RemoveAtDistinct(comments, k, CommentId);
      comments := comments[..k] + comments[k + 1..];
    }

    /** ``tenant.timezone = timezone`` for the tenant at position ``k``. */
    method SetTenantTimezone(k: nat, timezone: string)
      requires Valid() && k < |tenants|
      modifies this`tenants
      ensures Valid()
      ensures tenants == old(tenants)[k := old(tenants)[k].(timezone := timezone)]
    {
      tenants := tenants[k := tenants[k].(timezone := timezone)];
      forall x | x in old(tenants) ensures exists y :: y in tenants && y.id == x.id {
        var i :| 0 <= i < |old(tenants)| && old(tenants)[i] == x;
        assert tenants[i] in tenants;
      }
    }
  }
}
