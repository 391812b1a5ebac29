/**
 * ``landing.py``: the task views. Each view that is behind ``login_required``
 * first runs the gate on the request context built from the session.
 */
module Landing {
  import opened Wrappers
  import opened Sequences
  import opened Models
  import opened Requests
  import opened Queries
  import opened Timezones
  import opened Auth

  /** The ``due_date`` form field after ``datetime.strptime(due_date, "%Y-%m-%d")``. */
  datatype DateField = Blank | Malformed | OnDay(day: Day)

  const DateFormatError: string := "Invalid due date format. Please use YYYY-MM-DD."
  const TitleRequired: string := "Title is required."
  const CommentRequired: string := "Comment is required."
  const NoSuchTask: string := "Cannot delete comment as task does not exist."
  const NoSuchComment: string := "Cannot delete comment as comment does not exist."

  /** The status a due date gives a task created or edited on ``today``: OVERDUE when it is on or before today. */
  function StatusForDue(due: DateField, today: Day): (s: Status)
    ensures s == Overdue <==> due.OnDay? && due.day <= today
    ensures s == Active <==> !(due.OnDay? && due.day <= today)
  {
    if due.OnDay? && due.day <= today then Overdue else Active
  }

  /** ``None`` for an empty form field. */
  function NonEmpty(s: string): (r: Option<string>)
    ensures r.None? <==> s == ""
    ensures r.Some? ==> r.value == s
  {
    if s == "" then None else Some(s)
  }

  /**
   * ``create`` (POST). ``today`` is ``date.today()`` and ``now`` the UTC day
   * stored as ``created``. A malformed date and an empty title each set the
   * message, the title check last; with a message nothing is inserted.
   * Otherwise exactly one task is added for the current user and tenant.
   */
  method Create(db: Database, session: Session, title: string, due: DateField, body: string, today: Day, now: Day)
    returns (resp: Response)
    requires db.Valid()
    modifies db`tasks, db`nextTaskId
    ensures db.Valid()
    ensures OverdueHasDue(old(db.tasks)) ==> OverdueHasDue(db.tasks)
    ensures db.nextTaskId == old(db.nextTaskId) + |db.tasks| - |old(db.tasks)|
    ensures var ctx := CurrentContext(session, old(db.users));
            LoginRequired(ctx).Deny? ==> resp == LoginRequired(ctx).response && db.tasks == old(db.tasks)
    ensures var ctx := CurrentContext(session, old(db.users));
            LoginRequired(ctx) == Proceed && title == "" ==> resp == Render(CreatePage, [TitleRequired]) && db.tasks == old(db.tasks)
    ensures var ctx := CurrentContext(session, old(db.users));
            LoginRequired(ctx) == Proceed && title != "" && due.Malformed? ==>
              resp == Render(CreatePage, [DateFormatError]) && db.tasks == old(db.tasks)
    ensures var ctx := CurrentContext(session, old(db.users));
            LoginRequired(ctx) == Proceed && title != "" && !due.Malformed? ==>
              resp == Redirect(IndexPage, []) &&
              db.tasks == old(db.tasks) + [Task(old(db.nextTaskId), ctx.tenantId.value, now,
                                                if due.OnDay? then Some(due.day) else None, title,
                                                StatusForDue(due, today), NonEmpty(body), ctx.user.value.id)]
  {
    var ctx := CurrentContext(session, db.users);
    var gate := LoginRequired(ctx);
    if gate.Deny? {
      return gate.response;
    }
    var user := ctx.user.value;
    var tenantId := ctx.tenantId.value;
    var error: Option<string> := None;
    var status := Active;
    if due != Blank {
      if due.Malformed? {
        error := Some(DateFormatError);
      } else if due.day <= today {
        status := Overdue;
      }
    }
    if title == "" {
      error := Some(TitleRequired);
    }
    if error.Some? {
      return Render(CreatePage, [error.value]);
    }
    assert HasUserIn(db.users, user.id, tenantId);
    var task: Task;
    if due == Blank && body == "" {
      task := NewTask(0, tenantId, user.id, now, title, None, None, None);
    } else if due == Blank && body != "" {
      task := NewTask(0, tenantId, user.id, now, title, None, None, Some(body));
    } else if due != Blank && body == "" {
      task := NewTask(0, tenantId, user.id, now, title, Some(due.day), Some(status), None);
    } else {
      task := NewTask(0, tenantId, user.id, now, title, Some(due.day), Some(status), Some(body));
    }
    var _ := db.AddTask(task);
    resp := Redirect(IndexPage, []);
  }

  /** The row filter of the task list in ``done``: joined author, current user, DONE, current tenant (no author-tenant filter). */
  predicate ListedAsDone(t: Task, users: seq<User>, userId: nat, current: Option<nat>) {
    (exists u :: u in users && u.id == t.authorId) && t.authorId == userId && t.status == Done && InTenant(t.tenantId, current)
  }

  /**
   * The task query of ``done``. Without a user, ``g.user.id`` raises an
   * ``AttributeError`` the view does not catch.
   */
  function DoneListing(tasks: seq<Task>, users: seq<User>, ctx: Context): (r: Result<seq<Task>, Failure>)
    ensures ctx.user.None? <==> r == Err(ServerError)
    ensures r.Ok? ==> forall t :: t in r.value <==> t in tasks && ListedAsDone(t, users, ctx.user.value.id, ctx.tenantId)
    ensures r.Ok? ==> forall t :: multiset(r.value)[t] ==
                                  if ListedAsDone(t, users, ctx.user.value.id, ctx.tenantId) then multiset(tasks)[t] else 0
    ensures r.Ok? ==> forall i, j :: 0 <= i < j < |r.value| ==> r.value[i].created >= r.value[j].created
  {
    if ctx.user.None? then Err(ServerError)
    else
      var userId := ctx.user.value.id;
      Ok(NewestFirstOf(Filter(tasks, (t: Task) => ListedAsDone(t, users, userId, ctx.tenantId))))
  }

  /**
   * Although ``done`` leaves out the author-tenant filter of
   * ``get_done_tasks``, in a consistent store both list the same tasks, both
   * newest first.
   */
  lemma DoneListingAgrees(tenants: seq<Tenant>, users: seq<User>, tasks: seq<Task>, comments: seq<TaskComment>, ctx: Context)
    requires Consistent(tenants, users, tasks, comments)
    requires ctx.user.Some?
    ensures DoneListing(tasks, users, ctx).Ok?
    ensures forall t :: t in DoneListing(tasks, users, ctx).value <==> t in DoneTasks(tasks, users, ctx.user.value.id, ctx.tenantId)
  {
    var userId := ctx.user.value.id;
    forall t | t in tasks ensures ListedAsDone(t, users, userId, ctx.tenantId) <==> Owned(t, users, userId, ctx.tenantId) && t.status == Done {
      assert HasUserIn(users, t.authorId, t.tenantId);
      var u :| u in users && u.id == t.authorId && u.tenantId == t.tenantId;
    }
  }

  /** The comment filter of ``done``: comments on the user's DONE tasks, with task, author and comment in the tenant. */
  predicate CommentOnDoneTask(c: TaskComment, tasks: seq<Task>, users: seq<User>, userId: nat, current: Option<nat>) {
    InTenant(c.tenantId, current) &&
    exists t :: t in tasks && t.id == c.taskId && t.authorId == userId && t.status == Done &&
                InTenant(t.tenantId, current) && AuthorIn(users, t.authorId, current)
  }

  /** The comment query of ``done``, ordered by task id. */
  function DoneComments(comments: seq<TaskComment>, tasks: seq<Task>, users: seq<User>, ctx: Context): (r: Result<seq<TaskComment>, Failure>)
    ensures ctx.user.None? <==> r == Err(ServerError)
    ensures r.Ok? ==> forall c :: c in r.value <==> c in comments && CommentOnDoneTask(c, tasks, users, ctx.user.value.id, ctx.tenantId)
    ensures r.Ok? ==> forall c :: multiset(r.value)[c] ==
                                  if CommentOnDoneTask(c, tasks, users, ctx.user.value.id, ctx.tenantId) then multiset(comments)[c] else 0
    ensures r.Ok? ==> forall i, j :: 0 <= i < j < |r.value| ==> r.value[i].taskId <= r.value[j].taskId
  {
    if ctx.user.None? then Err(ServerError)
    else
      var userId := ctx.user.value.id;
      Ok(ByTaskIdOf(Filter(comments, (c: TaskComment) => CommentOnDoneTask(c, tasks, users, userId, ctx.tenantId))))
  }

  /** ``load_view`` for an open task, ``load_doneview`` for a DONE one. */
  function ViewOf(t: Task, id: nat, flashes: seq<string>): Response {
    if t.status != Done then Render(TaskView(id), flashes) else Render(DoneTaskView(id), flashes)
  }

  /**
   * ``add_comment``: ``get_task`` first (its aborts apply); an empty comment
   * adds nothing, any other adds exactly one comment on task ``id`` in the
   * current tenant.
   */
  method AddComment(db: Database, session: Session, id: nat, content: string, now: Day) returns (resp: Response)
    requires db.Valid()
    modifies db`comments, db`nextCommentId
    ensures db.Valid()
    ensures db.nextCommentId == old(db.nextCommentId) + |db.comments| - |old(db.comments)|
    ensures var ctx := CurrentContext(session, old(db.users));
            LoginRequired(ctx).Deny? ==> resp == LoginRequired(ctx).response && db.comments == old(db.comments)
    ensures var ctx := CurrentContext(session, old(db.users));
            LoginRequired(ctx) == Proceed && GetTask(old(db.tasks), ctx, id, true).Err? ==>
              resp == Abort(Code(GetTask(old(db.tasks), ctx, id, true).error)) && db.comments == old(db.comments)
    ensures var ctx := CurrentContext(session, old(db.users));
            LoginRequired(ctx) == Proceed && GetTask(old(db.tasks), ctx, id, true).Ok? ==>
              var task := old(db.tasks)[GetTask(old(db.tasks), ctx, id, true).value];
              (content == "" ==> resp == ViewOf(task, id, [CommentRequired]) && db.comments == old(db.comments)) &&
              (content != "" ==> resp == ViewOf(task, id, []) &&
                                 db.comments == old(db.comments) + [TaskComment(old(db.nextCommentId), ctx.tenantId.value, id, now, content)])
  {
    var ctx := CurrentContext(session, db.users);
    var gate := LoginRequired(ctx);
    if gate.Deny? {
      return gate.response;
    }
    var found := GetTask(db.tasks, ctx, id, true);
    if found.Err? {
      return Abort(Code(found.error));
    }
    var task := db.tasks[found.value];
    var error: Option<string> := None;
    var tenantId := ctx.tenantId.value;
    if content == "" {
      error := Some(CommentRequired);
    }
    if error.Some? {
      resp := ViewOf(task, id, [error.value]);
    } else {
      assert task in db.tasks;
      var _ := db.AddComment(TaskComment(0, tenantId, id, now, content));
      resp := ViewOf(task, id, []);
    }
  }

  predicate TaskExists(tasks: seq<Task>, id: nat) {
    exists t :: t in tasks && t.id == id
  }

  predicate CommentExists(comments: seq<TaskComment>, id: nat) {
    exists c :: c in comments && c.id == id
  }

  /**
   * ``delete_comment``: the two existence checks look in every tenant, the
   * second overwriting the first; the deletion itself is tenant-scoped
   * (``delete_single_comment``). ``get_task`` on the task runs only after the
   * deletion, so its abort does not undo it.
   */
  method DeleteComment(db: Database, session: Session, id: nat, taskId: nat) returns (resp: Response)
    requires db.Valid()
    modifies db`comments
    ensures db.Valid()
    ensures var ctx := CurrentContext(session, old(db.users));
            LoginRequired(ctx).Deny? ==> resp == LoginRequired(ctx).response && db.comments == old(db.comments)
    ensures var ctx := CurrentContext(session, old(db.users));
            LoginRequired(ctx) == Proceed && !CommentExists(old(db.comments), id) ==> db.comments == old(db.comments)
    ensures var ctx := CurrentContext(session, old(db.users));
            LoginRequired(ctx) == Proceed ==>
              ((forall c :: c in old(db.comments) ==> !CommentInTenant(c, id, ctx.tenantId)) ==> db.comments == old(db.comments)) &&
              ((exists c :: c in old(db.comments) && CommentInTenant(c, id, ctx.tenantId)) ==>
                 exists k :: 0 <= k < |old(db.comments)| && CommentInTenant(old(db.comments)[k], id, ctx.tenantId) &&
                             db.comments == old(db.comments)[..k] + old(db.comments)[k + 1..])
    ensures var ctx := CurrentContext(session, old(db.users));
            var flashes := if !CommentExists(old(db.comments), id) then [NoSuchComment]
                           else if !TaskExists(old(db.tasks), taskId) then [NoSuchTask] else [];
            LoginRequired(ctx) == Proceed ==>
              match GetTask(old(db.tasks), ctx, taskId, true)
              case Err(f) => resp == Abort(Code(f))
              case Ok(k) => resp == ViewOf(old(db.tasks)[k], taskId, flashes)
  {
    var ctx := CurrentContext(session, db.users);
    var gate := LoginRequired(ctx);
    if gate.Deny? {
      return gate.response;
    }
    var error: Option<string> := None;
    if First(db.tasks, (t: Task) => t.id == taskId).None? {
      error := Some(NoSuchTask);
    }
    if First(db.comments, (c: TaskComment) => c.id == id).None? {
      error := Some(NoSuchComment);
    } else {
      DeleteSingleComment(db, ctx, id);
    }
    var flashes := if error.Some? then [error.value] else [];
    var received := GetTask(db.tasks, ctx, taskId, true);
    if received.Err? {
      return Abort(Code(received.error));
    }
    resp := ViewOf(db.tasks[received.value], taskId, flashes);
  }

  /** ``move_done``: ``get_task`` (with its aborts), then the task's status becomes DONE and nothing else changes. */
  method MoveDone(db: Database, session: Session, id: nat) returns (resp: Response)
    requires db.Valid()
    modifies db`tasks
    ensures db.Valid()
    ensures OverdueHasDue(old(db.tasks)) ==> OverdueHasDue(db.tasks)
    ensures var ctx := CurrentContext(session, db.users);
            LoginRequired(ctx).Deny? ==> resp == LoginRequired(ctx).response && db.tasks == old(db.tasks)
    ensures var ctx := CurrentContext(session, db.users);
            LoginRequired(ctx) == Proceed && GetTask(old(db.tasks), ctx, id, true).Err? ==>
              resp == Abort(Code(GetTask(old(db.tasks), ctx, id, true).error)) && db.tasks == old(db.tasks)
    ensures var ctx := CurrentContext(session, db.users);
            LoginRequired(ctx) == Proceed && GetTask(old(db.tasks), ctx, id, true).Ok? ==>
              var k := GetTask(old(db.tasks), ctx, id, true).value;
              resp == Redirect(IndexPage, []) && db.tasks == old(db.tasks)[k := old(db.tasks)[k].(status := Done)]
  {
    var ctx := CurrentContext(session, db.users);
    var gate := LoginRequired(ctx);
    if gate.Deny? {
      return gate.response;
    }
    var found := GetTask(db.tasks, ctx, id, true);
    if found.Err? {
      return Abort(Code(found.error));
    }
    var k := found.value;
    db.UpdateTask(k, db.tasks[k].(status := Done));
    resp := Redirect(IndexPage, []);
  }

  /** The task ``update_task`` commits: new title, body only when non-empty, the new due date, status recomputed. */
  function Edited(t: Task, title: string, due: DateField, body: string, today: Day): (r: Task)
    requires !due.Malformed?
    ensures r.id == t.id && r.tenantId == t.tenantId && r.authorId == t.authorId && r.created == t.created
    ensures r.title == title
    ensures r.body == if body != "" then Some(body) else t.body
    ensures r.dueDate == if due.OnDay? then Some(due.day) else None
    ensures r.status == StatusForDue(due, today) && r.status != Done
    ensures r.status == Overdue ==> r.dueDate.Some? && r.dueDate.value <= today
  {
    t.(title := title,
       body := if body != "" then Some(body) else t.body,
       dueDate := if due.OnDay? then Some(due.day) else None,
       status := StatusForDue(due, today))
  }

  /**
   * ``update_task`` (POST). ``get_task`` first (its aborts apply). An empty
   * title renders the edit page and commits nothing. Otherwise a malformed
   * date is an uncaught ``ValueError`` (HTTP 500, nothing committed), and a
   * well-formed or empty one commits ``Edited``.
   */
  method UpdateTask(db: Database, session: Session, id: nat, title: string, due: DateField, body: string, today: Day)
    returns (resp: Response)
    requires db.Valid()
    modifies db`tasks
    ensures db.Valid()
    ensures OverdueHasDue(old(db.tasks)) ==> OverdueHasDue(db.tasks)
    ensures var ctx := CurrentContext(session, db.users);
            LoginRequired(ctx).Deny? ==> resp == LoginRequired(ctx).response && db.tasks == old(db.tasks)
    ensures var ctx := CurrentContext(session, db.users);
            LoginRequired(ctx) == Proceed && GetTask(old(db.tasks), ctx, id, true).Err? ==>
              resp == Abort(Code(GetTask(old(db.tasks), ctx, id, true).error)) && db.tasks == old(db.tasks)
    ensures var ctx := CurrentContext(session, db.users);
            LoginRequired(ctx) == Proceed && GetTask(old(db.tasks), ctx, id, true).Ok? ==>
              var k := GetTask(old(db.tasks), ctx, id, true).value;
              (title == "" ==> resp == Render(EditPage(id), [TitleRequired]) && db.tasks == old(db.tasks)) &&
              (title != "" && due.Malformed? ==> resp == Abort(500) && db.tasks == old(db.tasks)) &&
              (title != "" && !due.Malformed? ==>
                 resp == Render(TaskView(id), []) && db.tasks == old(db.tasks)[k := Edited(old(db.tasks)[k], title, due, body, today)])
  {
    var ctx := CurrentContext(session, db.users);
    var gate := LoginRequired(ctx);
    if gate.Deny? {
      return gate.response;
    }
    var found := GetTask(db.tasks, ctx, id, true);
    if found.Err? {
      return Abort(Code(found.error));
    }
    var k := found.value;
    var task := db.tasks[k];
    var error: Option<string> := None;
    if title == "" {
      error := Some(TitleRequired);
    } else {
      task := task.(title := title);
    }
    if body != "" {
      task := task.(body := Some(body));
    }
    if error.Some? {
      // The attribute changes are never committed.
      return Render(EditPage(id), [error.value]);
    }
    var status := Active;
    if due != Blank {
      if due.Malformed? {
        return Abort(500);
      }
      task := task.(dueDate := Some(due.day));
      if due.day <= today {
        status := Overdue;
      }
    } else {
      task := task.(dueDate := None);
    }
    task := task.(status := status);
    db.UpdateTask(k, task);
    resp := Render(TaskView(id), []);
  }

  /**
   * ``delete``: ``get_task`` (with its aborts), then the task is deleted
   * whatever its status and its comments go with it. The view then redirects
   * to the index for an ACTIVE or OVERDUE task and to the done list otherwise.
   */
  method Delete(db: Database, session: Session, id: nat) returns (resp: Response)
    requires db.Valid()
    modifies db`tasks, db`comments
    ensures db.Valid()
    ensures OverdueHasDue(old(db.tasks)) ==> OverdueHasDue(db.tasks)
    ensures var ctx := CurrentContext(session, db.users);
            LoginRequired(ctx).Deny? || GetTask(old(db.tasks), ctx, id, true).Err? ==>
              db.tasks == old(db.tasks) && db.comments == old(db.comments)
    ensures var ctx := CurrentContext(session, db.users);
            LoginRequired(ctx).Deny? ==> resp == LoginRequired(ctx).response
    ensures var ctx := CurrentContext(session, db.users);
            LoginRequired(ctx) == Proceed && GetTask(old(db.tasks), ctx, id, true).Err? ==>
              resp == Abort(Code(GetTask(old(db.tasks), ctx, id, true).error))
    ensures var ctx := CurrentContext(session, db.users);
            LoginRequired(ctx) == Proceed && GetTask(old(db.tasks), ctx, id, true).Ok? ==>
              var task := old(db.tasks)[GetTask(old(db.tasks), ctx, id, true).value];
              db.tasks == Filter(old(db.tasks), OtherThanTask(id)) &&
              db.comments == Filter(old(db.comments), NotOnTask(id)) &&
              resp == Redirect(if task.status == Active || task.status == Overdue then IndexPage else DonePage, [])
  {
    var ctx := CurrentContext(session, db.users);
    var gate := LoginRequired(ctx);
    if gate.Deny? {
      return gate.response;
    }
    var found := GetTask(db.tasks, ctx, id, true);
    if found.Err? {
      return Abort(Code(found.error));
    }
    var task := db.tasks[found.value];
    db.DeleteTask(id);
    if task.status == Active || task.status == Overdue {
      resp := Redirect(IndexPage, []);
    } else {
      resp := Redirect(DonePage, []);
    }
  }

  /**
   * The selection loop of ``show_settings``: every key containing the stored
   * timezone overwrites the selection, so the last such key wins.
   */
  method SelectedZone(current: string) returns (selected: Option<string>)
    ensures selected == LastContaining(current, |Table|)
    ensures selected.Some? ==> IsKey(selected.value) && Occurs(current, selected.value)
    ensures IsKey(current) ==> selected == Some(current)
  {
    selected := None;
    var i := 0;
    while i < |Table|
      invariant 0 <= i <= |Table|
      invariant selected == LastContaining(current, i)
    {
      if Occurs(current, Table[i].0) {
        selected := Some(Table[i].0);
      }
      i := i + 1;
    }
    if IsKey(current) {
      LastContainingKey(current);
    }
  }

  /**
   * ``show_settings`` (not behind ``login_required``). Without a user the
   * handler's own ``except`` branch fails on ``g.user`` (HTTP 500). A missing
   * timezone or one no key contains raises inside the ``try`` and the page is
   * shown without a selection.
   */
  method ShowSettings(db: Database, session: Session) returns (resp: Response, selected: Option<string>)
    ensures var ctx := CurrentContext(session, db.users);
            ctx.user.None? ==> resp == Abort(500) && selected.None?
    ensures var ctx := CurrentContext(session, db.users);
            ctx.user.Some? ==>
              resp == Render(SettingsPage, []) &&
              var current := GetTimezoneSetting(db.tenants, ctx, ctx.user.value.tenantId);
              selected == if current.None? then None else LastContaining(current.value, |Table|)
    ensures selected.Some? ==> IsKey(selected.value)
  {
    var ctx := CurrentContext(session, db.users);
    if ctx.user.None? {
      return Abort(500), None;
    }
    var current := GetTimezoneSetting(db.tenants, ctx, ctx.user.value.tenantId);
    selected := None;
    if current.Some? {
      selected := SelectedZone(current.value);
    }
    resp := Render(SettingsPage, []);
  }

  /**
   * ``save_settings``: a table key is stored, as ``get_gmt`` of itself, on
   * the user's tenant and in the session; anything else changes nothing, and
   * its redirect names an endpoint that does not exist, which fails with
   * HTTP 500.
   */
  method SaveSettings(db: Database, session: Session, zone: Option<string>) returns (resp: Response, newSession: Session)
    requires db.Valid()
    modifies db`tenants
    ensures db.Valid()
    ensures var ctx := CurrentContext(session, db.users);
            LoginRequired(ctx).Deny? ==> resp == LoginRequired(ctx).response && db.tenants == old(db.tenants) && newSession == session
    ensures var ctx := CurrentContext(session, db.users);
            LoginRequired(ctx) == Proceed && (zone.None? || !IsKey(zone.value)) ==>
              resp == Abort(500) && db.tenants == old(db.tenants) && newSession == session
    ensures var ctx := CurrentContext(session, db.users);
            LoginRequired(ctx) == Proceed && zone.Some? && IsKey(zone.value) ==>
              GetGmt(zone.value) == Some(zone.value) &&
              resp == Redirect(SettingsPage, ["Timezone has been set to " + zone.value]) &&
              newSession == session.(timezone := Some(zone.value)) &&
              exists k :: 0 <= k < |old(db.tenants)| && old(db.tenants)[k].id == ctx.user.value.tenantId &&
                          db.tenants == old(db.tenants)[k := old(db.tenants)[k].(timezone := zone.value)]
  {
    var ctx := CurrentContext(session, db.users);
    var gate := LoginRequired(ctx);
    if gate.Deny? {
      return gate.response, session;
    }
    if zone.Some? && IsKey(zone.value) {
      GetGmtOfKey(zone.value);
      var tenantTimezone := GetGmt(zone.value).value;
      var user := ctx.user.value;
      assert user in db.users;
      var _ := SetTimezoneSetting(db, user.tenantId, tenantTimezone);
      newSession := session.(timezone := Some(tenantTimezone));
      resp := Redirect(SettingsPage, ["Timezone has been set to " + tenantTimezone]);
    } else {
      resp := Abort(500);
      newSession := session;
    }
  }
}
