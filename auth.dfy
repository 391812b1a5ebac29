/**
 * ``auth.py``: binding a request to its user and tenant, the ``login_required``
 * gate, registration, login and the overdue sweep that login runs.
 */
module Auth {
  import opened Wrappers
  import opened Sequences
  import opened Models
  import opened Requests
  import opened Timezones

  // ---- Binding a request to its tenant and user ----

  /** ``get_current_tenant_id`` / ``set_current_tenant``: ``g.tenant_id`` is the session's tenant. */
  function CurrentTenantId(session: Session): Option<nat> {
    session.tenantId
  }

  /** The row ``load_logged_in_user`` looks for: the session's user id within the session's tenant. */
  predicate SessionUser(u: User, session: Session) {
    session.userId == Some(u.id) && session.tenantId == Some(u.tenantId)
  }

  /**
   * ``load_logged_in_user``: ``g.user`` is a user matching both the session's
   * ``user_id`` and its ``tenant_id``, and None when there is no user id or no
   * such user.
   */
  function LoadLoggedInUser(session: Session, users: seq<User>): (r: Option<User>)
    ensures r.Some? ==> r.value in users && SessionUser(r.value, session)
    ensures r.None? <==> session.userId.None? || forall u :: u in users ==> !SessionUser(u, session)
  {
    if session.userId.None? then None
    else First(users, (u: User) => SessionUser(u, session))
  }

  /** ``g`` as the two ``before_app_request`` hooks leave it. */
  function CurrentContext(session: Session, users: seq<User>): (ctx: Context)
    ensures ctx.tenantId == session.tenantId
    ensures ctx.user.Some? ==> ctx.user.value in users && ctx.tenantId == Some(ctx.user.value.tenantId)
  {
    Context(LoadLoggedInUser(session, users), CurrentTenantId(session))
  }

  /** What ``login_required`` decides before the view runs. */
  datatype Gate = Proceed | Deny(response: Response)

  /**
   * ``login_required``: no user redirects to the login page, a user without a
   * tenant gets the error page, and only otherwise does the view run.
   */
  function LoginRequired(ctx: Context): (r: Gate)
    ensures ctx.user.None? ==> r == Deny(Redirect(LoginPage, ["Please log in to continue."]))
    ensures ctx.user.Some? && ctx.tenantId.None? ==> r == Deny(Render(ErrorPage, ["Error receiving your tenancy."]))
    ensures r == Proceed <==> ctx.user.Some? && ctx.tenantId.Some?
  {
    if ctx.user.None? then Deny(Redirect(LoginPage, ["Please log in to continue."]))
    else if ctx.tenantId.None? then Deny(Render(ErrorPage, ["Error receiving your tenancy."]))
    else Proceed
  }

  /**
   * A user is only loaded within the session's tenant, so on a bound request
   * the gate never reaches the tenancy error: it either sends the visitor to
   * the login page or runs the view for a user of the request's tenant.
   */
  lemma GateOnBoundRequest(session: Session, users: seq<User>)
    ensures var ctx := CurrentContext(session, users);
            LoginRequired(ctx) == Proceed || LoginRequired(ctx) == Deny(Redirect(LoginPage, ["Please log in to continue."]))
    ensures var ctx := CurrentContext(session, users);
            LoginRequired(ctx) == Proceed ==> ctx.user.value in users && ctx.tenantId == Some(ctx.user.value.tenantId)
  {
  }

  // ---- The overdue sweep ----

  /** ``task.due_date and task.due_date.date() <= today``. */
  predicate DueBy(t: Task, today: Day) {
    t.dueDate.Some? && t.dueDate.value <= today
  }

  /** The sweep's rule for one task: a task due on or before ``today`` that is not OVERDUE becomes OVERDUE. */
  function Promote(t: Task, today: Day): (r: Task)
    ensures r == t.(status := r.status)
    ensures DueBy(t, today) ==> r.status == Overdue
    ensures !DueBy(t, today) ==> r == t
  {
    if t.status != Overdue && DueBy(t, today) then t.(status := Overdue) else t
  }

  /** Promoting twice is promoting once. */
  lemma PromoteIdempotent(t: Task, today: Day)
    ensures Promote(Promote(t, today), today) == Promote(t, today)
  {
  }

  /** One of the first ``n`` tenants is the task's tenant, that is, the sweep has reached its tenant. */
  predicate Reached(t: Task, tenants: seq<Tenant>, n: nat)
    requires n <= |tenants|
  {
    exists j :: 0 <= j < n && tenants[j].id == t.tenantId
  }

  /** A task after the sweep has visited the first ``n`` tenants. */
  function SweptUpTo(t: Task, tenants: seq<Tenant>, n: nat, today: Day): Task
    requires n <= |tenants|
  {
    if Reached(t, tenants, n) then Promote(t, today) else t
  }

  /**
   * The task table after ``check_for_expired_tasks``: every task of an
   * existing tenant that is due on or before ``today`` is OVERDUE, DONE tasks
   * included; no other task and no other column changes.
   */
  function Sweep(tasks: seq<Task>, tenants: seq<Tenant>, today: Day): (r: seq<Task>)
    ensures |r| == |tasks|
    ensures forall k :: 0 <= k < |r| ==> r[k] == tasks[k].(status := r[k].status)
    ensures forall k :: 0 <= k < |r| && HasTenant(tenants, tasks[k].tenantId) && DueBy(tasks[k], today) ==>
                          r[k].status == Overdue
    ensures forall k :: 0 <= k < |r| && !DueBy(tasks[k], today) ==> r[k] == tasks[k]
    ensures forall k :: 0 <= k < |r| && !HasTenant(tenants, tasks[k].tenantId) ==> r[k] == tasks[k]
  {
    seq(|tasks|, k requires 0 <= k < |tasks| =>
      if HasTenant(tenants, tasks[k].tenantId) then Promote(tasks[k], today) else tasks[k])
  }

  /**
   * The sweep keeps a task without a due date as it is, so it never makes an
   * OVERDUE task without one; every task it promotes is due by ``today``.
   */
  lemma {:induction false} SweepKeepsOverdueDue(tasks: seq<Task>, tenants: seq<Tenant>, today: Day)
    requires OverdueHasDue(tasks)
    ensures OverdueHasDue(Sweep(tasks, tenants, today))
    ensures forall k :: 0 <= k < |tasks| && tasks[k].status != Overdue && Sweep(tasks, tenants, today)[k].status == Overdue ==>
                          DueBy(tasks[k], today)
  {
    var r := Sweep(tasks, tenants, today);
    forall t | t in r && t.status == Overdue ensures t.dueDate.Some? {
      var k :| 0 <= k < |r| && r[k] == t;
      if !DueBy(tasks[k], today) {
        assert tasks[k] in tasks;
      }
    }
  }

  /** Running the sweep a second time with the same day changes nothing. */
  lemma SweepIdempotent(tasks: seq<Task>, tenants: seq<Tenant>, today: Day)
    ensures Sweep(Sweep(tasks, tenants, today), tenants, today) == Sweep(tasks, tenants, today)
  {
    var once := Sweep(tasks, tenants, today);
    var twice := Sweep(once, tenants, today);
    forall k | 0 <= k < |tasks| ensures twice[k] == once[k] {
      assert once[k].tenantId == tasks[k].tenantId;
      if HasTenant(tenants, tasks[k].tenantId) {
        PromoteIdempotent(tasks[k], today);
      }
    }
  }

  /** In a consistent store every task has its tenant, so the sweep promotes every task that is due. */
  lemma SweepReachesEveryTask(tenants: seq<Tenant>, users: seq<User>, tasks: seq<Task>, comments: seq<TaskComment>, today: Day)
    requires Consistent(tenants, users, tasks, comments)
    ensures forall k :: 0 <= k < |tasks| ==> Sweep(tasks, tenants, today)[k] == Promote(tasks[k], today)
    ensures forall t :: t in Sweep(tasks, tenants, today) && DueBy(t, today) ==> t.status == Overdue
  {
    var r := Sweep(tasks, tenants, today);
    forall k | 0 <= k < |tasks| ensures r[k] == Promote(tasks[k], today) {
      assert tasks[k] in tasks;
    }
  }

  lemma ReachedAll(t: Task, tenants: seq<Tenant>)
    ensures Reached(t, tenants, |tenants|) <==> HasTenant(tenants, t.tenantId)
  {
    if HasTenant(tenants, t.tenantId) {
      var x :| x in tenants && x.id == t.tenantId;
      var j :| 0 <= j < |tenants| && tenants[j] == x;
    }
  }

  /** Visiting tenant ``i`` extends the visited prefix by one. */
  lemma SweepStep(t: Task, tenants: seq<Tenant>, i: nat, today: Day)
    requires i < |tenants|
    ensures tenants[i].id == t.tenantId ==> SweptUpTo(t, tenants, i + 1, today) == Promote(SweptUpTo(t, tenants, i, today), today)
    ensures tenants[i].id != t.tenantId ==> SweptUpTo(t, tenants, i + 1, today) == SweptUpTo(t, tenants, i, today)
  {
    if tenants[i].id == t.tenantId {
      PromoteIdempotent(t, today);
    } else {
      assert Reached(t, tenants, i + 1) <==> Reached(t, tenants, i);
    }
  }

  /**
   * ``check_for_expired_tasks``: when the session has a timezone, visit every
   * tenant and, within it, every task of that tenant, marking the due ones
   * OVERDUE; without a timezone it only logs.
   */
  method CheckForExpiredTasks(db: Database, timezone: Option<string>, today: Day)
    requires db.Valid()
    modifies db`tasks
    ensures db.Valid()
    ensures timezone.None? ==> db.tasks == old(db.tasks)
    ensures timezone.Some? ==> db.tasks == Sweep(old(db.tasks), db.tenants, today)
    ensures OverdueHasDue(old(db.tasks)) ==> OverdueHasDue(db.tasks)
  {
    if timezone.Some? {
      ghost var before := db.tasks;
      var i := 0;
      while i < |db.tenants|
        invariant 0 <= i <= |db.tenants|
        invariant db.Valid()
        invariant |db.tasks| == |before|
        invariant forall k :: 0 <= k < |db.tasks| ==> db.tasks[k] == SweptUpTo(before[k], db.tenants, i, today)
      {
        var tenant := db.tenants[i];
        var k := 0;
        while k < |db.tasks|
          invariant 0 <= k <= |db.tasks| == |before|
          invariant db.Valid()
          invariant forall m :: 0 <= m < k ==> db.tasks[m] == SweptUpTo(before[m], db.tenants, i + 1, today)
          invariant forall m :: k <= m < |db.tasks| ==> db.tasks[m] == SweptUpTo(before[m], db.tenants, i, today)
        {
          var task := db.tasks[k];
          SweepStep(before[k], db.tenants, i, today);
          if task.tenantId == tenant.id && task.status != Overdue && task.dueDate.Some? && task.dueDate.value <= today {
            db.UpdateTask(k, task.(status := Overdue));
          }
          k := k + 1;
        }
        i := i + 1;
      }
      forall k | 0 <= k < |db.tasks| ensures db.tasks[k] == Sweep(before, db.tenants, today)[k] {
        ReachedAll(before[k], db.tenants);
      }
      if OverdueHasDue(before) {
        SweepKeepsOverdueDue(before, db.tenants, today);
      }
    }
  }

  // ---- Registration ----

  predicate UsernameTaken(users: seq<User>, username: string) {
    exists u :: u in users && u.username == username
  }

  predicate TenantNameTaken(tenants: seq<Tenant>, name: string) {
    exists t :: t in tenants && t.name == name
  }

  function AlreadyRegistered(username: string): string {
    "User " + username + " is already registered."
  }

  /** The f-string of an unknown zone; a missing form field prints as ``None``. */
  function ZoneNotOffered(zone: Option<string>): string {
    "Timezone " + (if zone.Some? then zone.value else "None") + " is not a displayed choice."
  }

  /** The tenant every new user gets. */
  function TrialTenantName(username: string): string {
    username + "_trial"
  }

  /**
   * ``register`` (POST). The checks run in order and each failing one
   * overwrites the message: missing username, else missing password; zone not
   * in the table; username taken. With no message a tenant named
   * ``<username>_trial`` with timezone ``get_gmt(zone)`` is inserted, then a
   * user bound to it; a tenant name already in use is the unique-constraint
   * failure, reported as "already registered". ``passwordHash`` is what
   * ``generate_password_hash(password)`` returns.
   */
  method Register(db: Database, username: string, password: string, zone: Option<string>, passwordHash: string)
    returns (resp: Response)
    requires db.Valid()
    modifies db`tenants, db`nextTenantId, db`users, db`nextUserId
    ensures db.Valid()
    ensures UsernameTaken(old(db.users), username) ==> resp == Render(RegisterPage, [AlreadyRegistered(username)])
    ensures !UsernameTaken(old(db.users), username) && (zone.None? || !IsKey(zone.value)) ==>
              resp == Render(RegisterPage, [ZoneNotOffered(zone)])
    ensures !UsernameTaken(old(db.users), username) && zone.Some? && IsKey(zone.value) && username == "" ==>
              resp == Render(RegisterPage, ["Username is required."])
    ensures !UsernameTaken(old(db.users), username) && zone.Some? && IsKey(zone.value) && username != "" && password == "" ==>
              resp == Render(RegisterPage, ["Password is required."])
    ensures !UsernameTaken(old(db.users), username) && zone.Some? && IsKey(zone.value) && username != "" && password != "" &&
            TenantNameTaken(old(db.tenants), TrialTenantName(username)) ==>
              resp == Render(RegisterPage, [AlreadyRegistered(username)])
    ensures resp.Render? ==> db.tenants == old(db.tenants) && db.users == old(db.users) &&
                             db.nextTenantId == old(db.nextTenantId) && db.nextUserId == old(db.nextUserId)
    ensures resp.Redirect? <==> !UsernameTaken(old(db.users), username) && zone.Some? && IsKey(zone.value) &&
                                username != "" && password != "" && !TenantNameTaken(old(db.tenants), TrialTenantName(username))
    ensures resp.Redirect? ==>
              resp == Redirect(LoginPage, []) &&
              db.tenants == old(db.tenants) + [Tenant(old(db.nextTenantId), TrialTenantName(username), zone.value)] &&
              db.users == old(db.users) + [User(old(db.nextUserId), old(db.nextTenantId), username, passwordHash)] &&
              Some(zone.value) == GetGmt(zone.value) &&
              db.nextTenantId == old(db.nextTenantId) + 1 && db.nextUserId == old(db.nextUserId) + 1
  {
    var tenantName := TrialTenantName(username);
    var error: Option<string> := None;
    var tenantTimezone: string := "";
    if username == "" {
      error := Some("Username is required.");
    } else if password == "" {
      error := Some("Password is required.");
    }
    if zone.Some? && IsKey(zone.value) {
      GetGmtOfKey(zone.value);
      tenantTimezone := GetGmt(zone.value).value;
    } else {
      error := Some(ZoneNotOffered(zone));
    }
    var existing := First(db.users, (u: User) => u.username == username);
    if existing.Some? {
      error := Some(AlreadyRegistered(username));
    }
    if error.None? {
      var clash := First(db.tenants, (t: Tenant) => t.name == tenantName);
      if clash.Some? {
        error := Some(AlreadyRegistered(username));
      } else {
        var tenantId := db.AddTenant(tenantName, Some(tenantTimezone));
        var _ := db.AddUser(tenantId, username, passwordHash);
        resp := Redirect(LoginPage, []);
        return;
      }
    }
    resp := Render(RegisterPage, [error.value]);
  }

  // ---- Login ----

  /** ``User.query.filter_by(username=username).first()``. */
  function UserNamed(users: seq<User>, username: string): (r: Option<User>)
    ensures r.None? <==> !UsernameTaken(users, username)
    ensures r.Some? ==> r.value in users && r.value.username == username
  {
    First(users, (u: User) => u.username == username)
  }

  /** ``Tenant.query.filter_by(id=...).first()``. */
  function TenantWithId(tenants: seq<Tenant>, id: nat): (r: Option<Tenant>)
    ensures r.None? <==> !HasTenant(tenants, id)
    ensures r.Some? ==> r.value in tenants && r.value.id == id
  {
    First(tenants, (t: Tenant) => t.id == id)
  }

  /**
   * ``login`` (POST). An unknown username and a wrong password get the same
   * message and leave session and store alone. On success the session is
   * cleared and then holds the user's id, name, tenant and that tenant's
   * timezone, and the overdue sweep runs with the UTC day ``utcToday``.
   * ``checkPassword`` stands for ``check_password_hash``.
   */
  method Login(db: Database, session: Session, username: string, password: string,
               checkPassword: (string, string) -> bool, utcToday: Day)
    returns (resp: Response, newSession: Session)
    requires db.Valid()
    modifies db`tasks
    ensures db.Valid()
    ensures OverdueHasDue(old(db.tasks)) ==> OverdueHasDue(db.tasks)
    ensures var u := UserNamed(old(db.users), username);
            u.None? || !checkPassword(u.value.password, password) ==>
              resp == Render(LoginPage, ["Incorrect username or password."]) && newSession == session && db.tasks == old(db.tasks)
    ensures var u := UserNamed(old(db.users), username);
            u.Some? && checkPassword(u.value.password, password) ==>
              var tenancy := TenantWithId(db.tenants, u.value.tenantId);
              tenancy.Some? && resp == Redirect(IndexPage, []) &&
              newSession == Session(Some(u.value.id), Some(username), Some(u.value.tenantId), Some(tenancy.value.timezone)) &&
              db.tasks == Sweep(old(db.tasks), db.tenants, utcToday)
  {
    var error: Option<string> := None;
    var user := UserNamed(db.users, username);
    if user.None? {
      error := Some("Incorrect username or password.");
    } else if !checkPassword(user.value.password, password) {
      error := Some("Incorrect username or password.");
    }
    if error.None? {
      var tenancy := TenantWithId(db.tenants, user.value.tenantId);
      assert user.value in db.users;
      newSession := EmptySession;
      newSession := newSession.(userId := Some(user.value.id), username := Some(username), tenantId := Some(user.value.tenantId));
      newSession := newSession.(timezone := Some(tenancy.value.timezone));
      CheckForExpiredTasks(db, newSession.timezone, utcToday);
      resp := Redirect(IndexPage, []);
      return;
    }
    resp := Render(LoginPage, [error.value]);
    newSession := session;
  }
}
