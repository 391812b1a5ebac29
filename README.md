# Multi-tenant task tracker: verified model of the task store

This project models the core of a small Flask application. Each registered user gets a
tenant of their own, and under it keeps tasks (`ACTIVE`, `OVERDUE`, `DONE`) with comments.
The model covers:

- the four tables and their constraints: unique keys, unique tenant names, globally
  unique usernames, foreign keys, and the comment cascade;
- the tenant-scoped queries;
- the request handlers that create, edit, complete and delete tasks and comments;
- the overdue sweep that login runs;
- registration, login and the `login_required` gate;
- the fixed table of twenty display time zones with its substring lookup.

Modules, one per source file:

- `Wrappers` (`Option`, `Result`) and `Sequences` (`Filter`, `First`, `FirstIndex`, and a
  stable insertion sort `SortBy`) are shared helpers. They stand for SQL's `filter`,
  `.first()` and `order_by`.
- `Models` (`web/models.py`):
  - the row datatypes;
  - the `Consistent` table invariant, which gathers the schema's constraints: unique primary
    keys, unique tenant names, unique usernames; and the foreign keys: every user and task
    has its tenant, every task's author is a user of the task's tenant, and every comment's
    task exists in the comment's tenant. `Database.Valid` adds to it that every id is below
    its counter, and every `Database` method keeps `Valid`;
  - the status lifecycle's invariant `OverdueHasDue`: an OVERDUE task has a due date.
    `create`, `update_task`, `move_done`, `delete` and the overdue sweep keep it;
  - the class `Database`, which holds one sequence per table plus the autoincrement
    counters. Its methods are the row-level changes the ORM makes: add a row, assign task
    attributes, delete a task with its comments, delete a comment, set a tenant's timezone.
- `Timezones` (`web/timezones.py`): the table, `get_gmt`, and a proof that no key is a
  substring of another key.
- `Requests`: the Flask `session`, the request globals `g` (the type `Context`), and the
  view responses.
- `Queries` (`web/queries.py`): the read queries as functions over the tables, and the
  three in-place helpers as methods.
- `Auth` (`web/auth.py`):
  - binding a request to its user and tenant;
  - the gate;
  - the sweep, a nested loop proved against the function `Sweep`;
  - `Register` and `Login`.
- `Landing` (`web/landing.py`):
  - the views;
  - the query of the done page;
  - the selection loop of the settings page.

Modelling conventions:

- A comparison with `g.get("tenant_id")` matches only when the request has a tenant.
  Comparing with `None` is `IS NULL` in SQL, and no tenant id is null.
- Dates are day numbers. `created` is date-granular after the schema migration.
  `date.today()`, the UTC day and `datetime.now(UTC)` are parameters.
- A due-date form field is `Blank`, `Malformed` (the `ValueError` of `strptime`) or
  `OnDay(d)`.
- `generate_password_hash` is replaced by its result, passed in as a parameter.
  `check_password_hash` is a function parameter.
- Each view's state change is stated against the table contents before the request. A
  request that fails before its commit keeps nothing.

Where the code and the written description of the system disagree, the model follows the
code:

- `update_task` with an empty due date sets the status to ACTIVE unconditionally.
- A malformed date in `update_task` is an uncaught exception (HTTP 500), not a
  validation message.
- The sweep also turns DONE tasks that are due into OVERDUE.
- `delete_comment` deletes a comment of the current tenant even when the task id is
  missing or belongs to another tenant. The abort from `get_task` comes only after the
  deletion.
- `set_timezone_setting` does not validate the zone; only `save_settings` does.
- The rejection path of `save_settings` redirects to an endpoint name that does not
  exist (`landing.show_settings.html`), so it ends in HTTP 500 rather than a redirect.
- The tenant-mismatch checks in `update_task` and `delete`, and the `if not get_task`
  branch of `move_done`, cannot fire: `get_task` either returns a task of the current
  tenant or aborts. `GetTask`'s contract states this.

## Model

| member | source | states |
|---|---|---|
| `Models.NewTenant` | web/models.py:3-6 | the tenant row as the constructor builds it: without a timezone it gets the column default "UTC", otherwise the given one; `Database.AddTenant` inserts its rows through it |
| `Models.NewTask` | web/models.py:25-36 | a new task is ACTIVE unless a status is given; due date and body are None unless supplied |
| `Models.UsernameIsGlobal` | web/models.py:18 | with unique usernames, two users with the same username are the same row, whatever their tenants |
| `Models.CommentTenantChain` | web/models.py:42-47 | in a consistent store every comment's task exists, is in the comment's tenant, and has an author in that tenant |
| `Models.CascadeKeepsConsistent` | web/models.py:45-47 | deleting a task and the comments of that task keeps keys unique and leaves no comment without its task |
| `Models.CascadeRemovesExactly` | web/models.py:45-47 | the cascade keeps exactly the comments of other tasks; kept and removed comments together are the old comments, with multiplicity |
| `Models.Database.AddTenant` | web/models.py:3-6 | appends one tenant with the next id and advances that counter; with no timezone given the new row's timezone is "UTC"; only the tenant table and its counter change; the invariant holds |
| `Models.Database.AddUser` | web/models.py:15-19 | appends one user of an existing tenant with the next id, given an unused username |
| `Models.Database.AddTask` | web/models.py:25-36 | appends one task with the next id, given an author in the task's tenant |
| `Models.Database.AddComment` | web/models.py:42-51 | appends one comment with the next id on an existing task of the same tenant |
| `Models.Database.UpdateTask` | web/models.py:25-36 | replaces one task row, keeping its id, tenant and author; only the task table changes |
| `Models.Database.DeleteTask` | web/models.py:45-47 | removes the task with that id and, by cascade, exactly its comments |
| `Models.Database.DeleteCommentAt` | web/models.py:42-51 | removes exactly the comment at that position |
| `Models.Database.SetTenantTimezone` | web/models.py:6 | changes only that tenant's timezone |
| `Timezones.TableShape` | web/timezones.py:6-27 | the table has 20 entries with pairwise distinct keys, each mapped to an offset `+HH:MM` or `-HH:MM` |
| `Timezones.GetGmtFrom` | web/timezones.py:31-35 | the first key from a position on that contains the argument; None exactly when no later key contains it |
| `Timezones.GetGmt` | web/timezones.py:29-35 | a result is a key that contains the argument, and no earlier key does; None exactly when no key contains it |
| `Timezones.GetGmtIsKey` | web/timezones.py:31-34 | a result is always a key of the table |
| `Timezones.KeysNotNested` | web/timezones.py:6-27 | no key is a substring of a different key |
| `Timezones.GetGmtOfKey` | web/timezones.py:31-34 | for every key `k`, `get_gmt(k)` is `k` |
| `Timezones.GetGmtOfEmpty` | web/timezones.py:33 | `get_gmt("")` is "Africa/Lagos", the first key |
| `Timezones.LastContaining` | web/landing.py:484-486 | the last key among the first n that contains the argument; None exactly when none does |
| `Timezones.LastContainingKey` | web/landing.py:484-486 | for a key, the last containing key is the key itself and agrees with `get_gmt` |
| `Queries.OwnedTasks` | web/queries.py:22-28 | exactly the tasks of the user whose task tenant and author tenant are the current tenant, each as often as in the table |
| `Queries.ActiveTasks` | web/queries.py:7-31 | exactly the user's tasks in the tenant (task and author) that are not DONE, each as often as in the table, newest first |
| `Queries.LatestTask` | web/queries.py:34-58 | the newest of those tasks, or None exactly when there is none |
| `Queries.DoneTasks` | web/queries.py:61-85 | exactly the user's DONE tasks in the tenant, each as often as in the table, newest first |
| `Queries.OverdueTasks` | web/queries.py:88-102 | exactly the user's OVERDUE tasks in the tenant, each as often as in the table, newest first |
| `Queries.OverdueAreActive` | web/queries.py:88-102 | every overdue task is on the active list |
| `Queries.ActiveAndDonePartition` | web/queries.py:77-82 | the active and done lists are disjoint and together hold each of the user's tasks in the tenant exactly once |
| `Queries.ByTaskIdOf` | web/queries.py:125 | the same comments with the same multiplicities, ordered by task id ascending |
| `Queries.CommentsForTask` | web/queries.py:105-128 | exactly the comments of that task whose own, task and author tenants are the current tenant, each as often as in the table, by task id |
| `Queries.CommentsOnActive` | web/queries.py:131-151 | exactly the comments in the tenant on the user's not-DONE tasks of the tenant, each as often as in the table, by task id ascending |
| `Queries.DeleteSingleComment` | web/queries.py:154-163 | removes the first comment with that id in the current tenant; with none, the store is unchanged |
| `Queries.GetTask` | web/queries.py:166-177 | 404 exactly when no task has the id in the current tenant; 403 for another author when checking the user; a result is always a task of the current tenant |
| `Queries.GetTaskFindsOwnTask` | web/queries.py:169-177 | with unique ids, the user's own task in the tenant is found |
| `Queries.LatestDoneTask` | web/queries.py:180-205 | the newest DONE task of the user in the tenant, or None exactly when there is none |
| `Queries.GetStatus` | web/queries.py:208-229 | the projected row of the DONE task with that id in the tenant, under the same aborts as `get_done_task` |
| `Queries.GetDoneTask` | web/queries.py:232-264 | like `get_task`, but also 404 when the task is not DONE or its author is outside the tenant |
| `Queries.SetTaskOverdue` | web/queries.py:267-272 | aborts as `get_task` does; otherwise only that task's status becomes OVERDUE |
| `Queries.SetOverdueIgnoresDue` | web/queries.py:271 | setting OVERDUE without looking at the due date can break `OverdueHasDue`, unlike the routed views |
| `Queries.GetTimezoneSetting` | web/queries.py:275-305 | None for any tenant other than the request's; otherwise the stored timezone of an existing tenant |
| `Queries.SetTimezoneSetting` | web/queries.py:308-337 | True exactly for an existing tenant, then only its timezone changes; False leaves the store unchanged |
| `Auth.LoadLoggedInUser` | web/auth.py:192-201 | the user matching both session user id and session tenant id; None when there is no user id or no such user |
| `Auth.CurrentContext` | web/auth.py:63-65 | `g.tenant_id` is the session's tenant, and a loaded user always belongs to it |
| `Auth.LoginRequired` | web/auth.py:229-248 | no user: redirect to login; user without tenant: error page; the view runs exactly when both are set |
| `Auth.GateOnBoundRequest` | web/auth.py:239-244 | on a request bound from its session the tenancy error cannot occur, and a proceeding view has a user of the request's tenant |
| `Auth.Promote` | web/auth.py:43-49 | only the status changes; a due task becomes OVERDUE; a task not due is unchanged |
| `Auth.PromoteIdempotent` | web/auth.py:44-49 | promoting twice is promoting once |
| `Auth.Sweep` | web/auth.py:36-58 | every task of an existing tenant that is due, DONE included, is OVERDUE; tasks not due and other columns are unchanged |
| `Auth.SweepKeepsOverdueDue` | web/auth.py:44-49 | the sweep keeps `OverdueHasDue`, and every task it promotes is due on or before the day |
| `Auth.SweepIdempotent` | web/auth.py:44-49 | sweeping again with the same day changes nothing |
| `Auth.SweepReachesEveryTask` | web/auth.py:38-49 | in a consistent store every due task is OVERDUE after the sweep |
| `Auth.CheckForExpiredTasks` | web/auth.py:31-60 | with a session timezone the task table becomes `Sweep` of the old one; without one nothing changes; `OverdueHasDue` is kept |
| `Auth.Register` | web/auth.py:68-131 | message precedence (username taken last, then zone, then password or username); no rows on error; on success one tenant `<username>_trial` with timezone `get_gmt(zone)` and one user bound to it, each counter advanced by one |
| `Auth.UserNamed` | web/auth.py:142 | the user with that username, None exactly when the username is unused |
| `Auth.TenantWithId` | web/auth.py:170 | the tenant with that id, None exactly when there is none |
| `Auth.Login` | web/auth.py:134-188 | unknown user and wrong password get the same message and change nothing; success stores user id, username, tenant id and the tenant timezone, then sweeps, keeping `OverdueHasDue` |
| `Landing.StatusForDue` | web/landing.py:158-163 | OVERDUE exactly when a due date is given and is on or before today, ACTIVE otherwise |
| `Landing.NonEmpty` | web/landing.py:175-199 | an empty body field is stored as None, any other as itself |
| `Landing.Create` | web/landing.py:147-245 | the title message overrides the date message and nothing is inserted; otherwise exactly one task of the current user and tenant with the computed status, and the task counter advances by the rows added; `OverdueHasDue` is kept |
| `Landing.DoneListing` | web/landing.py:251-262 | the user's DONE tasks with a joined author in the tenant, each as often as in the table, newest first; 500 without a user |
| `Landing.DoneListingAgrees` | web/landing.py:252-262 | in a consistent store the done page lists exactly the tasks of `get_done_tasks` |
| `Landing.DoneComments` | web/landing.py:264-282 | exactly the tenant's comments on the user's DONE tasks of the tenant, each as often as in the table, by task id |
| `Landing.AddComment` | web/landing.py:323-347 | aborts as `get_task` does; an empty comment adds nothing; otherwise exactly one comment on that task in the current tenant; only the comment table and its counter change |
| `Landing.DeleteComment` | web/landing.py:350-368 | the comment message overrides the task message; only a current-tenant comment with that id is removed; the `get_task` abort comes after |
| `Landing.MoveDone` | web/landing.py:371-385 | aborts as `get_task` does; otherwise only that task's status becomes DONE; `OverdueHasDue` is kept |
| `Landing.Edited` | web/landing.py:411-443 | new title, body replaced only when non-empty, due date set or cleared, status recomputed and never DONE; OVERDUE only with a due date on or before today |
| `Landing.UpdateTask` | web/landing.py:388-449 | aborts as `get_task` does; an empty title commits nothing; a malformed date is a 500; otherwise the task becomes `Edited`; `OverdueHasDue` is kept |
| `Landing.Delete` | web/landing.py:452-475 | aborts as `get_task` does; otherwise the task goes whatever its status, together with exactly its comments; `OverdueHasDue` is kept |
| `Landing.SelectedZone` | web/landing.py:484-486 | the last key containing the stored timezone; for a key, the key itself |
| `Landing.ShowSettings` | web/landing.py:478-497 | 500 without a user; otherwise the selection is the last key containing the tenant's timezone, or none |
| `Landing.SaveSettings` | web/landing.py:499-519 | a table key is stored on the user's tenant and in the session; anything else changes nothing |

## Left out

- `web/__init__.py` is not part of this model. It holds the app factory, configuration, mail, security middleware, the sitemap, and `convert_utc_to_timezone`. That function depends on the pytz zone database and on `strftime`.
- The schema migration contributes only one fact: `created` holds a day.
- `web/static/comment.js` (UI toggling) and `tests/test_factory.py` (a configuration flag) are not part of this model.
- `index`, `task_view`, `load_view` and `load_doneview` only render the results of the modelled queries, so they are not modelled.
- `logout` only clears the session; `error`, `robots_txt` and the GET forms of `create`, `update_task` and `register` only render a page. None of them is modelled.
- Rendering, `url_for`, flashing and logging are not modelled. A response names a page and the messages queued for it.
- The mobile variants of pages (`mobile_check`, User-Agent sniffing) are not modelled.
- The selected columns (`with_entities`, `User.username`) are not modelled. The queries return whole task and comment rows; `GetStatus` returns its four columns.
- A join is a membership test on the joined table, so each listed row appears as often as in its own table. This matches SQL only when the joined key is unique, which `Consistent` guarantees.
- Transactions, autoflush and rollback are not modelled. A request that errors before its commit keeps no change. `update_task`'s attribute assignments on the error path are never committed.
- `register` repeats the username check twice (lines 95-97 repeat 91-93), so the model has it once.
- The `IntegrityError` of the user insert after the tenant commit needs a concurrent registration, so it is left out. The tenant-name clash is modelled.
- Logging of `g.user.id` in `get_timezone_setting` and `set_timezone_setting`, and their `except` branches that return None on database errors, are left out. Both are called only with a logged-in user.
- In `login`, a user whose tenant row is missing would raise `AttributeError`. `Login` requires a consistent store, where this cannot happen.
- In `done`, the `if g.user.id` falsy path is not modelled, because ids start at 1.
- The `set_task_overdue` route is commented out. `SetTaskOverdue` models only the helper itself.
- Concurrent logins racing on the sweep are left out.
- `Models.NewTenant`: the "UTC" default holds for any tenant inserted without a timezone, but `register`, the only place that inserts tenants, always passes one.
- `Models.OverdueHasDue` states that an OVERDUE task has a due date, not that the date lies before the current day. `create` and `update_task` compare against the server's `date.today()`, the sweep against the UTC day, and days go by after a task is marked; so "in the past" is not an invariant of the code.
- The unrouted `set_task_overdue` breaks `OverdueHasDue` (`Queries.SetOverdueIgnoresDue`), so `Queries.SetTaskOverdue` does not promise it.
- `Task.author_id` is nullable in the schema but is always set on creation, so the model gives it a value.
- `Queries.ActiveTasks`: the order among tasks with the same `created` day is not stated.
- `Queries.DoneTasks`: the order among tasks with the same `created` day is not stated.
- `Queries.OverdueTasks`: the order among tasks with the same `created` day is not stated.
- `Queries.CommentsForTask`: the order among comments of the same task is not stated.
- `Queries.CommentsOnActive`: the order among comments of the same task is not stated.
- `Landing.DoneListing`: the order among tasks with the same `created` day is not stated.
- `Landing.DoneComments`: the order among comments of the same task is not stated.
