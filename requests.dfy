/**
 * The per-request state the handlers read and write: the signed-cookie
 * ``session``, the request globals ``g`` and the responses a view returns.
 */
module Requests {
  import opened Wrappers
  import opened Models

  /** The keys the application keeps in Flask's ``session``. */
  datatype Session = Session(userId: Option<nat>, username: Option<string>, tenantId: Option<nat>,
                             timezone: Option<string>)

  const EmptySession: Session := Session(None, None, None, None)

  /** Flask's ``g``: the logged-in user (``g.user``) and the tenant bound to the request (``g.tenant_id``). */
  datatype Context = Context(user: Option<User>, tenantId: Option<nat>)

  /** The ``abort`` outcomes, and an uncaught exception (HTTP 500). */
  datatype Failure = NotFound | Forbidden | ServerError

  function Code(f: Failure): nat {
    match f
    case NotFound => 404
    case Forbidden => 403
    case ServerError => 500
  }

  /** The pages a view renders or redirects to; the markup itself is not modelled. */
  datatype Page =
    | IndexPage | DonePage | LoginPage | RegisterPage | CreatePage | SettingsPage | ErrorPage
    | EditPage(taskId: nat)
    | TaskView(taskId: nat)        // ``load_view``: the index page showing one task
    | DoneTaskView(taskId: nat)    // ``load_doneview``: the done page showing one task

  /** A view's answer; ``flashes`` are the messages queued with ``flash``. */
  datatype Response =
    | Redirect(to: Page, flashes: seq<string>)
    | Render(page: Page, flashes: seq<string>)
    | Abort(code: nat)
}
