/** frontend/src/pages/Login.jsx: the form check before the login request
    and the loading flag around it. The request's reply is a parameter. */
module LoginPage {
  import opened Wrappers
  import opened AuthRouter

  /** What one press of the submit button does: the request sent (if any),
      the loading flag while it is in flight and once the handler is done,
      the reply handed to `loginUser` (if any) and the toast shown. */
  datatype Submission<R> = Submission(
    request: Option<R>,
    loadingWhileSent: bool,
    loadingAfter: bool,
    session: Option<TokenResponse>,
    message: string)

  /** The toast for a failed request: the server's detail, or `fallback`
      when there is none. */
  function FailureMessage(e: HttpError, fallback: string): (m: string)
    ensures m == if e.detail != "" then e.detail else fallback
  {
    if e.detail != "" then e.detail else fallback
  }

  /** The outcome of a request that was sent: loading is set for the call and
      cleared afterwards whether it succeeds or fails; a successful reply
      signs the user in. */
  function Sent<R>(form: R, reply: Response<TokenResponse>, success: TokenResponse -> string, fallback: string)
    : (s: Submission<R>)
    ensures s.request == Some(form) && s.loadingWhileSent && !s.loadingAfter
    ensures s.session == if reply.Ok? then Some(reply.value) else None
    ensures reply.Ok? ==> s.message == success(reply.value)
    ensures reply.Err? ==> s.message == FailureMessage(reply.error, fallback)
  {
    match reply
    case Ok(res) => Submission(Some(form), true, false, Some(res), success(res))
    case Err(e) => Submission(Some(form), true, false, None, FailureMessage(e, fallback))
  }

  /** A rejected form: nothing is sent and the flag keeps its value. */
  function Rejected<R>(loading: bool, message: string): (s: Submission<R>)
    ensures s.request.None? && s.session.None? && s.loadingAfter == loading && s.message == message
  {
    Submission(None, false, loading, None, message)
  }

  const FillInAll := "Please fill in all fields"

  function WelcomeBack(res: TokenResponse): string
  {
    "Welcome back, " + res.user.name + "!"
  }

  /** `handleSubmit`: an empty email, password or company name is rejected;
      any other form is sent as it is. There is no length rule. */
  function HandleLogin(form: LoginRequest, loading: bool, reply: Response<TokenResponse>)
    : (s: Submission<LoginRequest>)
    ensures s.request.None? <==> form.email == "" || form.password == "" || form.companyName == ""
    ensures s.request.None? ==> s == Rejected(loading, FillInAll)
    ensures s.request.Some? ==> s == Sent(form, reply, WelcomeBack, "Login failed")
  {
    if form.email == "" || form.password == "" || form.companyName == "" then Rejected(loading, FillInAll)
    else Sent(form, reply, WelcomeBack, "Login failed")
  }

  /** Login checks no length: a filled-in form is sent whatever the length of
      its password, even one that sign-up would refuse as too short. */
  lemma NoLengthRule(form: LoginRequest, loading: bool, reply: Response<TokenResponse>)
    requires form.email != "" && form.password != "" && form.companyName != ""
    ensures HandleLogin(form, loading, reply).request == Some(form)
    ensures HandleLogin(form, loading, reply).loadingWhileSent
  {
  }
}
