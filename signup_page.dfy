/** frontend/src/pages/Signup.jsx: the form defaults, the preset picker and
    the two checks before the sign-up request. */
module SignupPage {
  import opened Wrappers
  import opened ThemeContext
  import opened AuthRouter
  import opened LoginPage

  /** The form as the page opens: every field empty, the corporate preset. */
  const DefaultForm := SignupRequest("", "", "", "", "corporate")

  /** Picking a preset card changes only `theme_id`, to a catalog key. */
  function PickTheme(form: SignupRequest, t: Occupation): (r: SignupRequest)
    requires t in Catalog
    ensures r == form.(themeId := t.id)
    ensures Lookup(r.themeId) == Some(t)
  {
    CatalogShape();
    form.(themeId := t.id)
  }

  const PasswordTooShort := "Password must be at least 6 characters"

  function AccountCreated(res: TokenResponse): string
  {
    "Account created! Welcome to AttendTrack."
  }

  /** `handleSubmit`: an empty name, email, password or company name is
      rejected first; then a password shorter than 6 characters; any other
      form is sent as it is. */
  function HandleSignup(form: SignupRequest, loading: bool, reply: Response<TokenResponse>)
    : (s: Submission<SignupRequest>)
    ensures s.request.None? <==>
      (form.name == "" || form.email == "" || form.password == "" || form.companyName == ""
       || |form.password| < 6)
    ensures (form.name == "" || form.email == "" || form.password == "" || form.companyName == "")
      ==> s == Rejected(loading, FillInAll)
    ensures (form.name != "" && form.email != "" && form.password != "" && form.companyName != ""
      && |form.password| < 6) ==> s == Rejected(loading, PasswordTooShort)
    ensures s.request.Some? ==> s == Sent(form, reply, AccountCreated, "Signup failed")
  {
    if form.name == "" || form.email == "" || form.password == "" || form.companyName == "" then
      Rejected(loading, FillInAll)
    else if |form.password| < 6 then
      Rejected(loading, PasswordTooShort)
    else
      Sent(form, reply, AccountCreated, "Signup failed")
  }

  /** The emptiness check comes first: an empty password gets the fill-in
      message, not the length message. */
  lemma EmptyPasswordMessage(form: SignupRequest, loading: bool, reply: Response<TokenResponse>)
    requires form.password == ""
    ensures HandleSignup(form, loading, reply).message == FillInAll
  {
  }

  /** The untouched form is rejected; any filling-in of its four text fields
      with a password of at least 6 characters is sent with the corporate
      preset. */
  lemma DefaultFormRejected(name: string, email: string, password: string, companyName: string,
                            loading: bool, reply: Response<TokenResponse>)
    requires name != "" && email != "" && companyName != "" && |password| >= 6
    ensures HandleSignup(DefaultForm, loading, reply).request.None?
    ensures HandleSignup(DefaultForm, loading, reply).message == FillInAll
    ensures HandleSignup(DefaultForm.(name := name, email := email, password := password, companyName := companyName),
                         loading, reply).request
         == Some(SignupRequest(name, email, password, companyName, "corporate"))
  {
  }
}
