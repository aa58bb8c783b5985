/** frontend/src/pages/Advanced.jsx, the employee dialog: the check and the
    `department_id` rewrite before `createEmployee`, and how the generated
    password is shown. */
module AdvancedPage {
  import opened Wrappers
  import opened Text
  import opened EmployeesRouter

  /** The dialog's form; `department_id` is the select's text value, "" for
      no department. */
  datatype EmployeeForm = EmployeeForm(name: string, email: string, departmentId: string)

  /** The request body: a non-empty `department_id` becomes its `parseInt`
      (NaN, sent as null, is None), an empty one becomes null. */
  function Payload(form: EmployeeForm): (r: EmployeeCreate)
    ensures r.name == form.name && r.email == form.email
    ensures form.departmentId == "" ==> r.departmentId.None?
    ensures form.departmentId != "" ==> r.departmentId == ParseInt(form.departmentId)
  {
    EmployeeCreate(form.name, form.email, if form.departmentId != "" then ParseInt(form.departmentId) else None)
  }

  /** `handleSubmit`: an empty name or email is rejected with a message;
      otherwise the payload is sent. */
  function HandleSubmit(form: EmployeeForm): (r: Result<EmployeeCreate, string>)
    ensures r.Err? <==> form.name == "" || form.email == ""
    ensures r.Err? ==> r.error == "Name and email are required"
    ensures r.Ok? ==> r.value == Payload(form)
  {
    if form.name == "" || form.email == "" then Err("Name and email are required")
    else Ok(Payload(form))
  }

  /** A department picked in the select (its id written in decimal) reaches
      the server as that id. */
  lemma SelectedDepartmentArrives(name: string, email: string, id: nat)
    requires name != "" && email != ""
    ensures HandleSubmit(EmployeeForm(name, email, DecimalString(id))) == Ok(EmployeeCreate(name, email, Some(id)))
  {
    ParseDecimal(id);
  }

  /** The password panel: the password from a successful create, and whether
      it is revealed. */
  datatype PasswordPanel = PasswordPanel(generatedPassword: Option<string>, showPassword: bool)

  const Masked := "••••••••••"

  /** A successful create stores the generated password. */
  function Created(p: PasswordPanel, res: EmployeeResponse): (r: PasswordPanel)
    ensures r.generatedPassword == res.generatedPassword && r.showPassword == p.showPassword
  {
    p.(generatedPassword := res.generatedPassword)
  }

  /** The eye button. */
  function ToggleReveal(p: PasswordPanel): (r: PasswordPanel)
    ensures r.generatedPassword == p.generatedPassword && r.showPassword != p.showPassword
  {
    p.(showPassword := !p.showPassword)
  }

  /** The text in the panel: None while the form is shown (no password, or
      an empty one); the password only while revealed, the mask otherwise. */
  function Shown(p: PasswordPanel): (r: Option<string>)
    ensures r.None? <==> p.generatedPassword.None? || p.generatedPassword.value == ""
    ensures r.Some? ==> r.value == if p.showPassword then p.generatedPassword.value else Masked
  {
    match p.generatedPassword
    case Some(pw) => if pw != "" then Some(if p.showPassword then pw else Masked) else None
    case None => None
  }

  /** Two presses of the eye button restore the panel; the mask never
      depends on the password. */
  lemma RevealProperties(p: PasswordPanel, q: PasswordPanel)
    ensures ToggleReveal(ToggleReveal(p)) == p
    ensures Shown(p).Some? && Shown(q).Some? && !p.showPassword && !q.showPassword ==> Shown(p) == Shown(q)
  {
  }
}
