/**
 * The sign-up page: the form's validator, which reports every failing field at
 * once, and the change handler that edits one field and clears its error.
 */
module SignUpForm {
  import opened JsText
  import opened Validation
  import opened Wrappers
  import AccountStore

  datatype Form = Form(firstName: string, lastName: string, email: string, password: string,
                       confirmPassword: string, role: string, agreeToTerms: bool)

  const InitialForm: Form := Form("", "", "", "", "", "public-traveler", false)

  /** Keys of the error map; `General` holds the store's message after a refused submit. */
  datatype Field = FirstName | LastName | Email | Password | ConfirmPassword | Role | AgreeToTerms | General

  /** The `errors` object: for each key, absent (`None`) or present with its message. */
  datatype Errors = Errors(firstName: Option<string>, lastName: Option<string>, email: Option<string>,
                           password: Option<string>, confirmPassword: Option<string>, role: Option<string>,
                           agreeToTerms: Option<string>, general: Option<string>)

  const NoErrors: Errors := Errors(None, None, None, None, None, None, None, None)

  function ErrorAt(e: Errors, k: Field): Option<string> {
    match k
    case FirstName => e.firstName
    case LastName => e.lastName
    case Email => e.email
    case Password => e.password
    case ConfirmPassword => e.confirmPassword
    case Role => e.role
    case AgreeToTerms => e.agreeToTerms
    case General => e.general
  }

  function SetErrorAt(e: Errors, k: Field, m: Option<string>): Errors {
    match k
    case FirstName => e.(firstName := m)
    case LastName => e.(lastName := m)
    case Email => e.(email := m)
    case Password => e.(password := m)
    case ConfirmPassword => e.(confirmPassword := m)
    case Role => e.(role := m)
    case AgreeToTerms => e.(agreeToTerms := m)
    case General => e.(general := m)
  }

  const FirstNameRequired := "First name is required"
  const LastNameRequired := "Last name is required"
  const EmailRequired := "Email is required"
  const EmailMalformed := "Please enter a valid email"
  const PasswordRequired := "Password is required"
  const PasswordTooShort := "Password must be at least 8 characters"
  const PasswordWeak := "Password must contain uppercase, lowercase, and numbers"
  const PasswordsDiffer := "Passwords do not match"
  const RoleRequired := "Please select a role"
  const TermsRequired := "You must agree to the terms and conditions"

  datatype Verdict = Verdict(passed: bool, errors: Errors)

  /** An email that passes the pattern is never empty. */
  lemma ValidEmailNonEmpty(s: string)
    ensures ValidEmail(s) ==> s != ""
  {
  }

  /** The email message: "required" takes priority over "invalid format". */
  function EmailError(email: string): (r: Option<string>)
    ensures r.Some? <==> !ValidEmail(email)
    ensures r.Some? ==> r.value == if email == "" then EmailRequired else EmailMalformed
  {
    ValidEmailNonEmpty(email);
    if email == "" then Some(EmailRequired)
    else if !ValidEmail(email) then Some(EmailMalformed)
    else None
  }

  /** The password message: "required", then "too short", then "missing a character class". */
  function PasswordError(password: string): (r: Option<string>)
    ensures r.Some? <==> !StrongPassword(password)
    ensures r.Some? ==>
              r.value == if password == "" then PasswordRequired
                         else if Length(password) < MinPasswordLength then PasswordTooShort
                         else PasswordWeak
  {
    if password == "" then Some(PasswordRequired)
    else if Length(password) < MinPasswordLength then Some(PasswordTooShort)
    else if !HasAllClasses(password) then Some(PasswordWeak)
    else None
  }

  /** `Object.keys(errors).length === 0`: no key is present. */
  lemma NoKeysPresent(e: Errors)
    ensures e == NoErrors <==> forall k :: ErrorAt(e, k).None?
  {
    if forall k :: ErrorAt(e, k).None? {
      assert ErrorAt(e, FirstName).None? && ErrorAt(e, LastName).None? && ErrorAt(e, Email).None?;
      assert ErrorAt(e, Password).None? && ErrorAt(e, ConfirmPassword).None? && ErrorAt(e, Role).None?;
      assert ErrorAt(e, AgreeToTerms).None? && ErrorAt(e, General).None?;
    }
  }

  /** `validateForm`: every field is checked, each key gets at most one message, and the form passes iff no key is present. */
  function ValidateForm(f: Form): (v: Verdict)
    ensures v.passed <==> v.errors == NoErrors
    ensures v.errors.firstName.Some? <==> Blank(f.firstName)
    ensures v.errors.lastName.Some? <==> Blank(f.lastName)
    ensures v.errors.email.Some? <==> !ValidEmail(f.email)
    ensures v.errors.email.Some? ==> v.errors.email.value == if f.email == "" then EmailRequired else EmailMalformed
    ensures v.errors.password.Some? <==> !StrongPassword(f.password)
    ensures v.errors.password.Some? ==>
              v.errors.password.value == if f.password == "" then PasswordRequired
                                         else if Length(f.password) < MinPasswordLength then PasswordTooShort
                                         else PasswordWeak
    ensures v.errors.confirmPassword.Some? <==> f.password != f.confirmPassword
    ensures v.errors.role.Some? <==> f.role == ""
    ensures v.errors.agreeToTerms.Some? <==> !f.agreeToTerms
    ensures v.errors.general.None?
  {
    var e := Errors(
      if Blank(f.firstName) then Some(FirstNameRequired) else None,
      if Blank(f.lastName) then Some(LastNameRequired) else None,
      EmailError(f.email),
      PasswordError(f.password),
      if f.password != f.confirmPassword then Some(PasswordsDiffer) else None,
      if f.role == "" then Some(RoleRequired) else None,
      if !f.agreeToTerms then Some(TermsRequired) else None,
      None);
    Verdict(e == NoErrors, e)
  }

  // ----- handleChange -----

  /** The value held in one form field. */
  datatype FieldValue = TextValue(text: string) | FlagValue(flag: bool)

  function Get(f: Form, g: Field): FieldValue
    requires g != General
  {
    match g
    case FirstName => TextValue(f.firstName)
    case LastName => TextValue(f.lastName)
    case Email => TextValue(f.email)
    case Password => TextValue(f.password)
    case ConfirmPassword => TextValue(f.confirmPassword)
    case Role => TextValue(f.role)
    case AgreeToTerms => FlagValue(f.agreeToTerms)
  }

  /** A change event: a text input or the role select, or the terms checkbox (the form's only checkbox). */
  datatype Change = Typed(field: Field, value: string) | Ticked(checked: bool)

  /** The inputs the page renders: text fields and the select carry text, the checkbox carries `checked`. */
  predicate Rendered(c: Change) {
    c.Typed? ==> c.field != AgreeToTerms && c.field != General
  }

  function Target(c: Change): Field {
    if c.Typed? then c.field else AgreeToTerms
  }

  function NewValue(c: Change): FieldValue {
    if c.Typed? then TextValue(c.value) else FlagValue(c.checked)
  }

  /** `handleChange`: stores the new value in the named field and blanks that field's message if it had one. */
  function HandleChange(f: Form, errs: Errors, c: Change): (r: (Form, Errors))
    requires Rendered(c)
    ensures Get(r.0, Target(c)) == NewValue(c)
    ensures forall g | g != General && g != Target(c) :: Get(r.0, g) == Get(f, g)
    ensures forall k | k != Target(c) :: ErrorAt(r.1, k) == ErrorAt(errs, k)
    ensures ErrorAt(r.1, Target(c)).Some? <==> ErrorAt(errs, Target(c)).Some?
    ensures ErrorAt(r.1, Target(c)).Some? ==> ErrorAt(r.1, Target(c)).value == ""
  {
    var f' := match c
      case Ticked(b) => f.(agreeToTerms := b)
      case Typed(field, v) =>
        match field
        case FirstName => f.(firstName := v)
        case LastName => f.(lastName := v)
        case Email => f.(email := v)
        case Password => f.(password := v)
        case ConfirmPassword => f.(confirmPassword := v)
        case Role => f.(role := v);
    var name := Target(c);
    var errs' := match ErrorAt(errs, name)
      case Some(m) => if m != "" then SetErrorAt(errs, name, Some("")) else errs
      case None => errs;
    (f', errs')
  }

  /** Two edits of the same field leave what the second edit alone would leave. */
  lemma ChangeLastWins(f: Form, errs: Errors, c1: Change, c2: Change)
    requires Rendered(c1) && Rendered(c2) && Target(c1) == Target(c2)
    ensures var (f1, e1) := HandleChange(f, errs, c1);
            HandleChange(f1, e1, c2) == HandleChange(f, errs, c2)
  {
  }

  // ----- the form against the store -----

  function ToSignUpData(f: Form): AccountStore.SignUpData {
    AccountStore.SignUpData(f.firstName, f.lastName, f.email, f.password, f.role)
  }

  /** A form that passes validation can only be refused by the store for an email already taken. */
  lemma ValidFormOnlyFailsOnDuplicate(f: Form, s: AccountStore.Store, today: string)
    requires ValidateForm(f).passed
    ensures var r := AccountStore.SignUp(s, ToSignUpData(f), today).reply;
            && (r.Ok? || r == AccountStore.Fail(AccountStore.EmailTaken))
            && (r.Ok? <==> !AccountStore.Registered(s.users, f.email))
  {
    var v := ValidateForm(f);
    assert v.errors == NoErrors;
    assert !Blank(f.firstName) && !Blank(f.lastName);
    assert Trim("") == [];
    assert f.firstName != "" && f.lastName != "";
    ValidEmailNonEmpty(f.email);
    assert StrongPassword(f.password) && f.password != "";
    var d := ToSignUpData(f);
    assert AccountStore.AllPresent(d);
  }

  lemma SampleEmailValid()
    ensures ValidEmail("new@x.io")
  {
    var e := "new@x.io";
    assert EmailSplit(e, 3, 5);
  }

  /** A white-space first name: the form refuses it, the store's own check lets it through. */
  lemma WhitespaceNameSplitsFormAndStore()
    ensures var f := Form(" ", "Doe", "new@x.io", "GoodPass1", "GoodPass1", "admin", true);
            && ValidateForm(f).errors.firstName.Some?
            && AccountStore.SignUp(AccountStore.Seed, ToSignUpData(f), "2025-06-01").reply.Ok?
  {
    var f := Form(" ", "Doe", "new@x.io", "GoodPass1", "GoodPass1", "admin", true);
    assert AllSpace(f.firstName);
    var d := ToSignUpData(f);
    assert AccountStore.AllPresent(d);
    SampleEmailValid();
    GoodPasswordExample();
    NotInSeed(f.email);
  }

  lemma NotInSeed(e: string)
    requires e == "new@x.io"
    ensures !AccountStore.Registered(AccountStore.Seed.users, e)
  {
    var u := AccountStore.Seed.users;
    assert u[0].email[0] != e[0] && u[1].email[0] != e[0] && u[2].email[0] != e[0] && u[3].email[0] != e[0];
  }
}
