/** The sign-in and sign-up pages: what each submits, what it stores, where
    it navigates and which message it shows. The server's reply is a
    parameter. */
module AuthPages {
  import opened Wrappers
  import opened Text
  import opened Session
  import Navigation
  import Lists

  /* ---------- the browser's form validation ---------- */

  /** An ASCII letter or digit. */
  predicate IsAlnum(c: char) { 'a' <= c <= 'z' || 'A' <= c <= 'Z' || IsDigit(c) }

  /** A character allowed before the `@` of a valid e-mail address. */
  predicate IsLocalChar(c: char) { IsAlnum(c) || c in ".!#$%&'*+/=?^_`{|}~-" }

  /** One label of an e-mail domain: 1 to 63 letters, digits and hyphens,
      beginning and ending with a letter or digit. */
  predicate IsLabel(l: String)
  {
    && 1 <= |l| <= 63
    && IsAlnum(l[0]) && IsAlnum(l[|l| - 1])
    && forall i :: 0 <= i < |l| ==> IsAlnum(l[i]) || l[i] == '-'
  }

  /** Labels separated by single dots. */
  predicate IsDomain(d: String)
    decreases |d|
  {
    if '.' in d then
      var i := Lists.FirstIndex(d, '.');
      IsLabel(d[..i]) && IsDomain(d[i + 1..])
    else IsLabel(d)
  }

  /** A "valid e-mail address" in the sense of the HTML standard: a
      non-empty local part, one `@`, and a domain. An `<input type="email">`
      holding anything else blocks its form's submission. */
  predicate IsValidEmail(s: String)
  {
    && '@' in s
    && var i := Lists.FirstIndex(s, '@');
    && i > 0
    && (forall k :: 0 <= k < i ==> IsLocalChar(s[k]))
    && IsDomain(s[i + 1..])
  }

  /** A domain is non-empty and made of letters, digits, hyphens and dots. */
  lemma {:induction false} DomainChars(d: String)
    requires IsDomain(d)
    ensures |d| > 0
    ensures forall k :: 0 <= k < |d| ==> IsAlnum(d[k]) || d[k] == '-' || d[k] == '.'
    decreases |d|
  {
    if '.' in d {
      var i := Lists.FirstIndex(d, '.');
      DomainChars(d[i + 1..]);
      forall k | 0 <= k < |d|
        ensures IsAlnum(d[k]) || d[k] == '-' || d[k] == '.'
      {
        if k < i {
          assert d[k] == d[..i][k];
        } else if k > i {
          assert d[k] == d[i + 1..][k - i - 1];
        }
      }
    }
  }

  /** `s` holds exactly one `@`, neither first nor last. */
  predicate OneInnerAt(s: String)
  {
    exists i :: 0 < i < |s| - 1 && s[i] == '@' && forall k :: 0 <= k < |s| && s[k] == '@' ==> k == i
  }

  /** A valid e-mail address holds exactly one `@`, neither first nor last,
      and no white space. */
  lemma ValidEmailShape(s: String)
    requires IsValidEmail(s)
    ensures OneInnerAt(s)
    ensures forall k :: 0 <= k < |s| ==> !IsSpace(s[k])
  {
    var i := Lists.FirstIndex(s, '@');
    var d := s[i + 1..];
    DomainChars(d);
    forall k | 0 <= k < |s| && k > i
      ensures s[k] != '@' && !IsSpace(s[k])
    {
      assert s[k] == d[k - i - 1];
    }
    assert 0 < i < |s| - 1 && s[i] == '@';
  }

  /** The shortest address the browser accepts, and three it refuses. */
  lemma EmailExamples()
    ensures IsValidEmail("a@b")
    ensures !IsValidEmail("a") && !IsValidEmail("@b") && !IsValidEmail("a@")
  {
    var s: String := "a@b";
    assert s[0] != '@' && s[1] == '@';
    assert Lists.FirstIndex(s, '@') == 1;
    assert s[2..] == "b" && IsLabel("b");
    var t: String := "a@";
    assert Lists.FirstIndex(t, '@') == 1;
    assert !IsDomain(t[2..]);
  }

  /* ---------- sign in ---------- */

  datatype LoginPage = LoginPage(email: String, password: String, loading: bool, message: String)

  const InitialLoginPage: LoginPage := LoginPage("", "", false, "")

  datatype LoginRequest = LoginRequest(email: String, password: String)

  /** What the browser lets through to `handleLogin`: both inputs are
      `required`, the email input has `type="email"`, and the submit button
      is disabled while a login is in flight. */
  predicate LoginSubmittable(p: LoginPage)
  {
    !p.loading && p.email != [] && IsValidEmail(p.email) && p.password != []
  }

  datatype LoginStart = LoginBlocked | Posting(page: LoginPage, request: LoginRequest)

  /** Pressing "Login": the browser stops an incomplete form; otherwise the
      spinner starts, the old message goes, and the form's two fields are
      posted. */
  function StartLogin(p: LoginPage): (r: LoginStart)
    ensures r.LoginBlocked? <==> !LoginSubmittable(p)
    ensures r.Posting? ==> r.page.loading && r.page.message == ""
    ensures r.Posting? ==> r.page.email == p.email && r.page.password == p.password
    ensures r.Posting? ==> r.request.email == p.email && r.request.password == p.password
  {
    if !LoginSubmittable(p) then LoginBlocked
    else Posting(p.(loading := true, message := ""), LoginRequest(p.email, p.password))
  }

  /** A posted login carries a password and an address with exactly one
      `@`; the empty initial page posts nothing. */
  lemma PostedLoginWellFormed(p: LoginPage)
    ensures StartLogin(InitialLoginPage).LoginBlocked?
    ensures StartLogin(p).Posting? ==>
      StartLogin(p).request.password != [] && OneInnerAt(StartLogin(p).request.email)
  {
    if StartLogin(p).Posting? {
      ValidEmailShape(p.email);
    }
  }

  /** The server either accepts with a token and a user, or fails with an
      optional message in the error body. */
  datatype LoginResponse = LoginOk(token: String, user: UserRecord) | LoginError(serverMessage: Option<String>)

  datatype Effect = StoreCredentials(token: String, user: UserRecord) | NavigateTo(route: String)

  datatype LoginOutcome = LoginOutcome(page: LoginPage, session: State, effects: seq<Effect>)

  const LoginFallback: String := "Invalid email or password."

  /** Handling the reply: on success the credentials are stored and the
      user's dashboard opened; on failure the server's message, or a fixed
      one, is shown and the session is untouched. The spinner stops either way. */
  function FinishLogin(p: LoginPage, s: State, resp: LoginResponse): (r: LoginOutcome)
    ensures !r.page.loading
    ensures r.page.email == p.email && r.page.password == p.password
    ensures resp.LoginOk? ==>
      && r.session == SetCredentials(s, resp.token, resp.user)
      && r.effects == [StoreCredentials(resp.token, resp.user), NavigateTo(Navigation.LandingRoute(resp.user))]
      && r.page.message == p.message
    ensures resp.LoginError? ==>
      && r.session == s
      && r.effects == []
      && (TruthyOpt(resp.serverMessage) ==> r.page.message == resp.serverMessage.value)
      && (!TruthyOpt(resp.serverMessage) ==> r.page.message == LoginFallback)
  {
    match resp
    case LoginOk(token, user) =>
      LoginOutcome(p.(loading := false), SetCredentials(s, token, user),
        [StoreCredentials(token, user), NavigateTo(Navigation.LandingRoute(user))])
    case LoginError(m) =>
      LoginOutcome(p.(loading := false, message := OrElse(m, Some(LoginFallback)).value), s, [])
  }

  /** A whole attempt: a failed one leaves the session as it was and shows
      a non-empty message; a successful one stores the credentials before
      any navigation and lands on the dashboard of the area the sidebar
      then offers. */
  lemma LoginAttempt(p: LoginPage, s: State, resp: LoginResponse)
    ensures StartLogin(p).Posting? ==> var r := FinishLogin(StartLogin(p).page, s, resp);
      && !r.page.loading
      && (resp.LoginError? ==> r.session == s && |r.page.message| > 0)
      && (resp.LoginOk? ==>
        && (forall i, j :: 0 <= i < |r.effects| && 0 <= j < |r.effects| && r.effects[i].NavigateTo? && r.effects[j].StoreCredentials? ==> j < i)
        && r.session.user.Some?
        && (forall role :: Get(resp.user, "role") == Str(role) ==>
          StartsWith(r.effects[1].route, Navigation.AreaPrefix(role))))
  {
    if StartLogin(p).LoginBlocked? {
      return;
    }
    var r := FinishLogin(StartLogin(p).page, s, resp);
    if resp.LoginOk? {
      forall role | Get(resp.user, "role") == Str(role)
        ensures StartsWith(r.effects[1].route, Navigation.AreaPrefix(role))
      {
        Navigation.LandingAgreesWithSidebar(resp.user, role);
      }
    }
  }

  /* ---------- sign up ---------- */

  datatype RegisterForm = RegisterForm(
    fName: String,
    lName: String,
    contactNo: String,
    email: String,
    password: String,
    confirmPassword: String,
    role: String)

  /** The empty form. Its role is "patient", and the page renders no
      input that could change it. */
  const InitialRegisterForm: RegisterForm := RegisterForm("", "", "", "", "", "", "patient")

  /** The six inputs the page renders; `handleChange` stores an input's
      value under its `name`, and none is named `role`. */
  datatype RegisterInput = FNameInput | LNameInput | ContactInput | EmailInput | PasswordInput | ConfirmInput

  /** The form field an input is bound to. */
  function FieldOf(f: RegisterForm, input: RegisterInput): String
  {
    match input
    case FNameInput => f.fName
    case LNameInput => f.lName
    case ContactInput => f.contactNo
    case EmailInput => f.email
    case PasswordInput => f.password
    case ConfirmInput => f.confirmPassword
  }

  /** Typing into one input: its field takes the value, the other fields
      and the role are kept. */
  function EditRegister(f: RegisterForm, input: RegisterInput, value: String): (r: RegisterForm)
    ensures FieldOf(r, input) == value
    ensures forall other :: other != input ==> FieldOf(r, other) == FieldOf(f, other)
    ensures r.role == f.role
  {
    match input
    case FNameInput => f.(fName := value)
    case LNameInput => f.(lName := value)
    case ContactInput => f.(contactNo := value)
    case EmailInput => f.(email := value)
    case PasswordInput => f.(password := value)
    case ConfirmInput => f.(confirmPassword := value)
  }

  /** A sequence of edits, applied in order. */
  function ApplyEdits(f: RegisterForm, edits: seq<(RegisterInput, String)>): RegisterForm
    decreases |edits|
  {
    if |edits| == 0 then f else ApplyEdits(EditRegister(f, edits[0].0, edits[0].1), edits[1..])
  }

  /** No sequence of edits changes the role. */
  lemma {:induction false} EditsKeepRole(f: RegisterForm, edits: seq<(RegisterInput, String)>)
    ensures ApplyEdits(f, edits).role == f.role
    decreases |edits|
  {
    if |edits| > 0 {
      EditsKeepRole(EditRegister(f, edits[0].0, edits[0].1), edits[1..]);
    }
  }

  /** Every registration the page sends, whatever was typed, asks for a
      patient account. */
  lemma EveryRegistrationIsPatient(edits: seq<(RegisterInput, String)>)
    ensures var s := SubmitRegister(ApplyEdits(InitialRegisterForm, edits));
      s.RegisterRequest? ==> s.payload.role == "patient"
  {
    EditsKeepRole(InitialRegisterForm, edits);
  }

  /** Filling in the six inputs of the empty form and pressing "Register"
      sends what was typed, as a patient. */
  lemma DefaultRoleIsPatient(fName: String, lName: String, contactNo: String, email: String, password: String)
    requires fName != [] && lName != [] && contactNo != [] && IsValidEmail(email) && password != []
    ensures SubmitRegister(ApplyEdits(InitialRegisterForm, [(FNameInput, fName), (LNameInput, lName),
      (ContactInput, contactNo), (EmailInput, email), (PasswordInput, password), (ConfirmInput, password)]))
      == RegisterRequest(RegisterPayload(fName, lName, contactNo, email, password, "patient"))
  {
    var edits := [(FNameInput, fName), (LNameInput, lName),
      (ContactInput, contactNo), (EmailInput, email), (PasswordInput, password), (ConfirmInput, password)];
    var f0 := InitialRegisterForm;
    var f1 := EditRegister(f0, FNameInput, fName);
    var f2 := EditRegister(f1, LNameInput, lName);
    var f3 := EditRegister(f2, ContactInput, contactNo);
    var f4 := EditRegister(f3, EmailInput, email);
    var f5 := EditRegister(f4, PasswordInput, password);
    var f6 := EditRegister(f5, ConfirmInput, password);
    assert ApplyEdits(f0, edits) == ApplyEdits(f1, edits[1..]);
    assert ApplyEdits(f1, edits[1..]) == ApplyEdits(f2, edits[2..]);
    assert ApplyEdits(f2, edits[2..]) == ApplyEdits(f3, edits[3..]);
    assert ApplyEdits(f3, edits[3..]) == ApplyEdits(f4, edits[4..]);
    assert ApplyEdits(f4, edits[4..]) == ApplyEdits(f5, edits[5..]);
    assert ApplyEdits(f5, edits[5..]) == ApplyEdits(f6, edits[6..]);
    assert f6 == RegisterForm(fName, lName, contactNo, email, password, password, "patient");
  }

  /** What is sent: the form without its confirmation field. */
  datatype RegisterPayload = RegisterPayload(
    fName: String,
    lName: String,
    contactNo: String,
    email: String,
    password: String,
    role: String)

  function ToPayload(f: RegisterForm): RegisterPayload
  {
    RegisterPayload(f.fName, f.lName, f.contactNo, f.email, f.password, f.role)
  }

  /** Adding a confirmation field back to a payload. */
  function WithConfirmation(p: RegisterPayload, confirm: String): RegisterForm
  {
    RegisterForm(p.fName, p.lName, p.contactNo, p.email, p.password, confirm, p.role)
  }

  /** Only the confirmation field is dropped: it can be put back to recover
      the form exactly, and a payload survives the round trip. */
  lemma PayloadDropsOnlyConfirmation(f: RegisterForm, p: RegisterPayload, confirm: String)
    ensures WithConfirmation(ToPayload(f), f.confirmPassword) == f
    ensures ToPayload(WithConfirmation(p, confirm)) == p
  {
  }

  /** What the browser lets through to `handleRegister`: all six inputs are
      `required` and the email input has `type="email"`. */
  predicate RegisterSubmittable(f: RegisterForm)
  {
    && f.fName != [] && f.lName != [] && f.contactNo != []
    && f.email != [] && IsValidEmail(f.email)
    && f.password != [] && f.confirmPassword != []
  }

  datatype RegisterStep = RegisterBlocked | Mismatch(message: String) | RegisterRequest(payload: RegisterPayload)

  const MismatchMessage: String := "Passwords do not match."

  /** Pressing "Register": the browser stops an incomplete form;
      mismatched passwords stop with a message and send nothing; otherwise
      the payload is sent. */
  function SubmitRegister(f: RegisterForm): (r: RegisterStep)
    ensures r.RegisterBlocked? <==> !RegisterSubmittable(f)
    ensures r.Mismatch? <==> RegisterSubmittable(f) && f.password != f.confirmPassword
    ensures r.Mismatch? ==> r.message == MismatchMessage
    ensures r.RegisterRequest? ==> WithConfirmation(r.payload, f.password) == f
  {
    if !RegisterSubmittable(f) then RegisterBlocked
    else if f.password != f.confirmPassword then Mismatch(MismatchMessage)
    else RegisterRequest(ToPayload(f))
  }

  /** No field of a sent registration is empty and its email holds exactly
      one `@`; the untouched form sends nothing. */
  lemma SentRegistrationFilled(f: RegisterForm)
    ensures SubmitRegister(InitialRegisterForm).RegisterBlocked?
    ensures SubmitRegister(f).RegisterRequest? ==>
      var q := SubmitRegister(f).payload;
      q.fName != [] && q.lName != [] && q.contactNo != [] && q.password != [] && OneInnerAt(q.email)
  {
    if SubmitRegister(f).RegisterRequest? {
      ValidEmailShape(f.email);
    }
  }

  /** The reply: success carries the server's message (which may be absent),
      failure an optional message in the error body. */
  datatype RegisterResponse = Registered(message: Option<String>) | RegisterFailed(serverMessage: Option<String>)

  /** The page shows `message`; on success it also opens `/verify` carrying the email. */
  datatype RegisterOutcome = RegisterOutcome(message: Option<String>, verifyEmail: Option<String>)

  const RegisterFallback: String := "Registration failed."

  function FinishRegister(f: RegisterForm, resp: RegisterResponse): (r: RegisterOutcome)
    ensures resp.Registered? ==> r.message == resp.message && r.verifyEmail == Some(f.email)
    ensures resp.RegisterFailed? ==> r.verifyEmail.None? && r.message.Some?
    ensures resp.RegisterFailed? && TruthyOpt(resp.serverMessage) ==> r.message == resp.serverMessage
    ensures resp.RegisterFailed? && !TruthyOpt(resp.serverMessage) ==> r.message == Some(RegisterFallback)
  {
    match resp
    case Registered(m) => RegisterOutcome(m, Some(f.email))
    case RegisterFailed(m) => RegisterOutcome(OrElse(m, Some(RegisterFallback)), None)
  }

  /** The verification page is reached only through a sent request, and it
      receives the email that was sent. */
  lemma VerifyGetsSentEmail(f: RegisterForm, resp: RegisterResponse)
    requires SubmitRegister(f).RegisterRequest?
    requires FinishRegister(f, resp).verifyEmail.Some?
    ensures FinishRegister(f, resp).verifyEmail.value == SubmitRegister(f).payload.email
    ensures SubmitRegister(f).payload.role == f.role
  {
  }
}
