/** The server actions of src/actions/auth.ts that decide something: input
    checks, the mapping of the auth service's error messages to what the
    forms show, and the profile row that sign-in creates when it is
    missing. The auth service's answers are parameters; a form field that
    is absent reads as the empty string, which is falsy like `null`. */
module AuthActions {
  import opened Common
  import opened Strings
  import opened TaskService

  datatype Status = Success | Failure

  /** `{ status, message }`. */
  datatype Reply = Reply(status: Status, message: string)

  const AllFieldsRequired: string := "All fields are required"
  const PasswordTooShort: string := "Password must be at least 6 characters long"
  const InvalidEmailAddress: string := "Please enter a valid email address"
  const WeakPassword: string := "Password is too weak. Please use a stronger password"
  const AccountExists: string := "An account with this email already exists. Please sign in instead"
  const AccountCreated: string := "Account created successfully! Please check your email to verify your account"
  const CredentialsRequired: string := "Email and password are required"
  const WrongCredentials: string := "Invalid email or password. Please check your credentials and try again"
  const ConfirmEmailFirst: string := "Please check your email and click the confirmation link before signing in"
  const ProfileCreateFailed: string := "Failed to create user profile. Please try again"
  const SignedInWelcome: string := "Successfully signed in! Welcome back"
  const EmailRequired: string := "Email address is required"
  const ResetEmailSent: string := "Password reset email sent! Please check your inbox"
  const PasswordRequired: string := "Password is required"
  const ResetLinkInvalid: string := "Invalid or expired reset link. Please request a new password reset"
  const PasswordUpdated: string := "Password updated successfully! You can now sign in with your new password"

  /** The shortest password the forms accept. */
  const MinPasswordLength: nat := 6

  /** The sign-up checks made before the auth service is asked: every field
      present, then a long enough password. */
  function SignUpInputError(username: string, email: string, password: string): (e: Option<string>)
    ensures (email == "" || password == "" || username == "") ==> e == Some(AllFieldsRequired)
    ensures email != "" && password != "" && username != "" ==>
      (e.Some? <==> |password| < MinPasswordLength) && (e.Some? ==> e.value == PasswordTooShort)
  {
    if email == "" || password == "" || username == "" then Some(AllFieldsRequired)
    else if |password| < MinPasswordLength then Some(PasswordTooShort)
    else None
  }

  /** What `auth.signUp` answers: an error, or a user with the given number
      of identities (`None` when the field is missing). */
  datatype SignUpAnswer = SignUpError(message: string) | SignUpUser(identities: Option<nat>)

  /** The sign-up error classification: "Invalid email" first, then
      "Password", and otherwise the service's own message. */
  function SignUpErrorMessage(m: string): (r: string)
    ensures Includes(m, "Invalid email") ==> r == InvalidEmailAddress
    ensures !Includes(m, "Invalid email") && Includes(m, "Password") ==> r == WeakPassword
    ensures !Includes(m, "Invalid email") && !Includes(m, "Password") ==> r == m
  {
    if Includes(m, "Invalid email") then InvalidEmailAddress
    else if Includes(m, "Password") then WeakPassword
    else m
  }

  /** `signUp`. */
  function SignUp(username: string, email: string, password: string, answer: SignUpAnswer): (r: Reply)
    ensures SignUpInputError(username, email, password).Some? ==>
      r == Reply(Failure, SignUpInputError(username, email, password).value)
    ensures SignUpInputError(username, email, password).None? ==>
      (r.status == Success <==> answer.SignUpUser? && answer.identities != Some(0))
    ensures SignUpInputError(username, email, password).None? && answer.SignUpError? ==>
      r.message == SignUpErrorMessage(answer.message)
    ensures SignUpInputError(username, email, password).None? && answer == SignUpUser(Some(0)) ==>
      r.message == AccountExists
    ensures r.status == Success ==> r.message == AccountCreated
  {
    match SignUpInputError(username, email, password)
    case Some(e) => Reply(Failure, e)
    case None =>
      match answer
      case SignUpError(m) => Reply(Failure, SignUpErrorMessage(m))
      case SignUpUser(ids) =>
        if ids == Some(0) then Reply(Failure, AccountExists) else Reply(Success, AccountCreated)
  }

  /** Input that fails the checks never reaches the auth service: the
      reply is the same whatever the service would have answered. */
  lemma SignUpChecksFirst(username: string, email: string, password: string, a: SignUpAnswer, b: SignUpAnswer)
    requires SignUpInputError(username, email, password).Some?
    ensures SignUp(username, email, password, a) == SignUp(username, email, password, b)
    ensures SignUp(username, email, password, a).status == Failure
  {
  }

  /** What `auth.signInWithPassword` answers. */
  datatype SignInAnswer = SignInError(message: string) | SignInUser(username: Option<string>)

  /** The sign-in error classification, in its order: bad credentials,
      unconfirmed email, malformed email, otherwise the service's message. */
  function SignInErrorMessage(m: string): (r: string)
    ensures Includes(m, "Invalid login credentials") ==> r == WrongCredentials
    ensures !Includes(m, "Invalid login credentials") && Includes(m, "Email not confirmed") ==> r == ConfirmEmailFirst
    ensures (!Includes(m, "Invalid login credentials") && !Includes(m, "Email not confirmed")
      && Includes(m, "Invalid email")) ==> r == InvalidEmailAddress
    ensures (!Includes(m, "Invalid login credentials") && !Includes(m, "Email not confirmed")
      && !Includes(m, "Invalid email")) ==> r == m
  {
    if Includes(m, "Invalid login credentials") then WrongCredentials
    else if Includes(m, "Email not confirmed") then ConfirmEmailFirst
    else if Includes(m, "Invalid email") then InvalidEmailAddress
    else m
  }

  /** `signIn`: check the input, ask the auth service, then make sure the
      user has a profile row, inserting one only when none exists for the
      email. */
  method SignIn(store: Store, email: string, password: string, answer: SignInAnswer, insertOk: bool) returns (r: Reply)
    requires store.Valid()
    modifies store
    ensures store.Valid()
    ensures store.tasks == old(store.tasks)
    ensures r.status == Failure ==> store.profiles == old(store.profiles)
    ensures email == "" || password == "" ==> r == Reply(Failure, CredentialsRequired)
    ensures email != "" && password != "" && answer.SignInError? ==>
      r == Reply(Failure, SignInErrorMessage(answer.message))
    ensures email != "" && password != "" && answer.SignInUser? ==>
      if email in old(store.profiles) then
        r == Reply(Success, SignedInWelcome) && store.profiles == old(store.profiles)
      else if insertOk then
        r == Reply(Success, SignedInWelcome)
        && store.profiles == old(store.profiles)[email := Profile(old(store.nextProfileId), email, answer.username)]
      else
        r == Reply(Failure, ProfileCreateFailed)
    ensures r.status == Success ==> email in store.profiles
  {
    if email == "" || password == "" {
      return Reply(Failure, CredentialsRequired);
    }
    if answer.SignInError? {
      return Reply(Failure, SignInErrorMessage(answer.message));
    }
    var ok := store.EnsureProfile(email, answer.username, insertOk);
    if !ok {
      return Reply(Failure, ProfileCreateFailed);
    }
    r := Reply(Success, SignedInWelcome);
  }

  /** `forgotPassword`: an email is required; the service's error (if any)
      is classified like a sign-up error about the email. */
  function ForgotPassword(email: string, serviceError: Option<string>): (r: Reply)
    ensures email == "" ==> r == Reply(Failure, EmailRequired)
    ensures email != "" ==> (r.status == Success <==> serviceError.None?)
    ensures email != "" && serviceError.None? ==> r.message == ResetEmailSent
    ensures email != "" && serviceError.Some? ==>
      r.message == (if Includes(serviceError.value, "Invalid email") then InvalidEmailAddress else serviceError.value)
  {
    if email == "" then Reply(Failure, EmailRequired)
    else match serviceError
      case None => Reply(Success, ResetEmailSent)
      case Some(m) => Reply(Failure, if Includes(m, "Invalid email") then InvalidEmailAddress else m)
  }

  /** `resetPassword`: a present, long enough password, then a code that
      exchanges for a session, then the update. */
  function ResetPassword(password: string, exchangeOk: bool, updateError: Option<string>): (r: Reply)
    ensures password == "" ==> r == Reply(Failure, PasswordRequired)
    ensures password != "" && |password| < MinPasswordLength ==> r == Reply(Failure, PasswordTooShort)
    ensures |password| >= MinPasswordLength && !exchangeOk ==> r == Reply(Failure, ResetLinkInvalid)
    ensures |password| >= MinPasswordLength && exchangeOk && updateError.Some? ==> r == Reply(Failure, updateError.value)
    ensures r.status == Success <==> |password| >= MinPasswordLength && exchangeOk && updateError.None?
    ensures r.status == Success ==> r.message == PasswordUpdated
  {
    if password == "" then Reply(Failure, PasswordRequired)
    else if |password| < MinPasswordLength then Reply(Failure, PasswordTooShort)
    else if !exchangeOk then Reply(Failure, ResetLinkInvalid)
    else match updateError
      case Some(m) => Reply(Failure, m)
      case None => Reply(Success, PasswordUpdated)
  }

  /** A password the checks reject is refused before the code is
      exchanged: the reply does not depend on the service's answers. */
  lemma ResetChecksFirst(password: string, e1: bool, u1: Option<string>, e2: bool, u2: Option<string>)
    requires |password| < MinPasswordLength
    ensures ResetPassword(password, e1, u1) == ResetPassword(password, e2, u2)
    ensures ResetPassword(password, e1, u1).status == Failure
  {
  }
}
