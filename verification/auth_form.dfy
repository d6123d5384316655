/** The sign-in form (src/components/auth/AuthForm.tsx): its three modes,
    what submitting, toggling and going back do to them, and the mapping of
    store error messages to the text shown. The authentication calls are
    external; their outcome is an input. */
module AuthForm {
  import opened Common

  datatype Mode = SignIn | SignUp | Confirmation

  /** The form's state. `error` is the error the authentication hook holds:
      cleared at each call and set to the thrown message when one fails. */
  datatype Form = Form(mode: Mode, email: string, password: string, confirmationEmail: string, error: Option<string>)

  /** The form on first render. */
  const Initial: Form := Form(SignIn, "", "", "", None)

  /** How the sign-up or sign-in call turns out. `needsConfirmation` is what
      sign-up reports when the store opened no session; sign-in ignores it. */
  datatype Reply = Threw(message: string) | Resolved(needsConfirmation: bool)

  const SignUpFallback: string := "An error occurred during sign up"
  const SignInFallback: string := "An error occurred during sign in"

  /** `handleSubmit`: clear the error; with an empty email or password stop
      there; otherwise sign up (in sign-up mode) or sign in, and enter the
      confirmation mode when a sign-up needs confirmation. */
  function Submit(f: Form, reply: Reply): (g: Form)
    ensures g.email == f.email && g.password == f.password
    ensures f.email == "" || f.password == "" ==> g == f.(error := None)
    ensures g.mode != f.mode ==>
      f.mode == SignUp && g.mode == Confirmation && reply == Resolved(true) && g.confirmationEmail == f.email
    ensures f.mode == SignUp && f.email != "" && f.password != "" && reply == Resolved(true) ==>
      g.mode == Confirmation && g.confirmationEmail == f.email
    ensures g.error.Some? <==> f.email != "" && f.password != "" && reply.Threw?
    ensures g.error.Some? ==> g.error.value != ""
  {
    var cleared := f.(error := None);
    if f.email == "" || f.password == "" then cleared
    else
      match reply
      case Threw(m) =>
        cleared.(error := Some(OrElse(Some(m), if f.mode == SignUp then SignUpFallback else SignInFallback)))
      case Resolved(needsConfirmation) =>
        if f.mode == SignUp && needsConfirmation then
          cleared.(mode := Confirmation, confirmationEmail := f.email)
        else cleared
  }

  /** The link under the form: sign-in and sign-up swap, and the error clears. */
  function Toggle(f: Form): (g: Form)
    ensures f.mode == SignIn ==> g.mode == SignUp
    ensures f.mode == SignUp ==> g.mode == SignIn
    ensures g.mode != Confirmation && g.error.None?
    ensures g.email == f.email && g.password == f.password && g.confirmationEmail == f.confirmationEmail
  {
    f.(mode := if f.mode == SignIn then SignUp else SignIn, error := None)
  }

  /** Toggling twice from either form mode restores the form but for the
      cleared error. */
  lemma ToggleTwice(f: Form)
    requires f.mode != Confirmation
    ensures Toggle(Toggle(f)) == f.(error := None)
  {
  }

  /** "Back to Sign In": sign-in mode, empty fields, error cleared. */
  function Back(f: Form): (g: Form)
    ensures g.mode == SignIn && g.email == "" && g.password == "" && g.error.None?
    ensures g.confirmationEmail == f.confirmationEmail
  {
    Form(SignIn, "", "", f.confirmationEmail, None)
  }

  /** The confirmation round: a sign-up that needs confirmation, then going
      back, lands on the initial form with the confirmation address kept. */
  lemma SignUpThenBack(email: string, password: string)
    requires email != "" && password != ""
    ensures Submit(Initial.(mode := SignUp, email := email, password := password), Resolved(true)).mode == Confirmation
    ensures Back(Submit(Initial.(mode := SignUp, email := email, password := password), Resolved(true)))
         == Initial.(confirmationEmail := email)
  {
  }

  /** The store messages the form recognises, and the texts it shows. */
  const BadCredentials: string := "Invalid login credentials"
  const NotConfirmed: string := "Email not confirmed"
  const AlreadyRegistered: string := "User already registered"
  const BadCredentialsText: string := "Invalid email or password. Please check your credentials and try again."
  const NotConfirmedText: string := "Please confirm your email address before signing in."
  const AlreadyRegisteredText: string := "An account with this email already exists. Please sign in instead."
  const UnexpectedText: string := "An unexpected error occurred. Please try again."

  /** `getErrorMessage(error)`: the first recognised substring decides;
      otherwise the raw message, or the generic text when there is none. */
  function ErrorMessage(message: Option<string>): (r: string)
    ensures message.Some? && Contains(message.value, BadCredentials) ==> r == BadCredentialsText
    ensures (message.Some? && !Contains(message.value, BadCredentials) && Contains(message.value, NotConfirmed))
      ==> r == NotConfirmedText
    ensures (message.Some? && !Contains(message.value, BadCredentials) && !Contains(message.value, NotConfirmed)
             && Contains(message.value, AlreadyRegistered))
      ==> r == AlreadyRegisteredText
    ensures !Recognised(message) ==> r == OrElse(message, UnexpectedText)
    ensures r != ""
  {
    match message
    case None => UnexpectedText
    case Some(m) =>
      if Contains(m, BadCredentials) then BadCredentialsText
      else if Contains(m, NotConfirmed) then NotConfirmedText
      else if Contains(m, AlreadyRegistered) then AlreadyRegisteredText
      else OrElse(message, UnexpectedText)
  }

  /** The message contains one of the recognised substrings. */
  predicate Recognised(message: Option<string>) {
    message.Some? &&
    (Contains(message.value, BadCredentials) || Contains(message.value, NotConfirmed)
     || Contains(message.value, AlreadyRegistered))
  }

  /** A message that mentions both bad credentials and an unconfirmed email
      is reported as bad credentials: the order of the checks decides. */
  lemma FirstMatchWins(prefix: string)
    ensures ErrorMessage(Some(BadCredentials + prefix + NotConfirmed)) == BadCredentialsText
    ensures ErrorMessage(Some(NotConfirmed)) == NotConfirmedText
  {
    ContainsAt(BadCredentials + prefix + NotConfirmed, BadCredentials, 0);
    ContainsAt(NotConfirmed, NotConfirmed, 0);
    assert !Contains(NotConfirmed, BadCredentials);
  }

  /** Every message shown is one of the four fixed texts or the raw message
      itself: the mapping never invents text. */
  lemma ShownTextIsKnownOrRaw(message: Option<string>)
    ensures var r := ErrorMessage(message);
      r in {BadCredentialsText, NotConfirmedText, AlreadyRegisteredText, UnexpectedText}
      || (message.Some? && r == message.value && !Recognised(message))
  {
  }
}
