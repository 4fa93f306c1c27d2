/** The registration page (src/pages/RegisterPage.tsx): the password check
    that runs before an account is requested, and the submit handler. The call
    to Firebase Authentication is represented by its outcome: `None` when it
    resolves, `Some(message)` with the message of the error it throws. */
module Register {
  import opened VocabularyTypes

  const MinPasswordLength: nat := 6
  const PasswordTooShort: string := "Password must be at least 6 characters long."
  const PasswordsDiffer: string := "Passwords do not match."
  const RegisterFailed: string := "Failed to create an account. Please try again."

  /** validatePassword: the first problem found, or none. */
  function ValidatePassword(password: string, confirmPassword: string): (r: Option<string>)
    ensures r == None <==> |password| >= MinPasswordLength && password == confirmPassword
    ensures |password| < MinPasswordLength ==> r == Some(PasswordTooShort)
    ensures |password| >= MinPasswordLength && password != confirmPassword ==> r == Some(PasswordsDiffer)
  {
    if |password| < MinPasswordLength then Some(PasswordTooShort)
    else if password != confirmPassword then Some(PasswordsDiffer)
    else None
  }

  /** The message shown when the request fails: the error's own message, or
      the generic one when that is empty. */
  function FailureMessage(message: string): (r: string)
    ensures r != []
    ensures message != [] ==> r == message
  {
    if message != [] then message else RegisterFailed
  }

  /** The page state; `requests` records the (email, password, display name)
      triples sent to the authentication service, and `navigatedHome` whether
      the page moved on to the home page. */
  class RegisterForm {
    var email: string
    var password: string
    var confirmPassword: string
    var displayName: string
    var error: Option<string>
    var requests: seq<(string, string, string)>
    var navigatedHome: bool

    constructor()
      ensures email == [] && password == [] && confirmPassword == [] && displayName == []
      ensures error == None && requests == [] && !navigatedHome
    {
      email := [];
      password := [];
      confirmPassword := [];
      displayName := [];
      error := None;
      requests := [];
      navigatedHome := false;
    }

    /** handleSubmit: a password problem is shown and nothing is sent;
        otherwise the account is requested, and the page moves home when the
        request resolves or shows the failure message when it throws. */
    method HandleSubmit(outcome: Option<string>)
      modifies this
      ensures ValidatePassword(password, confirmPassword).Some? ==>
        error == ValidatePassword(password, confirmPassword)
        && requests == old(requests) && navigatedHome == old(navigatedHome)
      ensures ValidatePassword(password, confirmPassword).None? ==>
        requests == old(requests) + [(email, password, displayName)]
        && error == (if outcome.Some? then Some(FailureMessage(outcome.value)) else None)
        && navigatedHome == (old(navigatedHome) || outcome.None?)
      ensures requests != old(requests) ==> |password| >= MinPasswordLength && password == confirmPassword
      ensures email == old(email) && password == old(password)
      ensures confirmPassword == old(confirmPassword) && displayName == old(displayName)
    {
      var passwordError := ValidatePassword(password, confirmPassword);
      if passwordError.Some? {
        error := passwordError;
        return;
      }
      error := None;
      requests := requests + [(email, password, displayName)];
      match outcome
      case None =>
        navigatedHome := true;
      case Some(message) =>
        error := Some(FailureMessage(message));
    }
  }
}
