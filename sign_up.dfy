/** The sign-up form's submit handler: the two password fields are checked
    in a fixed order before any account is requested, and the outcome of the
    request is reported in the form's error line. */
module SignUp {
  import opened Wrappers

  const MismatchError: string := "Passwords do not match"
  const TooShortError: string := "Password must be at least 6 characters long"
  const GenericError: string := "An error occurred during signup"
  const NoUserError: string := "No user data returned"
  const MinPasswordLength: nat := 6

  /** The form's own checks, in the order they run: the message they fail
      with, or `None` when the account may be requested. */
  function Validate(password: string, confirmPassword: string): (r: Option<string>)
    ensures password != confirmPassword ==> r == Some(MismatchError)
    ensures password == confirmPassword && |password| < MinPasswordLength ==> r == Some(TooShortError)
    ensures r.None? <==> password == confirmPassword && |password| >= MinPasswordLength
  {
    if password != confirmPassword then Some(MismatchError)
    else if |password| < MinPasswordLength then Some(TooShortError)
    else None
  }

  /** Something thrown inside the `try`: an `Error` carries a message, any
      other value does not. */
  datatype Thrown = ErrorObject(message: string) | OtherValue

  /** `err instanceof Error ? err.message : ...`. */
  function ThrownMessage(t: Thrown): (m: string)
    ensures t.ErrorObject? ==> m == t.message
    ensures t.OtherValue? ==> m == GenericError
  {
    match t
    case ErrorObject(message) => message
    case OtherValue => GenericError
  }

  /** How the attempt ends: the sign-up call reports an error, returns no
      user, or succeeds and the checkout is attempted. The checkout hook
      catches its own failures and keeps them in its own state, so nothing
      from it reaches this handler's `catch`. */
  datatype Attempt = AuthFailed(error: Thrown) | NoUser | CheckoutAttempted

  /** The error line once an attempt has settled. */
  function AttemptError(a: Attempt): (e: string)
    ensures a.AuthFailed? ==> e == ThrownMessage(a.error)
    ensures a.NoUser? ==> e == NoUserError
    ensures a.CheckoutAttempted? ==> e == []
  {
    match a
    case AuthFailed(t) => ThrownMessage(t)
    case NoUser => NoUserError
    case CheckoutAttempted => []
  }

  /** An attempt that does not reach the checkout leaves a message, unless
      what was thrown is an `Error` whose own message is empty. */
  lemma FailedAttemptReported(a: Attempt)
    requires !a.CheckoutAttempted?
    requires a.AuthFailed? && a.error.ErrorObject? ==> a.error.message != []
    ensures AttemptError(a) != []
  {
  }

  /** The form's `error` and `loading` state; an empty error hides the error line. */
  class SignUpForm {
    var error: string
    var loading: bool

    constructor ()
      ensures error == [] && !loading
    {
      error := [];
      loading := false;
    }

    /** The synchronous part of `handleSignUp`, up to the sign-up request:
        the error is cleared, then the checks run; `attempt` says whether the
        account is requested. */
    method Submit(password: string, confirmPassword: string) returns (attempt: bool)
      modifies this
      ensures attempt <==> Validate(password, confirmPassword).None?
      ensures error == Validate(password, confirmPassword).GetOr([])
      ensures loading == (attempt || old(loading))
    {
      error := [];
      if password != confirmPassword {
        error := MismatchError;
        return false;
      }
      if |password| < MinPasswordLength {
        error := TooShortError;
        return false;
      }
      loading := true;
      attempt := true;
    }

    /** The `catch` and `finally` of `handleSignUp`, once the attempt has settled. */
    method Settle(a: Attempt)
      modifies this
      ensures a.CheckoutAttempted? ==> error == old(error)
      ensures !a.CheckoutAttempted? ==> error == AttemptError(a)
      ensures !loading
    {
      if !a.CheckoutAttempted? {
        error := AttemptError(a);
      }
      loading := false;
    }
  }

  /** A whole submission: a form that fails its checks shows the first
      failing check's message and requests nothing; one that passes requests
      the account and ends with `loading` false, with the error line empty
      once the checkout is reached, whether or not the checkout succeeds. */
  method HandleSignUp(form: SignUpForm, password: string, confirmPassword: string, a: Attempt)
    returns (attempted: bool)
    modifies form
    ensures attempted <==> Validate(password, confirmPassword).None?
    ensures !attempted ==> form.error == Validate(password, confirmPassword).value && form.loading == old(form.loading)
    ensures attempted ==> !form.loading && form.error == AttemptError(a)
    ensures attempted && a.CheckoutAttempted? ==> form.error == []
  {
    attempted := form.Submit(password, confirmPassword);
    if attempted {
      form.Settle(a);
    }
  }
}
