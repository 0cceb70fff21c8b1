/** The password validators of the signup and password-change request
    bodies. Each of the two password fields is checked for length; the
    second one, when long enough, is then compared with the first as
    already validated. A first password that failed its own check is
    missing from the validated data, and looking it up raises instead of
    reporting an error. */
module UserSchemes {
  import opened Records

  const MinPasswordLength := 8
  const TooShort := "Password must be at least 8 characters long"
  const Mismatch := "Passwords do not match"

  /** The outcome of validating a request body: accepted, rejected with
      the errors of each failing field in field order, or an exception that
      is not a validation error (KeyError). */
  datatype Validation = Valid | Invalid(errors: seq<string>) | Crash

  /** password_length: the error for a value that is too short, if any. */
  function PasswordLength(value: string): (errors: seq<string>)
    ensures errors == [] <==> |value| >= MinPasswordLength
    ensures errors != [] ==> errors == [TooShort]
  {
    if |value| < MinPasswordLength then [TooShort] else []
  }

  /** Both validators of a (first, second) password pair, in the order
      the request body runs them. */
  function ValidatePasswordPair(first: string, second: string): (r: Validation)
    ensures r == Valid <==> |first| >= MinPasswordLength && second == first
    ensures r == Crash <==> |first| < MinPasswordLength && |second| >= MinPasswordLength
    ensures r.Invalid? ==> r.errors != [] && forall e :: e in r.errors ==> e == TooShort || e == Mismatch
    ensures r.Invalid? ==> (Mismatch in r.errors <==> |first| >= MinPasswordLength && |second| >= MinPasswordLength && second != first)
    ensures r.Invalid? ==> |r.errors| == (if |first| < MinPasswordLength then 1 else 0) + (if |second| < MinPasswordLength || second != first then 1 else 0)
  {
    var firstErrors := PasswordLength(first);
    var secondErrors := PasswordLength(second);
    if secondErrors != [] then Invalid(firstErrors + secondErrors)
    else if firstErrors != [] then Crash
    else if second != first then Invalid([Mismatch])
    else Valid
  }

  /** UserCreate: password1 and password2. */
  function ValidateUserCreate(data: UserCreate): (r: Validation)
    ensures r == Valid <==> |data.password1| >= MinPasswordLength && data.password1 == data.password2
    ensures r.Invalid? && |data.password1| >= MinPasswordLength && |data.password2| >= MinPasswordLength ==> r.errors == [Mismatch]
  {
    ValidatePasswordPair(data.password1, data.password2)
  }

  /** ChangePasswordSchema: new_password1 and new_password2; the old password is not checked. */
  function ValidateChangePassword(data: ChangePasswordSchema): (r: Validation)
    ensures r == Valid <==> |data.newPassword1| >= MinPasswordLength && data.newPassword1 == data.newPassword2
    ensures r.Invalid? && |data.newPassword1| >= MinPasswordLength && |data.newPassword2| >= MinPasswordLength ==> r.errors == [Mismatch]
  {
    ValidatePasswordPair(data.newPassword1, data.newPassword2)
  }

  /** A short first password with a long enough second one raises instead
      of being reported: the comparison looks up a first password the
      length check has already discarded. */
  lemma ShortFirstPasswordCrashes(first: string, second: string)
    requires |first| < MinPasswordLength <= |second|
    ensures ValidatePasswordPair(first, second) == Crash
    ensures ValidatePasswordPair(first, first) == Invalid([TooShort, TooShort])
  {
  }
}
