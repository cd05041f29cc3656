/** The registration form: the ordered checks of `handleSubmit` and the error it shows. */
module Register {
  import opened Common

  /** What the checks decide, in the order they are made. */
  datatype Check = FillInAllFields | PasswordsDoNotMatch | PasswordTooShort | CallRegister

  const MinPasswordLength: nat := 8

  /** The toast shown for a refused form. */
  function Message(c: Check): (m: string)
    requires c != CallRegister
  {
    match c
    case FillInAllFields => "Please fill in all fields"
    case PasswordsDoNotMatch => "Passwords do not match"
    case PasswordTooShort => "Password must be at least 8 characters long"
  }

  /** The checks of `handleSubmit`, each returning early. */
  function Validate(name: string, email: string, password: string, confirm: string): (c: Check)
    ensures c == CallRegister <==>
      name != "" && email != "" && password != "" && confirm != ""
      && password == confirm && |password| >= MinPasswordLength
    ensures c == FillInAllFields <==> name == "" || email == "" || password == "" || confirm == ""
    ensures c == PasswordsDoNotMatch <==>
      name != "" && email != "" && password != "" && confirm != "" && password != confirm
    ensures c == PasswordTooShort <==>
      name != "" && email != "" && password != "" && confirm != ""
      && password == confirm && |password| < MinPasswordLength
  {
    if name == "" || email == "" || password == "" || confirm == "" then FillInAllFields
    else if password != confirm then PasswordsDoNotMatch
    else if |password| < MinPasswordLength then PasswordTooShort
    else CallRegister
  }

  /** A short password that also differs from its confirmation reports the mismatch. */
  lemma MismatchReportedBeforeLength(name: string, email: string, password: string, confirm: string)
    requires name != "" && email != "" && password != "" && confirm != ""
    requires password != confirm && |password| < MinPasswordLength
    ensures Validate(name, email, password, confirm) == PasswordsDoNotMatch
    ensures Message(Validate(name, email, password, confirm)) == "Passwords do not match"
  {
  }

  /** What `register` threw: an `Error` with its message, or some other value. */
  datatype Thrown = ErrorObject(message: string) | OtherValue

  /** `error instanceof Error ? error.message : 'Registration failed. Please try again.'`. */
  function ErrorMessage(e: Thrown): (m: string)
    ensures e.ErrorObject? ==> m == e.message
    ensures e.OtherValue? ==> m == "Registration failed. Please try again."
  {
    match e
    case ErrorObject(msg) => msg
    case OtherValue => "Registration failed. Please try again."
  }

  /** The `error` state after a submit: cleared at the start, and set only when `register`
      was called and threw (`thrown`, `None` when it succeeded). Refused forms only toast. */
  function ErrorAfterSubmit(name: string, email: string, password: string, confirm: string,
                            thrown: Option<Thrown>): (err: string)
    ensures Validate(name, email, password, confirm) != CallRegister ==> err == ""
    ensures thrown.None? ==> err == ""
    ensures Validate(name, email, password, confirm) == CallRegister && thrown.Some? ==>
            err == ErrorMessage(thrown.value)
  {
    if Validate(name, email, password, confirm) != CallRegister then ""
    else match thrown
      case None => ""
      case Some(e) => ErrorMessage(e)
  }
}
