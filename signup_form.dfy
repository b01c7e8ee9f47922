/** The sign-up form's handlers: field edits, validation before `signUp`,
    and the outcome shown after it. */
module Signup {
  import opened Outcomes

  const FeedPath := "/feed"
  const MinPasswordLength := 6
  const PasswordsDiffer := "Passwords do not match"
  const PasswordTooShort := "Password must be at least 6 characters long"
  const AccountNotCreated := "Failed to create account. Email might already be in use."
  const SignupCrashed := "An error occurred during signup. Please try again."

  /** The inputs of the form, by their `name` attribute. */
  datatype FormField = Email | Password | ConfirmPassword

  class SignupForm {
    var email: string
    var password: string
    var confirmPassword: string
    var error: string
    var isLoading: bool

    constructor ()
      ensures email == "" && password == "" && confirmPassword == ""
      ensures error == "" && !isLoading
    {
      email, password, confirmPassword := "", "", "";
      error, isLoading := "", false;
    }

    /** `handleChange`: replaces the named field of `formData`. */
    method HandleChange(name: FormField, value: string)
      modifies this
      ensures email == (if name == Email then value else old(email))
      ensures password == (if name == Password then value else old(password))
      ensures confirmPassword == (if name == ConfirmPassword then value else old(confirmPassword))
      ensures error == old(error) && isLoading == old(isLoading)
    {
      match name
      case Email => email := value;
      case Password => password := value;
      case ConfirmPassword => confirmPassword := value;
    }

    /** `handleSubmit`: rejects mismatched, then short passwords without
        calling `signUp`; otherwise `signUp` settles with `reply`, and success
        navigates to the feed (reported as `navigateTo`). */
    method HandleSubmit(reply: Reply<bool>) returns (signUpCalled: bool, navigateTo: Option<string>)
      modifies this
      ensures email == old(email) && password == old(password) && confirmPassword == old(confirmPassword)
      ensures signUpCalled <==> password == confirmPassword && |password| >= MinPasswordLength
      ensures password != confirmPassword ==>
        error == PasswordsDiffer && navigateTo == None && isLoading == old(isLoading)
      ensures password == confirmPassword && |password| < MinPasswordLength ==>
        error == PasswordTooShort && navigateTo == None && isLoading == old(isLoading)
      ensures signUpCalled ==> !isLoading
      ensures signUpCalled ==> match reply
        case Returned(true) => navigateTo == Some(FeedPath) && error == ""
        case Returned(false) => navigateTo == None && error == AccountNotCreated
        case Threw => navigateTo == None && error == SignupCrashed
    {
      error := "";
      navigateTo := None;
      if password != confirmPassword {
        error := PasswordsDiffer;
        return false, None;
      }
      if |password| < MinPasswordLength {
        error := PasswordTooShort;
        return false, None;
      }
      isLoading := true;
      signUpCalled := true;
      match reply {
      case Returned(success) =>
        if success {
          navigateTo := Some(FeedPath);
        } else {
          error := AccountNotCreated;
        }
      case Threw =>
        error := SignupCrashed;
      }
      isLoading := false;
    }
  }
}
