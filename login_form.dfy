/** The login form's submit handler and the outcome it shows. */
module Login {
  import opened Outcomes

  const FeedPath := "/feed"
  const InvalidCredentials :=
    "Invalid email or password. Try demo@example.com / password123 or test@user.com / testpass"
  const LoginCrashed := "An error occurred during login. Please try again."

  class LoginForm {
    var email: string
    var password: string
    var error: string
    var isLoading: bool

    constructor ()
      ensures email == "" && password == "" && error == "" && !isLoading
    {
      email, password, error, isLoading := "", "", "", false;
    }

    /** `handleSubmit`: `signIn(email, password)` settles with `reply`;
        success navigates to the feed (reported as `navigateTo`), a refusal
        shows one message whatever its cause. */
    method HandleSubmit(reply: Reply<bool>) returns (navigateTo: Option<string>)
      modifies this
      ensures email == old(email) && password == old(password)
      ensures !isLoading
      ensures match reply
        case Returned(true) => navigateTo == Some(FeedPath) && error == ""
        case Returned(false) => navigateTo == None && error == InvalidCredentials
        case Threw => navigateTo == None && error == LoginCrashed
    {
      error := "";
      isLoading := true;
      navigateTo := None;
      match reply {
      case Returned(success) =>
        if success {
          navigateTo := Some(FeedPath);
        } else {
          error := InvalidCredentials;
        }
      case Threw =>
        error := LoginCrashed;
      }
      isLoading := false;
    }
  }
}
