/** The session controller `AuthProvider`: who is signed in, whether startup
    is still running, and the session cookie it keeps in step. The user store
    it calls (`getUserById`, `authenticateUser`, `addUser`) is not part of this
    model; each call is a parameter giving that call's settled outcome. */
module AuthSession {
  import opened Outcomes
  import FeedsStore

  /** A user account as the user store hands it out; only the fields this
      model reads. */
  datatype User = User(id: string, email: string)

  /** Whether `if (savedUserId)` takes its branch: present and non-empty. */
  predicate Truthy(saved: Option<string>) {
    saved.Some? && saved.value != ""
  }

  class AuthProvider {
    var isSignedIn: bool
    var user: Option<User>
    var loading: bool
    /** What `getAuthCookie()` returns: the value of the `authUserId` cookie. */
    var authCookie: Option<string>

    /** Signed in exactly when there is a user. */
    ghost predicate Valid()
      reads this
    {
      isSignedIn <==> user.Some?
    }

    /** The provider as mounted, in a browser holding `savedCookie`. */
    constructor (savedCookie: Option<string>)
      ensures Valid()
      ensures !isSignedIn && user == None && loading && authCookie == savedCookie
    {
      isSignedIn, user, loading := false, None, true;
      authCookie := savedCookie;
    }

    /** `initializeAuth`: initializes the store, then resolves a saved session
        pointer to a user; a pointer that resolves to nothing is cleared.
        Loading ends whatever happens. */
    method InitializeAuth(db: FeedsStore.FeedsDB, faults: set<FeedsStore.Request>,
                          getUserById: string -> Reply<Option<User>>)
      requires Valid() && db.Valid()
      modifies this, db
      ensures Valid() && db.Valid()
      ensures !loading
      ensures db.posts == old(db.posts)
      ensures FeedsStore.Open in faults || !Truthy(old(authCookie)) ==>
        isSignedIn == old(isSignedIn) && user == old(user) && authCookie == old(authCookie)
      ensures FeedsStore.Open !in faults && Truthy(old(authCookie)) ==>
        match getUserById(old(authCookie).value)
        case Returned(Some(u)) => user == Some(u) && isSignedIn && authCookie == old(authCookie)
        case Returned(None) => user == old(user) && isSignedIn == old(isSignedIn) && authCookie == None
        case Threw => user == old(user) && isSignedIn == old(isSignedIn) && authCookie == old(authCookie)
    {
      var seeded := db.SeedInitialData(faults);
      if seeded.Success? {
        var savedUserId := authCookie;
        if Truthy(savedUserId) {
          var reply := getUserById(savedUserId.value);
          if reply.Returned? {
            var savedUser := reply.value;
            if savedUser.Some? {
              user := savedUser;
              isSignedIn := true;
            } else {
              // the pointer is stale: clearAuthCookie()
              authCookie := None;
            }
          }
        }
      }
      loading := false;
    }

    /** `signIn`: on a match, signs the user in and points the cookie at them. */
    method SignIn(email: string, password: string,
                  authenticateUser: (string, string) -> Reply<Option<User>>) returns (ok: bool)
      requires Valid()
      modifies this
      ensures Valid()
      ensures ok <==> authenticateUser(email, password).Returned? && authenticateUser(email, password).value.Some?
      ensures ok ==> var u := authenticateUser(email, password).value.value;
        user == Some(u) && isSignedIn && authCookie == Some(u.id) && loading == old(loading)
      ensures !ok ==> unchanged(this)
    {
      var reply := authenticateUser(email, password);
      if reply.Threw? {
        return false;
      }
      var authenticatedUser := reply.value;
      if authenticatedUser.Some? {
        user := authenticatedUser;
        isSignedIn := true;
        authCookie := Some(authenticatedUser.value.id);
        return true;
      }
      return false;
    }

    /** `signUp`: adds the user and signs them in; a throwing `addUser`
        leaves everything as it was. */
    method SignUp(email: string, password: string,
                  addUser: (string, string) -> Reply<User>) returns (ok: bool)
      requires Valid()
      modifies this
      ensures Valid()
      ensures ok <==> addUser(email, password).Returned?
      ensures ok ==> var u := addUser(email, password).value;
        user == Some(u) && isSignedIn && authCookie == Some(u.id) && loading == old(loading)
      ensures !ok ==> unchanged(this)
    {
      var reply := addUser(email, password);
      if reply.Threw? {
        return false;
      }
      var newUser := reply.value;
      user := Some(newUser);
      isSignedIn := true;
      authCookie := Some(newUser.id);
      return true;
    }

    /** `signOut`: clears the cookie and the user. */
    method SignOut()
      requires Valid()
      modifies this
      ensures Valid()
      ensures !isSignedIn && user == None && authCookie == None && loading == old(loading)
    {
      authCookie := None;
      user := None;
      isSignedIn := false;
    }
  }
}
