/** The authentication store (src/app/features/auth/authSlice.ts): the
    signed-in user, the token, whether the session counts as authenticated,
    and the request status and error of login and registration. Login and
    registration are modelled through their pending, fulfilled and rejected
    cases, the payload being a parameter. */
module AuthSlice {
  import opened Wrappers

  /** A user as the server returns it (src/services/auth/_models.ts). */
  datatype User = User(id: string, username: string, email: Option<string>, token: Option<string>,
                       createdAt: Option<string>, updatedAt: Option<string>)

  datatype AuthStatus = Idle | Loading | Succeeded | Failed

  /** `user.token || null`: an absent or empty token is no token. */
  function TokenOf(user: User): (t: Option<string>)
    ensures t.Some? <==> user.token.Some? && user.token.value != ""
    ensures t.Some? ==> t.value == user.token.value
  {
    if user.token.Some? && user.token.value != "" then user.token else None
  }

  class AuthStore {
    var user: Option<User>
    var token: Option<string>
    var isAuthenticated: bool
    var status: AuthStatus
    var error: Option<string>

    /** What every reducer keeps: the session counts as authenticated exactly
        when there is a user. */
    predicate SignedInIffUser()
      reads this
    {
      isAuthenticated <==> user.Some?
    }

    /** `initialState`: nobody signed in, idle, no error. */
    constructor ()
      ensures user == None && token == None && !isAuthenticated && status == Idle && error == None
      ensures SignedInIffUser()
    {
      user := None;
      token := None;
      isAuthenticated := false;
      status := Idle;
      error := None;
    }

    /** `logout`: user and token dropped, unauthenticated, idle; the error is
        left as it was. */
    method Logout()
      modifies this`user, this`token, this`isAuthenticated, this`status
      ensures user == None && token == None && !isAuthenticated && status == Idle
      ensures SignedInIffUser()
    {
      user := None;
      token := None;
      isAuthenticated := false;
      status := Idle;
    }

    /** `setAuthCredentials`: the given user and token, authenticated; the
        request status is not touched. */
    method SetAuthCredentials(u: User, t: string)
      modifies this`user, this`token, this`isAuthenticated
      ensures user == Some(u) && token == Some(t) && isAuthenticated
      ensures SignedInIffUser()
    {
      user := Some(u);
      token := Some(t);
      isAuthenticated := true;
    }

    /** `clearError`. */
    method ClearError()
      modifies this`error
      ensures error == None
    {
      error := None;
    }

    /** `login.pending` and `register.pending`. */
    method Pending()
      modifies this`status, this`error
      ensures status == Loading && error == None
    {
      status := Loading;
      error := None;
    }

    /** `login.fulfilled` and `register.fulfilled`: the returned user is signed
        in, with its token when it has a non-empty one. The session counts as
        authenticated even without a token. */
    method Fulfilled(payload: User)
      modifies this`status, this`user, this`token, this`isAuthenticated
      ensures status == Succeeded && user == Some(payload) && isAuthenticated
      ensures token == TokenOf(payload)
      ensures SignedInIffUser()
    {
      status := Succeeded;
      user := Some(payload);
      token := if payload.token.Some? && payload.token.value != "" then payload.token else None;
      isAuthenticated := true;
    }

    /** `login.rejected` and `register.rejected`: failed, with the message of
        `rejectWithValue` as the error; the session is not touched. */
    method Rejected(message: string)
      modifies this`status, this`error
      ensures status == Failed && error == Some(message)
    {
      status := Failed;
      error := Some(message);
    }
  }
}
