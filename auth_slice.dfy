/** The client's authentication state (store/slices/authSlice.ts): the
    signed-in user and session, the loading and error flags, and whether the
    initial session check has finished. */
module AuthSlice {
  import opened Wrappers
  import opened Entities

  datatype AuthUser = AuthUser(id: UserId, email: Option<string>)
  datatype Session = Session(accessToken: string, userId: UserId)

  /** What the identity provider answers on initialisation, login and
      registration; either part may be absent. */
  datatype AuthPayload = AuthPayload(user: Option<AuthUser>, session: Option<Session>)

  class AuthStore {
    var user: Option<AuthUser>
    var session: Option<Session>
    var loading: bool
    var error: Option<string>
    var initialized: bool

    /** `initialState`: nobody signed in, nothing loading, no error, and the
        session check not yet done. */
    constructor ()
      ensures user == None && session == None && !loading && error == None && !initialized
    {
      user := None;
      session := None;
      loading := false;
      error := None;
      initialized := false;
    }

    /** `clearError`. */
    method ClearError()
      modifies this
      ensures error == None
      ensures user == old(user) && session == old(session) && loading == old(loading)
      ensures initialized == old(initialized)
    {
      error := None;
    }

    /** `initializeAuth.pending`: unlike login and register, keeps the error. */
    method InitializePending()
      modifies this
      ensures loading
      ensures user == old(user) && session == old(session) && error == old(error)
      ensures initialized == old(initialized)
    {
      loading := true;
    }

    /** `initializeAuth.fulfilled`: takes user and session from the payload
        and marks the session check done. */
    method InitializeFulfilled(payload: AuthPayload)
      modifies this
      ensures !loading && user == payload.user && session == payload.session && initialized
      ensures error == old(error)
    {
      loading := false;
      user := payload.user;
      session := payload.session;
      initialized := true;
    }

    /** `initializeAuth.rejected`: records the error; the session check counts
        as done all the same. */
    method InitializeRejected(message: string)
      modifies this
      ensures !loading && error == Some(message) && initialized
      ensures user == old(user) && session == old(session)
    {
      loading := false;
      error := Some(message);
      initialized := true;
    }

    /** `login.pending` and `register.pending`: loading, and the error reset. */
    method LoginOrRegisterPending()
      modifies this
      ensures loading && error == None
      ensures user == old(user) && session == old(session) && initialized == old(initialized)
    {
      loading := true;
      error := None;
    }

    /** `login.fulfilled`. */
    method LoginFulfilled(payload: AuthPayload)
      modifies this
      ensures !loading && user == payload.user && session == payload.session
      ensures error == old(error) && initialized == old(initialized)
    {
      loading := false;
      user := payload.user;
      session := payload.session;
    }

    /** `login.rejected`, `register.rejected` and `logout.rejected`: the error
        is recorded and the signed-in user is kept. */
    method Rejected(message: string)
      modifies this
      ensures !loading && error == Some(message)
      ensures user == old(user) && session == old(session) && initialized == old(initialized)
    {
      loading := false;
      error := Some(message);
    }

    /** `register.fulfilled`: signs the user in only when the provider
        returned a session (it may not, until the e-mail is confirmed). */
    method RegisterFulfilled(payload: AuthPayload)
      modifies this
      ensures !loading
      ensures payload.session.Some? ==> user == payload.user && session == payload.session
      ensures payload.session.None? ==> user == old(user) && session == old(session)
      ensures error == old(error) && initialized == old(initialized)
    {
      loading := false;
      if payload.session.Some? {
        user := payload.user;
        session := payload.session;
      }
    }

    /** `logout.pending`: loading; the error is kept. */
    method LogoutPending()
      modifies this
      ensures loading
      ensures user == old(user) && session == old(session) && error == old(error)
      ensures initialized == old(initialized)
    {
      loading := true;
    }

    /** `logout.fulfilled`: nobody is signed in; the session check stays done. */
    method LogoutFulfilled()
      modifies this
      ensures !loading && user == None && session == None
      ensures error == old(error) && initialized == old(initialized)
    {
      loading := false;
      user := None;
      session := None;
    }
  }
}
