/** The `useAuth` hook: the auth record `{user, session, isAdmin, profile, loading}` and
    how session events and profile-fetch completions change it. The file carries an
    unresolved merge. The HEAD side subscribes to auth changes and separately restores the
    session, with no mount guard and no error mapping; the incoming side routes both
    through one `handleSession` behind a `mountedRef` guard and maps a failed fetch to
    "no profile, not admin". Both are modelled, as `HeadAuth` and `IncomingAuth`, over
    the shared transitions below. Backend answers are inputs; asynchronous completions are
    separate steps, each given the session its fetch was started for. */
module UseAuth {
  import opened Basics

  datatype User = User(id: string, email: string)
  datatype Session = Session(accessToken: string, user: Option<User>)

  /** A `profiles` row; `accessExpiresAt` is the expiry as a timestamp (`None`: null). */
  datatype Profile = Profile(email: string, fullName: Option<string>, accessExpiresAt: Option<int>)

  datatype AuthState = AuthState(
    user: Option<User>,
    session: Option<Session>,
    isAdmin: bool,
    profile: Option<Profile>,
    loading: bool)

  /** What the two backend reads of `fetchProfile` produced: the profile row's `data`
      (`None`: null) and the `has_role` RPC's `data` (`None`: null), or an exception. */
  datatype FetchOutcome = Fetched(profileData: Option<Profile>, roleData: Option<bool>) | Threw

  datatype FetchResult = FetchResult(profile: Option<Profile>, isAdmin: bool)

  /** The state before any session is known. */
  function Initial(): (st: AuthState)
    ensures st.user.None? && st.session.None? && !st.isAdmin && st.profile.None? && st.loading
  {
    AuthState(None, None, false, None, true)
  }

  /** The fully signed-out state. */
  function SignedOut(): (st: AuthState)
    ensures st.user.None? && st.session.None? && !st.isAdmin && st.profile.None? && !st.loading
  {
    AuthState(None, None, false, None, false)
  }

  predicate HasUser(s: Option<Session>) { s.Some? && s.value.user.Some? }

  /** The first, synchronous part of handling a session: with a user, set user, session
      and `loading` while keeping the previous profile and admin flag; otherwise sign out. */
  function OnSession(prev: AuthState, s: Option<Session>): (st: AuthState)
    ensures HasUser(s) ==>
      st.user == s.value.user && st.session == s && st.loading &&
      st.profile == prev.profile && st.isAdmin == prev.isAdmin
    ensures !HasUser(s) ==> st == SignedOut()
  {
    if HasUser(s) then prev.(user := s.value.user, session := s, loading := true)
    else SignedOut()
  }

  /** The state set once the fetch for session `s` has finished: replaced wholesale. */
  function Resolved(s: Session, r: FetchResult): (st: AuthState)
    requires s.user.Some?
    ensures st.user == s.user && st.session == Some(s) && !st.loading
    ensures st.profile == r.profile && st.isAdmin == r.isAdmin
  {
    AuthState(s.user, Some(s), r.isAdmin, r.profile, false)
  }

  /** HEAD's `fetchProfile`: a missing row maps to null, admin only on `data === true`;
      an exception propagates (`None`). */
  function HeadFetch(o: FetchOutcome): (r: Option<FetchResult>)
    ensures r.None? <==> o.Threw?
    ensures r.Some? ==> r.value.profile == o.profileData && (r.value.isAdmin <==> o.roleData == Some(true))
  {
    match o
    case Threw => None
    case Fetched(p, role) => Some(FetchResult(p, role == Some(true)))
  }

  /** The incoming `fetchProfile`: as HEAD, but any exception gives `{profile: null,
      isAdmin: false}`. */
  function IncomingFetch(o: FetchOutcome): (r: FetchResult)
    ensures r.isAdmin <==> o.Fetched? && o.roleData == Some(true)
    ensures r.profile == if o.Fetched? then o.profileData else None
  {
    match o
    case Threw => FetchResult(None, false)
    case Fetched(p, role) => FetchResult(p, role == Some(true))
  }

  /** The record's invariant: a user comes with the session it belongs to, and without a
      user there is neither a profile nor an admin flag. */
  predicate Consistent(st: AuthState) {
    && (st.user.Some? <==> st.session.Some?)
    && (st.session.Some? ==> st.session.value.user == st.user)
    && (st.user.None? ==> !st.isAdmin && st.profile.None?)
  }

  lemma InitialConsistent()
    ensures Consistent(Initial()) && Consistent(SignedOut())
  {
  }

  lemma TransitionsKeepConsistent(prev: AuthState, s: Option<Session>, t: Session, r: FetchResult)
    requires Consistent(prev) && t.user.Some?
    ensures Consistent(OnSession(prev, s))
    ensures Consistent(Resolved(t, r))
  {
  }

  /** Once loading is over and nobody is signed in, there is no profile and no admin flag. */
  lemma SignedOutMeansNoPrivilege(st: AuthState)
    requires Consistent(st) && !st.loading && st.user.None?
    ensures !st.isAdmin && st.profile.None? && st == SignedOut()
  {
  }

  /** A request to the backend issued by the hook. */
  datatype BackendCall = SignOutCall

  /** `signOut` only asks the backend to sign out and yields that request. The promise is
      the missing `modifies` clause: no local state changes here. It changes when the
      backend's sign-out event arrives (see `SignOutIncoming`). */
  method SignOut() returns (call: BackendCall)
    ensures call == SignOutCall
  {
    call := SignOutCall;
  }

  /** The HEAD side: no mount guard; after unmount only the subscription is gone. */
  class HeadAuth {
    var state: AuthState
    var subscribed: bool

    ghost predicate Valid()
      reads this
    {
      Consistent(state)
    }

    constructor ()
      ensures Valid() && state == Initial() && subscribed
    {
      state := Initial();
      subscribed := true;
    }

    /** The `onAuthStateChange` callback, up to its `await`; not delivered once
        unsubscribed. */
    method AuthStateChanged(s: Option<Session>)
      requires Valid()
      modifies this
      ensures Valid() && subscribed == old(subscribed)
      ensures state == if subscribed then OnSession(old(state), s) else old(state)
    {
      if subscribed {
        state := OnSession(state, s);
      }
    }

    /** `getSession()` resolved: without a user the state is signed out at once; with one
        nothing changes until its fetch completes (no intermediate loading state). */
    method SessionRestored(s: Option<Session>)
      requires Valid()
      modifies this
      ensures Valid() && subscribed == old(subscribed)
      ensures state == if HasUser(s) then old(state) else SignedOut()
    {
      if !HasUser(s) {
        state := SignedOut();
      }
    }

    /** A `fetchProfile` started for session `s` (from either path) completed. A thrown
        fetch rejects the handler and leaves the state as it was. */
    method ProfileFetched(s: Session, o: FetchOutcome)
      requires Valid() && s.user.Some?
      modifies this
      ensures Valid() && subscribed == old(subscribed)
      ensures state == match HeadFetch(o) case None => old(state) case Some(r) => Resolved(s, r)
    {
      var r := HeadFetch(o);
      if r.Some? {
        state := Resolved(s, r.value);
      }
    }

    /** The effect cleanup: unsubscribe. */
    method Unmount()
      requires Valid()
      modifies this
      ensures Valid() && state == old(state) && !subscribed
    {
      subscribed := false;
    }
  }

  /** The incoming side: every step checks `mountedRef` first, and the fetch is re-checked
      when it completes. */
  class IncomingAuth {
    var state: AuthState
    var mounted: bool

    ghost predicate Valid()
      reads this
    {
      Consistent(state)
    }

    constructor ()
      ensures Valid() && state == Initial() && mounted
    {
      state := Initial();
      mounted := true;
    }

    /** `handleSession`, up to its `await`: reached from `getSession()` and from
        `onAuthStateChange` alike. */
    method HandleSession(s: Option<Session>)
      requires Valid()
      modifies this
      ensures Valid() && mounted == old(mounted)
      ensures state == if mounted then OnSession(old(state), s) else old(state)
    {
      if !mounted {
        return;
      }
      state := OnSession(state, s);
    }

    /** The `fetchProfile` started by `handleSession(s)` completed. */
    method ProfileFetched(s: Session, o: FetchOutcome)
      requires Valid() && s.user.Some?
      modifies this
      ensures Valid() && mounted == old(mounted)
      ensures state == if mounted then Resolved(s, IncomingFetch(o)) else old(state)
    {
      var r := IncomingFetch(o);
      if !mounted {
        return;
      }
      state := Resolved(s, r);
    }

    /** The effect cleanup: `mountedRef.current = false` and unsubscribe. */
    method Unmount()
      requires Valid()
      modifies this
      ensures Valid() && state == old(state) && !mounted
    {
      mounted := false;
    }
  }

  /** After unmount, neither a session event nor a late fetch completion changes the
      incoming side's state. */
  method UnmountFreezesIncoming(a: IncomingAuth, s: Option<Session>, t: Session, o: FetchOutcome)
    requires a.Valid() && t.user.Some?
    modifies a
    ensures a.state == old(a.state) && !a.mounted
  {
    a.Unmount();
    a.HandleSession(s);
    a.ProfileFetched(t, o);
  }

  /** After unmount HEAD still issues the update: its `state` here is what its handler
      sets, and React then discards that `setState` on the unmounted component. */
  method UnmountDoesNotFreezeHead(a: HeadAuth, t: Session, p: Option<Profile>)
    requires a.Valid() && t.user.Some?
    modifies a
    ensures a.state == Resolved(t, FetchResult(p, true)) && !a.subscribed
  {
    a.Unmount();
    a.ProfileFetched(t, Fetched(p, Some(true)));
  }

  /** No staleness guard on the incoming side: the sign-in event, then a sign-out event,
      then the late completion of the sign-in's fetch. The user who signed out is back,
      with `loading` false. */
  method LateCompletionUndoesSignOutIncoming(a: IncomingAuth, s: Session, o: FetchOutcome)
    requires a.Valid() && a.mounted && s.user.Some?
    modifies a
    ensures a.mounted
    ensures a.state == Resolved(s, IncomingFetch(o))
    ensures a.state.user == s.user && !a.state.loading
  {
    a.HandleSession(Some(s));
    a.HandleSession(None);
    assert a.state == SignedOut();
    a.ProfileFetched(s, o);
  }

  /** The same on HEAD: unless the fetch throws, its late completion puts the signed-out
      user back. */
  method LateCompletionUndoesSignOutHead(a: HeadAuth, s: Session, o: FetchOutcome)
    requires a.Valid() && a.subscribed && s.user.Some?
    modifies a
    ensures a.subscribed
    ensures a.state == match HeadFetch(o) case None => SignedOut() case Some(r) => Resolved(s, r)
    ensures HeadFetch(o).Some? ==> a.state.user == s.user && !a.state.loading
  {
    a.AuthStateChanged(Some(s));
    a.AuthStateChanged(None);
    assert a.state == SignedOut();
    a.ProfileFetched(s, o);
  }

  /** One sign-in on the incoming side: the session event, then its fetch. */
  method SignInIncoming(a: IncomingAuth, s: Session, o: FetchOutcome)
    requires a.Valid() && a.mounted && s.user.Some?
    modifies a
    ensures a.mounted
    ensures a.state == Resolved(s, IncomingFetch(o))
  {
    a.HandleSession(Some(s));
    assert a.state.loading && a.state.user == s.user;
    a.ProfileFetched(s, o);
  }

  /** Signing out: the backend call, then the backend's sign-out event. */
  method SignOutIncoming(a: IncomingAuth)
    requires a.Valid() && a.mounted
    modifies a
    ensures a.state == SignedOut()
  {
    var call := SignOut();
    a.HandleSession(None);
  }
}
