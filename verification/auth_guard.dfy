/**
  The client-side route guard (components/auth-guard.tsx): the authentication check run when
  a guarded page mounts, the handler for the identity provider's sign-in/sign-out events, and
  the condition under which the page's children are shown. Router calls become a returned
  navigation; the provider's answers are inputs.
*/
module AuthGuard {
  import opened Common
  import opened Session

  /** A router call made by the guard, if any. */
  datatype Nav = Stay | Push(path: string) | Replace(path: string)

  /** The provider's user on an active session. */
  datatype ProviderUser = ProviderUser(id: string, email: Option<string>)

  /** What asking the provider for its session gave: an error, no session, a session, or an exception. */
  datatype ProviderSession = ProviderError | NoSession | Active(user: ProviderUser) | Threw

  datatype AuthEvent = SignedIn | SignedOut | OtherEvent

  /** What the guard renders. */
  datatype View = LoadingNotice | RedirectNotice | Children

  /** `email || null`. */
  function OrNull(email: Option<string>): (r: Option<string>)
    ensures r.Some? <==> email.Some? && email.value != []
    ensures r.Some? ==> r == email
  {
    if email.Some? && email.value != [] then email else None
  }

  /** The role the guard records for a new local session: master admin for the configured master email. */
  function RoleFor(email: Option<string>, masterEmail: Option<string>): (role: string)
    ensures role == "master_admin" <==> email == masterEmail
    ensures role == "master_admin" || role == "admin"
  {
    if email == masterEmail then "master_admin" else "admin"
  }

  /** The render gating: the children appear only once loaded and, when required, authenticated. */
  function Render(isLoading: bool, requireAuth: bool, isAuthenticated: bool): (v: View)
    ensures v == Children <==> !isLoading && (!requireAuth || isAuthenticated)
    ensures v == LoadingNotice <==> isLoading
  {
    if isLoading then LoadingNotice
    else if requireAuth && !isAuthenticated then RedirectNotice
    else Children
  }

  /** One mounted `AuthGuard`: its props, its state, and the shared session store. */
  class Guard {
    const store: SessionManager
    const requireAuth: bool
    const requireMasterAdmin: bool
    /** `NEXT_PUBLIC_MASTER_ADMIN_EMAIL`, which may be unset. */
    const masterEmail: Option<string>
    const pathname: string
    var isAuthenticated: bool
    var isLoading: bool
    var userEmail: Option<string>

    constructor (store: SessionManager, requireAuth: bool, requireMasterAdmin: bool,
                 masterEmail: Option<string>, pathname: string)
      ensures this.store == store && this.requireAuth == requireAuth
      ensures this.requireMasterAdmin == requireMasterAdmin && this.masterEmail == masterEmail
      ensures this.pathname == pathname
      ensures !isAuthenticated && isLoading && userEmail == None
    {
      this.store := store;
      this.requireAuth := requireAuth;
      this.requireMasterAdmin := requireMasterAdmin;
      this.masterEmail := masterEmail;
      this.pathname := pathname;
      isAuthenticated := false;
      isLoading := true;
      userEmail := None;
    }

    function View(): View
      reads this
    {
      Render(isLoading, requireAuth, isAuthenticated)
    }

    /**
      `checkAuth`: reads the local session first (dropping a stale one), then acts on the
      provider's session. Without one the guard is signed out and sends the browser to the
      login page when authentication is required (unless it is already there). A master-only
      guard sends any other user to the dashboard and changes nothing else. Otherwise the local
      session is touched if it was live, or created with the role matching the master email,
      and the guard is signed in. Loading always ends.
    */
    method CheckAuth(provider: ProviderSession, now: int, newSessionId: string) returns (nav: Nav)
      modifies this, store
      ensures !isLoading
      ensures store.expiredEvents == old(store.expiredEvents)
      ensures View() == Children <==> !requireAuth || isAuthenticated
      ensures isAuthenticated ==> provider.Active?
      ensures (provider.ProviderError? || provider.NoSession?) ==>
        && !isAuthenticated && userEmail == None
        && nav == (if requireAuth && pathname != "/login" then Push("/login") else Stay)
        && store.slot == (if Read(old(store.slot), now).Some? then old(store.slot) else None)
      ensures provider.Threw? ==>
        && !isAuthenticated && userEmail == None
        && nav == (if requireAuth then Push("/login") else Stay)
        && store.slot == (if Read(old(store.slot), now).Some? then old(store.slot) else None)
      ensures provider.Active? && requireMasterAdmin && provider.user.email != masterEmail ==>
        && nav == Push("/dashboard")
        && isAuthenticated == old(isAuthenticated)
        && userEmail == OrNull(provider.user.email)
        && store.slot == (if Read(old(store.slot), now).Some? then old(store.slot) else None)
      ensures provider.Active? && !(requireMasterAdmin && provider.user.email != masterEmail) ==>
        && nav == Stay && isAuthenticated
        && userEmail == OrNull(provider.user.email)
        && store.slot == (if Read(old(store.slot), now).Some? then Touch(old(store.slot), now)
           else Some(Parsed(Created(provider.user.id, provider.user.email.GetOr(""),
                                    RoleFor(provider.user.email, masterEmail), now, newSessionId))))
    {
      nav := Stay;
      var localSession := store.GetSession(now);
      match provider {
        case Threw =>
          isAuthenticated := false;
          userEmail := None;
          if requireAuth {
            nav := Push("/login");
          }
        case ProviderError =>
          isAuthenticated := false;
          userEmail := None;
          if requireAuth && pathname != "/login" {
            nav := Push("/login");
          }
        case NoSession =>
          isAuthenticated := false;
          userEmail := None;
          if requireAuth && pathname != "/login" {
            nav := Push("/login");
          }
        case Active(user) =>
          var email := user.email;
          userEmail := OrNull(email);
          if requireMasterAdmin && email != masterEmail {
            nav := Push("/dashboard");
          } else {
            if localSession.Some? {
              store.UpdateActivity(now);
            } else {
              var role := RoleFor(email, masterEmail);
              store.SetSession(user.id, email.GetOr(""), role, now, newSessionId);
            }
            isAuthenticated := true;
          }
      }
      isLoading := false;
    }

    /**
      The `onAuthStateChange` handler: a sign-out, or any event without a session, clears the
      local session and signs the guard out, replacing the route with the login page when
      authentication is required; a sign-in with a session signs it in.
    */
    method OnAuthStateChange(event: AuthEvent, session: Option<ProviderUser>) returns (nav: Nav)
      modifies this, store
      ensures isLoading == old(isLoading)
      ensures store.expiredEvents == old(store.expiredEvents)
      ensures event == SignedOut || session.None? ==>
        && store.slot == None && !store.timerArmed
        && !isAuthenticated && userEmail == None
        && nav == (if requireAuth then Replace("/login") else Stay)
      ensures event == SignedIn && session.Some? ==>
        && isAuthenticated && userEmail == OrNull(session.value.email)
        && store.slot == old(store.slot) && store.timerArmed == old(store.timerArmed) && nav == Stay
      ensures event == OtherEvent && session.Some? ==>
        && isAuthenticated == old(isAuthenticated) && userEmail == old(userEmail)
        && store.slot == old(store.slot) && store.timerArmed == old(store.timerArmed) && nav == Stay
    {
      nav := Stay;
      if event == SignedOut || session.None? {
        store.ClearSession();
        isAuthenticated := false;
        userEmail := None;
        if requireAuth {
          nav := Replace("/login");
        }
      } else if event == SignedIn {
        isAuthenticated := true;
        userEmail := OrNull(session.value.email);
      }
    }
  }
}
