/** The guard and the route table together: rendering a path either settles on it or
    redirects to another path, and redirects end after at most two hops. */
module Navigation {
  import opened Basics
  import opened RequireAuth
  import opened AppRoutes
  import UseAuth

  /** What the guard knows about the signed-in user at one moment (everything of
      `GuardInput` except the route's own `requireAdmin` and location). */
  datatype AuthView = AuthView(
    loading: bool,
    user: Option<string>,
    isAdmin: bool,
    accessExpiresAt: Option<int>,
    now: int)

  /** The result of rendering a path: a page is shown, a guard holds back (spinner or
      nothing), or a `<Navigate replace>` takes the browser elsewhere. */
  datatype Outcome = Show(page: string) | Hold | Go(to: Path)

  /** Where a guard that does not allow sends the browser. */
  function Target(d: Decision): Outcome {
    match d
    case ToLogin(_) => Go(["login"])
    case ToDashboard => Go(["dashboard"])
    case ToExpired => Go(["subscription-expired"])
    case _ => Hold
  }

  /** Render the layers of a route from the outside in, starting at layer `i`. A page
      renders the inner layers through its outlet; a guard that allows continues inward. */
  function Walk(side: Side, a: AuthView, location: string, ls: seq<Layer>, i: nat, shown: string): Outcome
    decreases |ls| - i
  {
    if i >= |ls| then Show(shown)
    else match ls[i]
      case Guard(adm) =>
        var d := Decide(side, Input(a, adm, location));
        if d == Allow then Walk(side, a, location, ls, i + 1, shown) else Target(d)
      case Page(n) => Walk(side, a, location, ls, i + 1, n)
      case Redirect(t) => Go(t)
  }

  function Input(a: AuthView, requireAdmin: bool, location: string): GuardInput {
    GuardInput(a.loading, a.user, a.isAdmin, a.accessExpiresAt, a.now, requireAdmin, location)
  }

  function Hop(side: Side, a: AuthView, p: Path): Outcome {
    Walk(side, a, PathString(p), Layers(Match(p)), 0, "")
  }

  /** What one render of each kind of route does: an unguarded route shows its page (the
      root redirects to the dashboard); a guarded one goes where its guard sends it unless
      the guard allows, and then shows its page (the admin index redirects to the
      students page). */
  lemma HopShape(side: Side, a: AuthView, p: Path)
    ensures Requirement(Match(p)).None? ==>
      Hop(side, a, p) == if Match(p) == Root then Go(["dashboard"]) else Show(Leaf(Match(p)).name)
    ensures Requirement(Match(p)) == Some(false) ==>
      var d := Decide(side, Input(a, false, PathString(p)));
      Hop(side, a, p) == if d != Allow then Target(d) else Show(Leaf(Match(p)).name)
    ensures Requirement(Match(p)) == Some(true) ==>
      var d := Decide(side, Input(a, true, PathString(p)));
      Hop(side, a, p) ==
        if d != Allow then Target(d)
        else if Match(p) == AdminIndex then Go(["admin", "students"])
        else Show(Leaf(Match(p)).name)
  {
    if Requirement(Match(p)).None? {
      HopUnguarded(side, a, p);
    } else if Requirement(Match(p)) == Some(false) {
      HopStudent(side, a, p);
    } else if Requirement(Match(p)) == Some(true) {
      HopAdmin(side, a, p);
    }
  }

  lemma HopUnguarded(side: Side, a: AuthView, p: Path)
    requires Requirement(Match(p)).None?
    ensures Hop(side, a, p) == if Match(p) == Root then Go(["dashboard"]) else Show(Leaf(Match(p)).name)
  {
  }

  lemma HopStudent(side: Side, a: AuthView, p: Path)
    requires Requirement(Match(p)) == Some(false)
    ensures var d := Decide(side, Input(a, false, PathString(p)));
      Hop(side, a, p) == if d != Allow then Target(d) else Show(Leaf(Match(p)).name)
  {
  }

  lemma HopAdmin(side: Side, a: AuthView, p: Path)
    requires Requirement(Match(p)) == Some(true)
    ensures var d := Decide(side, Input(a, true, PathString(p)));
      Hop(side, a, p) ==
        if d != Allow then Target(d)
        else if Match(p) == AdminIndex then Go(["admin", "students"])
        else Show(Leaf(Match(p)).name)
  {
    var ls := Layers(Match(p));
    var l := PathString(p);
    AdminLayers(Match(p));
    var d := Decide(side, Input(a, true, l));
    if d == Allow {
      assert Walk(side, a, l, ls, 0, "") == Walk(side, a, l, ls, 1, "");
      assert Walk(side, a, l, ls, 1, "") == Walk(side, a, l, ls, 2, "AdminLayout");
      if Match(p) != AdminIndex {
        assert Walk(side, a, l, ls, 2, "AdminLayout") == Walk(side, a, l, ls, 3, ls[2].name);
      }
    }
  }

  /** The layers of an admin route: the admin guard, the admin layout, then the page or
      (for the index) the redirect to the students page. */
  lemma AdminLayers(r: Route)
    requires Requirement(r) == Some(true)
    ensures |Layers(r)| == 3 && Layers(r)[0] == Guard(true) && Layers(r)[1] == Page("AdminLayout")
    ensures r == AdminIndex ==> Layers(r)[2] == Redirect(["admin", "students"])
    ensures r != AdminIndex ==> Layers(r)[2].Page? && Leaf(r) == Layers(r)[2]
  {
  }

  /** Follow redirects from `p` for at most `fuel` hops: the path where rendering settles,
      or `None` when it has not settled by then. */
  function Follow(side: Side, a: AuthView, p: Path, fuel: nat): Option<Path>
    decreases fuel
  {
    match Hop(side, a, p)
    case Go(t) => if fuel == 0 then None else Follow(side, a, t, fuel - 1)
    case _ => Some(p)
  }

  /** A guard only ever sends the browser to a public page or to the student dashboard. */
  lemma GuardTargetsAreNotAdminPages(d: Decision)
    requires Target(d).Go?
    ensures Requirement(Match(Target(d).to)) != Some(true)
  {
  }

  /** Whatever the auth state and whichever side of the guard, redirects end after at
      most two hops. */
  lemma RedirectsSettleWithinTwoHops(side: Side, a: AuthView, p: Path)
    ensures Follow(side, a, p, 2).Some?
  {
    match Hop(side, a, p)
    case Go(t) =>
      SecondHopSettles(side, a, p);
      assert Follow(side, a, p, 2) == Follow(side, a, t, 1);
    case _ =>
  }

  /** Where the first redirect leads, at most one more redirect is needed. */
  lemma SecondHopSettles(side: Side, a: AuthView, p: Path)
    requires Hop(side, a, p).Go?
    ensures Follow(side, a, Hop(side, a, p).to, 1).Some?
  {
    FirstHopTargets(side, a, p);
    var t := Hop(side, a, p).to;
    PublicPagesShow(side, a);
    if t == ["dashboard"] {
      DashboardSettles(side, a);
    } else if t == ["admin", "students"] {
      StudentsPageShows(side, a, PathString(p));
    }
  }

  /** A first redirect goes to the login, dashboard or expired page, or (from the admin
      index, once its guard allowed) to the students page. */
  lemma FirstHopTargets(side: Side, a: AuthView, p: Path)
    requires Hop(side, a, p).Go?
    ensures var t := Hop(side, a, p).to;
      t == ["login"] || t == ["dashboard"] || t == ["subscription-expired"] ||
      (t == ["admin", "students"] && Decide(side, Input(a, true, PathString(p))) == Allow)
  {
    HopShape(side, a, p);
    var r := Match(p);
    if Requirement(r).Some? {
      var d := Decide(side, Input(a, Requirement(r) == Some(true), PathString(p)));
      if d != Allow {
        TargetPlaces(d);
      }
    }
  }

  /** The three places a guard's redirect can lead. */
  lemma TargetPlaces(d: Decision)
    requires Target(d).Go?
    ensures Target(d).to == ["login"] || Target(d).to == ["dashboard"] || Target(d).to == ["subscription-expired"]
  {
  }

  lemma PublicPagesShow(side: Side, a: AuthView)
    ensures Hop(side, a, ["login"]) == Show("Login")
    ensures Hop(side, a, ["subscription-expired"]) == Show("SubscriptionExpired")
  {
    TargetRoutes();
    HopShape(side, a, ["login"]);
    HopShape(side, a, ["subscription-expired"]);
  }

  lemma DashboardSettles(side: Side, a: AuthView)
    ensures Follow(side, a, ["dashboard"], 1).Some?
  {
    TargetRoutes();
    HopShape(side, a, ["dashboard"]);
    PublicPagesShow(side, a);
  }

  lemma StudentsPageShows(side: Side, a: AuthView, l: string)
    requires Decide(side, Input(a, true, l)) == Allow
    ensures Hop(side, a, ["admin", "students"]) == Show("StudentsPage")
  {
    TargetRoutes();
    HopShape(side, a, ["admin", "students"]);
    AllowIgnoresLocation(side, a, true, l, PathString(["admin", "students"]));
  }

  /** The location only shapes the login redirect, never whether the guard allows. */
  lemma AllowIgnoresLocation(side: Side, a: AuthView, adm: bool, l1: string, l2: string)
    ensures Decide(side, Input(a, adm, l1)) == Allow <==> Decide(side, Input(a, adm, l2)) == Allow
  {
  }

  /** One hop is not always enough: an expired student opening `/` goes to the dashboard,
      whose guard sends them on to the expired page. */
  lemma TwoHopsAreSometimesNeeded(side: Side)
    ensures var a := AuthView(false, Some("u1"), false, Some(5), 6);
      Follow(side, a, [], 1).None? && Follow(side, a, [], 2) == Some(["subscription-expired"])
  {
    var a := AuthView(false, Some("u1"), false, Some(5), 6);
    HopRoot(side, a);
    HopDashboard(side, a);
    assert Decide(side, Input(a, false, "/dashboard")) == ToExpired;
    PublicPagesShow(side, a);
  }

  /** `/` redirects to the dashboard in every state. */
  lemma HopRoot(side: Side, a: AuthView)
    ensures Hop(side, a, []) == Go(["dashboard"])
  {
    TargetRoutes();
  }

  /** `/dashboard` shows the dashboard when its guard allows, and otherwise goes where
      the guard sends it. */
  lemma HopDashboard(side: Side, a: AuthView)
    ensures var d := Decide(side, Input(a, false, "/dashboard"));
      Hop(side, a, ["dashboard"]) == if d == Allow then Show("Dashboard") else Target(d)
  {
    TargetRoutes();
    var ls := Layers(Dashboard);
    var l := "/dashboard";
    assert PathString(["dashboard"]) == l;
    if Decide(side, Input(a, false, l)) == Allow {
      assert Walk(side, a, l, ls, 0, "") == Walk(side, a, l, ls, 1, "");
      assert Walk(side, a, l, ls, 1, "") == Walk(side, a, l, ls, 2, "Dashboard");
    }
  }

  /** A user who is not an administrator is never shown an admin page, whatever path
      they open and whichever side of the guard is in force. */
  lemma NonAdminNeverShownAdminPage(side: Side, a: AuthView, p: Path)
    requires !a.isAdmin
    ensures Follow(side, a, p, 2).Some?
    ensures var q := Follow(side, a, p, 2).value;
      Hop(side, a, q).Show? ==> Requirement(Match(q)) != Some(true)
  {
    RedirectsSettleWithinTwoHops(side, a, p);
    var q := Follow(side, a, p, 2).value;
    HopShape(side, a, q);
    if Requirement(Match(q)) == Some(true) {
      NonAdminNeverAllowedOnAdminRoute(side, Input(a, true, PathString(q)));
    }
  }

  /** What the guard reads from the auth hook's record at time `now`. */
  function ViewOf(st: UseAuth.AuthState, now: int): AuthView {
    AuthView(
      st.loading,
      if st.user.Some? then Some(st.user.value.id) else None,
      st.isAdmin,
      if st.profile.Some? then st.profile.value.accessExpiresAt else None,
      now)
  }

  /** While the hook is loading (at start-up, and between a session event and its fetch),
      every guarded path holds back: no page, no redirect. The profile and admin flag
      that a new session keeps from the previous one are therefore never acted upon. */
  lemma LoadingHoldsGuardedPages(side: Side, st: UseAuth.AuthState, now: int, p: Path)
    requires st.loading && Requirement(Match(p)).Some?
    ensures Hop(side, ViewOf(st, now), p) == Hold
  {
    HopShape(side, ViewOf(st, now), p);
  }

  /** Signed out, every guarded path leads to the login page, and the login page is shown. */
  lemma SignedOutGoesToLogin(side: Side, now: int, p: Path)
    requires Requirement(Match(p)).Some?
    ensures Hop(side, ViewOf(UseAuth.SignedOut(), now), p) == Go(["login"])
    ensures Follow(side, ViewOf(UseAuth.SignedOut(), now), p, 1) == Some(["login"])
  {
    var a := ViewOf(UseAuth.SignedOut(), now);
    var g := Input(a, Requirement(Match(p)) == Some(true), PathString(p));
    NoUserGoesToLogin(side, g);
    HopShape(side, a, p);
    assert Hop(side, a, p) == Go(["login"]);
    PublicPagesShow(side, a);
    assert Follow(side, a, p, 1) == Follow(side, a, ["login"], 0);
  }

  /** Where `Follow` settles, rendering does not redirect again. */
  lemma {:induction false} SettledDoesNotRedirect(side: Side, a: AuthView, p: Path, fuel: nat)
    requires Follow(side, a, p, fuel).Some?
    ensures !Hop(side, a, Follow(side, a, p, fuel).value).Go?
    decreases fuel
  {
    match Hop(side, a, p)
    case Go(t) => SettledDoesNotRedirect(side, a, t, fuel - 1);
    case _ =>
  }
}
