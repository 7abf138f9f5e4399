/** The `RequireAuth` route guard. The file carries an unresolved merge: the HEAD side and
    the incoming side disagree on the order of the checks and on whether administrators are
    subject to the expiry check. Both are modelled, as `DecideHead` and `DecideIncoming`. */
module RequireAuth {
  import opened Basics

  /** What the guard reads from the auth hook and the router.
      `accessExpiresAt` is `profile?.access_expires_at` as a timestamp: `None` covers a null
      profile, a null or empty field and a string that is not a date (for which
      `new Date(..) < new Date()` is false). */
  datatype GuardInput = GuardInput(
    loading: bool,
    user: Option<string>,
    isAdmin: bool,
    accessExpiresAt: Option<int>,
    now: int,
    requireAdmin: bool,
    location: string)

  /** What the guard renders. `Wait(spinner)` renders neither a redirect nor the children:
      HEAD renders a spinner, the incoming side renders nothing (`null`).
      `ToLogin(from)` carries the `state={{ from: location }}` that only HEAD passes. */
  datatype Decision =
    | Wait(spinner: bool)
    | ToLogin(from: Option<string>)
    | ToDashboard
    | ToExpired
    | Allow

  /** The strict comparison `new Date(access_expires_at) < new Date()`. */
  predicate Expired(expiresAt: Option<int>, now: int) {
    expiresAt.Some? && expiresAt.value < now
  }

  /** HEAD side of the conflict. */
  function DecideHead(g: GuardInput): Decision {
    if g.loading then Wait(true)
    else if g.user.None? then ToLogin(Some(g.location))
    else if !g.isAdmin && Expired(g.accessExpiresAt, g.now) then ToExpired
    else if g.requireAdmin && !g.isAdmin then ToDashboard
    else Allow
  }

  /** Incoming side of the conflict. */
  function DecideIncoming(g: GuardInput): Decision {
    if g.loading then Wait(false)
    else if g.user.None? then ToLogin(None)
    else if g.requireAdmin && !g.isAdmin then ToDashboard
    else if Expired(g.accessExpiresAt, g.now) then ToExpired
    else Allow
  }

  /** Which side of the conflict is meant. */
  datatype Side = Head | Incoming

  function Decide(side: Side, g: GuardInput): Decision {
    match side
    case Head => DecideHead(g)
    case Incoming => DecideIncoming(g)
  }

  /** While loading, neither side redirects or renders the children. */
  lemma LoadingWaits(side: Side, g: GuardInput)
    requires g.loading
    ensures Decide(side, g).Wait?
    ensures Decide(side, g).spinner <==> side == Head
  {
  }

  /** When not loading and there is no user, both sides redirect to the login page;
      only HEAD remembers where the user came from. */
  lemma NoUserGoesToLogin(side: Side, g: GuardInput)
    requires !g.loading && g.user.None?
    ensures Decide(side, g).ToLogin?
    ensures Decide(side, g).from == if side == Head then Some(g.location) else None
  {
  }

  /** Without `requireAdmin`, administrator status never causes the dashboard redirect. */
  lemma NoAdminRouteNeverToDashboard(side: Side, g: GuardInput)
    requires !g.requireAdmin
    ensures Decide(side, g) != ToDashboard
  {
  }

  /** A non-administrator never gets past the guard of an admin route, on either side. */
  lemma NonAdminNeverAllowedOnAdminRoute(side: Side, g: GuardInput)
    requires g.requireAdmin && !g.isAdmin
    ensures Decide(side, g) != Allow
  {
  }

  /** Expiry is strict: an expiry equal to now is not expired, and a missing one never
      sends anyone to the subscription-expired page. */
  lemma ExpiryIsStrict(side: Side, g: GuardInput)
    requires g.accessExpiresAt == Some(g.now) || g.accessExpiresAt.None?
    ensures Decide(side, g) != ToExpired
  {
  }

  /** The full condition for rendering the children, side by side. HEAD exempts
      administrators from expiry; the incoming side does not. */
  lemma AllowExactly(g: GuardInput)
    ensures DecideHead(g) == Allow <==>
      !g.loading && g.user.Some? && (g.isAdmin || (!g.requireAdmin && !Expired(g.accessExpiresAt, g.now)))
    ensures DecideIncoming(g) == Allow <==>
      !g.loading && g.user.Some? && (!g.requireAdmin || g.isAdmin) && !Expired(g.accessExpiresAt, g.now)
  {
  }

  /** The two sides lead to the same place (ignoring how Wait and ToLogin render) except in
      exactly two situations: an expired administrator (HEAD lets them in, the incoming
      side sends them to the expired page), and an expired non-administrator on an admin
      route (HEAD says expired, the incoming side says dashboard). */
  lemma SidesDifferExactly(g: GuardInput)
    ensures Same(DecideHead(g), DecideIncoming(g)) <==>
      !(!g.loading && g.user.Some? && Expired(g.accessExpiresAt, g.now) && (g.isAdmin || g.requireAdmin))
    ensures !g.loading && g.user.Some? && g.isAdmin && Expired(g.accessExpiresAt, g.now) ==>
      DecideHead(g) == Allow && DecideIncoming(g) == ToExpired
    ensures !g.loading && g.user.Some? && !g.isAdmin && g.requireAdmin && Expired(g.accessExpiresAt, g.now) ==>
      DecideHead(g) == ToExpired && DecideIncoming(g) == ToDashboard
  {
  }

  /** Two decisions lead to the same place: same constructor, rendering details aside. */
  predicate Same(a: Decision, b: Decision) {
    match a
    case Wait(_) => b.Wait?
    case ToLogin(_) => b.ToLogin?
    case _ => a == b
  }

  /** The scenario the merge is about: an expired student opening an admin page. */
  lemma ExpiredStudentOnAdminPage()
    ensures var g := GuardInput(false, Some("u1"), false, Some(10), 11, true, "/admin");
      DecideHead(g) == ToExpired && DecideIncoming(g) == ToDashboard
  {
  }
}
