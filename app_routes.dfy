/** The route table of `App.tsx`: which path renders which page, under which guard.
    A path is given as its list of segments between slashes (`/course/intro/learn` is
    `["course", "intro", "learn"]`, `/` is `[]`). Trailing slashes are dropped, since every
    pattern accepts them; a doubled slash gives an empty segment, which no literal and no
    `:param` matches. */
module AppRoutes {
  import opened Basics

  type Path = seq<string>

  /** The routes of the table, one constructor per `<Route>` (parameters carry the
      dynamic segment). */
  datatype Route =
    | Login
    | Register
    | SubscriptionExpired
    | Root
    | Dashboard
    | CourseLearn(slug: string)
    | AdminIndex
    | AdminStudents
    | AdminCourses
    | AdminSettings
    | AdminCourse(id: string)
    | NotFound

  /** One layer of what a matched route renders, outermost first: a `RequireAuth`
      wrapper, a page component, or a `<Navigate replace>` to an absolute path. */
  datatype Layer = Guard(requireAdmin: bool) | Page(name: string) | Redirect(to: Path)

  /** One character under the router's case-insensitive matching, folded to lower case.
      The patterns are ASCII, and a pattern compiled with the `i` flag but without `u`
      lets an ASCII letter match only its two ASCII cases. */
  function FoldChar(c: char): (d: char)
    ensures 'A' <= c <= 'Z' ==> d as int == c as int + 32
    ensures !('A' <= c <= 'Z') ==> d == c
    ensures !('A' <= d <= 'Z')
  {
    if 'A' <= c <= 'Z' then (c as int + 32) as char else c
  }

  /** A segment folded to lower case. */
  function FoldSeg(s: string): string {
    seq(|s|, i requires 0 <= i < |s| => FoldChar(s[i]))
  }

  /** The path with every segment folded to lower case. */
  function FoldPath(p: Path): Path {
    seq(|p|, i requires 0 <= i < |p| => FoldSeg(p[i]))
  }

  /** A segment without capital letters is its own folded form. */
  lemma FoldKeepsLower(s: string)
    requires forall i :: 0 <= i < |s| ==> !('A' <= s[i] <= 'Z')
    ensures FoldSeg(s) == s
  {
  }

  /** The literal segments of the table are already lower case. */
  lemma FoldedLiterals()
    ensures FoldSeg("login") == "login" && FoldSeg("register") == "register"
    ensures FoldSeg("subscription-expired") == "subscription-expired"
    ensures FoldSeg("dashboard") == "dashboard" && FoldSeg("admin") == "admin"
    ensures FoldSeg("students") == "students" && FoldSeg("courses") == "courses"
    ensures FoldSeg("settings") == "settings" && FoldSeg("course") == "course"
    ensures FoldSeg("learn") == "learn"
  {
    FoldKeepsLower("login");
    FoldKeepsLower("register");
    FoldKeepsLower("subscription-expired");
    FoldKeepsLower("dashboard");
    FoldKeepsLower("admin");
    FoldKeepsLower("students");
    FoldKeepsLower("courses");
    FoldKeepsLower("settings");
    FoldKeepsLower("course");
    FoldKeepsLower("learn");
  }

  /** A segment a `:param` captures: any non-empty text, kept as written. */
  predicate IsParam(seg: string) { seg != "" }

  /** The router's match of a path against the table; anything unmatched falls to the
      `*` catch-all. No route sets `caseSensitive`, so literal segments ignore case. */
  function Match(p: Path): (r: Route)
    ensures r == NotFound <==> !Listed(p)
    ensures r.CourseLearn? ==> |p| == 3 && r.slug == p[1] && r.slug != ""
    ensures r.AdminCourse? ==> |p| == 3 && r.id == p[2] && r.id != ""
  {
    if |p| == 1 && FoldSeg(p[0]) == "login" then Login
    else if |p| == 1 && FoldSeg(p[0]) == "register" then Register
    else if |p| == 1 && FoldSeg(p[0]) == "subscription-expired" then SubscriptionExpired
    else if p == [] then Root
    else if |p| == 1 && FoldSeg(p[0]) == "dashboard" then Dashboard
    else if |p| == 3 && FoldSeg(p[0]) == "course" && IsParam(p[1]) && FoldSeg(p[2]) == "learn" then CourseLearn(p[1])
    else if |p| == 1 && FoldSeg(p[0]) == "admin" then AdminIndex
    else if |p| == 2 && FoldSeg(p[0]) == "admin" && FoldSeg(p[1]) == "students" then AdminStudents
    else if |p| == 2 && FoldSeg(p[0]) == "admin" && FoldSeg(p[1]) == "courses" then AdminCourses
    else if |p| == 2 && FoldSeg(p[0]) == "admin" && FoldSeg(p[1]) == "settings" then AdminSettings
    else if |p| == 3 && FoldSeg(p[0]) == "admin" && FoldSeg(p[1]) == "course" && IsParam(p[2]) then AdminCourse(p[2])
    else NotFound
  }

  /** The path patterns the table lists, written independently of `Match`: the path
      folded to lower case is `/`, one of the static patterns, or fits a pattern with a
      non-empty `:param` segment. */
  predicate Listed(p: Path) {
    var q := FoldPath(p);
    |p| == 0
    || (|p| == 1 && q[0] in {"login", "register", "subscription-expired", "dashboard", "admin"})
    || (|p| == 2 && q[0] == "admin" && q[1] in {"students", "courses", "settings"})
    || (|p| == 3 && q[0] == "course" && p[1] != "" && q[2] == "learn")
    || (|p| == 3 && q[0] == "admin" && q[1] == "course" && p[2] != "")
  }

  /** What each route renders. The children of `/admin` render inside the admin layout,
      which is wrapped in `RequireAuth requireAdmin`. */
  function Layers(r: Route): seq<Layer> {
    match r
    case Login => [Page("Login")]
    case Register => [Page("Register")]
    case SubscriptionExpired => [Page("SubscriptionExpired")]
    case Root => [Redirect(["dashboard"])]
    case Dashboard => [Guard(false), Page("Dashboard")]
    case CourseLearn(_) => [Guard(false), Page("CoursePlayer")]
    case AdminIndex => [Guard(true), Page("AdminLayout"), Redirect(["admin", "students"])]
    case AdminStudents => [Guard(true), Page("AdminLayout"), Page("StudentsPage")]
    case AdminCourses => [Guard(true), Page("AdminLayout"), Page("CoursesPage")]
    case AdminSettings => [Guard(true), Page("AdminLayout"), Page("SettingsPage")]
    case AdminCourse(_) => [Guard(true), Page("AdminLayout"), Page("AdminCourseStudents")]
    case NotFound => [Page("NotFound")]
  }

  /** The guard requirement of a list of layers: `None` when no `RequireAuth` wraps it,
      otherwise whether any wrapper asks for an administrator. */
  function GuardOf(ls: seq<Layer>): (g: Option<bool>)
    ensures g.None? <==> forall i :: 0 <= i < |ls| ==> !ls[i].Guard?
    ensures g == Some(true) <==> exists i :: 0 <= i < |ls| && ls[i] == Guard(true)
  {
    if ls == [] then None
    else
      var rest := GuardOf(ls[1..]);
      assert forall i :: 1 <= i < |ls| ==> ls[i] == ls[1..][i - 1];
      if ls[0].Guard? then
        Some(ls[0].requireAdmin || rest == Some(true))
      else rest
  }

  function Requirement(r: Route): Option<bool> { GuardOf(Layers(r)) }

  /** The location string of a path, as `useLocation` reports it. */
  function PathString(p: Path): (s: string)
    ensures |s| >= 1 && s[0] == '/'
  {
    if p == [] then "/" else "/" + p[0] + (if |p| == 1 then "" else PathString(p[1..]))
  }

  /** The page component a route finally shows, if it shows one (not a redirect). */
  function Leaf(r: Route): Layer { Layers(r)[|Layers(r)| - 1] }

  /** The routes of the paths the guards and redirects send the browser to. */
  lemma TargetRoutes()
    ensures Match([]) == Root && Match(["login"]) == Login && Match(["dashboard"]) == Dashboard
    ensures Match(["subscription-expired"]) == SubscriptionExpired
    ensures Match(["admin", "students"]) == AdminStudents
  {
    FoldedLiterals();
  }

  /** `/login`, `/register` and `/subscription-expired` are unguarded, and `/` redirects
      to `/dashboard` without any guard. */
  lemma PublicRoutes()
    ensures Requirement(Match(["login"])) == None
    ensures Requirement(Match(["register"])) == None
    ensures Requirement(Match(["subscription-expired"])) == None
    ensures Requirement(Match([])) == None && Layers(Match([])) == [Redirect(["dashboard"])]
  {
    FoldedLiterals();
  }

  /** The student pages need a user but not an administrator. */
  lemma StudentRoutesNeedAuthOnly(slug: string)
    requires slug != ""
    ensures Requirement(Match(["dashboard"])) == Some(false)
    ensures Match(["course", slug, "learn"]) == CourseLearn(slug)
    ensures Requirement(Match(["course", slug, "learn"])) == Some(false)
  {
    FoldedLiterals();
  }

  /** Every page under `/admin` inherits the administrator guard of its parent route. */
  lemma AdminPagesInheritAdminGuard(p: Path)
    requires |p| >= 1 && FoldSeg(p[0]) == "admin" && Match(p) != NotFound
    ensures Requirement(Match(p)) == Some(true)
    ensures Layers(Match(p))[0] == Guard(true)
  {
    var ls := Layers(Match(p));
    assert ls[0] == Guard(true);
  }

  /** The admin index redirects to the students page. */
  lemma AdminIndexRedirects()
    ensures Leaf(Match(["admin"])) == Redirect(["admin", "students"])
    ensures Match(["admin", "students"]) == AdminStudents
  {
    FoldedLiterals();
  }

  /** `/auth/callback`, where registration sends its confirmation and OAuth links, has no
      route of its own: it lands on the catch-all. */
  lemma AuthCallbackIsNotRouted()
    ensures Match(["auth", "callback"]) == NotFound
    ensures !Listed(["auth", "callback"])
  {
  }

  /** Only routes guarded by an administrator wrapper sit under `/admin`, and conversely. */
  lemma AdminGuardExactlyUnderAdmin(p: Path)
    ensures Requirement(Match(p)) == Some(true) <==> (|p| >= 1 && FoldSeg(p[0]) == "admin" && Match(p) != NotFound)
  {
  }

  /** Folding a folded segment changes nothing. */
  lemma FoldSegIdempotent(s: string)
    ensures FoldSeg(FoldSeg(s)) == FoldSeg(s)
  {
  }

  /** The case of a path's letters never changes what it renders: the path and its
      lower-case form have the same layers, so the same guard and the same page. */
  lemma MatchIgnoresCase(p: Path)
    ensures Layers(Match(p)) == Layers(Match(FoldPath(p)))
  {
    var q := FoldPath(p);
    forall i | 0 <= i < |p| ensures FoldSeg(q[i]) == FoldSeg(p[i]) && (q[i] == "" <==> p[i] == "") {
      FoldSegIdempotent(p[i]);
    }
    if |p| == 1 {
      assert FoldSeg(q[0]) == FoldSeg(p[0]);
    } else if |p| == 2 {
      assert FoldSeg(q[0]) == FoldSeg(p[0]) && FoldSeg(q[1]) == FoldSeg(p[1]);
    } else if |p| > 3 {
      assert Match(p) == NotFound && Match(q) == NotFound;
    }
  }

  /** `/Admin/Students` renders the students page, and an empty `:slug` between two
      slashes matches nothing. */
  lemma MatchExamples()
    ensures Match(["Admin", "Students"]) == AdminStudents
    ensures Match(["COURSE", "Intro", "Learn"]) == CourseLearn("Intro")
    ensures Match(["course", "", "learn"]) == NotFound
  {
    FoldedLiterals();
  }
}
