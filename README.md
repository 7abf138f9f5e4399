# LMS front end: access control, routing and learning progress

This project models the logic of a learning-management single-page application in Dafny.
Students sign in, open the course dashboard and watch lessons in a course player. The player
records how far they watched and which lessons they completed. Administrators author
courses and grant, renew or revoke a student's time-limited access to a course. The backend
(authentication, the tables and a role check) is outside the model. Its answers are
parameters of the model, and the requests sent to it are values the model produces.

The modules follow the source files:

- `RequireAuth` (`require_auth.dfy`) models the route guard. The guard file holds an
  unresolved merge conflict, and both sides are modelled.
  - The HEAD side checks expiry before anything else and exempts administrators from it.
    It renders a spinner while loading, and its login redirect remembers the location the
    user came from.
  - The incoming side checks the admin requirement first and applies the expiry check to
    everyone, administrators included. It renders nothing while loading.
  - The lemmas characterise exactly when each side lets a user through, and exactly the two
    situations in which the sides disagree.
- `UseAuth` (`use_auth.dfy`) models the auth hook. It is also conflicted.
  - Pure transition functions give the record `{user, session, isAdmin, profile, loading}`.
  - `HeadAuth` is the HEAD side: a subscription and a separate session restore, no mount
    guard, and an exception that escapes the profile fetch.
  - `IncomingAuth` is the incoming side: one `handleSession` behind a `mountedRef` guard,
    and a failed fetch read as "no profile, not admin".
  - Each asynchronous completion is a step of its own, given the session its fetch was
    started for, so every interleaving can be expressed.
- `AppRoutes` (`app_routes.dfy`) models the route table: which path renders which layers
  (guard, page, redirect).
  - No route sets `caseSensitive`, so literal segments match in any case: `/Admin/Students`
    is the students page. A `:slug` or `:id` segment is kept as written and must be
    non-empty, so `/course//learn` lands on the catch-all.
- `Navigation` (`navigation.dfy`) joins the guard and the table. It proves three things:
  - redirects settle within two hops, from any path, in any auth state and on either side of
    the merge;
  - a non-administrator is never shown an admin page;
  - a loading or signed-out user is held back or sent to the login page.
- `CoursesPage` (`courses_page.dfy`) models the admin authoring page: the slug derived from a
  title, the `order_index` given to a new module or lesson, the stable display sort, and when
  the submit buttons are enabled.
- `Progress` (`progress.dfy`) holds the completion percentage shared by the player and the
  dashboard. It is `Math.round` of `100 * k / n`, computed over exact rationals.
- `CoursePlayer` (`course_player.dfy`) models the lesson order, the active, initial and next
  lessons, the progress map, the overall percentage, and when progress is saved.
- `Dashboard` (`dashboard.dfy`) models the progress map, the lessons grouped by course, and
  the percentage on each course card.
- `AdminCourseStudents` (`admin_course_students.dfy`) models one course's students page.
  - It splits the access grants into active and expired.
  - A grant or renewal that names no date gets an expiry thirty days ahead.
  - The `Roster` class holds the grant table as a map keyed by `(user, course)`. Its
    methods are the grant, update and delete mutations, on which every row shares one date
    input.
- `DotGrid` (`dot_grid.dfy`) models the background's colour parser, the call throttle (a
  class with the closure's one variable) and the grid layout that `buildGrid` produces with
  its two nested loops.
- `VideoPlayer` (`video_player.dfy`) covers:
  - the `m:ss` time label, with a parser as its partner;
  - the quality list;
  - the `Player` class: the reaction to fatal stream errors, and the play, seek and quality
    handlers, with the calls made on the stream library and the video element recorded in a
    log.
- `AuthCallback` (`auth_callback.dfy`) models the OAuth and e-mail link landing page.
  - It decides where the browser is sent: the login page, with or without an error, or the
    dashboard.
  - It encodes the error text with `encodeURIComponent`, modelled as UTF-8 with upper-case
    percent escapes.
  - A `decodeURIComponent` model is its partner, and the lemmas prove that decoding the
    encoding gives the text back.
  - The callback page has no route in `src/App.tsx`. A visit to `/auth/callback` lands on
    the catch-all page (`AppRoutes.AuthCallbackIsNotRouted`). The page's logic is modelled
    as written, independently of that.

`basics.dfy` holds an `Option` type, decimal digits and two small multiplication lemmas.

JavaScript semantics are written out where they matter:

- truthiness of `null` and `""`;
- `%`, whose remainder truncates toward zero;
- `Math.floor` and `Math.trunc`;
- `parseInt` on the values the quality selector offers;
- an invalid `Date`, against which every comparison is false. The model writes it as
  `None`.

Timestamps are integers in milliseconds.

## Model

| member | source | states |
|---|---|---|
| RequireAuth.DecideHead | src/components/RequireAuth.tsx:18-65 | HEAD's if-chain (lines 18-39, then the shared 49-53 and 65): wait with a spinner, login carrying the location, the expired page for a non-admin, the dashboard for a non-admin on an admin route, else the children; its outcomes are stated by AllowExactly, SidesDifferExactly, LoadingWaits, NoUserGoesToLogin and ExpiredStudentOnAdminPage |
| RequireAuth.DecideIncoming | src/components/RequireAuth.tsx:41-65 | incoming's if-chain (lines 41-53 and 57-65): wait, login, the dashboard for a non-admin on an admin route, the expired page, else the children; stated by the same lemmas |
| RequireAuth.LoadingWaits | src/components/RequireAuth.tsx:22-44 | while loading neither side redirects or renders the children; only HEAD shows a spinner |
| RequireAuth.NoUserGoesToLogin | src/components/RequireAuth.tsx:30-47 | not loading and no user: both sides redirect to login, and only HEAD passes the current location along |
| RequireAuth.NoAdminRouteNeverToDashboard | src/components/RequireAuth.tsx:51-53 | on a route without `requireAdmin` the dashboard redirect never happens, on either side |
| RequireAuth.NonAdminNeverAllowedOnAdminRoute | src/components/RequireAuth.tsx:51-53 | a non-administrator is never let through on an admin route, on either side |
| RequireAuth.ExpiryIsStrict | src/components/RequireAuth.tsx:35-36 | an expiry equal to now, or no readable expiry, never leads to the expired page |
| RequireAuth.AllowExactly | src/components/RequireAuth.tsx:18-65 | the exact condition under which each side renders the children (HEAD: user and (admin or (no admin route and not expired)); incoming: user, admin if required, not expired) |
| RequireAuth.SidesDifferExactly | src/components/RequireAuth.tsx:34-62 | the two sides lead to the same place except exactly for an expired user who is an admin or is on an admin route, and what each side does there |
| RequireAuth.ExpiredStudentOnAdminPage | src/components/RequireAuth.tsx:35-59 | an expired student on `/admin`: HEAD sends to the expired page, incoming to the dashboard |
| UseAuth.Initial | src/hooks/useAuth.ts:22-28 | the initial record has no user, session, profile or admin flag and is loading |
| UseAuth.SignedOut | src/hooks/useAuth.ts:120-126 | the signed-out record has nothing and is not loading |
| UseAuth.OnSession | src/hooks/useAuth.ts:99-106 | a session with a user sets user and session, starts loading and keeps the previous profile and admin flag; any other session signs out |
| UseAuth.Resolved | src/hooks/useAuth.ts:112-118 | after a fetch the record is replaced wholesale: the fetch's session and user, its profile and admin flag, not loading |
| UseAuth.HeadFetch | src/hooks/useAuth.ts:31-40 | HEAD's fetch: a thrown read propagates; otherwise the row or null, and admin exactly when the role check answered `true` |
| UseAuth.IncomingFetch | src/hooks/useAuth.ts:69-91 | the incoming fetch: as HEAD's, but an exception gives no profile and no admin flag |
| UseAuth.InitialConsistent | src/hooks/useAuth.ts:22-28 | the initial and the signed-out records satisfy the record invariant |
| UseAuth.TransitionsKeepConsistent | src/hooks/useAuth.ts:96-128 | both transitions preserve the invariant (user iff session, session belongs to user, no privilege without a user) |
| UseAuth.SignedOutMeansNoPrivilege | src/hooks/useAuth.ts:120-126 | a consistent, loaded record without a user has no profile and no admin flag, and is the signed-out record |
| UseAuth.SignOut | src/hooks/useAuth.ts:149-151 | signing out only issues the backend sign-out request; the method has no `modifies` clause, and that missing frame is the promise that no local state changes |
| UseAuth.LateCompletionUndoesSignOutIncoming | src/hooks/useAuth.ts:96-118 | the steps sign-in event, sign-out event, late completion of the sign-in's fetch end in `Resolved(s, IncomingFetch(o))`: the signed-out user is back, loaded, because there is no staleness check |
| UseAuth.LateCompletionUndoesSignOutHead | src/hooks/useAuth.ts:43-54 | the same steps on HEAD end in `Resolved(s, r)` for the fetch's result `r`, and stay signed out only when the fetch throws |
| UseAuth.HeadAuth.constructor | src/hooks/useAuth.ts:22-43 | HEAD starts in the initial record, subscribed |
| UseAuth.HeadAuth.AuthStateChanged | src/hooks/useAuth.ts:43-54 | an auth event applies the first part of session handling while subscribed, and nothing after unsubscribe |
| UseAuth.HeadAuth.SessionRestored | src/hooks/useAuth.ts:56-63 | a restored session without a user signs out at once; with one, nothing changes until its fetch completes |
| UseAuth.HeadAuth.ProfileFetched | src/hooks/useAuth.ts:48-59 | a completed fetch replaces the record; a thrown one leaves it (and `loading`) as it was |
| UseAuth.HeadAuth.Unmount | src/hooks/useAuth.ts:65 | cleanup only unsubscribes and keeps the record |
| UseAuth.IncomingAuth.constructor | src/hooks/useAuth.ts:67-94 | the incoming side starts in the initial record, mounted |
| UseAuth.IncomingAuth.HandleSession | src/hooks/useAuth.ts:96-106 | `handleSession` applies the first part of session handling only while mounted |
| UseAuth.IncomingAuth.ProfileFetched | src/hooks/useAuth.ts:108-118 | a completed fetch replaces the record with its mapped result only while still mounted |
| UseAuth.IncomingAuth.Unmount | src/hooks/useAuth.ts:142-145 | cleanup clears the mounted flag and keeps the record |
| UseAuth.UnmountFreezesIncoming | src/hooks/useAuth.ts:97-110 | after unmount neither a session event nor a late fetch changes the incoming record |
| UseAuth.UnmountDoesNotFreezeHead | src/hooks/useAuth.ts:48-65 | after unmount HEAD still issues the update of a late fetch (React then discards it on the unmounted component) |
| UseAuth.SignInIncoming | src/hooks/useAuth.ts:96-118 | a session event followed by its fetch ends in the resolved record |
| UseAuth.SignOutIncoming | src/hooks/useAuth.ts:149-151 | the sign-out request followed by the backend's signed-out event ends signed out |
| AppRoutes.FoldChar | src/App.tsx:55-94 | a capital ASCII letter becomes its small letter, every other character is kept, and no capital remains: the case-insensitive matching of routes without `caseSensitive` |
| AppRoutes.Match | src/App.tsx:54-94 | a path falls to the catch-all exactly when, ignoring the case of its letters, it matches none of the listed patterns; a matched `:slug` or `:id` is the non-empty segment as written |
| AppRoutes.Listed | src/App.tsx:54-94 | the route table's patterns written independently of `Match`, over the case-folded path; `Match` ensures the catch-all is chosen exactly when the path is not Listed |
| AppRoutes.Layers | src/App.tsx:54-94 | the element tree of each route: guards, layouts, pages and redirects in nesting order; stated by GuardOf, AdminPagesInheritAdminGuard, AdminIndexRedirects and MatchIgnoresCase |
| AppRoutes.FoldKeepsLower | src/App.tsx:55-92 | a segment without capitals is its own folded form |
| AppRoutes.FoldedLiterals | src/App.tsx:55-92 | every literal segment of the table is already lower case |
| AppRoutes.TargetRoutes | src/App.tsx:55-88 | `/`, `/login`, `/dashboard`, `/subscription-expired` and `/admin/students` match their routes |
| AppRoutes.GuardOf | src/App.tsx:79-92 | a route is unguarded iff no layer is a guard, and needs an admin iff some guard asks for one |
| AppRoutes.PublicRoutes | src/App.tsx:55-58 | login, register and expired pages are unguarded; `/` redirects to the dashboard without a guard |
| AppRoutes.StudentRoutesNeedAuthOnly | src/App.tsx:61-76 | the dashboard and `/course/:slug/learn` need a user but not an admin |
| AppRoutes.AdminPagesInheritAdminGuard | src/App.tsx:79-92 | every matched page under `/admin` is wrapped first by the admin guard |
| AppRoutes.AdminIndexRedirects | src/App.tsx:87-88 | the admin index ends in a redirect to the students page, which is a route |
| AppRoutes.AuthCallbackIsNotRouted | src/App.tsx:94 | `/auth/callback` matches no listed route and lands on the catch-all |
| AppRoutes.AdminGuardExactlyUnderAdmin | src/App.tsx:79-92 | a route needs an administrator iff its path is a matched path whose first segment is `admin` in any case |
| AppRoutes.FoldSegIdempotent | src/App.tsx:55-94 | folding a folded segment changes nothing |
| AppRoutes.MatchIgnoresCase | src/App.tsx:55-94 | a path and its lower-case form render the same layers, so the same guard and page |
| AppRoutes.MatchExamples | src/App.tsx:69-92 | `/Admin/Students` renders the students page, `/COURSE/Intro/Learn` the player for slug `Intro`, and `/course//learn` nothing but the catch-all |
| Navigation.Hop | src/App.tsx:54-94 | one render of a path: its layers walked outside-in, each guard deciding on the current auth record; its outcomes are stated by HopShape, FirstHopTargets, HopRoot and HopDashboard |
| Navigation.Follow | src/App.tsx:54-94 | following redirects from a path for a bounded number of hops; RedirectsSettleWithinTwoHops, SettledDoesNotRedirect and NonAdminNeverShownAdminPage are about where it settles |
| Navigation.HopShape | src/App.tsx:54-94 | one render: unguarded routes show their page (the root redirects), guarded ones go where the guard sends or show the page, the admin index redirects once allowed |
| Navigation.GuardTargetsAreNotAdminPages | src/components/RequireAuth.tsx:30-53 | a guard never redirects to an admin page |
| Navigation.FirstHopTargets | src/App.tsx:54-94 | a first redirect goes to login, dashboard or the expired page, or to the students page from an allowed admin index |
| Navigation.SecondHopSettles | src/App.tsx:54-94 | from wherever the first redirect leads, at most one more hop settles |
| Navigation.RedirectsSettleWithinTwoHops | src/App.tsx:54-94 | from any path, in any auth state, on either side of the guard, rendering settles within two redirects |
| Navigation.PublicPagesShow | src/App.tsx:55-57 | the login and expired pages render their page in any auth state |
| Navigation.DashboardSettles | src/App.tsx:61-68 | the dashboard settles after at most one redirect |
| Navigation.StudentsPageShows | src/App.tsx:88 | once the admin guard allows, the students page is shown |
| Navigation.AllowIgnoresLocation | src/components/RequireAuth.tsx:18-31 | the location only shapes the login redirect, never whether the guard allows |
| Navigation.TwoHopsAreSometimesNeeded | src/App.tsx:58-68 | an expired student opening `/` needs two redirects, ending at the expired page |
| Navigation.HopRoot | src/App.tsx:58 | `/` redirects to the dashboard in every auth state |
| Navigation.HopDashboard | src/App.tsx:61-68 | `/dashboard` shows the dashboard when its guard allows, and goes where the guard sends it otherwise |
| Navigation.NonAdminNeverShownAdminPage | src/App.tsx:79-92 | wherever a non-administrator settles, the page shown is not an admin page |
| Navigation.LoadingHoldsGuardedPages | src/components/RequireAuth.tsx:22-28 | while the hook is loading every guarded path holds back, so a kept stale profile is never acted on |
| Navigation.SignedOutGoesToLogin | src/components/RequireAuth.tsx:30-32 | signed out, every guarded path redirects to login, where rendering settles |
| Navigation.SettledDoesNotRedirect | src/App.tsx:54-94 | where redirect-following settles, rendering does not redirect again |
| CoursesPage.LowerChar | src/pages/admin/CoursesPage.tsx:76 | `A`..`Z` become `a`..`z`; spaces and slug characters are kept; no other character turns into a space |
| CoursesPage.Lower | src/pages/admin/CoursesPage.tsx:76 | a single character lowers as `LowerChar` says |
| CoursesPage.LowerAppend | src/pages/admin/CoursesPage.tsx:76 | lowering `a + b` gives the lowered `a` followed by the lowered `b`, so with `Lower` and `LowerChar` the whole string is pinned down |
| CoursesPage.CollapseSpaces | src/pages/admin/CoursesPage.tsx:77 | the result contains no space |
| CoursesPage.CollapseRun | src/pages/admin/CoursesPage.tsx:77 | a maximal run of spaces between two parts becomes exactly one `-` |
| CoursesPage.KeepSlugChars | src/pages/admin/CoursesPage.tsx:78 | only `[a-z0-9-]` remains, nothing is added, and a single character survives exactly when it is a slug character |
| CoursesPage.KeepSlugCharsAppend | src/pages/admin/CoursesPage.tsx:78 | the filter keeps order: what survives of `a + b` is what survives of `a`, then what survives of `b` |
| CoursesPage.DeriveSlug | src/pages/admin/CoursesPage.tsx:75-78 | lower-case, each whitespace run to `-`, then drop everything outside `[a-z0-9-]`; stated by DerivedSlugAlphabet, DeriveSlugIdempotent, SlugExample and PunctuationTitleGivesEmptySlug |
| CoursesPage.ChooseSlug | src/pages/admin/CoursesPage.tsx:73-78 | a typed slug is sent as typed; an empty one is replaced by a slug of `[a-z0-9-]` only, which deriving again leaves unchanged |
| CoursesPage.DerivedSlugAlphabet | src/pages/admin/CoursesPage.tsx:73-78 | a derived slug holds only `[a-z0-9-]` and no space |
| CoursesPage.DeriveSlugIdempotent | src/pages/admin/CoursesPage.tsx:75-78 | deriving a slug from a derived slug changes nothing |
| CoursesPage.PunctuationTitleGivesEmptySlug | src/pages/admin/CoursesPage.tsx:358 | a punctuation-only title derives the empty slug although the create button is enabled |
| CoursesPage.SubmitEnabled | src/pages/admin/CoursesPage.tsx:358-453 | a submit button (lines 358, 389 and 453) is enabled when its mutation is idle and its title is not empty; PunctuationTitleGivesEmptySlug shows it accepts a title whose slug is empty |
| CoursesPage.SlugExample | src/pages/admin/CoursesPage.tsx:75-78 | `"A  b"` derives `"a-b"` |
| CoursesPage.CourseInsertOf | src/pages/admin/CoursesPage.tsx:73-81 | the inserted course is the form as typed with the typed slug, or a well-formed derived one |
| CoursesPage.FindCourse | src/pages/admin/CoursesPage.tsx:120 | finds the first loaded course with that id, as `.find` does, and finds none exactly when none has it |
| CoursesPage.FindModule | src/pages/admin/CoursesPage.tsx:138 | the first module with that id in `flatMap` order (the modules course by course), and none when no course has it |
| CoursesPage.AddModule | src/pages/admin/CoursesPage.tsx:119-124 | the new module's index is its course's module count, 0 when the course is not loaded |
| CoursesPage.AddLesson | src/pages/admin/CoursesPage.tsx:138-147 | the new lesson's index is its module's lesson count (0 when not found), an empty resources URL stored as null |
| CoursesPage.AppendKeepsDense | src/pages/admin/CoursesPage.tsx:120-121 | appending with the computed index keeps indices 0..n-1 distinct, the new module last |
| CoursesPage.Insert | src/pages/admin/CoursesPage.tsx:232 | insertion adds exactly the element to the multiset |
| CoursesPage.InsertSorted | src/pages/admin/CoursesPage.tsx:232 | inserting into a sorted sequence keeps it sorted |
| CoursesPage.SortBy | src/pages/admin/CoursesPage.tsx:232 | the sort is a permutation and sorted by the key |
| CoursesPage.SortByStable | src/pages/admin/CoursesPage.tsx:232 | elements with equal `order_index` keep their relative order |
| CoursesPage.DisplayModules | src/pages/admin/CoursesPage.tsx:232 | displayed modules are a permutation of the course's, ascending by `order_index` |
| CoursesPage.DisplayLessons | src/pages/admin/CoursesPage.tsx:250 | displayed lessons are a permutation of the module's, ascending by `order_index` |
| Progress.RoundedPercent | src/pages/CoursePlayer.tsx:129-131 | 0 with no lessons, else the integer nearest `100k/n`, halves rounding up, as `Math.round` does |
| Progress.PercentBounds | src/pages/Dashboard.tsx:92-95 | at most 100 when `k <= n`, exactly 100 when all are done, 0 when none are |
| Progress.PercentMonotone | src/pages/Dashboard.tsx:91-95 | completing one more lesson never lowers the percentage |
| Progress.PositiveExactly | src/pages/Dashboard.tsx:91-95 | the percentage is positive exactly when `200k >= n` |
| Progress.OneInTwoHundredOne | src/pages/Dashboard.tsx:154 | one lesson out of 201 rounds to 0 (no bar), one of 200 to 1 |
| CoursePlayer.Flatten | src/pages/CoursePlayer.tsx:78 | a lesson is in the order iff it is in some module |
| CoursePlayer.AllLessons | src/pages/CoursePlayer.tsx:78 | before the modules load there are no lessons; afterwards a lesson is in the order exactly when some module holds it |
| CoursePlayer.FlattenPosition | src/pages/CoursePlayer.tsx:78 | lesson `j` of module `i` sits at the lesson counts of the earlier modules plus `j` |
| CoursePlayer.FindIndex | src/pages/CoursePlayer.tsx:79 | the index of the first lesson with the id, or -1 exactly when none has it |
| CoursePlayer.ActiveLesson | src/pages/CoursePlayer.tsx:76 | the first lesson of the course with the active id, none exactly when no lesson has it |
| CoursePlayer.NextLesson | src/pages/CoursePlayer.tsx:79-120 | after the first lesson with the active id comes the one behind it, after the last none; an id no lesson has gives the first lesson; a next lesson is a lesson of the course |
| CoursePlayer.InitialActive | src/pages/CoursePlayer.tsx:69-78 | an active lesson is never replaced and nothing happens before the modules load; a replacement is always the first lesson of the order, and one happens whenever the first module has a lesson |
| CoursePlayer.EmptyFirstModuleSelectsNothing | src/pages/CoursePlayer.tsx:71-72 | an empty first module selects no lesson although later modules have one |
| CoursePlayer.LessonIds | src/pages/CoursePlayer.tsx:55 | the ids of the lesson order, in order; an id is listed exactly when some module holds a lesson with it |
| CoursePlayer.BuildProgressMap | src/pages/CoursePlayer.tsx:55-64 | no ids or no data give `{}`; otherwise keys are exactly the rows' lessons, each holding its last row |
| CoursePlayer.CompletedCount | src/pages/CoursePlayer.tsx:129 | the number of stored rows marked completed, whichever course they belong to; OverallProgress rounds it against the lesson count and OverallAtMostHundred bounds it under keyed, course-only rows |
| CoursePlayer.OverallProgress | src/pages/CoursePlayer.tsx:129-131 | the rounded percentage of completed entries over the lesson count, 0 without lessons |
| CoursePlayer.OverallAtMostHundred | src/pages/CoursePlayer.tsx:61-131 | with progress only for the course's lessons the overall percentage is at most 100 |
| CoursePlayer.TimeUpdateSave | src/pages/CoursePlayer.tsx:93-102 | a save exactly with an active lesson, a user and a floored time divisible by 10; it stores the floored time, not completed |
| CoursePlayer.EndedSave | src/pages/CoursePlayer.tsx:104-107 | the end save exactly with an active lesson and a user: position 0, completed |
| CoursePlayer.SaveKinds | src/pages/CoursePlayer.tsx:83-107 | periodic saves never complete and store multiples of 10; end saves complete; nothing is saved signed out |
| CoursePlayer.InitialTime | src/pages/CoursePlayer.tsx:162 | `?? 0` over the active lesson's stored position; ResumeAfterPeriodicSave and CompletedLessonStartsOver state where playback resumes after each kind of save |
| CoursePlayer.ResumeAfterPeriodicSave | src/pages/CoursePlayer.tsx:82-162 | `InitialTime` after a periodic save at `t`: the player resumes at the floored `t`, within a second before `t`, at a multiple of 10 |
| CoursePlayer.CompletedLessonStartsOver | src/pages/CoursePlayer.tsx:104-162 | `InitialTime` of a lesson whose stored row is the completion save, or that has no row: 0 |
| Dashboard.BuildProgressMap | src/pages/Dashboard.tsx:51-55 | keys are exactly the rows' lessons, each holding its last row's completion; `null` data gives `{}` |
| Dashboard.GroupLessons | src/pages/Dashboard.tsx:71-78 | keys are exactly the rows' courses, each holding that course's ids in row order |
| Dashboard.IdsOfSplit | src/pages/Dashboard.tsx:74-75 | each row's id is pushed behind its course's earlier ids |
| Dashboard.RowIsListed | src/pages/Dashboard.tsx:72-76 | every lesson id is on its own course's list |
| Dashboard.EachLessonInExactlyOneList | src/pages/Dashboard.tsx:72-76 | a lesson on one row is on its course's list and on no other |
| Dashboard.CompletedIn | src/pages/Dashboard.tsx:91 | the number of list positions whose lesson has a `true` entry, at most the list length |
| Dashboard.CoursePercent | src/pages/Dashboard.tsx:90-96 | 0 with no lessons, else `Math.round(100k/n)` for `k` completed of `n` listed lessons (the nearest integer, halves up); at most 100 and positive exactly when `200k >= n` |
| Dashboard.ProgressByCourse | src/pages/Dashboard.tsx:85-99 | `{}` until both maps load; then the keys are the courses and each value is that course's percentage |
| Dashboard.CardPercent | src/pages/Dashboard.tsx:123 | `progressByCourse[course.id] ?? 0`; BarShownExactly states it is the course's rounded percentage, 0 without a lesson list |
| Dashboard.BarShownExactly | src/pages/Dashboard.tsx:123-154 | a card shows its course's percentage (`CardPercent`, 0 without a list), and the bar exactly for a course with lessons of which at least half a percent are completed; never above 100 |
| AdminCourseStudents.ActiveStudents | src/pages/admin/AdminCourseStudents.tsx:47 | a row is active iff its expiry is readable and after now |
| AdminCourseStudents.ExpiredStudents | src/pages/admin/AdminCourseStudents.tsx:48 | a row is expired iff its expiry is readable and not after now |
| AdminCourseStudents.PartitionIsExact | src/pages/admin/AdminCourseStudents.tsx:44-50 | the two lists are disjoint and together hold every dated row exactly as often; an undated row is on neither |
| AdminCourseStudents.PartitionKeepsOrder | src/pages/admin/AdminCourseStudents.tsx:47-48 | both lists keep the query's order |
| AdminCourseStudents.ChosenExpiry | src/pages/admin/AdminCourseStudents.tsx:55-57 | the picked date if any, otherwise thirty days after now |
| AdminCourseStudents.ApproveRequests | src/pages/admin/AdminCourseStudents.tsx:63 | every request of that user and course becomes approved, whatever its status; the others are unchanged |
| AdminCourseStudents.Roster.constructor | src/pages/admin/AdminCourseStudents.tsx:11-12 | empty date input and no selection |
| AdminCourseStudents.Roster.PickDate | src/pages/admin/AdminCourseStudents.tsx:100 | a row's date input sets the one shared date value and nothing else |
| AdminCourseStudents.Roster.Select | src/pages/admin/AdminCourseStudents.tsx:141-144 | selection changes only the selected request |
| AdminCourseStudents.Roster.GiveAccess | src/pages/admin/AdminCourseStudents.tsx:53-66 | upserts exactly this grant with the chosen expiry, approves the user's requests, clears selection and date, other grants unchanged |
| AdminCourseStudents.Roster.Update | src/pages/admin/AdminCourseStudents.tsx:68-77 | renews an existing grant only (no row, no change), then clears the date |
| AdminCourseStudents.Roster.Remove | src/pages/admin/AdminCourseStudents.tsx:79-84 | deletes exactly this grant, all others unchanged |
| AdminCourseStudents.SharedDateInput | src/pages/admin/AdminCourseStudents.tsx:100-138 | a date typed in any row is the expiry the next renewal of another student stores |
| AdminCourseStudents.GrantLandsOnList | src/pages/admin/AdminCourseStudents.tsx:47-57 | a grant without a date is active; one with a past date is immediately expired |
| DotGrid.DigitIgnoresCase | src/components/DotGrid.tsx:7-13 | a digit and its lower case are both digits or neither, with one value, and writing the value back gives the lower-case digit |
| DotGrid.PairWrite | src/components/DotGrid.tsx:10-12 | the two digits written back from a pair's value are the pair in lower case |
| DotGrid.HexIgnoresCase | src/components/DotGrid.tsx:7 | for every string, it and its lower-case form match alike and `HexToRgb` gives them the same colour |
| DotGrid.HexToRgb | src/components/DotGrid.tsx:6-14 | black unless the pattern matches, each channel in 0..255; ParseThenWrite, RgbRoundTrip, HexIgnoresCase and HexExamples pin every channel to its digit pair |
| DotGrid.ParseThenWrite | src/components/DotGrid.tsx:6-14 | every string `HexToRgb` accepts parses to the colour whose `#rrggbb` form is its six digits in lower case, so pairs 1-2, 3-4 and 5-6 give red, green and blue in either case |
| DotGrid.RgbRoundTrip | src/components/DotGrid.tsx:7-13 | any colour written as six hex digits parses back, with or without `#` |
| DotGrid.HexExamples | src/components/DotGrid.tsx:7-8 | the pattern ignores case and rejects three-digit and non-hex colours |
| DotGrid.SpacedPairwise | src/components/DotGrid.tsx:20 | forwarded calls at least `limit` apart pairwise |
| DotGrid.Throttle.constructor | src/components/DotGrid.tsx:17 | the last call starts at 0 with no call forwarded |
| DotGrid.Throttle.Call | src/components/DotGrid.tsx:18-24 | forwards exactly when `limit` has passed since the last forwarded call, which it then records; otherwise nothing changes |
| DotGrid.ThrottleStart | src/components/DotGrid.tsx:16-25 | a call before `limit` has passed since 0 is dropped, and so is one too soon after a forwarded call |
| DotGrid.Grid | src/components/DotGrid.tsx:66-75 | the nested row and column loops as a sequence of rows; GridLength, GridAt and GridShape state its length and every dot, and BuildGrid's loop is proved against it |
| DotGrid.GridLength | src/components/DotGrid.tsx:66-75 | the grid holds `rows * cols` dots |
| DotGrid.GridAt | src/components/DotGrid.tsx:66-75 | the dot of column `x`, row `y` is at index `y * cols + x` |
| DotGrid.GridShape | src/components/DotGrid.tsx:66-75 | `rows * cols` dots in row-major order, every dot centred in its cell and without offset |
| DotGrid.BuildGrid | src/components/DotGrid.tsx:61-76 | the nested loops build exactly the row-major grid of `floor(height/cell)` by `floor(width/cell)` dots |
| DotGrid.DefaultGridExample | src/components/DotGrid.tsx:61-63 | default dot size and gap on 100 by 45 give ten dots |
| VideoPlayer.PadStart2 | src/components/VideoPlayer.tsx:162 | pads to two characters with leading zeros |
| VideoPlayer.FormatTime | src/components/VideoPlayer.tsx:159-163 | `formatTime` with JavaScript's `%` on reals; FormatTimeClock, FormatTimeRoundTrip and FormatTimeExamples state the label |
| VideoPlayer.FormatTimeClock | src/components/VideoPlayer.tsx:159-163 | for a non-negative time the label is minutes, `:`, and exactly two second digits, with `60m + ss` the whole seconds |
| VideoPlayer.ParseClock | src/components/VideoPlayer.tsx:159-163 | a parsed label is a non-negative number of seconds |
| VideoPlayer.ClockRoundTrip | src/components/VideoPlayer.tsx:159-163 | the label `m:ss` reads back as `60m + ss` |
| VideoPlayer.FormatTimeRoundTrip | src/components/VideoPlayer.tsx:159-163 | the label of a non-negative time reads back as its whole seconds |
| VideoPlayer.FormatTimeExamples | src/components/VideoPlayer.tsx:159-163 | 0 s reads `0:00`, 61.5 s reads `1:01` |
| VideoPlayer.QualityList | src/components/VideoPlayer.tsx:57-61 | `Auto` with id -1 first, then one entry per level with id `i` and caption height + `p` |
| VideoPlayer.ParseInt | src/components/VideoPlayer.tsx:146 | `parseInt` on an optional minus sign and digits; ParseIntRoundTrip, QualitiesSelectTheirLevel and ChooseOfferedQuality show each offered id reads back as itself |
| VideoPlayer.ParseIntRoundTrip | src/components/VideoPlayer.tsx:146 | `parseInt` of an id's decimal string gives the id back |
| VideoPlayer.QualitiesSelectTheirLevel | src/components/VideoPlayer.tsx:239-245 | entry ids are distinct, entry `i` selects level `i - 1`, the selector shows exactly when there is a level |
| VideoPlayer.StartTime | src/components/VideoPlayer.tsx:63 | the start position is applied only when positive |
| VideoPlayer.Player.constructor | src/components/VideoPlayer.tsx:33-51 | not playing, no qualities, automatic quality, no error, paused at 0, no calls |
| VideoPlayer.Player.ManifestParsed | src/components/VideoPlayer.tsx:56-64 | sets the quality list and applies the start rule, nothing else |
| VideoPlayer.Player.StreamError | src/components/VideoPlayer.tsx:67-82 | non-fatal errors change nothing; fatal network restarts loading, media recovers, others show the load error and destroy |
| VideoPlayer.Player.TogglePlay | src/components/VideoPlayer.tsx:114-124 | plays a paused video and pauses a playing one, `playing` following |
| VideoPlayer.Player.Seek | src/components/VideoPlayer.tsx:134-137 | the position becomes the slider's first value |
| VideoPlayer.Player.QualityChange | src/components/VideoPlayer.tsx:144-147 | remembers the choice and, with an instance held, sets the parsed level |
| VideoPlayer.ChooseOfferedQuality | src/components/VideoPlayer.tsx:56-147 | choosing the `i`-th offered entry sets level `i - 1` |
| AuthCallback.HexUpper | src/pages/AuthCallback.tsx:18 | an escape digit is upper-case and reads back as its value |
| AuthCallback.Utf8 | src/pages/AuthCallback.tsx:18 | a character encodes to one to four bytes |
| AuthCallback.PercentBytes | src/pages/AuthCallback.tsx:18 | three characters per byte |
| AuthCallback.PercentBytesRead | src/pages/AuthCallback.tsx:18 | escaped bytes decode back to the bytes |
| AuthCallback.Utf8RoundTrip | src/pages/AuthCallback.tsx:18 | the UTF-8 bytes of a character announce their length and decode back to the character |
| AuthCallback.DecodeEncodedChar | src/pages/AuthCallback.tsx:18 | one encoded character decodes to itself, whatever follows |
| AuthCallback.EncodeURIComponent | src/pages/AuthCallback.tsx:18 | `encodeURIComponent`, character by character; stated by EncodeRoundTrip, EncodeAlphabet, NoDelimiters and the two examples |
| AuthCallback.DecodeURIComponent | src/pages/AuthCallback.tsx:18 | `decodeURIComponent`, an independent decoder that fails where JavaScript throws; DecodeEncodedChar and EncodeRoundTrip prove it inverts the encoder |
| AuthCallback.EncodeRoundTrip | src/pages/AuthCallback.tsx:18 | `decodeURIComponent(encodeURIComponent(s)) == s` for every string |
| AuthCallback.EncodeAlphabet | src/pages/AuthCallback.tsx:18 | the encoding holds only unreserved characters and `%` |
| AuthCallback.NoDelimiters | src/pages/AuthCallback.tsx:18 | no encoded character can end or split a query parameter |
| AuthCallback.ExchangedCode | src/pages/AuthCallback.tsx:16-23 | the code is exchanged exactly when there is no error and a code |
| AuthCallback.ErrorText | src/pages/AuthCallback.tsx:18 | the description when present, else the error code; never empty |
| AuthCallback.HandleCallback | src/pages/AuthCallback.tsx:16-31 | always a replacing navigation, carrying an error text exactly when an error came |
| AuthCallback.ErrorWinsOverCode | src/pages/AuthCallback.tsx:16-20 | with an error, no exchange happens and any code or exchange result is irrelevant: login with the text |
| AuthCallback.ExchangeOnlyWithCode | src/pages/AuthCallback.tsx:22-29 | the exchange result matters only when an exchange is made |
| AuthCallback.OutcomesExactly | src/pages/AuthCallback.tsx:16-31 | dashboard exactly without an error or failed exchange; the bare login exactly after a failed exchange |
| AuthCallback.Href | src/pages/AuthCallback.tsx:18 | the URL navigated to, with the error text as its query; ErrorReachesLogin states its exact form and that the text decodes back |
| AuthCallback.ErrorReachesLogin | src/pages/AuthCallback.tsx:18 | the login URL carries the encoded text as its only parameter, which decodes back to the text |
| AuthCallback.TargetsAreRouted | src/pages/AuthCallback.tsx:18-31 | both targets are routes (login public, dashboard signed-in only); the callback's own path is not |
| AuthCallback.EncodeSpaceExample | src/pages/AuthCallback.tsx:18 | `"a b"` encodes to `"a%20b"` |
| AuthCallback.EncodeMultibyteExample | src/pages/AuthCallback.tsx:18 | `ñ` encodes to `%C3%B1` |

## Left out

- Rendering, styling, toasts, skeletons and the fullscreen and playback-rate controls are not modelled. These are presentation, not logic.
- The backend (`supabase` auth, tables and the role check) is not modelled. Its answers are parameters and its requests are values. Backend errors that the mutations ignore, and query caching and invalidation, are not modelled.
- `Progress.RoundedPercent` computes over exact rationals, not IEEE doubles. The floating-point error of `(k / n) * 100` near a half is not modelled.
- `AdminCourseStudents.ChosenExpiry` adds thirty days of 24 hours each. `setDate(getDate() + 30)` across a daylight-saving change, and the parsing of the date input's string, are not modelled. The input is given as a parsed timestamp, and an unparsable string is not modelled.
- `CoursesPage.LowerChar` models only the `toLowerCase` mappings that can change a slug. A character whose lower case is neither a slug character nor a space is dropped either way, so it is kept as it is.
- `CoursesPage` `togglePublish` and `deleteCourse` (src/pages/admin/CoursesPage.tsx:93-116) are not modelled. They only forward one backend update or delete, with no local logic.
- `CoursePlayer` does not model the 5-second auto-advance timer and its cancellation, because they are timers. The next lesson is modelled by `NextLesson`.
- `AppRoutes.Match` takes a path as its list of segments. Splitting the location at `/`, dropping trailing slashes and percent-decoding segments happen before it and are not modelled.
- `CoursePlayer.BuildProgressMap` does not model that the progress query can run before the modules have loaded and then cache `{}`. This is query scheduling.
- `UseAuth`: overlapping asynchronous handlers are expressible as interleaved steps, but React's batching and StrictMode double effects are not modelled.
- `DotGrid.BuildGrid` requires a non-zero cell size (`dotSize + gap`). With a zero size the source itself does not finish: when the canvas has a height, `Math.floor(height / 0)` is `Infinity` and the row loop never ends; with a zero height the count is `NaN` and no dots are built. The integer model has neither value.
- `DotGrid` drawing, pointer tracking, the shock animation and colour interpolation are not modelled. They are canvas and animation code. The throttle is modelled although the component never calls it.
- `VideoPlayer.Player.QualityChange` reads only values that are a whole integer. `parseInt` takes the leading integer of any other string (`"1.5"` gives 1, `"2p"` gives 2) and sets the level to it, and gives `NaN` only for a string that does not start with an integer; for all these the model records no call. The gap is harmless: the selector offers only `q.id.toString()`, and `ParseIntRoundTrip` shows those values read back as their integers.
- `VideoPlayer.Player.Seek` does not model an empty slider value. The element refuses the non-finite assignment there, and the model leaves the position unchanged.
- `VideoPlayer` does not model the stream library's internals, the `timeupdate` state mirroring or the cleanup on source change.
- `VideoPlayer.FormatTimeClock` and the round trip cover non-negative finite times only. A video element never reports a negative time. A live stream reports a duration of `Infinity`, which `v.duration || 0` keeps, and `formatTime(Infinity)` then renders `"Infinity:NaN"`; a real-valued time cannot express that.
- `AuthCallback.EncodeURIComponent` is not modelled on lone surrogates. Dafny strings hold only Unicode scalar values, so the case where `encodeURIComponent` throws on them does not arise. `DecodeURIComponent` is modelled as the partner of the encoder, not as the browser's full parser.
- The `AuthProvider` component, the login and registration pages, and the supabase client are not part of this model.
