/** The students page of one course: the active/expired split of its access grants, the
    expiry a grant or renewal receives, and the grant, update and delete requests on the
    `user_courses` table, held here as a map keyed by `(user_id, course_id)`. Timestamps are
    integers in milliseconds. */
module AdminCourseStudents {
  import opened Basics

  const DayMs: int := 24 * 60 * 60 * 1000

  /** A row of the course's `user_courses` query. `expiresAt` is `new Date(expires_at)`:
      `None` for a string that is not a date (the invalid date, for which both `>` and `<=`
      against now are false); a null column reads as the epoch, `Some(0)`. */
  datatype Student = Student(userId: string, expiresAt: Option<int>)

  predicate IsActive(s: Student, now: int) { s.expiresAt.Some? && s.expiresAt.value > now }
  predicate IsExpired(s: Student, now: int) { s.expiresAt.Some? && s.expiresAt.value <= now }

  /** `allStudents.filter((s) => new Date(s.expires_at) > now)`. */
  function ActiveStudents(ss: seq<Student>, now: int): (r: seq<Student>)
    ensures forall s :: s in r <==> s in ss && IsActive(s, now)
    ensures |r| <= |ss|
  {
    if ss == [] then []
    else (if IsActive(ss[0], now) then [ss[0]] else []) + ActiveStudents(ss[1..], now)
  }

  /** `allStudents.filter((s) => new Date(s.expires_at) <= now)`. */
  function ExpiredStudents(ss: seq<Student>, now: int): (r: seq<Student>)
    ensures forall s :: s in r <==> s in ss && IsExpired(s, now)
    ensures |r| <= |ss|
  {
    if ss == [] then []
    else (if IsExpired(ss[0], now) then [ss[0]] else []) + ExpiredStudents(ss[1..], now)
  }

  /** The rows with a readable expiry. */
  function Dated(ss: seq<Student>): seq<Student> {
    if ss == [] then [] else (if ss[0].expiresAt.Some? then [ss[0]] else []) + Dated(ss[1..])
  }

  /** The two lists share no row, and together they hold every row with a readable expiry,
      each as often as it occurs; a row whose expiry is not a date is on neither list. */
  lemma {:induction false} PartitionIsExact(ss: seq<Student>, now: int)
    ensures multiset(ActiveStudents(ss, now)) + multiset(ExpiredStudents(ss, now)) == multiset(Dated(ss))
    ensures forall s :: !(s in ActiveStudents(ss, now) && s in ExpiredStudents(ss, now))
  {
    if ss != [] {
      PartitionIsExact(ss[1..], now);
    }
  }

  /** Each list keeps the order of the query's rows: the rows of an earlier part come
      before those of a later part. */
  lemma PartitionKeepsOrder(ss: seq<Student>, tt: seq<Student>, now: int)
    ensures ActiveStudents(ss + tt, now) == ActiveStudents(ss, now) + ActiveStudents(tt, now)
    ensures ExpiredStudents(ss + tt, now) == ExpiredStudents(ss, now) + ExpiredStudents(tt, now)
  {
    ActiveKeepsOrder(ss, tt, now);
    ExpiredKeepsOrder(ss, tt, now);
  }

  lemma {:induction false} ActiveKeepsOrder(ss: seq<Student>, tt: seq<Student>, now: int)
    ensures ActiveStudents(ss + tt, now) == ActiveStudents(ss, now) + ActiveStudents(tt, now)
  {
    if ss == [] {
      assert ss + tt == tt;
    } else {
      var st := ss + tt;
      assert st[0] == ss[0] && st[1..] == ss[1..] + tt;
      ActiveKeepsOrder(ss[1..], tt, now);
    }
  }

  lemma {:induction false} ExpiredKeepsOrder(ss: seq<Student>, tt: seq<Student>, now: int)
    ensures ExpiredStudents(ss + tt, now) == ExpiredStudents(ss, now) + ExpiredStudents(tt, now)
  {
    if ss == [] {
      assert ss + tt == tt;
    } else {
      var st := ss + tt;
      assert st[0] == ss[0] && st[1..] == ss[1..] + tt;
      ExpiredKeepsOrder(ss[1..], tt, now);
    }
  }

  /** The expiry a grant or renewal stores: the date chosen in an input if any, else
      thirty days from now. */
  function ChosenExpiry(expireDate: Option<int>, now: int): (e: int)
    ensures expireDate.Some? ==> e == expireDate.value
    ensures expireDate.None? ==> e == now + 30 * DayMs && e > now
  {
    if expireDate.Some? then expireDate.value else now + 30 * DayMs
  }

  /** A `course_requests` row. */
  datatype Request = Request(id: string, userId: string, courseId: string, status: string)

  /** `update({ status: "approved" }).eq("user_id", u).eq("course_id", c)`: every request
      of that user for that course, whatever its status, becomes approved. */
  function ApproveRequests(rs: seq<Request>, u: string, c: string): (r: seq<Request>)
    ensures |r| == |rs|
    ensures forall i :: 0 <= i < |rs| ==>
      r[i] == if rs[i].userId == u && rs[i].courseId == c then rs[i].(status := "approved") else rs[i]
  {
    if rs == [] then []
    else
      var head := if rs[0].userId == u && rs[0].courseId == c then rs[0].(status := "approved") else rs[0];
      [head] + ApproveRequests(rs[1..], u, c)
  }

  /** The page of course `courseId`: the grant table, the request table, and the page's
      one shared date input value and selected request. */
  class Roster {
    const courseId: string
    var grants: map<(string, string), int>
    var requests: seq<Request>
    var expireDate: Option<int>
    var selected: Option<string>

    constructor (courseId: string, grants: map<(string, string), int>, requests: seq<Request>)
      ensures this.courseId == courseId && this.grants == grants && this.requests == requests
      ensures expireDate.None? && selected.None?
    {
      this.courseId := courseId;
      this.grants := grants;
      this.requests := requests;
      expireDate := None;
      selected := None;
    }

    /** Any row's date input: every row's input writes the same `expireDate`. */
    method PickDate(d: Option<int>)
      modifies this
      ensures expireDate == d
      ensures grants == old(grants) && requests == old(requests) && selected == old(selected)
    {
      expireDate := d;
    }

    method Select(u: Option<string>)
      modifies this
      ensures selected == u
      ensures grants == old(grants) && requests == old(requests) && expireDate == old(expireDate)
    {
      selected := u;
    }

    /** `giveAccess(u)`: upsert the grant with the chosen expiry, approve the user's
        requests for the course, then clear the selection and the date. */
    method GiveAccess(u: string, now: int)
      modifies this
      ensures grants == old(grants)[(u, courseId) := ChosenExpiry(old(expireDate), now)]
      ensures requests == ApproveRequests(old(requests), u, courseId)
      ensures selected.None? && expireDate.None?
      ensures forall k :: k in old(grants) && k != (u, courseId) ==> k in grants && grants[k] == old(grants)[k]
    {
      var e := ChosenExpiry(expireDate, now);
      grants := grants[(u, courseId) := e];
      requests := ApproveRequests(requests, u, courseId);
      selected := None;
      expireDate := None;
    }

    /** `update(u)`: change only the expiry of an existing grant (no row, no change), then
        clear the date. */
    method Update(u: string, now: int)
      modifies this
      ensures (u, courseId) in old(grants) ==> grants == old(grants)[(u, courseId) := ChosenExpiry(old(expireDate), now)]
      ensures (u, courseId) !in old(grants) ==> grants == old(grants)
      ensures requests == old(requests) && selected == old(selected) && expireDate.None?
    {
      var e := ChosenExpiry(expireDate, now);
      if (u, courseId) in grants {
        grants := grants[(u, courseId) := e];
      }
      expireDate := None;
    }

    /** `remove(u)`: delete exactly the `(u, courseId)` grant. */
    method Remove(u: string)
      modifies this
      ensures grants == old(grants) - {(u, courseId)}
      ensures forall k :: k in old(grants) && k != (u, courseId) ==> k in grants && grants[k] == old(grants)[k]
      ensures requests == old(requests) && selected == old(selected) && expireDate == old(expireDate)
    {
      grants := grants - {(u, courseId)};
    }
  }

  /** The date typed into one student's row is the date another student's renewal uses. */
  method SharedDateInput(r: Roster, b: string, d: int, now: int)
    requires (b, r.courseId) in r.grants
    modifies r
    ensures (b, r.courseId) in r.grants && r.grants[(b, r.courseId)] == d && r.expireDate.None?
  {
    r.PickDate(Some(d));
    r.Update(b, now);
  }

  /** A grant made without picking a date makes the student active for the next thirty
      days; one made with a past date puts them straight on the expired list. */
  lemma GrantLandsOnList(u: string, d: Option<int>, now: int)
    ensures d.None? ==> IsActive(Student(u, Some(ChosenExpiry(d, now))), now)
    ensures d.Some? && d.value <= now ==> IsExpired(Student(u, Some(ChosenExpiry(d, now))), now)
  {
  }
}
