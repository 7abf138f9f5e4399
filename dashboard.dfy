/** The student dashboard: which lessons belong to which course, which lessons the user
    completed, and the per-course percentage on each course card. */
module Dashboard {
  import opened Basics
  import opened Progress

  /** A `user_progress` row as the dashboard selects it. */
  datatype ProgressEntry = ProgressEntry(lessonId: string, isCompleted: bool)

  /** A `lessons` row with its module's course. */
  datatype LessonRow = LessonRow(id: string, courseId: string)

  function RowsOf<T>(data: Option<seq<T>>): seq<T> {
    if data.None? then [] else data.value
  }

  /** Entry `i` is the last one for its lesson. */
  predicate LastFor(es: seq<ProgressEntry>, i: int)
    requires 0 <= i < |es|
  {
    forall j :: i < j < |es| ==> es[j].lessonId != es[i].lessonId
  }

  /** The `all-progress` query: `map[lesson_id] = is_completed` for each row, the last
      row for a lesson winning; `null` data gives `{}`. */
  method BuildProgressMap(data: Option<seq<ProgressEntry>>) returns (m: map<string, bool>)
    ensures var es := RowsOf(data);
      && (forall id :: id in m <==> exists i :: 0 <= i < |es| && es[i].lessonId == id)
      && (forall i :: 0 <= i < |es| && LastFor(es, i) ==> m[es[i].lessonId] == es[i].isCompleted)
  {
    var es := RowsOf(data);
    m := map[];
    var k := 0;
    while k < |es|
      invariant 0 <= k <= |es|
      invariant forall id :: id in m <==> exists i :: 0 <= i < k && es[i].lessonId == id
      invariant forall i :: 0 <= i < k && (forall j :: i < j < k ==> es[j].lessonId != es[i].lessonId) ==>
        m[es[i].lessonId] == es[i].isCompleted
    {
      m := m[es[k].lessonId := es[k].isCompleted];
      k := k + 1;
    }
  }

  /** The ids of the rows of course `c`, in row order. */
  function IdsOf(rows: seq<LessonRow>, c: string): seq<string> {
    if rows == [] then []
    else IdsOf(rows[..|rows| - 1], c) + (if rows[|rows| - 1].courseId == c then [rows[|rows| - 1].id] else [])
  }

  /** The `lesson-counts` query: each row's id pushed onto its course's list, a list
      being created on a course's first row. */
  method GroupLessons(data: Option<seq<LessonRow>>) returns (counts: map<string, seq<string>>)
    ensures var rows := RowsOf(data);
      && (forall c :: c in counts <==> exists i :: 0 <= i < |rows| && rows[i].courseId == c)
      && (forall c :: c in counts ==> counts[c] == IdsOf(rows, c))
  {
    var rows := RowsOf(data);
    counts := map[];
    var k := 0;
    while k < |rows|
      invariant 0 <= k <= |rows|
      invariant forall c :: c in counts <==> exists i :: 0 <= i < k && rows[i].courseId == c
      invariant forall c :: c in counts ==> counts[c] == IdsOf(rows[..k], c)
      invariant forall c :: c !in counts ==> IdsOf(rows[..k], c) == []
    {
      var cid := rows[k].courseId;
      if cid !in counts {
        counts := counts[cid := []];
      }
      counts := counts[cid := counts[cid] + [rows[k].id]];
      assert rows[..k + 1][..k] == rows[..k];
      k := k + 1;
    }
    assert rows[..|rows|] == rows;
  }

  /** Every row's id is on its own course's list, in row order behind the ids of the
      earlier rows of that course. */
  lemma {:induction false} IdsOfSplit(rows: seq<LessonRow>, i: int)
    requires 0 <= i < |rows|
    ensures IdsOf(rows[..i + 1], rows[i].courseId) == IdsOf(rows[..i], rows[i].courseId) + [rows[i].id]
  {
    assert rows[..i + 1][..i] == rows[..i];
  }

  lemma {:induction false} IdsOfPrefix(rows: seq<LessonRow>, k: int, c: string)
    requires 0 <= k <= |rows|
    ensures exists rest :: IdsOf(rows, c) == IdsOf(rows[..k], c) + rest
    decreases |rows| - k
  {
    if k == |rows| {
      assert rows[..k] == rows;
      assert IdsOf(rows, c) == IdsOf(rows[..k], c) + [];
    } else {
      IdsOfPrefix(rows, k + 1, c);
      var rest :| IdsOf(rows, c) == IdsOf(rows[..k + 1], c) + rest;
      assert rows[..k + 1][..k] == rows[..k];
      var more := if rows[k].courseId == c then [rows[k].id] else [];
      assert IdsOf(rows[..k + 1], c) == IdsOf(rows[..k], c) + more;
      assert IdsOf(rows, c) == IdsOf(rows[..k], c) + (more + rest);
    }
  }

  /** Every lesson id is on the list of its course. */
  lemma RowIsListed(rows: seq<LessonRow>, i: int)
    requires 0 <= i < |rows|
    ensures rows[i].id in IdsOf(rows, rows[i].courseId)
  {
    IdsOfSplit(rows, i);
    IdsOfPrefix(rows, i + 1, rows[i].courseId);
  }

  lemma {:induction false} IdsOfOnlyCourse(rows: seq<LessonRow>, c: string, id: string)
    requires id in IdsOf(rows, c)
    ensures exists i :: 0 <= i < |rows| && rows[i].id == id && rows[i].courseId == c
  {
    if rows != [] {
      var init := rows[..|rows| - 1];
      if id in IdsOf(init, c) {
        IdsOfOnlyCourse(init, c, id);
        var i :| 0 <= i < |init| && init[i].id == id && init[i].courseId == c;
        assert rows[i] == init[i];
      }
    }
  }

  /** A lesson id that occurs on one row is on its course's list and on no other. */
  lemma EachLessonInExactlyOneList(rows: seq<LessonRow>, i: int, c: string)
    requires 0 <= i < |rows|
    requires forall j :: 0 <= j < |rows| && j != i ==> rows[j].id != rows[i].id
    ensures rows[i].id in IdsOf(rows, c) <==> c == rows[i].courseId
  {
    if c == rows[i].courseId {
      RowIsListed(rows, i);
    } else if rows[i].id in IdsOf(rows, c) {
      IdsOfOnlyCourse(rows, c, rows[i].id);
    }
  }

  /** `progressMap[lid]` is truthy: the lesson has an entry and it is `true`. */
  predicate Done(pm: map<string, bool>, id: string) { id in pm && pm[id] }

  /** `lessons.filter((lid) => progressMap[lid]).length`: the number of positions of the
      list whose lesson is completed (an absent lesson is falsy). */
  function CompletedIn(lessons: seq<string>, pm: map<string, bool>): (k: nat)
    ensures k == |set i | 0 <= i < |lessons| && Done(pm, lessons[i])|
    ensures k <= |lessons|
  {
    if lessons == [] then 0
    else
      var n := |lessons| - 1;
      var init := lessons[..n];
      var k := CompletedIn(init, pm);
      assert (set i | 0 <= i < |lessons| && Done(pm, lessons[i])) ==
        (set i | 0 <= i < n && Done(pm, init[i])) + (if Done(pm, lessons[n]) then {n} else {});
      k + (if Done(pm, lessons[n]) then 1 else 0)
  }

  /** A course's percentage: `Math.round(100 * k / n)` of its `n` listed lessons of which
      `k` are completed, and 0 for a course without lessons. */
  function CoursePercent(lessons: seq<string>, pm: map<string, bool>): (p: nat)
    ensures p <= 100
    ensures |lessons| == 0 ==> p == 0
    ensures |lessons| > 0 ==>
      2 * |lessons| * p <= 200 * CompletedIn(lessons, pm) + |lessons| < 2 * |lessons| * (p + 1)
    ensures |lessons| > 0 ==> (p > 0 <==> 200 * CompletedIn(lessons, pm) >= |lessons|)
  {
    var k := CompletedIn(lessons, pm);
    PercentBounds(k, |lessons|);
    if |lessons| > 0 then PositiveExactly(k, |lessons|); RoundedPercent(k, |lessons|)
    else RoundedPercent(k, |lessons|)
  }

  /** `progressByCourse`: `{}` until both maps are loaded, then one percentage per course
      of the lesson lists, written key by key. */
  method ProgressByCourse(counts: Option<map<string, seq<string>>>, pm: Option<map<string, bool>>)
    returns (r: map<string, nat>)
    ensures counts.None? || pm.None? ==> r == map[]
    ensures counts.Some? && pm.Some? ==>
      r.Keys == counts.value.Keys &&
      forall c :: c in r ==> r[c] == CoursePercent(counts.value[c], pm.value)
  {
    r := map[];
    if counts.None? || pm.None? {
      return;
    }
    var todo := counts.value.Keys;
    while todo != {}
      invariant todo <= counts.value.Keys
      invariant r.Keys == counts.value.Keys - todo
      invariant forall c :: c in r ==> r[c] == CoursePercent(counts.value[c], pm.value)
      decreases |todo|
    {
      var c :| c in todo;
      r := r[c := CoursePercent(counts.value[c], pm.value)];
      todo := todo - {c};
    }
  }

  /** `progressByCourse[course.id] ?? 0`: the percentage on a course card. */
  function CardPercent(byCourse: map<string, nat>, courseId: string): (p: nat)
    ensures courseId !in byCourse ==> p == 0
    ensures courseId in byCourse ==> p == byCourse[courseId]
  {
    if courseId in byCourse then byCourse[courseId] else 0
  }

  /** The card of a course shows the percentage of its lesson list (0 for a course
      without a list), and shows a progress bar exactly when some listed lessons are
      completed and they make at least half a percent of the course. */
  lemma BarShownExactly(counts: map<string, seq<string>>, pm: map<string, bool>, byCourse: map<string, nat>, c: string)
    requires byCourse.Keys == counts.Keys
    requires forall d :: d in byCourse ==> byCourse[d] == CoursePercent(counts[d], pm)
    ensures CardPercent(byCourse, c) == if c in counts then CoursePercent(counts[c], pm) else 0
    ensures CardPercent(byCourse, c) > 0 <==>
      c in counts && |counts[c]| > 0 && 200 * CompletedIn(counts[c], pm) >= |counts[c]|
    ensures CardPercent(byCourse, c) <= 100
  {
  }
}
