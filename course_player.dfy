/** The course player: the lesson order, the active and next lesson, the progress map,
    the overall percentage, and when watching progress is saved. The queries and the
    upserts go to the backend; their results are inputs and their requests are records. */
module CoursePlayer {
  import opened Basics
  import opened Progress

  datatype Lesson = Lesson(id: string, title: string, videoUrlHls: string)
  datatype Module = Module(id: string, lessons: seq<Lesson>)

  /** A `user_progress` row as the player reads it. */
  datatype ProgressRow = ProgressRow(lessonId: string, isCompleted: bool, lastWatchedPosition: int)

  /** The record `saveProgress` upserts for the signed-in user (keyed by user and lesson). */
  datatype Upsert = Upsert(lessonId: string, lastWatchedPosition: int, isCompleted: bool)

  // ---------------------------------------------------------------- lesson order

  function Flatten(ms: seq<Module>): (r: seq<Lesson>)
    ensures forall l :: l in r <==> exists i :: 0 <= i < |ms| && l in ms[i].lessons
  {
    if ms == [] then []
    else
      var rest := Flatten(ms[1..]);
      assert forall i :: 1 <= i < |ms| ==> ms[i] == ms[1..][i - 1];
      ms[0].lessons + rest
  }

  /** `modules?.flatMap((m) => m.lessons) ?? []`. */
  function AllLessons(modules: Option<seq<Module>>): (r: seq<Lesson>)
    ensures modules.None? ==> r == []
    ensures forall l :: l in r <==> modules.Some? && exists i :: 0 <= i < |modules.value| && l in modules.value[i].lessons
  {
    if modules.None? then [] else Flatten(modules.value)
  }

  /** The modules before module `i` contribute this many lessons. */
  function Offset(ms: seq<Module>, i: nat): nat
    requires i <= |ms|
  {
    if i == 0 then 0 else Offset(ms, i - 1) + |ms[i - 1].lessons|
  }

  lemma {:induction false} OffsetAll(ms: seq<Module>)
    ensures Offset(ms, |ms|) == |Flatten(ms)|
  {
    if ms != [] {
      OffsetAll(ms[1..]);
      OffsetShift(ms, |ms|);
    }
  }

  lemma {:induction false} OffsetShift(ms: seq<Module>, i: nat)
    requires 1 <= i <= |ms|
    ensures Offset(ms, i) == |ms[0].lessons| + Offset(ms[1..], i - 1)
  {
    if i > 1 {
      OffsetShift(ms, i - 1);
    }
  }

  /** Lesson `j` of module `i` sits at position `Offset(ms, i) + j` of the lesson order:
      the order is the modules' lessons one module after another. */
  lemma {:induction false} FlattenPosition(ms: seq<Module>, i: nat, j: nat)
    requires i < |ms| && j < |ms[i].lessons|
    ensures Offset(ms, i) + j < |Flatten(ms)|
    ensures Flatten(ms)[Offset(ms, i) + j] == ms[i].lessons[j]
  {
    OffsetAll(ms);
    OffsetMono(ms, i + 1, |ms|);
    if i > 0 {
      FlattenPosition(ms[1..], i - 1, j);
      OffsetShift(ms, i);
      assert ms[1..][i - 1] == ms[i];
    }
  }

  lemma {:induction false} OffsetMono(ms: seq<Module>, i: nat, k: nat)
    requires i <= k <= |ms|
    ensures Offset(ms, i) <= Offset(ms, k)
    decreases k - i
  {
    if i < k {
      OffsetMono(ms, i, k - 1);
    }
  }

  // ---------------------------------------------------------------- active and next lesson

  /** A lesson id as JavaScript tests it: `null` and `""` are falsy. */
  predicate Truthy(id: Option<string>) { id.Some? && id.value != "" }

  /** `allLessons.findIndex((l) => l.id === activeLessonId)`, -1 when absent. */
  function FindIndex(ls: seq<Lesson>, id: Option<string>): (r: int)
    ensures -1 <= r < |ls|
    ensures r >= 0 ==> Some(ls[r].id) == id && forall j :: 0 <= j < r ==> Some(ls[j].id) != id
    ensures r == -1 <==> forall j :: 0 <= j < |ls| ==> Some(ls[j].id) != id
  {
    if ls == [] then -1
    else if Some(ls[0].id) == id then 0
    else
      var k := FindIndex(ls[1..], id);
      assert forall j :: 1 <= j < |ls| ==> ls[j] == ls[1..][j - 1];
      if k == -1 then -1 else k + 1
  }

  /** `activeLesson`: the first lesson with the active id. */
  function ActiveLesson(ls: seq<Lesson>, id: Option<string>): (r: Option<Lesson>)
    ensures r.Some? ==> r.value in ls && Some(r.value.id) == id
    ensures r.None? <==> forall l :: l in ls ==> Some(l.id) != id
    ensures forall k :: 0 <= k < |ls| && Some(ls[k].id) == id && (forall j :: 0 <= j < k ==> Some(ls[j].id) != id) ==>
      r == Some(ls[k])
  {
    var k := FindIndex(ls, id);
    if k >= 0 then Some(ls[k]) else None
  }

  /** `allLessons[currentIndex + 1]`; `None` means the course is complete. After the
      first lesson with the active id comes the lesson behind it, and after the last
      lesson none; an active id that no lesson has finds -1, so "next" is the first
      lesson. */
  function NextLesson(ls: seq<Lesson>, id: Option<string>): (r: Option<Lesson>)
    ensures forall k :: 0 <= k < |ls| && Some(ls[k].id) == id && (forall j :: 0 <= j < k ==> Some(ls[j].id) != id) ==>
      r == if k + 1 < |ls| then Some(ls[k + 1]) else None
    ensures (forall l :: l in ls ==> Some(l.id) != id) ==> r == if ls == [] then None else Some(ls[0])
    ensures r.Some? ==> r.value in ls
  {
    var k := FindIndex(ls, id);
    if k + 1 < |ls| then Some(ls[k + 1]) else None
  }

  /** The initial lesson effect: once modules are loaded and no lesson is active, the
      first lesson of the first module becomes active, if that module has one. An active
      lesson is never replaced, and a replacement is always the first lesson of the
      lesson order. */
  function InitialActive(modules: Option<seq<Module>>, active: Option<string>): (r: Option<string>)
    ensures Truthy(active) || modules.None? ==> r == active
    ensures r != active ==> AllLessons(modules) != [] && r == Some(AllLessons(modules)[0].id)
    ensures modules.Some? && !Truthy(active) && |modules.value| > 0 && |modules.value[0].lessons| > 0 ==>
      r == Some(AllLessons(modules)[0].id)
  {
    if modules.Some? && !Truthy(active) && |modules.value| > 0 && |modules.value[0].lessons| > 0
    then Some(modules.value[0].lessons[0].id)
    else active
  }

  /** Only the first module is looked at: with an empty first module no lesson becomes
      active even when later modules have lessons. */
  lemma EmptyFirstModuleSelectsNothing(l: Lesson)
    ensures var ms := [Module("m1", []), Module("m2", [l])];
      InitialActive(Some(ms), None) == None && AllLessons(Some(ms)) == [l]
  {
    var ms := [Module("m1", []), Module("m2", [l])];
    assert ms[1..] == [Module("m2", [l])];
    assert ms[1..][1..] == [];
    assert Flatten(ms[1..]) == [l] + Flatten([]);
  }

  // ---------------------------------------------------------------- progress map

  /** `modules?.flatMap((m) => m.lessons.map((l) => l.id)) ?? []`. */
  function LessonIds(modules: Option<seq<Module>>): (r: seq<string>)
    ensures |r| == |AllLessons(modules)|
    ensures forall i :: 0 <= i < |r| ==> r[i] == AllLessons(modules)[i].id
    ensures forall id :: id in r <==>
      modules.Some? && exists i, l :: 0 <= i < |modules.value| && l in modules.value[i].lessons && l.id == id
  {
    var ls := AllLessons(modules);
    var r := seq(|ls|, i requires 0 <= i < |ls| => ls[i].id);
    IdsOfLessons(ls, r);
    r
  }

  lemma IdsOfLessons(ls: seq<Lesson>, r: seq<string>)
    requires |r| == |ls| && forall i :: 0 <= i < |r| ==> r[i] == ls[i].id
    ensures forall id :: id in r <==> exists l :: l in ls && l.id == id
  {
    forall id | id in r ensures exists l :: l in ls && l.id == id {
      var i :| 0 <= i < |r| && r[i] == id;
      assert ls[i] in ls;
    }
    forall id | exists l :: l in ls && l.id == id ensures id in r {
      var l :| l in ls && l.id == id;
      var i :| 0 <= i < |ls| && ls[i] == l;
      assert r[i] == id;
    }
  }

  /** Row `i` is the last one for its lesson. */
  predicate LastFor(rows: seq<ProgressRow>, i: int)
    requires 0 <= i < |rows|
  {
    forall j :: i < j < |rows| ==> rows[j].lessonId != rows[i].lessonId
  }

  /** The progress query: no request and `{}` when there are no lesson ids; otherwise the
      returned rows (`null` data gives none) written one by one into `map[lesson_id]`, a
      later row for the same lesson overwriting an earlier one. */
  method BuildProgressMap(lessonIds: seq<string>, data: Option<seq<ProgressRow>>)
    returns (m: map<string, ProgressRow>)
    ensures lessonIds == [] || data.None? ==> m == map[]
    ensures lessonIds != [] && data.Some? ==>
      (forall id :: id in m <==> exists i :: 0 <= i < |data.value| && data.value[i].lessonId == id) &&
      (forall i :: 0 <= i < |data.value| && LastFor(data.value, i) ==> m[data.value[i].lessonId] == data.value[i])
  {
    m := map[];
    if lessonIds == [] || data.None? {
      return;
    }
    var rows := data.value;
    var k := 0;
    while k < |rows|
      invariant 0 <= k <= |rows|
      invariant forall id :: id in m <==> exists i :: 0 <= i < k && rows[i].lessonId == id
      invariant forall i :: 0 <= i < k && (forall j :: i < j < k ==> rows[j].lessonId != rows[i].lessonId) ==>
        m[rows[i].lessonId] == rows[i]
    {
      m := m[rows[k].lessonId := rows[k]];
      k := k + 1;
    }
  }

  /** Every value stored under a key is a row for that lesson. */
  predicate KeyedByLesson(m: map<string, ProgressRow>) {
    forall id :: id in m ==> m[id].lessonId == id
  }

  /** `Object.values(progress ?? {}).filter((p) => p.is_completed).length`. */
  function CompletedCount(m: map<string, ProgressRow>): nat {
    |set id | id in m && m[id].isCompleted|
  }

  /** `overallProgress` for the lesson order `ls`. */
  function OverallProgress(m: map<string, ProgressRow>, ls: seq<Lesson>): (r: nat)
    ensures |ls| == 0 ==> r == 0
    ensures |ls| > 0 ==> 2 * |ls| * r <= 200 * CompletedCount(m) + |ls| < 2 * |ls| * (r + 1)
  {
    RoundedPercent(CompletedCount(m), |ls|)
  }

  lemma {:induction false} SetOfSeqSize(s: seq<string>)
    ensures |set i | 0 <= i < |s| :: s[i]| <= |s|
  {
    if s != [] {
      var t := s[..|s| - 1];
      SetOfSeqSize(t);
      var a := set i | 0 <= i < |t| :: t[i];
      var b := set i | 0 <= i < |s| :: s[i];
      assert b == a + {s[|s| - 1]} by {
        forall x | x in b ensures x in a + {s[|s| - 1]} {
          var i :| 0 <= i < |s| && s[i] == x;
          if i < |s| - 1 { assert t[i] == x; }
        }
        forall x | x in a ensures x in b {
          var i :| 0 <= i < |t| && t[i] == x;
          assert s[i] == x;
        }
      }
    }
  }

  /** When the map only holds lessons of the course, the percentage is at most 100. */
  lemma OverallAtMostHundred(m: map<string, ProgressRow>, ls: seq<Lesson>)
    requires forall id :: id in m ==> exists l :: l in ls && l.id == id
    ensures OverallProgress(m, ls) <= 100
  {
    var ids := seq(|ls|, i requires 0 <= i < |ls| => ls[i].id);
    var done := set id | id in m && m[id].isCompleted;
    var all := set i | 0 <= i < |ids| :: ids[i];
    assert done <= all by {
      forall id | id in done ensures id in all {
        var l :| l in ls && l.id == id;
        var i :| 0 <= i < |ls| && ls[i] == l;
        assert ids[i] == id;
      }
    }
    SetOfSeqSize(ids);
    SubsetSize(done, all);
    PercentBounds(CompletedCount(m), |ls|);
  }

  lemma SubsetSize(a: set<string>, b: set<string>)
    requires a <= b
    ensures |a| <= |b|
  {
    assert b == a + (b - a);
  }

  // ---------------------------------------------------------------- saving progress

  /** `handleTimeUpdate(time)`: with an active lesson and a user, a save whenever the
      floored time is a multiple of 10. The remainder of JavaScript's `%` truncates, but
      it is zero exactly when Dafny's is, so `% 10 == 0` reads the same. */
  function TimeUpdateSave(active: Option<string>, signedIn: bool, time: real): (r: Option<Upsert>)
    ensures r.Some? <==> Truthy(active) && signedIn && time.Floor % 10 == 0
    ensures r.Some? ==>
      && r.value.lessonId == active.value && !r.value.isCompleted
      && r.value.lastWatchedPosition == time.Floor
      && r.value.lastWatchedPosition as real <= time < r.value.lastWatchedPosition as real + 1.0
  {
    if !Truthy(active) || !signedIn then None
    else if time.Floor % 10 == 0 then Some(Upsert(active.value, time.Floor, false))
    else None
  }

  /** `handleVideoEnded`: the completion save, with position 0. */
  function EndedSave(active: Option<string>, signedIn: bool): (r: Option<Upsert>)
    ensures r.Some? <==> Truthy(active) && signedIn
    ensures r.Some? ==> r.value == Upsert(active.value, 0, true)
  {
    if !Truthy(active) || !signedIn then None else Some(Upsert(active.value, 0, true))
  }

  /** A periodic save never marks a lesson completed, a completion save always does, and
      a periodic save stores a multiple of 10 seconds. */
  lemma SaveKinds(active: Option<string>, signedIn: bool, time: real)
    ensures TimeUpdateSave(active, signedIn, time).Some? ==>
      !TimeUpdateSave(active, signedIn, time).value.isCompleted &&
      TimeUpdateSave(active, signedIn, time).value.lastWatchedPosition % 10 == 0
    ensures EndedSave(active, signedIn).Some? ==> EndedSave(active, signedIn).value.isCompleted
    ensures !signedIn ==> TimeUpdateSave(active, signedIn, time).None? && EndedSave(active, signedIn).None?
  {
  }

  /** `progress?.[activeLessonId]?.last_watched_position ?? 0`, the time the player
      resumes from. */
  function InitialTime(m: map<string, ProgressRow>, active: Option<string>): (t: int)
    ensures active.Some? && active.value in m ==> t == m[active.value].lastWatchedPosition
    ensures !(active.Some? && active.value in m) ==> t == 0
  {
    if active.Some? && active.value in m then m[active.value].lastWatchedPosition else 0
  }

  /** The row an upsert leaves in `user_progress` for the user. */
  function RowOf(u: Upsert): ProgressRow {
    ProgressRow(u.lessonId, u.isCompleted, u.lastWatchedPosition)
  }

  /** Once the progress map holds the row of a periodic save made at `time`, the lesson
      resumes from the floored time: at most `time`, less than a second before it, and a
      multiple of 10. */
  lemma ResumeAfterPeriodicSave(m: map<string, ProgressRow>, id: string, time: real)
    requires TimeUpdateSave(Some(id), true, time).Some?
    requires id in m && m[id] == RowOf(TimeUpdateSave(Some(id), true, time).value)
    ensures InitialTime(m, Some(id)) == time.Floor
    ensures InitialTime(m, Some(id)) as real <= time < InitialTime(m, Some(id)) as real + 1.0
    ensures InitialTime(m, Some(id)) % 10 == 0
  {
  }

  /** A lesson whose stored row is the completion save resumes from the start, and a
      lesson with no stored row starts from the start too. */
  lemma CompletedLessonStartsOver(m: map<string, ProgressRow>, id: string, signedIn: bool)
    requires id != "" && signedIn
    requires id in m ==> m[id] == RowOf(EndedSave(Some(id), signedIn).value)
    ensures InitialTime(m, Some(id)) == 0
  {
  }
}
