/** Authoring rules of the admin courses page: the slug of a new course, the
    `order_index` of a new module or lesson, the display order, and when a submit button
    is enabled. The inserts themselves go to the backend; here they are the records the
    page would send. */
module CoursesPage {
  import opened Basics

  // ---------------------------------------------------------------- slug

  /** JavaScript's `\s`: the characters `/\s+/` matches. */
  predicate IsJsSpace(c: char) {
    c == ' ' || ('\t' <= c <= '\r') || c == '\U{00A0}' || c == '\U{1680}' ||
    ('\U{2000}' <= c <= '\U{200A}') || c == '\U{2028}' || c == '\U{2029}' ||
    c == '\U{202F}' || c == '\U{205F}' || c == '\U{3000}' || c == '\U{FEFF}'
  }

  /** The characters `[a-z0-9-]` that survive the final replace. */
  predicate IsSlugChar(c: char) {
    ('a' <= c <= 'z') || ('0' <= c <= '9') || c == '-'
  }

  /** `toLowerCase` as far as the slug can tell: ASCII capitals become small letters,
      U+0130 (capital I with dot) becomes "i" and a combining dot, the Kelvin sign becomes
      "k". Every other character either is its own lower case here or lowers to a
      character that is neither a slug character nor a space, so it is dropped either way. */
  function LowerChar(c: char): (r: string)
    ensures 'A' <= c <= 'Z' ==> r == [(c as int + 32) as char] && IsSlugChar(r[0])
    ensures IsJsSpace(c) || IsSlugChar(c) ==> r == [c]
    ensures !IsJsSpace(c) ==> forall i :: 0 <= i < |r| ==> !IsJsSpace(r[i])
  {
    if 'A' <= c <= 'Z' then [(c as int + 32) as char]
    else if c == '\U{0130}' then ['i', '\U{0307}']
    else if c == '\U{212A}' then ['k']
    else [c]
  }

  /** `toLowerCase` of a string, one character at a time. */
  function Lower(s: string): (r: string)
    ensures |s| == 1 ==> r == LowerChar(s[0])
  {
    if s == [] then []
    else
      assert |s| == 1 ==> s[1..] == [];
      LowerChar(s[0]) + Lower(s[1..])
  }

  /** Lowering a string lowers its parts: the lower case of `a + b` is that of `a`
      followed by that of `b`. */
  lemma {:induction false} LowerAppend(a: string, b: string)
    ensures Lower(a + b) == Lower(a) + Lower(b)
  {
    if a != [] {
      assert (a + b)[0] == a[0] && (a + b)[1..] == a[1..] + b;
      LowerAppend(a[1..], b);
    } else {
      assert a + b == b;
    }
  }

  /** The leading run of spaces removed. */
  function DropSpaces(s: string): (r: string)
    ensures |r| <= |s| && (r == [] || !IsJsSpace(r[0]))
    ensures s != [] && IsJsSpace(s[0]) ==> |r| < |s|
  {
    if s != [] && IsJsSpace(s[0]) then DropSpaces(s[1..]) else s
  }

  /** `.replace(/\s+/g, "-")`: each maximal run of spaces becomes one `-`. */
  function CollapseSpaces(s: string): (r: string)
    ensures forall i :: 0 <= i < |r| ==> !IsJsSpace(r[i])
    decreases |s|
  {
    if s == [] then []
    else if IsJsSpace(s[0]) then "-" + CollapseSpaces(DropSpaces(s))
    else [s[0]] + CollapseSpaces(s[1..])
  }

  /** `.replace(/[^a-z0-9-]/g, "")`. */
  function KeepSlugChars(s: string): (r: string)
    ensures forall i :: 0 <= i < |r| ==> IsSlugChar(r[i])
    ensures |r| <= |s|
    ensures |s| == 1 ==> r == if IsSlugChar(s[0]) then s else []
  {
    if s == [] then []
    else
      assert |s| == 1 ==> s[1..] == [] && s == [s[0]];
      if IsSlugChar(s[0]) then [s[0]] + KeepSlugChars(s[1..])
    else KeepSlugChars(s[1..])
  }

  /** The filter works character by character and keeps order: what survives of `a + b`
      is what survives of `a` followed by what survives of `b`. */
  lemma {:induction false} KeepSlugCharsAppend(a: string, b: string)
    ensures KeepSlugChars(a + b) == KeepSlugChars(a) + KeepSlugChars(b)
  {
    if a != [] {
      assert (a + b)[1..] == a[1..] + b;
      KeepSlugCharsAppend(a[1..], b);
    } else {
      assert a + b == b;
    }
  }

  /** The slug derived from a title. */
  function DeriveSlug(title: string): string {
    KeepSlugChars(CollapseSpaces(Lower(title)))
  }

  /** A slug typed by the author wins; otherwise it is derived from the title. */
  function ChooseSlug(formSlug: string, title: string): (slug: string)
    ensures formSlug != "" ==> slug == formSlug
    ensures formSlug == "" ==> slug == DeriveSlug(title) && IsSlug(slug) && DeriveSlug(slug) == slug
  {
    if formSlug != "" then formSlug
    else DerivedSlugAlphabet(title); DeriveSlugIdempotent(title); DeriveSlug(title)
  }

  predicate IsSlug(s: string) { forall i :: 0 <= i < |s| ==> IsSlugChar(s[i]) }

  /** A derived slug holds only `[a-z0-9-]`, so in particular no space. */
  lemma DerivedSlugAlphabet(title: string)
    ensures IsSlug(DeriveSlug(title))
    ensures forall i :: 0 <= i < |DeriveSlug(title)| ==> !IsJsSpace(DeriveSlug(title)[i])
  {
  }

  lemma {:induction false} LowerKeepsSlug(s: string)
    requires IsSlug(s)
    ensures Lower(s) == s
  {
    if s != [] {
      LowerKeepsSlug(s[1..]);
    }
  }

  lemma {:induction false} CollapseKeepsSpaceless(s: string)
    requires forall i :: 0 <= i < |s| ==> !IsJsSpace(s[i])
    ensures CollapseSpaces(s) == s
    decreases |s|
  {
    if s != [] {
      CollapseKeepsSpaceless(s[1..]);
    }
  }

  lemma {:induction false} KeepKeepsSlug(s: string)
    requires IsSlug(s)
    ensures KeepSlugChars(s) == s
  {
    if s != [] {
      KeepKeepsSlug(s[1..]);
    }
  }

  /** Deriving a slug from a derived slug changes nothing. */
  lemma DeriveSlugIdempotent(title: string)
    ensures DeriveSlug(DeriveSlug(title)) == DeriveSlug(title)
  {
    var s := DeriveSlug(title);
    LowerKeepsSlug(s);
    CollapseKeepsSpaceless(s);
    KeepKeepsSlug(s);
  }

  lemma {:induction false} DropSpacesAppend(a: string, b: string)
    requires a != [] && !IsJsSpace(a[|a| - 1])
    ensures DropSpaces(a + b) == DropSpaces(a) + b
    decreases |a|
  {
    if IsJsSpace(a[0]) {
      assert (a + b)[1..] == a[1..] + b;
      DropSpacesAppend(a[1..], b);
    }
  }

  /** A run of spaces between two parts turns into exactly one `-` between what the
      parts turn into (the run is maximal: `a` does not end and `b` does not start with
      a space). */
  lemma {:induction false} CollapseRun(a: string, run: string, b: string)
    requires a == [] || !IsJsSpace(a[|a| - 1])
    requires run != [] && forall i :: 0 <= i < |run| ==> IsJsSpace(run[i])
    requires b == [] || !IsJsSpace(b[0])
    ensures CollapseSpaces(a + run + b) == CollapseSpaces(a) + "-" + CollapseSpaces(b)
    decreases |a|, 1
  {
    if a == [] {
      CollapseRunFirst(run, b);
      assert a + run + b == run + b;
    } else if IsJsSpace(a[0]) {
      CollapseRunSpace(a, run, b);
    } else {
      CollapseRunChar(a, run, b);
    }
  }

  /** The case of `CollapseRun` where `a` starts with spaces. */
  lemma {:induction false} CollapseRunSpace(a: string, run: string, b: string)
    requires a != [] && IsJsSpace(a[0]) && !IsJsSpace(a[|a| - 1])
    requires run != [] && forall i :: 0 <= i < |run| ==> IsJsSpace(run[i])
    requires b == [] || !IsJsSpace(b[0])
    ensures CollapseSpaces(a + run + b) == CollapseSpaces(a) + "-" + CollapseSpaces(b)
    decreases |a|, 0
  {
    DropSpacesSuffix(a);
    CollapseRun(DropSpaces(a), run, b);
    CollapseRunAfterSpace(a, run, b);
  }

  /** The case of `CollapseRun` where `a` starts with another character. */
  lemma {:induction false} CollapseRunChar(a: string, run: string, b: string)
    requires a != [] && !IsJsSpace(a[0]) && !IsJsSpace(a[|a| - 1])
    requires run != [] && forall i :: 0 <= i < |run| ==> IsJsSpace(run[i])
    requires b == [] || !IsJsSpace(b[0])
    ensures CollapseSpaces(a + run + b) == CollapseSpaces(a) + "-" + CollapseSpaces(b)
    decreases |a|, 0
  {
    CollapseRun(a[1..], run, b);
    CollapseRunAfterChar(a, run, b);
  }

  lemma CollapseRunFirst(run: string, b: string)
    requires run != [] && forall i :: 0 <= i < |run| ==> IsJsSpace(run[i])
    requires b == [] || !IsJsSpace(b[0])
    ensures CollapseSpaces(run + b) == "-" + CollapseSpaces(b)
  {
    assert (run + b)[0] == run[0];
    RunDrops(run, b);
  }

  lemma CollapseRunAfterSpace(a: string, run: string, b: string)
    requires a != [] && IsJsSpace(a[0]) && !IsJsSpace(a[|a| - 1])
    ensures CollapseSpaces(a + run + b) == "-" + CollapseSpaces(DropSpaces(a) + run + b)
    ensures CollapseSpaces(a) == "-" + CollapseSpaces(DropSpaces(a))
  {
    DropSpacesAppend(a, run + b);
    assert a + run + b == a + (run + b);
    assert DropSpaces(a) + (run + b) == DropSpaces(a) + run + b;
    assert (a + run + b)[0] == a[0];
  }

  lemma CollapseRunAfterChar(a: string, run: string, b: string)
    requires a != [] && !IsJsSpace(a[0])
    ensures CollapseSpaces(a + run + b) == [a[0]] + CollapseSpaces(a[1..] + run + b)
  {
    assert (a + run + b)[0] == a[0];
    assert (a + run + b)[1..] == a[1..] + run + b;
  }

  lemma {:induction false} RunDrops(run: string, b: string)
    requires forall i :: 0 <= i < |run| ==> IsJsSpace(run[i])
    requires b == [] || !IsJsSpace(b[0])
    ensures DropSpaces(run + b) == b
    decreases |run|
  {
    if run != [] {
      assert (run + b)[1..] == run[1..] + b;
      RunDrops(run[1..], b);
    } else {
      assert run + b == b;
    }
  }

  lemma {:induction false} DropSpacesSuffix(a: string)
    requires a != [] && !IsJsSpace(a[|a| - 1])
    ensures DropSpaces(a) != [] && |DropSpaces(a)| <= |a|
    ensures DropSpaces(a) == a[|a| - |DropSpaces(a)|..]
    ensures !IsJsSpace(DropSpaces(a)[|DropSpaces(a)| - 1])
    decreases |a|
  {
    if IsJsSpace(a[0]) {
      DropSpacesSuffix(a[1..]);
      assert a[1..][|a| - 1 - |DropSpaces(a)|..] == a[|a| - |DropSpaces(a)|..];
    }
  }

  /** A title of only punctuation derives the empty slug, although the create button
      accepts it (its title is not empty). */
  lemma PunctuationTitleGivesEmptySlug()
    ensures DeriveSlug("!?") == ""
    ensures SubmitEnabled(false, "!?")
  {
    assert Lower("!?") == "!?" by {
      assert Lower("?") == "?";
    }
    assert CollapseSpaces("?") == "?";
    assert CollapseSpaces("!?") == "!?";
  }

  /** A worked title. */
  lemma SlugExample()
    ensures DeriveSlug("A  b") == "a-b"
  {
    assert Lower("b") == "b";
    assert Lower(" b") == " b";
    assert Lower("  b") == "  b";
    assert Lower("A  b") == "a  b";
    assert "a  b" == "a" + "  " + "b";
    CollapseRun("a", "  ", "b");
    assert CollapseSpaces("a") == "a";
    assert CollapseSpaces("b") == "b";
    KeepKeepsSlug("a-b");
  }

  // ---------------------------------------------------------------- records

  datatype Lesson = Lesson(id: string, title: string, orderIndex: int)
  datatype Module = Module(id: string, title: string, orderIndex: int, lessons: seq<Lesson>)
  datatype Course = Course(id: string, title: string, slug: string, modules: seq<Module>)

  datatype CourseForm = CourseForm(title: string, description: string, thumbnailUrl: string, slug: string)
  datatype LessonForm = LessonForm(title: string, description: string, videoUrlHls: string, resourcesUrl: string)

  datatype CourseInsert = CourseInsert(title: string, description: string, thumbnailUrl: string, slug: string)
  datatype ModuleInsert = ModuleInsert(courseId: string, title: string, orderIndex: int)
  datatype LessonInsert = LessonInsert(
    moduleId: string, title: string, description: string, videoUrlHls: string,
    resourcesUrl: Option<string>, orderIndex: int)

  /** A submit button is enabled when its mutation is idle and the title is not empty
      (create course, add module and add lesson alike). */
  predicate SubmitEnabled(pending: bool, title: string) {
    !pending && title != ""
  }

  /** The row `createCourse` inserts: the form as typed, with the chosen slug. */
  function CourseInsertOf(f: CourseForm): (r: CourseInsert)
    ensures r.title == f.title && r.description == f.description && r.thumbnailUrl == f.thumbnailUrl
    ensures f.slug != "" ==> r.slug == f.slug
    ensures f.slug == "" ==> IsSlug(r.slug)
  {
    CourseInsert(f.title, f.description, f.thumbnailUrl, ChooseSlug(f.slug, f.title))
  }

  /** `courses?.find(c => c.id === courseId)`: the first loaded course with that id. */
  function FindCourse(courses: seq<Course>, id: string): (r: Option<Course>)
    ensures r.Some? ==> r.value in courses && r.value.id == id
    ensures r.None? <==> forall i :: 0 <= i < |courses| ==> courses[i].id != id
    ensures forall k :: 0 <= k < |courses| && courses[k].id == id && (forall i :: 0 <= i < k ==> courses[i].id != id) ==>
      r == Some(courses[k])
  {
    if courses == [] then None
    else if courses[0].id == id then Some(courses[0])
    else
      assert forall i :: 1 <= i < |courses| ==> courses[i] == courses[1..][i - 1];
      FindCourse(courses[1..], id)
  }

  /** `courses.flatMap(c => c.modules)`: every module, course by course. */
  function AllModules(courses: seq<Course>): seq<Module> {
    if courses == [] then [] else courses[0].modules + AllModules(courses[1..])
  }

  /** `courses?.flatMap(c => c.modules).find(m => m.id === moduleId)`: the first module
      with that id in course order. */
  function FindModule(courses: seq<Course>, id: string): (r: Option<Module>)
    ensures r == FirstModule(AllModules(courses), id)
    ensures r.Some? ==> r.value.id == id && exists c :: c in courses && r.value in c.modules
    ensures r.None? ==> forall c, m :: c in courses && m in c.modules ==> m.id != id
  {
    if courses == [] then None
    else
      FirstModuleAppend(courses[0].modules, AllModules(courses[1..]), id);
      match FirstModule(courses[0].modules, id)
      case Some(m) => Some(m)
      case None => FindModule(courses[1..], id)
  }

  /** `ms.findIndex(m => m.id === id)`: the first position holding that id, -1 when none. */
  function ModuleIndex(ms: seq<Module>, id: string): (k: int)
    ensures -1 <= k < |ms|
    ensures k >= 0 ==> ms[k].id == id && forall i :: 0 <= i < k ==> ms[i].id != id
    ensures k == -1 <==> forall i :: 0 <= i < |ms| ==> ms[i].id != id
  {
    if ms == [] then -1
    else if ms[0].id == id then 0
    else
      var k := ModuleIndex(ms[1..], id);
      assert forall i :: 1 <= i < |ms| ==> ms[i] == ms[1..][i - 1];
      if k == -1 then -1 else k + 1
  }

  /** `ms.find(m => m.id === id)`: the first module with that id. */
  function FirstModule(ms: seq<Module>, id: string): (r: Option<Module>)
    ensures r.Some? ==> r.value in ms && r.value.id == id
    ensures r.None? ==> forall m :: m in ms ==> m.id != id
    ensures forall k :: 0 <= k < |ms| && ms[k].id == id && (forall i :: 0 <= i < k ==> ms[i].id != id) ==>
      r == Some(ms[k])
  {
    var k := ModuleIndex(ms, id);
    if k >= 0 then Some(ms[k]) else None
  }

  /** Searching a concatenation searches the first part, then the second. */
  lemma {:induction false} FirstModuleAppend(a: seq<Module>, b: seq<Module>, id: string)
    ensures FirstModule(a + b, id) == if FirstModule(a, id).Some? then FirstModule(a, id) else FirstModule(b, id)
  {
    if a != [] {
      assert (a + b)[1..] == a[1..] + b;
      FirstModuleAppend(a[1..], b, id);
    } else {
      assert a + b == b;
    }
  }

  /** The module `addModule` inserts: at the end of its course, i.e. with the number of
      modules the course has, or 0 when the course list is not loaded or lacks it. */
  function AddModule(courses: Option<seq<Course>>, courseId: string, title: string): (r: ModuleInsert)
    ensures r.courseId == courseId && r.title == title
    ensures r.orderIndex == if courses.Some? && FindCourse(courses.value, courseId).Some?
                            then |FindCourse(courses.value, courseId).value.modules| else 0
  {
    var n := if courses.None? then 0 else match FindCourse(courses.value, courseId)
      case Some(c) => |c.modules|
      case None => 0;
    ModuleInsert(courseId, title, n)
  }

  /** The lesson `addLesson` inserts: at the end of its module (0 when not found), and an
      empty resources URL stored as null. */
  function AddLesson(courses: Option<seq<Course>>, moduleId: string, f: LessonForm): (r: LessonInsert)
    ensures r.moduleId == moduleId && r.title == f.title && r.description == f.description
    ensures r.videoUrlHls == f.videoUrlHls
    ensures r.resourcesUrl == if f.resourcesUrl == "" then None else Some(f.resourcesUrl)
    ensures r.orderIndex == if courses.Some? && FindModule(courses.value, moduleId).Some?
                            then |FindModule(courses.value, moduleId).value.lessons| else 0
  {
    var n := if courses.None? then 0 else match FindModule(courses.value, moduleId)
      case Some(m) => |m.lessons|
      case None => 0;
    LessonInsert(moduleId, f.title, f.description, f.videoUrlHls,
                 if f.resourcesUrl == "" then None else Some(f.resourcesUrl), n)
  }

  /** Indices 0 .. n-1, each once: what a course's modules carry when every one was
      appended by `addModule` (and none removed). */
  predicate DenseIndices(ms: seq<Module>) {
    && (forall i :: 0 <= i < |ms| ==> 0 <= ms[i].orderIndex < |ms|)
    && (forall i, j :: 0 <= i < j < |ms| ==> ms[i].orderIndex != ms[j].orderIndex)
  }

  /** Appending with the index `addModule` computes keeps the indices dense, and the new
      module sorts after every existing one. */
  lemma AppendKeepsDense(courses: seq<Course>, courseId: string, title: string, newId: string)
    requires FindCourse(courses, courseId).Some?
    requires DenseIndices(FindCourse(courses, courseId).value.modules)
    ensures var ms := FindCourse(courses, courseId).value.modules;
      var ins := AddModule(Some(courses), courseId, title);
      var m := Module(newId, title, ins.orderIndex, []);
      DenseIndices(ms + [m]) && forall i :: 0 <= i < |ms| ==> ms[i].orderIndex < m.orderIndex
  {
  }

  // ---------------------------------------------------------------- display order

  predicate SortedBy<T>(s: seq<T>, key: T -> int) {
    forall i, j :: 0 <= i < j < |s| ==> key(s[i]) <= key(s[j])
  }

  /** Insert `x` before the first element whose key is not smaller. */
  function Insert<T>(x: T, s: seq<T>, key: T -> int): (r: seq<T>)
    ensures multiset(r) == multiset(s) + multiset{x}
    ensures |r| == |s| + 1
  {
    if s == [] || key(x) <= key(s[0]) then [x] + s
    else
      var t := Insert(x, s[1..], key);
      assert s == [s[0]] + s[1..];
      [s[0]] + t
  }

  /** Inserting into a sorted sequence keeps it sorted. */
  lemma {:induction false} InsertSorted<T>(x: T, s: seq<T>, key: T -> int)
    requires SortedBy(s, key)
    ensures SortedBy(Insert(x, s, key), key)
  {
    if s != [] && key(x) > key(s[0]) {
      var t := Insert(x, s[1..], key);
      assert SortedBy(s[1..], key);
      InsertSorted(x, s[1..], key);
      forall i | 0 <= i < |t| ensures key(s[0]) <= key(t[i]) {
        assert t[i] in multiset(s[1..]) + multiset{x} by { assert t[i] in multiset(t); }
        if t[i] != x {
          assert t[i] in s[1..];
        }
      }
      assert Insert(x, s, key) == [s[0]] + t;
    }
  }

  /** `.sort((a, b) => a.order_index - b.order_index)`: a stable sort by the key. */
  function SortBy<T>(s: seq<T>, key: T -> int): (r: seq<T>)
    ensures multiset(r) == multiset(s) && SortedBy(r, key)
  {
    if s == [] then [] else
      assert s == [s[0]] + s[1..];
      InsertSorted(s[0], SortBy(s[1..], key), key);
      Insert(s[0], SortBy(s[1..], key), key)
  }

  /** The elements of `s` with key `k`, in order. */
  function WithKey<T>(s: seq<T>, key: T -> int, k: int): seq<T> {
    if s == [] then [] else (if key(s[0]) == k then [s[0]] else []) + WithKey(s[1..], key, k)
  }

  /** `WithKey` on a sequence with a first element. */
  lemma WithKeyCons<T>(y: T, t: seq<T>, key: T -> int, k: int)
    ensures WithKey([y] + t, key, k) == (if key(y) == k then [y] else []) + WithKey(t, key, k)
  {
    var r := [y] + t;
    assert r[0] == y && r[1..] == t;
  }

  /** `Insert` past a first element with a smaller key. */
  lemma InsertPast<T>(x: T, s: seq<T>, key: T -> int)
    requires s != [] && key(x) > key(s[0])
    ensures Insert(x, s, key) == [s[0]] + Insert(x, s[1..], key)
  {
  }

  /** Two pieces of which one is empty can be swapped. */
  lemma SwapEmpty<T>(a: seq<T>, b: seq<T>, w: seq<T>)
    requires a == [] || b == []
    ensures a + (b + w) == b + (a + w)
  {
    if a == [] {
      assert a + (b + w) == b + w == b + (a + w);
    } else {
      assert a + (b + w) == a + w == b + (a + w);
    }
  }

  lemma {:induction false} WithKeyInsert<T>(x: T, s: seq<T>, key: T -> int, k: int)
    ensures WithKey(Insert(x, s, key), key, k) == (if key(x) == k then [x] else []) + WithKey(s, key, k)
  {
    if s == [] || key(x) <= key(s[0]) {
      assert Insert(x, s, key) == [x] + s;
      WithKeyCons(x, s, key, k);
    } else {
      var t := Insert(x, s[1..], key);
      var hx: seq<T> := if key(x) == k then [x] else [];
      var h0: seq<T> := if key(s[0]) == k then [s[0]] else [];
      InsertPast(x, s, key);
      WithKeyCons(s[0], t, key, k);
      WithKeyInsert(x, s[1..], key, k);
      SwapEmpty(h0, hx, WithKey(s[1..], key, k));
    }
  }

  /** The sort is stable: elements with equal `order_index` keep their relative order. */
  lemma {:induction false} SortByStable<T>(s: seq<T>, key: T -> int, k: int)
    ensures WithKey(SortBy(s, key), key, k) == WithKey(s, key, k)
  {
    if s != [] {
      SortByStable(s[1..], key, k);
      WithKeyInsert(s[0], SortBy(s[1..], key), key, k);
    }
  }

  /** The modules of a course as displayed, and the lessons of a module. */
  function DisplayModules(c: Course): (r: seq<Module>)
    ensures multiset(r) == multiset(c.modules)
    ensures forall i, j :: 0 <= i < j < |r| ==> r[i].orderIndex <= r[j].orderIndex
  {
    SortBy(c.modules, (m: Module) => m.orderIndex)
  }

  function DisplayLessons(m: Module): (r: seq<Lesson>)
    ensures multiset(r) == multiset(m.lessons)
    ensures forall i, j :: 0 <= i < j < |r| ==> r[i].orderIndex <= r[j].orderIndex
  {
    SortBy(m.lessons, (l: Lesson) => l.orderIndex)
  }
}
