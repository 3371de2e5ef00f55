/**
 * What the preloading routines put in the client's in-memory sets:
 * `init_user_ids` splits the users into all, active and inactive IDs, and
 * `init_course_ids` keeps the courses open to the teacher group.
 */
module Caches {
  import opened PhpString
  import opened PhpValue

  // ---------------------------------------------------------------------
  // init_user_ids

  /** `(int) $user['id']`. */
  function RowId(row: Value): int
  {
    ToInt(Index(row, "id"))
  }

  /** `$user['active']` read as a condition. */
  predicate RowActive(row: Value)
  {
    Truthy(Index(row, "active"))
  }

  /** The non-zero IDs of the rows, in row order: all of them (`status` is
      `None`), or only the active or only the inactive ones. */
  function IdsWhere(rows: seq<Value>, status: Option<bool>): seq<int>
    decreases |rows|
  {
    if |rows| == 0 then []
    else
      var rest := IdsWhere(rows[..|rows| - 1], status);
      var row := rows[|rows| - 1];
      if RowId(row) != 0 && (status.None? || status.value == RowActive(row)) then rest + [RowId(row)] else rest
  }

  /** Every collected ID is the ID of some row. */
  lemma {:induction false} IdsWhereSound(rows: seq<Value>, status: Option<bool>, id: int)
    requires id in IdsWhere(rows, status)
    ensures exists i :: 0 <= i < |rows| && RowId(rows[i]) == id
    decreases |rows|
  {
    var init := rows[..|rows| - 1];
    if id in IdsWhere(init, status) {
      IdsWhereSound(init, status, id);
      var i :| 0 <= i < |init| && RowId(init[i]) == id;
      assert rows[i] == init[i];
    } else {
      assert RowId(rows[|rows| - 1]) == id;
    }
  }

  /** Active and inactive IDs split the list of all IDs: every ID lands in
      exactly one of the two, none is zero, and none is made up. */
  lemma {:induction false} IdsPartition(rows: seq<Value>)
    ensures multiset(IdsWhere(rows, None)) == multiset(IdsWhere(rows, Some(true))) + multiset(IdsWhere(rows, Some(false)))
    ensures |IdsWhere(rows, None)| == |IdsWhere(rows, Some(true))| + |IdsWhere(rows, Some(false))|
    ensures 0 !in IdsWhere(rows, None)
    ensures forall id :: id in IdsWhere(rows, None) ==> exists i :: 0 <= i < |rows| && RowId(rows[i]) == id
    decreases |rows|
  {
    if |rows| > 0 {
      IdsPartition(rows[..|rows| - 1]);
    }
    forall id | id in IdsWhere(rows, None)
      ensures exists i :: 0 <= i < |rows| && RowId(rows[i]) == id
    {
      IdsWhereSound(rows, None, id);
    }
  }

  // ---------------------------------------------------------------------
  // init_course_ids

  /** The course is open to teachers and its teacher group is (loosely) the client's. */
  predicate OffersTeacherGroup(course: Value, teacher: string)
  {
    Truthy(Index(course, "teachersAllowed")) && LooseEqualsString(Index(course, "teacherGroup"), teacher)
  }

  /** The IDs of a template's courses that are open to the teacher group, in order. */
  function TeacherCourses(courses: seq<Value>, teacher: string): seq<Value>
    decreases |courses|
  {
    if |courses| == 0 then []
    else
      var rest := TeacherCourses(courses[..|courses| - 1], teacher);
      var c := courses[|courses| - 1];
      if OffersTeacherGroup(c, teacher) then rest + [Index(c, "id")] else rest
  }

  /** Every collected ID comes from a qualifying course. */
  lemma {:induction false} TeacherCoursesSound(courses: seq<Value>, teacher: string, v: Value)
    requires v in TeacherCourses(courses, teacher)
    ensures exists k :: 0 <= k < |courses| && OffersTeacherGroup(courses[k], teacher) && Index(courses[k], "id") == v
    decreases |courses|
  {
    var init := courses[..|courses| - 1];
    if v in TeacherCourses(init, teacher) {
      TeacherCoursesSound(init, teacher, v);
      var k :| 0 <= k < |init| && OffersTeacherGroup(init[k], teacher) && Index(init[k], "id") == v;
      assert courses[k] == init[k];
    }
  }

  /** The ID of every qualifying course is collected. */
  lemma {:induction false} TeacherCoursesComplete(courses: seq<Value>, teacher: string, k: nat)
    requires k < |courses| && OffersTeacherGroup(courses[k], teacher)
    ensures Index(courses[k], "id") in TeacherCourses(courses, teacher)
    decreases |courses|
  {
    var init := courses[..|courses| - 1];
    if k < |init| {
      assert init[k] == courses[k];
      TeacherCoursesComplete(init, teacher, k);
    }
  }

  /** An ID is collected exactly when some course with that ID qualifies. */
  lemma TeacherCoursesMembers(courses: seq<Value>, teacher: string)
    ensures forall v :: v in TeacherCourses(courses, teacher) <==>
      exists k :: 0 <= k < |courses| && OffersTeacherGroup(courses[k], teacher) && Index(courses[k], "id") == v
  {
    forall v ensures v in TeacherCourses(courses, teacher) <==>
      exists k :: 0 <= k < |courses| && OffersTeacherGroup(courses[k], teacher) && Index(courses[k], "id") == v
    {
      if v in TeacherCourses(courses, teacher) {
        TeacherCoursesSound(courses, teacher, v);
      }
      if exists k :: 0 <= k < |courses| && OffersTeacherGroup(courses[k], teacher) && Index(courses[k], "id") == v {
        var k :| 0 <= k < |courses| && OffersTeacherGroup(courses[k], teacher) && Index(courses[k], "id") == v;
        TeacherCoursesComplete(courses, teacher, k);
      }
    }
  }

  /** The courses one template contributes: those of its courses open to
      the teacher group (none when its ID is not a string). */
  function TemplateCourses(template: Value, coursesOf: string -> seq<Value>, teacher: string): seq<Value>
  {
    var id := Index(template, "id");
    if id.Str? then TeacherCourses(coursesOf(id.s), teacher) else []
  }

  /** The course IDs of a run of templates, template by template. */
  function CourseIdsOf(templates: seq<Value>, coursesOf: string -> seq<Value>, teacher: string): seq<Value>
    decreases |templates|
  {
    if |templates| == 0 then []
    else
      CourseIdsOf(templates[..|templates| - 1], coursesOf, teacher)
        + TemplateCourses(templates[|templates| - 1], coursesOf, teacher)
  }

  /** One more template with a string ID adds its teacher courses. */
  lemma CourseIdsOfSnoc(templates: seq<Value>, i: nat, coursesOf: string -> seq<Value>, teacher: string)
    requires i < |templates| && Index(templates[i], "id").Str?
    ensures CourseIdsOf(templates[..i + 1], coursesOf, teacher)
      == CourseIdsOf(templates[..i], coursesOf, teacher) + TeacherCourses(coursesOf(Index(templates[i], "id").s), teacher)
  {
    assert templates[..i + 1][..i] == templates[..i];
    assert templates[..i + 1][i] == templates[i];
  }

  /** The position of the first template whose ID is not a string, or the
      number of templates when there is none. */
  function FirstBadTemplate(templates: seq<Value>): (k: nat)
    ensures k <= |templates|
    ensures forall j :: 0 <= j < k ==> Index(templates[j], "id").Str?
    ensures k < |templates| ==> !Index(templates[k], "id").Str?
    decreases |templates|
  {
    if |templates| == 0 || !Index(templates[0], "id").Str? then 0
    else
      var k := FirstBadTemplate(templates[1..]);
      assert forall j :: 1 <= j < k + 1 ==> templates[j] == templates[1..][j - 1];
      k + 1
  }

  /** The course IDs over all templates, and whether the walk stopped at a
      template whose ID is not a string (`getCourses` takes a string, so
      PHP throws a `TypeError` there, after the IDs found so far). */
  function CollectCourses(templates: seq<Value>, coursesOf: string -> seq<Value>, teacher: string): (seq<Value>, bool)
  {
    var k := FirstBadTemplate(templates);
    (CourseIdsOf(templates[..k], coursesOf, teacher), k < |templates|)
  }

  /** The walk fails exactly when some template has no string ID, and it
      collects every course open to the teacher group of every template
      before the first such one. */
  lemma CollectCoursesFails(templates: seq<Value>, coursesOf: string -> seq<Value>, teacher: string)
    ensures CollectCourses(templates, coursesOf, teacher).1 <==>
      exists i :: 0 <= i < |templates| && !Index(templates[i], "id").Str?
    ensures !CollectCourses(templates, coursesOf, teacher).1 ==>
      CollectCourses(templates, coursesOf, teacher).0 == CourseIdsOf(templates, coursesOf, teacher)
  {
    var k := FirstBadTemplate(templates);
    if k == |templates| {
      assert templates[..k] == templates;
    }
  }

  /** Every ID collected from a run of templates comes from one of them. */
  lemma {:induction false} CourseIdsOfSound(templates: seq<Value>, coursesOf: string -> seq<Value>, teacher: string, v: Value)
    requires v in CourseIdsOf(templates, coursesOf, teacher)
    ensures exists j :: 0 <= j < |templates| && v in TemplateCourses(templates[j], coursesOf, teacher)
    decreases |templates|
  {
    var init := templates[..|templates| - 1];
    if v in CourseIdsOf(init, coursesOf, teacher) {
      CourseIdsOfSound(init, coursesOf, teacher, v);
      var j :| 0 <= j < |init| && v in TemplateCourses(init[j], coursesOf, teacher);
      assert templates[j] == init[j];
    }
  }

  /** What any one template of the run contributes is collected. */
  lemma {:induction false} CourseIdsOfComplete(templates: seq<Value>, coursesOf: string -> seq<Value>, teacher: string, j: nat, v: Value)
    requires j < |templates| && v in TemplateCourses(templates[j], coursesOf, teacher)
    ensures v in CourseIdsOf(templates, coursesOf, teacher)
    decreases |templates|
  {
    var init := templates[..|templates| - 1];
    if j < |init| {
      assert init[j] == templates[j];
      CourseIdsOfComplete(init, coursesOf, teacher, j, v);
    }
  }

  /** An ID is collected from a run of templates exactly when one of its
      templates has a string ID and a course with that ID open to the group. */
  lemma CourseIdsOfMembers(templates: seq<Value>, coursesOf: string -> seq<Value>, teacher: string)
    ensures forall v :: v in CourseIdsOf(templates, coursesOf, teacher) <==>
      exists j :: 0 <= j < |templates| && v in TemplateCourses(templates[j], coursesOf, teacher)
  {
    forall v ensures v in CourseIdsOf(templates, coursesOf, teacher) <==>
      exists j :: 0 <= j < |templates| && v in TemplateCourses(templates[j], coursesOf, teacher)
    {
      if v in CourseIdsOf(templates, coursesOf, teacher) {
        CourseIdsOfSound(templates, coursesOf, teacher, v);
      }
      if exists j :: 0 <= j < |templates| && v in TemplateCourses(templates[j], coursesOf, teacher) {
        var j :| 0 <= j < |templates| && v in TemplateCourses(templates[j], coursesOf, teacher);
        CourseIdsOfComplete(templates, coursesOf, teacher, j, v);
      }
    }
  }
}
