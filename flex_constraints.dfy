/** The constraint families and the schedule listing that the flexible
    pipeline adds on top of the hard constraints: teachers restricted to a
    course's `teacher_ids`, coverage as "scheduled exactly once or dropped
    at a penalty", and the rows printed for one semester. */
module FlexConstraints {

  import opened Wrappers
  import opened PyStr
  import opened Structures
  import opened LinearModel
  import opened Sequences
  import opened ScheduleAudit
  import opened FlexLoading

  // ---------------------------------------------------------------------
  // add_course_teacher_compatibility_constraint
  // ---------------------------------------------------------------------

  /** `set(course.teacher_ids) & set(teachers)`: the listed teachers that
      exist. */
  function Allowed(course: Course, teachers: seq<int>): (r: set<int>)
    ensures forall t :: t in r <==> t in course.teacherIds && t in teachers
  {
    set t | t in course.teacherIds && t in teachers
  }

  /** The course restricts its teachers: its list is non-empty and names at
      least one existing teacher. */
  predicate Restricts(course: Course, teachers: seq<int>) {
    course.teacherIds != [] && Allowed(course, teachers) != {}
  }

  function NotAllowedName(c: int, t: int): string {
    "course_" + IntToString(c) + "_teacher_" + IntToString(t) + "_not_allowed"
  }

  /** `quicksum(x[s, t, c, r] for s in slots for r in rooms) == 0` */
  function NotAllowedConstr(c: int, t: int, slots: seq<int>, rooms: seq<int>): Constr {
    NoneActive(NotAllowedName(c, t), Table(slots, [t], [c], rooms))
  }

  /** The constraint for teacher `t`, unless it is allowed. */
  function TeacherCompat(c: int, allowed: set<int>, t: int, slots: seq<int>, rooms: seq<int>): seq<Constr> {
    if t in allowed then [] else [NotAllowedConstr(c, t, slots, rooms)]
  }

  /** The constraints of one course: none when it does not restrict. */
  function CourseCompat(c: int, course: Course, slots: seq<int>, teachers: seq<int>, rooms: seq<int>): seq<Constr> {
    if !Restricts(course, teachers) then []
    else
      var allowed := Allowed(course, teachers);
      FlatMap(teachers, t => TeacherCompat(c, allowed, t, slots, rooms))
  }

  /** The constraints of `add_course_teacher_compatibility_constraint`, course
      by course and within a course teacher by teacher. */
  function CompatFamily(slots: seq<int>, teachers: seq<int>, courses: seq<int>, rooms: seq<int>,
                        courseById: map<int, Course>): seq<Constr> {
    FlatMap(courses, c => if c in courseById then CourseCompat(c, courseById[c], slots, teachers, rooms) else [])
  }

  /** Some course of the list has an empty `teacher_ids`. */
  predicate SomeEmpty(courses: seq<int>, courseById: map<int, Course>) {
    exists c :: c in courses && c in courseById && courseById[c].teacherIds == []
  }

  /** Some course lists teachers none of which exist. */
  predicate SomeInvalid(courses: seq<int>, teachers: seq<int>, courseById: map<int, Course>) {
    exists c :: c in courses && c in courseById && courseById[c].teacherIds != [] && Allowed(courseById[c], teachers) == {}
  }

  lemma CompatFamilySnoc(slots: seq<int>, teachers: seq<int>, courses: seq<int>, i: nat, rooms: seq<int>,
                         courseById: map<int, Course>)
    requires i < |courses| && courses[i] in courseById
    ensures CompatFamily(slots, teachers, courses[..i + 1], rooms, courseById)
         == CompatFamily(slots, teachers, courses[..i], rooms, courseById)
            + CourseCompat(courses[i], courseById[courses[i]], slots, teachers, rooms)
  {
    assert courses[..i + 1][..i] == courses[..i];
  }

  lemma CourseCompatSnoc(c: int, course: Course, slots: seq<int>, teachers: seq<int>, j: nat, rooms: seq<int>)
    requires j < |teachers|
    ensures FlatMap(teachers[..j + 1], t => TeacherCompat(c, Allowed(course, teachers), t, slots, rooms))
         == FlatMap(teachers[..j], t => TeacherCompat(c, Allowed(course, teachers), t, slots, rooms))
            + TeacherCompat(c, Allowed(course, teachers), teachers[j], slots, rooms)
  {
    assert teachers[..j + 1][..j] == teachers[..j];
  }

  /** The inner loop for one restricting course: one constraint per
      existing teacher it does not list. */
  method AddCourseCompat(m: Model, c: int, course: Course, slots: seq<int>, teachers: seq<int>, rooms: seq<int>)
    requires Restricts(course, teachers)
    modifies m`constrs
    ensures m.constrs == old(m.constrs) + CourseCompat(c, course, slots, teachers, rooms)
  {
    var allowed := Allowed(course, teachers);
    for j := 0 to |teachers|
      invariant m.constrs == old(m.constrs) + FlatMap(teachers[..j], t => TeacherCompat(c, allowed, t, slots, rooms))
    {
      var t := teachers[j];
      CourseCompatSnoc(c, course, slots, teachers, j, rooms);
      if t !in allowed {
        m.AddConstr(NotAllowedConstr(c, t, slots, rooms));
        AppendAssoc(old(m.constrs), FlatMap(teachers[..j], t => TeacherCompat(c, allowed, t, slots, rooms)),
                    [NotAllowedConstr(c, t, slots, rooms)]);
      }
    }
    assert teachers[..|teachers|] == teachers;
  }

  /** The `Course` dataclass of structures.py has no `teacher_ids`, so the
      `getattr` default makes every list empty: then no compatibility
      constraint is added, and the empty-list warning fires exactly when
      some course is known. */
  lemma {:induction false} NoTeacherListsNoCompat(slots: seq<int>, teachers: seq<int>, courses: seq<int>, rooms: seq<int>,
                                                  courseById: map<int, Course>)
    requires forall c :: c in courseById ==> courseById[c].teacherIds == []
    ensures CompatFamily(slots, teachers, courses, rooms, courseById) == []
    ensures SomeEmpty(courses, courseById) <==> exists c :: c in courses && c in courseById
  {
    if courses != [] {
      var init := courses[..|courses| - 1];
      NoTeacherListsNoCompat(slots, teachers, init, rooms, courseById);
    }
  }

  lemma SomeSnoc(courses: seq<int>, i: nat, teachers: seq<int>, courseById: map<int, Course>)
    requires i < |courses|
    ensures SomeEmpty(courses[..i + 1], courseById)
        <==> SomeEmpty(courses[..i], courseById) || (courses[i] in courseById && courseById[courses[i]].teacherIds == [])
    ensures SomeInvalid(courses[..i + 1], teachers, courseById)
        <==> (SomeInvalid(courses[..i], teachers, courseById)
              || (courses[i] in courseById && courseById[courses[i]].teacherIds != [] && Allowed(courseById[courses[i]], teachers) == {}))
  {
    assert courses[..i + 1] == courses[..i] + [courses[i]];
    assert forall c :: c in courses[..i + 1] <==> c in courses[..i] || c == courses[i];
  }

  /** Adds the compatibility constraints and reports the two warnings: a
      course with an empty `teacher_ids`, and one whose teachers all do not
      exist. */
  method AddCourseTeacherCompatibility(m: Model, slots: seq<int>, teachers: seq<int>, courses: seq<int>, rooms: seq<int>,
                                       courseById: map<int, Course>)
    returns (warnedEmpty: bool, warnedInvalid: bool)
    requires forall c :: c in courses ==> c in courseById
    modifies m`constrs
    ensures m.constrs == old(m.constrs) + CompatFamily(slots, teachers, courses, rooms, courseById)
    ensures warnedEmpty <==> SomeEmpty(courses, courseById)
    ensures warnedInvalid <==> SomeInvalid(courses, teachers, courseById)
  {
    warnedEmpty := false;
    warnedInvalid := false;
    for i := 0 to |courses|
      invariant m.constrs == old(m.constrs) + CompatFamily(slots, teachers, courses[..i], rooms, courseById)
      invariant warnedEmpty <==> SomeEmpty(courses[..i], courseById)
      invariant warnedInvalid <==> SomeInvalid(courses[..i], teachers, courseById)
    {
      var c := courses[i];
      var course := courseById[c];
      CompatFamilySnoc(slots, teachers, courses, i, rooms, courseById);
      SomeSnoc(courses, i, teachers, courseById);
      if course.teacherIds == [] {
        warnedEmpty := true;
      } else if Allowed(course, teachers) == {} {
        warnedInvalid := true;
      } else {
        AddCourseCompat(m, c, course, slots, teachers, rooms);
        AppendAssoc(old(m.constrs), CompatFamily(slots, teachers, courses[..i], rooms, courseById),
                    CourseCompat(c, course, slots, teachers, rooms));
      }
    }
    assert courses[..|courses|] == courses;
  }

  /** Every active quadruple of a restricting course has one of the
      course's listed teachers. */
  ghost predicate TeachersCompatible(a: Assignment, slots: seq<int>, teachers: seq<int>, courses: seq<int>, rooms: seq<int>,
                                     courseById: map<int, Course>) {
    forall q :: InTable(q, slots, teachers, courses, rooms) && X(q) in a
      && q.course in courseById && Restricts(courseById[q.course], teachers)
      ==> q.teacher in courseById[q.course].teacherIds
  }

  lemma NotAllowedMeaning(a: Assignment, c: int, t: int, slots: seq<int>, rooms: seq<int>)
    ensures Holds(NotAllowedConstr(c, t, slots, rooms), a)
        <==> forall q :: InTable(q, slots, [t], [c], rooms) ==> X(q) !in a
  {
    NoneActiveHolds(NotAllowedName(c, t), Table(slots, [t], [c], rooms), a);
    forall q ensures q in Table(slots, [t], [c], rooms) <==> InTable(q, slots, [t], [c], rooms) {
      TableMember(q, slots, [t], [c], rooms);
    }
  }

  /** The constraints of one restricting course hold exactly when none of
      its active quadruples has an existing teacher outside its list. */
  lemma CourseCompatMeaning(a: Assignment, c: int, course: Course, slots: seq<int>, teachers: seq<int>, rooms: seq<int>)
    requires Restricts(course, teachers)
    ensures AllHold(CourseCompat(c, course, slots, teachers, rooms), a)
        <==> forall q :: InTable(q, slots, teachers, [c], rooms) && X(q) in a ==> q.teacher in course.teacherIds
  {
    var allowed := Allowed(course, teachers);
    AllHoldFlatMap(teachers, t => TeacherCompat(c, allowed, t, slots, rooms), a);
    forall t | t in teachers
      ensures AllHold(TeacherCompat(c, allowed, t, slots, rooms), a)
          <==> (t in allowed || forall q :: InTable(q, slots, [t], [c], rooms) ==> X(q) !in a)
    {
      if t !in allowed {
        AllHoldSingle(NotAllowedConstr(c, t, slots, rooms), a);
        NotAllowedMeaning(a, c, t, slots, rooms);
      }
    }
    if forall q :: InTable(q, slots, teachers, [c], rooms) && X(q) in a ==> q.teacher in course.teacherIds {
      forall t | t in teachers && t !in allowed
        ensures forall q :: InTable(q, slots, [t], [c], rooms) ==> X(q) !in a
      {
        forall q | InTable(q, slots, [t], [c], rooms) ensures X(q) !in a {
          assert InTable(q, slots, teachers, [c], rooms);
        }
      }
    }
  }

  /** An assignment satisfies the compatibility constraints exactly when
      every active quadruple of a course that lists at least one existing
      teacher has a listed teacher; other courses are unconstrained. */
  lemma CompatMeaning(a: Assignment, slots: seq<int>, teachers: seq<int>, courses: seq<int>, rooms: seq<int>,
                      courseById: map<int, Course>)
    ensures AllHold(CompatFamily(slots, teachers, courses, rooms, courseById), a)
        <==> TeachersCompatible(a, slots, teachers, courses, rooms, courseById)
  {
    var f := c => if c in courseById then CourseCompat(c, courseById[c], slots, teachers, rooms) else [];
    AllHoldFlatMap(courses, f, a);
    forall c | c in courses
      ensures AllHold(f(c), a)
          <==> (c in courseById && Restricts(courseById[c], teachers) ==>
                  forall q :: InTable(q, slots, teachers, [c], rooms) && X(q) in a ==> q.teacher in courseById[c].teacherIds)
    {
      if c in courseById && Restricts(courseById[c], teachers) {
        CourseCompatMeaning(a, c, courseById[c], slots, teachers, rooms);
      }
    }
    if AllHold(CompatFamily(slots, teachers, courses, rooms, courseById), a) {
      forall q | InTable(q, slots, teachers, courses, rooms) && X(q) in a
        && q.course in courseById && Restricts(courseById[q.course], teachers)
        ensures q.teacher in courseById[q.course].teacherIds
      {
        assert InTable(q, slots, teachers, [q.course], rooms);
      }
    }
  }

  // ---------------------------------------------------------------------
  // add_all_courses_scheduled_soft
  // ---------------------------------------------------------------------

  function ScheduledOrDroppedName(c: int): string {
    "course_" + IntToString(c) + "_scheduled_or_dropped"
  }

  /** `quicksum(x[s, t, c, r] for s in slots for t in teachers for r in rooms) + u[c] == 1` */
  function ScheduledOrDropped(c: int, slots: seq<int>, teachers: seq<int>, rooms: seq<int>): Constr {
    Constr(ScheduledOrDroppedName(c), UnitTerms(Table(slots, teachers, [c], rooms)) + [Term(1.0, Unscheduled(c))], Equal, 1.0)
  }

  function SoftCoverageFamily(courses: seq<int>, teachers: seq<int>, rooms: seq<int>, slots: seq<int>): seq<Constr> {
    FlatMap(courses, c => [ScheduledOrDropped(c, slots, teachers, rooms)])
  }

  /** The variables `u[c]`, in the order of `courses`. */
  function DropVars(courses: seq<int>): (vs: seq<Var>)
    ensures |vs| == |courses| && forall k :: 0 <= k < |courses| ==> vs[k] == Unscheduled(courses[k])
  {
    if courses == [] then [] else DropVars(courses[..|courses| - 1]) + [Unscheduled(courses[|courses| - 1])]
  }

  /** `quicksum(u[c] for c in courses)` */
  function DropTerms(courses: seq<int>): (e: LinExpr)
    ensures |e| == |courses| && forall k :: 0 <= k < |courses| ==> e[k] == Term(1.0, Unscheduled(courses[k]))
  {
    if courses == [] then [] else DropTerms(courses[..|courses| - 1]) + [Term(1.0, Unscheduled(courses[|courses| - 1]))]
  }

  /** `penalty * quicksum(u[c] for c in courses)` */
  function DropExpr(penalty: real, courses: seq<int>): LinExpr {
    Scale(penalty, DropTerms(courses))
  }

  lemma SoftCoverageFamilySnoc(courses: seq<int>, i: nat, teachers: seq<int>, rooms: seq<int>, slots: seq<int>)
    requires i < |courses|
    ensures SoftCoverageFamily(courses[..i + 1], teachers, rooms, slots)
         == SoftCoverageFamily(courses[..i], teachers, rooms, slots) + [ScheduledOrDropped(courses[i], slots, teachers, rooms)]
  {
    assert courses[..i + 1][..i] == courses[..i];
  }

  /** Adds one binary variable `u[c]` per course and one "scheduled or
      dropped" constraint per course, and returns the variables with the
      drop-penalty expression. */
  method AddAllCoursesScheduledSoft(m: Model, courses: seq<int>, teachers: seq<int>, rooms: seq<int>, slots: seq<int>, penalty: real)
    returns (u: seq<Var>, drop: LinExpr)
    modifies m`vars, m`constrs
    ensures u == DropVars(courses) && m.vars == old(m.vars) + u
    ensures m.constrs == old(m.constrs) + SoftCoverageFamily(courses, teachers, rooms, slots)
    ensures drop == DropExpr(penalty, courses)
  {
    u := DropVars(courses);
    m.AddVars(u);
    for i := 0 to |courses|
      invariant m.constrs == old(m.constrs) + SoftCoverageFamily(courses[..i], teachers, rooms, slots)
      invariant m.vars == old(m.vars) + u
    {
      m.AddConstr(ScheduledOrDropped(courses[i], slots, teachers, rooms));
      SoftCoverageFamilySnoc(courses, i, teachers, rooms, slots);
      AppendAssoc(old(m.constrs), SoftCoverageFamily(courses[..i], teachers, rooms, slots), [ScheduledOrDropped(courses[i], slots, teachers, rooms)]);
    }
    assert courses[..|courses|] == courses;
    drop := DropExpr(penalty, courses);
  }

  /** One constraint holds exactly when the course is either assigned
      exactly once and not dropped, or not assigned and dropped. */
  lemma ScheduledOrDroppedMeaning(a: Assignment, c: int, slots: seq<int>, teachers: seq<int>, rooms: seq<int>)
    ensures Holds(ScheduledOrDropped(c, slots, teachers, rooms), a)
        <==> ((Assigned(a, slots, teachers, c, rooms) == 1 && Unscheduled(c) !in a)
              || (Assigned(a, slots, teachers, c, rooms) == 0 && Unscheduled(c) in a))
  {
    var qs := Table(slots, teachers, [c], rooms);
    EvalUnitTerms(qs, a);
    EvalConcat(UnitTerms(qs), [Term(1.0, Unscheduled(c))], a);
    assert Eval([Term(1.0, Unscheduled(c))], a) == Value(a, Unscheduled(c)) by {
      assert [Term(1.0, Unscheduled(c))][..0] == [];
    }
  }

  /** Every course is scheduled exactly once or dropped, never both. */
  ghost predicate OnceOrDropped(a: Assignment, slots: seq<int>, teachers: seq<int>, courses: seq<int>, rooms: seq<int>) {
    forall c :: c in courses ==>
      (Assigned(a, slots, teachers, c, rooms) == 1 && Unscheduled(c) !in a)
      || (Assigned(a, slots, teachers, c, rooms) == 0 && Unscheduled(c) in a)
  }

  /** An assignment satisfies the soft-coverage constraints exactly when
      every course is scheduled exactly once or dropped, never both. */
  lemma SoftCoverageMeaning(a: Assignment, slots: seq<int>, teachers: seq<int>, courses: seq<int>, rooms: seq<int>)
    ensures AllHold(SoftCoverageFamily(courses, teachers, rooms, slots), a) <==> OnceOrDropped(a, slots, teachers, courses, rooms)
  {
    AllHoldFlatMap(courses, c => [ScheduledOrDropped(c, slots, teachers, rooms)], a);
    forall c | c in courses
      ensures AllHold([ScheduledOrDropped(c, slots, teachers, rooms)], a) <==> Holds(ScheduledOrDropped(c, slots, teachers, rooms), a)
    {
      AllHoldSingle(ScheduledOrDropped(c, slots, teachers, rooms), a);
    }
    forall c ensures Holds(ScheduledOrDropped(c, slots, teachers, rooms), a)
        <==> ((Assigned(a, slots, teachers, c, rooms) == 1 && Unscheduled(c) !in a)
              || (Assigned(a, slots, teachers, c, rooms) == 0 && Unscheduled(c) in a))
    {
      ScheduledOrDroppedMeaning(a, c, slots, teachers, rooms);
    }
  }

  /** The number of positions of `courses` whose course is dropped. */
  function DroppedCount(courses: seq<int>, a: Assignment): nat {
    if courses == [] then 0
    else DroppedCount(courses[..|courses| - 1], a) + (if Unscheduled(courses[|courses| - 1]) in a then 1 else 0)
  }

  lemma {:induction false} EvalDropTerms(courses: seq<int>, a: Assignment)
    ensures Eval(DropTerms(courses), a) == DroppedCount(courses, a) as real
  {
    if courses != [] {
      EvalDropTerms(courses[..|courses| - 1], a);
      var e := DropTerms(courses);
      assert e[..|e| - 1] == DropTerms(courses[..|courses| - 1]);
    }
  }

  /** For a duplicate-free course list, the count is the number of dropped
      courses. */
  lemma {:induction false} DroppedCountIsDropped(courses: seq<int>, a: Assignment)
    requires Distinct(courses)
    ensures DroppedCount(courses, a) == |set c | c in courses && Unscheduled(c) in a|
  {
    if courses != [] {
      var init := courses[..|courses| - 1];
      var last := courses[|courses| - 1];
      DistinctPrefix(courses, |courses| - 1);
      DroppedCountIsDropped(init, a);
      assert courses == init + [last];
      assert last !in init;
      var before := set c | c in init && Unscheduled(c) in a;
      var after := set c | c in courses && Unscheduled(c) in a;
      if Unscheduled(last) in a {
        assert after == before + {last};
      } else {
        assert after == before;
      }
    }
  }

  /** The drop cost is the penalty times the number of dropped courses. */
  lemma DropCost(penalty: real, courses: seq<int>, a: Assignment)
    requires Distinct(courses)
    ensures Eval(DropExpr(penalty, courses), a) == penalty * (|set c | c in courses && Unscheduled(c) in a| as real)
  {
    EvalScale(penalty, DropTerms(courses), a);
    EvalDropTerms(courses, a);
    DroppedCountIsDropped(courses, a);
  }

  // ---------------------------------------------------------------------
  // print_schedule_for_semester (the rows it prints)
  // ---------------------------------------------------------------------

  /** A printed row: the slot, the timeslot's `day` (absent when the slot
      has no record), the course label, the teacher and the room. */
  datatype ScheduleRow = ScheduleRow(slot: int, day: Field, courseName: string, teacherName: string, roomName: string)

  /** What the listing reads: the solution, the semester and the four
      lookup tables. */
  datatype Listing = Listing(
    a: Assignment,
    semester: string,
    teacherById: map<int, Teacher>,
    courseById: map<int, Course>,
    roomById: map<int, Room>,
    tsById: map<int, TimeslotRecord>)

  /** Every id the loops look up is present; otherwise the source raises
      `KeyError`. */
  predicate Ready(L: Listing, teachers: seq<int>, courses: seq<int>, rooms: seq<int>) {
    && (forall t :: t in teachers ==> t in L.teacherById)
    && (forall c :: c in courses ==> c in L.courseById)
    && (forall r :: r in rooms ==> r in L.roomById)
  }

  /** A quadruple that is printed: its course belongs to the semester and its
      variable is set (the lookups are part of it so that a row can be
      built; under `Ready` they hold for every quadruple of the table). */
  predicate Visible(L: Listing, q: Quad) {
    && q.course in L.courseById && L.semester in L.courseById[q.course].semester
    && X(q) in L.a
    && q.teacher in L.teacherById && q.room in L.roomById
  }

  /** The row of a printed quadruple; `Course` has no `course_name`, so the
      course is labelled by its id. */
  function RowOf(L: Listing, q: Quad): ScheduleRow
    requires Visible(L, q)
  {
    var day := if q.slot in L.tsById then L.tsById[q.slot].day else Absent;
    ScheduleRow(q.slot, day, IntToString(q.course), L.teacherById[q.teacher].teacherName, L.roomById[q.room].name)
  }

  /** The rows appended while walking `qs` in order. */
  function Listed(L: Listing, qs: seq<Quad>): seq<ScheduleRow> {
    if qs == [] then []
    else
      var last := qs[|qs| - 1];
      Listed(L, qs[..|qs| - 1]) + (if Visible(L, last) then [RowOf(L, last)] else [])
  }

  lemma {:induction false} ListedConcat(L: Listing, xs: seq<Quad>, ys: seq<Quad>)
    ensures Listed(L, xs + ys) == Listed(L, xs) + Listed(L, ys)
  {
    if ys != [] {
      var init := ys[..|ys| - 1];
      var last := ys[|ys| - 1];
      ListedConcat(L, xs, init);
      assert xs + ys == (xs + init) + [last];
      var tail := if Visible(L, last) then [RowOf(L, last)] else [];
      calc {
        Listed(L, xs + ys);
        Listed(L, (xs + init) + [last]);
        { assert ((xs + init) + [last])[..|xs + init|] == xs + init; }
        Listed(L, xs + init) + tail;
        Listed(L, xs) + Listed(L, init) + tail;
        { AppendAssoc(Listed(L, xs), Listed(L, init), tail); }
        Listed(L, xs) + Listed(L, ys);
      }
    } else {
      assert xs + ys == xs;
    }
  }

  /** The rows are exactly those of the printed quadruples. */
  lemma {:induction false} ListedMember(L: Listing, qs: seq<Quad>, row: ScheduleRow)
    ensures row in Listed(L, qs) <==> exists q :: q in qs && Visible(L, q) && RowOf(L, q) == row
  {
    if qs != [] {
      var init := qs[..|qs| - 1];
      ListedMember(L, init, row);
      assert qs == init + [qs[|qs| - 1]];
      if row in Listed(L, qs) && row !in Listed(L, init) {
        assert RowOf(L, qs[|qs| - 1]) == row;
      }
    }
  }

  lemma {:induction false} ListedSlots(L: Listing, qs: seq<Quad>, row: ScheduleRow)
    requires row in Listed(L, qs)
    ensures exists q :: q in qs && q.slot == row.slot
  {
    ListedMember(L, qs, row);
  }

  /** `key=lambda x: x[0]` */
  function SlotLe(): (ScheduleRow, ScheduleRow) -> bool {
    (x: ScheduleRow, y: ScheduleRow) => x.slot <= y.slot
  }

  lemma SlotLeTotal()
    ensures TotalPreorder(SlotLe())
  {
  }

  /** The rows `print_schedule_for_semester` prints, in order. */
  function ScheduleRows(L: Listing, slots: seq<int>, teachers: seq<int>, courses: seq<int>, rooms: seq<int>): seq<ScheduleRow> {
    SortBy(Listed(L, Table(slots, teachers, courses, rooms)), SlotLe())
  }

  /** A quadruple of a course outside the semester is never printed. */
  lemma ListedOtherSemester(L: Listing, s: int, t: int, c: int, rooms: seq<int>)
    requires c in L.courseById && L.semester !in L.courseById[c].semester
    ensures Listed(L, CourseBlock(s, t, c, rooms)) == []
  {
    forall row ensures row !in Listed(L, CourseBlock(s, t, c, rooms)) {
      ListedMember(L, CourseBlock(s, t, c, rooms), row);
      forall q | q in CourseBlock(s, t, c, rooms) ensures q.course == c {
        CourseBlockMember(q, s, t, c, rooms);
      }
    }
    FirstRowIsMember(Listed(L, CourseBlock(s, t, c, rooms)));
  }

  lemma FirstRowIsMember(rows: seq<ScheduleRow>)
    ensures rows == [] || rows[0] in rows
  {
  }

  /** The room loop: the rows of one (slot, teacher, course). */
  method RoomRows(L: Listing, s: int, t: int, c: int, rooms: seq<int>) returns (rows: seq<ScheduleRow>)
    requires t in L.teacherById && forall r :: r in rooms ==> r in L.roomById
    ensures rows == Listed(L, CourseBlock(s, t, c, rooms))
  {
    rows := [];
    for l := 0 to |rooms|
      invariant rows == Listed(L, CourseBlock(s, t, c, rooms[..l]))
    {
      var q := Quad(s, t, c, rooms[l]);
      CourseBlockSnoc(s, t, c, rooms, l);
      ListedConcat(L, CourseBlock(s, t, c, rooms[..l]), [q]);
      assert [q][..0] == [];
      if X(q) in L.a && c in L.courseById && L.semester in L.courseById[c].semester {
        rows := rows + [RowOf(L, q)];
      }
    }
    assert rooms[..|rooms|] == rooms;
  }

  /** The course loop of one (slot, teacher), skipping courses outside the
      semester. */
  method CourseRows(L: Listing, s: int, t: int, courses: seq<int>, rooms: seq<int>) returns (rows: seq<ScheduleRow>)
    requires t in L.teacherById
    requires (forall c :: c in courses ==> c in L.courseById) && forall r :: r in rooms ==> r in L.roomById
    ensures rows == Listed(L, TeacherBlock(s, t, courses, rooms))
  {
    rows := [];
    for k := 0 to |courses|
      invariant rows == Listed(L, TeacherBlock(s, t, courses[..k], rooms))
    {
      var c := courses[k];
      TeacherBlockSnoc(s, t, courses, k, rooms);
      ListedConcat(L, TeacherBlock(s, t, courses[..k], rooms), CourseBlock(s, t, c, rooms));
      if L.semester !in L.courseById[c].semester {
        ListedOtherSemester(L, s, t, c, rooms);
        continue;
      }
      var more := RoomRows(L, s, t, c, rooms);
      rows := rows + more;
    }
    assert courses[..|courses|] == courses;
  }

  /** `print_schedule_for_semester`: the nested loops, then the sort by slot. */
  method PrintScheduleForSemester(L: Listing, slots: seq<int>, teachers: seq<int>, courses: seq<int>, rooms: seq<int>)
    returns (rows: seq<ScheduleRow>)
    requires Ready(L, teachers, courses, rooms)
    ensures rows == ScheduleRows(L, slots, teachers, courses, rooms)
  {
    rows := [];
    for i := 0 to |slots|
      invariant rows == Listed(L, Table(slots[..i], teachers, courses, rooms))
    {
      var s := slots[i];
      TableSnoc(slots, i, teachers, courses, rooms);
      ListedConcat(L, Table(slots[..i], teachers, courses, rooms), SlotBlock(s, teachers, courses, rooms));
      ghost var done := rows;
      for j := 0 to |teachers|
        invariant rows == done + Listed(L, SlotBlock(s, teachers[..j], courses, rooms))
      {
        SlotBlockSnoc(s, teachers, j, courses, rooms);
        ListedConcat(L, SlotBlock(s, teachers[..j], courses, rooms), TeacherBlock(s, teachers[j], courses, rooms));
        var more := CourseRows(L, s, teachers[j], courses, rooms);
        AppendAssoc(done, Listed(L, SlotBlock(s, teachers[..j], courses, rooms)), more);
        rows := rows + more;
      }
      assert teachers[..|teachers|] == teachers;
    }
    assert slots[..|slots|] == slots;
    rows := SortBy(rows, SlotLe());
  }

  /** The printed rows are ordered by slot, are the loop's rows rearranged,
      and are exactly the rows of the semester's assigned quadruples; no row
      is printed exactly when none is assigned. */
  lemma ScheduleRowsContents(L: Listing, slots: seq<int>, teachers: seq<int>, courses: seq<int>, rooms: seq<int>)
    ensures SortedBy(ScheduleRows(L, slots, teachers, courses, rooms), SlotLe())
    ensures multiset(ScheduleRows(L, slots, teachers, courses, rooms)) == multiset(Listed(L, Table(slots, teachers, courses, rooms)))
    ensures forall row :: (row in ScheduleRows(L, slots, teachers, courses, rooms)
                           <==> exists q :: InTable(q, slots, teachers, courses, rooms) && Visible(L, q) && RowOf(L, q) == row)
  {
    var qs := Table(slots, teachers, courses, rooms);
    var rows := ScheduleRows(L, slots, teachers, courses, rooms);
    SlotLeTotal();
    SortBySorted(Listed(L, qs), SlotLe());
    forall row ensures row in rows <==> exists q :: InTable(q, slots, teachers, courses, rooms) && Visible(L, q) && RowOf(L, q) == row {
      assert row in rows <==> row in multiset(rows);
      ListedMember(L, qs, row);
      forall q ensures q in qs <==> InTable(q, slots, teachers, courses, rooms) {
        TableMember(q, slots, teachers, courses, rooms);
      }
    }
  }

  /** Nothing is printed exactly when no quadruple of the semester is
      assigned. */
  lemma ScheduleRowsEmpty(L: Listing, slots: seq<int>, teachers: seq<int>, courses: seq<int>, rooms: seq<int>)
    ensures ScheduleRows(L, slots, teachers, courses, rooms) == []
        <==> forall q :: InTable(q, slots, teachers, courses, rooms) ==> !Visible(L, q)
  {
    var rows := ScheduleRows(L, slots, teachers, courses, rooms);
    ScheduleRowsContents(L, slots, teachers, courses, rooms);
    FirstRowIsMember(rows);
    forall q | InTable(q, slots, teachers, courses, rooms) && Visible(L, q) ensures RowOf(L, q) in rows {
    }
  }

  /** With ascending slots (as `load_timeslots` returns them) the sort keeps
      the rows in the order the loops produced them. */
  lemma {:induction false} ScheduleRowsLoopOrder(L: Listing, slots: seq<int>, teachers: seq<int>, courses: seq<int>, rooms: seq<int>)
    requires forall i, j :: 0 <= i < j < |slots| ==> slots[i] <= slots[j]
    ensures ScheduleRows(L, slots, teachers, courses, rooms) == Listed(L, Table(slots, teachers, courses, rooms))
  {
    ListedSortedBySlot(L, slots, teachers, courses, rooms);
    SortByOfSorted(Listed(L, Table(slots, teachers, courses, rooms)), SlotLe());
  }

  lemma {:induction false} ListedSortedBySlot(L: Listing, slots: seq<int>, teachers: seq<int>, courses: seq<int>, rooms: seq<int>)
    requires forall i, j :: 0 <= i < j < |slots| ==> slots[i] <= slots[j]
    ensures SortedBy(Listed(L, Table(slots, teachers, courses, rooms)), SlotLe())
  {
    if slots != [] {
      var n := |slots| - 1;
      var init := slots[..n];
      ListedSortedBySlot(L, init, teachers, courses, rooms);
      TableSnoc(slots, n, teachers, courses, rooms);
      assert slots[..n + 1] == slots;
      var xs := Listed(L, Table(init, teachers, courses, rooms));
      var ys := Listed(L, SlotBlock(slots[n], teachers, courses, rooms));
      ListedConcat(L, Table(init, teachers, courses, rooms), SlotBlock(slots[n], teachers, courses, rooms));
      forall row | row in xs ensures row.slot <= slots[n] {
        ListedSlots(L, Table(init, teachers, courses, rooms), row);
        var q :| q in Table(init, teachers, courses, rooms) && q.slot == row.slot;
        TableMember(q, init, teachers, courses, rooms);
        var i :| 0 <= i < n && init[i] == q.slot;
      }
      forall row | row in ys ensures row.slot == slots[n] {
        ListedSlots(L, SlotBlock(slots[n], teachers, courses, rooms), row);
        var q :| q in SlotBlock(slots[n], teachers, courses, rooms) && q.slot == row.slot;
        SlotBlockMember(q, slots[n], teachers, courses, rooms);
      }
      forall i, j | 0 <= i < j < |xs + ys| ensures (xs + ys)[i].slot <= (xs + ys)[j].slot {
        if j < |xs| {
          assert SlotLe()(xs[i], xs[j]);
        } else if i >= |xs| {
          assert ys[i - |xs|] in ys && ys[j - |xs|] in ys;
        } else {
          assert xs[i] in xs && ys[j - |xs|] in ys;
        }
      }
    }
  }
}
