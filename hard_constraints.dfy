/** The hard-constraint generators: each walks the id lists in the order of
    its nested loops and appends unnamed linear constraints to the model. For
    every family a lemma states what an assignment satisfying the compiled
    constraints looks like in timetable terms. */
module HardConstraints {

  import opened LinearModel
  import opened Structures

  // ---------------------------------------------------------------------
  // Room exclusivity: one course per room and slot
  // ---------------------------------------------------------------------

  /** `quicksum(x[s, t, c, r] for t in teachers for c in courses) <= 1` */
  function RoomSlotConstr(r: int, s: int, teachers: seq<int>, courses: seq<int>): Constr {
    AtMostOne("", Table([s], teachers, courses, [r]))
  }

  function RoomConstrs(r: int, slots: seq<int>, teachers: seq<int>, courses: seq<int>): seq<Constr> {
    FlatMap(slots, s => [RoomSlotConstr(r, s, teachers, courses)])
  }

  /** The constraints of `add_single_room_single_course_constr`, room by room
      and within a room slot by slot. */
  function RoomExclusivity(slots: seq<int>, teachers: seq<int>, courses: seq<int>, rooms: seq<int>): seq<Constr> {
    FlatMap(rooms, r => RoomConstrs(r, slots, teachers, courses))
  }

  lemma RoomConstrsSnoc(r: int, slots: seq<int>, j: nat, teachers: seq<int>, courses: seq<int>)
    requires j < |slots|
    ensures RoomConstrs(r, slots[..j + 1], teachers, courses)
         == RoomConstrs(r, slots[..j], teachers, courses) + [RoomSlotConstr(r, slots[j], teachers, courses)]
  {
    assert slots[..j + 1][..j] == slots[..j];
  }

  lemma RoomExclusivitySnoc(slots: seq<int>, teachers: seq<int>, courses: seq<int>, rooms: seq<int>, i: nat)
    requires i < |rooms|
    ensures RoomExclusivity(slots, teachers, courses, rooms[..i + 1])
         == RoomExclusivity(slots, teachers, courses, rooms[..i]) + RoomConstrs(rooms[i], slots, teachers, courses)
  {
    assert rooms[..i + 1][..i] == rooms[..i];
  }

  /** No room hosts two different active quadruples in the same slot. */
  ghost predicate RoomExclusive(a: Assignment, slots: seq<int>, teachers: seq<int>, courses: seq<int>, rooms: seq<int>) {
    forall q1, q2 ::
      InTable(q1, slots, teachers, courses, rooms) && InTable(q2, slots, teachers, courses, rooms)
      && X(q1) in a && X(q2) in a && q1.slot == q2.slot && q1.room == q2.room
      ==> q1 == q2
  }

  method AddSingleRoomSingleCourse(m: Model, slots: seq<int>, teachers: seq<int>, courses: seq<int>, rooms: seq<int>)
    modifies m`constrs
    ensures m.constrs == old(m.constrs) + RoomExclusivity(slots, teachers, courses, rooms)
  {
    for i := 0 to |rooms|
      invariant m.constrs == old(m.constrs) + RoomExclusivity(slots, teachers, courses, rooms[..i])
    {
      var r := rooms[i];
      ghost var done := m.constrs;
      for j := 0 to |slots|
        invariant m.constrs == done + RoomConstrs(r, slots[..j], teachers, courses)
      {
        m.AddConstr(RoomSlotConstr(r, slots[j], teachers, courses));
        RoomConstrsSnoc(r, slots, j, teachers, courses);
        AppendAssoc(done, RoomConstrs(r, slots[..j], teachers, courses), [RoomSlotConstr(r, slots[j], teachers, courses)]);
      }
      assert slots[..|slots|] == slots;
      RoomExclusivitySnoc(slots, teachers, courses, rooms, i);
      AppendAssoc(old(m.constrs), RoomExclusivity(slots, teachers, courses, rooms[..i]), RoomConstrs(r, slots, teachers, courses));
    }
    assert rooms[..|rooms|] == rooms;
  }

  /** One room-slot constraint holds exactly when at most one of its
      quadruples is active. */
  lemma RoomSlotMeaning(a: Assignment, r: int, s: int, teachers: seq<int>, courses: seq<int>)
    requires Distinct(teachers) && Distinct(courses)
    ensures Holds(RoomSlotConstr(r, s, teachers, courses), a)
        <==> (forall q1, q2 ::
                InTable(q1, [s], teachers, courses, [r]) && InTable(q2, [s], teachers, courses, [r])
                && X(q1) in a && X(q2) in a
                ==> q1 == q2)
  {
    var qs := Table([s], teachers, courses, [r]);
    TableDistinct([s], teachers, courses, [r]);
    AtMostOneHolds("", qs, a);
    forall q ensures q in qs <==> InTable(q, [s], teachers, courses, [r]) {
      TableMember(q, [s], teachers, courses, [r]);
    }
  }

  lemma RoomConstrsMeaning(a: Assignment, r: int, slots: seq<int>, teachers: seq<int>, courses: seq<int>)
    ensures AllHold(RoomConstrs(r, slots, teachers, courses), a)
        <==> forall s :: s in slots ==> Holds(RoomSlotConstr(r, s, teachers, courses), a)
  {
    AllHoldFlatMap(slots, s => [RoomSlotConstr(r, s, teachers, courses)], a);
    forall s | s in slots
      ensures AllHold([RoomSlotConstr(r, s, teachers, courses)], a) <==> Holds(RoomSlotConstr(r, s, teachers, courses), a)
    {
      AllHoldSingle(RoomSlotConstr(r, s, teachers, courses), a);
    }
  }

  lemma RoomExclusivitySound(a: Assignment, slots: seq<int>, teachers: seq<int>, courses: seq<int>, rooms: seq<int>)
    requires Distinct(teachers) && Distinct(courses)
    requires AllHold(RoomExclusivity(slots, teachers, courses, rooms), a)
    ensures RoomExclusive(a, slots, teachers, courses, rooms)
  {
    AllHoldFlatMap(rooms, r => RoomConstrs(r, slots, teachers, courses), a);
    forall q1, q2 |
      InTable(q1, slots, teachers, courses, rooms) && InTable(q2, slots, teachers, courses, rooms)
      && X(q1) in a && X(q2) in a && q1.slot == q2.slot && q1.room == q2.room
      ensures q1 == q2
    {
      var r, s := q1.room, q1.slot;
      assert AllHold(RoomConstrs(r, slots, teachers, courses), a);
      RoomConstrsMeaning(a, r, slots, teachers, courses);
      assert Holds(RoomSlotConstr(r, s, teachers, courses), a);
      RoomSlotMeaning(a, r, s, teachers, courses);
      assert InTable(q1, [s], teachers, courses, [r]) && InTable(q2, [s], teachers, courses, [r]);
    }
  }

  lemma RoomExclusivityComplete(a: Assignment, slots: seq<int>, teachers: seq<int>, courses: seq<int>, rooms: seq<int>)
    requires Distinct(teachers) && Distinct(courses)
    requires RoomExclusive(a, slots, teachers, courses, rooms)
    ensures AllHold(RoomExclusivity(slots, teachers, courses, rooms), a)
  {
    forall r | r in rooms ensures AllHold(RoomConstrs(r, slots, teachers, courses), a) {
      forall s | s in slots ensures Holds(RoomSlotConstr(r, s, teachers, courses), a) {
        RoomSlotMeaning(a, r, s, teachers, courses);
      }
      RoomConstrsMeaning(a, r, slots, teachers, courses);
    }
    AllHoldFlatMap(rooms, r => RoomConstrs(r, slots, teachers, courses), a);
  }

  /** With duplicate-free teacher and course lists, an assignment satisfies the
      room constraints exactly when no room is double-booked in any slot. */
  lemma RoomExclusivityMeaning(a: Assignment, slots: seq<int>, teachers: seq<int>, courses: seq<int>, rooms: seq<int>)
    requires Distinct(teachers) && Distinct(courses)
    ensures AllHold(RoomExclusivity(slots, teachers, courses, rooms), a) <==> RoomExclusive(a, slots, teachers, courses, rooms)
  {
    if AllHold(RoomExclusivity(slots, teachers, courses, rooms), a) {
      RoomExclusivitySound(a, slots, teachers, courses, rooms);
    }
    if RoomExclusive(a, slots, teachers, courses, rooms) {
      RoomExclusivityComplete(a, slots, teachers, courses, rooms);
    }
  }

  // ---------------------------------------------------------------------
  // Teacher exclusivity: one course per teacher and slot
  // ---------------------------------------------------------------------

  /** `quicksum(x[slot, t, c, r] for c in courses for r in rooms) <= 1` */
  function TeacherSlotConstr(t: int, s: int, courses: seq<int>, rooms: seq<int>): Constr {
    AtMostOne("", Table([s], [t], courses, rooms))
  }

  function TeacherConstrs(t: int, slots: seq<int>, courses: seq<int>, rooms: seq<int>): seq<Constr> {
    FlatMap(slots, s => [TeacherSlotConstr(t, s, courses, rooms)])
  }

  /** The constraints of `add_single_teacher_single_course_constr`, teacher by
      teacher and within a teacher slot by slot. */
  function TeacherExclusivity(slots: seq<int>, teachers: seq<int>, courses: seq<int>, rooms: seq<int>): seq<Constr> {
    FlatMap(teachers, t => TeacherConstrs(t, slots, courses, rooms))
  }

  lemma TeacherConstrsSnoc(t: int, slots: seq<int>, j: nat, courses: seq<int>, rooms: seq<int>)
    requires j < |slots|
    ensures TeacherConstrs(t, slots[..j + 1], courses, rooms)
         == TeacherConstrs(t, slots[..j], courses, rooms) + [TeacherSlotConstr(t, slots[j], courses, rooms)]
  {
    assert slots[..j + 1][..j] == slots[..j];
  }

  lemma TeacherExclusivitySnoc(slots: seq<int>, teachers: seq<int>, i: nat, courses: seq<int>, rooms: seq<int>)
    requires i < |teachers|
    ensures TeacherExclusivity(slots, teachers[..i + 1], courses, rooms)
         == TeacherExclusivity(slots, teachers[..i], courses, rooms) + TeacherConstrs(teachers[i], slots, courses, rooms)
  {
    assert teachers[..i + 1][..i] == teachers[..i];
  }

  /** No teacher teaches two different active quadruples in the same slot. */
  ghost predicate TeacherExclusive(a: Assignment, slots: seq<int>, teachers: seq<int>, courses: seq<int>, rooms: seq<int>) {
    forall q1, q2 ::
      InTable(q1, slots, teachers, courses, rooms) && InTable(q2, slots, teachers, courses, rooms)
      && X(q1) in a && X(q2) in a && q1.slot == q2.slot && q1.teacher == q2.teacher
      ==> q1 == q2
  }

  method AddSingleTeacherSingleCourse(m: Model, slots: seq<int>, teachers: seq<int>, courses: seq<int>, rooms: seq<int>)
    modifies m`constrs
    ensures m.constrs == old(m.constrs) + TeacherExclusivity(slots, teachers, courses, rooms)
  {
    for i := 0 to |teachers|
      invariant m.constrs == old(m.constrs) + TeacherExclusivity(slots, teachers[..i], courses, rooms)
    {
      var t := teachers[i];
      ghost var done := m.constrs;
      for j := 0 to |slots|
        invariant m.constrs == done + TeacherConstrs(t, slots[..j], courses, rooms)
      {
        m.AddConstr(TeacherSlotConstr(t, slots[j], courses, rooms));
        TeacherConstrsSnoc(t, slots, j, courses, rooms);
        AppendAssoc(done, TeacherConstrs(t, slots[..j], courses, rooms), [TeacherSlotConstr(t, slots[j], courses, rooms)]);
      }
      assert slots[..|slots|] == slots;
      TeacherExclusivitySnoc(slots, teachers, i, courses, rooms);
      AppendAssoc(old(m.constrs), TeacherExclusivity(slots, teachers[..i], courses, rooms), TeacherConstrs(t, slots, courses, rooms));
    }
    assert teachers[..|teachers|] == teachers;
  }

  lemma TeacherSlotMeaning(a: Assignment, t: int, s: int, courses: seq<int>, rooms: seq<int>)
    requires Distinct(courses) && Distinct(rooms)
    ensures Holds(TeacherSlotConstr(t, s, courses, rooms), a)
        <==> (forall q1, q2 ::
                InTable(q1, [s], [t], courses, rooms) && InTable(q2, [s], [t], courses, rooms)
                && X(q1) in a && X(q2) in a
                ==> q1 == q2)
  {
    var qs := Table([s], [t], courses, rooms);
    TableDistinct([s], [t], courses, rooms);
    AtMostOneHolds("", qs, a);
    forall q ensures q in qs <==> InTable(q, [s], [t], courses, rooms) {
      TableMember(q, [s], [t], courses, rooms);
    }
  }

  lemma TeacherConstrsMeaning(a: Assignment, t: int, slots: seq<int>, courses: seq<int>, rooms: seq<int>)
    ensures AllHold(TeacherConstrs(t, slots, courses, rooms), a)
        <==> forall s :: s in slots ==> Holds(TeacherSlotConstr(t, s, courses, rooms), a)
  {
    AllHoldFlatMap(slots, s => [TeacherSlotConstr(t, s, courses, rooms)], a);
    forall s | s in slots
      ensures AllHold([TeacherSlotConstr(t, s, courses, rooms)], a) <==> Holds(TeacherSlotConstr(t, s, courses, rooms), a)
    {
      AllHoldSingle(TeacherSlotConstr(t, s, courses, rooms), a);
    }
  }

  lemma TeacherExclusivitySound(a: Assignment, slots: seq<int>, teachers: seq<int>, courses: seq<int>, rooms: seq<int>)
    requires Distinct(courses) && Distinct(rooms)
    requires AllHold(TeacherExclusivity(slots, teachers, courses, rooms), a)
    ensures TeacherExclusive(a, slots, teachers, courses, rooms)
  {
    AllHoldFlatMap(teachers, t => TeacherConstrs(t, slots, courses, rooms), a);
    forall q1, q2 |
      InTable(q1, slots, teachers, courses, rooms) && InTable(q2, slots, teachers, courses, rooms)
      && X(q1) in a && X(q2) in a && q1.slot == q2.slot && q1.teacher == q2.teacher
      ensures q1 == q2
    {
      var t, s := q1.teacher, q1.slot;
      assert AllHold(TeacherConstrs(t, slots, courses, rooms), a);
      TeacherConstrsMeaning(a, t, slots, courses, rooms);
      assert Holds(TeacherSlotConstr(t, s, courses, rooms), a);
      TeacherSlotMeaning(a, t, s, courses, rooms);
      assert InTable(q1, [s], [t], courses, rooms) && InTable(q2, [s], [t], courses, rooms);
    }
  }

  lemma TeacherExclusivityComplete(a: Assignment, slots: seq<int>, teachers: seq<int>, courses: seq<int>, rooms: seq<int>)
    requires Distinct(courses) && Distinct(rooms)
    requires TeacherExclusive(a, slots, teachers, courses, rooms)
    ensures AllHold(TeacherExclusivity(slots, teachers, courses, rooms), a)
  {
    forall t | t in teachers ensures AllHold(TeacherConstrs(t, slots, courses, rooms), a) {
      forall s | s in slots ensures Holds(TeacherSlotConstr(t, s, courses, rooms), a) {
        TeacherSlotMeaning(a, t, s, courses, rooms);
      }
      TeacherConstrsMeaning(a, t, slots, courses, rooms);
    }
    AllHoldFlatMap(teachers, t => TeacherConstrs(t, slots, courses, rooms), a);
  }

  /** Where the compiled teacher constraints hold, each (teacher, slot) of the
      table has a sum of at most one. */
  lemma TeacherExclusivityHolds(a: Assignment, t: int, s: int, slots: seq<int>, teachers: seq<int>, courses: seq<int>, rooms: seq<int>)
    requires t in teachers && s in slots
    requires AllHold(TeacherExclusivity(slots, teachers, courses, rooms), a)
    ensures Eval(UnitTerms(Table([s], [t], courses, rooms)), a) <= 1.0
  {
    AllHoldFlatMap(teachers, t => TeacherConstrs(t, slots, courses, rooms), a);
    assert AllHold(TeacherConstrs(t, slots, courses, rooms), a);
    TeacherConstrsMeaning(a, t, slots, courses, rooms);
    assert Holds(TeacherSlotConstr(t, s, courses, rooms), a);
  }

  /** With duplicate-free course and room lists, an assignment satisfies the
      teacher constraints exactly when no teacher teaches twice in a slot. */
  lemma TeacherExclusivityMeaning(a: Assignment, slots: seq<int>, teachers: seq<int>, courses: seq<int>, rooms: seq<int>)
    requires Distinct(courses) && Distinct(rooms)
    ensures AllHold(TeacherExclusivity(slots, teachers, courses, rooms), a) <==> TeacherExclusive(a, slots, teachers, courses, rooms)
  {
    if AllHold(TeacherExclusivity(slots, teachers, courses, rooms), a) {
      TeacherExclusivitySound(a, slots, teachers, courses, rooms);
    }
    if TeacherExclusive(a, slots, teachers, courses, rooms) {
      TeacherExclusivityComplete(a, slots, teachers, courses, rooms);
    }
  }

  // ---------------------------------------------------------------------
  // Semester non-overlap
  // ---------------------------------------------------------------------

  /** Course `c` is tagged with semester `sem`. */
  predicate InSemester(sem: string, c: int, courseById: map<int, Course>) {
    c in courseById && sem in courseById[c].semester
  }

  /** `[c for c in courses if sem in course_by_id[c].semester]` */
  function CoursesInSemester(sem: string, courses: seq<int>, courseById: map<int, Course>): (r: seq<int>)
    ensures forall c :: c in r <==> c in courses && InSemester(sem, c, courseById)
  {
    if courses == [] then []
    else
      var c := courses[|courses| - 1];
      assert courses == courses[..|courses| - 1] + [c];
      CoursesInSemester(sem, courses[..|courses| - 1], courseById) + (if InSemester(sem, c, courseById) then [c] else [])
  }

  lemma {:induction false} CoursesInSemesterDistinct(sem: string, courses: seq<int>, courseById: map<int, Course>)
    requires Distinct(courses)
    ensures Distinct(CoursesInSemester(sem, courses, courseById))
  {
    if courses != [] {
      var init := courses[..|courses| - 1];
      var c := courses[|courses| - 1];
      CoursesInSemesterDistinct(sem, init, courseById);
      assert c !in init;
      DistinctConcat(CoursesInSemester(sem, init, courseById), if InSemester(sem, c, courseById) then [c] else []);
    }
  }

  /** The quadruples of one slot in the order course, teacher, room. */
  function CourseQuads(s: int, c: int, teachers: seq<int>, rooms: seq<int>): seq<Quad> {
    FlatMap(teachers, t => CourseBlock(s, t, c, rooms))
  }

  function SemesterQuads(s: int, semCourses: seq<int>, teachers: seq<int>, rooms: seq<int>): seq<Quad> {
    FlatMap(semCourses, c => CourseQuads(s, c, teachers, rooms))
  }

  lemma CourseQuadsMember(q: Quad, s: int, c: int, teachers: seq<int>, rooms: seq<int>)
    ensures q in CourseQuads(s, c, teachers, rooms) <==> q.slot == s && q.course == c && q.teacher in teachers && q.room in rooms
  {
    FlatMapMember(teachers, t => CourseBlock(s, t, c, rooms), q);
    forall t ensures q in CourseBlock(s, t, c, rooms) <==> q.slot == s && q.teacher == t && q.course == c && q.room in rooms {
      CourseBlockMember(q, s, t, c, rooms);
    }
  }

  lemma SemesterQuadsMember(q: Quad, s: int, semCourses: seq<int>, teachers: seq<int>, rooms: seq<int>)
    ensures q in SemesterQuads(s, semCourses, teachers, rooms)
        <==> q.slot == s && q.course in semCourses && q.teacher in teachers && q.room in rooms
  {
    FlatMapMember(semCourses, c => CourseQuads(s, c, teachers, rooms), q);
    forall c ensures q in CourseQuads(s, c, teachers, rooms) <==> q.slot == s && q.course == c && q.teacher in teachers && q.room in rooms {
      CourseQuadsMember(q, s, c, teachers, rooms);
    }
  }

  lemma SemesterQuadsDistinct(s: int, semCourses: seq<int>, teachers: seq<int>, rooms: seq<int>)
    requires Distinct(semCourses) && Distinct(teachers) && Distinct(rooms)
    ensures Distinct(SemesterQuads(s, semCourses, teachers, rooms))
  {
    forall c | c in semCourses ensures Distinct(CourseQuads(s, c, teachers, rooms)) {
      var g := t => CourseBlock(s, t, c, rooms);
      forall t | t in teachers ensures Distinct(g(t)) {
        CourseBlockDistinct(s, t, c, rooms);
      }
      forall x, y, u | x in teachers && y in teachers && x != y && u in g(x) ensures u !in g(y) {
        CourseBlockMember(u, s, x, c, rooms);
        CourseBlockMember(u, s, y, c, rooms);
      }
      FlatMapDistinct(teachers, g);
    }
    var f := c => CourseQuads(s, c, teachers, rooms);
    forall x, y, u | x in semCourses && y in semCourses && x != y && u in f(x) ensures u !in f(y) {
      CourseQuadsMember(u, s, x, teachers, rooms);
      CourseQuadsMember(u, s, y, teachers, rooms);
    }
    FlatMapDistinct(semCourses, f);
  }

  /** `quicksum(x[slot, t, c, r] for c in courses_in_sem for t in teachers for r in rooms) <= 1` */
  function SemesterSlotConstr(s: int, semCourses: seq<int>, teachers: seq<int>, rooms: seq<int>): Constr {
    AtMostOne("", SemesterQuads(s, semCourses, teachers, rooms))
  }

  function SemesterSlots(semCourses: seq<int>, slots: seq<int>, teachers: seq<int>, rooms: seq<int>): seq<Constr> {
    FlatMap(slots, s => [SemesterSlotConstr(s, semCourses, teachers, rooms)])
  }

  function SemesterConstrs(sem: string, courseById: map<int, Course>, slots: seq<int>, teachers: seq<int>, courses: seq<int>, rooms: seq<int>): seq<Constr> {
    SemesterSlots(CoursesInSemester(sem, courses, courseById), slots, teachers, rooms)
  }

  /** The constraints of `add_no_semester_overlapping_constr`, semester by
      semester and within a semester slot by slot. */
  function SemesterFamily(semesters: seq<string>, courseById: map<int, Course>, slots: seq<int>, teachers: seq<int>, courses: seq<int>, rooms: seq<int>): seq<Constr> {
    FlatMap(semesters, sem => SemesterConstrs(sem, courseById, slots, teachers, courses, rooms))
  }

  lemma SemesterSlotsSnoc(semCourses: seq<int>, slots: seq<int>, j: nat, teachers: seq<int>, rooms: seq<int>)
    requires j < |slots|
    ensures SemesterSlots(semCourses, slots[..j + 1], teachers, rooms)
         == SemesterSlots(semCourses, slots[..j], teachers, rooms) + [SemesterSlotConstr(slots[j], semCourses, teachers, rooms)]
  {
    assert slots[..j + 1][..j] == slots[..j];
  }

  lemma SemesterFamilySnoc(semesters: seq<string>, i: nat, courseById: map<int, Course>, slots: seq<int>, teachers: seq<int>, courses: seq<int>, rooms: seq<int>)
    requires i < |semesters|
    ensures SemesterFamily(semesters[..i + 1], courseById, slots, teachers, courses, rooms)
         == SemesterFamily(semesters[..i], courseById, slots, teachers, courses, rooms)
            + SemesterConstrs(semesters[i], courseById, slots, teachers, courses, rooms)
  {
    assert semesters[..i + 1][..i] == semesters[..i];
  }

  /** Within one slot, courses that share a listed semester never run
      together: a course tagged with two semesters is held apart from the
      courses of both. */
  ghost predicate SemestersDoNotOverlap(a: Assignment, semesters: seq<string>, courseById: map<int, Course>,
                                        slots: seq<int>, teachers: seq<int>, courses: seq<int>, rooms: seq<int>) {
    forall sem, q1, q2 ::
      sem in semesters
      && InTable(q1, slots, teachers, courses, rooms) && InTable(q2, slots, teachers, courses, rooms)
      && X(q1) in a && X(q2) in a && q1.slot == q2.slot
      && InSemester(sem, q1.course, courseById) && InSemester(sem, q2.course, courseById)
      ==> q1 == q2
  }

  method AddNoSemesterOverlapping(m: Model, semesters: seq<string>, courseById: map<int, Course>,
                                  slots: seq<int>, teachers: seq<int>, courses: seq<int>, rooms: seq<int>)
    requires |semesters| > 0 ==> forall c :: c in courses ==> c in courseById
    modifies m`constrs
    ensures m.constrs == old(m.constrs) + SemesterFamily(semesters, courseById, slots, teachers, courses, rooms)
  {
    for i := 0 to |semesters|
      invariant m.constrs == old(m.constrs) + SemesterFamily(semesters[..i], courseById, slots, teachers, courses, rooms)
    {
      var semCourses := CoursesInSemester(semesters[i], courses, courseById);
      ghost var done := m.constrs;
      for j := 0 to |slots|
        invariant m.constrs == done + SemesterSlots(semCourses, slots[..j], teachers, rooms)
      {
        m.AddConstr(SemesterSlotConstr(slots[j], semCourses, teachers, rooms));
        SemesterSlotsSnoc(semCourses, slots, j, teachers, rooms);
        AppendAssoc(done, SemesterSlots(semCourses, slots[..j], teachers, rooms), [SemesterSlotConstr(slots[j], semCourses, teachers, rooms)]);
      }
      assert slots[..|slots|] == slots;
      SemesterFamilySnoc(semesters, i, courseById, slots, teachers, courses, rooms);
      AppendAssoc(old(m.constrs), SemesterFamily(semesters[..i], courseById, slots, teachers, courses, rooms),
                  SemesterConstrs(semesters[i], courseById, slots, teachers, courses, rooms));
    }
    assert semesters[..|semesters|] == semesters;
  }

  lemma SemesterSlotMeaning(a: Assignment, s: int, sem: string, courseById: map<int, Course>,
                            teachers: seq<int>, courses: seq<int>, rooms: seq<int>)
    requires Distinct(teachers) && Distinct(courses) && Distinct(rooms)
    ensures Holds(SemesterSlotConstr(s, CoursesInSemester(sem, courses, courseById), teachers, rooms), a)
        <==> (forall q1: Quad, q2: Quad ::
                q1.slot == s && q2.slot == s
                && q1.course in courses && q2.course in courses
                && InSemester(sem, q1.course, courseById) && InSemester(sem, q2.course, courseById)
                && q1.teacher in teachers && q2.teacher in teachers && q1.room in rooms && q2.room in rooms
                && X(q1) in a && X(q2) in a
                ==> q1 == q2)
  {
    var semCourses := CoursesInSemester(sem, courses, courseById);
    CoursesInSemesterDistinct(sem, courses, courseById);
    var qs := SemesterQuads(s, semCourses, teachers, rooms);
    SemesterQuadsDistinct(s, semCourses, teachers, rooms);
    AtMostOneHolds("", qs, a);
    forall q ensures q in qs <==> q.slot == s && q.course in semCourses && q.teacher in teachers && q.room in rooms {
      SemesterQuadsMember(q, s, semCourses, teachers, rooms);
    }
  }

  lemma SemesterConstrsMeaning(a: Assignment, sem: string, courseById: map<int, Course>,
                               slots: seq<int>, teachers: seq<int>, courses: seq<int>, rooms: seq<int>)
    ensures AllHold(SemesterConstrs(sem, courseById, slots, teachers, courses, rooms), a)
        <==> forall s :: s in slots ==> Holds(SemesterSlotConstr(s, CoursesInSemester(sem, courses, courseById), teachers, rooms), a)
  {
    var semCourses := CoursesInSemester(sem, courses, courseById);
    AllHoldFlatMap(slots, s => [SemesterSlotConstr(s, semCourses, teachers, rooms)], a);
    forall s | s in slots
      ensures AllHold([SemesterSlotConstr(s, semCourses, teachers, rooms)], a) <==> Holds(SemesterSlotConstr(s, semCourses, teachers, rooms), a)
    {
      AllHoldSingle(SemesterSlotConstr(s, semCourses, teachers, rooms), a);
    }
  }

  lemma SemesterFamilySound(a: Assignment, semesters: seq<string>, courseById: map<int, Course>,
                            slots: seq<int>, teachers: seq<int>, courses: seq<int>, rooms: seq<int>)
    requires Distinct(teachers) && Distinct(courses) && Distinct(rooms)
    requires AllHold(SemesterFamily(semesters, courseById, slots, teachers, courses, rooms), a)
    ensures SemestersDoNotOverlap(a, semesters, courseById, slots, teachers, courses, rooms)
  {
    AllHoldFlatMap(semesters, sem => SemesterConstrs(sem, courseById, slots, teachers, courses, rooms), a);
    forall sem, q1, q2 |
      sem in semesters
      && InTable(q1, slots, teachers, courses, rooms) && InTable(q2, slots, teachers, courses, rooms)
      && X(q1) in a && X(q2) in a && q1.slot == q2.slot
      && InSemester(sem, q1.course, courseById) && InSemester(sem, q2.course, courseById)
      ensures q1 == q2
    {
      assert AllHold(SemesterConstrs(sem, courseById, slots, teachers, courses, rooms), a);
      SemesterConstrsMeaning(a, sem, courseById, slots, teachers, courses, rooms);
      assert Holds(SemesterSlotConstr(q1.slot, CoursesInSemester(sem, courses, courseById), teachers, rooms), a);
      SemesterSlotMeaning(a, q1.slot, sem, courseById, teachers, courses, rooms);
    }
  }

  lemma SemesterFamilyComplete(a: Assignment, semesters: seq<string>, courseById: map<int, Course>,
                               slots: seq<int>, teachers: seq<int>, courses: seq<int>, rooms: seq<int>)
    requires Distinct(teachers) && Distinct(courses) && Distinct(rooms)
    requires SemestersDoNotOverlap(a, semesters, courseById, slots, teachers, courses, rooms)
    ensures AllHold(SemesterFamily(semesters, courseById, slots, teachers, courses, rooms), a)
  {
    forall sem | sem in semesters ensures AllHold(SemesterConstrs(sem, courseById, slots, teachers, courses, rooms), a) {
      forall s | s in slots ensures Holds(SemesterSlotConstr(s, CoursesInSemester(sem, courses, courseById), teachers, rooms), a) {
        SemesterSlotMeaning(a, s, sem, courseById, teachers, courses, rooms);
      }
      SemesterConstrsMeaning(a, sem, courseById, slots, teachers, courses, rooms);
    }
    AllHoldFlatMap(semesters, sem => SemesterConstrs(sem, courseById, slots, teachers, courses, rooms), a);
  }

  /** With duplicate-free id lists, an assignment satisfies the semester
      constraints exactly when no two courses of a common semester run in the
      same slot. */
  lemma SemesterFamilyMeaning(a: Assignment, semesters: seq<string>, courseById: map<int, Course>,
                              slots: seq<int>, teachers: seq<int>, courses: seq<int>, rooms: seq<int>)
    requires Distinct(teachers) && Distinct(courses) && Distinct(rooms)
    ensures AllHold(SemesterFamily(semesters, courseById, slots, teachers, courses, rooms), a)
        <==> SemestersDoNotOverlap(a, semesters, courseById, slots, teachers, courses, rooms)
  {
    if AllHold(SemesterFamily(semesters, courseById, slots, teachers, courses, rooms), a) {
      SemesterFamilySound(a, semesters, courseById, slots, teachers, courses, rooms);
    }
    if SemestersDoNotOverlap(a, semesters, courseById, slots, teachers, courses, rooms) {
      SemesterFamilyComplete(a, semesters, courseById, slots, teachers, courses, rooms);
    }
  }

  // ---------------------------------------------------------------------
  // Teacher hard-unavailable slots
  // ---------------------------------------------------------------------

  /** `quicksum(x[slot, t, c, r] for c in courses for r in rooms) == 0` */
  function HardTimeConstr(slot: int, t: int, courses: seq<int>, rooms: seq<int>): Constr {
    NoneActive("", Table([slot], [t], courses, rooms))
  }

  function HardTimeSlots(t: int, hardSlots: seq<int>, courses: seq<int>, rooms: seq<int>): seq<Constr> {
    FlatMap(hardSlots, slot => [HardTimeConstr(slot, t, courses, rooms)])
  }

  function HardTimeTeacher(t: int, teacherById: map<int, Teacher>, courses: seq<int>, rooms: seq<int>): seq<Constr> {
    if t in teacherById then HardTimeSlots(t, teacherById[t].hardTimeConstr, courses, rooms) else []
  }

  /** The constraints of `add_teacher_hard_time_constraints`, teacher by
      teacher and within a teacher in the order of `hard_time_constr`. */
  function HardTimeFamily(teachers: seq<int>, teacherById: map<int, Teacher>, courses: seq<int>, rooms: seq<int>): seq<Constr> {
    FlatMap(teachers, t => HardTimeTeacher(t, teacherById, courses, rooms))
  }

  lemma HardTimeSlotsSnoc(t: int, hardSlots: seq<int>, j: nat, courses: seq<int>, rooms: seq<int>)
    requires j < |hardSlots|
    ensures HardTimeSlots(t, hardSlots[..j + 1], courses, rooms)
         == HardTimeSlots(t, hardSlots[..j], courses, rooms) + [HardTimeConstr(hardSlots[j], t, courses, rooms)]
  {
    assert hardSlots[..j + 1][..j] == hardSlots[..j];
  }

  lemma HardTimeFamilySnoc(teachers: seq<int>, i: nat, teacherById: map<int, Teacher>, courses: seq<int>, rooms: seq<int>)
    requires i < |teachers|
    ensures HardTimeFamily(teachers[..i + 1], teacherById, courses, rooms)
         == HardTimeFamily(teachers[..i], teacherById, courses, rooms) + HardTimeTeacher(teachers[i], teacherById, courses, rooms)
  {
    assert teachers[..i + 1][..i] == teachers[..i];
  }

  /** No teacher has an active quadruple in a slot of its `hard_time_constr`. */
  ghost predicate HardTimesRespected(a: Assignment, teachers: seq<int>, teacherById: map<int, Teacher>, courses: seq<int>, rooms: seq<int>) {
    forall q: Quad ::
      q.teacher in teachers && q.teacher in teacherById && q.slot in teacherById[q.teacher].hardTimeConstr
      && q.course in courses && q.room in rooms
      ==> X(q) !in a
  }

  /** `add_teacher_hard_time_constraints`. `slots` are the slots `x` was
      created over: a listed slot outside them is no key of `x`, and the sum
      raises `KeyError` as soon as it indexes `x`, which it does when there
      is a course and a room. */
  method AddTeacherHardTime(m: Model, slots: seq<int>, teachers: seq<int>, teacherById: map<int, Teacher>, courses: seq<int>, rooms: seq<int>)
    requires forall t :: t in teachers ==> t in teacherById
    requires courses != [] && rooms != [] ==>
      forall t, slot :: t in teachers && slot in teacherById[t].hardTimeConstr ==> slot in slots
    modifies m`constrs
    ensures m.constrs == old(m.constrs) + HardTimeFamily(teachers, teacherById, courses, rooms)
  {
    for i := 0 to |teachers|
      invariant m.constrs == old(m.constrs) + HardTimeFamily(teachers[..i], teacherById, courses, rooms)
    {
      var t := teachers[i];
      var hardSlots := teacherById[t].hardTimeConstr;
      ghost var done := m.constrs;
      for j := 0 to |hardSlots|
        invariant m.constrs == done + HardTimeSlots(t, hardSlots[..j], courses, rooms)
      {
        m.AddConstr(HardTimeConstr(hardSlots[j], t, courses, rooms));
        HardTimeSlotsSnoc(t, hardSlots, j, courses, rooms);
        AppendAssoc(done, HardTimeSlots(t, hardSlots[..j], courses, rooms), [HardTimeConstr(hardSlots[j], t, courses, rooms)]);
      }
      assert hardSlots[..|hardSlots|] == hardSlots;
      HardTimeFamilySnoc(teachers, i, teacherById, courses, rooms);
      AppendAssoc(old(m.constrs), HardTimeFamily(teachers[..i], teacherById, courses, rooms), HardTimeTeacher(t, teacherById, courses, rooms));
    }
    assert teachers[..|teachers|] == teachers;
  }

  /** Under the precondition of `AddTeacherHardTime`, every term of the
      hard-time family is a quadruple variable over `slots`: a key of `x`. */
  lemma HardTimeIndexesVariables(slots: seq<int>, teachers: seq<int>, teacherById: map<int, Teacher>,
                                 courses: seq<int>, rooms: seq<int>, c: Constr, tm: Term)
    requires forall t :: t in teachers ==> t in teacherById
    requires courses != [] && rooms != [] ==>
      forall t, slot :: t in teachers && slot in teacherById[t].hardTimeConstr ==> slot in slots
    requires c in HardTimeFamily(teachers, teacherById, courses, rooms) && tm in c.lhs
    ensures tm.v.X? && InTable(tm.v.q, slots, teachers, courses, rooms)
  {
    FlatMapMember(teachers, t => HardTimeTeacher(t, teacherById, courses, rooms), c);
    var t :| t in teachers && c in HardTimeTeacher(t, teacherById, courses, rooms);
    var hardSlots := teacherById[t].hardTimeConstr;
    FlatMapMember(hardSlots, slot => [HardTimeConstr(slot, t, courses, rooms)], c);
    var slot :| slot in hardSlots && c in [HardTimeConstr(slot, t, courses, rooms)];
    var qs := Table([slot], [t], courses, rooms);
    var i :| 0 <= i < |qs| && c.lhs[i] == tm;
    TableMember(qs[i], [slot], [t], courses, rooms);
  }

  lemma HardTimeConstrMeaning(a: Assignment, slot: int, t: int, courses: seq<int>, rooms: seq<int>)
    ensures Holds(HardTimeConstr(slot, t, courses, rooms), a)
        <==> forall q: Quad :: q.slot == slot && q.teacher == t && q.course in courses && q.room in rooms ==> X(q) !in a
  {
    var qs := Table([slot], [t], courses, rooms);
    NoneActiveHolds("", qs, a);
    forall q ensures q in qs <==> InTable(q, [slot], [t], courses, rooms) {
      TableMember(q, [slot], [t], courses, rooms);
    }
  }

  lemma HardTimeTeacherMeaning(a: Assignment, t: int, teacherById: map<int, Teacher>, courses: seq<int>, rooms: seq<int>)
    ensures AllHold(HardTimeTeacher(t, teacherById, courses, rooms), a)
        <==> (t in teacherById ==> forall slot :: slot in teacherById[t].hardTimeConstr ==> Holds(HardTimeConstr(slot, t, courses, rooms), a))
  {
    if t in teacherById {
      var hardSlots := teacherById[t].hardTimeConstr;
      AllHoldFlatMap(hardSlots, slot => [HardTimeConstr(slot, t, courses, rooms)], a);
      forall slot | slot in hardSlots
        ensures AllHold([HardTimeConstr(slot, t, courses, rooms)], a) <==> Holds(HardTimeConstr(slot, t, courses, rooms), a)
      {
        AllHoldSingle(HardTimeConstr(slot, t, courses, rooms), a);
      }
    }
  }

  lemma HardTimeSound(a: Assignment, teachers: seq<int>, teacherById: map<int, Teacher>, courses: seq<int>, rooms: seq<int>)
    requires AllHold(HardTimeFamily(teachers, teacherById, courses, rooms), a)
    ensures HardTimesRespected(a, teachers, teacherById, courses, rooms)
  {
    AllHoldFlatMap(teachers, t => HardTimeTeacher(t, teacherById, courses, rooms), a);
    forall q: Quad |
      q.teacher in teachers && q.teacher in teacherById && q.slot in teacherById[q.teacher].hardTimeConstr
      && q.course in courses && q.room in rooms
      ensures X(q) !in a
    {
      assert AllHold(HardTimeTeacher(q.teacher, teacherById, courses, rooms), a);
      HardTimeTeacherMeaning(a, q.teacher, teacherById, courses, rooms);
      HardTimeConstrMeaning(a, q.slot, q.teacher, courses, rooms);
    }
  }

  lemma HardTimeComplete(a: Assignment, teachers: seq<int>, teacherById: map<int, Teacher>, courses: seq<int>, rooms: seq<int>)
    requires HardTimesRespected(a, teachers, teacherById, courses, rooms)
    ensures AllHold(HardTimeFamily(teachers, teacherById, courses, rooms), a)
  {
    forall t | t in teachers ensures AllHold(HardTimeTeacher(t, teacherById, courses, rooms), a) {
      if t in teacherById {
        forall slot | slot in teacherById[t].hardTimeConstr ensures Holds(HardTimeConstr(slot, t, courses, rooms), a) {
          HardTimeConstrMeaning(a, slot, t, courses, rooms);
        }
      }
      HardTimeTeacherMeaning(a, t, teacherById, courses, rooms);
    }
    AllHoldFlatMap(teachers, t => HardTimeTeacher(t, teacherById, courses, rooms), a);
  }

  /** An assignment satisfies the hard-time constraints exactly when no teacher
      is scheduled in one of its hard-unavailable slots. */
  lemma HardTimeMeaning(a: Assignment, teachers: seq<int>, teacherById: map<int, Teacher>, courses: seq<int>, rooms: seq<int>)
    ensures AllHold(HardTimeFamily(teachers, teacherById, courses, rooms), a)
        <==> HardTimesRespected(a, teachers, teacherById, courses, rooms)
  {
    if AllHold(HardTimeFamily(teachers, teacherById, courses, rooms), a) {
      HardTimeSound(a, teachers, teacherById, courses, rooms);
    }
    if HardTimesRespected(a, teachers, teacherById, courses, rooms) {
      HardTimeComplete(a, teachers, teacherById, courses, rooms);
    }
  }

  // ---------------------------------------------------------------------
  // Pinning single quadruples to zero (`m.addConstr(x[s, t, c, r] == 0)`)
  // ---------------------------------------------------------------------

  function Pin(q: Quad): Constr {
    NoneActive("", [q])
  }

  /** One pin per quadruple, in order. */
  function Pins(qs: seq<Quad>): (cs: seq<Constr>)
    ensures |cs| == |qs|
  {
    if qs == [] then [] else Pins(qs[..|qs| - 1]) + [Pin(qs[|qs| - 1])]
  }

  lemma {:induction false} PinsConcat(qs1: seq<Quad>, qs2: seq<Quad>)
    ensures Pins(qs1 + qs2) == Pins(qs1) + Pins(qs2)
    decreases |qs2|
  {
    if qs2 != [] {
      assert (qs1 + qs2)[..|qs1 + qs2| - 1] == qs1 + qs2[..|qs2| - 1];
      PinsConcat(qs1, qs2[..|qs2| - 1]);
    } else {
      assert qs1 + qs2 == qs1;
    }
  }

  lemma PinHolds(q: Quad, a: Assignment)
    ensures Holds(Pin(q), a) <==> X(q) !in a
  {
    NoneActiveHolds("", [q], a);
  }

  /** The pins of `qs` hold exactly when no quadruple of `qs` is active. */
  lemma {:induction false} PinsMeaning(qs: seq<Quad>, a: Assignment)
    ensures AllHold(Pins(qs), a) <==> forall q :: q in qs ==> X(q) !in a
  {
    if qs != [] {
      var init := qs[..|qs| - 1];
      var last := qs[|qs| - 1];
      PinsMeaning(init, a);
      AllHoldConcat(Pins(init), [Pin(last)], a);
      AllHoldSingle(Pin(last), a);
      PinHolds(last, a);
      assert qs == init + [last];
    }
  }

  // ---------------------------------------------------------------------
  // Room capacity
  // ---------------------------------------------------------------------

  /** `course.expected_num_students > room.capacity`: equal capacity is allowed. */
  predicate OverCapacity(c: int, r: int, courseById: map<int, Course>, roomById: map<int, Room>) {
    c in courseById && r in roomById && courseById[c].expectedNumStudents > roomById[r].capacity
  }

  function CapacityPair(c: int, r: int, slots: seq<int>, teachers: seq<int>,
                        courseById: map<int, Course>, roomById: map<int, Room>): seq<Constr> {
    if OverCapacity(c, r, courseById, roomById) then Pins(Table(slots, teachers, [c], [r])) else []
  }

  function CapacityCourse(c: int, rooms: seq<int>, slots: seq<int>, teachers: seq<int>,
                          courseById: map<int, Course>, roomById: map<int, Room>): seq<Constr> {
    FlatMap(rooms, r => CapacityPair(c, r, slots, teachers, courseById, roomById))
  }

  /** The constraints of `add_room_capacity_constr`: course by course, room by
      room, and for an over-full pair one pin per slot and teacher. */
  function CapacityFamily(courses: seq<int>, rooms: seq<int>, slots: seq<int>, teachers: seq<int>,
                          courseById: map<int, Course>, roomById: map<int, Room>): seq<Constr> {
    FlatMap(courses, c => CapacityCourse(c, rooms, slots, teachers, courseById, roomById))
  }

  lemma CapacityCourseSnoc(c: int, rooms: seq<int>, j: nat, slots: seq<int>, teachers: seq<int>,
                           courseById: map<int, Course>, roomById: map<int, Room>)
    requires j < |rooms|
    ensures CapacityCourse(c, rooms[..j + 1], slots, teachers, courseById, roomById)
         == CapacityCourse(c, rooms[..j], slots, teachers, courseById, roomById)
            + CapacityPair(c, rooms[j], slots, teachers, courseById, roomById)
  {
    assert rooms[..j + 1][..j] == rooms[..j];
  }

  lemma CapacityFamilySnoc(courses: seq<int>, i: nat, rooms: seq<int>, slots: seq<int>, teachers: seq<int>,
                           courseById: map<int, Course>, roomById: map<int, Room>)
    requires i < |courses|
    ensures CapacityFamily(courses[..i + 1], rooms, slots, teachers, courseById, roomById)
         == CapacityFamily(courses[..i], rooms, slots, teachers, courseById, roomById)
            + CapacityCourse(courses[i], rooms, slots, teachers, courseById, roomById)
  {
    assert courses[..i + 1][..i] == courses[..i];
  }

  /** No active quadruple puts a course into a room too small for it. */
  ghost predicate CapacityRespected(a: Assignment, slots: seq<int>, teachers: seq<int>, courses: seq<int>, rooms: seq<int>,
                                    courseById: map<int, Course>, roomById: map<int, Room>) {
    forall q :: InTable(q, slots, teachers, courses, rooms) && X(q) in a ==> !OverCapacity(q.course, q.room, courseById, roomById)
  }

  /** The pins of one over-full (course, room) pair, slot by slot and within a
      slot teacher by teacher. */
  method AddCapacityPins(m: Model, c: int, r: int, slots: seq<int>, teachers: seq<int>)
    modifies m`constrs
    ensures m.constrs == old(m.constrs) + Pins(Table(slots, teachers, [c], [r]))
  {
    for k := 0 to |slots|
      invariant m.constrs == old(m.constrs) + Pins(Table(slots[..k], teachers, [c], [r]))
    {
      var s := slots[k];
      ghost var done := m.constrs;
      for l := 0 to |teachers|
        invariant m.constrs == done + Pins(SlotBlock(s, teachers[..l], [c], [r]))
      {
        m.AddConstr(Pin(Quad(s, teachers[l], c, r)));
        SlotBlockSnoc(s, teachers, l, [c], [r]);
        TeacherBlockSingle(s, teachers[l], c, r);
        PinsConcat(SlotBlock(s, teachers[..l], [c], [r]), [Quad(s, teachers[l], c, r)]);
        assert Pins([Quad(s, teachers[l], c, r)]) == [Pin(Quad(s, teachers[l], c, r))];
        AppendAssoc(done, Pins(SlotBlock(s, teachers[..l], [c], [r])), [Pin(Quad(s, teachers[l], c, r))]);
      }
      assert teachers[..|teachers|] == teachers;
      TableSnoc(slots, k, teachers, [c], [r]);
      PinsConcat(Table(slots[..k], teachers, [c], [r]), SlotBlock(s, teachers, [c], [r]));
      AppendAssoc(old(m.constrs), Pins(Table(slots[..k], teachers, [c], [r])), Pins(SlotBlock(s, teachers, [c], [r])));
    }
    assert slots[..|slots|] == slots;
  }

  method AddRoomCapacity(m: Model, courses: seq<int>, rooms: seq<int>, courseById: map<int, Course>, roomById: map<int, Room>,
                         slots: seq<int>, teachers: seq<int>)
    requires forall c :: c in courses ==> c in courseById
    requires |courses| > 0 ==> forall r :: r in rooms ==> r in roomById
    modifies m`constrs
    ensures m.constrs == old(m.constrs) + CapacityFamily(courses, rooms, slots, teachers, courseById, roomById)
  {
    for i := 0 to |courses|
      invariant m.constrs == old(m.constrs) + CapacityFamily(courses[..i], rooms, slots, teachers, courseById, roomById)
    {
      var c := courses[i];
      var course := courseById[c];
      ghost var done := m.constrs;
      for j := 0 to |rooms|
        invariant m.constrs == done + CapacityCourse(c, rooms[..j], slots, teachers, courseById, roomById)
      {
        var r := rooms[j];
        var room := roomById[r];
        ghost var before := m.constrs;
        if course.expectedNumStudents > room.capacity {
          AddCapacityPins(m, c, r, slots, teachers);
        }
        assert m.constrs == before + CapacityPair(c, r, slots, teachers, courseById, roomById);
        CapacityCourseSnoc(c, rooms, j, slots, teachers, courseById, roomById);
        AppendAssoc(done, CapacityCourse(c, rooms[..j], slots, teachers, courseById, roomById), CapacityPair(c, r, slots, teachers, courseById, roomById));
      }
      assert rooms[..|rooms|] == rooms;
      CapacityFamilySnoc(courses, i, rooms, slots, teachers, courseById, roomById);
      AppendAssoc(old(m.constrs), CapacityFamily(courses[..i], rooms, slots, teachers, courseById, roomById),
                  CapacityCourse(c, rooms, slots, teachers, courseById, roomById));
    }
    assert courses[..|courses|] == courses;
  }

  lemma CapacityPairMeaning(a: Assignment, c: int, r: int, slots: seq<int>, teachers: seq<int>,
                            courseById: map<int, Course>, roomById: map<int, Room>)
    ensures AllHold(CapacityPair(c, r, slots, teachers, courseById, roomById), a)
        <==> (OverCapacity(c, r, courseById, roomById)
              ==> forall q :: InTable(q, slots, teachers, [c], [r]) ==> X(q) !in a)
  {
    if OverCapacity(c, r, courseById, roomById) {
      var qs := Table(slots, teachers, [c], [r]);
      PinsMeaning(qs, a);
      forall q ensures q in qs <==> InTable(q, slots, teachers, [c], [r]) {
        TableMember(q, slots, teachers, [c], [r]);
      }
    }
  }

  lemma CapacityCourseMeaning(a: Assignment, c: int, rooms: seq<int>, slots: seq<int>, teachers: seq<int>,
                              courseById: map<int, Course>, roomById: map<int, Room>)
    ensures AllHold(CapacityCourse(c, rooms, slots, teachers, courseById, roomById), a)
        <==> forall r :: r in rooms ==> AllHold(CapacityPair(c, r, slots, teachers, courseById, roomById), a)
  {
    AllHoldFlatMap(rooms, r => CapacityPair(c, r, slots, teachers, courseById, roomById), a);
  }

  lemma CapacitySound(a: Assignment, slots: seq<int>, teachers: seq<int>, courses: seq<int>, rooms: seq<int>,
                      courseById: map<int, Course>, roomById: map<int, Room>)
    requires AllHold(CapacityFamily(courses, rooms, slots, teachers, courseById, roomById), a)
    ensures CapacityRespected(a, slots, teachers, courses, rooms, courseById, roomById)
  {
    AllHoldFlatMap(courses, c => CapacityCourse(c, rooms, slots, teachers, courseById, roomById), a);
    forall q | InTable(q, slots, teachers, courses, rooms) && X(q) in a
      ensures !OverCapacity(q.course, q.room, courseById, roomById)
    {
      assert AllHold(CapacityCourse(q.course, rooms, slots, teachers, courseById, roomById), a);
      CapacityCourseMeaning(a, q.course, rooms, slots, teachers, courseById, roomById);
      CapacityPairMeaning(a, q.course, q.room, slots, teachers, courseById, roomById);
      assert InTable(q, slots, teachers, [q.course], [q.room]);
    }
  }

  lemma CapacityComplete(a: Assignment, slots: seq<int>, teachers: seq<int>, courses: seq<int>, rooms: seq<int>,
                         courseById: map<int, Course>, roomById: map<int, Room>)
    requires CapacityRespected(a, slots, teachers, courses, rooms, courseById, roomById)
    ensures AllHold(CapacityFamily(courses, rooms, slots, teachers, courseById, roomById), a)
  {
    forall c | c in courses ensures AllHold(CapacityCourse(c, rooms, slots, teachers, courseById, roomById), a) {
      forall r | r in rooms ensures AllHold(CapacityPair(c, r, slots, teachers, courseById, roomById), a) {
        CapacityPairMeaning(a, c, r, slots, teachers, courseById, roomById);
      }
      CapacityCourseMeaning(a, c, rooms, slots, teachers, courseById, roomById);
    }
    AllHoldFlatMap(courses, c => CapacityCourse(c, rooms, slots, teachers, courseById, roomById), a);
  }

  /** An assignment satisfies the capacity constraints exactly when no active
      quadruple seats more expected students than its room holds. */
  lemma CapacityMeaning(a: Assignment, slots: seq<int>, teachers: seq<int>, courses: seq<int>, rooms: seq<int>,
                        courseById: map<int, Course>, roomById: map<int, Room>)
    ensures AllHold(CapacityFamily(courses, rooms, slots, teachers, courseById, roomById), a)
        <==> CapacityRespected(a, slots, teachers, courses, rooms, courseById, roomById)
  {
    if AllHold(CapacityFamily(courses, rooms, slots, teachers, courseById, roomById), a) {
      CapacitySound(a, slots, teachers, courses, rooms, courseById, roomById);
    }
    if CapacityRespected(a, slots, teachers, courses, rooms, courseById, roomById) {
      CapacityComplete(a, slots, teachers, courses, rooms, courseById, roomById);
    }
  }

  // ---------------------------------------------------------------------
  // Room type
  // ---------------------------------------------------------------------

  /** `room_by_id[r].type not in set(course.facility_constr)`: plain list
      membership, with no room type standing in for another. */
  predicate WrongRoomType(c: int, r: int, courseById: map<int, Course>, roomById: map<int, Room>) {
    c in courseById && r in roomById && roomById[r].roomType !in courseById[c].facilityConstr
  }

  /** One pin per quadruple of `qs` whose room type the course does not allow. */
  function RoomTypePins(qs: seq<Quad>, courseById: map<int, Course>, roomById: map<int, Room>): seq<Constr> {
    if qs == [] then []
    else
      var q := qs[|qs| - 1];
      RoomTypePins(qs[..|qs| - 1], courseById, roomById)
      + (if WrongRoomType(q.course, q.room, courseById, roomById) then [Pin(q)] else [])
  }

  /** The constraints of `add_room_type_constraints`, in the table order slot,
      teacher, course, room. */
  function RoomTypeFamily(slots: seq<int>, teachers: seq<int>, courses: seq<int>, rooms: seq<int>,
                          courseById: map<int, Course>, roomById: map<int, Room>): seq<Constr> {
    RoomTypePins(Table(slots, teachers, courses, rooms), courseById, roomById)
  }

  lemma {:induction false} RoomTypePinsConcat(qs1: seq<Quad>, qs2: seq<Quad>, courseById: map<int, Course>, roomById: map<int, Room>)
    ensures RoomTypePins(qs1 + qs2, courseById, roomById) == RoomTypePins(qs1, courseById, roomById) + RoomTypePins(qs2, courseById, roomById)
    decreases |qs2|
  {
    if qs2 != [] {
      assert (qs1 + qs2)[..|qs1 + qs2| - 1] == qs1 + qs2[..|qs2| - 1];
      RoomTypePinsConcat(qs1, qs2[..|qs2| - 1], courseById, roomById);
    } else {
      assert qs1 + qs2 == qs1;
    }
  }

  /** The pins hold exactly when no quadruple of `qs` with a disallowed room
      type is active. */
  lemma {:induction false} RoomTypePinsMeaning(qs: seq<Quad>, courseById: map<int, Course>, roomById: map<int, Room>, a: Assignment)
    ensures AllHold(RoomTypePins(qs, courseById, roomById), a)
        <==> forall q :: q in qs && WrongRoomType(q.course, q.room, courseById, roomById) ==> X(q) !in a
  {
    if qs != [] {
      var init := qs[..|qs| - 1];
      var last := qs[|qs| - 1];
      RoomTypePinsMeaning(init, courseById, roomById, a);
      var tail := if WrongRoomType(last.course, last.room, courseById, roomById) then [Pin(last)] else [];
      AllHoldConcat(RoomTypePins(init, courseById, roomById), tail, a);
      AllHoldSingle(Pin(last), a);
      PinHolds(last, a);
      assert qs == init + [last];
    }
  }

  /** Active quadruples only use rooms whose type the course lists. */
  ghost predicate RoomTypesRespected(a: Assignment, slots: seq<int>, teachers: seq<int>, courses: seq<int>, rooms: seq<int>,
                                     courseById: map<int, Course>, roomById: map<int, Room>) {
    forall q :: InTable(q, slots, teachers, courses, rooms) && X(q) in a ==> !WrongRoomType(q.course, q.room, courseById, roomById)
  }

  method AddRoomType(m: Model, slots: seq<int>, teachers: seq<int>, courses: seq<int>, rooms: seq<int>,
                     courseById: map<int, Course>, roomById: map<int, Room>)
    requires |slots| > 0 && |teachers| > 0 ==> forall c :: c in courses ==> c in courseById
    requires |slots| > 0 && |teachers| > 0 && |courses| > 0 ==> forall r :: r in rooms ==> r in roomById
    modifies m`constrs
    ensures m.constrs == old(m.constrs) + RoomTypeFamily(slots, teachers, courses, rooms, courseById, roomById)
  {
    for i := 0 to |slots|
      invariant m.constrs == old(m.constrs) + RoomTypePins(Table(slots[..i], teachers, courses, rooms), courseById, roomById)
    {
      var s := slots[i];
      ghost var done := m.constrs;
      for j := 0 to |teachers|
        invariant m.constrs == done + RoomTypePins(SlotBlock(s, teachers[..j], courses, rooms), courseById, roomById)
      {
        var t := teachers[j];
        AddRoomTypeForTeacher(m, s, t, courses, rooms, courseById, roomById);
        SlotBlockSnoc(s, teachers, j, courses, rooms);
        RoomTypePinsConcat(SlotBlock(s, teachers[..j], courses, rooms), TeacherBlock(s, t, courses, rooms), courseById, roomById);
        AppendAssoc(done, RoomTypePins(SlotBlock(s, teachers[..j], courses, rooms), courseById, roomById),
                    RoomTypePins(TeacherBlock(s, t, courses, rooms), courseById, roomById));
      }
      assert teachers[..|teachers|] == teachers;
      TableSnoc(slots, i, teachers, courses, rooms);
      RoomTypePinsConcat(Table(slots[..i], teachers, courses, rooms), SlotBlock(s, teachers, courses, rooms), courseById, roomById);
      AppendAssoc(old(m.constrs), RoomTypePins(Table(slots[..i], teachers, courses, rooms), courseById, roomById),
                  RoomTypePins(SlotBlock(s, teachers, courses, rooms), courseById, roomById));
    }
    assert slots[..|slots|] == slots;
  }

  /** The two inner loops of `add_room_type_constraints`, for one slot and one
      teacher: course by course, room by room. */
  method AddRoomTypeForTeacher(m: Model, s: int, t: int, courses: seq<int>, rooms: seq<int>,
                               courseById: map<int, Course>, roomById: map<int, Room>)
    requires forall c :: c in courses ==> c in courseById
    requires |courses| > 0 ==> forall r :: r in rooms ==> r in roomById
    modifies m`constrs
    ensures m.constrs == old(m.constrs) + RoomTypePins(TeacherBlock(s, t, courses, rooms), courseById, roomById)
  {
    for k := 0 to |courses|
      invariant m.constrs == old(m.constrs) + RoomTypePins(TeacherBlock(s, t, courses[..k], rooms), courseById, roomById)
    {
      var c := courses[k];
      var allowedTypes := courseById[c].facilityConstr;
      ghost var done := m.constrs;
      for l := 0 to |rooms|
        invariant m.constrs == done + RoomTypePins(CourseBlock(s, t, c, rooms[..l]), courseById, roomById)
      {
        var r := rooms[l];
        var q := Quad(s, t, c, r);
        ghost var pins := RoomTypePins([q], courseById, roomById);
        assert [q][..0] == [];
        assert pins == if WrongRoomType(c, r, courseById, roomById) then [Pin(q)] else [];
        if roomById[r].roomType !in allowedTypes {
          m.AddConstr(Pin(q));
        }
        assert m.constrs == done + RoomTypePins(CourseBlock(s, t, c, rooms[..l]), courseById, roomById) + pins;
        CourseBlockSnoc(s, t, c, rooms, l);
        RoomTypePinsConcat(CourseBlock(s, t, c, rooms[..l]), [q], courseById, roomById);
        AppendAssoc(done, RoomTypePins(CourseBlock(s, t, c, rooms[..l]), courseById, roomById), RoomTypePins([q], courseById, roomById));
      }
      assert rooms[..|rooms|] == rooms;
      TeacherBlockSnoc(s, t, courses, k, rooms);
      RoomTypePinsConcat(TeacherBlock(s, t, courses[..k], rooms), CourseBlock(s, t, c, rooms), courseById, roomById);
      AppendAssoc(old(m.constrs), RoomTypePins(TeacherBlock(s, t, courses[..k], rooms), courseById, roomById),
                  RoomTypePins(CourseBlock(s, t, c, rooms), courseById, roomById));
    }
    assert courses[..|courses|] == courses;
  }

  /** An assignment satisfies the room-type constraints exactly when every
      active quadruple's room type is in its course's `facility_constr`. */
  lemma RoomTypeMeaning(a: Assignment, slots: seq<int>, teachers: seq<int>, courses: seq<int>, rooms: seq<int>,
                        courseById: map<int, Course>, roomById: map<int, Room>)
    ensures AllHold(RoomTypeFamily(slots, teachers, courses, rooms, courseById, roomById), a)
        <==> RoomTypesRespected(a, slots, teachers, courses, rooms, courseById, roomById)
  {
    var qs := Table(slots, teachers, courses, rooms);
    RoomTypePinsMeaning(qs, courseById, roomById, a);
    forall q ensures q in qs <==> InTable(q, slots, teachers, courses, rooms) {
      TableMember(q, slots, teachers, courses, rooms);
    }
  }

  /** A course whose `facility_constr` is empty can use no room at all. */
  lemma EmptyFacilitiesUseNoRoom(a: Assignment, slots: seq<int>, teachers: seq<int>, courses: seq<int>, rooms: seq<int>,
                                 courseById: map<int, Course>, roomById: map<int, Room>, q: Quad)
    requires AllHold(RoomTypeFamily(slots, teachers, courses, rooms, courseById, roomById), a)
    requires InTable(q, slots, teachers, courses, rooms) && q.course in courseById && q.room in roomById
    requires courseById[q.course].facilityConstr == []
    ensures X(q) !in a
  {
    RoomTypeMeaning(a, slots, teachers, courses, rooms, courseById, roomById);
  }

  // ---------------------------------------------------------------------
  // Course coverage
  // ---------------------------------------------------------------------

  /** `quicksum(x[s, t, c, r] for s in slots for t in teachers for r in rooms) >= 1` */
  function CoverConstr(c: int, slots: seq<int>, teachers: seq<int>, rooms: seq<int>): Constr {
    AtLeastOne("", Table(slots, teachers, [c], rooms))
  }

  /** The constraints of `add_all_courses_scheduled_constraint`, one per course. */
  function CoverageFamily(courses: seq<int>, teachers: seq<int>, rooms: seq<int>, slots: seq<int>): seq<Constr> {
    FlatMap(courses, c => [CoverConstr(c, slots, teachers, rooms)])
  }

  lemma CoverageFamilySnoc(courses: seq<int>, i: nat, teachers: seq<int>, rooms: seq<int>, slots: seq<int>)
    requires i < |courses|
    ensures CoverageFamily(courses[..i + 1], teachers, rooms, slots)
         == CoverageFamily(courses[..i], teachers, rooms, slots) + [CoverConstr(courses[i], slots, teachers, rooms)]
  {
    assert courses[..i + 1][..i] == courses[..i];
  }

  /** Every course has at least one active quadruple (possibly several). */
  ghost predicate AllCoursesCovered(a: Assignment, slots: seq<int>, teachers: seq<int>, courses: seq<int>, rooms: seq<int>) {
    forall c :: c in courses ==>
      exists q :: X(q) in a && q.course == c && q.slot in slots && q.teacher in teachers && q.room in rooms
  }

  method AddAllCoursesScheduled(m: Model, courses: seq<int>, teachers: seq<int>, rooms: seq<int>, slots: seq<int>)
    modifies m`constrs
    ensures m.constrs == old(m.constrs) + CoverageFamily(courses, teachers, rooms, slots)
  {
    for i := 0 to |courses|
      invariant m.constrs == old(m.constrs) + CoverageFamily(courses[..i], teachers, rooms, slots)
    {
      m.AddConstr(CoverConstr(courses[i], slots, teachers, rooms));
      CoverageFamilySnoc(courses, i, teachers, rooms, slots);
      AppendAssoc(old(m.constrs), CoverageFamily(courses[..i], teachers, rooms, slots), [CoverConstr(courses[i], slots, teachers, rooms)]);
    }
    assert courses[..|courses|] == courses;
  }

  lemma CoverConstrMeaning(a: Assignment, c: int, slots: seq<int>, teachers: seq<int>, rooms: seq<int>)
    ensures Holds(CoverConstr(c, slots, teachers, rooms), a)
        <==> exists q :: X(q) in a && q.course == c && q.slot in slots && q.teacher in teachers && q.room in rooms
  {
    var qs := Table(slots, teachers, [c], rooms);
    AtLeastOneHolds("", qs, a);
    forall q ensures q in qs <==> InTable(q, slots, teachers, [c], rooms) {
      TableMember(q, slots, teachers, [c], rooms);
    }
  }

  /** An assignment satisfies the coverage constraints exactly when every
      course is taught at least once. */
  lemma CoverageMeaning(a: Assignment, slots: seq<int>, teachers: seq<int>, courses: seq<int>, rooms: seq<int>)
    ensures AllHold(CoverageFamily(courses, teachers, rooms, slots), a) <==> AllCoursesCovered(a, slots, teachers, courses, rooms)
  {
    AllHoldFlatMap(courses, c => [CoverConstr(c, slots, teachers, rooms)], a);
    forall c | c in courses
      ensures AllHold([CoverConstr(c, slots, teachers, rooms)], a)
          <==> exists q :: X(q) in a && q.course == c && q.slot in slots && q.teacher in teachers && q.room in rooms
    {
      AllHoldSingle(CoverConstr(c, slots, teachers, rooms), a);
      CoverConstrMeaning(a, c, slots, teachers, rooms);
    }
  }

  /** Coverage asks for at least one meeting, not exactly one: a course held in
      two slots satisfies it. An instance of `CoverageMeaning`. */
  lemma CoverageAllowsRepeats()
    ensures AllHold(CoverageFamily([7], [1], [3], [1, 2]), {X(Quad(1, 1, 7, 3)), X(Quad(2, 1, 7, 3))})
  {
    var a := {X(Quad(1, 1, 7, 3)), X(Quad(2, 1, 7, 3))};
    CoverageMeaning(a, [1, 2], [1], [7], [3]);
    assert X(Quad(1, 1, 7, 3)) in a;
  }
}
