/** Deterministic helpers around a solved timetable: grouping courses by
    semester, choosing a semester to report on, counting the active
    quadruples and auditing how often each course was scheduled, and the
    split of the 31 slots into five days. Solver values are booleans: a
    quadruple is active when its variable is in the assignment. */
module ScheduleAudit {

  import opened Wrappers
  import opened Structures
  import opened LinearModel
  import opened Sequences
  import opened ListDict

  // ---------------------------------------------------------------------
  // build_courses_by_semester
  // ---------------------------------------------------------------------

  /** The inner loop `for sem in c.semester: d[sem].append(c.course_id)`. */
  function AddSemesters(idx: seq<Entry>, sems: seq<string>, id: int): seq<Entry> {
    if sems == [] then idx
    else AppendId(AddSemesters(idx, sems[..|sems| - 1], id), sems[|sems| - 1], id)
  }

  /** `build_courses_by_semester(courses)` */
  function CoursesBySemester(courses: seq<Course>): seq<Entry> {
    if courses == [] then []
    else
      var last := courses[|courses| - 1];
      AddSemesters(CoursesBySemester(courses[..|courses| - 1]), last.semester, last.courseId)
  }

  method BuildCoursesBySemester(courses: seq<Course>) returns (idx: seq<Entry>)
    ensures idx == CoursesBySemester(courses)
  {
    idx := [];
    for i := 0 to |courses|
      invariant idx == CoursesBySemester(courses[..i])
    {
      assert courses[..i + 1][..i] == courses[..i];
      var c := courses[i];
      ghost var before := idx;
      for j := 0 to |c.semester|
        invariant idx == AddSemesters(before, c.semester[..j], c.courseId)
      {
        assert c.semester[..j + 1][..j] == c.semester[..j];
        idx := AppendId(idx, c.semester[j], c.courseId);
      }
      assert c.semester[..|c.semester|] == c.semester;
    }
    assert courses[..|courses|] == courses;
  }

  /** `n` copies of `id`. */
  function Copies(id: int, n: nat): seq<int> {
    if n == 0 then [] else Copies(id, n - 1) + [id]
  }

  /** The reference list of a semester: each course id, in input order, once
      for every time the course lists the semester. */
  function IdsOf(courses: seq<Course>, sem: string): seq<int> {
    if courses == [] then []
    else
      var last := courses[|courses| - 1];
      IdsOf(courses[..|courses| - 1], sem) + Copies(last.courseId, multiset(last.semester)[sem])
  }

  /** The semesters some course lists. */
  predicate Listed(courses: seq<Course>, sem: string) {
    exists k :: 0 <= k < |courses| && sem in courses[k].semester
  }

  lemma {:induction false} AddSemestersLookup(idx: seq<Entry>, sems: seq<string>, id: int, other: string)
    ensures Lookup(AddSemesters(idx, sems, id), other) == Lookup(idx, other) + Copies(id, multiset(sems)[other])
  {
    if sems != [] {
      var init := sems[..|sems| - 1];
      var last := sems[|sems| - 1];
      AddSemestersLookup(idx, init, id, other);
      AppendIdLookup(AddSemesters(idx, init, id), last, id, other);
      assert sems == init + [last];
      assert multiset(sems)[other] == multiset(init)[other] + (if other == last then 1 else 0);
    }
  }

  lemma {:induction false} AddSemestersKeys(idx: seq<Entry>, sems: seq<string>, id: int, other: string)
    ensures other in Keys(AddSemesters(idx, sems, id)) <==> other in Keys(idx) || other in sems
  {
    if sems != [] {
      var init := sems[..|sems| - 1];
      var last := sems[|sems| - 1];
      AddSemestersKeys(idx, init, id, other);
      AppendIdKeys(AddSemesters(idx, init, id), last, id);
      assert sems == init + [last];
    }
  }

  lemma {:induction false} AddSemestersWellFormed(idx: seq<Entry>, sems: seq<string>, id: int)
    requires KeysDistinct(idx) && forall k :: 0 <= k < |idx| ==> idx[k].ids != []
    ensures KeysDistinct(AddSemesters(idx, sems, id))
    ensures forall k :: 0 <= k < |AddSemesters(idx, sems, id)| ==> AddSemesters(idx, sems, id)[k].ids != []
  {
    if sems != [] {
      var init := sems[..|sems| - 1];
      var mid := AddSemesters(idx, init, id);
      AddSemestersWellFormed(idx, init, id);
      AppendIdDistinct(mid, sems[|sems| - 1], id);
      AppendIdNonEmpty(mid, sems[|sems| - 1], id);
    }
  }

  /** Each semester lists, in input order, the ids of the courses tagged
      with it, once per tag; the keys are exactly the listed semesters, held
      once each, and no entry is empty. */
  lemma {:induction false} CoursesBySemesterLists(courses: seq<Course>, sem: string)
    ensures Lookup(CoursesBySemester(courses), sem) == IdsOf(courses, sem)
    ensures sem in Keys(CoursesBySemester(courses)) <==> Listed(courses, sem)
    ensures KeysDistinct(CoursesBySemester(courses))
    ensures forall k :: 0 <= k < |CoursesBySemester(courses)| ==> CoursesBySemester(courses)[k].ids != []
  {
    if courses != [] {
      var init := courses[..|courses| - 1];
      var last := courses[|courses| - 1];
      CoursesBySemesterLists(init, sem);
      AddSemestersLookup(CoursesBySemester(init), last.semester, last.courseId, sem);
      AddSemestersKeys(CoursesBySemester(init), last.semester, last.courseId, sem);
      AddSemestersWellFormed(CoursesBySemester(init), last.semester, last.courseId);
      assert forall k :: 0 <= k < |init| ==> courses[k] == init[k];
    }
  }

  // ---------------------------------------------------------------------
  // pick_existing_semester
  // ---------------------------------------------------------------------

  /** A Python string is truthy when it is present and non-empty. */
  predicate Truthy(s: Option<string>) {
    s.Some? && s.value != ""
  }

  /** The first key whose list is non-empty. */
  function FirstNonEmpty(idx: seq<Entry>): (r: Option<string>)
    ensures r.Some? <==> exists k :: 0 <= k < |idx| && idx[k].ids != []
    ensures r.Some? ==> exists k :: 0 <= k < |idx| && idx[k].ids != [] && idx[k].key == r.value
                                    && forall j :: 0 <= j < k ==> idx[j].ids == []
  {
    if idx == [] then None
    else if idx[0].ids != [] then Some(idx[0].key)
    else
      var r := FirstNonEmpty(idx[1..]);
      assert forall k :: 1 <= k < |idx| ==> idx[k] == idx[1..][k - 1];
      assert forall k :: 0 <= k < |idx[1..]| ==> idx[1..][k] == idx[k + 1];
      r
  }

  /** `pick_existing_semester(courses_by_sem, preferred)` */
  function PickExistingSemester(idx: seq<Entry>, preferred: Option<string>): string {
    if Truthy(preferred) && |Lookup(idx, preferred.value)| > 0 then preferred.value
    else match FirstNonEmpty(idx)
      case Some(sem) => sem
      case None =>
        if idx != [] then idx[0].key
        else if Truthy(preferred) then preferred.value
        else "UNKNOWN"
  }

  /** The chosen semester has courses whenever some semester has: the
      preferred one when it has courses, otherwise the first that has. */
  lemma PickedSemesterHasCourses(idx: seq<Entry>, preferred: Option<string>)
    requires KeysDistinct(idx)
    requires exists k :: 0 <= k < |idx| && idx[k].ids != []
    ensures Lookup(idx, PickExistingSemester(idx, preferred)) != []
    ensures Truthy(preferred) && Lookup(idx, preferred.value) != [] ==> PickExistingSemester(idx, preferred) == preferred.value
    ensures !(Truthy(preferred) && Lookup(idx, preferred.value) != []) ==>
      exists k :: 0 <= k < |idx| && idx[k].ids != [] && PickExistingSemester(idx, preferred) == idx[k].key
                  && forall j :: 0 <= j < k ==> idx[j].ids == []
  {
    if !(Truthy(preferred) && |Lookup(idx, preferred.value)| > 0) {
      var k :| 0 <= k < |idx| && idx[k].ids != [] && idx[k].key == FirstNonEmpty(idx).value
              && forall j :: 0 <= j < k ==> idx[j].ids == [];
      LookupAt(idx, k);
    }
  }

  /** With no semester holding courses, the first key is taken, and with no
      key at all the preferred value or "UNKNOWN". */
  lemma PickWithoutCourses(idx: seq<Entry>, preferred: Option<string>)
    requires forall k :: 0 <= k < |idx| ==> idx[k].ids == []
    ensures idx != [] ==> PickExistingSemester(idx, preferred) == idx[0].key
    ensures idx == [] ==> PickExistingSemester(idx, preferred) == if Truthy(preferred) then preferred.value else "UNKNOWN"
  {
    if Truthy(preferred) && |Lookup(idx, preferred.value)| > 0 {
      LookupEmpty(idx, preferred.value);
    }
  }

  /** Picking from the grouping of a course list in which some course lists
      a semester always yields a semester with courses. */
  lemma PickFromGrouping(courses: seq<Course>, preferred: Option<string>, sem: string)
    requires Listed(courses, sem)
    ensures IdsOf(courses, PickExistingSemester(CoursesBySemester(courses), preferred)) != []
  {
    var idx := CoursesBySemester(courses);
    CoursesBySemesterLists(courses, sem);
    var k :| 0 <= k < |idx| && idx[k].key == sem;
    PickedSemesterHasCourses(idx, preferred);
    CoursesBySemesterLists(courses, PickExistingSemester(idx, preferred));
  }

  // ---------------------------------------------------------------------
  // count_assignments
  // ---------------------------------------------------------------------

  /** `count_assignments(x, slots, teachers, courses, rooms)`: the number of
      positions of the variable table whose variable is 1. */
  function CountAssignments(a: Assignment, slots: seq<int>, teachers: seq<int>, courses: seq<int>, rooms: seq<int>): nat {
    CountActive(Table(slots, teachers, courses, rooms), a)
  }

  /** The active quadruples of the table. */
  ghost function ActiveIn(a: Assignment, slots: seq<int>, teachers: seq<int>, courses: seq<int>, rooms: seq<int>): set<Quad> {
    set q | q in Table(slots, teachers, courses, rooms) && X(q) in a
  }

  lemma ActiveInMember(q: Quad, a: Assignment, slots: seq<int>, teachers: seq<int>, courses: seq<int>, rooms: seq<int>)
    ensures q in ActiveIn(a, slots, teachers, courses, rooms) <==> InTable(q, slots, teachers, courses, rooms) && X(q) in a
  {
    TableMember(q, slots, teachers, courses, rooms);
  }

  /** Over a duplicate-free list, counting positions counts distinct active
      quadruples. */
  lemma {:induction false} CountActiveDistinct(qs: seq<Quad>, a: Assignment)
    requires Distinct(qs)
    ensures CountActive(qs, a) == |set q | q in qs && X(q) in a|
  {
    if qs != [] {
      var init := qs[..|qs| - 1];
      var last := qs[|qs| - 1];
      assert Distinct(init);
      CountActiveDistinct(init, a);
      assert last !in init;
      var before := set q | q in init && X(q) in a;
      var after := set q | q in qs && X(q) in a;
      assert qs == init + [last];
      if X(last) in a {
        assert after == before + {last};
      } else {
        assert after == before;
      }
    }
  }

  /** With duplicate-free id lists, `count_assignments` is the number of
      active quadruples of the table. */
  lemma CountAssignmentsCountsActive(a: Assignment, slots: seq<int>, teachers: seq<int>, courses: seq<int>, rooms: seq<int>)
    requires Distinct(slots) && Distinct(teachers) && Distinct(courses) && Distinct(rooms)
    ensures CountAssignments(a, slots, teachers, courses, rooms) == |ActiveIn(a, slots, teachers, courses, rooms)|
  {
    TableDistinct(slots, teachers, courses, rooms);
    CountActiveDistinct(Table(slots, teachers, courses, rooms), a);
  }

  // ---------------------------------------------------------------------
  // audit_course_assignments (the counting part)
  // ---------------------------------------------------------------------

  /** `sum_{s,t,r} x[s,t,c,r]` for one course, in the audit's loop order. */
  function Assigned(a: Assignment, slots: seq<int>, teachers: seq<int>, c: int, rooms: seq<int>): nat {
    CountActive(Table(slots, teachers, [c], rooms), a)
  }

  lemma TeacherBlockOneCourse(s: int, t: int, c: int, rooms: seq<int>)
    ensures TeacherBlock(s, t, [c], rooms) == CourseBlock(s, t, c, rooms)
  {
    assert [c][..0] == [];
    assert TeacherBlock(s, t, [c], rooms) == FlatMap([], c' => CourseBlock(s, t, c', rooms)) + CourseBlock(s, t, c, rooms);
  }

  /** The room loop of one (slot, teacher) pair. */
  method CountRooms(a: Assignment, s: int, t: int, c: int, rooms: seq<int>) returns (n: nat)
    ensures n == CountActive(CourseBlock(s, t, c, rooms), a)
  {
    n := 0;
    for l := 0 to |rooms|
      invariant n == CountActive(CourseBlock(s, t, c, rooms[..l]), a)
    {
      CourseBlockSnoc(s, t, c, rooms, l);
      CountActiveConcat(CourseBlock(s, t, c, rooms[..l]), [Quad(s, t, c, rooms[l])], a);
      assert CountActive([Quad(s, t, c, rooms[l])], a) == if X(Quad(s, t, c, rooms[l])) in a then 1 else 0;
      if X(Quad(s, t, c, rooms[l])) in a {
        n := n + 1;
      }
    }
    assert rooms[..|rooms|] == rooms;
  }

  lemma CountSlotBlockStep(a: Assignment, s: int, teachers: seq<int>, j: nat, c: int, rooms: seq<int>)
    requires j < |teachers|
    ensures CountActive(SlotBlock(s, teachers[..j + 1], [c], rooms), a)
         == CountActive(SlotBlock(s, teachers[..j], [c], rooms), a) + CountActive(CourseBlock(s, teachers[j], c, rooms), a)
  {
    SlotBlockSnoc(s, teachers, j, [c], rooms);
    TeacherBlockOneCourse(s, teachers[j], c, rooms);
    CountActiveConcat(SlotBlock(s, teachers[..j], [c], rooms), CourseBlock(s, teachers[j], c, rooms), a);
  }

  lemma CountTableStep(a: Assignment, slots: seq<int>, i: nat, teachers: seq<int>, c: int, rooms: seq<int>)
    requires i < |slots|
    ensures Assigned(a, slots[..i + 1], teachers, c, rooms)
         == Assigned(a, slots[..i], teachers, c, rooms) + CountActive(SlotBlock(slots[i], teachers, [c], rooms), a)
  {
    TableSnoc(slots, i, teachers, [c], rooms);
    CountActiveConcat(Table(slots[..i], teachers, [c], rooms), SlotBlock(slots[i], teachers, [c], rooms), a);
  }

  /** The slot, teacher and room loops of one course. */
  method CountCourseAssignments(a: Assignment, slots: seq<int>, teachers: seq<int>, c: int, rooms: seq<int>) returns (n: nat)
    ensures n == Assigned(a, slots, teachers, c, rooms)
  {
    n := 0;
    for i := 0 to |slots|
      invariant n == Assigned(a, slots[..i], teachers, c, rooms)
    {
      CountTableStep(a, slots, i, teachers, c, rooms);
      ghost var done := n;
      for j := 0 to |teachers|
        invariant n == done + CountActive(SlotBlock(slots[i], teachers[..j], [c], rooms), a)
      {
        CountSlotBlockStep(a, slots[i], teachers, j, c, rooms);
        var k := CountRooms(a, slots[i], teachers[j], c, rooms);
        n := n + k;
      }
      assert teachers[..|teachers|] == teachers;
    }
    assert slots[..|slots|] == slots;
  }

  /** The audit's counters: unscheduled courses, the number scheduled
      exactly once, the multiply scheduled courses with their counts, and the
      per-semester totals (both `defaultdict(int)`). */
  datatype AuditReport = AuditReport(
    zero: seq<int>,
    exactlyOne: nat,
    multi: seq<(int, nat)>,
    perSemTotal: map<string, nat>,
    perSemScheduled: map<string, nat>)

  /** `d[k]` of a `defaultdict(int)`. */
  function Get(m: map<string, nat>, k: string): nat {
    if k in m then m[k] else 0
  }

  /** `for sem in sems: d[sem] += 1` */
  function BumpAll(m: map<string, nat>, sems: seq<string>): map<string, nat> {
    if sems == [] then m
    else
      var r := BumpAll(m, sems[..|sems| - 1]);
      var k := sems[|sems| - 1];
      r[k := Get(r, k) + 1]
  }

  /** Each semester gains one per time it is listed. */
  lemma {:induction false} BumpAllCounts(m: map<string, nat>, sems: seq<string>, k: string)
    ensures Get(BumpAll(m, sems), k) == Get(m, k) + multiset(sems)[k]
  {
    if sems != [] {
      var init := sems[..|sems| - 1];
      BumpAllCounts(m, init, k);
      assert sems == init + [sems[|sems| - 1]];
    }
  }

  /** The report after one more course that was count `n` times. */
  function Classified(rep: AuditReport, c: int, n: nat): AuditReport {
    if n == 0 then rep.(zero := rep.zero + [c])
    else if n == 1 then rep.(exactlyOne := rep.exactlyOne + 1)
    else rep.(multi := rep.multi + [(c, n)])
  }

  /** One pass of the course loop; a course missing from `course_by_id`
      raises `KeyError`, given here as the course id. */
  function AuditStep(rep: AuditReport, c: int, n: nat, courseById: Option<map<int, Course>>): Result<AuditReport, int> {
    var rep' := Classified(rep, c, n);
    if courseById.None? then Success(rep')
    else if c !in courseById.value then Failure(c)
    else
      var sems := courseById.value[c].semester;
      Success(rep'.(perSemTotal := BumpAll(rep'.perSemTotal, sems),
                    perSemScheduled := if n >= 1 then BumpAll(rep'.perSemScheduled, sems) else rep'.perSemScheduled))
  }

  /** The counters after the course loop of `audit_course_assignments`. */
  function Audit(a: Assignment, slots: seq<int>, teachers: seq<int>, courses: seq<int>, rooms: seq<int>,
                 courseById: Option<map<int, Course>>): Result<AuditReport, int>
  {
    if courses == [] then Success(AuditReport([], 0, [], map[], map[]))
    else
      var c := courses[|courses| - 1];
      match Audit(a, slots, teachers, courses[..|courses| - 1], rooms, courseById)
      case Failure(e) => Failure(e)
      case Success(rep) => AuditStep(rep, c, Assigned(a, slots, teachers, c, rooms), courseById)
  }

  lemma {:induction false} AuditFailureStops(a: Assignment, slots: seq<int>, teachers: seq<int>, courses: seq<int>, rooms: seq<int>,
                                             courseById: Option<map<int, Course>>, i: nat)
    requires i <= |courses| && Audit(a, slots, teachers, courses[..i], rooms, courseById).Failure?
    ensures Audit(a, slots, teachers, courses, rooms, courseById) == Audit(a, slots, teachers, courses[..i], rooms, courseById)
    decreases |courses| - i
  {
    if i < |courses| {
      assert courses[..i + 1][..i] == courses[..i];
      AuditFailureStops(a, slots, teachers, courses, rooms, courseById, i + 1);
    } else {
      assert courses[..i] == courses;
    }
  }

  /** The semester loop of one course: every listed semester counts towards
      the total, and towards the scheduled count when the course was
      scheduled. */
  method TallySemesters(perSemTotal: map<string, nat>, perSemScheduled: map<string, nat>, sems: seq<string>, scheduled: bool)
    returns (total: map<string, nat>, sched: map<string, nat>)
    ensures total == BumpAll(perSemTotal, sems)
    ensures sched == if scheduled then BumpAll(perSemScheduled, sems) else perSemScheduled
  {
    total, sched := perSemTotal, perSemScheduled;
    for j := 0 to |sems|
      invariant total == BumpAll(perSemTotal, sems[..j])
      invariant sched == if scheduled then BumpAll(perSemScheduled, sems[..j]) else perSemScheduled
    {
      assert sems[..j + 1][..j] == sems[..j];
      total := total[sems[j] := Get(total, sems[j]) + 1];
      if scheduled {
        sched := sched[sems[j] := Get(sched, sems[j]) + 1];
      }
    }
    assert sems[..|sems|] == sems;
  }

  method AuditCourseAssignments(a: Assignment, slots: seq<int>, teachers: seq<int>, courses: seq<int>, rooms: seq<int>,
                                courseById: Option<map<int, Course>>) returns (r: Result<AuditReport, int>)
    ensures r == Audit(a, slots, teachers, courses, rooms, courseById)
  {
    var zero: seq<int> := [];
    var multi: seq<(int, nat)> := [];
    var exactlyOne: nat := 0;
    var perSemTotal: map<string, nat> := map[];
    var perSemScheduled: map<string, nat> := map[];
    for i := 0 to |courses|
      invariant Audit(a, slots, teachers, courses[..i], rooms, courseById)
             == Success(AuditReport(zero, exactlyOne, multi, perSemTotal, perSemScheduled))
    {
      assert courses[..i + 1][..i] == courses[..i];
      var c := courses[i];
      var count := CountCourseAssignments(a, slots, teachers, c, rooms);
      if count == 0 {
        zero := zero + [c];
      } else if count == 1 {
        exactlyOne := exactlyOne + 1;
      } else {
        multi := multi + [(c, count)];
      }
      if courseById.Some? {
        if c !in courseById.value {
          AuditFailureStops(a, slots, teachers, courses, rooms, courseById, i + 1);
          return Failure(c);
        }
        perSemTotal, perSemScheduled := TallySemesters(perSemTotal, perSemScheduled, courseById.value[c].semester, count >= 1);
      }
    }
    assert courses[..|courses|] == courses;
    r := Success(AuditReport(zero, exactlyOne, multi, perSemTotal, perSemScheduled));
  }

  /** Every course falls into exactly one of unscheduled, scheduled once and
      scheduled several times: the unscheduled list holds exactly the courses
      with no assignment, the multiple list exactly those with two or more,
      with their counts, and the three sizes add up to the number of
      courses. */
  lemma {:induction false} AuditPartition(a: Assignment, slots: seq<int>, teachers: seq<int>, courses: seq<int>, rooms: seq<int>,
                                          courseById: Option<map<int, Course>>, c: int, n: nat)
    requires Audit(a, slots, teachers, courses, rooms, courseById).Success?
    ensures var rep := Audit(a, slots, teachers, courses, rooms, courseById).value;
      |rep.zero| + rep.exactlyOne + |rep.multi| == |courses|
      && (c in rep.zero <==> c in courses && Assigned(a, slots, teachers, c, rooms) == 0)
      && ((c, n) in rep.multi <==> c in courses && n == Assigned(a, slots, teachers, c, rooms) && n >= 2)
  {
    if courses != [] {
      var init := courses[..|courses| - 1];
      assert courses == init + [courses[|courses| - 1]];
      assert Audit(a, slots, teachers, init, rooms, courseById).Success?;
      AuditPartition(a, slots, teachers, init, rooms, courseById, c, n);
    }
  }

  /** Per semester, the scheduled count never exceeds the total, and without
      `course_by_id` both stay empty. */
  lemma {:induction false} AuditSemesters(a: Assignment, slots: seq<int>, teachers: seq<int>, courses: seq<int>, rooms: seq<int>,
                                          courseById: Option<map<int, Course>>, sem: string)
    requires Audit(a, slots, teachers, courses, rooms, courseById).Success?
    ensures var rep := Audit(a, slots, teachers, courses, rooms, courseById).value;
      Get(rep.perSemScheduled, sem) <= Get(rep.perSemTotal, sem)
      && (courseById.None? ==> rep.perSemTotal == map[] && rep.perSemScheduled == map[])
  {
    if courses != [] {
      var init := courses[..|courses| - 1];
      var c := courses[|courses| - 1];
      assert Audit(a, slots, teachers, init, rooms, courseById).Success?;
      AuditSemesters(a, slots, teachers, init, rooms, courseById, sem);
      if courseById.Some? {
        var rep := Audit(a, slots, teachers, init, rooms, courseById).value;
        var sems := courseById.value[c].semester;
        BumpAllCounts(rep.perSemTotal, sems, sem);
        BumpAllCounts(rep.perSemScheduled, sems, sem);
      }
    }
  }

  /** The audit raises exactly when `course_by_id` is given and misses one
      of the courses. */
  lemma {:induction false} AuditKeyError(a: Assignment, slots: seq<int>, teachers: seq<int>, courses: seq<int>, rooms: seq<int>,
                                         courseById: Option<map<int, Course>>)
    ensures Audit(a, slots, teachers, courses, rooms, courseById).Failure?
        <==> courseById.Some? && exists c :: c in courses && c !in courseById.value
  {
    if courses != [] {
      var init := courses[..|courses| - 1];
      assert courses == init + [courses[|courses| - 1]];
      AuditKeyError(a, slots, teachers, init, rooms, courseById);
    }
  }

  /** With duplicate-free id lists, the per-course counts of the audit add up
      to `count_assignments`. */
  lemma {:induction false} AuditAgreesWithCount(a: Assignment, slots: seq<int>, teachers: seq<int>, courses: seq<int>, rooms: seq<int>)
    requires Distinct(slots) && Distinct(teachers) && Distinct(courses) && Distinct(rooms)
    ensures SumAssigned(a, slots, teachers, courses, rooms) == CountAssignments(a, slots, teachers, courses, rooms)
  {
    CountAssignmentsCountsActive(a, slots, teachers, courses, rooms);
    if courses == [] {
      assert Table(slots, teachers, courses, rooms) == [] by {
        TableNoCourses(slots, teachers, rooms);
      }
    } else {
      var init := courses[..|courses| - 1];
      var c := courses[|courses| - 1];
      assert Distinct(init);
      assert c !in init;
      AuditAgreesWithCount(a, slots, teachers, init, rooms);
      CountAssignmentsCountsActive(a, slots, teachers, init, rooms);
      CountAssignmentsCountsActive(a, slots, teachers, [c], rooms);
      var all := ActiveIn(a, slots, teachers, courses, rooms);
      var before := ActiveIn(a, slots, teachers, init, rooms);
      var one := ActiveIn(a, slots, teachers, [c], rooms);
      forall q ensures q in all <==> q in before || q in one {
        ActiveInMember(q, a, slots, teachers, courses, rooms);
        ActiveInMember(q, a, slots, teachers, init, rooms);
        ActiveInMember(q, a, slots, teachers, [c], rooms);
        assert q.course in courses <==> q.course in init || q.course == c;
      }
      assert all == before + one;
      forall q | q in before ensures q !in one {
        ActiveInMember(q, a, slots, teachers, init, rooms);
        ActiveInMember(q, a, slots, teachers, [c], rooms);
      }
      assert before * one == {};
      assert |all| == |before| + |one|;
      assert SumAssigned(a, slots, teachers, courses, rooms)
          == SumAssigned(a, slots, teachers, init, rooms) + Assigned(a, slots, teachers, c, rooms);
    }
  }

  lemma {:induction false} TableNoCourses(slots: seq<int>, teachers: seq<int>, rooms: seq<int>)
    ensures Table(slots, teachers, [], rooms) == []
  {
    if slots != [] {
      var init := slots[..|slots| - 1];
      TableNoCourses(init, teachers, rooms);
      SlotBlockEmpty(slots[|slots| - 1], teachers, rooms);
    }
  }

  lemma {:induction false} SlotBlockEmpty(s: int, teachers: seq<int>, rooms: seq<int>)
    ensures SlotBlock(s, teachers, [], rooms) == []
  {
    if teachers != [] {
      SlotBlockEmpty(s, teachers[..|teachers| - 1], rooms);
      assert TeacherBlock(s, teachers[|teachers| - 1], [], rooms) == [];
    }
  }

  /** The audit's per-course counts, summed over the course list. */
  function SumAssigned(a: Assignment, slots: seq<int>, teachers: seq<int>, courses: seq<int>, rooms: seq<int>): nat {
    if courses == [] then 0
    else SumAssigned(a, slots, teachers, courses[..|courses| - 1], rooms) + Assigned(a, slots, teachers, courses[|courses| - 1], rooms)
  }

  // ---------------------------------------------------------------------
  // The slots and days of `main`
  // ---------------------------------------------------------------------

  /** `slots = range(1, 32)` */
  function Slots(): seq<int> {
    Range(1, 32)
  }

  /** The bounds of the five `range`s of `days`. */
  const DayBounds: seq<(int, int)> := [(1, 8), (8, 15), (15, 18), (18, 25), (25, 32)]

  /** `days[d]` */
  function Day(d: nat): seq<int>
    requires d < |DayBounds|
  {
    Range(DayBounds[d].0, DayBounds[d].1)
  }

  /** `early_slots`, the "first slot per day". */
  const EarlySlots: set<int> := {1, 8, 15, 18, 25}

  /** The slots are 1 to 31. */
  lemma SlotsAreOneToThirtyOne(s: int)
    ensures s in Slots() <==> 1 <= s <= 31
  {
    RangeMember(1, 32, s);
  }

  /** The day a slot between 1 and 31 falls on. */
  function DayOf(s: int): nat {
    if s < 8 then 0 else if s < 15 then 1 else if s < 18 then 2 else if s < 25 then 3 else 4
  }

  lemma DayBoundsDetermineDay(s: int, d: nat)
    requires d < |DayBounds| && DayBounds[d].0 <= s < DayBounds[d].1
    ensures d == DayOf(s)
  {
    if d == 0 {
    } else if d == 1 {
    } else if d == 2 {
    } else if d == 3 {
    } else {
      assert d == 4;
    }
  }

  /** The days split the slots: every slot lies in exactly one day, and each
      day holds only slots. */
  lemma DaysPartitionSlots(s: int)
    ensures 1 <= s <= 31 <==> exists d: nat :: d < |DayBounds| && s in Day(d)
    ensures forall d: nat, e: nat :: d < |DayBounds| && e < |DayBounds| && s in Day(d) && s in Day(e) ==> d == e
  {
    forall d: nat | d < |DayBounds| ensures s in Day(d) <==> DayBounds[d].0 <= s < DayBounds[d].1 {
      RangeMember(DayBounds[d].0, DayBounds[d].1, s);
    }
    forall d: nat | d < |DayBounds| && s in Day(d) ensures d == DayOf(s) && 1 <= s <= 31 {
      DayBoundsDetermineDay(s, d);
    }
    if 1 <= s <= 31 {
      assert s in Day(DayOf(s));
    }
  }

  /** The early slots are exactly the first slots of the days. */
  lemma EarlySlotsAreDayStarts()
    ensures forall d: nat :: d < |DayBounds| ==> |Day(d)| > 0 && Day(d)[0] == DayBounds[d].0
    ensures EarlySlots == set d: nat | d < |DayBounds| :: DayBounds[d].0
  {
    var starts := set d: nat | d < |DayBounds| :: DayBounds[d].0;
    forall x | x in starts ensures x in EarlySlots {
      var d: nat :| d < |DayBounds| && x == DayBounds[d].0;
      DayBoundsDetermineDay(x, d);
    }
    assert DayBounds[0].0 in starts && DayBounds[1].0 in starts && DayBounds[2].0 in starts;
    assert DayBounds[3].0 in starts && DayBounds[4].0 in starts;
  }
}
