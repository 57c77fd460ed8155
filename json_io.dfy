/** The JSON side of the pipeline (json_loaders_savers.py): strict lookups
    of enumeration members by name in the teacher and room loaders, the
    solution records `save_schedule_to_json` writes, and the lines
    `print_schedule_for_semester` prints. */
module JsonIo {

  import opened Wrappers
  import opened PyStr
  import opened Structures
  import opened LinearModel

  // ---------------------------------------------------------------------
  // Strict member lookups: `Faculty[name]`, `Building[name]`, `RoomType[name]`
  // ---------------------------------------------------------------------

  /** `Faculty[name]`; `None` stands for the `KeyError` of an unknown name. */
  function FacultyNamed(name: string): (r: Option<Faculty>)
    ensures r.Some? ==> FacultyName(r.value) == name
  {
    if name == "BU" then Some(BU)
    else if name == "AU" then Some(AU)
    else if name == "KG" then Some(KG)
    else if name == "M" then Some(M)
    else None
  }

  function BuildingNamed(name: string): (r: Option<Building>)
    ensures r.Some? ==> BuildingName(r.value) == name
  {
    if name == "GSS" then Some(GSS)
    else if name == "M13" then Some(M13)
    else if name == "C11" then Some(C11)
    else None
  }

  function RoomTypeNamed(name: string): (r: Option<RoomType>)
    ensures r.Some? ==> RoomTypeName(r.value) == name
  {
    if name == "LECTURE" then Some(LECTURE)
    else if name == "LAB" then Some(LAB)
    else if name == "COMPUTER" then Some(COMPUTER)
    else if name == "SEMINAR" then Some(SEMINAR)
    else None
  }

  /** A lookup succeeds exactly on the members' own names, and finds the
      member of that name: no case folding, no synonyms, no stripping. */
  lemma NamedLookupsAreExact()
    ensures forall f: Faculty :: FacultyNamed(FacultyName(f)) == Some(f)
    ensures forall b: Building :: BuildingNamed(BuildingName(b)) == Some(b)
    ensures forall t: RoomType :: RoomTypeNamed(RoomTypeName(t)) == Some(t)
    ensures forall name :: FacultyNamed(name).Some? <==> exists f: Faculty :: FacultyName(f) == name
    ensures forall name :: BuildingNamed(name).Some? <==> exists b: Building :: BuildingName(b) == name
    ensures forall name :: RoomTypeNamed(name).Some? <==> exists t: RoomType :: RoomTypeName(t) == name
  {
    forall name | exists f: Faculty :: FacultyName(f) == name ensures FacultyNamed(name).Some? {
      var f: Faculty :| FacultyName(f) == name;
    }
    forall name | exists b: Building :: BuildingName(b) == name ensures BuildingNamed(name).Some? {
      var b: Building :| BuildingName(b) == name;
    }
    forall name | exists t: RoomType :: RoomTypeName(t) == name ensures RoomTypeNamed(name).Some? {
      var t: RoomType :| RoomTypeName(t) == name;
    }
  }

  /** Lower case is not accepted. An instance of `NamedLookupsAreExact`. */
  lemma LookupIsCaseSensitive()
    ensures FacultyNamed("bu") == None && RoomTypeNamed("lecture") == None && BuildingNamed("m13") == None
  {
    assert "bu"[0] != "BU"[0] && "bu"[0] != "AU"[0] && "bu"[0] != "KG"[0] && "bu"[0] != "M"[0];
    assert "lecture"[0] != "LECTURE"[0] && "lecture"[0] != "LAB"[0] && "lecture"[0] != "COMPUTER"[0] && "lecture"[0] != "SEMINAR"[0];
    assert "m13"[0] != "GSS"[0] && "m13"[0] != "M13"[0] && "m13"[0] != "C11"[0];
  }

  // ---------------------------------------------------------------------
  // load_teachers and load_rooms
  // ---------------------------------------------------------------------

  /** One object of `teachers.json`, with the enumeration still a name. */
  datatype TeacherItem = TeacherItem(
    teacherId: int, teacherName: string, faculty: string,
    courseName: seq<string>, hardTimeConstr: seq<int>, softTimeConstr: seq<int>)

  /** One object of `rooms.json`. */
  datatype RoomItem = RoomItem(
    roomId: int, address: string, name: string, roomType: string, faculty: string, capacity: int)

  /** A teacher loads exactly when its faculty is a member's name, keeping
      every field; otherwise the failure is that name. */
  function TeacherOf(item: TeacherItem): (r: Result<Teacher, string>)
    ensures r.Success? <==> FacultyNamed(item.faculty).Some?
    ensures r.Failure? ==> r.error == item.faculty
    ensures r.Success? ==>
      && r.value.teacherId == item.teacherId && r.value.teacherName == item.teacherName
      && FacultyName(r.value.faculty) == item.faculty && r.value.courseName == item.courseName
      && r.value.hardTimeConstr == item.hardTimeConstr && r.value.softTimeConstr == item.softTimeConstr
  {
    match FacultyNamed(item.faculty)
    case None => Failure(item.faculty)
    case Some(f) => Success(Teacher(item.teacherId, item.teacherName, f, item.courseName, item.hardTimeConstr, item.softTimeConstr))
  }

  /** A room loads exactly when its three names are members' names, keeping
      every field; the names are looked up in the order of the constructor
      call (address, type, faculty) and the failure is the first unknown. */
  function RoomOf(item: RoomItem): (r: Result<Room, string>)
    ensures r.Success?
        <==> BuildingNamed(item.address).Some? && RoomTypeNamed(item.roomType).Some? && FacultyNamed(item.faculty).Some?
    ensures r.Failure? ==>
      r.error == (if BuildingNamed(item.address).None? then item.address
                  else if RoomTypeNamed(item.roomType).None? then item.roomType
                  else item.faculty)
    ensures r.Success? ==>
      && r.value.roomId == item.roomId && BuildingName(r.value.address) == item.address
      && r.value.name == item.name && RoomTypeName(r.value.roomType) == item.roomType
      && FacultyName(r.value.faculty) == item.faculty && r.value.capacity == item.capacity
  {
    match BuildingNamed(item.address)
    case None => Failure(item.address)
    case Some(b) =>
      match RoomTypeNamed(item.roomType)
      case None => Failure(item.roomType)
      case Some(t) =>
        match FacultyNamed(item.faculty)
        case None => Failure(item.faculty)
        case Some(f) => Success(Room(item.roomId, b, item.name, t, f, item.capacity))
  }

  /** A list comprehension whose element conversion can raise: the first
      failure propagates. */
  function ConvertAll<A, B>(xs: seq<A>, f: A -> Result<B, string>): Result<seq<B>, string> {
    if xs == [] then Success([])
    else
      match ConvertAll(xs[..|xs| - 1], f)
      case Failure(e) => Failure(e)
      case Success(ys) =>
        match f(xs[|xs| - 1])
        case Failure(e) => Failure(e)
        case Success(y) => Success(ys + [y])
  }

  /** The comprehension succeeds exactly when every conversion does; it then
      keeps the order, and otherwise reports the first failure. */
  lemma {:induction false} ConvertAllMeaning<A, B>(xs: seq<A>, f: A -> Result<B, string>)
    ensures ConvertAll(xs, f).Success? <==> forall i :: 0 <= i < |xs| ==> f(xs[i]).Success?
    ensures ConvertAll(xs, f).Success? ==>
      |ConvertAll(xs, f).value| == |xs| && forall i :: 0 <= i < |xs| ==> ConvertAll(xs, f).value[i] == f(xs[i]).value
    ensures ConvertAll(xs, f).Failure? ==>
      exists k :: 0 <= k < |xs| && f(xs[k]).Failure? && ConvertAll(xs, f).error == f(xs[k]).error
        && forall i :: 0 <= i < k ==> f(xs[i]).Success?
  {
    if xs != [] {
      var n := |xs| - 1;
      ConvertAllMeaning(xs[..n], f);
      assert forall i :: 0 <= i < n ==> xs[..n][i] == xs[i];
    }
  }

  /** `load_teachers` after `json.load`. */
  function LoadTeachers(data: seq<TeacherItem>): Result<seq<Teacher>, string> {
    ConvertAll(data, TeacherOf)
  }

  /** `load_rooms` after `json.load`. */
  function LoadRooms(data: seq<RoomItem>): Result<seq<Room>, string> {
    ConvertAll(data, RoomOf)
  }

  // ---------------------------------------------------------------------
  // save_schedule_to_json
  // ---------------------------------------------------------------------

  /** Gurobi's `GRB.OPTIMAL`. */
  const OPTIMAL: int := 2

  /** One object of the saved solution. */
  datatype SolutionRecord = SolutionRecord(slot: int, teacherId: int, courseId: int, roomId: int)

  /** The record of one quadruple whose value is exactly 1. */
  function RecordOf(q: Quad): SolutionRecord {
    SolutionRecord(q.slot, q.teacher, q.course, q.room)
  }

  /** The quadruple a record stands for. */
  function QuadOf(rec: SolutionRecord): (q: Quad)
    ensures RecordOf(q) == rec
  {
    Quad(rec.slot, rec.teacherId, rec.courseId, rec.roomId)
  }

  /** The records appended while walking `qs` in order; `vals` gives each
      variable's value `x[...].X`, compared with `== 1`. */
  function Exported(vals: Quad -> real, qs: seq<Quad>): seq<SolutionRecord> {
    if qs == [] then []
    else
      var last := qs[|qs| - 1];
      Exported(vals, qs[..|qs| - 1]) + (if vals(last) == 1.0 then [RecordOf(last)] else [])
  }

  function NotOptimal(status: int): string {
    "Model status is not OPTIMAL: " + IntToString(status)
  }

  /** The list `save_schedule_to_json` writes, or its `RuntimeError`. */
  function SavedSolution(status: int, vals: Quad -> real, slots: seq<int>, teachers: seq<int>, courses: seq<int>, rooms: seq<int>)
    : Result<seq<SolutionRecord>, string>
  {
    if status != OPTIMAL then Failure(NotOptimal(status))
    else Success(Exported(vals, Table(slots, teachers, courses, rooms)))
  }

  lemma {:induction false} ExportedConcat(vals: Quad -> real, xs: seq<Quad>, ys: seq<Quad>)
    ensures Exported(vals, xs + ys) == Exported(vals, xs) + Exported(vals, ys)
  {
    if ys == [] {
      assert xs + ys == xs;
    } else {
      var init := ys[..|ys| - 1];
      var last := ys[|ys| - 1];
      ExportedConcat(vals, xs, init);
      assert xs + ys == (xs + init) + [last];
      assert ((xs + init) + [last])[..|xs + init|] == xs + init;
      AppendAssoc(Exported(vals, xs), Exported(vals, init), if vals(last) == 1.0 then [RecordOf(last)] else []);
    }
  }

  /** A record is exported exactly for a quadruple of the list whose value
      is exactly 1. */
  lemma {:induction false} ExportedMember(vals: Quad -> real, qs: seq<Quad>, rec: SolutionRecord)
    ensures rec in Exported(vals, qs) <==> (QuadOf(rec) in qs && vals(QuadOf(rec)) == 1.0)
  {
    if qs != [] {
      ExportedMember(vals, qs[..|qs| - 1], rec);
      assert qs == qs[..|qs| - 1] + [qs[|qs| - 1]];
    }
  }

  /** Over a duplicate-free list no record is written twice. */
  lemma {:induction false} ExportedDistinct(vals: Quad -> real, qs: seq<Quad>)
    requires Distinct(qs)
    ensures Distinct(Exported(vals, qs))
  {
    if qs != [] {
      var init := qs[..|qs| - 1];
      var last := qs[|qs| - 1];
      DistinctPrefix(qs, |qs| - 1);
      ExportedDistinct(vals, init);
      assert qs == init + [last];
      if vals(last) == 1.0 {
        forall rec | rec in Exported(vals, init) ensures rec !in [RecordOf(last)] {
          ExportedMember(vals, init, rec);
        }
        DistinctConcat(Exported(vals, init), [RecordOf(last)]);
      }
    }
  }

  /** Saving fails exactly on a status other than OPTIMAL; otherwise the
      records are exactly the table's quadruples valued exactly 1, each
      once when the id lists have no repetitions. */
  lemma SavedSolutionMeaning(status: int, vals: Quad -> real, slots: seq<int>, teachers: seq<int>, courses: seq<int>, rooms: seq<int>)
    ensures SavedSolution(status, vals, slots, teachers, courses, rooms).Failure? <==> status != OPTIMAL
    ensures SavedSolution(status, vals, slots, teachers, courses, rooms).Success? ==>
      forall rec :: rec in SavedSolution(status, vals, slots, teachers, courses, rooms).value
                <==> (InTable(QuadOf(rec), slots, teachers, courses, rooms) && vals(QuadOf(rec)) == 1.0)
    ensures SavedSolution(status, vals, slots, teachers, courses, rooms).Success?
         && Distinct(slots) && Distinct(teachers) && Distinct(courses) && Distinct(rooms)
        ==> Distinct(SavedSolution(status, vals, slots, teachers, courses, rooms).value)
  {
    var qs := Table(slots, teachers, courses, rooms);
    forall rec ensures rec in Exported(vals, qs) <==> (InTable(QuadOf(rec), slots, teachers, courses, rooms) && vals(QuadOf(rec)) == 1.0) {
      ExportedMember(vals, qs, rec);
      TableMember(QuadOf(rec), slots, teachers, courses, rooms);
    }
    if Distinct(slots) && Distinct(teachers) && Distinct(courses) && Distinct(rooms) {
      TableDistinct(slots, teachers, courses, rooms);
      ExportedDistinct(vals, qs);
    }
  }

  /** A value close to but different from 1 is not exported. An instance of
      `ExportedMember`. */
  lemma NoTolerance(vals: Quad -> real, q: Quad)
    requires vals(q) == 0.9999999
    ensures Exported(vals, [q]) == []
  {
    assert [q][..0] == [];
  }

  /** The room loop of `save_schedule_to_json`. */
  method SaveRooms(vals: Quad -> real, s: int, t: int, c: int, rooms: seq<int>) returns (recs: seq<SolutionRecord>)
    ensures recs == Exported(vals, CourseBlock(s, t, c, rooms))
  {
    recs := [];
    for l := 0 to |rooms|
      invariant recs == Exported(vals, CourseBlock(s, t, c, rooms[..l]))
    {
      var q := Quad(s, t, c, rooms[l]);
      CourseBlockSnoc(s, t, c, rooms, l);
      ExportedConcat(vals, CourseBlock(s, t, c, rooms[..l]), [q]);
      assert [q][..0] == [];
      if vals(q) == 1.0 {
        recs := recs + [SolutionRecord(s, t, c, rooms[l])];
      }
    }
    assert rooms[..|rooms|] == rooms;
  }

  /** The teacher, course and room loops of one slot. */
  method SaveSlot(vals: Quad -> real, s: int, teachers: seq<int>, courses: seq<int>, rooms: seq<int>) returns (recs: seq<SolutionRecord>)
    ensures recs == Exported(vals, SlotBlock(s, teachers, courses, rooms))
  {
    recs := [];
    for j := 0 to |teachers|
      invariant recs == Exported(vals, SlotBlock(s, teachers[..j], courses, rooms))
    {
      SlotBlockSnoc(s, teachers, j, courses, rooms);
      ExportedConcat(vals, SlotBlock(s, teachers[..j], courses, rooms), TeacherBlock(s, teachers[j], courses, rooms));
      ghost var done := recs;
      for k := 0 to |courses|
        invariant recs == done + Exported(vals, TeacherBlock(s, teachers[j], courses[..k], rooms))
      {
        TeacherBlockSnoc(s, teachers[j], courses, k, rooms);
        ExportedConcat(vals, TeacherBlock(s, teachers[j], courses[..k], rooms), CourseBlock(s, teachers[j], courses[k], rooms));
        var more := SaveRooms(vals, s, teachers[j], courses[k], rooms);
        AppendAssoc(done, Exported(vals, TeacherBlock(s, teachers[j], courses[..k], rooms)), more);
        recs := recs + more;
      }
      assert courses[..|courses|] == courses;
    }
    assert teachers[..|teachers|] == teachers;
  }

  /** `save_schedule_to_json` up to the file write. */
  method SaveScheduleToJson(status: int, vals: Quad -> real, slots: seq<int>, teachers: seq<int>, courses: seq<int>, rooms: seq<int>)
    returns (r: Result<seq<SolutionRecord>, string>)
    ensures r == SavedSolution(status, vals, slots, teachers, courses, rooms)
  {
    if status != OPTIMAL {
      return Failure(NotOptimal(status));
    }
    var solution := [];
    for i := 0 to |slots|
      invariant solution == Exported(vals, Table(slots[..i], teachers, courses, rooms))
    {
      TableSnoc(slots, i, teachers, courses, rooms);
      ExportedConcat(vals, Table(slots[..i], teachers, courses, rooms), SlotBlock(slots[i], teachers, courses, rooms));
      var more := SaveSlot(vals, slots[i], teachers, courses, rooms);
      solution := solution + more;
    }
    assert slots[..|slots|] == slots;
    return Success(solution);
  }

  // ---------------------------------------------------------------------
  // print_schedule_for_semester
  // ---------------------------------------------------------------------

  /** The two kinds of Python value the semester test compares: a course's
      `semester` is a list, the argument a string. */
  datatype PyObj = PyText(s: string) | PyList(items: seq<string>)

  /** How a course is matched against the semester: as written
      (`course.semester != semester`, a list against a string) or by
      membership, as the other schedule printer does. */
  datatype SemesterTest = ListEqualsString | ListContains

  predicate InSemester(test: SemesterTest, course: Course, semester: string) {
    match test
    case ListEqualsString => PyList(course.semester) == PyText(semester)
    case ListContains => semester in course.semester
  }

  /** What the printer reads besides the id lists. */
  datatype Printout = Printout(
    vals: Quad -> real,
    semester: string,
    test: SemesterTest,
    teacherById: map<int, Teacher>,
    courseById: map<int, Course>,
    roomById: map<int, Room>)

  /** A quadruple that is printed (with the lookups its line needs). */
  predicate Shown(P: Printout, q: Quad) {
    && q.course in P.courseById && InSemester(P.test, P.courseById[q.course], P.semester)
    && P.vals(q) == 1.0
    && q.teacher in P.teacherById && q.room in P.roomById
  }

  function LineOf(P: Printout, q: Quad): string
    requires Shown(P, q)
  {
    "Slot " + IntToString(q.slot) + " | Course " + P.courseById[q.course].name
      + " | Teacher " + P.teacherById[q.teacher].teacherName + " | Room " + P.roomById[q.room].name
  }

  /** The loop order of this printer: slot, course, teacher, room. */
  function CourseTeachers(s: int, c: int, teachers: seq<int>, rooms: seq<int>): seq<Quad> {
    FlatMap(teachers, t => CourseBlock(s, t, c, rooms))
  }

  function SlotCourses(s: int, courses: seq<int>, teachers: seq<int>, rooms: seq<int>): seq<Quad> {
    FlatMap(courses, c => CourseTeachers(s, c, teachers, rooms))
  }

  function PrintOrder(slots: seq<int>, courses: seq<int>, teachers: seq<int>, rooms: seq<int>): seq<Quad> {
    FlatMap(slots, s => SlotCourses(s, courses, teachers, rooms))
  }

  /** The print order visits the same quadruples as the variable table. */
  lemma PrintOrderMember(q: Quad, slots: seq<int>, courses: seq<int>, teachers: seq<int>, rooms: seq<int>)
    ensures q in PrintOrder(slots, courses, teachers, rooms) <==> InTable(q, slots, teachers, courses, rooms)
  {
    FlatMapMember(slots, s => SlotCourses(s, courses, teachers, rooms), q);
    forall s ensures q in SlotCourses(s, courses, teachers, rooms) <==> q.slot == s && q.course in courses && q.teacher in teachers && q.room in rooms {
      FlatMapMember(courses, c => CourseTeachers(s, c, teachers, rooms), q);
      forall c ensures q in CourseTeachers(s, c, teachers, rooms) <==> q.slot == s && q.course == c && q.teacher in teachers && q.room in rooms {
        FlatMapMember(teachers, t => CourseBlock(s, t, c, rooms), q);
        forall t ensures q in CourseBlock(s, t, c, rooms) <==> q.slot == s && q.teacher == t && q.course == c && q.room in rooms {
          CourseBlockMember(q, s, t, c, rooms);
        }
      }
    }
  }

  /** The schedule lines printed while walking `qs`. */
  function Lines(P: Printout, qs: seq<Quad>): seq<string> {
    if qs == [] then []
    else
      var last := qs[|qs| - 1];
      Lines(P, qs[..|qs| - 1]) + (if Shown(P, last) then [LineOf(P, last)] else [])
  }

  function Dashes(n: nat): (r: string)
    ensures |r| == n && forall i :: 0 <= i < n ==> r[i] == '-'
  {
    seq(n, _ => '-')
  }

  const NothingScheduled: string := "No courses scheduled for this semester."

  /** Everything the printer outputs, line by line. */
  function PrintedOutput(status: int, P: Printout, slots: seq<int>, courses: seq<int>, teachers: seq<int>, rooms: seq<int>): seq<string> {
    if status != OPTIMAL then [NotOptimal(status)]
    else
      var body := Lines(P, PrintOrder(slots, courses, teachers, rooms));
      ["\nSemester: " + P.semester, Dashes(40)] + body + (if body == [] then [NothingScheduled] else [])
  }

  lemma {:induction false} LinesConcat(P: Printout, xs: seq<Quad>, ys: seq<Quad>)
    ensures Lines(P, xs + ys) == Lines(P, xs) + Lines(P, ys)
  {
    if ys == [] {
      assert xs + ys == xs;
    } else {
      var init := ys[..|ys| - 1];
      var last := ys[|ys| - 1];
      LinesConcat(P, xs, init);
      assert xs + ys == (xs + init) + [last];
      assert ((xs + init) + [last])[..|xs + init|] == xs + init;
      AppendAssoc(Lines(P, xs), Lines(P, init), if Shown(P, last) then [LineOf(P, last)] else []);
    }
  }

  lemma {:induction false} LinesMember(P: Printout, qs: seq<Quad>, line: string)
    ensures line in Lines(P, qs) <==> exists q :: q in qs && Shown(P, q) && LineOf(P, q) == line
  {
    if qs != [] {
      var init := qs[..|qs| - 1];
      LinesMember(P, init, line);
      assert qs == init + [qs[|qs| - 1]];
      if line in Lines(P, qs) && line !in Lines(P, init) {
        assert LineOf(P, qs[|qs| - 1]) == line;
      }
    }
  }

  /** No quadruple shown: no line. */
  lemma {:induction false} LinesNone(P: Printout, qs: seq<Quad>)
    requires forall q :: q in qs ==> !Shown(P, q)
    ensures Lines(P, qs) == []
  {
    if qs != [] {
      LinesNone(P, qs[..|qs| - 1]);
    }
  }

  lemma LinesFirst(lines: seq<string>)
    ensures lines == [] || lines[0] in lines
  {
  }

  /** The room loop of one (slot, course, teacher). */
  method PrintRooms(P: Printout, s: int, c: int, t: int, rooms: seq<int>) returns (lines: seq<string>)
    requires c in P.courseById && InSemester(P.test, P.courseById[c], P.semester)
    requires t in P.teacherById && forall r :: r in rooms ==> r in P.roomById
    ensures lines == Lines(P, CourseBlock(s, t, c, rooms))
  {
    lines := [];
    for l := 0 to |rooms|
      invariant lines == Lines(P, CourseBlock(s, t, c, rooms[..l]))
    {
      var q := Quad(s, t, c, rooms[l]);
      CourseBlockSnoc(s, t, c, rooms, l);
      LinesConcat(P, CourseBlock(s, t, c, rooms[..l]), [q]);
      assert [q][..0] == [];
      if P.vals(q) == 1.0 {
        lines := lines + [LineOf(P, q)];
      }
    }
    assert rooms[..|rooms|] == rooms;
  }

  /** The teacher and room loops of one (slot, course) of the semester. */
  method PrintCourse(P: Printout, s: int, c: int, teachers: seq<int>, rooms: seq<int>) returns (lines: seq<string>)
    requires c in P.courseById && InSemester(P.test, P.courseById[c], P.semester)
    requires (forall t :: t in teachers ==> t in P.teacherById) && forall r :: r in rooms ==> r in P.roomById
    ensures lines == Lines(P, CourseTeachers(s, c, teachers, rooms))
  {
    lines := [];
    for j := 0 to |teachers|
      invariant lines == Lines(P, CourseTeachers(s, c, teachers[..j], rooms))
    {
      FlatMapSnoc(teachers, j, t => CourseBlock(s, t, c, rooms));
      LinesConcat(P, CourseTeachers(s, c, teachers[..j], rooms), CourseBlock(s, teachers[j], c, rooms));
      var more := PrintRooms(P, s, c, teachers[j], rooms);
      lines := lines + more;
    }
    assert teachers[..|teachers|] == teachers;
  }

  /** A course outside the semester prints nothing. */
  lemma CourseTeachersSkipped(P: Printout, s: int, c: int, teachers: seq<int>, rooms: seq<int>)
    requires c in P.courseById && !InSemester(P.test, P.courseById[c], P.semester)
    ensures Lines(P, CourseTeachers(s, c, teachers, rooms)) == []
  {
    forall q | q in CourseTeachers(s, c, teachers, rooms) ensures q.course == c {
      FlatMapMember(teachers, t => CourseBlock(s, t, c, rooms), q);
      var t :| t in teachers && q in CourseBlock(s, t, c, rooms);
      CourseBlockMember(q, s, t, c, rooms);
    }
    LinesNone(P, CourseTeachers(s, c, teachers, rooms));
  }

  /** The course loop of one slot, with the semester test. */
  method PrintSlot(P: Printout, s: int, courses: seq<int>, teachers: seq<int>, rooms: seq<int>) returns (lines: seq<string>)
    requires forall c :: c in courses ==> c in P.courseById
    requires (forall t :: t in teachers ==> t in P.teacherById) && forall r :: r in rooms ==> r in P.roomById
    ensures lines == Lines(P, SlotCourses(s, courses, teachers, rooms))
  {
    lines := [];
    for k := 0 to |courses|
      invariant lines == Lines(P, SlotCourses(s, courses[..k], teachers, rooms))
    {
      var c := courses[k];
      FlatMapSnoc(courses, k, c => CourseTeachers(s, c, teachers, rooms));
      LinesConcat(P, SlotCourses(s, courses[..k], teachers, rooms), CourseTeachers(s, c, teachers, rooms));
      if !InSemester(P.test, P.courseById[c], P.semester) {
        CourseTeachersSkipped(P, s, c, teachers, rooms);
        continue;
      }
      var more := PrintCourse(P, s, c, teachers, rooms);
      lines := lines + more;
    }
    assert courses[..|courses|] == courses;
  }

  /** `print_schedule_for_semester`, returning the printed lines. */
  method PrintScheduleForSemester(status: int, P: Printout, slots: seq<int>, courses: seq<int>, teachers: seq<int>, rooms: seq<int>)
    returns (out: seq<string>)
    requires forall c :: c in courses ==> c in P.courseById
    requires (forall t :: t in teachers ==> t in P.teacherById) && forall r :: r in rooms ==> r in P.roomById
    ensures out == PrintedOutput(status, P, slots, courses, teachers, rooms)
  {
    if status != OPTIMAL {
      return [NotOptimal(status)];
    }
    var header := ["\nSemester: " + P.semester, Dashes(40)];
    var lines := [];
    for i := 0 to |slots|
      invariant lines == Lines(P, PrintOrder(slots[..i], courses, teachers, rooms))
    {
      FlatMapSnoc(slots, i, s => SlotCourses(s, courses, teachers, rooms));
      LinesConcat(P, PrintOrder(slots[..i], courses, teachers, rooms), SlotCourses(slots[i], courses, teachers, rooms));
      var more := PrintSlot(P, slots[i], courses, teachers, rooms);
      lines := lines + more;
    }
    assert slots[..|slots|] == slots;
    var found := lines != [];
    out := header + lines;
    if !found {
      out := out + [NothingScheduled];
    }
  }

  /** As written, a list is never equal to a string, so no course is ever
      in the semester and the printer only ever reports that nothing is
      scheduled, whatever the solution. */
  lemma AsWrittenPrintsNothing(P: Printout, slots: seq<int>, courses: seq<int>, teachers: seq<int>, rooms: seq<int>)
    requires P.test == ListEqualsString
    ensures PrintedOutput(OPTIMAL, P, slots, courses, teachers, rooms) == ["\nSemester: " + P.semester, Dashes(40), NothingScheduled]
  {
    LinesNone(P, PrintOrder(slots, courses, teachers, rooms));
  }

  /** A course of the semester assigned exactly once is still reported as
      nothing scheduled by the printer as written. */
  lemma AsWrittenMissesAssignedCourse()
    ensures var course := Course(0, BU, 90, ["BI1"], "Baukonstruktionen", [LECTURE], []);
            var teacher := Teacher(0, "Mueller", BU, ["Baukonstruktionen"], [], []);
            var room := Room(0, M13, "201", LECTURE, BU, 120);
            var vals := (q: Quad) => if q == Quad(1, 0, 0, 0) then 1.0 else 0.0;
            var P := Printout(vals, "BI1", ListEqualsString, map[0 := teacher], map[0 := course], map[0 := room]);
            && "BI1" in course.semester && vals(Quad(1, 0, 0, 0)) == 1.0
            && NothingScheduled in PrintedOutput(OPTIMAL, P, [1], [0], [0], [0])
  {
    var course := Course(0, BU, 90, ["BI1"], "Baukonstruktionen", [LECTURE], []);
    var teacher := Teacher(0, "Mueller", BU, ["Baukonstruktionen"], [], []);
    var room := Room(0, M13, "201", LECTURE, BU, 120);
    var vals := (q: Quad) => if q == Quad(1, 0, 0, 0) then 1.0 else 0.0;
    var P := Printout(vals, "BI1", ListEqualsString, map[0 := teacher], map[0 := course], map[0 := room]);
    AsWrittenPrintsNothing(P, [1], [0], [0], [0]);
  }

  /** With the membership test the printer lists exactly the assigned
      quadruples (value exactly 1) whose course lists the semester. */
  lemma PrintedLines(P: Printout, slots: seq<int>, courses: seq<int>, teachers: seq<int>, rooms: seq<int>, line: string)
    requires P.test == ListContains
    ensures line in Lines(P, PrintOrder(slots, courses, teachers, rooms))
        <==> exists q :: InTable(q, slots, teachers, courses, rooms) && Shown(P, q) && LineOf(P, q) == line
  {
    var qs := PrintOrder(slots, courses, teachers, rooms);
    forall q ensures q in qs <==> InTable(q, slots, teachers, courses, rooms) {
      PrintOrderMember(q, slots, courses, teachers, rooms);
    }
    LinesMember(P, qs, line);
  }

  /** Every schedule line starts with "Slot", so it is never the
      nothing-scheduled message. */
  lemma {:induction false} LinesAreSlotLines(P: Printout, qs: seq<Quad>)
    ensures NothingScheduled !in Lines(P, qs)
  {
    if qs != [] {
      LinesAreSlotLines(P, qs[..|qs| - 1]);
      var last := qs[|qs| - 1];
      if Shown(P, last) {
        assert LineOf(P, last)[0] == 'S' && NothingScheduled[0] == 'N';
      }
    }
  }

  /** With the membership test, the output starts with the semester header
      and says nothing is scheduled exactly when no quadruple of the
      semester is assigned. */
  lemma PrintedNothing(P: Printout, slots: seq<int>, courses: seq<int>, teachers: seq<int>, rooms: seq<int>)
    requires P.test == ListContains
    ensures PrintedOutput(OPTIMAL, P, slots, courses, teachers, rooms)[..2] == ["\nSemester: " + P.semester, Dashes(40)]
    ensures NothingScheduled in PrintedOutput(OPTIMAL, P, slots, courses, teachers, rooms)
        <==> forall q :: InTable(q, slots, teachers, courses, rooms) ==> !Shown(P, q)
  {
    var qs := PrintOrder(slots, courses, teachers, rooms);
    var body := Lines(P, qs);
    LinesAreSlotLines(P, qs);
    assert "\nSemester: " + P.semester != NothingScheduled by {
      assert ("\nSemester: " + P.semester)[0] == '\n' && NothingScheduled[0] == 'N';
    }
    assert Dashes(40) != NothingScheduled by {
      assert Dashes(40)[0] == '-';
    }
    forall q | InTable(q, slots, teachers, courses, rooms) && Shown(P, q) ensures body != [] {
      PrintedLines(P, slots, courses, teachers, rooms, LineOf(P, q));
    }
    if forall q :: InTable(q, slots, teachers, courses, rooms) ==> !Shown(P, q) {
      forall q | q in qs ensures !Shown(P, q) {
        PrintOrderMember(q, slots, courses, teachers, rooms);
      }
      LinesNone(P, qs);
    }
  }
}
