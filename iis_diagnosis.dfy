/** Reading an infeasible model's irreducible inconsistent subsystem (IIS) by
    constraint name: sorting the IIS constraints into buckets by prefix, and
    extracting unschedulable courses, teacher hard-time slots and the allowed
    room types from the `_`-separated fields of the names. The IIS is given
    as the model's constraints in order, each with its name and whether the
    solver put it in the IIS. */
module IisDiagnosis {

  import opened Wrappers
  import opened PyStr

  /** A constraint of the solved model: `ConstrName` and `IISConstr`. */
  datatype ConstrInfo = ConstrInfo(name: string, inIIS: bool)

  // ---------------------------------------------------------------------
  // analyze_iis: buckets by prefix
  // ---------------------------------------------------------------------

  /** The bucket of an IIS constraint; prefixes are tried in the order
      `course_`, `teacher_`, `room_`, `slot_`. */
  function Bucket(name: string): string {
    if StartsWith(name, "course_") then "courses"
    else if StartsWith(name, "teacher_") then "teachers"
    else if StartsWith(name, "room_") then "rooms"
    else if StartsWith(name, "slot_") then "slots"
    else "other"
  }

  const BucketKeys: set<string> := {"courses", "teachers", "rooms", "slots", "other"}

  /** `reasons[key].append(name)` on a `defaultdict(list)`. */
  function AppendTo(reasons: map<string, seq<string>>, key: string, name: string): map<string, seq<string>> {
    reasons[key := (if key in reasons then reasons[key] else []) + [name]]
  }

  /** The dictionary `analyze_iis` returns for the constraints `cs`. */
  function Reasons(cs: seq<ConstrInfo>): map<string, seq<string>> {
    if cs == [] then map[]
    else
      var last := cs[|cs| - 1];
      var r := Reasons(cs[..|cs| - 1]);
      if last.inIIS then AppendTo(r, Bucket(last.name), last.name) else r
  }

  method AnalyzeIis(cs: seq<ConstrInfo>) returns (reasons: map<string, seq<string>>)
    ensures reasons == Reasons(cs)
  {
    reasons := map[];
    for i := 0 to |cs|
      invariant reasons == Reasons(cs[..i])
    {
      assert cs[..i + 1][..i] == cs[..i];
      assert cs[..i + 1][i] == cs[i];
      if cs[i].inIIS {
        var name := cs[i].name;
        var key := Bucket(name);
        if key in reasons {
          reasons := reasons[key := reasons[key] + [name]];
        } else {
          assert [] + [name] == [name];
          reasons := reasons[key := [name]];
        }
      }
    }
    assert cs[..|cs|] == cs;
  }

  /** The names of the IIS constraints whose bucket is `key`, in order. */
  function NamesIn(cs: seq<ConstrInfo>, key: string): seq<string> {
    if cs == [] then []
    else
      var last := cs[|cs| - 1];
      NamesIn(cs[..|cs| - 1], key) + (if last.inIIS && Bucket(last.name) == key then [last.name] else [])
  }

  /** The number of IIS constraints. */
  function IisCount(cs: seq<ConstrInfo>): nat {
    if cs == [] then 0 else IisCount(cs[..|cs| - 1]) + (if cs[|cs| - 1].inIIS then 1 else 0)
  }

  /** Each bucket lists, in order, exactly the IIS constraints with its
      prefix; a bucket is present only when it is non-empty, and only the
      five buckets occur. */
  lemma {:induction false} ReasonsAreBuckets(cs: seq<ConstrInfo>, key: string)
    ensures key in Reasons(cs) <==> NamesIn(cs, key) != []
    ensures key in Reasons(cs) ==> Reasons(cs)[key] == NamesIn(cs, key) && key in BucketKeys
  {
    if cs != [] {
      ReasonsAreBuckets(cs[..|cs| - 1], key);
    }
  }

  /** Every IIS constraint lands in exactly one bucket, and constraints
      outside the IIS in none. */
  lemma {:induction false} EveryIisConstraintInOneBucket(cs: seq<ConstrInfo>)
    ensures |NamesIn(cs, "courses")| + |NamesIn(cs, "teachers")| + |NamesIn(cs, "rooms")|
            + |NamesIn(cs, "slots")| + |NamesIn(cs, "other")| == IisCount(cs)
  {
    if cs != [] {
      EveryIisConstraintInOneBucket(cs[..|cs| - 1]);
    }
  }

  /** The bucket is decided by the prefix alone: the four prefixes exclude
      each other, so the order in which they are tried never matters. */
  lemma BucketByPrefix(name: string)
    ensures Bucket(name) == "courses" <==> StartsWith(name, "course_")
    ensures Bucket(name) == "teachers" <==> StartsWith(name, "teacher_")
    ensures Bucket(name) == "rooms" <==> StartsWith(name, "room_")
    ensures Bucket(name) == "slots" <==> StartsWith(name, "slot_")
  {
    if StartsWith(name, "course_") {
      assert name[0] == 'c';
    }
    if StartsWith(name, "teacher_") {
      assert name[0] == 't';
    }
    if StartsWith(name, "room_") {
      assert name[0] == 'r';
    }
    if StartsWith(name, "slot_") {
      assert name[0] == 's';
    }
  }

  // ---------------------------------------------------------------------
  // get_unschedulable_objects_from_iis
  // ---------------------------------------------------------------------

  /** `there_is_at_least_1_slot_1_room_1_teacher_assigned_to_course_`, written
      in pieces so that the verifier can see its characters. */
  const CoveragePrefix: string := "there_is_at_least_1_" + "slot_1_room_1_" + "teacher_assigned_" + "to_course_"

  /** Which branch of the classification a name takes, tried in the order
      teacher hard time, coverage, room-type need, generic course. */
  datatype NameKind = TeacherHardTime | Coverage | RoomTypeNeed | GenericCourse | Unrelated

  function Kind(name: string): NameKind {
    if StartsWith(name, "teacher_") && Contains(name, "_must_be_fulfilled") then TeacherHardTime
    else if StartsWith(name, CoveragePrefix) then Coverage
    else if StartsWith(name, "course_") && Contains(name, "_needs_") && Contains(name, "_allowed_") then RoomTypeNeed
    else if StartsWith(name, "course_") then GenericCourse
    else Unrelated
  }

  /** The exceptions Python raises while reading a name. */
  datatype PyError = ValueError | IndexError

  /** What one IIS constraint contributes. */
  datatype Action =
    | SetTeacherSlot(teacher: int, slot: int)
    | AddCourse(course: int)
    | SetAllowed(types: seq<string>)
    | NoAction

  /** The allowed room types named by a room-type constraint: the
      `_`-separated tokens after the first `_allowed_`. */
  function AllowedOf(name: string): seq<string>
    requires Contains(name, "_allowed_")
  {
    Split(AfterFirst(name, "_allowed_"), '_')
  }

  /** The teacher hard-time branch: `int(parts[1])`, then `int(parts[4])`
      of the `_`-separated fields. */
  function TeacherAction(name: string): Result<Action, PyError> {
    var parts := Split(name, '_');
    if |parts| < 2 then Failure(IndexError)
    else if ParseInt(parts[1]).None? then Failure(ValueError)
    else if |parts| < 5 then Failure(IndexError)
    else if ParseInt(parts[4]).None? then Failure(ValueError)
    else Success(SetTeacherSlot(ParseInt(parts[1]).value, ParseInt(parts[4]).value))
  }

  /** The coverage branch: `int(name.rsplit("_", 1)[1])`. */
  function CoverageAction(name: string): Result<Action, PyError> {
    var field := AfterLast(name, '_');
    if field.None? then Failure(IndexError)
    else if ParseInt(field.value).None? then Failure(ValueError)
    else Success(AddCourse(ParseInt(field.value).value))
  }

  /** The generic `course_` branch: `int(parts[1])` inside
      `try: ... except Exception: pass`, so every failure is skipped. */
  function CourseAction(name: string): Action {
    var parts := Split(name, '_');
    if |parts| < 2 || ParseInt(parts[1]).None? then NoAction
    else AddCourse(ParseInt(parts[1]).value)
  }

  /** The branch body for one IIS constraint name, with the exception it
      raises. */
  function Classify(name: string): Result<Action, PyError> {
    match Kind(name)
    case TeacherHardTime => TeacherAction(name)
    case Coverage => CoverageAction(name)
    case RoomTypeNeed => Success(SetAllowed(AllowedOf(name)))
    case GenericCourse => Success(CourseAction(name))
    case Unrelated => Success(NoAction)
  }

  /** What one constraint of the model contributes: nothing when it is
      outside the IIS. */
  function ActionOf(c: ConstrInfo): Result<Action, PyError> {
    if c.inIIS then Classify(c.name) else Success(NoAction)
  }

  /** The three accumulators: `unschedulable_courses`,
      `unschedulable_teachers_hard_time_dict` and `allowed_types`. */
  datatype Diagnosis = Diagnosis(courses: seq<int>, teacherSlots: map<int, int>, allowedTypes: seq<string>)

  function Apply(d: Diagnosis, act: Action): Diagnosis {
    match act
    case SetTeacherSlot(t, slot) => d.(teacherSlots := d.teacherSlots[t := slot])
    case AddCourse(c) => d.(courses := d.courses + [c])
    case SetAllowed(types) => d.(allowedTypes := types)
    case NoAction => d
  }

  /** The contribution of each constraint, in order. */
  function Actions(cs: seq<ConstrInfo>): (acts: seq<Result<Action, PyError>>)
    ensures |acts| == |cs| && forall k :: 0 <= k < |cs| ==> acts[k] == ActionOf(cs[k])
  {
    seq(|cs|, k requires 0 <= k < |cs| => ActionOf(cs[k]))
  }

  /** The accumulators after applying `acts` in order, or the first
      exception. */
  function Run(acts: seq<Result<Action, PyError>>): Result<Diagnosis, PyError> {
    if acts == [] then Success(Diagnosis([], map[], []))
    else
      var r := Run(acts[..|acts| - 1]);
      var act := acts[|acts| - 1];
      if r.Failure? then r
      else if act.Failure? then Failure(act.error)
      else Success(Apply(r.value, act.value))
  }

  /** The accumulators after the loop over `cs`, or the first exception. */
  function Diagnose(cs: seq<ConstrInfo>): Result<Diagnosis, PyError> {
    Run(Actions(cs))
  }

  /** What `get_unschedulable_objects_from_iis` returns: the courses as a set
      (`list(set(...))`), the teacher slots and the allowed types. */
  datatype Unschedulable = Unschedulable(courses: set<int>, teacherSlots: map<int, int>, allowedTypes: seq<string>)

  function Unschedulables(cs: seq<ConstrInfo>): Result<Unschedulable, PyError> {
    match Diagnose(cs)
    case Failure(e) => Failure(e)
    case Success(d) => Success(Unschedulable((set c | c in d.courses), d.teacherSlots, d.allowedTypes))
  }

  /** Once an exception is raised the loop is over. */
  lemma {:induction false} RunFailureStops(acts: seq<Result<Action, PyError>>, i: nat)
    requires i <= |acts| && Run(acts[..i]).Failure?
    ensures Run(acts) == Run(acts[..i])
    decreases |acts| - i
  {
    if i < |acts| {
      assert acts[..i + 1][..i] == acts[..i];
      RunFailureStops(acts, i + 1);
    } else {
      assert acts[..i] == acts;
    }
  }

  method GetUnschedulableObjectsFromIis(cs: seq<ConstrInfo>) returns (r: Result<Unschedulable, PyError>)
    ensures r == Unschedulables(cs)
  {
    ghost var acts := Actions(cs);
    var courses: seq<int> := [];
    var teacherSlots: map<int, int> := map[];
    var allowedTypes: seq<string> := [];
    for i := 0 to |cs|
      invariant Run(acts[..i]) == Success(Diagnosis(courses, teacherSlots, allowedTypes))
    {
      assert acts[..i + 1][..i] == acts[..i];
      if !cs[i].inIIS {
        continue;
      }
      var name := cs[i].name;
      var action := Classify(name);
      if action.Failure? {
        RunFailureStops(acts, i + 1);
        return Failure(action.error);
      }
      match action.value
      case SetTeacherSlot(t, slot) =>
        teacherSlots := teacherSlots[t := slot];
      case AddCourse(c) =>
        courses := courses + [c];
      case SetAllowed(types) =>
        allowedTypes := types;
      case NoAction =>
    }
    assert acts[..|cs|] == acts;
    r := Success(Unschedulable((set c | c in courses), teacherSlots, allowedTypes));
  }

  /** `AddCourse`, `SetTeacherSlot` and `SetAllowed` come only from their own
      branches, and only the teacher and coverage branches raise: the generic
      `course_` fallback swallows a non-integer field. */
  lemma ClassifyByKind(name: string)
    ensures Classify(name).Success? && Classify(name).value.SetTeacherSlot? ==> Kind(name) == TeacherHardTime
    ensures Classify(name).Success? && Classify(name).value.AddCourse? ==> Kind(name) == Coverage || Kind(name) == GenericCourse
    ensures Classify(name).Success? && Classify(name).value.SetAllowed? <==> Kind(name) == RoomTypeNeed
    ensures Classify(name).Failure? ==> Kind(name) == TeacherHardTime || Kind(name) == Coverage
  {
  }

  /** A teacher hard-time name whose second field is not an integer raises,
      while a generic course name with the same defect is skipped. */
  lemma NonIntegerFieldHandling(name: string)
    requires |Split(name, '_')| >= 2 && ParseInt(Split(name, '_')[1]).None?
    ensures Kind(name) == TeacherHardTime ==> Classify(name) == Failure(ValueError)
    ensures Kind(name) == GenericCourse ==> Classify(name) == Success(NoAction)
  {
  }

  /** A coverage constraint named after course `c` yields `c`. */
  lemma CoverageNameYieldsCourse(c: int)
    ensures Classify(CoveragePrefix + IntToString(c)) == Success(AddCourse(c))
  {
    var ds := IntToString(c);
    var name := CoveragePrefix + ds;
    var head := CoveragePrefix[..|CoveragePrefix| - 1];
    assert StartsWith(name, CoveragePrefix) by {
      assert name[..|CoveragePrefix|] == CoveragePrefix;
    }
    assert !StartsWith(name, "teacher_") by {
      assert |CoveragePrefix| > 1;
      assert CoveragePrefix[1] == 'h';
      assert name[1] == CoveragePrefix[1];
      assert "teacher_"[1] == 'e';
      if |name| >= 8 {
        assert name[..8][1] == name[1];
      }
    }
    assert Kind(name) == Coverage;
    forall ch | ch in ds ensures ch != '_' {
      IntToStringChars(c, ch);
    }
    assert name == head + ['_'] + ds;
    SplitSnocField(head, '_', ds);
    assert AfterLast(name, '_') == Some(ds);
    IntToStringParses(c);
  }

  predicate IsTeacherSlotFor(r: Result<Action, PyError>, t: int) {
    r.Success? && r.value.SetTeacherSlot? && r.value.teacher == t
  }

  predicate IsSetAllowed(r: Result<Action, PyError>) {
    r.Success? && r.value.SetAllowed?
  }

  /** The courses collected are exactly those of the `AddCourse` actions. */
  lemma {:induction false} RunCourses(acts: seq<Result<Action, PyError>>, c: int)
    requires Run(acts).Success?
    ensures c in Run(acts).value.courses <==> exists k :: 0 <= k < |acts| && acts[k] == Success(AddCourse(c))
  {
    if acts != [] {
      var init := acts[..|acts| - 1];
      assert Run(init).Success?;
      RunCourses(init, c);
      if exists k :: 0 <= k < |acts| && acts[k] == Success(AddCourse(c)) {
        var k :| 0 <= k < |acts| && acts[k] == Success(AddCourse(c));
        if k < |init| {
          assert init[k] == acts[k];
        }
      }
      if exists k :: 0 <= k < |init| && init[k] == Success(AddCourse(c)) {
        var k :| 0 <= k < |init| && init[k] == Success(AddCourse(c));
        assert init[k] == acts[k];
      }
    }
  }

  /** A teacher has a slot exactly when some action sets one, and the slot
      is that of the last such action: later entries overwrite earlier ones. */
  lemma {:induction false} RunTeacherSlot(acts: seq<Result<Action, PyError>>, t: int)
    requires Run(acts).Success?
    ensures t in Run(acts).value.teacherSlots <==> exists k :: 0 <= k < |acts| && IsTeacherSlotFor(acts[k], t)
    ensures t in Run(acts).value.teacherSlots ==>
        exists k :: 0 <= k < |acts| && acts[k] == Success(SetTeacherSlot(t, Run(acts).value.teacherSlots[t]))
          && forall j :: k < j < |acts| ==> !IsTeacherSlotFor(acts[j], t)
  {
    if acts != [] {
      var init := acts[..|acts| - 1];
      var act := acts[|acts| - 1];
      assert Run(init).Success?;
      RunTeacherSlot(init, t);
      var d := Run(acts).value;
      var d0 := Run(init).value;
      assert d == Apply(d0, act.value);
      if IsTeacherSlotFor(act, t) {
        assert d.teacherSlots[t] == act.value.slot;
      } else {
        assert t in d.teacherSlots <==> t in d0.teacherSlots;
        assert t in d.teacherSlots ==> d.teacherSlots[t] == d0.teacherSlots[t];
        if exists k :: 0 <= k < |acts| && IsTeacherSlotFor(acts[k], t) {
          var k :| 0 <= k < |acts| && IsTeacherSlotFor(acts[k], t);
          assert init[k] == acts[k];
        }
        if exists k :: 0 <= k < |init| && IsTeacherSlotFor(init[k], t) {
          var k :| 0 <= k < |init| && IsTeacherSlotFor(init[k], t);
          assert init[k] == acts[k];
        }
        if t in d.teacherSlots {
          var k :| 0 <= k < |init| && init[k] == Success(SetTeacherSlot(t, d0.teacherSlots[t]))
            && forall j :: k < j < |init| ==> !IsTeacherSlotFor(init[j], t);
          assert acts[k] == init[k];
          forall j | k < j < |acts| ensures !IsTeacherSlotFor(acts[j], t) {
            if j < |init| {
              assert acts[j] == init[j];
            }
          }
        }
      }
    }
  }

  /** The allowed types are those of the last `SetAllowed` action, and empty
      when there is none. */
  lemma {:induction false} RunAllowedTypes(acts: seq<Result<Action, PyError>>)
    requires Run(acts).Success?
    ensures (forall k :: 0 <= k < |acts| ==> !IsSetAllowed(acts[k])) ==> Run(acts).value.allowedTypes == []
    ensures forall k :: 0 <= k < |acts| && IsSetAllowed(acts[k]) && (forall j :: k < j < |acts| ==> !IsSetAllowed(acts[j]))
                    ==> Run(acts).value.allowedTypes == acts[k].value.types
  {
    if acts != [] {
      var init := acts[..|acts| - 1];
      assert Run(init).Success?;
      RunAllowedTypes(init);
      assert Run(acts).value == Apply(Run(init).value, acts[|acts| - 1].value);
      forall k | 0 <= k < |init| ensures init[k] == acts[k] {
      }
    }
  }

  /** The courses `get_unschedulable_objects_from_iis` returns are exactly
      those read from IIS coverage and generic course names. */
  lemma UnschedulableCourses(cs: seq<ConstrInfo>, c: int)
    requires Unschedulables(cs).Success?
    ensures c in Unschedulables(cs).value.courses <==> exists k :: 0 <= k < |cs| && ActionOf(cs[k]) == Success(AddCourse(c))
  {
    var acts := Actions(cs);
    RunCourses(acts, c);
    if exists k :: 0 <= k < |acts| && acts[k] == Success(AddCourse(c)) {
      var k :| 0 <= k < |acts| && acts[k] == Success(AddCourse(c));
      assert ActionOf(cs[k]) == Success(AddCourse(c));
    }
  }
}
