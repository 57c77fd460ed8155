# University timetabling: the compiled integer program and its helpers

This project models the Python code that turns a university timetabling problem into a 0/1 integer program for Gurobi, and the code that reads the solution back.

**The program.** There is one binary decision `x[slot, teacher, course, room]` per quadruple. Generators append linear constraints to the model for these rules:
- room exclusivity;
- teacher exclusivity;
- semester non-overlap;
- teachers' hard-unavailable slots;
- room capacity;
- room type;
- course coverage;
- course–teacher compatibility;
- "scheduled exactly once or dropped".

Three soft terms grow linear expressions and add them to the minimisation objective: undesired teacher slots, seat waste and faculty mismatch.

**Around it:**
- IIS diagnosis by constraint name;
- semester grouping and the assignment audit;
- `enum_try` with the room-type synonyms, and `load_timeslots`;
- the JSON loaders' strict enum lookups, and the solution export and print;
- the command line's weight parsing and the knapsack model and report.

**What is proved.** For every constraint family, an assignment satisfies the compiled constraints exactly when it satisfies the timetable rule they encode. For every soft term, the coefficient or value is what the rule says. The loops that build each family are proved to append exactly that family.

Modules follow the source files:

- `Structures` (structures.dfy): structures.py
- `LinearModel` (linear_model.dfy): the solver model, meaning variables, terms, constraints, the variable table and the `Model` class
- `HardConstraints` (hard_constraints.dfy): hard_constrains.py
- `SoftConstraints` (soft_constraints.dfy): soft_constrains.py
- `IisDiagnosis` and `ScheduleAudit` (iis_diagnosis.dfy, schedule_audit.dfy): lp_minimal_2.py
- `FlexLoading` and `FlexConstraints` (flex_loading.dfy, flex_constraints.dfy): lp_minimal_3.py
- `JsonIo` (json_io.dfy): json_loaders_savers.py
- `OptimizerCli` (optimizer_cli.dfy): optimizer_cli.py
- `PyStr`, `Sequences`, `ListDict` and `Wrappers`: the Python built-ins the core relies on (`str` methods, `int()`, `sorted`, `set`, `range`, `defaultdict(list)`)

**Conventions:**
- A candidate solution is an `Assignment`: the set of variables at 1.
- The reporting code compares solver values with `> 0.5`; that code reads booleans.
- The JSON export and the JSON printer compare with `== 1`; they take the values as a function `Quad -> real`, so the exact comparison is kept.
- Weights and coefficients are exact `real`s.
- Python exceptions are `Failure` values of a `Result`.
- A missing dictionary key is a `requires` wherever the source simply indexes the dictionary.
- `Times(n, w)` is `w` added `n` times. `LinearModel.TimesIsProduct` proves it equal to `n * w`.
- `Distinct` id lists are required where the source iterates dictionary keys or ids.

## Model

| member | source | states |
|---|---|---|
| Structures.EnumerationsAreExact | structures.py:5-21 | each of Faculty, RoomType, Building is exactly its listed members with the values 1, 2, … in declaration order and distinct names |
| LinearModel.Model.AddConstr | hard_constrains.py:15-17 | `m.addConstr` appends the constraint and changes nothing else |
| LinearModel.Model.constructor | lp_minimal_3.py:368 | `gp.Model()` starts with no constraints, no variables and an empty minimised objective |
| LinearModel.Model.AddVars | lp_minimal_3.py:291 | `m.addVars` appends the new variables |
| LinearModel.Model.SetObjective | soft_constrains.py:45 | `setObjective` replaces the objective and sense; the model then has one objective |
| LinearModel.EvalConcat | soft_constrains.py:30-34 | the value of `expr += e` is the sum of the two values |
| LinearModel.EvalScale | soft_constrains.py:36 | `expr *= w` multiplies the expression's value by `w` |
| LinearModel.CoefScale | soft_constrains.py:36 | `expr *= w` multiplies every variable's coefficient by `w` |
| LinearModel.CoefConcat | soft_constrains.py:30-34 | coefficients of `expr += e` add up |
| LinearModel.EvalNonNegative | soft_constrains.py:76-77 | an expression with non-negative coefficients has a non-negative value |
| LinearModel.TableMember | hard_constrains.py:13-16 | the variable table holds exactly the quadruples built from the four id lists |
| LinearModel.TableDistinct | hard_constrains.py:13-16 | over duplicate-free id lists every quadruple occurs in the table once |
| LinearModel.EvalUnitTerms | hard_constrains.py:16 | `quicksum(x[q] for q in qs)` is the number of active positions of `qs` |
| LinearModel.CountZero | hard_constrains.py:70 | a sum of unit terms is zero exactly when no quadruple is active |
| LinearModel.CountPositive | hard_constrains.py:122 | a sum of unit terms is at least one exactly when some quadruple is active |
| LinearModel.CountAtMostOne | hard_constrains.py:16 | over a duplicate-free list, the sum is at most one exactly when no two different quadruples are active |
| LinearModel.CoefUnitTerms | soft_constrains.py:29-34 | in a sum of unit terms a variable's coefficient is how often its quadruple occurs |
| LinearModel.TableCoef | soft_constrains.py:109-116 | over duplicate-free lists, a quadruple's coefficient in the table sum is 1 inside the table and 0 outside |
| LinearModel.SlotTeacherCoef | soft_constrains.py:72-77 | a quadruple's coefficient in one (slot, teacher) block sum is 1 inside the block and 0 outside |
| LinearModel.CoefFlatMapKey | soft_constrains.py:27-34 | when only the pieces of one key mention a variable, its coefficient is that piece's coefficient once per occurrence of the key |
| LinearModel.ScaledCount | soft_constrains.py:36 | scaling by `w` a variable of coefficient `n` gives it `n` times `w` |
| LinearModel.ScaledValue | soft_constrains.py:118 | scaling by `w` an expression worth `n` makes it worth `n` times `w` |
| LinearModel.TimesIsProduct | soft_constrains.py:36 | `n` repeated additions of `w` equal `n * w` |
| LinearModel.AllHoldFlatMap | hard_constrains.py:13-17 | constraints generated by a loop all hold exactly when those of every iteration hold |
| HardConstraints.AddSingleRoomSingleCourse | hard_constrains.py:12-17 | appends exactly the room-exclusivity family, room by room and slot by slot |
| HardConstraints.RoomSlotMeaning | hard_constrains.py:15-17 | one room-slot constraint holds exactly when at most one of its quadruples is active |
| HardConstraints.RoomExclusivityMeaning | hard_constrains.py:12-17 | the family holds exactly when no room hosts two different active quadruples in one slot |
| HardConstraints.RoomExclusivitySound | hard_constrains.py:12-17 | an assignment meeting the room constraints never puts two different active quadruples in one room and slot |
| HardConstraints.RoomExclusivityComplete | hard_constrains.py:12-17 | an assignment with no double-booked room meets every room constraint |
| HardConstraints.AddSingleTeacherSingleCourse | hard_constrains.py:20-30 | appends exactly the teacher-exclusivity family, teacher by teacher and slot by slot |
| HardConstraints.TeacherSlotMeaning | hard_constrains.py:24-30 | one teacher-slot constraint holds exactly when at most one of its quadruples is active |
| HardConstraints.TeacherExclusivityMeaning | hard_constrains.py:20-30 | the family holds exactly when no teacher has two different active quadruples in one slot |
| HardConstraints.TeacherExclusivitySound | hard_constrains.py:20-30 | an assignment meeting the teacher constraints never gives a teacher two different active quadruples in one slot |
| HardConstraints.TeacherExclusivityComplete | hard_constrains.py:20-30 | an assignment with no double-booked teacher meets every teacher constraint |
| HardConstraints.TeacherExclusivityHolds | hard_constrains.py:24-30 | under the family each (teacher, slot) sum is at most one |
| HardConstraints.CoursesInSemester | hard_constrains.py:42-45 | `courses_in_sem` holds exactly the courses whose semester list contains `sem` |
| HardConstraints.CoursesInSemesterDistinct | hard_constrains.py:42-45 | filtering a duplicate-free course list keeps it duplicate-free |
| HardConstraints.AddNoSemesterOverlapping | hard_constrains.py:38-55 | appends exactly the semester family, semester by semester and slot by slot |
| HardConstraints.SemesterSlotMeaning | hard_constrains.py:47-55 | one semester-slot constraint holds exactly when at most one quadruple of the semester's courses is active in that slot |
| HardConstraints.SemesterFamilyMeaning | hard_constrains.py:38-55 | the family holds exactly when no two courses sharing a listed semester run in one slot, so a course with two semesters is constrained in both |
| HardConstraints.SemesterFamilySound | hard_constrains.py:38-55 | meeting the semester constraints means no two courses of one semester run in the same slot |
| HardConstraints.SemesterFamilyComplete | hard_constrains.py:38-55 | a timetable without semester clashes meets every semester constraint |
| HardConstraints.AddTeacherHardTime | hard_constrains.py:59-71 | appends exactly one `== 0` constraint per teacher and per entry of its `hard_time_constr`; requires, as `x[slot, …]` does, that every listed slot is one of the slots `x` was built over whenever there is a course and a room |
| HardConstraints.HardTimeIndexesVariables | hard_constrains.py:64-70 | under that precondition every term of the family is a variable `x[s, t, c, r]` with `s` in the slots, `t`, `c`, `r` in the id lists |
| HardConstraints.HardTimeConstrMeaning | hard_constrains.py:65-71 | one hard-time constraint holds exactly when the teacher has no active quadruple in that slot |
| HardConstraints.HardTimeMeaning | hard_constrains.py:59-71 | the family holds exactly when no teacher is scheduled in any of its hard-unavailable slots |
| HardConstraints.HardTimeSound | hard_constrains.py:59-71 | meeting the hard-time constraints means no teacher teaches in a hard-unavailable slot |
| HardConstraints.HardTimeComplete | hard_constrains.py:59-71 | a timetable respecting every hard-unavailable slot meets every hard-time constraint |
| HardConstraints.PinsMeaning | hard_constrains.py:86-88 | the `x[q] == 0` pins hold exactly when none of their quadruples is active |
| HardConstraints.AddCapacityPins | hard_constrains.py:84-88 | appends one pin per slot and teacher for an over-full (course, room) pair |
| HardConstraints.AddRoomCapacity | hard_constrains.py:73-88 | appends exactly the capacity family: pins only for pairs with expected students > capacity |
| HardConstraints.CapacityPairMeaning | hard_constrains.py:83-88 | a pair's pins hold exactly when the pair is not over-full or none of its quadruples is active; equal capacity is allowed |
| HardConstraints.CapacityMeaning | hard_constrains.py:73-88 | the family holds exactly when no active quadruple seats more expected students than its room holds |
| HardConstraints.CapacitySound | hard_constrains.py:73-88 | meeting the capacity pins means no active quadruple puts a course in a room too small for it |
| HardConstraints.CapacityComplete | hard_constrains.py:73-88 | a timetable without over-full rooms meets every capacity pin |
| HardConstraints.RoomTypePinsMeaning | hard_constrains.py:100-104 | the room-type pins hold exactly when no quadruple with a disallowed room type is active |
| HardConstraints.AddRoomType | hard_constrains.py:90-104 | appends exactly one pin per quadruple, in table order, whose room type is not in `facility_constr` |
| HardConstraints.AddRoomTypeForTeacher | hard_constrains.py:96-104 | the two inner loops append the pins of one (slot, teacher) block |
| HardConstraints.RoomTypeMeaning | hard_constrains.py:90-104 | the family holds exactly when every active quadruple's room type is in its course's list, by plain membership |
| HardConstraints.EmptyFacilitiesUseNoRoom | hard_constrains.py:98-101 | a course with an empty `facility_constr` can use no room |
| HardConstraints.AddAllCoursesScheduled | hard_constrains.py:107-123 | appends exactly one `>= 1` coverage constraint per course |
| HardConstraints.CoverConstrMeaning | hard_constrains.py:116-123 | one coverage constraint holds exactly when the course has some active quadruple |
| HardConstraints.CoverageMeaning | hard_constrains.py:107-123 | the family holds exactly when every course is taught at least once |
| HardConstraints.CoverageAllowsRepeats | hard_constrains.py:122 | coverage is `>= 1`, not exactly one: a course held twice satisfies it |
| SoftConstraints.MinimizeAdding | soft_constrains.py:44-47 | sets the expression as a minimised objective on a model without one, otherwise adds it to the current objective |
| SoftConstraints.ObjectiveAfterValue | soft_constrains.py:44-47 | after several additions to a fresh model the objective is worth the sum of the added expressions |
| SoftConstraints.ObjectiveAfterExtends | soft_constrains.py:46-47 | on a model with an objective, the additions extend its value |
| SoftConstraints.SumEvalPermutation | soft_constrains.py:44-47 | the total of the added terms does not depend on their order |
| SoftConstraints.ObjectiveOrderIndependent | soft_constrains.py:44-47 | the three generators called in any order give objectives of equal value |
| SoftConstraints.AddTeacherSoftTimeObjective | soft_constrains.py:5-47 | builds the penalty teacher by teacher and listed slot by slot, scales it by `weight`, and adds it to the objective; requires, as `x[slot, …]` does, that every listed slot is one of the slots `x` was built over whenever there is a course and a room |
| SoftConstraints.TeacherSoftIndexesVariables | soft_constrains.py:27-34 | under that precondition every term of the penalty is a variable `x[s, t, c, r]` with `s` in the slots, `t`, `c`, `r` in the id lists |
| SoftConstraints.SoftSlotsCoef | soft_constrains.py:29-34 | within one teacher a quadruple's coefficient is how often its slot is listed |
| SoftConstraints.TeacherSoftTermsCoef | soft_constrains.py:27-34 | before weighting, a quadruple's coefficient is how often its slot appears in its teacher's `soft_time_constr` |
| SoftConstraints.TeacherSoftCoef | soft_constrains.py:27-36 | an active quadruple costs `weight` times the number of times its slot is listed, and nothing outside the table |
| SoftConstraints.DuplicateSoftSlotCountsTwice | soft_constrains.py:29 | a slot listed twice costs twice the weight |
| SoftConstraints.SoftSlotAtMostOneWeight | soft_constrains.py:18-19 | under teacher exclusivity, each undesired (teacher, slot) contributes at most one weight |
| SoftConstraints.ScaledAtMostOne | soft_constrains.py:36 | scaling a sum of at most one by a non-negative weight gives at most the weight |
| SoftConstraints.Waste | soft_constrains.py:76-77 | the seat waste is never negative |
| SoftConstraints.WasteTerms | soft_constrains.py:76-77 | every waste coefficient is non-negative |
| SoftConstraints.AddRoomWasteObjective | soft_constrains.py:50-87 | builds the waste expression in table order, scales it by `weight`, and adds it to the objective |
| SoftConstraints.AddWasteForTeacher | soft_constrains.py:72-77 | the course and room loops of one (slot, teacher) append the waste terms of that block |
| SoftConstraints.WasteTermsCoef | soft_constrains.py:76-77 | a quadruple's coefficient is its waste once per occurrence |
| SoftConstraints.WasteTableCoef | soft_constrains.py:70-77 | before weighting, a quadruple's coefficient is its waste inside the table and 0 outside |
| SoftConstraints.RoomWasteCoef | soft_constrains.py:70-79 | an active quadruple costs `weight` times (capacity − expected) when the room seats the course, and nothing otherwise |
| SoftConstraints.ExactFitCostsNothing | soft_constrains.py:76-77 | a room whose capacity equals the expected students costs nothing |
| SoftConstraints.RoomWasteNonNegative | soft_constrains.py:76-79 | with a non-negative weight the waste term is never negative |
| SoftConstraints.AddFacultyMismatchObjective | soft_constrains.py:90-126 | builds the mismatch expression in table order, scales it by `weight`, and adds it to the objective |
| SoftConstraints.AddMismatchForTeacher | soft_constrains.py:111-116 | the course and room loops of one (slot, teacher) append the mismatch terms of that block |
| SoftConstraints.MismatchTermsValue | soft_constrains.py:109-116 | over a duplicate-free list the unweighted mismatch sum is the number of active mismatched quadruples |
| SoftConstraints.FacultyMismatchCost | soft_constrains.py:109-118 | the mismatch cost is `weight` times the number of active quadruples whose room faculty differs from the course faculty |
| SoftConstraints.ZeroWeightContributesNothing | soft_constrains.py:36 | a weight of 0 makes each of the three terms worth nothing |
| IisDiagnosis.AnalyzeIis | lp_minimal_2.py:18-33 | the loop returns the bucket dictionary of the IIS constraints |
| IisDiagnosis.ReasonsAreBuckets | lp_minimal_2.py:19-33 | each bucket lists exactly, in order, the IIS constraints with its prefix; only the five buckets occur, and only when non-empty |
| IisDiagnosis.EveryIisConstraintInOneBucket | lp_minimal_2.py:20-32 | the bucket sizes add up to the number of IIS constraints; non-IIS constraints are ignored |
| IisDiagnosis.BucketByPrefix | lp_minimal_2.py:23-32 | a name lands in the bucket of its prefix (`course_`, `teacher_`, `room_`, `slot_`) and in "other" otherwise |
| IisDiagnosis.GetUnschedulableObjectsFromIis | lp_minimal_2.py:36-72 | the loop returns the courses, teacher slots and allowed types, or the first exception |
| IisDiagnosis.Actions | lp_minimal_2.py:43-70 | each constraint contributes, in order, the action its name calls for |
| IisDiagnosis.RunFailureStops | lp_minimal_2.py:51-56 | an exception ends the loop |
| IisDiagnosis.ClassifyByKind | lp_minimal_2.py:49-70 | priority is teacher hard time > coverage > room-type need > generic course; only the teacher and coverage branches raise |
| IisDiagnosis.NonIntegerFieldHandling | lp_minimal_2.py:49-70 | a non-integer second field raises in the teacher branch and is skipped in the generic course branch |
| IisDiagnosis.CoverageNameYieldsCourse | lp_minimal_2.py:55-57 | a coverage name ending in a course id yields that course |
| IisDiagnosis.RunCourses | lp_minimal_2.py:55-70 | the collected courses are exactly those of the coverage and generic course names |
| IisDiagnosis.RunTeacherSlot | lp_minimal_2.py:49-53 | a teacher gets a slot exactly when some name sets one, and the last such name wins |
| IisDiagnosis.RunAllowedTypes | lp_minimal_2.py:59-61 | the allowed types are those of the last room-type name, and empty when there is none |
| IisDiagnosis.UnschedulableCourses | lp_minimal_2.py:72 | the returned course set holds exactly the courses read from IIS names, with no duplicates |
| ScheduleAudit.BuildCoursesBySemester | lp_minimal_2.py:77-82 | the loops return the grouping of course ids by semester |
| ScheduleAudit.CoursesBySemesterLists | lp_minimal_2.py:77-82 | each semester lists, in input order, each course tagged with it once per tag; the keys are exactly the listed semesters, each once, and no list is empty |
| ScheduleAudit.FirstNonEmpty | lp_minimal_2.py:90-92 | finds the first semester with courses, if any |
| ScheduleAudit.PickedSemesterHasCourses | lp_minimal_2.py:85-92 | the preferred semester if it has courses, else the first semester that has courses |
| ScheduleAudit.PickWithoutCourses | lp_minimal_2.py:94-95 | with no courses anywhere: the first key, else the preferred value or "UNKNOWN" |
| ScheduleAudit.PickFromGrouping | lp_minimal_2.py:85-95 | picking from a grouping in which some course lists a semester yields a semester with courses |
| ScheduleAudit.CountAssignmentsCountsActive | lp_minimal_2.py:114-122 | over duplicate-free lists `count_assignments` is the number of active quadruples |
| ScheduleAudit.CountActiveDistinct | lp_minimal_2.py:114-122 | over a duplicate-free list, counting active positions counts distinct active quadruples |
| ScheduleAudit.CountRooms | lp_minimal_2.py:161-163 | the room loop counts the active quadruples of its block |
| ScheduleAudit.CountCourseAssignments | lp_minimal_2.py:156-163 | the three loops count one course's active quadruples |
| ScheduleAudit.TallySemesters | lp_minimal_2.py:174-177 | every listed semester gains one in the total, and one in the scheduled count when the course was scheduled |
| ScheduleAudit.BumpAllCounts | lp_minimal_2.py:174-175 | a semester gains one per time it is listed |
| ScheduleAudit.AuditCourseAssignments | lp_minimal_2.py:124-177 | the course loop returns the audit counters, or the `KeyError` of a course missing from `course_by_id` |
| ScheduleAudit.AuditFailureStops | lp_minimal_2.py:173-174 | once a course raises `KeyError`, the later courses do not change the result |
| ScheduleAudit.AuditPartition | lp_minimal_2.py:165-170 | every course is unscheduled, scheduled once, or scheduled several times (with its count), and the three sizes add up to the number of courses |
| ScheduleAudit.AuditSemesters | lp_minimal_2.py:172-177 | per semester, scheduled ≤ total; without `course_by_id` both stay empty |
| ScheduleAudit.AuditKeyError | lp_minimal_2.py:173-174 | the audit raises exactly when `course_by_id` is given and misses a course |
| ScheduleAudit.AuditAgreesWithCount | lp_minimal_2.py:114-163 | the per-course counts add up to `count_assignments` |
| ScheduleAudit.SlotsAreOneToThirtyOne | lp_minimal_2.py:224 | the slots are 1 to 31 |
| ScheduleAudit.DaysPartitionSlots | lp_minimal_2.py:232-238 | every slot lies in exactly one of the five days, and the days hold only slots |
| ScheduleAudit.DayBoundsDetermineDay | lp_minimal_2.py:232-238 | a slot inside a day's bounds belongs to that day and no other |
| ScheduleAudit.EarlySlotsAreDayStarts | lp_minimal_2.py:291 | the early slots are exactly the first slot of each day |
| FlexLoading.EnumTryWith | lp_minimal_3.py:60-86 | the result is the input unchanged or a member of the requested enumeration |
| FlexLoading.MemberFor | lp_minimal_3.py:72-84 | a found member is one of the enumeration's names |
| FlexLoading.EnumTryKeepsNonStrings | lp_minimal_3.py:60-86 | None, members and numbers come back unchanged |
| FlexLoading.EnumTryIgnoresCase | lp_minimal_3.py:67-75 | a string whose stripped, upper-cased form names a member (and is no synonym) becomes that member |
| FlexLoading.MemberForUpper | lp_minimal_3.py:70-75 | a key whose upper-case form is a member name finds that member |
| FlexLoading.EnumTryUnknown | lp_minimal_3.py:86 | a string naming no member and no synonym stays a string |
| FlexLoading.ComputerSynonyms | lp_minimal_3.py:33-70 | "lab", "pc", "pcpool" and "pool", in any case and trimmed, mean COMPUTER |
| FlexLoading.NoStringBecomesLab | lp_minimal_3.py:33-70 | no string yields the LAB room type |
| FlexLoading.SynonymTargets | lp_minimal_3.py:33-39 | every synonym names COMPUTER or LECTURE |
| FlexLoading.MemberNamesAreEnumNames | structures.py:5-21 | the names `enum_try` can find are the enumerations' member names, all upper case |
| FlexLoading.HoersaalAsWritten | lp_minimal_3.py:38 | with the synonym key as written, "Hörsaal" stays a string |
| FlexLoading.LectureHallSynonym | lp_minimal_3.py:38-70 | with the key spelt "HÖRSAAL", every spelling of it means LECTURE; with the key as written it stays a string |
| FlexLoading.CollectTimeslots | lp_minimal_3.py:222-233 | the reading loop returns the collected ids, day lists and records, or the first `int()` error |
| FlexLoading.FailureStops | lp_minimal_3.py:226 | a failing record ends loading |
| FlexLoading.CollectFailure | lp_minimal_3.py:223-226 | the loop fails exactly when some record's id does not parse |
| FlexLoading.CollectIds | lp_minimal_3.py:223-229 | it lists the id of every record that has one (`timeslot_id`, else `slot_id`, else `id`) and keeps a record for exactly those ids |
| FlexLoading.CollectById | lp_minimal_3.py:229 | for each id, the last record with that id is kept |
| FlexLoading.CollectDayLists | lp_minimal_3.py:231-233 | each id is filed under the day of every record that has it |
| FlexLoading.CollectDayListsInOrder | lp_minimal_3.py:222-233 | each day's list is exactly the ids of that day's records, in record order, repeats included |
| FlexLoading.CollectDayKeys | lp_minimal_3.py:231-233 | the days are those of the records that have an id and a day |
| FlexLoading.RecordContents | lp_minimal_3.py:228-233 | recording one id appends it, stores its record, and files it under its day |
| FlexLoading.LoadTimeslots | lp_minimal_3.py:209-244 | returns the result of reading, sorting and grouping |
| FlexLoading.LoadFailure | lp_minimal_3.py:222-237 | loading fails exactly when an id does not parse or no record has an id |
| FlexLoading.LoadedSlots | lp_minimal_3.py:235-243 | the slots are the sorted distinct ids, strictly increasing, given as a range exactly when they are contiguous |
| FlexLoading.SlotsOfIds | lp_minimal_3.py:243 | the range form and the list form stand for the same ids |
| FlexLoading.SlotsAreRecordIds | lp_minimal_3.py:223-243 | the slots are exactly the records' ids |
| FlexLoading.DayLeTotal | lp_minimal_3.py:239-240 | `day_sort_key` orders all day names totally |
| FlexLoading.WeekdaysFirst | lp_minimal_3.py:239-240 | a weekday sorts before every non-weekday name |
| FlexLoading.DayNamesOrdered | lp_minimal_3.py:239-242 | the days come Monday first and unknown names last by name, each once, and are the days of the records |
| FlexLoading.DaysAreSortedIds | lp_minimal_3.py:242 | each day lists, ascending, the ids of that day's records |
| FlexLoading.DayListsSorted | lp_minimal_3.py:242 | each day's list is its dictionary entry, sorted |
| FlexConstraints.Allowed | lp_minimal_3.py:261-262 | the allowed teachers are the listed teachers that exist |
| FlexConstraints.AddCourseCompat | lp_minimal_3.py:272-278 | for a restricting course, appends one `== 0` constraint per existing teacher that is not listed |
| FlexConstraints.AddCourseTeacherCompatibility | lp_minimal_3.py:249-283 | appends exactly the compatibility family, and warns exactly when some course has an empty list or lists only unknown teachers |
| FlexConstraints.NotAllowedMeaning | lp_minimal_3.py:275-278 | one constraint holds exactly when the teacher never teaches the course |
| FlexConstraints.CourseCompatMeaning | lp_minimal_3.py:272-278 | a restricting course's constraints hold exactly when all its active quadruples have a listed teacher |
| FlexConstraints.CompatMeaning | lp_minimal_3.py:260-278 | the family holds exactly when restricting courses use only listed teachers; courses with empty or wholly unknown lists are unconstrained |
| FlexConstraints.NoTeacherListsNoCompat | lp_minimal_3.py:260-270 | when no course carries teacher ids (the `getattr` default for the `Course` of structures.py) no compatibility constraint is added, and the empty-list warning fires exactly when some course is known |
| FlexConstraints.AddAllCoursesScheduledSoft | lp_minimal_3.py:286-297 | adds one `u[c]` per course and one "scheduled or dropped" constraint per course, and returns `penalty * sum(u)` |
| FlexConstraints.ScheduledOrDroppedMeaning | lp_minimal_3.py:293-296 | one constraint holds exactly when the course is scheduled once and not dropped, or not scheduled and dropped |
| FlexConstraints.SoftCoverageMeaning | lp_minimal_3.py:291-296 | the family holds exactly when every course is scheduled exactly once or dropped, never both |
| FlexConstraints.DropVars | lp_minimal_3.py:291 | one drop variable per course, in course order |
| FlexConstraints.DropTerms | lp_minimal_3.py:297 | one unit term per drop variable |
| FlexConstraints.DroppedCountIsDropped | lp_minimal_3.py:297 | over a duplicate-free list the count of dropped positions is the number of dropped courses |
| FlexConstraints.DropCost | lp_minimal_3.py:297 | the drop cost is the penalty times the number of dropped courses |
| FlexConstraints.RoomRows | lp_minimal_3.py:335-350 | the room loop appends the rows of the assigned quadruples |
| FlexConstraints.CourseRows | lp_minimal_3.py:331-350 | the course loop skips courses outside the semester |
| FlexConstraints.PrintScheduleForSemester | lp_minimal_3.py:316-352 | returns the rows of the nested loops, sorted by slot |
| FlexConstraints.ListedOtherSemester | lp_minimal_3.py:333-334 | a course outside the semester contributes no row |
| FlexConstraints.ListedMember | lp_minimal_3.py:331-350 | a row is listed exactly when some visited quadruple of the semester is assigned and gives that row |
| FlexConstraints.ScheduleRowsContents | lp_minimal_3.py:328-352 | the rows are sorted by slot, are a permutation of the loop's rows, and are exactly the rows of the semester's assigned quadruples |
| FlexConstraints.ScheduleRowsEmpty | lp_minimal_3.py:333-357 | no row exactly when no quadruple of the semester is assigned |
| FlexConstraints.ScheduleRowsLoopOrder | lp_minimal_3.py:352 | with ascending slots the stable sort keeps the loop order |
| JsonIo.FacultyNamed | json_loaders_savers.py:15 | a found faculty has exactly the given name |
| JsonIo.BuildingNamed | json_loaders_savers.py:80 | a found building has exactly the given name |
| JsonIo.RoomTypeNamed | json_loaders_savers.py:82 | a found room type has exactly the given name |
| JsonIo.NamedLookupsAreExact | json_loaders_savers.py:80-83 | a lookup succeeds exactly on a member's own name and finds that member |
| JsonIo.LookupIsCaseSensitive | json_loaders_savers.py:80-83 | lower-case names fail |
| JsonIo.TeacherOf | json_loaders_savers.py:12-19 | a teacher loads exactly when its faculty is a member's name, keeping every field; otherwise it fails on that name |
| JsonIo.RoomOf | json_loaders_savers.py:78-85 | a room loads exactly when address, type and faculty are member names, keeping every field; it fails on the first unknown name |
| JsonIo.ConvertAllMeaning | json_loaders_savers.py:77-87 | the comprehension succeeds exactly when every item does, keeps the order, and otherwise fails with the first error |
| JsonIo.QuadOf | json_loaders_savers.py:123-128 | a record carries exactly slot, teacher, course and room |
| JsonIo.ExportedMember | json_loaders_savers.py:122-128 | a record is written exactly for a quadruple whose value is exactly 1 |
| JsonIo.ExportedDistinct | json_loaders_savers.py:118-128 | over a duplicate-free table no record is written twice |
| JsonIo.SavedSolutionMeaning | json_loaders_savers.py:113-128 | saving fails exactly on a non-OPTIMAL status; otherwise the records are exactly the table's quadruples valued exactly 1 |
| JsonIo.NoTolerance | json_loaders_savers.py:122 | a value close to 1 but not 1 is not exported |
| JsonIo.SaveRooms | json_loaders_savers.py:121-128 | the room loop appends the records of its block |
| JsonIo.SaveSlot | json_loaders_savers.py:119-128 | the teacher, course and room loops append the records of one slot |
| JsonIo.SaveScheduleToJson | json_loaders_savers.py:104-128 | returns the records, or the `RuntimeError` for a non-OPTIMAL status |
| JsonIo.PrintOrderMember | json_loaders_savers.py:173-179 | the printer visits the same quadruples as the table |
| JsonIo.PrintRooms | json_loaders_savers.py:179-187 | the room loop prints one line per quadruple valued exactly 1 |
| JsonIo.PrintCourse | json_loaders_savers.py:178-187 | the teacher and room loops of one course of the semester |
| JsonIo.CourseTeachersSkipped | json_loaders_savers.py:175-176 | a course outside the semester prints nothing |
| JsonIo.PrintSlot | json_loaders_savers.py:174-187 | the course loop of one slot, with the semester test |
| JsonIo.PrintScheduleForSemester | json_loaders_savers.py:152-190 | returns the printed lines |
| JsonIo.AsWrittenPrintsNothing | json_loaders_savers.py:173-190 | as written, the output is always the header and "No courses scheduled" |
| JsonIo.AsWrittenMissesAssignedCourse | json_loaders_savers.py:175 | a course of the semester assigned once is reported as nothing scheduled |
| JsonIo.PrintedLines | json_loaders_savers.py:173-187 | with a membership test, the lines are exactly those of the semester's quadruples valued exactly 1 |
| JsonIo.LinesAreSlotLines | json_loaders_savers.py:183-190 | a schedule line is never the nothing-scheduled message |
| JsonIo.PrintedNothing | json_loaders_savers.py:164-190 | with a membership test, the output starts with the header and says nothing is scheduled exactly when nothing of the semester is assigned |
| OptimizerCli.SplitOnce | optimizer_cli.py:236 | the split is at the first `=`, rejoins to the input, and fails exactly without `=` |
| OptimizerCli.SplitOnceFirst | optimizer_cli.py:236 | a key without `=` followed by `=` and anything splits back into those parts |
| OptimizerCli.WeightItemMeaning | optimizer_cli.py:234-237 | an item without `=` is refused; otherwise the stripped key gets the stripped value's number, or the conversion error |
| OptimizerCli.ParseWeights | optimizer_cli.py:228-238 | the loop returns the weight dictionary or the first error |
| OptimizerCli.BuildDictFailure | optimizer_cli.py:233-237 | parsing fails exactly when some argument is refused, with the first such error |
| OptimizerCli.BuildDictAccepted | optimizer_cli.py:233-237 | a parsed dictionary accepted every argument |
| OptimizerCli.BuildDictKeys | optimizer_cli.py:237 | the keys are exactly the arguments' keys |
| OptimizerCli.BuildDictLastWins | optimizer_cli.py:237 | each key holds the value of the last argument naming it |
| OptimizerCli.FailureKeeps | optimizer_cli.py:233-237 | once an argument is refused, the later arguments are not looked at |
| OptimizerCli.ScheduleWeights | optimizer_cli.py:281-286 | user weights override the defaults, unmentioned defaults are kept, and no other key appears |
| OptimizerCli.WeightOf | optimizer_cli.py:139-147 | `weights.get(key, default)` |
| OptimizerCli.WeightsUsed | optimizer_cli.py:137-148 | each soft term gets the user's weight if given, else the default |
| OptimizerCli.LoadKnapsack | optimizer_cli.py:54-65 | the input is accepted exactly when both are lists of equal length and capacity ≥ 0, and otherwise fails with the first check's message |
| OptimizerCli.ItemTerms | optimizer_cli.py:74-75 | one term per item, with its coefficient |
| OptimizerCli.KnapsackMeaning | optimizer_cli.py:74-75 | a selection is feasible exactly when the total of the first `len(values)` weights over its items is at most the capacity, and the objective is its total value |
| OptimizerCli.EvalItemTerms | optimizer_cli.py:74-75 | the value of the item sum is the total of the chosen items |
| OptimizerCli.BuildKnapsackModel | optimizer_cli.py:68-77 | `n = len(values)` item variables, the single capacity constraint over the first `n` weights, and the total value maximised; requires `len(weights) >= n`, since a shorter `weights` raises `IndexError` at line 75 |
| OptimizerCli.KnapsackTermsAreModelVars | optimizer_cli.py:69-75 | every variable the capacity constraint and the objective mention is one of the `n` variables `addVars(n)` created |
| OptimizerCli.LoadedKnapsackBuilds | optimizer_cli.py:275-276 | what `load_knapsack_json` accepts meets the requirement of `build_knapsack_model`, and its capacity constraint then weighs every entry of `weights` |
| OptimizerCli.NameIndexOfVarName | optimizer_cli.py:82-83 | every generated name `x[i]` starts with `x[` and parses back to `i` |
| OptimizerCli.PickKnapsackVar | optimizer_cli.py:83 | a variable `x[i]` is chosen exactly when its value exceeds 0.5 |
| OptimizerCli.ChosenItemsOfKnapsack | optimizer_cli.py:82-83 | for the knapsack's variables the chosen list is the items over 0.5, in index order |
| OptimizerCli.SelectedMeaning | optimizer_cli.py:83 | the selection holds exactly the items over 0.5, strictly increasing |
| OptimizerCli.ReportKnapsackSolution | optimizer_cli.py:80-86 | a non-OPTIMAL status reports the status and nothing else |
| OptimizerCli.ReportOfKnapsack | optimizer_cli.py:80-84 | on an optimal knapsack the report lists, ascending, exactly the items over 0.5 |
| OptimizerCli.ObjectiveAsWrittenRaises | optimizer_cli.py:137-150 | the three soft functions return `None`, so their sum raises `TypeError` |
| OptimizerCli.ObjectiveAsIntended | optimizer_cli.py:150 | with the expressions returned, the sum is worth what the three additions already put in the objective |
| PyStr.FindFrom | lp_minimal_2.py:49-59 | the first occurrence at or after a position, or none |
| PyStr.ContainsIff | lp_minimal_2.py:49-59 | `p in s` exactly when `p` occurs in `s` |
| PyStr.SplitJoin | lp_minimal_2.py:50-52 | `split` on one character rejoins to the string, and no field holds the separator |
| PyStr.SplitFieldsHaveNoSep | lp_minimal_2.py:50-52 | no field of a split holds the separator |
| PyStr.SplitSnocField | lp_minimal_2.py:56 | the last field of `a + sep + b` is `b` when `b` has no separator |
| PyStr.StripLeft | lp_minimal_3.py:67 | removes exactly the leading whitespace |
| PyStr.StripRight | lp_minimal_3.py:67 | removes exactly the trailing whitespace |
| PyStr.StripNoSpace | lp_minimal_3.py:67 | a string neither starting nor ending with whitespace is unchanged by `strip()` |
| PyStr.Upper | lp_minimal_3.py:70-75 | `upper()` upper-cases each character in place |
| PyStr.IntToStringParses | lp_minimal_2.py:51-56 | `int(str(n)) == n` |
| PyStr.StrLeTotal | lp_minimal_3.py:240 | string comparison is total |
| PyStr.StrLeTransitive | lp_minimal_3.py:240 | string comparison is transitive |
| PyStr.StrLeAntisymmetric | lp_minimal_3.py:240 | only equal strings compare both ways |
| Sequences.Dedup | lp_minimal_3.py:235 | `set()` keeps exactly the elements, each once |
| Sequences.SortBy | lp_minimal_3.py:242 | `sorted` returns a permutation |
| Sequences.SortBySorted | lp_minimal_3.py:352 | `sorted` returns an ordered list for a total preorder |
| Sequences.SortByOfSorted | lp_minimal_3.py:352 | `sorted` is stable: an ordered list is unchanged |
| Sequences.SortedSet | lp_minimal_3.py:235 | `sorted(set(ids))` holds exactly the ids |
| Sequences.SortedSetIncreasing | lp_minimal_3.py:235 | `sorted(set(ids))` is strictly increasing |
| Sequences.ContiguousIsRange | lp_minimal_3.py:243 | strictly increasing ids with no gap are the range from first to last |
| Sequences.Range | lp_minimal_2.py:232-238 | `range(lo, hi)` lists `lo` to `hi - 1` |
| ListDict.AppendIdLookup | lp_minimal_2.py:81 | `d[key].append(id)` extends exactly the entry of `key` |
| ListDict.LookupAt | lp_minimal_2.py:81 | in a dictionary with distinct keys, each key finds its own entry |
| ListDict.AppendIdKeys | lp_minimal_2.py:81 | a new key is added last, in insertion order |
| ListDict.AppendIdDistinct | lp_minimal_3.py:233 | appending keeps the keys distinct |

## Left out

- The solver is not modelled. This covers `optimize`, `computeIIS`, status codes, `getValue` and `.X`. The IIS is an input list of (name, in-IIS) pairs. Solver values are a 0/1 assignment for the `> 0.5` readers, and a `Quad -> real` function for the `== 1` readers.
- The `use_multiobj`/`setObjectiveN` branches of the soft terms are not modelled. They are multi-objective solver features.
- The soft terms called at lp_minimal_2.py:330-383 but not defined in soft_constrains.py are not modelled, because their behaviour is not in the code.
- `construct_flex` (lp_minimal_3.py:89-194) is not modelled: it reflects over constructor signatures at run time.
- All file and JSON reading and writing is left out: `read_json_list`, `open`, `json.load` and `json.dump`. The loaders start from the parsed items.
- `load_courses` in json_loaders_savers.py:40-57 is not modelled. It indexes the built-in `type` with `type[rt]` and passes a `times_per_week` field that `Course` does not have, so it cannot build a course.
- Floating-point work is not modelled: `print_objective_breakdown`, its NaN checks and the MIP progress callback.
- OptimizerCli.WeightItemMeaning: `float()` on a string is a parameter `toFloat` and is not modelled itself.
- Printed text is reduced to the lines that carry information: the audit's summary lines, the timeslot `start`/`end` fields, and the knapsack's objective value line are not modelled.
- `solve_model_file`, the argparse wiring, `optimize_and_report`, `report_schedule_solution` and the IIS file write are not modelled. They only call the solver or read files.
- json_generator.py, gen_hard_knapsack.py, structures_loaders.py, model.py, main.py, lp_minimal.py, mip_knapsack.py, load_and_solve.py and callback_progress.py are not part of this model. They are data generators, demos or duplicate wiring of the same functions.
- IisDiagnosis.UnschedulableCourses: `list(set(...))` is a set here, so the order of the returned list is not modelled.
- PyStr.Upper: upper case is modelled for ASCII and Latin-1 letters only. Python's full Unicode case mapping, including characters that upper-case to two characters, is not modelled.
- FlexLoading.CollectIds and the other load_timeslots lemmas: they are stated over any id and day reader, and the model's readers are the ones `LoadedTimeslots` uses. `str()` of a JSON value is modelled for integers and strings only.
- A dictionary lookup that raises `KeyError` is a precondition. This covers `teacher_by_id[t]`, `course_by_id[c]` and `room_by_id[r]` in the generators, `x[slot, …]` for the teachers' listed slots in HardConstraints.AddTeacherHardTime and SoftConstraints.AddTeacherSoftTimeObjective, and the lookups in the printers. The exception path itself is not modelled, except in the audit, where `course_by_id` is optional.
- FlexLoading.EnumTryWith: `hasattr`/`getattr` on the enumeration class also find attributes that are not members (`mro`, `__doc__`, `__members__`, …) and return them. Only member names are modelled, so for such a key the model returns the string unchanged where the source returns the attribute.
- FlexLoading.EnumTryUnknown: for the same reason it holds only for strings that name no class attribute; a string naming a non-member attribute comes back as that attribute in the source.
- The `teacherIds` field of `Structures.Course` does not exist in the `Course` dataclass of structures.py. lp_minimal_3.py:261 reads it with a `getattr` default of `[]`, so with that dataclass every list is empty and FlexConstraints.NoTeacherListsNoCompat applies. The compatibility lemmas describe a course type that carries the list.
- OptimizerCli.LoadKnapsack starts from the three entries already read. The `KeyError` of `data["values"]`, `data["weights"]` or `data["capacity"]` on a missing key (optimizer_cli.py:54-56) is not modelled. The `TypeError` of `capacity < 0` on a non-number (line 62) is not modelled either, and list items are numbers, although line 58 accepts a list of anything.
- PyStr.ParseInt: only ASCII digits are modelled; Python's `int()` also accepts other Unicode decimal digits.
- JsonIo.TeacherOf and JsonIo.RoomOf start from items whose fields are present and typed; the `KeyError` of `item["…"]` on a missing JSON key and wrongly typed values are not modelled.
- SoftConstraints.TeacherSoftCoef, SoftConstraints.RoomWasteCoef and SoftConstraints.FacultyMismatchCost give costs as `Times(n, weight)`, which LinearModel.TimesIsProduct proves equal to `n * weight`.

## Findings

| source | as written | input that shows it | evidently intended | confidence | as-written member | corrected member |
|---|---|---|---|---|---|---|
| lp_minimal_3.py:38 | the lecture-hall synonym key is "HÃ–RSAAL", the UTF-8 bytes of "HÖRSAAL" read as Windows-1252 | `enum_try(RoomType, "Hörsaal")` stays the string "Hörsaal" | the key "HÖRSAAL", so that "Hörsaal" in any case means LECTURE | high; not executed | FlexLoading.HoersaalAsWritten | FlexLoading.LectureHallSynonym |
| json_loaders_savers.py:175 | `course_by_id[c_id].semester != semester` compares a list with a string, which is always unequal | a course with `semester=["BI1"]` assigned once, printed for "BI1", gives "No courses scheduled for this semester." | membership `semester not in course.semester`, as lp_minimal_3.py:333 does | high; not executed | JsonIo.AsWrittenMissesAssignedCourse | JsonIo.PrintedLines |
| optimizer_cli.py:150 | `teacher_soft + room_waste + faculty_mismatch` adds the three return values, which are all `None` | a courses file holding `[]` (any other courses file already fails in `load_courses` at line 109): line 150 raises `TypeError` before solving | the soft terms already in the objective, which the three calls have built up | high; not executed | OptimizerCli.ObjectiveAsWrittenRaises | OptimizerCli.ObjectiveAsIntended |
