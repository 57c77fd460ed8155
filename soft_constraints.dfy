/** The soft objective terms: each generator grows a linear expression in the
    order of its nested loops, multiplies it by its weight and adds it to the
    model's single minimisation objective (or sets the objective when the
    model has none yet). */
module SoftConstraints {

  import opened LinearModel
  import opened Structures
  import HardConstraints

  // ---------------------------------------------------------------------
  // Adding to the running objective
  // ---------------------------------------------------------------------

  /** The objective after adding `e`: `e` itself on a model without an
      objective, otherwise the current objective followed by `e`. */
  function Accumulated(numObj: nat, current: LinExpr, e: LinExpr): LinExpr {
    if numObj == 0 then e else current + e
  }

  /** `if m.NumObj == 0: m.setObjective(e, MINIMIZE)
      else: m.setObjective(m.getObjective() + e, MINIMIZE)` */
  method MinimizeAdding(m: Model, e: LinExpr)
    modifies m`objective, m`objSense, m`numObj
    ensures m.objective == Accumulated(old(m.numObj), old(m.objective), e)
    ensures m.objSense == Minimize && m.numObj == 1
  {
    if m.numObj == 0 {
      m.SetObjective(e, Minimize);
    } else {
      m.SetObjective(m.objective + e, Minimize);
    }
  }

  /** The objective after the generators have added `es`, one after the
      other, to a model with `numObj` objectives and objective `current`. */
  function ObjectiveAfter(numObj: nat, current: LinExpr, es: seq<LinExpr>): LinExpr {
    if es == [] then current
    else Accumulated(if |es| == 1 then numObj else 1, ObjectiveAfter(numObj, current, es[..|es| - 1]), es[|es| - 1])
  }

  /** The total value of the expressions `es`. */
  function SumEval(es: seq<LinExpr>, a: Assignment): real {
    if es == [] then 0.0 else SumEval(es[..|es| - 1], a) + Eval(es[|es| - 1], a)
  }

  /** Starting from a model without an objective, the objective after several
      additions is worth the sum of the added expressions. */
  lemma {:induction false} ObjectiveAfterValue(current: LinExpr, es: seq<LinExpr>, a: Assignment)
    requires |es| > 0
    ensures Eval(ObjectiveAfter(0, current, es), a) == SumEval(es, a)
  {
    var init := es[..|es| - 1];
    if |es| > 1 {
      ObjectiveAfterValue(current, init, a);
      EvalConcat(ObjectiveAfter(0, current, init), es[|es| - 1], a);
    } else {
      assert init == [];
    }
  }

  /** On a model that already has an objective the additions extend it. */
  lemma {:induction false} ObjectiveAfterExtends(current: LinExpr, es: seq<LinExpr>, a: Assignment)
    ensures Eval(ObjectiveAfter(1, current, es), a) == Eval(current, a) + SumEval(es, a)
  {
    if es != [] {
      var init := es[..|es| - 1];
      ObjectiveAfterExtends(current, init, a);
      EvalConcat(ObjectiveAfter(1, current, init), es[|es| - 1], a);
    }
  }

  lemma {:induction false} SumEvalConcat(xs: seq<LinExpr>, ys: seq<LinExpr>, a: Assignment)
    ensures SumEval(xs + ys, a) == SumEval(xs, a) + SumEval(ys, a)
    decreases |ys|
  {
    if ys != [] {
      assert (xs + ys)[..|xs + ys| - 1] == xs + ys[..|ys| - 1];
      SumEvalConcat(xs, ys[..|ys| - 1], a);
    } else {
      assert xs + ys == xs;
    }
  }

  /** Taking one expression out of the list takes its value out of the sum. */
  lemma SumEvalRemove(fs: seq<LinExpr>, k: nat, a: Assignment)
    requires k < |fs|
    ensures SumEval(fs, a) == SumEval(fs[..k] + fs[k + 1..], a) + Eval(fs[k], a)
  {
    var left, right := fs[..k], fs[k + 1..];
    assert fs == left + ([fs[k]] + right);
    SumEvalConcat(left, [fs[k]] + right, a);
    SumEvalConcat([fs[k]], right, a);
    SumEvalConcat(left, right, a);
    assert [fs[k]][..0] == [];
  }

  lemma MultisetRemove<T>(fs: seq<T>, k: nat)
    requires k < |fs|
    ensures multiset(fs[..k] + fs[k + 1..]) == multiset(fs) - multiset{fs[k]}
  {
    assert fs == fs[..k] + [fs[k]] + fs[k + 1..];
  }

  /** The value of the accumulated terms does not depend on the order in
      which they were added. */
  lemma {:induction false} SumEvalPermutation(es: seq<LinExpr>, fs: seq<LinExpr>, a: Assignment)
    requires multiset(es) == multiset(fs)
    ensures SumEval(es, a) == SumEval(fs, a)
    decreases |es|
  {
    if es == [] {
      assert |fs| == |multiset(fs)| == 0;
    } else {
      var init := es[..|es| - 1];
      var last := es[|es| - 1];
      assert es == init + [last];
      assert last in multiset(fs);
      var k :| 0 <= k < |fs| && fs[k] == last;
      MultisetRemove(fs, k);
      SumEvalPermutation(init, fs[..k] + fs[k + 1..], a);
      SumEvalRemove(fs, k, a);
    }
  }

  /** After the three generators run on a fresh model, in either of two
      orders, the objectives are worth the same. */
  lemma ObjectiveOrderIndependent(es: seq<LinExpr>, fs: seq<LinExpr>, a: Assignment)
    requires |es| > 0 && multiset(es) == multiset(fs)
    ensures Eval(ObjectiveAfter(0, [], es), a) == Eval(ObjectiveAfter(0, [], fs), a)
  {
    assert |fs| == |multiset(fs)| == |multiset(es)| == |es|;
    ObjectiveAfterValue([], es, a);
    ObjectiveAfterValue([], fs, a);
    SumEvalPermutation(es, fs, a);
  }

  // ---------------------------------------------------------------------
  // Undesired teacher slots
  // ---------------------------------------------------------------------

  /** `quicksum(x[slot, t, c, r] for c in courses for r in rooms)` for every
      slot of a teacher's `soft_time_constr`, in list order. */
  function SoftSlotsTerms(t: int, softSlots: seq<int>, courses: seq<int>, rooms: seq<int>): LinExpr {
    FlatMap(softSlots, slot => UnitTerms(Table([slot], [t], courses, rooms)))
  }

  function SoftTeacherTerms(t: int, teacherById: map<int, Teacher>, courses: seq<int>, rooms: seq<int>): LinExpr {
    if t in teacherById then SoftSlotsTerms(t, teacherById[t].softTimeConstr, courses, rooms) else []
  }

  /** The penalty expression of `add_teacher_soft_time_objective` before
      weighting, teacher by teacher. */
  function TeacherSoftTerms(teachers: seq<int>, teacherById: map<int, Teacher>, courses: seq<int>, rooms: seq<int>): LinExpr {
    FlatMap(teachers, t => SoftTeacherTerms(t, teacherById, courses, rooms))
  }

  /** The weighted penalty expression. */
  function TeacherSoftExpr(weight: real, teachers: seq<int>, teacherById: map<int, Teacher>, courses: seq<int>, rooms: seq<int>): LinExpr {
    Scale(weight, TeacherSoftTerms(teachers, teacherById, courses, rooms))
  }

  lemma SoftSlotsTermsSnoc(t: int, softSlots: seq<int>, j: nat, courses: seq<int>, rooms: seq<int>)
    requires j < |softSlots|
    ensures SoftSlotsTerms(t, softSlots[..j + 1], courses, rooms)
         == SoftSlotsTerms(t, softSlots[..j], courses, rooms) + UnitTerms(Table([softSlots[j]], [t], courses, rooms))
  {
    assert softSlots[..j + 1][..j] == softSlots[..j];
  }

  lemma TeacherSoftTermsSnoc(teachers: seq<int>, i: nat, teacherById: map<int, Teacher>, courses: seq<int>, rooms: seq<int>)
    requires i < |teachers|
    ensures TeacherSoftTerms(teachers[..i + 1], teacherById, courses, rooms)
         == TeacherSoftTerms(teachers[..i], teacherById, courses, rooms) + SoftTeacherTerms(teachers[i], teacherById, courses, rooms)
  {
    assert teachers[..i + 1][..i] == teachers[..i];
  }

  /** `add_teacher_soft_time_objective`. `slots` are the slots `x` was
      created over: a listed slot outside them is no key of `x`, and the sum
      raises `KeyError` as soon as it indexes `x`, which it does when there
      is a course and a room. */
  method AddTeacherSoftTimeObjective(m: Model, slots: seq<int>, teachers: seq<int>, teacherById: map<int, Teacher>,
                                     courses: seq<int>, rooms: seq<int>, weight: real)
    requires forall t :: t in teachers ==> t in teacherById
    requires courses != [] && rooms != [] ==>
      forall t, slot :: t in teachers && slot in teacherById[t].softTimeConstr ==> slot in slots
    modifies m`objective, m`objSense, m`numObj
    ensures m.objective == Accumulated(old(m.numObj), old(m.objective), TeacherSoftExpr(weight, teachers, teacherById, courses, rooms))
    ensures m.objSense == Minimize && m.numObj == 1
  {
    var penalty: LinExpr := [];
    for i := 0 to |teachers|
      invariant penalty == TeacherSoftTerms(teachers[..i], teacherById, courses, rooms)
      invariant unchanged(m)
    {
      var tId := teachers[i];
      var t := teacherById[tId];
      ghost var done := penalty;
      for j := 0 to |t.softTimeConstr|
        invariant penalty == done + SoftSlotsTerms(tId, t.softTimeConstr[..j], courses, rooms)
        invariant unchanged(m)
      {
        var slot := t.softTimeConstr[j];
        penalty := penalty + UnitTerms(Table([slot], [tId], courses, rooms));
        SoftSlotsTermsSnoc(tId, t.softTimeConstr, j, courses, rooms);
        AppendAssoc(done, SoftSlotsTerms(tId, t.softTimeConstr[..j], courses, rooms), UnitTerms(Table([slot], [tId], courses, rooms)));
      }
      assert t.softTimeConstr[..|t.softTimeConstr|] == t.softTimeConstr;
      TeacherSoftTermsSnoc(teachers, i, teacherById, courses, rooms);
    }
    assert teachers[..|teachers|] == teachers;
    penalty := Scale(weight, penalty);
    MinimizeAdding(m, penalty);
  }

  /** Under the precondition of `AddTeacherSoftTimeObjective`, every term of
      the penalty is a quadruple variable over `slots`: a key of `x`. */
  lemma TeacherSoftIndexesVariables(slots: seq<int>, teachers: seq<int>, teacherById: map<int, Teacher>,
                                    courses: seq<int>, rooms: seq<int>, tm: Term)
    requires forall t :: t in teachers ==> t in teacherById
    requires courses != [] && rooms != [] ==>
      forall t, slot :: t in teachers && slot in teacherById[t].softTimeConstr ==> slot in slots
    requires tm in TeacherSoftTerms(teachers, teacherById, courses, rooms)
    ensures tm.v.X? && InTable(tm.v.q, slots, teachers, courses, rooms)
  {
    FlatMapMember(teachers, t => SoftTeacherTerms(t, teacherById, courses, rooms), tm);
    var t :| t in teachers && tm in SoftTeacherTerms(t, teacherById, courses, rooms);
    var softSlots := teacherById[t].softTimeConstr;
    FlatMapMember(softSlots, slot => UnitTerms(Table([slot], [t], courses, rooms)), tm);
    var slot :| slot in softSlots && tm in UnitTerms(Table([slot], [t], courses, rooms));
    var qs := Table([slot], [t], courses, rooms);
    var i :| 0 <= i < |qs| && UnitTerms(qs)[i] == tm;
    TableMember(qs[i], [slot], [t], courses, rooms);
  }

  /** Within one teacher, a quadruple's coefficient is the number of times its
      slot is listed, when the quadruple belongs to that teacher. */
  lemma SoftSlotsCoef(q: Quad, t: int, softSlots: seq<int>, courses: seq<int>, rooms: seq<int>)
    requires Distinct(courses) && Distinct(rooms)
    ensures Coef(SoftSlotsTerms(t, softSlots, courses, rooms), X(q))
         == if q.teacher == t && q.course in courses && q.room in rooms
            then multiset(softSlots)[q.slot] as real else 0.0
  {
    var f := slot => UnitTerms(Table([slot], [t], courses, rooms));
    var k := q.slot;
    forall slot | slot in softSlots && slot != k ensures Coef(f(slot), X(q)) == 0.0 {
      SlotTeacherCoef(q, slot, t, courses, rooms);
    }
    CoefFlatMapKey(softSlots, f, X(q), k);
    SlotTeacherCoef(q, k, t, courses, rooms);
    if q.teacher == t && q.course in courses && q.room in rooms {
      TimesOne(multiset(softSlots)[k]);
    } else {
      TimesZero(multiset(softSlots)[k]);
    }
  }

  /** Before weighting, a quadruple's coefficient is the number of times its
      slot appears in its teacher's `soft_time_constr`. */
  lemma TeacherSoftTermsCoef(q: Quad, teachers: seq<int>, teacherById: map<int, Teacher>, courses: seq<int>, rooms: seq<int>)
    requires Distinct(teachers) && Distinct(courses) && Distinct(rooms)
    ensures Coef(TeacherSoftTerms(teachers, teacherById, courses, rooms), X(q))
         == if q.teacher in teachers && q.teacher in teacherById && q.course in courses && q.room in rooms
            then multiset(teacherById[q.teacher].softTimeConstr)[q.slot] as real else 0.0
  {
    var f := t => SoftTeacherTerms(t, teacherById, courses, rooms);
    var k := q.teacher;
    forall t | t in teachers && t != k ensures Coef(f(t), X(q)) == 0.0 {
      if t in teacherById {
        SoftSlotsCoef(q, t, teacherById[t].softTimeConstr, courses, rooms);
      }
    }
    CoefFlatMapKey(teachers, f, X(q), k);
    DistinctMultiplicity(teachers, k);
    if k in teacherById {
      SoftSlotsCoef(q, k, teacherById[k].softTimeConstr, courses, rooms);
    }
    var inner := Coef(f(k), X(q));
    if k in teachers {
      assert Times(1, inner) == inner;
    }
  }

  /** Teacher soft-time cost: one active quadruple costs `weight` times the
      number of times its slot appears in its teacher's `soft_time_constr`
      (a slot listed twice counts twice); quadruples outside the table cost
      nothing. */
  lemma TeacherSoftCoef(q: Quad, weight: real, teachers: seq<int>, teacherById: map<int, Teacher>, courses: seq<int>, rooms: seq<int>)
    requires Distinct(teachers) && Distinct(courses) && Distinct(rooms)
    ensures Coef(TeacherSoftExpr(weight, teachers, teacherById, courses, rooms), X(q))
         == if q.teacher in teachers && q.teacher in teacherById && q.course in courses && q.room in rooms
            then Times(multiset(teacherById[q.teacher].softTimeConstr)[q.slot], weight) else 0.0
  {
    var terms := TeacherSoftTerms(teachers, teacherById, courses, rooms);
    TeacherSoftTermsCoef(q, teachers, teacherById, courses, rooms);
    if q.teacher in teachers && q.teacher in teacherById && q.course in courses && q.room in rooms {
      ScaledCount(weight, terms, X(q), multiset(teacherById[q.teacher].softTimeConstr)[q.slot]);
    } else {
      ScaledCount(weight, terms, X(q), 0);
    }
  }

  /** A slot listed twice in `soft_time_constr` is penalised twice. An
      instance of `TeacherSoftCoef`. */
  lemma DuplicateSoftSlotCountsTwice(weight: real)
    ensures var tb := map[1 := Teacher(1, "T", BU, ["C"], [], [0, 0])];
            Coef(TeacherSoftExpr(weight, [1], tb, [5], [9]), X(Quad(0, 1, 5, 9))) == 2.0 * weight
  {
    var tb := map[1 := Teacher(1, "T", BU, ["C"], [], [0, 0])];
    TeacherSoftCoef(Quad(0, 1, 5, 9), weight, [1], tb, [5], [9]);
    TimesIsProduct(2, weight);
    assert multiset([0, 0])[0] == 2;
  }

  /** When the compiled teacher-exclusivity constraints hold, an undesired
      (teacher, slot) contributes at most one weight. */
  lemma SoftSlotAtMostOneWeight(a: Assignment, weight: real, slot: int, t: int,
                                slots: seq<int>, teachers: seq<int>, courses: seq<int>, rooms: seq<int>)
    requires weight >= 0.0 && slot in slots && t in teachers
    requires AllHold(HardConstraints.TeacherExclusivity(slots, teachers, courses, rooms), a)
    ensures Eval(Scale(weight, UnitTerms(Table([slot], [t], courses, rooms))), a) <= weight
  {
    HardConstraints.TeacherExclusivityHolds(a, t, slot, slots, teachers, courses, rooms);
    ScaledAtMostOne(weight, UnitTerms(Table([slot], [t], courses, rooms)), a);
  }

  lemma ScaledAtMostOne(w: real, e: LinExpr, a: Assignment)
    requires w >= 0.0 && Eval(e, a) <= 1.0
    ensures Eval(Scale(w, e), a) <= w
  {
    EvalScale(w, e, a);
    var x := Eval(e, a);
    assert w * x <= w * 1.0;
  }

  // ---------------------------------------------------------------------
  // Seat waste
  // ---------------------------------------------------------------------

  /** `cap >= exp`: the room seats the course's expected students. */
  predicate Fits(c: int, r: int, courseById: map<int, Course>, roomById: map<int, Room>) {
    c in courseById && r in roomById && roomById[r].capacity >= courseById[c].expectedNumStudents
  }

  /** The seat waste of a course in a room that seats it, and 0 otherwise. */
  function Waste(c: int, r: int, courseById: map<int, Course>, roomById: map<int, Room>): (w: int)
    ensures w >= 0
  {
    if Fits(c, r, courseById, roomById) then roomById[r].capacity - courseById[c].expectedNumStudents else 0
  }

  /** `(cap - exp) * x[q]` for every quadruple of `qs` whose room seats its
      course, in order. */
  function WasteTerms(qs: seq<Quad>, courseById: map<int, Course>, roomById: map<int, Room>): (e: LinExpr)
    ensures forall i :: 0 <= i < |e| ==> e[i].coef >= 0.0
  {
    if qs == [] then []
    else
      var q := qs[|qs| - 1];
      WasteTerms(qs[..|qs| - 1], courseById, roomById)
      + (if Fits(q.course, q.room, courseById, roomById) then [Term(Waste(q.course, q.room, courseById, roomById) as real, X(q))] else [])
  }

  /** The weighted waste expression of `add_room_waste_objective`, in the
      table order slot, teacher, course, room. */
  function RoomWasteExpr(weight: real, slots: seq<int>, teachers: seq<int>, courses: seq<int>, rooms: seq<int>,
                         courseById: map<int, Course>, roomById: map<int, Room>): LinExpr {
    Scale(weight, WasteTerms(Table(slots, teachers, courses, rooms), courseById, roomById))
  }

  lemma {:induction false} WasteTermsConcat(qs1: seq<Quad>, qs2: seq<Quad>, courseById: map<int, Course>, roomById: map<int, Room>)
    ensures WasteTerms(qs1 + qs2, courseById, roomById) == WasteTerms(qs1, courseById, roomById) + WasteTerms(qs2, courseById, roomById)
    decreases |qs2|
  {
    if qs2 != [] {
      assert (qs1 + qs2)[..|qs1 + qs2| - 1] == qs1 + qs2[..|qs2| - 1];
      WasteTermsConcat(qs1, qs2[..|qs2| - 1], courseById, roomById);
    } else {
      assert qs1 + qs2 == qs1;
    }
  }

  method AddRoomWasteObjective(m: Model, courses: seq<int>, rooms: seq<int>, courseById: map<int, Course>, roomById: map<int, Room>,
                               slots: seq<int>, teachers: seq<int>, weight: real)
    requires |slots| > 0 && |teachers| > 0 ==> forall c :: c in courses ==> c in courseById
    requires |slots| > 0 && |teachers| > 0 && |courses| > 0 ==> forall r :: r in rooms ==> r in roomById
    modifies m`objective, m`objSense, m`numObj
    ensures m.objective == Accumulated(old(m.numObj), old(m.objective), RoomWasteExpr(weight, slots, teachers, courses, rooms, courseById, roomById))
    ensures m.objSense == Minimize && m.numObj == 1
  {
    var waste: LinExpr := [];
    for i := 0 to |slots|
      invariant waste == WasteTerms(Table(slots[..i], teachers, courses, rooms), courseById, roomById)
      invariant unchanged(m)
    {
      var s := slots[i];
      ghost var done := waste;
      for j := 0 to |teachers|
        invariant waste == done + WasteTerms(SlotBlock(s, teachers[..j], courses, rooms), courseById, roomById)
        invariant unchanged(m)
      {
        var t := teachers[j];
        waste := AddWasteForTeacher(waste, s, t, courses, rooms, courseById, roomById);
        WasteSlotBlockStep(done, s, teachers, j, courses, rooms, courseById, roomById);
      }
      assert teachers[..|teachers|] == teachers;
      WasteTableStep(slots, i, teachers, courses, rooms, courseById, roomById);
    }
    assert slots[..|slots|] == slots;
    waste := Scale(weight, waste);
    MinimizeAdding(m, waste);
  }

  lemma WasteSlotBlockStep(done: LinExpr, s: int, teachers: seq<int>, j: nat, courses: seq<int>, rooms: seq<int>,
                              courseById: map<int, Course>, roomById: map<int, Room>)
    requires j < |teachers|
    ensures done + WasteTerms(SlotBlock(s, teachers[..j + 1], courses, rooms), courseById, roomById)
         == done + WasteTerms(SlotBlock(s, teachers[..j], courses, rooms), courseById, roomById)
            + WasteTerms(TeacherBlock(s, teachers[j], courses, rooms), courseById, roomById)
  {
    SlotBlockSnoc(s, teachers, j, courses, rooms);
    WasteTermsConcat(SlotBlock(s, teachers[..j], courses, rooms), TeacherBlock(s, teachers[j], courses, rooms), courseById, roomById);
    AppendAssoc(done, WasteTerms(SlotBlock(s, teachers[..j], courses, rooms), courseById, roomById),
                WasteTerms(TeacherBlock(s, teachers[j], courses, rooms), courseById, roomById));
  }

  lemma WasteTableStep(slots: seq<int>, i: nat, teachers: seq<int>, courses: seq<int>, rooms: seq<int>,
                          courseById: map<int, Course>, roomById: map<int, Room>)
    requires i < |slots|
    ensures WasteTerms(Table(slots[..i + 1], teachers, courses, rooms), courseById, roomById)
         == WasteTerms(Table(slots[..i], teachers, courses, rooms), courseById, roomById)
            + WasteTerms(SlotBlock(slots[i], teachers, courses, rooms), courseById, roomById)
  {
    TableSnoc(slots, i, teachers, courses, rooms);
    WasteTermsConcat(Table(slots[..i], teachers, courses, rooms), SlotBlock(slots[i], teachers, courses, rooms), courseById, roomById);
  }

  /** The two inner loops of `add_room_waste_objective`, for one slot and one
      teacher: `exp` is read once per course, `cap` once per room. */
  method AddWasteForTeacher(e: LinExpr, s: int, t: int, courses: seq<int>, rooms: seq<int>,
                            courseById: map<int, Course>, roomById: map<int, Room>) returns (acc: LinExpr)
    requires forall c :: c in courses ==> c in courseById
    requires |courses| > 0 ==> forall r :: r in rooms ==> r in roomById
    ensures acc == e + WasteTerms(TeacherBlock(s, t, courses, rooms), courseById, roomById)
  {
    acc := e;
    for k := 0 to |courses|
      invariant acc == e + WasteTerms(TeacherBlock(s, t, courses[..k], rooms), courseById, roomById)
    {
      var c := courses[k];
      var exp := courseById[c].expectedNumStudents;
      ghost var done := acc;
      for l := 0 to |rooms|
        invariant acc == done + WasteTerms(CourseBlock(s, t, c, rooms[..l]), courseById, roomById)
      {
        var r := rooms[l];
        var cap := roomById[r].capacity;
        var q := Quad(s, t, c, r);
        ghost var terms := WasteTerms([q], courseById, roomById);
        assert [q][..0] == [];
        assert terms == if Fits(c, r, courseById, roomById) then [Term(Waste(c, r, courseById, roomById) as real, X(q))] else [];
        if cap >= exp {
          acc := acc + [Term((cap - exp) as real, X(q))];
        }
        assert acc == done + WasteTerms(CourseBlock(s, t, c, rooms[..l]), courseById, roomById) + terms;
        CourseBlockSnoc(s, t, c, rooms, l);
        WasteTermsConcat(CourseBlock(s, t, c, rooms[..l]), [q], courseById, roomById);
        AppendAssoc(done, WasteTerms(CourseBlock(s, t, c, rooms[..l]), courseById, roomById), terms);
      }
      assert rooms[..|rooms|] == rooms;
      TeacherBlockSnoc(s, t, courses, k, rooms);
      WasteTermsConcat(TeacherBlock(s, t, courses[..k], rooms), CourseBlock(s, t, c, rooms), courseById, roomById);
      AppendAssoc(e, WasteTerms(TeacherBlock(s, t, courses[..k], rooms), courseById, roomById),
                  WasteTerms(CourseBlock(s, t, c, rooms), courseById, roomById));
    }
    assert courses[..|courses|] == courses;
  }

  lemma {:induction false} WasteTermsCoef(qs: seq<Quad>, q: Quad, courseById: map<int, Course>, roomById: map<int, Room>)
    ensures Coef(WasteTerms(qs, courseById, roomById), X(q)) == Times(multiset(qs)[q], Waste(q.course, q.room, courseById, roomById) as real)
  {
    if qs != [] {
      var init := qs[..|qs| - 1];
      var last := qs[|qs| - 1];
      assert qs == init + [last];
      assert multiset(qs)[q] == multiset(init)[q] + (if last == q then 1 else 0);
      WasteTermsCoef(init, q, courseById, roomById);
      var tail := if Fits(last.course, last.room, courseById, roomById) then [Term(Waste(last.course, last.room, courseById, roomById) as real, X(last))] else [];
      assert WasteTerms(qs, courseById, roomById) == WasteTerms(init, courseById, roomById) + tail;
      CoefConcat(WasteTerms(init, courseById, roomById), tail, X(q));
      if tail != [] {
        assert tail[..0] == [];
      }
      if last == q {
        assert Coef(tail, X(q)) == Waste(q.course, q.room, courseById, roomById) as real;
      } else {
        assert Coef(tail, X(q)) == 0.0;
      }
    }
  }

  /** Before weighting, a quadruple's coefficient is its seat waste when it
      belongs to the table and 0 otherwise. */
  lemma WasteTableCoef(q: Quad, slots: seq<int>, teachers: seq<int>, courses: seq<int>, rooms: seq<int>,
                       courseById: map<int, Course>, roomById: map<int, Room>)
    requires Distinct(slots) && Distinct(teachers) && Distinct(courses) && Distinct(rooms)
    ensures Coef(WasteTerms(Table(slots, teachers, courses, rooms), courseById, roomById), X(q))
         == if InTable(q, slots, teachers, courses, rooms) then Waste(q.course, q.room, courseById, roomById) as real else 0.0
  {
    var qs := Table(slots, teachers, courses, rooms);
    var wq := Waste(q.course, q.room, courseById, roomById) as real;
    WasteTermsCoef(qs, q, courseById, roomById);
    TableDistinct(slots, teachers, courses, rooms);
    DistinctMultiplicity(qs, q);
    TableMember(q, slots, teachers, courses, rooms);
    if InTable(q, slots, teachers, courses, rooms) {
      assert Times(1, wq) == wq;
    }
  }

  /** Seat-waste cost: an active quadruple of the table costs `weight` times
      (capacity − expected students) when the room seats the course and
      nothing otherwise, so no coefficient is negative for a non-negative
      weight. */
  lemma RoomWasteCoef(q: Quad, weight: real, slots: seq<int>, teachers: seq<int>, courses: seq<int>, rooms: seq<int>,
                      courseById: map<int, Course>, roomById: map<int, Room>)
    requires Distinct(slots) && Distinct(teachers) && Distinct(courses) && Distinct(rooms)
    ensures Coef(RoomWasteExpr(weight, slots, teachers, courses, rooms, courseById, roomById), X(q))
         == if InTable(q, slots, teachers, courses, rooms) && Fits(q.course, q.room, courseById, roomById)
            then Times(roomById[q.room].capacity - courseById[q.course].expectedNumStudents, weight) else 0.0
  {
    var terms := WasteTerms(Table(slots, teachers, courses, rooms), courseById, roomById);
    WasteTableCoef(q, slots, teachers, courses, rooms, courseById, roomById);
    if InTable(q, slots, teachers, courses, rooms) && Fits(q.course, q.room, courseById, roomById) {
      ScaledCount(weight, terms, X(q), roomById[q.room].capacity - courseById[q.course].expectedNumStudents);
    } else {
      ScaledCount(weight, terms, X(q), 0);
    }
  }

  /** A room whose capacity equals the expected number of students wastes
      nothing. */
  lemma ExactFitCostsNothing(q: Quad, weight: real, slots: seq<int>, teachers: seq<int>, courses: seq<int>, rooms: seq<int>,
                             courseById: map<int, Course>, roomById: map<int, Room>)
    requires Distinct(slots) && Distinct(teachers) && Distinct(courses) && Distinct(rooms)
    requires q.course in courseById && q.room in roomById
    requires roomById[q.room].capacity == courseById[q.course].expectedNumStudents
    ensures Coef(RoomWasteExpr(weight, slots, teachers, courses, rooms, courseById, roomById), X(q)) == 0.0
  {
    RoomWasteCoef(q, weight, slots, teachers, courses, rooms, courseById, roomById);
  }

  /** With a non-negative weight the waste term is never negative. */
  lemma RoomWasteNonNegative(a: Assignment, weight: real, slots: seq<int>, teachers: seq<int>, courses: seq<int>, rooms: seq<int>,
                             courseById: map<int, Course>, roomById: map<int, Room>)
    requires weight >= 0.0
    ensures Eval(RoomWasteExpr(weight, slots, teachers, courses, rooms, courseById, roomById), a) >= 0.0
  {
    var e := WasteTerms(Table(slots, teachers, courses, rooms), courseById, roomById);
    EvalNonNegative(e, a);
    EvalScale(weight, e, a);
  }

  // ---------------------------------------------------------------------
  // Faculty mismatch
  // ---------------------------------------------------------------------

  /** `rf != cf`: the room belongs to another faculty than the course. */
  predicate Mismatch(c: int, r: int, courseById: map<int, Course>, roomById: map<int, Room>) {
    c in courseById && r in roomById && roomById[r].faculty != courseById[c].faculty
  }

  /** `x[q]` for every quadruple of `qs` whose room and course faculties
      differ, in order. */
  function MismatchTerms(qs: seq<Quad>, courseById: map<int, Course>, roomById: map<int, Room>): LinExpr {
    if qs == [] then []
    else
      var q := qs[|qs| - 1];
      MismatchTerms(qs[..|qs| - 1], courseById, roomById)
      + (if Mismatch(q.course, q.room, courseById, roomById) then [Term(1.0, X(q))] else [])
  }

  /** The weighted mismatch expression of `add_faculty_mismatch_objective`. */
  function FacultyMismatchExpr(weight: real, slots: seq<int>, teachers: seq<int>, courses: seq<int>, rooms: seq<int>,
                               courseById: map<int, Course>, roomById: map<int, Room>): LinExpr {
    Scale(weight, MismatchTerms(Table(slots, teachers, courses, rooms), courseById, roomById))
  }

  lemma {:induction false} MismatchTermsConcat(qs1: seq<Quad>, qs2: seq<Quad>, courseById: map<int, Course>, roomById: map<int, Room>)
    ensures MismatchTerms(qs1 + qs2, courseById, roomById) == MismatchTerms(qs1, courseById, roomById) + MismatchTerms(qs2, courseById, roomById)
    decreases |qs2|
  {
    if qs2 != [] {
      assert (qs1 + qs2)[..|qs1 + qs2| - 1] == qs1 + qs2[..|qs2| - 1];
      MismatchTermsConcat(qs1, qs2[..|qs2| - 1], courseById, roomById);
    } else {
      assert qs1 + qs2 == qs1;
    }
  }

  method AddFacultyMismatchObjective(m: Model, courses: seq<int>, rooms: seq<int>, courseById: map<int, Course>, roomById: map<int, Room>,
                                     slots: seq<int>, teachers: seq<int>, weight: real)
    requires |slots| > 0 && |teachers| > 0 ==> forall c :: c in courses ==> c in courseById
    requires |slots| > 0 && |teachers| > 0 && |courses| > 0 ==> forall r :: r in rooms ==> r in roomById
    modifies m`objective, m`objSense, m`numObj
    ensures m.objective == Accumulated(old(m.numObj), old(m.objective), FacultyMismatchExpr(weight, slots, teachers, courses, rooms, courseById, roomById))
    ensures m.objSense == Minimize && m.numObj == 1
  {
    var mismatch: LinExpr := [];
    for i := 0 to |slots|
      invariant mismatch == MismatchTerms(Table(slots[..i], teachers, courses, rooms), courseById, roomById)
      invariant unchanged(m)
    {
      var s := slots[i];
      ghost var done := mismatch;
      for j := 0 to |teachers|
        invariant mismatch == done + MismatchTerms(SlotBlock(s, teachers[..j], courses, rooms), courseById, roomById)
        invariant unchanged(m)
      {
        var t := teachers[j];
        mismatch := AddMismatchForTeacher(mismatch, s, t, courses, rooms, courseById, roomById);
        MismatchSlotBlockStep(done, s, teachers, j, courses, rooms, courseById, roomById);
      }
      assert teachers[..|teachers|] == teachers;
      MismatchTableStep(slots, i, teachers, courses, rooms, courseById, roomById);
    }
    assert slots[..|slots|] == slots;
    mismatch := Scale(weight, mismatch);
    MinimizeAdding(m, mismatch);
  }

  lemma MismatchSlotBlockStep(done: LinExpr, s: int, teachers: seq<int>, j: nat, courses: seq<int>, rooms: seq<int>,
                              courseById: map<int, Course>, roomById: map<int, Room>)
    requires j < |teachers|
    ensures done + MismatchTerms(SlotBlock(s, teachers[..j + 1], courses, rooms), courseById, roomById)
         == done + MismatchTerms(SlotBlock(s, teachers[..j], courses, rooms), courseById, roomById)
            + MismatchTerms(TeacherBlock(s, teachers[j], courses, rooms), courseById, roomById)
  {
    SlotBlockSnoc(s, teachers, j, courses, rooms);
    MismatchTermsConcat(SlotBlock(s, teachers[..j], courses, rooms), TeacherBlock(s, teachers[j], courses, rooms), courseById, roomById);
    AppendAssoc(done, MismatchTerms(SlotBlock(s, teachers[..j], courses, rooms), courseById, roomById),
                MismatchTerms(TeacherBlock(s, teachers[j], courses, rooms), courseById, roomById));
  }

  lemma MismatchTableStep(slots: seq<int>, i: nat, teachers: seq<int>, courses: seq<int>, rooms: seq<int>,
                          courseById: map<int, Course>, roomById: map<int, Room>)
    requires i < |slots|
    ensures MismatchTerms(Table(slots[..i + 1], teachers, courses, rooms), courseById, roomById)
         == MismatchTerms(Table(slots[..i], teachers, courses, rooms), courseById, roomById)
            + MismatchTerms(SlotBlock(slots[i], teachers, courses, rooms), courseById, roomById)
  {
    TableSnoc(slots, i, teachers, courses, rooms);
    MismatchTermsConcat(Table(slots[..i], teachers, courses, rooms), SlotBlock(slots[i], teachers, courses, rooms), courseById, roomById);
  }

  /** The two inner loops of `add_faculty_mismatch_objective`, for one slot
      and one teacher: `cf` is read once per course, `rf` once per room. */
  method AddMismatchForTeacher(e: LinExpr, s: int, t: int, courses: seq<int>, rooms: seq<int>,
                               courseById: map<int, Course>, roomById: map<int, Room>) returns (acc: LinExpr)
    requires forall c :: c in courses ==> c in courseById
    requires |courses| > 0 ==> forall r :: r in rooms ==> r in roomById
    ensures acc == e + MismatchTerms(TeacherBlock(s, t, courses, rooms), courseById, roomById)
  {
    acc := e;
    for k := 0 to |courses|
      invariant acc == e + MismatchTerms(TeacherBlock(s, t, courses[..k], rooms), courseById, roomById)
    {
      var c := courses[k];
      var cf := courseById[c].faculty;
      ghost var done := acc;
      for l := 0 to |rooms|
        invariant acc == done + MismatchTerms(CourseBlock(s, t, c, rooms[..l]), courseById, roomById)
      {
        var r := rooms[l];
        var rf := roomById[r].faculty;
        var q := Quad(s, t, c, r);
        ghost var terms := MismatchTerms([q], courseById, roomById);
        assert [q][..0] == [];
        assert terms == if Mismatch(c, r, courseById, roomById) then [Term(1.0, X(q))] else [];
        if rf != cf {
          acc := acc + [Term(1.0, X(q))];
        }
        assert acc == done + MismatchTerms(CourseBlock(s, t, c, rooms[..l]), courseById, roomById) + terms;
        CourseBlockSnoc(s, t, c, rooms, l);
        MismatchTermsConcat(CourseBlock(s, t, c, rooms[..l]), [q], courseById, roomById);
        AppendAssoc(done, MismatchTerms(CourseBlock(s, t, c, rooms[..l]), courseById, roomById), terms);
      }
      assert rooms[..|rooms|] == rooms;
      TeacherBlockSnoc(s, t, courses, k, rooms);
      MismatchTermsConcat(TeacherBlock(s, t, courses[..k], rooms), CourseBlock(s, t, c, rooms), courseById, roomById);
      AppendAssoc(e, MismatchTerms(TeacherBlock(s, t, courses[..k], rooms), courseById, roomById),
                  MismatchTerms(CourseBlock(s, t, c, rooms), courseById, roomById));
    }
    assert courses[..|courses|] == courses;
  }

  /** The active quadruples of `qs` whose room and course faculties differ. */
  ghost function ActiveMismatched(qs: seq<Quad>, courseById: map<int, Course>, roomById: map<int, Room>, a: Assignment): set<Quad> {
    set q | q in qs && Mismatch(q.course, q.room, courseById, roomById) && X(q) in a
  }

  lemma {:induction false} MismatchTermsValue(qs: seq<Quad>, courseById: map<int, Course>, roomById: map<int, Room>, a: Assignment)
    requires Distinct(qs)
    ensures Eval(MismatchTerms(qs, courseById, roomById), a) == |ActiveMismatched(qs, courseById, roomById, a)| as real
  {
    if qs != [] {
      var init := qs[..|qs| - 1];
      var last := qs[|qs| - 1];
      assert qs == init + [last];
      DistinctPrefix(qs, |qs| - 1);
      MismatchTermsValue(init, courseById, roomById, a);
      var tail := if Mismatch(last.course, last.room, courseById, roomById) then [Term(1.0, X(last))] else [];
      EvalConcat(MismatchTerms(init, courseById, roomById), tail, a);
      var before := ActiveMismatched(init, courseById, roomById, a);
      assert last !in init;
      if Mismatch(last.course, last.room, courseById, roomById) && X(last) in a {
        assert ActiveMismatched(qs, courseById, roomById, a) == before + {last};
        assert Eval(tail, a) == 1.0 by {
          assert tail[..0] == [];
        }
      } else {
        assert ActiveMismatched(qs, courseById, roomById, a) == before;
        if tail != [] {
          assert tail[..0] == [];
        }
      }
    }
  }

  /** Faculty-mismatch cost: `weight` times the number of active quadruples
      of the table whose room faculty differs from their course faculty. */
  lemma FacultyMismatchCost(a: Assignment, weight: real, slots: seq<int>, teachers: seq<int>, courses: seq<int>, rooms: seq<int>,
                            courseById: map<int, Course>, roomById: map<int, Room>)
    requires Distinct(slots) && Distinct(teachers) && Distinct(courses) && Distinct(rooms)
    ensures var qs := Table(slots, teachers, courses, rooms);
            Eval(FacultyMismatchExpr(weight, slots, teachers, courses, rooms, courseById, roomById), a)
            == Times(|ActiveMismatched(qs, courseById, roomById, a)|, weight)
  {
    var qs := Table(slots, teachers, courses, rooms);
    TableDistinct(slots, teachers, courses, rooms);
    MismatchTermsValue(qs, courseById, roomById, a);
    ScaledValue(weight, MismatchTerms(qs, courseById, roomById), a, |ActiveMismatched(qs, courseById, roomById, a)|);
  }

  // ---------------------------------------------------------------------
  // Weights
  // ---------------------------------------------------------------------

  /** A weight of 0 makes each of the three terms contribute nothing. */
  lemma ZeroWeightContributesNothing(a: Assignment, slots: seq<int>, teachers: seq<int>, teacherById: map<int, Teacher>,
                                     courses: seq<int>, rooms: seq<int>, courseById: map<int, Course>, roomById: map<int, Room>)
    ensures Eval(TeacherSoftExpr(0.0, teachers, teacherById, courses, rooms), a) == 0.0
    ensures Eval(RoomWasteExpr(0.0, slots, teachers, courses, rooms, courseById, roomById), a) == 0.0
    ensures Eval(FacultyMismatchExpr(0.0, slots, teachers, courses, rooms, courseById, roomById), a) == 0.0
  {
    EvalScale(0.0, TeacherSoftTerms(teachers, teacherById, courses, rooms), a);
    EvalScale(0.0, WasteTerms(Table(slots, teachers, courses, rooms), courseById, roomById), a);
    EvalScale(0.0, MismatchTerms(Table(slots, teachers, courses, rooms), courseById, roomById), a);
  }
}
