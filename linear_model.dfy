/** The 0/1 integer program the scheduler compiles for the solver: one boolean
    variable per (slot, teacher, course, room) quadruple, linear constraints
    over the variables and one linear objective. The solver itself is not
    modelled; a candidate solution is a 0/1 assignment of the variables. */
module LinearModel {

  /** A decision quadruple `x[slot, teacher, course, room]`. */
  datatype Quad = Quad(slot: int, teacher: int, course: int, room: int)

  /** The variables the core creates: the quadruple variables, the drop
      indicator `unscheduled[c]` of soft coverage, and the item variable `x[i]`
      of the knapsack model. */
  datatype Var = X(q: Quad) | Unscheduled(course: int) | Item(index: int)

  /** A 0/1 assignment: the set of variables whose value is 1. */
  type Assignment = set<Var>

  /** `coef * v` */
  datatype Term = Term(coef: real, v: Var)

  /** A linear expression, its terms in the order they were added. */
  type LinExpr = seq<Term>

  datatype Sense = LessEqual | Equal | GreaterEqual

  /** A linear constraint `lhs sense rhs`, with its name ("" when the source
      gives none). */
  datatype Constr = Constr(name: string, lhs: LinExpr, sense: Sense, rhs: real)

  datatype ObjSense = Minimize | Maximize

  function Value(a: Assignment, v: Var): real {
    if v in a then 1.0 else 0.0
  }

  /** The value of an expression under an assignment. */
  function Eval(e: LinExpr, a: Assignment): real {
    if e == [] then 0.0 else Eval(e[..|e| - 1], a) + e[|e| - 1].coef * Value(a, e[|e| - 1].v)
  }

  predicate Holds(c: Constr, a: Assignment) {
    match c.sense
    case LessEqual => Eval(c.lhs, a) <= c.rhs
    case Equal => Eval(c.lhs, a) == c.rhs
    case GreaterEqual => Eval(c.lhs, a) >= c.rhs
  }

  predicate AllHold(cs: seq<Constr>, a: Assignment) {
    forall i :: 0 <= i < |cs| ==> Holds(cs[i], a)
  }

  lemma AllHoldConcat(cs1: seq<Constr>, cs2: seq<Constr>, a: Assignment)
    ensures AllHold(cs1 + cs2, a) <==> AllHold(cs1, a) && AllHold(cs2, a)
  {
    if AllHold(cs1, a) && AllHold(cs2, a) {
      forall i | 0 <= i < |cs1 + cs2| ensures Holds((cs1 + cs2)[i], a) {
        if i >= |cs1| {
          assert (cs1 + cs2)[i] == cs2[i - |cs1|];
        }
      }
    }
    if AllHold(cs1 + cs2, a) {
      forall i | 0 <= i < |cs1| ensures Holds(cs1[i], a) {
        assert (cs1 + cs2)[i] == cs1[i];
      }
      forall i | 0 <= i < |cs2| ensures Holds(cs2[i], a) {
        assert (cs1 + cs2)[|cs1| + i] == cs2[i];
      }
    }
  }

  /** The value of a concatenation is the sum of the values. */
  lemma {:induction false} EvalConcat(e1: LinExpr, e2: LinExpr, a: Assignment)
    ensures Eval(e1 + e2, a) == Eval(e1, a) + Eval(e2, a)
    decreases |e2|
  {
    if e2 != [] {
      assert (e1 + e2)[..|e1 + e2| - 1] == e1 + e2[..|e2| - 1];
      EvalConcat(e1, e2[..|e2| - 1], a);
    } else {
      assert e1 + e2 == e1;
    }
  }

  /** `expr *= w`: every coefficient multiplied by `w`. */
  function Scale(w: real, e: LinExpr): (r: LinExpr)
    ensures |r| == |e|
  {
    if e == [] then [] else Scale(w, e[..|e| - 1]) + [ScaleTerm(w, e[|e| - 1])]
  }

  function ScaleTerm(w: real, t: Term): Term {
    Term(w * t.coef, t.v)
  }

  lemma {:induction false} EvalScale(w: real, e: LinExpr, a: Assignment)
    ensures Eval(Scale(w, e), a) == w * Eval(e, a)
    decreases |e|, 1
  {
    if e != [] {
      EvalScaleLast(w, e, a);
    }
  }

  /** The inductive step of `EvalScale`, kept free of branches. */
  lemma {:induction false} EvalScaleLast(w: real, e: LinExpr, a: Assignment)
    requires e != []
    ensures Eval(Scale(w, e), a) == w * Eval(e, a)
    decreases |e|, 0
  {
    var init := e[..|e| - 1];
    var t := e[|e| - 1];
    EvalScale(w, init, a);
    var s := Scale(w, e);
    assert s == Scale(w, init) + [ScaleTerm(w, t)];
    assert s[..|s| - 1] == Scale(w, init);
    Distribute(w, Eval(init, a), t.coef * Value(a, t.v));
  }

  /** Scaling an expression in which `v` has coefficient `n` gives `v` the
      weight `n` times over. */
  lemma ScaledCount(w: real, e: LinExpr, v: Var, n: nat)
    requires Coef(e, v) == n as real
    ensures Coef(Scale(w, e), v) == Times(n, w)
  {
    calc {
      Coef(Scale(w, e), v);
    == { CoefScale(w, e, v); }
      w * Coef(e, v);
    ==
      w * n as real;
    == { TimesIsProduct(n, w); }
      Times(n, w);
    }
  }

  /** Scaling an expression worth `n` makes it worth the weight `n` times
      over. */
  lemma ScaledValue(w: real, e: LinExpr, a: Assignment, n: nat)
    requires Eval(e, a) == n as real
    ensures Eval(Scale(w, e), a) == Times(n, w)
  {
    calc {
      Eval(Scale(w, e), a);
    == { EvalScale(w, e, a); }
      w * Eval(e, a);
    ==
      w * n as real;
    == { TimesIsProduct(n, w); }
      Times(n, w);
    }
  }

  lemma Distribute(w: real, x: real, y: real)
    ensures w * (x + y) == w * x + w * y
  {
  }

  /** The total coefficient of `v` in `e`: what one unit of `v` adds to the value. */
  function Coef(e: LinExpr, v: Var): real {
    CoefSum(e, v)
  }

  /** The recursion behind `Coef`, term by term from the end. */
  function CoefSum(e: LinExpr, v: Var): real {
    if e == [] then 0.0
    else CoefSum(e[..|e| - 1], v) + (if e[|e| - 1].v == v then e[|e| - 1].coef else 0.0)
  }

  lemma {:induction false} CoefConcat(e1: LinExpr, e2: LinExpr, v: Var)
    ensures Coef(e1 + e2, v) == Coef(e1, v) + Coef(e2, v)
    decreases |e2|
  {
    if e2 != [] {
      assert (e1 + e2)[..|e1 + e2| - 1] == e1 + e2[..|e2| - 1];
      CoefConcat(e1, e2[..|e2| - 1], v);
    } else {
      assert e1 + e2 == e1;
    }
  }

  lemma {:induction false} CoefScale(w: real, e: LinExpr, v: Var)
    ensures Coef(Scale(w, e), v) == w * Coef(e, v)
    decreases |e|, 1
  {
    if e != [] {
      CoefScaleLast(w, e, v);
    }
  }

  /** The inductive step of `CoefScale`. */
  lemma {:induction false} CoefScaleLast(w: real, e: LinExpr, v: Var)
    requires e != []
    ensures Coef(Scale(w, e), v) == w * Coef(e, v)
    decreases |e|, 0
  {
    var init := e[..|e| - 1];
    var t := e[|e| - 1];
    var d := if t.v == v then t.coef else 0.0;
    calc {
      Coef(Scale(w, e), v);
    == { CoefScaleUnfold(w, e, v); }
      Coef(Scale(w, init), v) + (if t.v == v then w * t.coef else 0.0);
    == { CoefScale(w, init, v); }
      w * Coef(init, v) + (if t.v == v then w * t.coef else 0.0);
    == { Distribute(w, Coef(init, v), d); }
      w * (Coef(init, v) + d);
    ==
      w * Coef(e, v);
    }
  }

  /** The coefficient in a scaled expression, one term at a time. */
  lemma CoefScaleUnfold(w: real, e: LinExpr, v: Var)
    requires e != []
    ensures Coef(Scale(w, e), v)
         == Coef(Scale(w, e[..|e| - 1]), v) + (if e[|e| - 1].v == v then w * e[|e| - 1].coef else 0.0)
  {
    var s := Scale(w, e);
    assert s == Scale(w, e[..|e| - 1]) + [ScaleTerm(w, e[|e| - 1])];
    assert s[..|s| - 1] == Scale(w, e[..|e| - 1]);
  }

  /** A variable that does not occur has coefficient zero. */
  lemma {:induction false} CoefAbsent(e: LinExpr, v: Var)
    requires forall i :: 0 <= i < |e| ==> e[i].v != v
    ensures Coef(e, v) == 0.0
  {
    if e != [] {
      CoefAbsent(e[..|e| - 1], v);
    }
  }

  /** An expression whose coefficients are all non-negative never has a
      negative value. */
  lemma {:induction false} EvalNonNegative(e: LinExpr, a: Assignment)
    requires forall i :: 0 <= i < |e| ==> e[i].coef >= 0.0
    ensures Eval(e, a) >= 0.0
  {
    if e != [] {
      EvalNonNegative(e[..|e| - 1], a);
    }
  }

  // ---------------------------------------------------------------------
  // Enumerating quadruples in the nesting order of the source's loops
  // ---------------------------------------------------------------------

  /** The concatenation of `f(x)` for the elements `x` of `xs` in order:
      the shape of Python's nested `for` generators. */
  function FlatMap<T, U>(xs: seq<T>, f: T -> seq<U>): seq<U> {
    if xs == [] then [] else FlatMap(xs[..|xs| - 1], f) + f(xs[|xs| - 1])
  }

  lemma FlatMapSnoc<T, U>(xs: seq<T>, i: nat, f: T -> seq<U>)
    requires i < |xs|
    ensures FlatMap(xs[..i + 1], f) == FlatMap(xs[..i], f) + f(xs[i])
  {
    assert xs[..i + 1][..i] == xs[..i];
  }

  lemma {:induction false} FlatMapMember<T, U>(xs: seq<T>, f: T -> seq<U>, u: U)
    ensures u in FlatMap(xs, f) <==> exists x :: x in xs && u in f(x)
  {
    if xs != [] {
      var init := xs[..|xs| - 1];
      FlatMapMember(init, f, u);
      assert xs == init + [xs[|xs| - 1]];
      if u in FlatMap(xs, f) && u !in f(xs[|xs| - 1]) {
        var x :| x in init && u in f(x);
        assert x in xs;
      }
    }
  }

  /** A flattened list of constraints holds exactly when every piece holds. */
  lemma {:induction false} AllHoldFlatMap<T>(xs: seq<T>, f: T -> seq<Constr>, a: Assignment)
    ensures AllHold(FlatMap(xs, f), a) <==> forall x :: x in xs ==> AllHold(f(x), a)
  {
    if xs != [] {
      var init := xs[..|xs| - 1];
      var last := xs[|xs| - 1];
      AllHoldFlatMap(init, f, a);
      AllHoldConcat(FlatMap(init, f), f(last), a);
      assert xs == init + [last];
    }
  }

  lemma AllHoldSingle(c: Constr, a: Assignment)
    ensures AllHold([c], a) <==> Holds(c, a)
  {
    assert [c][0] == c;
  }

  /** The elements of a sequence are pairwise different. */
  ghost predicate Distinct<T>(xs: seq<T>) {
    forall i, j :: 0 <= i < j < |xs| ==> xs[i] != xs[j]
  }

  lemma DistinctConcat<T>(xs: seq<T>, ys: seq<T>)
    requires Distinct(xs) && Distinct(ys)
    requires forall u :: u in xs ==> u !in ys
    ensures Distinct(xs + ys)
  {
    forall i, j | 0 <= i < j < |xs + ys| ensures (xs + ys)[i] != (xs + ys)[j] {
      if j < |xs| {
      } else if i >= |xs| {
        assert (xs + ys)[i] == ys[i - |xs|] && (xs + ys)[j] == ys[j - |xs|];
      } else {
        assert (xs + ys)[i] in xs && (xs + ys)[j] == ys[j - |xs|];
      }
    }
  }

  lemma DistinctPrefix<T>(xs: seq<T>, n: nat)
    requires Distinct(xs) && n <= |xs|
    ensures Distinct(xs[..n])
  {
  }

  /** Flattening keeps elements distinct when the pieces are distinct and the
      pieces of different elements share nothing. */
  lemma {:induction false} FlatMapDistinct<T, U>(xs: seq<T>, f: T -> seq<U>)
    requires Distinct(xs)
    requires forall x :: x in xs ==> Distinct(f(x))
    requires forall x, y, u :: x in xs && y in xs && x != y && u in f(x) ==> u !in f(y)
    ensures Distinct(FlatMap(xs, f))
  {
    if xs != [] {
      var init := xs[..|xs| - 1];
      var last := xs[|xs| - 1];
      FlatMapDistinct(init, f);
      forall u | u in FlatMap(init, f) ensures u !in f(last) {
        FlatMapMember(init, f, u);
        var x :| x in init && u in f(x);
        assert x != last;
      }
      DistinctConcat(FlatMap(init, f), f(last));
    }
  }

  /** The variable table in the nesting order slot, teacher, course, room. */
  function Table(slots: seq<int>, teachers: seq<int>, courses: seq<int>, rooms: seq<int>): seq<Quad> {
    FlatMap(slots, s => SlotBlock(s, teachers, courses, rooms))
  }

  function SlotBlock(s: int, teachers: seq<int>, courses: seq<int>, rooms: seq<int>): seq<Quad> {
    FlatMap(teachers, t => TeacherBlock(s, t, courses, rooms))
  }

  function TeacherBlock(s: int, t: int, courses: seq<int>, rooms: seq<int>): seq<Quad> {
    FlatMap(courses, c => CourseBlock(s, t, c, rooms))
  }

  function CourseBlock(s: int, t: int, c: int, rooms: seq<int>): seq<Quad> {
    FlatMap(rooms, r => [Quad(s, t, c, r)])
  }

  lemma TableSnoc(slots: seq<int>, i: nat, teachers: seq<int>, courses: seq<int>, rooms: seq<int>)
    requires i < |slots|
    ensures Table(slots[..i + 1], teachers, courses, rooms)
         == Table(slots[..i], teachers, courses, rooms) + SlotBlock(slots[i], teachers, courses, rooms)
  {
    assert slots[..i + 1][..i] == slots[..i];
  }

  lemma SlotBlockSnoc(s: int, teachers: seq<int>, j: nat, courses: seq<int>, rooms: seq<int>)
    requires j < |teachers|
    ensures SlotBlock(s, teachers[..j + 1], courses, rooms)
         == SlotBlock(s, teachers[..j], courses, rooms) + TeacherBlock(s, teachers[j], courses, rooms)
  {
    assert teachers[..j + 1][..j] == teachers[..j];
  }

  lemma TeacherBlockSnoc(s: int, t: int, courses: seq<int>, k: nat, rooms: seq<int>)
    requires k < |courses|
    ensures TeacherBlock(s, t, courses[..k + 1], rooms)
         == TeacherBlock(s, t, courses[..k], rooms) + CourseBlock(s, t, courses[k], rooms)
  {
    assert courses[..k + 1][..k] == courses[..k];
  }

  lemma CourseBlockSnoc(s: int, t: int, c: int, rooms: seq<int>, l: nat)
    requires l < |rooms|
    ensures CourseBlock(s, t, c, rooms[..l + 1]) == CourseBlock(s, t, c, rooms[..l]) + [Quad(s, t, c, rooms[l])]
  {
    assert rooms[..l + 1][..l] == rooms[..l];
  }

  /** The block of a single course and a single room is one quadruple. */
  lemma TeacherBlockSingle(s: int, t: int, c: int, r: int)
    ensures TeacherBlock(s, t, [c], [r]) == [Quad(s, t, c, r)]
  {
    assert [c][..0] == [] && [r][..0] == [];
    assert CourseBlock(s, t, c, [r]) == FlatMap([], r' => [Quad(s, t, c, r')]) + [Quad(s, t, c, r)];
    assert TeacherBlock(s, t, [c], [r]) == FlatMap([], c' => CourseBlock(s, t, c', [r])) + CourseBlock(s, t, c, [r]);
  }

  lemma AppendAssoc<T>(a: seq<T>, b: seq<T>, c: seq<T>)
    ensures a + b + c == a + (b + c)
  {
  }

  /** `q` is one of the table's quadruples. */
  predicate InTable(q: Quad, slots: seq<int>, teachers: seq<int>, courses: seq<int>, rooms: seq<int>) {
    q.slot in slots && q.teacher in teachers && q.course in courses && q.room in rooms
  }

  lemma CourseBlockMember(q: Quad, s: int, t: int, c: int, rooms: seq<int>)
    ensures q in CourseBlock(s, t, c, rooms) <==> q.slot == s && q.teacher == t && q.course == c && q.room in rooms
  {
    FlatMapMember(rooms, r => [Quad(s, t, c, r)], q);
  }

  lemma TeacherBlockMember(q: Quad, s: int, t: int, courses: seq<int>, rooms: seq<int>)
    ensures q in TeacherBlock(s, t, courses, rooms)
        <==> q.slot == s && q.teacher == t && q.course in courses && q.room in rooms
  {
    FlatMapMember(courses, c => CourseBlock(s, t, c, rooms), q);
    forall c ensures q in CourseBlock(s, t, c, rooms) <==> q.slot == s && q.teacher == t && q.course == c && q.room in rooms {
      CourseBlockMember(q, s, t, c, rooms);
    }
  }

  lemma SlotBlockMember(q: Quad, s: int, teachers: seq<int>, courses: seq<int>, rooms: seq<int>)
    ensures q in SlotBlock(s, teachers, courses, rooms)
        <==> q.slot == s && q.teacher in teachers && q.course in courses && q.room in rooms
  {
    FlatMapMember(teachers, t => TeacherBlock(s, t, courses, rooms), q);
    forall t ensures q in TeacherBlock(s, t, courses, rooms)
        <==> q.slot == s && q.teacher == t && q.course in courses && q.room in rooms {
      TeacherBlockMember(q, s, t, courses, rooms);
    }
  }

  /** The table holds exactly the quadruples built from the four id lists. */
  lemma TableMember(q: Quad, slots: seq<int>, teachers: seq<int>, courses: seq<int>, rooms: seq<int>)
    ensures q in Table(slots, teachers, courses, rooms) <==> InTable(q, slots, teachers, courses, rooms)
  {
    FlatMapMember(slots, s => SlotBlock(s, teachers, courses, rooms), q);
    forall s ensures q in SlotBlock(s, teachers, courses, rooms)
        <==> q.slot == s && q.teacher in teachers && q.course in courses && q.room in rooms {
      SlotBlockMember(q, s, teachers, courses, rooms);
    }
  }

  lemma CourseBlockDistinct(s: int, t: int, c: int, rooms: seq<int>)
    requires Distinct(rooms)
    ensures Distinct(CourseBlock(s, t, c, rooms))
  {
    var f := r => [Quad(s, t, c, r)];
    forall x, y, u | x in rooms && y in rooms && x != y && u in f(x) ensures u !in f(y) {
    }
    FlatMapDistinct(rooms, f);
  }

  lemma TeacherBlockDistinct(s: int, t: int, courses: seq<int>, rooms: seq<int>)
    requires Distinct(courses) && Distinct(rooms)
    ensures Distinct(TeacherBlock(s, t, courses, rooms))
  {
    var f := c => CourseBlock(s, t, c, rooms);
    forall c | c in courses ensures Distinct(f(c)) {
      CourseBlockDistinct(s, t, c, rooms);
    }
    forall x, y, u | x in courses && y in courses && x != y && u in f(x) ensures u !in f(y) {
      CourseBlockMember(u, s, t, x, rooms);
      CourseBlockMember(u, s, t, y, rooms);
    }
    FlatMapDistinct(courses, f);
  }

  lemma SlotBlockDistinct(s: int, teachers: seq<int>, courses: seq<int>, rooms: seq<int>)
    requires Distinct(teachers) && Distinct(courses) && Distinct(rooms)
    ensures Distinct(SlotBlock(s, teachers, courses, rooms))
  {
    var f := t => TeacherBlock(s, t, courses, rooms);
    forall t | t in teachers ensures Distinct(f(t)) {
      TeacherBlockDistinct(s, t, courses, rooms);
    }
    forall x, y, u | x in teachers && y in teachers && x != y && u in f(x) ensures u !in f(y) {
      TeacherBlockMember(u, s, x, courses, rooms);
      TeacherBlockMember(u, s, y, courses, rooms);
    }
    FlatMapDistinct(teachers, f);
  }

  /** With duplicate-free id lists every quadruple occurs in the table once. */
  lemma TableDistinct(slots: seq<int>, teachers: seq<int>, courses: seq<int>, rooms: seq<int>)
    requires Distinct(slots) && Distinct(teachers) && Distinct(courses) && Distinct(rooms)
    ensures Distinct(Table(slots, teachers, courses, rooms))
  {
    var f := s => SlotBlock(s, teachers, courses, rooms);
    forall s | s in slots ensures Distinct(f(s)) {
      SlotBlockDistinct(s, teachers, courses, rooms);
    }
    forall x, y, u | x in slots && y in slots && x != y && u in f(x) ensures u !in f(y) {
      SlotBlockMember(u, x, teachers, courses, rooms);
      SlotBlockMember(u, y, teachers, courses, rooms);
    }
    FlatMapDistinct(slots, f);
  }

  // ---------------------------------------------------------------------
  // Sums of quadruple variables (`gp.quicksum(x[...] for ...)`)
  // ---------------------------------------------------------------------

  /** `quicksum(x[q] for q in qs)` */
  function UnitTerms(qs: seq<Quad>): (e: LinExpr)
    ensures |e| == |qs|
    ensures forall i :: 0 <= i < |qs| ==> e[i] == Term(1.0, X(qs[i]))
  {
    if qs == [] then [] else UnitTerms(qs[..|qs| - 1]) + [Term(1.0, X(qs[|qs| - 1]))]
  }

  /** The number of positions of `qs` whose variable is 1. */
  function CountActive(qs: seq<Quad>, a: Assignment): nat {
    if qs == [] then 0
    else CountActive(qs[..|qs| - 1], a) + (if X(qs[|qs| - 1]) in a then 1 else 0)
  }

  lemma {:induction false} EvalUnitTerms(qs: seq<Quad>, a: Assignment)
    ensures Eval(UnitTerms(qs), a) == CountActive(qs, a) as real
  {
    if qs != [] {
      EvalUnitTerms(qs[..|qs| - 1], a);
      var e := UnitTerms(qs);
      assert e[..|e| - 1] == UnitTerms(qs[..|qs| - 1]);
    }
  }

  lemma {:induction false} CountActiveConcat(qs1: seq<Quad>, qs2: seq<Quad>, a: Assignment)
    ensures CountActive(qs1 + qs2, a) == CountActive(qs1, a) + CountActive(qs2, a)
    decreases |qs2|
  {
    if qs2 != [] {
      assert (qs1 + qs2)[..|qs1 + qs2| - 1] == qs1 + qs2[..|qs2| - 1];
      CountActiveConcat(qs1, qs2[..|qs2| - 1], a);
    } else {
      assert qs1 + qs2 == qs1;
    }
  }

  /** The sum is zero exactly when no quadruple of `qs` is active. */
  lemma {:induction false} CountZero(qs: seq<Quad>, a: Assignment)
    ensures CountActive(qs, a) == 0 <==> forall q :: q in qs ==> X(q) !in a
  {
    if qs != [] {
      var init := qs[..|qs| - 1];
      CountZero(init, a);
      assert qs == init + [qs[|qs| - 1]];
    }
  }

  /** The sum is at least one exactly when some quadruple of `qs` is active. */
  lemma CountPositive(qs: seq<Quad>, a: Assignment)
    ensures CountActive(qs, a) >= 1 <==> exists q :: q in qs && X(q) in a
  {
    CountZero(qs, a);
  }

  /** For a duplicate-free `qs`, the sum is at most one exactly when no two
      different quadruples of `qs` are both active. */
  lemma {:induction false} CountAtMostOne(qs: seq<Quad>, a: Assignment)
    requires Distinct(qs)
    ensures CountActive(qs, a) <= 1
        <==> forall q1, q2 :: q1 in qs && q2 in qs && X(q1) in a && X(q2) in a ==> q1 == q2
  {
    if qs != [] {
      var init := qs[..|qs| - 1];
      var last := qs[|qs| - 1];
      assert qs == init + [last];
      CountAtMostOne(init, a);
      CountZero(init, a);
      assert last !in init;
    }
  }

  /** A sum of unit terms that is at most one. */
  function AtMostOne(name: string, qs: seq<Quad>): Constr {
    Constr(name, UnitTerms(qs), LessEqual, 1.0)
  }

  /** A sum of unit terms fixed to zero. */
  function NoneActive(name: string, qs: seq<Quad>): Constr {
    Constr(name, UnitTerms(qs), Equal, 0.0)
  }

  /** A sum of unit terms that is at least one. */
  function AtLeastOne(name: string, qs: seq<Quad>): Constr {
    Constr(name, UnitTerms(qs), GreaterEqual, 1.0)
  }

  lemma AtLeastOneHolds(name: string, qs: seq<Quad>, a: Assignment)
    ensures Holds(AtLeastOne(name, qs), a) <==> exists q :: q in qs && X(q) in a
  {
    EvalUnitTerms(qs, a);
    CountPositive(qs, a);
  }

  lemma AtMostOneHolds(name: string, qs: seq<Quad>, a: Assignment)
    requires Distinct(qs)
    ensures Holds(AtMostOne(name, qs), a)
        <==> forall q1, q2 :: q1 in qs && q2 in qs && X(q1) in a && X(q2) in a ==> q1 == q2
  {
    EvalUnitTerms(qs, a);
    CountAtMostOne(qs, a);
  }

  lemma NoneActiveHolds(name: string, qs: seq<Quad>, a: Assignment)
    ensures Holds(NoneActive(name, qs), a) <==> forall q :: q in qs ==> X(q) !in a
  {
    EvalUnitTerms(qs, a);
    CountZero(qs, a);
  }

  /** In `quicksum(x[q] for q in qs)` a variable's coefficient is the number of
      times its quadruple occurs in `qs`. */
  lemma {:induction false} CoefUnitTerms(qs: seq<Quad>, q: Quad)
    ensures Coef(UnitTerms(qs), X(q)) == multiset(qs)[q] as real
  {
    if qs != [] {
      var init := qs[..|qs| - 1];
      CoefUnitTerms(init, q);
      var e := UnitTerms(qs);
      assert e[..|e| - 1] == UnitTerms(init);
      assert qs == init + [qs[|qs| - 1]];
    }
  }

  /** In a duplicate-free sequence an element occurs once or not at all. */
  lemma {:induction false} DistinctMultiplicity<T>(xs: seq<T>, u: T)
    requires Distinct(xs)
    ensures multiset(xs)[u] == if u in xs then 1 else 0
  {
    if xs != [] {
      var init := xs[..|xs| - 1];
      DistinctMultiplicity(init, u);
      assert xs == init + [xs[|xs| - 1]];
    }
  }

  /** `n * c`, written as repeated addition. */
  function Times(n: nat, c: real): real {
    if n == 0 then 0.0 else Times(n - 1, c) + c
  }

  lemma {:induction false} TimesIsProduct(n: nat, c: real)
    ensures Times(n, c) == n as real * c
  {
    if n > 0 {
      TimesIsProduct(n - 1, c);
    }
  }

  lemma {:induction false} TimesOne(n: nat)
    ensures Times(n, 1.0) == n as real
  {
    if n > 0 {
      TimesOne(n - 1);
    }
  }

  lemma {:induction false} TimesZero(n: nat)
    ensures Times(n, 0.0) == 0.0
  {
    if n > 0 {
      TimesZero(n - 1);
    }
  }

  /** When only the pieces of the key `k` mention `v`, the coefficient of `v`
      in the flattened expression is the key's coefficient once per
      occurrence of `k`. */
  lemma {:induction false} CoefFlatMapKey<T>(xs: seq<T>, f: T -> LinExpr, v: Var, k: T)
    requires forall x :: x in xs && x != k ==> Coef(f(x), v) == 0.0
    ensures Coef(FlatMap(xs, f), v) == Times(multiset(xs)[k], Coef(f(k), v))
  {
    if xs != [] {
      var init := xs[..|xs| - 1];
      var last := xs[|xs| - 1];
      assert xs == init + [last];
      assert multiset(xs)[k] == multiset(init)[k] + (if last == k then 1 else 0);
      CoefFlatMapKey(init, f, v, k);
      CoefConcat(FlatMap(init, f), f(last), v);
      assert FlatMap(xs, f) == FlatMap(init, f) + f(last);
    }
  }

  /** Over duplicate-free id lists a quadruple's coefficient in the table sum
      is one exactly when it belongs to the table. */
  lemma TableCoef(q: Quad, slots: seq<int>, teachers: seq<int>, courses: seq<int>, rooms: seq<int>)
    requires Distinct(slots) && Distinct(teachers) && Distinct(courses) && Distinct(rooms)
    ensures Coef(UnitTerms(Table(slots, teachers, courses, rooms)), X(q))
         == if InTable(q, slots, teachers, courses, rooms) then 1.0 else 0.0
  {
    var qs := Table(slots, teachers, courses, rooms);
    CoefUnitTerms(qs, q);
    TableDistinct(slots, teachers, courses, rooms);
    DistinctMultiplicity(qs, q);
    TableMember(q, slots, teachers, courses, rooms);
  }

  /** The same for the sum over one slot and one teacher. */
  lemma SlotTeacherCoef(q: Quad, s: int, t: int, courses: seq<int>, rooms: seq<int>)
    requires Distinct(courses) && Distinct(rooms)
    ensures Coef(UnitTerms(Table([s], [t], courses, rooms)), X(q))
         == if q.slot == s && q.teacher == t && q.course in courses && q.room in rooms then 1.0 else 0.0
  {
    TableCoef(q, [s], [t], courses, rooms);
  }

  // ---------------------------------------------------------------------
  // The model object
  // ---------------------------------------------------------------------

  /** The solver model the core writes into: the constraints in the order
      they were added, the variables added besides the quadruple table, and
      the objective. `numObj` is 0 until an objective has been set. */
  class Model {
    var constrs: seq<Constr>
    var vars: seq<Var>
    var objective: LinExpr
    var objSense: ObjSense
    var numObj: nat

    constructor ()
      ensures constrs == [] && vars == [] && objective == [] && objSense == Minimize && numObj == 0
    {
      constrs := [];
      vars := [];
      objective := [];
      objSense := Minimize;
      numObj := 0;
    }

    /** `m.addConstr(c)` */
    method AddConstr(c: Constr)
      modifies this`constrs
      ensures constrs == old(constrs) + [c]
    {
      constrs := constrs + [c];
    }

    /** `m.addVars(...)` for variables outside the quadruple table. */
    method AddVars(vs: seq<Var>)
      modifies this`vars
      ensures vars == old(vars) + vs
    {
      vars := vars + vs;
    }

    /** `m.setObjective(e, sense)` */
    method SetObjective(e: LinExpr, sense: ObjSense)
      modifies this`objective, this`objSense, this`numObj
      ensures objective == e && objSense == sense && numObj == 1
    {
      objective := e;
      objSense := sense;
      numObj := 1;
    }
  }
}
