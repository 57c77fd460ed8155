/** The command-line front end (optimizer_cli.py): parsing of `--weight
    NAME=value` arguments and their merge into the default weights, the
    knapsack input checks, the knapsack program, the chosen-item report, and
    how the schedule command combines the three soft objective terms. */
module OptimizerCli {

  import opened Wrappers
  import opened PyStr
  import opened LinearModel
  import opened SoftConstraints

  // ---------------------------------------------------------------------
  // parse_weights
  // ---------------------------------------------------------------------

  /** `s.split(sep, 1)` when `sep in s`: the text before the first `sep` and
      the text after it. */
  function SplitOnce(s: string, sep: char): (r: Option<(string, string)>)
    ensures r.None? <==> sep !in s
    ensures r.Some? ==> s == r.value.0 + [sep] + r.value.1 && sep !in r.value.0
  {
    if s == [] then None
    else if s[0] == sep then Some(([], s[1..]))
    else
      match SplitOnce(s[1..], sep)
      case None => None
      case Some((k, v)) => assert s == [s[0]] + s[1..]; Some(([s[0]] + k, v))
  }

  /** The split is at the first separator: any text without the separator,
      followed by the separator and anything, splits back into those two
      parts. */
  lemma {:induction false} SplitOnceFirst(k: string, sep: char, v: string)
    requires sep !in k
    ensures SplitOnce(k + [sep] + v, sep) == Some((k, v))
  {
    if k != [] {
      SplitOnceFirst(k[1..], sep, v);
      assert (k + [sep] + v)[1..] == k[1..] + [sep] + v;
      assert [k[0]] + k[1..] == k;
    } else {
      assert (k + [sep] + v)[1..] == v;
    }
  }

  function InvalidFormat(item: string): string {
    "Invalid weight format: " + item + ". Use NAME=value"
  }

  function NotAFloat(v: string): string {
    "could not convert string to float: '" + v + "'"
  }

  /** One argument: `k, v = item.split("=", 1)`, then `k.strip()` and
      `float(v.strip())`; `toFloat` is Python's `float` on a string (`None`
      for its `ValueError`). */
  function WeightItem(item: string, toFloat: string -> Option<real>): Result<(string, real), string> {
    match SplitOnce(item, '=')
    case None => Failure(InvalidFormat(item))
    case Some((k, v)) =>
      match toFloat(Strip(v))
      case None => Failure(NotAFloat(Strip(v)))
      case Some(x) => Success((Strip(k), x))
  }

  /** An argument without `=` is refused with the format message; otherwise
      it is cut at its first `=` and the stripped key gets the stripped
      value's number, or the conversion error. */
  lemma WeightItemMeaning(item: string, toFloat: string -> Option<real>, k: string, v: string)
    ensures '=' !in item ==> WeightItem(item, toFloat) == Failure(InvalidFormat(item))
    ensures item == k + "=" + v && '=' !in k ==>
      WeightItem(item, toFloat) == (if toFloat(Strip(v)).Some? then Success((Strip(k), toFloat(Strip(v)).value))
                                    else Failure(NotAFloat(Strip(v))))
  {
    if item == k + "=" + v && '=' !in k {
      SplitOnceFirst(k, '=', v);
    }
  }

  /** `w = {}; for item in args: k, v = parse(item); w[k] = v`, stopping at
      the first argument `parse` refuses. */
  function BuildDict(args: seq<string>, parse: string -> Result<(string, real), string>): Result<map<string, real>, string> {
    if args == [] then Success(map[])
    else
      match BuildDict(args[..|args| - 1], parse)
      case Failure(e) => Failure(e)
      case Success(w) =>
        match parse(args[|args| - 1])
        case Failure(e) => Failure(e)
        case Success((k, x)) => Success(w[k := x])
  }

  /** The dictionary `parse_weights` returns, or the error it raises. */
  function ParsedWeights(args: seq<string>, toFloat: string -> Option<real>): Result<map<string, real>, string> {
    BuildDict(args, item => WeightItem(item, toFloat))
  }

  method ParseWeights(args: seq<string>, toFloat: string -> Option<real>) returns (r: Result<map<string, real>, string>)
    ensures r == ParsedWeights(args, toFloat)
  {
    ghost var parse := item => WeightItem(item, toFloat);
    var w: map<string, real> := map[];
    for i := 0 to |args|
      invariant BuildDict(args[..i], parse) == Success(w)
    {
      assert args[..i + 1][..i] == args[..i];
      var parsed := WeightItem(args[i], toFloat);
      assert parse(args[i]) == parsed;
      if parsed.Failure? {
        FailureKeeps(args, i + 1, parse);
        return Failure(parsed.error);
      }
      w := w[parsed.value.0 := parsed.value.1];
    }
    assert args[..|args|] == args;
    return Success(w);
  }

  /** Once an argument fails, the later ones are not looked at. */
  lemma {:induction false} FailureKeeps(args: seq<string>, n: nat, parse: string -> Result<(string, real), string>)
    requires 0 < n <= |args| && BuildDict(args[..n], parse).Failure?
    ensures BuildDict(args, parse) == BuildDict(args[..n], parse)
    decreases |args| - n
  {
    if n < |args| {
      assert args[..n + 1][..n] == args[..n];
      FailureKeeps(args, n + 1, parse);
    } else {
      assert args[..n] == args;
    }
  }

  /** Building fails exactly when some argument is refused, with the error of
      the first one that is. */
  lemma {:induction false} BuildDictFailure(args: seq<string>, parse: string -> Result<(string, real), string>)
    ensures BuildDict(args, parse).Failure? <==> exists i :: 0 <= i < |args| && parse(args[i]).Failure?
    ensures BuildDict(args, parse).Failure? ==>
      exists i :: 0 <= i < |args| && parse(args[i]).Failure?
        && BuildDict(args, parse).error == parse(args[i]).error
        && forall j :: 0 <= j < i ==> parse(args[j]).Success?
  {
    if args != [] {
      var n := |args| - 1;
      BuildDictFailure(args[..n], parse);
      assert forall j :: 0 <= j < n ==> args[..n][j] == args[j];
    }
  }

  /** A dictionary that was built accepted every argument. */
  lemma {:induction false} BuildDictAccepted(args: seq<string>, parse: string -> Result<(string, real), string>)
    requires BuildDict(args, parse).Success?
    ensures forall i :: 0 <= i < |args| ==> parse(args[i]).Success?
  {
    if args != [] {
      var n := |args| - 1;
      BuildDictAccepted(args[..n], parse);
      assert forall j :: 0 <= j < n ==> args[..n][j] == args[j];
    }
  }

  /** Its keys are exactly the arguments' keys. */
  lemma {:induction false} BuildDictKeys(args: seq<string>, parse: string -> Result<(string, real), string>)
    requires BuildDict(args, parse).Success?
    ensures forall i :: 0 <= i < |args| ==> parse(args[i]).Success?
    ensures forall k :: k in BuildDict(args, parse).value <==> exists i :: 0 <= i < |args| && parse(args[i]).value.0 == k
  {
    BuildDictAccepted(args, parse);
    if args != [] {
      var n := |args| - 1;
      BuildDictKeys(args[..n], parse);
      assert forall j :: 0 <= j < n ==> args[..n][j] == args[j];
    }
  }

  /** Each key holds the value of the LAST argument that names it. */
  lemma {:induction false} BuildDictLastWins(args: seq<string>, parse: string -> Result<(string, real), string>, i: nat)
    requires BuildDict(args, parse).Success? && i < |args|
    requires forall j :: 0 <= j < |args| ==> parse(args[j]).Success?
    requires forall j :: i < j < |args| ==> parse(args[j]).value.0 != parse(args[i]).value.0
    ensures parse(args[i]).value.0 in BuildDict(args, parse).value
    ensures BuildDict(args, parse).value[parse(args[i]).value.0] == parse(args[i]).value.1
  {
    var n := |args| - 1;
    if i < n {
      assert forall j :: 0 <= j < n ==> args[..n][j] == args[j];
      BuildDictLastWins(args[..n], parse, i);
    }
  }

  /** The three weights the schedule command starts from. */
  const DefaultWeights: map<string, real> := map["TEACHER_SOFT_TIME" := 0.1, "ROOM_WASTE" := 0.7, "FACULTY_MISMATCH" := 0.1]

  /** `weights = {defaults}; weights.update(parse_weights(args.weight))` */
  method ScheduleWeights(args: seq<string>, toFloat: string -> Option<real>) returns (r: Result<map<string, real>, string>)
    ensures ParsedWeights(args, toFloat).Failure? ==> r == Failure(ParsedWeights(args, toFloat).error)
    ensures ParsedWeights(args, toFloat).Success? ==>
      && r.Success?
      && (forall k :: k in r.value <==> k in DefaultWeights || k in ParsedWeights(args, toFloat).value)
      && (forall k :: k in ParsedWeights(args, toFloat).value ==> r.value[k] == ParsedWeights(args, toFloat).value[k])
      && (forall k :: k in DefaultWeights && k !in ParsedWeights(args, toFloat).value ==> r.value[k] == DefaultWeights[k])
  {
    var weights := DefaultWeights;
    var user := ParseWeights(args, toFloat);
    if user.Failure? {
      return Failure(user.error);
    }
    weights := weights + user.value;
    return Success(weights);
  }

  /** `weights.get(key, default)` */
  function WeightOf(weights: map<string, real>, key: string, default: real): (w: real)
    ensures key in weights ==> w == weights[key]
    ensures key !in weights ==> w == default
  {
    if key in weights then weights[key] else default
  }

  /** The fall-backs of `build_schedule_model`'s `weights.get` calls are the
      defaults themselves, so each soft term gets the user's weight if one
      was given and the default otherwise. */
  lemma WeightsUsed(user: map<string, real>)
    ensures WeightOf(DefaultWeights + user, "TEACHER_SOFT_TIME", 0.1) == WeightOf(user, "TEACHER_SOFT_TIME", 0.1)
    ensures WeightOf(DefaultWeights + user, "ROOM_WASTE", 0.7) == WeightOf(user, "ROOM_WASTE", 0.7)
    ensures WeightOf(DefaultWeights + user, "FACULTY_MISMATCH", 0.1) == WeightOf(user, "FACULTY_MISMATCH", 0.1)
  {
  }

  // ---------------------------------------------------------------------
  // load_knapsack_json
  // ---------------------------------------------------------------------

  /** The `values` or `weights` entry of the input: a list of numbers or
      something else. */
  datatype JsonNumbers = JList(items: seq<real>) | JNotList

  datatype Knapsack = Knapsack(values: seq<real>, weights: seq<real>, capacity: real)

  const NotLists: string := "values und weights m\U{00FC}ssen Listen sein."
  const LengthMismatch: string := "values und weights m\U{00FC}ssen die gleiche L\U{00E4}nge haben."
  const NegativeCapacity: string := "capacity muss >= 0 sein."

  /** The checks of `load_knapsack_json`, in order. */
  function LoadKnapsack(values: JsonNumbers, weights: JsonNumbers, capacity: real): (r: Result<Knapsack, string>)
    ensures r.Success? <==> values.JList? && weights.JList? && |values.items| == |weights.items| && capacity >= 0.0
    ensures r.Success? ==> r.value == Knapsack(values.items, weights.items, capacity)
    ensures r.Failure? ==>
      r.error == (if !values.JList? || !weights.JList? then NotLists
                  else if |values.items| != |weights.items| then LengthMismatch
                  else NegativeCapacity)
  {
    if !values.JList? || !weights.JList? then Failure(NotLists)
    else if |values.items| != |weights.items| then Failure(LengthMismatch)
    else if capacity < 0.0 then Failure(NegativeCapacity)
    else Success(Knapsack(values.items, weights.items, capacity))
  }

  // ---------------------------------------------------------------------
  // build_knapsack_model
  // ---------------------------------------------------------------------

  /** `quicksum(cs[i] * x[i] for i in range(n))` */
  function ItemTerms(cs: seq<real>): (e: LinExpr)
    ensures |e| == |cs| && forall i :: 0 <= i < |cs| ==> e[i] == Term(cs[i], Item(i))
  {
    if cs == [] then [] else ItemTerms(cs[..|cs| - 1]) + [Term(cs[|cs| - 1], Item(|cs| - 1))]
  }

  /** The sum of `cs[i]` over the chosen items. */
  function ChosenTotal(cs: seq<real>, a: Assignment): real {
    if cs == [] then 0.0
    else ChosenTotal(cs[..|cs| - 1], a) + (if Item(|cs| - 1) in a then cs[|cs| - 1] else 0.0)
  }

  lemma {:induction false} EvalItemTerms(cs: seq<real>, a: Assignment)
    ensures Eval(ItemTerms(cs), a) == ChosenTotal(cs, a)
  {
    if cs != [] {
      EvalItemTerms(cs[..|cs| - 1], a);
      var e := ItemTerms(cs);
      assert e[..|e| - 1] == ItemTerms(cs[..|cs| - 1]);
    }
  }

  function ItemVars(n: nat): (vs: seq<Var>)
    ensures |vs| == n && forall i :: 0 <= i < n ==> vs[i] == Item(i)
  {
    seq(n, i => Item(i))
  }

  function KnapsackObjective(k: Knapsack): LinExpr {
    ItemTerms(k.values)
  }

  /** `build_knapsack_model` reads `weights[i]` only for `i` in
      `range(len(values))`: a shorter `weights` raises `IndexError`, and the
      entries of a longer one past `len(values)` are never read. */
  predicate WeightsCoverItems(k: Knapsack) {
    |k.values| <= |k.weights|
  }

  /** `quicksum(weights[i] * x[i] for i in range(n)) <= capacity`. */
  function CapacityConstr(k: Knapsack): Constr
    requires WeightsCoverItems(k)
  {
    Constr("capacity", ItemTerms(k.weights[..|k.values|]), LessEqual, k.capacity)
  }

  /** A selection satisfies the capacity constraint exactly when the total
      weight of its items is at most the capacity, and the objective is its
      total value. */
  lemma KnapsackMeaning(k: Knapsack, a: Assignment)
    requires WeightsCoverItems(k)
    ensures Holds(CapacityConstr(k), a) <==> ChosenTotal(k.weights[..|k.values|], a) <= k.capacity
    ensures Eval(KnapsackObjective(k), a) == ChosenTotal(k.values, a)
  {
    EvalItemTerms(k.weights[..|k.values|], a);
    EvalItemTerms(k.values, a);
  }

  /** Every variable the capacity constraint and the objective mention is
      one of the `n` variables `addVars(n)` created. */
  lemma KnapsackTermsAreModelVars(k: Knapsack)
    requires WeightsCoverItems(k)
    ensures forall t :: t in CapacityConstr(k).lhs ==> t.v in ItemVars(|k.values|)
    ensures forall t :: t in KnapsackObjective(k) ==> t.v in ItemVars(|k.values|)
  {
    var vs := ItemVars(|k.values|);
    forall t | t in CapacityConstr(k).lhs ensures t.v in vs {
      var i :| 0 <= i < |CapacityConstr(k).lhs| && CapacityConstr(k).lhs[i] == t;
      assert vs[i] == t.v;
    }
    forall t | t in KnapsackObjective(k) ensures t.v in vs {
      var i :| 0 <= i < |KnapsackObjective(k)| && KnapsackObjective(k)[i] == t;
      assert vs[i] == t.v;
    }
  }

  /** What `load_knapsack_json` accepts meets the requirement of
      `build_knapsack_model`, with nothing left over: the capacity
      constraint then weighs every entry of `weights`. */
  lemma LoadedKnapsackBuilds(values: JsonNumbers, weights: JsonNumbers, capacity: real)
    requires LoadKnapsack(values, weights, capacity).Success?
    ensures WeightsCoverItems(LoadKnapsack(values, weights, capacity).value)
    ensures CapacityConstr(LoadKnapsack(values, weights, capacity).value).lhs == ItemTerms(weights.items)
  {
    var k := LoadKnapsack(values, weights, capacity).value;
    assert k.weights[..|k.values|] == k.weights;
  }

  /** `build_knapsack_model`: `n` binary variables, the capacity constraint,
      and the total value maximised. */
  method BuildKnapsackModel(k: Knapsack) returns (m: Model)
    requires WeightsCoverItems(k)
    ensures fresh(m)
    ensures m.vars == ItemVars(|k.values|) && m.constrs == [CapacityConstr(k)]
    ensures m.objective == KnapsackObjective(k) && m.objSense == Maximize
  {
    m := new Model();
    m.AddVars(ItemVars(|k.values|));
    m.SetObjective(KnapsackObjective(k), Maximize);
    m.AddConstr(CapacityConstr(k));
  }

  // ---------------------------------------------------------------------
  // report_knapsack_solution
  // ---------------------------------------------------------------------

  /** A variable of the solved model: its name and value `v.X`. */
  datatype SolverVar = SolverVar(name: string, x: real)

  /** The name Gurobi gives `x[i]`. */
  function VarName(i: int): string {
    "x[" + IntToString(i) + "]"
  }

  /** `int(name.split("[")[1].split("]")[0])`; `None` for the `IndexError`
      or `ValueError` it can raise. */
  function NameIndex(name: string): Option<int> {
    var parts := Split(name, '[');
    if |parts| < 2 then None else ParseInt(Split(parts[1], ']')[0])
  }

  /** The generated names parse back to their index. */
  lemma NameIndexOfVarName(i: int)
    ensures StartsWith(VarName(i), "x[")
    ensures NameIndex(VarName(i)) == Some(i)
  {
    var s := IntToString(i);
    assert '[' !in s && ']' !in s by {
      forall c | c in s ensures c != '[' && c != ']' {
        IntToStringChars(i, c);
      }
    }
    BracketedSplit(s);
    assert VarName(i) == "x" + ['['] + (s + "]");
    assert NameIndex(VarName(i)) == ParseInt(s);
    IntToStringParses(i);
  }

  /** Splitting `x[s]` at the brackets gives back `s`. */
  lemma BracketedSplit(s: string)
    requires '[' !in s && ']' !in s
    ensures Split("x" + ['['] + (s + "]"), '[') == ["x", s + "]"]
    ensures Split(s + "]", ']')[0] == s
  {
    SplitNoSep("x", '[');
    SplitSnocField("x", '[', s + "]");
    SplitNoSep(s, ']');
    assert s + "]" == s + [']'] + "";
    SplitSnocField(s, ']', "");
  }

  /** What one variable contributes: nothing unless its name starts with
      `x[` and its value exceeds 0.5, else its parsed index or the error. */
  function Pick(v: SolverVar): Result<Option<int>, string> {
    if !(StartsWith(v.name, "x[") && v.x > 0.5) then Success(None)
    else
      match NameIndex(v.name)
      case None => Failure(v.name)
      case Some(i) => Success(Some(i))
  }

  /** `[int(...) for v in xvars if v.X > 0.5]` over `xvars`, the variables
      whose name starts with `x[`. */
  function ChosenItems(vars: seq<SolverVar>): Result<seq<int>, string> {
    if vars == [] then Success([])
    else
      match ChosenItems(vars[..|vars| - 1])
      case Failure(e) => Failure(e)
      case Success(chosen) =>
        match Pick(vars[|vars| - 1])
        case Failure(e) => Failure(e)
        case Success(p) => Success(if p.Some? then chosen + [p.value] else chosen)
  }

  lemma ChosenItemsSnoc(vars: seq<SolverVar>, chosen: seq<int>, p: Option<int>)
    requires vars != [] && ChosenItems(vars[..|vars| - 1]) == Success(chosen)
    requires Pick(vars[|vars| - 1]) == Success(p)
    ensures ChosenItems(vars) == Success(if p.Some? then chosen + [p.value] else chosen)
  {
  }

  lemma PickKnapsackVar(i: int, x: real)
    ensures Pick(SolverVar(VarName(i), x)) == Success(if x > 0.5 then Some(i) else None)
  {
    NameIndexOfVarName(i);
  }

  /** The variables of a model built by `BuildKnapsackModel`, with values. */
  function KnapsackVars(vals: seq<real>): (vs: seq<SolverVar>)
    ensures |vs| == |vals| && forall i :: 0 <= i < |vals| ==> vs[i] == SolverVar(VarName(i), vals[i])
  {
    seq(|vals|, i requires 0 <= i < |vals| => SolverVar(VarName(i), vals[i]))
  }

  /** The indices whose value exceeds 0.5, ascending. */
  function Selected(vals: seq<real>): seq<int> {
    if vals == [] then [] else Selected(vals[..|vals| - 1]) + (if vals[|vals| - 1] > 0.5 then [|vals| - 1] else [])
  }

  /** For the knapsack model's variables the report lists exactly the items
      whose value exceeds 0.5, in index order. */
  lemma {:induction false} ChosenItemsOfKnapsack(vals: seq<real>)
    ensures ChosenItems(KnapsackVars(vals)) == Success(Selected(vals))
  {
    if vals != [] {
      var n := |vals| - 1;
      ChosenItemsOfKnapsack(vals[..n]);
      var vs := KnapsackVars(vals);
      assert vs[..n] == KnapsackVars(vals[..n]);
      assert vs[n] == SolverVar(VarName(n), vals[n]);
      PickKnapsackVar(n, vals[n]);
      var p := if vals[n] > 0.5 then Some(n) else None;
      ChosenItemsSnoc(vs, Selected(vals[..n]), p);
      if vals[n] > 0.5 {
        assert Selected(vals) == Selected(vals[..n]) + [n];
      } else {
        assert Selected(vals) == Selected(vals[..n]) + [];
        assert Selected(vals[..n]) + [] == Selected(vals[..n]);
      }
    } else {
      assert KnapsackVars(vals) == [];
    }
  }

  /** The selection lists distinct items, each below `n`, and exactly those
      over 0.5. */
  lemma {:induction false} SelectedMeaning(vals: seq<real>)
    ensures forall i :: i in Selected(vals) <==> 0 <= i < |vals| && vals[i] > 0.5
    ensures forall i, j :: 0 <= i < j < |Selected(vals)| ==> Selected(vals)[i] < Selected(vals)[j]
  {
    if vals != [] {
      var n := |vals| - 1;
      var init := Selected(vals[..n]);
      SelectedMeaning(vals[..n]);
      assert forall i :: 0 <= i < n ==> vals[..n][i] == vals[i];
      assert forall i :: i in init ==> i < n;
      var r := Selected(vals);
      forall i, j | 0 <= i < j < |r| ensures r[i] < r[j] {
        if j >= |init| {
          assert r[i] == init[i] && init[i] in init;
        }
      }
    }
  }

  /** What the report prints besides the objective value. */
  datatype KnapsackReport = ChosenReport(items: seq<int>) | StatusReport(status: int)

  const OPTIMAL: int := 2

  function ReportKnapsackSolution(status: int, vars: seq<SolverVar>): (r: Result<KnapsackReport, string>)
    ensures status != OPTIMAL <==> r == Success(StatusReport(status))
  {
    if status != OPTIMAL then Success(StatusReport(status))
    else
      match ChosenItems(vars)
      case Failure(e) => Failure(e)
      case Success(items) => Success(ChosenReport(items))
  }

  /** On the knapsack model solved to optimality, the report lists, in
      ascending order, exactly the items whose variable exceeds 0.5. */
  lemma ReportOfKnapsack(vals: seq<real>)
    ensures ReportKnapsackSolution(OPTIMAL, KnapsackVars(vals)).Success?
    ensures var items := ReportKnapsackSolution(OPTIMAL, KnapsackVars(vals)).value.items;
            && (forall i :: i in items <==> 0 <= i < |vals| && vals[i] > 0.5)
            && (forall i, j :: 0 <= i < j < |items| ==> items[i] < items[j])
  {
    ChosenItemsOfKnapsack(vals);
    SelectedMeaning(vals);
  }

  // ---------------------------------------------------------------------
  // The schedule objective: `teacher_soft + room_waste + faculty_mismatch`
  // ---------------------------------------------------------------------

  /** What the soft-term functions return: nothing (`None`), or, as their
      callers expect, the expression they built. */
  datatype Returned = ReturnedNone | ReturnedExpr(e: LinExpr)

  /** Python's `+` on two returned values: `None + ...` raises `TypeError`. */
  function PyAdd(x: Returned, y: Returned): Result<Returned, string> {
    if x.ReturnedNone? || y.ReturnedNone? then Failure("TypeError")
    else Success(ReturnedExpr(x.e + y.e))
  }

  /** `teacher_soft + room_waste + faculty_mismatch` */
  function SumOfReturned(t: Returned, w: Returned, f: Returned): Result<Returned, string> {
    match PyAdd(t, w)
    case Failure(e) => Failure(e)
    case Success(tw) => PyAdd(tw, f)
  }

  /** As written the three functions return `None`, so the sum raises and the
      schedule model is never built. */
  lemma ObjectiveAsWrittenRaises()
    ensures SumOfReturned(ReturnedNone, ReturnedNone, ReturnedNone) == Failure("TypeError")
  {
  }

  /** With each function returning the expression it added, the sum set as
      the objective is worth exactly what the three additions already put in
      the model's objective, so nothing is counted twice. */
  lemma ObjectiveAsIntended(teacher: LinExpr, waste: LinExpr, mismatch: LinExpr, a: Assignment)
    ensures SumOfReturned(ReturnedExpr(teacher), ReturnedExpr(waste), ReturnedExpr(mismatch)).Success?
    ensures var sum := SumOfReturned(ReturnedExpr(teacher), ReturnedExpr(waste), ReturnedExpr(mismatch)).value.e;
            && Eval(sum, a) == Eval(teacher, a) + Eval(waste, a) + Eval(mismatch, a)
            && Eval(sum, a) == Eval(ObjectiveAfter(0, [], [teacher, waste, mismatch]), a)
  {
    EvalConcat(teacher, waste, a);
    EvalConcat(teacher + waste, mismatch, a);
    var es := [teacher, waste, mismatch];
    ObjectiveAfterValue([], es, a);
    assert es[..2] == [teacher, waste] && es[..2][..1] == [teacher] && es[..2][..1][..0] == [];
    assert SumEval(es, a) == SumEval([teacher, waste], a) + Eval(mismatch, a);
    assert SumEval([teacher, waste], a) == SumEval([teacher], a) + Eval(waste, a);
    assert SumEval([teacher], a) == SumEval([], a) + Eval(teacher, a);
  }
}
