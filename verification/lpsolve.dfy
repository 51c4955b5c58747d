/** The decision rules of the lp_solve backend (miplib/lpsolve/solver.cpp):
    the guards and the row of `add(Constr)`, the refusal of indicator
    constraints and quadratic objectives, the objective that `set_objective`
    installs, the status map of `solve`, and the file-format choice of
    `dump`. The lp_solve model is a record of its rows and objective; the
    success flags that lp_solve calls return are parameters. */
module Lpsolve {
  import opened Wrappers
  import opened Errors
  import opened Variables
  import opened TermMaps
  import opened Expressions
  import opened Constraints
  import opened Dispatch
  import opened Rows

  // ---------------------------------------------------------------------------
  // Constraints

  /** lp_solve's row-type codes for `<=` and `=`. */
  const LE: int := 1
  const EQ: int := 3

  /** A row passed to `add_constraintex`: columns, coefficients, type code
      and right-hand side. */
  datatype LpRow = LpRow(cols: seq<Var>, coeffs: seq<real>, code: int, rhs: real)

  /** The lp_solve model: its rows in order, the objective coefficients, and
      the direction that `set_sense` chose. */
  datatype LpModel = LpModel(rows: seq<LpRow>, objCols: seq<Var>, objCoeffs: seq<real>, maximize: bool)

  /** The row index that `LpsolveConstr` starts with: not posted. */
  const Unposted: int := -1

  ghost predicate RowHolds(r: LpRow, a: Var -> real)
    requires |r.cols| == |r.coeffs|
  {
    var lhs := ListSum(r.cols, r.coeffs, Weight(a));
    if r.code == LE then lhs <= r.rhs
    else if r.code == EQ then lhs == r.rhs
    else false
  }

  /** The type code of a constraint type. */
  function CodeOf(t: ConstrType): (r: int)
    ensures t == LessEqual ==> r == LE
    ensures t.Equal? ==> r == EQ
  {
    if t == LessEqual then 1 else 3
  }

  /** The row posted for a linear `expr ◁ 0`: its linear terms, the type
      code, and the right-hand side `-constant`. */
  function RowOf(c: Constr, lo: seq<Var>): (r: LpRow)
    requires Enumerates(lo, c.expr.linear.Keys)
    ensures |r.cols| == |r.coeffs| == |c.expr.linear|
    ensures r.rhs == -c.expr.constant
  {
    LpRow(LinearVars(c.expr, lo), LinearCoeffs(c.expr, lo), CodeOf(c.ctype), -c.expr.constant)
  }

  /** For a linear constraint the row holds exactly when the constraint does. */
  lemma {:induction false} RowOfMeaning(c: Constr, lo: seq<Var>, a: Var -> real)
    requires Enumerates(lo, c.expr.linear.Keys) && IsLinear(c.expr)
    ensures RowHolds(RowOf(c, lo), a) <==> Holds(c, a)
  {
    assert LinearCoeffs(c.expr, lo) == Lookups(c.expr.linear, lo);
    ListingSum(c.expr.linear, lo, Weight(a));
    assert c.expr.quad == map[];
    SumMapEmpty(Weight(PairValue(a)));
  }

  /** `LpsolveSolver::create_constr`: the `LpsolveConstr` it builds stores
      `expr.solver()` (miplib/lpsolve/constr.hpp), and `ExprImpl::solver` fails for a constant
      expression; any other constraint is kept as it is. */
  function CreateConstr(c: Constr): Result<Constr, Error> {
    if IsConstant(c.expr) then Err(NoSolver) else Ok(c)
  }

  /** `e1 <= e2` and `e1 == e2` on lp_solve variables: the front end's check,
      then this backend's factory. */
  function Compare(ctype: ConstrType, e1: Expr, e2: Expr): Result<Constr, Error> {
    match Relate(ctype, e1, e2)
    case Err(err) => Err(err)
    case Ok(c) => CreateConstr(c)
  }

  /** A comparison on lp_solve variables fails exactly when its two sides have
      the same terms: with both sides constant the front end refuses it, and
      otherwise their constant difference has no solver. Any other comparison
      is the constraint the front end built. */
  lemma {:induction false} CompareFails(ctype: ConstrType, e1: Expr, e2: Expr)
    requires Valid(e1) && Valid(e2)
    ensures Compare(ctype, e1, e2).Err? <==> e1.linear == e2.linear && e1.quad == e2.quad
    ensures Compare(ctype, e1, e2).Err? ==>
      Compare(ctype, e1, e2).error == (if IsConstant(e1) && IsConstant(e2) then ConstantConstraint else NoSolver)
    ensures Compare(ctype, e1, e2).Ok? ==> Compare(ctype, e1, e2) == Relate(ctype, e1, e2)
  {
    SubConstantIff(e1, e2);
    if IsConstant(e1) && IsConstant(e2) {
      assert e1.linear == map[] == e2.linear && e1.quad == map[] == e2.quad;
    }
  }

  /** Unlike Gurobi, lp_solve cannot form `x <= x`. */
  lemma {:induction false} SelfComparisonFails(x: Var)
    ensures Compare(LessEqual, FromVar(x), FromVar(x)) == Err(NoSolver)
  {
    CompareFails(LessEqual, FromVar(x), FromVar(x));
  }

  /** `add(Constr)`: a constraint already holding a row index was posted
      before; a quadratic constraint is refused; a failing
      `add_constraintex` (`vendorOk` false) throws. Otherwise the row is
      appended and the constraint records the new row count, lp_solve rows
      being numbered from 1. A constraint reaching it has passed
      `CreateConstr` and so is not constant; the rule does not depend on
      that. */
  function Post(m: LpModel, rowIdx: int, c: Constr, lo: seq<Var>, vendorOk: bool): (r: Result<(LpModel, int), Error>)
    requires Enumerates(lo, c.expr.linear.Keys)
    ensures rowIdx >= 0 ==> r == Err(PostedTwice)
    ensures rowIdx < 0 && IsQuadratic(c.expr) ==> r == Err(QuadraticConstraintUnsupported)
    ensures r.Ok? <==> rowIdx < 0 && IsLinear(c.expr) && vendorOk
    ensures r.Ok? ==>
      && r.value.0 == m.(rows := m.rows + [RowOf(c, lo)])
      && r.value.1 == |r.value.0.rows|
  {
    if rowIdx >= 0 then Err(PostedTwice)
    else if IsQuadratic(c.expr) then Err(QuadraticConstraintUnsupported)
    else if !vendorOk then Err(VendorCallFailed)
    else
      var m1 := m.(rows := m.rows + [RowOf(c, lo)]);
      Ok((m1, |m1.rows|))
  }

  /** The index a successful post records is itself a set index, so posting
      the constraint again fails; the new row is the last one. */
  lemma {:induction false} PostTwice(m: LpModel, c: Constr, lo: seq<Var>)
    requires Enumerates(lo, c.expr.linear.Keys) && IsLinear(c.expr)
    ensures Post(m, Unposted, c, lo, true).Ok?
    ensures var (m1, idx) := Post(m, Unposted, c, lo, true).value;
      1 <= idx == |m1.rows| && m1.rows[idx - 1] == RowOf(c, lo) &&
      forall ok :: Post(m1, idx, c, lo, ok) == Err(PostedTwice)
  {
  }

  /** `add(IndicatorConstr)`: lp_solve has no indicator constraints. */
  function PostIndicator(m: LpModel, ic: IndicatorConstr): (r: Result<LpModel, Error>)
    ensures r.Err? && r.error == IndicatorUnsupported
  {
    Err(IndicatorUnsupported)
  }

  /** Through `Solver::add(IndicatorConstr)`, an lp_solve backend posts an
      indicator constraint only as its reformulation: under `PassThrough` it
      always fails, and under a reformulating policy the reformulation is
      posted row by row. */
  lemma {:induction false} IndicatorOnlyByReformulation(policy: IndicatorPolicy, supports: bool,
                                                        post: (LpModel, Constr) -> Result<LpModel, Error>,
                                                        m: LpModel, ic: IndicatorConstr, reformulation: seq<Constr>)
    ensures !Reformulates(policy, supports) ==>
      AddIndicator(policy, supports, post, PostIndicator, m, ic, reformulation) == Outcome(m, 0, Some(IndicatorUnsupported))
    ensures Reformulates(policy, supports) ==>
      AddIndicator(policy, supports, post, PostIndicator, m, ic, reformulation) == PostAll(post, m, reformulation)
  {
  }

  // ---------------------------------------------------------------------------
  // Objective

  /** `set_objective`: a linear objective installs its linear terms (the
      constant is not passed to lp_solve) and the direction; a quadratic one
      is refused; a failing `set_obj_fnex` (`vendorOk` false) throws. */
  function SetObjective(m: LpModel, sense: Sense, e: Expr, lo: seq<Var>, vendorOk: bool): (r: Result<LpModel, Error>)
    requires Enumerates(lo, e.linear.Keys)
    ensures IsQuadratic(e) ==> r == Err(QuadraticObjectiveUnsupported)
    ensures r.Ok? <==> IsLinear(e) && vendorOk
    ensures r.Ok? ==> r.value.rows == m.rows && r.value.maximize == (sense == Maximize)
    ensures r.Ok? ==> |r.value.objCols| == |r.value.objCoeffs|
  {
    if IsLinear(e) then
      if !vendorOk then Err(VendorCallFailed)
      else Ok(LpModel(m.rows, LinearVars(e, lo), LinearCoeffs(e, lo), sense == Maximize))
    else Err(QuadraticObjectiveUnsupported)
  }

  /** The installed objective is the expression less its constant, so the
      optimum is the same point though the reported value is shifted. */
  lemma {:induction false} ObjectiveDropsConstant(m: LpModel, sense: Sense, e: Expr, lo: seq<Var>, a: Var -> real)
    requires Enumerates(lo, e.linear.Keys) && IsLinear(e)
    ensures var r := SetObjective(m, sense, e, lo, true).value;
      ListSum(r.objCols, r.objCoeffs, Weight(a)) == Eval(e, a) - e.constant
  {
    assert LinearCoeffs(e, lo) == Lookups(e.linear, lo);
    ListingSum(e.linear, lo, Weight(a));
    assert e.quad == map[];
    SumMapEmpty(Weight(PairValue(a)));
  }

  // ---------------------------------------------------------------------------
  // Status

  /** The status map of `solve`, from the return code of lp_solve's `solve`. */
  function SolveStatus(code: int): SolveResult {
    if code == 0 || code == 9 then Optimal
    else if code == 1 then Interrupted
    else if code == 2 then Infeasible
    else if code == 3 then Unbounded
    else if code == -2 || code == 6 || code == 7 then Interrupted
    else if code == 4 || code == 5 || code == 25 then Failed
    else Other
  }

  /** Each result comes from exactly the codes the source lists for it. */
  lemma {:induction false} SolveStatusInverse(code: int)
    ensures SolveStatus(code) == Optimal <==> code in {0, 9}
    ensures SolveStatus(code) == Interrupted <==> code in {1, -2, 6, 7}
    ensures SolveStatus(code) == Infeasible <==> code == 2
    ensures SolveStatus(code) == Unbounded <==> code == 3
    ensures SolveStatus(code) == Failed <==> code in {4, 5, 25}
    ensures SolveStatus(code) == Other <==> code !in {-2, 0, 1, 2, 3, 4, 5, 6, 7, 9, 25}
    ensures SolveStatus(code) != InfeasibleOrUnbounded
  {
  }

  // ---------------------------------------------------------------------------
  // Dumping the model

  /** The writer `dump` chooses. */
  datatype DumpFormat = LpFile | MpsFile

  predicate EndsWith(s: string, suffix: string) {
    |suffix| <= |s| && s[|s| - |suffix|..] == suffix
  }

  /** `dump` as the source writes it: the extension is the last three
      characters (`substr(size - 3)`, which throws `out_of_range` for a name
      shorter than three characters), compared against "lp", "LP", "mps" and
      "MPS". */
  function DumpAsWritten(filename: string): (r: Result<DumpFormat, Error>)
    ensures |filename| < 3 ==> r == Err(SubstrOutOfRange)
  {
    if |filename| < 3 then Err(SubstrOutOfRange)
    else
      var ext := filename[|filename| - 3..];
      if ext == "lp" || ext == "LP" then Ok(LpFile)
      else if ext == "mps" || ext == "MPS" then Ok(MpsFile)
      else Err(DumpFormatUnsupported)
  }

  /** As written, no file name is ever dumped in the LP format. */
  lemma {:induction false} AsWrittenNeverLp(filename: string)
    ensures DumpAsWritten(filename) != Ok(LpFile)
  {
    if |filename| >= 3 {
      var ext := filename[|filename| - 3..];
      assert |ext| == 3;
    }
  }

  /** As written, `model.lp` is refused and `lp` throws. */
  lemma AsWrittenRejectsLpNames()
    ensures DumpAsWritten("model.lp") == Err(DumpFormatUnsupported)
    ensures DumpAsWritten("lp") == Err(SubstrOutOfRange)
  {
    assert "model.lp"[5..] == ".lp";
  }

  /** `dump` as evidently intended: a name ending in "lp" or "LP" is written
      as LP, one ending in "mps" or "MPS" as MPS, and any other name is
      refused; short names are refused rather than thrown on. */
  function Dump(filename: string): (r: Result<DumpFormat, Error>)
    ensures r.Err? ==> r.error == DumpFormatUnsupported
  {
    if EndsWith(filename, "lp") || EndsWith(filename, "LP") then Ok(LpFile)
    else if EndsWith(filename, "mps") || EndsWith(filename, "MPS") then Ok(MpsFile)
    else Err(DumpFormatUnsupported)
  }

  /** The intended `dump` writes LP exactly for the names that are some stem
      followed by "lp" or "LP". */
  lemma {:induction false} DumpLpIff(filename: string)
    ensures Dump(filename) == Ok(LpFile) <==> exists stem :: filename == stem + "lp" || filename == stem + "LP"
  {
    if EndsWith(filename, "lp") || EndsWith(filename, "LP") {
      var stem := filename[..|filename| - 2];
      assert filename == stem + filename[|filename| - 2..];
    }
    if exists stem :: filename == stem + "lp" || filename == stem + "LP" {
      var stem :| filename == stem + "lp" || filename == stem + "LP";
      assert filename[|filename| - 2..] == filename[|stem|..];
    }
  }

  /** The intended `dump` writes MPS exactly for the names that are some stem
      followed by "mps" or "MPS". */
  lemma {:induction false} DumpMpsIff(filename: string)
    ensures Dump(filename) == Ok(MpsFile) <==> exists stem :: filename == stem + "mps" || filename == stem + "MPS"
  {
    if EndsWith(filename, "mps") || EndsWith(filename, "MPS") {
      var stem := filename[..|filename| - 3];
      assert filename == stem + filename[|filename| - 3..];
      assert !EndsWith(filename, "lp") && !EndsWith(filename, "LP") by {
        assert filename[|filename| - 2..] == filename[|filename| - 3..][1..];
      }
    }
    if exists stem :: filename == stem + "mps" || filename == stem + "MPS" {
      var stem :| filename == stem + "mps" || filename == stem + "MPS";
      assert filename[|filename| - 3..] == filename[|stem|..];
      assert filename[|filename| - 2..] == filename[|stem| + 1..];
    }
  }

  /** For the MPS names the source and the intended `dump` agree. */
  lemma {:induction false} DumpAgreesOnMps(filename: string)
    requires EndsWith(filename, "mps") || EndsWith(filename, "MPS")
    ensures DumpAsWritten(filename) == Dump(filename) == Ok(MpsFile)
  {
    DumpMpsIff(filename);
    var stem := filename[..|filename| - 3];
    assert filename == stem + filename[|filename| - 3..];
  }
}
