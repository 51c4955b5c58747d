/** The decision rules of the SCIP backend (miplib/scip/solver.cpp): the
    two-sided row a constraint becomes, the guard against posting a
    constraint twice, the split of an indicator constraint into SCIP
    indicator constraints, and the status map of `solve`.

    SCIP keeps, per miplib constraint, a handle to the SCIP constraint it
    posted (`p_constr`, or `p_constr_1` and `p_constr_2` for an indicator
    constraint; miplib/scip/constr.hpp), released by the destructor. Here the
    SCIP problem is the sequence of constraints posted so far and a handle is
    the position of a posted constraint, `None` standing for `nullptr`. */
module Scip {
  import opened Wrappers
  import opened Errors
  import opened Variables
  import opened TermMaps
  import opened Expressions
  import opened Constraints
  import opened Dispatch
  import opened Rows
  import opened NativeIndicators

  // ---------------------------------------------------------------------------
  // Constraints

  /** A SCIP linear or quadratic constraint `lhs <= terms <= rhs`; a left
      side of `NegInfinity` is `-SCIPinfinity`. */
  datatype ScipRow = ScipRow(linear: bool, terms: Terms, lhs: Bound, rhs: real)

  /** A SCIP indicator constraint: when the literal is 1, `terms <= rhs`. */
  datatype ScipIndicator = ScipIndicator(lit: Literal, terms: Terms, rhs: real)

  /** A binary variable or its negation, as `SCIPgetNegatedVar` gives it. */
  datatype Literal = Plain(v: Var) | Negated(v: Var)

  datatype ScipCons = RowCons(row: ScipRow) | IndicatorCons(ind: ScipIndicator)

  /** The SCIP problem: the constraints added by `SCIPaddCons`, in order. */
  datatype ScipModel = ScipModel(conss: seq<ScipCons>)

  ghost function LiteralValue(l: Literal, a: Var -> real): real {
    match l
    case Plain(v) => a(v)
    case Negated(v) => 1.0 - a(v)
  }

  ghost predicate RowHolds(r: ScipRow, a: Var -> real)
    requires WellFormed(r.terms)
  {
    && (r.lhs.Finite? ==> r.lhs.value <= TermsValue(r.terms, a))
    && r.lhs != PosInfinity
    && TermsValue(r.terms, a) <= r.rhs
  }

  ghost predicate IndicatorConsHolds(ind: ScipIndicator, a: Var -> real)
    requires WellFormed(ind.terms)
  {
    LiteralValue(ind.lit, a) == 1.0 ==> TermsValue(ind.terms, a) <= ind.rhs
  }

  ghost predicate ConsWellFormed(c: ScipCons) {
    match c
    case RowCons(r) => WellFormed(r.terms)
    case IndicatorCons(i) => WellFormed(i.terms)
  }

  ghost predicate ConsHolds(c: ScipCons, a: Var -> real)
    requires ConsWellFormed(c)
  {
    match c
    case RowCons(r) => RowHolds(r, a)
    case IndicatorCons(i) => IndicatorConsHolds(i, a)
  }

  /** `ScipSolver::create_constr`: the `ScipConstr` it builds stores
      `expr.solver()` (miplib/scip/constr.hpp), and `ExprImpl::solver` fails for a constant
      expression; any other constraint is kept as it is. */
  function CreateConstr(c: Constr): Result<Constr, Error> {
    if IsConstant(c.expr) then Err(NoSolver) else Ok(c)
  }

  /** `e1 <= e2` and `e1 == e2` on SCIP variables: the front end's check,
      then this backend's factory. */
  function Compare(ctype: ConstrType, e1: Expr, e2: Expr): Result<Constr, Error> {
    match Relate(ctype, e1, e2)
    case Err(err) => Err(err)
    case Ok(c) => CreateConstr(c)
  }

  /** A comparison on SCIP variables fails exactly when its two sides have
      the same terms: with both sides constant the front end refuses it, and
      otherwise their constant difference has no solver. Any other comparison
      is the constraint the front end built. */
  lemma {:induction false} CompareFails(ctype: ConstrType, e1: Expr, e2: Expr)
    requires Valid(e1) && Valid(e2)
    ensures Compare(ctype, e1, e2).Err? <==> e1.linear == e2.linear && e1.quad == e2.quad
    ensures Compare(ctype, e1, e2).Err? ==>
      Compare(ctype, e1, e2).error == (if IsConstant(e1) && IsConstant(e2) then ConstantConstraint else NoSolver)
    ensures Compare(ctype, e1, e2).Ok? ==> Compare(ctype, e1, e2) == Relate(ctype, e1, e2)
  {
    SubConstantIff(e1, e2);
    if IsConstant(e1) && IsConstant(e2) {
      assert e1.linear == map[] == e2.linear && e1.quad == map[] == e2.quad;
    }
  }

  /** Unlike Gurobi, SCIP cannot form `x <= x`. */
  lemma {:induction false} SelfComparisonFails(x: Var)
    ensures Compare(LessEqual, FromVar(x), FromVar(x)) == Err(NoSolver)
  {
    CompareFails(LessEqual, FromVar(x), FromVar(x));
  }

  /** `as_scip_constr`: the listed terms, the right side `-constant`, and the
      left side `-constant` for an equation and `-SCIPinfinity` otherwise.
      The error branch of the source is unreachable. A constraint reaching it
      has passed `CreateConstr` and so is not constant; the rule does not
      depend on that. */
  function AsScipConstr(c: Constr, lo: seq<Var>, qo: seq<VarPair>): (r: Result<ScipRow, Error>)
    requires Enumerates(lo, c.expr.linear.Keys) && Enumerates(qo, c.expr.quad.Keys)
    ensures r.Ok?
    ensures WellFormed(r.value.terms) && r.value.linear == IsLinear(c.expr)
    ensures r.value.rhs == -c.expr.constant
    ensures r.value.lhs == if c.ctype == Equal then Finite(-c.expr.constant) else NegInfinity
  {
    var terms := ListTerms(c.expr, lo, qo);
    var lhs := if c.ctype == Equal then Finite(-c.expr.constant) else NegInfinity;
    if IsLinear(c.expr) then Ok(ScipRow(true, terms, lhs, -c.expr.constant))
    else if IsQuadratic(c.expr) then Ok(ScipRow(false, terms, lhs, -c.expr.constant))
    else Err(UnsupportedConstraint)
  }

  /** The row holds exactly when the constraint does. */
  lemma {:induction false} AsScipConstrMeaning(c: Constr, lo: seq<Var>, qo: seq<VarPair>, a: Var -> real)
    requires Enumerates(lo, c.expr.linear.Keys) && Enumerates(qo, c.expr.quad.Keys)
    ensures RowHolds(AsScipConstr(c, lo, qo).value, a) <==> Holds(c, a)
  {
    ListTermsValue(c.expr, lo, qo, a);
  }

  /** `add(Constr)`: a constraint whose handle is set was posted before and
      is refused; otherwise its row is added, and the handle records it. */
  function Post(m: ScipModel, handle: Option<nat>, c: Constr, lo: seq<Var>, qo: seq<VarPair>): (r: Result<(ScipModel, nat), Error>)
    requires Enumerates(lo, c.expr.linear.Keys) && Enumerates(qo, c.expr.quad.Keys)
    ensures r.Err? <==> handle.Some?
    ensures r.Err? ==> r.error == PostedTwice
    ensures r.Ok? ==>
      && r.value.0.conss == m.conss + [RowCons(AsScipConstr(c, lo, qo).value)]
      && r.value.1 == |m.conss|
  {
    if handle.Some? then Err(PostedTwice)
    else
      var row := AsScipConstr(c, lo, qo).value;
      Ok((ScipModel(m.conss + [RowCons(row)]), |m.conss|))
  }

  /** Posting the same constraint with the handle the first post set fails,
      and leaves nothing more posted. */
  lemma {:induction false} PostTwice(m: ScipModel, c: Constr, lo: seq<Var>, qo: seq<VarPair>)
    requires Enumerates(lo, c.expr.linear.Keys) && Enumerates(qo, c.expr.quad.Keys)
    ensures Post(m, None, c, lo, qo).Ok?
    ensures var (m1, h) := Post(m, None, c, lo, qo).value;
      m1.conss[h] == RowCons(AsScipConstr(c, lo, qo).value) &&
      Post(m1, Some(h), c, lo, qo) == Err(PostedTwice)
  {
  }

  // ---------------------------------------------------------------------------
  // Indicator constraints

  /** The handles of an indicator constraint, `p_constr_1` and `p_constr_2`. */
  datatype IndicatorHandle = IndicatorHandle(first: Option<nat>, second: Option<nat>)

  /** The handle that `ScipIndicatorConstr`'s constructor starts with. */
  const Unposted := IndicatorHandle(None, None)

  /** A handle holds the constraint at position `i`, so the destructor
      releases it. */
  predicate Held(h: IndicatorHandle, i: nat) {
    h.first == Some(i) || h.second == Some(i)
  }

  /** The literal the SCIP indicator is switched on by: the variable itself
      for value 1, its negation for value 0. */
  function LiteralOf(act: Activation): (l: Literal)
    ensures l.v == act.binVar
  {
    if act.binVal == 0 then Negated(act.binVar) else Plain(act.binVar)
  }

  /** The literal is 1 exactly when the variable takes the activating value. */
  lemma {:induction false} LiteralOfMeaning(act: Activation, a: Var -> real)
    requires act.binVal == 0 || act.binVal == 1
    ensures LiteralValue(LiteralOf(act), a) == 1.0 <==> a(act.binVar) == act.binVal as real
  {
  }

  /** The SCIP indicators posted for an accepted indicator constraint:
      `lit = 1 ⟹ terms <= -constant`, and for an equation implicand also
      `lit = 1 ⟹ -terms <= constant`. `value` is the rule for the activating
      value: `ActivationValueAsWritten` is the source's. `lo` is the
      iteration order of the implicant's linear map, `lo2` and `qo2` those of
      the implicand. */
  function IndicatorsOf(ic: IndicatorConstr, lo: seq<Var>, lo2: seq<Var>, qo2: seq<VarPair>,
                        value: (real, real) -> Option<int>): (r: seq<ScipIndicator>)
    requires Enumerates(lo, ic.implicant.expr.linear.Keys)
    requires Enumerates(lo2, ic.implicand.expr.linear.Keys) && Enumerates(qo2, ic.implicand.expr.quad.Keys)
    requires Check(ScipName, ic, lo, value).Ok?
    ensures |r| == if ic.implicand.ctype == Equal then 2 else 1
    ensures forall i | 0 <= i < |r| :: WellFormed(r[i].terms) && r[i].lit == LiteralOf(Check(ScipName, ic, lo, value).value)
  {
    var lit := LiteralOf(Check(ScipName, ic, lo, value).value);
    var terms := ListTerms(ic.implicand.expr, lo2, qo2);
    var k := ic.implicand.expr.constant;
    var first := ScipIndicator(lit, terms, -k);
    if ic.implicand.ctype == Equal then [first, ScipIndicator(lit, NegateTerms(terms), k)]
    else [first]
  }

  /** Where the rule accepts at a root of the implicant, the posted SCIP
      indicators all hold exactly when the indicator constraint does. */
  lemma {:induction false} IndicatorsOfMeaning(ic: IndicatorConstr, lo: seq<Var>, lo2: seq<Var>, qo2: seq<VarPair>,
                                               value: (real, real) -> Option<int>, a: Var -> real)
    requires Enumerates(lo, ic.implicant.expr.linear.Keys) && NoZero(ic.implicant.expr.linear)
    requires Enumerates(lo2, ic.implicand.expr.linear.Keys) && Enumerates(qo2, ic.implicand.expr.quad.Keys)
    requires AcceptsAtRoot(ScipName, ic, lo, value)
    ensures var inds := IndicatorsOf(ic, lo, lo2, qo2, value);
      (forall i | 0 <= i < |inds| :: IndicatorConsHolds(inds[i], a)) <==> IndicatorHolds(ic, a)
  {
    var act := Check(ScipName, ic, lo, value).value;
    var inds := IndicatorsOf(ic, lo, lo2, qo2, value);
    var terms := ListTerms(ic.implicand.expr, lo2, qo2);
    var k := ic.implicand.expr.constant;
    var lit := LiteralOf(act);
    AcceptedImplicantMeaning(ScipName, ic, lo, value, a);
    LiteralOfMeaning(act, a);
    ListTermsValue(ic.implicand.expr, lo2, qo2, a);
    assert inds[0] == ScipIndicator(lit, terms, -k);
    if ic.implicand.ctype == Equal {
      assert inds[1] == ScipIndicator(lit, NegateTerms(terms), k);
      NegateTermsValue(terms, a);
    }
  }

  /** `add(IndicatorConstr)` with the guard that the source evidently
      intended and with both handles kept: posting through a set handle is
      refused, and otherwise the SCIP indicators are appended and every one
      of them is held by the handle. */
  function PostIndicator(m: ScipModel, h: IndicatorHandle, ic: IndicatorConstr,
                         lo: seq<Var>, lo2: seq<Var>, qo2: seq<VarPair>, value: (real, real) -> Option<int>): (r: Result<(ScipModel, IndicatorHandle), Error>)
    requires Enumerates(lo, ic.implicant.expr.linear.Keys)
    requires Enumerates(lo2, ic.implicand.expr.linear.Keys) && Enumerates(qo2, ic.implicand.expr.quad.Keys)
    requires Check(ScipName, ic, lo, value).Ok?
    ensures r.Err? <==> h.first.Some?
    ensures r.Err? ==> r.error == PostedTwice
    ensures r.Ok? ==> r.value.0.conss == m.conss + Wrap(IndicatorsOf(ic, lo, lo2, qo2, value))
  {
    if h.first.Some? then Err(PostedTwice)
    else
      var inds := IndicatorsOf(ic, lo, lo2, qo2, value);
      var n := |m.conss|;
      var h1 := IndicatorHandle(Some(n), if |inds| == 2 then Some(n + 1) else h.second);
      Ok((ScipModel(m.conss + Wrap(inds)), h1))
  }

  /** Every SCIP constraint that `PostIndicator` adds is held by the new
      handle, so none is leaked. */
  lemma {:induction false} PostIndicatorHoldsAll(m: ScipModel, h: IndicatorHandle, ic: IndicatorConstr,
                                                 lo: seq<Var>, lo2: seq<Var>, qo2: seq<VarPair>,
                                                 value: (real, real) -> Option<int>)
    requires Enumerates(lo, ic.implicant.expr.linear.Keys)
    requires Enumerates(lo2, ic.implicand.expr.linear.Keys) && Enumerates(qo2, ic.implicand.expr.quad.Keys)
    requires Check(ScipName, ic, lo, value).Ok?
    requires h == Unposted
    ensures PostIndicator(m, h, ic, lo, lo2, qo2, value).Ok?
    ensures var (m1, h1) := PostIndicator(m, h, ic, lo, lo2, qo2, value).value;
      forall i: nat | |m.conss| <= i < |m1.conss| :: Held(h1, i)
  {
  }

  /** Once posted, the indicator constraint cannot be posted again. */
  lemma {:induction false} PostIndicatorTwice(m: ScipModel, ic: IndicatorConstr,
                                              lo: seq<Var>, lo2: seq<Var>, qo2: seq<VarPair>,
                                              value: (real, real) -> Option<int>)
    requires Enumerates(lo, ic.implicant.expr.linear.Keys)
    requires Enumerates(lo2, ic.implicand.expr.linear.Keys) && Enumerates(qo2, ic.implicand.expr.quad.Keys)
    requires Check(ScipName, ic, lo, value).Ok?
    ensures PostIndicator(m, Unposted, ic, lo, lo2, qo2, value).Ok?
    ensures var (m1, h1) := PostIndicator(m, Unposted, ic, lo, lo2, qo2, value).value;
      PostIndicator(m1, h1, ic, lo, lo2, qo2, value) == Err(PostedTwice)
  {
  }

  function Wrap(inds: seq<ScipIndicator>): (r: seq<ScipCons>)
    ensures |r| == |inds| && forall i | 0 <= i < |inds| :: r[i] == IndicatorCons(inds[i])
  {
    seq(|inds|, i requires 0 <= i < |inds| => IndicatorCons(inds[i]))
  }

  /** `add(IndicatorConstr)` as the source writes it, with the source's rule
      for the activating value: the check of
      `p_constr_1` builds an exception without throwing it, so a second post
      goes ahead; and for an equation implicand the second SCIP indicator is
      stored into `p_constr_1`, overwriting the first, while `p_constr_2`
      stays unset. */
  function PostIndicatorAsWritten(m: ScipModel, h: IndicatorHandle, ic: IndicatorConstr,
                                  lo: seq<Var>, lo2: seq<Var>, qo2: seq<VarPair>): (r: (ScipModel, IndicatorHandle))
    requires Enumerates(lo, ic.implicant.expr.linear.Keys)
    requires Enumerates(lo2, ic.implicand.expr.linear.Keys) && Enumerates(qo2, ic.implicand.expr.quad.Keys)
    requires CheckAsWritten(ScipName, ic, lo).Ok?
    ensures r.0.conss == m.conss + Wrap(IndicatorsOf(ic, lo, lo2, qo2, ActivationValueAsWritten))
  {
    var inds := IndicatorsOf(ic, lo, lo2, qo2, ActivationValueAsWritten);
    var n := |m.conss|;
    var h1 := IndicatorHandle(Some(n), h.second);
    var h2 := if |inds| == 2 then h1.(first := Some(n + 1)) else h1;
    (ScipModel(m.conss + Wrap(inds)), h2)
  }

  /** As written, posting an already posted indicator constraint adds its
      SCIP indicators a second time instead of failing. */
  lemma {:induction false} AsWrittenPostsTwice(m: ScipModel, ic: IndicatorConstr,
                                               lo: seq<Var>, lo2: seq<Var>, qo2: seq<VarPair>)
    requires Enumerates(lo, ic.implicant.expr.linear.Keys)
    requires Enumerates(lo2, ic.implicand.expr.linear.Keys) && Enumerates(qo2, ic.implicand.expr.quad.Keys)
    requires CheckAsWritten(ScipName, ic, lo).Ok?
    ensures var (m1, h1) := PostIndicatorAsWritten(m, Unposted, ic, lo, lo2, qo2);
      var (m2, _) := PostIndicatorAsWritten(m1, h1, ic, lo, lo2, qo2);
      h1.first.Some? && |m2.conss| > |m1.conss|
  {
  }

  /** As written, for an equation implicand the first SCIP indicator is held
      by no handle, so the destructor never releases it. */
  lemma {:induction false} AsWrittenLosesFirst(m: ScipModel, ic: IndicatorConstr,
                                               lo: seq<Var>, lo2: seq<Var>, qo2: seq<VarPair>)
    requires Enumerates(lo, ic.implicant.expr.linear.Keys)
    requires Enumerates(lo2, ic.implicand.expr.linear.Keys) && Enumerates(qo2, ic.implicand.expr.quad.Keys)
    requires CheckAsWritten(ScipName, ic, lo).Ok?
    requires ic.implicand.ctype == Equal
    ensures var (m1, h1) := PostIndicatorAsWritten(m, Unposted, ic, lo, lo2, qo2);
      |m1.conss| == |m.conss| + 2 && !Held(h1, |m.conss|)
  {
  }

  // ---------------------------------------------------------------------------
  // Status

  /** The values of `SCIPgetStatus` that `solve` names, and the rest. */
  datatype ScipStatus =
    | ScipOptimal | ScipInfeasible | ScipInfOrUnbd | ScipUnbounded
    | ScipNodeLimit | ScipTotalNodeLimit | ScipStallNodeLimit | ScipTimeLimit | ScipSolLimit
    | ScipBestSolLimit | ScipMemLimit | ScipGapLimit | ScipUserInterrupt | ScipRestartLimit
    | ScipTerminate
    | ScipUnlisted(code: int)

  /** `solve`: the result, and whether this solve found a new best
      solution. `runs` is `SCIPgetNRuns` and `before` and `after` are
      `SCIPgetNBestSolsFound`, each read before `SCIPsolve`, and `after`
      read after it. A problem never run counts as having found none. */
  function Solve(s: ScipStatus, runs: nat, before: nat, after: nat): (r: (SolveResult, bool))
  {
    var found := after > (if runs == 0 then 0 else before);
    match s
    case ScipOptimal => (Optimal, true)
    case ScipInfeasible => (Infeasible, false)
    case ScipInfOrUnbd => (InfeasibleOrUnbounded, false)
    case ScipUnbounded => (Unbounded, false)
    case ScipNodeLimit => (Interrupted, found)
    case ScipTotalNodeLimit => (Interrupted, found)
    case ScipStallNodeLimit => (Interrupted, found)
    case ScipTimeLimit => (Interrupted, found)
    case ScipSolLimit => (Interrupted, found)
    case ScipBestSolLimit => (Interrupted, found)
    case ScipMemLimit => (Interrupted, found)
    case ScipGapLimit => (Interrupted, found)
    case ScipUserInterrupt => (Interrupted, found)
    case ScipRestartLimit => (Interrupted, found)
    case ScipTerminate => (Failed, found)
    case ScipUnlisted(_) => (Other, found)
  }

  /** Each result comes from exactly the statuses the source lists for it. */
  lemma {:induction false} SolveInverse(s: ScipStatus, runs: nat, before: nat, after: nat)
    ensures Solve(s, runs, before, after).0 == Optimal <==> s == ScipOptimal
    ensures Solve(s, runs, before, after).0 == Infeasible <==> s == ScipInfeasible
    ensures Solve(s, runs, before, after).0 == InfeasibleOrUnbounded <==> s == ScipInfOrUnbd
    ensures Solve(s, runs, before, after).0 == Unbounded <==> s == ScipUnbounded
    ensures Solve(s, runs, before, after).0 == Interrupted <==>
      s in {ScipNodeLimit, ScipTotalNodeLimit, ScipStallNodeLimit, ScipTimeLimit, ScipSolLimit,
            ScipBestSolLimit, ScipMemLimit, ScipGapLimit, ScipUserInterrupt, ScipRestartLimit}
    ensures Solve(s, runs, before, after).0 == Failed <==> s == ScipTerminate
    ensures Solve(s, runs, before, after).0 == Other <==> s.ScipUnlisted?
  {
  }

  /** The solution flag: always set for an optimal status, never for the
      infeasible and unbounded ones, and otherwise set exactly when the count
      of best solutions grew during this solve (from 0 on a first run). */
  lemma {:induction false} SolveFlag(s: ScipStatus, runs: nat, before: nat, after: nat)
    ensures s == ScipOptimal ==> Solve(s, runs, before, after).1
    ensures s in {ScipInfeasible, ScipInfOrUnbd, ScipUnbounded} ==> !Solve(s, runs, before, after).1
    ensures s !in {ScipOptimal, ScipInfeasible, ScipInfOrUnbd, ScipUnbounded} ==>
      (Solve(s, runs, before, after).1 <==> (if runs == 0 then after > 0 else after > before))
  {
  }
}
