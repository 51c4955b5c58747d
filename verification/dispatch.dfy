/** The solver front end (miplib/solver.cpp): which backend a `Solver` is
    built on, and how `Solver::add(IndicatorConstr)` chooses between the
    backend's native indicator constraints and a reformulation into plain
    constraints. The backends themselves appear only through the functions
    passed in: a backend state `M`, its `add(Constr)` and its
    `add(IndicatorConstr)`. */
module Dispatch {
  import opened Wrappers
  import opened Errors
  import opened Constraints

  /** `Solver::Backend`. */
  datatype Backend = Gurobi | Scip | Lpsolve | Any

  /** `Solver::Sense`. */
  datatype Sense = Maximize | Minimize

  /** `Solver::Result`, the status every backend's `solve` reports. */
  datatype SolveResult = Optimal | Infeasible | InfeasibleOrUnbounded | Unbounded | Interrupted | Failed | Other

  /** `Solver::IndicatorConstraintPolicy`. */
  datatype IndicatorPolicy = Reformulate | ReformulateIfUnsupported | PassThrough

  /** Which of the `WITH_GUROBI`, `WITH_SCIP` and `WITH_LPSOLVE` macros the
      library was compiled with. */
  datatype Compiled = Compiled(gurobi: bool, scip: bool, lpsolve: bool)

  /** The backend compiled in, for each implementation. */
  predicate Available(n: BackendName, built: Compiled) {
    match n
    case GurobiName => built.gurobi
    case ScipName => built.scip
    case LpsolveName => built.lpsolve
  }

  /** The implementation a named backend requests; `Any` requests none. */
  function Requested(b: Backend): Option<BackendName> {
    match b
    case Gurobi => Some(GurobiName)
    case Scip => Some(ScipName)
    case Lpsolve => Some(LpsolveName)
    case Any => None
  }

  /** The order in which `Any` tries the implementations. */
  function Rank(n: BackendName): nat {
    match n
    case GurobiName => 0
    case ScipName => 1
    case LpsolveName => 2
  }

  // ---------------------------------------------------------------------------
  // Backend selection

  /** `Solver::supports_backend`: a named backend is supported when it was
      compiled in; `Any` is never reported as supported. */
  function SupportsBackend(b: Backend, built: Compiled): (r: bool)
    ensures r ==> Requested(b).Some? && Available(Requested(b).value, built)
    ensures b == Any ==> !r
  {
    match b
    case Gurobi => built.gurobi
    case Scip => built.scip
    case Lpsolve => built.lpsolve
    case Any => false
  }

  /** The constructor `Solver::Solver(backend)`: the implementation it
      creates, or the error it throws. A named backend is created when it was
      compiled in; `Any` takes the first compiled implementation in the order
      Gurobi, SCIP, lpsolve. */
  function Create(b: Backend, built: Compiled): (r: Result<BackendName, Error>)
    ensures r.Ok? ==> Available(r.value, built)
    ensures Requested(b).Some? && r.Ok? ==> r.value == Requested(b).value
    ensures Requested(b).Some? && r.Err? ==> r.error == BackendNotCompiled(Requested(b).value)
    ensures b == Any && r.Err? ==> r.error == NoBackendCompiled
  {
    match b
    case Gurobi => if built.gurobi then Ok(GurobiName) else Err(BackendNotCompiled(GurobiName))
    case Scip => if built.scip then Ok(ScipName) else Err(BackendNotCompiled(ScipName))
    case Lpsolve => if built.lpsolve then Ok(LpsolveName) else Err(BackendNotCompiled(LpsolveName))
    case Any =>
      if built.gurobi then Ok(GurobiName)
      else if built.scip then Ok(ScipName)
      else if built.lpsolve then Ok(LpsolveName)
      else Err(NoBackendCompiled)
  }

  /** For a named backend, construction succeeds exactly when
      `supports_backend` says so. */
  lemma {:induction false} CreateNamedIffSupported(b: Backend, built: Compiled)
    requires b != Any
    ensures Create(b, built).Ok? <==> SupportsBackend(b, built)
  {
  }

  /** `Any` succeeds exactly when some implementation was compiled in, and
      then picks the one of least rank among those compiled in. */
  lemma {:induction false} CreateAnyPicksFirst(built: Compiled)
    ensures Create(Any, built).Ok? <==> exists n :: Available(n, built)
    ensures Create(Any, built).Ok? ==>
      forall n :: Available(n, built) ==> Rank(Create(Any, built).value) <= Rank(n)
  {
    if built.gurobi {
      assert Available(GurobiName, built);
    } else if built.scip {
      assert Available(ScipName, built);
    } else if built.lpsolve {
      assert Available(LpsolveName, built);
    }
  }

  /** `Any` is never "supported", yet construction with `Any` succeeds
      whenever any implementation is compiled in. */
  lemma {:induction false} AnyUnsupportedButCreatable(built: Compiled)
    requires built.gurobi || built.scip || built.lpsolve
    ensures !SupportsBackend(Any, built)
    ensures Create(Any, built).Ok?
  {
  }

  // ---------------------------------------------------------------------------
  // Indicator dispatch

  /** What a sequence of posts leaves behind: the backend state, how many
      posts went through, and the error that stopped the sequence, if any.
      An exception in the source does not undo the posts before it, so the
      state is kept alongside the error. */
  datatype Outcome<M> = Outcome(state: M, posted: nat, error: Option<Error>)

  /** Posting the constraints of a sequence one after another through
      `Solver::add(Constr)`; the first error stops the loop, and the
      constraints already posted stay posted. */
  function PostAll<M>(post: (M, Constr) -> Result<M, Error>, m: M, cs: seq<Constr>): (r: Outcome<M>)
    ensures r.posted <= |cs|
    ensures r.error.None? <==> r.posted == |cs|
    decreases |cs|
  {
    if |cs| == 0 then Outcome(m, 0, None)
    else
      match post(m, cs[0])
      case Err(e) => Outcome(m, 0, Some(e))
      case Ok(m1) =>
        var o := PostAll(post, m1, cs[1..]);
        Outcome(o.state, o.posted + 1, o.error)
  }

  /** A stopped sequence is a prefix that went through without error, left
      exactly the state reported, and a next constraint that the backend
      refused with the error reported. */
  lemma {:induction false} PostAllStops<M>(post: (M, Constr) -> Result<M, Error>, m: M, cs: seq<Constr>)
    requires PostAll(post, m, cs).error.Some?
    ensures var r := PostAll(post, m, cs);
      && r.posted < |cs|
      && PostAll(post, m, cs[..r.posted]) == Outcome(r.state, r.posted, None)
      && post(r.state, cs[r.posted]) == Err(r.error.value)
    decreases |cs|
  {
    match post(m, cs[0])
    case Err(e) =>
      assert cs[..0] == [];
    case Ok(m1) =>
      var r := PostAll(post, m, cs);
      PostAllStops(post, m1, cs[1..]);
      var k := r.posted - 1;
      assert cs[..r.posted][0] == cs[0];
      assert cs[..r.posted][1..] == cs[1..][..k];
      assert cs[r.posted] == cs[1..][k];
  }

  /** Posting `xs + ys` is posting `xs`, then, unless that stopped, posting
      `ys` on the state it left. */
  lemma {:induction false} PostAllAppend<M>(post: (M, Constr) -> Result<M, Error>, m: M, xs: seq<Constr>, ys: seq<Constr>)
    ensures PostAll(post, m, xs + ys) ==
      var o := PostAll(post, m, xs);
      if o.error.Some? then o
      else
        var o2 := PostAll(post, o.state, ys);
        Outcome(o2.state, |xs| + o2.posted, o2.error)
    decreases |xs|
  {
    if |xs| == 0 {
      assert xs + ys == ys;
    } else {
      assert (xs + ys)[0] == xs[0];
      assert (xs + ys)[1..] == xs[1..] + ys;
      match post(m, xs[0])
      case Err(e) =>
      case Ok(m1) => PostAllAppend(post, m1, xs[1..], ys);
    }
  }

  /** When the backend records the constraints it accepts in a log and never
      fails, posting a sequence appends exactly that sequence to the log. */
  lemma {:induction false} PostAllLogs(log: seq<Constr>, cs: seq<Constr>)
    ensures PostAll((l: seq<Constr>, c: Constr) => Ok(l + [c]), log, cs) == Outcome(log + cs, |cs|, None)
    decreases |cs|
  {
    if |cs| > 0 {
      PostAllLogs(log + [cs[0]], cs[1..]);
      assert log + [cs[0]] + cs[1..] == log + cs;
    } else {
      assert log + cs == log;
    }
  }

  /** Whether `Solver::add(IndicatorConstr)` reformulates rather than passing
      the constraint to the backend. */
  predicate Reformulates(policy: IndicatorPolicy, supportsIndicators: bool) {
    policy == Reformulate || (!supportsIndicators && policy == ReformulateIfUnsupported)
  }

  /** Handing the indicator constraint to the backend's own
      `add(IndicatorConstr)`, as one post. */
  function Native<M>(postIndicator: (M, IndicatorConstr) -> Result<M, Error>, m: M, ic: IndicatorConstr): (r: Outcome<M>)
    ensures r.posted <= 1 && (r.error.None? <==> r.posted == 1)
    ensures r.error.Some? ==> r.state == m && postIndicator(m, ic) == Err(r.error.value)
    ensures r.error.None? ==> postIndicator(m, ic) == Ok(r.state)
  {
    match postIndicator(m, ic)
    case Ok(m1) => Outcome(m1, 1, None)
    case Err(e) => Outcome(m, 0, Some(e))
  }

  /** `Solver::add(IndicatorConstr)`: either post each constraint of the
      reformulation through the backend's `add(Constr)`, or hand the
      indicator constraint to the backend's own `add(IndicatorConstr)`.
      `reformulation` is what `IndicatorConstr::reformulation()` returns, and
      `supportsIndicators` what the backend's
      `supports_indicator_constraints()` returns; neither body is part of
      this model. A refused native post leaves the state as it was. */
  function AddIndicator<M>(policy: IndicatorPolicy, supportsIndicators: bool,
                           post: (M, Constr) -> Result<M, Error>,
                           postIndicator: (M, IndicatorConstr) -> Result<M, Error>,
                           m: M, ic: IndicatorConstr, reformulation: seq<Constr>): (r: Outcome<M>)
    ensures Reformulates(policy, supportsIndicators) ==> r.posted <= |reformulation| && (r.error.None? <==> r.posted == |reformulation|)
    ensures !Reformulates(policy, supportsIndicators) ==> r.posted <= 1 && (r.error.None? <==> r.posted == 1)
    ensures r.error.Some? && r.posted == 0 ==> r.state == m
  {
    if Reformulates(policy, supportsIndicators) then PostAll(post, m, reformulation)
    else Native(postIndicator, m, ic)
  }

  /** Under `Reformulate` the indicator constraint is replaced by its
      reformulation, whatever the backend supports, and the backend's native
      `add(IndicatorConstr)` is never consulted. */
  lemma {:induction false} ReformulatePolicy<M>(supports1: bool, supports2: bool,
                                                post: (M, Constr) -> Result<M, Error>,
                                                native1: (M, IndicatorConstr) -> Result<M, Error>,
                                                native2: (M, IndicatorConstr) -> Result<M, Error>,
                                                m: M, ic: IndicatorConstr, reformulation: seq<Constr>)
    ensures AddIndicator(Reformulate, supports1, post, native1, m, ic, reformulation) ==
            AddIndicator(Reformulate, supports2, post, native2, m, ic, reformulation)
    ensures AddIndicator(Reformulate, supports1, post, native1, m, ic, reformulation) ==
            PostAll(post, m, reformulation)
  {
  }

  /** Under `ReformulateIfUnsupported` the constraint is reformulated exactly
      when the backend lacks indicator support, and passed through
      otherwise. */
  lemma {:induction false} ReformulateIfUnsupportedPolicy<M>(supports: bool,
                                                             post: (M, Constr) -> Result<M, Error>,
                                                             native: (M, IndicatorConstr) -> Result<M, Error>,
                                                             m: M, ic: IndicatorConstr, reformulation: seq<Constr>)
    ensures supports ==> AddIndicator(ReformulateIfUnsupported, supports, post, native, m, ic, reformulation) ==
                         Native(native, m, ic)
    ensures !supports ==> AddIndicator(ReformulateIfUnsupported, supports, post, native, m, ic, reformulation) ==
                          PostAll(post, m, reformulation)
  {
  }

  /** Under `PassThrough` the constraint always goes to the backend
      unchanged, and the reformulation is never posted. */
  lemma {:induction false} PassThroughPolicy<M>(supports: bool,
                                                post: (M, Constr) -> Result<M, Error>,
                                                native: (M, IndicatorConstr) -> Result<M, Error>,
                                                m: M, ic: IndicatorConstr, r1: seq<Constr>, r2: seq<Constr>)
    ensures AddIndicator(PassThrough, supports, post, native, m, ic, r1) == Native(native, m, ic)
    ensures AddIndicator(PassThrough, supports, post, native, m, ic, r1) ==
            AddIndicator(PassThrough, supports, post, native, m, ic, r2)
  {
  }

  /** With a logging backend, a reformulated indicator constraint leaves the
      log extended by exactly its reformulation and nothing else. */
  lemma {:induction false} ReformulationIsPosted(policy: IndicatorPolicy, supports: bool,
                                                 native: (seq<Constr>, IndicatorConstr) -> Result<seq<Constr>, Error>,
                                                 log: seq<Constr>, ic: IndicatorConstr, reformulation: seq<Constr>)
    requires Reformulates(policy, supports)
    ensures AddIndicator(policy, supports, (l: seq<Constr>, c: Constr) => Ok(l + [c]), native, log, ic, reformulation) ==
            Outcome(log + reformulation, |reformulation|, None)
  {
    PostAllLogs(log, reformulation);
  }
}
