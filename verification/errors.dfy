/** The logic errors the library throws, one constructor per distinct message. */
module Errors {

  /** The backend whose factory rejected an indicator constraint; the messages
      differ only in this prefix. */
  datatype BackendName = GurobiName | ScipName | LpsolveName

  datatype Error =
    // expression algebra
    | QuarticExpression
    | CubicExpression
    | NonConstantDivisor
    // constraint formation
    | ConstantConstraint
    | NonBinaryNegation
    | NoSolver
    // variable creation
    | BinaryBoundsNot01
    // native indicator acceptance
    | IndicatorNeedsEquation(backend: BackendName)
    | IndicatorNeedsLinearImplicant(backend: BackendName)
    | IndicatorNeedsSingleVariable(backend: BackendName)
    | IndicatorNeedsZeroOne(backend: BackendName)
    | IndicatorNeedsLinearImplicand(backend: BackendName)
    // posting
    | PostedTwice
    | UnsupportedConstraint
    | QuadraticConstraintUnsupported
    | QuadraticObjectiveUnsupported
    | IndicatorUnsupported
    | VendorCallFailed
    | DumpFormatUnsupported
    | SubstrOutOfRange
    // backend selection
    | BackendNotCompiled(requested: BackendName)
    | NoBackendCompiled
}
