/** The error types of the solver library (aoc-solver/src/error.rs). The registry also
    reports `InvalidYearDay` and `DuplicateFactory`, which error.rs does not declare; they
    are added here as plain constructors. */
module SolverErrors {
  import opened MachineInts

  datatype ParseError =
    | InvalidFormat(message: string)
    | MissingData(message: string)
    | Other(message: string)

  datatype SolveError =
    | PartNotImplemented(part: u8)
    | PartOutOfRange(part: u8)
    | SolveFailed(message: string)

  datatype SolverError =
    | NotFound(year: u16, day: u8)
    | InvalidYearDay(year: u16, day: u8)
    | Parse(parseError: ParseError)
    | Solve(solveError: SolveError)

  datatype RegistrationError =
    | DuplicateSolver(year: u16, day: u8)
    | InvalidYearDay(year: u16, day: u8)
    | DuplicateFactory(year: u16, day: u8)
}
