// Shared result types, positions, and the order in which a boundary's events stand.
module Common {

  datatype Option<+T> = None | Some(value: T)

  // The status codes the modelled operations report.
  datatype Status = InvalidArgument | AlreadyExists | FailedPrecondition | NotFound | Internal | Canceled

  datatype Result<+T> = Ok(value: T) | Err(status: Status)

  const MAX_INT64: int := 0x7fff_ffff_ffff_ffff

  datatype Position = Position(commit: int, prepare: int)

  const NOT_EXISTS := Position(-1, -1)

  // eventstore.Position.After and positionValuesAfter.
  predicate After(p: Position, q: Position) {
    p.commit > q.commit || (p.commit == q.commit && p.prepare > q.prepare)
  }

  predicate AtOrAfter(p: Position, q: Position) {
    p == q || After(p, q)
  }
}
