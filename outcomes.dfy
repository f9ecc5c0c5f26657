/** Option and Result values, and the fatal failures of the read-classification run.
    Every `exit(...)` of the program, and every exception it does not catch, becomes an `Err`
    carrying one of these failures. */
module Outcomes {

  datatype Option<+T> = None | Some(value: T)

  datatype Result<+T, +E> = Ok(value: T) | Err(error: E)

  /** The ways the run stops before producing its outputs. */
  datatype Failure =
    | UnknownRegion(region: string)      // a region line whose name is in none of the host/additive/virus lists
    | NoRegion(sequence: string)         // a sequence name that no region lists
    | BadJunctionId(key: string)         // a junction id that does not split back into chrom, start and end
    | NoMatchOp(read: string)            // an alignment whose CIGAR has no match operation (list.index raises)
    | UnknownJunction(key: string)       // a junction id that is not a key of the junction table (KeyError)

  /** The failure a result carries, if any: what a method that changes state reports. */
  function FailureOf<T>(r: Result<T, Failure>): Option<Failure>
  {
    match r
    case Ok(_) => None
    case Err(e) => Some(e)
  }
}
