/** The Ruby exceptions that the harvester and its scripts raise or rescue. */
module Faults {

  datatype Fault =
    /** `RDF::ReaderError` from the N-Triples reader. */
    | ReaderError
    /** `NoMethodError` on `nil`: a missing XML element or datastream (`what` names it). */
    | NilReceiver(what: string)
    /** `ArgumentError` from `Date.parse` on an embargo date it cannot read. */
    | InvalidDate
    /** The repository has no object with this pid. */
    | NotFound(pid: string)
    /** The database refused `NULL` in a `NOT NULL` column. */
    | NullColumn(column: string)
    /** `ArgumentError` from a call that passes too few arguments. */
    | WrongArguments

  /** `FedoraObjectHarvesterError`: the underlying fault tagged with a pid. */
  datatype HarvestError = HarvestError(pid: string, cause: Fault)

  /**
   * A message a maintenance script collects in its `@exceptions`: the pid of
   * the object it was working on and the fault it rescued.
   */
  datatype ScriptError = ScriptError(pid: string, cause: Fault)
}
