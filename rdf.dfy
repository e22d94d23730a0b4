/** RDF statements as the `rdf` gem's readers yield them, reduced to what is read. */
module Rdf {

  /** A statement's predicate URI and its object (`pred`, `obj`), both as `to_s` gives them. */
  datatype Statement = Statement(pred: string, obj: string)
}
