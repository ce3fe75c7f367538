/** Entity references, tuple subjects, and the string keys the source indexes them by. */
module Refs {
  datatype EntityRef = EntityRef(kind: string, id: string)

  datatype Subject = Direct(ref: EntityRef) | UsersetOf(ref: EntityRef, relation: string)

  // A pair "object#relation": one vertex of the relationship graph.
  datatype Node = Node(entity: EntityRef, relation: string)

  // The parts of a tuple key "object#relation@subject", as grant paths list them.
  datatype TupleKey = TupleKey(entity: EntityRef, relation: string, subject: Subject)

  function NodeOf(s: Subject): Node
    requires s.UsersetOf?
  {
    Node(s.ref, s.relation)
  }
}
