/** Fallible results and the error tags of the alignment core.

    Construction of a path, a mapping or a graph mapping, and decoding of the
    compact alignment string, either succeed with a value or fail with one of
    these tags. No partial object is ever returned. */
module Results {

  datatype Option<+T> = None | Some(value: T)

  /** Every way a construction or a decode can fail. */
  datatype Error =
    // the encoded string does not follow the grammar
    | MalformedEncoding
    // the supplied query is shorter or longer than the operations consume
    | QueryLengthMismatch
    // the operations run past the end of the node sequence, or start before it
    | ReferenceOutOfNode
    // a path or an encoded segment names a node the graph does not have
    | UnknownNode
    // a path with no nodes
    | EmptyPath
    // two consecutive path nodes that no edge links
    | MissingEdge
    // a different number of mappings than path nodes
    | MappingCountMismatch
    // a mapping that is malformed or whose bases disagree with its node
    | NodeSequenceMismatch
    // an interior mapping that does not cover its whole node
    | InteriorSpanMismatch
    // the first mapping does not start where the path starts
    | StartOffsetMismatch
    // the last mapping does not end where the path ends
    | EndOffsetMismatch
    // a mapping index outside the graph mapping
    | IndexOutOfRange

  /** Errors raised while reading text, as opposed to structural validation. */
  predicate IsParseError(e: Error) {
    e == MalformedEncoding || e == QueryLengthMismatch || e == ReferenceOutOfNode
  }

  datatype Result<+T> = Ok(value: T) | Err(error: Error)
}
