/** Optional values and the ways a call into the mesh core can fail.
    The program raises a Python exception in each of these situations;
    the model returns the corresponding fault instead. */
module Outcomes {

  datatype Option<+T> = None | Some(value: T)

  /** Why the program would stop with an exception. */
  datatype Fault =
    | ShortFace           // an `f` line with fewer than three vertex numbers (IndexError)
    | BadVertexIndex      // a face names a vertex the list does not have (IndexError)
    | NoTriangles         // `triangles[0]` on an empty mesh (IndexError)
    | MissingNext         // an attribute read through a `nextEdge` that is None
    | MissingPair         // an attribute read through a `pair` that is None
    | NoSharedVertex      // `sharedVertex` returned False and its `.index` was read
    | NoSuccessorEdge     // a spin search found no edge, leaving its loop variable unbound
    | NoOppositeVertex    // `subdivide_edge` found no vertex opposite the edge (IndexError)
    | NoFanStart          // the interior fan walk found no start edge (unbound variable)
    | EmptyFan            // `adj_tris[0]` of a vertex with no adjacent triangle (IndexError)
    | MissingEdge         // an attribute read through a triangle's `edge` slot that is None
    | MissingTriangle     // an attribute read through an edge's `triangle` that is None
    | MissingSubdivision  // an attribute read through a `subdivision` slot that is None
    | DivisionByZero      // `Beta(n)` of a vertex with no adjacent triangle (ZeroDivisionError)

  datatype Result<+T> = Ok(value: T) | Err(fault: Fault)

  /** The outcome of an operation that returns nothing. */
  datatype Outcome = Done | Failed(fault: Fault)
}
