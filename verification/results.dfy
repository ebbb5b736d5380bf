/** Failure-compatible wrappers shared by every module of the model. */
module Results {

  /** The ways the modelled code fails: a raised Python exception, a thrown
      C++ string or a failed debug assertion. */
  datatype Error =
    | IndexOutOfRange        // numpy IndexError: an id outside [-count, count)
    | EmptyRange             // numpy refuses zero sections or the argmax of nothing
    | NoInterception         // a drag whose ray misses the sphere passes None on
    | Outdated               // DynamicBoard getter called while needsUpdate is set
    | FaceNotTriangle(face: nat)  // the hull face walk did not return to its start
    | DegenerateCell(node: nat)   // a Voronoi cell with fewer than three corners
    | NegativeSize           // Eigen rejects a resize to fewer than 0 columns
    | ColumnOutOfRange       // Eigen's assertion on col(i) outside [0, cols)

  datatype Option<+T> = None | Some(value: T)

  datatype Result<+T> = Ok(value: T) | Err(error: Error) {

    predicate IsFailure() {
      Err?
    }

    function PropagateFailure<U>(): Result<U>
      requires Err?
    {
      Err(error)
    }

    function Extract(): T
      requires Ok?
    {
      value
    }
  }
}
