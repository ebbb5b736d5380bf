/** `DynamicBoard` (Cpp/GeodeticFloes/DynamicBoard.cpp): the board data
    behind a `needsUpdate` flag. Mutators set the flag, the getters of
    derived geometry throw while it is set, and `updateGeometryIfNeeded`
    rebuilds once and clears it. A thrown "data is outdated" is
    `Err(Outdated)`. */
module DynamicBoard {
  import opened Results
  import opened Vectors
  import opened HalfEdgeMesh
  import opened Indices
  import opened BoardData

  datatype Board = Board(data: Data, needsUpdate: bool)

  /** The constructor: fresh data, flag set. */
  function NewBoard(faceCount: nat, random: Source, unit: Normalizer, threadCount: nat): (b: Board)
    ensures b.needsUpdate
    ensures Aligned(b.data) && |b.data.nodes| == faceCount && b.data.threadCount == threadCount
  {
    Board(New(faceCount, random, unit, threadCount), true)
  }

  /** `throwIfUpdateNeeded` followed by reading `value`. */
  function Checked<T>(b: Board, value: T): (r: Result<T>)
    ensures r.Err? <==> b.needsUpdate
    ensures r.Err? ==> r.error == Outdated
    ensures r.Ok? ==> r.value == value
  {
    if b.needsUpdate then Err(Outdated) else Ok(value)
  }

  function InternalData(b: Board): (r: Result<Data>)
    ensures r.Err? <==> b.needsUpdate
  {
    Checked(b, b.data)
  }

  /** Never throws: the node count when above 3, else 0. */
  function FaceCount(b: Board): (r: nat)
    ensures r == 0 || r > 3
    ensures r > 3 ==> r == |b.data.nodes|
    ensures |b.data.nodes| > 3 ==> r == |b.data.nodes|
  {
    var faces := |b.data.nodes|;
    if faces > 3 then faces else 0
  }

  /** Never throws: the node matrix itself, current or not. */
  function FaceCenters(b: Board): (r: seq<Vec3>)
    ensures |r| == |b.data.nodes|
    ensures r == b.data.nodes
  {
    b.data.nodes
  }

  /** Never throws; Eigen's `col` asserts that the index names a node
      column. */
  function FaceCenter(b: Board, faceId: int): (r: Result<Vec3>)
    ensures r.Ok? <==> 0 <= faceId < |b.data.nodes|
    ensures r.Err? ==> r.error == ColumnOutOfRange
    ensures r.Ok? ==> r.value == FaceCenters(b)[faceId]
  {
    if 0 <= faceId < |b.data.nodes| then Ok(b.data.nodes[faceId]) else Err(ColumnOutOfRange)
  }

  /** Indexes `neighbors` only once the data is current. */
  function FaceNeighbors(b: Board, faceId: int): (r: Result<seq<nat>>)
    requires b.needsUpdate || 0 <= faceId < |b.data.neighbors|
    ensures r.Err? <==> b.needsUpdate
  {
    if b.needsUpdate then Err(Outdated) else Ok(b.data.neighbors[faceId])
  }

  function FaceVertices(b: Board, faceId: int): (r: Result<seq<nat>>)
    requires b.needsUpdate || 0 <= faceId < |b.data.faces|
    ensures r.Err? <==> b.needsUpdate
  {
    if b.needsUpdate then Err(Outdated) else Ok(b.data.faces[faceId])
  }

  function VertexCount(b: Board): (r: Result<nat>)
    ensures r.Err? <==> b.needsUpdate
  {
    Checked(b, |b.data.vertices|)
  }

  function VertexPositions(b: Board): (r: Result<seq<Vec3>>)
    ensures r.Err? <==> b.needsUpdate
  {
    Checked(b, b.data.vertices)
  }

  /** Throws when stale; then Eigen's `col` asserts on the index. */
  function VertexPosition(b: Board, vertexId: int): (r: Result<Vec3>)
    ensures b.needsUpdate ==> r == Err(Outdated)
    ensures !b.needsUpdate ==> (r.Ok? <==> 0 <= vertexId < |b.data.vertices|)
    ensures !b.needsUpdate && r.Err? ==> r.error == ColumnOutOfRange
    ensures r.Ok? ==> VertexPositions(b).Ok? && r.value == VertexPositions(b).value[vertexId]
  {
    if b.needsUpdate then Err(Outdated)
    else if 0 <= vertexId < |b.data.vertices| then Ok(b.data.vertices[vertexId])
    else Err(ColumnOutOfRange)
  }

  function BorderCount(b: Board): (r: Result<nat>)
    ensures r.Err? <==> b.needsUpdate
  {
    Checked(b, |b.data.borders|)
  }

  function BorderVertices(b: Board): (r: Result<seq<Border>>)
    ensures r.Err? <==> b.needsUpdate
  {
    Checked(b, b.data.borders)
  }

  /** Throws when stale; then Eigen's `col` asserts on the index. */
  function BorderVerticesAt(b: Board, borderId: int): (r: Result<Border>)
    ensures b.needsUpdate ==> r == Err(Outdated)
    ensures !b.needsUpdate ==> (r.Ok? <==> 0 <= borderId < |b.data.borders|)
    ensures !b.needsUpdate && r.Err? ==> r.error == ColumnOutOfRange
    ensures r.Ok? ==> BorderVertices(b).Ok? && r.value == BorderVertices(b).value[borderId]
  {
    if b.needsUpdate then Err(Outdated)
    else if 0 <= borderId < |b.data.borders| then Ok(b.data.borders[borderId])
    else Err(ColumnOutOfRange)
  }

  /** `addFaces(delta)`: nothing at all for 0, otherwise resize and mark
      stale. */
  function AddFaces(b: Board, delta: int, random: Source, unit: Normalizer): (r: Board)
    ensures delta == 0 ==> r == b
    ensures delta != 0 ==> r.needsUpdate && r.data == AddNodes(b.data, delta, random, unit)
  {
    if delta != 0 then Board(AddNodes(b.data, delta, random, unit), true) else b
  }

  /** `removeFace(id)`: the as-written `removeNode`, then the flag. When
      `removeNode`'s resize asks for a negative size, Eigen rejects it and
      the flag is never set. */
  function RemoveFace(b: Board, faceId: int): (r: Result<Board>)
    requires |b.data.nodes| > 0 && faceId + |b.data.nodes| >= 0 && Covered(b.data)
    ensures r.Err? <==> |b.data.nodes| == 1
    ensures r.Ok? ==> r.value.needsUpdate && r.value.data == RemoveNodeAsWritten(b.data, faceId).value
    ensures r.Ok? ==> |r.value.data.nodes| == |b.data.nodes| - 1 && |r.value.data.nextStep| == |r.value.data.nodes| - 1
  {
    var d :- RemoveNodeAsWritten(b.data, faceId);
    Ok(Board(d, true))
  }

  /** `removeFace(id)` on the corrected `removeNode`: both matrices lose
      the same column and stay aligned. */
  function RemoveFaceCorrected(b: Board, faceId: int): (r: Board)
    requires Aligned(b.data) && |b.data.nodes| > 0 && faceId + |b.data.nodes| >= 0
    ensures r.needsUpdate && Aligned(r.data)
    ensures var k := Wrap(faceId, |b.data.nodes|);
      && r.data.nodes == b.data.nodes[..k] + b.data.nodes[k + 1..]
      && r.data.nextStep == b.data.nextStep[..k] + b.data.nextStep[k + 1..]
  {
    Board(RemoveNode(b.data, faceId), true)
  }

  /** `updateDispersion`: the data's own step (not part of this model) is
      a parameter; the board marks itself stale. */
  function UpdateDispersion(b: Board, step: Data -> Data): (r: Board)
    ensures r.needsUpdate && r.data == step(b.data)
  {
    Board(step(b.data), true)
  }

  /** `updateGeometryIfNeeded`, given the hull QuickHull would build and
      the contents a freshly allocated `edges` matrix happens to hold. */
  function UpdateGeometryIfNeeded(b: Board, mesh: Mesh, center: Circumcenter, indeterminate: nat -> Border): (r: Result<Board>)
    requires b.needsUpdate ==> HullOfNodes(mesh, b.data.nodes)
    ensures !b.needsUpdate ==> r == Ok(b)
    ensures b.needsUpdate ==> (r.Ok? <==> UpdateGeometrie(b.data, mesh, center, indeterminate).Ok?)
    ensures b.needsUpdate && r.Ok? ==> r.value.data == UpdateGeometrie(b.data, mesh, center, indeterminate).value
    ensures r.Ok? ==> !r.value.needsUpdate
    ensures r.Ok? ==> |r.value.data.nodes| == |b.data.nodes| && r.value.data.nextStep == b.data.nextStep
  {
    if b.needsUpdate then
      var d :- UpdateGeometrie(b.data, mesh, center, indeterminate);
      Ok(Board(d, false))
    else Ok(b)
  }

  /** The rebuild runs at most once per invalidation: a second call, with
      whatever hull, changes nothing. */
  lemma UpdateOnce(b: Board, mesh: Mesh, mesh': Mesh, center: Circumcenter, center': Circumcenter,
                   indeterminate: nat -> Border, indeterminate': nat -> Border)
    requires b.needsUpdate ==> HullOfNodes(mesh, b.data.nodes)
    requires UpdateGeometryIfNeeded(b, mesh, center, indeterminate).Ok?
    ensures var r := UpdateGeometryIfNeeded(b, mesh, center, indeterminate).value;
      UpdateGeometryIfNeeded(r, mesh', center', indeterminate') == Ok(r)
  {
  }

  /** A rebuild keeps the board's nodes: QuickHull only reorders them. */
  lemma UpdateReordersNodes(b: Board, mesh: Mesh, center: Circumcenter, indeterminate: nat -> Border)
    requires b.needsUpdate ==> HullOfNodes(mesh, b.data.nodes)
    ensures UpdateGeometryIfNeeded(b, mesh, center, indeterminate).Ok? ==>
      multiset(UpdateGeometryIfNeeded(b, mesh, center, indeterminate).value.data.nodes) == multiset(b.data.nodes)
  {
  }

  /** A fresh board throws from every guarded getter and answers the
      unguarded ones. */
  lemma NewBoardStale(faceCount: nat, random: Source, unit: Normalizer, threadCount: nat)
    ensures var b := NewBoard(faceCount, random, unit, threadCount);
      && InternalData(b).Err? && VertexCount(b).Err? && VertexPositions(b).Err?
      && BorderCount(b).Err? && BorderVertices(b).Err?
      && FaceCount(b) == (if faceCount > 3 then faceCount else 0)
      && |FaceCenters(b)| == faceCount
      && (forall i :: 0 <= i < faceCount ==> FaceCenter(b, i).Ok?)
      && VertexPosition(b, 0) == Err(Outdated) && BorderVerticesAt(b, 0) == Err(Outdated)
  {
  }

  /** After a successful update every guarded getter answers. The counts
      agree with the node-count rule and the hull; with at least one
      worker thread the lists and borders are the hull's, with none they
      are empty. */
  lemma UpdatedGettersAnswer(b: Board, mesh: Mesh, center: Circumcenter, indeterminate: nat -> Border)
    requires b.needsUpdate && HullOfNodes(mesh, b.data.nodes)
    ensures UpdateGeometryIfNeeded(b, mesh, center, indeterminate).Ok? ==>
      var r := UpdateGeometryIfNeeded(b, mesh, center, indeterminate).value;
      && InternalData(r).Ok? && VertexPositions(r).Ok? && BorderVertices(r).Ok?
      && FaceCount(r) == |r.data.neighbors| == |r.data.faces|
      && VertexCount(r) == Ok(ElementCount(FaceCount(r), |mesh.faces|))
      && BorderCount(r) == Ok(ElementCount(FaceCount(r), |mesh.halfEdges|))
      && (forall i :: 0 <= i < FaceCount(r) ==> FaceNeighbors(r, i).Ok? && FaceVertices(r, i).Ok?)
      && (b.data.threadCount > 0 ==> forall i :: 0 <= i < FaceCount(r) ==>
            && FaceNeighbors(r, i) == Ok(Around(mesh, i, |mesh.halfEdges|, NeighborColumn))
            && FaceVertices(r, i) == Ok(Around(mesh, i, |mesh.halfEdges|, FaceColumn)))
      && (b.data.threadCount == 0 ==> forall i :: 0 <= i < FaceCount(r) ==>
            FaceNeighbors(r, i) == Ok([]) && FaceVertices(r, i) == Ok([]))
  {
    var u := UpdateGeometryIfNeeded(b, mesh, center, indeterminate);
    if u.Ok? {
      var r := u.value;
      var d := UpdateGeometrie(b.data, mesh, center, indeterminate).value;
      assert r.data == d && !r.needsUpdate;
      assert FaceCount(r) == NodeCount(|b.data.nodes|);
      RebuiltGettersAnswer(r, mesh, b.data.threadCount > 0);
    }
  }

  /** The getters of a current board whose data has the shape a rebuild
      from `mesh` gives: threaded, the hull's lists; otherwise empty ones. */
  lemma RebuiltGettersAnswer(r: Board, mesh: Mesh, threaded: bool)
    requires !r.needsUpdate
    requires FaceCount(r) == |r.data.neighbors| == |r.data.faces|
    requires FaceCount(r) > 0 ==> Indexed(mesh)
    requires |r.data.vertices| == ElementCount(FaceCount(r), |mesh.faces|)
    requires |r.data.borders| == ElementCount(FaceCount(r), |mesh.halfEdges|)
    requires threaded ==> forall v :: 0 <= v < FaceCount(r) ==>
      && r.data.neighbors[v] == Around(mesh, v, |mesh.halfEdges|, NeighborColumn)
      && r.data.faces[v] == Around(mesh, v, |mesh.halfEdges|, FaceColumn)
    requires !threaded ==> forall v :: 0 <= v < FaceCount(r) ==> r.data.neighbors[v] == [] && r.data.faces[v] == []
    ensures InternalData(r).Ok? && VertexPositions(r).Ok? && BorderVertices(r).Ok?
    ensures VertexCount(r) == Ok(ElementCount(FaceCount(r), |mesh.faces|))
    ensures BorderCount(r) == Ok(ElementCount(FaceCount(r), |mesh.halfEdges|))
    ensures forall i :: 0 <= i < FaceCount(r) ==> FaceNeighbors(r, i).Ok? && FaceVertices(r, i).Ok?
    ensures threaded ==> forall i :: 0 <= i < FaceCount(r) ==>
      && FaceNeighbors(r, i) == Ok(Around(mesh, i, |mesh.halfEdges|, NeighborColumn))
      && FaceVertices(r, i) == Ok(Around(mesh, i, |mesh.halfEdges|, FaceColumn))
    ensures !threaded ==> forall i :: 0 <= i < FaceCount(r) ==>
      FaceNeighbors(r, i) == Ok([]) && FaceVertices(r, i) == Ok([])
  {
    CurrentGettersAnswer(r);
  }

  /** On a current board every guarded getter returns its field. */
  lemma CurrentGettersAnswer(b: Board)
    requires !b.needsUpdate
    ensures InternalData(b) == Ok(b.data) && VertexPositions(b) == Ok(b.data.vertices)
    ensures BorderVertices(b) == Ok(b.data.borders)
    ensures VertexCount(b) == Ok(|b.data.vertices|) && BorderCount(b) == Ok(|b.data.borders|)
    ensures forall i :: 0 <= i < |b.data.neighbors| ==> FaceNeighbors(b, i) == Ok(b.data.neighbors[i])
    ensures forall i :: 0 <= i < |b.data.faces| ==> FaceVertices(b, i) == Ok(b.data.faces[i])
  {
  }

  /** Every mutator leaves the board needing an update, whatever state it
      was in; only `addFaces(0)` leaves it as it was. */
  lemma MutatorsInvalidate(b: Board, delta: int, faceId: int, step: Data -> Data, random: Source, unit: Normalizer)
    requires |b.data.nodes| > 0 && faceId + |b.data.nodes| >= 0 && Covered(b.data)
    ensures AddFaces(b, delta, random, unit).needsUpdate <==> delta != 0 || b.needsUpdate
    ensures RemoveFace(b, faceId).Ok? ==> RemoveFace(b, faceId).value.needsUpdate
    ensures RemoveFace(b, faceId).Ok? ==> VertexCount(RemoveFace(b, faceId).value).Err?
    ensures UpdateDispersion(b, step).needsUpdate && VertexCount(UpdateDispersion(b, step)).Err?
  {
  }

  /** The board's own operations keep `nextStep` at least `nodes - 1`
      columns wide, which is what `removeFace` needs: a new board is
      aligned, `addFaces` realigns, `removeFace` leaves exactly one column
      short and a rebuild keeps `nextStep`. */
  lemma MutatorsKeepCovered(b: Board, delta: int, faceId: int, mesh: Mesh, center: Circumcenter,
                            indeterminate: nat -> Border, random: Source, unit: Normalizer)
    requires Covered(b.data)
    ensures Covered(AddFaces(b, delta, random, unit).data)
    ensures |b.data.nodes| > 0 && faceId + |b.data.nodes| >= 0 && RemoveFace(b, faceId).Ok? ==>
      Covered(RemoveFace(b, faceId).value.data)
    ensures (b.needsUpdate ==> HullOfNodes(mesh, b.data.nodes)) && UpdateGeometryIfNeeded(b, mesh, center, indeterminate).Ok? ==>
      Covered(UpdateGeometryIfNeeded(b, mesh, center, indeterminate).value.data)
  {
  }
}
