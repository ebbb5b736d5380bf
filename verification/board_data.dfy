/** `DynamicBoardData` (Cpp/GeodeticFloes/DynamicBoardData.cpp): the
    node and step matrices, their resizing and deletion, the partition
    `updateParallel` hands to the thread pool, and the combinatorial part
    of `updateGeometrie`. Matrices are sequences of columns. */
module BoardData {
  import opened Results
  import opened Vectors
  import opened Indices
  import opened Partition
  import opened HalfEdgeMesh

  datatype Data = Data(
    nodes: seq<Vec3>,
    nextStep: seq<Vec3>,
    neighbors: seq<seq<nat>>,
    vertices: seq<Vec3>,
    faces: seq<seq<nat>>,
    borders: seq<Border>,
    threadCount: nat)

  /** `nodes` and `nextStep` have one column per node. */
  predicate Aligned(d: Data) {
    |d.nodes| == |d.nextStep|
  }

  /** `nextStep` has at least one column fewer than `nodes`: what the
      constructor, `addNodes` and the as-written `removeNode` leave. */
  predicate Covered(d: Data) {
    |d.nodes| <= |d.nextStep| + 1
  }

  function Zeros(n: nat): (r: seq<Vec3>)
    ensures |r| == n && forall i :: 0 <= i < n ==> r[i] == Zero
  {
    seq(n, _ => Zero)
  }

  /** The constructor: normalised random nodes, zero steps, no geometry,
      and `hardware_concurrency()` worker threads. */
  function New(nodeCount: nat, random: Source, unit: Normalizer, threadCount: nat): (d: Data)
    ensures Aligned(d) && |d.nodes| == nodeCount
    ensures forall i :: 0 <= i < nodeCount ==> d.nodes[i] == unit(random(i)) && d.nextStep[i] == Zero
    ensures d.neighbors == d.faces == [] && d.vertices == [] && d.borders == []
    ensures d.threadCount == threadCount
  {
    Data(seq(nodeCount, i requires 0 <= i < nodeCount => unit(random(i))), Zeros(nodeCount), [], [], [], [], threadCount)
  }

  /** `addNodes(delta)`: clamp, resize `nodes`, resize `nextStep` like
      `nodes` (Eigen fills any new column from the matching `nodes`
      column), then on growth give the new columns fresh normalised
      nodes and zero steps. */
  function AddNodes(d: Data, delta: int, random: Source, unit: Normalizer): (r: Data)
    ensures |r.nodes| == |r.nextStep| == |d.nodes| + ClampDelta(|d.nodes|, delta)
    ensures delta + |d.nodes| >= 0 ==> |r.nodes| == |d.nodes| + delta
    ensures delta + |d.nodes| < 0 ==> r.nodes == []
    ensures forall i :: 0 <= i < |r.nodes| && i < |d.nodes| ==> r.nodes[i] == d.nodes[i]
    ensures forall i :: 0 <= i < |r.nodes| && i < |d.nodes| && i < |d.nextStep| ==> r.nextStep[i] == d.nextStep[i]
    ensures forall i :: |d.nodes| <= i < |r.nodes| ==> r.nodes[i] == unit(random(i - |d.nodes|)) && r.nextStep[i] == Zero
    ensures r.neighbors == d.neighbors && r.vertices == d.vertices && r.faces == d.faces && r.borders == d.borders
  {
    var count := |d.nodes|;
    var delta := ClampDelta(count, delta);
    var total: nat := count + delta;
    var nodes := Resized(d.nodes, total, i => if i < count then Zero else unit(random(i - count)));
    var like := Resized(d.nextStep, total, (i: nat) => if i < |nodes| then nodes[i] else Zero);
    var nextStep := if delta > 0 then seq(total, i requires 0 <= i < total => if i < count then like[i] else Zero) else like;
    d.(nodes := nodes, nextStep := nextStep)
  }

  /** `s.middleCols(k, rc) = s.rightCols(rc)` with rc = n - k - 1: the
      last rc columns of s are copied to start at column k, the rest is
      left as it was. Nothing moves when k is the last of n columns. */
  function ShiftLeft(s: seq<Vec3>, k: nat, n: nat): (r: seq<Vec3>)
    requires k < n <= |s| + 1
    ensures |r| == |s|
    ensures forall i :: 0 <= i < k ==> r[i] == s[i]
    ensures forall i :: k <= i < n - 1 ==> r[i] == s[|s| - n + 1 + i]
    ensures forall i :: n - 1 <= i < |s| ==> r[i] == s[i]
  {
    var rc := n - k - 1;
    s[..k] + s[|s| - rc..] + s[n - 1..]
  }

  /** `removeNode(id)` as written: the column index wraps, later columns
      shift left in both matrices, `nodes` shrinks by one, and then
      `nextStep` is resized to the already-shrunk `nodes.cols() - 1`.
      With a single node that second resize asks for -1 columns, and
      Eigen rejects the negative size. */
  function RemoveNodeAsWritten(d: Data, id: int): (r: Result<Data>)
    requires |d.nodes| > 0 && id + |d.nodes| >= 0 && Covered(d)
    ensures r.Err? <==> |d.nodes| == 1
    ensures r.Err? ==> r.error == NegativeSize
    ensures r.Ok? ==> var k := Wrap(id, |d.nodes|);
      && r.value.nodes == d.nodes[..k] + d.nodes[k + 1..]
      && |r.value.nextStep| + 1 == |r.value.nodes|
      && (Aligned(d) ==> r.value.nextStep == (d.nextStep[..k] + d.nextStep[k + 1..])[..|d.nodes| - 2])
      && (|d.nextStep| + 1 == |d.nodes| ==> r.value.nextStep == d.nextStep[..|d.nodes| - 2])
    ensures r.Ok? ==> Covered(r.value) && !Aligned(r.value)
    ensures r.Ok? ==> (r.value.neighbors == d.neighbors && r.value.vertices == d.vertices
      && r.value.faces == d.faces && r.value.borders == d.borders && r.value.threadCount == d.threadCount)
  {
    var n := |d.nodes|;
    var k := Wrap(id, n);
    var nodes := ShiftLeft(d.nodes, k, n)[..n - 1];
    if |nodes| < 1 then Err(NegativeSize)
    else
      assert nodes == d.nodes[..k] + d.nodes[k + 1..];
      var nextStep := ShiftLeft(d.nextStep, k, n)[..|nodes| - 1];
      assert Aligned(d) ==> nextStep == (d.nextStep[..k] + d.nextStep[k + 1..])[..n - 2];
      assert |d.nextStep| + 1 == n ==> nextStep == d.nextStep[..n - 2];
      Ok(d.(nodes := nodes, nextStep := nextStep))
  }

  /** The corrected `removeNode`: the same column deleted from both
      matrices, which stay aligned. */
  function RemoveNode(d: Data, id: int): (r: Data)
    requires Aligned(d) && |d.nodes| > 0 && id + |d.nodes| >= 0
    ensures Aligned(r) && |r.nodes| == |d.nodes| - 1
    ensures var k := Wrap(id, |d.nodes|);
      && r.nodes == d.nodes[..k] + d.nodes[k + 1..]
      && r.nextStep == d.nextStep[..k] + d.nextStep[k + 1..]
    ensures r.neighbors == d.neighbors && r.vertices == d.vertices && r.faces == d.faces && r.borders == d.borders
    ensures r.threadCount == d.threadCount
  {
    var k := Wrap(id, |d.nodes|);
    DeleteOne(d.nodes, k);
    DeleteOne(d.nextStep, k);
    d.(nodes := Delete(d.nodes, {k}), nextStep := Delete(d.nextStep, {k}))
  }

  /** The default argument -1 removes the last node. */
  lemma RemoveLast(d: Data)
    requires Aligned(d) && |d.nodes| > 0
    ensures RemoveNode(d, -1).nodes == d.nodes[..|d.nodes| - 1]
    ensures RemoveNode(d, -1).nextStep == d.nextStep[..|d.nodes| - 1]
  {
    var n := |d.nodes|;
    assert Wrap(-1, n) == n - 1;
    assert d.nodes[n..] == [] && d.nextStep[n..] == [];
  }

  /** As written, `removeNode` removes the right node column but leaves
      `nextStep` one column short of the corrected result. */
  lemma RemoveNodeMisaligns(d: Data, id: int)
    requires Aligned(d) && |d.nodes| >= 2 && id + |d.nodes| >= 0
    ensures RemoveNodeAsWritten(d, id).Ok?
    ensures RemoveNodeAsWritten(d, id).value.nodes == RemoveNode(d, id).nodes
    ensures RemoveNodeAsWritten(d, id).value.nextStep == RemoveNode(d, id).nextStep[..|d.nodes| - 2]
  {
  }

  /** The concrete case: two nodes, `removeNode()` leaves one node and no
      step column; a later `addNodes(1)` then fills the missing step
      column with a copy of the surviving node's position. */
  lemma RemoveNodeCounterexample(p: Vec3, q: Vec3, random: Source, unit: Normalizer, threadCount: nat)
    ensures var d := Data([p, q], [Zero, Zero], [], [], [], [], threadCount);
      var r := RemoveNodeAsWritten(d, -1);
      && r.Ok? && r.value.nodes == [p] && r.value.nextStep == []
      && AddNodes(r.value, 1, random, unit).nextStep[0] == p
  {
    var d := Data([p, q], [Zero, Zero], [], [], [], [], threadCount);
    RemoveLast(d);
  }

  /** `updateParallel(n, f)` with `threadCount` workers: the ranges it
      posts, and the `running` counter it then waits on. */
  method UpdateParallel(n: nat, threadCount: nat) returns (posted: seq<Range>, running: nat)
    ensures running == |posted| <= threadCount
    ensures threadCount == 0 ==> posted == []
    ensures threadCount > 0 ==> posted == Chunks(n, threadCount, threadCount)
    ensures threadCount > 0 ==> Tiling(posted, 0, n)
    ensures threadCount > 0 ==> forall x: nat :: Hits(posted, x) == (if x < n then 1 else 0)
  {
    posted, running := [], 0;
    var i := 0;
    while i < threadCount
      invariant 0 <= i <= threadCount
      invariant running == |posted| <= i
      invariant threadCount == 0 ==> posted == []
      invariant threadCount > 0 ==> posted == Chunks(n, threadCount, i)
    {
      var min := n * i / threadCount;
      i := i + 1;
      var max := n * i / threadCount;
      i := i - 1;
      assert min == Bound(n, threadCount, i) && max == Bound(n, threadCount, i + 1);
      assert Chunks(n, threadCount, i + 1) == posted + (if min != max then [Range(min, max)] else []);
      if min != max {
        running := running + 1;
        posted := posted + [Range(min, max)];
      }
      i := i + 1;
    }
    if threadCount > 0 {
      ChunksTile(n, threadCount, threadCount);
      BoundEnds(n, threadCount);
      forall x: nat ensures Hits(posted, x) == (if x < n then 1 else 0) {
        TilingHitsOnce(posted, 0, n, x);
      }
    }
  }

  /** `updateGeometrie` given QuickHull's mesh of the nodes: copy the
      hull's vertex order back into `nodes` (when the node-count rule
      allows), then run the vertex pass, the list pass and the sorting
      pass, each through `updateParallel`. With at least one thread the
      posted ranges tile each pass's index range (`UpdateParallel`), so
      every pass is the plain scan `Derive`. With none no task is posted:
      the vertices stay zero, the lists stay empty, the freshly allocated
      `edges` keep indeterminate contents, and no assertion is checked. */
  function UpdateGeometrie(d: Data, mesh: Mesh, center: Circumcenter, indeterminate: nat -> Border): (r: Result<Data>)
    requires HullOfNodes(mesh, d.nodes)
    ensures d.threadCount == 0 ==> r.Ok?
    ensures d.threadCount > 0 ==> (r.Ok? <==> Derive(mesh, |d.nodes|, center).Ok?)
    ensures r.Ok? ==>
      var nodeCount := NodeCount(|d.nodes|);
      && r.value.nodes == (if nodeCount > 0 then mesh.vertices else d.nodes)
      && |r.value.nodes| == |d.nodes|
      && r.value.nextStep == d.nextStep && r.value.threadCount == d.threadCount
      && |r.value.neighbors| == |r.value.faces| == nodeCount
      && |r.value.vertices| == ElementCount(nodeCount, |mesh.faces|)
      && |r.value.borders| == ElementCount(nodeCount, |mesh.halfEdges|)
    ensures r.Ok? && d.threadCount == 0 ==>
      && (forall i :: 0 <= i < |r.value.vertices| ==> r.value.vertices[i] == Zero)
      && (forall v :: 0 <= v < |r.value.neighbors| ==> r.value.neighbors[v] == [] && r.value.faces[v] == [])
      && (forall e :: 0 <= e < |r.value.borders| ==> r.value.borders[e] == indeterminate(e))
    ensures r.Ok? && d.threadCount > 0 ==>
      && (forall i :: 0 <= i < |r.value.vertices| ==>
            Corners(mesh, i).Ok? && r.value.vertices[i] == Center(mesh, Corners(mesh, i).value, center))
      && (forall v :: 0 <= v < |r.value.neighbors| ==>
            && r.value.neighbors[v] == Around(mesh, v, |mesh.halfEdges|, NeighborColumn)
            && r.value.faces[v] == Around(mesh, v, |mesh.halfEdges|, FaceColumn)
            && |r.value.faces[v]| > 2)
      && r.value.borders == Borders(mesh, |r.value.borders|)
  {
    var nodeCount := NodeCount(|d.nodes|);
    var vertCount := ElementCount(nodeCount, |mesh.faces|);
    var edgeCount := ElementCount(nodeCount, |mesh.halfEdges|);
    var nodes := if nodeCount > 0 then mesh.vertices else d.nodes;
    if d.threadCount == 0 then
      Ok(d.(nodes := nodes, vertices := Zeros(vertCount), neighbors := Empties(nodeCount),
            faces := Empties(nodeCount), borders := seq(edgeCount, e requires 0 <= e < edgeCount => indeterminate(e))))
    else
      var derived :- Derive(mesh, |d.nodes|, center);
      Ok(d.(nodes := nodes, vertices := derived.vertices, neighbors := derived.neighbors,
            faces := derived.faces, borders := derived.borders))
  }

  /** The nodes after the rebuild are the same points: the `memcpy`
      copies back the hull's vertices, which QuickHull only reorders. */
  lemma UpdateGeometrieReorders(d: Data, mesh: Mesh, center: Circumcenter, indeterminate: nat -> Border)
    requires HullOfNodes(mesh, d.nodes)
    ensures UpdateGeometrie(d, mesh, center, indeterminate).Ok? ==>
      multiset(UpdateGeometrie(d, mesh, center, indeterminate).value.nodes) == multiset(d.nodes)
  {
  }

  /** After a successful threaded rebuild, node v's neighbors are exactly
      the far ends of the half-edges ending at v, and the relation is
      symmetric when `opp` is an involution. */
  lemma UpdateGeometrieNeighbors(d: Data, mesh: Mesh, center: Circumcenter, indeterminate: nat -> Border, v: nat, x: nat)
    requires HullOfNodes(mesh, d.nodes) && NodeCount(|d.nodes|) > 0 && v < |d.nodes|
    ensures d.threadCount > 0 && UpdateGeometrie(d, mesh, center, indeterminate).Ok? ==>
      var nb := UpdateGeometrie(d, mesh, center, indeterminate).value.neighbors;
      && (x in nb[v] <==>
          exists e :: 0 <= e < |mesh.halfEdges| && mesh.halfEdges[e].endVertex == v
                                                && mesh.halfEdges[mesh.halfEdges[e].opp].endVertex == x)
      && (OppInvolution(mesh) && x in nb[v] ==> x < |d.nodes| && v in nb[x])
  {
    if d.threadCount > 0 && UpdateGeometrie(d, mesh, center, indeterminate).Ok? {
      var nb := UpdateGeometrie(d, mesh, center, indeterminate).value.neighbors;
      assert nb[v] == Around(mesh, v, |mesh.halfEdges|, NeighborColumn);
      AroundMembers(mesh, v, |mesh.halfEdges|, NeighborColumn, x);
      forall e | 0 <= e < |mesh.halfEdges|
        ensures Entry(mesh, e, NeighborColumn) == mesh.halfEdges[mesh.halfEdges[e].opp].endVertex
      {
      }
      if OppInvolution(mesh) && x in nb[v] {
        NeighborsSymmetric(mesh, v, x);
        AroundMembers(mesh, v, |mesh.halfEdges|, NeighborColumn, x);
        var e :| 0 <= e < |mesh.halfEdges| && mesh.halfEdges[e].endVertex == v && Entry(mesh, e, NeighborColumn) == x;
        assert EdgeIndexed(mesh, mesh.halfEdges[mesh.halfEdges[e].opp]);
        assert nb[x] == Around(mesh, x, |mesh.halfEdges|, NeighborColumn);
      }
    }
  }
}
