/** The combinatorial pass shared by `DynamicBoardData::updateGeometrie`
    and the `Board` constructor of the prototype: from QuickHull's
    half-edge mesh to the Voronoi vertices, per-node neighbor and face
    lists, and the per-half-edge face pairs. The mesh is an input; the
    index discipline QuickHull guarantees is the precondition `Indexed`. */
module HalfEdgeMesh {
  import opened Results
  import opened Vectors

  datatype HalfEdge = HalfEdge(endVertex: nat, opp: nat, face: nat, next: nat)

  /** `faces[f]` is the index of face f's first half-edge. */
  datatype Mesh = Mesh(vertices: seq<Vec3>, halfEdges: seq<HalfEdge>, faces: seq<nat>)

  /** One column of the `edges` matrix: the two faces beside a half-edge. */
  datatype Border = Border(vertexA: nat, vertexB: nat)

  /** Which per-node list a half-edge contributes to. */
  datatype Column = NeighborColumn | FaceColumn

  /** Eigen's column-wise `normalize()`, which turns a face's normal into
      its Voronoi vertex (a square root, left uninterpreted). */
  type Circumcenter = Vec3 -> Vec3

  predicate EdgeIndexed(mesh: Mesh, h: HalfEdge) {
    && h.endVertex < |mesh.vertices|
    && h.opp < |mesh.halfEdges|
    && h.face < |mesh.faces|
    && h.next < |mesh.halfEdges|
  }

  /** Every index the mesh stores points into the array it names. */
  predicate Indexed(mesh: Mesh) {
    && (forall e :: 0 <= e < |mesh.halfEdges| ==> EdgeIndexed(mesh, mesh.halfEdges[e]))
    && (forall f :: 0 <= f < |mesh.faces| ==> mesh.faces[f] < |mesh.halfEdges|)
  }

  predicate OppInvolution(mesh: Mesh)
    requires Indexed(mesh)
  {
    forall e :: 0 <= e < |mesh.halfEdges| ==> mesh.halfEdges[mesh.halfEdges[e].opp].opp == e
  }

  /** `nodeCount`: the column count when it exceeds 3, else 0. */
  function NodeCount(cols: nat): nat {
    if cols > 3 then cols else 0
  }

  /** `vertCount` and `edgeCount`: the hull's size, but 0 without nodes. */
  function ElementCount(nodeCount: nat, size: nat): nat {
    if nodeCount != 0 then size else 0
  }

  lemma CountRule(cols: nat, faces: nat, halfEdges: nat)
    ensures NodeCount(cols) == 0 <==> cols <= 3
    ensures NodeCount(cols) != 0 ==> NodeCount(cols) == cols
    ensures NodeCount(cols) == 0 ==> ElementCount(NodeCount(cols), faces) == 0 && ElementCount(NodeCount(cols), halfEdges) == 0
    ensures NodeCount(cols) != 0 ==> ElementCount(NodeCount(cols), faces) == faces && ElementCount(NodeCount(cols), halfEdges) == halfEdges
  {
  }

  /** The half-edge reached from e by following `next` j times. */
  function Follow(mesh: Mesh, e: nat, j: nat): (r: nat)
    requires Indexed(mesh) && e < |mesh.halfEdges|
    ensures r < |mesh.halfEdges|
  {
    if j == 0 then e else mesh.halfEdges[Follow(mesh, e, j - 1)].next
  }

  /** The face walk: k rounds of "record the end vertex, step to next";
      returns the recorded vertices and the half-edge it stops at. */
  function Walk(mesh: Mesh, e: nat, k: nat): (r: (seq<nat>, nat))
    requires Indexed(mesh) && e < |mesh.halfEdges|
    ensures |r.0| == k && r.1 == Follow(mesh, e, k)
    ensures forall j :: 0 <= j < k ==> r.0[j] == mesh.halfEdges[Follow(mesh, e, j)].endVertex
    ensures forall j :: 0 <= j < k ==> r.0[j] < |mesh.vertices|
    decreases k
  {
    if k == 0 then ([], e)
    else
      var (vs, last) := Walk(mesh, e, k - 1);
      (vs + [mesh.halfEdges[last].endVertex], mesh.halfEdges[last].next)
  }

  /** Face f is a triangle: three `next` steps return to its start. */
  predicate Closed(mesh: Mesh, f: nat)
    requires Indexed(mesh) && f < |mesh.faces|
  {
    Follow(mesh, mesh.faces[f], 3) == mesh.faces[f]
  }

  /** The three corner nodes of face f, or the failed assertion that the
      walk closes. */
  function Corners(mesh: Mesh, f: nat): (r: Result<seq<nat>>)
    requires Indexed(mesh) && f < |mesh.faces|
    ensures r.Ok? <==> Closed(mesh, f)
    ensures r.Err? ==> r.error == FaceNotTriangle(f)
    ensures r.Ok? ==> |r.value| == 3
    ensures r.Ok? ==> forall j :: 0 <= j < 3 ==>
      r.value[j] < |mesh.vertices| && r.value[j] == mesh.halfEdges[Follow(mesh, mesh.faces[f], j)].endVertex
  {
    var (v, e) := Walk(mesh, mesh.faces[f], 3);
    if e == mesh.faces[f] then Ok(v) else Err(FaceNotTriangle(f))
  }

  /** One Voronoi vertex: the normalised normal of the face's corners in
      walk order. Starting the walk at any of the three corners gives the
      same vertex. */
  function Center(mesh: Mesh, corners: seq<nat>, center: Circumcenter): (r: Vec3)
    requires |corners| == 3 && forall j :: 0 <= j < 3 ==> corners[j] < |mesh.vertices|
    ensures var (p, q, s) := (mesh.vertices[corners[0]], mesh.vertices[corners[1]], mesh.vertices[corners[2]]);
      r == center(FaceNormal(q, s, p)) && r == center(FaceNormal(s, p, q))
  {
    center(FaceNormal(mesh.vertices[corners[0]], mesh.vertices[corners[1]], mesh.vertices[corners[2]]))
  }

  /** The `vertices` matrix: one Voronoi vertex per hull face i < count. */
  function VoronoiVertices(mesh: Mesh, count: nat, center: Circumcenter): (r: Result<seq<Vec3>>)
    requires count <= |mesh.faces| && (count > 0 ==> Indexed(mesh))
    ensures r.Ok? <==> forall i :: 0 <= i < count ==> Closed(mesh, i)
    ensures r.Err? ==> r.error.FaceNotTriangle?
    ensures r.Ok? ==> |r.value| == count
    ensures r.Ok? ==> forall i :: 0 <= i < count ==>
      Corners(mesh, i).Ok? && r.value[i] == Center(mesh, Corners(mesh, i).value, center)
  {
    if count == 0 then Ok([])
    else
      var init :- VoronoiVertices(mesh, count - 1, center);
      var c :- Corners(mesh, count - 1);
      Ok(init + [Center(mesh, c, center)])
  }

  /** A mesh whose first k half-edges may be scanned. */
  predicate Scannable(mesh: Mesh, k: nat) {
    k <= |mesh.halfEdges| && (k > 0 ==> Indexed(mesh))
  }

  /** What half-edge e appends to its end node's list: the node at the
      other end (`neighbors`) or its own face (`faces`). */
  function Entry(mesh: Mesh, e: nat, col: Column): nat
    requires Indexed(mesh) && e < |mesh.halfEdges|
  {
    match col
    case NeighborColumn => mesh.halfEdges[mesh.halfEdges[e].opp].endVertex
    case FaceColumn => mesh.halfEdges[e].face
  }

  /** Reference definition: the entries of the half-edges e < k ending at
      node v, in half-edge order. */
  function Around(mesh: Mesh, v: nat, k: nat, col: Column): seq<nat>
    requires Scannable(mesh, k)
  {
    if k == 0 then []
    else Around(mesh, v, k - 1, col) + (if mesh.halfEdges[k - 1].endVertex == v then [Entry(mesh, k - 1, col)] else [])
  }

  /** Total number of entries over all per-node lists. */
  function Total(lists: seq<seq<nat>>): nat {
    if lists == [] then 0 else |lists[0]| + Total(lists[1..])
  }

  lemma {:induction false} TotalAppend(lists: seq<seq<nat>>, i: nat, x: nat)
    requires i < |lists|
    ensures Total(lists[i := lists[i] + [x]]) == Total(lists) + 1
    decreases |lists|
  {
    if i > 0 {
      TotalAppend(lists[1..], i - 1, x);
      assert lists[i := lists[i] + [x]][1..] == lists[1..][i - 1 := lists[i] + [x]];
    }
  }

  /** n empty lists. */
  function Empties(n: nat): (r: seq<seq<nat>>)
    ensures |r| == n && Total(r) == 0
    ensures forall v :: 0 <= v < n ==> r[v] == []
  {
    if n == 0 then [] else [[]] + Empties(n - 1)
  }

  /** The scatter loop: half-edges 0..k-1 in turn push their entry onto
      the list of the node they end at. */
  function Scatter(mesh: Mesh, n: nat, k: nat, col: Column): (r: seq<seq<nat>>)
    requires Scannable(mesh, k) && (k > 0 ==> |mesh.vertices| == n)
    ensures |r| == n
    ensures forall v :: 0 <= v < n ==> r[v] == Around(mesh, v, k, col)
    ensures Total(r) == k
  {
    if k == 0 then Empties(n)
    else
      var lists := Scatter(mesh, n, k - 1, col);
      var from := mesh.halfEdges[k - 1].endVertex;
      TotalAppend(lists, from, Entry(mesh, k - 1, col));
      lists[from := lists[from] + [Entry(mesh, k - 1, col)]]
  }

  lemma {:induction false} AroundMembers(mesh: Mesh, v: nat, k: nat, col: Column, x: nat)
    requires Scannable(mesh, k)
    ensures x in Around(mesh, v, k, col) <==>
      exists e :: 0 <= e < k && mesh.halfEdges[e].endVertex == v && Entry(mesh, e, col) == x
  {
    if k > 0 {
      AroundMembers(mesh, v, k - 1, col, x);
    }
  }

  /** With `opp` an involution, the neighbor relation built from all
      half-edges is symmetric. */
  lemma NeighborsSymmetric(mesh: Mesh, v: nat, x: nat)
    requires Indexed(mesh) && OppInvolution(mesh)
    requires x in Around(mesh, v, |mesh.halfEdges|, NeighborColumn)
    ensures v in Around(mesh, x, |mesh.halfEdges|, NeighborColumn)
  {
    var k := |mesh.halfEdges|;
    AroundMembers(mesh, v, k, NeighborColumn, x);
    var e :| 0 <= e < k && mesh.halfEdges[e].endVertex == v && Entry(mesh, e, NeighborColumn) == x;
    var o := mesh.halfEdges[e].opp;
    assert mesh.halfEdges[o].endVertex == x && Entry(mesh, o, NeighborColumn) == v;
    AroundMembers(mesh, x, k, NeighborColumn, v);
  }

  /** The `edges` (header: `borders`) matrix: the faces on either side of
      each half-edge e < k. */
  function Borders(mesh: Mesh, k: nat): (r: seq<Border>)
    requires Scannable(mesh, k)
    ensures |r| == k
    ensures forall e :: 0 <= e < k ==> r[e].vertexA < |mesh.faces| && r[e].vertexB < |mesh.faces|
  {
    seq(k, e requires 0 <= e < k => Border(mesh.halfEdges[e].face, mesh.halfEdges[mesh.halfEdges[e].opp].face))
  }

  /** The two half-edges of a pair see the same two faces, swapped. */
  lemma BordersSwap(mesh: Mesh, e: nat)
    requires Indexed(mesh) && OppInvolution(mesh) && e < |mesh.halfEdges|
    ensures var bs := Borders(mesh, |mesh.halfEdges|); var o := mesh.halfEdges[e].opp;
      bs[o] == Border(bs[e].vertexB, bs[e].vertexA)
  {
  }

  /** The first node i >= from whose face list has at most two entries:
      the failing `faceVertices.size() > 2` assertion. */
  function FirstDegenerate(faces: seq<seq<nat>>, from: nat): (r: Option<nat>)
    decreases |faces| - from
    ensures r.None? <==> forall i :: from <= i < |faces| ==> |faces[i]| > 2
    ensures r.Some? ==> from <= r.value < |faces| && |faces[r.value]| <= 2
  {
    if from >= |faces| then None
    else if |faces[from]| <= 2 then Some(from)
    else FirstDegenerate(faces, from + 1)
  }

  datatype Derived = Derived(
    vertices: seq<Vec3>,
    neighbors: seq<seq<nat>>,
    faces: seq<seq<nat>>,
    borders: seq<Border>)

  /** The hull of `cols` points: QuickHull's index guarantees, with as
      many hull vertices as points (all points lie on the unit sphere, so
      each is a hull vertex). Only needed when the node-count rule lets
      the pass touch the mesh. */
  predicate HullOf(mesh: Mesh, cols: nat) {
    NodeCount(cols) > 0 ==> Indexed(mesh) && |mesh.vertices| == cols
  }

  /** The hull QuickHull builds from the points `nodes`: besides the
      index guarantees, its vertices are those same points, reordered. */
  predicate HullOfNodes(mesh: Mesh, nodes: seq<Vec3>) {
    HullOf(mesh, |nodes|) && (NodeCount(|nodes|) > 0 ==> multiset(mesh.vertices) == multiset(nodes))
  }

  /** The assertion of the vertex pass: the first `count` faces are all
      triangles. */
  predicate AllClosed(mesh: Mesh, count: nat)
    requires count <= |mesh.faces| && (count > 0 ==> Indexed(mesh))
  {
    forall i :: 0 <= i < count ==> Closed(mesh, i)
  }

  /** The assertion that ends the list pass: every node's cell has more
      than two corners. */
  predicate CellsOpen(mesh: Mesh, nodeCount: nat, edgeCount: nat)
    requires Scannable(mesh, edgeCount)
  {
    forall v :: 0 <= v < nodeCount ==> |Around(mesh, v, edgeCount, FaceColumn)| > 2
  }

  /** The whole pass, before the angular sort of each face list. */
  function Derive(mesh: Mesh, cols: nat, center: Circumcenter): (r: Result<Derived>)
    requires HullOf(mesh, cols)
    ensures var nodeCount := NodeCount(cols);
      var vertCount := ElementCount(nodeCount, |mesh.faces|);
      var edgeCount := ElementCount(nodeCount, |mesh.halfEdges|);
      && (r.Ok? <==> AllClosed(mesh, vertCount) && CellsOpen(mesh, nodeCount, edgeCount))
      && (r.Ok? ==>
           && |r.value.vertices| == vertCount
           && (forall i :: 0 <= i < vertCount ==>
                 Corners(mesh, i).Ok? && r.value.vertices[i] == Center(mesh, Corners(mesh, i).value, center))
           && |r.value.neighbors| == |r.value.faces| == nodeCount
           && (forall v :: 0 <= v < nodeCount ==>
                 && r.value.neighbors[v] == Around(mesh, v, edgeCount, NeighborColumn)
                 && r.value.faces[v] == Around(mesh, v, edgeCount, FaceColumn))
           && Total(r.value.neighbors) == edgeCount
           && Total(r.value.faces) == edgeCount
           && r.value.borders == Borders(mesh, edgeCount))
  {
    var nodeCount := NodeCount(cols);
    var vertCount := ElementCount(nodeCount, |mesh.faces|);
    var edgeCount := ElementCount(nodeCount, |mesh.halfEdges|);
    var vertices :- VoronoiVertices(mesh, vertCount, center);
    assert AllClosed(mesh, vertCount);
    var lists :- CellLists(mesh, nodeCount, edgeCount);
    Ok(Derived(vertices, lists.0, lists.1, Borders(mesh, edgeCount)))
  }

  /** The neighbor and face lists, then the assertion that closes the
      pass: every cell has more than two corners. */
  function CellLists(mesh: Mesh, nodeCount: nat, edgeCount: nat): (r: Result<(seq<seq<nat>>, seq<seq<nat>>)>)
    requires Scannable(mesh, edgeCount) && (edgeCount > 0 ==> |mesh.vertices| == nodeCount)
    ensures r.Ok? <==> CellsOpen(mesh, nodeCount, edgeCount)
    ensures r.Err? ==> r.error.DegenerateCell? && r.error.node < nodeCount
    ensures r.Ok? ==>
      && |r.value.0| == |r.value.1| == nodeCount
      && (forall v :: 0 <= v < nodeCount ==>
            && r.value.0[v] == Around(mesh, v, edgeCount, NeighborColumn)
            && r.value.1[v] == Around(mesh, v, edgeCount, FaceColumn))
      && Total(r.value.0) == edgeCount && Total(r.value.1) == edgeCount
  {
    var neighbors := Scatter(mesh, nodeCount, edgeCount, NeighborColumn);
    var faces := Scatter(mesh, nodeCount, edgeCount, FaceColumn);
    var bad := FirstDegenerate(faces, 0);
    if bad.Some? then
      assert faces[bad.value] == Around(mesh, bad.value, edgeCount, FaceColumn);
      Err(DegenerateCell(bad.value))
    else
      assert forall v :: 0 <= v < nodeCount ==> |Around(mesh, v, edgeCount, FaceColumn)| > 2 by {
        forall v | 0 <= v < nodeCount ensures |Around(mesh, v, edgeCount, FaceColumn)| > 2 {
          assert faces[v] == Around(mesh, v, edgeCount, FaceColumn);
        }
      }
      Ok((neighbors, faces))
  }

  /** A drawn Delaunay line. */
  datatype Link = Link(from: nat, to: nat)

  /** The links one node emits: its neighbors above it, in list order. */
  function Outward(from: nat, tos: seq<nat>): (r: seq<Link>)
    ensures forall l :: multiset(r)[l] == (if l.from == from && from < l.to then multiset(tos)[l.to] else 0)
  {
    if tos == [] then []
    else
      var rest := Outward(from, tos[1..]);
      assert tos == [tos[0]] + tos[1..];
      if from < tos[0] then [Link(from, tos[0])] + rest else rest
  }

  /** The `from < to` filter over nodes from.. of the neighbor lists. */
  function Links(neighbors: seq<seq<nat>>, from: nat): (r: seq<Link>)
    decreases |neighbors| - from
    ensures forall l :: multiset(r)[l] == (if from <= l.from < |neighbors| && l.from < l.to then multiset(neighbors[l.from])[l.to] else 0)
  {
    if from >= |neighbors| then []
    else Outward(from, neighbors[from]) + Links(neighbors, from + 1)
  }

  /** When b is in a's list and a in b's, the undirected link a-b is
      drawn in exactly one orientation, lower node first, as often as the
      higher node occurs in the lower one's list. */
  lemma LinkOnce(neighbors: seq<seq<nat>>, a: nat, b: nat)
    requires a < |neighbors| && b < |neighbors| && a != b
    requires b in neighbors[a] && a in neighbors[b]
    ensures var ls := Links(neighbors, 0);
      && (Link(a, b) in ls <==> a < b)
      && (Link(b, a) in ls <==> b < a)
      && multiset(ls)[Link(if a < b then a else b, if a < b then b else a)] ==
         multiset(neighbors[if a < b then a else b])[if a < b then b else a]
  {
  }
}
