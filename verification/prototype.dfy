/** The single-file prototype (Cpp/GeodeticFloes/main.cpp): its point
    state with `addPoints`, the worker loop that updates translations in
    chunks, the per-frame `Board` built from the hull, and the Delaunay
    lines drawn from the neighbor lists. */
module Prototype {
  import opened Results
  import opened Vectors
  import opened Indices
  import opened Partition
  import opened HalfEdgeMesh

  /** `GameState`'s particle matrices. */
  datatype Points = Points(particles: seq<Vec3>, translations: seq<Vec3>)

  /** `addPoints(delta)`: clamp, resize both matrices, and on growth give
      the new columns normalised random particles and zero translations. */
  function AddPoints(s: Points, delta: int, random: Source, unit: Normalizer): (r: Points)
    ensures |r.particles| == |r.translations| == |s.particles| + ClampDelta(|s.particles|, delta)
    ensures delta + |s.particles| >= 0 ==> |r.particles| == |s.particles| + delta
    ensures forall i :: 0 <= i < |r.particles| && i < |s.particles| ==> r.particles[i] == s.particles[i]
    ensures forall i :: 0 <= i < |r.particles| && i < |s.particles| && i < |s.translations| ==> r.translations[i] == s.translations[i]
    ensures forall i :: |s.particles| <= i < |r.particles| ==> r.particles[i] == unit(random(i - |s.particles|)) && r.translations[i] == Zero
  {
    var count := |s.particles|;
    var delta := ClampDelta(count, delta);
    var total: nat := count + delta;
    var particles := Resized(s.particles, total, (i: nat) => if i < count then Zero else unit(random(i - count)));
    var translations := Resized(s.translations, total, (i: nat) => Zero);
    var translations := if delta > 0 then seq(total, i requires 0 <= i < total => if i < count then translations[i] else Zero) else translations;
    Points(particles, translations)
  }

  /** Shrinking and growing back by the same amount keeps the surviving
      prefix and zeroes the rest of the translations. */
  lemma {:induction false} AddPointsRoundTrip(s: Points, k: nat, random: Source, unit: Normalizer)
    requires |s.particles| == |s.translations| && k <= |s.particles|
    ensures var r := AddPoints(AddPoints(s, -(k as int), random, unit), k, random, unit);
      && |r.particles| == |s.particles|
      && r.particles[..|s.particles| - k] == s.particles[..|s.particles| - k]
      && r.translations[..|s.particles| - k] == s.translations[..|s.particles| - k]
      && forall i :: |s.particles| - k <= i < |s.particles| ==> r.translations[i] == Zero
  {
    var shrunk := AddPoints(s, -(k as int), random, unit);
    var r := AddPoints(shrunk, k, random, unit);
    var m := |s.particles| - k;
    assert |shrunk.particles| == m;
    assert r.particles[..m] == s.particles[..m];
    assert r.translations[..m] == s.translations[..m];
  }

  /** How one worker task rewrites column i's translation (the repulsion
      sum and projection); it reads the particles and its own column. */
  type ColumnUpdate = (nat, Vec3) -> Vec3

  /** The `if (state.updating)` block's worker loop: task j of t sweeps
      columns [n*j/t, n*(j+1)/t). */
  method WorkerSweep(translations: seq<Vec3>, t: nat, update: ColumnUpdate) returns (r: seq<Vec3>)
    ensures |r| == |translations|
    ensures t > 0 ==> forall i :: 0 <= i < |r| ==> r[i] == update(i, translations[i])
    ensures t == 0 ==> r == translations
  {
    var n := |translations|;
    r := translations;
    var j := 0;
    if t > 0 {
      BoundEnds(n, t);
    }
    while j < t
      invariant 0 <= j <= t && |r| == n
      invariant t > 0 ==> Bound(n, t, j) <= n
      invariant forall x :: 0 <= x < n ==>
        r[x] == (if t > 0 && x < Bound(n, t, j) then update(x, translations[x]) else translations[x])
    {
      BoundMonotone(n, t, j, j + 1);
      BoundMonotone(n, t, j + 1, t);
      var i := n * j / t;
      while i < n * (j + 1) / t
        invariant Bound(n, t, j) <= i <= Bound(n, t, j + 1) && |r| == n
        invariant forall x :: 0 <= x < n ==>
          r[x] == (if x < i then update(x, translations[x]) else translations[x])
      {
        r := r[i := update(i, r[i])];
        i := i + 1;
      }
      j := j + 1;
    }
  }

  /** The per-frame `Board`: nodes are the hull's vertices. */
  datatype Board = Board(nodes: seq<Vec3>, neighbors: seq<seq<nat>>, vertices: seq<Vec3>, faces: seq<seq<nat>>)

  /** `Board(hull)`, before the angular sort of each face. */
  function BuildBoard(mesh: Mesh, center: Circumcenter): (r: Result<Board>)
    requires HullOf(mesh, |mesh.vertices|)
    ensures r.Ok? <==> Derive(mesh, |mesh.vertices|, center).Ok?
    ensures r.Ok? ==> r.value.nodes == mesh.vertices
    ensures r.Ok? ==> |r.value.neighbors| == |r.value.faces| == NodeCount(|mesh.vertices|)
    ensures r.Ok? ==> |r.value.vertices| == ElementCount(NodeCount(|mesh.vertices|), |mesh.faces|)
    ensures r.Ok? ==> forall v :: 0 <= v < |r.value.faces| ==> |r.value.faces[v]| > 2
    ensures r.Ok? ==> forall i :: 0 <= i < |r.value.vertices| ==>
      Corners(mesh, i).Ok? && r.value.vertices[i] == Center(mesh, Corners(mesh, i).value, center)
    ensures r.Ok? && NodeCount(|mesh.vertices|) > 0 ==>
      && Total(r.value.neighbors) == |mesh.halfEdges|
      && Total(r.value.faces) == |mesh.halfEdges|
      && forall v :: 0 <= v < |mesh.vertices| ==>
           && r.value.neighbors[v] == Around(mesh, v, |mesh.halfEdges|, NeighborColumn)
           && r.value.faces[v] == Around(mesh, v, |mesh.halfEdges|, FaceColumn)
  {
    var derived :- Derive(mesh, |mesh.vertices|, center);
    var nodeCount := NodeCount(|mesh.vertices|);
    var edgeCount := ElementCount(nodeCount, |mesh.halfEdges|);
    assert CellsOpen(mesh, nodeCount, edgeCount);
    assert forall v :: 0 <= v < nodeCount ==> |derived.faces[v]| > 2 by {
      forall v | 0 <= v < nodeCount ensures |derived.faces[v]| > 2 {
        assert derived.faces[v] == Around(mesh, v, edgeCount, FaceColumn);
      }
    }
    Ok(Board(mesh.vertices, derived.neighbors, derived.vertices, derived.faces))
  }

  /** The Delaunay lines the draw loop emits. */
  function DelaunayLines(b: Board): (r: seq<Link>)
    ensures forall l :: multiset(r)[l] == (if l.from < |b.neighbors| && l.from < l.to
                                           then multiset(b.neighbors[l.from])[l.to] else 0)
  {
    Links(b.neighbors, 0)
  }

  /** One entry of the board's neighbor lists has its mirror entry. */
  lemma BoardNeighborMirrored(mesh: Mesh, center: Circumcenter, v: nat, x: nat)
    requires HullOf(mesh, |mesh.vertices|) && NodeCount(|mesh.vertices|) > 0
    requires OppInvolution(mesh)
    requires BuildBoard(mesh, center).Ok?
    requires v < |mesh.vertices| && x in BuildBoard(mesh, center).value.neighbors[v]
    ensures x < |mesh.vertices| && v in BuildBoard(mesh, center).value.neighbors[x]
  {
    var k := |mesh.halfEdges|;
    AroundMembers(mesh, v, k, NeighborColumn, x);
    var e :| 0 <= e < k && mesh.halfEdges[e].endVertex == v && Entry(mesh, e, NeighborColumn) == x;
    assert EdgeIndexed(mesh, mesh.halfEdges[mesh.halfEdges[e].opp]);
    NeighborsSymmetric(mesh, v, x);
  }

  /** On a hull whose `opp` is an involution, every mesh edge a-b is
      drawn in exactly one orientation, lower node first. */
  lemma BoardLinesOnce(mesh: Mesh, center: Circumcenter, a: nat, b: nat)
    requires HullOf(mesh, |mesh.vertices|) && NodeCount(|mesh.vertices|) > 0
    requires OppInvolution(mesh)
    requires BuildBoard(mesh, center).Ok?
    requires a < |mesh.vertices| && a != b
    requires b in BuildBoard(mesh, center).value.neighbors[a]
    ensures var lines := DelaunayLines(BuildBoard(mesh, center).value);
      && (Link(a, b) in lines <==> a < b)
      && (Link(b, a) in lines <==> b < a)
  {
    BoardNeighborMirrored(mesh, center, a, b);
    LinkOnce(BuildBoard(mesh, center).value.neighbors, a, b);
  }
}
