/** The Python point model (Python/simulator/model.py): index-aligned
    vertex and translation arrays, their mutators, and the `tri` flag that
    marks the derived geometry as current. */
module PointModel {
  import opened Results
  import opened Vectors
  import opened Indices

  /** The derived arrays updateGeometry builds. In this version of the
      Python model they are stubs: one empty row per point and zero
      degrees. */
  datatype Geometry = Geometry(
    allVertices: seq<Vec3>,
    links: seq<seq<int>>,
    degrees: seq<int>,
    tris: seq<seq<int>>,
    borders: seq<seq<int>>)

  /** The fields of a Model. `tri` holds exactly when Python's
      `self.tri` is not None; `geometry` is None until the first
      updateGeometry creates the derived attributes. Mutators mark the
      geometry stale but leave its attributes in place. `shared` holds
      while `allVertices` and `vertices` name one and the same numpy
      array: updateGeometry binds them together, and they stay together
      until a mutator binds `vertices` to a new array. */
  datatype ModelState = ModelState(
    vertices: seq<Vec3>,
    translations: seq<Vec3>,
    tri: bool,
    geometry: Option<Geometry>,
    shared: bool)

  /** Every operation keeps the two arrays index-aligned, and a shared
      `allVertices` reads exactly the rows of `vertices`. */
  type Model = m: ModelState | |m.vertices| == |m.translations| &&
    (m.shared ==> m.geometry.Some? && m.geometry.value.allVertices == m.vertices)
    witness ModelState([], [], false, None, false)

  function Count(m: Model): nat {
    |m.vertices|
  }

  predicate NeedsUpdate(m: Model) {
    !m.tri
  }

  predicate AllZero(ts: seq<Vec3>) {
    forall i :: 0 <= i < |ts| ==> ts[i] == Zero
  }

  /** What every mutator ends with: the geometry is marked stale and kept. */
  function Invalidate(m: Model): (r: Model)
    ensures NeedsUpdate(r)
    ensures r.vertices == m.vertices && r.translations == m.translations
    ensures r.geometry == m.geometry && r.shared == m.shared
  {
    m.(tri := false)
  }

  /** Writes into the existing arrays (`a[i] = ...`, `+=`, `/=`): a
      shared `allVertices` sees the new rows. */
  function WriteInPlace(m: Model, vertices: seq<Vec3>, translations: seq<Vec3>): Model
    requires |vertices| == |translations|
  {
    if m.shared then
      m.(vertices := vertices, translations := translations,
         geometry := Some(m.geometry.value.(allVertices := vertices)))
    else m.(vertices := vertices, translations := translations)
  }

  /** Binds `vertices` to a new array (`np.append`, `np.delete`, a fresh
      generator): `allVertices` keeps the old array and its rows. */
  function Rebind(m: Model, vertices: seq<Vec3>, translations: seq<Vec3>): Model
    requires |vertices| == |translations|
  {
    m.(vertices := vertices, translations := translations, shared := false)
  }

  /** `Model(count)`: count random points at rest, geometry not built. */
  function NewModel(count: nat, random: Source): (r: Model)
    ensures Count(r) == count && NeedsUpdate(r) && r.geometry == None && !r.shared
    ensures AllZero(r.translations)
    ensures forall i :: 0 <= i < count ==> r.vertices[i] == random(i)
  {
    ModelState(seq(count, i requires 0 <= i < count => random(i)), seq(count, _ => Zero), false, None, false)
  }

  /** Appends the normalised positions, each at rest. */
  function AddVerticesAt(m: Model, positions: seq<Vec3>, unit: Normalizer): (r: Model)
    ensures Count(r) == Count(m) + |positions|
    ensures r.vertices[..Count(m)] == m.vertices
    ensures r.translations[..Count(m)] == m.translations
    ensures forall k :: 0 <= k < |positions| ==>
      r.vertices[Count(m) + k] == unit(positions[k]) && r.translations[Count(m) + k] == Zero
    ensures NeedsUpdate(r) && r.geometry == m.geometry && !r.shared
  {
    var added := seq(|positions|, k requires 0 <= k < |positions| => unit(positions[k]));
    var rest := seq(|positions|, _ => Zero);
    assert (m.vertices + added)[..Count(m)] == m.vertices;
    assert (m.translations + rest)[..Count(m)] == m.translations;
    Invalidate(Rebind(m, m.vertices + added, m.translations + rest))
  }

  /** The first n points of a generator, normalised. */
  function Normalized(random: Source, n: nat, unit: Normalizer): (r: seq<Vec3>)
    ensures |r| == n
    ensures forall k :: 0 <= k < n ==> r[k] == unit(random(k))
  {
    seq(n, k requires 0 <= k < n => unit(random(k)))
  }

  /** `addVertices(count)`: count random points appended through
      addVerticesAt. */
  function AddVertices(m: Model, count: nat, random: Source, unit: Normalizer): (r: Model)
    ensures r.vertices == m.vertices + Normalized(random, count, unit)
    ensures Count(r) == Count(m) + count
    ensures r.vertices[..Count(m)] == m.vertices
    ensures r.translations[..Count(m)] == m.translations
    ensures forall k :: 0 <= k < count ==> r.vertices[Count(m) + k] == unit(random(k))
    ensures AllZero(r.translations[Count(m)..])
    ensures NeedsUpdate(r) && r.geometry == m.geometry
  {
    var points := seq(count, k requires 0 <= k < count => random(k));
    var r := AddVerticesAt(m, points, unit);
    assert forall k :: 0 <= k < count ==> points[k] == random(k);
    assert r.vertices == m.vertices + Normalized(random, count, unit);
    r
  }

  /** The first index of a largest score (numpy's argmax). */
  function ArgMax(scores: seq<real>): (k: nat)
    requires |scores| > 0
    ensures k < |scores|
    ensures forall j :: 0 <= j < |scores| ==> scores[j] <= scores[k]
    ensures forall j :: 0 <= j < k ==> scores[j] < scores[k]
  {
    if |scores| == 1 then 0
    else
      var k := ArgMax(scores[..|scores| - 1]);
      if scores[|scores| - 1] > scores[k] then |scores| - 1 else k
  }

  /** `vertexIdAt(pos)`: the first point with the largest dot product with
      pos; numpy raises on an empty model. Reals stand in for floats. */
  function VertexIdAt(m: Model, pos: Vec3): (r: Result<nat>)
    ensures r.Ok? <==> Count(m) > 0
    ensures r.Ok? ==> r.value < Count(m)
    ensures r.Ok? ==> forall j :: 0 <= j < Count(m) ==>
      Dot(m.vertices[j], pos) <= Dot(m.vertices[r.value], pos)
    ensures r.Ok? ==> forall j :: 0 <= j < r.value ==>
      Dot(m.vertices[j], pos) < Dot(m.vertices[r.value], pos)
  {
    if Count(m) == 0 then Err(EmptyRange)
    else
      var scores := seq(Count(m), j requires 0 <= j < Count(m) => Dot(m.vertices[j], pos));
      assert forall j :: 0 <= j < Count(m) ==> scores[j] == Dot(m.vertices[j], pos);
      Ok(ArgMax(scores))
  }

  /** Whether numpy accepts `id` as an index into n rows. */
  predicate InRange(id: int, n: nat) {
    0 <= id + n && id < n
  }

  /** `resetVertex(i, pos)`: point i moves to the normalised pos and comes
      to rest; numpy raises for an index outside [-count, count). */
  function ResetVertex(m: Model, i: int, pos: Vec3, unit: Normalizer): (r: Result<Model>)
    ensures r.Ok? <==> InRange(i, Count(m))
    ensures r.Ok? ==> Count(r.value) == Count(m)
    ensures r.Ok? ==> r.value.vertices[Wrap(i, Count(m))] == unit(pos)
    ensures r.Ok? ==> r.value.translations[Wrap(i, Count(m))] == Zero
    ensures r.Ok? ==> forall j :: 0 <= j < Count(m) && j != Wrap(i, Count(m)) ==>
      r.value.vertices[j] == m.vertices[j] && r.value.translations[j] == m.translations[j]
    ensures r.Ok? ==> NeedsUpdate(r.value) && r.value.shared == m.shared
    ensures r.Ok? && !m.shared ==> r.value.geometry == m.geometry
    ensures r.Ok? && m.shared ==> r.value.geometry == Some(m.geometry.value.(allVertices := r.value.vertices))
  {
    if !InRange(i, Count(m)) then Err(IndexOutOfRange)
    else
      var k := Wrap(i, Count(m));
      Ok(Invalidate(WriteInPlace(m, m.vertices[k := unit(pos)], m.translations[k := Zero])))
  }

  /** `resetAllVertices(random)`: every point is replaced by the chosen
      generator's point for this count and every velocity is zeroed. */
  function ResetAllVertices(m: Model, generated: Source): (r: Model)
    ensures Count(r) == Count(m)
    ensures forall i :: 0 <= i < Count(m) ==> r.vertices[i] == generated(i)
    ensures AllZero(r.translations)
    ensures NeedsUpdate(r) && r.geometry == m.geometry && !r.shared
  {
    Invalidate(Rebind(m, seq(Count(m), i requires 0 <= i < Count(m) => generated(i)), seq(Count(m), _ => Zero)))
  }

  /** The row indices a list of ids names. */
  function Dropped(ids: seq<int>, n: nat): set<int> {
    set id | id in ids && InRange(id, n) :: Wrap(id, n)
  }

  /** `removeVertexIds(ids)`: numpy.delete on both arrays. The survivors
      are the rows Kept by the deletion, in their original order, and the
      two arrays stay aligned row by row. */
  function RemoveVertexIds(m: Model, ids: seq<int>): (r: Result<Model>)
    ensures r.Ok? <==> forall id :: id in ids ==> InRange(id, Count(m))
    ensures r.Ok? ==> Count(r.value) == |Kept(Count(m), Dropped(ids, Count(m)))|
    ensures r.Ok? ==> forall j :: 0 <= j < Count(r.value) ==>
      var k := Kept(Count(m), Dropped(ids, Count(m)))[j];
      r.value.vertices[j] == m.vertices[k] && r.value.translations[j] == m.translations[k]
    ensures r.Ok? ==> NeedsUpdate(r.value) && r.value.geometry == m.geometry && !r.value.shared
  {
    if exists id :: id in ids && !InRange(id, Count(m)) then Err(IndexOutOfRange)
    else
      var drop := Dropped(ids, Count(m));
      Ok(Invalidate(Rebind(m, Delete(m.vertices, drop), Delete(m.translations, drop))))
  }

  /** `count = min(count, self.count() - 4)`: how many trailing points
      removeVertices takes, with a non-positive amount taking none. */
  function RemovalAmount(count: int, n: nat): (k: nat)
    ensures k <= n
    ensures n >= 4 ==> n - k >= 4
    ensures count <= 0 || n <= 4 ==> k == 0
    ensures 0 < count && count <= n - 4 ==> k == count
    ensures n >= 4 && count >= n - 4 ==> k == n - 4
  {
    var c := if count < n - 4 then count else n - 4;
    if c > 0 then c else 0
  }

  /** `removeVertices(count)`: drops the last min(count, count() - 4) points,
      so a model of at least four points keeps at least four. */
  function RemoveVertices(m: Model, count: int): (r: Model)
    ensures Count(r) == Count(m) - RemovalAmount(count, Count(m))
    ensures r.vertices == m.vertices[..Count(r)]
    ensures r.translations == m.translations[..Count(r)]
    ensures Count(m) >= 4 ==> Count(r) >= 4
    ensures NeedsUpdate(r) && r.geometry == m.geometry && !r.shared
  {
    var n, k := Count(m), RemovalAmount(count, Count(m));
    var ids: seq<int> := seq(k, j requires 0 <= j < k => n - k + j);
    TrailingIds(ids, n, k);
    var r := RemoveVertexIds(m, ids);
    DeleteSuffix(m.vertices, k);
    DeleteSuffix(m.translations, k);
    r.value
  }

  /** `self.vertices.shape[0] - count + np.arange(count)` names exactly
      the last k rows. */
  lemma TrailingIds(ids: seq<int>, n: nat, k: nat)
    requires k <= n && ids == seq(k, j requires 0 <= j < k => n - k + j)
    ensures forall id :: id in ids ==> InRange(id, n)
    ensures Dropped(ids, n) == Tail(n, k)
  {
    forall i | i in Tail(n, k)
      ensures i in Dropped(ids, n)
    {
      assert ids[i - (n - k)] == i;
      assert i in ids && InRange(i, n) && Wrap(i, n) == i;
    }
  }

  /** `updateGeometry()`: not guarded, it always rebuilds the stub arrays
      and marks the geometry current. */
  function UpdateGeometry(m: Model): (r: Model)
    ensures !NeedsUpdate(r)
    ensures r.vertices == m.vertices && r.translations == m.translations
    ensures r.geometry.Some?
    ensures r.geometry.value.allVertices == m.vertices && r.shared
    ensures |r.geometry.value.degrees| == Count(m)
    ensures forall i :: 0 <= i < Count(m) ==> r.geometry.value.degrees[i] == 0
    ensures |r.geometry.value.links| == |r.geometry.value.tris| == |r.geometry.value.borders| == Count(m)
    ensures forall i :: 0 <= i < Count(m) ==>
      r.geometry.value.links[i] == [] && r.geometry.value.tris[i] == [] && r.geometry.value.borders[i] == []
  {
    var n := Count(m);
    var empty := seq(n, _ => []);
    m.(tri := true, geometry := Some(Geometry(m.vertices, empty, seq(n, _ => 0), empty, empty)), shared := true)
  }
  /** `if model.needsUpdate(): model.updateGeometry()`, as the driver's
      loop runs it: afterwards the geometry is current, a rebuilt one
      shares the point array, and a current one is left alone. */
  function Refresh(m: Model): (r: Model)
    ensures !NeedsUpdate(r) && r.vertices == m.vertices && r.translations == m.translations
    ensures NeedsUpdate(m) ==> r.shared
    ensures !NeedsUpdate(m) ==> r == m
  {
    if NeedsUpdate(m) then UpdateGeometry(m) else m
  }


  /** Removing a single in-range id cuts exactly that row out of both
      arrays, so the count drops by one. */
  lemma RemoveOneId(m: Model, id: int)
    requires InRange(id, Count(m))
    ensures RemoveVertexIds(m, [id]).Ok?
    ensures var r := RemoveVertexIds(m, [id]).value; var k := Wrap(id, Count(m));
      && Count(r) == Count(m) - 1
      && r.vertices == m.vertices[..k] + m.vertices[k + 1..]
      && r.translations == m.translations[..k] + m.translations[k + 1..]
  {
    var k := Wrap(id, Count(m));
    assert Dropped([id], Count(m)) == {k};
    DeleteOne(m.vertices, k);
    DeleteOne(m.translations, k);
  }

  /** Adding points and then removing as many from the tail restores the
      arrays of a model of at least four points. */
  lemma AddRemoveRoundTrip(m: Model, positions: seq<Vec3>, unit: Normalizer)
    requires Count(m) >= 4
    ensures var r := RemoveVertices(AddVerticesAt(m, positions, unit), |positions|);
      r.vertices == m.vertices && r.translations == m.translations && NeedsUpdate(r)
  {
    var added := AddVerticesAt(m, positions, unit);
    assert RemovalAmount(|positions|, Count(added)) == |positions|;
  }

  /** updateGeometry is not guarded: a second call rebuilds the same
      arrays. */
  lemma UpdateGeometryTwice(m: Model)
    ensures UpdateGeometry(UpdateGeometry(m)) == UpdateGeometry(m)
  {
  }

  /** `allVertices = vertices` shares the array, so moving a point in
      place right after a rebuild moves it in `allVertices` too. */
  lemma ResetSeenThroughAlias(m: Model, i: int, pos: Vec3, unit: Normalizer)
    requires InRange(i, Count(m))
    ensures var r := ResetVertex(UpdateGeometry(m), i, pos, unit);
      && r.Ok? && r.value.shared
      && r.value.geometry.value.allVertices == r.value.vertices
      && r.value.geometry.value.allVertices[Wrap(i, Count(m))] == unit(pos)
  {
  }

  /** `np.append` binds `vertices` to a new array, so a later in-place
      reset no longer reaches the `allVertices` of the last rebuild. */
  lemma AppendDetachesAlias(m: Model, positions: seq<Vec3>, i: int, pos: Vec3, unit: Normalizer)
    requires InRange(i, Count(m))
    ensures var r := ResetVertex(AddVerticesAt(UpdateGeometry(m), positions, unit), i, pos, unit);
      && r.Ok? && !r.value.shared
      && r.value.geometry.value.allVertices == m.vertices
  {
  }
}
