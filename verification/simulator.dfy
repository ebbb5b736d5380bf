/** The Python repulsion simulator (Python/simulator/simulator.py): the
    signed step counter of `simulate`, and the chunked write-back of
    `simulateStep`. The float body of a step is left uninterpreted. */
module Simulation {
  import opened Results
  import opened Vectors
  import opened Partition
  import opened PointModel

  /** `steps < 0` asks for one step per call, counting up towards 0;
      `steps >= 0` asks for that many steps on every call. */
  datatype Simulator = Simulator(friction: real, repulsion: real, steps: int)

  /** `Simulator()` with its default arguments. */
  const Default := Simulator(100.0, 0.000005, 0)

  /** The float parts of a step, left uninterpreted: `force(vertices, i)`
      is the nansum row _rejectionForIds computes for point i, and
      `settle(friction, v, t)` is one point's tangential projection,
      damping, integration and renormalisation, giving the new point and
      velocity. */
  datatype Physics = Physics(
    force: (seq<Vec3>, nat) -> Vec3,
    settle: (real, Vec3, Vec3) -> (Vec3, Vec3))

  /** `_rejectionForIds(vertices, ids)`: one force row per requested id,
      in the order of the ids. */
  method RejectionForIds(vertices: seq<Vec3>, ids: seq<nat>, force: (seq<Vec3>, nat) -> Vec3)
    returns (result: seq<Vec3>)
    ensures |result| == |ids|
    ensures forall o :: 0 <= o < |ids| ==> result[o] == force(vertices, ids[o])
  {
    result := seq(|ids|, _ => Zero);
    var o := 0;
    while o < |ids|
      invariant 0 <= o <= |ids| && |result| == |ids|
      invariant forall p :: 0 <= p < o ==> result[p] == force(vertices, ids[p])
    {
      result := result[o := force(vertices, ids[o])];
      o := o + 1;
    }
  }

  /** Every translation plus `repulsion` times its point's force row. */
  function Kick(translations: seq<Vec3>, vertices: seq<Vec3>, repulsion: real, force: (seq<Vec3>, nat) -> Vec3): (r: seq<Vec3>)
    ensures |r| == |translations|
    ensures forall i :: 0 <= i < |r| ==> r[i] == Add(translations[i], Scale(repulsion, force(vertices, i)))
  {
    seq(|translations|, i requires 0 <= i < |translations| =>
      Add(translations[i], Scale(repulsion, force(vertices, i))))
  }

  /** `min(cpu_count(), model.count())`: the number of array_split sections.
      `cpu_count()` is at least 1, so only an empty model gives 0. */
  function Sections(cpu: nat, n: nat): (r: nat)
    ensures r <= cpu && r <= n && (r == cpu || r == n)
    ensures r == 0 <==> cpu == 0 || n == 0
  {
    if cpu < n then cpu else n
  }

  /** The parallel phase of simulateStep: the index range is split into
      `sections` contiguous chunks, one force task per chunk, and each
      chunk's rows are added back at offset `ids[0]`. Every translation
      receives its own row exactly once. */
  method WriteBack(vertices: seq<Vec3>, translations: seq<Vec3>, repulsion: real,
                   force: (seq<Vec3>, nat) -> Vec3, sections: nat)
    returns (t: seq<Vec3>)
    requires 0 < sections <= |translations|
    ensures |t| == |translations|
    ensures forall i :: 0 <= i < |t| ==>
      t[i] == Add(translations[i], Scale(repulsion, force(vertices, i)))
    ensures t == Kick(translations, vertices, repulsion, force)
  {
    ArraySplitTiles(|translations|, sections);
    t := WriteSegments(vertices, translations, repulsion, force, ArraySplit(|translations|, sections));
  }

  /** The write-back loop over any tiling of the index range: chunk by
      chunk, the rows before the current chunk are done and the rest are
      untouched. */
  method WriteSegments(vertices: seq<Vec3>, translations: seq<Vec3>, repulsion: real,
                       force: (seq<Vec3>, nat) -> Vec3, segments: seq<Range>)
    returns (t: seq<Vec3>)
    requires Tiling(segments, 0, |translations|)
    ensures t == Kick(translations, vertices, repulsion, force)
  {
    var n := |translations|;
    TilingBounded(segments, 0, n);
    t := translations;
    var j := 0;
    while j < |segments|
      invariant 0 <= j <= |segments| && |t| == n
      invariant forall i :: 0 <= i < Done(segments, n, j) ==>
        t[i] == Add(translations[i], Scale(repulsion, force(vertices, i)))
      invariant forall i :: Done(segments, n, j) <= i < n ==> t[i] == translations[i]
    {
      var lo, hi := segments[j].min, segments[j].max;
      assert Done(segments, n, j) == lo < hi <= n;
      assert Done(segments, n, j + 1) == hi;
      t := WriteChunk(vertices, t, repulsion, force, lo, hi);
      j := j + 1;
    }
    assert Done(segments, n, j) == n by {
      if segments == [] { assert n == 0; }
    }
    assert t == Kick(translations, vertices, repulsion, force);
  }

  /** One array_split task and its write-back: the force rows of the ids
      `lo .. hi-1`, added to the translations from offset `lo` on. */
  method WriteChunk(vertices: seq<Vec3>, t: seq<Vec3>, repulsion: real,
                    force: (seq<Vec3>, nat) -> Vec3, lo: nat, hi: nat)
    returns (t': seq<Vec3>)
    requires lo < hi <= |t|
    ensures |t'| == |t|
    ensures forall i :: 0 <= i < |t| ==>
      t'[i] == (if lo <= i < hi then Add(t[i], Scale(repulsion, force(vertices, i))) else t[i])
  {
    var ids := seq(hi - lo, o requires 0 <= o < hi - lo => lo + o);
    var rows := RejectionForIds(vertices, ids, force);
    assert forall o :: 0 <= o < hi - lo ==> rows[o] == force(vertices, lo + o);
    t' := AddRows(t, ids[0], rows, repulsion);
  }

  /** `translations[start:start+size] += repulsion * rows`. */
  function AddRows(t: seq<Vec3>, start: nat, rows: seq<Vec3>, repulsion: real): (r: seq<Vec3>)
    requires start + |rows| <= |t|
    ensures |r| == |t|
    ensures forall i :: 0 <= i < |t| ==>
      r[i] == (if start <= i < start + |rows| then Add(t[i], Scale(repulsion, rows[i - start])) else t[i])
  {
    seq(|t|, i requires 0 <= i < |t| =>
      if start <= i < start + |rows| then Add(t[i], Scale(repulsion, rows[i - start])) else t[i])
  }

  /** How far the write-back has got after j chunks. */
  ghost function Done(segments: seq<Range>, n: nat, j: nat): nat
    requires j <= |segments|
  {
    if j < |segments| then segments[j].min else n
  }

  /** `simulateStep(model)`: every point receives its force row once and
      is then settled; the model ends invalidated. array_split raises when
      there are no sections, that is for an empty model. The `+=` and `/=`
      on `vertices` write in place, so a shared `allVertices` moves too. */
  function SimulateStep(m: Model, sim: Simulator, physics: Physics, cpu: nat): (r: Result<Model>)
    ensures r.Ok? <==> Sections(cpu, Count(m)) > 0
    ensures r.Ok? ==> Count(r.value) == Count(m)
    ensures r.Ok? ==> NeedsUpdate(r.value) && r.value.shared == m.shared
    ensures r.Ok? && !m.shared ==> r.value.geometry == m.geometry
    ensures r.Ok? && m.shared ==> r.value.geometry == Some(m.geometry.value.(allVertices := r.value.vertices))
    ensures r.Ok? ==> forall i :: 0 <= i < Count(m) ==>
      (r.value.vertices[i], r.value.translations[i]) ==
        physics.settle(sim.friction, m.vertices[i],
                       Add(m.translations[i], Scale(sim.repulsion, physics.force(m.vertices, i))))
  {
    if Sections(cpu, Count(m)) == 0 then Err(EmptyRange)
    else
      var n := Count(m);
      var kicked := Kick(m.translations, m.vertices, sim.repulsion, physics.force);
      var moved := seq(n, i requires 0 <= i < n => physics.settle(sim.friction, m.vertices[i], kicked[i]));
      Ok(Invalidate(WriteInPlace(m, seq(n, i requires 0 <= i < n => moved[i].0),
                                    seq(n, i requires 0 <= i < n => moved[i].1))))
  }

  /** k successive steps, stopping at the first failure. */
  function Repeat(m: Model, sim: Simulator, physics: Physics, cpu: nat, k: nat): (r: Result<Model>)
    ensures k == 0 ==> r == Ok(m)
    ensures r.Ok? <==> k == 0 || Sections(cpu, Count(m)) > 0
    ensures r.Ok? ==> Count(r.value) == Count(m)
    ensures r.Ok? && k > 0 ==> NeedsUpdate(r.value)
    decreases k
  {
    if k == 0 then Ok(m)
    else
      var next :- SimulateStep(m, sim, physics, cpu);
      Repeat(next, sim, physics, cpu, k - 1)
  }

  /** How many steps one call of simulate runs: one while counting down,
      `steps` otherwise, and none only for a resting simulator. */
  function Runs(sim: Simulator): (r: nat)
    ensures r == 0 <==> sim.steps == 0
    ensures sim.steps < 0 ==> r == 1
    ensures sim.steps > 0 ==> r == sim.steps
  {
    if sim.steps < 0 then 1 else sim.steps
  }

  /** `simulate(model)`: one step and `steps += 1` while steps is
      negative, otherwise `steps` steps with the counter left as it is. */
  function Simulate(m: Model, sim: Simulator, physics: Physics, cpu: nat): (r: Result<(Model, Simulator)>)
    ensures sim.steps < 0 ==> (r.Ok? <==> SimulateStep(m, sim, physics, cpu).Ok?)
    ensures sim.steps < 0 && r.Ok? ==>
      r.value == (SimulateStep(m, sim, physics, cpu).value, sim.(steps := sim.steps + 1))
    ensures sim.steps >= 0 && r.Ok? ==> r.value.1 == sim
    ensures sim.steps == 0 ==> r == Ok((m, sim))
    ensures r.Ok? <==> sim.steps == 0 || Sections(cpu, Count(m)) > 0
    ensures r.Ok? ==> Count(r.value.0) == Count(m)
    ensures r.Ok? ==> r.value.0 == m || NeedsUpdate(r.value.0)
  {
    var next :- Repeat(m, sim, physics, cpu, Runs(sim));
    Ok((next, if sim.steps < 0 then sim.(steps := sim.steps + 1) else sim))
  }

  /** A run of steps reported together with the simulator that ran them. */
  function WithSimulator(r: Result<Model>, sim: Simulator): Result<(Model, Simulator)> {
    match r
    case Ok(m) => Ok((m, sim))
    case Err(e) => Err(e)
  }

  /** `calls` successive calls of simulate, as the driver makes once per
      frame. */
  function SimulateCalls(m: Model, sim: Simulator, physics: Physics, cpu: nat, calls: nat): Result<(Model, Simulator)>
    decreases calls
  {
    if calls == 0 then Ok((m, sim))
    else
      var next :- Simulate(m, sim, physics, cpu);
      SimulateCalls(next.0, next.1, physics, cpu, calls - 1)
  }

  /** Running a then b steps is running a + b steps. */
  lemma {:induction false} RepeatAdds(m: Model, sim: Simulator, physics: Physics, cpu: nat, a: nat, b: nat)
    ensures Repeat(m, sim, physics, cpu, a + b) ==
      (match Repeat(m, sim, physics, cpu, a)
       case Ok(mid) => Repeat(mid, sim, physics, cpu, b)
       case Err(e) => Err(e))
    decreases a
  {
    if a > 0 {
      match SimulateStep(m, sim, physics, cpu)
      case Ok(next) =>
        RepeatAdds(next, sim, physics, cpu, a - 1, b);
      case Err(_) =>
    }
  }

  /** With a non-negative counter nothing resets it: c calls run c times
      `steps` steps and leave the simulator as it was. */
  lemma {:induction false} NonNegativeCalls(m: Model, sim: Simulator, physics: Physics, cpu: nat, calls: nat)
    requires sim.steps >= 0
    ensures SimulateCalls(m, sim, physics, cpu, calls) ==
      WithSimulator(Repeat(m, sim, physics, cpu, calls * sim.steps), sim)
    decreases calls
  {
    if calls > 0 {
      RepeatAdds(m, sim, physics, cpu, sim.steps, (calls - 1) * sim.steps);
      assert sim.steps + (calls - 1) * sim.steps == calls * sim.steps;
      match Repeat(m, sim, physics, cpu, sim.steps)
      case Ok(mid) =>
        NonNegativeCalls(mid, sim, physics, cpu, calls - 1);
      case Err(_) =>
    }
  }

  /** From `steps == -k`, any number of calls from k on runs exactly k
      steps in total and leaves the counter at 0. */
  lemma {:induction false} Countdown(m: Model, sim: Simulator, physics: Physics, cpu: nat, k: nat, calls: nat)
    requires sim.steps + k == 0 && calls >= k
    ensures SimulateCalls(m, sim, physics, cpu, calls) ==
      WithSimulator(Repeat(m, sim, physics, cpu, k), sim.(steps := 0))
    decreases k
  {
    if k == 0 {
      NonNegativeCalls(m, sim, physics, cpu, calls);
    } else {
      RepeatAdds(m, sim, physics, cpu, 1, k - 1);
      match SimulateStep(m, sim, physics, cpu)
      case Ok(next) =>
        Countdown(next, sim.(steps := sim.steps + 1), physics, cpu, k - 1, calls - 1);
        RepeatSimulatorFree(next, sim.(steps := sim.steps + 1), sim, physics, cpu, k - 1);
      case Err(_) =>
    }
  }

  /** The steps counter plays no part in a step itself. */
  lemma {:induction false} RepeatSimulatorFree(m: Model, s: Simulator, s': Simulator, physics: Physics, cpu: nat, k: nat)
    requires s.friction == s'.friction && s.repulsion == s'.repulsion
    ensures Repeat(m, s, physics, cpu, k) == Repeat(m, s', physics, cpu, k)
    decreases k
  {
    if k > 0 {
      match SimulateStep(m, s, physics, cpu)
      case Ok(next) =>
        RepeatSimulatorFree(next, s, s', physics, cpu, k - 1);
      case Err(_) =>
    }
  }
}
