/** The Python driver's event reducer (Python/PyGL.py): how keys and
    clicks change the model, the simulator's step counter, the selection
    and the display settings. GL, camera and window effects are not part
    of the modelled state. */
module Driver {
  import opened Indices
  import opened Results
  import opened Vectors
  import opened PointModel
  import opened Simulation

  /** The keys the reducer distinguishes; CharX are matched on the typed
      character, KeyX on the key code. */
  datatype Key =
    | Escape | Plus | Minus | Delete | Return
    | CharP | CharD | CharV | CharB | CharW
    | KeyA | KeyS | KeyF | KeyR | Space
    | OtherKey

  datatype Buttons = Buttons(left: bool, middle: bool, right: bool)

  /** A pygame event. `hit` is the camera's unprojection of the mouse
      position onto the sphere (None when the ray misses it); `mods` is
      the pygame modifier bit mask. */
  datatype Event =
    | Quit
    | Resize
    | ButtonDown(button: int, hit: Option<Vec3>)
    | Motion(buttons: Buttons, hit: Option<Vec3>)
    | KeyDown(key: Key, mods: bv16)
    | OtherEvent

  /** The numeric collaborators. `sample` is numpy's global stream of
      uniform samples after `np.random.seed()`, position by position;
      `onSphere(u, v)` is the point randomPointsOnSphere makes from a
      theta sample u and a height sample v (the trigonometry is left
      uninterpreted); `arranged(n)` is arrangedPointsOnSphere(n), whose
      spiral depends on n; `round6` is `round(x, 6)`. */
  datatype Env = Env(
    unit: Normalizer,
    sample: nat -> real,
    onSphere: (real, real) -> Vec3,
    arranged: nat -> Source,
    round6: real -> real)

  /** `randomPointsOnSphere(n)` with the stream at position `at`: n theta
      samples, then n height samples. */
  function RandomPoints(env: Env, at: nat, n: nat): (r: Source)
    ensures forall i: nat {:trigger r(i)} :: r(i) == env.onSphere(env.sample(at + i), env.sample(at + n + i))
  {
    (i: nat) => env.onSphere(env.sample(at + i), env.sample(at + n + i))
  }

  datatype GameState = GameState(
    model: Model,
    simulator: Simulator,
    selection: Option<nat>,
    exit: bool,
    points: bool,
    delauney: bool,
    voronoi: bool,
    borders: bool,
    alpha: real,
    shader: int,
    wireframe: bool,
    drawn: nat)

  /** `GameState(count)`: a fresh model of count points drawn from the
      start of a freshly seeded stream, a default simulator, nothing
      selected, shader 1 and alpha 0. `drawn` counts the samples read
      from numpy's stream so far. */
  function Initial(count: nat, env: Env): (r: GameState)
    ensures Count(r.model) == count && NeedsUpdate(r.model) && AllZero(r.model.translations)
    ensures forall i :: 0 <= i < count ==> r.model.vertices[i] == RandomPoints(env, 0, count)(i)
    ensures r.drawn == 2 * count
    ensures r.selection == None && !r.exit && r.simulator == Default
    ensures r.shader == 1 && r.alpha == 0.0
  {
    GameState(NewModel(count, RandomPoints(env, 0, count)), Default, None, false, false, false, true, true, 0.0, 1, false, 2 * count)
  }

  /** QUIT and ESC end the main loop. */
  predicate IsExit(e: Event) {
    e.Quit? || (e.KeyDown? && e.key == Escape)
  }

  /** The keys that touch the point model. */
  predicate EditsModel(key: Key) {
    key == Plus || key == Minus || key == Delete || key == Return
  }

  /** The keys that touch the simulator. */
  predicate TunesSimulator(key: Key) {
    key == KeyF || key == KeyR || key == Space
  }

  /** The one key that can raise: Delete with more than four points and a
      selection numpy does not accept as an index. */
  predicate KeyRaises(s: GameState, key: Key) {
    key == Delete && s.selection.Some? && Count(s.model) > 4 && !InRange(s.selection.value, Count(s.model))
  }

  /** When the Python handler raises, whatever the state: a left click
      that hits the sphere of an empty model (argmax of nothing), a left
      drag with a selection whose ray misses the sphere or whose selection
      is not an index, and the key above. */
  predicate Raises(s: GameState, e: Event) {
    match e
    case ButtonDown(button, hit) => button == 1 && hit.Some? && Count(s.model) == 0
    case Motion(_, hit) => IsDrag(s, e) && (hit.None? || !InRange(s.selection.value, Count(s.model)))
    case KeyDown(key, _) => KeyRaises(s, key)
    case _ => false
  }

  /** Events that raise in no state: anything but a left click, a mouse
      motion and Delete. */
  predicate Harmless(e: Event) {
    !(e.ButtonDown? && e.button == 1) && !e.Motion? && !(e.KeyDown? && e.key == Delete)
  }

  /** `mod`: 1 when a CTRL key is held (pygame bits 64 and 128). */
  function Ctrl(mods: bv16): nat {
    if mods & 0xC0 != 0 then 1 else 0
  }

  /** `mod2`: 1 when a SHIFT key is held (pygame bits 1 and 2). */
  function Shift(mods: bv16): nat {
    if mods & 0x03 != 0 then 1 else 0
  }

  function Pow(b: int, e: nat): int {
    if e == 0 then 1 else b * Pow(b, e - 1)
  }

  function Abs(x: int): nat {
    if x < 0 then -x else x
  }

  /** `pow(10, mod) * pow(100, mod2)`: how many points '+' and '-' add or
      remove. */
  function Amount(mods: bv16): (r: nat)
    ensures r == (if Ctrl(mods) == 1 then 10 else 1) * (if Shift(mods) == 1 then 100 else 1)
  {
    Pow(10, Ctrl(mods)) * Pow(100, Shift(mods))
  }

  function ClampInt(x: int, lo: int, hi: int): int {
    if x < lo then lo else if x > hi then hi else x
  }

  function ClampReal(x: real, lo: real, hi: real): real {
    if x < lo then lo else if x > hi then hi else x
  }

  /** One pass of the `for e in pygame.event.get()` body. Errors are the
      exceptions the Python code would raise. */
  function HandleEvent(s: GameState, e: Event, env: Env): (r: Result<GameState>)
    ensures r.Err? <==> Raises(s, e)
    ensures r.Err? && e.Motion? && e.hit.None? ==> r.error == NoInterception
    ensures r.Ok? ==> (r.value.exit <==> s.exit || IsExit(e))
    ensures r.Ok? ==> r.value.model == s.model || NeedsUpdate(r.value.model)
    ensures r.Ok? && !e.Motion? && !(e.KeyDown? && EditsModel(e.key)) ==> r.value.model == s.model
    ensures r.Ok? && !(e.KeyDown? && TunesSimulator(e.key)) ==> r.value.simulator == s.simulator
    ensures r.Ok? ==> r.value.drawn >= s.drawn
  {
    match e
    case Quit => Ok(s.(exit := true))
    case Resize => Ok(s)
    case ButtonDown(button, hit) => Click(s, button, hit)
    case Motion(buttons, hit) => Drag(s, buttons, hit, env)
    case KeyDown(key, mods) => HandleKey(s, key, Ctrl(mods), Shift(mods), Amount(mods), env)
    case OtherEvent => Ok(s)
  }

  /** MOUSEBUTTONDOWN: button 1 selects the point nearest the hit, or
      clears the selection when the ray misses the sphere; argmax raises
      on an empty model. Other buttons only move the camera. */
  function Click(s: GameState, button: int, hit: Option<Vec3>): (r: Result<GameState>)
    ensures r.Err? <==> button == 1 && hit.Some? && Count(s.model) == 0
    ensures r.Ok? ==> r.value.(selection := s.selection) == s
    ensures r.Ok? && button == 1 ==> r.value.selection == (if hit.None? then None else Some(VertexIdAt(s.model, hit.value).value))
  {
    if button != 1 then Ok(s)
    else if hit.None? then Ok(s.(selection := None))
    else
      match VertexIdAt(s.model, hit.value)
      case Err(e) => Err(e)
      case Ok(id) => Ok(s.(selection := Some(id)))
  }

  /** MOUSEMOTION: a drag with only the left button held moves the
      selected point to the hit. The snapping unprojection can still miss
      (the Python code then normalises None and raises), and numpy raises
      for a selection that is not an index. Other motions only move the
      camera. */
  function Drag(s: GameState, buttons: Buttons, hit: Option<Vec3>, env: Env): (r: Result<GameState>)
    ensures r.Err? <==> buttons == Buttons(true, false, false) && s.selection.Some? &&
                        (hit.None? || !InRange(s.selection.value, Count(s.model)))
    ensures r.Err? && hit.None? ==> r.error == NoInterception
    ensures r.Ok? ==> r.value.(model := s.model) == s
    ensures r.Ok? ==> r.value.model == s.model || NeedsUpdate(r.value.model)
  {
    if buttons != Buttons(true, false, false) || s.selection.None? then Ok(s)
    else if hit.None? then Err(NoInterception)
    else
      match ResetVertex(s.model, s.selection.value, hit.value, env.unit)
      case Err(e) => Err(e)
      case Ok(m) => Ok(s.(model := m))
  }

  /** The KEYDOWN branches, with `mod`, `mod2` and the point amount
      already read off the modifier mask. */
  function HandleKey(s: GameState, key: Key, ctrl: nat, shift: nat, amount: nat, env: Env): (r: Result<GameState>)
    ensures r.Err? <==> KeyRaises(s, key)
    ensures r.Err? ==> r.error == IndexOutOfRange
    ensures r.Ok? ==> (r.value.exit <==> s.exit || key == Escape)
    ensures r.Ok? ==> r.value.model == s.model || NeedsUpdate(r.value.model)
    ensures r.Ok? && !EditsModel(key) ==> r.value.model == s.model && r.value.selection == s.selection
    ensures r.Ok? && !TunesSimulator(key) ==> r.value.simulator == s.simulator
    ensures r.Ok? ==> r.value.drawn >= s.drawn
    ensures r.Ok? && r.value.drawn != s.drawn ==> key == Plus || key == Return
  {
    match key
    case Plus => Ok(PlusKey(s, amount, env))
    case Minus => Ok(MinusKey(s, amount))
    case Delete => DeleteKey(s)
    case Return => Ok(ReturnKey(s, ctrl, env))
    case _ => Ok(SettingKey(s, key, ctrl, shift, env))
  }

  /** What an edit of the points leaves alone: the exit flag and the
      simulator; the model either stays or is marked stale, and numpy's
      stream only moves forward. */
  predicate EditFrame(s: GameState, r: GameState) {
    && (r.model == s.model || NeedsUpdate(r.model))
    && r.exit == s.exit && r.simulator == s.simulator
    && r.drawn >= s.drawn
  }

  /** '+': `addVertices(amount)` draws 2 * amount samples from the stream
      where it stands, and appends the normalised points they make. */
  function PlusKey(s: GameState, amount: nat, env: Env): (r: GameState)
    ensures EditFrame(s, r) && r.selection == s.selection && r.drawn == s.drawn + 2 * amount
    ensures r.model.vertices == s.model.vertices + Batch(env, s.drawn, amount)
  {
    s.(model := AddVertices(s.model, amount, RandomPoints(env, s.drawn, amount), env.unit),
       drawn := s.drawn + 2 * amount)
  }

  /** '-': `removeVertices(amount)`, then a selection past the new end
      is dropped. */
  function MinusKey(s: GameState, amount: nat): (r: GameState)
    ensures EditFrame(s, r) && r.drawn == s.drawn
    ensures Count(r.model) == Count(s.model) - RemovalAmount(amount, Count(s.model))
    ensures r.selection.None? || r.selection.value < Count(r.model)
    ensures s.selection.Some? && s.selection.value < Count(r.model) ==> r.selection == s.selection
  {
    var m := RemoveVertices(s.model, amount);
    s.(model := m, selection := if s.selection.Some? && s.selection.value >= Count(m) then None else s.selection)
  }

  /** Delete: with a selection and more than four points, the selected
      row is cut out and the selection cleared; numpy raises when the
      selection is not an index. */
  function DeleteKey(s: GameState): (r: Result<GameState>)
    ensures r.Err? <==> KeyRaises(s, Delete)
    ensures r.Err? ==> r.error == IndexOutOfRange
    ensures r.Ok? ==> EditFrame(s, r.value) && r.value.drawn == s.drawn
    ensures r.Ok? && s.selection.Some? && Count(s.model) > 4 ==>
      Count(r.value.model) == Count(s.model) - 1 && r.value.selection == None
    ensures s.selection.None? || Count(s.model) <= 4 ==> r == Ok(s)
  {
    if s.selection.None? || Count(s.model) <= 4 then Ok(s)
    else
      var m :- RemoveVertexIds(s.model, [s.selection.value]);
      RemoveOneId(s.model, s.selection.value);
      Ok(s.(model := m, selection := None))
  }

  /** Return: `resetAllVertices(mod)` regenerates every point, from the
      stream with CTRL and from the arranged spiral for the current count
      without it. */
  function ReturnKey(s: GameState, ctrl: nat, env: Env): (r: GameState)
    ensures EditFrame(s, r) && r.selection == s.selection
    ensures Count(r.model) == Count(s.model) && AllZero(r.model.translations)
    ensures ctrl == 1 ==> r.drawn == s.drawn + 2 * Count(s.model)
    ensures ctrl == 1 ==> forall i :: 0 <= i < Count(s.model) ==>
      r.model.vertices[i] == RandomPoints(env, s.drawn, Count(s.model))(i)
    ensures ctrl != 1 ==> r.drawn == s.drawn
    ensures ctrl != 1 ==> forall i :: 0 <= i < Count(s.model) ==>
      r.model.vertices[i] == env.arranged(Count(s.model))(i)
  {
    var n := Count(s.model);
    if ctrl == 1 then s.(model := ResetAllVertices(s.model, RandomPoints(env, s.drawn, n)), drawn := s.drawn + 2 * n)
    else s.(model := ResetAllVertices(s.model, env.arranged(n)))
  }

  /** The remaining keys: exit, display toggles, alpha, shader and the
      simulator's parameters. None of them raises or touches the points. */
  function SettingKey(s: GameState, key: Key, ctrl: nat, shift: nat, env: Env): (r: GameState)
    requires !EditsModel(key)
    ensures r.model == s.model && r.selection == s.selection && r.drawn == s.drawn
    ensures r.exit <==> s.exit || key == Escape
    ensures !TunesSimulator(key) ==> r.simulator == s.simulator
  {
    match key
    case Escape => s.(exit := true)
    case CharP => s.(points := !s.points)
    case CharD => s.(delauney := !s.delauney)
    case CharV => s.(voronoi := !s.voronoi)
    case CharB => s.(borders := !s.borders)
    case CharW => s.(wireframe := !s.wireframe)
    case KeyA =>
      var a := s.alpha - 0.1 * (Pow(10, ctrl) * Pow(-1, shift)) as real;
      s.(alpha := ClampReal(a, 0.0, 1.0))
    case KeyS => s.(shader := ClampInt(s.shader - Pow(8, ctrl) * Pow(-1, shift), 1, 8))
    case KeyF =>
      var f := s.simulator.friction - (10 * Pow(10, ctrl) * Pow(-1, shift)) as real;
      s.(simulator := s.simulator.(friction := f))
    case KeyR =>
      var r := env.round6(s.simulator.repulsion - 0.000001 * (Pow(10, ctrl) * Pow(-1, shift)) as real);
      s.(simulator := s.simulator.(repulsion := if r < 0.0 then 0.0 else r))
    case Space =>
      var steps := if ctrl == 1 then s.simulator.steps - Pow(10, shift)
                   else Abs(s.simulator.steps - Pow(-1, shift));
      s.(simulator := s.simulator.(steps := steps))
    case OtherKey => s
  }

  /** All events of one frame, in order, stopping at the first exception. */
  function HandleEvents(s: GameState, events: seq<Event>, env: Env): (r: Result<GameState>)
    ensures r.Ok? ==> (r.value.exit <==> s.exit || exists k :: 0 <= k < |events| && IsExit(events[k]))
    ensures r.Ok? ==> r.value.model == s.model || NeedsUpdate(r.value.model)
    ensures r.Ok? ==> r.value.drawn >= s.drawn
    ensures (forall k :: 0 <= k < |events| ==> Harmless(events[k])) ==> r.Ok?
    decreases |events|
  {
    if events == [] then Ok(s)
    else
      var next :- HandleEvent(s, events[0], env);
      var r := HandleEvents(next, events[1..], env);
      assert forall k :: 1 <= k < |events| ==> events[k] == events[1..][k - 1];
      r
  }

  /** One iteration of the main loop's modelled part: the events, then
      the rest of the iteration. */
  function Frame(s: GameState, events: seq<Event>, env: Env, physics: Physics, cpu: nat): (r: Result<GameState>)
    ensures var handled := HandleEvents(s, events, env);
      r.Ok? <==> handled.Ok? && (handled.value.simulator.steps == 0 || Sections(cpu, Count(handled.value.model)) > 0)
    ensures var handled := HandleEvents(s, events, env);
      r.Ok? ==> && handled.Ok? && !NeedsUpdate(r.value.model)
                && Count(r.value.model) == Count(handled.value.model)
                && r.value.(model := handled.value.model, simulator := handled.value.simulator) == handled.value
    ensures r.Ok? ==> (r.value.exit <==> s.exit || exists k :: 0 <= k < |events| && IsExit(events[k]))
  {
    var handled :- HandleEvents(s, events, env);
    Settle(handled, physics, cpu)
  }

  /** The loop body after the events: `simulate`, then `updateGeometry`
      when the model needs it, so the renderer always finds the geometry
      current. */
  function Settle(h: GameState, physics: Physics, cpu: nat): (r: Result<GameState>)
    ensures r.Ok? <==> h.simulator.steps == 0 || Sections(cpu, Count(h.model)) > 0
    ensures r.Ok? ==> && !NeedsUpdate(r.value.model) && Count(r.value.model) == Count(h.model)
                      && r.value.(model := h.model, simulator := h.simulator) == h
    ensures r.Ok? && (!NeedsUpdate(h.model) ==> h.model.shared) ==> r.value.model.shared
  {
    match Simulate(h.model, h.simulator, physics, cpu)
    case Err(e) => Err(e)
    case Ok((m, sim)) => Ok(h.(model := Refresh(m), simulator := sim))
  }

  /** A batch of events split anywhere runs as its first part, then the
      rest from where the first part left off; an exception in the first
      part ends the batch. */
  lemma {:induction false} HandleEventsAppend(s: GameState, a: seq<Event>, b: seq<Event>, env: Env)
    ensures HandleEvents(s, a + b, env) ==
      (match HandleEvents(s, a, env)
       case Ok(mid) => HandleEvents(mid, b, env)
       case Err(e) => Err(e))
    decreases |a|
  {
    if a == [] {
      assert a + b == b;
    } else {
      assert (a + b)[0] == a[0] && (a + b)[1..] == a[1..] + b;
      match HandleEvent(s, a[0], env)
      case Ok(next) => HandleEventsAppend(next, a[1..], b, env);
      case Err(_) =>
    }
  }

  /** A '+' press is PlusKey with the amount its modifiers ask for. */
  lemma PlusPress(s: GameState, mods: bv16, env: Env)
    ensures HandleEvent(s, KeyDown(Plus, mods), env) == Ok(PlusKey(s, Amount(mods), env))
  {
  }

  /** Two '+' presses in a row read fresh samples each time: the second
      batch of points comes from the 2 * amount samples after the first
      batch's, not from the same ones. */
  lemma PlusTwiceDrawsFresh(s: GameState, a: nat, env: Env)
    ensures var twice := PlusKey(PlusKey(s, a, env), a, env);
      && twice.drawn == s.drawn + 4 * a
      && twice.model.vertices == s.model.vertices + Batch(env, s.drawn, a) + Batch(env, s.drawn + 2 * a, a)
  {
  }

  /** The normalised points of one random batch of n points read from
      position `at` of the stream. */
  function Batch(env: Env, at: nat, n: nat): (r: seq<Vec3>)
    ensures |r| == n
    ensures forall k :: 0 <= k < n ==> r[k] == env.unit(env.onSphere(env.sample(at + k), env.sample(at + n + k)))
  {
    Normalized(RandomPoints(env, at, n), n, env.unit)
  }

  /** Where the renderer reads: if the geometry was current only while it
      shared the point array (as every state reached from the start is),
      a frame that does not raise ends with `allVertices` reading exactly
      the current points. */
  lemma FrameUploadsVertices(s: GameState, events: seq<Event>, env: Env, physics: Physics, cpu: nat)
    requires !NeedsUpdate(s.model) ==> s.model.shared
    ensures var r := Frame(s, events, env, physics, cpu);
      r.Ok? ==> r.value.model.geometry.Some? && r.value.model.geometry.value.allVertices == r.value.model.vertices
  {
  }

  /** What the driver keeps true between events: at least four points, a
      selection that names one of them, the shader and alpha in range and
      a non-negative repulsion. */
  predicate Inv(s: GameState) {
    && Count(s.model) >= 4
    && (s.selection.Some? ==> s.selection.value < Count(s.model))
    && 1 <= s.shader <= 8
    && 0.0 <= s.alpha <= 1.0
    && s.simulator.repulsion >= 0.0
  }

  /** A left-button drag with a point selected. */
  predicate IsDrag(s: GameState, e: Event) {
    e.Motion? && e.buttons == Buttons(true, false, false) && s.selection.Some?
  }

  lemma InitialInv(count: nat, env: Env)
    requires count >= 4
    ensures Inv(Initial(count, env))
  {
  }

  /** Every event keeps the invariant, and the only event that raises is
      a drag whose ray misses the sphere: with the invariant, the
      selection is always a valid index for resetVertex and
      removeVertexIds. */
  lemma HandleEventKeepsInv(s: GameState, e: Event, env: Env)
    requires Inv(s)
    ensures HandleEvent(s, e, env).Err? <==> IsDrag(s, e) && e.hit.None?
    ensures HandleEvent(s, e, env).Ok? ==> Inv(HandleEvent(s, e, env).value)
  {
    match e
    case KeyDown(key, mods) =>
      HandleKeyKeepsInv(s, key, Ctrl(mods), Shift(mods), Amount(mods), env);
    case ButtonDown(button, hit) => ClickKeepsInv(s, button, hit, env);
    case Motion(buttons, hit) => DragKeepsInv(s, buttons, hit, env);
    case _ =>
  }

  lemma ClickKeepsInv(s: GameState, button: int, hit: Option<Vec3>, env: Env)
    requires Inv(s)
    ensures HandleEvent(s, ButtonDown(button, hit), env).Ok?
    ensures Inv(HandleEvent(s, ButtonDown(button, hit), env).value)
  {
  }

  lemma DragKeepsInv(s: GameState, buttons: Buttons, hit: Option<Vec3>, env: Env)
    requires Inv(s)
    ensures HandleEvent(s, Motion(buttons, hit), env).Err? <==>
      buttons == Buttons(true, false, false) && s.selection.Some? && hit.None?
    ensures HandleEvent(s, Motion(buttons, hit), env).Ok? ==> Inv(HandleEvent(s, Motion(buttons, hit), env).value)
  {
  }

  /** No key raises, and every key keeps the invariant. */
  lemma HandleKeyKeepsInv(s: GameState, key: Key, ctrl: nat, shift: nat, amount: nat, env: Env)
    requires Inv(s)
    ensures HandleKey(s, key, ctrl, shift, amount, env).Ok?
    ensures Inv(HandleKey(s, key, ctrl, shift, amount, env).value)
  {
    match key
    case Delete => DeleteKeepsInv(s, ctrl, shift, amount, env);
    case Minus => MinusKeepsInv(s, ctrl, shift, amount, env);
    case _ =>
  }

  lemma DeleteKeepsInv(s: GameState, ctrl: nat, shift: nat, amount: nat, env: Env)
    requires Inv(s)
    ensures HandleKey(s, Delete, ctrl, shift, amount, env).Ok?
    ensures Inv(HandleKey(s, Delete, ctrl, shift, amount, env).value)
  {
    if s.selection.Some? && Count(s.model) > 4 {
      RemoveOneId(s.model, s.selection.value);
    }
  }

  lemma MinusKeepsInv(s: GameState, ctrl: nat, shift: nat, amount: nat, env: Env)
    requires Inv(s)
    ensures HandleKey(s, Minus, ctrl, shift, amount, env).Ok?
    ensures Inv(HandleKey(s, Minus, ctrl, shift, amount, env).value)
  {
  }

  /** Plain Space toggles a resting simulator between 0 and 1 steps per
      frame: `abs(steps - 1)`. */
  lemma SpaceToggles(s: GameState, env: Env)
    requires s.simulator.steps == 0
    ensures var once := HandleEvent(s, KeyDown(Space, 0), env);
      && once.Ok? && once.value.simulator.steps == 1
      && HandleEvent(once.value, KeyDown(Space, 0), env) == Ok(s)
  {
  }

  /** Ctrl+Space lowers the counter by 10^shift; the negative counter is a
      countdown that simulate walks back to 0, one step per frame. */
  lemma CtrlSpaceCountdown(s: GameState, mods: bv16, env: Env, physics: Physics, cpu: nat)
    requires s.simulator.steps == 0 && Ctrl(mods) == 1
    ensures var r := HandleEvent(s, KeyDown(Space, mods), env);
      var k := Pow(10, Shift(mods));
      && r.Ok? && r.value.simulator.steps == -k
      && SimulateCalls(s.model, r.value.simulator, physics, cpu, k) ==
         WithSimulator(Repeat(s.model, r.value.simulator, physics, cpu, k), s.simulator)
  {
    var r := HandleEvent(s, KeyDown(Space, mods), env);
    var k := Pow(10, Shift(mods));
    assert k > 0;
    Countdown(s.model, r.value.simulator, physics, cpu, k, k);
  }

  /** '+' adds and '-' removes `10^ctrl * 100^shift` points (the removal
      clamped at four points left), and after '-' the selection is either
      cleared or still a valid index. */
  lemma PlusMinusAmounts(s: GameState, mods: bv16, env: Env)
    ensures var r := HandleEvent(s, KeyDown(Plus, mods), env);
      r.Ok? && Count(r.value.model) == Count(s.model) + Amount(mods)
    ensures var r := HandleEvent(s, KeyDown(Minus, mods), env);
      && r.Ok?
      && Count(r.value.model) == Count(s.model) - RemovalAmount(Amount(mods), Count(s.model))
      && (r.value.selection.None? || r.value.selection.value < Count(r.value.model))
  {
  }

  /** Delete removes the selected point only while more than four remain,
      and then clears the selection. */
  lemma DeleteSelected(s: GameState, env: Env)
    requires Inv(s)
    ensures var r := HandleEvent(s, KeyDown(Delete, 0), env);
      && r.Ok?
      && (if s.selection.Some? && Count(s.model) > 4
          then var k := Wrap(s.selection.value, Count(s.model));
            && Count(r.value.model) == Count(s.model) - 1 && r.value.selection == None
            && r.value.model.vertices == s.model.vertices[..k] + s.model.vertices[k + 1..]
            && r.value.model.translations == s.model.translations[..k] + s.model.translations[k + 1..]
          else r.value == s)
  {
    if s.selection.Some? && Count(s.model) > 4 {
      RemoveOneId(s.model, s.selection.value);
    }
  }

  /** The shader index always ends in [1, 8] after 's'. */
  lemma ShaderClamped(s: GameState, mods: bv16, env: Env)
    ensures var r := HandleEvent(s, KeyDown(KeyS, mods), env);
      r.Ok? && 1 <= r.value.shader <= 8
  {
  }

  /** A left click selects the point nearest the hit, or clears the
      selection when the ray misses the sphere. */
  lemma ClickSelects(s: GameState, hit: Option<Vec3>, env: Env)
    requires Count(s.model) > 0
    ensures var r := HandleEvent(s, ButtonDown(1, hit), env);
      && r.Ok?
      && (hit.None? ==> r.value.selection == None)
      && (hit.Some? ==> r.value.selection == Some(VertexIdAt(s.model, hit.value).value))
      && (r.value.selection.Some? ==> r.value.selection.value < Count(s.model))
  {
  }

  /** A frame that does not raise keeps the invariant and leaves the
      geometry current for the renderer. */
  lemma {:induction false} FrameKeepsInv(s: GameState, events: seq<Event>, env: Env, physics: Physics, cpu: nat)
    requires Inv(s)
    ensures var r := Frame(s, events, env, physics, cpu);
      r.Ok? ==> Inv(r.value) && !NeedsUpdate(r.value.model)
  {
    HandleEventsKeepInv(s, events, env);
  }

  lemma {:induction false} HandleEventsKeepInv(s: GameState, events: seq<Event>, env: Env)
    requires Inv(s)
    ensures HandleEvents(s, events, env).Ok? ==> Inv(HandleEvents(s, events, env).value)
    decreases |events|
  {
    if events != [] {
      HandleEventKeepsInv(s, events[0], env);
      if HandleEvent(s, events[0], env).Ok? {
        HandleEventsKeepInv(HandleEvent(s, events[0], env).value, events[1..], env);
      }
    }
  }
}
