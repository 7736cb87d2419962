/**
 * The `GridShimmer` component as a stateful object: the pointer reference its listeners
 * update, the motion/coarse/running flags, and the pass list that each `draw` frame
 * advances in place with a reverse index loop, `push` and `splice`.
 */
module Shimmer {
  import opened Wrappers
  import opened JsMath
  import opened Sweep
  import opened Compositor

  /** The parked position `onLeave` writes into the pointer. */
  const Parked: real := -9999.0

  /** One entry of `TouchEvent.touches`. */
  datatype Touch = Touch(clientX: real, clientY: real)

  /** `pointer.current`: where the pointer is and whether it is over the page. */
  class PointerRef {
    var x: real
    var y: real
    var active: bool

    /** `useRef({ x: -9999, y: -9999, active: false })`. */
    constructor ()
      ensures x == Parked && y == Parked && !active
    {
      x, y, active := Parked, Parked, false;
    }

    /** `setPointer(clientX, clientY)`, shared by the mouse and touch handlers. */
    method SetPointer(clientX: real, clientY: real)
      modifies this
      ensures x == clientX && y == clientY && active
    {
      x, y, active := clientX, clientY, true;
    }

    /** `onLeave`: the pointer is inactive and parked far off-canvas. */
    method OnLeave()
      modifies this
      ensures !active && x == Parked && y == Parked
    {
      active, x, y := false, Parked, Parked;
    }

    /**
     * `onTouch`: with no touch list, or an empty one, it behaves as `onLeave`; otherwise it
     * follows the first touch.
     */
    method OnTouch(touches: Option<seq<Touch>>)
      modifies this
      ensures (touches == None || touches.value == []) ==> !active && x == Parked && y == Parked
      ensures touches != None && touches.value != [] ==>
                active && x == touches.value[0].clientX && y == touches.value[0].clientY
    {
      if touches == None || touches.value == [] {
        OnLeave();
        return;
      }
      var t := touches.value[0];
      SetPointer(t.clientX, t.clientY);
    }
  }

  /**
   * Whether a frame draws: one copy tests `document.visibilityState` inside `draw`, the
   * other the `running` ref that its `visibilitychange` listener keeps.
   */
  predicate FrameDrawn(cfg: Config, running: bool, documentVisible: bool) {
    if cfg.gateOnRunningRef then running else documentVisible
  }

  /** `dt = Math.max(0.001, (now − last) / 1000)`: seconds since the last frame, never below 1 ms. */
  function FrameSeconds(now: real, last: real): (dt: real)
    ensures dt >= 0.001
    ensures now - last >= 1.0 ==> dt == (now - last) / 1000.0
    ensures now - last < 1.0 ==> dt == 0.001
  {
    Max(0.001, (now - last) / 1000.0)
  }

  /** `Survivors` of a suffix, unfolded by one element. */
  lemma SurvivorsFrom(qs: seq<Pass>, e: Extent, i: int)
    requires 0 <= i < |qs|
    ensures Survivors(qs[i..], e) == (if Exited(qs[i], e) then [] else [qs[i]]) + Survivors(qs[i + 1..], e)
  {
    assert qs[i..][1..] == qs[i + 1..];
  }

  /**
   * The sequence shapes of one loop iteration, for any element type: `cur` is the unvisited
   * prefix `a + [y]` before the visited part `s`, entry `|a|` becomes `x`, `t` is appended,
   * and entry `|a|` is spliced out when it has exited. `sv` is what the visited part
   * becomes: `s` when the entry has exited, `[x] + s` otherwise.
   */
  lemma StepShape<T>(cur: seq<T>, a: seq<T>, y: T, s: seq<T>, x: T, t: seq<T>, sv: seq<T>, exited: bool)
    requires cur == a + [y] + s
    requires exited ==> sv == s
    requires !exited ==> sv == [x] + s
    ensures |a| < |cur| && cur[|a|] == y
    ensures !exited ==> cur[|a| := x] + t == a + sv + t
    ensures exited ==> (cur[|a| := x] + t)[..|a|] + (cur[|a| := x] + t)[|a| + 1..] == a + sv + t
  {
    var pushed := cur[|a| := x] + t;
    assert cur[|a| := x] == a + [x] + s;
    assert pushed == a + ([x] + s + t);
    assert pushed[..|a|] == a;
    assert pushed[|a| + 1..] == s + t;
  }

  /**
   * One iteration of the reverse loop, as sequence algebra: with the prefix `ps0[..i + 1]`
   * still unvisited and the survivors of `qs[i + 1..]` behind it, advancing entry `i`, then
   * appending `t` and splicing out entry `i` when it has exited, leave the prefix `ps0[..i]`
   * before the survivors of `qs[i..]`, then `t`.
   */
  lemma IterationStep(ps0: seq<Pass>, qs: seq<Pass>, e: Extent, i: int, cur: seq<Pass>, t: seq<Pass>)
    requires 0 <= i < |ps0| == |qs|
    requires cur == ps0[..i + 1] + Survivors(qs[i + 1..], e)
    ensures i < |cur| && cur[i] == ps0[i]
    ensures Exited(qs[i], e) ==>
              (cur[i := qs[i]] + t)[..i] + (cur[i := qs[i]] + t)[i + 1..] == ps0[..i] + Survivors(qs[i..], e) + t
    ensures !Exited(qs[i], e) ==> cur[i := qs[i]] + t == ps0[..i] + Survivors(qs[i..], e) + t
  {
    PrefixSnoc(ps0, i);
    SurvivorsFrom(qs, e, i);
    StepShape(cur, ps0[..i], ps0[i], Survivors(qs[i + 1..], e), qs[i], t, Survivors(qs[i..], e), Exited(qs[i], e));
  }

  /**
   * The loop's spawn test at index `i`: fewer than two live passes with pass `i` in the
   * overlap window happens exactly at the front, when `SpawnDue` holds.
   */
  lemma SpawnTest(ps0: seq<Pass>, qs: seq<Pass>, e: Extent, i: int, cur: seq<Pass>)
    requires 0 <= i < |ps0| == |qs|
    requires cur == ps0[..i + 1] + Survivors(qs[i + 1..], e)
    ensures (|cur| < 2 && Overlapping(qs[i], e)) == (i == 0 && SpawnDue(qs, e))
  {
    if i == 0 {
      assert qs[1..] == qs[i + 1..];
    }
  }

  /**
   * One iteration of the reverse loop at index `i`: advance that pass, push the successor
   * when due and splice the pass out when it has exited.
   */
  method AdvanceOne(passes: seq<Pass>, ghost qs: seq<Pass>, e: Extent, dt: real, d: Draw, i: int,
                    ps: seq<Pass>, spawned: bool)
      returns (ps': seq<Pass>, spawned': bool)
    requires DrawOk(d)
    requires qs == Advanced(passes, e.speed, dt)
    requires 0 <= i < |passes|
    requires ps == passes[..i + 1] + Survivors(qs[i + 1..], e) && !spawned
    ensures spawned' == (i == 0 && SpawnDue(qs, e))
    ensures ps' == passes[..i] + Survivors(qs[i..], e) + (if spawned' then [Spawn(d, e)] else [])
  {
    ghost var t := if i == 0 && SpawnDue(qs, e) then [Spawn(d, e)] else [];
    IterationStep(passes, qs, e, i, ps, t);
    SpawnTest(passes, qs, e, i, ps);
    var p := After(ps[i], e.speed, dt);
    assert p == qs[i];
    ps', spawned' := ps[i := p], spawned;
    if !spawned' && |ps'| < 2 && p.pos.Beyond(ExitLine(p, e) - e.speed * OverlapSeconds) {
      ps' := ps' + [Spawn(d, e)];
      spawned' := true;
    } else {
      assert t == [];
      assert ps' == ps' + t;
    }
    assert ps' == ps[i := qs[i]] + t;
    if p.pos.Beyond(ExitLine(p, e)) {
      ps' := ps'[..i] + ps'[i + 1..];
    }
  }

  /** When the index has run past the front, the loop's invariant is `NextPasses`. */
  lemma LoopDone(passes: seq<Pass>, qs: seq<Pass>, e: Extent, dt: real, d: Draw, ps: seq<Pass>, spawned: bool)
    requires DrawOk(d)
    requires qs == Advanced(passes, e.speed, dt)
    requires ps == passes[..0] + Survivors(qs[0..], e) + (if spawned then [Spawn(d, e)] else [])
    requires spawned == SpawnDue(qs, e)
    ensures ps == NextPasses(passes, e, dt, d)
  {
    assert qs[0..] == qs;
    assert passes[..0] + Survivors(qs, e) == Survivors(qs, e);
  }

  /**
   * The reverse loop of `draw` over `passes`: each pass is advanced, the first pass that
   * reaches the overlap window while fewer than two passes are live pushes one successor,
   * and every pass past its exit line is spliced out. The result is the list `NextPasses`
   * describes.
   */
  method AdvancePasses(passes: seq<Pass>, e: Extent, dt: real, d: Draw) returns (ps: seq<Pass>)
    requires DrawOk(d)
    ensures ps == NextPasses(passes, e, dt, d)
  {
    ghost var qs := Advanced(passes, e.speed, dt);
    ps := passes;
    var spawned := false;
    var i := |ps| - 1;
    assert passes[..i + 1] == passes && qs[i + 1..] == [];
    while i >= 0
      invariant -1 <= i < |passes|
      invariant !spawned ==> ps == passes[..i + 1] + Survivors(qs[i + 1..], e)
      invariant spawned ==> ps == passes[..i + 1] + Survivors(qs[i + 1..], e) + [Spawn(d, e)]
      invariant spawned == (i < 0 && SpawnDue(qs, e))
      decreases i
    {
      ps, spawned := AdvanceOne(passes, qs, e, dt, d, i, ps, spawned);
      i := i - 1;
    }
    LoopDone(passes, qs, e, dt, d, ps, spawned);
  }

  /**
   * What a drawn frame, `dt` seconds after the last one, produces from `passes`: the
   * initial pass placed, the passes advanced (`next`), and every cell painted from `next`.
   */
  predicate Rendered(cfg: Config, passes: seq<Pass>, dt: real, v: Viewport, coarse: bool, d: Draw, num: Numerics,
                     ptr: PointerSample, now: real, next: seq<Pass>, cells: seq<seq<Fill>>)
    requires ConfigOk(cfg) && ViewportOk(v) && DrawOk(d) && NumericsOk(num) && Lifecycle(next)
  {
    var g := GeometryOf(v, coarse);
    var e := ExtentOf(v, g);
    && next == NextPasses(ResolveFirst(passes, e), e, dt, d)
    && Painted(cfg, g, PassCache(next), ptr, now, num, cells)
  }

  /** The work of a drawn frame; the new pass list keeps the lifecycle. */
  method RenderFrame(cfg: Config, passes: seq<Pass>, dt: real, v: Viewport, coarse: bool, d: Draw, num: Numerics,
                     ptr: PointerSample, now: real)
      returns (next: seq<Pass>, cells: seq<seq<Fill>>)
    requires Lifecycle(passes) && ConfigOk(cfg) && ViewportOk(v) && DrawOk(d) && NumericsOk(num) && dt >= 0.0
    ensures Lifecycle(next)
    ensures Rendered(cfg, passes, dt, v, coarse, d, num, ptr, now, next, cells)
  {
    var g := GeometryOf(v, coarse);
    var e := ExtentOf(v, g);
    FrameKeepsLifecycle(passes, e, dt, d);
    next := AdvancePasses(ResolveFirst(passes, e), e, dt, d);
    cells := Composite(cfg, g, PassCache(next), ptr, now, num);
  }

  class GridShimmer {
    /** The constants of this copy of the component. */
    const cfg: Config
    /** `pointer.current`, written by the pointer listeners. */
    const pointer: PointerRef
    /** `motionOK.current`: false while the user prefers reduced motion. */
    var motionOK: bool
    /** `coarse.current`: the pointer is coarse (touch), so cells are 1.5× larger. */
    var coarse: bool
    /** `running.current`: the document was visible at the last `visibilitychange`. */
    var running: bool
    /** `passes`: the live sweep passes, oldest first. */
    var passes: seq<Pass>
    /** `last`: the timestamp of the last drawn frame, in milliseconds. */
    var last: real

    predicate Valid()
      reads this
    {
      ConfigOk(cfg) && Lifecycle(passes)
    }

    /**
     * Mounting: the media-query flags are read once, `running` starts true, and the pass
     * list holds one fully faded-in pass whose position is not yet known.
     */
    constructor (cfg: Config, pointer: PointerRef, reducedMotion: bool, coarsePointer: bool, d: Draw, start: real)
      requires ConfigOk(cfg) && DrawOk(d)
      ensures this.cfg == cfg && this.pointer == pointer
      ensures motionOK == !reducedMotion && coarse == coarsePointer && running
      ensures passes == [InitialPass(d)] && last == start
      ensures Valid()
    {
      this.cfg := cfg;
      this.pointer := pointer;
      motionOK := !reducedMotion;
      coarse := coarsePointer;
      running := true;
      passes := [InitialPass(d)];
      last := start;
    }

    /** The `prefers-reduced-motion` change listener. */
    method OnReduce(matches: bool)
      modifies this
      ensures motionOK == !matches
      ensures coarse == old(coarse) && running == old(running) && passes == old(passes) && last == old(last)
    {
      motionOK := !matches;
    }

    /** The `pointer: coarse` change listener. */
    method OnCoarse(matches: bool)
      modifies this
      ensures coarse == matches
      ensures motionOK == old(motionOK) && running == old(running) && passes == old(passes) && last == old(last)
    {
      coarse := matches;
    }

    /** The `visibilitychange` listener. */
    method OnVisibility(visible: bool)
      modifies this
      ensures running == visible
      ensures motionOK == old(motionOK) && coarse == old(coarse) && passes == old(passes) && last == old(last)
    {
      running := visible;
    }

    /**
     * One `draw(now)` call. A frame that is not drawn leaves every field as it was. A drawn
     * frame sets `last := now`, places the initial pass if it is still at −∞, advances the
     * passes, and paints every cell with the fill `CellFill` gives for the new pass list.
     */
    method DrawFrame(now: real, documentVisible: bool, v: Viewport, d: Draw, num: Numerics)
        returns (grid: Option<seq<seq<Fill>>>)
      requires Valid() && ViewportOk(v) && DrawOk(d) && NumericsOk(num)
      modifies this
      ensures Valid()
      ensures motionOK == old(motionOK) && coarse == old(coarse) && running == old(running)
      ensures !FrameDrawn(cfg, old(running), documentVisible) ==>
                grid == None && passes == old(passes) && last == old(last)
      ensures FrameDrawn(cfg, old(running), documentVisible) ==>
                && last == now && grid.Some?
                && Rendered(cfg, old(passes), FrameSeconds(now, old(last)), v, coarse, d, num,
                            PointerSample(pointer.active && motionOK, pointer.x, pointer.y), now, passes, grid.value)
    {
      if !FrameDrawn(cfg, running, documentVisible) {
        return None;
      }
      var ptr := PointerSample(pointer.active && motionOK, pointer.x, pointer.y);
      var next, cells := RenderFrame(cfg, passes, FrameSeconds(now, last), v, coarse, d, num, ptr, now);
      last, passes := now, next;
      grid := Some(cells);
    }
  }
}
