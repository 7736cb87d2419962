/**
 * The sweep passes of the grid shimmer and the rules of one animation frame:
 * advance, spawn one successor inside the overlap window, retire passes that have
 * left the viewport's projected extent plus a margin.
 */
module Sweep {
  import opened JsMath
  import opened Color

  /** `speed = diag · 0.09` (viewport diagonals per second). */
  const SpeedFactor: real := 0.09
  /** `hueT` reaches 1 after 0.6 s. */
  const FadeSeconds: real := 0.6
  /** `OVERLAP_SEC`: the successor starts this long before the current pass exits. */
  const OverlapSeconds: real := 1.5

  /** A pass position: `Number.NEGATIVE_INFINITY` until the first frame places it. */
  datatype Pos = NegInfinity | Finite(value: real) {

    /** `pos + d`; −∞ absorbs any finite step. */
    function Plus(d: real): Pos {
      match this
      case NegInfinity => NegInfinity
      case Finite(v) => Finite(v + d)
    }

    /** `pos > line`, which is false for −∞. */
    predicate Beyond(line: real) {
      Finite? && value > line
    }
  }

  /**
   * One sweep pass. The source keeps `angle` and calls `Math.cos`/`Math.sin` on it;
   * the model keeps the direction (`ux`, `uy`) = (cos angle, sin angle) instead.
   */
  datatype Pass = Pass(ux: real, uy: real, pos: Pos, hueFrom: real, hueTo: real, hueT: real)

  /**
   * The random inputs one `spawnPass` (or the initial pass) consumes: the direction of
   * `randomAngle()`, then the coin and the offset of each `randomBlueYellowHue()`.
   */
  datatype Draw = Draw(ux: real, uy: real, coinFrom: real, uFrom: real, coinTo: real, uTo: real)

  /** `Math.random()` lies in [0, 1); a cosine and a sine lie in [−1, 1]. */
  predicate DrawOk(d: Draw) {
    && -1.0 <= d.ux <= 1.0 && -1.0 <= d.uy <= 1.0
    && 0.0 <= d.coinFrom < 1.0 && 0.0 <= d.uFrom < 1.0
    && 0.0 <= d.coinTo < 1.0 && 0.0 <= d.uTo < 1.0
  }

  /** The per-frame quantities the lifecycle uses: viewport size, `speed` and `margin`. */
  datatype Extent = Extent(w: real, h: real, speed: real, margin: real)

  predicate ExtentOk(e: Extent) {
    e.w >= 0.0 && e.h >= 0.0 && e.speed >= 0.0 && e.margin >= 0.0
  }

  /** `projs`: the four viewport corners projected on the direction (ux, uy). */
  function Projections(ux: real, uy: real, w: real, h: real): seq<real> {
    [0.0 * ux + 0.0 * uy, w * ux + 0.0 * uy, 0.0 * ux + h * uy, w * ux + h * uy]
  }

  /** `Math.min(...projs)`. Corner (0, 0) projects to 0, so the minimum is never positive. */
  function MinProj(ux: real, uy: real, w: real, h: real): (m: real)
    ensures m in Projections(ux, uy, w, h)
    ensures forall k :: 0 <= k < 4 ==> m <= Projections(ux, uy, w, h)[k]
    ensures m <= 0.0
  {
    var projs := Projections(ux, uy, w, h);
    Min(Min(projs[0], projs[1]), Min(projs[2], projs[3]))
  }

  /** `Math.max(...projs)`: never negative, for the same reason. */
  function MaxProj(ux: real, uy: real, w: real, h: real): (m: real)
    ensures m in Projections(ux, uy, w, h)
    ensures forall k :: 0 <= k < 4 ==> Projections(ux, uy, w, h)[k] <= m
    ensures m >= 0.0
  {
    var projs := Projections(ux, uy, w, h);
    Max(Max(projs[0], projs[1]), Max(projs[2], projs[3]))
  }

  /** `maxProj + margin` for the pass's own direction: past it the pass is removed. */
  function ExitLine(p: Pass, e: Extent): real {
    MaxProj(p.ux, p.uy, e.w, e.h) + e.margin
  }

  /** The retire test `p.pos > maxProj + margin`. */
  predicate Exited(p: Pass, e: Extent) {
    p.pos.Beyond(ExitLine(p, e))
  }

  /** The spawn test's position part, `p.pos > maxProj + margin − speed · OVERLAP_SEC`. */
  predicate Overlapping(p: Pass, e: Extent) {
    p.pos.Beyond(ExitLine(p, e) - e.speed * OverlapSeconds)
  }

  /** The spawn threshold is `speed · 1.5 ≥ 0` below the exit line, so an exited pass is also overlapping. */
  lemma ExitedIsOverlapping(p: Pass, e: Extent)
    requires e.speed >= 0.0
    ensures Exited(p, e) ==> Overlapping(p, e)
  {
  }

  /**
   * One frame's update of a pass: `p.pos += speed * dt` and
   * `p.hueT = Math.min(1, p.hueT + dt / 0.6)`.
   */
  function After(p: Pass, speed: real, dt: real): (q: Pass)
    ensures q.ux == p.ux && q.uy == p.uy && q.hueFrom == p.hueFrom && q.hueTo == p.hueTo
    ensures q.pos == p.pos.Plus(speed * dt)
    ensures q.hueT <= 1.0
    ensures dt >= 0.0 && p.hueT <= 1.0 ==> p.hueT <= q.hueT
    ensures q.hueT < 1.0 <==> p.hueT + dt / FadeSeconds < 1.0
    ensures q.hueT < 1.0 ==> q.hueT == p.hueT + dt / FadeSeconds
    ensures p.hueT + dt / FadeSeconds >= 1.0 ==> q.hueT == 1.0
  {
    p.(pos := p.pos.Plus(speed * dt)).(hueT := Min(1.0, p.hueT + dt / FadeSeconds))
  }

  /**
   * Frame-rate independence: two frames of `d1` and `d2` seconds move a pass exactly as
   * one frame of `d1 + d2` does, and `hueT` saturates the same way.
   */
  lemma AfterComposes(p: Pass, speed: real, d1: real, d2: real)
    requires d1 >= 0.0 && d2 >= 0.0 && p.hueT <= 1.0
    ensures After(After(p, speed, d1), speed, d2) == After(p, speed, d1 + d2)
  {
    assert speed * d1 + speed * d2 == speed * (d1 + d2);
    assert d1 / FadeSeconds + d2 / FadeSeconds == (d1 + d2) / FadeSeconds;
  }

  /** The initial pass: fully faded in (`hueT = 1`) and not yet placed (`pos = −∞`). */
  function InitialPass(d: Draw): (p: Pass)
    requires DrawOk(d)
    ensures p.pos == NegInfinity && p.hueT == 1.0
    ensures HueInRange(p.hueFrom) && HueInRange(p.hueTo)
  {
    Pass(d.ux, d.uy, NegInfinity,
         RandomBlueYellowHue(d.coinFrom, d.uFrom), RandomBlueYellowHue(d.coinTo, d.uTo), 1.0)
  }

  /**
   * `spawnPass(w, h, margin)`: a new pass just before the leading edge of the viewport
   * for its own direction, with both hues in the palette and its fade at 0.
   */
  function Spawn(d: Draw, e: Extent): (p: Pass)
    requires DrawOk(d)
    ensures p.ux == d.ux && p.uy == d.uy
    ensures p.pos == Finite(MinProj(d.ux, d.uy, e.w, e.h) - e.margin)
    ensures p.pos.value <= -e.margin
    ensures p.hueT == 0.0
    ensures HueInRange(p.hueFrom) && HueInRange(p.hueTo)
    ensures e.margin >= 0.0 ==> !Exited(p, e)
  {
    Pass(d.ux, d.uy, Finite(MinProj(d.ux, d.uy, e.w, e.h) - e.margin),
         RandomBlueYellowHue(d.coinFrom, d.uFrom), RandomBlueYellowHue(d.coinTo, d.uTo), 0.0)
  }

  /** Every pass after one frame's `After`, in the same order. */
  function Advanced(ps: seq<Pass>, speed: real, dt: real): (qs: seq<Pass>)
    ensures |qs| == |ps|
    ensures forall i :: 0 <= i < |ps| ==> qs[i] == After(ps[i], speed, dt)
  {
    seq(|ps|, i requires 0 <= i < |ps| => After(ps[i], speed, dt))
  }

  /** The passes that are not past their exit line, in their original order. */
  function Survivors(qs: seq<Pass>, e: Extent): (r: seq<Pass>)
    ensures |r| <= |qs|
    ensures forall p :: p in r ==> p in qs && !Exited(p, e)
    ensures forall q :: q in qs && !Exited(q, e) ==> q in r
    ensures r == [] <==> forall k :: 0 <= k < |qs| ==> Exited(qs[k], e)
  {
    if qs == [] then []
    else
      var rest := Survivors(qs[1..], e);
      assert forall q :: q in qs ==> q == qs[0] || q in qs[1..];
      assert forall k :: 1 <= k < |qs| ==> qs[k] == qs[1..][k - 1];
      (if Exited(qs[0], e) then [] else [qs[0]]) + rest
  }

  /** The filter keeps a lone pass exactly when it has not exited. */
  lemma SurvivorsSingle(p: Pass, e: Extent)
    ensures Survivors([p], e) == (if Exited(p, e) then [] else [p])
  {
    assert [p][1..] == [];
  }

  /**
   * The filter distributes over concatenation. With `SurvivorsSingle` this pins it down:
   * the kept passes keep their order and their multiplicity.
   */
  lemma {:induction false} SurvivorsAppend(a: seq<Pass>, b: seq<Pass>, e: Extent)
    ensures Survivors(a + b, e) == Survivors(a, e) + Survivors(b, e)
  {
    if a != [] {
      assert (a + b)[0] == a[0];
      assert (a + b)[1..] == a[1..] + b;
      SurvivorsAppend(a[1..], b, e);
    } else {
      assert a + b == b;
    }
  }

  /**
   * Whether this frame spawns. The reverse loop visits the oldest pass (index 0) last;
   * any earlier visit sees at least two passes, so only the oldest can trigger a spawn,
   * and only when every newer pass has been removed this frame.
   */
  predicate SpawnDue(qs: seq<Pass>, e: Extent) {
    |qs| > 0 && Overlapping(qs[0], e) && Survivors(qs[1..], e) == []
  }

  /** The pass list after one frame: the advanced survivors, then at most one new pass. */
  function NextPasses(ps: seq<Pass>, e: Extent, dt: real, d: Draw): seq<Pass>
    requires DrawOk(d)
  {
    var qs := Advanced(ps, e.speed, dt);
    Survivors(qs, e) + (if SpawnDue(qs, e) then [Spawn(d, e)] else [])
  }

  /**
   * The lazy placement of the initial pass: while it is the only pass and its position is
   * not finite, it is moved to `minProj − margin` for its direction.
   */
  function ResolveFirst(ps: seq<Pass>, e: Extent): (rs: seq<Pass>)
    ensures |rs| == |ps|
    ensures |ps| == 1 && ps[0].pos.NegInfinity? ==>
              rs == [ps[0].(pos := Finite(MinProj(ps[0].ux, ps[0].uy, e.w, e.h) - e.margin))]
    ensures !(|ps| == 1 && ps[0].pos.NegInfinity?) ==> rs == ps
  {
    if |ps| == 1 && ps[0].pos.NegInfinity? then
      [ps[0].(pos := Finite(MinProj(ps[0].ux, ps[0].uy, e.w, e.h) - e.margin))]
    else ps
  }

  /** A pass's own invariant: fade in [0, 1], both hues in the palette, a bounded direction. */
  predicate PassOk(p: Pass) {
    && 0.0 <= p.hueT <= 1.0
    && HueInRange(p.hueFrom) && HueInRange(p.hueTo)
    && -1.0 <= p.ux <= 1.0 && -1.0 <= p.uy <= 1.0
  }

  /** The invariant of the pass list: one or two passes, and −∞ only on a lone pass. */
  predicate Lifecycle(ps: seq<Pass>) {
    && 1 <= |ps| <= 2
    && (forall i :: 0 <= i < |ps| ==> PassOk(ps[i]))
    && (forall i :: 0 <= i < |ps| && ps[i].pos.NegInfinity? ==> |ps| == 1)
  }

  /** The position a frame gives the initial pass is at most `−margin`. */
  lemma {:induction false} ResolvedStartsBeforeViewport(ps: seq<Pass>, e: Extent)
    requires |ps| == 1 && ps[0].pos.NegInfinity?
    ensures ResolveFirst(ps, e)[0].pos.Finite?
    ensures ResolveFirst(ps, e)[0].pos.value <= -e.margin
    ensures ResolveFirst(ps, e)[0].hueT == ps[0].hueT
  {
  }

  /**
   * The pass count stays in {1, 2}: a spawn needs the newer passes gone, and a lone pass
   * that exits has passed the (lower) spawn threshold too, so it is always replaced.
   */
  lemma CountStaysOneOrTwo(ps: seq<Pass>, e: Extent, dt: real, d: Draw)
    requires 1 <= |ps| <= 2 && e.speed >= 0.0 && DrawOk(d)
    ensures 1 <= |NextPasses(ps, e, dt, d)| <= 2
  {
    var qs := Advanced(ps, e.speed, dt);
    ExitedIsOverlapping(qs[0], e);
    assert qs == [qs[0]] + qs[1..];
    if |qs| == 2 {
      assert qs[1..] == [qs[1]];
    }
  }

  /** No pass is ever kept past its own exit line: an exited pass is removed in the same frame. */
  lemma NothingPastExitLine(ps: seq<Pass>, e: Extent, dt: real, d: Draw)
    requires ExtentOk(e) && DrawOk(d)
    ensures forall p :: p in NextPasses(ps, e, dt, d) ==> !Exited(p, e)
  {
  }

  /**
   * Every pass after a frame is either the one new pass or an old pass advanced by one
   * frame; at most one pass is new.
   */
  lemma NextPassesOrigin(ps: seq<Pass>, e: Extent, dt: real, d: Draw)
    requires DrawOk(d)
    ensures forall p :: p in NextPasses(ps, e, dt, d) ==> p == Spawn(d, e) || p in Advanced(ps, e.speed, dt)
    ensures |NextPasses(ps, e, dt, d)| <= |Advanced(ps, e.speed, dt)| + 1
    ensures var s := Survivors(Advanced(ps, e.speed, dt), e);
            var next := NextPasses(ps, e, dt, d);
            && |s| <= |next| <= |s| + 1
            && next[..|s|] == s
            && (|next| == |s| + 1 ==> next[|s|] == Spawn(d, e))
  {
    var s := Survivors(Advanced(ps, e.speed, dt), e);
    var next := NextPasses(ps, e, dt, d);
    assert next[..|s|] == s;
  }

  /** After the lazy placement every pass is finite and keeps its own invariant. */
  lemma ResolvedPassesOk(ps: seq<Pass>, e: Extent)
    requires Lifecycle(ps)
    ensures forall i :: 0 <= i < |ResolveFirst(ps, e)| ==>
              PassOk(ResolveFirst(ps, e)[i]) && ResolveFirst(ps, e)[i].pos.Finite?
  {
  }

  /** A frame's advance keeps every pass finite and within its own invariant. */
  lemma AdvancedPassesOk(rs: seq<Pass>, speed: real, dt: real)
    requires dt >= 0.0
    requires forall i :: 0 <= i < |rs| ==> PassOk(rs[i]) && rs[i].pos.Finite?
    ensures forall q :: q in Advanced(rs, speed, dt) ==> PassOk(q) && q.pos.Finite?
  {
  }

  /** A frame keeps the lifecycle invariant, and afterwards no pass is at −∞. */
  lemma FrameKeepsLifecycle(ps: seq<Pass>, e: Extent, dt: real, d: Draw)
    requires Lifecycle(ps) && ExtentOk(e) && dt >= 0.0 && DrawOk(d)
    ensures Lifecycle(NextPasses(ResolveFirst(ps, e), e, dt, d))
    ensures forall p :: p in NextPasses(ResolveFirst(ps, e), e, dt, d) ==> p.pos.Finite?
  {
    var rs := ResolveFirst(ps, e);
    var next := NextPasses(rs, e, dt, d);
    CountStaysOneOrTwo(rs, e, dt, d);
    NextPassesOrigin(rs, e, dt, d);
    ResolvedPassesOk(ps, e);
    AdvancedPassesOk(rs, e.speed, dt);
    assert forall p :: p in next ==> PassOk(p) && p.pos.Finite?;
    assert forall i :: 0 <= i < |next| ==> next[i] in next;
  }

  /** Once the lone pass passes the spawn threshold its successor appears in the same frame. */
  lemma LonePassSpawnsOnThreshold(p: Pass, e: Extent, dt: real, d: Draw)
    requires DrawOk(d)
    ensures var q := After(p, e.speed, dt);
            Overlapping(q, e) <==> NextPasses([p], e, dt, d) == Survivors([q], e) + [Spawn(d, e)]
  {
    var qs := Advanced([p], e.speed, dt);
    assert qs == [After(p, e.speed, dt)];
    assert qs[1..] == [];
  }

  /** While two passes are live the newer one blocks every spawn. */
  lemma NoSpawnWhileNewerSurvives(ps: seq<Pass>, e: Extent, dt: real, d: Draw)
    requires DrawOk(d) && |ps| == 2 && !Exited(After(ps[1], e.speed, dt), e)
    ensures NextPasses(ps, e, dt, d) == Survivors(Advanced(ps, e.speed, dt), e)
  {
    var qs := Advanced(ps, e.speed, dt);
    assert qs[1..] == [qs[1]];
    assert qs[1] in qs[1..];
  }
}
