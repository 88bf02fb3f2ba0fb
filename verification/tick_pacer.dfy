/**
 How host frame times become runtime ticks (bridge/godot_extension/src/RuntimeTickPacer.h and the
 tick of aether_runtime_player.cpp), over the reals. A delta that is not finite is `None`.
 */
module TickPacer {
  import opened Common

  const FRAME: real := 1.0 / 60.0
  const EPSILON: real := 1.0 / 1000000000.0
  const MAXIMUM: int := 0xFFFF_FFFF

  function Accepted(delta: Option<real>): (d: real)
    ensures d >= 0.0
  {
    if delta.Some? && delta.value > 0.0 then delta.value else 0.0
  }

  /** The pacer's two fields, and what has gone in and come out of it: seconds, ticks, and frame boundaries passed. */
  datatype Pace = Pace(phase: real, pending: real, accepted: real, emitted: real, ticks: nat, frames: nat) {

    function Advance(delta: Option<real>): Pace {
      var d := Accepted(delta);
      if d == 0.0 then this
      else
        var completed := ((phase + d + EPSILON) / FRAME).Floor;
        if completed < 1 then Pace(phase + d, pending + d, accepted + d, emitted, ticks, frames)
        else
          var left := phase + d - completed as real * FRAME;
          Pace(if left < 0.0 then 0.0 else left, 0.0, accepted + d, emitted + (pending + d), ticks + 1, frames + completed)
    }
  }

  const FRESH_PACE := Pace(0.0, 0.0, 0.0, 0.0, 0, 0)

  class ArtemisLogicalFramePacer {
    var phaseSeconds: real
    var pendingSeconds: real
    ghost var accepted: real
    ghost var emitted: real
    ghost var ticks: nat
    ghost var frames: nat

    constructor ()
      ensures View() == FRESH_PACE
    {
      phaseSeconds, pendingSeconds := 0.0, 0.0;
      accepted, emitted, ticks, frames := 0.0, 0.0, 0, 0;
    }

    ghost function View(): Pace
      reads this
    {
      Pace(phaseSeconds, pendingSeconds, accepted, emitted, ticks, frames)
    }

    method Advance(delta: Option<real>) returns (step: Option<real>)
      modifies this
      ensures View() == old(View()).Advance(delta)
      ensures step.Some? <==> ticks == old(ticks) + 1
      ensures step.Some? ==> emitted == old(emitted) + step.value
      ensures step.None? ==> emitted == old(emitted)
    {
      if delta.None? || delta.value <= 0.0 {
        return None;
      }
      phaseSeconds := phaseSeconds + delta.value;
      pendingSeconds := pendingSeconds + delta.value;
      accepted := accepted + delta.value;
      var completedFrames := ((phaseSeconds + EPSILON) / FRAME).Floor;
      if completedFrames < 1 {
        return None;
      }
      phaseSeconds := phaseSeconds - completedFrames as real * FRAME;
      if phaseSeconds < 0.0 {
        phaseSeconds := 0.0;
      }
      step := Some(pendingSeconds);
      pendingSeconds := 0.0;
      emitted, ticks, frames := emitted + step.value, ticks + 1, frames + completedFrames;
    }

    method Reset()
      modifies this
      ensures View() == FRESH_PACE
    {
      phaseSeconds, pendingSeconds := 0.0, 0.0;
      accepted, emitted, ticks, frames := 0.0, 0.0, 0, 0;
    }
  }

  // ---------------------------------------------------------------- the pacer over whole runs

  function Paced(deltas: seq<Option<real>>): Pace
    decreases |deltas|
  {
    if deltas == [] then FRESH_PACE else Paced(deltas[..|deltas| - 1]).Advance(deltas[|deltas| - 1])
  }

  /** All accepted time is either handed on or pending; less than a frame is; each tick shifts the grid by at most EPSILON. */
  predicate PaceInv(p: Pace) {
    && p.emitted + p.pending == p.accepted
    && 0.0 <= p.pending <= p.phase < FRAME - EPSILON
    && p.accepted <= p.phase + p.frames as real * FRAME <= p.accepted + p.ticks as real * EPSILON
    && p.ticks <= p.frames
  }

  lemma FloorBounds(x: real)
    ensures x.Floor as real <= x < (x.Floor + 1) as real
  {
  }

  lemma AdvanceKeepsInv(p: Pace, delta: Option<real>)
    requires PaceInv(p)
    ensures PaceInv(p.Advance(delta))
    ensures delta.Some? && delta.value <= FRAME && p.ticks == p.frames ==> p.Advance(delta).ticks == p.Advance(delta).frames
  {
    FloorBounds((p.phase + Accepted(delta) + EPSILON) / FRAME);
  }

  lemma {:induction false} RunKeepsPaceInv(deltas: seq<Option<real>>)
    ensures PaceInv(Paced(deltas))
    decreases |deltas|
  {
    hide Pace.Advance, PaceInv;
    if deltas == [] {
      FreshPaceInv();
    } else {
      RunKeepsPaceInv(deltas[..|deltas| - 1]);
      AdvanceKeepsInv(Paced(deltas[..|deltas| - 1]), deltas[|deltas| - 1]);
    }
  }

  lemma FreshPaceInv()
    ensures PaceInv(FRESH_PACE)
  {
  }

  /** The host time a run of calls brings in. */
  function Total(deltas: seq<Option<real>>): real
    decreases |deltas|
  {
    if deltas == [] then 0.0 else Total(deltas[..|deltas| - 1]) + Accepted(deltas[|deltas| - 1])
  }

  lemma {:induction false} AcceptedIsTotal(deltas: seq<Option<real>>)
    ensures Paced(deltas).accepted == Total(deltas)
    decreases |deltas|
  {
    if deltas != [] {
      AcceptedIsTotal(deltas[..|deltas| - 1]);
    }
  }

  /** No host time is lost or invented, and less than a frame of it is ever held back. */
  lemma TimeIsConserved(deltas: seq<Option<real>>)
    ensures
      var p := Paced(deltas);
      p.emitted + p.pending == Total(deltas) &&
      0.0 <= p.pending < 1.0 / 60.0 - 0.000000001 && 0.0 <= p.phase < 1.0 / 60.0 - 0.000000001
  {
    RunKeepsPaceInv(deltas);
    AcceptedIsTotal(deltas);
  }

  /** Whatever the host does, the runtime never ticks faster than 60 times a second, up to EPSILON a tick. */
  lemma NeverTooFast(deltas: seq<Option<real>>)
    ensures
      var n := Paced(deltas).ticks as real;
      n / 60.0 <= Total(deltas) + n * 0.000000001
  {
    RunKeepsPaceInv(deltas);
    AcceptedIsTotal(deltas);
  }

  /** A delta is a tick exactly if it is positive and takes the phase to a sixtieth of a second, up to a nanosecond. */
  lemma TicksAtBoundary(p: Pace, delta: Option<real>)
    requires PaceInv(p)
    ensures var d := if delta.Some? then delta.value else 0.0;
            p.Advance(delta).ticks == p.ticks + (if d > 0.0 && p.phase + d >= 1.0 / 60.0 - 0.000000001 then 1 else 0) &&
            p.Advance(delta).accepted == p.accepted + (if d > 0.0 then d else 0.0)
  {
    var d := Accepted(delta);
    FloorBounds((p.phase + d + EPSILON) / FRAME);
    assert (p.phase + d + EPSILON) / FRAME >= 1.0 <==> p.phase + d + EPSILON >= FRAME;
  }

  lemma {:induction false} NoBoundarySkipped(deltas: seq<Option<real>>)
    requires forall i | 0 <= i < |deltas| :: deltas[i].Some? ==> deltas[i].value <= FRAME
    ensures Paced(deltas).ticks == Paced(deltas).frames
    decreases |deltas|
  {
    hide Pace.Advance, PaceInv;
    if deltas != [] {
      NoBoundarySkipped(deltas[..|deltas| - 1]);
      RunKeepsPaceInv(deltas[..|deltas| - 1]);
      AdvanceKeepsInv(Paced(deltas[..|deltas| - 1]), deltas[|deltas| - 1]);
      if deltas[|deltas| - 1].None? {
        RejectedDeltaChangesNothing(Paced(deltas[..|deltas| - 1]));
      }
    }
  }

  lemma RejectedDeltaChangesNothing(p: Pace)
    ensures p.Advance(None) == p
  {
  }

  /** A host that is never slower than the logical frame rate gets a tick for every frame of its time. */
  lemma TickRate(deltas: seq<Option<real>>)
    requires forall i | 0 <= i < |deltas| :: deltas[i].Some? ==> deltas[i].value <= 1.0 / 60.0
    ensures
      var n := Paced(deltas).ticks as real;
      Total(deltas) - 1.0 / 60.0 < n / 60.0 <= Total(deltas) + n * 0.000000001
  {
    NoBoundarySkipped(deltas);
    RunKeepsPaceInv(deltas);
    AcceptedIsTotal(deltas);
  }

  // ---------------------------------------------------------------- milliseconds

  /** Rounds to the nearest integer, halves away from zero. */
  function Round(x: real): (n: int)
    ensures x >= 0.0 ==> n as real - 0.5 <= x < n as real + 0.5
    ensures x < 0.0 ==> n as real - 0.5 < x <= n as real + 0.5
  {
    if x >= 0.0 then (x + 0.5).Floor else -((0.5 - x).Floor)
  }

  function Clamp(x: int, low: int, high: int): int {
    if x < low then low else if x > high then high else x
  }

  /** The quantizer's remainder; what it was given and has put out in milliseconds, and what saturation has cut off. */
  datatype Ticks = Ticks(remainder: real, given: real, sent: nat, cut: real) {

    function Quantize(delta: Option<real>): Ticks {
      var d := Accepted(delta);
      if d == 0.0 then this
      else
        var exact := d * 1000.0 + remainder;
        if exact >= MAXIMUM as real then Ticks(0.0, given + d * 1000.0, sent + MAXIMUM, cut + (exact - MAXIMUM as real))
        else
          var result := Clamp(Round(exact), 0, MAXIMUM);
          Ticks(exact - Round(exact) as real, given + d * 1000.0, sent + result, cut)
    }
  }

  const FRESH_TICKS := Ticks(0.0, 0.0, 0, 0.0)

  class RuntimeTickMillisecondQuantizer {
    var remainderMilliseconds: real
    ghost var given: real
    ghost var sent: nat
    ghost var cut: real

    constructor ()
      ensures View() == FRESH_TICKS
    {
      remainderMilliseconds := 0.0;
      given, sent, cut := 0.0, 0, 0.0;
    }

    ghost function View(): Ticks
      reads this
    {
      Ticks(remainderMilliseconds, given, sent, cut)
    }

    method Quantize(delta: Option<real>) returns (result: nat)
      modifies this
      ensures View() == old(View()).Quantize(delta)
      ensures sent == old(sent) + result && result <= MAXIMUM
    {
      if delta.None? || delta.value <= 0.0 {
        return 0;
      }
      var exactMilliseconds := delta.value * 1000.0 + remainderMilliseconds;
      given := given + delta.value * 1000.0;
      if exactMilliseconds >= MAXIMUM as real {
        remainderMilliseconds := 0.0;
        sent, cut := sent + MAXIMUM, cut + (exactMilliseconds - MAXIMUM as real);
        return MAXIMUM;
      }
      var roundedMilliseconds := Round(exactMilliseconds);
      result := Clamp(roundedMilliseconds, 0, MAXIMUM);
      remainderMilliseconds := exactMilliseconds - roundedMilliseconds as real;
      sent := sent + result;
    }

    method Reset()
      modifies this
      ensures View() == FRESH_TICKS
    {
      remainderMilliseconds := 0.0;
      given, sent, cut := 0.0, 0, 0.0;
    }
  }

  function Quantized(deltas: seq<Option<real>>): Ticks
    decreases |deltas|
  {
    if deltas == [] then FRESH_TICKS else Quantized(deltas[..|deltas| - 1]).Quantize(deltas[|deltas| - 1])
  }

  /** What has come in is what has gone out, what saturation cut off, and a remainder of at most half a millisecond. */
  predicate TicksInv(t: Ticks) {
    t.given == t.sent as real + t.cut + t.remainder && -0.5 <= t.remainder <= 0.5 && t.cut >= 0.0
  }

  /** The rounded value is always within the range of the result, so that clamping it changes nothing. */
  lemma ClampIsIdle(t: Ticks, delta: Option<real>)
    requires TicksInv(t) && Accepted(delta) > 0.0 && Accepted(delta) * 1000.0 + t.remainder < MAXIMUM as real
    ensures
      var rounded := Round(Accepted(delta) * 1000.0 + t.remainder);
      0 <= rounded <= MAXIMUM && Clamp(rounded, 0, MAXIMUM) == rounded
  {
    FloorBounds(0.5 - (Accepted(delta) * 1000.0 + t.remainder));
  }

  lemma QuantizeKeepsInv(t: Ticks, delta: Option<real>)
    requires TicksInv(t)
    ensures TicksInv(t.Quantize(delta))
  {
    if Accepted(delta) > 0.0 && Accepted(delta) * 1000.0 + t.remainder < MAXIMUM as real {
      ClampIsIdle(t, delta);
    }
  }

  /** A delta puts out the nearest number of milliseconds, or all that 32 bits hold, and what it does not is kept or cut off. */
  lemma QuantizeOutcome(t: Ticks, delta: Option<real>)
    requires TicksInv(t)
    ensures var exact := Accepted(delta) * 1000.0 + t.remainder;
            var t' := t.Quantize(delta);
            if Accepted(delta) == 0.0 then t' == t
            else if exact >= 4294967295.0 then
              t'.sent == t.sent + 4294967295 && t'.remainder == 0.0 && t'.cut == t.cut + (exact - 4294967295.0)
            else
              t'.cut == t.cut && t'.remainder == exact - (t'.sent - t.sent) as real && -0.5 <= t'.remainder <= 0.5
  {
    if Accepted(delta) > 0.0 && Accepted(delta) * 1000.0 + t.remainder < MAXIMUM as real {
      ClampIsIdle(t, delta);
    }
  }

  lemma {:induction false} RunKeepsTicksInv(deltas: seq<Option<real>>)
    ensures TicksInv(Quantized(deltas)) && Quantized(deltas).given == 1000.0 * Total(deltas)
    decreases |deltas|
  {
    hide TicksInv;
    if deltas == [] {
      FreshTicksInv();
    } else {
      RunKeepsTicksInv(deltas[..|deltas| - 1]);
      QuantizeKeepsInv(Quantized(deltas[..|deltas| - 1]), deltas[|deltas| - 1]);
    }
  }

  lemma FreshTicksInv()
    ensures TicksInv(FRESH_TICKS)
  {
  }

  /**
   However many ticks there are, the milliseconds put out stay within half a millisecond of the
   time that came in, less what saturation cut off.
   */
  lemma MillisecondsDoNotDrift(deltas: seq<Option<real>>)
    ensures
      var t := Quantized(deltas);
      -0.5 <= 1000.0 * Total(deltas) - t.cut - t.sent as real <= 0.5 && t.cut >= 0.0
  {
    RunKeepsTicksInv(deltas);
  }

  /** Ticks short of 2^32 milliseconds lose nothing: the output never drifts from the input by more than half a millisecond. */
  lemma {:induction false} ShortTicksAreNotCut(deltas: seq<Option<real>>)
    requires forall i | 0 <= i < |deltas| :: Accepted(deltas[i]) * 1000.0 <= 4294967295.0 - 0.5
    ensures Quantized(deltas).cut == 0.0
    ensures -0.5 <= 1000.0 * Total(deltas) - Quantized(deltas).sent as real <= 0.5
    decreases |deltas|
  {
    if deltas != [] {
      ShortTicksAreNotCut(deltas[..|deltas| - 1]);
      RunKeepsTicksInv(deltas[..|deltas| - 1]);
    }
    MillisecondsDoNotDrift(deltas);
  }

  // ---------------------------------------------------------------- pacer and quantizer together

  datatype Pair = Pair(pace: Pace, ticks: Ticks) {

    /** One host tick of a game whose frames are paced; the engine is ticked only when a frame boundary is passed. */
    function Tick(delta: Option<real>): Pair {
      var next := pace.Advance(delta);
      if next.ticks == pace.ticks then Pair(next, ticks)
      else Pair(next, ticks.Quantize(Some(next.emitted - pace.emitted)))
    }
  }

  class RuntimePlayer {
    const pacer: ArtemisLogicalFramePacer
    const quantizer: RuntimeTickMillisecondQuantizer
    const artemisLogicalFramePacing: bool

    constructor (pacing: bool)
      ensures fresh(pacer) && fresh(quantizer) && artemisLogicalFramePacing == pacing
      ensures pacer.View() == FRESH_PACE && quantizer.View() == FRESH_TICKS
    {
      pacer := new ArtemisLogicalFramePacer();
      quantizer := new RuntimeTickMillisecondQuantizer();
      artemisLogicalFramePacing := pacing;
    }

    ghost function View(): Pair
      reads pacer, quantizer
    {
      Pair(pacer.View(), quantizer.View())
    }

    /** What `engine_tick` is called with, if it is called. */
    method Tick(delta: Option<real>) returns (deltaMs: Option<nat>)
      modifies pacer, quantizer
      ensures artemisLogicalFramePacing ==> View() == old(View()).Tick(delta)
      ensures artemisLogicalFramePacing ==> (deltaMs.Some? <==> pacer.ticks == old(pacer.ticks) + 1)
      ensures !artemisLogicalFramePacing ==> View() == Pair(old(pacer.View()), old(quantizer.View()).Quantize(delta)) && deltaMs.Some?
      ensures quantizer.sent == old(quantizer.sent) + if deltaMs.Some? then deltaMs.value else 0
    {
      var runtimeDelta := if delta.Some? && delta.value < 0.0 then Some(0.0) else delta;
      if artemisLogicalFramePacing {
        var step := pacer.Advance(runtimeDelta);
        if step.None? {
          return None;
        }
        runtimeDelta := step;
      }
      var ms := quantizer.Quantize(runtimeDelta);
      deltaMs := Some(ms);
    }
  }

  function Played(deltas: seq<Option<real>>): Pair
    decreases |deltas|
  {
    if deltas == [] then Pair(FRESH_PACE, FRESH_TICKS) else Played(deltas[..|deltas| - 1]).Tick(deltas[|deltas| - 1])
  }

  lemma TickHandsOnEmitted(p: Pair, delta: Option<real>)
    requires PaceInv(p.pace) && TicksInv(p.ticks) && p.ticks.given == 1000.0 * p.pace.emitted
    ensures
      var p' := p.Tick(delta);
      p'.pace == p.pace.Advance(delta) && TicksInv(p'.ticks) && p'.ticks.given == 1000.0 * p'.pace.emitted
  {
    var next := p.pace.Advance(delta);
    if next.ticks != p.pace.ticks {
      QuantizeKeepsInv(p.ticks, Some(next.emitted - p.pace.emitted));
    }
  }

  lemma {:induction false} PlayedHandsOnEmitted(deltas: seq<Option<real>>)
    ensures
      var p := Played(deltas);
      p.pace == Paced(deltas) && TicksInv(p.ticks) && p.ticks.given == 1000.0 * p.pace.emitted
    decreases |deltas|
  {
    hide TicksInv, PaceInv, Pair.Tick, Pace.Advance;
    if deltas == [] {
      FreshTicksInv();
    } else {
      PlayedHandsOnEmitted(deltas[..|deltas| - 1]);
      RunKeepsPaceInv(deltas[..|deltas| - 1]);
      TickHandsOnEmitted(Played(deltas[..|deltas| - 1]), deltas[|deltas| - 1]);
    }
  }

  /**
   Through pacer and quantizer the runtime's clock follows the host's: apart from what saturation
   cut off it is never more than half a millisecond ahead, and less than a frame and half a
   millisecond behind.
   */
  lemma RuntimeClockFollowsHost(deltas: seq<Option<real>>)
    ensures
      var t := Played(deltas).ticks;
      -0.5 <= 1000.0 * Total(deltas) - t.cut - t.sent as real < 1000.0 / 60.0 + 0.5
  {
    PlayedHandsOnEmitted(deltas);
    TimeIsConserved(deltas);
  }
}
