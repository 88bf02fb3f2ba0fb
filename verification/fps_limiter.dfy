/**
 The frame limiter of the KiriKiri tick (bridge/krkr2_runtime/src/krkr2_legacy_engine_api.cpp,
 `engine_tick` and the fps option in `engine_set_option`).

 Clock readings are nanoseconds of a steady clock; the frame interval is whole microseconds.
 A tick that passes the limiter is called rendered.
 */
module FpsLimiter {

  /** The limiter with a limit set: interval in microseconds, and the frame deadline it counts from. */
  datatype Limiter = Limiter(interval: nat, initialized: bool, last: int) {

    predicate Skips(now: int) {
      initialized && (now - last) / 1000 < interval
    }

    /** The deadline moves by one interval, or to `now` when that is more than an interval behind. */
    function Tick(now: int): Limiter {
      if Skips(now) then this
      else if !initialized then Limiter(interval, true, now)
      else
        var ideal := last + 1000 * interval;
        Limiter(interval, true, if now - ideal > 1000 * interval then now else ideal)
    }
  }

  /** A freshly set limit. */
  function Fresh(interval: nat): Limiter { Limiter(interval, false, 0) }

  class FpsLimitState {
    var limit: nat
    var intervalUs: nat
    var lastRenderTime: int
    var initialized: bool

    constructor ()
      ensures limit == 0 && View() == Fresh(0)
    {
      limit, intervalUs, lastRenderTime, initialized := 0, 0, 0, false;
    }

    function View(): Limiter
      reads this
    {
      Limiter(intervalUs, initialized, if initialized then lastRenderTime else 0)
    }

    method SetLimit(fps: int)
      modifies this
      ensures limit == (if fps > 0 then fps else 0)
      ensures View() == Fresh(if fps > 0 then 1000000 / fps else 0)
    {
      limit := if fps > 0 then fps else 0;
      intervalUs := if fps > 0 then 1000000 / fps else 0;
      initialized := false;
    }

    /** The steady clock never reads earlier than at the last rendered tick. */
    method Tick(now: int) returns (rendered: bool)
      requires initialized ==> lastRenderTime <= now
      modifies this
      ensures limit == old(limit)
      ensures limit == 0 ==> rendered && View() == old(View())
      ensures limit > 0 ==> rendered == !old(View()).Skips(now) && View() == old(View()).Tick(now)
      ensures limit > 0 ==> initialized && lastRenderTime <= now
    {
      if limit > 0 {
        if initialized {
          var elapsed := (now - lastRenderTime) / 1000;
          if elapsed < intervalUs {
            return false;
          }
          var idealNext := lastRenderTime + 1000 * intervalUs;
          if now - idealNext > 1000 * intervalUs {
            lastRenderTime := now;
          } else {
            lastRenderTime := idealNext;
          }
        } else {
          lastRenderTime := now;
          initialized := true;
        }
      }
      rendered := true;
    }
  }

  // ---------------------------------------------------------------- runs

  /** Clock readings of the ticks since the limit was set. */
  predicate Steady(times: seq<int>) {
    forall i, j | 0 <= i <= j < |times| :: times[i] <= times[j]
  }

  function After(interval: nat, times: seq<int>, n: nat): Limiter
    requires n <= |times|
  {
    if n == 0 then Fresh(interval) else After(interval, times, n - 1).Tick(times[n - 1])
  }

  predicate Rendered(interval: nat, times: seq<int>, k: nat)
    requires k < |times|
  {
    !After(interval, times, k).Skips(times[k])
  }

  /** How many of the first `n` ticks were rendered. */
  function Renders(interval: nat, times: seq<int>, n: nat): nat
    requires n <= |times|
  {
    if n == 0 then 0 else Renders(interval, times, n - 1) + if Rendered(interval, times, n - 1) then 1 else 0
  }

  /** How many of the first `n` ticks were rendered between `from` and `from + length`. */
  function RendersIn(interval: nat, times: seq<int>, n: nat, from: int, length: nat): nat
    requires n <= |times|
  {
    if n == 0 then 0
    else RendersIn(interval, times, n - 1, from, length)
         + if Rendered(interval, times, n - 1) && from <= times[n - 1] <= from + length then 1 else 0
  }

  /** `k` intervals, in nanoseconds. */
  function Frames(k: nat, interval: nat): nat {
    if k == 0 then 0 else Frames(k - 1, interval) + 1000 * interval
  }

  lemma {:induction false} FramesIsProduct(k: nat, interval: nat)
    ensures Frames(k, interval) == k * (1000 * interval)
    decreases k
  {
    if k > 0 {
      FramesIsProduct(k - 1, interval);
    }
  }

  lemma FramesDivide(k: nat, interval: nat, t: nat)
    requires interval > 0
    ensures Frames(k, interval) <= t < Frames(k + 1, interval) ==> t / (1000 * interval) == k
    ensures Frames(k, interval) <= t ==> k <= t / (1000 * interval)
  {
    FramesIsProduct(k, interval);
    assert Frames(k + 1, interval) == Frames(k, interval) + 1000 * interval;
    hide Frames;
    Quotient(k, 1000 * interval, t);
  }

  lemma Quotient(k: nat, d: nat, t: nat)
    requires d > 0
    ensures k * d <= t ==> k <= t / d
    ensures k * d <= t < k * d + d ==> t / d == k
  {
    var q := t / d;
    assert t == d * q + t % d;
    if q < k {
      MulStep(k, q, d);
    }
    if k < q {
      MulStep(q, k, d);
    }
  }

  lemma {:induction false} MulStep(a: nat, b: nat, d: nat)
    requires b < a
    ensures b * d + d <= a * d
    decreases a
  {
    if b + 1 < a {
      MulStep(a - 1, b, d);
    }
  }

  lemma QuotientIsNatural(t: nat, d: nat)
    requires d > 0
    ensures t / d >= 0
  {
  }

  /** The last of `n` ticks. */
  lemma Unfolded(interval: nat, times: seq<int>, n: nat)
    requires 0 < n <= |times|
    ensures After(interval, times, n) == After(interval, times, n - 1).Tick(times[n - 1])
    ensures Rendered(interval, times, n - 1) == !After(interval, times, n - 1).Skips(times[n - 1])
    ensures Renders(interval, times, n) == Renders(interval, times, n - 1) + if Rendered(interval, times, n - 1) then 1 else 0
  {
  }

  lemma UnfoldedIn(interval: nat, times: seq<int>, n: nat, from: int, length: nat)
    requires 0 < n <= |times|
    ensures RendersIn(interval, times, n, from, length) ==
            RendersIn(interval, times, n - 1, from, length) +
            if Rendered(interval, times, n - 1) && from <= times[n - 1] <= from + length then 1 else 0
  {
  }

  lemma Nothing(interval: nat, times: seq<int>)
    ensures After(interval, times, 0) == Fresh(interval) && Renders(interval, times, 0) == 0
    ensures Frames(0, interval) == 0 && Frames(1, interval) == 1000 * interval
  {
  }

  /** Where the deadline stands: behind the last tick, and one interval further for each frame at least. */
  lemma {:induction false} DeadlineMoves(interval: nat, times: seq<int>, n: nat)
    requires Steady(times) && 0 < n <= |times|
    ensures var s := After(interval, times, n);
            s.interval == interval && s.initialized && s.last <= times[n - 1] && Renders(interval, times, n) >= 1 &&
            s.last >= times[0] + Frames(Renders(interval, times, n) - 1, interval)
    decreases n
  {
    hide After, Renders;
    Unfolded(interval, times, n);
    if n > 1 {
      DeadlineMoves(interval, times, n - 1);
      assert times[n - 2] <= times[n - 1];
    } else {
      Nothing(interval, times);
    }
  }

  /** Never ahead: whatever the ticks, there are at most as many frames as the limit allows so far. */
  lemma NeverAhead(interval: nat, times: seq<int>, n: nat)
    requires Steady(times) && 0 < n <= |times| && interval > 0
    ensures Renders(interval, times, n) <= (times[n - 1] - times[0]) / (1000 * interval) + 1
  {
    DeadlineMoves(interval, times, n);
    assert times[0] <= times[n - 1];
    FramesDivide(Renders(interval, times, n) - 1, interval, times[n - 1] - times[0]);
  }

  lemma {:induction false} DeadlineKeepsPace(interval: nat, times: seq<int>, n: nat)
    requires Steady(times) && 0 < n <= |times| && interval > 0
    requires forall k | 0 < k < n :: times[k] - times[k - 1] <= 1000 * interval
    ensures var s := After(interval, times, n);
            s.interval == interval && s.initialized && Renders(interval, times, n) >= 1 &&
            s.last <= times[n - 1] < s.last + 1000 * interval &&
            s.last == times[0] + Frames(Renders(interval, times, n) - 1, interval)
    decreases n
  {
    if n > 1 {
      DeadlineKeepsPace(interval, times, n - 1);
      assert times[n - 2] <= times[n - 1];
      assert times[n - 1] - times[n - 2] <= 1000 * interval;
    }
  }

  /** No drift: with ticks at most an interval apart, the number of frames is exactly the ideal one. */
  lemma NoDrift(interval: nat, times: seq<int>, n: nat)
    requires Steady(times) && 0 < n <= |times| && interval > 0
    requires forall k | 0 < k < n :: times[k] - times[k - 1] <= 1000 * interval
    ensures Renders(interval, times, n) == (times[n - 1] - times[0]) / (1000 * interval) + 1
  {
    DeadlineKeepsPace(interval, times, n);
    assert times[0] <= times[n - 1];
    FramesDivide(Renders(interval, times, n) - 1, interval, times[n - 1] - times[0]);
  }

  /** What `c` renders in a window have done to the deadline. */
  predicate Filled(s: Limiter, c: nat, from: int, length: nat) {
    c > 0 ==> s.initialized && Frames(c - 1, s.interval) <= length + 1000 * s.interval &&
              s.last >= from - 1000 * s.interval + Frames(c - 1, s.interval)
  }

  lemma WindowStep(s: Limiter, now: int, c: nat, from: int, length: nat)
    requires (s.initialized ==> s.last <= now) && Filled(s, c, from, length)
    ensures Filled(s.Tick(now), if !s.Skips(now) && from <= now <= from + length then c + 1 else c, from, length)
  {
    if c > 0 {
      assert Frames(c, s.interval) == Frames(c - 1, s.interval) + 1000 * s.interval;
    }
  }

  lemma {:induction false} WindowFills(interval: nat, times: seq<int>, n: nat, from: int, length: nat)
    requires Steady(times) && n <= |times|
    ensures After(interval, times, n).interval == interval
    ensures Filled(After(interval, times, n), RendersIn(interval, times, n, from, length), from, length)
    decreases n
  {
    if n > 0 {
      hide After, Renders, RendersIn, Rendered, Filled, Limiter.Skips;
      WindowFills(interval, times, n - 1, from, length);
      Unfolded(interval, times, n);
      UnfoldedIn(interval, times, n, from, length);
      LastIsPast(interval, times, n);
      WindowStep(After(interval, times, n - 1), times[n - 1], RendersIn(interval, times, n - 1, from, length), from, length);
    }
  }

  lemma LastIsPast(interval: nat, times: seq<int>, n: nat)
    requires Steady(times) && 0 < n <= |times|
    ensures var s := After(interval, times, n - 1);
            s.initialized ==> s.last <= times[n - 1]
  {
    if n > 1 {
      hide Renders, Frames;
      DeadlineMoves(interval, times, n - 1);
      assert times[n - 2] <= times[n - 1];
    }
  }

  /** No burst: in any window, at most two frames more than it has intervals. */
  lemma NoBurst(interval: nat, times: seq<int>, n: nat, from: int, length: nat)
    requires Steady(times) && n <= |times| && interval > 0
    ensures RendersIn(interval, times, n, from, length) <= length / (1000 * interval) + 2
  {
    var c := RendersIn(interval, times, n, from, length);
    WindowFills(interval, times, n, from, length);
    if c >= 2 {
      FramesDivide(c - 2, interval, length);
    } else {
      QuotientIsNatural(length, 1000 * interval);
    }
  }

  // ---------------------------------------------------------------- renders close together

  /**
   After a render at `t`, a tick less than an interval later is rendered too exactly if the render
   was late, by no more than would have made the limiter start anew, and the tick has reached the
   deadline after it.
   */
  lemma CloseTickIff(s: Limiter, t: int, now: int)
    requires s.initialized && s.interval > 0 && s.last <= t && !s.Skips(t)
    requires t <= now < t + 1000 * s.interval
    ensures !s.Tick(t).Skips(now) <==> t <= s.last + 2000 * s.interval <= now
  {
  }

  /** The first render of all sets the deadline, so that nothing follows it within an interval. */
  lemma FirstRenderIsAlone(s: Limiter, t: int, now: int)
    requires !s.initialized && t <= now < t + 1000 * s.interval
    ensures s.Tick(t).Skips(now)
  {
  }

  /** Skipped ticks leave the limiter as it was. */
  lemma {:induction false} SkipsChangeNothing(interval: nat, times: seq<int>, i: nat, j: nat)
    requires i <= j <= |times| && forall k | i <= k < j :: !Rendered(interval, times, k)
    ensures After(interval, times, j) == After(interval, times, i)
    decreases j
  {
    if i < j {
      SkipsChangeNothing(interval, times, i, j - 1);
      assert !Rendered(interval, times, j - 1);
    }
  }

  /**
   In every run, a tick less than an interval after the latest render is rendered exactly if that
   render came late, but at most one interval late, and the tick is past the deadline that follows.
   */
  lemma CloseRenderIff(interval: nat, times: seq<int>, i: nat, j: nat)
    requires Steady(times) && interval > 0 && i < j < |times|
    requires Rendered(interval, times, i) && forall k | i < k < j :: !Rendered(interval, times, k)
    requires times[j] < times[i] + 1000 * interval
    ensures var s := After(interval, times, i);
            Rendered(interval, times, j) <==>
              s.initialized && times[i] <= s.last + 2000 * interval <= times[j]
  {
    var s := After(interval, times, i);
    SkipsChangeNothing(interval, times, i + 1, j);
    assert times[i] <= times[j];
    if i > 0 {
      DeadlineMoves(interval, times, i);
      assert times[i - 1] <= times[i];
      hide After;
      CloseTickIff(s, times[i], times[j]);
    } else {
      FirstRenderIsAlone(s, times[i], times[j]);
    }
  }

  /** There are never three renders in less than an interval. */
  lemma NoThirdRender(s: Limiter, t: int, now: int, later: int)
    requires s.initialized && s.interval > 0 && s.last <= t <= now && !s.Skips(t)
    requires !s.Tick(t).Skips(now) && now < t + 1000 * s.interval
    requires now <= later < t + 1000 * s.interval
    ensures s.Tick(t).Tick(now).Skips(later)
  {
    CloseTickIff(s, t, now);
  }

  /** The two extra frames do occur: a late tick is followed by one at once. */
  lemma BurstOfTwo(interval: nat)
    requires interval > 0
    ensures var d := 1000 * interval;
            Steady([0, 2 * d, 2 * d]) && RendersIn(interval, [0, 2 * d, 2 * d], 3, 2 * d, 0) == 2
  {
    var d := 1000 * interval;
    var times := [0, 2 * d, 2 * d];
    assert After(interval, times, 1) == Limiter(interval, true, 0);
    assert After(interval, times, 2) == Limiter(interval, true, d);
    assert RendersIn(interval, times, 1, 2 * d, 0) == 0;
    assert RendersIn(interval, times, 2, 2 * d, 0) == 1;
  }
}
