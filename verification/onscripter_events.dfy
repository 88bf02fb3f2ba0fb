/**
 The host event queue of the ONScripter bridge
 (bridge/onscripter_runtime/src/onscripter_runtime.cpp, `PushRuntimeEvent`, `PopHostEvent`,
 `PopHostKeyRelease`): bounded, merging cursor motions, and giving up motions before anything
 else when it is full. Proved: what may be lost, and that merging is invisible.
 */
module OnscripterEvents {
  import opened Common

  datatype Pos = Pos(x: int, y: int)

  datatype HostEvent = Motion(at: Pos) | KeyRelease(key: int) | Other(code: int)

  // ---------------------------------------------------------------- the queue

  predicate HasMotion(q: seq<HostEvent>) { exists i :: 0 <= i < |q| && q[i].Motion? }

  predicate HasRelease(q: seq<HostEvent>) { exists i :: 0 <= i < |q| && q[i].KeyRelease? }

  function WithoutFirstMotion(q: seq<HostEvent>): seq<HostEvent>
    requires HasMotion(q)
  {
    if q[0].Motion? then q[1..] else [q[0]] + WithoutFirstMotion(q[1..])
  }

  function WithoutFirstRelease(q: seq<HostEvent>): seq<HostEvent>
    requires HasRelease(q)
  {
    if q[0].KeyRelease? then q[1..] else [q[0]] + WithoutFirstRelease(q[1..])
  }

  function FirstRelease(q: seq<HostEvent>): (e: HostEvent)
    requires HasRelease(q)
    ensures e.KeyRelease? && e in q
  {
    if q[0].KeyRelease? then q[0] else FirstRelease(q[1..])
  }

  /** A motion right behind a motion replaces it. */
  predicate Merges(q: seq<HostEvent>, e: HostEvent) {
    e.Motion? && q != [] && q[|q| - 1].Motion?
  }

  predicate Evicts(q: seq<HostEvent>, e: HostEvent) { !Merges(q, e) && |q| >= 256 }

  /** The push drops an event that is not a motion. */
  predicate Loses(q: seq<HostEvent>, e: HostEvent) { Evicts(q, e) && !HasMotion(q) }

  function Pushed(q: seq<HostEvent>, e: HostEvent): seq<HostEvent> {
    if Merges(q, e) then q[..|q| - 1] + [e]
    else if |q| < 256 then q + [e]
    else if HasMotion(q) then WithoutFirstMotion(q) + [e]
    else q[1..] + [e]
  }

  class HostEventQueue {
    var events: seq<HostEvent>

    constructor ()
      ensures events == []
    {
      events := [];
    }

    /** The search the source does with `std::find_if`, for a motion or for a key release. */
    static method FindIf(q: seq<HostEvent>, motion: bool) returns (k: nat)
      ensures k <= |q| && forall i | 0 <= i < k :: if motion then !q[i].Motion? else !q[i].KeyRelease?
      ensures k < |q| ==> if motion then q[k].Motion? else q[k].KeyRelease?
    {
      k := 0;
      while k < |q| && !(if motion then q[k].Motion? else q[k].KeyRelease?)
        invariant k <= |q| && forall i | 0 <= i < k :: if motion then !q[i].Motion? else !q[i].KeyRelease?
      {
        k := k + 1;
      }
    }

    method PushRuntimeEvent(e: HostEvent)
      modifies this
      ensures events == Pushed(old(events), e)
    {
      if e.Motion? && events != [] && events[|events| - 1].Motion? {
        events := events[|events| - 1 := e];
        return;
      }
      if |events| >= 256 {
        var k := FindIf(events, true);
        if k < |events| {
          MotionAt(events, k);
          events := events[..k] + events[k + 1..];
        } else {
          events := events[1..];
        }
      }
      events := events + [e];
    }

    method PopHostEvent() returns (e: Option<HostEvent>)
      modifies this
      ensures if old(events) == [] then e == None && events == []
              else e == Some(old(events)[0]) && events == old(events)[1..]
    {
      if events == [] {
        return None;
      }
      e := Some(events[0]);
      events := events[1..];
    }

    method PopHostKeyRelease() returns (e: Option<HostEvent>)
      modifies this
      ensures if !HasRelease(old(events)) then e == None && events == old(events)
              else e == Some(FirstRelease(old(events))) && events == WithoutFirstRelease(old(events))
    {
      var k := FindIf(events, false);
      if k == |events| {
        return None;
      }
      ReleaseAt(events, k);
      e := Some(events[k]);
      events := events[..k] + events[k + 1..];
    }

    method Clear()
      modifies this
      ensures events == []
    {
      events := [];
    }
  }

  lemma {:induction false} MotionAt(q: seq<HostEvent>, k: nat)
    requires k < |q| && q[k].Motion? && forall i | 0 <= i < k :: !q[i].Motion?
    ensures HasMotion(q) && WithoutFirstMotion(q) == q[..k] + q[k + 1..]
    decreases k
  {
    if k > 0 {
      MotionAt(q[1..], k - 1);
      assert [q[0]] + (q[1..][..k - 1] + q[1..][k..]) == q[..k] + q[k + 1..];
    }
  }

  lemma {:induction false} ReleaseAt(q: seq<HostEvent>, k: nat)
    requires k < |q| && q[k].KeyRelease? && forall i | 0 <= i < k :: !q[i].KeyRelease?
    ensures HasRelease(q) && FirstRelease(q) == q[k] && WithoutFirstRelease(q) == q[..k] + q[k + 1..]
    decreases k
  {
    if k > 0 {
      ReleaseAt(q[1..], k - 1);
      assert [q[0]] + (q[1..][..k - 1] + q[1..][k..]) == q[..k] + q[k + 1..];
    }
  }

  /**
   What a push does, `k` being the place of the first motion, or the length of the queue: a motion takes the
   place of one right before it; a full queue of 256 gives up its first motion, or its first event if it has none.
   */
  lemma PushOutcome(q: seq<HostEvent>, e: HostEvent, k: nat)
    requires k <= |q| && (forall i | 0 <= i < k :: !q[i].Motion?) && (k < |q| ==> q[k].Motion?)
    ensures var merge := e.Motion? && |q| > 0 && q[|q| - 1].Motion?;
            Pushed(q, e) == (if merge then q[..|q| - 1] + [e]
                             else if |q| < 256 then q + [e]
                             else if k < |q| then q[..k] + q[k + 1..] + [e]
                             else q[1..] + [e]) &&
            (Evicts(q, e) <==> !merge && |q| >= 256) && (Loses(q, e) <==> !merge && |q| >= 256 && k == |q|)
  {
    if k < |q| {
      MotionAt(q, k);
    }
  }

  // ---------------------------------------------------------------- what a consumer sees

  // An event that is not a motion, with the cursor position at the time it is delivered.
  type Sight = (HostEvent, Pos)

  /** What is still to be seen of a queue, and where the cursor ends up. */
  datatype View = View(sights: seq<Sight>, cursor: Pos) {
    function Push(e: HostEvent): View {
      if e.Motion? then View(sights, e.at) else View(sights + [(e, cursor)], cursor)
    }
  }

  /** The view of an unbounded queue that merges nothing, with the cursor at `at` beforehand. */
  function Watch(at: Pos, q: seq<HostEvent>): View
    decreases |q|
  {
    if q == [] then View([], at) else Watch(at, q[..|q| - 1]).Push(q[|q| - 1])
  }

  lemma WatchPush(at: Pos, q: seq<HostEvent>, e: HostEvent)
    ensures Watch(at, q + [e]) == Watch(at, q).Push(e)
  {
    assert (q + [e])[..|q|] == q;
  }

  /** Taking the first event: a motion moves the cursor, any other event has been seen. */
  lemma {:induction false} WatchPop(at: Pos, q: seq<HostEvent>)
    requires q != []
    ensures q[0].Motion? ==> Watch(at, q) == Watch(q[0].at, q[1..])
    ensures !q[0].Motion? ==> Watch(at, q) == View([(q[0], at)] + Watch(at, q[1..]).sights, Watch(at, q[1..]).cursor)
    decreases |q|
  {
    var n := |q| - 1;
    if n == 0 {
      assert q == [] + [q[0]];
      WatchPush(at, [], q[0]);
      assert [(q[0], at)] + [] == [] + [(q[0], at)];
    } else {
      WatchPop(at, q[..n]);
      assert q[..n][1..] == q[1..][..n - 1];
      if !q[0].Motion? && !q[n].Motion? {
        var w := Watch(at, q[1..][..n - 1]);
        assert ([(q[0], at)] + w.sights) + [(q[n], w.cursor)] == [(q[0], at)] + (w.sights + [(q[n], w.cursor)]);
      }
    }
  }

  /** Merging two motions is invisible. */
  lemma WatchMerge(at: Pos, q: seq<HostEvent>, e: HostEvent)
    requires Merges(q, e)
    ensures Watch(at, Pushed(q, e)) == Watch(at, q).Push(e)
  {
    WatchPush(at, q[..|q| - 1], e);
  }

  /** Without an eviction a push does what it would do to the unbounded queue. */
  lemma WatchPushed(at: Pos, q: seq<HostEvent>, e: HostEvent)
    requires !Evicts(q, e)
    ensures Watch(at, Pushed(q, e)) == Watch(at, q).Push(e)
  {
    if Merges(q, e) {
      WatchMerge(at, q, e);
    } else {
      WatchPush(at, q, e);
    }
  }

  /** Where the cursor is when the first key release has its turn. */
  function ReleaseCursor(at: Pos, q: seq<HostEvent>): Pos
    requires HasRelease(q)
    decreases |q|
  {
    if q[0].KeyRelease? then at else ReleaseCursor(if q[0].Motion? then q[0].at else at, q[1..])
  }

  lemma CutBehindFirst(s: Sight, v: seq<Sight>, k: nat)
    requires k < |v|
    ensures [s] + (v[..k] + v[k + 1..]) == ([s] + v)[..k + 1] + ([s] + v)[k + 2..]
  {
  }

  /** Taking a key release out of the middle takes out its sight, and changes no other. */
  lemma {:induction false} WatchRelease(at: Pos, q: seq<HostEvent>) returns (k: nat)
    requires HasRelease(q)
    ensures var w, w' := Watch(at, q), Watch(at, WithoutFirstRelease(q));
            k < |w.sights| && w.sights[k] == (FirstRelease(q), ReleaseCursor(at, q)) && w'.cursor == w.cursor &&
            w'.sights == w.sights[..k] + w.sights[k + 1..]
    decreases |q|
  {
    hide Watch;
    WatchPop(at, q);
    if q[0].KeyRelease? {
      k := 0;
      assert Watch(at, q).sights[..0] + Watch(at, q).sights[1..] == Watch(at, q[1..]).sights;
    } else {
      var rest := WithoutFirstRelease(q[1..]);
      WatchHead(at, q[0], rest);
      hide WithoutFirstRelease;
      if q[0].Motion? {
        k := WatchRelease(q[0].at, q[1..]);
      } else {
        k := WatchRelease(at, q[1..]);
        CutBehindFirst((q[0], at), Watch(at, q[1..]).sights, k);
        k := k + 1;
      }
    }
  }

  lemma WatchHead(at: Pos, e: HostEvent, rest: seq<HostEvent>)
    ensures e.Motion? ==> Watch(at, [e] + rest) == Watch(e.at, rest)
    ensures !e.Motion? ==> Watch(at, [e] + rest) == View([(e, at)] + Watch(at, rest).sights, Watch(at, rest).cursor)
  {
    WatchPop(at, [e] + rest);
    assert ([e] + rest)[1..] == rest;
  }

  // ---------------------------------------------------------------- losses

  /** The events that are not motions. */
  function Solid(q: seq<HostEvent>): seq<HostEvent> {
    if q == [] then [] else (if q[0].Motion? then [] else [q[0]]) + Solid(q[1..])
  }

  lemma {:induction false} SolidOfConcat(a: seq<HostEvent>, b: seq<HostEvent>)
    ensures Solid(a + b) == Solid(a) + Solid(b)
    decreases |a|
  {
    if a == [] {
      assert a + b == b;
    } else {
      assert (a + b)[1..] == a[1..] + b;
      SolidOfConcat(a[1..], b);
    }
  }

  lemma {:induction false} SolidWithoutMotion(q: seq<HostEvent>)
    requires HasMotion(q)
    ensures Solid(WithoutFirstMotion(q)) == Solid(q) && |WithoutFirstMotion(q)| == |q| - 1
    decreases |q|
  {
    if !q[0].Motion? {
      SolidWithoutMotion(q[1..]);
      assert ([q[0]] + WithoutFirstMotion(q[1..]))[1..] == WithoutFirstMotion(q[1..]);
    }
  }

  lemma {:induction false} SolidLength(q: seq<HostEvent>)
    ensures |Solid(q)| <= |q|
    ensures HasMotion(q) <==> |Solid(q)| < |q|
    decreases |q|
  {
    if q != [] {
      SolidLength(q[1..]);
      if HasMotion(q) && !q[0].Motion? {
        var i :| 0 <= i < |q| && q[i].Motion?;
        assert q[1..][i - 1].Motion?;
      }
    }
  }

  /** A push loses an event other than a motion exactly when 256 such events are waiting. */
  lemma LosesIffFull(q: seq<HostEvent>, e: HostEvent)
    requires |q| <= 256
    ensures Loses(q, e) <==> |Solid(q)| == 256
    ensures Loses(q, e) ==> Solid(Pushed(q, e)) == Solid(q)[1..] + Solid([e])
    ensures !Loses(q, e) ==> Solid(Pushed(q, e)) == Solid(q) + Solid([e])
    ensures |Pushed(q, e)| <= 256
  {
    SolidLength(q);
    hide Solid, WithoutFirstMotion;
    if Merges(q, e) {
      hide HasMotion;
      MergeKeepsSolid(q, e);
    } else if |q| < 256 {
      hide HasMotion;
      SolidOfConcat(q, [e]);
    } else if HasMotion(q) {
      SolidWithoutMotion(q);
      SolidOfConcat(WithoutFirstMotion(q), [e]);
    } else {
      SolidOfConcat(q[1..], [e]);
      SolidTail(q);
    }
  }

  lemma MergeKeepsSolid(q: seq<HostEvent>, e: HostEvent)
    requires Merges(q, e)
    ensures Solid(q[..|q| - 1] + [e]) == Solid(q) + Solid([e]) && |Solid(q)| < |q|
  {
    hide Solid, HasMotion;
    var front, last := q[..|q| - 1], q[|q| - 1];
    assert q == front + [last];
    SolidOfConcat(front, [last]);
    SolidOfConcat(front, [e]);
    SolidLength(front);
    SolidOfMotion(last);
    SolidOfMotion(e);
  }

  lemma SolidOfMotion(e: HostEvent)
    requires e.Motion?
    ensures Solid([e]) == []
  {
  }

  /** Without a motion, the first event is the first of those that are not motions. */
  lemma SolidTail(q: seq<HostEvent>)
    requires q != [] && !HasMotion(q)
    ensures Solid(q) != [] && Solid(q[1..]) == Solid(q)[1..]
  {
    assert !q[0].Motion?;
  }
}
