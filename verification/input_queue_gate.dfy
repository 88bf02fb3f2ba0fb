/**
 Input events between host and engine: the click gate (abi/src/engine_input_queue_gate.h) and
 the bounded queue it guards (bridge/krkr2_runtime/src/krkr2_legacy_engine_api.cpp,
 `engine_send_input`, the input loop of `engine_tick`, `engine_pause`).
 */
module InputQueueGate {
  import opened Common

  datatype Kind = PointerDown | PointerMove | PointerUp | PointerScroll | KeyDown | KeyUp | TextInput | Back | Unsupported

  /** `finite` says whether all coordinates of the event are finite numbers. */
  datatype InputEvent = InputEvent(kind: Kind, pointer: int, button: int, finite: bool) {
    predicate Primary() { button == 0 }
    predicate IsDown() { kind == PointerDown && button == 0 }
    predicate IsUp() { kind == PointerUp && button == 0 }
    predicate IsPointer() { kind in {PointerDown, PointerMove, PointerUp, PointerScroll} }
  }

  // ---------------------------------------------------------------- the gate

  datatype Gate = Gate(down: Option<int>, queued: nat, suppressed: set<int>) {

    /** Whether an event is let through. */
    predicate Accepts(e: InputEvent) {
      if e.IsDown() then down == None && queued < 8
      else if e.IsUp() then down == Some(e.pointer)
      else if e.Primary() && e.kind == PointerMove then e.pointer !in suppressed || down == Some(e.pointer)
      else true
    }

    /** The gate after an event was offered to it. */
    function Offer(e: InputEvent): Gate {
      if e.IsDown() then
        if down.Some? then
          if down.value != e.pointer then this.(suppressed := suppressed + {e.pointer}) else this
        else if queued >= 8 then this.(suppressed := suppressed + {e.pointer})
        else Gate(Some(e.pointer), queued, suppressed - {e.pointer})
      else if e.IsUp() then
        if down == Some(e.pointer) then Gate(None, queued + 1, suppressed - {e.pointer})
        else this.(suppressed := suppressed - {e.pointer})
      else this
    }

    function Dequeue(e: InputEvent): Gate {
      if e.IsUp() && queued != 0 then this.(queued := queued - 1) else this
    }
  }

  const OPEN_GATE := Gate(None, 0, {})

  class PrimaryClickQueueGate {
    var primaryDownPointerId: Option<int>
    var queuedPrimaryGestures: nat
    var suppressedPointerIds: set<int>

    constructor ()
      ensures View() == OPEN_GATE
    {
      primaryDownPointerId, queuedPrimaryGestures, suppressedPointerIds := None, 0, {};
    }

    function View(): Gate
      reads this
    {
      Gate(primaryDownPointerId, queuedPrimaryGestures, suppressedPointerIds)
    }

    method ShouldEnqueue(e: InputEvent) returns (accepted: bool)
      modifies this
      ensures accepted == old(View()).Accepts(e) && View() == old(View()).Offer(e)
    {
      var primaryPointer := e.button == 0;
      if primaryPointer && e.kind == PointerDown {
        if primaryDownPointerId.Some? {
          if primaryDownPointerId.value != e.pointer {
            suppressedPointerIds := suppressedPointerIds + {e.pointer};
          }
          return false;
        }
        if queuedPrimaryGestures >= 8 {
          suppressedPointerIds := suppressedPointerIds + {e.pointer};
          return false;
        }
        suppressedPointerIds := suppressedPointerIds - {e.pointer};
        primaryDownPointerId := Some(e.pointer);
        return true;
      }
      if primaryPointer && e.kind == PointerMove && e.pointer in suppressedPointerIds &&
         (primaryDownPointerId.None? || primaryDownPointerId.value != e.pointer)
      {
        return false;
      }
      if primaryPointer && e.kind == PointerUp {
        if primaryDownPointerId.Some? && primaryDownPointerId.value == e.pointer {
          primaryDownPointerId := None;
          suppressedPointerIds := suppressedPointerIds - {e.pointer};
          queuedPrimaryGestures := queuedPrimaryGestures + 1;
          return true;
        }
        suppressedPointerIds := suppressedPointerIds - {e.pointer};
        return false;
      }
      accepted := true;
    }

    method OnDequeued(e: InputEvent)
      modifies this
      ensures View() == old(View()).Dequeue(e)
    {
      if e.kind == PointerUp && e.button == 0 && queuedPrimaryGestures != 0 {
        queuedPrimaryGestures := queuedPrimaryGestures - 1;
      }
    }

    method Reset()
      modifies this
      ensures View() == OPEN_GATE
    {
      primaryDownPointerId, queuedPrimaryGestures, suppressedPointerIds := None, 0, {};
    }
  }

  // ---------------------------------------------------------------- the host

  /**
   What the host does to the queue. `Tick(good)` dispatches queued events up to the first one
   whose dispatch fails, the one at index `good`; `Open` is the end of a startup.
   */
  datatype Call = Send(event: InputEvent) | Tick(good: nat) | Pause | Resume | Open

  /** The engine's states as far as input is concerned; no game has been started in `Closed`. */
  datatype Phase = Closed | Opened | Paused

  /**
   The queue and its gate, with the history since the last reset: the events accepted, those
   taken off the front, and those of them that were dispatched rather than evicted.
   */
  datatype Host = Host(phase: Phase, gate: Gate, pending: seq<InputEvent>,
                       accepted: seq<InputEvent>, taken: seq<InputEvent>, dispatched: seq<InputEvent>) {

    function Cleared(phase: Phase): Host { Host(phase, OPEN_GATE, [], [], [], []) }

    predicate Valid(e: InputEvent) { e.kind != Unsupported && (e.IsPointer() ==> e.finite) }

    function Push(e: InputEvent): Host {
      var queue := pending + [e];
      if |queue| > 512 then
        Host(phase, gate.Dequeue(queue[0]), queue[1..], accepted + [e], taken + [queue[0]], dispatched)
      else Host(phase, gate, queue, accepted + [e], taken, dispatched)
    }

    function Pop(): Host
      requires pending != []
    {
      Host(phase, gate.Dequeue(pending[0]), pending[1..], accepted, taken + [pending[0]], dispatched + [pending[0]])
    }

    function Drain(good: nat): Host
      decreases |pending|
    {
      if pending == [] then this else if good == 0 then Pop() else Pop().Drain(good - 1)
    }

    function Apply(c: Call): Host {
      match c
      case Send(e) =>
        if phase != Opened || !Valid(e) then this
        else
          var offered := this.(gate := gate.Offer(e));
          if gate.Accepts(e) then offered.Push(e) else offered
      case Tick(good) => if phase == Opened then Drain(good) else this
      case Pause => if phase == Opened then Cleared(Paused) else this
      case Resume => if phase == Paused then this.(phase := Opened) else this
      case Open => Cleared(Opened)
    }
  }

  datatype Status = OK | InvalidState | NotSupported | InvalidArgument | DispatchFailed

  lemma PopUnfolds(h: Host, good: nat)
    requires h.pending != []
    ensures h.Drain(good) == if good == 0 then h.Pop() else h.Pop().Drain(good - 1)
    ensures h.Pop().pending == h.pending[1..] && h.Pop().phase == h.phase
    ensures h.Pop().dispatched == h.dispatched + [h.pending[0]]
  {
  }

  lemma DrainOfNothing(h: Host, good: nat)
    requires h.pending == []
    ensures h.Drain(good) == h
  {
  }

  lemma OneMore(events: seq<InputEvent>, n: nat, before: seq<InputEvent>)
    requires n < |events|
    ensures events[n..][1..] == events[n + 1..] && events[n..][0] == events[n]
    ensures events[..n] + [events[n]] == events[..n + 1]
    ensures (before + events[..n]) + [events[n]] == before + events[..n + 1]
  {
  }

  class InputState {
    const gate: PrimaryClickQueueGate
    var phase: Phase
    var pendingEvents: seq<InputEvent>
    var coalescedEvents: nat
    ghost var accepted: seq<InputEvent>
    ghost var taken: seq<InputEvent>
    ghost var dispatched: seq<InputEvent>

    constructor ()
      ensures fresh(gate) && View() == Host(Closed, OPEN_GATE, [], [], [], [])
    {
      gate := new PrimaryClickQueueGate();
      phase, pendingEvents, coalescedEvents := Closed, [], 0;
      accepted, taken, dispatched := [], [], [];
    }

    ghost function View(): Host
      reads this, gate
    {
      Host(phase, gate.View(), pendingEvents, accepted, taken, dispatched)
    }

    method SendInput(e: InputEvent) returns (status: Status)
      modifies this, gate
      ensures View() == old(View()).Apply(Send(e))
      ensures status == if old(phase) != Opened then InvalidState
                        else if e.kind == Unsupported then NotSupported
                        else if e.IsPointer() && !e.finite then InvalidArgument
                        else OK
      ensures coalescedEvents == old(coalescedEvents) + if status == OK && accepted == old(accepted) then 1 else 0
    {
      if phase != Opened {
        return InvalidState;
      }
      if e.kind == Unsupported {
        return NotSupported;
      }
      if e.IsPointer() && !e.finite {
        return InvalidArgument;
      }
      var enqueue := gate.ShouldEnqueue(e);
      if !enqueue {
        coalescedEvents := coalescedEvents + 1;
        return OK;
      }
      pendingEvents := pendingEvents + [e];
      accepted := accepted + [e];
      if |pendingEvents| > 512 {
        gate.OnDequeued(pendingEvents[0]);
        taken := taken + [pendingEvents[0]];
        pendingEvents := pendingEvents[1..];
      }
      status := OK;
    }

    method PopFront() returns (event: InputEvent)
      requires pendingEvents != []
      modifies this, gate
      ensures event == old(pendingEvents)[0] && View() == old(View()).Pop() && coalescedEvents == old(coalescedEvents)
    {
      event := pendingEvents[0];
      pendingEvents := pendingEvents[1..];
      gate.OnDequeued(event);
      taken, dispatched := taken + [event], dispatched + [event];
    }

    /** The loop itself. */
    method DispatchAll(good: nat) returns (delivered: seq<InputEvent>, status: Status)
      modifies this, gate
      ensures View() == old(View()).Drain(good)
      ensures |delivered| == if good < |old(pendingEvents)| then good + 1 else |old(pendingEvents)|
      ensures delivered == old(pendingEvents)[..|delivered|] && pendingEvents == old(pendingEvents)[|delivered|..]
      ensures coalescedEvents == old(coalescedEvents)
      ensures dispatched == old(dispatched) + delivered
      ensures status == (if good < |old(pendingEvents)| then DispatchFailed else OK)
      ensures status == OK ==> pendingEvents == []
    {
      hide Host.Drain, Host.Pop;
      delivered := [];
      ghost var goal, start, before, n: nat := View().Drain(good), pendingEvents, dispatched, 0;
      while pendingEvents != []
        invariant n <= good && n <= |start| && pendingEvents == start[n..] && coalescedEvents == old(coalescedEvents)
        invariant delivered == start[..n] && dispatched == before + start[..n]
        invariant View().Drain(good - n) == goal
        decreases |pendingEvents|
      {
        OneMore(start, n, before);
        PopUnfolds(View(), good - n);
        var event := PopFront();
        delivered, n := delivered + [event], n + 1;
        if |delivered| > good {
          return delivered, DispatchFailed;
        }
      }
      DrainOfNothing(View(), good - n);
      status := OK;
    }

    /** The input loop of a tick: the failing event has left the queue, those behind it have not. */
    method DispatchPending(good: nat) returns (delivered: seq<InputEvent>, status: Status)
      modifies this, gate
      ensures View() == old(View()).Apply(Tick(good))
      ensures old(phase) == Opened ==>
                |delivered| == (if good < |old(pendingEvents)| then good + 1 else |old(pendingEvents)|) &&
                delivered == old(pendingEvents)[..|delivered|] && pendingEvents == old(pendingEvents)[|delivered|..] &&
                coalescedEvents == 0 &&
                dispatched == old(dispatched) + delivered &&
                (status == DispatchFailed <==> good < |old(pendingEvents)|) &&
                (status == OK ==> pendingEvents == [])
      ensures old(phase) != Opened ==> status == InvalidState && delivered == []
    {
      hide Host.Drain;
      if phase != Opened {
        return [], InvalidState;
      }
      coalescedEvents := 0;
      delivered, status := DispatchAll(good);
    }

    method Clear()
      modifies this, gate
      ensures phase == old(phase) && View() == old(View()).Cleared(phase) && coalescedEvents == 0
    {
      pendingEvents := [];
      gate.Reset();
      coalescedEvents := 0;
      accepted, taken, dispatched := [], [], [];
    }

    method DoPause() returns (status: Status)
      modifies this, gate
      ensures View() == old(View()).Apply(Pause)
      ensures status == OK <==> old(phase) != Closed
    {
      if phase == Paused {
        return OK;
      }
      if phase != Opened {
        return InvalidState;
      }
      Clear();
      phase := Paused;
      status := OK;
    }

    method DoResume() returns (status: Status)
      modifies this`phase
      ensures View() == old(View()).Apply(Resume)
      ensures status == OK <==> old(phase) != Closed
    {
      if phase == Opened {
        return OK;
      }
      if phase != Paused {
        return InvalidState;
      }
      phase := Opened;
      status := OK;
    }

    method DoOpen()
      modifies this, gate
      ensures View() == old(View()).Apply(Open)
    {
      Clear();
      phase := Opened;
    }
  }

  // ---------------------------------------------------------------- what every call keeps

  function Ups(events: seq<InputEvent>): nat {
    if events == [] then 0 else (if events[0].IsUp() then 1 else 0) + Ups(events[1..])
  }

  lemma {:induction false} UpsOfConcat(a: seq<InputEvent>, b: seq<InputEvent>)
    ensures Ups(a + b) == Ups(a) + Ups(b)
    decreases |a|
  {
    if a == [] {
      assert a + b == b;
    } else {
      assert (a + b)[1..] == a[1..] + b;
      UpsOfConcat(a[1..], b);
    }
  }

  /** The primary press and release edges among some events. */
  function Edges(events: seq<InputEvent>): seq<InputEvent> {
    if events == [] then []
    else
      var e := events[|events| - 1];
      Edges(events[..|events| - 1]) + if e.IsDown() || e.IsUp() then [e] else []
  }

  /** DOWN p, UP p, DOWN q, UP q, ... */
  predicate Alternate(edges: seq<InputEvent>) {
    forall i | 0 <= i < |edges| :: InTurn(edges, i)
  }

  predicate InTurn(edges: seq<InputEvent>, i: nat)
    requires i < |edges|
  {
    if i % 2 == 0 then edges[i].IsDown()
    else edges[i].IsUp() && edges[i].pointer == edges[i - 1].pointer
  }

  /** How far a sequence of events got: no press open, one open, or the alternation broken. */
  datatype Progress = Idle | Pressed(pointer: int) | Broken

  function Scan(events: seq<InputEvent>): Progress
    decreases |events|
  {
    if events == [] then Idle else Move(Scan(events[..|events| - 1]), events[|events| - 1])
  }

  function Move(p: Progress, e: InputEvent): Progress {
    if e.IsDown() then if p.Idle? then Pressed(e.pointer) else Broken
    else if e.IsUp() then if p == Pressed(e.pointer) then Idle else Broken
    else p
  }

  lemma {:induction false} ScanIsAlternation(events: seq<InputEvent>)
    requires !Scan(events).Broken?
    ensures var edges := Edges(events);
            Alternate(edges) && (Scan(events).Idle? <==> |edges| % 2 == 0) &&
            (Scan(events).Pressed? ==> |edges| > 0 && edges[|edges| - 1].pointer == Scan(events).pointer)
    decreases |events|
  {
    if events != [] {
      var n := |events| - 1;
      ScanIsAlternation(events[..n]);
      var before, edges, e := Edges(events[..n]), Edges(events), events[n];
      assert Scan(events) == Move(Scan(events[..n]), e);
      assert edges == before + if e.IsDown() || e.IsUp() then [e] else [];
      forall i | 0 <= i < |edges| ensures InTurn(edges, i) {
        assert i < |before| ==> InTurn(before, i);
      }
    }
  }

  predicate Inv(h: Host) {
    // the gate counts the releases that wait in the queue
    && h.gate.queued == Ups(h.pending)
    && h.gate.queued <= 8
    && (h.gate.down.Some? ==> h.gate.queued <= 7)
    && |h.pending| <= 512
    // nothing is reordered or lost except from the front
    && h.accepted == h.taken + h.pending
    && |h.dispatched| <= |h.taken|
    && (|h.dispatched| == |h.taken| ==> h.dispatched == h.taken)
    // presses and releases alternate, and the open press is the gate's
    && Scan(h.accepted) == (if h.gate.down.Some? then Pressed(h.gate.down.value) else Idle)
    && (h.gate.down.Some? ==> h.gate.down.value !in h.gate.suppressed)
  }

  lemma PopKeepsInv(h: Host)
    requires Inv(h) && h.pending != []
    ensures Inv(h.Pop()) && |h.Pop().pending| < |h.pending|
  {
    assert h.pending == [h.pending[0]] + h.pending[1..];
    assert h.taken + h.pending == (h.taken + [h.pending[0]]) + h.pending[1..];
  }

  lemma {:induction false} DrainKeepsInv(h: Host, good: nat)
    requires Inv(h)
    ensures Inv(h.Drain(good))
    ensures good >= |h.pending| ==> h.Drain(good).pending == [] && h.Drain(good).gate.queued == 0
    decreases |h.pending|
  {
    hide Inv, Host.Pop;
    if h.pending != [] {
      PopKeepsInv(h);
      PopShortens(h);
      if good > 0 {
        DrainKeepsInv(h.Pop(), good - 1);
      }
    } else {
      EmptyHasNoUps(h);
    }
  }

  lemma PopShortens(h: Host)
    requires h.pending != []
    ensures |h.Pop().pending| == |h.pending| - 1
  {
  }

  lemma EmptyHasNoUps(h: Host)
    requires Inv(h) && h.pending == []
    ensures h.gate.queued == 0
  {
  }

  /** Before the size check: the event is in the queue, one too many perhaps. */
  lemma AcceptedKeepsOrder(h: Host, e: InputEvent)
    requires Inv(h) && h.gate.Accepts(e)
    ensures var g := h.gate.Offer(e);
            && g.queued == Ups(h.pending + [e]) && g.queued <= 8 && (g.down.Some? ==> g.queued <= 7)
            && h.accepted + [e] == h.taken + (h.pending + [e])
            && Scan(h.accepted + [e]) == (if g.down.Some? then Pressed(g.down.value) else Idle)
            && (g.down.Some? ==> g.down.value !in g.suppressed)
  {
    UpsOfConcat(h.pending, [e]);
    assert (h.accepted + [e])[..|h.accepted|] == h.accepted;
    assert h.taken + (h.pending + [e]) == (h.taken + h.pending) + [e];
  }

  /** The queue with one event more, and one less at the front when that is too many. */
  lemma PushKeepsInv(h: Host, e: InputEvent)
    requires Inv(h) && h.gate.Accepts(e)
    ensures Inv(h.(gate := h.gate.Offer(e)).Push(e))
  {
    AcceptedKeepsOrder(h, e);
    hide Scan, Gate.Offer, Gate.Accepts;
    var queue := h.pending + [e];
    if |queue| > 512 {
      hide Ups;
      UpsOfFirst(queue);
      Moved(h.taken, queue);
    }
  }

  lemma UpsOfFirst(queue: seq<InputEvent>)
    requires queue != []
    ensures Ups(queue) == (if queue[0].IsUp() then 1 else 0) + Ups(queue[1..])
  {
  }

  lemma Moved(taken: seq<InputEvent>, queue: seq<InputEvent>)
    requires queue != []
    ensures taken + queue == (taken + [queue[0]]) + queue[1..]
  {
  }

  lemma SendKeepsInv(h: Host, e: InputEvent)
    requires Inv(h)
    ensures Inv(h.Apply(Send(e)))
  {
    if h.phase == Opened && h.Valid(e) && h.gate.Accepts(e) {
      PushKeepsInv(h, e);
    }
  }

  /** Every call keeps the invariant. */
  lemma ApplyKeepsInv(h: Host, c: Call)
    requires Inv(h)
    ensures Inv(h.Apply(c))
  {
    match c
    case Send(e) => SendKeepsInv(h, e);
    case Tick(good) => DrainKeepsInv(h, good);
    case _ =>
  }

  const INITIAL := Host(Closed, OPEN_GATE, [], [], [], [])

  function Run(calls: seq<Call>): Host
    decreases |calls|
  {
    if calls == [] then INITIAL else Run(calls[..|calls| - 1]).Apply(calls[|calls| - 1])
  }

  /** Over every run: the counter, both bounds, first-in first-out order and alternation. */
  lemma {:induction false} RunKeepsInv(calls: seq<Call>)
    ensures Inv(Run(calls))
    decreases |calls|
  {
    if calls != [] {
      RunKeepsInv(calls[..|calls| - 1]);
      ApplyKeepsInv(Run(calls[..|calls| - 1]), calls[|calls| - 1]);
    }
  }

  lemma {:induction false} ScanOfPrefix(a: seq<InputEvent>, b: seq<InputEvent>)
    requires !Scan(a + b).Broken?
    ensures !Scan(a).Broken?
    decreases |b|
  {
    if b == [] {
      assert a + b == a;
    } else {
      assert (a + b)[..|a + b| - 1] == a + b[..|b| - 1];
      ScanOfPrefix(a, b[..|b| - 1]);
    }
  }

  /** Of the events accepted since the last reset, the primary edges strictly alternate. */
  lemma AcceptedAlternates(calls: seq<Call>)
    ensures Alternate(Edges(Run(calls).accepted))
  {
    RunKeepsInv(calls);
    ScanIsAlternation(Run(calls).accepted);
  }

  /**
   What the engine has been given since the last reset alternates too, until the size limit
   makes the queue drop an event: from then on more has been taken off than dispatched.
   */
  lemma DispatchedAlternates(calls: seq<Call>)
    requires |Run(calls).dispatched| == |Run(calls).taken|
    ensures var h := Run(calls);
            Alternate(Edges(h.dispatched)) && h.dispatched + h.pending == h.accepted
  {
    RunKeepsInv(calls);
    ScanOfPrefix(Run(calls).taken, Run(calls).pending);
    ScanIsAlternation(Run(calls).taken);
  }

  // ---------------------------------------------------------------- what the gate lets through

  /** In every run: a press needs a closed hand and room for an eighth gesture, a release its own press. */
  lemma PressAndRelease(calls: seq<Call>, e: InputEvent)
    requires e.button == 0
    ensures var g := Run(calls).gate;
            (e.kind == PointerDown ==> (g.Accepts(e) <==> g.down == None && Ups(Run(calls).pending) != 8)) &&
            (e.kind == PointerUp ==> (g.Accepts(e) <==> g.down == Some(e.pointer)))
  {
    RunKeepsInv(calls);
  }

  /** Other buttons and other kinds of events always pass and leave the gate alone. */
  lemma OthersPass(g: Gate, e: InputEvent)
    requires e.button != 0 || e.kind !in {PointerDown, PointerMove, PointerUp}
    ensures g.Accepts(e) && g.Offer(e) == g
  {
  }

  datatype GateEvent = Offered(event: InputEvent) | Dequeued(event: InputEvent)

  /** An open gate after some traffic. */
  function Through(events: seq<GateEvent>): Gate
    decreases |events|
  {
    if events == [] then OPEN_GATE
    else
      var g := Through(events[..|events| - 1]);
      match events[|events| - 1]
      case Offered(e) => g.Offer(e)
      case Dequeued(e) => g.Dequeue(e)
  }

  predicate IsEdge(e: GateEvent, pointer: int) {
    e.Offered? && e.event.button == 0 && e.event.pointer == pointer && (e.event.kind == PointerDown || e.event.kind == PointerUp)
  }

  /** At `i` the pointer was pressed in vain, and not because it is down already; it has not been pressed or released since. */
  predicate SilencedAt(events: seq<GateEvent>, pointer: int, i: nat)
    requires i < |events|
  {
    IsEdge(events[i], pointer) && events[i].event.kind == PointerDown &&
    !Through(events[..i]).Accepts(events[i].event) && Through(events[..i]).down != Some(pointer) &&
    forall j | i < j < |events| :: !IsEdge(events[j], pointer)
  }

  lemma SilencedLonger(events: seq<GateEvent>, e: GateEvent, pointer: int, i: nat)
    requires i < |events|
    ensures SilencedAt(events + [e], pointer, i) <==> SilencedAt(events, pointer, i) && !IsEdge(e, pointer)
  {
    hide Through, IsEdge;
    var longer := events + [e];
    assert longer[..i] == events[..i] && longer[i] == events[i] && longer[|events|] == e;
    if SilencedAt(events, pointer, i) && !IsEdge(e, pointer) {
      forall j | i < j < |longer| ensures !IsEdge(longer[j], pointer) {
        assert j < |events| ==> longer[j] == events[j];
      }
    }
    if SilencedAt(longer, pointer, i) {
      forall j | i < j < |events| ensures !IsEdge(events[j], pointer) {
        assert longer[j] == events[j];
      }
    }
  }

  /** Motion of the primary button is refused exactly after such a press, and taken again after the release. */
  lemma {:induction false} MotionRefusedIff(events: seq<GateEvent>, motion: InputEvent)
    requires motion.button == 0 && motion.kind == PointerMove
    ensures !Through(events).Accepts(motion) <==>
              Through(events).down != Some(motion.pointer) && exists i: nat | i < |events| :: SilencedAt(events, motion.pointer, i)
  {
    SuppressedIff(events, motion.pointer);
  }

  lemma {:induction false} DownIsNotSuppressed(events: seq<GateEvent>)
    ensures Through(events).down.Some? ==> Through(events).down.value !in Through(events).suppressed
    decreases |events|
  {
    if events != [] {
      DownIsNotSuppressed(events[..|events| - 1]);
    }
  }

  lemma {:induction false} SuppressedIff(events: seq<GateEvent>, pointer: int)
    ensures pointer in Through(events).suppressed <==> exists i: nat | i < |events| :: SilencedAt(events, pointer, i)
    decreases |events|
  {
    if events != [] {
      var n := |events| - 1;
      var before, e := events[..n], events[n];
      assert events == before + [e];
      SuppressedIff(before, pointer);
      SuppressedStep(before, e, pointer);
      hide Through, Gate.Accepts, IsEdge;
      SilencedLast(before, e, pointer);
      if IsEdge(e, pointer) {
        forall i: nat | i < n ensures !SilencedAt(events, pointer, i) {
          SilencedLonger(before, e, pointer, i);
        }
      } else if exists i: nat | i < n :: SilencedAt(before, pointer, i) {
        var i: nat :| i < n && SilencedAt(before, pointer, i);
        SilencedLonger(before, e, pointer, i);
      } else {
        forall i: nat | i < n ensures !SilencedAt(events, pointer, i) {
          SilencedLonger(before, e, pointer, i);
        }
      }
    }
  }

  lemma SilencedLast(before: seq<GateEvent>, e: GateEvent, pointer: int)
    ensures SilencedAt(before + [e], pointer, |before|) <==>
              IsEdge(e, pointer) && e.event.kind == PointerDown &&
              !Through(before).Accepts(e.event) && Through(before).down != Some(pointer)
  {
    hide Through, IsEdge, Gate.Accepts;
    assert (before + [e])[..|before|] == before && (before + [e])[|before|] == e;
  }

  lemma SuppressedStep(before: seq<GateEvent>, e: GateEvent, pointer: int)
    ensures var g := Through(before);
            pointer in Through(before + [e]).suppressed <==>
              if IsEdge(e, pointer) then e.event.kind == PointerDown && !g.Accepts(e.event) && g.down != Some(pointer)
              else pointer in g.suppressed
  {
    assert (before + [e])[..|before|] == before && (before + [e])[|before|] == e;
    DownIsNotSuppressed(before);
  }

  // ---------------------------------------------------------------- what one call does

  /** An accepted event goes to the end of the queue, and pushes the first one out if 512 are waiting. */
  lemma SendOutcome(h: Host, e: InputEvent)
    requires h.phase == Opened && e.kind != Unsupported && (e.IsPointer() ==> e.finite)
    ensures var h' := h.Apply(Send(e));
            h'.phase == Opened && h'.dispatched == h.dispatched &&
            if !h.gate.Accepts(e) then
              h'.pending == h.pending && h'.accepted == h.accepted && h'.taken == h.taken && h'.gate == h.gate.Offer(e)
            else
              h'.accepted == h.accepted + [e] &&
              if |h.pending| < 512 then h'.pending == h.pending + [e] && h'.taken == h.taken && h'.gate == h.gate.Offer(e)
              else h'.pending == h.pending[1..] + [e] && h'.taken == h.taken + [h.pending[0]] &&
                   h'.gate == h.gate.Offer(e).Dequeue(h.pending[0])
  {
    if |h.pending| >= 512 {
      assert (h.pending + [e])[1..] == h.pending[1..] + [e];
    }
  }

  /** Outside a running game, and for events it does not know or whose coordinates are not numbers, nothing changes. */
  lemma NothingSent(h: Host, e: InputEvent)
    requires h.phase != Opened || e.kind == Unsupported || (e.IsPointer() && !e.finite)
    ensures h.Apply(Send(e)) == h
  {
  }

  /** Pausing and a completed start forget queue and gate; resuming and calls out of turn change nothing else. */
  lemma PhaseOutcome(h: Host)
    ensures h.Apply(Pause) == if h.phase == Opened then Host(Paused, Gate(None, 0, {}), [], [], [], []) else h
    ensures h.Apply(Resume) == if h.phase == Paused then h.(phase := Opened) else h
    ensures h.Apply(Open) == Host(Opened, Gate(None, 0, {}), [], [], [], [])
  {
  }

  /** What is left after a tick, and what it has handed on: all up to the first failure, which is gone too. */
  lemma {:induction false} TickOutcome(h: Host, good: nat)
    ensures var n := if good < |h.pending| then good + 1 else |h.pending|;
            h.Drain(good).pending == h.pending[n..] && h.Drain(good).dispatched == h.dispatched + h.pending[..n] &&
            h.Drain(good).taken == h.taken + h.pending[..n] && h.Drain(good).accepted == h.accepted
    decreases |h.pending|
  {
    hide Host.Pop, Host.Drain;
    if h.pending == [] {
      DrainOfNothing(h, good);
      assert h.dispatched + [] == h.dispatched && h.taken + [] == h.taken;
    } else {
      PopUnfolds(h, good);
      TakenUnfolds(h);
      var n := if good < |h.pending| then good + 1 else |h.pending|;
      TakeMore(h.dispatched, h.pending, n);
      TakeMore(h.taken, h.pending, n);
      if good > 0 {
        TickOutcome(h.Pop(), good - 1);
      }
    }
  }

  lemma TakenUnfolds(h: Host)
    requires h.pending != []
    ensures h.Pop().taken == h.taken + [h.pending[0]] && h.Pop().accepted == h.accepted
  {
  }

  lemma TakeMore(before: seq<InputEvent>, events: seq<InputEvent>, n: nat)
    requires 0 < n <= |events|
    ensures (before + [events[0]]) + events[1..][..n - 1] == before + events[..n] && events[1..][n - 1..] == events[n..]
    ensures n == 1 ==> before + [events[0]] == before + events[..n]
  {
  }

  lemma {:induction false} DrainKeepsDown(h: Host, good: nat)
    ensures h.Drain(good).gate.down == h.gate.down && h.Drain(good).phase == h.phase
    decreases |h.pending|
  {
    if h.pending != [] && good > 0 {
      DrainKeepsDown(h.Pop(), good - 1);
    }
  }

  /** A complete tick re-opens a full gate: the next press is accepted unless one is still down. */
  lemma TickReopens(calls: seq<Call>, good: nat, press: InputEvent)
    requires Run(calls).phase == Opened && |Run(calls).pending| <= good && press.IsDown()
    ensures var g := Run(calls).Apply(Tick(good)).gate;
            g.Accepts(press) <==> Run(calls).gate.down == None
  {
    RunKeepsInv(calls);
    DrainKeepsInv(Run(calls), good);
    DrainKeepsDown(Run(calls), good);
  }
}
