/**
 The diagnostic event queue (bridge/krkr2_runtime/src/krkr2_legacy_engine_api.cpp,
 `PushDiagnosticEvent`, `engine_set_diagnostic_config`, `engine_drain_diagnostic_events`): a
 bounded queue of JSON lines that counts what it drops, drained line by line into buffers.
 Clock readings are parameters.
 */
module DiagnosticQueue {
  import opened Common
  import opened JsonText

  // ---------------------------------------------------------------- lines

  function Ascii(c: char): byte { if 32 <= c as int < 127 then c as int else 63 }

  /** A piece of the fixed text of a line. */
  function Lit(s: string): (text: seq<byte>)
    ensures Printable(text)
  {
    seq(|s|, i requires 0 <= i < |s| => Ascii(s[i]))
  }

  function Number(n: nat): (text: seq<byte>)
    ensures Printable(text)
  {
    if n < 10 then [48 + n] else Number(n / 10) + [48 + n % 10]
  }

  datatype Event = Event(layer: seq<byte>, subsystem: seq<byte>, level: seq<byte>, name: seq<byte>,
                         time: nat, duration: nat, fields: seq<byte>)

  function Opening(session: seq<byte>, sequence: nat, time: nat): seq<byte> {
    Lit("{\"schema\":1,\"session\":\"") + Escape(session) + Lit("\",\"sequence\":") + Number(sequence)
    + Lit(",\"monotonic_us\":") + Number(time)
  }

  function Names(e: Event): seq<byte> {
    Lit(",\"platform\":\"native\",\"layer\":\"") + Escape(e.layer) + Lit("\",\"subsystem\":\"") + Escape(e.subsystem)
    + Lit("\",\"level\":\"") + Escape(e.level) + Lit("\",\"event\":\"") + Escape(e.name)
  }

  function Closing(duration: nat, dropped: nat): seq<byte> {
    Lit("\",\"duration_us\":") + Number(duration) + Lit(",\"queue_dropped\":") + Number(dropped) + Lit(",\"fields\":")
  }

  /** The text of an event: everything but the fields is escaped here. */
  function Line(session: seq<byte>, sequence: nat, dropped: nat, e: Event): seq<byte> {
    Opening(session, sequence, e.time) + Names(e) + Closing(e.duration, dropped)
    + (if e.fields == [] then Lit("{}") else e.fields) + Lit("}")
  }

  lemma OpeningIsPrintable(session: seq<byte>, sequence: nat, time: nat)
    ensures Printable(Opening(session, sequence, time))
  {
    EscapedIsPrintable(session);
    hide Lit, Number, Escape;
  }

  lemma NamesArePrintable(e: Event)
    ensures Printable(Names(e))
  {
    EscapedIsPrintable(e.layer);
    EscapedIsPrintable(e.subsystem);
    EscapedIsPrintable(e.level);
    EscapedIsPrintable(e.name);
    hide Lit, Number, Escape;
  }

  lemma ClosingIsPrintable(duration: nat, dropped: nat)
    ensures Printable(Closing(duration, dropped))
  {
    hide Lit, Number;
  }

  /** A line is one line exactly when its fields, which the caller supplies ready-made, are. */
  lemma LineIsOneLine(session: seq<byte>, sequence: nat, dropped: nat, e: Event)
    ensures 10 in Line(session, sequence, dropped, e) <==> 10 in e.fields
    ensures Printable(Line(session, sequence, dropped, e)) <==> Printable(e.fields)
  {
    OpeningIsPrintable(session, sequence, e.time);
    NamesArePrintable(e);
    ClosingIsPrintable(e.duration, dropped);
    hide Opening, Names, Closing, Lit;
    var front := Opening(session, sequence, e.time) + Names(e) + Closing(e.duration, dropped);
    var fields := if e.fields == [] then Lit("{}") else e.fields;
    PrintableConcat(front + fields, Lit("}"));
    PrintableConcat(front, fields);
    PrintableConcat(Opening(session, sequence, e.time) + Names(e), Closing(e.duration, dropped));
    PrintableConcat(Opening(session, sequence, e.time), Names(e));
    assert forall t: seq<byte> | Printable(t) :: 10 !in t;
  }

  // ---------------------------------------------------------------- the queue

  /** A queued line and the sequence number written in it. */
  datatype Record = Record(number: nat, text: seq<byte>)

  datatype Diagnostics = Diagnostics(enabled: bool, maxEvents: nat, session: seq<byte>, sequence: nat, dropped: nat,
                                     queue: seq<Record>, drained: seq<Record>) {
    /** How many events make room for one more. */
    function Surplus(): nat { if |queue| < maxEvents then 0 else |queue| - (if maxEvents == 0 then 0 else maxEvents - 1) }

    function Push(e: Event): Diagnostics {
      if !enabled then this
      else
        var k := Surplus();
        var line := Record(sequence + 1, Line(session, sequence + 1, dropped + k, e));
        this.(sequence := sequence + 1, dropped := dropped + k, queue := queue[k..] + [line])
    }

    /** The first `n` lines have been handed out. */
    function Taken(n: nat): Diagnostics
      requires n <= |queue|
    {
      this.(queue := queue[n..], drained := drained + queue[..n])
    }
  }

  function Clamp(n: nat): nat { if n < 64 then 64 else if n > 10000 then 10000 else n }

  datatype Config = Config(enabled: bool, maxEvents: nat, session: seq<byte>)

  function Configured(c: Config, started: Event): Diagnostics {
    Diagnostics(c.enabled, Clamp(c.maxEvents), c.session, 0, 0, [], []).Push(started)
  }

  /** Lines, each behind a newline. */
  function Text(lines: seq<Record>): seq<byte> {
    if lines == [] then [] else lines[0].text + [10] + Text(lines[1..])
  }

  /** How many lines fit into a buffer together with a final NUL. */
  function Fit(lines: seq<Record>, size: nat): (n: nat)
    ensures n <= |lines|
  {
    if lines == [] || |lines[0].text| + 1 >= size then 0
    else 1 + Fit(lines[1..], size - |lines[0].text| - 1)
  }

  class DiagnosticState {
    var enabled: bool
    var maxEvents: nat
    var sequence: nat
    var dropped: nat
    var sessionId: seq<byte>
    var events: seq<seq<byte>>
    ghost var queue: seq<Record>     // the events with their sequence numbers
    ghost var drained: seq<Record>

    constructor ()
      ensures Valid() && View() == Diagnostics(false, 2000, [], 0, 0, [], [])
    {
      enabled, maxEvents, sequence, dropped, sessionId, events := false, 2000, 0, 0, [], [];
      queue, drained := [], [];
    }

    ghost predicate Valid()
      reads this
    {
      maxEvents > 0 && |queue| == |events| && forall i | 0 <= i < |events| :: events[i] == queue[i].text
    }

    ghost function View(): Diagnostics
      reads this
    {
      Diagnostics(enabled, maxEvents, sessionId, sequence, dropped, queue, drained)
    }

    method Push(e: Event) returns (number: nat)
      requires Valid()
      modifies this
      ensures Valid() && View() == old(View()).Push(e)
      ensures number == if old(enabled) then old(sequence) + 1 else 0
    {
      hide Line;
      if !enabled {
        return 0;
      }
      sequence := sequence + 1;
      number := sequence;
      ghost var k := 0;
      while |events| >= maxEvents
        invariant Valid() && k <= old(View()).Surplus() && queue == old(queue)[k..]
        invariant View() == old(View()).(sequence := number, dropped := old(dropped) + k, queue := queue)
        decreases |events|
      {
        events, queue := events[1..], queue[1..];
        dropped := dropped + 1;
        k := k + 1;
      }
      var line := Line(sessionId, sequence, dropped, e);
      events, queue := events + [line], queue + [Record(number, line)];
    }

    method SetConfig(c: Config, started: Event)
      modifies this
      ensures Valid() && View() == Configured(c, started)
    {
      hide Line;
      enabled, maxEvents, sessionId := c.enabled, Clamp(c.maxEvents), c.session;
      sequence, dropped, events, queue, drained := 0, 0, [], [], [];
      if c.enabled {
        var _ := Push(started);
      }
    }

    /** Fills the buffer with whole lines, as many as fit with the final NUL. */
    method Drain(buffer: array<byte>) returns (written: nat)
      requires Valid() && buffer.Length > 0
      modifies this`events, this`queue, this`drained, buffer
      ensures Valid() && View() == old(View()).Taken(Fit(old(queue), buffer.Length))
      ensures written < buffer.Length && buffer[written] == 0
      ensures buffer[..written] == Text(old(queue)[..Fit(old(queue), buffer.Length)])
      ensures forall i | written < i < buffer.Length :: buffer[i] == old(buffer[i])
    {
      hide Text, Fit;
      written := 0;
      ghost var start, taken: nat := queue, 0;
      NoLines();
      assert start[0..] == start && start[..0] == [] && buffer[..0] == [];
      while events != []
        invariant Valid() && taken <= |start| && queue == start[taken..] && drained == old(drained) + start[..taken]
        invariant written < buffer.Length && buffer[..written] == Text(start[..taken])
        invariant taken + Fit(start[taken..], buffer.Length - written) == Fit(start, buffer.Length)
        invariant forall i | written <= i < buffer.Length :: buffer[i] == old(buffer[i])
        decreases |events|
      {
        var line := events[0];
        DrainStep(start, taken, buffer.Length - written);
        if written + |line| + 1 >= buffer.Length {
          break;
        }
        PutLine(buffer, written, line);
        written := written + |line| + 1;
        TakeOne(start, taken, old(drained));
        drained := drained + [queue[0]];
        events, queue := events[1..], queue[1..];
        taken := taken + 1;
      }
      NoLines();
      ghost var full := buffer[..];
      buffer[written] := 0;
      assert buffer[..written] == full[..written];
    }
  }

  method PutLine(buffer: array<byte>, written: nat, line: seq<byte>)
    requires written + |line| + 1 < buffer.Length
    modifies buffer
    ensures buffer[..written + |line| + 1] == old(buffer[..written]) + (line + [10])
    ensures forall i | written + |line| + 1 <= i < buffer.Length :: buffer[i] == old(buffer[i])
  {
    ghost var before := buffer[..];
    forall i | 0 <= i < |line| {
      buffer[written + i] := line[i];
    }
    buffer[written + |line|] := 10;
    Filled(before, buffer[..], written, line);
  }

  lemma TakeOne(queue: seq<Record>, taken: nat, drained: seq<Record>)
    requires taken < |queue|
    ensures queue[taken..][0] == queue[taken] && queue[taken..][1..] == queue[taken + 1..]
    ensures (drained + queue[..taken]) + [queue[taken]] == drained + queue[..taken + 1]
  {
  }

  lemma NoLines()
    ensures Text([]) == [] && forall room: nat :: Fit([], room) == 0
  {
  }

  lemma DrainStep(queue: seq<Record>, taken: nat, room: nat)
    requires taken < |queue|
    ensures Fit(queue[taken..], room) ==
            if |queue[taken].text| + 1 >= room then 0 else 1 + Fit(queue[taken + 1..], room - |queue[taken].text| - 1)
    ensures Text(queue[..taken + 1]) == Text(queue[..taken]) + (queue[taken].text + [10])
  {
    assert queue[taken..][1..] == queue[taken + 1..];
    assert queue[..taken + 1] == queue[..taken] + [queue[taken]];
    TextOneMore(queue[..taken], queue[taken]);
  }

  lemma {:induction false} TextOneMore(lines: seq<Record>, last: Record)
    ensures Text(lines + [last]) == Text(lines) + (last.text + [10])
    decreases |lines|
  {
    if lines == [] {
      assert [last][1..] == [] && lines + [last] == [last];
      assert last.text + [10] + [] == [] + (last.text + [10]);
    } else {
      assert (lines + [last])[1..] == lines[1..] + [last];
      TextOneMore(lines[1..], last);
      var head := lines[0].text + [10];
      assert head + (Text(lines[1..]) + (last.text + [10])) == (head + Text(lines[1..])) + (last.text + [10]);
    }
  }

  lemma Filled(before: seq<byte>, after: seq<byte>, written: nat, line: seq<byte>)
    requires |before| == |after| && written + |line| + 1 < |after|
    requires forall i | 0 <= i < |after| ::
               after[i] == if written <= i < written + |line| then line[i - written]
                           else if i == written + |line| then 10 else before[i]
    ensures after[..written + |line| + 1] == before[..written] + (line + [10])
    ensures after[written + |line| + 1..] == before[written + |line| + 1..]
  {
  }

  // ---------------------------------------------------------------- framing

  /** A consumer's split at newlines; text behind the last one is not a line. */
  function SplitLines(text: seq<byte>, line: seq<byte>): seq<seq<byte>>
    decreases |text|
  {
    if text == [] then []
    else if text[0] == 10 then [line] + SplitLines(text[1..], [])
    else SplitLines(text[1..], line + [text[0]])
  }

  lemma {:induction false} SplitFirst(line: seq<byte>, acc: seq<byte>, rest: seq<byte>)
    requires 10 !in line
    ensures SplitLines(line + ([10] + rest), acc) == [acc + line] + SplitLines(rest, [])
    decreases |line|
  {
    if line == [] {
      assert line + ([10] + rest) == [10] + rest && acc + line == acc;
      assert ([10] + rest)[1..] == rest;
    } else {
      var text := line + ([10] + rest);
      assert text[1..] == line[1..] + ([10] + rest);
      SplitFirst(line[1..], acc + [line[0]], rest);
      assert (acc + [line[0]]) + line[1..] == acc + line;
    }
  }

  function Texts(lines: seq<Record>): seq<seq<byte>> {
    if lines == [] then [] else [lines[0].text] + Texts(lines[1..])
  }

  /** Splitting a drained text at newlines gives back exactly the drained lines. */
  lemma {:induction false} DrainedTextSplits(lines: seq<Record>)
    requires forall i | 0 <= i < |lines| :: 10 !in lines[i].text
    ensures SplitLines(Text(lines), []) == Texts(lines)
    decreases |lines|
  {
    if lines != [] {
      var line, rest := lines[0].text, Text(lines[1..]);
      assert line + [10] + rest == line + ([10] + rest);
      SplitFirst(line, [], rest);
      assert [] + line == line;
      DrainedTextSplits(lines[1..]);
    }
  }

  // ---------------------------------------------------------------- runs

  datatype Op = Push(event: Event) | Drain(bufferSize: nat)

  function Apply(d: Diagnostics, op: Op): Diagnostics {
    match op
    case Push(e) => d.Push(e)
    case Drain(size) => if size == 0 then d else d.Taken(Fit(d.queue, size))
  }

  /** Everything since the last configuration. */
  function Run(c: Config, started: Event, ops: seq<Op>): Diagnostics
    decreases |ops|
  {
    if ops == [] then Configured(c, started) else Apply(Run(c, started, ops[..|ops| - 1]), ops[|ops| - 1])
  }

  predicate Increasing(lines: seq<Record>) {
    forall i, j | 0 <= i < j < |lines| :: lines[i].number < lines[j].number
  }

  ghost predicate Inv(d: Diagnostics) {
    && 64 <= d.maxEvents <= 10000 && |d.queue| <= d.maxEvents
    // every event is dropped, drained or queued
    && d.sequence == d.dropped + |d.drained| + |d.queue|
    // the queue holds the latest events without a gap
    && (forall i | 0 <= i < |d.queue| :: d.queue[i].number == d.sequence - |d.queue| + 1 + i)
    // drained events come out in order, all before the queued ones
    && Increasing(d.drained)
    && (forall i | 0 <= i < |d.drained| :: d.drained[i].number <= d.sequence - |d.queue|)
  }

  lemma PushKeepsInv(d: Diagnostics, e: Event)
    requires Inv(d)
    ensures Inv(d.Push(e))
  {
    hide Line;
  }

  lemma TakenKeepsInv(d: Diagnostics, n: nat)
    requires Inv(d) && n <= |d.queue|
    ensures Inv(d.Taken(n))
  {
  }

  lemma {:induction false} RunKeepsInv(c: Config, started: Event, ops: seq<Op>)
    ensures Inv(Run(c, started, ops))
    decreases |ops|
  {
    hide Inv, Line;
    if ops == [] {
      FreshInv(c);
      PushKeepsInv(Diagnostics(c.enabled, Clamp(c.maxEvents), c.session, 0, 0, [], []), started);
    } else {
      var d := Run(c, started, ops[..|ops| - 1]);
      RunKeepsInv(c, started, ops[..|ops| - 1]);
      match ops[|ops| - 1]
      case Push(e) => PushKeepsInv(d, e);
      case Drain(size) =>
        if size > 0 {
          TakenKeepsInv(d, Fit(d.queue, size));
        }
    }
  }

  lemma FreshInv(c: Config)
    ensures Inv(Diagnostics(c.enabled, Clamp(c.maxEvents), c.session, 0, 0, [], []))
  {
  }

  /** One event more: only a full queue drops one, its oldest, and the line tells how many have been dropped. */
  lemma PushOutcome(d: Diagnostics, e: Event)
    requires d.enabled && Inv(d)
    ensures var full := |d.queue| == d.maxEvents;
            var dropped := d.dropped + if full then 1 else 0;
            d.Push(e) == d.(sequence := d.sequence + 1, dropped := dropped,
                            queue := (if full then d.queue[1..] else d.queue) +
                                     [Record(d.sequence + 1, Line(d.session, d.sequence + 1, dropped, e))])
  {
    hide Line;
  }

  /** A disabled session takes nothing; an enabled one opens with its first event, number one. */
  lemma SessionStarts(c: Config, started: Event)
    ensures var d := Configured(c, started);
            d.dropped == 0 && d.drained == [] && d.session == c.session &&
            d.sequence == |d.queue| == (if c.enabled then 1 else 0) &&
            d.maxEvents == (if c.maxEvents <= 64 then 64 else if c.maxEvents >= 10000 then 10000 else c.maxEvents) &&
            (c.enabled ==> d.queue == [Record(1, Line(c.session, 1, 0, started))])
  {
    hide Line;
  }

  /** A drain hands out as many lines as leave room for the final NUL, and not one fewer. */
  lemma {:induction false} FitIsMost(lines: seq<Record>, size: nat, m: nat)
    requires size > 0 && m <= |lines|
    ensures |Text(lines[..m])| < size <==> m <= Fit(lines, size)
    decreases |lines|
  {
    if m > 0 {
      assert lines[..m][1..] == lines[1..][..m - 1] && lines[..m][0] == lines[0];
      var needed := |lines[0].text| + 1;
      if needed < size {
        FitIsMost(lines[1..], size - needed, m - 1);
      }
    }
  }

  predicate OneLiners(lines: seq<Record>) {
    forall i | 0 <= i < |lines| :: 10 !in lines[i].text
  }

  /** If no caller puts a newline into its fields, no queued or drained line contains one. */
  lemma {:induction false} RunIsFramed(c: Config, started: Event, ops: seq<Op>)
    requires 10 !in started.fields && forall i | 0 <= i < |ops| && ops[i].Push? :: 10 !in ops[i].event.fields
    ensures OneLiners(Run(c, started, ops).queue) && OneLiners(Run(c, started, ops).drained)
    decreases |ops|
  {
    hide Line, Fit;
    if ops == [] {
      LineIsOneLine(c.session, 1, 0, started);
    } else {
      var d := Run(c, started, ops[..|ops| - 1]);
      RunIsFramed(c, started, ops[..|ops| - 1]);
      var last := ops[|ops| - 1];
      if last.Push? {
        LineIsOneLine(d.session, d.sequence + 1, d.dropped + d.Surplus(), last.event);
      }
    }
  }

  lemma {:induction false} TextConcat(a: seq<Record>, b: seq<Record>)
    ensures Text(a + b) == Text(a) + Text(b)
    decreases |b|
  {
    if b == [] {
      assert a + b == a && Text(a) + [] == Text(a);
    } else {
      var n := |b| - 1;
      assert b == b[..n] + [b[n]] && a + b == (a + b[..n]) + [b[n]];
      TextConcat(a, b[..n]);
      TextOneMore(a + b[..n], b[n]);
      TextOneMore(b[..n], b[n]);
      Regroup(Text(a), Text(b[..n]), b[n].text + [10]);
    }
  }

  /**
   A consumer that appends the buffers of all drains of a session and splits the whole at newlines
   gets exactly the lines that have been drained, in order.
   */
  lemma SessionSplits(c: Config, started: Event, ops: seq<Op>, size: nat)
    requires 10 !in started.fields && forall i | 0 <= i < |ops| && ops[i].Push? :: 10 !in ops[i].event.fields
    ensures
      var d := Run(c, started, ops);
      var n := Fit(d.queue, size);
      Text(d.Taken(n).drained) == Text(d.drained) + Text(d.queue[..n]) &&
      SplitLines(Text(d.Taken(n).drained), []) == Texts(d.drained + d.queue[..n])
  {
    hide Run, Text, SplitLines, Texts, Fit;
    var d := Run(c, started, ops);
    var n := Fit(d.queue, size);
    RunIsFramed(c, started, ops);
    TextConcat(d.drained, d.queue[..n]);
    DrainedTextSplits(d.drained + d.queue[..n]);
  }
}
