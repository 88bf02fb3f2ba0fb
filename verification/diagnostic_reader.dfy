/**
 Reading diagnostic lines (bridge/krkr2_runtime/src/krkr2_legacy_engine_api.cpp,
 `PushDiagnosticEvent`) as a consumer does: the keys in their order, strings unescaped after
 section 7 of RFC 8259, numbers in decimal.
 */
module DiagnosticReader {
  import opened Common
  import opened JsonText
  import opened DiagnosticQueue

  // ---------------------------------------------------------------- numbers

  predicate IsDigit(c: byte) { '0' as int <= c <= '9' as int }

  /** The digits at the head of a text, added to those read so far, and what follows. */
  function ReadNumber(sofar: nat, data: seq<byte>): (nat, seq<byte>)
    decreases |data|
  {
    if data != [] && IsDigit(data[0]) then ReadNumber(10 * sofar + (data[0] - '0' as int), data[1..]) else (sofar, data)
  }

  lemma NumberUnfolds(n: nat)
    ensures Number(n) == (if n < 10 then [] else Number(n / 10)) + [48 + n % 10]
  {
    if n < 10 {
      assert [] + [48 + n % 10 as byte] == Number(n);
    }
  }

  lemma DigitReads(sofar: nat, d: nat, rest: seq<byte>)
    requires d < 10
    ensures ReadNumber(sofar, [48 + d] + rest) == ReadNumber(10 * sofar + d, rest)
  {
    assert ([48 + d as byte] + rest)[1..] == rest;
  }

  /** `n` read behind the digits of `sofar`. */
  function Appended(sofar: nat, n: nat): nat
    decreases n
  {
    10 * (if n < 10 then sofar else Appended(sofar, n / 10)) + n % 10
  }

  lemma {:induction false} AppendedToNothing(n: nat)
    ensures Appended(0, n) == n
    decreases n
  {
    if n >= 10 {
      AppendedToNothing(n / 10);
    }
  }

  lemma {:induction false} NumberReads(n: nat, sofar: nat, rest: seq<byte>)
    ensures ReadNumber(sofar, Number(n) + rest) == ReadNumber(Appended(sofar, n), rest)
    ensures |Number(n)| > 0 && IsDigit(Number(n)[0])
    decreases n
  {
    hide Number, ReadNumber;
    NumberUnfolds(n);
    if n < 10 {
      DigitReads(sofar, n, rest);
      assert [] + [48 + n as byte] == [48 + n as byte];
    } else {
      var last: seq<byte> := [48 + n % 10];
      NumberReads(n / 10, sofar, last + rest);
      DigitReads(Appended(sofar, n / 10), n % 10, rest);
      Regroup(Number(n / 10), last, rest);
    }
  }

  // ---------------------------------------------------------------- lines

  datatype Part = Fixed(text: string) | Words | Count

  datatype Item = Text(text: seq<byte>) | Num(n: nat)

  /** Reads a text of a fixed layout: the items in it, and what follows. */
  function Scan(layout: seq<Part>, data: seq<byte>): Option<(seq<Item>, seq<byte>)>
    decreases |layout|
  {
    if layout == [] then Some(([], data))
    else
      match layout[0]
      case Fixed(text) =>
        if Lit(text) <= data then Scan(layout[1..], data[|text|..]) else None
      case Words =>
        (match ReadString(data)
         case None => None
         case Some((text, rest)) => Behind(Text(text), Scan(layout[1..], rest)))
      case Count =>
        if data == [] || !IsDigit(data[0]) then None
        else Behind(Num(ReadNumber(0, data).0), Scan(layout[1..], ReadNumber(0, data).1))
  }

  function Behind(item: Item, more: Option<(seq<Item>, seq<byte>)>): Option<(seq<Item>, seq<byte>)> {
    match more
    case None => None
    case Some((items, rest)) => Some(([item] + items, rest))
  }

  const START: seq<Part> := [Fixed("{\"schema\":1,\"session\":\""), Words, Fixed(",\"sequence\":"), Count,
                             Fixed(",\"monotonic_us\":"), Count]

  const NAMES: seq<Part> := [Fixed(",\"platform\":\"native\",\"layer\":\""), Words, Fixed(",\"subsystem\":\""), Words,
                             Fixed(",\"level\":\""), Words, Fixed(",\"event\":\""), Words]

  const FINISH: seq<Part> := [Fixed(",\"duration_us\":"), Count, Fixed(",\"queue_dropped\":"), Count, Fixed(",\"fields\":")]

  lemma FixedReads(text: string, more: seq<Part>, rest: seq<byte>)
    ensures Scan([Fixed(text)] + more, Lit(text) + rest) == Scan(more, rest)
  {
    hide Lit;
    assert ([Fixed(text)] + more)[1..] == more;
    LitLength(text);
    assert (Lit(text) + rest)[|text|..] == rest;
  }

  lemma LitLength(text: string)
    ensures |Lit(text)| == |text|
  {
  }

  lemma WordsRead(text: seq<byte>, more: seq<Part>, rest: seq<byte>)
    ensures Scan([Words] + more, Escape(text) + ([34] + rest)) == Behind(Text(text), Scan(more, rest))
  {
    hide Escape, ReadString;
    assert ([Words] + more)[1..] == more;
    EscapedReadsBack(text, rest);
  }

  lemma CountReads(n: nat, more: seq<Part>, rest: seq<byte>)
    requires rest != [] && !IsDigit(rest[0])
    ensures Scan([Count] + more, Number(n) + rest) == Behind(Num(n), Scan(more, rest))
  {
    hide Number, IsDigit;
    assert ([Count] + more)[1..] == more;
    NumberReads(n, 0, rest);
    AppendedToNothing(n);
  }

  /** A closing quote in front of a fixed text. */
  lemma Quoted(text: string)
    ensures Lit("\"" + text) == [34] + Lit(text)
  {
  }

  // ---------------------------------------------------------------- regrouping

  lemma Three<T>(a: seq<T>, b: seq<T>, c: seq<T>, rest: seq<T>)
    ensures a + b + c + rest == a + (b + (c + rest))
  {
    Regroup(a + b, c, rest);
    Regroup(a, b, c + rest);
  }

  lemma Six<T>(a: seq<T>, b: seq<T>, c: seq<T>, d: seq<T>, e: seq<T>, f: seq<T>, rest: seq<T>)
    ensures a + b + c + d + e + f + rest == a + (b + (c + (d + (e + (f + rest)))))
  {
    Three(a + b + c, d, e, f + rest);
    Regroup(a + b + c + d + e, f, rest);
    Three(a, b, c, d + (e + (f + rest)));
  }

  lemma Five<T>(a: seq<T>, b: seq<T>, c: seq<T>, d: seq<T>, e: seq<T>, rest: seq<T>)
    ensures a + b + c + d + e + rest == a + (b + (c + (d + (e + rest))))
  {
    Three(a + b, c, d, e + rest);
    Regroup(a + b + c + d, e, rest);
    Regroup(a, b, c + (d + (e + rest)));
  }

  lemma StartParts(more: seq<Part>)
    ensures START + more == [Fixed("{\"schema\":1,\"session\":\"")] + ([Words] + ([Fixed(",\"sequence\":")] + ([Count] +
                            ([Fixed(",\"monotonic_us\":")] + ([Count] + more)))))
  {
  }

  lemma OpeningParts(session: seq<byte>, sequence: nat, time: nat, rest: seq<byte>)
    ensures Opening(session, sequence, time) + rest
         == Lit("{\"schema\":1,\"session\":\"") + (Escape(session) + ([34] + (Lit(",\"sequence\":") + (Number(sequence) +
            (Lit(",\"monotonic_us\":") + (Number(time) + rest))))))
  {
    hide Lit, Escape, Number;
    Quoted(",\"sequence\":");
    assert "\"" + ",\"sequence\":" == "\",\"sequence\":";
    Six(Lit("{\"schema\":1,\"session\":\""), Escape(session), Lit("\",\"sequence\":"), Number(sequence),
        Lit(",\"monotonic_us\":"), Number(time), rest);
    Regroup([34], Lit(",\"sequence\":"), Number(sequence) + (Lit(",\"monotonic_us\":") + (Number(time) + rest)));
  }

  lemma NamesParts(more: seq<Part>)
    ensures NAMES + more == [Fixed(",\"platform\":\"native\",\"layer\":\"")] + ([Words] + ([Fixed(",\"subsystem\":\"")] + ([Words] +
                            ([Fixed(",\"level\":\"")] + ([Words] + ([Fixed(",\"event\":\"")] + ([Words] + more)))))))
  {
  }

  lemma NamesTexts(e: Event, rest: seq<byte>)
    ensures Names(e) + ([34] + rest)
         == Lit(",\"platform\":\"native\",\"layer\":\"") + (Escape(e.layer) + ([34] + (Lit(",\"subsystem\":\"") + (Escape(e.subsystem) +
            ([34] + (Lit(",\"level\":\"") + (Escape(e.level) + ([34] + (Lit(",\"event\":\"") + (Escape(e.name) + ([34] + rest)))))))))))
  {
    hide Lit, Escape;
    Quoted(",\"subsystem\":\"");
    Quoted(",\"level\":\"");
    Quoted(",\"event\":\"");
    assert "\"" + ",\"subsystem\":\"" == "\",\"subsystem\":\"";
    assert "\"" + ",\"level\":\"" == "\",\"level\":\"";
    assert "\"" + ",\"event\":\"" == "\",\"event\":\"";
    EightTexts(Lit(",\"platform\":\"native\",\"layer\":\""), Escape(e.layer), Lit(",\"subsystem\":\""), Escape(e.subsystem),
               Lit(",\"level\":\""), Escape(e.level), Lit(",\"event\":\""), Escape(e.name), [34], rest);
  }

  lemma EightTexts<T>(a: seq<T>, b: seq<T>, c: seq<T>, d: seq<T>, e: seq<T>, f: seq<T>, g: seq<T>, h: seq<T>, q: seq<T>, rest: seq<T>)
    ensures (a + b + (q + c) + d + (q + e) + f + (q + g) + h) + (q + rest)
         == a + (b + (q + (c + (d + (q + (e + (f + (q + (g + (h + (q + rest)))))))))))
  {
    var t := h + (q + rest);
    Six(a, b, q + c, d, q + e, f, (q + g) + t);
    Regroup(a + b + (q + c) + d + (q + e) + f, q + g, t);
    Regroup(a + b + (q + c) + d + (q + e) + f + (q + g), h, q + rest);
    Regroup(q, g, t);
    Regroup(q, e, f + (q + (g + t)));
    Regroup(q, c, d + (q + (e + (f + (q + (g + t))))));
  }

  lemma FinishParts(more: seq<Part>)
    ensures FINISH + more
         == [Fixed(",\"duration_us\":")] + ([Count] + ([Fixed(",\"queue_dropped\":")] + ([Count] + ([Fixed(",\"fields\":")] + more))))
  {
  }

  lemma ClosingTexts(duration: nat, dropped: nat, rest: seq<byte>)
    ensures Closing(duration, dropped) + rest
         == [34] + (Lit(",\"duration_us\":") + (Number(duration) +
            (Lit(",\"queue_dropped\":") + (Number(dropped) + (Lit(",\"fields\":") + rest)))))
  {
    hide Lit, Number;
    Quoted(",\"duration_us\":");
    assert "\"" + ",\"duration_us\":" == "\",\"duration_us\":";
    Five([34] + Lit(",\"duration_us\":"), Number(duration), Lit(",\"queue_dropped\":"), Number(dropped), Lit(",\"fields\":"), rest);
    Regroup([34], Lit(",\"duration_us\":"),
            Number(duration) + (Lit(",\"queue_dropped\":") + (Number(dropped) + (Lit(",\"fields\":") + rest))));
  }

  // ---------------------------------------------------------------- reading a line

  lemma Comma(text: string, rest: seq<byte>)
    requires text != [] && text[0] == ','
    ensures Lit(text) + rest != [] && !IsDigit((Lit(text) + rest)[0])
  {
  }

  lemma OpeningReads(session: seq<byte>, sequence: nat, time: nat, more: seq<Part>, rest: seq<byte>)
    requires rest != [] && !IsDigit(rest[0])
    ensures Scan(START + more, Opening(session, sequence, time) + rest)
         == Behind(Text(session), Behind(Num(sequence), Behind(Num(time), Scan(more, rest))))
  {
    hide *;
    StartParts(more);
    OpeningParts(session, sequence, time, rest);
    var m3 := [Fixed(",\"monotonic_us\":")] + ([Count] + more);
    var t3 := Lit(",\"monotonic_us\":") + (Number(time) + rest);
    var m2 := [Fixed(",\"sequence\":")] + ([Count] + m3);
    var t2 := Lit(",\"sequence\":") + (Number(sequence) + t3);
    FixedReads("{\"schema\":1,\"session\":\"", [Words] + m2, Escape(session) + ([34] + t2));
    WordsRead(session, m2, t2);
    FixedReads(",\"sequence\":", [Count] + m3, Number(sequence) + t3);
    Comma(",\"monotonic_us\":", Number(time) + rest);
    CountReads(sequence, m3, t3);
    FixedReads(",\"monotonic_us\":", [Count] + more, Number(time) + rest);
    CountReads(time, more, rest);
  }

  lemma NamesRead(e: Event, more: seq<Part>, rest: seq<byte>)
    ensures Scan(NAMES + more, Names(e) + ([34] + rest))
         == Behind(Text(e.layer), Behind(Text(e.subsystem), Behind(Text(e.level), Behind(Text(e.name), Scan(more, rest)))))
  {
    hide *;
    NamesParts(more);
    NamesTexts(e, rest);
    var m4 := [Fixed(",\"event\":\"")] + ([Words] + more);
    var t4 := Lit(",\"event\":\"") + (Escape(e.name) + ([34] + rest));
    var m3 := [Fixed(",\"level\":\"")] + ([Words] + m4);
    var t3 := Lit(",\"level\":\"") + (Escape(e.level) + ([34] + t4));
    var m2 := [Fixed(",\"subsystem\":\"")] + ([Words] + m3);
    var t2 := Lit(",\"subsystem\":\"") + (Escape(e.subsystem) + ([34] + t3));
    FixedReads(",\"platform\":\"native\",\"layer\":\"", [Words] + m2, Escape(e.layer) + ([34] + t2));
    WordsRead(e.layer, m2, t2);
    FixedReads(",\"subsystem\":\"", [Words] + m3, Escape(e.subsystem) + ([34] + t3));
    WordsRead(e.subsystem, m3, t3);
    FixedReads(",\"level\":\"", [Words] + m4, Escape(e.level) + ([34] + t4));
    WordsRead(e.level, m4, t4);
    FixedReads(",\"event\":\"", [Words] + more, Escape(e.name) + ([34] + rest));
    WordsRead(e.name, more, rest);
  }

  lemma ClosingReads(duration: nat, dropped: nat, rest: seq<byte>, tail: seq<byte>)
    requires Closing(duration, dropped) + rest == [34] + tail
    ensures Scan(FINISH, tail) == Behind(Num(duration), Behind(Num(dropped), Some(([], rest))))
  {
    hide *;
    FinishParts([]);
    ClosingTexts(duration, dropped, rest);
    var m2 := [Fixed(",\"queue_dropped\":")] + ([Count] + ([Fixed(",\"fields\":")] + []));
    var t3 := Lit(",\"fields\":") + rest;
    var t2 := Lit(",\"queue_dropped\":") + (Number(dropped) + t3);
    var t1 := Lit(",\"duration_us\":") + (Number(duration) + t2);
    assert FINISH + [] == FINISH;
    assert ([34] + tail)[1..] == tail && ([34] + t1)[1..] == t1;
    FixedReads(",\"duration_us\":", [Count] + m2, Number(duration) + t2);
    Comma(",\"queue_dropped\":", Number(dropped) + t3);
    CountReads(duration, m2, t2);
    FixedReads(",\"queue_dropped\":", [Count] + ([Fixed(",\"fields\":")] + []), Number(dropped) + t3);
    Comma(",\"fields\":", rest);
    CountReads(dropped, [Fixed(",\"fields\":")] + [], t3);
    FixedReads(",\"fields\":", [], rest);
    NothingToScan(rest);
  }

  lemma NothingToScan(rest: seq<byte>)
    ensures Scan([], rest) == Some(([], rest))
  {
  }

  /** The layout of a line up to its fields. */
  const LAYOUT := START + (NAMES + FINISH)

  /** A consumer gets back all that went into a line: every text unescaped, every number, and the fields as they were. */
  lemma LineReads(session: seq<byte>, sequence: nat, dropped: nat, e: Event)
    ensures Scan(LAYOUT, Line(session, sequence, dropped, e))
         == Some(([Text(session), Num(sequence), Num(e.time), Text(e.layer), Text(e.subsystem), Text(e.level), Text(e.name),
                   Num(e.duration), Num(dropped)],
                  (if e.fields == [] then Lit("{}") else e.fields) + Lit("}")))
  {
    var rest := (if e.fields == [] then Lit("{}") else e.fields) + Lit("}");
    var opening, names, closing := Opening(session, sequence, e.time), Names(e), Closing(e.duration, dropped);
    assert Line(session, sequence, dropped, e) == opening + (names + (closing + rest)) by {
      hide Opening, Names, Closing, Lit;
      Four(opening, names, closing, if e.fields == [] then Lit("{}") else e.fields, Lit("}"));
    }
    hide *;
    ClosingTexts(e.duration, dropped, rest);
    var tail := (closing + rest)[1..];
    assert closing + rest == [34] + tail;
    ClosingReads(e.duration, dropped, rest, tail);
    NamesRead(e, FINISH, tail);
    NamesStart(e, [34] + tail);
    OpeningReads(session, sequence, e.time, NAMES + FINISH, names + ([34] + tail));
    Gathered(Text(session), Num(sequence), Num(e.time), Text(e.layer), Text(e.subsystem), Text(e.level), Text(e.name),
             Num(e.duration), Num(dropped), rest);
  }

  lemma Four<T>(a: seq<T>, b: seq<T>, c: seq<T>, d: seq<T>, e: seq<T>)
    ensures a + b + c + d + e == a + (b + (c + (d + e)))
  {
    Three(a, b, c, d + e);
    Regroup(a + b + c, d, e);
  }

  lemma NamesStart(e: Event, rest: seq<byte>)
    ensures Names(e) + rest != [] && !IsDigit((Names(e) + rest)[0])
  {
    hide Escape;
    assert Names(e)[0] == Lit(",\"platform\":\"native\",\"layer\":\"")[0];
  }

  lemma Gathered(a: Item, b: Item, c: Item, d: Item, e: Item, f: Item, g: Item, h: Item, i: Item, rest: seq<byte>)
    ensures Behind(a, Behind(b, Behind(c, Behind(d, Behind(e, Behind(f, Behind(g, Behind(h, Behind(i, Some(([], rest)))))))))))
         == Some(([a, b, c, d, e, f, g, h, i], rest))
  {
    assert [h] + ([i] + []) == [h, i];
    assert [g] + [h, i] == [g, h, i];
    assert [f] + [g, h, i] == [f, g, h, i];
    assert [e] + [f, g, h, i] == [e, f, g, h, i];
    assert [d] + [e, f, g, h, i] == [d, e, f, g, h, i];
    assert [c] + [d, e, f, g, h, i] == [c, d, e, f, g, h, i];
    assert [b] + [c, d, e, f, g, h, i] == [b, c, d, e, f, g, h, i];
    assert [a] + [b, c, d, e, f, g, h, i] == [a, b, c, d, e, f, g, h, i];
  }
}
