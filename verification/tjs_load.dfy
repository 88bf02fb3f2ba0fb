/**
 Loading a decrypted, uncompressed TJS/ns0 payload (tools/inspect_tjs_ns0.py, `load` from the
 checker on), and what the checksum guarantees: one payload for each value, and one seed, as
 far as the checker looks at it, for each payload.
 */
module TjsLoad {
  import opened Common
  import opened TjsFormat
  import opened TjsReader

  datatype LoadError = Unreadable(cause: ReadError) | ChecksumMismatch

  /** The value of a payload, dictionaries still as lists of entries. */
  function Load(payload: seq<byte>, seed: Seed): Result<Value, LoadError> {
    match ParseValue(payload, 0, Begin(seed))
    case Err(e) => Err(Unreadable(e))
    case Ok((v, rest, s)) =>
      if |rest| < 4 then Err(Unreadable(Truncated))
      else if rest[..3] != FinalBytes(s) then Err(ChecksumMismatch)
      else Ok(v)
  }

  method LoadPayload(payload: seq<byte>, seed: Seed) returns (result: Result<Value, LoadError>)
    ensures match Load(payload, seed)
            case Err(e) => result == Err(e)
            case Ok(v) => result == Ok(Normal(v))
  {
    var checker := new Checker(seed);
    var reader := new Reader(payload, checker);
    assert reader.Ahead() == payload;
    LoadSteps(payload, seed);
    hide *;
    var value := reader.Value(0);
    if value.Err? {
      return Err(Unreadable(value.error));
    }
    var final := reader.Take(4);
    if final.Err? {
      return Err(Unreadable(final.error));
    }
    var expected := checker.Final();
    if final.value[..3] != expected[..3] {
      return Err(ChecksumMismatch);
    }
    result := Ok(value.value);
  }

  /** Loading in the terms of the objects: four bytes are taken, three of them compared. */
  lemma LoadSteps(payload: seq<byte>, seed: Seed)
    ensures match ParseValue(payload, 0, Begin(seed))
            case Err(e) => Load(payload, seed) == Err(Unreadable(e))
            case Ok((v, rest, s)) =>
              if |rest| < 4 then Load(payload, seed) == Err(Unreadable(Truncated))
              else Load(payload, seed) ==
                     if rest[..4][..3] != (FinalBytes(s) + [s.b3 as int])[..3] then Err(ChecksumMismatch) else Ok(v)
  {
    hide ParseValue, Begin, FinalBytes;
    if ParseValue(payload, 0, Begin(seed)).Ok? {
      var (_, rest, s) := ParseValue(payload, 0, Begin(seed)).value;
      FirstThree(FinalBytes(s), s.b3 as int);
      if |rest| >= 4 {
        assert rest[..4][..3] == rest[..3];
      }
    }
  }

  lemma FirstThree(bytes: seq<byte>, spare: byte)
    requires |bytes| == 3
    ensures (bytes + [spare])[..3] == bytes
  {
  }

  /** A payload for a value; the last byte of the checksum is not compared. */
  function PackWith(v: Value, seed: Seed, spare: byte, rest: seq<byte>): seq<byte> {
    var (bytes, s) := Print(v, Begin(seed));
    bytes + (FinalBytes(s) + [spare] + rest)
  }

  /** Exactly the printed payloads load, whatever follows the checksum. */
  lemma LoadIffPrinted(payload: seq<byte>, seed: Seed, v: Value)
    ensures Load(payload, seed) == Ok(v) <==>
              Printable(v, 0) && exists spare: byte, rest :: payload == PackWith(v, seed, spare, rest)
  {
    if Load(payload, seed) == Ok(v) {
      LoadedIsPrinted(payload, seed, v);
    }
    if Printable(v, 0) && exists spare: byte, rest :: payload == PackWith(v, seed, spare, rest) {
      var spare: byte, rest :| payload == PackWith(v, seed, spare, rest);
      LoadPrinted(v, seed, spare, rest);
    }
  }

  lemma LoadPrinted(v: Value, seed: Seed, spare: byte, rest: seq<byte>)
    requires Printable(v, 0)
    ensures Load(PackWith(v, seed, spare, rest), seed) == Ok(v)
  {
    hide Print, ParseValue, Begin, FinalBytes, Printable;
    var s := Print(v, Begin(seed)).1;
    var tail := FinalBytes(s) + [spare] + rest;
    ParsePrinted(v, 0, Begin(seed), tail);
    assert tail[..3] == FinalBytes(s);
  }

  lemma LoadedIsPrinted(payload: seq<byte>, seed: Seed, v: Value)
    requires Load(payload, seed) == Ok(v)
    ensures Printable(v, 0) && exists spare: byte, rest :: payload == PackWith(v, seed, spare, rest)
  {
    hide Print, ParseValue, Begin, FinalBytes, Printable;
    var (_, tail, s) := ParseValue(payload, 0, Begin(seed)).value;
    ParsedIsPrinted(payload, 0, Begin(seed), v, tail, s);
    assert tail == tail[..3] + [tail[3]] + tail[4..];
    assert payload == PackWith(v, seed, tail[3], tail[4..]);
  }

  /** A tree of values, printed, loads back as the same tree, also through Python's dictionaries. */
  lemma LoadedTreeIsPrintedTree(v: Value, seed: Seed, spare: byte, rest: seq<byte>)
    requires Printable(v, 0) && DistinctKeys(v)
    ensures Load(PackWith(v, seed, spare, rest), seed) == Ok(Normal(v)) && Normal(v) == v
  {
    LoadPrinted(v, seed, spare, rest);
    NormalIsIdentity(v);
  }

  // ---------------------------------------------------------------- seeds

  /** The seeds differ at most in the byte the checker carries along without using it. */
  predicate Alike(s: Seed, t: Seed) { s.b0 == t.b0 && s.b1 == t.b1 && s.b2 == t.b2 }

  /**
   Two runs of a parser over the same bytes: if both succeed they read the same thing, and
   their seeds end up alike only if they started alike; runs that start alike are the same.
   */
  predicate Agree<T(==)>(p: Parsed<T>, q: Parsed<T>, alike: bool) {
    (p.Ok? && q.Ok? ==>
      p.value.0 == q.value.0 && p.value.1 == q.value.1 && (Alike(p.value.2, q.value.2) <==> alike)) &&
    (alike ==> p.Ok? == q.Ok? && (p.Err? ==> p == q))
  }

  lemma TagAgrees(s: Seed, t: Seed, kind: byte)
    ensures Alike(After(s, kind), After(t, kind)) <==> Alike(s, t)
    ensures Alike(s, t) ==> CheckByte(s, kind) == CheckByte(t, kind)
  {
    if kind != 0 && Alike(Round(s), Round(t)) {
      RoundIsInjective(s, t);
    }
  }

  lemma {:induction false} ParseTwice(data: seq<byte>, depth: nat, s: Seed, t: Seed)
    ensures Agree(ParseValue(data, depth, s), ParseValue(data, depth, t), Alike(s, t))
    decreases Room(depth), 0, 0
  {
    hide After, CheckByte, Alike, ParseBody;
    if depth <= 128 && |data| >= 2 {
      TagAgrees(s, t, data[0]);
      ParseBodyTwice(data[2..], data[0], depth, After(s, data[0]), After(t, data[0]));
    }
  }

  lemma {:induction false} ParseBodyTwice(data: seq<byte>, kind: byte, depth: nat, s: Seed, t: Seed)
    requires depth <= 128
    ensures Agree(ParseBody(data, kind, depth, s), ParseBody(data, kind, depth, t), Alike(s, t))
    decreases Room(depth + 1), 2, 0
  {
    hide Alike, ParseText, LE, Int64, ParseItems, ParsePairs;
    if kind == 0x81 && |data| >= 4 {
      ParseItemsTwice(data[4..], depth + 1, s, t, LE(data[..4]));
    } else if kind == 0xC1 && |data| >= 4 {
      ParsePairsTwice(data[4..], depth + 1, s, t, LE(data[..4]));
    }
  }

  lemma {:induction false} ParseItemsTwice(data: seq<byte>, depth: nat, s: Seed, t: Seed, n: nat)
    ensures Agree(ParseItems(data, depth, s, n), ParseItems(data, depth, t, n), Alike(s, t))
    decreases Room(depth), 1, n
  {
    hide Alike, ParseValue;
    if n > 0 {
      ParseTwice(data, depth, s, t);
      var p, q := ParseValue(data, depth, s), ParseValue(data, depth, t);
      if p.Ok? && q.Ok? {
        ParseItemsTwice(p.value.1, depth, p.value.2, q.value.2, n - 1);
      }
    }
  }

  lemma {:induction false} ParsePairsTwice(data: seq<byte>, depth: nat, s: Seed, t: Seed, n: nat)
    ensures Agree(ParsePairs(data, depth, s, n), ParsePairs(data, depth, t, n), Alike(s, t))
    decreases Room(depth), 1, n
  {
    hide Alike, ParseValue, ParseText;
    if n > 0 && ParseText(data).Ok? {
      var rest := ParseText(data).value.1;
      ParseTwice(rest, depth, s, t);
      var p, q := ParseValue(rest, depth, s), ParseValue(rest, depth, t);
      if p.Ok? && q.Ok? {
        ParsePairsTwice(p.value.1, depth, p.value.2, q.value.2, n - 1);
      }
    }
  }

  lemma FinalAgrees(s: Seed, t: Seed)
    ensures FinalBytes(s) == FinalBytes(t) <==> Alike(s, t)
  {
    if FinalBytes(s) == FinalBytes(t) {
      FinalIsInjective(s, t);
    }
  }

  /** Two seeds make checkers alike if their middle bytes agree, and the outer ones after folding. */
  lemma SeedsAlike(s: Seed, t: Seed)
    ensures Alike(Begin(s), Begin(t)) <==> s.b1 == t.b1 && s.b2 == t.b2 && s.b0 ^ s.b3 == t.b0 ^ t.b3
  {
    hide Begin;
    BeginBytes(s);
    BeginBytes(t);
  }

  /**
   A payload that loads under one seed loads under another one exactly when the two agree in their
   middle bytes and in the exclusive or of the outer ones; and then it loads the same value.
   */
  lemma LoadDeterminesSeed(payload: seq<byte>, seed: Seed, other: Seed)
    requires Load(payload, seed).Ok?
    ensures Load(payload, other).Ok? <==>
              seed.b1 == other.b1 && seed.b2 == other.b2 && seed.b0 ^ seed.b3 == other.b0 ^ other.b3
    ensures Load(payload, other).Ok? ==> Load(payload, other) == Load(payload, seed)
  {
    SeedsAlike(seed, other);
    hide Begin, ParseValue, FinalBytes, Alike;
    ParseTwice(payload, 0, Begin(seed), Begin(other));
    var p, q := ParseValue(payload, 0, Begin(seed)), ParseValue(payload, 0, Begin(other));
    if q.Ok? {
      FinalAgrees(p.value.2, q.value.2);
    }
  }

  // ---------------------------------------------------------------- a short payload

  /** Null under the seed 0x01000000: the last byte may be any, but has to be there. */
  lemma NullLoads(spare: byte)
    ensures Load([0x00, 0x00, 0x03, 0x03, 0x03, spare], Seed(0, 0, 0, 1)) == Ok(Null)
    ensures Load([0x00, 0x00, 0x03, 0x03, 0x03], Seed(0, 0, 0, 1)) == Err(Unreadable(Truncated))
    ensures Load([0x00, 0x00, 0x03, 0x03, 0x02, spare], Seed(0, 0, 0, 1)) == Err(ChecksumMismatch)
  {
    var seed := Seed(0, 0, 0, 1);
    assert FinalBytes(Begin(seed)) == [0x03, 0x03, 0x03];
    hide FinalBytes, Begin;
    var good: seq<byte>, short: seq<byte>, bad: seq<byte> :=
      [0x00, 0x00, 0x03, 0x03, 0x03, spare], [0x00, 0x00, 0x03, 0x03, 0x03], [0x00, 0x00, 0x03, 0x03, 0x02, spare];
    assert good[2..] == [0x03, 0x03, 0x03, spare] && good[2..][..3] == [0x03, 0x03, 0x03];
    assert bad[2..] == [0x03, 0x03, 0x02, spare] && bad[2..][..3][2] == 0x02;
  }
}
