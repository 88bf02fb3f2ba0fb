/**
 The value format of TJS/ns0 packs (tools/inspect_tjs_ns0.py, `Checker`, `Reader`, `load`).

 Every value carries a type tag and a check byte taken from a rolling checker; the pack ends
 in a checksum of the checker. Below, a printer for the format and a parser written as
 functions, and the proof that they are inverse to each other.
 */
module TjsFormat {
  import opened Common

  // ---------------------------------------------------------------- signed numbers

  /** Two's complement, as `struct` unpacks "<q". */
  function Signed(n: nat): int
    requires n < Pow256(8)
  {
    if 2 * n < Pow256(8) then n else n - Pow256(8)
  }

  predicate IsInt64(v: int) { -(Pow256(8) as int) <= 2 * v < Pow256(8) }

  function Unsigned(v: int): nat
    requires IsInt64(v)
  {
    if v >= 0 then v else v + Pow256(8)
  }

  // ---------------------------------------------------------------- the checker

  /** The rolling seed, as its four little-endian bytes. */
  datatype Seed = Seed(b0: bv8, b1: bv8, b2: bv8, b3: bv8)

  /** The seed a checker starts from: the lowest byte absorbs the highest. */
  function Begin(seed: Seed): Seed { seed.(b0 := seed.b0 ^ seed.b3) }

  function Tripled(b0: bv8): bv8 { b0 ^ (b0 << 1) }

  /** The byte a round makes of the first and the third one. */
  function Mix(b0: bv8, b2: bv8): bv8 { Stir(Tripled(b0), b2) }

  function Stir(a: bv8, b2: bv8): bv8 {
    var b := (a >> 2) ^ b2;
    (b >> 3) ^ b2 ^ a
  }

  function Round(s: Seed): Seed { Seed(s.b1, s.b2, Mix(s.b0, s.b2), s.b3) }

  /** The seed after a tag of this kind: null does not advance it. */
  function After(s: Seed, kind: byte): Seed { if kind == 0 then s else Round(s) }

  /** The check byte a tag of this kind must carry. */
  function CheckByte(s: Seed, kind: byte): byte { After(s, kind).b2 as int }

  /** The three bytes of the final checksum that are compared. */
  function FinalBytes(s: Seed): (bytes: seq<byte>)
    ensures |bytes| == 3
  {
    var f := Round(Round(Round(s)));
    [f.b2 as int, f.b1 as int, f.b0 as int]
  }

  /** The seed as one 32-bit number. */
  function Number(s: Seed): bv32 {
    (s.b0 as bv32) | ((s.b1 as bv32) << 8) | ((s.b2 as bv32) << 16) | ((s.b3 as bv32) << 24)
  }

  lemma BeginBytes(s: Seed)
    ensures Begin(s).b0 == s.b0 ^ s.b3 && Begin(s).b1 == s.b1 && Begin(s).b2 == s.b2 && Begin(s).b3 == s.b3
  {
  }

  lemma BeginOfNumber(s: Seed)
    ensures var n := Number(s);
            Number(Begin(s)) == (n & 0xFFFF_FF00) | ((n ^ (n >> 24)) & 0xFF)
  {
  }

  /** Mixing is linear over exclusive or, so its values at single bits, below, fix it for all bytes. */
  lemma MixIsLinear(x: bv8, y: bv8, c: bv8, d: bv8)
    ensures Mix(x, c) == Mix(x, 0) ^ Mix(0, c)
    ensures Mix(x ^ y, 0) == Mix(x, 0) ^ Mix(y, 0)
    ensures Mix(0, c ^ d) == Mix(0, c) ^ Mix(0, d)
  {
    hide *;
    MixSplits(x, c);
    MixOfSum(x, y);
    MixOfSumBehind(c, d);
  }

  lemma MixSplits(x: bv8, c: bv8)
    ensures Mix(x, c) == Mix(x, 0) ^ Mix(0, c)
  {
    hide Tripled, Stir;
    TripledOfNothing();
    StirSplits(Tripled(x), c);
  }

  lemma MixOfSum(x: bv8, y: bv8)
    ensures Mix(x ^ y, 0) == Mix(x, 0) ^ Mix(y, 0)
  {
    hide *;
    MixIsStir(x);
    MixIsStir(y);
    MixIsStir(x ^ y);
    TripledIsLinear(x, y);
    StirIsLinear(Tripled(x), Tripled(y));
  }

  lemma MixIsStir(x: bv8)
    ensures Mix(x, 0) == Stir(Tripled(x), 0)
  {
    hide Stir, Tripled;
  }

  lemma MixOfSumBehind(c: bv8, d: bv8)
    ensures Mix(0, c ^ d) == Mix(0, c) ^ Mix(0, d)
  {
    hide Tripled, Stir;
    TripledOfNothing();
    StirIsLinearBehind(c, d);
  }

  lemma TripledOfNothing()
    ensures Tripled(0) == 0
  {
  }

  lemma TripledIsLinear(x: bv8, y: bv8)
    ensures Tripled(x ^ y) == Tripled(x) ^ Tripled(y)
  {
  }

  lemma StirSplits(a: bv8, c: bv8)
    ensures Stir(a, c) == Stir(a, 0) ^ Stir(0, c)
  {
  }

  lemma StirIsLinear(a: bv8, b: bv8)
    ensures Stir(a ^ b, 0) == Stir(a, 0) ^ Stir(b, 0)
  {
  }

  lemma StirIsLinearBehind(c: bv8, d: bv8)
    ensures Stir(0, c ^ d) == Stir(0, c) ^ Stir(0, d)
  {
    StirOfNothing(c);
    StirOfNothing(d);
    StirOfNothing(c ^ d);
    hide Stir;
  }

  lemma StirOfNothing(c: bv8)
    ensures Stir(0, c) == c ^ (c >> 3)
  {
  }

  lemma MixOfBits()
    ensures Mix(0x01, 0) == 0x03 && Mix(0x02, 0) == 0x06 && Mix(0x04, 0) == 0x0c && Mix(0x08, 0) == 0x18
    ensures Mix(0x10, 0) == 0x31 && Mix(0x20, 0) == 0x63 && Mix(0x40, 0) == 0xc6 && Mix(0x80, 0) == 0x84
    ensures Mix(0, 0x01) == 0x01 && Mix(0, 0x02) == 0x02 && Mix(0, 0x04) == 0x04 && Mix(0, 0x08) == 0x09
    ensures Mix(0, 0x10) == 0x12 && Mix(0, 0x20) == 0x24 && Mix(0, 0x40) == 0x48 && Mix(0, 0x80) == 0x90
  {
  }

  /** A round loses nothing: the three bytes it mixes can be recovered. */
  lemma RoundIsInjective(s: Seed, t: Seed)
    requires Round(s).b0 == Round(t).b0 && Round(s).b1 == Round(t).b1 && Round(s).b2 == Round(t).b2
    ensures s.b0 == t.b0 && s.b1 == t.b1 && s.b2 == t.b2
  {
    MixIsInjective(s.b0, t.b0, s.b2);
  }

  lemma MixIsInjective(x: bv8, y: bv8, c: bv8)
    requires Mix(x, c) == Mix(y, c)
    ensures x == y
  {
    var a, b := Tripled(x), Tripled(y);
    assert Stir(a, c) == Stir(b, c);
    hide *;
    StirIsInjective(a, b, c);
    TripledIsInjective(x, y);
  }

  lemma StirIsInjective(a: bv8, b: bv8, c: bv8)
    requires Stir(a, c) == Stir(b, c)
    ensures a == b
  {
    hide *;
    StirUndone(a, c);
    StirUndone(b, c);
  }

  /** Shifting by five a second time shifts everything out. */
  function Unstir(b: bv8, c: bv8): bv8 {
    var w := b ^ c ^ (c >> 3);
    w ^ (w >> 5)
  }

  lemma StirUndone(a: bv8, c: bv8)
    ensures Unstir(Stir(a, c), c) == a
  {
  }

  lemma TripledIsInjective(x: bv8, y: bv8)
    requires Tripled(x) == Tripled(y)
    ensures x == y
  {
  }

  lemma ByteIsInjective(x: bv8, y: bv8)
    requires x as int == y as int
    ensures x == y
  {
    assert x == (x as int) as bv8 == (y as int) as bv8 == y;
  }

  lemma FinalIsInjective(s: Seed, t: Seed)
    requires FinalBytes(s) == FinalBytes(t)
    ensures s.b0 == t.b0 && s.b1 == t.b1 && s.b2 == t.b2
  {
    var f, g := Round(Round(Round(s))), Round(Round(Round(t)));
    assert FinalBytes(s)[0] == FinalBytes(t)[0] && FinalBytes(s)[1] == FinalBytes(t)[1] && FinalBytes(s)[2] == FinalBytes(t)[2];
    ByteIsInjective(f.b0, g.b0);
    ByteIsInjective(f.b1, g.b1);
    ByteIsInjective(f.b2, g.b2);
    RoundIsInjective(Round(Round(s)), Round(Round(t)));
    RoundIsInjective(Round(s), Round(t));
    RoundIsInjective(s, t);
  }

  // ---------------------------------------------------------------- values

  type unit = u: int | 0 <= u < 0x1_0000   // a UTF-16 code unit

  datatype Value =
    | Null
    | Text(units: seq<unit>)
    | Integer(v: int)
    | Real(raw: seq<byte>)                        // the eight bytes of a double
    | List(items: seq<Value>)
    | Dict(pairs: seq<Entry>)                     // in the order of the file

  datatype Entry = Entry(key: seq<unit>, value: Value)

  function Kind(v: Value): byte {
    match v
    case Null => 0
    case Text(_) => 2
    case Integer(_) => 4
    case Real(_) => 5
    case List(_) => 0x81
    case Dict(_) => 0xC1
  }

  /** Surrogates come in pairs, high before low: the strict decoder accepts nothing else. */
  predicate WellPaired(units: seq<unit>) {
    units == [] ||
    if 0xD800 <= units[0] < 0xDC00 then
      |units| >= 2 && 0xDC00 <= units[1] < 0xE000 && WellPaired(units[2..])
    else !(0xDC00 <= units[0] < 0xE000) && WellPaired(units[1..])
  }

  predicate PrintableText(units: seq<unit>) {
    |units| < Pow256(4) && WellPaired(units)
  }

  /** The values a pack can hold at nesting depth `depth`: no deeper than 128. */
  predicate Printable(v: Value, depth: nat)
    decreases v
  {
    depth <= 128 &&
    match v
    case Null => true
    case Text(units) => PrintableText(units)
    case Integer(i) => IsInt64(i)
    case Real(raw) => |raw| == 8
    case List(items) => |items| < Pow256(4) && forall i | 0 <= i < |items| :: Printable(items[i], depth + 1)
    case Dict(pairs) =>
      |pairs| < Pow256(4) &&
      forall i | 0 <= i < |pairs| :: PrintableText(pairs[i].key) && Printable(pairs[i].value, depth + 1)
  }

  /** A high surrogate at `i` has its low one behind it, a low one its high one before it. */
  predicate PairedAt(units: seq<unit>, i: nat)
    requires i < |units|
  {
    (0xD800 <= units[i] <= 0xDBFF ==> i + 1 < |units| && 0xDC00 <= units[i + 1] <= 0xDFFF) &&
    (0xDC00 <= units[i] <= 0xDFFF ==> i > 0 && 0xD800 <= units[i - 1] <= 0xDBFF)
  }

  lemma {:induction false} WellPairedIff(units: seq<unit>)
    ensures WellPaired(units) <==> forall i :: 0 <= i < |units| ==> PairedAt(units, i)
    decreases |units|
  {
    if units != [] {
      var n := if 0xD800 <= units[0] < 0xDC00 then 2 else 1;
      if PairedAt(units, 0) {
        assert n == 2 ==> PairedAt(units, 1);
        WellPairedIff(units[n..]);
        PairedBehind(units, n);
      }
    }
  }

  lemma PairedBehind(units: seq<unit>, n: nat)
    requires 0 < n <= |units| && !(0xD800 <= units[n - 1] <= 0xDBFF)
    requires forall i :: 0 <= i < n ==> PairedAt(units, i)
    ensures (forall i :: 0 <= i < |units[n..]| ==> PairedAt(units[n..], i)) <==>
            (forall i :: 0 <= i < |units| ==> PairedAt(units, i))
  {
    var rest := units[n..];
    forall i | n <= i < |units| ensures PairedAt(units, i) <==> PairedAt(rest, i - n) {
    }
    if forall i :: 0 <= i < |rest| ==> PairedAt(rest, i) {
      forall i | n <= i < |units| ensures PairedAt(units, i) {
        assert PairedAt(rest, i - n);
      }
    }
    if forall i :: 0 <= i < |units| ==> PairedAt(units, i) {
      forall j | 0 <= j < |rest| ensures PairedAt(rest, j) {
        assert PairedAt(units, j + n);
      }
    }
  }

  /** Values nested `n` deep below the outermost one. */
  function Nest(n: nat): Value {
    if n == 0 then Null else List([Nest(n - 1)])
  }

  /** A pack can hold 128 levels below the outermost value, and not one more. */
  lemma {:induction false} NestingLimit(n: nat, depth: nat)
    ensures Printable(Nest(n), depth) <==> n + depth <= 128
    decreases n
  {
    if n > 0 {
      NestingLimit(n - 1, depth + 1);
      var items := [Nest(n - 1)];
      assert Nest(n) == List(items) && Pow256(4) >= 256;
      assert Printable(Nest(n), depth) <==> depth <= 128 && Printable(items[0], depth + 1);
    }
  }

  // ---------------------------------------------------------------- the printer

  function UnitBytes(units: seq<unit>): (bytes: seq<byte>)
    ensures |bytes| == 2 * |units|
  {
    if units == [] then [] else [units[0] % 256, units[0] / 256] + UnitBytes(units[1..])
  }

  function TextBytes(units: seq<unit>): seq<byte> {
    Digits(|units|, 4) + UnitBytes(units)
  }

  /** The bytes of a value and the seed they leave behind. */
  function Print(v: Value, s: Seed): (seq<byte>, Seed)
    decreases v, 1
  {
    var (body, s') := PrintBody(v, After(s, Kind(v)));
    ([Kind(v), CheckByte(s, Kind(v))] + body, s')
  }

  /** What follows the tag. */
  function PrintBody(v: Value, s: Seed): (seq<byte>, Seed)
    decreases v, 0
  {
    match v
    case Null => ([], s)
    case Text(units) => (TextBytes(units), s)
    case Integer(i) => (if IsInt64(i) then Digits(Unsigned(i), 8) else [], s)
    case Real(raw) => (raw, s)
    case List(items) => (Digits(|items|, 4) + PrintItems(items, s).0, PrintItems(items, s).1)
    case Dict(pairs) => (Digits(|pairs|, 4) + PrintPairs(pairs, s).0, PrintPairs(pairs, s).1)
  }

  function PrintItems(items: seq<Value>, s: Seed): (seq<byte>, Seed)
    decreases items
  {
    if items == [] then ([], s)
    else
      var (head, s1) := Print(items[0], s);
      var (tail, s2) := PrintItems(items[1..], s1);
      (head + tail, s2)
  }

  function PrintPairs(pairs: seq<Entry>, s: Seed): (seq<byte>, Seed)
    decreases pairs
  {
    if pairs == [] then ([], s)
    else
      var (head, s1) := Print(pairs[0].value, s);
      var (tail, s2) := PrintPairs(pairs[1..], s1);
      (TextBytes(pairs[0].key) + (head + tail), s2)
  }

  // ---------------------------------------------------------------- the parser

  datatype ReadError = Truncated | TooDeep | ByteCheck | BadText | UnknownKind(kind: byte)

  // What was read, what is left of the input, and the seed after it.
  type Parsed<T> = Result<(T, seq<byte>, Seed), ReadError>

  function Units(bytes: seq<byte>): (units: seq<unit>)
    requires |bytes| % 2 == 0
    ensures 2 * |units| == |bytes|
  {
    if bytes == [] then [] else [bytes[0] as int + 256 * bytes[1] as int] + Units(bytes[2..])
  }

  /** A string of `n` code units. */
  function ParseUnits(n: nat, data: seq<byte>): Result<(seq<unit>, seq<byte>), ReadError> {
    if |data| < 2 * n then Err(Truncated)
    else
      var units := Units(data[..2 * n]);
      if WellPaired(units) then Ok((units, data[2 * n..])) else Err(BadText)
  }

  function ParseText(data: seq<byte>): Result<(seq<unit>, seq<byte>), ReadError> {
    if |data| < 4 then Err(Truncated) else ParseUnits(LE(data[..4]), data[4..])
  }

  /** How much deeper values may still nest. */
  function Room(depth: nat): nat { if depth > 128 then 0 else 129 - depth }

  function ParseValue(data: seq<byte>, depth: nat, s: Seed): Parsed<Value>
    decreases Room(depth), 0, 0
  {
    if depth > 128 then Err(TooDeep)
    else if |data| < 2 then Err(Truncated)
    else if data[1] != CheckByte(s, data[0]) then Err(ByteCheck)
    else ParseBody(data[2..], data[0], depth, After(s, data[0]))
  }

  /** What follows the tag. */
  function ParseBody(data: seq<byte>, kind: byte, depth: nat, s: Seed): Parsed<Value>
    requires depth <= 128
    decreases Room(depth + 1), 2, 0
  {
    match kind
    case 0 => Ok((Null, data, s))
    case 2 =>
      (match ParseText(data)
       case Err(e) => Err(e)
       case Ok((units, rest)) => Ok((Text(units), rest, s)))
    case 4 => if |data| < 8 then Err(Truncated) else Ok((Integer(Int64(data[..8])), data[8..], s))
    case 5 => if |data| < 8 then Err(Truncated) else Ok((Real(data[..8]), data[8..], s))
    case 0x81 =>
      if |data| < 4 then Err(Truncated)
      else
        (match ParseItems(data[4..], depth + 1, s, LE(data[..4]))
         case Err(e) => Err(e)
         case Ok((items, rest, s')) => Ok((List(items), rest, s')))
    case 0xC1 =>
      if |data| < 4 then Err(Truncated)
      else
        (match ParsePairs(data[4..], depth + 1, s, LE(data[..4]))
         case Err(e) => Err(e)
         case Ok((pairs, rest, s')) => Ok((Dict(pairs), rest, s')))
    case _ => Err(UnknownKind(kind))
  }

  function Int64(bytes: seq<byte>): int
    requires |bytes| == 8
  {
    DigitsOfLE(bytes);
    Signed(LE(bytes))
  }

  function ParseItems(data: seq<byte>, depth: nat, s: Seed, n: nat): Parsed<seq<Value>>
    decreases Room(depth), 1, n
  {
    if n == 0 then Ok(([], data, s))
    else
      match ParseValue(data, depth, s)
      case Err(e) => Err(e)
      case Ok((head, rest, s1)) =>
        match ParseItems(rest, depth, s1, n - 1)
        case Err(e) => Err(e)
        case Ok((tail, last, s2)) => Ok(([head] + tail, last, s2))
  }

  function ParsePairs(data: seq<byte>, depth: nat, s: Seed, n: nat): Parsed<seq<Entry>>
    decreases Room(depth), 1, n
  {
    if n == 0 then Ok(([], data, s))
    else
      match ParseText(data)
      case Err(e) => Err(e)
      case Ok((key, rest)) =>
        match ParseValue(rest, depth, s)
        case Err(e) => Err(e)
        case Ok((head, rest1, s1)) =>
          match ParsePairs(rest1, depth, s1, n - 1)
          case Err(e) => Err(e)
          case Ok((tail, last, s2)) => Ok(([Entry(key, head)] + tail, last, s2))
  }

  /** Two's complement of 64 bits. */
  lemma SignBit(bytes: seq<byte>)
    requires |bytes| == 8
    ensures Int64(bytes) == LE(bytes) - if bytes[7] < 128 then 0 else 0x1_0000_0000_0000_0000
    ensures IsInt64(Int64(bytes))
  {
    SevenBytes(bytes);
  }

  lemma SevenBytes(bytes: seq<byte>)
    requires |bytes| == 8
    ensures LE(bytes) == LE(bytes[..7]) + 0x100_0000_0000_0000 * bytes[7] as int && LE(bytes[..7]) < 0x100_0000_0000_0000
    ensures Pow256(8) == 0x1_0000_0000_0000_0000
  {
    DigitsOfLE(bytes[..7]);
    LastDigit(bytes[..7], bytes[7]);
    assert bytes[..7] + [bytes[7]] == bytes;
    assert Pow256(4) == 0x1_0000_0000;
    assert Pow256(7) == 0x100_0000 * Pow256(4);
  }

  lemma {:induction false} LastDigit(bytes: seq<byte>, b: byte)
    ensures LE(bytes + [b]) == LE(bytes) + Pow256(|bytes|) * b
    decreases |bytes|
  {
    hide Pow256;
    OneMorePlace(|bytes|, b);
    if bytes != [] {
      LastDigit(bytes[1..], b);
      assert (bytes + [b])[1..] == bytes[1..] + [b];
    } else {
      assert [b][1..] == [];
    }
  }

  lemma OneMorePlace(k: nat, b: nat)
    ensures Pow256(0) == 1 && (k > 0 ==> Pow256(k) * b == 256 * (Pow256(k - 1) * b))
  {
  }

  /** Code units are two bytes each, the low one first. */
  lemma {:induction false} UnitAt(bytes: seq<byte>, i: nat)
    requires |bytes| % 2 == 0 && 2 * i < |bytes|
    ensures Units(bytes)[i] == bytes[2 * i] as int + 256 * bytes[2 * i + 1] as int
    decreases i
  {
    if i > 0 {
      UnitAt(bytes[2..], i - 1);
    }
  }

  /** What is found first: too deep, then cut short, then the check byte, then the kind. */
  lemma FaultsInOrder(data: seq<byte>, depth: nat, s: Seed)
    requires |data| >= 2 && data[0] !in {0x00, 0x02, 0x04, 0x05, 0x81, 0xc1}
    ensures ParseValue(data, 129 + depth, s) == ParseValue([], 129 + depth, s) == Err(TooDeep)
    ensures depth <= 128 ==>
              ParseValue([], depth, s) == ParseValue(data[..1], depth, s) == Err(Truncated) &&
              (ParseValue(data, depth, s) == Err(UnknownKind(data[0])) <==> data[1] == Round(s).b2 as int) &&
              (ParseValue(data, depth, s) == Err(ByteCheck) <==> data[1] != Round(s).b2 as int)
  {
    hide Round;
  }

  // ---------------------------------------------------------------- parsing what was printed

  lemma {:induction false} UnitsOfBytes(units: seq<unit>)
    ensures Units(UnitBytes(units)) == units
    decreases |units|
  {
    if units != [] {
      var head: seq<byte> := [units[0] % 256, units[0] / 256];
      UnitsOfBytes(units[1..]);
      assert (head + UnitBytes(units[1..]))[2..] == UnitBytes(units[1..]);
    }
  }

  lemma {:induction false} BytesOfUnits(bytes: seq<byte>)
    requires |bytes| % 2 == 0
    ensures UnitBytes(Units(bytes)) == bytes
    decreases |bytes|
  {
    if bytes != [] {
      BytesOfUnits(bytes[2..]);
      assert bytes == [bytes[0], bytes[1]] + bytes[2..];
    }
  }

  lemma CutAt(a: seq<byte>, b: seq<byte>, n: nat)
    requires |a| == n
    ensures |a + b| >= n && (a + b)[..n] == a && (a + b)[n..] == b
  {
  }

  lemma CountRoundTrip(n: nat, rest: seq<byte>)
    requires n < Pow256(4)
    ensures var data := Digits(n, 4) + rest;
            LE(data[..4]) == n && data[4..] == rest
  {
    LEOfDigits(n, 4);
    CutAt(Digits(n, 4), rest, 4);
  }

  lemma ParsePrintedText(units: seq<unit>, rest: seq<byte>)
    requires PrintableText(units)
    ensures ParseText(TextBytes(units) + rest) == Ok((units, rest))
  {
    var bytes := UnitBytes(units);
    assert TextBytes(units) + rest == Digits(|units|, 4) + (bytes + rest);
    CountRoundTrip(|units|, bytes + rest);
    UnitsOfBytes(units);
    assert (bytes + rest)[..|bytes|] == bytes && (bytes + rest)[|bytes|..] == rest;
  }

  lemma Int64RoundTrip(i: int)
    requires IsInt64(i)
    ensures Int64(Digits(Unsigned(i), 8)) == i
  {
    LEOfDigits(Unsigned(i), 8);
  }

  /** Splitting the tag off a printed value. */
  lemma TagOff(kind: byte, s: Seed, depth: nat, body: seq<byte>, rest: seq<byte>)
    requires depth <= 128
    ensures ParseValue(([kind, CheckByte(s, kind)] + body) + rest, depth, s)
         == ParseBody(body + rest, kind, depth, After(s, kind))
  {
    var data := ([kind, CheckByte(s, kind)] + body) + rest;
    assert data[2..] == body + rest;
  }

  /**
   The parser inverts the printer: it returns the tree, consumes exactly the printed bytes,
   whatever follows them, and leaves the checker in the printer's state.
   */
  lemma {:induction false} ParsePrinted(v: Value, depth: nat, s: Seed, rest: seq<byte>)
    requires Printable(v, depth)
    ensures ParseValue(Print(v, s).0 + rest, depth, s) == Ok((v, rest, Print(v, s).1))
    decreases v, 1
  {
    TagOff(Kind(v), s, depth, PrintBody(v, After(s, Kind(v))).0, rest);
    ParsePrintedBody(v, depth, After(s, Kind(v)), rest);
  }

  lemma {:induction false} ParsePrintedBody(v: Value, depth: nat, s: Seed, rest: seq<byte>)
    requires Printable(v, depth)
    ensures ParseBody(PrintBody(v, s).0 + rest, Kind(v), depth, s) == Ok((v, rest, PrintBody(v, s).1))
    decreases v, 0
  {
    hide LE, Digits, Pow256, ParseText, TextBytes, PrintableText, Int64, Unsigned, IsInt64, PrintItems, PrintPairs, ParseItems, ParsePairs;
    match v
    case Null =>
      assert [] + rest == rest;
    case Text(units) =>
      ParsePrintedText(units, rest);
    case Integer(i) =>
      Int64RoundTrip(i);
      CutAt(Digits(Unsigned(i), 8), rest, 8);
    case Real(raw) =>
      CutAt(raw, rest, 8);
    case List(items) =>
      var bytes := PrintItems(items, s).0;
      Regroup(Digits(|items|, 4), bytes, rest);
      CountRoundTrip(|items|, bytes + rest);
      ParsePrintedItems(items, depth + 1, s, rest);
    case Dict(pairs) =>
      var bytes := PrintPairs(pairs, s).0;
      Regroup(Digits(|pairs|, 4), bytes, rest);
      CountRoundTrip(|pairs|, bytes + rest);
      ParsePrintedPairs(pairs, depth + 1, s, rest);
  }

  lemma {:induction false} ParsePrintedItems(items: seq<Value>, depth: nat, s: Seed, rest: seq<byte>)
    requires forall i | 0 <= i < |items| :: Printable(items[i], depth)
    ensures ParseItems(PrintItems(items, s).0 + rest, depth, s, |items|) == Ok((items, rest, PrintItems(items, s).1))
    decreases items
  {
    hide Print, ParseValue, Printable, Round, After;
    if items == [] {
      assert [] + rest == rest;
    } else {
      var (head, s1) := Print(items[0], s);
      var (tail, s2) := PrintItems(items[1..], s1);
      assert (head + tail) + rest == head + (tail + rest);
      ParsePrinted(items[0], depth, s, tail + rest);
      ParsePrintedItems(items[1..], depth, s1, rest);
      assert [items[0]] + items[1..] == items;
    }
  }

  lemma {:induction false} ParsePrintedPairs(pairs: seq<Entry>, depth: nat, s: Seed, rest: seq<byte>)
    requires forall i | 0 <= i < |pairs| :: PrintableText(pairs[i].key) && Printable(pairs[i].value, depth)
    ensures ParsePairs(PrintPairs(pairs, s).0 + rest, depth, s, |pairs|) == Ok((pairs, rest, PrintPairs(pairs, s).1))
    decreases pairs
  {
    hide Print, ParseValue, Printable, Round, After, TextBytes, ParseText, PrintableText;
    if pairs == [] {
      assert [] + rest == rest;
    } else {
      var key := TextBytes(pairs[0].key);
      var (head, s1) := Print(pairs[0].value, s);
      var (tail, s2) := PrintPairs(pairs[1..], s1);
      assert (key + (head + tail)) + rest == key + (head + (tail + rest));
      ParsePrintedText(pairs[0].key, head + (tail + rest));
      ParsePrinted(pairs[0].value, depth, s, tail + rest);
      ParsePrintedPairs(pairs[1..], depth, s1, rest);
      assert [Entry(pairs[0].key, pairs[0].value)] + pairs[1..] == pairs;
    }
  }

  // ---------------------------------------------------------------- printing what was parsed

  lemma CountSplit(data: seq<byte>)
    requires |data| >= 4
    ensures LE(data[..4]) < Pow256(4) && data == Digits(LE(data[..4]), 4) + data[4..]
  {
    DigitsOfLE(data[..4]);
  }

  lemma ParsedTextIsPrinted(data: seq<byte>, units: seq<unit>, rest: seq<byte>)
    requires ParseText(data) == Ok((units, rest))
    ensures PrintableText(units) && data == TextBytes(units) + rest
  {
    hide LE, Digits, Pow256, Units, UnitBytes, WellPaired;
    CountSplit(data);
    var size := 2 * LE(data[..4]);
    var body := data[4..];
    BytesOfUnits(body[..size]);
    assert body == body[..size] + body[size..];
    Regroup(Digits(|units|, 4), UnitBytes(units), rest);
  }

  lemma Int64Split(data: seq<byte>)
    requires |data| >= 8
    ensures IsInt64(Int64(data[..8])) && data == Digits(Unsigned(Int64(data[..8])), 8) + data[8..]
  {
    DigitsOfLE(data[..8]);
  }

  /**
   The printer inverts the parser: bytes that parse to a tree are its printed bytes. With
   ParsePrinted, a tree has exactly one spelling from each checker state.
   */
  lemma {:induction false} ParsedIsPrinted(data: seq<byte>, depth: nat, s: Seed, v: Value, rest: seq<byte>, s': Seed)
    requires ParseValue(data, depth, s) == Ok((v, rest, s'))
    ensures Printable(v, depth) && Print(v, s).1 == s' && data == Print(v, s).0 + rest
    decreases Room(depth), 0, 0
  {
    var kind, body := data[0], data[2..];
    assert data == [kind, CheckByte(s, kind)] + body;
    BodyIsPrinted(body, kind, depth, After(s, kind), v, rest, s');
    Regroup([kind, CheckByte(s, kind)], PrintBody(v, After(s, kind)).0, rest);
  }

  lemma {:induction false} BodyIsPrinted(data: seq<byte>, kind: byte, depth: nat, s: Seed, v: Value, rest: seq<byte>, s': Seed)
    requires depth <= 128 && ParseBody(data, kind, depth, s) == Ok((v, rest, s'))
    ensures Printable(v, depth) && Kind(v) == kind
    ensures PrintBody(v, s).1 == s' && data == PrintBody(v, s).0 + rest
    decreases Room(depth + 1), 2, 0
  {
    hide Round, LE, Digits, Pow256, PrintableText, TextBytes, ParseText, Int64, IsInt64, Unsigned;
    match v
    case Null =>
      assert data == [] + rest;
    case Text(units) =>
      ParsedTextIsPrinted(data, units, rest);
    case Integer(i) =>
      Int64Split(data);
    case Real(raw) =>
      assert data == data[..8] + data[8..];
    case List(items) =>
      CountSplit(data);
      var n := LE(data[..4]);
      ItemsArePrinted(data[4..], depth + 1, s, n, items, rest, s');
      Regroup(Digits(n, 4), PrintItems(items, s).0, rest);
    case Dict(pairs) =>
      CountSplit(data);
      var n := LE(data[..4]);
      PairsArePrinted(data[4..], depth + 1, s, n, pairs, rest, s');
      Regroup(Digits(n, 4), PrintPairs(pairs, s).0, rest);
  }

  lemma {:induction false} ItemsArePrinted(data: seq<byte>, depth: nat, s: Seed, n: nat, items: seq<Value>, rest: seq<byte>, s': Seed)
    requires ParseItems(data, depth, s, n) == Ok((items, rest, s'))
    ensures |items| == n && forall i | 0 <= i < n :: Printable(items[i], depth)
    ensures PrintItems(items, s).1 == s' && data == PrintItems(items, s).0 + rest
    decreases Room(depth), 1, n
  {
    hide Print, ParseValue, Printable, Round, After;
    if n == 0 {
      assert data == [] + rest;
    } else {
      var (head, rest1, s1) := ParseValue(data, depth, s).value;
      var tail := ParseItems(rest1, depth, s1, n - 1).value.0;
      assert items[0] == head && items[1..] == tail;
      ParsedIsPrinted(data, depth, s, head, rest1, s1);
      ItemsArePrinted(rest1, depth, s1, n - 1, tail, rest, s');
      Regroup(Print(head, s).0, PrintItems(tail, s1).0, rest);
    }
  }

  lemma {:induction false} PairsArePrinted(data: seq<byte>, depth: nat, s: Seed, n: nat, pairs: seq<Entry>, rest: seq<byte>, s': Seed)
    requires ParsePairs(data, depth, s, n) == Ok((pairs, rest, s'))
    ensures |pairs| == n && forall i | 0 <= i < n :: PrintableText(pairs[i].key) && Printable(pairs[i].value, depth)
    ensures PrintPairs(pairs, s).1 == s' && data == PrintPairs(pairs, s).0 + rest
    decreases Room(depth), 1, n
  {
    hide Round, LE, Digits, Pow256, PrintableText, TextBytes, ParseText, Print, ParseValue, Printable;
    if n == 0 {
      assert data == [] + rest;
    } else {
      var (key, rest0) := ParseText(data).value;
      var (head, rest1, s1) := ParseValue(rest0, depth, s).value;
      var tail := ParsePairs(rest1, depth, s1, n - 1).value.0;
      assert pairs[0] == Entry(key, head) && pairs[1..] == tail;
      ParsedTextIsPrinted(data, key, rest0);
      ParsedIsPrinted(rest0, depth, s, head, rest1, s1);
      PairsArePrinted(rest1, depth, s1, n - 1, tail, rest, s');
      var first, more := Print(head, s).0, PrintPairs(tail, s1).0;
      Regroup(first, more, rest);
      Regroup(TextBytes(key), first + more, rest);
    }
  }
}
