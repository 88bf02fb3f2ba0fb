/**
 One document spelled out byte for byte, with values of every kind (tools/inspect_tjs_ns0.py,
 `Checker`, `Reader`): it fixes the tags, the byte order, the order in which the check bytes are
 drawn, and the checksum.
 */
module TjsKnownPack {
  import opened Common
  import opened TjsFormat
  import opened TjsReader
  import opened TjsLoad
  import P = Ns0Pack

  const SEED := Seed(0x3b, 0xc0, 0x01, 0x2a)

  /** {"a": [null, -2, 1.5], "b": an emoji in two code units} */
  const DOCUMENT := Dict([Entry([0x61], LIST), Entry([0x62], Text([0xd83d, 0xde00]))])

  const LIST := List([Null, Integer(-2), Real([0x00, 0x00, 0x00, 0x00, 0x00, 0x00, 0xf8, 0x3f])])

  const LIST_BYTES: seq<byte> :=
    [0x81, 0x77] + ([0x03, 0x00, 0x00, 0x00] + (NULL_BYTES + (MINUS_TWO_BYTES + REAL_BYTES)))

  const NULL_BYTES: seq<byte> := [0x00, 0x77]

  const MINUS_TWO_BYTES: seq<byte> := [0x04, 0x7a] + [0xfe, 0xff, 0xff, 0xff, 0xff, 0xff, 0xff, 0xff]

  const REAL_BYTES: seq<byte> := [0x05, 0x22] + [0x00, 0x00, 0x00, 0x00, 0x00, 0x00, 0xf8, 0x3f]

  const TEXT_BYTES: seq<byte> := [0x02, 0xbb] + [0x02, 0x00, 0x00, 0x00, 0x3d, 0xd8, 0x00, 0xde]

  const DOCUMENT_BYTES: seq<byte> :=
    [0xc1, 0x33] + ([0x02, 0x00, 0x00, 0x00] +
    ([0x01, 0x00, 0x00, 0x00, 0x61, 0x00] + (LIST_BYTES +
    ([0x01, 0x00, 0x00, 0x00, 0x62, 0x00] + TEXT_BYTES))))

  // ---------------------------------------------------------------- the checker along the document

  lemma SeedsAlong()
    ensures Begin(SEED) == Seed(0x11, 0xc0, 0x01, 0x2a)
    ensures Round(Seed(0x11, 0xc0, 0x01, 0x2a)) == Seed(0xc0, 0x01, 0x33, 0x2a)
    ensures Round(Seed(0xc0, 0x01, 0x33, 0x2a)) == Seed(0x01, 0x33, 0x77, 0x2a)
    ensures Round(Seed(0x01, 0x33, 0x77, 0x2a)) == Seed(0x33, 0x77, 0x7a, 0x2a)
    ensures Round(Seed(0x33, 0x77, 0x7a, 0x2a)) == Seed(0x77, 0x7a, 0x22, 0x2a)
    ensures Round(Seed(0x77, 0x7a, 0x22, 0x2a)) == Seed(0x7a, 0x22, 0xbb, 0x2a)
  {
  }

  lemma FinalSeed()
    ensures FinalBytes(Seed(0x7a, 0x22, 0xbb, 0x2a)) == [0x84, 0x47, 0x26]
  {
  }

  // ---------------------------------------------------------------- numbers and texts

  lemma SmallDigits(n: byte)
    ensures Digits(n, 4) == [n, 0, 0, 0]
  {
    assert Digits(0, 3) == [0] + Digits(0, 2) && Digits(0, 2) == [0] + Digits(0, 1) && Digits(0, 1) == [0] + Digits(0, 0);
  }

  lemma {:induction false} AllOnes(n: nat)
    ensures LE(seq(n, _ => 0xff)) == Pow256(n) - 1
    decreases n
  {
    if n > 0 {
      AllOnes(n - 1);
      assert seq(n, _ => 0xff as byte)[1..] == seq(n - 1, _ => 0xff);
    }
  }

  lemma MinusTwo()
    ensures IsInt64(-2) && Digits(Unsigned(-2), 8) == [0xfe, 0xff, 0xff, 0xff, 0xff, 0xff, 0xff, 0xff]
  {
    var bytes: seq<byte> := [0xfe, 0xff, 0xff, 0xff, 0xff, 0xff, 0xff, 0xff];
    assert bytes[1..] == seq(7, _ => 0xff);
    AllOnes(7);
    assert LE(bytes) == Pow256(8) - 2;
    DigitsOfLE(bytes);
  }

  lemma OneUnit(u: byte)
    ensures TextBytes([u]) == [0x01, 0x00, 0x00, 0x00, u, 0x00]
  {
    SmallDigits(1);
    assert UnitBytes([u as unit][1..]) == [];
  }

  lemma Emoji()
    ensures TextBytes([0xd83d, 0xde00]) == [0x02, 0x00, 0x00, 0x00, 0x3d, 0xd8, 0x00, 0xde]
  {
    SmallDigits(2);
    assert [0xd83d as unit, 0xde00][1..] == [0xde00];
    assert UnitBytes([0xde00]) == [0x00, 0xde] + UnitBytes([]);
  }

  // ---------------------------------------------------------------- the values, innermost first

  lemma PrintIs(v: Value, s: Seed)
    ensures Print(v, s).0 == [Kind(v), CheckByte(s, Kind(v))] + PrintBody(v, After(s, Kind(v))).0
    ensures Print(v, s).1 == PrintBody(v, After(s, Kind(v))).1
  {
  }

  /** The tag of a value other than null, drawn from a seed whose next one is `t`. */
  lemma Tagged(v: Value, s: Seed, t: Seed, check: byte, body: seq<byte>, u: Seed)
    requires Kind(v) != 0 && Round(s) == t && t.b2 as int == check && PrintBody(v, t) == (body, u)
    ensures Print(v, s) == ([Kind(v), check] + body, u)
  {
    hide Round, PrintBody;
    PrintIs(v, s);
  }

  lemma NullPrinted()
    ensures Print(Null, Seed(0x01, 0x33, 0x77, 0x2a)) == (NULL_BYTES, Seed(0x01, 0x33, 0x77, 0x2a))
  {
    hide Round;
    PrintIs(Null, Seed(0x01, 0x33, 0x77, 0x2a));
    assert NULL_BYTES + [] == NULL_BYTES;
  }

  lemma MinusTwoPrinted()
    ensures Print(Integer(-2), Seed(0x01, 0x33, 0x77, 0x2a)) == (MINUS_TWO_BYTES, Seed(0x33, 0x77, 0x7a, 0x2a))
  {
    SeedsAlong();
    MinusTwo();
    hide Round, Unsigned, Digits, IsInt64;
    var t := Seed(0x33, 0x77, 0x7a, 0x2a);
    Tagged(Integer(-2), Seed(0x01, 0x33, 0x77, 0x2a), t, 0x7a, [0xfe, 0xff, 0xff, 0xff, 0xff, 0xff, 0xff, 0xff], t);
  }

  lemma RealPrinted()
    ensures var raw: seq<byte> := [0x00, 0x00, 0x00, 0x00, 0x00, 0x00, 0xf8, 0x3f];
            Print(Real(raw), Seed(0x33, 0x77, 0x7a, 0x2a)) == (REAL_BYTES, Seed(0x77, 0x7a, 0x22, 0x2a))
  {
    SeedsAlong();
    hide Round;
    var raw: seq<byte> := [0x00, 0x00, 0x00, 0x00, 0x00, 0x00, 0xf8, 0x3f];
    var t := Seed(0x77, 0x7a, 0x22, 0x2a);
    Tagged(Real(raw), Seed(0x33, 0x77, 0x7a, 0x2a), t, 0x22, raw, t);
  }

  lemma TextPrinted()
    ensures Print(Text([0xd83d, 0xde00]), Seed(0x77, 0x7a, 0x22, 0x2a)) == (TEXT_BYTES, Seed(0x7a, 0x22, 0xbb, 0x2a))
  {
    SeedsAlong();
    Emoji();
    hide Round, TextBytes;
    var t := Seed(0x7a, 0x22, 0xbb, 0x2a);
    Tagged(Text([0xd83d, 0xde00]), Seed(0x77, 0x7a, 0x22, 0x2a), t, 0xbb,
           [0x02, 0x00, 0x00, 0x00, 0x3d, 0xd8, 0x00, 0xde], t);
  }

  lemma ItemsStep(head: Value, tail: seq<Value>, s: Seed, a: seq<byte>, t: Seed, b: seq<byte>, u: Seed)
    requires Print(head, s) == (a, t) && PrintItems(tail, t) == (b, u)
    ensures PrintItems([head] + tail, s) == (a + b, u)
  {
    hide Print;
    assert ([head] + tail)[1..] == tail;
  }

  lemma PairsStep(key: seq<unit>, head: Value, tail: seq<Entry>, s: Seed, k: seq<byte>, a: seq<byte>, t: Seed, b: seq<byte>, u: Seed)
    requires TextBytes(key) == k && Print(head, s) == (a, t) && PrintPairs(tail, t) == (b, u)
    ensures PrintPairs([Entry(key, head)] + tail, s) == (k + (a + b), u)
  {
    hide Print, TextBytes;
    assert ([Entry(key, head)] + tail)[1..] == tail;
  }

  lemma ListPrinted()
    ensures Print(LIST, Seed(0xc0, 0x01, 0x33, 0x2a)) == (LIST_BYTES, Seed(0x77, 0x7a, 0x22, 0x2a))
  {
    SeedsAlong();
    SmallDigits(3);
    NullPrinted();
    MinusTwoPrinted();
    RealPrinted();
    assert Seed(0x01, 0x33, 0x77, 0x2a).b2 as int == 0x77;
    hide *;
    var s, t, u := Seed(0x01, 0x33, 0x77, 0x2a), Seed(0x33, 0x77, 0x7a, 0x2a), Seed(0x77, 0x7a, 0x22, 0x2a);
    var last := Real([0x00, 0x00, 0x00, 0x00, 0x00, 0x00, 0xf8, 0x3f]);
    LastItem(last, t, REAL_BYTES, u);
    ItemsStep(Integer(-2), [last], s, MINUS_TWO_BYTES, t, REAL_BYTES, u);
    ItemsStep(Null, [Integer(-2)] + [last], s, NULL_BYTES, s, MINUS_TWO_BYTES + REAL_BYTES, u);
    assert [Null] + ([Integer(-2)] + [last]) == LIST.items;
    ListBody(LIST.items, s, [0x03, 0x00, 0x00, 0x00], NULL_BYTES + (MINUS_TWO_BYTES + REAL_BYTES), u);
    ListKind(LIST.items);
    Tagged(LIST, Seed(0xc0, 0x01, 0x33, 0x2a), s, 0x77,
           [0x03, 0x00, 0x00, 0x00] + (NULL_BYTES + (MINUS_TWO_BYTES + REAL_BYTES)), u);
  }

  lemma ListKind(items: seq<Value>)
    ensures Kind(List(items)) == 0x81
  {
  }

  lemma DictKind(pairs: seq<Entry>)
    ensures Kind(Dict(pairs)) == 0xc1
  {
  }

  lemma ListBody(items: seq<Value>, s: Seed, count: seq<byte>, body: seq<byte>, u: Seed)
    requires Digits(|items|, 4) == count && PrintItems(items, s) == (body, u)
    ensures PrintBody(List(items), s) == (count + body, u)
  {
    hide Digits, PrintItems;
  }

  lemma DictBody(pairs: seq<Entry>, s: Seed, count: seq<byte>, body: seq<byte>, u: Seed)
    requires Digits(|pairs|, 4) == count && PrintPairs(pairs, s) == (body, u)
    ensures PrintBody(Dict(pairs), s) == (count + body, u)
  {
    hide Digits, PrintPairs;
  }

  lemma LastItem(v: Value, s: Seed, a: seq<byte>, t: Seed)
    requires Print(v, s) == (a, t)
    ensures PrintItems([v], s) == (a, t)
  {
    hide Print;
    assert [v][1..] == [] && a + [] == a;
  }

  lemma LastPair(key: seq<unit>, v: Value, s: Seed, k: seq<byte>, a: seq<byte>, t: Seed)
    requires TextBytes(key) == k && Print(v, s) == (a, t)
    ensures PrintPairs([Entry(key, v)], s) == (k + a, t)
  {
    hide Print, TextBytes;
    assert [Entry(key, v)][1..] == [] && a + [] == a;
  }

  lemma DocumentPrinted()
    ensures Print(DOCUMENT, Begin(SEED)) == (DOCUMENT_BYTES, Seed(0x7a, 0x22, 0xbb, 0x2a))
  {
    SeedsAlong();
    SmallDigits(2);
    ListPrinted();
    TextPrinted();
    OneUnit(0x61);
    OneUnit(0x62);
    assert Seed(0xc0, 0x01, 0x33, 0x2a).b2 as int == 0x33;
    hide *;
    var s, t, u := Seed(0xc0, 0x01, 0x33, 0x2a), Seed(0x77, 0x7a, 0x22, 0x2a), Seed(0x7a, 0x22, 0xbb, 0x2a);
    var text := Text([0xd83d, 0xde00]);
    var second: seq<byte> := [0x01, 0x00, 0x00, 0x00, 0x62, 0x00] + TEXT_BYTES;
    LastPair([0x62], text, t, [0x01, 0x00, 0x00, 0x00, 0x62, 0x00], TEXT_BYTES, u);
    PairsStep([0x61], LIST, [Entry([0x62], text)], s, [0x01, 0x00, 0x00, 0x00, 0x61, 0x00], LIST_BYTES, t, second, u);
    assert [Entry([0x61], LIST)] + [Entry([0x62], text)] == DOCUMENT.pairs;
    var body := [0x01, 0x00, 0x00, 0x00, 0x61, 0x00] + (LIST_BYTES + second);
    DictBody(DOCUMENT.pairs, s, [0x02, 0x00, 0x00, 0x00], body, u);
    DictKind(DOCUMENT.pairs);
    Tagged(DOCUMENT, Begin(SEED), s, 0x33, [0x02, 0x00, 0x00, 0x00] + body, u);
  }

  lemma DocumentPrintable()
    ensures Printable(DOCUMENT, 0) && DistinctKeys(DOCUMENT)
  {
    hide Pow256;
    MinusTwo();
    assert Pow256(4) >= 4 by { FourPlaces(); }
    assert PrintableText([0x61]) && PrintableText([0x62]) by { assert [0x61 as unit][1..] == [] == [0x62 as unit][1..]; }
    assert PrintableText([0xd83d, 0xde00]) by { assert [0xd83d as unit, 0xde00][2..] == []; }
  }

  lemma FourPlaces()
    ensures Pow256(4) == 0x1_0000_0000
  {
    assert Pow256(2) == 0x1_0000;
  }

  /** The document loads from its sixty bytes, whatever the last one is and whatever follows. */
  lemma DocumentLoads(spare: byte, rest: seq<byte>)
    ensures Load(DOCUMENT_BYTES + ([0x84, 0x47, 0x26] + [spare] + rest), SEED) == Ok(DOCUMENT)
    ensures Normal(DOCUMENT) == DOCUMENT
  {
    DocumentPrinted();
    FinalSeed();
    DocumentPrintable();
    hide Print, FinalBytes, Begin, Load, Printable, DistinctKeys, Normal;
    LoadedTreeIsPrintedTree(DOCUMENT, SEED, spare, rest);
  }

  lemma PlainFile(f: P.Foreign, header: seq<byte>, payload: seq<byte>)
    requires |header| == 16 && P.IsPack(header) && header[4] == 0x6e && header[12..16] == [0, 0, 0, 0]
    ensures P.LoadFile(f, header + payload) == match Load(payload, P.SeedOf(header[8..12]))
            case Err(e) => Err(P.BadPayload(e))
            case Ok(v) => Ok(v)
  {
    hide Load, P.SeedOf, P.Ciphered;
    var data := header + payload;
    assert data[..4] == header[..4] && data[5..8] == header[5..8] && data[8..12] == header[8..12];
    assert data[12..14] == header[12..16][..2] == [0, 0] && data[14..16] == header[12..16][2..] == [0, 0];
    LittleEndian(0, 0, 0, 0);
    assert Slice(data, 16, |data|) == payload;
  }

  const HEADER: seq<byte> :=
    [0x54, 0x4a, 0x53, 0x2f, 0x6e, 0x73, 0x30, 0x00, 0x3b, 0xc0, 0x01, 0x2a, 0x00, 0x00, 0x00, 0x00]

  lemma HeaderReads()
    ensures |HEADER| == 16 && HEADER[4] == 0x6e && P.IsPack(HEADER) && HEADER[12..16] == [0, 0, 0, 0]
  {
  }

  lemma HeaderSeed()
    ensures HEADER[8..12] == [0x3b, 0xc0, 0x01, 0x2a] && P.SeedOf(HEADER[8..12]) == SEED
  {
  }

  lemma OneByOne(a: byte, b: byte, c: byte, d: byte)
    ensures [a, b, c] + [d] + [] == [a, b, c, d]
  {
  }

  /** The same document in a file, not encrypted and without an initial vector. */
  lemma KnownFile(f: P.Foreign, spare: byte)
    ensures P.LoadFile(f, HEADER + (DOCUMENT_BYTES + [0x84, 0x47, 0x26, spare])) == Ok(DOCUMENT)
  {
    hide *;
    HeaderReads();
    HeaderSeed();
    PlainFile(f, HEADER, DOCUMENT_BYTES + [0x84, 0x47, 0x26, spare]);
    DocumentLoads(spare, []);
    OneByOne(0x84, 0x47, 0x26, spare);
  }
}
