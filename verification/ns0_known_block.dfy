/**
 One block of the ns0 key stream worked out (tools/inspect_tjs_ns0.py, `decrypt`): a key of zeros,
 the hash 1 and the seed 2. It fixes the order of the words of the state, the rounds, and the
 order of the bytes, from the file down to the bits.
 */
module Ns0KnownBlock {
  import opened Common
  import opened Ns0Words
  import opened Ns0Cipher
  import opened Ns0Stream
  import opened Ns0Numbers
  import opened Ns0Reference
  import P = Ns0Pack

  // The state before the first round, and behind each of the eight.
  const START: Words :=
    [0x61707865, 0x3320646e, 0x79622d32, 0x6b206574,
     0, 0, 0, 0,
     0, 0, 0, 0,
     0, 0, 1, 2]

  const ROUND1: Words :=
    [0xb7877feb, 0x16526ab4, 0xb0f85005, 0xd1d26bcb,
     0x4a7d5c86, 0xfae0ea21, 0xe5611667, 0xe2a841b7,
     0x5a83fd3f, 0xa0c7c792, 0xf85ce0ff, 0x097756d4,
     0xe21e9bcf, 0x3c599472, 0xcb29679d, 0xa400ebb4]

  const ROUND2: Words :=
    [0xf43cd21b, 0xa221ed2d, 0x426989eb, 0xb877a9ff,
     0x1a6cd0c8, 0x868169df, 0x28ce95de, 0xd823a854,
     0x0778bf7f, 0x0c13380f, 0xfed96adc, 0x1a3ff139,
     0xf5f480b8, 0xa7261247, 0xbb7e9917, 0x84c47375]

  const ROUND3: Words :=
    [0x954ae61e, 0x23881489, 0xd627eaa0, 0xeb782087,
     0x285ed45e, 0x0eb743f7, 0x0e75d28a, 0xa3082b61,
     0x3af1fe93, 0x14f9d3fa, 0x7ef32172, 0x999ade62,
     0x111d43b7, 0xc39b0c66, 0xf93ae650, 0x5e34d8ca]

  const ROUND4: Words :=
    [0xe988220b, 0xe4da6a17, 0x92561566, 0x2a8275e4,
     0xf2a3f0a4, 0x17579ac6, 0x2abac307, 0x163cd1cf,
     0x870986c6, 0x5f4ec71e, 0xc9ab58c3, 0xbc89f682,
     0x7e4af740, 0x31afcd88, 0x379f0838, 0x57d83d1b]

  const ROUND5: Words :=
    [0x89c49c94, 0x2d19d8dc, 0x5f163378, 0x2e81a9c3,
     0xd0493e9a, 0x2f02b022, 0xdfc0f53f, 0x996816c6,
     0x98381b98, 0x74b9d69f, 0xddbadae1, 0x60f0b23d,
     0x2b3ef26c, 0x4c1541e4, 0x43b9f78f, 0x29bea454]

  const ROUND6: Words :=
    [0xb68edb4f, 0x7fccb245, 0xa4ea9e15, 0x59736ca9,
     0x7b750a36, 0x901610e7, 0x064fa715, 0x288eb2bc,
     0xd43d4eb2, 0x365e6e58, 0x32e7a2b8, 0x58fd7b64,
     0xbb95a143, 0x302a7eaf, 0xa1d1da46, 0x6c4a365e]

  const ROUND7: Words :=
    [0x9f2bcbac, 0x8bcf396b, 0x6be5b26b, 0xffb32a10,
     0xb0fa8235, 0x0213b4a2, 0x53a1eb4e, 0xa66414bb,
     0x06461323, 0x3fe85156, 0x5c0c2e97, 0x0afdc282,
     0xed423adb, 0x4c06a336, 0x89b880f4, 0x88c458d6]

  const ROUND8: Words :=
    [0x200283b9, 0xc170dc68, 0x38a663e9, 0xe1339a0b,
     0xdca27f6f, 0xc6cc70d8, 0xd8f39dee, 0x64458683,
     0x209417ce, 0xef3ca938, 0xcf4e9b8a, 0x3c4e5094,
     0x12ee5bdf, 0xb63da65c, 0x82a31ecd, 0x9aaa42f8]

  lemma Round1()
    ensures ColumnRound(START) == ROUND1
  {
  }

  lemma Round2()
    ensures DiagonalRound(ROUND1) == ROUND2
  {
  }

  lemma Round3()
    ensures ColumnRound(ROUND2) == ROUND3
  {
  }

  lemma Round4()
    ensures DiagonalRound(ROUND3) == ROUND4
  {
  }

  lemma Round5()
    ensures ColumnRound(ROUND4) == ROUND5
  {
  }

  lemma Round6()
    ensures DiagonalRound(ROUND5) == ROUND6
  {
  }

  lemma Round7()
    ensures ColumnRound(ROUND6) == ROUND7
  {
  }

  lemma Round8()
    ensures DiagonalRound(ROUND7) == ROUND8
  {
  }

  lemma KnownRounds()
    ensures EightRounds(START) == ROUND8
  {
    hide ColumnRound, DiagonalRound, START, ROUND1, ROUND2, ROUND3, ROUND4, ROUND5, ROUND6, ROUND7, ROUND8;
    Round1();
    Round2();
    Round3();
    Round4();
    Round5();
    Round6();
    Round7();
    Round8();
  }

  /** Words 0 and 14 of the core, one the first of the stream, one with a nonzero parameter in it. */
  lemma KnownSums()
    ensures Added(ROUND8, START)[0] == 0x8172fc1e && Added(ROUND8, START)[14] == 0x82a31ece
  {
    hide Sum;
    FirstSum();
    SomeSum();
  }

  lemma FirstSum()
    ensures Sum(0x200283b9, 0x61707865) == 0x8172fc1e
  {
  }

  lemma SomeSum()
    ensures Sum(0x82a31ecd, 1) == 0x82a31ece
  {
  }

  // ---------------------------------------------------------------- bytes as numbers

  lemma NumberOfUnpack(b0: Byte, b1: Byte, b2: Byte, b3: Byte)
    ensures Number(Unpack(b0, b1, b2, b3))
         == JoinOf(JoinOf(Number(b0), 0x100, Number(b1)), 0x1_0000, JoinOf(Number(b2), 0x100, Number(b3)))
  {
    hide Number, JoinOf, Power;
    Powers();
    NumberOfJoined(b0, b1);
    NumberOfJoined(b2, b3);
    NumberOfJoined(b0 + b1, b2 + b3);
    Regroup(b0 + b1, b2, b3);
  }

  /** A natural number as a machine word, bit by bit. */
  function FromInt(v: nat, n: nat): bv32 {
    if n == 0 then 0 else Push(v % 2 == 1, FromInt(v / 2, n - 1))
  }

  lemma {:induction false} NumberOfLowBits(v: nat, n: nat)
    ensures Number(LowBits(v, n)) == FromInt(v, n)
    decreases n
  {
    hide Number, Push, Double, Odd;
    NumberStep(LowBits(v, n));
    if n > 0 {
      NumberOfLowBits(v / 2, n - 1);
      assert LowBits(v, n)[1..] == LowBits(v / 2, n - 1);
    }
  }

  function Bit(b: bool): nat { if b then 1 else 0 }

  lemma FromIntStep(b: bool, v: nat, n: nat)
    ensures FromInt(Bit(b) + 2 * v, n + 1) == Push(b, FromInt(v, n))
  {
    hide Push;
  }

  lemma FromFour(a: bool, b: bool, c: bool, d: bool, v: nat, n: nat)
    ensures FromInt(Bit(a) + 2 * (Bit(b) + 2 * (Bit(c) + 2 * (Bit(d) + 2 * v))), n + 4)
         == Push(a, Push(b, Push(c, Push(d, FromInt(v, n)))))
  {
    hide *;
    FromIntStep(d, v, n);
    FromIntStep(c, Bit(d) + 2 * v, n + 1);
    FromIntStep(b, Bit(c) + 2 * (Bit(d) + 2 * v), n + 2);
    FromIntStep(a, Bit(b) + 2 * (Bit(c) + 2 * (Bit(d) + 2 * v)), n + 3);
  }

  /** A byte from its bits, lowest first. */
  lemma FromBits(a: bool, b: bool, c: bool, d: bool, e: bool, f: bool, g: bool, h: bool)
    ensures FromInt(Bit(a) + 2 * (Bit(b) + 2 * (Bit(c) + 2 * (Bit(d) + 2 * (Bit(e) + 2 * (Bit(f) + 2 * (Bit(g) + 2 * Bit(h))))))), 8)
         == Push(a, Push(b, Push(c, Push(d, Push(e, Push(f, Push(g, Push(h, 0))))))))
  {
    assert FromInt(0, 0) == 0;
    hide *;
    FromFour(e, f, g, h, 0, 0);
    FromFour(a, b, c, d, Bit(e) + 2 * (Bit(f) + 2 * (Bit(g) + 2 * Bit(h))), 4);
  }

  // ---------------------------------------------------------------- the first word of the stream

  lemma WordFromBytes(a: nat, b: nat, c: nat, d: nat)
    ensures Number(Unpack(LowBits(a, 8), LowBits(b, 8), LowBits(c, 8), LowBits(d, 8)))
         == JoinOf(JoinOf(FromInt(a, 8), 0x100, FromInt(b, 8)), 0x1_0000, JoinOf(FromInt(c, 8), 0x100, FromInt(d, 8)))
  {
    hide Number, JoinOf, LowBits, FromInt;
    NumberOfUnpack(LowBits(a, 8), LowBits(b, 8), LowBits(c, 8), LowBits(d, 8));
    NumberOfLowBits(a, 8);
    NumberOfLowBits(b, 8);
    NumberOfLowBits(c, 8);
    NumberOfLowBits(d, 8);
  }

  function ZeroKey(): P.Key { seq(8, _ => Zeros(32)) }

  function Source(): State { Base(ZeroKey(), LowBits(1, 32), P.SeedWord([2, 0, 0, 0])) }

  lemma FirstConstant()
    ensures Number(Unpack(LowBits(0x65, 8), LowBits(0x78, 8), LowBits(0x70, 8), LowBits(0x61, 8))) == 0x61707865
  {
    hide Number, LowBits, Unpack, FromInt;
    FromBits(true, false, true, false, false, true, true, false);
    FromBits(false, false, false, true, true, true, true, false);
    FromBits(false, false, false, false, true, true, true, false);
    FromBits(true, false, false, false, false, true, true, false);
    WordFromBytes(0x65, 0x78, 0x70, 0x61);
  }

  lemma SecondConstant()
    ensures Number(Unpack(LowBits(0x6e, 8), LowBits(0x64, 8), LowBits(0x20, 8), LowBits(0x33, 8))) == 0x3320646e
  {
    hide Number, LowBits, Unpack, FromInt;
    FromBits(false, true, true, true, false, true, true, false);
    FromBits(false, false, true, false, false, true, true, false);
    FromBits(false, false, false, false, false, true, false, false);
    FromBits(true, true, false, false, true, true, false, false);
    WordFromBytes(0x6e, 0x64, 0x20, 0x33);
  }

  lemma ThirdConstant()
    ensures Number(Unpack(LowBits(0x32, 8), LowBits(0x2d, 8), LowBits(0x62, 8), LowBits(0x79, 8))) == 0x79622d32
  {
    hide Number, LowBits, Unpack, FromInt;
    FromBits(false, true, false, false, true, true, false, false);
    FromBits(true, false, true, true, false, true, false, false);
    FromBits(false, true, false, false, false, true, true, false);
    FromBits(true, false, false, true, true, true, true, false);
    WordFromBytes(0x32, 0x2d, 0x62, 0x79);
  }

  lemma FourthConstant()
    ensures Number(Unpack(LowBits(0x74, 8), LowBits(0x65, 8), LowBits(0x20, 8), LowBits(0x6b, 8))) == 0x6b206574
  {
    hide Number, LowBits, Unpack, FromInt;
    FromBits(false, false, true, false, true, true, true, false);
    FromBits(true, false, true, false, false, true, true, false);
    FromBits(false, false, false, false, false, true, false, false);
    FromBits(true, true, false, true, false, true, true, false);
    WordFromBytes(0x74, 0x65, 0x20, 0x6b);
  }

  lemma HashWord()
    ensures Number(LowBits(1, 32)) == 1
  {
    hide Number, LowBits, Unpack, FromInt;
    FromBits(true, false, false, false, false, false, false, false);
    FromBits(false, false, false, false, false, false, false, false);
    WordFromBytes(0x1, 0x0, 0x0, 0x0);
    FourBytes(1, 0, 0, 0);
  }

  lemma SeedsWord()
    ensures Number(P.SeedWord([2, 0, 0, 0])) == 2
  {
    hide Number, LowBits, Unpack, FromInt;
    FromBits(false, true, false, false, false, false, false, false);
    FromBits(false, false, false, false, false, false, false, false);
    WordFromBytes(0x2, 0x0, 0x0, 0x0);
  }

  lemma AnswerWord()
    ensures Number(Unpack(LowBits(0x1e, 8), LowBits(0xfc, 8), LowBits(0x72, 8), LowBits(0x81, 8))) == 0x8172fc1e
  {
    hide Number, LowBits, Unpack, FromInt;
    FromBits(false, true, true, true, true, false, false, false);
    FromBits(false, false, true, true, true, true, true, true);
    FromBits(false, true, false, false, true, true, true, false);
    FromBits(true, false, false, false, false, false, false, true);
    WordFromBytes(0x1e, 0xfc, 0x72, 0x81);
  }

  lemma StartNumbers()
    ensures Numbers(Source()) == START
  {
    hide Number, LowBits, Unpack, Base, P.SeedWord, Zeros;
    FirstConstant();
    SecondConstant();
    ThirdConstant();
    FourthConstant();
    HashWord();
    SeedsWord();
    NumberOfZeros(32);
    var s, hash, seed := Source(), LowBits(1, 32), P.SeedWord([2, 0, 0, 0]);
    forall i | 0 <= i < 16 ensures Numbers(s)[i] == START[i] {
      BaseWords(ZeroKey(), hash, seed, i);
    }
  }

  lemma FirstWord()
    ensures Core(Source())[0] == Unpack(LowBits(0x1e, 8), LowBits(0xfc, 8), LowBits(0x72, 8), LowBits(0x81, 8))
  {
    hide Number, LowBits, Unpack, Source, Core, EightRounds, Added, START;
    StartNumbers();
    CoreIsReference(Source());
    KnownRounds();
    KnownSums();
    AnswerWord();
    NumberIsInjective(Core(Source())[0], Unpack(LowBits(0x1e, 8), LowBits(0xfc, 8), LowBits(0x72, 8), LowBits(0x81, 8)));
  }

  const ANSWER: seq<byte> := [0x1e, 0xfc, 0x72, 0x81]

  lemma UnpackedByte(b0: Byte, b1: Byte, b2: Byte, b3: Byte, k: nat)
    requires k < 4
    ensures ByteOf(Unpack(b0, b1, b2, b3), k) == [b0, b1, b2, b3][k]
  {
  }

  /** The key stream begins with the bytes 1e fc 72 81. */
  lemma StreamBegins(fallback: Word, k: nat)
    requires k < 4
    ensures KeyByte(Source(), fallback, k) == LowBits(ANSWER[k], 8)
  {
    hide Core, ByteOf, Unpack, Base, LowBits, Block, KeyByte;
    FirstWord();
    FirstBlock(ZeroKey(), LowBits(1, 32), P.SeedWord([2, 0, 0, 0]));
    KeyByteIs(Source(), fallback, 0, 0, k);
    UnpackedByte(LowBits(0x1e, 8), LowBits(0xfc, 8), LowBits(0x72, 8), LowBits(0x81, 8), k);
  }

  lemma ZeroBits(k: nat)
    requires k < 4
    ensures P.ToBits([0, 0, 0, 0])[k] == LowBits(0, 8) == Zeros(8)
  {
    ValueOfZero(8);
    PowerOf8();
    P.ValueOfInt(0, 8);
    ValueIsInjective(LowBits(0, 8), Zeros(8));
  }

  lemma XorWithZeros(b: Byte)
    ensures Xor(Zeros(8), b) == b
  {
  }

  lemma AnswerBits(k: nat)
    requires k < 4
    ensures P.ToBits(ANSWER)[k] == LowBits(ANSWER[k], 8)
  {
    hide LowBits;
  }

  /** Four bytes of zeros under the seed 2, where the hash functions give a key of zeros and the hash 1. */
  lemma KnownPayload(f: P.Foreign, iv: seq<byte>)
    requires f.blake2s([2, 0, 0, 0], iv) == ZeroKey() && f.xxh32([2, 0, 0, 0], iv) == LowBits(1, 32)
    ensures P.Ciphered(f, [2, 0, 0, 0], iv, [0, 0, 0, 0]) == ANSWER
  {
    hide KeyByte, Base, LowBits, Xor, ZeroFallback, P.SeedWord, P.AsByte, P.ToBits, P.OfBits, Crypt;
    var seed := P.SeedWord([2, 0, 0, 0]);
    var fallback := ZeroFallback(seed, LowBits(1, 32));
    var zeros := P.ToBits([0, 0, 0, 0]);
    forall k | 0 <= k < 4 ensures Crypt(zeros, Source(), fallback)[k] == P.ToBits(ANSWER)[k] {
      CryptAt(zeros, Source(), fallback, k);
      StreamBegins(fallback, k);
      AnswerBits(k);
      ZeroBits(k);
      XorWithZeros(KeyByte(Source(), fallback, k));
    }
    assert Crypt(zeros, Source(), fallback) == P.ToBits(ANSWER);
    P.BitsBack(ANSWER);
  }
}
