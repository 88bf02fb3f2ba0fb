/**
 The key stream of the ns0 cipher and its use (tools/inspect_tjs_ns0.py). Each 1024-byte block is
 a ChaCha core of 64 bytes, continued by sixteen xorshift sequences side by side.
 */
module Ns0Stream {
  import opened Common
  import opened Ns0Words
  import opened Ns0Cipher

  // ---------------------------------------------------------------- words and bytes

  function ByteOf(w: Word, k: nat): Byte
    requires k < 4
  {
    w[8 * k..8 * k + 8]
  }

  function Unpack(b0: Byte, b1: Byte, b2: Byte, b3: Byte): Word { b0 + b1 + b2 + b3 }

  lemma UnpackBytes(w: Word)
    ensures Unpack(ByteOf(w, 0), ByteOf(w, 1), ByteOf(w, 2), ByteOf(w, 3)) == w
  {
  }

  // ---------------------------------------------------------------- one block

  /** Word `k` of a block. */
  function StreamWord(core: State, fallback: Word, k: nat): Word {
    if k < 16 then core[k]
    else
      var next := Xorshift(StreamWord(core, fallback, k - 16));
      if next == Zeros(32) then fallback else next
  }

  function StreamByte(core: State, fallback: Word, i: nat): Byte { ByteOf(StreamWord(core, fallback, i / 4), i % 4) }

  /**
   The fallback replaces a zero only in the words right after the core, at offsets 64 to 127, and
   there exactly where the core has a zero word: at most once in each of the sixteen sequences.
   */
  lemma {:induction false} FallbackOnlyOnce(core: State, fallback: Word, k: nat)
    requires fallback != Zeros(32) && k >= 16
    ensures Xorshift(StreamWord(core, fallback, k - 16)) == Zeros(32) <==> k < 32 && core[k - 16] == Zeros(32)
    ensures StreamWord(core, fallback, k) != Zeros(32)
    decreases k
  {
    hide Xorshift;
    XorshiftInvertible(StreamWord(core, fallback, k - 16));
    if k >= 32 {
      FallbackOnlyOnce(core, fallback, k - 16);
    }
  }

  /** Whenever the fallback is not used, the previous word can be recovered from the next. */
  lemma LaneIsReversible(core: State, fallback: Word, k: nat)
    requires fallback != Zeros(32) && k >= 16 && !(k < 32 && core[k - 16] == Zeros(32))
    ensures StreamWord(core, fallback, k - 16) == UnXorshift(StreamWord(core, fallback, k))
  {
    hide Xorshift, UnXorshift;
    FallbackOnlyOnce(core, fallback, k);
    XorshiftInvertible(StreamWord(core, fallback, k - 16));
  }

  function ZeroFallback(seed: Word, hash: Word): Word {
    var mixed := Xor(seed, hash);
    if mixed != Zeros(32) then mixed else if seed != Zeros(32) then seed else Ones(32)
  }

  /** Seed and hash mixed; if that is nothing the seed, and if that is nothing all ones. */
  lemma FallbackCases(seed: Word, hash: Word)
    ensures seed != hash ==> ZeroFallback(seed, hash) == Xor(seed, hash)
    ensures seed == hash != Zeros(32) ==> ZeroFallback(seed, hash) == seed
    ensures ZeroFallback(Zeros(32), Zeros(32)) == seq(32, _ => true)
  {
    if seed != hash {
      var i :| 0 <= i < 32 && seed[i] != hash[i];
      assert Xor(seed, hash)[i] && !Zeros(32)[i];
    }
    assert Xor(hash, hash) == Zeros(32) == Xor(Zeros(32), Zeros(32));
  }

  lemma FallbackIsNotZero(seed: Word, hash: Word)
    ensures ZeroFallback(seed, hash) != Zeros(32)
  {
    assert Ones(32)[0] && !Zeros(32)[0];
  }

  // ---------------------------------------------------------------- the block counter

  const ONE: Word := [true] + Zeros(31)

  function NextCounter(c: (Word, Word)): (Word, Word) {
    var low := Plus(c.0, ONE);
    (low, if low == Zeros(32) then Plus(c.1, ONE) else c.1)
  }

  function Counter(n: nat): (Word, Word) {
    if n == 0 then (Zeros(32), Zeros(32)) else NextCounter(Counter(n - 1))
  }

  /** The state block `n` starts from. */
  function Block(base: State, n: nat): State { base[12 := Counter(n).0][13 := Counter(n).1] }

  function KeyByte(base: State, fallback: Word, i: nat): Byte {
    StreamByte(Core(Block(base, i / 1024)), fallback, i % 1024)
  }

  function Crypt(payload: seq<Byte>, base: State, fallback: Word): (r: seq<Byte>)
    ensures |r| == |payload|
  {
    seq(|payload|, i requires 0 <= i < |payload| => Xor(payload[i], KeyByte(base, fallback, i)))
  }

  lemma CryptAt(payload: seq<Byte>, base: State, fallback: Word, i: nat)
    requires i < |payload|
    ensures Crypt(payload, base, fallback)[i] == Xor(payload[i], KeyByte(base, fallback, i))
  {
    hide KeyByte, Xor;
  }

  /** Encrypting and decrypting are the same operation. */
  lemma CryptIsInvolution(payload: seq<Byte>, base: State, fallback: Word)
    ensures Crypt(Crypt(payload, base, fallback), base, fallback) == payload
  {
    hide KeyByte, Crypt, Xor;
    var once := Crypt(payload, base, fallback);
    forall i | 0 <= i < |payload| ensures Crypt(once, base, fallback)[i] == payload[i] {
      CryptAt(payload, base, fallback, i);
      CryptAt(once, base, fallback, i);
      XorCancels(payload[i], KeyByte(base, fallback, i));
    }
  }

  /** A prefix can be decrypted on its own. */
  lemma CryptPrefix(payload: seq<Byte>, base: State, fallback: Word, n: nat)
    requires n <= |payload|
    ensures Crypt(payload[..n], base, fallback) == Crypt(payload, base, fallback)[..n]
  {
    hide KeyByte, Crypt, Xor;
    forall i | 0 <= i < n ensures Crypt(payload[..n], base, fallback)[i] == Crypt(payload, base, fallback)[i] {
      CryptAt(payload[..n], base, fallback, i);
      CryptAt(payload, base, fallback, i);
    }
  }

  lemma ValueOfZero(n: nat)
    ensures Value(Zeros(n)) == 0
  {
    if n > 0 {
      assert Zeros(n)[1..] == Zeros(n - 1);
      ValueOfZero(n - 1);
    }
  }

  lemma ValueOfOne()
    ensures Value(ONE) == 1
  {
    assert ONE[1..] == Zeros(31);
    ValueOfZero(31);
  }

  lemma PowerOf32()
    ensures Pow2(32) == 0x1_0000_0000
  {
    assert Pow2(8) == 256;
    assert Pow2(16) == 256 * Pow2(8);
    assert Pow2(24) == 256 * Pow2(16);
    assert Pow2(32) == 256 * Pow2(24);
  }

  /** Adding one to a word, with wrap-around. */
  lemma ValueOfNext(w: Word)
    ensures Value(w) < 0x1_0000_0000
    ensures Value(Plus(w, ONE)) == if Value(w) == 0xFFFF_FFFF then 0 else Value(w) + 1
    ensures Plus(w, ONE) == Zeros(32) <==> Value(w) == 0xFFFF_FFFF
  {
    hide Pow2, Value, AddCarry;
    PowerOf32();
    ValueOfOne();
    ValueOfZero(32);
    ValueIsBounded(w);
    PlusIsModular(w, ONE);
    if Value(w) == 0xFFFF_FFFF {
      ValueIsInjective(Plus(w, ONE), Zeros(32));
    }
  }

  function CounterValue(c: (Word, Word)): nat { Value(c.0) + 0x1_0000_0000 * Value(c.1) }

  /** The two counter words count blocks, modulo 2^64. */
  lemma {:induction false} CounterCounts(n: nat)
    ensures CounterValue(Counter(n)) == n % 0x1_0000_0000_0000_0000
  {
    hide Value, Plus;
    if n == 0 {
      ValueOfZero(32);
    } else {
      CounterCounts(n - 1);
      var c := Counter(n - 1);
      ValueOfNext(c.0);
      ValueOfNext(c.1);
      ValueOfZero(32);
    }
  }

  /** No two of the first 2^64 blocks permute the same state, nor come out of the permutation the same. */
  lemma BlocksDiffer(base: State, m: nat, n: nat)
    requires m < n < 0x1_0000_0000_0000_0000
    ensures Block(base, m) != Block(base, n) && Permute(Block(base, m)) != Permute(Block(base, n))
  {
    hide Permute, UnPermute, Counter;
    CounterCounts(m);
    CounterCounts(n);
    assert Block(base, m)[12] == Counter(m).0 && Block(base, m)[13] == Counter(m).1;
    assert Block(base, n)[12] == Counter(n).0 && Block(base, n)[13] == Counter(n).1;
    PermuteInvertible(Block(base, m));
    PermuteInvertible(Block(base, n));
  }

  // ---------------------------------------------------------------- decrypting

  /** "expand 32-byte k" (RFC 8439, section 2.3). */
  const CONSTANTS: seq<nat> := [0x61707865, 0x3320646E, 0x79622D32, 0x6B206574]

  /** The constants, the key, a block counter at zero, the hash of the initial vector and the seed. */
  function Base(key: seq<Word>, hash: Word, seed: Word): State
    requires |key| == 8
  {
    seq(4, i requires 0 <= i < 4 => LowBits(CONSTANTS[i], 32)) + key + [Zeros(32), Zeros(32), hash, seed]
  }

  const TEXT := "expand 32-byte k"

  lemma {:induction false} BitsJoin(v: nat, w: nat, n: nat, m: nat)
    requires v < Pow2(n)
    ensures LowBits(v + Pow2(n) * w, n + m) == LowBits(v, n) + LowBits(w, m)
    decreases n
  {
    hide Pow2;
    PlaceDoubled(w, n);
    if n > 0 {
      var d, h := Pow2(n) * w, Pow2(n - 1) * w;
      HalfOfSum(v, h);
      BitsJoin(v / 2, w, n - 1, m);
      assert LowBits(v + d, n + m) == [v % 2 == 1] + LowBits(v / 2 + h, n - 1 + m);
    }
  }

  lemma PlaceDoubled(w: nat, n: nat)
    ensures Pow2(0) == 1 && (n > 0 ==> Pow2(n) == 2 * Pow2(n - 1) && Pow2(n) * w == 2 * (Pow2(n - 1) * w))
  {
  }

  lemma HalfOfSum(v: nat, h: nat)
    ensures (v + 2 * h) % 2 == v % 2 && (v + 2 * h) / 2 == v / 2 + h
  {
  }

  lemma ByteJoin(v: nat, w: nat, m: nat)
    requires v < 256
    ensures LowBits(v + 256 * w, 8 + m) == LowBits(v, 8) + LowBits(w, m)
  {
    hide LowBits;
    PowerOf8();
    BitsJoin(v, w, 8, m);
  }

  lemma FourBytes(a: nat, b: nat, c: nat, d: nat)
    requires a < 256 && b < 256 && c < 256 && d < 256
    ensures LowBits(a + 0x100 * b + 0x1_0000 * c + 0x100_0000 * d, 32)
         == Unpack(LowBits(a, 8), LowBits(b, 8), LowBits(c, 8), LowBits(d, 8))
  {
    hide LowBits;
    ByteJoin(c, d, 8);
    ByteJoin(b, c + 256 * d, 16);
    ByteJoin(a, b + 256 * (c + 256 * d), 24);
    Regroup(LowBits(a, 8), LowBits(b, 8), LowBits(c, 8) + LowBits(d, 8));
    Regroup(LowBits(a, 8) + LowBits(b, 8), LowBits(c, 8), LowBits(d, 8));
  }

  lemma PowerOf8()
    ensures Pow2(8) == 256
  {
  }

  /**
   The sixteen words: four letters each of the text "expand 32-byte k", low byte first, the key, two zeros for
   the counter, the hash, the seed.
   */
  lemma BaseWords(key: seq<Word>, hash: Word, seed: Word, i: nat)
    requires |key| == 8 && i < 16
    ensures Base(key, hash, seed)[i]
         == if i < 4 then Unpack(LowBits(TEXT[4 * i] as int, 8), LowBits(TEXT[4 * i + 1] as int, 8),
                                 LowBits(TEXT[4 * i + 2] as int, 8), LowBits(TEXT[4 * i + 3] as int, 8))
            else if i < 12 then key[i - 4]
            else if i < 14 then Zeros(32)
            else if i == 14 then hash else seed
  {
    hide LowBits, Unpack;
    if i < 4 {
      FourBytes(TEXT[4 * i] as int, TEXT[4 * i + 1] as int, TEXT[4 * i + 2] as int, TEXT[4 * i + 3] as int);
    }
  }

  /** Block `n` starts from the same words but for the counter, its low half first. */
  lemma BlockWords(base: State, n: nat, i: nat)
    requires i < 16
    ensures i != 12 && i != 13 ==> Block(base, n)[i] == base[i]
    ensures i == 12 ==> Value(Block(base, n)[i]) == n % 0x1_0000_0000
    ensures i == 13 ==> Value(Block(base, n)[i]) == n / 0x1_0000_0000 % 0x1_0000_0000
  {
    hide Value, Counter;
    CounterHalves(n);
  }

  lemma CounterHalves(n: nat)
    ensures Value(Counter(n).0) == n % 0x1_0000_0000 && Value(Counter(n).1) == n / 0x1_0000_0000 % 0x1_0000_0000
  {
    hide *;
    CounterCounts(n);
    ValueOfNext(Counter(n).0);
    ValueOfNext(Counter(n).1);
    CounterValueIs(Counter(n));
    TwoHalves(Value(Counter(n).0), Value(Counter(n).1), n);
  }

  lemma CounterValueIs(c: (Word, Word))
    ensures CounterValue(c) == Value(c.0) + 0x1_0000_0000 * Value(c.1)
  {
  }

  lemma TwoHalves(low: nat, high: nat, n: nat)
    requires low < 0x1_0000_0000 && high < 0x1_0000_0000
    requires low + 0x1_0000_0000 * high == n % 0x1_0000_0000_0000_0000
    ensures low == n % 0x1_0000_0000 && high == n / 0x1_0000_0000 % 0x1_0000_0000
  {
  }

  /** Byte `j` of word `k` of block `n` is byte 1024 n + 4 k + j of the key stream. */
  lemma KeyByteIs(base: State, fallback: Word, n: nat, k: nat, j: nat)
    requires k < 256 && j < 4
    ensures KeyByte(base, fallback, 1024 * n + (4 * k + j)) == ByteOf(StreamWord(Core(Block(base, n)), fallback, k), j)
  {
    hide Core, Block, StreamWord, ByteOf, StreamByte;
    assert (1024 * n + (4 * k + j)) / 1024 == n && (1024 * n + (4 * k + j)) % 1024 == 4 * k + j;
    ByteIndex(Core(Block(base, n)), fallback, k, j);
  }

  /** `b` holds the first `n` bytes of a block. */
  predicate Holds(b: seq<Byte>, core: State, fallback: Word, n: nat) {
    n <= |b| && forall i | 0 <= i < n :: b[i] == StreamByte(core, fallback, i)
  }

  function Spliced(b: seq<Byte>, at: nat, w: Word): (r: seq<Byte>)
    requires at + 4 <= |b|
    ensures |r| == |b|
  {
    b[at := ByteOf(w, 0)][at + 1 := ByteOf(w, 1)][at + 2 := ByteOf(w, 2)][at + 3 := ByteOf(w, 3)]
  }

  method PackInto(stream: array<Byte>, offset: nat, w: Word)
    requires offset + 4 <= stream.Length
    modifies stream
    ensures stream[..] == Spliced(old(stream[..]), offset, w)
  {
    hide ByteOf;
    stream[offset] := ByteOf(w, 0);
    stream[offset + 1] := ByteOf(w, 1);
    stream[offset + 2] := ByteOf(w, 2);
    stream[offset + 3] := ByteOf(w, 3);
  }

  lemma HoldsNothing(b: seq<Byte>, core: State, fallback: Word)
    ensures Holds(b, core, fallback, 0)
  {
  }

  lemma ByteIndex(core: State, fallback: Word, k: nat, j: nat)
    requires j < 4
    ensures StreamByte(core, fallback, 4 * k + j) == ByteOf(StreamWord(core, fallback, k), j)
  {
    hide StreamWord, ByteOf;
    assert (4 * k + j) / 4 == k && (4 * k + j) % 4 == j;
  }

  lemma HoldsMore(b: seq<Byte>, core: State, fallback: Word, k: nat)
    requires Holds(b, core, fallback, 4 * k) && 4 * k + 4 <= |b|
    ensures Holds(Spliced(b, 4 * k, StreamWord(core, fallback, k)), core, fallback, 4 * k + 4)
  {
    hide StreamWord, ByteOf, StreamByte;
    ByteIndex(core, fallback, k, 0);
    ByteIndex(core, fallback, k, 1);
    ByteIndex(core, fallback, k, 2);
    ByteIndex(core, fallback, k, 3);
  }

  lemma UnpackHeld(b: seq<Byte>, core: State, fallback: Word, n: nat, k: nat)
    requires Holds(b, core, fallback, n) && 4 * k + 4 <= n
    ensures Unpack(b[4 * k], b[4 * k + 1], b[4 * k + 2], b[4 * k + 3]) == StreamWord(core, fallback, k)
  {
    hide StreamWord, ByteOf, StreamByte, Unpack;
    UnpackBytes(StreamWord(core, fallback, k));
    ByteIndex(core, fallback, k, 0);
    ByteIndex(core, fallback, k, 1);
    ByteIndex(core, fallback, k, 2);
    ByteIndex(core, fallback, k, 3);
  }

  lemma StreamWordUnfolds(core: State, fallback: Word, k: nat)
    ensures StreamWord(core, fallback, k) ==
            if k < 16 then core[k]
            else if Xorshift(StreamWord(core, fallback, k - 16)) == Zeros(32) then fallback
            else Xorshift(StreamWord(core, fallback, k - 16))
  {
  }

  /** The 1024 bytes of a block. */
  method KeyStream(words: State, fallback: Word) returns (stream: array<Byte>)
    ensures fresh(stream) && stream.Length == 1024 && Holds(stream[..], Core(words), fallback, 1024)
  {
    hide Core, Xorshift, Unpack, Holds, Spliced, StreamWord, StreamByte, ByteOf, LowBits, Value, Pow2;
    var block := Chacha8Block(words);
    ghost var core: State := block[..];
    stream := new Byte[1024](_ => Zeros(8));
    HoldsNothing(stream[..], core, fallback);
    for k := 0 to 16
      invariant block[..] == core && Holds(stream[..], core, fallback, 4 * k)
    {
      StreamWordUnfolds(core, fallback, k);
      HoldsMore(stream[..], core, fallback, k);
      PackInto(stream, 4 * k, block[k]);
    }
    for k := 16 to 256
      invariant Holds(stream[..], core, fallback, 4 * k)
    {
      var at := 4 * (k - 16);
      UnpackHeld(stream[..], core, fallback, 4 * k, k - 16);
      var value := Xorshift(Unpack(stream[at], stream[at + 1], stream[at + 2], stream[at + 3]));
      StreamWordUnfolds(core, fallback, k);
      if value == Zeros(32) {
        value := fallback;
      }
      HoldsMore(stream[..], core, fallback, k);
      PackInto(stream, 4 * k, value);
    }
  }

  /** What decrypting has done after `n` bytes. */
  predicate Done(output: seq<Byte>, payload: seq<Byte>, base: State, fallback: Word, n: nat) {
    n <= |output| == |payload| &&
    (forall i | 0 <= i < n :: output[i] == Xor(payload[i], KeyByte(base, fallback, i))) &&
    (forall i | n <= i < |payload| :: output[i] == payload[i])
  }

  method Decrypt(payload: seq<Byte>, key: seq<Word>, hash: Word, seed: Word) returns (output: array<Byte>)
    requires |key| == 8
    ensures fresh(output) && output[..] == Crypt(payload, Base(key, hash, seed), ZeroFallback(seed, hash))
  {
    hide Base, KeyByte, Counter, Xor, Core, ZeroFallback, Plus, StreamWord, StreamByte, ByteOf, LowBits, Value, Pow2;
    ghost var base := Base(key, hash, seed);
    var words: State := Base(key, hash, seed);
    var zeroFallback := ZeroFallback(seed, hash);
    output := new Byte[|payload|](i requires 0 <= i < |payload| => payload[i]);
    assert output[..] == payload;
    var position := 0;
    ghost var n := 0;
    assert words == Block(base, 0) by { FirstBlock(key, hash, seed); }
    while position < output.Length
      invariant position <= output.Length && (position < output.Length ==> position == 1024 * n)
      invariant words == Block(base, n)
      invariant Done(output[..], payload, base, zeroFallback, position)
      decreases output.Length - position
    {
      var stream := KeyStream(words, zeroFallback);
      ghost var bytes := stream[..];
      var size := if output.Length - position < 1024 then output.Length - position else 1024;
      for index := 0 to size
        invariant Done(output[..], payload, base, zeroFallback, position + index)
        invariant stream[..] == bytes
      {
        KeyByteAt(bytes, base, zeroFallback, n, index);
        output[position + index] := Xor(output[position + index], stream[index]);
      }
      position := position + size;
      words := words[12 := Plus(words[12], ONE)];
      if words[12] == Zeros(32) {
        words := words[13 := Plus(words[13], ONE)];
      }
      NextBlock(base, n);
      n := n + 1;
    }
    DoneIsCrypt(output[..], payload, base, zeroFallback);
  }

  lemma FirstBlock(key: seq<Word>, hash: Word, seed: Word)
    requires |key| == 8
    ensures Base(key, hash, seed) == Block(Base(key, hash, seed), 0)
  {
    hide LowBits;
  }

  lemma NextBlock(base: State, n: nat)
    ensures
      var c := NextCounter((Block(base, n)[12], Block(base, n)[13]));
      Block(base, n + 1) == Block(base, n)[12 := c.0][13 := c.1]
  {
    hide NextCounter;
  }

  lemma KeyByteAt(stream: seq<Byte>, base: State, fallback: Word, n: nat, index: nat)
    requires Holds(stream, Core(Block(base, n)), fallback, 1024) && index < 1024
    ensures stream[index] == KeyByte(base, fallback, 1024 * n + index)
  {
    hide Core, Block, StreamByte;
    assert (1024 * n + index) / 1024 == n && (1024 * n + index) % 1024 == index;
  }

  lemma DoneIsCrypt(output: seq<Byte>, payload: seq<Byte>, base: State, fallback: Word)
    requires Done(output, payload, base, fallback, |payload|)
    ensures output == Crypt(payload, base, fallback)
  {
    hide Xor, KeyByte;
  }
}
