/**
 A whole TJS/ns0 pack (tools/inspect_tjs_ns0.py, `load`): the header, the optional encryption and
 the checked value behind it. The two hash functions and the LZ4 decompressor are parameters.
 */
module Ns0Pack {
  import opened Common
  import opened TjsFormat
  import TjsReader
  import opened TjsLoad
  import W = Ns0Words
  import C = Ns0Cipher
  import S = Ns0Stream

  type Quartet = q: seq<byte> | |q| == 4 witness [0, 0, 0, 0]
  type Key = k: seq<W.Word> | |k| == 8 witness seq(8, _ => W.Zeros(32))

  /** BLAKE2s and xxHash of an initial vector under a seed, and LZ4, which may fail. */
  datatype Foreign = Foreign(
    blake2s: (Quartet, seq<byte>) -> Key,
    xxh32: (Quartet, seq<byte>) -> W.Word,
    lz4: seq<byte> -> Option<seq<byte>>)

  datatype PackError = NotAPack | UnsupportedEncryption | UnsupportedCompression | BadBlock | BadPayload(cause: LoadError)

  // ---------------------------------------------------------------- bytes as numbers and as bits

  function ToBits(bytes: seq<byte>): (bits: seq<W.Byte>)
    ensures |bits| == |bytes|
  {
    seq(|bytes|, i requires 0 <= i < |bytes| => LowBits(bytes[i], 8))
  }

  lemma {:induction false} ValueOfInt(v: nat, n: nat)
    requires v < W.Pow2(n)
    ensures W.Value(LowBits(v, n)) == v
    decreases n
  {
    if n > 0 {
      ValueOfInt(v / 2, n - 1);
      assert LowBits(v, n)[1..] == LowBits(v / 2, n - 1);
    }
  }

  lemma IntOfValue(b: W.Byte)
    ensures W.Value(b) < 256 && LowBits(W.Value(b), 8) == b
  {
    hide *;
    S.PowerOf8();
    W.ValueIsBounded(b);
    ValueOfInt(W.Value(b), 8);
    W.ValueIsInjective(LowBits(W.Value(b), 8), b);
  }

  function AsByte(b: W.Byte): byte {
    IntOfValue(b);
    W.Value(b)
  }

  function OfBits(bits: seq<W.Byte>): (bytes: seq<byte>)
    ensures |bytes| == |bits|
  {
    seq(|bits|, i requires 0 <= i < |bits| => AsByte(bits[i]))
  }

  lemma BitsBack(bytes: seq<byte>)
    ensures OfBits(ToBits(bytes)) == bytes
  {
    forall i | 0 <= i < |bytes| ensures OfBits(ToBits(bytes))[i] == bytes[i] {
      S.PowerOf8();
      ValueOfInt(bytes[i], 8);
    }
  }

  lemma BytesBack(bits: seq<W.Byte>)
    ensures ToBits(OfBits(bits)) == bits
  {
    forall i | 0 <= i < |bits| ensures ToBits(OfBits(bits))[i] == bits[i] {
      IntOfValue(bits[i]);
    }
  }

  function SeedWord(seed: Quartet): W.Word {
    S.Unpack(LowBits(seed[0], 8), LowBits(seed[1], 8), LowBits(seed[2], 8), LowBits(seed[3], 8))
  }

  function SeedOf(seed: Quartet): Seed {
    Seed(seed[0] as bv8, seed[1] as bv8, seed[2] as bv8, seed[3] as bv8)
  }

  // ---------------------------------------------------------------- the file

  /** The cipher applied to a payload; it is its own inverse. */
  function Ciphered(f: Foreign, seed: Quartet, iv: seq<byte>, payload: seq<byte>): (r: seq<byte>)
    ensures |r| == |payload|
  {
    var hash := f.xxh32(seed, iv);
    OfBits(S.Crypt(ToBits(payload), S.Base(f.blake2s(seed, iv), hash, SeedWord(seed)), S.ZeroFallback(SeedWord(seed), hash)))
  }

  lemma CipheredTwice(f: Foreign, seed: Quartet, iv: seq<byte>, payload: seq<byte>)
    ensures Ciphered(f, seed, iv, Ciphered(f, seed, iv, payload)) == payload
  {
    hide S.Crypt, S.Base, S.ZeroFallback, SeedWord, ToBits, OfBits;
    var hash := f.xxh32(seed, iv);
    var base, fallback := S.Base(f.blake2s(seed, iv), hash, SeedWord(seed)), S.ZeroFallback(SeedWord(seed), hash);
    BytesBack(S.Crypt(ToBits(payload), base, fallback));
    S.CryptIsInvolution(ToBits(payload), base, fallback);
    BitsBack(payload);
  }

  /** "TJS/" and "s0" with a zero behind it, around the compression letter. */
  const MAGIC: seq<byte> := [84, 74, 83, 47]
  const VERSION: seq<byte> := [115, 48, 0]

  const PLAIN: byte := 110      // 'n'
  const PACKED: byte := 52      // '4'

  predicate IsPack(data: seq<byte>) { |data| >= 16 && data[..4] == MAGIC && data[5..8] == VERSION }

  /** What is behind the header, in clear. */
  function Opened(f: Foreign, data: seq<byte>): Result<seq<byte>, PackError>
    requires IsPack(data)
  {
    var iv := Slice(data, 16, 16 + LE(data[14..16]));
    var payload := Slice(data, 16 + LE(data[14..16]), |data|);
    if LE(data[12..14]) == 1 then Ok(Ciphered(f, data[8..12], iv, payload))
    else if LE(data[12..14]) == 0 then Ok(payload)
    else Err(UnsupportedEncryption)
  }

  function Inflated(f: Foreign, compression: byte, payload: seq<byte>): Result<seq<byte>, PackError> {
    if compression == PACKED then
      (match f.lz4(payload)
       case None => Err(BadBlock)
       case Some(plain) => Ok(plain))
    else if compression == PLAIN then Ok(payload)
    else Err(UnsupportedCompression)
  }

  function LoadFile(f: Foreign, data: seq<byte>): Result<Value, PackError> {
    if !IsPack(data) then Err(NotAPack)
    else
      match Opened(f, data)
      case Err(e) => Err(e)
      case Ok(payload) =>
        match Inflated(f, data[4], payload)
        case Err(e) => Err(e)
        case Ok(plain) =>
          match Load(plain, SeedOf(data[8..12]))
          case Err(e) => Err(BadPayload(e))
          case Ok(v) => Ok(v)
  }

  /** Every refusal before the value is read, in terms of the bytes of the file, first reason first. */
  lemma Refusals(f: Foreign, data: seq<byte>)
    ensures LoadFile(f, data) == Err(NotAPack) <==>
              |data| < 16 || data[..4] != [0x54, 0x4a, 0x53, 0x2f] || data[5..8] != [0x73, 0x30, 0x00]
    ensures IsPack(data) ==>
              (LoadFile(f, data) == Err(UnsupportedEncryption) <==> data[12] > 1 || data[13] != 0) &&
              (LoadFile(f, data) == Err(UnsupportedCompression) <==>
                 data[12] <= 1 && data[13] == 0 && data[4] != 0x34 && data[4] != 0x6e) &&
              (LoadFile(f, data) == Err(BadBlock) <==>
                 data[12] <= 1 && data[13] == 0 && data[4] == 0x34 && f.lz4(Opened(f, data).value).None?)
  {
    hide Load, Ciphered, SeedOf;
    if IsPack(data) {
      LittleEndian(data[12], data[13], 0, 0);
      assert data[12..14] == [data[12], data[13]];
    }
  }

  /** A file that is compressed as LZ4 blocks loads as the value of what they decompress to. */
  lemma CompressedFile(f: Foreign, data: seq<byte>, v: Value)
    requires |data| > 4 && data[4] == 0x34
    ensures LoadFile(f, data) == Ok(v) <==>
              IsPack(data) && Opened(f, data).Ok? && f.lz4(Opened(f, data).value).Some? &&
              Load(f.lz4(Opened(f, data).value).value, SeedOf(data[8..12])) == Ok(v)
  {
    hide Load, Ciphered, SeedOf;
  }

  /** The seed as a word of the cipher is the little-endian number in the header. */
  lemma SeedIsNumber(seed: Quartet)
    ensures W.Value(SeedWord(seed)) == LE(seed)
  {
    hide LowBits, LE, W.Value, S.Unpack;
    assert seed == [seed[0], seed[1], seed[2], seed[3]];
    LittleEndian(seed[0], seed[1], seed[2], seed[3]);
    S.FourBytes(seed[0], seed[1], seed[2], seed[3]);
    S.PowerOf32();
    ValueOfInt(LE(seed), 32);
  }

  method Decrypted(f: Foreign, seed: Quartet, iv: seq<byte>, payload: seq<byte>) returns (output: seq<byte>)
    ensures output == Ciphered(f, seed, iv, payload)
  {
    hide *;
    var hash := f.xxh32(seed, iv);
    var key := f.blake2s(seed, iv);
    var decrypted := S.Decrypt(ToBits(payload), key, hash, SeedWord(seed));
    output := OfBits(decrypted[..]);
    CipheredIs(f, seed, iv, payload);
  }

  lemma CipheredIs(f: Foreign, seed: Quartet, iv: seq<byte>, payload: seq<byte>)
    ensures
      var hash := f.xxh32(seed, iv);
      Ciphered(f, seed, iv, payload)
      == OfBits(S.Crypt(ToBits(payload), S.Base(f.blake2s(seed, iv), hash, SeedWord(seed)), S.ZeroFallback(SeedWord(seed), hash)))
  {
  }

  method LoadPack(f: Foreign, data: seq<byte>) returns (result: Result<Value, PackError>)
    ensures match LoadFile(f, data)
            case Err(e) => result == Err(e)
            case Ok(v) => result == Ok(TjsReader.Normal(v))
  {
    hide Ciphered, SeedOf, Load, TjsReader.Normal;
    if |data| < 16 || data[..4] != MAGIC || data[5..8] != VERSION {
      return Err(NotAPack);
    }
    var compression, seed, crypt, ivSize := data[4], data[8..12], LE(data[12..14]), LE(data[14..16]);
    var iv := Slice(data, 16, 16 + ivSize);
    var payload := Slice(data, 16 + ivSize, |data|);
    if crypt == 1 {
      payload := Decrypted(f, seed, iv, payload);
    } else if crypt != 0 {
      return Err(UnsupportedEncryption);
    }
    if compression == PACKED {
      var plain := f.lz4(payload);
      if plain.None? {
        return Err(BadBlock);
      }
      payload := plain.value;
    } else if compression != PLAIN {
      return Err(UnsupportedCompression);
    }
    var value := LoadPayload(payload, SeedOf(seed));
    result := if value.Err? then Err(BadPayload(value.error)) else Ok(value.value);
  }

  // ---------------------------------------------------------------- writing and loading

  /** The sixteen bytes before the initial vector. */
  function Header(seed: Quartet, encrypted: bool, size: nat): (h: seq<byte>)
    ensures |h| == 16
  {
    MAGIC + [PLAIN] + VERSION + seed + Digits(if encrypted then 1 else 0, 2) + Digits(size, 2)
  }

  lemma HeaderBytes(seed: Quartet, encrypted: bool, size: nat)
    requires size < 0x1_0000
    ensures Header(seed, encrypted, size)
         == [0x54, 0x4a, 0x53, 0x2f, 0x6e, 0x73, 0x30, 0x00, seed[0], seed[1], seed[2], seed[3],
             if encrypted then 1 else 0, 0, size % 256, size / 256]
  {
    TwoDigits(size);
    TwoDigits(if encrypted then 1 else 0);
    hide Digits;
    assert seed == [seed[0], seed[1], seed[2], seed[3]];
  }

  lemma TwoDigits(n: nat)
    requires n < 0x1_0000
    ensures Digits(n, 2) == [n % 256, n / 256]
  {
    assert Digits(n / 256, 1) == [n / 256 % 256] + Digits(n / 256 / 256, 0);
  }

  /** An uncompressed pack file. */
  function PackFile(f: Foreign, seed: Quartet, iv: seq<byte>, encrypted: bool, payload: seq<byte>): seq<byte> {
    Header(seed, encrypted, |iv|) + (iv + if encrypted then Ciphered(f, seed, iv, payload) else payload)
  }

  lemma TwoPlaces()
    ensures Pow256(2) == 0x1_0000
  {
  }

  lemma HeaderFields(seed: Quartet, encrypted: bool, size: nat, more: seq<byte>)
    requires size < 0x1_0000
    ensures
      var data := Header(seed, encrypted, size) + more;
      IsPack(data) && data[4] == PLAIN && data[8..12] == seed && LE(data[14..16]) == size &&
      LE(data[12..14]) == (if encrypted then 1 else 0) && data[16..] == more
  {
    TwoPlaces();
    LEOfDigits(size, 2);
    LEOfDigits(if encrypted then 1 else 0, 2);
    hide LE, Digits, Pow256;
    var data := Header(seed, encrypted, size) + more;
    assert data[..4] == MAGIC;
    assert data[5..8] == VERSION;
    assert data[8..12] == seed;
    assert data[12..14] == Digits(if encrypted then 1 else 0, 2);
    assert data[14..16] == Digits(size, 2);
  }

  lemma HeaderParts(data: seq<byte>)
    requires |data| >= 16
    ensures data[..16] == data[..4] + [data[4]] + data[5..8] + data[8..12] + data[12..14] + data[14..16]
    ensures data == data[..16] + data[16..]
  {
  }

  /** A header is determined by its fields. */
  lemma HeaderIs(data: seq<byte>)
    requires IsPack(data) && data[4] == PLAIN && LE(data[12..14]) <= 1
    ensures data == Header(data[8..12], LE(data[12..14]) == 1, LE(data[14..16])) + data[16..]
    ensures LE(data[14..16]) < 0x1_0000
  {
    hide LE, Digits;
    HeaderParts(data);
    DigitsOfLE(data[12..14]);
    DigitsOfLE(data[14..16]);
  }

  /** Behind the header of a pack file lies its payload in clear. */
  lemma OpenedPack(f: Foreign, seed: Quartet, iv: seq<byte>, encrypted: bool, payload: seq<byte>)
    requires |iv| < 0x1_0000
    ensures
      var data := PackFile(f, seed, iv, encrypted, payload);
      IsPack(data) && data[4] == PLAIN && data[8..12] == seed && Opened(f, data) == Ok(payload)
  {
    hide Ciphered, Header, IsPack;
    var body := if encrypted then Ciphered(f, seed, iv, payload) else payload;
    HeaderFields(seed, encrypted, |iv|, iv + body);
    var data := PackFile(f, seed, iv, encrypted, payload);
    assert data[16..] == iv + body;
    assert Slice(data, 16, 16 + |iv|) == iv by { assert data[16..][..|iv|] == iv; }
    assert Slice(data, 16 + |iv|, |data|) == body by { assert data[16..][|iv|..] == body; }
    CipheredTwice(f, seed, iv, payload);
  }

  /** A file whose header reads well and that has any payload is a pack file of that payload. */
  lemma PackOfOpened(f: Foreign, data: seq<byte>, payload: seq<byte>)
    requires IsPack(data) && data[4] == PLAIN && Opened(f, data) == Ok(payload) && payload != []
    ensures
      var iv := Slice(data, 16, 16 + LE(data[14..16]));
      |iv| < 0x1_0000 && data == PackFile(f, data[8..12], iv, LE(data[12..14]) == 1, payload)
  {
    hide Ciphered, Header, IsPack;
    var n := LE(data[14..16]);
    var iv, body := Slice(data, 16, 16 + n), Slice(data, 16 + n, |data|);
    assert 16 + n < |data|;
    HeaderIs(data);
    assert data[16..] == iv + body;
    CipheredTwice(f, data[8..12], iv, body);
  }

  predicate Spelled(f: Foreign, data: seq<byte>, v: Value, seed: Quartet, iv: seq<byte>, encrypted: bool, spare: byte, rest: seq<byte>) {
    |iv| < 0x1_0000 && data == PackFile(f, seed, iv, encrypted, PackWith(v, SeedOf(seed), spare, rest))
  }

  /**
   An uncompressed file loads as a value exactly if it is a pack of that printed value, encrypted
   or not, whatever the hash functions are.
   */
  lemma FileLoadsIffSpelled(f: Foreign, data: seq<byte>, v: Value)
    requires |data| > 4 && data[4] == PLAIN
    ensures LoadFile(f, data) == Ok(v) <==>
              Printable(v, 0) &&
              exists seed: Quartet, iv, encrypted, spare: byte, rest :: Spelled(f, data, v, seed, iv, encrypted, spare, rest)
  {
    hide Load, PackFile, PackWith, Opened, Printable, SeedOf;
    if LoadFile(f, data) == Ok(v) {
      var payload, seed := Opened(f, data).value, SeedOf(data[8..12]);
      LoadIffPrinted(payload, seed, v);
      var spare: byte, rest :| payload == PackWith(v, seed, spare, rest);
      PackIsNotEmpty(v, seed, spare, rest);
      PackOfOpened(f, data, payload);
      assert Spelled(f, data, v, data[8..12], Slice(data, 16, 16 + LE(data[14..16])), LE(data[12..14]) == 1, spare, rest);
    }
    if Printable(v, 0) && exists seed: Quartet, iv, encrypted, spare: byte, rest :: Spelled(f, data, v, seed, iv, encrypted, spare, rest) {
      var seed: Quartet, iv, encrypted, spare: byte, rest :| Spelled(f, data, v, seed, iv, encrypted, spare, rest);
      var payload := PackWith(v, SeedOf(seed), spare, rest);
      OpenedPack(f, seed, iv, encrypted, payload);
      LoadIffPrinted(payload, SeedOf(seed), v);
    }
  }

  lemma PackIsNotEmpty(v: Value, seed: Seed, spare: byte, rest: seq<byte>)
    ensures PackWith(v, seed, spare, rest) != []
  {
  }
}
