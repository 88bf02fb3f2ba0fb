/**
 The LZSS stage of the TLG5 decoder (tools/decode_tlg5.py, `decompress`).

 The decoder copies matches out of a 4096-byte ring and takes a shortcut for eight
 literals in a row. The specification knows neither: it parses the payload into tokens and
 expands them over one ever-growing history, as plain LZ77 does.
 */
module Tlg5Lzss {
  import opened Common

  type slot = m: int | 0 <= m < 4096

  datatype Token =
    | Literal(value: byte)
    | Match(from: slot, count: nat)   // `from` is a ring slot, not a distance

  datatype Error = TruncatedMatch | TruncatedLongMatch | TruncatedLiteral

  // ---------------------------------------------------------------- the token stream

  /** The lengths a match can have: 3..17 in the token itself, 18.. with an extra byte. */
  predicate Encodable(t: Token) {
    t.Match? ==> 3 <= t.count <= 18 + 255
  }

  /** How a token is written in the payload. */
  function TokenBytes(t: Token): (bytes: seq<byte>)
    requires Encodable(t)
  {
    match t
    case Literal(value) => [value]
    case Match(from, count) =>
      var nibble := if count < 18 then count - 3 else 15;
      [from % 256, from / 256 + 16 * nibble] + if count < 18 then [] else [count - 18]
  }

  /**
   The token at the head of a payload and what remains behind it; `isMatch` is the control
   bit that announced it.
   */
  function ReadToken(data: seq<byte>, isMatch: bool): Result<(Token, seq<byte>), Error> {
    if isMatch then
      if |data| < 2 then Err(TruncatedMatch)
      else
        var from: int := data[0] as int + 256 * (data[1] as int % 16);
        var count: int := data[1] as int / 16 + 3;
        if count < 18 then Ok((Match(from, count), data[2..]))
        else if |data| < 3 then Err(TruncatedLongMatch)
        else Ok((Match(from, count + data[2]), data[3..]))
    else if |data| == 0 then Err(TruncatedLiteral)
    else Ok((Literal(data[0]), data[1..]))
  }

  /** A control byte governs eight tokens; a set bit announces a match. */
  function Control(control: byte): (bits: seq<bool>)
    ensures |bits| == 8
  {
    LowBits(control, 8)
  }

  /**
   The tokens of a payload, where `bits` are the control bits not used yet. A payload may stop
   after any token, but not right behind a control byte.
   */
  function Parse(data: seq<byte>, bits: seq<bool>): Result<seq<Token>, Error>
    decreases |data|, 1
  {
    if data == [] then Ok([])
    else if bits == [] then ParseToken(data[1..], Control(data[0]))
    else ParseToken(data, bits)
  }

  function ParseToken(data: seq<byte>, bits: seq<bool>): Result<seq<Token>, Error>
    requires bits != []
    decreases |data|, 0
  {
    match ReadToken(data, bits[0])
    case Err(e) => Err(e)
    case Ok((token, rest)) =>
      match Parse(rest, bits[1..])
      case Err(e) => Err(e)
      case Ok(tokens) => Ok([token] + tokens)
  }

  lemma {:induction false} ReadTokenInverts(t: Token, rest: seq<byte>)
    requires Encodable(t)
    ensures ReadToken(TokenBytes(t) + rest, t.Match?) == Ok((t, rest))
  {
    var bytes := TokenBytes(t);
    assert (bytes + rest)[|bytes|..] == rest;
  }

  lemma {:induction false} ReadTokenSound(data: seq<byte>, isMatch: bool)
    requires ReadToken(data, isMatch).Ok?
    ensures var (t, rest) := ReadToken(data, isMatch).value;
            Encodable(t) && t.Match? == isMatch && data == TokenBytes(t) + rest
  {
    if isMatch && data[1] / 16 == 15 {
      assert data == data[..3] + data[3..];
    } else if isMatch {
      assert data == data[..2] + data[2..];
    } else {
      assert data == data[..1] + data[1..];
    }
  }

  /**
   `data` spells `tokens`: control bytes and tokens alternate, each control byte governs up
   to eight tokens, and its bit i says whether the i-th of them is a match. `bits` govern the
   tokens that are still to come in the current group.
   */
  ghost predicate Spells(data: seq<byte>, tokens: seq<Token>, bits: seq<bool>)
    decreases |tokens|, 1
  {
    if tokens == [] then data == []
    else if bits == [] then data != [] && SpellsGroup(data[1..], tokens, Control(data[0]))
    else SpellsGroup(data, tokens, bits)
  }

  ghost predicate SpellsGroup(data: seq<byte>, tokens: seq<Token>, bits: seq<bool>)
    requires tokens != [] && bits != []
    decreases |tokens|, 0
  {
    Encodable(tokens[0]) &&
    (tokens[0].Match? <==> bits[0]) &&
    var head := TokenBytes(tokens[0]);
    head <= data && Spells(data[|head|..], tokens[1..], bits[1..])
  }

  /** Parsing recognises exactly the payloads that spell some tokens, and returns those. */
  lemma {:induction false} ParseIffSpells(data: seq<byte>, tokens: seq<Token>, bits: seq<bool>)
    ensures Parse(data, bits) == Ok(tokens) <==> Spells(data, tokens, bits)
    decreases |data|, 1
  {
    if data == [] {
    } else if bits == [] {
      if tokens != [] {
        ParseTokenIffSpells(data[1..], tokens, Control(data[0]));
      } else {
        ParsedSomething(data[1..], Control(data[0]));
      }
    } else {
      if tokens != [] {
        ParseTokenIffSpells(data, tokens, bits);
      } else {
        ParsedSomething(data, bits);
      }
    }
  }

  lemma ParsedSomething(data: seq<byte>, bits: seq<bool>)
    requires bits != []
    ensures ParseToken(data, bits) != Ok([])
  {
  }

  lemma {:induction false} ParseTokenIffSpells(data: seq<byte>, tokens: seq<Token>, bits: seq<bool>)
    requires bits != [] && tokens != []
    ensures ParseToken(data, bits) == Ok(tokens) <==> SpellsGroup(data, tokens, bits)
    decreases |data|, 0
  {
    var token, more := tokens[0], tokens[1..];
    assert tokens == [token] + more;
    if ParseToken(data, bits) == Ok(tokens) {
      ReadTokenSound(data, bits[0]);
      var rest := ReadToken(data, bits[0]).value.1;
      var parsed := Parse(rest, bits[1..]).value;
      assert [ReadToken(data, bits[0]).value.0] + parsed == tokens;
      assert parsed == more by { assert ([ReadToken(data, bits[0]).value.0] + parsed)[1..] == parsed; }
      assert rest == data[|TokenBytes(token)|..];
      ParseIffSpells(rest, more, bits[1..]);
    }
    if SpellsGroup(data, tokens, bits) {
      var rest := data[|TokenBytes(token)|..];
      assert data == TokenBytes(token) + rest;
      ReadTokenInverts(token, rest);
      ParseIffSpells(rest, more, bits[1..]);
    }
  }

  /** Where a payload may not stop: behind a control byte, and inside a match. */
  lemma Endings(low: byte, high: byte)
    ensures Parse([], []) == Ok([]) && Parse([0x00], []) == Err(TruncatedLiteral)
    ensures Parse([0x01], []) == Err(TruncatedMatch) == Parse([0x01, low], [])
    ensures Parse([0x01, low, high], []) == Err(TruncatedLongMatch) <==> 0xf0 <= high
    ensures Parse([0x01, low, high], []).Ok? <==> high < 0xf0
  {
    assert !Control(0x00)[0] && Control(0x01)[0];
    var data: seq<byte> := [low, high];
    assert [0x01, low, high][1..] == data && data[2..] == [];
    assert Parse([0x01, low, high], []) == ParseToken(data, Control(0x01));
    assert Parse([], Control(0x01)[1..]) == Ok([]);
  }

  // ---------------------------------------------------------------- LZ77 expansion

  /**
   How far behind the write position `r` the ring slot `m` was written: between 1 and 4096.
   The slot about to be overwritten is the oldest one.
   */
  function Age(r: slot, m: slot): (age: int)
    ensures 1 <= age <= 4096
  {
    if m < r then r - m else r - m + 4096
  }

  lemma AgeIsRingDistance(r: slot, m: slot)
    ensures Age(r, m) == (r - m - 1) % 4096 + 1
  {
  }

  function Next(r: slot): slot { if r == 4096 - 1 then 0 else r + 1 }

  /** Masking to twelve bits wraps round; two positions that both move on stay as far apart. */
  lemma AgeIsSteady(r: slot, m: slot)
    ensures (m + 1) % 4096 == Next(m)
    ensures Age(Next(r), Next(m)) == Age(r, m)
  {
  }

  /** The write position after `n` more bytes. */
  function Advance(r: slot, n: nat): slot
    decreases n
  {
    if n == 0 then r else Advance(Next(r), n - 1)
  }

  lemma {:induction false} AdvanceIsModular(r: slot, n: nat)
    ensures Advance(r, n) == (r + n) % 4096
    decreases n
  {
    if n > 0 {
      AdvanceIsModular(Next(r), n - 1);
    }
  }

  lemma {:induction false} AdvanceTwice(r: slot, n: nat, k: nat)
    ensures Advance(Advance(r, n), k) == Advance(r, n + k)
    decreases n
  {
    if n > 0 {
      AdvanceTwice(Next(r), n - 1, k);
    }
  }

  /** Writing the next byte to slot `r` keeps the ring a mirror. */
  lemma MirrorStep(text: seq<byte>, r: slot, history: seq<byte>, value: byte)
    requires Mirrors(text, r, history)
    ensures Mirrors(text[r := value], Next(r), history + [value])
  {
    var next, longer := Next(r), history + [value];
    forall m: slot ensures text[r := value][m] == longer[|longer| - Age(next, m)] {
      assert m != r ==> Age(next, m) == Age(r, m) + 1;
    }
  }

  /** Appends `count` bytes, each a copy of the byte `distance` positions before it. */
  function CopyBack(history: seq<byte>, distance: nat, count: nat): (longer: seq<byte>)
    requires 1 <= distance <= |history|
    ensures |longer| == |history| + count
    decreases count
  {
    if count == 0 then history
    else CopyBack(history + [history[|history| - distance]], distance, count - 1)
  }

  lemma {:induction false} ExpandExtends(history: seq<byte>, r: slot, tokens: seq<Token>)
    requires |history| >= 4096
    ensures history <= Expand(history, r, tokens)
    decreases |tokens|
  {
    if tokens != [] {
      var next := ExpandToken(history, r, tokens[0]);
      if tokens[0].Match? {
        CopyBackExtends(history, Age(r, tokens[0].from), tokens[0].count);
      }
      ExpandExtends(next, Advance(r, |next| - |history|), tokens[1..]);
    }
  }

  lemma {:induction false} CopyBackExtends(history: seq<byte>, distance: nat, count: nat)
    requires 1 <= distance <= |history|
    ensures history <= CopyBack(history, distance, count)
    decreases count
  {
    if count > 0 {
      CopyBackExtends(history + [history[|history| - distance]], distance, count - 1);
    }
  }

  lemma {:induction false} CopyBackIsLocal(past: seq<byte>, history: seq<byte>, distance: nat, count: nat)
    requires 1 <= distance <= |history|
    ensures CopyBack(past + history, distance, count) == past + CopyBack(history, distance, count)
    decreases count
  {
    if count > 0 {
      var copied := [history[|history| - distance]];
      assert (past + history) + copied == past + (history + copied);
      CopyBackIsLocal(past, history + copied, distance, count - 1);
    }
  }

  lemma TokenIsLocal(past: seq<byte>, history: seq<byte>, r: slot, t: Token)
    requires |history| >= 4096
    ensures ExpandToken(past + history, r, t) == past + ExpandToken(history, r, t)
  {
    match t
    case Literal(value) => Regroup(past, history, [value]);
    case Match(from, count) => CopyBackIsLocal(past, history, Age(r, from), count);
  }

  /** No match reaches further back than 4096 bytes: a longer past changes nothing. */
  lemma {:induction false} ExpandIsLocal(past: seq<byte>, history: seq<byte>, r: slot, tokens: seq<Token>)
    requires |history| >= 4096
    ensures Expand(past + history, r, tokens) == past + Expand(history, r, tokens)
    decreases |tokens|
  {
    hide ExpandToken, Advance;
    if tokens != [] {
      var next := ExpandToken(history, r, tokens[0]);
      TokenIsLocal(past, history, r, tokens[0]);
      ExpandIsLocal(past, next, Advance(r, |next| - |history|), tokens[1..]);
    }
  }

  /** Source and destination of a match may overlap: the copy repeats with period `distance`. */
  lemma {:induction false} CopyBackIsPeriodic(history: seq<byte>, distance: nat, count: nat, k: nat)
    requires 1 <= distance <= |history| && k < count
    ensures var longer := CopyBack(history, distance, count);
            longer[|history| + k] == longer[|history| + k - distance]
    decreases count
  {
    var next := history + [history[|history| - distance]];
    CopyBackExtends(next, distance, count - 1);
    if k > 0 {
      CopyBackIsPeriodic(next, distance, count - 1, k - 1);
    }
  }

  /** The history after one token, for a decoder whose next write goes to slot `r`. */
  function ExpandToken(history: seq<byte>, r: slot, t: Token): (longer: seq<byte>)
    requires |history| >= 4096
    ensures |longer| >= |history|
  {
    match t
    case Literal(value) => history + [value]
    case Match(from, count) => CopyBack(history, Age(r, from), count)
  }

  function Expand(history: seq<byte>, r: slot, tokens: seq<Token>): (longer: seq<byte>)
    requires |history| >= 4096
    ensures |longer| >= |history|
    decreases |tokens|
  {
    if tokens == [] then history
    else
      var next := ExpandToken(history, r, tokens[0]);
      Expand(next, Advance(r, |next| - |history|), tokens[1..])
  }

  /** How many bytes a token stands for. */
  function Size(t: Token): nat { if t.Match? then t.count else 1 }

  function Sizes(tokens: seq<Token>): nat {
    if tokens == [] then 0 else Size(tokens[0]) + Sizes(tokens[1..])
  }

  lemma ExpandTokenIs(history: seq<byte>, r: slot, t: Token)
    requires |history| >= 4096
    ensures history <= ExpandToken(history, r, t) && |ExpandToken(history, r, t)| == |history| + Size(t)
  {
    if t.Match? {
      CopyBackExtends(history, Age(r, t.from), t.count);
    }
  }

  /** What byte `at` of an expansion owes to token `t`, the ring standing at `r` when `t` begins. */
  predicate ByteOf(longer: seq<byte>, at: nat, r: slot, t: Token)
    requires 4096 <= at < |longer|
  {
    match t
    case Literal(value) => longer[at] == value
    case Match(from, _) => longer[at] == longer[at - Age(r, from)]
  }

  lemma ExpandTokenByte(history: seq<byte>, r: slot, t: Token, j: nat)
    requires |history| >= 4096 && j < Size(t)
    ensures |ExpandToken(history, r, t)| == |history| + Size(t)
    ensures ByteOf(ExpandToken(history, r, t), |history| + j, r, t)
  {
    if t.Match? {
      CopyBackIsPeriodic(history, Age(r, t.from), t.count, j);
    }
  }

  lemma ByteOfPrefix(shorter: seq<byte>, longer: seq<byte>, at: nat, r: slot, t: Token)
    requires 4096 <= at < |shorter| && shorter <= longer
    ensures ByteOf(shorter, at, r, t) == ByteOf(longer, at, r, t)
  {
  }

  /** A literal stands for one byte, a match for as many as its length. */
  lemma {:induction false} ExpandLength(history: seq<byte>, r: slot, tokens: seq<Token>)
    requires |history| >= 4096
    ensures |Expand(history, r, tokens)| == |history| + Sizes(tokens)
    decreases |tokens|
  {
    hide ExpandToken;
    if tokens != [] {
      ExpandTokenIs(history, r, tokens[0]);
      var next := ExpandToken(history, r, tokens[0]);
      ExpandLength(next, Advance(r, |next| - |history|), tokens[1..]);
    }
  }

  /**
   Every byte of an expansion: a literal is its value, and each byte of a match equals the one as far
   back as its slot is old where the match begins. With ExpandLength and ExpandExtends this leaves
   no other expansion.
   */
  lemma {:induction false} ExpandedByte(history: seq<byte>, r: slot, tokens: seq<Token>, i: nat, j: nat)
    requires |history| >= 4096 && i < |tokens| && j < Size(tokens[i])
    ensures var longer, before := Expand(history, r, tokens), Sizes(tokens[..i]);
            |history| + before + j < |longer| &&
            ByteOf(longer, |history| + before + j, Advance(r, before), tokens[i])
    decreases |tokens|
  {
    hide ExpandToken, Age, ByteOf;
    var next := ExpandToken(history, r, tokens[0]);
    ExpandTokenIs(history, r, tokens[0]);
    ExpandExtends(next, Advance(r, |next| - |history|), tokens[1..]);
    if i == 0 {
      ExpandTokenByte(history, r, tokens[0], j);
      ByteOfPrefix(next, Expand(history, r, tokens), |history| + j, r, tokens[0]);
    } else {
      ExpandedByte(next, Advance(r, |next| - |history|), tokens[1..], i - 1, j);
      assert tokens[..i][1..] == tokens[1..][..i - 1];
      AdvanceTwice(r, Size(tokens[0]), Sizes(tokens[1..][..i - 1]));
    }
  }

  /** A match is one little-endian word, the slot in its low twelve bits, and a third byte from length 18 on. */
  lemma MatchWord(from: slot, count: nat)
    requires 3 <= count <= 18 + 255
    ensures var bytes := TokenBytes(Match(from, count));
            |bytes| == (if count < 18 then 2 else 3) &&
            bytes[0] as int + 256 * bytes[1] as int == from + 4096 * ((if count < 18 then count else 18) - 3) &&
            (count >= 18 ==> bytes[2] == count - 18)
  {
  }

  /** Bit i of a control byte governs the i-th token behind it. */
  lemma ControlBit(control: byte, i: nat)
    requires i < 8
    ensures Control(control)[i] <==> control / TwoTo(i) % 2 == 1
  {
    LowBit(control, 8, i);
  }

  lemma OneBit()
    ensures TwoTo(0) == 1
  {
  }

  lemma Halving(v: nat, i: nat)
    requires 0 < i <= 8
    ensures v / 2 / TwoTo(i - 1) == v / TwoTo(i)
  {
  }

  lemma {:induction false} LowBit(v: nat, n: nat, i: nat)
    requires i < n <= 8
    ensures LowBits(v, n)[i] <==> v / TwoTo(i) % 2 == 1
    decreases n
  {
    hide TwoTo;
    if i == 0 {
      OneBit();
    } else {
      LowBit(v / 2, n - 1, i - 1);
      Halving(v, i);
    }
  }

  /** The history a payload stands for, or the reason it stands for none. */
  function Inflate(data: seq<byte>, bits: seq<bool>, history: seq<byte>, r: slot): Result<seq<byte>, Error>
    requires |history| >= 4096
  {
    match Parse(data, bits)
    case Err(e) => Err(e)
    case Ok(tokens) => Ok(Expand(history, r, tokens))
  }

  lemma InflateExtends(data: seq<byte>, bits: seq<bool>, history: seq<byte>, r: slot)
    requires |history| >= 4096 && Inflate(data, bits, history, r).Ok?
    ensures history <= Inflate(data, bits, history, r).value
  {
    hide Parse, Expand;
    ExpandExtends(history, r, Parse(data, bits).value);
  }

  /** A payload that spells tokens inflates to their expansion: no byte is read any other way. */
  lemma SpelledPayloadInflates(data: seq<byte>, tokens: seq<Token>, history: seq<byte>, r: slot)
    requires Spells(data, tokens, []) && |history| >= 4096
    ensures Inflate(data, [], history, r) == Ok(Expand(history, r, tokens))
  {
    ParseIffSpells(data, tokens, []);
  }

  /** A literal A and a match of length four with the slot it went to: five As. */
  lemma FiveAs(history: seq<byte>)
    requires |history| >= 4096
    ensures Inflate([0x02, 0x41, 0x00, 0x10], [], history, 0) == Ok(history + [0x41, 0x41, 0x41, 0x41, 0x41])
  {
    hide *;
    FiveAsSpelled();
    SpelledPayloadInflates([0x02, 0x41, 0x00, 0x10], [Literal(0x41), Match(0, 4)], history, 0);
    FiveAsExpanded(history);
  }

  lemma FiveAsSpelled()
    ensures Spells([0x02, 0x41, 0x00, 0x10], [Literal(0x41), Match(0, 4)], [])
  {
    hide Control;
    var bits := Control(0x02);
    SecondBitSet();
    var data: seq<byte> := [0x41, 0x00, 0x10];
    assert [0x02, 0x41, 0x00, 0x10][1..] == data;
    assert [Literal(0x41), Match(0, 4)][1..] == [Match(0, 4)];
    assert [Match(0, 4)][1..] == [];
    assert TokenBytes(Match(0, 4)) == [0x00, 0x10] == data[1..];
    assert data[1..][2..] == [];
    assert SpellsGroup(data[1..], [Match(0, 4)], bits[1..]);
    assert [0x41] <= data;
  }

  lemma SecondBitSet()
    ensures !Control(0x02)[0] && Control(0x02)[1]
  {
    hide Control;
    ControlBit(0x02, 0);
    ControlBit(0x02, 1);
  }

  lemma FiveAsExpanded(history: seq<byte>)
    requires |history| >= 4096
    ensures Expand(history, 0, [Literal(0x41), Match(0, 4)]) == history + [0x41, 0x41, 0x41, 0x41, 0x41]
  {
    hide Expand, CopyBack;
    var next := history + [0x41];
    ExpandStep(history, 0, [Literal(0x41), Match(0, 4)]);
    assert [Literal(0x41), Match(0, 4)][1..] == [Match(0, 4)];
    OneMore(0);
    ExpandStep(next, 1, [Match(0, 4)]);
    assert [Match(0, 4)][1..] == [];
    CopyRun(next, 4);
    assert next + [0x41, 0x41, 0x41, 0x41] == history + [0x41, 0x41, 0x41, 0x41, 0x41];
  }

  lemma ExpandStep(history: seq<byte>, r: slot, tokens: seq<Token>)
    requires |history| >= 4096 && tokens != []
    ensures var next := ExpandToken(history, r, tokens[0]);
            Expand(history, r, tokens) == if tokens[1..] == [] then next
                                          else Expand(next, Advance(r, |next| - |history|), tokens[1..])
  {
  }

  lemma OneMore(r: slot)
    ensures Advance(r, 1) == Next(r)
  {
    assert Advance(Next(r), 0) == Next(r);
  }

  lemma {:induction false} CopyRun(history: seq<byte>, count: nat)
    requires history != []
    ensures CopyBack(history, 1, count) == history + seq(count, _ => history[|history| - 1])
    decreases count
  {
    if count > 0 {
      CopyRun(history + [history[|history| - 1]], count - 1);
    }
  }

  /** The same for a payload whose next token is already governed by a control bit. */
  function InflateToken(data: seq<byte>, bits: seq<bool>, history: seq<byte>, r: slot): Result<seq<byte>, Error>
    requires |history| >= 4096 && bits != []
  {
    match ParseToken(data, bits)
    case Err(e) => Err(e)
    case Ok(tokens) => Ok(Expand(history, r, tokens))
  }

  /** One token's worth of inflating. */
  lemma {:induction false} InflateStep(data: seq<byte>, bits: seq<bool>, history: seq<byte>, r: slot)
    requires |history| >= 4096 && bits != []
    ensures match ReadToken(data, bits[0])
            case Err(e) => InflateToken(data, bits, history, r) == Err(e)
            case Ok((t, rest)) =>
              var next := ExpandToken(history, r, t);
              InflateToken(data, bits, history, r)
              == Inflate(rest, bits[1..], next, Advance(r, |next| - |history|))
  {
    if ReadToken(data, bits[0]).Ok? {
      var (t, rest) := ReadToken(data, bits[0]).value;
      if Parse(rest, bits[1..]).Ok? {
        var tokens := Parse(rest, bits[1..]).value;
        assert ([t] + tokens)[1..] == tokens;
      }
    }
  }

  lemma SplitHead(chunk: seq<byte>, rest: seq<byte>, history: seq<byte>)
    requires chunk != []
    ensures [chunk[0]] + (chunk[1..] + rest) == chunk + rest
    ensures (history + [chunk[0]]) + chunk[1..] == history + chunk
    ensures chunk[1..] == [] ==> chunk[1..] + rest == rest && history + [chunk[0]] == history + chunk
  {
  }

  /** A group of literals is its bytes: what the decoder's shortcut relies on. */
  lemma {:induction false} LiteralRun(chunk: seq<byte>, rest: seq<byte>, bits: seq<bool>, history: seq<byte>, r: slot)
    requires |history| >= 4096 && 0 < |chunk| == |bits| && rest != []
    requires forall i :: 0 <= i < |bits| ==> !bits[i]
    ensures InflateToken(chunk + rest, bits, history, r)
         == Inflate(rest, [], history + chunk, Advance(r, |chunk|))
    decreases |bits|
  {
    hide Inflate, InflateToken;
    LiteralStep(chunk[0], chunk[1..] + rest, bits, history, r);
    SplitHead(chunk, rest, history);
    if |bits| > 1 {
      LiteralRun(chunk[1..], rest, bits[1..], history + [chunk[0]], Next(r));
    }
  }

  lemma LiteralStep(head: byte, tail: seq<byte>, bits: seq<bool>, history: seq<byte>, r: slot)
    requires |history| >= 4096 && tail != [] && bits != [] && !bits[0]
    ensures InflateToken([head] + tail, bits, history, r)
         == if |bits| == 1 then Inflate(tail, [], history + [head], Next(r))
            else InflateToken(tail, bits[1..], history + [head], Next(r))
  {
    InflateStep([head] + tail, bits, history, r);
    assert ([head] + tail)[1..] == tail;
    assert Advance(r, 1) == Next(r);
  }

  // ---------------------------------------------------------------- the ring

  /** The ring holds the last 4096 bytes of the history, slot `r` the oldest. */
  ghost predicate Mirrors(text: seq<byte>, r: slot, history: seq<byte>) {
    |text| == 4096 && |history| >= 4096 &&
    forall m: slot :: text[m] == history[|history| - Age(r, m)]
  }

  /** The history a ring starts from. */
  function Unrolled(text: seq<byte>, r: slot): (history: seq<byte>)
    requires |text| == 4096
    ensures |history| == 4096 && Mirrors(text, r, history)
  {
    text[r..] + text[..r]
  }

  /** A ring and a write position determine the last 4096 bytes of the history. */
  lemma MirrorIsUnique(text: seq<byte>, r: slot, history: seq<byte>)
    requires Mirrors(text, r, history)
    ensures Unrolled(text, r) == history[|history| - 4096..]
  {
    var last := history[|history| - 4096..];
    forall i: slot ensures Unrolled(text, r)[i] == last[i] {
      var m: slot := if r + i < 4096 then r + i else r + i - 4096;
      assert Age(r, m) == 4096 - i;
    }
  }

  method PutByte(text: array<byte>, r: slot, value: byte, ghost history: seq<byte>) returns (next: slot)
    requires text.Length == 4096 && Mirrors(text[..], r, history)
    modifies text
    ensures next == Next(r) && Mirrors(text[..], next, history + [value])
  {
    MirrorStep(text[..], r, history, value);
    ghost var before := text[..];
    text[r] := value;
    assert text[..] == before[r := value];
    next := (r + 1) % 4096;
  }

  /** The match loop: source and destination walk round the ring together. */
  method CopyMatch(text: array<byte>, from: slot, count: nat, r0: slot, ghost history0: seq<byte>)
    returns (copied: seq<byte>, r: slot)
    requires text.Length == 4096 && Mirrors(text[..], r0, history0)
    modifies text
    ensures history0 + copied == CopyBack(history0, Age(r0, from), count)
    ensures r == Advance(r0, count)
    ensures Mirrors(text[..], r, history0 + copied)
  {
    copied, r := [], r0;
    var mpos: slot := from;
    ghost var distance, history := Age(r0, from), history0;
    for i := 0 to count
      invariant history == history0 + copied && Mirrors(text[..], r, history)
      invariant Advance(r, count - i) == Advance(r0, count)
      invariant Age(r, mpos) == distance
      invariant CopyBack(history, distance, count - i) == CopyBack(history0, distance, count)
    {
      var value := text[mpos];
      assert value == history[|history| - distance] by { assert text[..][mpos] == value; }
      ghost var r0' := r;
      r := PutByte(text, r, value, history);
      copied, history := copied + [value], history + [value];
      AgeIsSteady(r0', mpos);
      mpos := (mpos + 1) % 4096;
    }
  }

  /** Reads the token at `pos0` and appends what it stands for. */
  method DecodeToken(data: seq<byte>, pos0: nat, isMatch: bool, text: array<byte>, r0: slot,
                     ghost history: seq<byte>, ghost bits: seq<bool>)
    returns (result: Result<seq<byte>, Error>, pos: nat, r: slot)
    requires pos0 <= |data| && text.Length == 4096 && Mirrors(text[..], r0, history)
    requires bits != [] && isMatch == bits[0]
    modifies text
    ensures match result
            case Err(e) => InflateToken(data[pos0..], bits, history, r0) == Err(e)
            case Ok(decoded) =>
              pos0 < pos <= |data| &&
              Mirrors(text[..], r, history + decoded) &&
              r == Advance(r0, |decoded|) &&
              InflateToken(data[pos0..], bits, history, r0)
              == Inflate(data[pos..], bits[1..], history + decoded, r)
  {
    InflateStep(data[pos0..], bits, history, r0);
    pos, r := pos0, r0;
    if isMatch {
      var head;
      head, pos := ReadMatch(data, pos);
      if head.Err? {
        return Err(head.error), pos, r;
      }
      var (mpos, mlen) := head.value;
      var copied;
      copied, r := CopyMatch(text, mpos, mlen, r, history);
      result := Ok(copied);
    } else {
      if pos >= |data| {
        return Err(TruncatedLiteral), pos, r;
      }
      var value := data[pos];
      assert data[pos..][1..] == data[pos + 1..];
      pos := pos + 1;
      r := PutByte(text, r, value, history);
      assert Advance(r0, 1) == r;
      result := Ok([value]);
    }
  }

  /** The fields of a match: those of one little-endian word, and perhaps a third byte. */
  method ReadMatch(data: seq<byte>, pos0: nat) returns (result: Result<(slot, nat), Error>, pos: nat)
    requires pos0 <= |data|
    ensures match result
            case Err(e) => ReadToken(data[pos0..], true) == Err(e)
            case Ok((from, count)) =>
              pos0 < pos <= |data| && ReadToken(data[pos0..], true) == Ok((Match(from, count), data[pos..]))
  {
    pos := pos0;
    if pos + 2 > |data| {
      return Err(TruncatedMatch), pos;
    }
    assert data[pos0..][2..] == data[pos0 + 2..];
    var word: int := data[pos] as int + 256 * data[pos + 1] as int;
    pos := pos + 2;
    var mpos: slot := word % 4096;
    var mlen := word / 4096 + 3;
    if mlen == 18 {
      if pos >= |data| {
        return Err(TruncatedLongMatch), pos;
      }
      assert data[pos0..][3..] == data[pos0 + 3..];
      mlen := mlen + data[pos] as int;
      pos := pos + 1;
    }
    result := Ok((mpos, mlen));
  }

  // ---------------------------------------------------------------- the decoder

  /** Unused control bits as the decoder keeps them: below eight ones that mark their end. */
  function Flags(bits: seq<bool>): (flags: nat)
    ensures flags >= 255
  {
    if bits == [] then 255 else (if bits[0] then 1 else 0) + 2 * Flags(bits[1..])
  }

  /** The flags between two tokens: to be shifted before the next one. */
  ghost predicate Holds(flags: nat, bits: seq<bool>) {
    |bits| <= 8 && (flags / 2 == Flags(bits) || (flags == 0 && bits == []))
  }

  function TwoTo(n: nat): nat
    requires n <= 8
  {
    match n
    case 0 => 1 case 1 => 2 case 2 => 4 case 3 => 8 case 4 => 16
    case 5 => 32 case 6 => 64 case 7 => 128 case 8 => 256
  }

  lemma {:induction false} FlagsRange(bits: seq<bool>)
    requires |bits| <= 8
    ensures 255 * TwoTo(|bits|) <= Flags(bits) < 256 * TwoTo(|bits|)
    decreases |bits|
  {
    if bits != [] {
      FlagsRange(bits[1..]);
    }
  }

  /** Bit 8 is clear exactly when all control bits are used up. */
  lemma FlagsRunOut(bits: seq<bool>)
    requires |bits| <= 8
    ensures (Flags(bits) / 256) % 2 == 0 <==> bits == []
  {
    FlagsRange(bits);
  }

  lemma {:induction false} FlagsOfBits(v: nat, n: nat)
    requires n <= 8 && v < TwoTo(n)
    ensures Flags(LowBits(v, n)) == v + 255 * TwoTo(n)
    decreases n
  {
    if n > 0 {
      FlagsOfBits(v / 2, n - 1);
      assert LowBits(v, n)[1..] == LowBits(v / 2, n - 1);
    }
  }

  lemma {:induction false} NoBits(n: nat)
    ensures forall i :: 0 <= i < n ==> !LowBits(0, n)[i]
    decreases n
  {
    if n > 0 {
      NoBits(n - 1);
    }
  }

  /** Moves on to the next control bit, and to the next control byte after eight of them. */
  method NextControl(data: seq<byte>, pos0: nat, flags0: nat, ghost bits0: seq<bool>,
                     ghost history: seq<byte>, ghost r: slot)
    returns (pos: nat, flags: nat, loaded: bool, ghost bits: seq<bool>)
    requires pos0 < |data| && Holds(flags0, bits0) && |history| >= 4096
    ensures pos0 <= pos <= |data| && 0 < |bits| <= 8
    ensures Holds(flags, bits[1..]) && (flags % 2 == 1 <==> bits[0])
    ensures loaded && flags == 0xff00 ==> |bits| == 8 && forall i :: 0 <= i < 8 ==> !bits[i]
    ensures Inflate(data[pos0..], bits0, history, r) == InflateToken(data[pos..], bits, history, r)
  {
    FlagsRunOut(bits0);
    pos, flags, loaded, bits := pos0, flags0 / 2, false, bits0;
    if (flags / 256) % 2 == 0 {
      FlagsOfBits(data[pos], 8);
      NoBits(8);
      flags, bits := data[pos] as int + 0xff00, Control(data[pos]);
      pos, loaded := pos + 1, true;
      assert data[pos0..][1..] == data[pos..];
    }
  }

  /** The shortcut: eight literals at once, where neither the payload nor the ring ends. */
  method CopyChunk(data: seq<byte>, pos: nat, text: array<byte>, r: slot, ghost history: seq<byte>, ghost bits: seq<bool>)
    returns (chunk: seq<byte>)
    requires text.Length == 4096 && pos + 8 < |data| && r < 4096 - 8
    requires |bits| == 8 && forall i :: 0 <= i < 8 ==> !bits[i]
    requires Mirrors(text[..], r, history)
    modifies text
    ensures chunk == data[pos..pos + 8] && Advance(r, |chunk|) == r + 8
    ensures Mirrors(text[..], r + 8, history + chunk)
    ensures InflateToken(data[pos..], bits, history, r) == Inflate(data[pos + 8..], [], history + chunk, r + 8)
  {
    chunk := data[pos..pos + 8];
    ghost var before := text[..];
    forall i | 0 <= i < 8 {
      text[r + i] := chunk[i];
    }
    MirrorChunk(before, text[..], r, chunk, history);
    assert data[pos..] == chunk + data[pos + 8..];
    LiteralRun(chunk, data[pos + 8..], bits, history, r);
    AdvanceIsModular(r, 8);
  }

  lemma MirrorChunk(before: seq<byte>, after: seq<byte>, r: slot, chunk: seq<byte>, history: seq<byte>)
    requires Mirrors(before, r, history) && |after| == 4096 && |chunk| == 8 && r < 4096 - 8
    requires forall m: slot :: after[m] == if r <= m < r + 8 then chunk[m - r] else before[m]
    ensures Mirrors(after, r + 8, history + chunk)
  {
  }

  /**
   Decompresses one payload through the ring that all planes of an image share. The output,
   the write position and the ring are those of the plain LZ77 expansion, whatever route
   the loop took.
   */
  method Decompress(data: seq<byte>, text: array<byte>, r0: slot)
    returns (result: Result<(seq<byte>, slot), Error>)
    requires text.Length == 4096
    modifies text
    ensures var history := old(Unrolled(text[..], r0));
            match Inflate(data, [], history, r0)
            case Err(e) => result == Err(e)
            case Ok(longer) =>
              result == Ok((longer[4096..], Advance(r0, |longer| - 4096))) &&
              Mirrors(text[..], result.value.1, longer)
  {
    hide *;
    ghost var history0 := Unrolled(text[..], r0);
    ghost var history := history0;
    var out: seq<byte>, r: slot, pos: nat, flags: nat := [], r0, 0, 0;
    ghost var bits: seq<bool> := [];
    Begin(data, history0, r0);
    while pos < |data|
      invariant pos <= |data| && Holds(flags, bits)
      invariant |history0| == 4096 && history == history0 + out && Mirrors(text[..], r, history)
      invariant r == Advance(r0, |out|)
      invariant Inflate(data, [], history0, r0) == Inflate(data[pos..], bits, history, r)
      decreases |data| - pos
    {
      var loaded;
      pos, flags, loaded, bits := NextControl(data, pos, flags, bits, history, r);
      if loaded && flags == 0xff00 && r < 4096 - 8 && pos < |data| - 8 {
        var chunk := CopyChunk(data, pos, text, r, history, bits);
        Extend(history0, out, chunk, r0);
        out, history := out + chunk, history + chunk;
        r := r + 8;
        pos := pos + 8;
        flags := 0;
        bits := [];
        continue;
      }
      var decoded;
      decoded, pos, r := DecodeToken(data, pos, flags % 2 == 1, text, r, history, bits);
      if decoded.Err? {
        return Err(decoded.error);
      }
      Extend(history0, out, decoded.value, r0);
      out, history := out + decoded.value, history + decoded.value;
      bits := bits[1..];
    }
    End(data[pos..], bits, history, r);
    assert history[4096..] == out;
    result := Ok((out, r));
  }

  lemma Begin(data: seq<byte>, history: seq<byte>, r0: slot)
    requires |history| >= 4096
    ensures Holds(0, []) && Advance(r0, 0) == r0 && history + [] == history
    ensures Inflate(data, [], history, r0) == Inflate(data[0..], [], history, r0)
  {
    assert data[0..] == data;
  }

  lemma Extend(history: seq<byte>, out: seq<byte>, more: seq<byte>, r0: slot)
    ensures history + (out + more) == (history + out) + more
    ensures Advance(r0, |out + more|) == Advance(Advance(r0, |out|), |more|)
    ensures Holds(0, [])
  {
    AdvanceTwice(r0, |out|, |more|);
  }

  lemma End(data: seq<byte>, bits: seq<bool>, history: seq<byte>, r: slot)
    requires data == [] && |history| >= 4096
    ensures Inflate(data, bits, history, r) == Ok(history)
  {
  }
}
