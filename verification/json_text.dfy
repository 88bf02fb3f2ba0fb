/**
 JSON string escaping (bridge/krkr2_runtime/src/krkr2_legacy_engine_api.cpp, `JsonEscape`) and
 a reader for string literals after section 7 of RFC 8259. Text is a sequence of bytes.
 */
module JsonText {
  import opened Common

  function HexDigit(d: nat): byte
    requires d < 16
  {
    if d < 10 then 48 + d else 97 + d - 10
  }

  /** What a byte is written as. */
  function EscapeByte(c: byte): (e: seq<byte>)
    ensures e != []
  {
    if c == 34 then [92, 34]
    else if c == 92 then [92, 92]
    else if c == 8 then [92, 98]
    else if c == 12 then [92, 102]
    else if c == 10 then [92, 110]
    else if c == 13 then [92, 114]
    else if c == 9 then [92, 116]
    else if c < 32 then [92, 117, 48, 48, HexDigit(c / 16), HexDigit(c % 16)]
    else [c]
  }

  function Escape(text: seq<byte>): seq<byte> {
    if text == [] then [] else EscapeByte(text[0]) + Escape(text[1..])
  }

  method JsonEscape(text: seq<byte>) returns (escaped: seq<byte>)
    ensures escaped == Escape(text)
  {
    escaped := [];
    for i := 0 to |text|
      invariant escaped + Escape(text[i..]) == Escape(text)
    {
      assert text[i..][1..] == text[i + 1..];
      ghost var before := escaped;
      escaped := escaped + EscapeByte(text[i]);
      assert before + (EscapeByte(text[i]) + Escape(text[i + 1..])) == escaped + Escape(text[i + 1..]);
    }
    assert escaped + [] == escaped;
  }

  /** Bytes that end no line and need no escaping inside a JSON text. */
  predicate Printable(text: seq<byte>) { forall i | 0 <= i < |text| :: text[i] >= 32 }

  lemma PrintableConcat(a: seq<byte>, b: seq<byte>)
    ensures Printable(a + b) <==> Printable(a) && Printable(b)
  {
    if Printable(a + b) {
      forall i | 0 <= i < |a| ensures a[i] >= 32 {
        assert (a + b)[i] == a[i];
      }
      forall i | 0 <= i < |b| ensures b[i] >= 32 {
        assert (a + b)[|a| + i] == b[i];
      }
    }
  }

  /** No escaped byte is a control byte, and in particular none is a newline. */
  lemma {:induction false} EscapedIsPrintable(text: seq<byte>)
    ensures Printable(Escape(text))
    decreases |text|
  {
    if text != [] {
      EscapedIsPrintable(text[1..]);
      PrintableConcat(EscapeByte(text[0]), Escape(text[1..]));
    }
  }

  /** The escapes that have a letter, those that have none, and bytes left as they are. */
  lemma KnownEscapes(c: byte)
    ensures EscapeByte('"' as int) == ['\\' as int, '"' as int] && EscapeByte('\\' as int) == ['\\' as int, '\\' as int]
    ensures EscapeByte('\n' as int) == ['\\' as int, 'n' as int] && EscapeByte('\r' as int) == ['\\' as int, 'r' as int]
    ensures EscapeByte('\t' as int) == ['\\' as int, 't' as int]
    ensures EscapeByte(0x08) == ['\\' as int, 'b' as int] && EscapeByte(0x0c) == ['\\' as int, 'f' as int]
    ensures EscapeByte(0x1f) == ['\\' as int, 'u' as int, '0' as int, '0' as int, '1' as int, 'f' as int]
    ensures EscapeByte(c) == [c] <==> c >= 0x20 && c != '"' as int && c != '\\' as int
    ensures c < 0x20 && c !in {0x08, 0x09, 0x0a, 0x0c, 0x0d} ==> |EscapeByte(c)| == 6
  {
  }

  // ---------------------------------------------------------------- reading it back

  function HexValue(c: byte): Option<nat> {
    if 48 <= c <= 57 then Some(c - 48)
    else if 97 <= c <= 102 then Some(c - 97 + 10)
    else if 65 <= c <= 70 then Some(c - 65 + 10)
    else None
  }

  /** The byte an escape sequence stands for, and its length; code points above 127 are not read. */
  function ReadEscape(data: seq<byte>): Option<(byte, nat)> {
    if |data| < 2 || data[0] != 92 then None
    else if data[1] == 34 || data[1] == 92 || data[1] == 47 then Some((data[1], 2))
    else if data[1] == 98 then Some((8, 2))
    else if data[1] == 102 then Some((12, 2))
    else if data[1] == 110 then Some((10, 2))
    else if data[1] == 114 then Some((13, 2))
    else if data[1] == 116 then Some((9, 2))
    else if data[1] == 117 && |data| >= 6 && data[2] == 48 && data[3] == 48 then
      match (HexValue(data[4]), HexValue(data[5]))
      case (Some(h), Some(l)) => if h < 8 then Some((16 * h + l, 6)) else None
      case _ => None
    else None
  }

  /** Reads up to the closing quote: the string and what follows it. */
  function ReadString(data: seq<byte>): Option<(seq<byte>, seq<byte>)>
    decreases |data|
  {
    if data == [] || data[0] < 32 then None
    else if data[0] == 34 then Some(([], data[1..]))
    else
      var next := if data[0] == 92 then ReadEscape(data) else Some((data[0], 1));
      match next
      case None => None
      case Some((c, n)) =>
        match ReadString(data[n..])
        case None => None
        case Some((text, rest)) => Some(([c] + text, rest))
  }

  lemma HexRoundTrip(d: nat)
    requires d < 16
    ensures HexValue(HexDigit(d)) == Some(d)
  {
  }

  lemma ReadEscapedByte(c: byte, rest: seq<byte>)
    requires EscapeByte(c)[0] == 92
    ensures ReadEscape(EscapeByte(c) + rest) == Some((c, |EscapeByte(c)|))
  {
    if c < 32 {
      HexRoundTrip(c / 16);
      HexRoundTrip(c % 16);
    }
  }

  lemma ReadStep(c: byte, rest: seq<byte>)
    ensures ReadString(EscapeByte(c) + rest) ==
            match ReadString(rest)
            case None => None
            case Some((text, after)) => Some(([c] + text, after))
  {
    var e := EscapeByte(c);
    assert (e + rest)[|e|..] == rest;
    if e[0] == 92 {
      ReadEscapedByte(c, rest);
    }
  }

  /**
   A JSON reader gets back exactly the text, and stops exactly at the quote put behind it,
   whatever bytes the text holds.
   */
  lemma {:induction false} EscapedReadsBack(text: seq<byte>, rest: seq<byte>)
    ensures ReadString(Escape(text) + ([34] + rest)) == Some((text, rest))
    decreases |text|
  {
    if text == [] {
      assert [] + ([34] + rest) == [34] + rest;
    } else {
      hide EscapeByte, ReadString;
      var tail := Escape(text[1..]) + ([34] + rest);
      Regroup(EscapeByte(text[0]), Escape(text[1..]), [34] + rest);
      EscapedReadsBack(text[1..], rest);
      ReadStep(text[0], tail);
      assert [text[0]] + text[1..] == text;
    }
  }
}
