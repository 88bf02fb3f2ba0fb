/**
 A writer for the body of a TLG5 file, and the proof that the decoder (tools/decode_tlg5.py)
 reads back what it writes. The writer knows nothing of the decoder: it cuts the rows into
 blocks, and writes each plane of a block behind a mark and a four-byte size, stored or packed.
 */
module Tlg5RoundTrip {
  import opened Common
  import L = Tlg5Lzss
  import opened Tlg5Image
  import opened Tlg5Decode

  // ---------------------------------------------------------------- one plane

  /** A packed plane without matches: a zero control byte before every eight bytes; `n` bytes go before the next one. */
  function Packed(plane: seq<byte>, n: nat): seq<byte>
    requires n <= 8
  {
    if plane == [] then []
    else if n == 0 then [0x00, plane[0]] + Packed(plane[1..], 7)
    else [plane[0]] + Packed(plane[1..], n - 1)
  }

  lemma {:induction false} PackedInflates(plane: seq<byte>, bits: seq<bool>, history: seq<byte>, r: L.slot)
    requires |bits| <= 8 && forall i :: 0 <= i < |bits| ==> !bits[i]
    requires |history| >= 4096
    ensures L.Inflate(Packed(plane, |bits|), bits, history, r) == Ok(history + plane)
    decreases |plane|
  {
    hide L.Inflate, L.InflateToken, Packed, L.Control;
    PackedStep(plane, |bits|);
    if plane == [] {
      assert history + plane == history;
      L.End(Packed(plane, |bits|), bits, history, r);
    } else {
      var here := if bits == [] then L.Control(0x00) else bits;
      L.NoBits(8);
      ZeroControl();
      var rest := Packed(plane[1..], |here| - 1);
      InflateLiteral(plane[0], rest, here, history, r);
      PackedInflates(plane[1..], here[1..], history + [plane[0]], L.Next(r));
      assert (history + [plane[0]]) + plane[1..] == history + plane;
      if bits == [] {
        InflateControl(Packed(plane, 0), history, r);
        assert Packed(plane, 0)[1..] == [plane[0]] + rest;
      }
    }
  }

  lemma PackedStep(plane: seq<byte>, n: nat)
    requires n <= 8
    ensures plane == [] ==> Packed(plane, n) == []
    ensures plane != [] && n == 0 ==> Packed(plane, n) == [0x00, plane[0]] + Packed(plane[1..], 7)
    ensures plane != [] && n > 0 ==> Packed(plane, n) == [plane[0]] + Packed(plane[1..], n - 1)
  {
  }

  lemma ZeroControl()
    ensures |L.Control(0x00)| == 8 && forall i :: 0 <= i < 8 ==> !L.Control(0x00)[i]
  {
    L.NoBits(8);
  }

  lemma InflateControl(data: seq<byte>, history: seq<byte>, r: L.slot)
    requires data != [] && |history| >= 4096
    ensures L.Inflate(data, [], history, r) == L.InflateToken(data[1..], L.Control(data[0]), history, r)
  {
  }

  lemma InflateLiteral(value: byte, rest: seq<byte>, bits: seq<bool>, history: seq<byte>, r: L.slot)
    requires bits != [] && !bits[0] && |history| >= 4096
    ensures L.InflateToken([value] + rest, bits, history, r) == L.Inflate(rest, bits[1..], history + [value], L.Next(r))
    ensures L.Inflate([value] + rest, bits, history, r) == L.InflateToken([value] + rest, bits, history, r)
  {
    L.InflateStep([value] + rest, bits, history, r);
    assert ([value] + rest)[1..] == rest;
    L.OneMore(r);
  }

  /** What stands in the file for a plane: a zero mark announces packed bytes, any other the bytes themselves. */
  function Payload(plane: seq<byte>, mark: byte): seq<byte> {
    if mark == 0 then Packed(plane, 0) else plane
  }

  function PlaneFile(plane: seq<byte>, mark: byte): seq<byte> {
    [mark] + Digits(|Payload(plane, mark)|, 4) + Payload(plane, mark)
  }

  /** The size field has 32 bits. */
  predicate Sized(plane: seq<byte>, mark: byte) {
    |Payload(plane, mark)| < 0x1_0000_0000
  }

  /** Where a plane file leaves the reader: packed planes alone move the ring. */
  function Behind(at: Cursor, plane: seq<byte>, mark: byte): Cursor {
    var p := at.p + |PlaneFile(plane, mark)|;
    if mark == 0 then Cursor(p, at.history + plane, L.Advance(at.r, |plane|)) else Cursor(p, at.history, at.r)
  }

  /** `part` stands in `data` at offset `p`. */
  predicate Stands(data: seq<byte>, p: nat, part: seq<byte>) {
    p + |part| <= |data| && data[p..p + |part|] == part
  }

  lemma StandSplit(data: seq<byte>, p: nat, a: seq<byte>, b: seq<byte>)
    requires Stands(data, p, a + b)
    ensures Stands(data, p, a) && Stands(data, p + |a|, b)
  {
    assert a == (a + b)[..|a|] == data[p..p + |a|];
    assert b == (a + b)[|a|..] == data[p + |a|..p + |a| + |b|];
  }

  /** The three fields of a plane, where the reader looks for them. */
  lemma PlaneFields(data: seq<byte>, p: nat, plane: seq<byte>, mark: byte)
    requires Stands(data, p, PlaneFile(plane, mark)) && Sized(plane, mark)
    ensures var payload := Payload(plane, mark);
            p + 5 + |payload| == p + |PlaneFile(plane, mark)| <= |data| && data[p] == mark &&
            LE(data[p + 1..p + 5]) == |payload| && Slice(data, p + 5, p + 5 + |payload|) == payload
  {
    hide Payload, LE, Digits, Pow256;
    var payload := Payload(plane, mark);
    var size := Digits(|payload|, 4);
    SizeReadsBack(|payload|);
    StandSplit(data, p, [mark] + size, payload);
    StandSplit(data, p, [mark], size);
    assert data[p..p + 1] == [mark];
  }

  lemma SizeReadsBack(n: nat)
    requires n < 0x1_0000_0000
    ensures LE(Digits(n, 4)) == n
  {
    assert Pow256(4) == 256 * Pow256(3) && Pow256(2) == 0x1_0000;
    LEOfDigits(n, 4);
  }

  lemma {:induction false} PlaneReadsBack(data: seq<byte>, at: Cursor, plane: seq<byte>, mark: byte)
    requires at.Valid() && Stands(data, at.p, PlaneFile(plane, mark)) && Sized(plane, mark)
    ensures ReadPlane(data, at) == Ok((plane, Behind(at, plane, mark)))
  {
    hide Slice, LE, PlaneFile, Packed, L.Inflate, L.Advance, Stands;
    PlaneFields(data, at.p, plane, mark);
    if mark == 0 {
      PackedInflates(plane, [], at.history, at.r);
      assert (at.history + plane)[|at.history|..] == plane;
    }
  }

  /** A stored plane whose size exceeds the file is cut off at its end, and the reader moves on as if it were not. */
  lemma ClippedPlane(data: seq<byte>, at: Cursor, plane: seq<byte>, mark: byte, size: nat)
    requires mark != 0 && |plane| <= size < 0x1_0000_0000
    requires at.Valid() && at.p <= |data| && data[at.p..] == [mark] + Digits(size, 4) + plane
    ensures ReadPlane(data, at) == Ok((plane, Cursor(at.p + 5 + size, at.history, at.r)))
  {
    hide Digits, LE;
    var tail := data[at.p..];
    SizeReadsBack(size);
    assert tail[0] == mark && tail[1..5] == Digits(size, 4) && tail[5..] == plane;
    assert data[at.p + 1..at.p + 5] == tail[1..5] && data[at.p] == tail[0];
    var payload := Slice(data, at.p + 5, at.p + 5 + size);
    assert payload == plane by {
      assert forall i :: 0 <= i < |plane| ==> data[at.p + 5 + i] == tail[5..][i];
    }
  }

  // ---------------------------------------------------------------- the planes of a block

  /** The planes one after the other, plane c marked `marks[c]`. */
  function PlanesFile(planes: seq<seq<byte>>, marks: seq<byte>): seq<byte>
    requires |marks| == |planes|
  {
    if planes == [] then [] else PlaneFile(planes[0], marks[0]) + PlanesFile(planes[1..], marks[1..])
  }

  function AllBehind(at: Cursor, planes: seq<seq<byte>>, marks: seq<byte>): Cursor
    requires |marks| == |planes|
    decreases |planes|
  {
    if planes == [] then at else AllBehind(Behind(at, planes[0], marks[0]), planes[1..], marks[1..])
  }

  predicate AllSized(planes: seq<seq<byte>>, marks: seq<byte>)
    requires |marks| == |planes|
  {
    forall c :: 0 <= c < |planes| ==> Sized(planes[c], marks[c])
  }

  lemma {:induction false} PlanesReadBack(data: seq<byte>, at: Cursor, planes: seq<seq<byte>>, marks: seq<byte>)
    requires |marks| == |planes| && AllSized(planes, marks)
    requires at.Valid() && Stands(data, at.p, PlanesFile(planes, marks))
    ensures var last := AllBehind(at, planes, marks);
            ReadPlanes(data, at, |planes|) == Ok((planes, last)) &&
            last.Valid() && last.p == at.p + |PlanesFile(planes, marks)|
    decreases |planes|
  {
    hide ReadPlane, Stands, PlaneFile, Sized;
    if planes != [] {
      var plane, mark := planes[0], marks[0];
      StandSplit(data, at.p, PlaneFile(plane, mark), PlanesFile(planes[1..], marks[1..]));
      PlaneReadsBack(data, at, plane, mark);
      PlanesReadBack(data, Behind(at, plane, mark), planes[1..], marks[1..]);
      assert [plane] + planes[1..] == planes;
    }
  }

  // ---------------------------------------------------------------- blocks

  /** Plane `c` of some rows: its slices, topmost first. */
  function PlaneOf(rows: seq<Row>, colours: nat, width: nat, c: nat): seq<byte>
    requires AreRows(rows, colours, width) && c < colours
  {
    if rows == [] then [] else PlaneOf(rows[..|rows| - 1], colours, width, c) + rows[|rows| - 1][c]
  }

  lemma {:induction false} PlaneSlices(rows: seq<Row>, colours: nat, width: nat, c: nat, k: nat)
    requires AreRows(rows, colours, width) && c < colours && k <= |rows|
    ensures var plane := PlaneOf(rows, colours, width, c);
            |plane| == Span(|rows|, width) &&
            (k < |rows| ==> Span(k, width) + width <= |plane| && plane[Span(k, width)..Span(k, width) + width] == rows[k][c])
    decreases |rows|
  {
    if rows != [] {
      var above := rows[..|rows| - 1];
      if k < |above| {
        PlaneSlices(above, colours, width, c, k);
      } else {
        PlaneSlices(above, colours, width, c, |above|);
      }
    }
  }

  function PlanesOf(rows: seq<Row>, colours: nat, width: nat): (planes: seq<seq<byte>>)
    requires AreRows(rows, colours, width)
    ensures |planes| == colours
  {
    seq(colours, c requires 0 <= c < colours => PlaneOf(rows, colours, width, c))
  }

  lemma BlockReadsBack(rows: seq<Row>, colours: nat, width: nat)
    requires AreRows(rows, colours, width)
    ensures var planes := PlanesOf(rows, colours, width);
            LongEnough(planes, colours, |rows|, width) && BlockRows(planes, colours, width, |rows|) == rows
  {
    hide PlaneOf, Span;
    var planes := PlanesOf(rows, colours, width);
    forall c | 0 <= c < colours ensures |planes[c]| == Span(|rows|, width) {
      PlaneSlices(rows, colours, width, c, |rows|);
    }
    forall k | 0 <= k < |rows| ensures BlockRow(planes, colours, width, |rows|, k) == rows[k] {
      var row := BlockRow(planes, colours, width, |rows|, k);
      assert IsRow(rows[k], colours, width);
      forall c | 0 <= c < colours ensures row[c] == rows[k][c] {
        PlaneSlices(rows, colours, width, c, k);
      }
    }
  }

  /** The marks of a block's planes; any choice will do. */
  function Marks(mark: (nat, nat) -> byte, left: nat, colours: nat): (marks: seq<byte>)
    ensures |marks| == colours
  {
    seq(colours, c requires 0 <= c < colours => mark(left, c))
  }

  /** How many of the remaining rows go into the next block. */
  function Cut(left: nat, blockHeight: nat): (n: nat)
    ensures n <= left && (n == left || n == blockHeight)
  {
    if left < blockHeight then left else blockHeight
  }

  /** The body of a file: the rows in blocks of `blockHeight`, and a lower one at the foot. */
  function Body(rows: seq<Row>, colours: nat, width: nat, blockHeight: nat, mark: (nat, nat) -> byte): seq<byte>
    requires AreRows(rows, colours, width) && blockHeight > 0
    decreases |rows|
  {
    if rows == [] then []
    else
      var n := Cut(|rows|, blockHeight);
      PlanesFile(PlanesOf(rows[..n], colours, width), Marks(mark, |rows|, colours)) +
      Body(rows[n..], colours, width, blockHeight, mark)
  }

  /** No plane outgrows its size field. */
  predicate BodySized(rows: seq<Row>, colours: nat, width: nat, blockHeight: nat, mark: (nat, nat) -> byte)
    requires AreRows(rows, colours, width) && blockHeight > 0
    decreases |rows|
  {
    rows != [] ==>
      var n := Cut(|rows|, blockHeight);
      AllSized(PlanesOf(rows[..n], colours, width), Marks(mark, |rows|, colours)) &&
      BodySized(rows[n..], colours, width, blockHeight, mark)
  }

  lemma BodyCut(rows: seq<Row>, colours: nat, width: nat, blockHeight: nat, mark: (nat, nat) -> byte)
    requires AreRows(rows, colours, width) && blockHeight > 0 && rows != []
    ensures var n := Cut(|rows|, blockHeight);
            AreRows(rows[..n], colours, width) && AreRows(rows[n..], colours, width) &&
            Body(rows, colours, width, blockHeight, mark)
            == PlanesFile(PlanesOf(rows[..n], colours, width), Marks(mark, |rows|, colours)) +
               Body(rows[n..], colours, width, blockHeight, mark) &&
            (BodySized(rows, colours, width, blockHeight, mark) ==>
               AllSized(PlanesOf(rows[..n], colours, width), Marks(mark, |rows|, colours)) &&
               BodySized(rows[n..], colours, width, blockHeight, mark))
  {
    hide PlanesFile, PlanesOf, Marks, AllSized;
  }

  lemma PlanesThenRest(data: seq<byte>, at: Cursor, planes: seq<seq<byte>>, marks: seq<byte>, rest: seq<byte>)
    requires |marks| == |planes| && AllSized(planes, marks)
    requires at.Valid() && Stands(data, at.p, PlanesFile(planes, marks) + rest)
    ensures var last := AllBehind(at, planes, marks);
            last.Valid() && ReadPlanes(data, at, |planes|) == Ok((planes, last)) && Stands(data, last.p, rest)
  {
    hide *;
    StandSplit(data, at.p, PlanesFile(planes, marks), rest);
    PlanesReadBack(data, at, planes, marks);
  }

  /** The first block is read, and the rest of the body stands where the reader is then. */
  lemma FirstBlock(rows: seq<Row>, g: Geometry, mark: (nat, nat) -> byte, data: seq<byte>, at: Cursor) returns (next: Cursor)
    requires g.Supported() && AreRows(rows, g.colours, g.width) && rows != []
    requires BodySized(rows, g.colours, g.width, g.blockHeight, mark)
    requires at.Valid() && Stands(data, at.p, Body(rows, g.colours, g.width, g.blockHeight, mark))
    ensures var n := Cut(|rows|, g.blockHeight);
            AreRows(rows[..n], g.colours, g.width) && AreRows(rows[n..], g.colours, g.width) &&
            BodySized(rows[n..], g.colours, g.width, g.blockHeight, mark) && next.Valid() &&
            ReadPlanes(data, at, g.colours) == Ok((PlanesOf(rows[..n], g.colours, g.width), next)) &&
            Stands(data, next.p, Body(rows[n..], g.colours, g.width, g.blockHeight, mark))
  {
    assert g.blockHeight > 0;
    hide *;
    var n := Cut(|rows|, g.blockHeight);
    BodyCut(rows, g.colours, g.width, g.blockHeight, mark);
    var planes, marks := PlanesOf(rows[..n], g.colours, g.width), Marks(mark, |rows|, g.colours);
    next := AllBehind(at, planes, marks);
    PlanesThenRest(data, at, planes, marks, Body(rows[n..], g.colours, g.width, g.blockHeight, mark));
  }

  lemma BlockFits(rows: seq<Row>, g: Geometry, y0: nat)
    requires Colours(g.colours) && AreRows(rows, g.colours, g.width)
    ensures Enough(g, PlanesOf(rows, g.colours, g.width), y0, |rows|)
  {
    hide PlanesOf, BlockRows;
    BlockReadsBack(rows, g.colours, g.width);
  }

  /** Reading a body gives back the rows written, wherever it stands and whatever follows. */
  lemma {:induction false} BodyReadsBack(rows: seq<Row>, g: Geometry, mark: (nat, nat) -> byte, data: seq<byte>, at: Cursor)
    requires Colours(g.colours) && g.Supported() && AreRows(rows, g.colours, g.width) && |rows| <= g.height
    requires BodySized(rows, g.colours, g.width, g.blockHeight, mark)
    requires at.Valid() && Stands(data, at.p, Body(rows, g.colours, g.width, g.blockHeight, mark))
    ensures ReadBlocks(g, data, at, g.height - |rows|) == Ok(rows)
    decreases |rows|
  {
    hide Stands, Body, BodySized, ReadPlanes, PlanesOf, BlockRows, LongEnough, Enough, AreRows;
    if rows != [] {
      var n := Cut(|rows|, g.blockHeight);
      var next := FirstBlock(rows, g, mark, data, at);
      BlockFits(rows[..n], g, g.height - |rows|);
      BlockReadsBack(rows[..n], g.colours, g.width);
      BodyReadsBack(rows[n..], g, mark, data, next);
      assert rows[..n] + rows[n..] == rows;
    }
  }

  lemma NoSpare(g: Geometry, data: seq<byte>, at: Cursor)
    requires at.Valid() && g.colours <= 4
    ensures SpareAt(g, data, at) == []
  {
  }

  /**
   The round trip: the body written for an image decodes to that image and to nothing else, for every
   block height, whether its planes are stored or packed. With three colours the image must be opaque.
   */
  lemma ImageReadsBack(image: seq<seq<byte>>, g: Geometry, mark: (nat, nat) -> byte, data: seq<byte>, p0: nat,
                       result: Result<seq<seq<byte>>, DecodeError>)
    requires Colours(g.colours) && g.Supported() && Lines(image, g.width) && |image| == g.height
    requires g.colours == 3 ==> Opaque(image, g.width)
    requires var rows := Encode(image, g.colours, g.width);
             BodySized(rows, g.colours, g.width, g.blockHeight, mark) &&
             Stands(data, p0, Body(rows, g.colours, g.width, g.blockHeight, mark))
    ensures Decodes(g, data, p0, result) <==> result == Ok(image)
  {
    hide Stands, Body, BodySized, ReadBlocks, Shows, Encode;
    var rows := Encode(image, g.colours, g.width);
    BodyReadsBack(rows, g, mark, data, Start(p0));
    NoSpare(g, data, Start(p0));
    DecodeInvertsEncode(image, g.colours, g.width);
    if result.Ok? && Decodes(g, data, p0, result) {
      ImageIsDetermined(result.value, image, rows, g.colours, g.width, []);
    }
  }
}
