/**
 The body of a TLG5 file (tools/decode_tlg5.py, `decode` from the first block on): the colour
 planes of one block after the other, packed or stored, feed the image stage. All packed
 planes of a file share one ring, so a match may reach back into an earlier plane or block.
 */
module Tlg5Decode {
  import opened Common
  import L = Tlg5Lzss
  import opened Tlg5Image

  datatype Geometry = Geometry(colours: nat, width: nat, height: nat, blockHeight: nat) {
    predicate Supported() { blockHeight > 0 }

    /** How many of the planes make a row of residuals. */
    function Summed(): nat { Channels(colours) }
  }

  datatype DecodeError = MissingMark | TruncatedSize | BadPayload(cause: L.Error) | PlaneTooShort

  /** Reading position, everything packed planes have produced so far, next slot of the ring. */
  datatype Cursor = Cursor(p: nat, history: seq<byte>, r: L.slot) {
    predicate Valid() { |history| >= 4096 }
  }

  /** One plane: a mark, a size, and the bytes, packed when the mark is zero. */
  function ReadPlane(data: seq<byte>, at: Cursor): (result: Result<(seq<byte>, Cursor), DecodeError>)
    requires at.Valid()
    ensures result.Ok? ==> result.value.1.Valid()
  {
    if at.p >= |data| then Err(MissingMark)
    else if at.p + 5 > |data| then Err(TruncatedSize)
    else
      var size := LE(data[at.p + 1..at.p + 5]);
      var payload := Slice(data, at.p + 5, at.p + 5 + size);
      if data[at.p] != 0 then Ok((payload, Cursor(at.p + 5 + size, at.history, at.r)))
      else match L.Inflate(payload, [], at.history, at.r)
        case Err(e) => Err(BadPayload(e))
        case Ok(longer) =>
          L.InflateExtends(payload, [], at.history, at.r);
          var plane := longer[|at.history|..];
          Ok((plane, Cursor(at.p + 5 + size, longer, L.Advance(at.r, |plane|))))
  }

  function ReadPlanes(data: seq<byte>, at: Cursor, n: nat): (result: Result<(seq<seq<byte>>, Cursor), DecodeError>)
    requires at.Valid()
    ensures result.Ok? ==> |result.value.0| == n && result.value.1.Valid()
    decreases n
  {
    if n == 0 then Ok(([], at))
    else match ReadPlane(data, at)
      case Err(e) => Err(e)
      case Ok((plane, next)) =>
        match ReadPlanes(data, next, n - 1)
        case Err(e) => Err(e)
        case Ok((planes, last)) => Ok(([plane] + planes, last))
  }

  /** The summed planes exist and hold `n` rows; without pixels nothing is looked up. */
  predicate LongEnough(planes: seq<seq<byte>>, channels: nat, n: nat, width: nat) {
    width > 0 ==> channels <= |planes| && forall c :: 0 <= c < channels ==> |planes[c]| >= Span(n, width)
  }

  /** All that decoding the block at `y0` looks up; the fourth of more than four planes is used in the first row only. */
  predicate Enough(g: Geometry, planes: seq<seq<byte>>, y0: nat, n: nat) {
    LongEnough(planes, g.Summed(), n, g.width) &&
    (g.width > 0 && y0 == 0 && g.colours > 4 ==> |planes| > 3 && |planes[3]| >= g.width)
  }

  /** The alpha values of the first row that are taken as they are. */
  function Spare(g: Geometry, planes: seq<seq<byte>>): (spare: seq<byte>)
    ensures g.colours > 4 && (g.width > 0 ==> |planes| > 3 && |planes[3]| >= g.width) ==> |spare| == g.width
    ensures g.colours <= 4 ==> spare == []
    ensures forall x :: 0 <= x < |spare| ==> |planes| > 3 && x < |planes[3]| && spare[x] == planes[3][x]
  {
    if g.colours > 4 && g.width > 0 && |planes| > 3 && |planes[3]| >= g.width then planes[3][..g.width] else []
  }

  /** Those of the block at `at`. */
  function SpareAt(g: Geometry, data: seq<byte>, at: Cursor): seq<byte>
    requires at.Valid()
  {
    match ReadPlanes(data, at, g.colours)
    case Err(_) => []
    case Ok((planes, _)) => Spare(g, planes)
  }

  /** The rows of a block: row k starts k times `width` bytes into every plane. */
  function BlockRow(planes: seq<seq<byte>>, channels: nat, width: nat, n: nat, k: nat): (row: Row)
    requires k < n && LongEnough(planes, channels, n, width)
    ensures IsRow(row, channels, width)
  {
    RowsStack(width, k, n);
    seq(channels, c requires 0 <= c < channels =>
      if width == 0 then [] else planes[c][Span(k, width)..Span(k, width) + width])
  }

  function BlockRows(planes: seq<seq<byte>>, channels: nat, width: nat, n: nat): (rows: seq<Row>)
    requires LongEnough(planes, channels, n, width)
    ensures |rows| == n && AreRows(rows, channels, width)
  {
    seq(n, k requires 0 <= k < n => BlockRow(planes, channels, width, n, k))
  }

  /** Rows of the block at `y0`: the last block of an image may be lower than the others. */
  function RowsHere(g: Geometry, y0: nat): (n: nat)
    requires y0 < g.height && g.Supported()
    ensures 0 < n <= g.height - y0 && n <= g.blockHeight
    ensures n < g.blockHeight ==> y0 + n == g.height
  {
    if y0 + g.blockHeight < g.height then g.blockHeight else g.height - y0
  }

  /** How many blocks are left from row `y0` on. */
  function BlockCount(g: Geometry, y0: nat): nat
    requires g.Supported()
    decreases g.height - y0
  {
    if y0 >= g.height then 0 else 1 + BlockCount(g, y0 + RowsHere(g, y0))
  }

  /** As many as the height demands: the height by the block height, rounded up. */
  lemma {:induction false} BlocksCoverHeight(g: Geometry, y0: nat)
    requires g.Supported() && y0 < g.height
    ensures BlockCount(g, y0) > 0
    ensures (BlockCount(g, y0) - 1) * g.blockHeight < g.height - y0 <= BlockCount(g, y0) * g.blockHeight
    decreases g.height - y0
  {
    var n := RowsHere(g, y0);
    if y0 + n < g.height {
      BlocksCoverHeight(g, y0 + n);
      OneTimesMore(BlockCount(g, y0 + n), g.blockHeight);
      OneTimesMore(BlockCount(g, y0 + n) - 1, g.blockHeight);
    }
  }

  lemma OneTimesMore(k: int, b: int)
    ensures (k + 1) * b == k * b + b
  {
  }

  /** The residual rows of all blocks from row `y0` on, as one image-high stack. */
  function ReadBlocks(g: Geometry, data: seq<byte>, at: Cursor, y0: nat): (result: Result<seq<Row>, DecodeError>)
    requires g.Supported() && at.Valid()
    ensures result.Ok? ==> AreRows(result.value, g.Summed(), g.width)
    ensures result.Ok? && y0 <= g.height ==> |result.value| == g.height - y0
    decreases g.height - y0
  {
    if y0 >= g.height then Ok([])
    else
      match ReadPlanes(data, at, g.colours)
      case Err(e) => Err(e)
      case Ok((planes, next)) =>
        var n := RowsHere(g, y0);
        if !Enough(g, planes, y0, n) then Err(PlaneTooShort)
        else
          match ReadBlocks(g, data, next, y0 + n)
          case Err(e) => Err(e)
          case Ok(rest) => Ok(BlockRows(planes, g.Summed(), g.width, n) + rest)
  }

  /** The state `decode` starts from: a ring of zeros. */
  function Start(p: nat): (at: Cursor)
    ensures at.Valid() && at.p == p && at.r == 0 && |at.history| == 4096
    ensures forall i :: 0 <= i < 4096 ==> at.history[i] == 0
  {
    Cursor(p, seq(4096, _ => 0 as byte), 0)
  }

  // ---------------------------------------------------------------- planes

  /** Decompressing through the ring is inflating with the whole past in sight. */
  lemma RingSuffices(payload: seq<byte>, text: seq<byte>, at: Cursor)
    requires at.Valid() && L.Mirrors(text, at.r, at.history)
    ensures match L.Inflate(payload, [], L.Unrolled(text, at.r), at.r)
            case Err(e) => L.Inflate(payload, [], at.history, at.r) == Err(e)
            case Ok(longer) =>
              |longer| >= 4096 &&
              L.Inflate(payload, [], at.history, at.r) == Ok(at.history + longer[4096..])
  {
    L.MirrorIsUnique(text, at.r, at.history);
    var past, recent := at.history[..|at.history| - 4096], L.Unrolled(text, at.r);
    assert at.history == past + recent;
    if L.Parse(payload, []).Ok? {
      ExpansionSuffices(past, recent, at.r, L.Parse(payload, []).value);
    }
  }

  lemma ExpansionSuffices(past: seq<byte>, recent: seq<byte>, r: L.slot, tokens: seq<L.Token>)
    requires |recent| == 4096
    ensures L.Expand(past + recent, r, tokens) == (past + recent) + L.Expand(recent, r, tokens)[4096..]
  {
    hide *;
    var longer := L.Expand(recent, r, tokens);
    L.ExpandIsLocal(past, recent, r, tokens);
    L.ExpandExtends(recent, r, tokens);
    assert longer == recent + longer[4096..];
    Regroup(past, recent, longer[4096..]);
  }

  lemma MirrorsRecent(text: seq<byte>, r: L.slot, past: seq<byte>, recent: seq<byte>)
    requires L.Mirrors(text, r, recent)
    ensures L.Mirrors(text, r, past + recent)
  {
  }

  /** Unpacks one payload; the past it adds to may be longer than the ring. */
  method Unpack(payload: seq<byte>, text: array<byte>, ghost at: Cursor, r0: L.slot)
    returns (result: Result<seq<byte>, L.Error>, r: L.slot)
    requires at.Valid() && at.r == r0 && text.Length == 4096 && L.Mirrors(text[..], r0, at.history)
    modifies text
    ensures match result
            case Err(e) => L.Inflate(payload, [], at.history, at.r) == Err(e)
            case Ok(plane) =>
              L.Inflate(payload, [], at.history, at.r) == Ok(at.history + plane) &&
              r == L.Advance(r0, |plane|) && L.Mirrors(text[..], r, at.history + plane)
  {
    hide L.Inflate, L.Mirrors, L.Advance, L.Unrolled;
    r := r0;
    RingSuffices(payload, text[..], at);
    ghost var past, recent := at.history[..|at.history| - 4096], L.Unrolled(text[..], r0);
    L.MirrorIsUnique(text[..], r0, at.history);
    assert at.history == past + recent;
    var unpacked := L.Decompress(payload, text, r0);
    if unpacked.Err? {
      return Err(unpacked.error), r;
    }
    r := unpacked.value.1;
    RecentPlane(past, recent, L.Inflate(payload, [], recent, r0).value, payload, r0);
    MirrorsRecent(text[..], r, past, L.Inflate(payload, [], recent, r0).value);
    result := Ok(unpacked.value.0);
  }

  lemma RecentPlane(past: seq<byte>, recent: seq<byte>, longer: seq<byte>, payload: seq<byte>, r: L.slot)
    requires |recent| == 4096 && L.Inflate(payload, [], recent, r) == Ok(longer)
    ensures |longer| >= 4096 && past + longer == (past + recent) + longer[4096..]
  {
    hide *;
    L.InflateExtends(payload, [], recent, r);
    assert longer == recent + longer[4096..];
    Regroup(past, recent, longer[4096..]);
  }

  method DecodePlane(data: seq<byte>, p0: nat, text: array<byte>, r0: L.slot, ghost at: Cursor)
    returns (result: Result<seq<byte>, DecodeError>, p: nat, r: L.slot, ghost next: Cursor)
    requires at.Valid() && at.p == p0 && at.r == r0
    requires text.Length == 4096 && L.Mirrors(text[..], r0, at.history)
    modifies text
    ensures match result
            case Err(e) => ReadPlane(data, at) == Err(e)
            case Ok(plane) =>
              ReadPlane(data, at) == Ok((plane, next)) && next.p == p && next.r == r &&
              L.Mirrors(text[..], r, next.history)
  {
    p, r, next := p0, r0, at;
    if p >= |data| {
      return Err(MissingMark), p, r, next;
    }
    var mark := data[p];
    if p + 5 > |data| {
      return Err(TruncatedSize), p, r, next;
    }
    var size := LE(data[p + 1..p + 5]);
    p := p + 5;
    var payload := Slice(data, p, p + size);
    p := p + size;
    if mark != 0 {
      next := Cursor(p, at.history, r);
      return Ok(payload), p, r, next;
    }
    var unpacked;
    unpacked, r := Unpack(payload, text, at, r);
    if unpacked.Err? {
      return Err(BadPayload(unpacked.error)), p, r, next;
    }
    next := Cursor(p, at.history + unpacked.value, r);
    assert (at.history + unpacked.value)[|at.history|..] == unpacked.value;
    result := Ok(unpacked.value);
  }

  method DecodePlanes(data: seq<byte>, p0: nat, text: array<byte>, r0: L.slot, n: nat, ghost at: Cursor)
    returns (result: Result<seq<seq<byte>>, DecodeError>, p: nat, r: L.slot, ghost next: Cursor)
    requires at.Valid() && at.p == p0 && at.r == r0
    requires text.Length == 4096 && L.Mirrors(text[..], r0, at.history)
    modifies text
    ensures match result
            case Err(e) => ReadPlanes(data, at, n) == Err(e)
            case Ok(planes) =>
              ReadPlanes(data, at, n) == Ok((planes, next)) && next.p == p && next.r == r &&
              L.Mirrors(text[..], r, next.history)
  {
    hide ReadPlane, L.Mirrors;
    var planes: seq<seq<byte>> := [];
    p, r, next := p0, r0, at;
    JoinNothing(ReadPlanes(data, at, n));
    for i := 0 to n
      invariant next.Valid() && next.p == p && next.r == r && L.Mirrors(text[..], r, next.history)
      invariant ReadPlanes(data, at, n) == Join(planes, ReadPlanes(data, next, n - i))
    {
      var plane;
      ghost var before := next;
      plane, p, r, next := DecodePlane(data, p, text, r, next);
      if plane.Err? {
        return Err(plane.error), p, r, next;
      }
      JoinStep(data, before, plane.value, next, n - i, planes);
      planes := planes + [plane.value];
    }
    assert planes + [] == planes;
    result := Ok(planes);
  }

  lemma JoinNothing(more: Result<(seq<seq<byte>>, Cursor), DecodeError>)
    ensures Join([], more) == more
  {
    assert more.Ok? ==> [] + more.value.0 == more.value.0;
  }

  function Join(planes: seq<seq<byte>>, more: Result<(seq<seq<byte>>, Cursor), DecodeError>)
    : Result<(seq<seq<byte>>, Cursor), DecodeError>
  {
    match more
    case Err(e) => Err(e)
    case Ok((rest, last)) => Ok((planes + rest, last))
  }

  lemma JoinStep(data: seq<byte>, at: Cursor, plane: seq<byte>, next: Cursor, n: nat, planes: seq<seq<byte>>)
    requires at.Valid() && n > 0 && ReadPlane(data, at) == Ok((plane, next))
    ensures Join(planes, ReadPlanes(data, at, n)) == Join(planes + [plane], ReadPlanes(data, next, n - 1))
  {
    if ReadPlanes(data, next, n - 1).Ok? {
      var rest := ReadPlanes(data, next, n - 1).value.0;
      assert planes + ([plane] + rest) == (planes + [plane]) + rest;
    }
  }

  // ---------------------------------------------------------------- the picture grows

  lemma {:induction false} RectSumIsLocal(rows: seq<Row>, more: seq<Row>, colours: nat, width: nat, ch: nat, m: nat, n: nat)
    requires Colours(colours) && AreRows(rows, colours, width) && AreRows(rows + more, colours, width)
    requires ch < colours && m <= |rows| && n <= width
    ensures RectSum(rows + more, colours, width, ch, m, n) == RectSum(rows, colours, width, ch, m, n)
    decreases m
  {
    if m > 0 {
      RectSumIsLocal(rows, more, colours, width, ch, m - 1, n);
    }
  }

  /** Adding a row below changes nothing above. */
  lemma ShowsMore(image: seq<seq<byte>>, line: seq<byte>, rows: seq<Row>, row: Row, colours: nat, width: nat, alpha: seq<byte>)
    requires Colours(colours) && AreRows(rows, colours, width) && IsRow(row, colours, width)
    requires Shows(image, rows, colours, width, alpha)
    requires |line| == 4 * width && AreRows(rows + [row], colours, width)
    requires var above := if rows == [] then Black(width) else image[|rows| - 1];
             |above| == 4 * width && Continues(line, row, width, above, if rows == [] then alpha else [], width)
    ensures Shows(image + [line], rows + [row], colours, width, alpha)
  {
    var rows' := rows + [row];
    forall y | 0 <= y < |rows| ensures ShowsRow(image[y], rows', colours, width, alpha, y) {
      assert ShowsRow(image[y], rows, colours, width, alpha, y);
      forall x, ch | 0 <= x < width && 0 <= ch < 4
        ensures At(image[y], x, ch) == Cell(rows', colours, width, alpha, y, x, ch)
      {
        if ch < colours {
          RectSumIsLocal(rows, [row], colours, width, ch, y + 1, x + 1);
        }
      }
    }
    var above := if rows == [] then Black(width) else image[|rows| - 1];
    ContinuesImage(line, rows', colours, width, alpha, |rows|, above);
  }

  /** The row loop of one block. */
  method DecodeRows(g: Geometry, planes: seq<seq<byte>>, n: nat, image0: seq<seq<byte>>, ghost rows0: seq<Row>, ghost alpha: seq<byte>)
    returns (image: seq<seq<byte>>)
    requires g.Supported() && n > 0 && |planes| == g.colours && Enough(g, planes, |rows0|, n)
    requires rows0 == [] ==> alpha == Spare(g, planes)
    requires AreRows(rows0, g.Summed(), g.width) && Shows(image0, rows0, g.Summed(), g.width, alpha)
    ensures AreRows(rows0 + BlockRows(planes, g.Summed(), g.width, n), g.Summed(), g.width)
    ensures Shows(image, rows0 + BlockRows(planes, g.Summed(), g.width, n), g.Summed(), g.width, alpha)
  {
    image := image0;
    ghost var all := BlockRows(planes, g.Summed(), g.width, n);
    ghost var rows := rows0;
    var offset := 0;
    for k := 0 to n
      invariant offset == Span(k, g.width)
      invariant rows == rows0 + all[..k]
      invariant AreRows(rows, g.Summed(), g.width) && Shows(image, rows, g.Summed(), g.width, alpha)
    {
      RowsStack(g.width, k, n);
      var row: Row := seq(g.Summed(), c requires 0 <= c < g.Summed() =>
        if g.width == 0 then [] else planes[c][offset..offset + g.width]);
      assert row == all[k];
      var line := new byte[4 * g.width];
      if image == [] {
        FirstRow(row, Spare(g, planes), g.colours, g.width, line);
      } else {
        assert ShowsRow(image[|rows| - 1], rows, g.Summed(), g.width, alpha, |rows| - 1);
        NextRow(row, g.colours, g.width, line, image[|image| - 1]);
      }
      ShowsMore(image, line[..], rows, row, g.Summed(), g.width, alpha);
      image, rows := image + [line[..]], rows + [row];
      assert rows == rows0 + all[..k + 1];
      offset := offset + g.width;
    }
    assert all[..n] == all;
  }

  function Stack(rows: seq<Row>, more: Result<seq<Row>, DecodeError>): Result<seq<Row>, DecodeError> {
    match more
    case Err(e) => Err(e)
    case Ok(rest) => Ok(rows + rest)
  }

  lemma StackNothing(more: Result<seq<Row>, DecodeError>)
    ensures Stack([], more) == more
  {
    assert more.Ok? ==> [] + more.value == more.value;
  }

  lemma StackStep(rows: seq<Row>, block: seq<Row>, more: Result<seq<Row>, DecodeError>)
    ensures Stack(rows, Stack(block, more)) == Stack(rows + block, more)
  {
    if more.Ok? {
      assert rows + (block + more.value) == (rows + block) + more.value;
    }
  }

  /** What the first block contributes to the stack. */
  lemma ReadBlocksStep(g: Geometry, data: seq<byte>, at: Cursor, y0: nat, planes: seq<seq<byte>>, next: Cursor, rows: seq<Row>)
    requires g.Supported() && y0 < g.height && at.Valid()
    requires ReadPlanes(data, at, g.colours) == Ok((planes, next))
    ensures var n := RowsHere(g, y0);
            if Enough(g, planes, y0, n) then
              Stack(rows, ReadBlocks(g, data, at, y0))
              == Stack(rows + BlockRows(planes, g.Summed(), g.width, n), ReadBlocks(g, data, next, y0 + n))
            else Stack(rows, ReadBlocks(g, data, at, y0)) == Err(PlaneTooShort)
  {
    hide ReadPlanes, BlockRows, LongEnough, Span, AreRows;
    var n := RowsHere(g, y0);
    if Enough(g, planes, y0, n) {
      StackStep(rows, BlockRows(planes, g.Summed(), g.width, n), ReadBlocks(g, data, next, y0 + n));
    }
  }

  /** One block: its planes, then its rows below those of the blocks before it. */
  method DecodeBlock(g: Geometry, data: seq<byte>, p0: nat, text: array<byte>, r0: L.slot, y0: nat,
                     image0: seq<seq<byte>>, ghost at: Cursor, ghost rows0: seq<Row>, ghost alpha: seq<byte>)
    returns (result: Result<seq<seq<byte>>, DecodeError>, p: nat, r: L.slot, ghost next: Cursor, ghost rows: seq<Row>)
    requires g.Supported() && y0 < g.height && at.Valid() && at.p == p0 && at.r == r0
    requires text.Length == 4096 && L.Mirrors(text[..], r0, at.history)
    requires |rows0| == y0 && (y0 == 0 ==> alpha == SpareAt(g, data, at))
    requires AreRows(rows0, g.Summed(), g.width) && Shows(image0, rows0, g.Summed(), g.width, alpha)
    modifies text
    ensures match result
            case Err(e) => Stack(rows0, ReadBlocks(g, data, at, y0)) == Err(e)
            case Ok(image) =>
              next.Valid() && next.p == p && next.r == r && L.Mirrors(text[..], r, next.history) &&
              |rows| == y0 + RowsHere(g, y0) &&
              AreRows(rows, g.Summed(), g.width) && Shows(image, rows, g.Summed(), g.width, alpha) &&
              Stack(rows0, ReadBlocks(g, data, at, y0)) == Stack(rows, ReadBlocks(g, data, next, y0 + RowsHere(g, y0)))
  {
    hide *;
    rows := rows0;
    var planes;
    planes, p, r, next := DecodePlanes(data, p0, text, r0, g.colours, at);
    if planes.Err? {
      FirstPlanesFail(g, data, at, y0, planes.error, rows0);
      return Err(planes.error), p, r, next, rows;
    }
    ReadBlocksStep(g, data, at, y0, planes.value, next, rows0);
    SpareOf(g, data, at, planes.value, next);
    var n := RowsHere(g, y0);
    if !Enough(g, planes.value, y0, n) {
      return Err(PlaneTooShort), p, r, next, rows;
    }
    EnoughIsLong(g, planes.value, y0, n);
    rows := rows0 + BlockRows(planes.value, g.Summed(), g.width, n);
    var image := DecodeRows(g, planes.value, n, image0, rows0, alpha);
    result := Ok(image);
  }

  lemma EnoughIsLong(g: Geometry, planes: seq<seq<byte>>, y0: nat, n: nat)
    requires Enough(g, planes, y0, n)
    ensures LongEnough(planes, g.Summed(), n, g.width)
  {
  }

  lemma SpareOf(g: Geometry, data: seq<byte>, at: Cursor, planes: seq<seq<byte>>, next: Cursor)
    requires at.Valid() && ReadPlanes(data, at, g.colours) == Ok((planes, next))
    ensures |planes| == g.colours && SpareAt(g, data, at) == Spare(g, planes)
  {
  }

  lemma FirstPlanesFail(g: Geometry, data: seq<byte>, at: Cursor, y0: nat, e: DecodeError, rows: seq<Row>)
    requires g.Supported() && y0 < g.height && at.Valid() && ReadPlanes(data, at, g.colours) == Err(e)
    ensures Stack(rows, ReadBlocks(g, data, at, y0)) == Err(e)
  {
    hide ReadPlanes;
  }

  lemma DecodingStarts(g: Geometry, data: seq<byte>, p: nat, text: seq<byte>, alpha: seq<byte>)
    requires g.Supported() && |text| == 4096 && forall m :: 0 <= m < 4096 ==> text[m] == 0
    ensures var at := Start(p);
            at.p == p && at.r == 0 && L.Mirrors(text, 0, at.history) &&
            ReadBlocks(g, data, at, 0) == Stack([], ReadBlocks(g, data, at, 0))
    ensures Colours(g.Summed()) && AreRows([], g.Summed(), g.width) && Shows([], [], g.Summed(), g.width, alpha)
  {
    StackNothing(ReadBlocks(g, data, Start(p), 0));
  }

  lemma DecodingEnds(g: Geometry, data: seq<byte>, at: Cursor, y0: nat, rows: seq<Row>)
    requires g.Supported() && at.Valid() && y0 >= g.height
    ensures Stack(rows, ReadBlocks(g, data, at, y0)) == Ok(rows)
  {
    assert rows + [] == rows;
  }

  /** The answer for the blocks from offset `p0` on: the first error, or the picture of all their rows. */
  ghost predicate Decodes(g: Geometry, data: seq<byte>, p0: nat, result: Result<seq<seq<byte>>, DecodeError>)
    requires g.Supported()
  {
    match ReadBlocks(g, data, Start(p0), 0)
    case Err(e) => result == Err(e)
    case Ok(rows) => result.Ok? && Shows(result.value, rows, g.Summed(), g.width, SpareAt(g, data, Start(p0)))
  }

  lemma DecodedRows(g: Geometry, data: seq<byte>, p0: nat, image: seq<seq<byte>>, rows: seq<Row>)
    requires g.Supported() && ReadBlocks(g, data, Start(p0), 0) == Ok(rows)
    requires Shows(image, rows, g.Summed(), g.width, SpareAt(g, data, Start(p0)))
    ensures Decodes(g, data, p0, Ok(image))
  {
  }

  lemma DecodedError(g: Geometry, data: seq<byte>, p0: nat, e: DecodeError)
    requires g.Supported() && ReadBlocks(g, data, Start(p0), 0) == Err(e)
    ensures Decodes(g, data, p0, Err(e))
  {
  }

  /**
   Decodes the blocks of an image, starting at offset `p0` of the file. The picture is the one
   the closed form demands of the residual rows of all blocks, stacked.
   */
  method DecodeBody(data: seq<byte>, p0: nat, g: Geometry) returns (result: Result<seq<seq<byte>>, DecodeError>)
    requires g.Supported()
    ensures Decodes(g, data, p0, result)
  {
    hide *;
    var text := new byte[4096](_ => 0);
    var p, r: L.slot, y0 := p0, 0, 0;
    var image: seq<seq<byte>> := [];
    ghost var at, rows, alpha := Start(p0), [], SpareAt(g, data, Start(p0));
    DecodingStarts(g, data, p0, text[..], alpha);
    while y0 < g.height
      invariant y0 <= g.height && |rows| == y0 && (y0 == 0 ==> at == Start(p0))
      invariant at.Valid() && at.p == p && at.r == r && L.Mirrors(text[..], r, at.history)
      invariant AreRows(rows, g.Summed(), g.width) && Shows(image, rows, g.Summed(), g.width, alpha)
      invariant ReadBlocks(g, data, Start(p0), 0) == Stack(rows, ReadBlocks(g, data, at, y0))
      decreases g.height - y0
    {
      var decoded;
      decoded, p, r, at, rows := DecodeBlock(g, data, p, text, r, y0, image, at, rows, alpha);
      if decoded.Err? {
        DecodedError(g, data, p0, decoded.error);
        return Err(decoded.error);
      }
      image, y0 := decoded.value, y0 + RowsHere(g, y0);
    }
    DecodingEnds(g, data, at, y0, rows);
    DecodedRows(g, data, p0, image, rows);
    result := Ok(image);
  }
}
