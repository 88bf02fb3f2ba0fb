/**
 The image stage of the TLG5 decoder (tools/decode_tlg5.py, `decode`).

 Colours are stored as residuals: red and blue relative to green, every channel relative to
 its left neighbour, every row relative to the row above, also where a new block begins. The
 specification is one closed form: a channel is the sum, modulo 256, of all its residuals in
 the rectangle above and to the left.
 */
module Tlg5Image {
  import opened Common

  // ---------------------------------------------------------------- arithmetic modulo 256

  function Add(a: byte, b: byte): byte { if a + b < 256 then a + b else a + b - 256 }

  function Sub(a: byte, b: byte): byte { if a >= b then a - b else a - b + 256 }

  lemma Masked(a: byte, b: byte)
    ensures (a as int + b as int) % 256 == Add(a, b)
  {
  }

  // ---------------------------------------------------------------- residuals and their sums

  // A row of residuals: one slice of `width` bytes for each colour plane.
  type Row = seq<seq<byte>>

  /** The colours that are summed up; a file may have more planes. */
  predicate Colours(colours: nat) { colours == 3 || colours == 4 }

  predicate IsRow(row: Row, colours: nat, width: nat) {
    |row| == colours && forall c :: 0 <= c < colours ==> |row[c]| == width
  }

  predicate AreRows(rows: seq<Row>, colours: nat, width: nat) {
    forall y :: 0 <= y < |rows| ==> IsRow(rows[y], colours, width)
  }

  /** Residual of output channel 0..3 (blue, green, red, alpha) with the green taken back in. */
  function Delta(row: Row, ch: nat, x: nat): byte
    requires Colours(|row|) && ch < |row| && forall c :: 0 <= c < |row| ==> x < |row[c]|
  {
    match ch
    case 0 => Add(row[2][x], row[1][x])
    case 1 => row[1][x]
    case 2 => Add(row[0][x], row[1][x])
    case 3 => row[3][x]
  }

  /** Sum of the first `n` residuals of a row. */
  function RowSum(row: Row, width: nat, ch: nat, n: nat): byte
    requires Colours(|row|) && IsRow(row, |row|, width) && ch < |row| && n <= width
    decreases n
  {
    if n == 0 then 0 else Add(RowSum(row, width, ch, n - 1), Delta(row, ch, n - 1))
  }

  /** Sum of the residuals in the first `m` rows and `n` columns. */
  function RectSum(rows: seq<Row>, colours: nat, width: nat, ch: nat, m: nat, n: nat): byte
    requires Colours(colours) && AreRows(rows, colours, width) && ch < colours
    requires m <= |rows| && n <= width
    decreases m
  {
    if m == 0 then 0
    else Add(RectSum(rows, colours, width, ch, m - 1, n), RowSum(rows[m - 1], width, ch, n))
  }

  /** The same sum over the integers. */
  function PlainRowSum(row: Row, width: nat, ch: nat, n: nat): nat
    requires Colours(|row|) && IsRow(row, |row|, width) && ch < |row| && n <= width
    decreases n
  {
    if n == 0 then 0 else PlainRowSum(row, width, ch, n - 1) + Delta(row, ch, n - 1)
  }

  function PlainRectSum(rows: seq<Row>, colours: nat, width: nat, ch: nat, m: nat, n: nat): nat
    requires Colours(colours) && AreRows(rows, colours, width) && ch < colours
    requires m <= |rows| && n <= width
    decreases m
  {
    if m == 0 then 0
    else PlainRectSum(rows, colours, width, ch, m - 1, n) + PlainRowSum(rows[m - 1], width, ch, n)
  }

  lemma ReducedSum(a: nat, b: nat)
    ensures Add(a % 256, b % 256) == (a + b) % 256
  {
  }

  lemma {:induction false} RowSumIsModular(row: Row, width: nat, ch: nat, n: nat)
    requires Colours(|row|) && IsRow(row, |row|, width) && ch < |row| && n <= width
    ensures RowSum(row, width, ch, n) == PlainRowSum(row, width, ch, n) % 256
    decreases n
  {
    if n > 0 {
      RowSumIsModular(row, width, ch, n - 1);
      ReducedSum(PlainRowSum(row, width, ch, n - 1), Delta(row, ch, n - 1));
    }
  }

  lemma {:induction false} RectSumIsModular(rows: seq<Row>, colours: nat, width: nat, ch: nat, m: nat, n: nat)
    requires Colours(colours) && AreRows(rows, colours, width) && ch < colours
    requires m <= |rows| && n <= width
    ensures RectSum(rows, colours, width, ch, m, n) == PlainRectSum(rows, colours, width, ch, m, n) % 256
    decreases m
  {
    if m > 0 {
      RectSumIsModular(rows, colours, width, ch, m - 1, n);
      RowSumIsModular(rows[m - 1], width, ch, n);
      ReducedSum(PlainRectSum(rows, colours, width, ch, m - 1, n), PlainRowSum(rows[m - 1], width, ch, n));
    }
  }

  // ---------------------------------------------------------------- images

  /** Channel `ch` of pixel `x` of a scan line: four bytes a pixel. */
  function At(line: seq<byte>, x: nat, ch: nat): byte
    requires 4 * x + 4 <= |line| && ch < 4
  {
    line[4 * x + ch]
  }

  lemma LinesEqual(a: seq<byte>, b: seq<byte>, width: nat)
    requires |a| == 4 * width == |b|
    requires forall x, ch | 0 <= x < width && 0 <= ch < 4 :: At(a, x, ch) == At(b, x, ch)
    ensures a == b
  {
    forall k | 0 <= k < 4 * width ensures a[k] == b[k] {
      assert At(a, k / 4, k % 4) == At(b, k / 4, k % 4);
    }
  }

  /** Alpha where it is not summed up: opaque, but for values given in advance. */
  function Given(alpha: seq<byte>, x: nat): byte { if x < |alpha| then alpha[x] else 255 }

  /** The value of a channel of the image; `alpha` is what the first row has if alpha is not summed up. */
  function Cell(rows: seq<Row>, colours: nat, width: nat, alpha: seq<byte>, y: nat, x: nat, ch: nat): byte
    requires Colours(colours) && AreRows(rows, colours, width) && y < |rows| && x < width && ch < 4
  {
    if ch < colours then RectSum(rows, colours, width, ch, y + 1, x + 1)
    else if y == 0 then Given(alpha, x)
    else 255
  }

  predicate Lines(image: seq<seq<byte>>, width: nat) {
    forall y :: 0 <= y < |image| ==> |image[y]| == 4 * width
  }

  ghost predicate ShowsRow(line: seq<byte>, rows: seq<Row>, colours: nat, width: nat, alpha: seq<byte>, y: nat)
    requires Colours(colours) && AreRows(rows, colours, width) && y < |rows|
  {
    |line| == 4 * width &&
    forall x, ch | 0 <= x < width && 0 <= ch < 4 :: At(line, x, ch) == Cell(rows, colours, width, alpha, y, x, ch)
  }

  /** `image` is the picture of the residuals: every byte of it is determined. */
  ghost predicate Shows(image: seq<seq<byte>>, rows: seq<Row>, colours: nat, width: nat, alpha: seq<byte>)
    requires Colours(colours) && AreRows(rows, colours, width)
  {
    |image| == |rows| && forall y :: 0 <= y < |rows| ==> ShowsRow(image[y], rows, colours, width, alpha, y)
  }

  lemma ImageIsDetermined(a: seq<seq<byte>>, b: seq<seq<byte>>, rows: seq<Row>, colours: nat, width: nat, alpha: seq<byte>)
    requires Colours(colours) && AreRows(rows, colours, width)
    requires Shows(a, rows, colours, width, alpha) && Shows(b, rows, colours, width, alpha)
    ensures a == b
  {
    forall y | 0 <= y < |rows| ensures a[y] == b[y] {
      LinesEqual(a[y], b[y], width);
    }
  }

  /** Plain sum of the first `n` bytes of a row of plane `c`. */
  function PlaneRowSum(row: Row, width: nat, c: nat, n: nat): nat
    requires IsRow(row, |row|, width) && c < |row| && n <= width
    decreases n
  {
    if n == 0 then 0 else PlaneRowSum(row, width, c, n - 1) + row[c][n - 1]
  }

  /** Plain sum of plane `c` over the first `m` rows and `n` columns. */
  function PlaneSum(rows: seq<Row>, colours: nat, width: nat, c: nat, m: nat, n: nat): nat
    requires AreRows(rows, colours, width) && c < colours && m <= |rows| && n <= width
    decreases m
  {
    if m == 0 then 0
    else PlaneSum(rows, colours, width, c, m - 1, n) + PlaneRowSum(rows[m - 1], width, c, n)
  }

  /** What channel `ch` is made of: blue, green, red, alpha; blue and red lack the green, which is plane 1. */
  function RowPlanes(row: Row, width: nat, ch: nat, n: nat): nat
    requires Colours(|row|) && IsRow(row, |row|, width) && ch < |row| && n <= width
  {
    match ch
    case 0 => PlaneRowSum(row, width, 2, n) + PlaneRowSum(row, width, 1, n)
    case 1 => PlaneRowSum(row, width, 1, n)
    case 2 => PlaneRowSum(row, width, 0, n) + PlaneRowSum(row, width, 1, n)
    case 3 => PlaneRowSum(row, width, 3, n)
  }

  function RectPlanes(rows: seq<Row>, colours: nat, width: nat, ch: nat, m: nat, n: nat): nat
    requires Colours(colours) && AreRows(rows, colours, width) && ch < colours && m <= |rows| && n <= width
  {
    match ch
    case 0 => PlaneSum(rows, colours, width, 2, m, n) + PlaneSum(rows, colours, width, 1, m, n)
    case 1 => PlaneSum(rows, colours, width, 1, m, n)
    case 2 => PlaneSum(rows, colours, width, 0, m, n) + PlaneSum(rows, colours, width, 1, m, n)
    case 3 => PlaneSum(rows, colours, width, 3, m, n)
  }

  lemma ReducedTwice(a: nat, p: byte, q: byte)
    ensures Add(a % 256, Add(p, q)) == (a + p + q) % 256
    ensures Add(a % 256, p) == (a + p) % 256
  {
    hide Add;
    Masked(p, q);
    ReducedSum(a, p as int + q as int);
    ReducedSum(a, p);
  }

  /** How a row's planes grow by one column. */
  lemma RowPlanesStep(row: Row, width: nat, ch: nat, n: nat)
    requires Colours(|row|) && IsRow(row, |row|, width) && ch < |row| && 0 < n <= width
    ensures Add(RowPlanes(row, width, ch, n - 1) % 256, Delta(row, ch, n - 1)) == RowPlanes(row, width, ch, n) % 256
  {
    hide Add;
    var before := RowPlanes(row, width, ch, n - 1);
    ReducedTwice(before, row[if ch < 3 then 2 - ch else 3][n - 1], row[1][n - 1]);
  }

  lemma {:induction false} RowSumOfPlanes(row: Row, width: nat, ch: nat, n: nat)
    requires Colours(|row|) && IsRow(row, |row|, width) && ch < |row| && n <= width
    ensures RowSum(row, width, ch, n) == RowPlanes(row, width, ch, n) % 256
    decreases n
  {
    hide Add, Delta;
    if n > 0 {
      RowSumOfPlanes(row, width, ch, n - 1);
      RowPlanesStep(row, width, ch, n);
    }
  }

  lemma {:induction false} RectSumOfPlanes(rows: seq<Row>, colours: nat, width: nat, ch: nat, m: nat, n: nat)
    requires Colours(colours) && AreRows(rows, colours, width) && m <= |rows| && n <= width && ch < colours
    ensures RectSum(rows, colours, width, ch, m, n) == RectPlanes(rows, colours, width, ch, m, n) % 256
    decreases m
  {
    hide Add, RowSum, PlaneRowSum;
    if m > 0 {
      RectSumOfPlanes(rows, colours, width, ch, m - 1, n);
      RowSumOfPlanes(rows[m - 1], width, ch, n);
      ReducedSum(RectPlanes(rows, colours, width, ch, m - 1, n), RowPlanes(rows[m - 1], width, ch, n));
    }
  }

  lemma ByteIsCell(image: seq<seq<byte>>, rows: seq<Row>, colours: nat, width: nat, alpha: seq<byte>, y: nat, x: nat, ch: nat)
    requires Colours(colours) && AreRows(rows, colours, width) && Shows(image, rows, colours, width, alpha)
    requires y < |rows| && x < width && ch < 4
    ensures |image[y]| == 4 * width && 4 * x + ch < |image[y]|
    ensures image[y][4 * x + ch] == Cell(rows, colours, width, alpha, y, x, ch)
  {
    assert ShowsRow(image[y], rows, colours, width, alpha, y);
    assert At(image[y], x, ch) == Cell(rows, colours, width, alpha, y, x, ch);
  }

  /** The bytes of a pixel in terms of the planes as they are stored, summed over the integers. */
  lemma PixelIsPlaneSums(image: seq<seq<byte>>, rows: seq<Row>, colours: nat, width: nat, alpha: seq<byte>, y: nat, x: nat)
    requires Colours(colours) && AreRows(rows, colours, width) && Shows(image, rows, colours, width, alpha)
    requires y < |rows| && x < width
    ensures |image[y]| == 4 * width
    ensures image[y][4 * x] == (PlaneSum(rows, colours, width, 2, y + 1, x + 1) + PlaneSum(rows, colours, width, 1, y + 1, x + 1)) % 256
    ensures image[y][4 * x + 1] == PlaneSum(rows, colours, width, 1, y + 1, x + 1) % 256
    ensures image[y][4 * x + 2] == (PlaneSum(rows, colours, width, 0, y + 1, x + 1) + PlaneSum(rows, colours, width, 1, y + 1, x + 1)) % 256
    ensures image[y][4 * x + 3] == if colours == 4 then PlaneSum(rows, colours, width, 3, y + 1, x + 1) % 256
                                   else if y == 0 && x < |alpha| then alpha[x] else 255
  {
    hide RectSum, PlaneSum, Shows;
    ByteIsCell(image, rows, colours, width, alpha, y, x, 0);
    ByteIsCell(image, rows, colours, width, alpha, y, x, 1);
    ByteIsCell(image, rows, colours, width, alpha, y, x, 2);
    ByteIsCell(image, rows, colours, width, alpha, y, x, 3);
    RectSumOfPlanes(rows, colours, width, 0, y + 1, x + 1);
    RectSumOfPlanes(rows, colours, width, 1, y + 1, x + 1);
    RectSumOfPlanes(rows, colours, width, 2, y + 1, x + 1);
    if colours == 4 {
      RectSumOfPlanes(rows, colours, width, 3, y + 1, x + 1);
    }
  }

  // ---------------------------------------------------------------- one row

  /** The first `n` pixels of `line` are those of `row` added to the row above. */
  ghost predicate Continues(line: seq<byte>, row: Row, width: nat, above: seq<byte>, alpha: seq<byte>, n: nat)
    requires Colours(|row|) && IsRow(row, |row|, width) && n <= width
    requires |line| == 4 * width == |above|
  {
    forall x, ch | 0 <= x < n && 0 <= ch < 4 ::
      At(line, x, ch) == if ch < |row| then Add(RowSum(row, width, ch, x + 1), At(above, x, ch)) else Given(alpha, x)
  }

  function Black(width: nat): seq<byte> { seq(4 * width, _ => 0 as byte) }

  /** One pixel more. */
  method PutPixel(line: array<byte>, x: nat, b: byte, g: byte, r: byte, a: byte)
    requires 4 * x + 4 <= line.Length
    modifies line
    ensures forall k: nat, ch | 4 * k + 4 <= line.Length && 0 <= ch < 4 ::
              At(line[..], k, ch) == if k == x then [b, g, r, a][ch] else At(old(line[..]), k, ch)
  {
    line[4 * x], line[4 * x + 1], line[4 * x + 2], line[4 * x + 3] := b, g, r, a;
  }

  lemma RowSumStep(row: Row, width: nat, ch: nat, x: nat)
    requires Colours(|row|) && IsRow(row, |row|, width) && ch < |row| && x < width
    ensures RowSum(row, width, ch, x + 1) == Add(RowSum(row, width, ch, x), Delta(row, ch, x))
  {
  }

  /** What pixel `x` of a row must be. */
  predicate Fits(px: seq<byte>, row: Row, width: nat, above: seq<byte>, alpha: seq<byte>, x: nat)
    requires Colours(|row|) && IsRow(row, |row|, width) && x < width && |above| == 4 * width
  {
    |px| == 4 &&
    forall ch | 0 <= ch < 4 :: px[ch] == if ch < |row| then Add(RowSum(row, width, ch, x + 1), At(above, x, ch)) else Given(alpha, x)
  }

  lemma ContinuesMore(before: seq<byte>, after: seq<byte>, row: Row, width: nat, above: seq<byte>, alpha: seq<byte>, x: nat, px: seq<byte>)
    requires Colours(|row|) && IsRow(row, |row|, width) && x < width
    requires |before| == |after| == |above| == 4 * width && Continues(before, row, width, above, alpha, x)
    requires Fits(px, row, width, above, alpha, x)
    requires forall k: nat, ch | 4 * k + 4 <= |after| && 0 <= ch < 4 :: At(after, k, ch) == if k == x then px[ch] else At(before, k, ch)
    ensures Continues(after, row, width, above, alpha, x + 1)
  {
    hide Fits, RowSum, At;
    forall k, ch | 0 <= k < x + 1 && 0 <= ch < 4
      ensures At(after, k, ch) == if ch < |row| then Add(RowSum(row, width, ch, k + 1), At(above, k, ch)) else Given(alpha, k)
    {
      if k == x {
        FitsAt(px, row, width, above, alpha, x, ch);
      }
    }
  }

  lemma FitsAt(px: seq<byte>, row: Row, width: nat, above: seq<byte>, alpha: seq<byte>, x: nat, ch: nat)
    requires Colours(|row|) && IsRow(row, |row|, width) && x < width && |above| == 4 * width
    requires Fits(px, row, width, above, alpha, x) && ch < 4
    ensures px[ch] == if ch < |row| then Add(RowSum(row, width, ch, x + 1), At(above, x, ch)) else Given(alpha, x)
  {
  }

  /** How many of a file's colours are summed up. */
  function Channels(colours: nat): nat { if colours == 4 then 4 else 3 }

  /**
   The branch for the very first row: it is the general one with a row of zeros above. With more
   than four colours the fourth plane, `spare`, becomes the alpha of this row as it is.
   */
  method FirstRow(row: Row, spare: seq<byte>, colours: nat, width: nat, line: array<byte>)
    requires Colours(|row|) && IsRow(row, Channels(colours), width) && line.Length == 4 * width
    requires |spare| == if colours > 4 then width else 0
    requires width > 0 ==> colours >= 3
    modifies line
    ensures Continues(line[..], row, width, Black(width), spare, width)
  {
    hide Continues, RowSum;
    var pr: byte, pg: byte, pb: byte, pa: byte := 0, 0, 0, 0;
    NothingSummed(line[..], row, width, Black(width), spare);
    for x := 0 to width
      invariant pb == RowSum(row, width, 0, x) && pg == RowSum(row, width, 1, x)
      invariant pr == RowSum(row, width, 2, x)
      invariant pa == if colours == 4 then RowSum(row, width, 3, x) else 0
      invariant Continues(line[..], row, width, Black(width), spare, x)
    {
      RowSumSteps(row, width, x);
      var rr, gg, bb := row[0][x], row[1][x], row[2][x];
      bb := Masking(bb, gg);
      rr := Masking(rr, gg);
      pb := Masking(pb, bb);
      pg := Masking(pg, gg);
      pr := Masking(pr, rr);
      var alpha: byte := 255;
      if colours != 3 {
        alpha := Masking(pa, if colours == 4 then row[3][x] else spare[x]);
      }
      ghost var before := line[..];
      PutPixel(line, x, pb, pg, pr, alpha);
      if colours == 4 {
        pa := Masking(pa, row[3][x]);
      }
      ContinuesMore(before, line[..], row, width, Black(width), spare, x, [pb, pg, pr, alpha]);
    }
  }

  lemma NothingSummed(line: seq<byte>, row: Row, width: nat, above: seq<byte>, alpha: seq<byte>)
    requires Colours(|row|) && IsRow(row, |row|, width) && |line| == |above| == 4 * width
    ensures Continues(line, row, width, above, alpha, 0) && forall ch | 0 <= ch < |row| :: RowSum(row, width, ch, 0) == 0
  {
  }

  lemma RowSumSteps(row: Row, width: nat, x: nat)
    requires Colours(|row|) && IsRow(row, |row|, width) && x < width
    ensures forall ch | 0 <= ch < |row| :: RowSum(row, width, ch, x + 1) == Add(RowSum(row, width, ch, x), Delta(row, ch, x))
  {
    forall ch | 0 <= ch < |row| ensures RowSum(row, width, ch, x + 1) == Add(RowSum(row, width, ch, x), Delta(row, ch, x)) {
      RowSumStep(row, width, ch, x);
    }
  }

  /** The source's `(a + b) & 0xFF`. */
  method Masking(a: byte, b: byte) returns (sum: byte)
    ensures sum == Add(a, b)
  {
    Masked(a, b);
    sum := (a as int + b as int) % 256;
  }

  /** The branch for every other row: alpha is opaque unless there are exactly four colours. */
  method NextRow(row: Row, colours: nat, width: nat, line: array<byte>, above: seq<byte>)
    requires Colours(|row|) && IsRow(row, Channels(colours), width)
    requires line.Length == 4 * width == |above|
    modifies line
    ensures Continues(line[..], row, width, above, [], width)
  {
    hide Continues, RowSum, Add;
    var pc0: byte, pc1: byte, pc2: byte, pc3: byte := 0, 0, 0, 0;
    NothingSummed(line[..], row, width, above, []);
    for x := 0 to width
      invariant pc0 == RowSum(row, width, 0, x) && pc1 == RowSum(row, width, 1, x)
      invariant pc2 == RowSum(row, width, 2, x)
      invariant colours == 4 ==> pc3 == RowSum(row, width, 3, x)
      invariant Continues(line[..], row, width, above, [], x)
    {
      RowSumSteps(row, width, x);
      var c0, c1, c2 := row[2][x], row[1][x], row[0][x];
      c0 := Masking(c0, c1);
      c2 := Masking(c2, c1);
      pc0 := Masking(pc0, c0);
      pc1 := Masking(pc1, c1);
      pc2 := Masking(pc2, c2);
      var b := Masking(pc0, above[4 * x + 0]);
      var g := Masking(pc1, above[4 * x + 1]);
      var r := Masking(pc2, above[4 * x + 2]);
      var a: byte := 255;
      if colours == 4 {
        pc3 := Masking(pc3, row[3][x]);
        a := Masking(pc3, above[4 * x + 3]);
      }
      ghost var before := line[..];
      PutPixel(line, x, b, g, r, a);
      ContinuesMore(before, line[..], row, width, above, [], x, [b, g, r, a]);
    }
  }

  lemma AddAssociates(a: byte, b: byte, c: byte)
    ensures Add(Add(a, b), c) == Add(a, Add(b, c)) && Add(a, b) == Add(b, a)
  {
  }

  /** A row that continues the image row above it, or black, is the next image row. */
  lemma ContinuesImage(line: seq<byte>, rows: seq<Row>, colours: nat, width: nat, alpha: seq<byte>, y: nat, above: seq<byte>)
    requires Colours(colours) && AreRows(rows, colours, width) && y < |rows|
    requires |line| == 4 * width == |above|
    requires if y == 0 then above == Black(width) else ShowsRow(above, rows, colours, width, alpha, y - 1)
    requires Continues(line, rows[y], width, above, if y == 0 then alpha else [], width)
    ensures ShowsRow(line, rows, colours, width, alpha, y)
  {
    forall x, ch | 0 <= x < width && 0 <= ch < 4 ensures At(line, x, ch) == Cell(rows, colours, width, alpha, y, x, ch) {
      if ch < colours {
        var here, higher := RowSum(rows[y], width, ch, x + 1), RectSum(rows, colours, width, ch, y, x + 1);
        assert At(above, x, ch) == higher;
        AddAssociates(here, higher, 0);
      }
    }
  }

  // ---------------------------------------------------------------- the inverse

  /** A channel of the image, with zeros outside it. */
  function Sample(image: seq<seq<byte>>, width: nat, ch: nat, y: int, x: int): byte
    requires Lines(image, width) && y < |image| && x < width && ch < 4
  {
    if y < 0 || x < 0 then 0 else At(image[y], x, ch)
  }

  /** The residual that takes the three earlier neighbours to this pixel. */
  function Residual(image: seq<seq<byte>>, width: nat, ch: nat, y: nat, x: nat): byte
    requires Lines(image, width) && y < |image| && x < width && ch < 4
  {
    Sub(Sub(Sample(image, width, ch, y, x), Sample(image, width, ch, y - 1, x)),
        Sub(Sample(image, width, ch, y, x - 1), Sample(image, width, ch, y - 1, x - 1)))
  }

  /** The byte that plane `c` must hold at (x, y) of an image. */
  function PlaneByte(image: seq<seq<byte>>, width: nat, c: nat, y: nat, x: nat): byte
    requires Lines(image, width) && y < |image| && x < width && c < 4
  {
    match c
    case 0 => Sub(Residual(image, width, 2, y, x), Residual(image, width, 1, y, x))
    case 1 => Residual(image, width, 1, y, x)
    case 2 => Sub(Residual(image, width, 0, y, x), Residual(image, width, 1, y, x))
    case 3 => Residual(image, width, 3, y, x)
  }

  function EncodeRow(image: seq<seq<byte>>, colours: nat, width: nat, y: nat): (row: Row)
    requires Colours(colours) && Lines(image, width) && y < |image|
    ensures IsRow(row, colours, width)
  {
    seq(colours, c requires 0 <= c < colours =>
      seq(width, x requires 0 <= x < width => PlaneByte(image, width, c, y, x)))
  }

  /** An encoder for the format. */
  function Encode(image: seq<seq<byte>>, colours: nat, width: nat): (rows: seq<Row>)
    requires Colours(colours) && Lines(image, width)
    ensures |rows| == |image| && AreRows(rows, colours, width)
  {
    seq(|image|, y requires 0 <= y < |image| => EncodeRow(image, colours, width, y))
  }

  lemma SampleIsRectSum(image: seq<seq<byte>>, rows: seq<Row>, colours: nat, width: nat, alpha: seq<byte>, ch: nat, y: int, x: int)
    requires Colours(colours) && AreRows(rows, colours, width) && Shows(image, rows, colours, width, alpha)
    requires -1 <= y < |rows| && -1 <= x < width && ch < colours
    ensures Sample(image, width, ch, y, x) == RectSum(rows, colours, width, ch, y + 1, x + 1)
  {
    if x == -1 {
      EmptyRect(rows, colours, width, ch, y + 1);
    } else if y >= 0 {
      assert ShowsRow(image[y], rows, colours, width, alpha, y);
      assert At(image[y], x, ch) == Cell(rows, colours, width, alpha, y, x, ch);
    }
  }

  lemma {:induction false} EmptyRect(rows: seq<Row>, colours: nat, width: nat, ch: nat, m: nat)
    requires Colours(colours) && AreRows(rows, colours, width) && ch < colours && m <= |rows|
    ensures RectSum(rows, colours, width, ch, m, 0) == 0
    decreases m
  {
    if m > 0 {
      EmptyRect(rows, colours, width, ch, m - 1);
    }
  }

  lemma SubUndoesAdd(a: byte, b: byte)
    ensures Sub(Add(a, b), a) == b && Sub(Add(a, b), b) == a && Add(Sub(a, b), b) == a
  {
  }

  lemma ResidualIsDelta(image: seq<seq<byte>>, rows: seq<Row>, colours: nat, width: nat, alpha: seq<byte>, ch: nat, y: nat, x: nat)
    requires Colours(colours) && AreRows(rows, colours, width) && Shows(image, rows, colours, width, alpha)
    requires y < |rows| && x < width && ch < colours
    ensures Residual(image, width, ch, y, x) == Delta(rows[y], ch, x)
  {
    SampleIsRectSum(image, rows, colours, width, alpha, ch, y, x);
    SampleIsRectSum(image, rows, colours, width, alpha, ch, y, x - 1);
    SampleIsRectSum(image, rows, colours, width, alpha, ch, y - 1, x);
    SampleIsRectSum(image, rows, colours, width, alpha, ch, y - 1, x - 1);
    SubUndoesAdd(RectSum(rows, colours, width, ch, y, x + 1), RowSum(rows[y], width, ch, x + 1));
    SubUndoesAdd(RectSum(rows, colours, width, ch, y, x), RowSum(rows[y], width, ch, x));
    SubUndoesAdd(RowSum(rows[y], width, ch, x), Delta(rows[y], ch, x));
  }

  lemma PlaneByteIsStored(image: seq<seq<byte>>, rows: seq<Row>, colours: nat, width: nat, alpha: seq<byte>, c: nat, y: nat, x: nat)
    requires Colours(colours) && AreRows(rows, colours, width) && Shows(image, rows, colours, width, alpha)
    requires y < |rows| && x < width && c < colours
    ensures PlaneByte(image, width, c, y, x) == rows[y][c][x]
  {
    var row := rows[y];
    ResidualIsDelta(image, rows, colours, width, alpha, 1, y, x);
    match c
    case 0 =>
      ResidualIsDelta(image, rows, colours, width, alpha, 2, y, x);
      SubUndoesAdd(row[0][x], row[1][x]);
    case 1 =>
    case 2 =>
      ResidualIsDelta(image, rows, colours, width, alpha, 0, y, x);
      SubUndoesAdd(row[2][x], row[1][x]);
    case 3 =>
      ResidualIsDelta(image, rows, colours, width, alpha, 3, y, x);
  }

  /** The planes can be recovered from the image: decoding loses nothing. */
  lemma EncodeInvertsDecode(image: seq<seq<byte>>, rows: seq<Row>, colours: nat, width: nat, alpha: seq<byte>)
    requires Colours(colours) && AreRows(rows, colours, width) && Shows(image, rows, colours, width, alpha)
    ensures Lines(image, width) && Encode(image, colours, width) == rows
  {
    forall y | 0 <= y < |image| ensures |image[y]| == 4 * width {
      assert ShowsRow(image[y], rows, colours, width, alpha, y);
    }
    forall y | 0 <= y < |rows| ensures EncodeRow(image, colours, width, y) == rows[y] {
      var row := EncodeRow(image, colours, width, y);
      forall c | 0 <= c < colours ensures row[c] == rows[y][c] {
        forall x | 0 <= x < width ensures row[c][x] == rows[y][c][x] {
          PlaneByteIsStored(image, rows, colours, width, alpha, c, y, x);
        }
      }
    }
  }

  ghost predicate Opaque(image: seq<seq<byte>>, width: nat)
    requires Lines(image, width)
  {
    forall y, x | 0 <= y < |image| && 0 <= x < width :: At(image[y], x, 3) == 255
  }

  /** Every image the format can hold is reached: with three colours, the opaque ones. */
  lemma DecodeInvertsEncode(image: seq<seq<byte>>, colours: nat, width: nat)
    requires Colours(colours) && Lines(image, width)
    ensures Shows(image, Encode(image, colours, width), colours, width, []) <==> (colours == 3 ==> Opaque(image, width))
  {
    var rows := Encode(image, colours, width);
    hide Encode, RectSum, At;
    if colours == 4 || Opaque(image, width) {
      forall y | 0 <= y < |image| ensures ShowsRow(image[y], rows, colours, width, [], y) {
        forall x, ch | 0 <= x < width && 0 <= ch < 4
          ensures At(image[y], x, ch) == Cell(rows, colours, width, [], y, x, ch)
        {
          if ch < colours {
            EncodedRectSum(image, colours, width, ch, y + 1, x + 1);
          }
        }
      }
    } else {
      var y, x :| 0 <= y < |image| && 0 <= x < width && At(image[y], x, 3) != 255;
      assert At(image[y], x, 3) != Cell(rows, colours, width, [], y, x, 3);
      assert !ShowsRow(image[y], rows, colours, width, [], y);
    }
  }

  lemma EncodedDelta(image: seq<seq<byte>>, colours: nat, width: nat, ch: nat, y: nat, x: nat)
    requires Colours(colours) && Lines(image, width) && y < |image| && x < width && ch < colours
    ensures Delta(EncodeRow(image, colours, width, y), ch, x) == Residual(image, width, ch, y, x)
  {
    var row := EncodeRow(image, colours, width, y);
    assert row[1][x] == PlaneByte(image, width, 1, y, x);
    if ch != 1 {
      var c := if ch == 3 then 3 else 2 - ch;
      assert row[c][x] == PlaneByte(image, width, c, y, x);
      SubUndoesAdd(Residual(image, width, ch, y, x), Residual(image, width, 1, y, x));
    }
  }

  lemma {:induction false} EncodedRowSum(image: seq<seq<byte>>, colours: nat, width: nat, ch: nat, y: nat, n: nat)
    requires Colours(colours) && Lines(image, width) && y < |image| && n <= width && ch < colours
    ensures RowSum(EncodeRow(image, colours, width, y), width, ch, n)
         == Sub(Sample(image, width, ch, y, n - 1), Sample(image, width, ch, y - 1, n - 1))
    decreases n
  {
    hide PlaneByte, Add, EncodeRow, Delta;
    if n > 0 {
      EncodedRowSum(image, colours, width, ch, y, n - 1);
      EncodedDelta(image, colours, width, ch, y, n - 1);
      AddBack(Sub(Sample(image, width, ch, y, n - 1), Sample(image, width, ch, y - 1, n - 1)),
              Sub(Sample(image, width, ch, y, n - 2), Sample(image, width, ch, y - 1, n - 2)));
    }
  }

  lemma AddBack(a: byte, b: byte)
    ensures Add(b, Sub(a, b)) == a
  {
  }

  lemma {:induction false} EncodedRectSum(image: seq<seq<byte>>, colours: nat, width: nat, ch: nat, m: nat, n: nat)
    requires Colours(colours) && Lines(image, width) && m <= |image| && n <= width && ch < colours
    ensures RectSum(Encode(image, colours, width), colours, width, ch, m, n) == Sample(image, width, ch, m - 1, n - 1)
    decreases m
  {
    hide PlaneByte, Add, Sub, RowSum;
    if m > 0 {
      EncodedRectSum(image, colours, width, ch, m - 1, n);
      EncodedRowSum(image, colours, width, ch, m - 1, n);
      AddBack(Sample(image, width, ch, m - 1, n - 1), Sample(image, width, ch, m - 2, n - 1));
    }
  }
}
