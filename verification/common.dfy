// Types and number formats shared by the models of the components.
module Common {

  datatype Option<+T> = None | Some(value: T)

  datatype Result<+T, +E> = Ok(value: T) | Err(error: E)

  type byte = b: int | 0 <= b < 256

  /** `s[from:to]` as Python slices: it may come out shorter. */
  function Slice<T>(s: seq<T>, from: nat, to: nat): (part: seq<T>)
    ensures |part| == if from >= |s| || from > to then 0 else if to > |s| then |s| - from else to - from
    ensures forall i :: 0 <= i < |part| ==> part[i] == s[from + i]
  {
    if from >= |s| || from > to then [] else if to > |s| then s[from..] else s[from..to]
  }

  // ---------------------------------------------------------------- little-endian numbers

  function LE(bytes: seq<byte>): nat {
    if bytes == [] then 0 else bytes[0] as int + 256 * LE(bytes[1..])
  }

  /** The lowest byte comes first. */
  lemma LittleEndian(a: byte, b: byte, c: byte, d: byte)
    ensures LE([a, b]) == a + 0x100 * b
    ensures LE([a, b, c, d]) == a + 0x100 * b + 0x1_0000 * c + 0x100_0000 * d
  {
    assert [a, b, c, d][1..] == [b, c, d];
    assert [b, c, d][1..] == [c, d];
    assert [c, d][1..] == [d] && [a, b][1..] == [b];
    assert LE([d]) == d && LE([b]) == b;
    assert LE([c, d]) == c + 0x100 * d;
    assert LE([b, c, d]) == b + 0x100 * LE([c, d]);
  }

  function Digits(n: nat, k: nat): (bytes: seq<byte>)
    ensures |bytes| == k
    decreases k
  {
    if k == 0 then [] else [n % 256] + Digits(n / 256, k - 1)
  }

  function Pow256(k: nat): (p: nat)
    ensures p > 0
    decreases k
  {
    if k == 0 then 1 else 256 * Pow256(k - 1)
  }

  lemma {:induction false} DigitsOfLE(bytes: seq<byte>)
    ensures Digits(LE(bytes), |bytes|) == bytes && LE(bytes) < Pow256(|bytes|)
    decreases |bytes|
  {
    if bytes != [] {
      DigitsOfLE(bytes[1..]);
    }
  }

  lemma {:induction false} LEOfDigits(n: nat, k: nat)
    requires n < Pow256(k)
    ensures LE(Digits(n, k)) == n
    decreases k
  {
    if k > 0 {
      LEOfDigits(n / 256, k - 1);
      assert Digits(n, k)[1..] == Digits(n / 256, k - 1);
    }
  }

  // ---------------------------------------------------------------- bits

  /** The lowest `n` bits of `v`, lowest first. */
  function LowBits(v: nat, n: nat): (bits: seq<bool>)
    ensures |bits| == n
    decreases n
  {
    if n == 0 then [] else [v % 2 == 1] + LowBits(v / 2, n - 1)
  }

  // ---------------------------------------------------------------- rows in a flat buffer

  /** How much `n` rows of a width take up. */
  function Span(n: nat, width: nat): nat {
    if n == 0 then 0 else Span(n - 1, width) + width
  }

  lemma {:induction false} SpanIsProduct(n: nat, width: nat)
    ensures Span(n, width) == n * width
    decreases n
  {
    if n > 0 {
      SpanIsProduct(n - 1, width);
    }
  }

  lemma {:induction false} RowsStack(width: nat, y: nat, z: nat)
    requires y < z
    ensures Span(y, width) + width <= Span(z, width)
    decreases z
  {
    if y + 1 < z {
      RowsStack(width, y, z - 1);
    }
  }

  // ---------------------------------------------------------------- sequences

  lemma Regroup<T>(a: seq<T>, b: seq<T>, c: seq<T>)
    ensures (a + b) + c == a + (b + c)
  {
  }
}
