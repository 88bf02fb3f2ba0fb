/**
 The word arithmetic of the ns0 cipher (tools/inspect_tjs_ns0.py): the ChaCha quarter round
 (RFC 8439, section 2.1) and the xorshift step, both undone exactly. A word is its list of bits,
 lowest first, so that packing words into bytes is cutting the list.
 */
module Ns0Words {

  type Bits = seq<bool>
  type Word = w: Bits | |w| == 32 witness seq(32, _ => false)
  type Byte = b: Bits | |b| == 8 witness seq(8, _ => false)

  function Zeros(n: nat): (r: Bits)
    ensures |r| == n && forall i | 0 <= i < n :: !r[i]
  {
    seq(n, _ => false)
  }

  function Ones(n: nat): (r: Bits)
    ensures |r| == n && forall i | 0 <= i < n :: r[i]
  {
    seq(n, _ => true)
  }

  function Xor(x: Bits, y: Bits): (r: Bits)
    requires |x| == |y|
    ensures |r| == |x| && forall i | 0 <= i < |x| :: r[i] == (x[i] != y[i])
  {
    seq(|x|, i requires 0 <= i < |x| => x[i] != y[i])
  }

  function Shl(x: Bits, n: nat): (r: Bits)
    ensures |r| == |x| && forall i | 0 <= i < |x| :: r[i] == (i >= n && x[i - n])
  {
    if n <= |x| then Zeros(n) + x[..|x| - n] else Zeros(|x|)
  }

  function Shr(x: Bits, n: nat): (r: Bits)
    ensures |r| == |x| && forall i | 0 <= i < |x| :: r[i] == (i + n < |x| && x[i + n])
  {
    if n <= |x| then x[n..] + Zeros(n) else Zeros(|x|)
  }

  function Rol(value: Bits, amount: nat): (r: Bits)
    requires amount <= |value|
    ensures |r| == |value|
  {
    value[|value| - amount..] + value[..|value| - amount]
  }

  /** Rotating joins two shifts that have no bit in common. */
  lemma RolIsShifts(value: Bits, amount: nat, i: nat)
    requires amount <= |value| && i < |value|
    ensures Rol(value, amount)[i] == (Shl(value, amount)[i] || Shr(value, |value| - amount)[i])
    ensures !(Shl(value, amount)[i] && Shr(value, |value| - amount)[i])
  {
  }

  function Carry(x: bool, y: bool, c: bool): bool { (x && y) || (c && (x || y)) }

  function Borrow(x: bool, y: bool, b: bool): bool { (!x && (y || b)) || (y && b) }

  function AddCarry(x: Bits, y: Bits, carry: bool): (r: Bits)
    requires |x| == |y|
    ensures |r| == |x|
  {
    if x == [] then []
    else [(x[0] != y[0]) != carry] + AddCarry(x[1..], y[1..], Carry(x[0], y[0], carry))
  }

  function SubBorrow(x: Bits, y: Bits, borrow: bool): (r: Bits)
    requires |x| == |y|
    ensures |r| == |x|
  {
    if x == [] then []
    else [(x[0] != y[0]) != borrow] + SubBorrow(x[1..], y[1..], Borrow(x[0], y[0], borrow))
  }

  function Plus(x: Bits, y: Bits): (r: Bits)
    requires |x| == |y|
    ensures |r| == |x|
  {
    AddCarry(x, y, false)
  }

  function Minus(x: Bits, y: Bits): (r: Bits)
    requires |x| == |y|
    ensures |r| == |x|
  {
    SubBorrow(x, y, false)
  }

  // ---------------------------------------------------------------- what undoes what

  lemma XorCancels(x: Bits, y: Bits)
    requires |x| == |y|
    ensures Xor(Xor(x, y), y) == x
  {
  }

  lemma RotateBack(x: Bits, n: nat)
    requires n <= |x|
    ensures Rol(Rol(x, n), |x| - n) == x
  {
  }

  lemma BitUndone(x: bool, y: bool, c: bool)
    ensures ((((x != y) != c) != y) != c) == x
    ensures Borrow((x != y) != c, y, c) == Carry(x, y, c)
    ensures Carry((x != y) != c, y, c) == Borrow(x, y, c)
  {
  }

  lemma ConsTail(h: bool, t: Bits)
    ensures ([h] + t)[0] == h && ([h] + t)[1..] == t
  {
  }

  lemma {:induction false} BorrowUndoesCarry(x: Bits, y: Bits, c: bool)
    requires |x| == |y|
    ensures SubBorrow(AddCarry(x, y, c), y, c) == x
  {
    hide Carry, Borrow;
    if x != [] {
      BorrowUndoesCarry(x[1..], y[1..], Carry(x[0], y[0], c));
      BitUndone(x[0], y[0], c);
      ConsTail((x[0] != y[0]) != c, AddCarry(x[1..], y[1..], Carry(x[0], y[0], c)));
    }
  }

  lemma {:induction false} CarryUndoesBorrow(x: Bits, y: Bits, c: bool)
    requires |x| == |y|
    ensures AddCarry(SubBorrow(x, y, c), y, c) == x
  {
    hide Carry, Borrow;
    if x != [] {
      CarryUndoesBorrow(x[1..], y[1..], Borrow(x[0], y[0], c));
      BitUndone(x[0], y[0], c);
      ConsTail((x[0] != y[0]) != c, SubBorrow(x[1..], y[1..], Borrow(x[0], y[0], c)));
    }
  }

  // ---------------------------------------------------------------- the numbers words stand for

  function Pow2(n: nat): nat {
    if n == 0 then 1 else 2 * Pow2(n - 1)
  }

  function Value(x: Bits): nat {
    if x == [] then 0 else (if x[0] then 1 else 0) + 2 * Value(x[1..])
  }

  lemma {:induction false} ValueIsBounded(x: Bits)
    ensures Value(x) < Pow2(|x|)
  {
    if x != [] {
      ValueIsBounded(x[1..]);
    }
  }

  lemma {:induction false} ValueIsInjective(x: Bits, y: Bits)
    requires |x| == |y| && Value(x) == Value(y)
    ensures x == y
  {
    if x != [] {
      ValueIsInjective(x[1..], y[1..]);
      assert x == [x[0]] + x[1..] && y == [y[0]] + y[1..];
    }
  }

  lemma {:induction false} ValueOfSum(x: Bits, y: Bits, c: bool)
    requires |x| == |y|
    ensures
      var sum := Value(x) + Value(y) + (if c then 1 else 0);
      Value(AddCarry(x, y, c)) == sum || Value(AddCarry(x, y, c)) + Pow2(|x|) == sum
  {
    if x != [] {
      ValueOfSum(x[1..], y[1..], Carry(x[0], y[0], c));
      assert AddCarry(x, y, c)[1..] == AddCarry(x[1..], y[1..], Carry(x[0], y[0], c));
    }
  }

  /** `Plus` is addition modulo a power of two. */
  lemma PlusIsModular(x: Bits, y: Bits)
    requires |x| == |y|
    ensures Value(Plus(x, y)) == if Value(x) + Value(y) < Pow2(|x|) then Value(x) + Value(y) else Value(x) + Value(y) - Pow2(|x|)
  {
    ValueOfSum(x, y, false);
    ValueIsBounded(x);
    ValueIsBounded(y);
    ValueIsBounded(Plus(x, y));
  }

  // ---------------------------------------------------------------- quarter round

  datatype Quad = Quad(a: Word, b: Word, c: Word, d: Word)

  /** Half of a quarter round, with its two rotations. */
  function Mix(q: Quad, r: nat, s: nat): Quad
    requires r <= 32 && s <= 32
  {
    var a := Plus(q.a, q.b);
    var d := Rol(Xor(q.d, a), r);
    var c := Plus(q.c, d);
    Quad(a, Rol(Xor(q.b, c), s), c, d)
  }

  function UnMix(q: Quad, r: nat, s: nat): Quad
    requires r <= 32 && s <= 32
  {
    var b := Xor(Rol(q.b, 32 - s), q.c);
    Quad(Minus(q.a, b), b, Minus(q.c, q.d), Xor(Rol(q.d, 32 - r), q.a))
  }

  function QuarterRound(q: Quad): Quad { Mix(Mix(q, 16, 12), 8, 7) }

  function UnQuarterRound(q: Quad): Quad { UnMix(UnMix(q, 8, 7), 16, 12) }

  lemma MixUndone(q: Quad, r: nat, s: nat)
    requires r <= 32 && s <= 32
    ensures UnMix(Mix(q, r, s), r, s) == q
  {
    hide Rol, Xor, AddCarry, SubBorrow;
    var m := Mix(q, r, s);
    RotateBack(Xor(q.d, m.a), r);
    RotateBack(Xor(q.b, m.c), s);
    XorCancels(q.d, m.a);
    XorCancels(q.b, m.c);
    BorrowUndoesCarry(q.a, q.b, false);
    BorrowUndoesCarry(q.c, m.d, false);
  }

  lemma UnMixUndone(q: Quad, r: nat, s: nat)
    requires r <= 32 && s <= 32
    ensures Mix(UnMix(q, r, s), r, s) == q
  {
    hide Rol, Xor, AddCarry, SubBorrow;
    var m := UnMix(q, r, s);
    RotateBack(q.d, 32 - r);
    RotateBack(q.b, 32 - s);
    XorCancels(Rol(q.d, 32 - r), q.a);
    XorCancels(Rol(q.b, 32 - s), q.c);
    CarryUndoesBorrow(q.a, m.b, false);
    CarryUndoesBorrow(q.c, q.d, false);
  }

  /** The quarter round is a bijection. */
  lemma QuarterRoundInvertible(q: Quad)
    ensures UnQuarterRound(QuarterRound(q)) == q && QuarterRound(UnQuarterRound(q)) == q
  {
    hide Mix, UnMix;
    MixUndone(q, 16, 12);
    MixUndone(Mix(q, 16, 12), 8, 7);
    UnMixUndone(q, 8, 7);
    UnMixUndone(UnMix(q, 8, 7), 16, 12);
  }

  // ---------------------------------------------------------------- xorshift

  function Left(x: Bits, n: nat): (r: Bits)
    ensures |r| == |x|
  {
    Xor(x, Shl(x, n))
  }

  function Right(x: Bits, n: nat): (r: Bits)
    ensures |r| == |x|
  {
    Xor(x, Shr(x, n))
  }

  function Xorshift(x: Bits): (r: Bits)
    ensures |r| == |x|
  {
    Left(Right(Left(x, 13), 17), 5)
  }

  function UnXorshift(x: Bits): (r: Bits)
    ensures |r| == |x|
  {
    Left(Left(Right(Left(Left(Left(x, 5), 10), 20), 17), 13), 26)
  }

  lemma LeftBit(x: Bits, n: nat, i: nat)
    requires i < |x|
    ensures Left(x, n)[i] == (x[i] != (i >= n && x[i - n]))
  {
  }

  lemma RightBit(x: Bits, n: nat, i: nat)
    requires i < |x|
    ensures Right(x, n)[i] == (x[i] != (i + n < |x| && x[i + n]))
  {
  }

  /** Applying a shift step twice doubles its shift. */
  lemma LeftTwice(x: Bits, n: nat)
    ensures Left(Left(x, n), n) == Left(x, 2 * n)
  {
    hide Left;
    forall i | 0 <= i < |x| ensures Left(Left(x, n), n)[i] == Left(x, 2 * n)[i] {
      LeftBit(Left(x, n), n, i);
      LeftBit(x, n, i);
      LeftBit(x, 2 * n, i);
      if i >= n {
        LeftBit(x, n, i - n);
      }
    }
  }

  lemma RightTwice(x: Bits, n: nat)
    ensures Right(Right(x, n), n) == Right(x, 2 * n)
  {
    hide Right;
    forall i | 0 <= i < |x| ensures Right(Right(x, n), n)[i] == Right(x, 2 * n)[i] {
      RightBit(Right(x, n), n, i);
      RightBit(x, n, i);
      RightBit(x, 2 * n, i);
      if i + n < |x| {
        RightBit(x, n, i + n);
      }
    }
  }

  lemma ShiftedOut(x: Bits, n: nat)
    requires n >= |x|
    ensures Left(x, n) == x && Right(x, n) == x
  {
  }

  lemma LeftCommutes(x: Bits, m: nat, n: nat)
    ensures Left(Left(x, m), n) == Left(Left(x, n), m)
  {
    hide Left;
    forall i | 0 <= i < |x| ensures Left(Left(x, m), n)[i] == Left(Left(x, n), m)[i] {
      LeftBit(Left(x, m), n, i);
      LeftBit(Left(x, n), m, i);
      LeftBit(x, m, i);
      LeftBit(x, n, i);
      if i >= n {
        LeftBit(x, m, i - n);
      }
      if i >= m {
        LeftBit(x, n, i - m);
      }
    }
  }

  lemma XorshiftUndone(x: Word)
    ensures UnXorshift(Xorshift(x)) == x
  {
    hide Left, Right;
    var y := Right(Left(x, 13), 17);
    LeftTwice(y, 5);
    LeftTwice(y, 10);
    LeftTwice(y, 20);
    ShiftedOut(y, 40);
    RightTwice(Left(x, 13), 17);
    ShiftedOut(Left(x, 13), 34);
    LeftTwice(x, 13);
    LeftTwice(x, 26);
    ShiftedOut(x, 52);
  }

  lemma UnXorshiftUndone(y: Word)
    ensures Xorshift(UnXorshift(y)) == y
  {
    hide Left, Right;
    var v := Left(Left(Left(y, 5), 10), 20);
    var u := Right(v, 17);
    // Left 13 after Left 26 after Left 13
    LeftCommutes(Left(u, 13), 26, 13);
    LeftTwice(u, 13);
    LeftTwice(u, 26);
    ShiftedOut(u, 52);
    RightTwice(v, 17);
    ShiftedOut(v, 34);
    // Left 5 after the three others
    LeftCommutes(Left(Left(y, 5), 10), 20, 5);
    LeftCommutes(Left(y, 5), 10, 5);
    LeftTwice(y, 5);
    LeftTwice(y, 10);
    LeftTwice(y, 20);
    ShiftedOut(y, 40);
  }

  lemma XorshiftOfZero()
    ensures Xorshift(Zeros(32)) == Zeros(32)
  {
  }

  /** The xorshift step is a bijection that fixes zero: only zero is ever mapped to zero. */
  lemma XorshiftInvertible(x: Word)
    ensures UnXorshift(Xorshift(x)) == x && Xorshift(UnXorshift(x)) == x
    ensures Xorshift(x) == Zeros(32) <==> x == Zeros(32)
  {
    hide Xorshift, UnXorshift;
    XorshiftUndone(x);
    UnXorshiftUndone(x);
    XorshiftOfZero();
    XorshiftUndone(Zeros(32));
  }
}
