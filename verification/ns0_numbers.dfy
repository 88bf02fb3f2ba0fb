/**
 The words of the ns0 cipher (tools/inspect_tjs_ns0.py) as 32-bit machine words: lists of bits and
 machine words correspond one to one, and all operations of the cipher are the machine's.
 */
module Ns0Numbers {
  import opened Ns0Words

  // ---------------------------------------------------------------- lists of bits as machine words

  function Double(v: bv32): bv32 { v << 1 }

  function Odd(v: bv32): bv32 { (v << 1) | 1 }

  // The same two by multiplication.
  function Twice(v: bv32): bv32 { 2 * v }

  function TwiceUp(v: bv32): bv32 { 2 * v + 1 }

  /** One more bit below. */
  function Push(b: bool, v: bv32): bv32 { if b then Odd(v) else Double(v) }

  function Number(x: Bits): bv32 {
    if x == [] then 0 else Push(x[0], Number(x[1..]))
  }

  function Power(n: nat): bv32 {
    if n == 0 then 1 else Double(Power(n - 1))
  }

  /** All ones below bit `n`. */
  function Mask(n: nat): bv32 {
    if n == 0 then 0 else Odd(Mask(n - 1))
  }

  function XorOf(x: bv32, y: bv32): bv32 { x ^ y }

  function AndOf(x: bv32, y: bv32): bv32 { x & y }

  function Sum(x: bv32, y: bv32): bv32 { x + y }

  /** The sum with a carry from below. */
  function SumUp(x: bv32, y: bv32): bv32 { x + y + 1 }

  /** `y` put above `x`, at the place `p` stands for. */
  function JoinOf(x: bv32, p: bv32, y: bv32): bv32 { x + p * y }

  // ---------------------------------------------------------------- what one more bit does

  lemma Doubled(x: bv32)
    ensures Double(x) == 2 * x
  {
  }

  lemma DoubledUp(x: bv32)
    ensures Odd(x) == 2 * x + 1
  {
  }

  lemma PlainTwice(x: bv32)
    ensures Twice(x) == 2 * x && TwiceUp(x) == 2 * x + 1
  {
  }

  lemma Definitions(x: bv32)
    ensures Double(x) == Twice(x) == 2 * x && Odd(x) == TwiceUp(x) == 2 * x + 1
  {
    hide *;
    Doubled(x);
    DoubledUp(x);
    PlainTwice(x);
  }

  lemma EvenXors(x: bv32, y: bv32)
    ensures XorOf(Double(x), Double(y)) == Double(XorOf(x, y)) && XorOf(Odd(x), Odd(y)) == Double(XorOf(x, y))
  {
  }

  lemma OddXors(x: bv32, y: bv32)
    ensures XorOf(Odd(x), Double(y)) == Odd(XorOf(x, y)) && XorOf(Double(x), Odd(y)) == Odd(XorOf(x, y))
  {
  }

  lemma AndSteps(x: bv32, m: bv32)
    ensures AndOf(Odd(x), Odd(m)) == Odd(AndOf(x, m)) && AndOf(Double(x), Odd(m)) == Double(AndOf(x, m))
    ensures AndOf(0, 0) == 0
  {
  }

  lemma PlainSum(x: bv32, y: bv32)
    ensures Sum(x, y) == x + y && SumUp(x, y) == x + y + 1
  {
  }

  lemma SumEvenEven(x: bv32, y: bv32)
    ensures Sum(2 * x, 2 * y) == Twice(x + y)
  {
  }

  lemma SumOddOdd(x: bv32, y: bv32)
    ensures Sum(2 * x + 1, 2 * y + 1) == Twice(x + y + 1)
  {
  }

  lemma SumOddEven(x: bv32, y: bv32)
    ensures Sum(2 * x + 1, 2 * y) == TwiceUp(x + y)
  {
  }

  lemma SumEvenOdd(x: bv32, y: bv32)
    ensures Sum(2 * x, 2 * y + 1) == TwiceUp(x + y)
  {
  }

  lemma SumUpEvenEven(x: bv32, y: bv32)
    ensures SumUp(2 * x, 2 * y) == TwiceUp(x + y)
  {
  }

  lemma SumUpOddOdd(x: bv32, y: bv32)
    ensures SumUp(2 * x + 1, 2 * y + 1) == TwiceUp(x + y + 1)
  {
  }

  lemma SumUpOddEven(x: bv32, y: bv32)
    ensures SumUp(2 * x + 1, 2 * y) == Twice(x + y + 1)
  {
  }

  lemma SumUpEvenOdd(x: bv32, y: bv32)
    ensures SumUp(2 * x, 2 * y + 1) == Twice(x + y + 1)
  {
  }

  /** Sums bit by bit: the lowest bits make the lowest bit and a carry. */
  lemma SumSteps(x: bv32, y: bv32)
    ensures Sum(Double(x), Double(y)) == Double(Sum(x, y)) && Sum(Odd(x), Odd(y)) == Double(SumUp(x, y))
    ensures Sum(Odd(x), Double(y)) == Sum(Double(x), Odd(y)) == Odd(Sum(x, y))
    ensures SumUp(Double(x), Double(y)) == Odd(Sum(x, y)) && SumUp(Odd(x), Odd(y)) == Odd(SumUp(x, y))
    ensures SumUp(Odd(x), Double(y)) == SumUp(Double(x), Odd(y)) == Double(SumUp(x, y))
  {
    hide *;
    PlainSum(x, y);
    SumEvenEven(x, y);
    SumOddOdd(x, y);
    SumOddEven(x, y);
    SumEvenOdd(x, y);
    SumUpEvenEven(x, y);
    SumUpOddOdd(x, y);
    SumUpOddEven(x, y);
    SumUpEvenOdd(x, y);
    Definitions(x);
    Definitions(y);
    Definitions(Sum(x, y));
    Definitions(SumUp(x, y));
  }

  lemma PlainJoin(x: bv32, p: bv32, y: bv32)
    ensures JoinOf(x, p, y) == x + p * y && JoinOf(0, 1, y) == y
  {
  }

  lemma JoinEven(x: bv32, p: bv32, y: bv32)
    ensures JoinOf(2 * x, 2 * p, y) == Twice(x + p * y)
  {
  }

  lemma JoinOdd(x: bv32, p: bv32, y: bv32)
    ensures JoinOf(2 * x + 1, 2 * p, y) == TwiceUp(x + p * y)
  {
  }

  lemma JoinSteps(x: bv32, p: bv32, y: bv32)
    ensures JoinOf(Double(x), Double(p), y) == Double(JoinOf(x, p, y))
    ensures JoinOf(Odd(x), Double(p), y) == Odd(JoinOf(x, p, y))
    ensures JoinOf(0, 1, y) == y
  {
    hide *;
    PlainJoin(x, p, y);
    JoinEven(x, p, y);
    JoinOdd(x, p, y);
    Definitions(x);
    Definitions(p);
    Definitions(JoinOf(x, p, y));
  }

  // ---------------------------------------------------------------- the operations

  lemma NumberStep(x: Bits)
    ensures Number(x) == if x == [] then 0 else Push(x[0], Number(x[1..]))
  {
    hide Push;
  }

  lemma {:induction false} NumberOfXor(x: Bits, y: Bits)
    requires |x| == |y|
    ensures Number(Xor(x, y)) == XorOf(Number(x), Number(y))
    decreases |x|
  {
    hide Number, Double, Odd, XorOf;
    NumberStep(x);
    NumberStep(y);
    NumberStep(Xor(x, y));
    if x == [] {
      NothingIsNeutral(0);
    } else {
      NumberOfXor(x[1..], y[1..]);
      assert Xor(x, y)[1..] == Xor(x[1..], y[1..]);
      EvenXors(Number(x[1..]), Number(y[1..]));
      OddXors(Number(x[1..]), Number(y[1..]));
    }
  }

  /** The carry out of the highest place. */
  function Over(x: Bits, y: Bits, carry: bool): bool
    requires |x| == |y|
  {
    if x == [] then carry else Over(x[1..], y[1..], Carry(x[0], y[0], carry))
  }

  function SumOf(x: bv32, y: bv32, carry: bool): bv32 { if carry then SumUp(x, y) else Sum(x, y) }

  /** What the highest place passes on. */
  function Passed(over: bool, p: bv32): bv32 { if over then p else 0 }

  lemma NothingIsNeutral(x: bv32)
    ensures XorOf(0, 0) == Double(0) == 0 && Sum(x, 0) == x && Sum(0, 1) == SumUp(0, 0)
  {
  }

  lemma SumStep(a: bool, b: bool, c: bool, x: bv32, y: bv32, z: bv32, over: bool, p: bv32)
    requires Sum(z, Passed(over, p)) == SumOf(x, y, Carry(a, b, c))
    ensures Sum(Push((a != b) != c, z), Passed(over, Double(p))) == SumOf(Push(a, x), Push(b, y), c)
  {
    hide Double, Odd, Sum, SumUp, XorOf;
    NothingIsNeutral(z);
    SumSteps(x, y);
    SumSteps(z, Passed(over, p));
  }

  lemma CarryAlone(c: bool)
    ensures Sum(0, Passed(c, 1)) == SumOf(0, 0, c)
  {
    hide Sum, SumUp, XorOf, Double;
    NothingIsNeutral(0);
  }

  lemma {:induction false} NumberOfSum(x: Bits, y: Bits, c: bool)
    requires |x| == |y|
    ensures Sum(Number(AddCarry(x, y, c)), Passed(Over(x, y, c), Power(|x|))) == SumOf(Number(x), Number(y), c)
    decreases |x|
  {
    hide Number, Push, SumOf, Sum, Carry, Double, Passed;
    NumberStep(x);
    NumberStep(y);
    NumberStep(AddCarry(x, y, c));
    if x == [] {
      CarryAlone(c);
    } else {
      var d := Carry(x[0], y[0], c);
      NumberOfSum(x[1..], y[1..], d);
      assert AddCarry(x, y, c)[1..] == AddCarry(x[1..], y[1..], d);
      SumStep(x[0], y[0], c, Number(x[1..]), Number(y[1..]), Number(AddCarry(x[1..], y[1..], d)), Over(x, y, c), Power(|x| - 1));
    }
  }

  lemma {:induction false} NumberOfJoined(x: Bits, y: Bits)
    ensures Number(x + y) == JoinOf(Number(x), Power(|x|), Number(y))
    decreases |x|
  {
    hide Number, Double, Odd, JoinOf;
    NumberStep(x);
    NumberStep(x + y);
    if x == [] {
      assert x + y == y;
      JoinSteps(0, 1, Number(y));
    } else {
      NumberOfJoined(x[1..], y);
      assert (x + y)[1..] == x[1..] + y;
      JoinSteps(Number(x[1..]), Power(|x| - 1), Number(y));
    }
  }

  lemma {:induction false} NumberIsMasked(x: Bits)
    ensures AndOf(Number(x), Mask(|x|)) == Number(x)
    decreases |x|
  {
    hide Number, Double, Odd, AndOf;
    NumberStep(x);
    if x == [] {
      AndSteps(0, 0);
    } else {
      NumberIsMasked(x[1..]);
      AndSteps(Number(x[1..]), Mask(|x| - 1));
    }
  }

  lemma Powers()
    ensures Power(7) == 0x80 && Power(8) == 0x100 && Power(12) == 0x1000 && Power(16) == 0x1_0000
    ensures Power(20) == 0x10_0000 && Power(24) == 0x100_0000 && Power(25) == 0x200_0000 && Power(32) == 0
  {
  }

  lemma Masks()
    ensures Mask(7) == 0x7f && Mask(8) == 0xff && Mask(12) == 0xfff && Mask(16) == 0xffff
    ensures Mask(20) == 0xf_ffff && Mask(24) == 0xff_ffff && Mask(25) == 0x1ff_ffff
  {
  }

  /** Addition of words is the machine's. */
  lemma NumberOfPlus(x: Word, y: Word)
    ensures Number(Plus(x, y)) == Sum(Number(x), Number(y))
  {
    hide *;
    NumberOfSum(x, y, false);
    Powers();
    PassedNothing(Over(x, y, false));
    NothingIsNeutral(Number(Plus(x, y)));
    SumOfNoCarry(Number(x), Number(y));
    PlusIs(x, y);
  }

  lemma PlusIs(x: Word, y: Word)
    ensures Plus(x, y) == AddCarry(x, y, false)
  {
    hide AddCarry;
  }

  lemma PassedNothing(over: bool)
    ensures Passed(over, 0) == 0
  {
  }

  lemma SumOfNoCarry(x: bv32, y: bv32)
    ensures SumOf(x, y, false) == Sum(x, y)
  {
    hide Sum;
  }

  lemma PlainAnd(x: bv32, m: bv32)
    ensures AndOf(x, m) == x & m
  {
  }

  function Turn(v: bv32, n: bv6): bv32
    requires n <= 32
  {
    (v << n) | (v >> (32 - n))
  }

  /** A word cut in two, and the same put together the other way round. */
  lemma RolCut(w: Word, n: nat)
    requires n <= 32
    ensures var low, high := w[..32 - n], w[32 - n..];
            Number(w) == JoinOf(Number(low), Power(32 - n), Number(high)) &&
            Number(Rol(w, n)) == JoinOf(Number(high), Power(n), Number(low)) &&
            AndOf(Number(low), Mask(32 - n)) == Number(low) && AndOf(Number(high), Mask(n)) == Number(high)
  {
    hide Number, JoinOf, Power, AndOf, Mask;
    var low, high := w[..32 - n], w[32 - n..];
    assert low + high == w && high + low == Rol(w, n);
    NumberOfJoined(low, high);
    NumberOfJoined(high, low);
    NumberIsMasked(low);
    NumberIsMasked(high);
  }

  lemma PlainParts16(low: bv32, high: bv32)
    ensures JoinOf(low, 0x10000, high) == low + 0x10000 * high && JoinOf(high, 0x10000, low) == high + 0x10000 * low
  {
  }

  lemma PlainTurn16(low: bv32, high: bv32)
    requires low & 0xffff == low && high & 0xffff == high
    ensures high + 0x10000 * low == Turn(low + 0x10000 * high, 16)
  {
  }

  lemma Turned16(low: bv32, high: bv32)
    requires AndOf(low, 0xffff) == low && AndOf(high, 0xffff) == high
    ensures JoinOf(high, 0x10000, low) == Turn(JoinOf(low, 0x10000, high), 16)
  {
    hide *;
    PlainAnd(low, 0xffff);
    PlainAnd(high, 0xffff);
    PlainParts16(low, high);
    PlainTurn16(low, high);
  }

  lemma PlainParts12(low: bv32, high: bv32)
    ensures JoinOf(low, 0x100000, high) == low + 0x100000 * high && JoinOf(high, 0x1000, low) == high + 0x1000 * low
  {
  }

  lemma PlainTurn12(low: bv32, high: bv32)
    requires low & 0xfffff == low && high & 0xfff == high
    ensures high + 0x1000 * low == Turn(low + 0x100000 * high, 12)
  {
  }

  lemma Turned12(low: bv32, high: bv32)
    requires AndOf(low, 0xfffff) == low && AndOf(high, 0xfff) == high
    ensures JoinOf(high, 0x1000, low) == Turn(JoinOf(low, 0x100000, high), 12)
  {
    hide *;
    PlainAnd(low, 0xfffff);
    PlainAnd(high, 0xfff);
    PlainParts12(low, high);
    PlainTurn12(low, high);
  }

  lemma PlainParts8(low: bv32, high: bv32)
    ensures JoinOf(low, 0x1000000, high) == low + 0x1000000 * high && JoinOf(high, 0x100, low) == high + 0x100 * low
  {
  }

  lemma PlainTurn8(low: bv32, high: bv32)
    requires low & 0xffffff == low && high & 0xff == high
    ensures high + 0x100 * low == Turn(low + 0x1000000 * high, 8)
  {
  }

  lemma Turned8(low: bv32, high: bv32)
    requires AndOf(low, 0xffffff) == low && AndOf(high, 0xff) == high
    ensures JoinOf(high, 0x100, low) == Turn(JoinOf(low, 0x1000000, high), 8)
  {
    hide *;
    PlainAnd(low, 0xffffff);
    PlainAnd(high, 0xff);
    PlainParts8(low, high);
    PlainTurn8(low, high);
  }

  lemma PlainParts7(low: bv32, high: bv32)
    ensures JoinOf(low, 0x2000000, high) == low + 0x2000000 * high && JoinOf(high, 0x80, low) == high + 0x80 * low
  {
  }

  lemma PlainTurn7(low: bv32, high: bv32)
    requires low & 0x1ffffff == low && high & 0x7f == high
    ensures high + 0x80 * low == Turn(low + 0x2000000 * high, 7)
  {
  }

  lemma Turned7(low: bv32, high: bv32)
    requires AndOf(low, 0x1ffffff) == low && AndOf(high, 0x7f) == high
    ensures JoinOf(high, 0x80, low) == Turn(JoinOf(low, 0x2000000, high), 7)
  {
    hide *;
    PlainAnd(low, 0x1ffffff);
    PlainAnd(high, 0x7f);
    PlainParts7(low, high);
    PlainTurn7(low, high);
  }

  /** Rotation of words is the machine's, for the amounts of the cipher. */
  lemma NumberOfRol(w: Word)
    ensures Number(Rol(w, 16)) == Turn(Number(w), 16) && Number(Rol(w, 12)) == Turn(Number(w), 12)
    ensures Number(Rol(w, 8)) == Turn(Number(w), 8) && Number(Rol(w, 7)) == Turn(Number(w), 7)
  {
    hide *;
    Powers();
    Masks();
    RolCut(w, 16);
    RolCut(w, 12);
    RolCut(w, 8);
    RolCut(w, 7);
    Turned16(Number(w[..16]), Number(w[16..]));
    Turned12(Number(w[..20]), Number(w[20..]));
    Turned8(Number(w[..24]), Number(w[24..]));
    Turned7(Number(w[..25]), Number(w[25..]));
  }

  lemma {:induction false} NumberOfZeros(n: nat)
    ensures Number(Zeros(n)) == 0
    decreases n
  {
    hide Number, Push, Double, Odd;
    NumberStep(Zeros(n));
    if n > 0 {
      assert Zeros(n)[1..] == Zeros(n - 1);
      NumberOfZeros(n - 1);
      PushNothing();
    }
  }

  lemma PushNothing()
    ensures Push(false, 0) == 0
  {
  }

  /** A word and what a shift makes of it, in two parts. */
  lemma ShiftCut(w: Word, n: nat)
    requires n <= 32
    ensures var low, high := Number(w[..32 - n]), Number(w[32 - n..]);
            Number(w) == JoinOf(low, Power(32 - n), high) && AndOf(low, Mask(32 - n)) == low && AndOf(high, Mask(n)) == high &&
            Number(Shl(w, n)) == JoinOf(0, Power(n), low) && Number(Shr(w, 32 - n)) == JoinOf(high, Power(n), 0)
  {
    hide Number, JoinOf, Power, AndOf, Mask;
    RolCut(w, n);
    NumberOfZeros(n);
    NumberOfZeros(32 - n);
    NumberOfJoined(Zeros(n), w[..32 - n]);
    NumberOfJoined(w[32 - n..], Zeros(32 - n));
    assert Shl(w, n) == Zeros(n) + w[..32 - n];
    assert Shr(w, 32 - n) == w[32 - n..] + Zeros(32 - n);
  }

  lemma MorePowers()
    ensures Power(5) == 0x20 && Power(13) == 0x2000 && Power(15) == 0x8000 && Power(17) == 0x2_0000
    ensures Power(19) == 0x8_0000 && Power(27) == 0x800_0000
  {
  }

  lemma MoreMasks()
    ensures Mask(15) == 0x7fff && Mask(17) == 0x1_ffff && Mask(19) == 0x7_ffff && Mask(27) == 0x7ff_ffff
  {
  }

  function ShiftLeft(v: bv32, n: bv6): bv32
    requires n <= 32
  {
    v << n
  }

  function ShiftRight(v: bv32, n: bv6): bv32
    requires n <= 32
  {
    v >> n
  }

  lemma PlainLeftParts13(low: bv32, high: bv32)
    ensures JoinOf(low, 0x80000, high) == low + 0x80000 * high && JoinOf(0, 0x2000, low) == 0x2000 * low
  {
  }

  lemma PlainShift13(low: bv32, high: bv32)
    requires low & 0x7ffff == low
    ensures 0x2000 * low == ShiftLeft(low + 0x80000 * high, 13)
  {
  }

  lemma ShiftedLeft13(low: bv32, high: bv32)
    requires AndOf(low, 0x7ffff) == low
    ensures JoinOf(0, 0x2000, low) == ShiftLeft(JoinOf(low, 0x80000, high), 13)
  {
    hide *;
    PlainAnd(low, 0x7ffff);
    PlainLeftParts13(low, high);
    PlainShift13(low, high);
  }

  lemma PlainLeftParts5(low: bv32, high: bv32)
    ensures JoinOf(low, 0x8000000, high) == low + 0x8000000 * high && JoinOf(0, 0x20, low) == 0x20 * low
  {
  }

  lemma PlainShift5(low: bv32, high: bv32)
    requires low & 0x7ffffff == low
    ensures 0x20 * low == ShiftLeft(low + 0x8000000 * high, 5)
  {
  }

  lemma ShiftedLeft5(low: bv32, high: bv32)
    requires AndOf(low, 0x7ffffff) == low
    ensures JoinOf(0, 0x20, low) == ShiftLeft(JoinOf(low, 0x8000000, high), 5)
  {
    hide *;
    PlainAnd(low, 0x7ffffff);
    PlainLeftParts5(low, high);
    PlainShift5(low, high);
  }

  lemma PlainRightParts(low: bv32, high: bv32)
    ensures JoinOf(low, 0x2_0000, high) == low + 0x2_0000 * high && JoinOf(high, 0x8000, 0) == high
  {
  }

  lemma PlainShiftRight(low: bv32, high: bv32)
    requires low & 0x1_ffff == low && high & 0x7fff == high
    ensures high == ShiftRight(low + 0x2_0000 * high, 17)
  {
  }

  lemma ShiftedRight(low: bv32, high: bv32)
    requires AndOf(low, 0x1_ffff) == low && AndOf(high, 0x7fff) == high
    ensures JoinOf(high, 0x8000, 0) == ShiftRight(JoinOf(low, 0x2_0000, high), 17)
  {
    hide *;
    PlainAnd(low, 0x1_ffff);
    PlainAnd(high, 0x7fff);
    PlainRightParts(low, high);
    PlainShiftRight(low, high);
  }

  lemma NumberOfShifts(w: Word)
    ensures Number(Shl(w, 13)) == ShiftLeft(Number(w), 13) && Number(Shl(w, 5)) == ShiftLeft(Number(w), 5)
    ensures Number(Shr(w, 17)) == ShiftRight(Number(w), 17)
  {
    hide *;
    MorePowers();
    MoreMasks();
    ShiftCut(w, 13);
    ShiftCut(w, 5);
    ShiftCut(w, 15);
    ShiftedLeft13(Number(w[..19]), Number(w[19..]));
    ShiftedLeft5(Number(w[..27]), Number(w[27..]));
    ShiftedRight(Number(w[..17]), Number(w[17..]));
  }

  // ---------------------------------------------------------------- numbers determine words

  lemma {:induction false} MaskBelow(k: nat, m: nat)
    requires k <= m
    ensures AndOf(Mask(k), Mask(m)) == Mask(k)
    decreases k
  {
    hide Odd, Double, AndOf;
    if k == 0 {
      AndWithNothing(Mask(m));
    } else {
      MaskBelow(k - 1, m - 1);
      AndSteps(Mask(k - 1), Mask(m - 1));
    }
  }

  lemma AndWithNothing(x: bv32)
    ensures AndOf(0, x) == 0
  {
  }

  lemma PushIsInjective(a: bool, x: bv32, b: bool, y: bv32, m: bv32)
    requires AndOf(x, m) == x && AndOf(y, m) == y && AndOf(m, 0x7fff_ffff) == m
    requires Push(a, x) == Push(b, y)
    ensures a == b && x == y
  {
  }

  lemma HalfMask()
    ensures Mask(8) == 0xff && Mask(16) == 0xffff && Mask(24) == 0xff_ffff && Mask(31) == 0x7fff_ffff
  {
  }

  lemma {:induction false} NumberIsInjective(x: Bits, y: Bits)
    requires |x| == |y| <= 32 && Number(x) == Number(y)
    ensures x == y
    decreases |x|
  {
    hide Number, Push, Mask, AndOf;
    if x != [] {
      NumberStep(x);
      NumberStep(y);
      NumberIsMasked(x[1..]);
      NumberIsMasked(y[1..]);
      MaskBelow(|x| - 1, 31);
      HalfMask();
      PushIsInjective(x[0], Number(x[1..]), y[0], Number(y[1..]), Mask(|x| - 1));
      NumberIsInjective(x[1..], y[1..]);
      assert x == [x[0]] + x[1..] && y == [y[0]] + y[1..];
    }
  }
}
