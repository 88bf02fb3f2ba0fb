/**
 The ns0 cipher (tools/inspect_tjs_ns0.py) once more, on 32-bit machine words and round by round
 as RFC 8439 describes ChaCha, and the proof that the other modules compute the same. The
 published test vectors of its parts are worked out.
 */
module Ns0Reference {
  import opened Ns0Words
  import opened Ns0Cipher
  import opened Ns0Numbers

  // ---------------------------------------------------------------- ChaCha on machine words

  datatype Four = Four(a: bv32, b: bv32, c: bv32, d: bv32)

  function Half(q: Four, r: bv6, s: bv6): Four
    requires r <= 32 && s <= 32
  {
    var a := Sum(q.a, q.b);
    var d := Turn(XorOf(q.d, a), r);
    var c := Sum(q.c, d);
    Four(a, Turn(XorOf(q.b, c), s), c, d)
  }

  /** The quarter round (RFC 8439, section 2.1). */
  function Quarter(q: Four): Four { Half(Half(q, 16, 12), 8, 7) }

  /** The test vector of RFC 8439, section 2.1.1. */
  lemma QuarterVector()
    ensures Quarter(Four(0x11111111, 0x01020304, 0x9b8d6f43, 0x01234567))
         == Four(0xea2a92f4, 0xcb1cf8ce, 0x4581472e, 0x5881c4bb)
  {
  }

  function NumbersOf(q: Quad): Four { Four(Number(q.a), Number(q.b), Number(q.c), Number(q.d)) }

  lemma NumbersOfFirstHalf(q: Quad)
    ensures NumbersOf(Mix(q, 16, 12)) == Half(NumbersOf(q), 16, 12)
  {
    hide Number, Plus, Xor, Rol, Sum, XorOf, Turn;
    var m := Mix(q, 16, 12);
    NumberOfPlus(q.a, q.b);
    NumberOfXor(q.d, m.a);
    NumberOfRol(Xor(q.d, m.a));
    NumberOfPlus(q.c, m.d);
    NumberOfXor(q.b, m.c);
    NumberOfRol(Xor(q.b, m.c));
  }

  lemma NumbersOfSecondHalf(q: Quad)
    ensures NumbersOf(Mix(q, 8, 7)) == Half(NumbersOf(q), 8, 7)
  {
    hide Number, Plus, Xor, Rol, Sum, XorOf, Turn;
    var m := Mix(q, 8, 7);
    NumberOfPlus(q.a, q.b);
    NumberOfXor(q.d, m.a);
    NumberOfRol(Xor(q.d, m.a));
    NumberOfPlus(q.c, m.d);
    NumberOfXor(q.b, m.c);
    NumberOfRol(Xor(q.b, m.c));
  }

  lemma NumbersOfQuarter(q: Quad)
    ensures NumbersOf(QuarterRound(q)) == Quarter(NumbersOf(q))
  {
    hide Mix, Half, NumbersOf;
    NumbersOfFirstHalf(q);
    NumbersOfSecondHalf(Mix(q, 16, 12));
  }

  type Words = w: seq<bv32> | |w| == 16 witness seq(16, _ => 0)

  function At(v: Words, a: nat, b: nat, c: nat, d: nat): Four
    requires a < 16 && b < 16 && c < 16 && d < 16
  {
    Four(v[a], v[b], v[c], v[d])
  }

  /** A round on the four columns of the state, all at once. */
  function ColumnRound(v: Words): Words {
    var p, q, r, s := Quarter(At(v, 0, 4, 8, 12)), Quarter(At(v, 1, 5, 9, 13)), Quarter(At(v, 2, 6, 10, 14)), Quarter(At(v, 3, 7, 11, 15));
    [p.a, q.a, r.a, s.a, p.b, q.b, r.b, s.b, p.c, q.c, r.c, s.c, p.d, q.d, r.d, s.d]
  }

  /** A round on its four diagonals. */
  function DiagonalRound(v: Words): Words {
    var p, q, r, s := Quarter(At(v, 0, 5, 10, 15)), Quarter(At(v, 1, 6, 11, 12)), Quarter(At(v, 2, 7, 8, 13)), Quarter(At(v, 3, 4, 9, 14));
    [p.a, q.a, r.a, s.a, s.b, p.b, q.b, r.b, r.c, s.c, p.c, q.c, q.d, r.d, s.d, p.d]
  }

  function DoubleRound(v: Words): Words { DiagonalRound(ColumnRound(v)) }

  function EightRounds(v: Words): Words { DoubleRound(DoubleRound(DoubleRound(DoubleRound(v)))) }

  function Added(v: Words, w: Words): Words { seq(16, i requires 0 <= i < 16 => Sum(v[i], w[i])) }

  /** The rounds, and the source added on (RFC 8439, section 2.3, with eight rounds for twenty). */
  function ReferenceBlock(v: Words): Words { Added(EightRounds(v), v) }

  function Numbers(s: State): Words { seq(16, i requires 0 <= i < 16 => Number(s[i])) }

  predicate Off(i: nat, m: Lanes) { i != m.a && i != m.b && i != m.c && i != m.d }

  predicate Disjoint(l: Lanes, m: Lanes) { Off(l.a, m) && Off(l.b, m) && Off(l.c, m) && Off(l.d, m) }

  lemma StepGets(s: State, l: Lanes, m: Lanes)
    ensures Get(Step(s, l), l) == QuarterRound(Get(s, l))
    ensures Disjoint(l, m) || Disjoint(m, l) ==> Get(Step(s, l), m) == Get(s, m)
  {
    hide QuarterRound;
  }

  lemma FourSteps(s: State, l0: Lanes, l1: Lanes, l2: Lanes, l3: Lanes)
    requires Disjoint(l0, l1) && Disjoint(l0, l2) && Disjoint(l0, l3) && Disjoint(l1, l2) && Disjoint(l1, l3) && Disjoint(l2, l3)
    ensures var t := Step(Step(Step(Step(s, l0), l1), l2), l3);
            Get(t, l0) == QuarterRound(Get(s, l0)) && Get(t, l1) == QuarterRound(Get(s, l1)) &&
            Get(t, l2) == QuarterRound(Get(s, l2)) && Get(t, l3) == QuarterRound(Get(s, l3))
  {
    hide Step, QuarterRound, Get, Disjoint;
    var s1, s2, s3 := Step(s, l0), Step(Step(s, l0), l1), Step(Step(Step(s, l0), l1), l2);
    StepGets(s, l0, l1);
    StepGets(s, l0, l2);
    StepGets(s, l0, l3);
    StepGets(s1, l1, l0);
    StepGets(s1, l1, l2);
    StepGets(s1, l1, l3);
    StepGets(s2, l2, l0);
    StepGets(s2, l2, l1);
    StepGets(s2, l2, l3);
    StepGets(s3, l3, l0);
    StepGets(s3, l3, l1);
    StepGets(s3, l3, l2);
  }

  lemma LanesDisjoint()
    ensures Disjoint(COLUMN0, COLUMN1) && Disjoint(COLUMN0, COLUMN2) && Disjoint(COLUMN0, COLUMN3)
    ensures Disjoint(COLUMN1, COLUMN2) && Disjoint(COLUMN1, COLUMN3) && Disjoint(COLUMN2, COLUMN3)
    ensures Disjoint(DIAGONAL0, DIAGONAL1) && Disjoint(DIAGONAL0, DIAGONAL2) && Disjoint(DIAGONAL0, DIAGONAL3)
    ensures Disjoint(DIAGONAL1, DIAGONAL2) && Disjoint(DIAGONAL1, DIAGONAL3) && Disjoint(DIAGONAL2, DIAGONAL3)
  {
  }

  lemma NumbersOfLane(s: State, t: State, l: Lanes)
    requires Get(t, l) == QuarterRound(Get(s, l))
    ensures At(Numbers(t), l.a, l.b, l.c, l.d) == Quarter(At(Numbers(s), l.a, l.b, l.c, l.d))
  {
    hide QuarterRound, Quarter, Number;
    NumbersOfQuarter(Get(s, l));
  }

  lemma ColumnsAre(s: State)
    ensures var t := Columns(s);
            Get(t, COLUMN0) == QuarterRound(Get(s, COLUMN0)) && Get(t, COLUMN1) == QuarterRound(Get(s, COLUMN1)) &&
            Get(t, COLUMN2) == QuarterRound(Get(s, COLUMN2)) && Get(t, COLUMN3) == QuarterRound(Get(s, COLUMN3))
  {
    hide Step, QuarterRound, Get, Disjoint;
    LanesDisjoint();
    FourSteps(s, COLUMN0, COLUMN1, COLUMN2, COLUMN3);
  }

  lemma DiagonalsAre(s: State)
    ensures var t := Diagonals(s);
            Get(t, DIAGONAL0) == QuarterRound(Get(s, DIAGONAL0)) && Get(t, DIAGONAL1) == QuarterRound(Get(s, DIAGONAL1)) &&
            Get(t, DIAGONAL2) == QuarterRound(Get(s, DIAGONAL2)) && Get(t, DIAGONAL3) == QuarterRound(Get(s, DIAGONAL3))
  {
    hide Step, QuarterRound, Get, Disjoint;
    LanesDisjoint();
    FourSteps(s, DIAGONAL0, DIAGONAL1, DIAGONAL2, DIAGONAL3);
  }

  lemma ByColumns(w: Words, p: Four, q: Four, r: Four, s: Four)
    requires At(w, 0, 4, 8, 12) == p && At(w, 1, 5, 9, 13) == q && At(w, 2, 6, 10, 14) == r && At(w, 3, 7, 11, 15) == s
    ensures w == [p.a, q.a, r.a, s.a, p.b, q.b, r.b, s.b, p.c, q.c, r.c, s.c, p.d, q.d, r.d, s.d]
  {
  }

  lemma ByDiagonals(w: Words, p: Four, q: Four, r: Four, s: Four)
    requires At(w, 0, 5, 10, 15) == p && At(w, 1, 6, 11, 12) == q && At(w, 2, 7, 8, 13) == r && At(w, 3, 4, 9, 14) == s
    ensures w == [p.a, q.a, r.a, s.a, s.b, p.b, q.b, r.b, r.c, s.c, p.c, q.c, q.d, r.d, s.d, p.d]
  {
  }

  lemma NumbersOfColumns(s: State)
    ensures Numbers(Columns(s)) == ColumnRound(Numbers(s))
  {
    hide Columns, Quarter, Get, Numbers, QuarterRound, At;
    ColumnsAre(s);
    var t := Columns(s);
    NumbersOfLane(s, t, COLUMN0);
    NumbersOfLane(s, t, COLUMN1);
    NumbersOfLane(s, t, COLUMN2);
    NumbersOfLane(s, t, COLUMN3);
    var w := Numbers(t);
    ByColumns(w, At(w, 0, 4, 8, 12), At(w, 1, 5, 9, 13), At(w, 2, 6, 10, 14), At(w, 3, 7, 11, 15));
  }

  lemma NumbersOfDiagonals(s: State)
    ensures Numbers(Diagonals(s)) == DiagonalRound(Numbers(s))
  {
    hide Diagonals, Quarter, Get, Numbers, QuarterRound, At;
    DiagonalsAre(s);
    var t := Diagonals(s);
    NumbersOfLane(s, t, DIAGONAL0);
    NumbersOfLane(s, t, DIAGONAL1);
    NumbersOfLane(s, t, DIAGONAL2);
    NumbersOfLane(s, t, DIAGONAL3);
    var w := Numbers(t);
    ByDiagonals(w, At(w, 0, 5, 10, 15), At(w, 1, 6, 11, 12), At(w, 2, 7, 8, 13), At(w, 3, 4, 9, 14));
  }

  lemma NumbersOfDoubleRound(s: State)
    ensures Numbers(Diagonals(Columns(s))) == DoubleRound(Numbers(s))
  {
    hide Diagonals, Columns, DiagonalRound, ColumnRound, Numbers;
    NumbersOfColumns(s);
    NumbersOfDiagonals(Columns(s));
  }

  lemma NumbersOfPermute(s: State)
    ensures Numbers(Permute(s)) == EightRounds(Numbers(s))
  {
    hide Diagonals, Columns, DoubleRound, Numbers;
    var s1 := Diagonals(Columns(s));
    var s2 := Diagonals(Columns(s1));
    var s3 := Diagonals(Columns(s2));
    NumbersOfDoubleRound(s);
    NumbersOfDoubleRound(s1);
    NumbersOfDoubleRound(s2);
    NumbersOfDoubleRound(s3);
    assert Rounds(s, 1) == s1;
    assert Rounds(s, 2) == s2;
    assert Rounds(s, 3) == s3;
  }

  /** The core of a block, made of lists of bits, is the reference's on the numbers they stand for. */
  lemma CoreIsReference(s: State)
    ensures Numbers(Core(s)) == ReferenceBlock(Numbers(s))
  {
    hide Permute, EightRounds, Number, Plus, Sum;
    NumbersOfPermute(s);
    forall i | 0 <= i < 16 ensures Numbers(Core(s))[i] == ReferenceBlock(Numbers(s))[i] {
      NumberOfPlus(Permute(s)[i], s[i]);
      assert EightRounds(Numbers(s))[i] == Number(Permute(s)[i]);
    }
  }

  // ---------------------------------------------------------------- xorshift

  function ReferenceXorshift(v: bv32): bv32 {
    var v := XorOf(v, ShiftLeft(v, 13));
    var v := XorOf(v, ShiftRight(v, 17));
    XorOf(v, ShiftLeft(v, 5))
  }

  /** Marsaglia's generator with the shifts 13, 17 and 5, started from one. */
  lemma XorshiftVector()
    ensures ReferenceXorshift(1) == 270369
  {
  }

  lemma XorshiftIsReference(w: Word)
    ensures Number(Xorshift(w)) == ReferenceXorshift(Number(w))
  {
    hide Number, Xor, Shl, Shr, XorOf, ShiftLeft, ShiftRight;
    var left := Left(w, 13);
    var right := Right(left, 17);
    NumberOfShifts(w);
    NumberOfShifts(left);
    NumberOfShifts(right);
    NumberOfXor(w, Shl(w, 13));
    NumberOfXor(left, Shr(left, 17));
    NumberOfXor(right, Shl(right, 5));
  }
}
