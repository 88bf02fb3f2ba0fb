/**
 The ns0 stream cipher (tools/inspect_tjs_ns0.py): a ChaCha permutation of eight rounds makes the
 first 64 bytes of each 1024-byte block of key stream, and xorshift makes the rest. The key and
 the hash of the initial vector, which come from other algorithms, are parameters.
 */
module Ns0Cipher {
  import opened Ns0Words

  type State = s: seq<Word> | |s| == 16 witness seq(16, _ => Zeros(32))

  // ---------------------------------------------------------------- the permutation

  /** Four different words for a quarter round to work on. */
  datatype Indices = Indices(a: nat, b: nat, c: nat, d: nat) {
    predicate Apart() { a < 16 && b < 16 && c < 16 && d < 16 && a != b && a != c && a != d && b != c && b != d && c != d }
  }

  type Lanes = l: Indices | l.Apart() witness Indices(0, 4, 8, 12)

  function Get(s: State, l: Lanes): Quad { Quad(s[l.a], s[l.b], s[l.c], s[l.d]) }

  function Put(s: State, l: Lanes, q: Quad): State { s[l.a := q.a][l.b := q.b][l.c := q.c][l.d := q.d] }

  function Step(s: State, l: Lanes): State { Put(s, l, QuarterRound(Get(s, l))) }

  function UnStep(s: State, l: Lanes): State { Put(s, l, UnQuarterRound(Get(s, l))) }

  lemma PutPut(s: State, l: Lanes, q: Quad)
    ensures Get(Put(s, l, q), l) == q && Put(Put(s, l, q), l, Get(s, l)) == s
  {
  }

  lemma StepInvertible(s: State, l: Lanes)
    ensures UnStep(Step(s, l), l) == s && Step(UnStep(s, l), l) == s
  {
    hide QuarterRound, UnQuarterRound, Get, Put;
    PutPut(s, l, QuarterRound(Get(s, l)));
    PutPut(s, l, UnQuarterRound(Get(s, l)));
    QuarterRoundInvertible(Get(s, l));
  }

  const COLUMN0: Lanes := Indices(0, 4, 8, 12)
  const COLUMN1: Lanes := Indices(1, 5, 9, 13)
  const COLUMN2: Lanes := Indices(2, 6, 10, 14)
  const COLUMN3: Lanes := Indices(3, 7, 11, 15)
  const DIAGONAL0: Lanes := Indices(0, 5, 10, 15)
  const DIAGONAL1: Lanes := Indices(1, 6, 11, 12)
  const DIAGONAL2: Lanes := Indices(2, 7, 8, 13)
  const DIAGONAL3: Lanes := Indices(3, 4, 9, 14)

  function Columns(s: State): State { Step(Step(Step(Step(s, COLUMN0), COLUMN1), COLUMN2), COLUMN3) }

  function Diagonals(s: State): State { Step(Step(Step(Step(s, DIAGONAL0), DIAGONAL1), DIAGONAL2), DIAGONAL3) }

  function UnColumns(s: State): State { UnStep(UnStep(UnStep(UnStep(s, COLUMN3), COLUMN2), COLUMN1), COLUMN0) }

  function UnDiagonals(s: State): State { UnStep(UnStep(UnStep(UnStep(s, DIAGONAL3), DIAGONAL2), DIAGONAL1), DIAGONAL0) }

  lemma FourStepsInvertible(s: State, l0: Lanes, l1: Lanes, l2: Lanes, l3: Lanes)
    ensures UnStep(UnStep(UnStep(UnStep(Step(Step(Step(Step(s, l0), l1), l2), l3), l3), l2), l1), l0) == s
    ensures Step(Step(Step(Step(UnStep(UnStep(UnStep(UnStep(s, l3), l2), l1), l0), l0), l1), l2), l3) == s
  {
    hide Step, UnStep;
    StepInvertible(s, l0);
    StepInvertible(Step(s, l0), l1);
    StepInvertible(Step(Step(s, l0), l1), l2);
    StepInvertible(Step(Step(Step(s, l0), l1), l2), l3);
    StepInvertible(s, l3);
    StepInvertible(UnStep(s, l3), l2);
    StepInvertible(UnStep(UnStep(s, l3), l2), l1);
    StepInvertible(UnStep(UnStep(UnStep(s, l3), l2), l1), l0);
  }

  /** `n` double rounds, each of the four columns and then the four diagonals. */
  function Rounds(s: State, n: nat): State {
    if n == 0 then s else Diagonals(Columns(Rounds(s, n - 1)))
  }

  function UnRounds(s: State, n: nat): State
    decreases n
  {
    if n == 0 then s else UnRounds(UnColumns(UnDiagonals(s)), n - 1)
  }

  lemma DoubleRoundInvertible(s: State)
    ensures UnColumns(UnDiagonals(Diagonals(Columns(s)))) == s && Diagonals(Columns(UnColumns(UnDiagonals(s)))) == s
  {
    hide Step, UnStep;
    FourStepsInvertible(s, COLUMN0, COLUMN1, COLUMN2, COLUMN3);
    FourStepsInvertible(Columns(s), DIAGONAL0, DIAGONAL1, DIAGONAL2, DIAGONAL3);
    FourStepsInvertible(s, DIAGONAL0, DIAGONAL1, DIAGONAL2, DIAGONAL3);
    FourStepsInvertible(UnDiagonals(s), COLUMN0, COLUMN1, COLUMN2, COLUMN3);
  }

  lemma {:induction false} RoundsInvertible(s: State, n: nat)
    ensures UnRounds(Rounds(s, n), n) == s && Rounds(UnRounds(s, n), n) == s
    decreases n
  {
    hide Columns, Diagonals, UnColumns, UnDiagonals;
    if n > 0 {
      DoubleRoundInvertible(Rounds(s, n - 1));
      RoundsInvertible(s, n - 1);
      DoubleRoundInvertible(s);
      RoundsInvertible(UnColumns(UnDiagonals(s)), n - 1);
    }
  }

  function Permute(s: State): State { Rounds(s, 4) }

  function UnPermute(s: State): State { UnRounds(s, 4) }

  /** The eight rounds are a bijection of states. */
  lemma PermuteInvertible(s: State)
    ensures UnPermute(Permute(s)) == s && Permute(UnPermute(s)) == s
  {
    hide Rounds, UnRounds;
    RoundsInvertible(s, 4);
  }

  function Core(s: State): State { seq(16, i requires 0 <= i < 16 => Plus(Permute(s)[i], s[i])) }

  method Qr(state: array<Word>, a: nat, b: nat, c: nat, d: nat)
    requires state.Length == 16 && Indices(a, b, c, d).Apart()
    modifies state
    ensures state[..] == Step(old(state[..]), Indices(a, b, c, d))
  {
    hide Plus, Xor, Rol;
    state[a] := Plus(state[a], state[b]);
    state[d] := Rol(Xor(state[d], state[a]), 16);
    state[c] := Plus(state[c], state[d]);
    state[b] := Rol(Xor(state[b], state[c]), 12);
    state[a] := Plus(state[a], state[b]);
    state[d] := Rol(Xor(state[d], state[a]), 8);
    state[c] := Plus(state[c], state[d]);
    state[b] := Rol(Xor(state[b], state[c]), 7);
  }

  method Chacha8Block(source: State) returns (block: array<Word>)
    ensures fresh(block) && block.Length == 16 && block[..] == Core(source)
  {
    hide Step, Plus;
    var state := new Word[16](i requires 0 <= i < 16 => source[i]);
    assert state[..] == source;
    for n := 0 to 4
      invariant state[..] == Rounds(source, n)
    {
      Qr(state, 0, 4, 8, 12);
      Qr(state, 1, 5, 9, 13);
      Qr(state, 2, 6, 10, 14);
      Qr(state, 3, 7, 11, 15);
      assert state[..] == Columns(Rounds(source, n));
      Qr(state, 0, 5, 10, 15);
      Qr(state, 1, 6, 11, 12);
      Qr(state, 2, 7, 8, 13);
      Qr(state, 3, 4, 9, 14);
    }
    block := new Word[16](i requires 0 <= i < 16 reads state => Plus(state[i], source[i]));
  }
}
