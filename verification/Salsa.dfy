/** The Salsa20 core (section 3 of RFC 7914 for eight rounds): the scalar version and
    the SSE2 version, which keeps the block on its diagonals, proved equal for every
    number of rounds. */
module Salsa {

  datatype Block = Block(x0: bv32, x1: bv32, x2: bv32, x3: bv32, x4: bv32, x5: bv32, x6: bv32, x7: bv32,
                         x8: bv32, x9: bv32, x10: bv32, x11: bv32, x12: bv32, x13: bv32, x14: bv32, x15: bv32)

  function BlockOf(s: seq<bv32>): Block
    requires |s| == 16
  {
    Block(s[0], s[1], s[2], s[3], s[4], s[5], s[6], s[7],
          s[8], s[9], s[10], s[11], s[12], s[13], s[14], s[15])
  }

  // Arithmetic on words.

  function Add32(a: bv32, b: bv32): (sum: bv32) { a + b }

  lemma AddCommutes(a: bv32, b: bv32)
    ensures Add32(a, b) == Add32(b, a)
  {
  }

  function Xor32(x: bv32, y: bv32): bv32 { x ^ y }

  predicate IsAmount(s: nat) { s == 7 || s == 9 || s == 13 || s == 18 }

  function Rotate(x: bv32, s: nat): bv32
    requires IsAmount(s)
  {
    (x << s) | (x >> (32 - s))
  }

  /** One statement of the scalar version. */
  function Stir(x: bv32, a: bv32, b: bv32, s: nat): bv32
    requires IsAmount(s)
  {
    Xor32(x, Rotate(Add32(a, b), s))
  }

  function ShiftUp(x: bv32, s: nat): bv32
    requires IsAmount(s)
  {
    x << s
  }

  function ShiftDown(x: bv32, s: nat): bv32
    requires IsAmount(s)
  {
    x >> (32 - s)
  }

  lemma Split7(x: bv32, t: bv32)
    ensures Xor32(Xor32(x, ShiftUp(t, 7)), ShiftDown(t, 7)) == Xor32(x, Rotate(t, 7))
  {
  }

  lemma Split9(x: bv32, t: bv32)
    ensures Xor32(Xor32(x, ShiftUp(t, 9)), ShiftDown(t, 9)) == Xor32(x, Rotate(t, 9))
  {
  }

  lemma Split13(x: bv32, t: bv32)
    ensures Xor32(Xor32(x, ShiftUp(t, 13)), ShiftDown(t, 13)) == Xor32(x, Rotate(t, 13))
  {
  }

  lemma Split18(x: bv32, t: bv32)
    ensures Xor32(Xor32(x, ShiftUp(t, 18)), ShiftDown(t, 18)) == Xor32(x, Rotate(t, 18))
  {
  }

  /** Two shifts, mixed in one after the other, are a rotation. */
  lemma SplitRotation(x: bv32, t: bv32, s: nat)
    requires IsAmount(s)
    ensures Xor32(Xor32(x, ShiftUp(t, s)), ShiftDown(t, s)) == Xor32(x, Rotate(t, s))
  {
    hide Xor32, ShiftUp, ShiftDown, Rotate;
    if s == 7 {
      Split7(x, t);
    } else if s == 9 {
      Split9(x, t);
    } else if s == 13 {
      Split13(x, t);
    } else {
      Split18(x, t);
    }
  }

  datatype Four = Four(a: bv32, b: bv32, c: bv32, d: bv32)

  /** The quarter round. */
  function Quarter(a: bv32, b: bv32, c: bv32, d: bv32): Four {
    var b1 := Stir(b, a, d, 7);
    var c1 := Stir(c, b1, a, 9);
    var d1 := Stir(d, c1, b1, 13);
    Four(Stir(a, d1, c1, 18), b1, c1, d1)
  }

  function ColumnRound(x: Block): Block {
    var p := Quarter(x.x0, x.x4, x.x8, x.x12);
    var q := Quarter(x.x5, x.x9, x.x13, x.x1);
    var r := Quarter(x.x10, x.x14, x.x2, x.x6);
    var s := Quarter(x.x15, x.x3, x.x7, x.x11);
    Block(p.a, q.d, r.c, s.b, p.b, q.a, r.d, s.c, p.c, q.b, r.a, s.d, p.d, q.c, r.b, s.a)
  }

  function RowRound(x: Block): Block {
    var p := Quarter(x.x0, x.x1, x.x2, x.x3);
    var q := Quarter(x.x5, x.x6, x.x7, x.x4);
    var r := Quarter(x.x10, x.x11, x.x8, x.x9);
    var s := Quarter(x.x15, x.x12, x.x13, x.x14);
    Block(p.a, p.b, p.c, p.d, q.d, q.a, q.b, q.c, r.c, r.d, r.a, r.b, s.b, s.c, s.d, s.a)
  }

  /** Double rounds while i is below the number of rounds, i growing by two. */
  function DoubleRounds(x: Block, i: nat, rounds: int): Block
    decreases rounds - i
  {
    if i >= rounds then x else DoubleRounds(RowRound(ColumnRound(x)), i + 2, rounds)
  }

  function AddBlocks(x: Block, y: Block): Block {
    Block(Add32(x.x0, y.x0), Add32(x.x1, y.x1), Add32(x.x2, y.x2), Add32(x.x3, y.x3),
          Add32(x.x4, y.x4), Add32(x.x5, y.x5), Add32(x.x6, y.x6), Add32(x.x7, y.x7),
          Add32(x.x8, y.x8), Add32(x.x9, y.x9), Add32(x.x10, y.x10), Add32(x.x11, y.x11),
          Add32(x.x12, y.x12), Add32(x.x13, y.x13), Add32(x.x14, y.x14), Add32(x.x15, y.x15))
  }

  function Core(x: Block, rounds: int): Block { AddBlocks(x, DoubleRounds(x, 0, rounds)) }

  // The scalar version, in place on an array.

  /** Four statements on four different words of the array. */
  method QuarterInPlace(x: array<bv32>, a: nat, b: nat, c: nat, d: nat)
    requires x.Length == 16 && a < 16 && b < 16 && c < 16 && d < 16
    requires a != b && a != c && a != d && b != c && b != d && c != d
    modifies x
    ensures Four(x[a], x[b], x[c], x[d]) == Quarter(old(x[a]), old(x[b]), old(x[c]), old(x[d]))
    ensures forall k :: 0 <= k < 16 && k != a && k != b && k != c && k != d ==> x[k] == old(x[k])
  {
    hide Stir;
    x[b] := Stir(x[b], x[a], x[d], 7);
    x[c] := Stir(x[c], x[b], x[a], 9);
    x[d] := Stir(x[d], x[c], x[b], 13);
    x[a] := Stir(x[a], x[d], x[c], 18);
  }

  method ColumnRoundInPlace(x: array<bv32>)
    requires x.Length == 16
    modifies x
    ensures BlockOf(x[..]) == ColumnRound(old(BlockOf(x[..])))
  {
    hide Quarter;
    QuarterInPlace(x, 0, 4, 8, 12);
    QuarterInPlace(x, 5, 9, 13, 1);
    QuarterInPlace(x, 10, 14, 2, 6);
    QuarterInPlace(x, 15, 3, 7, 11);
  }

  method RowRoundInPlace(x: array<bv32>)
    requires x.Length == 16
    modifies x
    ensures BlockOf(x[..]) == RowRound(old(BlockOf(x[..])))
  {
    hide Quarter;
    QuarterInPlace(x, 0, 1, 2, 3);
    QuarterInPlace(x, 5, 6, 7, 4);
    QuarterInPlace(x, 10, 11, 8, 9);
    QuarterInPlace(x, 15, 12, 13, 14);
  }

  method Salsa20Generic(B: array<bv32>, rounds: int)
    requires B.Length == 16
    modifies B
    ensures BlockOf(B[..]) == Core(old(BlockOf(B[..])), rounds)
  {
    hide ColumnRound, RowRound, AddBlocks;
    var x := new bv32[16](k requires 0 <= k < 16 reads B => B[k]);
    assert BlockOf(x[..]) == BlockOf(B[..]);
    var i := 0;
    while i < rounds
      invariant x.Length == 16 && x != B && B[..] == old(B[..]) && fresh(x) && 0 <= i
      invariant DoubleRounds(BlockOf(x[..]), i, rounds) == DoubleRounds(old(BlockOf(B[..])), 0, rounds)
    {
      ColumnRoundInPlace(x);
      RowRoundInPlace(x);
      i := i + 2;
    }
    AddInPlace(B, x);
    SumsAre(old(B[..]), x[..], B[..]);
  }

  lemma SumsAre(b: seq<bv32>, x: seq<bv32>, sum: seq<bv32>)
    requires |b| == |x| == |sum| == 16 && forall k :: 0 <= k < 16 ==> sum[k] == Add32(b[k], x[k])
    ensures BlockOf(sum) == AddBlocks(BlockOf(b), BlockOf(x))
  {
    hide Add32;
  }

  method AddInPlace(B: array<bv32>, x: array<bv32>)
    requires B.Length == 16 && x.Length == 16 && x != B
    modifies B
    ensures forall k :: 0 <= k < 16 ==> B[k] == Add32(old(B[k]), x[k])
  {
    hide Add32;
    var j := 0;
    while j < 16
      invariant j <= 16
      invariant forall k :: 0 <= k < j ==> B[k] == Add32(old(B[k]), x[k])
      invariant forall k :: j <= k < 16 ==> B[k] == old(B[k])
    {
      B[j] := Add32(B[j], x[j]);
      j := j + 1;
    }
  }

  // The SSE2 version: four lanes to a register.

  datatype Vec = Vec(w0: bv32, w1: bv32, w2: bv32, w3: bv32)

  function Lane(v: Vec, k: nat): bv32 {
    if k == 0 then v.w0 else if k == 1 then v.w1 else if k == 2 then v.w2 else v.w3
  }

  /** `_mm_shuffle_epi32`: two bits of the constant select the source of each lane. */
  function Shuffle(v: Vec, pattern: nat): Vec {
    Vec(Lane(v, pattern % 4), Lane(v, pattern / 4 % 4), Lane(v, pattern / 16 % 4), Lane(v, pattern / 64 % 4))
  }

  /** The constants in use: one lane on, two lanes on, one lane back. */
  lemma ShuffleConstants(v: Vec)
    ensures Shuffle(v, 0x93) == Vec(v.w3, v.w0, v.w1, v.w2)
    ensures Shuffle(v, 0x4E) == Vec(v.w2, v.w3, v.w0, v.w1)
    ensures Shuffle(v, 0x39) == Vec(v.w1, v.w2, v.w3, v.w0)
  {
  }

  function AddVec(x: Vec, y: Vec): Vec {
    Vec(Add32(x.w0, y.w0), Add32(x.w1, y.w1), Add32(x.w2, y.w2), Add32(x.w3, y.w3))
  }

  function XorVec(x: Vec, y: Vec): Vec {
    Vec(Xor32(x.w0, y.w0), Xor32(x.w1, y.w1), Xor32(x.w2, y.w2), Xor32(x.w3, y.w3))
  }

  function ShiftUpVec(x: Vec, s: nat): Vec
    requires IsAmount(s)
  {
    Vec(ShiftUp(x.w0, s), ShiftUp(x.w1, s), ShiftUp(x.w2, s), ShiftUp(x.w3, s))
  }

  function ShiftDownVec(x: Vec, s: nat): Vec
    requires IsAmount(s)
  {
    Vec(ShiftDown(x.w0, s), ShiftDown(x.w1, s), ShiftDown(x.w2, s), ShiftDown(x.w3, s))
  }

  /** The macro ARX: add, then mix in the sum shifted up and the sum shifted down. */
  method Arx(x: Vec, a: Vec, b: Vec, s: nat) returns (r: Vec)
    requires IsAmount(s)
    ensures r == Vec(Stir(x.w0, a.w0, b.w0, s), Stir(x.w1, a.w1, b.w1, s),
                     Stir(x.w2, a.w2, b.w2, s), Stir(x.w3, a.w3, b.w3, s))
  {
    hide ShiftUp, ShiftDown, Rotate, Add32, Xor32, Stir;
    var t := AddVec(a, b);
    r := XorVec(x, ShiftUpVec(t, s));
    r := XorVec(r, ShiftDownVec(t, s));
    MixedIs(x.w0, a.w0, b.w0, s);
    MixedIs(x.w1, a.w1, b.w1, s);
    MixedIs(x.w2, a.w2, b.w2, s);
    MixedIs(x.w3, a.w3, b.w3, s);
  }

  lemma MixedIs(x: bv32, a: bv32, b: bv32, s: nat)
    requires IsAmount(s)
    ensures Xor32(Xor32(x, ShiftUp(Add32(a, b), s)), ShiftDown(Add32(a, b), s)) == Stir(x, a, b, s)
  {
    hide ShiftUp, ShiftDown, Rotate, Add32, Xor32;
    SplitRotation(x, Add32(a, b), s);
  }

  datatype Registers = Registers(X0: Vec, X1: Vec, X2: Vec, X3: Vec)

  /** The layout for the column round: lane i of the registers is a column, from the
      diagonal down. */
  function Diagonals(x: Block): Registers {
    Registers(Vec(x.x0, x.x5, x.x10, x.x15), Vec(x.x4, x.x9, x.x14, x.x3),
              Vec(x.x8, x.x13, x.x2, x.x7), Vec(x.x12, x.x1, x.x6, x.x11))
  }

  /** The layout for the row round: lane i of the registers is a row, from the diagonal
      to the right in X0, X3, X2, X1. */
  function RowDiagonals(x: Block): Registers {
    Registers(Vec(x.x0, x.x5, x.x10, x.x15), Vec(x.x3, x.x4, x.x9, x.x14),
              Vec(x.x2, x.x7, x.x8, x.x13), Vec(x.x1, x.x6, x.x11, x.x12))
  }

  /** Four quarter rounds at once. */
  method QuarterLanes(a: Vec, b: Vec, c: Vec, d: Vec) returns (a1: Vec, b1: Vec, c1: Vec, d1: Vec)
    ensures Four(a1.w0, b1.w0, c1.w0, d1.w0) == Quarter(a.w0, b.w0, c.w0, d.w0)
    ensures Four(a1.w1, b1.w1, c1.w1, d1.w1) == Quarter(a.w1, b.w1, c.w1, d.w1)
    ensures Four(a1.w2, b1.w2, c1.w2, d1.w2) == Quarter(a.w2, b.w2, c.w2, d.w2)
    ensures Four(a1.w3, b1.w3, c1.w3, d1.w3) == Quarter(a.w3, b.w3, c.w3, d.w3)
  {
    hide Stir;
    b1 := Arx(b, a, d, 7);
    c1 := Arx(c, b1, a, 9);
    d1 := Arx(d, c1, b1, 13);
    a1 := Arx(a, d1, c1, 18);
  }

  /** The rearrangement between the column round and the row round, and back. */
  method ToRows(r: Registers, ghost x: Block) returns (next: Registers)
    requires r == Diagonals(x)
    ensures next == RowDiagonals(x)
  {
    hide Shuffle;
    ShuffleConstants(r.X1);
    ShuffleConstants(r.X2);
    ShuffleConstants(r.X3);
    next := Registers(r.X0, Shuffle(r.X1, 0x93), Shuffle(r.X2, 0x4E), Shuffle(r.X3, 0x39));
  }

  method ToColumns(r: Registers, ghost x: Block) returns (next: Registers)
    requires r == RowDiagonals(x)
    ensures next == Diagonals(x)
  {
    hide Shuffle;
    ShuffleConstants(r.X1);
    ShuffleConstants(r.X2);
    ShuffleConstants(r.X3);
    next := Registers(r.X0, Shuffle(r.X1, 0x39), Shuffle(r.X2, 0x4E), Shuffle(r.X3, 0x93));
  }

  method ColumnRoundLanes(r: Registers, ghost x: Block) returns (next: Registers)
    requires r == Diagonals(x)
    ensures next == Diagonals(ColumnRound(x))
  {
    hide Quarter;
    var X0, X1, X2, X3 := QuarterLanes(r.X0, r.X1, r.X2, r.X3);
    next := Registers(X0, X1, X2, X3);
  }

  method RowRoundLanes(r: Registers, ghost x: Block) returns (next: Registers)
    requires r == RowDiagonals(x)
    ensures next == RowDiagonals(RowRound(x))
  {
    hide Quarter;
    var X0, X3, X2, X1 := QuarterLanes(r.X0, r.X3, r.X2, r.X1);
    next := Registers(X0, X1, X2, X3);
  }

  /** The two layouts at the ends of the computation. */
  method Load(B: array<bv32>) returns (X: Registers)
    requires B.Length == 16
    ensures X == Diagonals(BlockOf(B[..]))
  {
    X := Registers(Vec(B[0], B[5], B[10], B[15]), Vec(B[4], B[9], B[14], B[3]),
                   Vec(B[8], B[13], B[2], B[7]), Vec(B[12], B[1], B[6], B[11]));
  }

  method Store(B: array<bv32>, t: Registers)
    requires B.Length == 16
    modifies B
    ensures Diagonals(BlockOf(B[..])) == t
  {
    B[0], B[5], B[10], B[15] := t.X0.w0, t.X0.w1, t.X0.w2, t.X0.w3;
    B[4], B[9], B[14], B[3] := t.X1.w0, t.X1.w1, t.X1.w2, t.X1.w3;
    B[8], B[13], B[2], B[7] := t.X2.w0, t.X2.w1, t.X2.w2, t.X2.w3;
    B[12], B[1], B[6], B[11] := t.X3.w0, t.X3.w1, t.X3.w2, t.X3.w3;
  }

  function AddRegisters(X: Registers, T: Registers): Registers {
    Registers(AddVec(X.X0, T.X0), AddVec(X.X1, T.X1), AddVec(X.X2, T.X2), AddVec(X.X3, T.X3))
  }

  lemma AddVecCommutes(x: Vec, y: Vec)
    ensures AddVec(x, y) == AddVec(y, x)
  {
    hide Add32;
    AddCommutes(x.w0, y.w0);
    AddCommutes(x.w1, y.w1);
    AddCommutes(x.w2, y.w2);
    AddCommutes(x.w3, y.w3);
  }

  /** Sums on the diagonals are the diagonals of the sum. */
  lemma AddOnDiagonals(x: Block, y: Block, sum: Block)
    requires Diagonals(sum) == AddRegisters(Diagonals(y), Diagonals(x))
    ensures sum == AddBlocks(x, y)
  {
    hide Add32;
    AddVecCommutes(Diagonals(x).X0, Diagonals(y).X0);
    AddVecCommutes(Diagonals(x).X1, Diagonals(y).X1);
    AddVecCommutes(Diagonals(x).X2, Diagonals(y).X2);
    AddVecCommutes(Diagonals(x).X3, Diagonals(y).X3);
  }

  method Salsa20Sse2(B: array<bv32>, rounds: int)
    requires B.Length == 16
    modifies B
    ensures BlockOf(B[..]) == Core(old(BlockOf(B[..])), rounds)
  {
    hide ColumnRound, RowRound, Diagonals, RowDiagonals, AddRegisters, AddBlocks, BlockOf;
    ghost var start := BlockOf(B[..]);
    var X := Load(B);
    var T := X;
    // The block whose diagonals the registers hold.
    ghost var x := start;
    var i := 0;
    while i < rounds
      invariant 0 <= i && X == Diagonals(x) && DoubleRounds(x, i, rounds) == DoubleRounds(start, 0, rounds)
    {
      X := ColumnRoundLanes(X, x);
      x := ColumnRound(x);
      X := ToRows(X, x);
      X := RowRoundLanes(X, x);
      x := RowRound(x);
      X := ToColumns(X, x);
      i := i + 2;
    }
    Store(B, AddRegisters(X, T));
    AddOnDiagonals(start, x, BlockOf(B[..]));
  }
}
