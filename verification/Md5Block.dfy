/** MD5Transform: one block of MD5 on 32-bit words, against section 3.4 of RFC 1321. */
module Md5Block {
  import opened Bytes
  import opened Words

  datatype State = State(a: UInt32, b: UInt32, c: UInt32, d: UInt32)

  // ----------------------------------------------------------------- RFC 1321

  function F(x: bv32, y: bv32, z: bv32): bv32 { (x & y) | (!x & z) }

  function G(x: bv32, y: bv32, z: bv32): bv32 { (x & z) | (y & !z) }

  function H(x: bv32, y: bv32, z: bv32): bv32 { x ^ y ^ z }

  function I(x: bv32, y: bv32, z: bv32): bv32 { y ^ (x | !z) }

  function AuxiliaryBits(round: nat, x: bv32, y: bv32, z: bv32): bv32 {
    match round
    case 0 => F(x, y, z)
    case 1 => G(x, y, z)
    case 2 => H(x, y, z)
    case _ => I(x, y, z)
  }

  function Auxiliary(round: nat, x: UInt32, y: UInt32, z: UInt32): UInt32 {
    AuxiliaryBits(round, x as bv32, y as bv32, z as bv32) as int
  }

  /** Which word of the block operation t takes. */
  function Index(t: nat): (k: nat)
    ensures k < 16
  {
    match t / 16
    case 0 => t % 16
    case 1 => (5 * t + 1) % 16
    case 2 => (3 * t + 5) % 16
    case _ => 7 * t % 16
  }

  function Pick(j: nat, a: nat, b: nat, c: nat, d: nat): nat {
    match j
    case 0 => a
    case 1 => b
    case 2 => c
    case _ => d
  }

  /** By how much it rotates. */
  function Shift(t: nat): (s: nat)
    ensures s <= 32
  {
    match t / 16
    case 0 => Pick(t % 4, 7, 12, 17, 22)
    case 1 => Pick(t % 4, 5, 9, 14, 20)
    case 2 => Pick(t % 4, 4, 11, 16, 23)
    case _ => Pick(t % 4, 6, 10, 15, 21)
  }

  /** The table of sines, element t + 1 of the RFC. */
  function T(t: nat): UInt32 {
    match t / 16
    case 0 => T0(t % 16)
    case 1 => T1(t % 16)
    case 2 => T2(t % 16)
    case _ => T3(t % 16)
  }

  function T0(j: nat): UInt32 {
    match j
    case 0 => 0xd76a_a478
    case 1 => 0xe8c7_b756
    case 2 => 0x2420_70db
    case 3 => 0xc1bd_ceee
    case 4 => 0xf57c_0faf
    case 5 => 0x4787_c62a
    case 6 => 0xa830_4613
    case 7 => 0xfd46_9501
    case 8 => 0x6980_98d8
    case 9 => 0x8b44_f7af
    case 10 => 0xffff_5bb1
    case 11 => 0x895c_d7be
    case 12 => 0x6b90_1122
    case 13 => 0xfd98_7193
    case 14 => 0xa679_438e
    case _ => 0x49b4_0821
  }

  function T1(j: nat): UInt32 {
    match j
    case 0 => 0xf61e_2562
    case 1 => 0xc040_b340
    case 2 => 0x265e_5a51
    case 3 => 0xe9b6_c7aa
    case 4 => 0xd62f_105d
    case 5 => 0x0244_1453
    case 6 => 0xd8a1_e681
    case 7 => 0xe7d3_fbc8
    case 8 => 0x21e1_cde6
    case 9 => 0xc337_07d6
    case 10 => 0xf4d5_0d87
    case 11 => 0x455a_14ed
    case 12 => 0xa9e3_e905
    case 13 => 0xfcef_a3f8
    case 14 => 0x676f_02d9
    case _ => 0x8d2a_4c8a
  }

  function T2(j: nat): UInt32 {
    match j
    case 0 => 0xfffa_3942
    case 1 => 0x8771_f681
    case 2 => 0x6d9d_6122
    case 3 => 0xfde5_380c
    case 4 => 0xa4be_ea44
    case 5 => 0x4bde_cfa9
    case 6 => 0xf6bb_4b60
    case 7 => 0xbebf_bc70
    case 8 => 0x289b_7ec6
    case 9 => 0xeaa1_27fa
    case 10 => 0xd4ef_3085
    case 11 => 0x0488_1d05
    case 12 => 0xd9d4_d039
    case 13 => 0xe6db_99e5
    case 14 => 0x1fa2_7cf8
    case _ => 0xc4ac_5665
  }

  function T3(j: nat): UInt32 {
    match j
    case 0 => 0xf429_2244
    case 1 => 0x432a_ff97
    case 2 => 0xab94_23a7
    case 3 => 0xfc93_a039
    case 4 => 0x655b_59c3
    case 5 => 0x8f0c_cc92
    case 6 => 0xffef_f47d
    case 7 => 0x8584_5dd1
    case 8 => 0x6fa8_7e4f
    case 9 => 0xfe2c_e6e0
    case 10 => 0xa301_4314
    case 11 => 0x4e08_11a1
    case 12 => 0xf753_7e82
    case 13 => 0xbd3a_f235
    case 14 => 0x2ad7_d2bb
    case _ => 0xeb86_d391
  }

  /** Operation t: the register that changes is a, and the next operation finds the registers moved on
      by one place. */
  function Operation(x: seq<UInt32>, r: State, t: nat): State
    requires |x| == 16
  {
    var sum := Plus(Plus(Plus(r.a, Auxiliary(t / 16, r.b, r.c, r.d)), x[Index(t)]), T(t));
    State(r.d, Plus(r.b, Rol(sum, Shift(t))), r.b, r.c)
  }

  function Operations(x: seq<UInt32>, h: State, n: nat): State
    requires |x| == 16
  {
    if n == 0 then h else Operation(x, Operations(x, h, n - 1), n - 1)
  }

  function Add(h: State, r: State): State {
    State(Plus(h.a, r.a), Plus(h.b, r.b), Plus(h.c, r.c), Plus(h.d, r.d))
  }

  /** The words of a block, their bytes the least significant first. */
  function BlockWords(block: seq<Byte>): (x: seq<UInt32>)
    requires |block| == 64
  {
    seq(16, i requires 0 <= i < 16 => WordAt(block, i))
  }

  function WordAt(block: seq<Byte>, i: nat): UInt32
    requires |block| == 64 && i < 16
  {
    var a: nat, b: nat, c: nat, d: nat := block[4 * i], block[4 * i + 1], block[4 * i + 2], block[4 * i + 3];
    a + 0x100 * b + 0x1_0000 * c + 0x100_0000 * d
  }

  /** ... as a little-endian host reads them from memory. */
  lemma WordIsRead(block: seq<Byte>, i: nat)
    requires |block| == 64 && i < 16
    ensures BlockWords(block)[i] == FromLittle(block[4 * i..4 * i + 4])
  {
    assert block[4 * i..4 * i + 4] == [block[4 * i], block[4 * i + 1], block[4 * i + 2], block[4 * i + 3]];
    FromLittleIs(block[4 * i], block[4 * i + 1], block[4 * i + 2], block[4 * i + 3]);
  }

  /** Section 3.4: what a block makes of the four words of the digest. */
  function Compress(h: State, block: seq<Byte>): State
    requires |block| == 64
  {
    Add(h, Operations(BlockWords(block), h, 64))
  }

  // ----------------------------------------------------------------- the table of sines

  /** Twice the cosine of 1, times 2^32. */
  const TWICE_COSINE := 4641161467

  function Neg(x: int): int { -x }

  /** Three sines, of arguments one apart: the outer two add up to twice the cosine of 1 times the one in the
      middle, but for what rounding down has taken. */
  predicate Wave(a: int, b: int, c: int) {
    -0x2_0000_0000 < 0x1_0000_0000 * (a + c) - TWICE_COSINE * b < 0x2_0000_0000
  }

  /** The table is one of sines, with the signs they have. */
  lemma Sines1To8()
    ensures Wave(T0(0), T0(1), T0(2)) && Wave(T0(1), T0(2), Neg(T0(3)))
    ensures Wave(T0(2), Neg(T0(3)), Neg(T0(4))) && Wave(Neg(T0(3)), Neg(T0(4)), Neg(T0(5)))
    ensures Wave(Neg(T0(4)), Neg(T0(5)), T0(6)) && Wave(Neg(T0(5)), T0(6), T0(7))
    ensures Wave(T0(6), T0(7), T0(8)) && Wave(T0(7), T0(8), Neg(T0(9)))
  {
  }

  lemma Sines9To16()
    ensures Wave(T0(8), Neg(T0(9)), Neg(T0(10))) && Wave(Neg(T0(9)), Neg(T0(10)), Neg(T0(11)))
    ensures Wave(Neg(T0(10)), Neg(T0(11)), T0(12)) && Wave(Neg(T0(11)), T0(12), T0(13))
    ensures Wave(T0(12), T0(13), T0(14)) && Wave(T0(13), T0(14), Neg(T0(15)))
    ensures Wave(T0(14), Neg(T0(15)), Neg(T1(0))) && Wave(Neg(T0(15)), Neg(T1(0)), Neg(T1(1)))
  {
  }

  lemma Sines17To24()
    ensures Wave(Neg(T1(0)), Neg(T1(1)), T1(2)) && Wave(Neg(T1(1)), T1(2), T1(3))
    ensures Wave(T1(2), T1(3), T1(4)) && Wave(T1(3), T1(4), Neg(T1(5)))
    ensures Wave(T1(4), Neg(T1(5)), Neg(T1(6))) && Wave(Neg(T1(5)), Neg(T1(6)), Neg(T1(7)))
    ensures Wave(Neg(T1(6)), Neg(T1(7)), Neg(T1(8))) && Wave(Neg(T1(7)), Neg(T1(8)), T1(9))
  {
  }

  lemma Sines25To32()
    ensures Wave(Neg(T1(8)), T1(9), T1(10)) && Wave(T1(9), T1(10), T1(11))
    ensures Wave(T1(10), T1(11), Neg(T1(12))) && Wave(T1(11), Neg(T1(12)), Neg(T1(13)))
    ensures Wave(Neg(T1(12)), Neg(T1(13)), Neg(T1(14))) && Wave(Neg(T1(13)), Neg(T1(14)), T1(15))
    ensures Wave(Neg(T1(14)), T1(15), T2(0)) && Wave(T1(15), T2(0), T2(1))
  {
  }

  lemma Sines33To40()
    ensures Wave(T2(0), T2(1), Neg(T2(2))) && Wave(T2(1), Neg(T2(2)), Neg(T2(3)))
    ensures Wave(Neg(T2(2)), Neg(T2(3)), Neg(T2(4))) && Wave(Neg(T2(3)), Neg(T2(4)), T2(5))
    ensures Wave(Neg(T2(4)), T2(5), T2(6)) && Wave(T2(5), T2(6), T2(7))
    ensures Wave(T2(6), T2(7), Neg(T2(8))) && Wave(T2(7), Neg(T2(8)), Neg(T2(9)))
  {
  }

  lemma Sines41To48()
    ensures Wave(Neg(T2(8)), Neg(T2(9)), Neg(T2(10))) && Wave(Neg(T2(9)), Neg(T2(10)), T2(11))
    ensures Wave(Neg(T2(10)), T2(11), T2(12)) && Wave(T2(11), T2(12), T2(13))
    ensures Wave(T2(12), T2(13), T2(14)) && Wave(T2(13), T2(14), Neg(T2(15)))
    ensures Wave(T2(14), Neg(T2(15)), Neg(T3(0))) && Wave(Neg(T2(15)), Neg(T3(0)), Neg(T3(1)))
  {
  }

  lemma Sines49To56()
    ensures Wave(Neg(T3(0)), Neg(T3(1)), T3(2)) && Wave(Neg(T3(1)), T3(2), T3(3))
    ensures Wave(T3(2), T3(3), T3(4)) && Wave(T3(3), T3(4), Neg(T3(5)))
    ensures Wave(T3(4), Neg(T3(5)), Neg(T3(6))) && Wave(Neg(T3(5)), Neg(T3(6)), Neg(T3(7)))
    ensures Wave(Neg(T3(6)), Neg(T3(7)), T3(8)) && Wave(Neg(T3(7)), T3(8), T3(9))
  {
  }

  lemma Sines57To62()
    ensures Wave(T3(8), T3(9), T3(10)) && Wave(T3(9), T3(10), Neg(T3(11)))
    ensures Wave(T3(10), Neg(T3(11)), Neg(T3(12))) && Wave(Neg(T3(11)), Neg(T3(12)), Neg(T3(13)))
    ensures Wave(Neg(T3(12)), Neg(T3(13)), T3(14)) && Wave(Neg(T3(13)), T3(14), T3(15))
  {
  }

  // ----------------------------------------------------------------- the program

  function F1(x: bv32, y: bv32, z: bv32): bv32 { z ^ (x & (y ^ z)) }

  function F2(x: bv32, y: bv32, z: bv32): bv32 { F1(z, x, y) }

  function F3(x: bv32, y: bv32, z: bv32): bv32 { x ^ y ^ z }

  function F4(x: bv32, y: bv32, z: bv32): bv32 { y ^ (x | !z) }

  function CodeBits(round: nat, x: bv32, y: bv32, z: bv32): bv32 {
    match round
    case 0 => F1(x, y, z)
    case 1 => F2(x, y, z)
    case 2 => F3(x, y, z)
    case _ => F4(x, y, z)
  }

  function Code(round: nat, x: UInt32, y: UInt32, z: UInt32): UInt32 {
    CodeBits(round, x as bv32, y as bv32, z as bv32) as int
  }

  lemma F1IsF(x: bv32, y: bv32, z: bv32)
    ensures z ^ (x & (y ^ z)) == (x & y) | (!x & z)
  {
  }

  lemma F2IsG(x: bv32, y: bv32, z: bv32)
    ensures y ^ (z & (x ^ y)) == (x & z) | (y & !z)
  {
  }

  lemma F1Agrees(x: bv32, y: bv32, z: bv32)
    ensures CodeBits(0, x, y, z) == AuxiliaryBits(0, x, y, z)
  {
    F1IsF(x, y, z);
  }

  lemma F2Agrees(x: bv32, y: bv32, z: bv32)
    ensures CodeBits(1, x, y, z) == AuxiliaryBits(1, x, y, z)
  {
    F2IsG(x, y, z);
  }

  lemma F3Agrees(x: bv32, y: bv32, z: bv32)
    ensures CodeBits(2, x, y, z) == AuxiliaryBits(2, x, y, z)
  {
  }

  lemma F4Agrees(x: bv32, y: bv32, z: bv32)
    ensures CodeBits(3, x, y, z) == AuxiliaryBits(3, x, y, z)
  {
  }

  /** The macros F1 to F4 are F, G, H and I. */
  lemma MacrosAgree(round: nat, x: UInt32, y: UInt32, z: UInt32)
    requires round < 4
    ensures Code(round, x, y, z) == Auxiliary(round, x, y, z)
  {
    var p, q, r := x as bv32, y as bv32, z as bv32;
    match round
    case 0 => F1Agrees(p, q, r);
    case 1 => F2Agrees(p, q, r);
    case 2 => F3Agrees(p, q, r);
    case 3 => F4Agrees(p, q, r);
  }

  /** The macro adds the constant to the word first, and the register to the sum. */
  lemma SumAgrees(w: UInt32, f: UInt32, x: UInt32, k: UInt32)
    ensures Plus(w, Plus(f, Plus(x, k))) == Plus(Plus(Plus(w, f), x), k)
  {
    PlusAssociates(w, f, Plus(x, k));
    PlusAssociates(Plus(w, f), x, k);
  }

  /** The registers before every operation. */
  ghost predicate IsTrace(block: seq<UInt32>, trace: seq<State>) {
    |block| == 16 && |trace| == 65 && (forall t :: 0 <= t < 64 ==> TraceAt(block, trace, t))
  }

  ghost predicate TraceAt(block: seq<UInt32>, trace: seq<State>, t: nat)
    requires |block| == 16 && t + 1 < |trace|
  {
    trace[t + 1] == Operation(block, trace[t], t)
  }

  ghost function Trace(block: seq<UInt32>, h: State): (trace: seq<State>)
    requires |block| == 16
    ensures IsTrace(block, trace) && trace[0] == h && trace[64] == Operations(block, h, 64)
  {
    var trace := seq(65, t requires 0 <= t < 65 => Operations(block, h, t));
    assert forall t :: 0 <= t < 64 ==> TraceAt(block, trace, t);
    trace
  }

  lemma OperationIs(block: seq<UInt32>, r: State, t: nat, round: nat, word: UInt32, k: UInt32, s: nat)
    requires |block| == 16 && t < 64
    requires round == t / 16 && word == block[Index(t)] && k == T(t) && s == Shift(t)
    ensures Operation(block, r, t) ==
      State(r.d, Plus(Rol(Plus(r.a, Plus(Code(round, r.b, r.c, r.d), Plus(word, k))), s), r.b), r.b, r.c)
  {
    MacrosAgree(round, r.b, r.c, r.d);
    SumAgrees(r.a, Code(round, r.b, r.c, r.d), word, k);
    PlusCommutes(r.b, Rol(Plus(r.a, Plus(Code(round, r.b, r.c, r.d), Plus(word, k))), s));
  }

  lemma PlusCommutes(x: UInt32, y: UInt32)
    ensures Plus(x, y) == Plus(y, x)
  {
  }

  /** MD5STEP: line t, with the number of its macro, its roles, its word, its constant and its shift.
      The register in the first role changes, and all move on by one place. */
  method Step(ghost block: seq<UInt32>, ghost trace: seq<State>, ghost t: nat, round: nat,
              w: UInt32, x: UInt32, y: UInt32, z: UInt32, word: UInt32, k: UInt32, s: nat) returns (next: UInt32)
    requires IsTrace(block, trace) && t < 64 && trace[t] == State(w, x, y, z)
    requires round == t / 16 && word == block[Index(t)] && k == T(t) && s == Shift(t)
    ensures trace[t + 1] == State(z, next, x, y)
  {
    assert TraceAt(block, trace, t);
    OperationIs(block, State(w, x, y, z), t, round, word, k, s);
    next := Plus(w, Plus(Code(round, x, y, z), Plus(word, k)));
    next := Rol(next, s);
    next := Plus(next, x);
  }

  method Lines0To7(x: seq<UInt32>, ghost trace: seq<State>, r: State) returns (next: State)
    requires IsTrace(x, trace) && trace[0] == r
    ensures next == trace[8]
  {
    var a, b, c, d := r.a, r.b, r.c, r.d;
    a := Step(x, trace, 0, 0, a, b, c, d, x[0], 0xd76a_a478, 7);
    d := Step(x, trace, 1, 0, d, a, b, c, x[1], 0xe8c7_b756, 12);
    c := Step(x, trace, 2, 0, c, d, a, b, x[2], 0x2420_70db, 17);
    b := Step(x, trace, 3, 0, b, c, d, a, x[3], 0xc1bd_ceee, 22);
    a := Step(x, trace, 4, 0, a, b, c, d, x[4], 0xf57c_0faf, 7);
    d := Step(x, trace, 5, 0, d, a, b, c, x[5], 0x4787_c62a, 12);
    c := Step(x, trace, 6, 0, c, d, a, b, x[6], 0xa830_4613, 17);
    b := Step(x, trace, 7, 0, b, c, d, a, x[7], 0xfd46_9501, 22);
    next := State(a, b, c, d);
  }

  method Lines8To15(x: seq<UInt32>, ghost trace: seq<State>, r: State) returns (next: State)
    requires IsTrace(x, trace) && trace[8] == r
    ensures next == trace[16]
  {
    var a, b, c, d := r.a, r.b, r.c, r.d;
    a := Step(x, trace, 8, 0, a, b, c, d, x[8], 0x6980_98d8, 7);
    d := Step(x, trace, 9, 0, d, a, b, c, x[9], 0x8b44_f7af, 12);
    c := Step(x, trace, 10, 0, c, d, a, b, x[10], 0xffff_5bb1, 17);
    b := Step(x, trace, 11, 0, b, c, d, a, x[11], 0x895c_d7be, 22);
    a := Step(x, trace, 12, 0, a, b, c, d, x[12], 0x6b90_1122, 7);
    d := Step(x, trace, 13, 0, d, a, b, c, x[13], 0xfd98_7193, 12);
    c := Step(x, trace, 14, 0, c, d, a, b, x[14], 0xa679_438e, 17);
    b := Step(x, trace, 15, 0, b, c, d, a, x[15], 0x49b4_0821, 22);
    next := State(a, b, c, d);
  }

  method Lines16To23(x: seq<UInt32>, ghost trace: seq<State>, r: State) returns (next: State)
    requires IsTrace(x, trace) && trace[16] == r
    ensures next == trace[24]
  {
    var a, b, c, d := r.a, r.b, r.c, r.d;
    a := Step(x, trace, 16, 1, a, b, c, d, x[1], 0xf61e_2562, 5);
    d := Step(x, trace, 17, 1, d, a, b, c, x[6], 0xc040_b340, 9);
    c := Step(x, trace, 18, 1, c, d, a, b, x[11], 0x265e_5a51, 14);
    b := Step(x, trace, 19, 1, b, c, d, a, x[0], 0xe9b6_c7aa, 20);
    a := Step(x, trace, 20, 1, a, b, c, d, x[5], 0xd62f_105d, 5);
    d := Step(x, trace, 21, 1, d, a, b, c, x[10], 0x0244_1453, 9);
    c := Step(x, trace, 22, 1, c, d, a, b, x[15], 0xd8a1_e681, 14);
    b := Step(x, trace, 23, 1, b, c, d, a, x[4], 0xe7d3_fbc8, 20);
    next := State(a, b, c, d);
  }

  method Lines24To31(x: seq<UInt32>, ghost trace: seq<State>, r: State) returns (next: State)
    requires IsTrace(x, trace) && trace[24] == r
    ensures next == trace[32]
  {
    var a, b, c, d := r.a, r.b, r.c, r.d;
    a := Step(x, trace, 24, 1, a, b, c, d, x[9], 0x21e1_cde6, 5);
    d := Step(x, trace, 25, 1, d, a, b, c, x[14], 0xc337_07d6, 9);
    c := Step(x, trace, 26, 1, c, d, a, b, x[3], 0xf4d5_0d87, 14);
    b := Step(x, trace, 27, 1, b, c, d, a, x[8], 0x455a_14ed, 20);
    a := Step(x, trace, 28, 1, a, b, c, d, x[13], 0xa9e3_e905, 5);
    d := Step(x, trace, 29, 1, d, a, b, c, x[2], 0xfcef_a3f8, 9);
    c := Step(x, trace, 30, 1, c, d, a, b, x[7], 0x676f_02d9, 14);
    b := Step(x, trace, 31, 1, b, c, d, a, x[12], 0x8d2a_4c8a, 20);
    next := State(a, b, c, d);
  }

  method Lines32To39(x: seq<UInt32>, ghost trace: seq<State>, r: State) returns (next: State)
    requires IsTrace(x, trace) && trace[32] == r
    ensures next == trace[40]
  {
    var a, b, c, d := r.a, r.b, r.c, r.d;
    a := Step(x, trace, 32, 2, a, b, c, d, x[5], 0xfffa_3942, 4);
    d := Step(x, trace, 33, 2, d, a, b, c, x[8], 0x8771_f681, 11);
    c := Step(x, trace, 34, 2, c, d, a, b, x[11], 0x6d9d_6122, 16);
    b := Step(x, trace, 35, 2, b, c, d, a, x[14], 0xfde5_380c, 23);
    a := Step(x, trace, 36, 2, a, b, c, d, x[1], 0xa4be_ea44, 4);
    d := Step(x, trace, 37, 2, d, a, b, c, x[4], 0x4bde_cfa9, 11);
    c := Step(x, trace, 38, 2, c, d, a, b, x[7], 0xf6bb_4b60, 16);
    b := Step(x, trace, 39, 2, b, c, d, a, x[10], 0xbebf_bc70, 23);
    next := State(a, b, c, d);
  }

  method Lines40To47(x: seq<UInt32>, ghost trace: seq<State>, r: State) returns (next: State)
    requires IsTrace(x, trace) && trace[40] == r
    ensures next == trace[48]
  {
    var a, b, c, d := r.a, r.b, r.c, r.d;
    a := Step(x, trace, 40, 2, a, b, c, d, x[13], 0x289b_7ec6, 4);
    d := Step(x, trace, 41, 2, d, a, b, c, x[0], 0xeaa1_27fa, 11);
    c := Step(x, trace, 42, 2, c, d, a, b, x[3], 0xd4ef_3085, 16);
    b := Step(x, trace, 43, 2, b, c, d, a, x[6], 0x0488_1d05, 23);
    a := Step(x, trace, 44, 2, a, b, c, d, x[9], 0xd9d4_d039, 4);
    d := Step(x, trace, 45, 2, d, a, b, c, x[12], 0xe6db_99e5, 11);
    c := Step(x, trace, 46, 2, c, d, a, b, x[15], 0x1fa2_7cf8, 16);
    b := Step(x, trace, 47, 2, b, c, d, a, x[2], 0xc4ac_5665, 23);
    next := State(a, b, c, d);
  }

  method Lines48To55(x: seq<UInt32>, ghost trace: seq<State>, r: State) returns (next: State)
    requires IsTrace(x, trace) && trace[48] == r
    ensures next == trace[56]
  {
    var a, b, c, d := r.a, r.b, r.c, r.d;
    a := Step(x, trace, 48, 3, a, b, c, d, x[0], 0xf429_2244, 6);
    d := Step(x, trace, 49, 3, d, a, b, c, x[7], 0x432a_ff97, 10);
    c := Step(x, trace, 50, 3, c, d, a, b, x[14], 0xab94_23a7, 15);
    b := Step(x, trace, 51, 3, b, c, d, a, x[5], 0xfc93_a039, 21);
    a := Step(x, trace, 52, 3, a, b, c, d, x[12], 0x655b_59c3, 6);
    d := Step(x, trace, 53, 3, d, a, b, c, x[3], 0x8f0c_cc92, 10);
    c := Step(x, trace, 54, 3, c, d, a, b, x[10], 0xffef_f47d, 15);
    b := Step(x, trace, 55, 3, b, c, d, a, x[1], 0x8584_5dd1, 21);
    next := State(a, b, c, d);
  }

  method Lines56To63(x: seq<UInt32>, ghost trace: seq<State>, r: State) returns (next: State)
    requires IsTrace(x, trace) && trace[56] == r
    ensures next == trace[64]
  {
    var a, b, c, d := r.a, r.b, r.c, r.d;
    a := Step(x, trace, 56, 3, a, b, c, d, x[8], 0x6fa8_7e4f, 6);
    d := Step(x, trace, 57, 3, d, a, b, c, x[15], 0xfe2c_e6e0, 10);
    c := Step(x, trace, 58, 3, c, d, a, b, x[6], 0xa301_4314, 15);
    b := Step(x, trace, 59, 3, b, c, d, a, x[13], 0x4e08_11a1, 21);
    a := Step(x, trace, 60, 3, a, b, c, d, x[4], 0xf753_7e82, 6);
    d := Step(x, trace, 61, 3, d, a, b, c, x[11], 0xbd3a_f235, 10);
    c := Step(x, trace, 62, 3, c, d, a, b, x[2], 0x2ad7_d2bb, 15);
    b := Step(x, trace, 63, 3, b, c, d, a, x[9], 0xeb86_d391, 21);
    next := State(a, b, c, d);
  }

  /** MD5Transform. */
  method Transform(buf: State, block: seq<Byte>) returns (next: State)
    requires |block| == 64
    ensures next == Compress(buf, block)
  {
    var x := BlockWords(block);
    ghost var trace := Trace(x, buf);
    var r := buf;
    r := Lines0To7(x, trace, r);
    r := Lines8To15(x, trace, r);
    r := Lines16To23(x, trace, r);
    r := Lines24To31(x, trace, r);
    r := Lines32To39(x, trace, r);
    r := Lines40To47(x, trace, r);
    r := Lines48To55(x, trace, r);
    r := Lines56To63(x, trace, r);
    next := Add(buf, r);
  }
}
