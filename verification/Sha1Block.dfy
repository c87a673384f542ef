/** SHA1Transform: one block of SHA-1 on 32-bit words, against section 6.1 of RFC 3174. */
module Sha1Block {
  import opened Bytes
  import opened Sha1Schedule
  import Bits
  import opened Words

  // ----------------------------------------------------------------- RFC 3174

  function Xor4(a: UInt32, b: UInt32, c: UInt32, d: UInt32): UInt32 {
    XorFits(a, b);
    XorFits(Bits.Xor(a, b), c);
    XorFits(Bits.Xor(Bits.Xor(a, b), c), d);
    Bits.Xor(Bits.Xor(Bits.Xor(a, b), c), d)
  }

  function Mix(w3: UInt32, w8: UInt32, w14: UInt32, w16: UInt32): UInt32 { Rol(Xor4(w3, w8, w14, w16), 1) }

  function Rol5(x: UInt32): UInt32 { Rol(x, 5) }

  function Rol30(x: UInt32): UInt32 { Rol(x, 30) }

  function Choice(b: bv32, c: bv32, d: bv32): bv32 { (b & c) | (!b & d) }

  function Parity(b: bv32, c: bv32, d: bv32): bv32 { b ^ c ^ d }

  function Majority(b: bv32, c: bv32, d: bv32): bv32 { (b & c) | (b & d) | (c & d) }

  /** Section 5. */
  function FBits(t: nat, b: bv32, c: bv32, d: bv32): bv32 {
    if t < 20 then Choice(b, c, d)
    else if t < 40 then Parity(b, c, d)
    else if t < 60 then Majority(b, c, d)
    else Parity(b, c, d)
  }

  function F(t: nat, b: UInt32, c: UInt32, d: UInt32): UInt32 { FBits(t, b as bv32, c as bv32, d as bv32) as int }

  function K(t: nat): UInt32 {
    if t < 20 then 0x5A827999 else if t < 40 then 0x6ED9EBA1 else if t < 60 then 0x8F1BBCDC else 0xCA62C1D6
  }

  function BigWord(b0: bv8, b1: bv8, b2: bv8, b3: bv8): bv32 {
    ((b0 as bv32) << 24) | ((b1 as bv32) << 16) | ((b2 as bv32) << 8) | (b3 as bv32)
  }

  /** Word i of a block: its bytes come the most significant first. */
  function RfcWord(block: seq<Byte>, i: nat): UInt32
    requires |block| == 64 && i < 16
  {
    BigWord(block[4 * i] as bv8, block[4 * i + 1] as bv8, block[4 * i + 2] as bv8, block[4 * i + 3] as bv8) as int
  }

  // ----------------------------------------------------------------- the program

  /** The logical functions as R0 to R4 write them. */
  function CodeFBits(i: nat, w: bv32, x: bv32, y: bv32): bv32 {
    if i < 20 then (w & (x ^ y)) ^ y
    else if i < 40 then w ^ x ^ y
    else if i < 60 then ((w | x) & y) | (w & x)
    else w ^ x ^ y
  }

  function CodeF(i: nat, w: UInt32, x: UInt32, y: UInt32): UInt32 {
    CodeFBits(i, w as bv32, x as bv32, y as bv32) as int
  }

  /** blk0 on a little-endian host. */
  function Swap(x: bv32): bv32 {
    (((x << 24) | (x >> 8)) & 0xFF00FF00) | (((x << 8) | (x >> 24)) & 0x00FF00FF)
  }

  function SwapWord(x: UInt32): UInt32 { Swap(x as bv32) as int }

  function HostWord(b0: bv8, b1: bv8, b2: bv8, b3: bv8): bv32 {
    (b0 as bv32) | ((b1 as bv32) << 8) | ((b2 as bv32) << 16) | ((b3 as bv32) << 24)
  }

  /** What a little-endian host reads from word i of a block. */
  function CodeWord(block: seq<Byte>, i: nat): UInt32
    requires |block| == 64 && i < 16
  {
    HostWord(block[4 * i] as bv8, block[4 * i + 1] as bv8, block[4 * i + 2] as bv8, block[4 * i + 3] as bv8) as int
  }

  lemma ChoiceAgrees(w: bv32, x: bv32, y: bv32)
    ensures (w & (x ^ y)) ^ y == Choice(w, x, y)
  {
  }

  lemma MajorityAgrees(w: bv32, x: bv32, y: bv32)
    ensures ((w | x) & y) | (w & x) == Majority(w, x, y)
  {
  }

  lemma SwapLoads(b0: bv8, b1: bv8, b2: bv8, b3: bv8)
    ensures Swap(HostWord(b0, b1, b2, b3)) == BigWord(b0, b1, b2, b3)
  {
  }

  lemma BitsAgree(i: nat, w: bv32, x: bv32, y: bv32)
    ensures CodeFBits(i, w, x, y) == FBits(i, w, x, y)
  {
    ChoiceAgrees(w, x, y);
    MajorityAgrees(w, x, y);
  }

  lemma FunctionsAgree(i: nat, w: UInt32, x: UInt32, y: UInt32)
    ensures CodeF(i, w, x, y) == F(i, w, x, y)
  {
    BitsAgree(i, w as bv32, x as bv32, y as bv32);
  }

  /** The swapped words of the host are the words of RFC 3174. */
  lemma WordsAgree(block: seq<Byte>, i: nat)
    requires |block| == 64 && i < 16
    ensures SwapWord(CodeWord(block, i)) == RfcWord(block, i)
  {
    SwapLoads(block[4 * i] as bv8, block[4 * i + 1] as bv8, block[4 * i + 2] as bv8, block[4 * i + 3] as bv8);
  }

  // ----------------------------------------------------------------- the operations, bit by bit

  /** A bit of the new word is the exclusive or of the bit before it in the four words. */
  lemma MixBit(w3: UInt32, w8: UInt32, w14: UInt32, w16: UInt32, j: nat)
    requires j < 32
    ensures Bits.Bit(Mix(w3, w8, w14, w16), if j < 31 then j + 1 else 0)
         == (Bits.Bit(w3, j) != (Bits.Bit(w8, j) != (Bits.Bit(w14, j) != Bits.Bit(w16, j))))
  {
    BitOfRol(Xor4(w3, w8, w14, w16), 1, j);
    Xor4Bit(w3, w8, w14, w16, j);
  }

  lemma Xor4Bit(a: UInt32, b: UInt32, c: UInt32, d: UInt32, j: nat)
    ensures Bits.Bit(Xor4(a, b, c, d), j)
         == (Bits.Bit(a, j) != (Bits.Bit(b, j) != (Bits.Bit(c, j) != Bits.Bit(d, j))))
  {
    BitOfXor(a, b, j);
    BitOfXor(Bits.Xor(a, b), c, j);
    BitOfXor(Bits.Xor(Bits.Xor(a, b), c), d, j);
  }

  /** Bits move up by 5 and by 30 places, counted round the word. */
  lemma RotationBit(x: UInt32, j: nat)
    requires j < 32
    ensures Bits.Bit(Rol5(x), if j < 27 then j + 5 else j - 27) == Bits.Bit(x, j)
    ensures Bits.Bit(Rol30(x), if j < 2 then j + 30 else j - 2) == Bits.Bit(x, j)
  {
    BitOfRol(x, 5, j);
    BitOfRol(x, 30, j);
  }

  /** The constants are 2^30 times the roots of 2, 3, 5 and 10, rounded down. */
  lemma ConstantsAreRoots(t: nat)
    ensures var n := if t < 20 then 2 else if t < 40 then 3 else if t < 60 then 5 else 10;
            K(t) * K(t) <= n * 0x1000_0000_0000_0000 < (K(t) + 1) * (K(t) + 1)
  {
  }

  const OPS: Ops<UInt32> := Ops(Mix, F, CodeF, K, Plus, Rol5, Rol30, SwapWord)

  lemma OpsAreLawful()
    ensures OPS.Lawful()
  {
    forall x, y ensures OPS.plus(x, y) == OPS.plus(y, x) {
    }
    forall x, y, z ensures OPS.plus(OPS.plus(x, y), z) == OPS.plus(x, OPS.plus(y, z)) {
      PlusAssociates(x, y, z);
    }
    forall t, x, y, z ensures OPS.codeF(t, x, y, z) == OPS.f(t, x, y, z) {
      FunctionsAgree(t, x, y, z);
    }
  }

  /** The operations as RFC 3174 writes them; its words need no loading. */
  const RFC_OPS: Ops<UInt32> := Ops(Mix, F, F, K, Plus, Rol5, Rol30, x => x)

  function RfcWords(block: seq<Byte>): (words: seq<UInt32>)
    requires |block| == 64
  {
    seq(16, i requires 0 <= i < 16 => RfcWord(block, i))
  }

  function CodeWords(block: seq<Byte>): (words: seq<UInt32>)
    requires |block| == 64
  {
    seq(16, i requires 0 <= i < 16 => CodeWord(block, i))
  }

  function Add(h: Registers<UInt32>, r: Registers<UInt32>): Registers<UInt32> {
    Registers(Plus(h.a, r.a), Plus(h.b, r.b), Plus(h.c, r.c), Plus(h.d, r.d), Plus(h.e, r.e))
  }

  /** Section 6.1: what a block makes of the five words of the hash. */
  function Compress(h: Registers<UInt32>, block: seq<Byte>): Registers<UInt32>
    requires |block| == 64
  {
    Add(h, Rounds(RFC_OPS, Schedule(RFC_OPS, RfcWords(block), 80), h, 80))
  }

  lemma {:induction false} SchedulesAgree(block: seq<Byte>, n: nat)
    requires |block| == 64
    ensures Schedule(OPS, CodeWords(block), n) == Schedule(RFC_OPS, RfcWords(block), n)
  {
    if n > 0 {
      SchedulesAgree(block, n - 1);
      if n <= 16 {
        WordsAgree(block, n - 1);
      }
    }
  }

  /** SHA1Transform. */
  method Transform(h: Registers<UInt32>, buffer: seq<Byte>) returns (next: Registers<UInt32>)
    requires |buffer| == 64
    ensures next == Compress(h, buffer)
  {
    var l := new UInt32[16](i requires 0 <= i < 16 => CodeWord(buffer, i));
    assert l[..] == CodeWords(buffer);
    OpsAreLawful();
    SchedulesAgree(buffer, 80);
    SameRounds(OPS, RFC_OPS, Schedule(OPS, CodeWords(buffer), 80), h, 80);
    var r := AllLines(OPS, l, h);
    next := Add(h, r);
  }
}
