/** What MD5 and SHA-1 have in common: a message is padded and absorbed in blocks of 64 bytes by a
    compression function.  Here that function is a parameter. */
module BlockHash {
  import opened Bytes

  /** Absorbs the complete blocks of data, in order. */
  function Absorb<S>(f: (S, seq<Byte>) -> S, s: S, data: seq<Byte>): S
    decreases |data|
  {
    if |data| < 64 then s else Absorb(f, f(s, data[..64]), data[64..])
  }

  /** The bytes behind the last complete block. */
  function Rest(data: seq<Byte>): (r: seq<Byte>)
    ensures |r| == |data| % 64
  {
    data[|data| - |data| % 64..]
  }

  /** The number of zero bytes between the 0x80 byte and the length (section 3.1 of RFC 1321,
      section 4 of RFC 3174): the least that leaves 8 bytes to the end of a block. */
  function PadZeros(n: nat): (z: nat)
    ensures z < 64 && (n + 1 + z) % 64 == 56
  {
    (119 - n % 64) % 64
  }

  function Zeros(n: nat): seq<Byte> { seq(n, _ => 0) }

  function Padded(msg: seq<Byte>, length: seq<Byte>): seq<Byte>
    requires |length| == 8
  {
    msg + [0x80] + Zeros(PadZeros(|msg|)) + length
  }

  /** Absorbing a concatenation is absorbing its parts, the rest of the first in front of the second. */
  lemma {:induction false} AbsorbConcat<S>(f: (S, seq<Byte>) -> S, s: S, a: seq<Byte>, b: seq<Byte>)
    ensures Absorb(f, s, a + b) == Absorb(f, Absorb(f, s, a), Rest(a) + b)
    decreases |a|
  {
    if |a| < 64 {
      assert Rest(a) == a;
    } else {
      AbsorbConcat(f, f(s, a[..64]), a[64..], b);
      SliceConcat(a, b);
      DropBlocks(a, 64);
    }
  }

  lemma SliceConcat(a: seq<Byte>, b: seq<Byte>)
    requires 64 <= |a|
    ensures (a + b)[..64] == a[..64] && (a + b)[64..] == a[64..] + b
  {
  }

  lemma RestConcat(a: seq<Byte>, b: seq<Byte>)
    ensures Rest(a + b) == Rest(Rest(a) + b)
  {
    var at := |a| - |a| % 64;
    assert (a + b)[at..] == Rest(a) + b;
    DropBlocks(a + b, at);
  }

  lemma DropBlocks(data: seq<Byte>, at: nat)
    requires at <= |data| && at % 64 == 0
    ensures Rest(data[at..]) == Rest(data)
  {
    var k := at / 64;
    SubtractBlocks(|data|, k);
    assert |data[at..]| % 64 == |data| % 64;
  }

  lemma SubtractBlocks(n: nat, k: nat)
    requires 64 * k <= n
    ensures (n - 64 * k) % 64 == n % 64
  {
  }

  lemma AbsorbOne<S>(f: (S, seq<Byte>) -> S, s: S, block: seq<Byte>)
    requires |block| == 64
    ensures Absorb(f, s, block) == f(s, block)
  {
    assert block[..64] == block && block[64..] == [];
  }

  /** If the rest of a message and the bytes that follow make up one block, that block is absorbed
      next and nothing is left over. */
  lemma AbsorbBlock<S>(f: (S, seq<Byte>) -> S, s: S, msg: seq<Byte>, more: seq<Byte>, block: seq<Byte>)
    requires block == Rest(msg) + more && |block| == 64
    ensures Absorb(f, s, msg + more) == f(Absorb(f, s, msg), block)
    ensures (|msg| + |more|) % 64 == 0
  {
    AbsorbConcat(f, s, msg, more);
    AbsorbOne(f, Absorb(f, s, msg), block);
    FillBlock(|msg|, |more|);
  }

  lemma FillBlock(n: nat, k: nat)
    requires n % 64 + k == 64
    ensures (n + k) % 64 == 0
  {
    assert n + k == 64 * (n / 64 + 1);
  }

  lemma AbsorbAligned<S>(f: (S, seq<Byte>) -> S, s: S, msg: seq<Byte>, block: seq<Byte>)
    requires |msg| % 64 == 0 && |block| == 64
    ensures Absorb(f, s, msg + block) == f(Absorb(f, s, msg), block)
  {
    AbsorbBlock(f, s, msg, block, block);
  }

  /** Fewer bytes than complete a block only lengthen the rest. */
  lemma AbsorbLess<S>(f: (S, seq<Byte>) -> S, s: S, msg: seq<Byte>, more: seq<Byte>)
    requires |Rest(msg)| + |more| < 64
    ensures Absorb(f, s, msg + more) == Absorb(f, s, msg)
    ensures Rest(msg + more) == Rest(msg) + more
  {
    AbsorbConcat(f, s, msg, more);
    RestConcat(msg, more);
    ShortRest(Rest(msg) + more);
  }

  lemma ShortRest(data: seq<Byte>)
    requires |data| < 64
    ensures Rest(data) == data
  {
  }

  // ----------------------------------------------------------------- the two-word counter


  /** lo and hi hold the length of the message in bits, modulo 2^64. */
  predicate Counts(lo: UInt32, hi: UInt32, n: nat) {
    lo + 0x1_0000_0000 * hi == 8 * n % 0x1_0000_0000_0000_0000
  }

  /** Adding len bytes: the low word takes 8 * len as far as 32 bits hold it and reports a carry by
      getting smaller, the high word takes the carry and the three bits that were shifted out. */
  function AddLow(lo: UInt32, len: UInt32): UInt32 { (lo + len * 8 % 0x1_0000_0000) % 0x1_0000_0000 }

  function AddCarry(lo: UInt32, hi: UInt32, len: UInt32): UInt32 {
    if AddLow(lo, len) < lo then (hi + 1) % 0x1_0000_0000 else hi
  }

  function AddHigh(lo: UInt32, hi: UInt32, len: UInt32): UInt32 {
    (AddCarry(lo, hi, len) + len / 0x2000_0000) % 0x1_0000_0000
  }

  lemma CounterAdds(lo: UInt32, hi: UInt32, n: nat, len: UInt32)
    requires Counts(lo, hi, n)
    ensures Counts(AddLow(lo, len), AddHigh(lo, hi, len), n + len)
  {
    var total := lo + 0x1_0000_0000 * hi;
    var low := len * 8 % 0x1_0000_0000;
    assert len * 8 == low + 0x1_0000_0000 * (len / 0x2000_0000);
    var carry := if AddLow(lo, len) < lo then 1 else 0;
    assert lo + low == AddLow(lo, len) + 0x1_0000_0000 * carry;
    var high := hi + carry + len / 0x2000_0000;
    assert total + 8 * len == AddLow(lo, len) + 0x1_0000_0000 * high;
    WrapHigh(AddLow(lo, len), high);
    WrapTwice(hi + carry, len / 0x2000_0000);
    ModAdd(8 * n, 8 * len);
  }

  lemma WrapHigh(lo: UInt32, high: nat)
    ensures lo + 0x1_0000_0000 * (high % 0x1_0000_0000) == (lo + 0x1_0000_0000 * high) % 0x1_0000_0000_0000_0000
  {
    var q := high / 0x1_0000_0000;
    assert lo + 0x1_0000_0000 * high == lo + 0x1_0000_0000 * (high % 0x1_0000_0000) + 0x1_0000_0000_0000_0000 * q;
  }

  lemma WrapTwice(x: nat, y: nat)
    ensures (x % 0x1_0000_0000 + y) % 0x1_0000_0000 == (x + y) % 0x1_0000_0000
  {
  }

  lemma ModAdd(x: nat, y: nat)
    ensures (x % 0x1_0000_0000_0000_0000 + y) % 0x1_0000_0000_0000_0000 == (x + y) % 0x1_0000_0000_0000_0000
  {
  }

  /** Bits 3 to 8 of the low word are the number of bytes behind the last complete block. */
  lemma CounterGivesRest(lo: UInt32, hi: UInt32, n: nat)
    requires Counts(lo, hi, n)
    ensures lo / 8 % 64 == n % 64
  {
    var q := 8 * n / 0x1_0000_0000_0000_0000;
    ThirdBitUp(lo, n, 0x80_0000 * hi + 0x80_0000_0000_0000 * q);
  }

  lemma ThirdBitUp(lo: nat, n: nat, m: nat)
    requires 8 * n == lo + 512 * m
    ensures lo / 8 % 64 == n % 64
  {
    assert lo / 8 == n - 64 * m;
    SubtractBlocks(n, m);
  }

  // ----------------------------------------------------------------- what a context represents

  /** A context whose chaining value, block buffer and counters are as given has taken in msg, from
      the initial chaining value iv on. */
  ghost predicate Holds<S>(f: (S, seq<Byte>) -> S, iv: S, msg: seq<Byte>,
                           state: S, buffer: seq<Byte>, lo: UInt32, hi: UInt32)
    requires |buffer| == 64
  {
    && state == Absorb(f, iv, msg)
    && buffer[..|msg| % 64] == Rest(msg)
    && Counts(lo, hi, |msg|)
  }

  /** However a message was split, the contexts that have taken it in agree: in the chaining value, in
      both counters and in the bytes that still count. */
  lemma SplitDoesNotMatter<S>(f: (S, seq<Byte>) -> S, iv: S, msg: seq<Byte>,
                              s: S, buffer: seq<Byte>, lo: UInt32, hi: UInt32,
                              t: S, other: seq<Byte>, lo': UInt32, hi': UInt32)
    requires |buffer| == |other| == 64
    requires Holds(f, iv, msg, s, buffer, lo, hi) && Holds(f, iv, msg, t, other, lo', hi')
    ensures s == t && lo == lo' && hi == hi' && buffer[..|msg| % 64] == other[..|msg| % 64]
  {
    SameWords(lo, hi, lo', hi');
  }

  lemma SameWords(lo: UInt32, hi: UInt32, lo': UInt32, hi': UInt32)
    requires lo + 0x1_0000_0000 * hi == lo' + 0x1_0000_0000 * hi'
    ensures lo == lo' && hi == hi'
  {
  }

  lemma HoldsNothing<S>(f: (S, seq<Byte>) -> S, iv: S, buffer: seq<Byte>)
    requires |buffer| == 64
    ensures Holds(f, iv, [], iv, buffer, 0, 0)
  {
    assert buffer[..0] == [];
  }

  /** Bytes that do not fill the buffer are kept in it, behind the rest that is there. */
  lemma BufferGrows<S>(f: (S, seq<Byte>) -> S, iv: S, msg: seq<Byte>, more: seq<Byte>, buffer: seq<Byte>)
    requires |msg| % 64 + |more| < 64 == |buffer|
    requires buffer[..|msg| % 64] == Rest(msg)
    requires buffer[|msg| % 64..|msg| % 64 + |more|] == more
    ensures Absorb(f, iv, msg + more) == Absorb(f, iv, msg)
    ensures buffer[..|msg + more| % 64] == Rest(msg + more)
  {
    AbsorbLess(f, iv, msg, more);
    RestInBuffer(msg, more, buffer, |msg| % 64);
  }

  lemma RestInBuffer(msg: seq<Byte>, more: seq<Byte>, buffer: seq<Byte>, at: nat)
    requires at == |msg| % 64 && at + |more| < 64 == |buffer|
    requires buffer[..at] == Rest(msg) && buffer[at..at + |more|] == more
    requires Rest(msg + more) == Rest(msg) + more
    ensures buffer[..|msg + more| % 64] == Rest(msg + more)
  {
    assert buffer[..at + |more|] == buffer[..at] + buffer[at..at + |more|];
  }

  /** Bytes that fill the buffer make up the next block. */
  lemma BufferFills<S>(f: (S, seq<Byte>) -> S, iv: S, msg: seq<Byte>, more: seq<Byte>, buffer: seq<Byte>)
    requires |msg| % 64 + |more| == 64 == |buffer|
    requires buffer[..|msg| % 64] == Rest(msg)
    requires buffer[|msg| % 64..] == more
    ensures Absorb(f, iv, msg + more) == f(Absorb(f, iv, msg), buffer)
    ensures |msg + more| % 64 == 0
  {
    assert buffer == Rest(msg) + more;
    AbsorbBlock(f, iv, msg, more, buffer);
  }

  /** A complete block of data behind complete blocks is the next block. */
  lemma NextBlock<S>(f: (S, seq<Byte>) -> S, iv: S, msg: seq<Byte>, data: seq<Byte>, at: nat)
    requires at + 64 <= |data|
    requires |msg + data[..at]| % 64 == 0
    ensures Absorb(f, iv, msg + data[..at + 64]) == f(Absorb(f, iv, msg + data[..at]), data[at..at + 64])
    ensures |msg + data[..at + 64]| % 64 == 0
  {
    assert msg + data[..at + 64] == msg + data[..at] + data[at..at + 64];
    AbsorbBlock(f, iv, msg + data[..at], data[at..at + 64], data[at..at + 64]);
  }

  /** What is left behind complete blocks starts the buffer. */
  lemma LastBytes<S>(f: (S, seq<Byte>) -> S, iv: S, msg: seq<Byte>, data: seq<Byte>, at: nat, buffer: seq<Byte>)
    requires at <= |data| < at + 64
    requires |msg + data[..at]| % 64 == 0
    requires |buffer| == 64 && buffer[..|data| - at] == data[at..]
    ensures Absorb(f, iv, msg + data) == Absorb(f, iv, msg + data[..at])
    ensures buffer[..|msg + data| % 64] == Rest(msg + data)
  {
    assert msg + data == msg + data[..at] + data[at..];
    AbsorbLess(f, iv, msg + data[..at], data[at..]);
  }

  /** Padding that reaches the end of the block it starts in. */
  lemma PadsInOneBlock<S>(f: (S, seq<Byte>) -> S, iv: S, msg: seq<Byte>, length: seq<Byte>, buffer: seq<Byte>)
    requires |length| == 8 && |buffer| == 64 && |msg| % 64 < 56
    requires buffer[..|msg| % 64] == Rest(msg)
    requires buffer[|msg| % 64..] == [0x80] + Zeros(55 - |msg| % 64) + length
    ensures Absorb(f, iv, Padded(msg, length)) == f(Absorb(f, iv, msg), buffer)
  {
    PaddedShort(msg, length);
    BufferFills(f, iv, msg, [0x80] + Zeros(55 - |msg| % 64) + length, buffer);
  }

  lemma PaddedShort(msg: seq<Byte>, length: seq<Byte>)
    requires |length| == 8 && |msg| % 64 < 56
    ensures Padded(msg, length) == msg + ([0x80] + Zeros(55 - |msg| % 64) + length)
  {
    PadZerosOf(|msg|);
    Associate(msg, [0x80], Zeros(55 - |msg| % 64), length);
  }

  lemma PaddedLong(msg: seq<Byte>, length: seq<Byte>)
    requires |length| == 8 && |msg| % 64 >= 56
    ensures Padded(msg, length) == msg + ([0x80] + Zeros(63 - |msg| % 64)) + (Zeros(56) + length)
  {
    PadZerosOf(|msg|);
    ZerosConcat(63 - |msg| % 64, 56);
    AssociateTwice(msg, [0x80], Zeros(63 - |msg| % 64), Zeros(56), length);
  }

  lemma Associate(a: seq<Byte>, b: seq<Byte>, c: seq<Byte>, d: seq<Byte>)
    ensures a + b + c + d == a + (b + c + d)
  {
  }

  lemma AssociateTwice(a: seq<Byte>, b: seq<Byte>, c: seq<Byte>, d: seq<Byte>, e: seq<Byte>)
    ensures a + b + (c + d) + e == a + (b + c) + (d + e)
  {
  }

  /** The pieces of a block whose padding ends in it. */
  lemma OneBlockPieces(buffer: seq<Byte>, count: nat, length: seq<Byte>)
    requires |buffer| == 64 && count < 56 && |length| == 8
    requires buffer[count] == 0x80 && buffer[count + 1..56] == Zeros(55 - count) && buffer[56..] == length
    ensures buffer[count..] == [0x80] + Zeros(55 - count) + length
  {
    assert buffer[count..] == [buffer[count]] + buffer[count + 1..56] + buffer[56..];
  }

  /** Padding that needs another block for the length. */
  lemma PadsInTwoBlocks<S>(f: (S, seq<Byte>) -> S, iv: S, msg: seq<Byte>, length: seq<Byte>, second: seq<Byte>)
    requires |length| == 8 && |msg| % 64 >= 56
    requires second == Zeros(56) + length
    ensures Absorb(f, iv, Padded(msg, length))
         == f(Absorb(f, iv, msg + ([0x80] + Zeros(63 - |msg| % 64))), second)
  {
    PaddedLong(msg, length);
    EndAligned(msg);
    AbsorbAligned(f, iv, msg + ([0x80] + Zeros(63 - |msg| % 64)), Zeros(56) + length);
  }

  lemma EndAligned(msg: seq<Byte>)
    ensures |msg + ([0x80] + Zeros(63 - |msg| % 64))| % 64 == 0
  {
    FillBlock(|msg|, 64 - |msg| % 64);
  }

  lemma PadZerosOf(n: nat)
    ensures n % 64 < 56 ==> PadZeros(n) == 55 - n % 64
    ensures n % 64 >= 56 ==> PadZeros(n) == 119 - n % 64
  {
  }

  lemma ZerosConcat(a: nat, b: nat)
    ensures Zeros(a) + Zeros(b) == Zeros(a + b)
  {
  }

  /** memcpy: the bytes of src go to dst from position at on. */
  method CopyBytes(dst: array<Byte>, at: nat, src: seq<Byte>)
    requires at + |src| <= dst.Length
    modifies dst
    ensures dst[..at] == old(dst[..at])
    ensures dst[at..at + |src|] == src
    ensures dst[at + |src|..] == old(dst[at + |src|..])
  {
    forall k | 0 <= k < |src| { dst[at + k] := src[k]; }
  }

  /** memset with zero. */
  method ClearBytes(dst: array<Byte>, at: nat, n: nat)
    requires at + n <= dst.Length
    modifies dst
    ensures dst[..at] == old(dst[..at])
    ensures dst[at..at + n] == Zeros(n)
    ensures dst[at + n..] == old(dst[at + n..])
  {
    forall k | 0 <= k < n { dst[at + k] := 0; }
  }
}
