/** SHA-1 over a stream of buffers (section 4 of RFC 3174).  As in Md5, the compression of one block
    is a parameter of the context; Sha1Block has the one that SHA-1 uses. */
module Sha1 {
  import opened Bytes
  import opened BlockHash
  import opened Sha1Schedule
  import Sha1Block

  type State = Registers<UInt32>

  type Compression = (State, seq<Byte>) -> State

  const INIT: State := Registers(0x67452301, 0xEFCDAB89, 0x98BADCFE, 0x10325476, 0xC3D2E1F0)

  function Output(s: State): seq<Byte> {
    Big(s.a, 4) + Big(s.b, 4) + Big(s.c, 4) + Big(s.d, 4) + Big(s.e, 4)
  }

  /** The 64-bit length of the message in bits, most significant byte first. */
  function Length(n: nat): (s: seq<Byte>)
    ensures |s| == 8
  {
    Big(8 * n % 0x1_0000_0000_0000_0000, 8)
  }

  lemma LengthIsCounter(lo: UInt32, hi: UInt32, n: nat)
    requires Counts(lo, hi, n)
    ensures Length(n) == Big(hi, 4) + Big(lo, 4)
  {
    BigPair(lo, hi);
  }

  /** The words the hash begins with, byte by byte. */
  lemma InitBytes()
    ensures WordBytes(INIT.a) == [0x67, 0x45, 0x23, 0x01] && WordBytes(INIT.b) == [0xef, 0xcd, 0xab, 0x89]
    ensures WordBytes(INIT.c) == [0x98, 0xba, 0xdc, 0xfe] && WordBytes(INIT.d) == [0x10, 0x32, 0x54, 0x76]
    ensures WordBytes(INIT.e) == [0xc3, 0xd2, 0xe1, 0xf0]
  {
  }

  /** The hash is put out word by word, each with its most significant byte first. */
  lemma OutputBytes(s: State)
    ensures Output(s) == WordBytes(s.a) + WordBytes(s.b) + WordBytes(s.c) + WordBytes(s.d) + WordBytes(s.e)
  {
    BytesOf(s.a);
    BytesOf(s.b);
    BytesOf(s.c);
    BytesOf(s.d);
    BytesOf(s.e);
  }

  /** The definition: pad, absorb every block, put the hash out. */
  function Digest(f: Compression, msg: seq<Byte>): seq<Byte> {
    Output(Absorb(f, INIT, Padded(msg, Length(|msg|))))
  }

  /** Byte i of a word, counted from the most significant. */
  function ByteOf(w: UInt32, i: nat): Byte
    requires i < 4
  {
    (if i == 0 then w / 0x100_0000 else if i == 1 then w / 0x1_0000 else if i == 2 then w / 0x100 else w) % 256
  }

  function WordBytes(w: UInt32): seq<Byte> { [ByteOf(w, 0), ByteOf(w, 1), ByteOf(w, 2), ByteOf(w, 3)] }

  lemma BytesOf(w: UInt32)
    ensures WordBytes(w) == Big(w, 4)
  {
    BigOfTwo(w, w / 256, w / 0x1_0000, 2);
    BigOfTwo(w / 0x1_0000, w / 0x100_0000, w / 0x100_0000 / 256, 0);
    Quarters(w);
  }

  lemma BigOfTwo(n: nat, a: nat, b: nat, k: nat)
    requires n / 256 == a && a / 256 == b
    ensures Big(n, k + 2) == Big(b, k) + [a % 256, n % 256]
  {
    assert Big(a, k + 1) == Big(b, k) + [a % 256];
  }

  lemma Quarters(w: UInt32)
    ensures w / 256 / 256 == w / 0x1_0000 && w / 0x1_0000 / 256 == w / 0x100_0000
  {
  }

  /** Zero bytes are appended as long as the length would not end a block. */
  lemma PadsUntil56(n: nat, k: nat)
    requires k <= PadZeros(n)
    ensures (n + 1 + k) % 64 == 56 <==> k == PadZeros(n)
  {
    var z := PadZeros(n);
    if (n + 1 + k) % 64 == 56 {
      assert (n + 1 + z) / 64 == (n + 1 + k) / 64;
    }
  }

  /** The last loop of SHA1Final. */
  method PutOut(s: State) returns (digest: seq<Byte>)
    ensures digest == Output(s)
  {
    BytesOf(s.a);
    BytesOf(s.b);
    BytesOf(s.c);
    BytesOf(s.d);
    BytesOf(s.e);
    digest := WordBytes(s.a) + WordBytes(s.b) + WordBytes(s.c) + WordBytes(s.d) + WordBytes(s.e);
  }

  class Context {
    const compress: Compression
    const buffer: array<Byte>
    var state: State
    var count0: UInt32
    var count1: UInt32

    /** The bytes taken in so far are msg. */
    ghost predicate Represents(msg: seq<Byte>)
      reads this, buffer
    {
      buffer.Length == 64 && Holds(compress, INIT, msg, state, buffer[..], count0, count1)
    }

    constructor (compress: Compression)
      ensures Represents([])
      ensures this.compress == compress
      ensures fresh(buffer)
    {
      this.compress := compress;
      buffer := new Byte[64];
      state := INIT;
      count0 := 0;
      count1 := 0;
      new;
      HoldsNothing(compress, INIT, buffer[..]);
    }

    /** The message length in the two counter words. */
    method Count(ghost n: nat, len: UInt32)
      requires Counts(count0, count1, n)
      modifies this`count0, this`count1
      ensures Counts(count0, count1, n + len)
    {
      var j := count0;
      CounterAdds(j, count1, n, len);
      count0 := (j + len * 8 % 0x1_0000_0000) % 0x1_0000_0000;
      if count0 < j {
        count1 := (count1 + 1) % 0x1_0000_0000;
      }
      count1 := (count1 + len / 0x2000_0000) % 0x1_0000_0000;
    }

    /** The part of SHA1Update that completes the buffer and takes further blocks from data itself;
        the index i of the next byte is a 32-bit number that never wraps. */
    method Blocks(ghost msg: seq<Byte>, j: nat, data: seq<Byte>) returns (i: nat)
      requires j == |msg| % 64 && 63 < j + |data| < 0x1_0000_0000
      requires buffer.Length == 64 && buffer[..j] == Rest(msg)
      requires state == Absorb(compress, INIT, msg)
      modifies this`state, buffer
      ensures i <= |data| <= i + 63 && |msg + data[..i]| % 64 == 0
      ensures state == Absorb(compress, INIT, msg + data[..i])
    {
      i := 64 - j;
      CopyBytes(buffer, j, data[..i]);
      BufferFills(compress, INIT, msg, data[..i], buffer[..]);
      state := compress(state, buffer[..]);
      while (i + 63) % 0x1_0000_0000 < |data|
        invariant i <= |data| && i + 63 < 0x1_0000_0000
        invariant (i + j) % 64 == 0 && |msg + data[..i]| % 64 == 0
        invariant state == Absorb(compress, INIT, msg + data[..i])
      {
        NextBlock(compress, INIT, msg, data, i);
        state := compress(state, data[i..i + 64]);
        i := i + 64;
        RoomForNext(i, j, |data|);
      }
    }

    /** The part of SHA1Update behind the counters. */
    method TakeIn(ghost msg: seq<Byte>, j: nat, data: seq<Byte>)
      requires j == |msg| % 64 && j + |data| < 0x1_0000_0000
      requires buffer.Length == 64 && buffer[..j] == Rest(msg)
      requires state == Absorb(compress, INIT, msg)
      modifies this`state, buffer
      ensures state == Absorb(compress, INIT, msg + data)
      ensures buffer[..|msg + data| % 64] == Rest(msg + data)
    {
      BranchIsRight(j, |data|);
      if TakesBlocks(j, |data|) {
        var i := Blocks(msg, j, data);
        CopyBytes(buffer, 0, data[i..]);
        LastBytes(compress, INIT, msg, data, i, buffer[..]);
      } else {
        CopyBytes(buffer, j, data);
        BufferGrows(compress, INIT, msg, data, buffer[..]);
      }
    }

    /** SHA1Update: whatever was taken in before, data now follows it.  The sum j + len must not
        exceed 32 bits: it decides whether a block is complete (see BranchIsRight). */
    method Update(ghost msg: seq<Byte>, data: seq<Byte>)
      requires |msg| % 64 + |data| < 0x1_0000_0000
      requires Represents(msg)
      modifies this`state, this`count0, this`count1, buffer
      ensures Represents(msg + data)
    {
      var j := count0 / 8 % 64;
      CounterGivesRest(count0, count1, |msg|);
      Count(|msg|, |data|);
      TakeIn(msg, j, data);
    }

    /** The loop of SHA1Final: zero bytes up to 8 bytes before the end of a block.  The masks 504 and
        448 on the low counter word look at the number of bytes in the buffer, and at 56. */
    method AppendZeros(ghost msg: seq<Byte>)
      requires Represents(msg + [0x80])
      modifies this`state, this`count0, this`count1, buffer
      ensures Represents(msg + [0x80] + Zeros(PadZeros(|msg|)))
    {
      ghost var k := 0;
      assert msg + [0x80] + Zeros(0) == msg + [0x80];
      CounterGivesRest(count0, count1, |msg| + 1);
      PadsUntil56(|msg|, 0);
      while count0 / 8 % 64 != 56
        invariant k <= PadZeros(|msg|)
        invariant count0 / 8 % 64 != 56 <==> k < PadZeros(|msg|)
        invariant Represents(msg + [0x80] + Zeros(k))
        decreases PadZeros(|msg|) - k
      {
        Update(msg + [0x80] + Zeros(k), [0]);
        OneMoreZero(msg, k);
        k := k + 1;
        CounterGivesRest(count0, count1, |msg| + 1 + k);
        PadsUntil56(|msg|, k);
      }
    }

    /** SHA1Final: the digest of everything that was taken in.  The context is wiped. */
    method Final(ghost msg: seq<Byte>) returns (digest: seq<Byte>)
      requires Represents(msg)
      modifies this`state, this`count0, this`count1, buffer
      ensures digest == Digest(compress, msg)
      ensures state == Registers(0, 0, 0, 0, 0) && count0 == count1 == 0 && buffer[..] == Zeros(64)
    {
      var c0, c1 := count0, count1;
      var finalcount := WordBytes(c1) + WordBytes(c0);
      BytesOf(c0);
      BytesOf(c1);
      LengthIsCounter(c0, c1, |msg|);
      Update(msg, [0x80]);
      AppendZeros(msg);
      Update(msg + [0x80] + Zeros(PadZeros(|msg|)), finalcount);
      digest := PutOut(state);
      Wipe();
    }

    method Wipe()
      requires buffer.Length == 64
      modifies this`state, this`count0, this`count1, buffer
      ensures state == Registers(0, 0, 0, 0, 0) && count0 == count1 == 0 && buffer[..] == Zeros(64)
    {
      state := Registers(0, 0, 0, 0, 0);
      count0, count1 := 0, 0;
      ClearBytes(buffer, 0, 64);
    }
  }

  lemma OneMoreZero(msg: seq<Byte>, k: nat)
    ensures msg + [0x80] + Zeros(k) + [0] == msg + [0x80] + Zeros(k + 1)
  {
    assert Zeros(k) + [0] == Zeros(k + 1);
  }

  lemma RoomForNext(i: nat, j: nat, len: nat)
    requires (i + j) % 64 == 0 && i <= len && j + len < 0x1_0000_0000
    ensures i + 63 < 0x1_0000_0000
  {
  }

  /** The test of SHA1Update for a complete block, with j bytes in the buffer. */
  predicate TakesBlocks(j: nat, len: UInt32) { (j + len) % 0x1_0000_0000 > 63 }

  /** The test tells whether a block is complete, and the other branch copies no more than the buffer
      holds, exactly if the sum fits 32 bits. */
  lemma BranchIsRight(j: nat, len: UInt32)
    requires j < 64
    ensures (TakesBlocks(j, len) <==> j + len > 63) <==> j + len < 0x1_0000_0000
    ensures (!TakesBlocks(j, len) ==> j + len <= 64) <==> j + len < 0x1_0000_0000
  {
  }

  /** One byte in the buffer and the greatest length there is: the copy goes far past the 64 bytes. */
  lemma LongestUpdateOverruns()
    ensures !TakesBlocks(1, 0xffff_ffff) && 1 + 0xffff_ffff > 64
  {
  }

  /** The compression of SHA-1. */
  const SHA1: Compression := (h, block) => if |block| == 64 then Sha1Block.Compress(h, block) else h

  /** The hash of the key in the WebSocket handshake. */
  method HashKey(key: seq<Byte>) returns (digest: seq<Byte>)
    requires |key| < 0x1_0000_0000
    ensures digest == Digest(SHA1, key)
  {
    var ctx := new Context(SHA1);
    ctx.Update([], key);
    assert [] + key == key;
    digest := ctx.Final(key);
  }
}
