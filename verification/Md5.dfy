/** MD5 over a stream of buffers (section 3 of RFC 1321).  The compression of one block is a
    parameter of the context; mg_md5 uses the one of Md5Block. */
module Md5 {
  import opened Bytes
  import opened BlockHash
  import Md5Block

  type State = Md5Block.State

  const INIT := Md5Block.State(0x67452301, 0xefcdab89, 0x98badcfe, 0x10325476)

  type Compression = (State, seq<Byte>) -> State

  function Output(s: State): seq<Byte> {
    Little(s.a, 4) + Little(s.b, 4) + Little(s.c, 4) + Little(s.d, 4)
  }

  /** The 64-bit length of the message in bits, least significant byte first. */
  function Length(n: nat): (s: seq<Byte>)
    ensures |s| == 8
  {
    Little(8 * n % 0x1_0000_0000_0000_0000, 8)
  }

  lemma LengthIsCounter(lo: UInt32, hi: UInt32, n: nat)
    requires Counts(lo, hi, n)
    ensures Length(n) == Little(lo, 4) + Little(hi, 4)
  {
    LittlePair(lo, hi);
  }

  /** The bytes the digest begins with, and where its words are put out: the least significant byte first. */
  lemma InitBytes()
    ensures INIT.a == FromLittle([0x01, 0x23, 0x45, 0x67]) && INIT.b == FromLittle([0x89, 0xab, 0xcd, 0xef])
    ensures INIT.c == FromLittle([0xfe, 0xdc, 0xba, 0x98]) && INIT.d == FromLittle([0x76, 0x54, 0x32, 0x10])
  {
    FromLittleFour(0x01, 0x23, 0x45, 0x67);
    FromLittleFour(0x89, 0xab, 0xcd, 0xef);
    FromLittleFour(0xfe, 0xdc, 0xba, 0x98);
    FromLittleFour(0x76, 0x54, 0x32, 0x10);
  }

  lemma OutputNumbers(s: State)
    ensures var out := Output(s);
            && |out| == 16 && FromLittle(out[..4]) == s.a && FromLittle(out[4..8]) == s.b
            && FromLittle(out[8..12]) == s.c && FromLittle(out[12..]) == s.d
  {
    var out := Output(s);
    assert out[..4] == Little(s.a, 4) && out[4..8] == Little(s.b, 4);
    assert out[8..12] == Little(s.c, 4) && out[12..] == Little(s.d, 4);
    WordInverts(s.a);
    WordInverts(s.b);
    WordInverts(s.c);
    WordInverts(s.d);
  }

  lemma WordInverts(w: UInt32)
    ensures FromLittle(Little(w, 4)) == w
  {
    Pow256Of4();
    FromLittleInverts(w, 4);
  }

  /** The definition: pad, absorb every block, put the chaining value out. */
  function Digest(f: Compression, msg: seq<Byte>): seq<Byte> {
    Output(Absorb(f, INIT, Padded(msg, Length(|msg|))))
  }

  /** What Update gets of a string: its length is cut to 32 bits. */
  function Taken(part: seq<Byte>): (r: seq<Byte>)
    ensures |r| < 0x1_0000_0000
    ensures |part| < 0x1_0000_0000 ==> r == part
  {
    part[..|part| % 0x1_0000_0000]
  }

  function Flatten(parts: seq<seq<Byte>>): seq<Byte>
    decreases |parts|
  {
    if parts == [] then [] else Flatten(parts[..|parts| - 1]) + Taken(parts[|parts| - 1])
  }

  lemma FlattenNext(parts: seq<seq<Byte>>, i: nat)
    requires i < |parts|
    ensures Flatten(parts[..i + 1]) == Flatten(parts[..i]) + Taken(parts[i])
  {
    assert parts[..i + 1][..i] == parts[..i];
  }

  class Context {
    const compress: Compression
    const buffer: array<Byte>
    var state: State
    var bits0: UInt32
    var bits1: UInt32

    /** The bytes taken in so far are msg. */
    ghost predicate Represents(msg: seq<Byte>)
      reads this, buffer
    {
      buffer.Length == 64 && Holds(compress, INIT, msg, state, buffer[..], bits0, bits1)
    }

    constructor (compress: Compression)
      ensures Represents([])
      ensures this.compress == compress
      ensures fresh(buffer)
    {
      this.compress := compress;
      buffer := new Byte[64];
      state := INIT;
      bits0 := 0;
      bits1 := 0;
      new;
      HoldsNothing(compress, INIT, buffer[..]);
    }

    /** The message length in the two counter words. */
    method Count(ghost n: nat, len: UInt32)
      requires Counts(bits0, bits1, n)
      modifies this`bits0, this`bits1
      ensures Counts(bits0, bits1, n + len)
    {
      var t := bits0;
      CounterAdds(t, bits1, n, len);
      bits0 := (t + len * 8 % 0x1_0000_0000) % 0x1_0000_0000;
      if bits0 < t {
        bits1 := (bits1 + 1) % 0x1_0000_0000;
      }
      bits1 := (bits1 + len / 0x2000_0000) % 0x1_0000_0000;
    }

    /** The start of Update: the buffer is completed first.  If the bytes do not reach, all of them
        are kept; otherwise the first at of them complete the block, which is absorbed. */
    method FillBuffer(ghost msg: seq<Byte>, t: nat, data: seq<Byte>) returns (full: bool, at: nat)
      requires t == |msg| % 64 != 0
      requires buffer.Length == 64 && buffer[..t] == Rest(msg)
      requires state == Absorb(compress, INIT, msg)
      modifies this`state, buffer
      ensures !full ==> buffer[..|msg + data| % 64] == Rest(msg + data)
      ensures !full ==> state == Absorb(compress, INIT, msg + data)
      ensures full ==> at <= |data| && |msg + data[..at]| % 64 == 0
      ensures full ==> state == Absorb(compress, INIT, msg + data[..at])
    {
      full, at := |data| >= 64 - t, 64 - t;
      if full {
        CopyBytes(buffer, t, data[..at]);
        BufferFills(compress, INIT, msg, data[..at], buffer[..]);
        state := compress(state, buffer[..]);
      } else {
        CopyBytes(buffer, t, data);
        BufferGrows(compress, INIT, msg, data, buffer[..]);
      }
    }

    /** The end of Update: complete blocks are absorbed from data, what is left stays in the buffer. */
    method Blocks(ghost msg: seq<Byte>, data: seq<Byte>, start: nat)
      requires start <= |data| && |msg + data[..start]| % 64 == 0
      requires buffer.Length == 64
      requires state == Absorb(compress, INIT, msg + data[..start])
      modifies this`state, buffer
      ensures buffer[..|msg + data| % 64] == Rest(msg + data)
      ensures state == Absorb(compress, INIT, msg + data)
    {
      var at := start;
      while |data| - at >= 64
        invariant at <= |data| && |msg + data[..at]| % 64 == 0
        invariant state == Absorb(compress, INIT, msg + data[..at])
      {
        CopyBytes(buffer, 0, data[at..at + 64]);
        assert buffer[..] == data[at..at + 64];
        NextBlock(compress, INIT, msg, data, at);
        state := compress(state, buffer[..]);
        at := at + 64;
      }
      CopyBytes(buffer, 0, data[at..]);
      LastBytes(compress, INIT, msg, data, at, buffer[..]);
    }

    /** MD5Update: whatever was taken in before, data now follows it. */
    method Update(ghost msg: seq<Byte>, data: seq<Byte>)
      requires |data| < 0x1_0000_0000
      requires Represents(msg)
      modifies this`state, this`bits0, this`bits1, buffer
      ensures Represents(msg + data)
    {
      var t := bits0 / 8 % 64;
      CounterGivesRest(bits0, bits1, |msg|);
      Count(|msg|, |data|);
      var at := 0;
      if t != 0 {
        var full;
        full, at := FillBuffer(msg, t, data);
        if !full {
          return;
        }
      } else {
        assert msg + data[..0] == msg;
      }
      Blocks(msg, data, at);
    }

    /** The loop of mg_md5: every string follows the ones before it. */
    method UpdateAll(parts: seq<seq<Byte>>)
      requires Represents([])
      modifies this`state, this`bits0, this`bits1, buffer
      ensures Represents(Flatten(parts))
    {
      ghost var msg := [];
      for i := 0 to |parts|
        invariant msg == Flatten(parts[..i])
        invariant Represents(msg)
      {
        var part := Taken(parts[i]);
        FlattenNext(parts, i);
        Update(msg, part);
        msg := msg + part;
      }
      assert parts[..|parts|] == parts;
    }

    /** The end of Final: the last block has room for the length, which is put at its end. */
    method AppendLength()
      requires buffer.Length == 64
      modifies buffer
      ensures buffer[..56] == old(buffer[..56])
      ensures buffer[56..] == Little(bits0, 4) + Little(bits1, 4)
    {
      CopyBytes(buffer, 56, Little(bits0, 4));
      CopyBytes(buffer, 60, Little(bits1, 4));
      assert buffer[56..] == buffer[56..60] + buffer[60..];
    }

    /** The middle of Final, where the length fits behind the 0x80 byte. */
    method PadOne(ghost msg: seq<Byte>, count: nat)
      requires count == |msg| % 64 < 56
      requires buffer.Length == 64 && buffer[..count] == Rest(msg)
      requires state == Absorb(compress, INIT, msg)
      modifies this`state, buffer
      ensures state == Absorb(compress, INIT, Padded(msg, Little(bits0, 4) + Little(bits1, 4)))
    {
      buffer[count] := 0x80;
      ClearBytes(buffer, count + 1, 55 - count);
      ghost var front := buffer[..56];
      assert front[count] == 0x80;
      AppendLength();
      assert buffer[..count] == front[..count];
      assert buffer[count + 1..56] == front[count + 1..];
      assert buffer[count] == front[count];
      OneBlockPieces(buffer[..], count, Little(bits0, 4) + Little(bits1, 4));
      PadsInOneBlock(compress, INIT, msg, Little(bits0, 4) + Little(bits1, 4), buffer[..]);
      state := compress(state, buffer[..]);
    }

    /** The middle of Final, where it does not: the block is completed with zeros ... */
    method EndBlock(ghost msg: seq<Byte>, count: nat)
      requires count == |msg| % 64
      requires buffer.Length == 64 && buffer[..count] == Rest(msg)
      requires state == Absorb(compress, INIT, msg)
      modifies this`state, buffer
      ensures state == Absorb(compress, INIT, msg + ([0x80] + Zeros(63 - count)))
    {
      buffer[count] := 0x80;
      ClearBytes(buffer, count + 1, 63 - count);
      assert buffer[count..] == [0x80] + buffer[count + 1..];
      BufferFills(compress, INIT, msg, [0x80] + Zeros(63 - count), buffer[..]);
      state := compress(state, buffer[..]);
    }

    /** ... and another block takes the length. */
    method PadTwo(ghost msg: seq<Byte>, count: nat)
      requires count == |msg| % 64 >= 56
      requires buffer.Length == 64 && buffer[..count] == Rest(msg)
      requires state == Absorb(compress, INIT, msg)
      modifies this`state, buffer
      ensures state == Absorb(compress, INIT, Padded(msg, Little(bits0, 4) + Little(bits1, 4)))
    {
      EndBlock(msg, count);
      ClearBytes(buffer, 0, 56);
      AppendLength();
      assert buffer[..] == buffer[..56] + buffer[56..];
      PadsInTwoBlocks(compress, INIT, msg, Little(bits0, 4) + Little(bits1, 4), buffer[..]);
      state := compress(state, buffer[..]);
    }

    /** The end of Final. */
    method Wipe()
      requires buffer.Length == 64
      modifies this`state, this`bits0, this`bits1, buffer
      ensures state == Md5Block.State(0, 0, 0, 0) && bits0 == bits1 == 0 && buffer[..] == Zeros(64)
    {
      state := Md5Block.State(0, 0, 0, 0);
      bits0, bits1 := 0, 0;
      ClearBytes(buffer, 0, 64);
    }

    /** MD5Final: the digest of everything that was taken in.  The context is wiped. */
    method Final(ghost msg: seq<Byte>) returns (digest: seq<Byte>)
      requires Represents(msg)
      modifies this`state, this`bits0, this`bits1, buffer
      ensures digest == Digest(compress, msg)
      ensures state == Md5Block.State(0, 0, 0, 0) && bits0 == bits1 == 0 && buffer[..] == Zeros(64)
    {
      var count := bits0 / 8 % 64;
      CounterGivesRest(bits0, bits1, |msg|);
      if 63 - count < 8 {
        PadTwo(msg, count);
      } else {
        PadOne(msg, count);
      }
      LengthIsCounter(bits0, bits1, |msg|);
      digest := Output(state);
      Wipe();
    }
  }

  // ----------------------------------------------------------------- mg_md5

  /** The compression of MD5. */
  const MD5: Compression := (h, block) => if |block| == 64 then Md5Block.Compress(h, block) else h

  const HEX: string := "0123456789abcdef"

  function Hex(s: seq<Byte>): (r: string)
    ensures |r| == 2 * |s|
    decreases |s|
  {
    if s == [] then [] else [HEX[s[0] / 16], HEX[s[0] % 16]] + Hex(s[1..])
  }

  /** Two digits for every byte, the higher one first, letters in lower case. */
  lemma {:induction false} HexDigits(s: seq<Byte>, i: nat)
    requires i < |s|
    ensures Hex(s)[2 * i] == Digit(s[i] / 16) && Hex(s)[2 * i + 1] == Digit(s[i] % 16)
    decreases |s|
  {
    HexOf(s[0]);
    if i > 0 {
      HexDigits(s[1..], i - 1);
    }
  }

  lemma HexOf(b: Byte)
    ensures HEX[b / 16] == Digit(b / 16) && HEX[b % 16] == Digit(b % 16)
  {
  }

  function Digit(v: nat): char
    requires v < 16
  {
    if v < 10 then '0' + v as char else 'a' + (v - 10) as char
  }

  /** bin2str. */
  method BinToString(s: seq<Byte>) returns (to: string)
    ensures to == Hex(s)
  {
    to := [];
    var i := 0;
    while i < |s|
      invariant i <= |s|
      invariant to + Hex(s[i..]) == Hex(s)
    {
      assert s[i..][1..] == s[i + 1..];
      to := to + [HEX[s[i] / 16], HEX[s[i] % 16]];
      i := i + 1;
    }
  }

  /** mg_md5: the digest, in hexadecimal, of the strings one behind the other. */
  method Md5OfParts(parts: seq<seq<Byte>>) returns (text: string)
    ensures text == Hex(Digest(MD5, Flatten(parts)))
  {
    var ctx := new Context(MD5);
    ctx.UpdateAll(parts);
    var hash := ctx.Final(Flatten(parts));
    text := BinToString(hash);
  }
}
