/** Variable-length integers (third-party/base/varint.h).

    The reference is the usual loop: seven bits at a time, lowest first, with the top bit of every
    byte but the last set.  The writers find the length first, by a search tree, and store the
    bytes from the last to the first; the readers are ten lines each.

    Registers are natural numbers below a power of two.  A right shift is a division, a left shift
    a multiplication followed by the truncation of the register, the mask 0x7F a remainder, and an
    or of operands without a common bit a sum. */
module Varint {
  import opened Bytes

  type UInt64 = x: int | 0 <= x < 0x1_0000_0000_0000_0000

  function Cast32(x: nat): UInt32 { x % 0x1_0000_0000 }
  function Cast64(x: nat): UInt64 { x % 0x1_0000_0000_0000_0000 }

  /** static_cast<uint8>(x | 0x80) */
  function WithTopBit(x: nat): Byte { x % 128 + 128 }

  /** b & 0x7F */
  function LowSeven(b: int): (r: nat)
    requires 0 <= b < 256
    ensures r < 128
  {
    b % 128
  }

  /** b & 0x80 */
  predicate Continues(b: Byte) { b >= 128 }

  // ------------------------------------------------------------------------ the reference

  function Loop(v: nat): seq<Byte> {
    if v < 128 then [v] else [WithTopBit(v)] + Loop(v / 128)
  }

  /** The number that bytes stand for, lowest group first. */
  function Value(s: seq<Byte>): nat {
    if s == [] then 0 else LowSeven(s[0]) + 128 * Value(s[1..])
  }

  /** The number that starts at the beginning of s ends with the byte at position e. */
  predicate EndsAt(s: seq<Byte>, e: int) {
    0 <= e < |s| && !Continues(s[e]) && forall k :: 0 <= k < e ==> Continues(s[k])
  }

  /** The lowest seven bits come first, with 128 added to them if there are more. */
  lemma LoopIs(v: nat)
    ensures v < 128 ==> Loop(v) == [v]
    ensures v >= 128 ==> Loop(v)[0] == v % 128 + 128 && Loop(v)[1..] == Loop(v / 128)
  {
  }

  /** The reference encoding is self-delimiting and stands for the number it was made from. */
  lemma {:induction false} LoopRoundTrip(v: nat)
    ensures EndsAt(Loop(v), |Loop(v)| - 1) && Value(Loop(v)) == v
  {
    if v < 128 {
      OneRoundTrip(v);
    } else {
      LoopRoundTrip(v / 128);
      SevenBits(v);
      FrontRoundTrip(WithTopBit(v), Loop(v / 128), v / 128, v % 128);
    }
  }

  lemma OneRoundTrip(v: nat)
    requires v < 128
    ensures EndsAt(Loop(v), |Loop(v)| - 1) && Value(Loop(v)) == v
  {
    assert Loop(v)[1..] == [];
  }

  lemma SevenBits(v: nat)
    ensures v == 128 * (v / 128) + v % 128 && WithTopBit(v) == v % 128 + 128
    ensures v >= 128 ==> Loop(v) == [WithTopBit(v)] + Loop(v / 128)
  {
  }

  lemma FrontRoundTrip(b: Byte, rest: seq<Byte>, high: nat, low: nat)
    requires b == low + 128 && low < 128
    requires EndsAt(rest, |rest| - 1) && Value(rest) == high
    ensures EndsAt([b] + rest, |rest|) && Value([b] + rest) == 128 * high + low
  {
    var s := [b] + rest;
    assert s[1..] == rest && LowSeven(b) == low;
    forall k | 0 <= k < |rest| ensures Continues(s[k]) {
      assert k > 0 ==> s[k] == rest[k - 1];
    }
  }

  // ------------------------------------------------------------------------- its length

  /** 2 to the power 7n. */
  function Bound(n: nat): nat { if n == 0 then 1 else 128 * Bound(n - 1) }

  /** v needs exactly n groups of seven bits. */
  predicate NeedsGroups(v: nat, n: nat) {
    n >= 1 && v < Bound(n) && (n > 1 ==> v >= Bound(n - 1))
  }

  lemma {:induction false} LoopLength(v: nat, n: nat)
    requires NeedsGroups(v, n)
    ensures |Loop(v)| == n
  {
    if n > 1 {
      LoopLength(v / 128, n - 1);
    }
  }

  lemma BoundTable()
    ensures Bound(1) == 0x80 && Bound(2) == 0x4000 && Bound(3) == 0x20_0000 && Bound(4) == 0x1000_0000
    ensures Bound(5) == 0x8_0000_0000 && Bound(6) == 0x400_0000_0000 && Bound(7) == 0x2_0000_0000_0000
    ensures Bound(8) == 0x100_0000_0000_0000 && Bound(9) == 0x8000_0000_0000_0000
    ensures Bound(10) == 0x40_0000_0000_0000_0000
  {
    assert Bound(2) == 0x4000;
    assert Bound(4) == 0x1000_0000;
    assert Bound(6) == 0x400_0000_0000;
    assert Bound(8) == 0x100_0000_0000_0000;
  }

  /** The register that holds the bound wraps to 0 with the last shift, which is then not used. */
  method GetVarint64Length(value: UInt64) returns (c: nat)
    ensures c == |Loop(value)|
  {
    BoundTable();
    var r: UInt64 := 0x80;
    c := 1;
    while value >= r && c < 10
      invariant 1 <= c <= 10 && r == Cast64(Bound(c))
      invariant c > 1 ==> value >= Bound(c - 1)
      decreases 10 - c
    {
      assert c < 10 ==> Bound(c) <= Bound(9) by { BoundGrows(c, 9); }
      r := Cast64(r * 128);
      c := c + 1;
    }
    if c < 10 {
      BoundGrows(c, 9);
    }
    LoopLength(value, c);
  }

  lemma {:induction false} BoundGrows(m: nat, n: nat)
    requires m <= n
    ensures Bound(m) <= Bound(n)
  {
    if m < n {
      BoundGrows(m, n - 1);
    }
  }

  /** The same with a 32-bit register for the bound, so at most 5. */
  method GetVarint32Length(value: UInt64) returns (c: nat)
    ensures c == if |Loop(value)| < 5 then |Loop(value)| else 5
  {
    BoundTable();
    var r: UInt32 := 0x80;
    c := 1;
    while value >= r && c < 5
      invariant 1 <= c <= 5 && r == Cast32(Bound(c))
      invariant c > 1 ==> value >= Bound(c - 1)
      decreases 5 - c
    {
      assert Bound(c) <= Bound(4) by { BoundGrows(c, 4); }
      r := Cast32(r * 128);
      c := c + 1;
    }
    if c < 5 {
      BoundGrows(c, 4);
      LoopLength(value, c);
    } else {
      LongerThan(value, 4);
    }
  }

  lemma {:induction false} LongerThan(v: nat, n: nat)
    requires v >= Bound(n)
    ensures |Loop(v)| > n
  {
    if n > 0 {
      BoundGrows(0, n - 1);
      LongerThan(v / 128, n - 1);
    }
  }

  // -------------------------------------------------------------------------- its bytes

  function Tail(v: nat, k: nat): nat { if k == 0 then v else Tail(v, k - 1) / 128 }

  lemma {:induction false} TailOfShift(v: nat, k: nat)
    ensures Tail(v / 128, k) == Tail(v, k + 1)
  {
    if k > 0 {
      TailOfShift(v, k - 1);
    }
  }

  lemma {:induction false} LoopBytes(v: nat, n: nat, k: nat)
    requires NeedsGroups(v, n) && k < n
    ensures |Loop(v)| == n
    ensures Loop(v)[k] == if k < n - 1 then WithTopBit(Tail(v, k)) else LowSeven(WithTopBit(Tail(v, k)))
  {
    LoopLength(v, n);
    if n > 1 && k > 0 {
      LoopBytes(v / 128, n - 1, k - 1);
      TailOfShift(v, k - 1);
    }
  }

  lemma TailTable(v: nat)
    ensures Tail(v, 0) == v && Tail(v, 1) == v / 0x80 && Tail(v, 2) == v / 0x4000 && Tail(v, 3) == v / 0x20_0000
    ensures Tail(v, 4) == v / 0x1000_0000 && Tail(v, 5) == v / 0x8_0000_0000 && Tail(v, 6) == v / 0x400_0000_0000
    ensures Tail(v, 7) == v / 0x2_0000_0000_0000 && Tail(v, 8) == v / 0x100_0000_0000_0000
    ensures Tail(v, 9) == v / 0x8000_0000_0000_0000
  {
    assert Tail(v, 2) == Tail(v, 1) / 128;
    assert Tail(v, 4) == Tail(v, 3) / 128;
    assert Tail(v, 6) == Tail(v, 5) / 128;
    assert Tail(v, 8) == Tail(v, 7) / 128;
  }

  // ------------------------------------------------------------------- the 64-bit writer

  /** The three overlapping 32-bit pieces. */
  function Part(value: UInt64, j: nat): UInt32
    requires j < 3
  {
    match j
    case 0 => Cast32(value)
    case 1 => Cast32(value / 0x1000_0000)
    case _ => Cast32(value / 0x100_0000_0000_0000)
  }

  method FindSize(part0: UInt32, part1: UInt32, part2: UInt32, ghost value: UInt64) returns (size: nat)
    requires part0 == Part(value, 0) && part1 == Part(value, 1) && part2 == Part(value, 2)
    ensures NeedsGroups(value, size) && size <= 10
  {
    BoundTable();
    if part2 == 0 {
      if part1 == 0 {
        if part0 < 0x4000 {
          if part0 < 0x80 { size := 1; } else { size := 2; }
        } else {
          if part0 < 0x20_0000 { size := 3; } else { size := 4; }
        }
      } else {
        if part1 < 0x4000 {
          if part1 < 0x80 { size := 5; } else { size := 6; }
        } else {
          if part1 < 0x20_0000 { size := 7; } else { size := 8; }
        }
      }
    } else {
      if part2 < 0x80 { size := 9; } else { size := 10; }
    }
  }

  /** The ten labelled lines: what the line for byte k stores. */
  function StoredByte(part0: UInt32, part1: UInt32, part2: UInt32, k: nat): Byte
    requires k < 10
  {
    match k
    case 0 => WithTopBit(part0)
    case 1 => WithTopBit(part0 / 0x80)
    case 2 => WithTopBit(part0 / 0x4000)
    case 3 => WithTopBit(part0 / 0x20_0000)
    case 4 => WithTopBit(part1)
    case 5 => WithTopBit(part1 / 0x80)
    case 6 => WithTopBit(part1 / 0x4000)
    case 7 => WithTopBit(part1 / 0x20_0000)
    case 8 => WithTopBit(part2)
    case _ => WithTopBit(part2 / 0x80)
  }

  /** x is q * 2^32 + r, and dividing it by d, of which c multiples make 2^32, only touches r. */
  lemma ShiftOfSum(x: nat, q: nat, r: nat, d: nat, c: nat)
    requires x == q * 0x1_0000_0000 + r && r < 0x1_0000_0000
    requires (d == 0x80 && c == 0x200_0000) || (d == 0x4000 && c == 0x4_0000) || (d == 0x20_0000 && c == 0x800)
    ensures x / d == q * c + r / d
  {
    if d == 0x80 {
      assert x == 0x80 * (q * 0x200_0000 + r / 0x80) + r % 0x80;
    } else if d == 0x4000 {
      assert x == 0x4000 * (q * 0x4_0000 + r / 0x4000) + r % 0x4000;
    } else {
      assert x == 0x20_0000 * (q * 0x800 + r / 0x20_0000) + r % 0x20_0000;
    }
  }

  lemma DropMultiple(m: nat, t: nat)
    ensures (128 * m + t) % 128 == t % 128
  {
  }

  /** The pieces overlap, so the low 28 bits of a piece shift like those of the whole number. */
  lemma PieceShifts(x: nat)
    ensures Cast32(x) % 128 == x % 128
    ensures (Cast32(x) / 0x80) % 128 == (x / 0x80) % 128
    ensures (Cast32(x) / 0x4000) % 128 == (x / 0x4000) % 128
    ensures (Cast32(x) / 0x20_0000) % 128 == (x / 0x20_0000) % 128
  {
    var q, r := x / 0x1_0000_0000, x % 0x1_0000_0000;
    ShiftOfSum(x, q, r, 0x80, 0x200_0000);
    ShiftOfSum(x, q, r, 0x4000, 0x4_0000);
    ShiftOfSum(x, q, r, 0x20_0000, 0x800);
    DropMultiple(0x200_0000 * q, r);
    DropMultiple(0x4_0000 * q, r / 0x80);
    DropMultiple(0x800 * q, r / 0x4000);
    DropMultiple(0x10 * q, r / 0x20_0000);
  }

  lemma {:induction false} TailAdds(v: nat, i: nat, j: nat)
    ensures Tail(v, i + j) == Tail(Tail(v, i), j)
  {
    if j > 0 {
      TailAdds(v, i, j - 1);
    }
  }

  /** The four lines for one piece, as a function of the number the piece was cut from. */
  lemma PieceLines(x: nat, others: UInt32, k: nat)
    requires k < 4
    ensures StoredByte(Cast32(x), others, others, k) == WithTopBit(Tail(x, k))
    ensures StoredByte(others, Cast32(x), others, k + 4) == WithTopBit(Tail(x, k))
  {
    TailTable(x);
    PieceShifts(x);
  }

  lemma StoredByteIsGroup(v: UInt64, k: nat)
    requires k < 10
    ensures StoredByte(Part(v, 0), Part(v, 1), Part(v, 2), k) == WithTopBit(Tail(v, k))
  {
    if k < 4 {
      PieceLines(v, 0, k);
    } else if k < 8 {
      PieceLines(v / 0x1000_0000, 0, k - 4);
      TailTable(v);
      TailAdds(v, 4, k - 4);
    } else {
      TailTable(v);
      TailAdds(v, 8, k - 8);
    }
  }

  lemma StoredMeansLoop(v: nat, code: seq<Byte>)
    requires NeedsGroups(v, |code|)
    requires forall j :: 0 <= j < |code| - 1 ==> code[j] == WithTopBit(Tail(v, j))
    requires code[|code| - 1] == LowSeven(WithTopBit(Tail(v, |code| - 1)))
    ensures code == Loop(v)
  {
    LoopLength(v, |code|);
    forall j | 0 <= j < |code| ensures code[j] == Loop(v)[j] {
      LoopBytes(v, |code|, j);
    }
  }

  method WriteVarint64(value: UInt64, target: array<Byte>) returns (size: nat)
    requires target.Length >= 10
    modifies target
    ensures size <= 10 && target[..size] == Loop(value)
    ensures forall k :: size <= k < target.Length ==> target[k] == old(target[k])
  {
    var part0, part1, part2 := Part(value, 0), Part(value, 1), Part(value, 2);
    size := FindSize(part0, part1, part2, value);
    var k := size;
    while k > 0
      invariant 0 <= k <= size <= 10
      invariant forall j :: k <= j < size ==> target[j] == WithTopBit(Tail(value, j))
      invariant forall j :: size <= j < target.Length ==> target[j] == old(target[j])
    {
      k := k - 1;
      StoredByteIsGroup(value, k);
      target[k] := StoredByte(part0, part1, part2, k);
    }
    target[size - 1] := LowSeven(target[size - 1]);
    StoredMeansLoop(value, target[..size]);
  }

  // ------------------------------------------------------------------- the 64-bit reader

  /** The seven bits of b as group number k. */
  function Group(b: Byte, k: nat): nat { if k == 0 then LowSeven(b) else 128 * Group(b, k - 1) }

  /** One more byte at the end is one more group on top. */
  lemma {:induction false} ValueAppend(s: seq<Byte>, b: Byte)
    ensures Value(s + [b]) == Value(s) + Group(b, |s|)
  {
    if s == [] {
      assert s + [b] == [b] && [b][1..] == [];
    } else {
      assert (s + [b])[1..] == s[1..] + [b];
      ValueAppend(s[1..], b);
    }
  }

  lemma {:induction false} ValueBound(s: seq<Byte>)
    ensures Value(s) < Bound(|s|)
  {
    if s != [] {
      ValueBound(s[1..]);
    }
  }

  /** The ten lines: what the line for byte k ors into the part it belongs to. */
  function Line(b: Byte, k: nat): nat
    requires k < 10
  {
    match k
    case 0 => LowSeven(b)
    case 1 => LowSeven(b) * 0x80
    case 2 => LowSeven(b) * 0x4000
    case 3 => LowSeven(b) * 0x20_0000
    case 4 => LowSeven(b) * 0x1000_0000
    case 5 => LowSeven(b) * 0x8_0000_0000
    case 6 => LowSeven(b) * 0x400_0000_0000
    case 7 => LowSeven(b) * 0x2_0000_0000_0000
    case 8 => LowSeven(b)
    case _ => LowSeven(b) * 0x80
  }

  lemma GroupTable(b: Byte, k: nat)
    requires k < 10
    ensures Group(b, k) == if k < 8 then Line(b, k) else 0x100_0000_0000_0000 * Line(b, k)
  {
    assert Group(b, 2) == 128 * Group(b, 1);
    assert Group(b, 4) == 128 * Group(b, 3);
    assert Group(b, 6) == 128 * Group(b, 5);
    assert Group(b, 8) == 128 * Group(b, 7);
  }

  /** A number starts at ptr: it ends somewhere, or there are ten bytes to read. */
  ghost predicate Readable(buffer: seq<Byte>, ptr: nat) {
    ptr + 10 <= |buffer| || exists e :: ptr <= e < |buffer| && !Continues(buffer[e])
  }

  /** The readers return NULL (here None) after ten bytes that go on, and otherwise the place
      behind the number. */
  datatype Pointer = None | At(offset: nat)

  /** next is where reading the bytes from ptr on has to stop. */
  ghost predicate StopsAt(buffer: seq<Byte>, ptr: nat, next: Pointer) {
    match next
    case At(offset) => ptr < offset <= |buffer| && offset <= ptr + 10 && EndsAt(buffer[ptr..], offset - 1 - ptr)
    case None => ptr + 10 <= |buffer| && forall k :: ptr <= k < ptr + 10 ==> Continues(buffer[k])
  }

  /** The result is the number the bytes stand for, as far as 64 bits hold it. */
  method ReadVarint64(buffer: array<Byte>, ptr: nat) returns (next: Pointer, value: UInt64)
    requires Readable(buffer[..], ptr)
    ensures StopsAt(buffer[..], ptr, next)
    ensures next.At? ==> value == Cast64(Value(buffer[ptr..next.offset]))
  {
    var part0, part1 := 0, 0;
    var k := 0;
    while k < 10
      invariant 0 <= k <= 10 && ptr + k <= buffer.Length
      invariant forall j :: ptr <= j < ptr + k ==> Continues(buffer[j])
      invariant k <= 8 ==> part1 == 0
      invariant 0 <= part0 && 0 <= part1
      invariant part0 + 0x100_0000_0000_0000 * part1 == Value(buffer[ptr..ptr + k])
    {
      var b := buffer[ptr + k];
      assert buffer[ptr..ptr + k + 1] == buffer[ptr..ptr + k] + [b];
      ValueAppend(buffer[ptr..ptr + k], b);
      GroupTable(b, k);
      if k < 8 {
        part0 := part0 + Line(b, k);
      } else {
        part1 := part1 + Line(b, k);
      }
      k := k + 1;
      if !Continues(b) {
        return At(ptr + k), Cast64(part0 + 0x100_0000_0000_0000 * part1);
      }
    }
    return None, 0;
  }

  lemma EndsInside(buffer: seq<Byte>, code: seq<Byte>)
    requires code <= buffer && EndsAt(code, |code| - 1)
    ensures EndsAt(buffer[0..], |code| - 1) && buffer[0..|code|] == code && !Continues(buffer[|code| - 1])
  {
  }

  /** Reading inverts writing and stops where writing stopped, whatever follows in the buffer. */
  method WriteThenRead64(value: UInt64, target: array<Byte>) returns (size: nat, next: Pointer, read: UInt64)
    requires target.Length >= 10
    modifies target
    ensures next == At(size) && read == value
  {
    LoopRoundTrip(value);
    size := WriteVarint64(value, target);
    EndsInside(target[..], Loop(value));
    next, read := ReadVarint64(target, 0);
  }

  // -------------------------------------------------------------------- the 32-bit pair

  method WriteVarint32(value: UInt32, target: array<Byte>) returns (size: nat)
    requires target.Length >= 5
    modifies target
    ensures size <= 5 && target[..size] == Loop(value)
  {
    BoundTable();
    TailTable(value);
    target[0] := WithTopBit(value);
    if value >= 0x80 {
      size := WriteSecond(value, target);
    } else {
      target[0] := LowSeven(target[0]);
      size := 1;
    }
    StoredMeansLoop(value, target[..size]);
  }

  method WriteFourth(value: UInt32, target: array<Byte>) returns (size: nat)
    requires target.Length >= 5 && value >= 0x20_0000
    modifies target
    ensures 4 <= size <= 5 && NeedsGroups(value, size)
    ensures target[..3] == old(target[..3])
    ensures size == 5 ==> target[3] == WithTopBit(Tail(value, 3))
    ensures target[size - 1] == LowSeven(WithTopBit(Tail(value, size - 1)))
  {
    BoundTable();
    TailTable(value);
    target[3] := WithTopBit(value / 0x20_0000);
    if value >= 0x1000_0000 {
      target[4] := value / 0x1000_0000;
      size := 5;
    } else {
      target[3] := LowSeven(target[3]);
      size := 4;
    }
  }

  /** The nested tests behind the first byte: the groups are stored, the last without its top bit. */
  method WriteSecond(value: UInt32, target: array<Byte>) returns (size: nat)
    requires target.Length >= 5 && value >= 0x80
    modifies target
    ensures 2 <= size <= 5 && NeedsGroups(value, size) && target[0] == old(target[0])
    ensures forall j :: 0 < j < size - 1 ==> target[j] == WithTopBit(Tail(value, j))
    ensures target[size - 1] == LowSeven(WithTopBit(Tail(value, size - 1)))
  {
    BoundTable();
    TailTable(value);
    target[1] := WithTopBit(value / 0x80);
    if value >= 0x4000 {
      target[2] := WithTopBit(value / 0x4000);
      if value >= 0x20_0000 {
        size := WriteFourth(value, target);
      } else {
        target[2] := LowSeven(target[2]);
        size := 3;
      }
    } else {
      target[1] := LowSeven(target[1]);
      size := 2;
    }
  }

  /** What the 32-bit reader ors in for byte k; the fifth line does not mask the byte, and the
      bytes after it are skipped. */
  function Line32(b: Byte, k: nat): UInt32
    requires k < 10
  {
    match k
    case 0 => LowSeven(b)
    case 1 => LowSeven(b) * 0x80
    case 2 => LowSeven(b) * 0x4000
    case 3 => LowSeven(b) * 0x20_0000
    case 4 => Cast32(b * 0x1000_0000)
    case _ => 0
  }

  lemma FifthLine(b: Byte)
    ensures Cast32(b * 0x1000_0000) == (b % 16) * 0x1000_0000
    ensures Cast32(LowSeven(b) * 0x1000_0000) == (b % 16) * 0x1000_0000
  {
    LowNibble(b);
    NibbleStays(b, b / 16, b % 16);
    NibbleStays(LowSeven(b), LowSeven(b) / 16, b % 16);
  }

  lemma LowNibble(b: Byte)
    ensures b == 16 * (b / 16) + b % 16 && LowSeven(b) == 16 * (LowSeven(b) / 16) + b % 16
  {
  }

  lemma NibbleStays(x: nat, q: nat, low: nat)
    requires x == 16 * q + low && low < 16
    ensures Cast32(x * 0x1000_0000) == low * 0x1000_0000
  {
    RestStays(x * 0x1000_0000, q, low * 0x1000_0000);
  }

  lemma RestStays(x: nat, q: nat, rest: nat)
    requires x == q * 0x1_0000_0000 + rest && rest < 0x1_0000_0000
    ensures Cast32(x) == rest
  {
  }

  lemma WholeWord(m: nat)
    ensures Cast32(m * 0x1_0000_0000) == 0
  {
  }

  lemma HighGroupsAreWhole(b: Byte, k: nat)
    requires 4 < k < 10
    ensures Cast32(Group(b, k)) == 0
  {
    GroupTable(b, k);
    var g := LowSeven(b);
    match k
    case 5 => WholeWord(g * 8);
    case 6 => WholeWord(g * 0x400);
    case 7 => WholeWord(g * 0x2_0000);
    case 8 => WholeWord(g * 0x100_0000);
    case _ => WholeWord(g * 0x8000_0000);
  }

  lemma LowPlusWhole(v: nat, w: nat)
    requires Cast32(w) == 0
    ensures Cast32(v + w) == Cast32(v)
  {
  }

  lemma {:induction false} GroupFits(b: Byte, k: nat)
    ensures Group(b, k) + Bound(k) <= Bound(k + 1)
  {
    if k > 0 {
      GroupFits(b, k - 1);
    }
  }

  /** Adding group k changes the low 32 bits by what line k ors in, which has no bit in common
      with what is there. */
  lemma LowBitsStep(v: nat, b: Byte, k: nat)
    requires k < 10 && v < Bound(k)
    ensures Cast32(v + Group(b, k)) == Cast32(v) + Line32(b, k)
  {
    if k > 4 {
      HighGroupsAreWhole(b, k);
      LowPlusWhole(v, Group(b, k));
    } else if k == 4 {
      BoundTable();
      GroupTable(b, k);
      FifthLine(b);
      LowNibble(b);
      FifthGroup(v, LowSeven(b), LowSeven(b) / 16, b % 16);
    } else {
      LowLines(v, b, k);
    }
  }

  lemma LowLines(v: nat, b: Byte, k: nat)
    requires k < 4 && v < Bound(k)
    ensures Cast32(v + Group(b, k)) == Cast32(v) + Line32(b, k)
  {
    GroupFits(b, k);
    BoundGrows(k + 1, 4);
    BoundTable();
    GroupTable(b, k);
    assert Line32(b, k) == Group(b, k);
  }

  lemma FifthGroup(v: nat, g: nat, q: nat, low: nat)
    requires v < 0x1000_0000 && low < 16 && g == 16 * q + low
    ensures Cast32(v + g * 0x1000_0000) == v + low * 0x1000_0000
  {
    RestStays(v + g * 0x1000_0000, q, v + low * 0x1000_0000);
  }

  /** A number of more than 32 bits is read to its end, and its low 32 bits are returned. */
  method ReadVarint32(buffer: array<Byte>, ptr: nat) returns (next: Pointer, value: UInt32)
    requires Readable(buffer[..], ptr)
    ensures StopsAt(buffer[..], ptr, next)
    ensures next.At? ==> value == Cast32(Value(buffer[ptr..next.offset]))
  {
    var result: UInt32 := 0;
    var k := 0;
    while k < 10
      invariant 0 <= k <= 10 && ptr + k <= buffer.Length
      invariant forall j :: ptr <= j < ptr + k ==> Continues(buffer[j])
      invariant result == Cast32(Value(buffer[ptr..ptr + k]))
    {
      var b := buffer[ptr + k];
      assert buffer[ptr..ptr + k + 1] == buffer[ptr..ptr + k] + [b];
      ValueAppend(buffer[ptr..ptr + k], b);
      ValueBound(buffer[ptr..ptr + k]);
      LowBitsStep(Value(buffer[ptr..ptr + k]), b, k);
      result := result + Line32(b, k);
      k := k + 1;
      if !Continues(b) {
        return At(ptr + k), result;
      }
    }
    return None, 0;
  }

  method WriteThenRead32(value: UInt32, target: array<Byte>) returns (size: nat, next: Pointer, read: UInt32)
    requires target.Length >= 5
    modifies target
    ensures next == At(size) && read == value
  {
    LoopRoundTrip(value);
    size := WriteVarint32(value, target);
    EndsInside(target[..], Loop(value));
    next, read := ReadVarint32(target, 0);
  }

  // ---------------------------------------------------------------------- the fast pair

  /** x & 0xff */
  function LowByte(x: nat): Byte { x % 256 }

  /** The eight bytes of a long number, the highest of them first and with its top bit set. */
  function FastByte(v: nat, k: nat): Byte
    requires k < 8
  {
    match k
    case 0 => WithTopBit(v / 0x100_0000_0000_0000)
    case 1 => LowByte(v / 0x1_0000_0000_0000)
    case 2 => LowByte(v / 0x100_0000_0000)
    case 3 => LowByte(v / 0x1_0000_0000)
    case 4 => LowByte(v / 0x100_0000)
    case 5 => LowByte(v / 0x1_0000)
    case 6 => LowByte(v / 0x100)
    case _ => LowByte(v)
  }

  /** They are the eight bytes of the number, the most significant first, but for that bit. */
  lemma FastByteIs(v: UInt64, k: nat)
    requires k < 8 && v < 0x8000_0000_0000_0000
    ensures FastByte(v, k) == v / Pow256(7 - k) % 256 + if k == 0 then 128 else 0
  {
    Powers();
    if k == 0 {
      TopByte(v);
    }
  }

  lemma Powers()
    ensures Pow256(0) == 1 && Pow256(1) == 0x100 && Pow256(2) == 0x1_0000 && Pow256(3) == 0x100_0000
    ensures Pow256(4) == 0x1_0000_0000 && Pow256(5) == 0x100_0000_0000
    ensures Pow256(6) == 0x1_0000_0000_0000 && Pow256(7) == 0x100_0000_0000_0000
  {
    assert Pow256(2) == 0x1_0000;
    assert Pow256(4) == 0x1_0000_0000;
    assert Pow256(6) == 0x1_0000_0000_0000;
  }

  lemma TopByte(v: UInt64)
    requires v < 0x8000_0000_0000_0000
    ensures v / 0x100_0000_0000_0000 < 128
    ensures WithTopBit(v / 0x100_0000_0000_0000) == v / 0x100_0000_0000_0000 % 256 + 128
  {
  }

  /** Values below 128 take one byte, all others eight. */
  method WriteVarint64Fast(value: UInt64, target: array<Byte>) returns (size: nat)
    requires value < 0x8000_0000_0000_0000 && target.Length >= 8
    modifies target
    ensures size == if value < 0x80 then 1 else 8
    ensures value < 0x80 ==> target[0] == value
    ensures value >= 0x80 ==> forall k :: 0 <= k < 8 ==> target[k] == FastByte(value, k)
  {
    if value / 128 == 0 {
      target[0] := value;
      size := 1;
    } else {
      target[0] := FastByte(value, 0);
      target[1] := FastByte(value, 1);
      target[2] := FastByte(value, 2);
      target[3] := FastByte(value, 3);
      target[4] := FastByte(value, 4);
      target[5] := FastByte(value, 5);
      target[6] := FastByte(value, 6);
      target[7] := FastByte(value, 7);
      size := 8;
    }
  }

  /** The number of eight bytes, the highest of them first. */
  function Word(b0: int, b1: int, b2: int, b3: int, b4: int, b5: int, b6: int, b7: int): int {
    0x100_0000_0000_0000 * b0 + 0x1_0000_0000_0000 * b1 + 0x100_0000_0000 * b2 + 0x1_0000_0000 * b3
    + 0x100_0000 * b4 + 0x1_0000 * b5 + 0x100 * b6 + b7
  }

  method ReadVarint64Fast(buffer: array<Byte>, ptr: nat) returns (next: nat, value: UInt64)
    requires ptr < buffer.Length && (Continues(buffer[ptr]) ==> ptr + 8 <= buffer.Length)
    ensures next == if Continues(buffer[ptr]) then ptr + 8 else ptr + 1
    ensures value == if !Continues(buffer[ptr]) then buffer[ptr] else
      Word(LowSeven(buffer[ptr]), buffer[ptr + 1], buffer[ptr + 2], buffer[ptr + 3],
           buffer[ptr + 4], buffer[ptr + 5], buffer[ptr + 6], buffer[ptr + 7])
  {
    if !Continues(buffer[ptr]) {
      return ptr + 1, buffer[ptr];
    }
    value := Word(LowSeven(buffer[ptr]), 0, 0, 0, 0, 0, 0, 0);
    value := value + Word(0, buffer[ptr + 1], 0, 0, 0, 0, 0, 0);
    value := value + Word(0, 0, buffer[ptr + 2], 0, 0, 0, 0, 0);
    value := value + Word(0, 0, 0, buffer[ptr + 3], 0, 0, 0, 0);
    value := value + Word(0, 0, 0, 0, buffer[ptr + 4], 0, 0, 0);
    value := value + Word(0, 0, 0, 0, 0, buffer[ptr + 5], 0, 0);
    value := value + Word(0, 0, 0, 0, 0, 0, buffer[ptr + 6], 0);
    value := value + Word(0, 0, 0, 0, 0, 0, 0, buffer[ptr + 7]);
    next := ptr + 8;
  }

  lemma Quotients(v: nat)
    ensures v / 0x1_0000 == v / 256 / 256 && v / 0x100_0000 == v / 0x1_0000 / 256
    ensures v / 0x1_0000_0000 == v / 0x100_0000 / 256 && v / 0x100_0000_0000 == v / 0x1_0000_0000 / 256
    ensures v / 0x1_0000_0000_0000 == v / 0x100_0000_0000 / 256
    ensures v / 0x100_0000_0000_0000 == v / 0x1_0000_0000_0000 / 256
  {
  }

  lemma Horner(v: nat, q1: nat, q2: nat, q3: nat, q4: nat, q5: nat, q6: nat, q7: nat)
    requires q1 == v / 256 && q2 == q1 / 256 && q3 == q2 / 256 && q4 == q3 / 256
    requires q5 == q4 / 256 && q6 == q5 / 256 && q7 == q6 / 256
    ensures v == Word(q7, q6 % 256, q5 % 256, q4 % 256, q3 % 256, q2 % 256, q1 % 256, v % 256)
  {
    assert q6 == 256 * q7 + q6 % 256;
    assert q5 == 256 * q6 + q5 % 256;
    assert q4 == 256 * q5 + q4 % 256;
    assert q3 == 256 * q4 + q3 % 256;
    assert q2 == 256 * q3 + q2 % 256;
    assert q1 == 256 * q2 + q1 % 256;
  }

  lemma TopFastByte(v: nat)
    requires v < 0x8000_0000_0000_0000
    ensures LowSeven(FastByte(v, 0)) == v / 0x100_0000_0000_0000
  {
    assert v / 0x100_0000_0000_0000 < 128;
  }

  lemma FastBytesGiveBack(v: nat)
    requires v < 0x8000_0000_0000_0000
    ensures Word(LowSeven(FastByte(v, 0)), FastByte(v, 1), FastByte(v, 2), FastByte(v, 3),
                 FastByte(v, 4), FastByte(v, 5), FastByte(v, 6), FastByte(v, 7)) == v
  {
    var q1, q2, q3, q4 := v / 256, v / 0x1_0000, v / 0x100_0000, v / 0x1_0000_0000;
    var q5, q6, q7 := v / 0x100_0000_0000, v / 0x1_0000_0000_0000, v / 0x100_0000_0000_0000;
    assert q2 == q1 / 256 && q3 == q2 / 256 && q4 == q3 / 256 && q5 == q4 / 256 && q6 == q5 / 256 && q7 == q6 / 256 by {
      Quotients(v);
    }
    TopFastByte(v);
    Horner(v, q1, q2, q3, q4, q5, q6, q7);
  }

  method WriteThenReadFast(value: UInt64, target: array<Byte>) returns (size: nat, next: nat, read: UInt64)
    requires value < 0x8000_0000_0000_0000 && target.Length >= 8
    modifies target
    ensures next == size && read == value
  {
    FastBytesGiveBack(value);
    size := WriteVarint64Fast(value, target);
    next, read := ReadVarint64Fast(target, 0);
  }
}
