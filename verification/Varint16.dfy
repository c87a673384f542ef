/** Variable-length integers in groups of 15 bits, one in each pair of bytes (WriteVarint64In2Bytes and
    ReadVarint64In2Bytes of third-party/base/varint.h), on a little-endian host. */
module Varint16 {
  import opened Bytes
  import opened Varint

  /** Pair i of the bytes, as a little-endian host reads it. */
  function PairAt(s: seq<Byte>, i: nat): (w: nat)
    requires 2 * i + 1 < |s|
    ensures w < 0x1_0000
  {
    var low: int, high: int := s[2 * i], s[2 * i + 1];
    low + 256 * high
  }

  predicate More(w: nat) { w >= 0x8000 }

  /** Group k of 15 bits. */
  function Group(v: nat, k: nat): (g: nat)
    requires k < 5
    ensures g < 0x8000
  {
    (match k
     case 0 => v
     case 1 => v / 0x8000
     case 2 => v / 0x4000_0000
     case 3 => v / 0x2000_0000_0000
     case _ => v / 0x1000_0000_0000_0000) % 0x8000
  }

  /** How many groups a number needs. */
  function Groups(v: nat): (n: nat)
    ensures 1 <= n <= 5
  {
    if v < 0x8000 then 1
    else if v < 0x4000_0000 then 2
    else if v < 0x2000_0000_0000 then 3
    else if v < 0x1000_0000_0000_0000 then 4
    else 5
  }

  /** The pairs of s are the groups of v, all but the last with the top bit set. */
  ghost predicate Holds(s: seq<Byte>, v: nat) {
    && 2 * Groups(v) <= |s|
    && (forall k :: 0 <= k < Groups(v) ==> PairAt(s, k) == Group(v, k) + if k + 1 < Groups(v) then 0x8000 else 0)
  }

  // ----------------------------------------------------------------- writing

  /** result[k] = x | 0x8000, cut to 16 bits. */
  method PutPair(target: array<Byte>, k: nat, x: nat)
    requires 2 * k + 1 < target.Length
    modifies target
    ensures PairAt(target[..], k) == x % 0x8000 + 0x8000
    ensures forall i :: 0 <= i < target.Length && i != 2 * k && i != 2 * k + 1 ==> target[i] == old(target[i])
  {
    var w := x % 0x8000 + 0x8000;
    target[2 * k] := w % 256;
    target[2 * k + 1] := w / 256;
  }

  /** The three pieces of the value decide how many groups there are ... */
  lemma PiecesDecide(v: UInt64)
    ensures Cast32(v / 0x1000_0000_0000_0000) == 0 <==> v < 0x1000_0000_0000_0000
    ensures v < 0x1000_0000_0000_0000 ==>
      (Cast32(v / 0x4000_0000) == 0 <==> v < 0x4000_0000)
      && (Cast32(v / 0x4000_0000) < 0x8000 <==> v < 0x2000_0000_0000)
    ensures v < 0x4000_0000 ==> (Cast32(v) < 0x8000 <==> v < 0x8000)
  {
  }

  /** ... and hold them. */
  lemma PiecesHold(v: UInt64)
    ensures Cast32(v) % 0x8000 == Group(v, 0)
    ensures Cast32(v) / 0x8000 % 0x8000 == Group(v, 1)
    ensures Cast32(v / 0x4000_0000) % 0x8000 == Group(v, 2)
    ensures Cast32(v / 0x4000_0000) / 0x8000 % 0x8000 == Group(v, 3)
    ensures Cast32(v / 0x1000_0000_0000_0000) % 0x8000 == Group(v, 4)
  {
    LowPiece(v);
    LowPiece(v / 0x4000_0000);
    Twice(v);
    LowPiece(v / 0x1000_0000_0000_0000);
  }

  lemma Twice(v: nat)
    ensures v / 0x4000_0000 / 0x8000 == v / 0x2000_0000_0000
  {
  }

  lemma LowPiece(x: nat)
    ensures Cast32(x) % 0x8000 == x % 0x8000
    ensures Cast32(x) / 0x8000 % 0x8000 == x / 0x8000 % 0x8000
  {
    var q := x / 0x1_0000_0000;
    assert x == Cast32(x) + 0x8000 * (0x2_0000 * q);
    assert x / 0x8000 == Cast32(x) / 0x8000 + 0x8000 * (4 * q);
  }

  /** The search tree. */
  method FindSize(part0: nat, part1: nat, part2: nat, ghost v: UInt64) returns (size: nat)
    requires part0 == Cast32(v) && part1 == Cast32(v / 0x4000_0000) && part2 == Cast32(v / 0x1000_0000_0000_0000)
    ensures size == 2 * Groups(v)
  {
    PiecesDecide(v);
    if part2 == 0 {
      if part1 == 0 {
        size := if part0 < 0x8000 then 2 else 4;
      } else {
        size := if part1 < 0x8000 then 6 else 8;
      }
    } else {
      size := 10;
    }
  }

  /** The fall-through labels: the pairs are stored from the last to the first. */
  method StorePairs(target: array<Byte>, part0: nat, part1: nat, part2: nat, size: nat, ghost v: UInt64)
    requires part0 == Cast32(v) && part1 == Cast32(v / 0x4000_0000) && part2 == Cast32(v / 0x1000_0000_0000_0000)
    requires size == 2 * Groups(v) && target.Length >= 10
    modifies target
    ensures forall k :: 0 <= k < Groups(v) ==> PairAt(target[..], k) == Group(v, k) + 0x8000
  {
    PiecesHold(v);
    if size >= 10 {
      PutPair(target, 4, part2);
    }
    if size >= 8 {
      PutPair(target, 3, part1 / 0x8000);
    }
    if size >= 6 {
      PutPair(target, 2, part1);
    }
    if size >= 4 {
      PutPair(target, 1, part0 / 0x8000);
    }
    PutPair(target, 0, part0);
  }

  method WriteVarint64In2Bytes(value: UInt64, target: array<Byte>) returns (size: nat)
    requires target.Length >= 10
    modifies target
    ensures size == 2 * Groups(value) && Holds(target[..], value)
  {
    var part0, part1, part2 := Cast32(value), Cast32(value / 0x4000_0000), Cast32(value / 0x1000_0000_0000_0000);
    size := FindSize(part0, part1, part2, value);
    StorePairs(target, part0, part1, part2, size, value);
    DropTopBit(target[size - 2], target[size - 1]);
    target[size - 1] := target[size - 1] % 128;
  }

  lemma DropTopBit(low: Byte, high: Byte)
    ensures high >= 128 ==> low + 256 * (high % 128) == low + 256 * high - 0x8000
  {
  }

  // ----------------------------------------------------------------- reading

  /** Reading does not run past the bytes there are. */
  ghost predicate Readable(s: seq<Byte>) {
    |s| >= 10 || exists n :: 0 <= n < 5 && 2 * n + 2 <= |s| && !More(PairAt(s, n))
  }

  /** The first n pairs are read, and only the last of them ends the number. */
  ghost predicate Ends(s: seq<Byte>, n: nat) {
    && 1 <= n <= 5 && 2 * n <= |s|
    && !More(PairAt(s, n - 1)) && (forall k :: 0 <= k < n - 1 ==> More(PairAt(s, k)))
  }

  /** Group k of the pairs, in its place. */
  function Line(s: seq<Byte>, k: nat): nat
    requires k < 5 && 2 * k + 1 < |s|
  {
    PairAt(s, k) % 0x8000 * match k
                            case 0 => 1
                            case 1 => 0x8000
                            case 2 => 0x4000_0000
                            case 3 => 0x2000_0000_0000
                            case _ => 0x1000_0000_0000_0000
  }

  function Sum(s: seq<Byte>, n: nat): nat
    requires n <= 5 && 2 * n <= |s|
  {
    if n == 0 then 0 else Sum(s, n - 1) + Line(s, n - 1)
  }

  lemma LineFits(s: seq<Byte>, k: nat)
    requires k < 4 && 2 * k + 1 < |s|
    ensures k == 0 ==> Line(s, k) < 0x8000
    ensures k == 1 ==> Line(s, k) <= 0x4000_0000 - 0x8000
    ensures k == 2 ==> Line(s, k) <= 0x2000_0000_0000 - 0x4000_0000
    ensures k == 3 ==> Line(s, k) <= 0x1000_0000_0000_0000 - 0x2000_0000_0000
  {
  }

  lemma {:induction false} SumFits(s: seq<Byte>, n: nat)
    requires n <= 4 && 2 * n <= |s|
    ensures Sum(s, n) <= match n
                         case 0 => 0
                         case 1 => 0x8000 - 1
                         case 2 => 0x4000_0000 - 1
                         case 3 => 0x2000_0000_0000 - 1
                         case _ => 0x1000_0000_0000_0000 - 1
  {
    if n > 0 {
      SumFits(s, n - 1);
      LineFits(s, n - 1);
    }
  }

  /** The first four lines; end is 0 if none of them ends the number. */
  method ReadFour(s: seq<Byte>) returns (end: nat, part0: nat)
    requires Readable(s)
    ensures end > 0 ==> end <= 4 && Ends(s, end) && part0 == Sum(s, end)
    ensures end == 0 ==> |s| >= 10 && part0 == Sum(s, 4) && forall k :: 0 <= k < 4 ==> More(PairAt(s, k))
  {
    var b := PairAt(s, 0);
    part0 := b % 0x8000;
    assert part0 == Sum(s, 1);
    if !More(b) {
      return 1, part0;
    }
    b := PairAt(s, 1);
    part0 := part0 + b % 0x8000 * 0x8000;
    assert part0 == Sum(s, 2);
    if !More(b) {
      return 2, part0;
    }
    b := PairAt(s, 2);
    part0 := part0 + b % 0x8000 * 0x4000_0000;
    assert part0 == Sum(s, 3);
    if !More(b) {
      return 3, part0;
    }
    b := PairAt(s, 3);
    part0 := part0 + b % 0x8000 * 0x2000_0000_0000;
    assert part0 == Sum(s, 4);
    if !More(b) {
      return 4, part0;
    }
    end := 0;
  }

  /** Five lines, the last of which is shifted out of 64 bits as far as it does not fit. */
  method ReadVarint64In2Bytes(s: seq<Byte>) returns (next: Pointer, value: UInt64)
    requires Readable(s)
    ensures next.At? ==> next.offset % 2 == 0 && Ends(s, next.offset / 2) && value == Cast64(Sum(s, next.offset / 2))
    ensures next.None? ==> |s| >= 10 && forall k :: 0 <= k < 5 ==> More(PairAt(s, k))
  {
    var end, part0 := ReadFour(s);
    if end > 0 {
      SumFits(s, end);
      return At(2 * end), part0;
    }
    var b := PairAt(s, 4);
    var part1 := b % 0x8000;
    assert Sum(s, 5) == part0 + part1 * 0x1000_0000_0000_0000;
    if !More(b) {
      return At(10), Cast64(part0 + part1 * 0x1000_0000_0000_0000);
    }
    return None, 0;
  }

  lemma GroupsGiveBack(v: UInt64)
    ensures v == Group(v, 0) + Group(v, 1) * 0x8000 + Group(v, 2) * 0x4000_0000
               + Group(v, 3) * 0x2000_0000_0000 + Group(v, 4) * 0x1000_0000_0000_0000
  {
    var q1, q2, q3, q4 := v / 0x8000, v / 0x4000_0000, v / 0x2000_0000_0000, v / 0x1000_0000_0000_0000;
    assert q2 == q1 / 0x8000 && q3 == q2 / 0x8000 && q4 == q3 / 0x8000;
    assert q4 < 0x8000;
  }

  /** What a number was written as ends where it should and reads as the number. */
  lemma HoldsMeansSum(s: seq<Byte>, v: UInt64)
    requires Holds(s, v)
    ensures Ends(s, Groups(v)) && Sum(s, Groups(v)) == v
  {
    var n := Groups(v);
    forall k | 0 <= k < n ensures PairAt(s, k) % 0x8000 == Group(v, k) && (More(PairAt(s, k)) <==> k + 1 < n) {
    }
    SumOfGroups(s, v, n);
  }

  lemma SumOfGroups(s: seq<Byte>, v: UInt64, n: nat)
    requires n == Groups(v) && 2 * n <= |s|
    requires forall k :: 0 <= k < n ==> PairAt(s, k) % 0x8000 == Group(v, k)
    ensures Sum(s, n) == v
  {
    GroupsGiveBack(v);
    GroupsBeyond(v);
    LineIsGroup(s, v, 0);
    assert Sum(s, 1) == Group(v, 0);
    if n >= 2 {
      LineIsGroup(s, v, 1);
      assert Sum(s, 2) == Sum(s, 1) + Group(v, 1) * 0x8000;
    }
    if n >= 3 {
      LineIsGroup(s, v, 2);
      assert Sum(s, 3) == Sum(s, 2) + Group(v, 2) * 0x4000_0000;
    }
    if n >= 4 {
      LineIsGroup(s, v, 3);
      assert Sum(s, 4) == Sum(s, 3) + Group(v, 3) * 0x2000_0000_0000;
    }
    if n >= 5 {
      LineIsGroup(s, v, 4);
    }
  }

  lemma LineIsGroup(s: seq<Byte>, v: UInt64, k: nat)
    requires k < 5 && 2 * k + 1 < |s| && PairAt(s, k) % 0x8000 == Group(v, k)
    ensures k == 0 ==> Line(s, k) == Group(v, 0)
    ensures k == 1 ==> Line(s, k) == Group(v, 1) * 0x8000
    ensures k == 2 ==> Line(s, k) == Group(v, 2) * 0x4000_0000
    ensures k == 3 ==> Line(s, k) == Group(v, 3) * 0x2000_0000_0000
    ensures k == 4 ==> Line(s, k) == Group(v, 4) * 0x1000_0000_0000_0000
  {
  }

  lemma GroupsBeyond(v: UInt64)
    ensures Groups(v) <= 1 ==> Group(v, 1) == 0
    ensures Groups(v) <= 2 ==> Group(v, 2) == 0
    ensures Groups(v) <= 3 ==> Group(v, 3) == 0
    ensures Groups(v) <= 4 ==> Group(v, 4) == 0
  {
  }

  lemma EndsOnce(s: seq<Byte>, m: nat, n: nat)
    requires Ends(s, m) && Ends(s, n)
    ensures m == n
  {
  }

  method WriteThenReadIn2Bytes(value: UInt64, target: array<Byte>) returns (size: nat, next: Pointer, read: UInt64)
    requires target.Length >= 10
    modifies target
    ensures next == At(size) && read == value
  {
    size := WriteVarint64In2Bytes(value, target);
    HoldsMeansSum(target[..], value);
    next, read := ReadVarint64In2Bytes(target[..]);
    if next.At? {
      EndsOnce(target[..], next.offset / 2, Groups(value));
    }
  }
}
