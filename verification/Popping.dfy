/** Visiting the set columns of a packed row by popping the lowest bit of one byte after the other. */
module Popping {
  import opened Bytes
  import opened Bits
  import opened Grids

  /** The sum of f over the columns from lo to hi that are set. */
  function Total(f: nat -> nat, row: seq<Byte>, lo: nat, hi: nat): nat
    requires lo <= hi <= 8 * |row|
    decreases hi - lo
  {
    if lo == hi then 0 else (if Column(row, lo) then f(lo) else 0) + Total(f, row, lo + 1, hi)
  }

  lemma {:induction false} TotalConcat(f: nat -> nat, row: seq<Byte>, lo: nat, mid: nat, hi: nat)
    requires lo <= mid <= hi <= 8 * |row|
    ensures Total(f, row, lo, hi) == Total(f, row, lo, mid) + Total(f, row, mid, hi)
    decreases mid - lo
  {
    if lo < mid {
      TotalConcat(f, row, lo + 1, mid, hi);
    }
  }

  lemma {:induction false} TotalOfNone(f: nat -> nat, row: seq<Byte>, lo: nat, hi: nat)
    requires lo <= hi <= 8 * |row|
    requires forall c :: lo <= c < hi ==> !Column(row, c)
    ensures Total(f, row, lo, hi) == 0
    decreases hi - lo
  {
    if lo < hi {
      TotalOfNone(f, row, lo + 1, hi);
    }
  }

  /** No bit of x is set from t on below j. */
  ghost predicate NoBits(x: nat, t: nat, j: nat) {
    forall k :: t <= k < j ==> !Bit(x, k)
  }

  /** Bit j of byte i is column 8 * i + 7 - j. */
  lemma ColumnOfBit(row: seq<Byte>, i: nat, j: nat)
    requires i < |row| && j < 8
    ensures Column(row, 8 * i + 7 - j) == Bit(row[i], j)
  {
    assert (8 * i + 7 - j) / 8 == i && (8 * i + 7 - j) % 8 == 7 - j;
  }

  lemma SkipBits(f: nat -> nat, row: seq<Byte>, i: nat, t: nat, j: nat)
    requires i < |row| && t <= j <= 8
    requires NoBits(row[i], t, j)
    ensures Total(f, row, 8 * i + 8 - j, 8 * i + 8) == Total(f, row, 8 * i + 8 - t, 8 * i + 8)
  {
    forall c | 8 * i + 8 - j <= c < 8 * i + 8 - t ensures !Column(row, c) {
      ColumnOfBit(row, i, 8 * i + 7 - c);
    }
    TotalOfNone(f, row, 8 * i + 8 - j, 8 * i + 8 - t);
    TotalConcat(f, row, 8 * i + 8 - j, 8 * i + 8 - t, 8 * i + 8);
  }

  /** The bit that was popped adds the value of its column. */
  lemma TakeBit(f: nat -> nat, row: seq<Byte>, i: nat, t: nat, j: nat)
    requires i < |row| && t <= j < 8
    requires NoBits(row[i], t, j) && Bit(row[i], j)
    ensures Total(f, row, 8 * i + 7 - j, 8 * i + 8) == f(8 * i + 7 - j) + Total(f, row, 8 * i + 8 - t, 8 * i + 8)
  {
    SkipBits(f, row, i, t, j);
    ColumnOfBit(row, i, j);
  }

  /** When nothing is left to pop, the byte is done. */
  lemma EndByte(f: nat -> nat, row: seq<Byte>, i: nat, t: nat)
    requires i < |row| && t <= 8 && NoBits(row[i], t, 8)
    ensures Total(f, row, 0, 8 * i + 8) == Total(f, row, 0, 8 * i) + Total(f, row, 8 * i + 8 - t, 8 * i + 8)
  {
    SkipBits(f, row, i, t, 8);
    TotalConcat(f, row, 0, 8 * i, 8 * i + 8);
  }

  // ----------------------------------------------------------------- Pop

  /** Between two pops of byte x: the bits below t are done, bit j was popped (or none was left), and
      s still has the bits above it. */
  ghost predicate Popped(x: nat, s: nat, t: nat, j: int) {
    && t <= 8
    && (j < 0 ==> NoBits(x, t, 8))
    && (j >= 0 ==> t <= j < 8 && Bit(x, j) && NoBits(x, t, j) && LeftAbove(x, s, j))
  }

  ghost predicate LeftAbove(x: nat, s: nat, j: nat) {
    forall k :: 0 <= k < 8 ==> Bit(s, k) == (Bit(x, k) && k > j)
  }

  lemma {:induction false} BitsOfByte(x: nat, j: nat, n: nat)
    requires x < Pow2(n) && Bit(x, j)
    ensures j < n
    decreases j
  {
    if j == 0 {
      assert n > 0;
    } else if n > 0 {
      BitsOfByte(x / 2, j - 1, n - 1);
    } else {
      BitOfZero(j);
    }
  }

  /** j is the lowest set bit of x, or -1 if there is none; rest is x without it. */
  ghost predicate PopsTo(x: nat, j: int, rest: nat) {
    && (x == 0 ==> j == -1 && rest == 0)
    && (x != 0 ==> 0 <= j < 8 && Bit(x, j) && NoBits(x, 0, j) && rest < x && LeftAbove(x, rest, j))
  }

  /** Takes the lowest set bit off x and returns its number, -1 if there is none. */
  method Pop(x: Byte) returns (j: int, rest: Byte)
    ensures PopsTo(x, j, rest)
  {
    if x == 0 {
      return -1, 0;
    }
    var del := And(x, Xor(x, x - 1));
    IsolatesLowBit(x);
    TakesLowBit(x, 0);
    rest := x - del;
    j := Ctz(del);
    ByteIs8Bits();
    BitsOfByte(x, j, 8);
    forall k | 0 <= k ensures Bit(x, k) ==> j <= k {
      TakesLowBit(x, k);
    }
    forall k | 0 <= k < 8 ensures Bit(rest, k) == (Bit(x, k) && k > j) {
      TakesLowBit(x, k);
    }
  }

  lemma FirstPop(x: Byte, j: int, rest: Byte)
    requires PopsTo(x, j, rest)
    ensures Popped(x, rest, 0, j)
  {
    forall k | 0 <= k < 8 ensures x == 0 ==> !Bit(x, k) {
      BitOfZero(k);
    }
  }

  lemma NextPop(x: Byte, s: Byte, t: nat, j: int, rest: Byte, next: int)
    requires Popped(x, s, t, j) && j >= 0
    requires PopsTo(s, next, rest)
    ensures Popped(x, rest, j + 1, next)
  {
    forall k | 0 <= k < 8 ensures s == 0 ==> !Bit(s, k) {
      BitOfZero(k);
    }
  }
}
