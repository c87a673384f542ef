/** What a bitmap holds and how its rows are combined, on values and on memory.  A bitmap has a row for
    each target and a column for each sample; the bits of a row are packed from the most significant
    bit of its first byte on, and a row is padded to whole 64-bit words. */
module Grids {
  import opened Bytes
  import opened Bits

  // ----------------------------------------------------------------- rows and columns

  /** Bytes of a row for size columns. */
  function Width(size: nat): (width: nat)
    ensures width % 8 == 0 && size <= 8 * width < size + 64
  {
    (size / 64 + if size % 64 > 0 then 1 else 0) * 8
  }

  /** Column c of a packed row. */
  predicate Column(row: seq<Byte>, c: nat)
    requires c < 8 * |row|
  {
    Bit(row[c / 8], 7 - c % 8)
  }

  /** In a byte the first column is the highest bit, and the last one the lowest. */
  lemma ColumnIs(row: seq<Byte>, c: nat)
    requires c < 8 * |row|
    ensures Column(row, c) <==> row[c / 8] / Pow2(7 - c % 8) % 2 == 1
  {
    ShiftBit(row[c / 8], 7 - c % 8);
  }

  /** What a bitmap holds. */
  datatype Grid = Grid(size: nat, width: nat, height: nat, data: seq<Byte>) {

    predicate Valid() {
      width == Width(size) && |data| == width * height
    }

    function Row(r: nat): (row: seq<Byte>)
      requires Valid() && r < height
      ensures |row| == width
    {
      RowFits(r, width, height);
      data[r * width..r * width + width]
    }

    predicate Cell(r: nat, c: nat)
      requires Valid() && r < height && c < 8 * width
    {
      Column(Row(r), c)
    }

    /** Where the byte with column c of row r is, and its bit. */
    function Place(r: nat, c: nat): (k: nat)
      requires Valid() && r < height && c < 8 * width
      ensures k < |data|
    {
      RowFits(r, width, height);
      r * width + c / 8
    }

    function Set(r: nat, c: nat): Grid
      requires Valid() && r < height && c < 8 * width
    {
      var k := Place(r, c);
      this.(data := data[k := ApplyByte(OrOp, data[k], Mask(7 - c % 8))])
    }
  }

  lemma RowFits(r: nat, width: nat, height: nat)
    requires r < height
    ensures r * width + width <= width * height
  {
    Monotone(r + 1, height, width);
  }

  /** 1 << j. */
  function Mask(j: nat): Byte
    requires j < 8
  {
    MaskFits(j);
    Pow2(j)
  }

  lemma MaskFits(j: nat)
    requires j < 8
    ensures Pow2(j) < 256
  {
    PowGrows(j, 7);
    assert Pow2(3) == 8;
  }

  lemma {:induction false} PowGrows(j: nat, k: nat)
    requires j <= k
    ensures Pow2(j) <= Pow2(k)
    decreases k
  {
    if j < k {
      PowGrows(j, k - 1);
    }
  }

  lemma SamePlace(r: nat, i: nat, q: nat, j: nat, width: nat)
    requires i < width && j < width && r * width + i == q * width + j
    ensures r == q && i == j
  {
    LessTimes(r, q + 1, width);
    LessTimes(q, r + 1, width);
  }

  lemma CellIs(g: Grid, q: nat, d: nat)
    requires g.Valid() && q < g.height && d < 8 * g.width
    ensures g.Cell(q, d) == Bit(g.data[g.Place(q, d)], 7 - d % 8)
  {
    RowFits(q, g.width, g.height);
    PlaceInRow(g, q, d, q * g.width);
    ColumnOfSlice(g.data, q * g.width, g.width, d);
  }

  lemma PlaceInRow(g: Grid, q: nat, d: nat, at: nat)
    requires g.Valid() && q < g.height && d < 8 * g.width && at == q * g.width && at + g.width <= |g.data|
    ensures g.Row(q) == g.data[at..at + g.width] && g.Place(q, d) == at + d / 8
  {
  }

  lemma ColumnOfSlice(data: seq<Byte>, at: nat, n: nat, d: nat)
    requires at + n <= |data| && d < 8 * n
    ensures Column(data[at..at + n], d) == Bit(data[at + d / 8], 7 - d % 8)
  {
    SliceAt(data, at, n, d / 8);
  }

  lemma SliceAt(data: seq<Byte>, at: nat, n: nat, i: nat)
    requires at + n <= |data| && i < n
    ensures data[at..at + n][i] == data[at + i]
  {
  }

  lemma ByteOfSet(b: Byte, c: nat, d: nat)
    ensures Bit(ApplyByte(OrOp, b, Mask(7 - c % 8)), 7 - d % 8) == (Bit(b, 7 - d % 8) || c % 8 == d % 8)
  {
    BitOfOr(b, Mask(7 - c % 8), 7 - d % 8);
    BitOfPow2(7 - c % 8, 7 - d % 8);
  }

  lemma SameColumn(c: nat, d: nat)
    ensures c == d <==> c / 8 == d / 8 && c % 8 == d % 8
  {
  }

  lemma PlaceIsColumn(g: Grid, r: nat, c: nat, q: nat, d: nat)
    requires g.Valid() && r < g.height && c < 8 * g.width && q < g.height && d < 8 * g.width
    ensures g.Place(r, c) == g.Place(q, d) <==> r == q && c / 8 == d / 8
  {
    if g.Place(r, c) == g.Place(q, d) {
      SamePlace(r, c / 8, q, d / 8, g.width);
    }
  }

  /** Setting a bit sets it and no other one. */
  lemma CellOfSet(g: Grid, r: nat, c: nat, q: nat, d: nat)
    requires g.Valid() && r < g.height && c < 8 * g.width
    requires q < g.height && d < 8 * g.width
    ensures g.Set(r, c).Valid()
    ensures g.Set(r, c).Cell(q, d) == (g.Cell(q, d) || (q == r && d == c))
  {
    CellIs(g, q, d);
    CellIs(g.Set(r, c), q, d);
    PlaceIsColumn(g, r, c, q, d);
    ByteOfSet(g.data[g.Place(q, d)], c, d);
    SameColumn(c, d);
  }

  lemma CellOfZeros(g: Grid, q: nat, d: nat)
    requires g.Valid() && (forall k :: 0 <= k < |g.data| ==> g.data[k] == 0)
    requires q < g.height && d < 8 * g.width
    ensures !g.Cell(q, d)
  {
    CellIs(g, q, d);
    BitOfZero(7 - d % 8);
  }

  // ----------------------------------------------------------------- operators on rows

  lemma ColumnOfZip(op: Op, s: seq<Byte>, t: seq<Byte>, c: nat)
    requires |s| == |t| && c < 8 * |s|
    ensures Column(Zip(op, s, t), c) == ApplyBool(op, Column(s, c), Column(t, c))
  {
    BitOfApply(op, s[c / 8], t[c / 8], 7 - c % 8);
  }

  /** One word of the loops of And and Or: x and y are the operands from byte done on. */
  method CombineWord(op: Op, x: seq<Byte>, y: seq<Byte>, r: array<Byte>, k: nat, done: nat,
                     ghost s: seq<Byte>, ghost t: seq<Byte>)
    requires done + 8 <= |s| == |t| && k + done + 8 <= r.Length
    requires x == s[done..done + 8] && y == t[done..done + 8]
    modifies r
    ensures forall p :: k + done <= p < k + done + 8 ==> r[p] == ApplyByte(op, s[p - k], t[p - k])
    ensures forall p :: 0 <= p < r.Length && !(k + done <= p < k + done + 8) ==> r[p] == old(r[p])
  {
    WordOp(op, x, y);
    var z := Little(Apply(op, FromLittle(x), FromLittle(y)), 8);
    forall p | k + done <= p < k + done + 8 { r[p] := z[p - k - done]; }
  }

  /** The bytes that are not written yet, and those never written, are as they were. */
  ghost predicate Untouched(r0: seq<Byte>, r: array<Byte>, k: nat, done: nat)
    requires |r0| == r.Length
    reads r
  {
    forall p :: 0 <= p < r.Length && !(k <= p < k + done) ==> r[p] == r0[p]
  }

  /** The bytes at k are the operands s and t combined, as far as done. */
  ghost predicate Combined(op: Op, s: seq<Byte>, t: seq<Byte>, r: array<Byte>, k: nat, done: nat)
    requires |s| == |t| && done <= |s| && k + done <= r.Length
    reads r
  {
    forall p :: k <= p < k + done ==> r[p] == ApplyByte(op, s[p - k], t[p - k])
  }

  lemma CombinedIsZip(op: Op, s: seq<Byte>, t: seq<Byte>, r: array<Byte>, k: nat)
    requires |s| == |t| && k + |s| <= r.Length && Combined(op, s, t, r, k, |s|)
    ensures r[k..k + |s|] == Zip(op, s, t)
  {
  }

  /** What the loop of And and Or keeps: the first done bytes of the result are there, and the
      operands can still be read from there on, also where one of them is where the result goes. */
  ghost predicate Underway(op: Op, a: array<Byte>, i: nat, s: seq<Byte>, b: array<Byte>, j: nat, t: seq<Byte>,
                           r: array<Byte>, k: nat, r0: seq<Byte>, done: nat)
    requires |s| == |t| && done <= |s| && i + |s| <= a.Length && j + |t| <= b.Length && k + |s| <= r.Length == |r0|
    reads a, b, r
  {
    && Combined(op, s, t, r, k, done)
    && Untouched(r0, r, k, done)
    && Ready(a, i, s, r, k, r0)
    && Ready(b, j, t, r, k, r0)
  }

  /** An operand that the loop does not change, or one that the result is written over in step. */
  ghost predicate Ready(a: array<Byte>, i: nat, s: seq<Byte>, r: array<Byte>, k: nat, r0: seq<Byte>)
    requires i + |s| <= a.Length && r.Length == |r0|
    reads a
  {
    && (a != r ==> a[i..i + |s|] == s)
    && (a == r ==> r0[i..i + |s|] == s && (i == k || i + |s| <= k || k + |s| <= i))
  }

  lemma OperandIs(a: array<Byte>, i: nat, s: seq<Byte>, r: array<Byte>, k: nat, r0: seq<Byte>, w: nat)
    requires i + |s| <= a.Length && |r0| == r.Length && 8 * w + 8 <= |s|
    requires Ready(a, i, s, r, k, r0)
    requires Untouched(r0, r, k, 8 * w)
    ensures a[i + 8 * w..i + 8 * w + 8] == s[8 * w..8 * w + 8]
  {
    forall p | i + 8 * w <= p < i + 8 * w + 8 ensures a[p] == s[p - i] {
      if a != r {
        SliceAt(a[..], i, |s|, p - i);
        assert a[..][i..i + |s|] == a[i..i + |s|];
      } else {
        SliceAt(r0, i, |s|, p - i);
      }
    }
    SameSlice(a[..], i, s, 8 * w);
    assert a[..][i + 8 * w..i + 8 * w + 8] == a[i + 8 * w..i + 8 * w + 8];
  }

  lemma SameSlice(u: seq<Byte>, i: nat, s: seq<Byte>, done: nat)
    requires i + |s| <= |u| && done + 8 <= |s|
    requires forall p :: i + done <= p < i + done + 8 ==> u[p] == s[p - i]
    ensures u[i + done..i + done + 8] == s[done..done + 8]
  {
  }

  /** One round of the loop. */
  method CombineStep(op: Op, a: array<Byte>, i: nat, b: array<Byte>, j: nat, r: array<Byte>, k: nat, w: nat,
                     ghost s: seq<Byte>, ghost t: seq<Byte>, ghost r0: seq<Byte>)
    requires |s| == |t| && 8 * w + 8 <= |s| && i + |s| <= a.Length && j + |t| <= b.Length && k + |s| <= r.Length == |r0|
    requires Underway(op, a, i, s, b, j, t, r, k, r0, 8 * w)
    modifies r
    ensures Underway(op, a, i, s, b, j, t, r, k, r0, 8 * w + 8)
  {
    var x, y := a[i + 8 * w..i + 8 * w + 8], b[j + 8 * w..j + 8 * w + 8];
    OperandIs(a, i, s, r, k, r0, w);
    OperandIs(b, j, t, r, k, r0, w);
    CombineWord(op, x, y, r, k, 8 * w, s, t);
  }

  /** The loop of the And and Or overloads: words read at i and j are combined and written at k.  The
      result may lie where an operand does, but not across it. */
  method Combine(op: Op, a: array<Byte>, i: nat, b: array<Byte>, j: nat, r: array<Byte>, k: nat, words: nat)
    requires i + 8 * words <= a.Length && j + 8 * words <= b.Length && k + 8 * words <= r.Length
    requires a != r || i == k || i + 8 * words <= k || k + 8 * words <= i
    requires b != r || j == k || j + 8 * words <= k || k + 8 * words <= j
    modifies r
    ensures r[k..k + 8 * words] == Zip(op, old(a[i..i + 8 * words]), old(b[j..j + 8 * words]))
    ensures Untouched(old(r[..]), r, k, 8 * words)
  {
    ghost var s, t, r0 := a[i..i + 8 * words], b[j..j + 8 * words], r[..];
    for w := 0 to words
      invariant Underway(op, a, i, s, b, j, t, r, k, r0, 8 * w)
    {
      CombineStep(op, a, i, b, j, r, k, w, s, t, r0);
    }
    CombinedIsZip(op, s, t, r, k);
  }

  // ----------------------------------------------------------------- building a bitmap

  /** The columns before n are as the lists say, the others are empty. */
  ghost predicate Filled(g: Grid, cols: seq<seq<nat>>, n: nat)
    requires n <= |cols|
  {
    && g.Valid()
    && (forall r, c :: 0 <= r < g.height && 0 <= c < 8 * g.width ==> g.Cell(r, c) == (c < n && r in cols[c]))
  }

  /** g is the bitmap of the lists: column c has the rows of cols[c], and the padding is empty. */
  ghost predicate IsBitmapOf(g: Grid, cols: seq<seq<nat>>) {
    g.size == |cols| && Filled(g, cols, |cols|)
  }

  /** h is g with the rows ids set in column i. */
  ghost predicate Adds(g: Grid, h: Grid, i: nat, ids: seq<nat>) {
    && g.Valid() && h.Valid()
    && h.size == g.size && h.width == g.width && h.height == g.height
    && (forall r, c :: 0 <= r < g.height && 0 <= c < 8 * g.width ==>
          h.Cell(r, c) == (g.Cell(r, c) || (c == i && r in ids)))
  }

  lemma AddsNext(g: Grid, h: Grid, i: nat, ids: seq<nat>, id: nat)
    requires Adds(g, h, i, ids)
    requires id < g.height && i < 8 * g.width
    ensures Adds(g, h.Set(id, i), i, ids + [id])
  {
    CellOfSet(h, id, i, id, i);
    forall r, c | 0 <= r < g.height && 0 <= c < 8 * g.width
      ensures h.Set(id, i).Cell(r, c) == (g.Cell(r, c) || (c == i && r in ids + [id]))
    {
      CellOfSet(h, id, i, r, c);
    }
  }

  lemma FilledNext(g: Grid, h: Grid, cols: seq<seq<nat>>, i: nat)
    requires i < |cols| && Filled(g, cols, i) && Adds(g, h, i, cols[i])
    ensures Filled(h, cols, i + 1)
  {
  }

  lemma FilledNot(g: Grid, cols: seq<seq<nat>>)
    requires g.Valid() && (forall k :: 0 <= k < |g.data| ==> g.data[k] == 0)
    ensures Filled(g, cols, 0)
  {
    forall r, c | 0 <= r < g.height && 0 <= c < 8 * g.width ensures !g.Cell(r, c) {
      CellOfZeros(g, r, c);
    }
  }

  /** No identifier reaches past the rows. */
  ghost predicate Below(cols: seq<seq<nat>>, height: nat) {
    forall i :: 0 <= i < |cols| ==> AllBelow(cols[i], height)
  }

  ghost predicate AllBelow(ids: seq<nat>, height: nat) {
    forall j :: 0 <= j < |ids| ==> ids[j] < height
  }
}
