/** Evaluating the targeting of a request on a bitmap (src/request_handler.cc): an AND of groups, each
    an OR of targets, worked out in place on two scratch buffers. */
module Query {
  import opened Bytes
  import opened Bits
  import opened Grids
  import opened Popping
  import opened Bitmap
  import opened BidBitmap

  // ----------------------------------------------------------------- what a targeting means

  /** The column has one of the targets. */
  ghost predicate AnyRow(g: Grid, ids: seq<nat>, c: nat)
    requires g.Valid() && AllBelow(ids, g.height) && c < 8 * g.width
  {
    exists j :: 0 <= j < |ids| && g.Cell(ids[j], c)
  }

  /** The groups can be looked up: none is empty and every target has a row. */
  ghost predicate Usable(g: Grid, groups: seq<seq<nat>>) {
    forall i :: 0 <= i < |groups| ==> groups[i] != [] && AllBelow(groups[i], g.height)
  }

  /** The column has a target of every group. */
  ghost predicate Satisfied(g: Grid, groups: seq<seq<nat>>, c: nat)
    requires g.Valid() && Usable(g, groups) && c < 8 * g.width
  {
    forall i :: 0 <= i < |groups| ==> AnyRow(g, groups[i], c)
  }

  ghost predicate MarksAny(g: Grid, ids: seq<nat>, mask: seq<Byte>) {
    && g.Valid() && AllBelow(ids, g.height)
    && |mask| == g.width
    && (forall c :: 0 <= c < 8 * g.width ==> Column(mask, c) == AnyRow(g, ids, c))
  }

  /** The mask has exactly the columns that the groups ask for, in the padding as well. */
  ghost predicate MarksAll(g: Grid, groups: seq<seq<nat>>, mask: seq<Byte>) {
    && g.Valid() && Usable(g, groups)
    && |mask| == g.width
    && (forall c :: 0 <= c < 8 * g.width ==> Column(mask, c) == Satisfied(g, groups, c))
  }

  // ----------------------------------------------------------------- one operator at a time

  lemma AnyOfOne(g: Grid, id: nat, c: nat)
    requires g.Valid() && id < g.height && c < 8 * g.width
    ensures AnyRow(g, [id], c) == g.Cell(id, c)
  {
    if g.Cell(id, c) {
      assert g.Cell([id][0], c);
    }
  }

  lemma AnyOfMore(g: Grid, ids: seq<nat>, id: nat, c: nat)
    requires g.Valid() && AllBelow(ids, g.height) && id < g.height && c < 8 * g.width
    ensures AllBelow(ids + [id], g.height)
    ensures AnyRow(g, ids + [id], c) == (AnyRow(g, ids, c) || g.Cell(id, c))
  {
    if g.Cell(id, c) {
      assert g.Cell((ids + [id])[|ids|], c);
    }
    if AnyRow(g, ids, c) {
      var j :| 0 <= j < |ids| && g.Cell(ids[j], c);
      assert g.Cell((ids + [id])[j], c);
    }
  }

  lemma RowMarks(g: Grid, id: nat)
    requires g.Valid() && id < g.height
    ensures MarksAny(g, [id], g.Row(id))
  {
    forall c | 0 <= c < 8 * g.width ensures Column(g.Row(id), c) == AnyRow(g, [id], c) {
      AnyOfOne(g, id, c);
    }
  }

  lemma OrMarks(g: Grid, ids: seq<nat>, mask: seq<Byte>, id: nat)
    requires MarksAny(g, ids, mask) && id < g.height
    ensures MarksAny(g, ids + [id], Zip(OrOp, g.Row(id), mask))
  {
    forall c | 0 <= c < 8 * g.width
      ensures Column(Zip(OrOp, g.Row(id), mask), c) == AnyRow(g, ids + [id], c)
    {
      ColumnOfZip(OrOp, g.Row(id), mask, c);
      AnyOfMore(g, ids, id, c);
    }
  }

  lemma SatisfiedMore(g: Grid, groups: seq<seq<nat>>, ids: seq<nat>, c: nat)
    requires g.Valid() && Usable(g, groups) && ids != [] && AllBelow(ids, g.height) && c < 8 * g.width
    ensures Usable(g, groups + [ids])
    ensures Satisfied(g, groups + [ids], c) == (Satisfied(g, groups, c) && AnyRow(g, ids, c))
  {
    var more := groups + [ids];
    assert more[|groups|] == ids;
    forall i | 0 <= i < |groups| ensures more[i] == groups[i] {
    }
  }

  lemma AndMarks(g: Grid, groups: seq<seq<nat>>, all: seq<Byte>, ids: seq<nat>, any: seq<Byte>)
    requires MarksAll(g, groups, all) && ids != [] && MarksAny(g, ids, any)
    ensures MarksAll(g, groups + [ids], Zip(AndOp, all, any))
    ensures MarksAll(g, groups + [ids], Zip(AndOp, any, all))
  {
    forall c | 0 <= c < 8 * g.width
      ensures Column(Zip(AndOp, all, any), c) == Satisfied(g, groups + [ids], c)
      ensures Column(Zip(AndOp, any, all), c) == Satisfied(g, groups + [ids], c)
    {
      ColumnOfZip(AndOp, all, any, c);
      ColumnOfZip(AndOp, any, all, c);
      SatisfiedMore(g, groups, ids, c);
    }
  }

  lemma AnyMarksAll(g: Grid, ids: seq<nat>, mask: seq<Byte>)
    requires ids != [] && MarksAny(g, ids, mask)
    ensures MarksAll(g, [ids], mask)
  {
    forall c | 0 <= c < 8 * g.width ensures AnyRow(g, ids, c) == Satisfied(g, [ids], c) {
      SatisfiedMore(g, [], ids, c);
      assert [] + [ids] == [ids];
    }
  }

  lemma OrSelf(row: seq<Byte>)
    ensures Zip(OrOp, row, row) == row
  {
    forall i | 0 <= i < |row| ensures Apply(OrOp, row[i], row[i]) == row[i] {
      OrSame(row[i]);
    }
  }

  lemma {:induction false} OrSame(x: nat)
    ensures Or(x, x) == x
  {
    if x > 0 {
      OrSame(x / 2);
    }
  }

  lemma OrBoth(g: Grid, first: nat, second: nat)
    requires g.Valid() && first < g.height && second < g.height
    ensures MarksAny(g, [first, second], Zip(OrOp, g.Row(first), g.Row(second)))
  {
    RowMarks(g, second);
    OrMarks(g, [second], g.Row(second), first);
    assert [second] + [first] == [second, first];
    forall c | 0 <= c < 8 * g.width ensures AnyRow(g, [first, second], c) == AnyRow(g, [second, first], c) {
      AnyOfOne(g, first, c);
      AnyOfOne(g, second, c);
      AnyOfMore(g, [first], second, c);
      AnyOfMore(g, [second], first, c);
      assert [first] + [second] == [first, second];
    }
  }

  lemma AllOnes(g: Grid, mask: seq<Byte>)
    requires g.Valid() && |mask| == g.width
    requires forall k :: 0 <= k < |mask| ==> mask[k] == 0xff
    ensures MarksAll(g, [], mask)
    ensures forall c :: 0 <= c < 8 * g.width ==> Column(mask, c)
  {
    forall c | 0 <= c < 8 * g.width ensures Column(mask, c) {
      OneBits(7 - c % 8, 8);
      ByteIs8Bits();
    }
  }

  lemma {:induction false} OneBits(j: nat, n: nat)
    requires j < n
    ensures Bit(Pow2(n) - 1, j)
    decreases n
  {
    assert (Pow2(n) - 1) / 2 == Pow2(n - 1) - 1;
    if j > 0 {
      OneBits(j - 1, n - 1);
    }
  }

  // ----------------------------------------------------------------- GetTarget

  /** The size of each of the two scratch buffers. */
  const BUFFER := 10000000

  class Evaluator {
    const scratch: array<Byte>
    var targetings: seq<seq<nat>>

    constructor (targetings: seq<seq<nat>>)
      ensures scratch.Length == 2 * BUFFER && fresh(scratch)
      ensures this.targetings == targetings
    {
      this.targetings := targetings;
      scratch := new Byte[2 * BUFFER](_ => 0);
    }

    /** The first two rows of a group, or the only one. */
    method OrFirst(bitmap: Bitmap, ids: seq<nat>, at: nat)
      requires bitmap.Value().Valid() && ids != [] && AllBelow(ids, bitmap.height)
      requires at + bitmap.width <= scratch.Length && bitmap.data != scratch
      modifies scratch
      ensures MarksAny(bitmap.Value(), if |ids| < 2 then ids else ids[..2], scratch[at..at + bitmap.width])
      ensures Untouched(old(scratch[..]), scratch, at, bitmap.width)
    {
      ghost var g := bitmap.Value();
      if |ids| < 2 {
        bitmap.CombineRows(OrOp, ids[0], ids[0], scratch, at);
        RowMarks(g, ids[0]);
        OrSelf(g.Row(ids[0]));
        assert ids == [ids[0]];
      } else {
        bitmap.CombineRows(OrOp, ids[0], ids[1], scratch, at);
        OrBoth(g, ids[0], ids[1]);
        assert ids[..2] == [ids[0], ids[1]];
      }
    }

    /** One more row of a group. */
    method OrNext(bitmap: Bitmap, ids: seq<nat>, j: nat, at: nat)
      requires bitmap.Value().Valid() && j < |ids| && AllBelow(ids, bitmap.height)
      requires at + bitmap.width <= scratch.Length && bitmap.data != scratch
      requires MarksAny(bitmap.Value(), ids[..j], scratch[at..at + bitmap.width])
      modifies scratch
      ensures MarksAny(bitmap.Value(), ids[..j + 1], scratch[at..at + bitmap.width])
      ensures Untouched(old(scratch[..]), scratch, at, bitmap.width)
    {
      OrMarks(bitmap.Value(), ids[..j], scratch[at..at + bitmap.width], ids[j]);
      assert ids[..j + 1] == ids[..j] + [ids[j]];
      bitmap.CombineRow(OrOp, ids[j], scratch, at, scratch, at);
    }

    /** The OR of a group, in the buffer at `at`. */
    method OrGroup(bitmap: Bitmap, ids: seq<nat>, at: nat)
      requires bitmap.Value().Valid() && ids != [] && AllBelow(ids, bitmap.height)
      requires at + bitmap.width <= scratch.Length && bitmap.data != scratch
      modifies scratch
      ensures MarksAny(bitmap.Value(), ids, scratch[at..at + bitmap.width])
      ensures Untouched(old(scratch[..]), scratch, at, bitmap.width)
    {
      ghost var before := scratch[..];
      OrFirst(bitmap, ids, at);
      if |ids| < 2 {
        return;
      }
      for j := 2 to |ids|
        invariant MarksAny(bitmap.Value(), ids[..j], scratch[at..at + bitmap.width])
        invariant Untouched(before, scratch, at, bitmap.width)
      {
        OrNext(bitmap, ids, j, at);
      }
      assert ids[..|ids|] == ids;
    }

    /** memset with 0xff. */
    method SetOnes(n: nat)
      requires n <= scratch.Length
      modifies scratch
      ensures forall k :: 0 <= k < n ==> scratch[k] == 0xff
    {
      forall k | 0 <= k < n { scratch[k] := 0xff; }
    }

    /** One more group, of which the OR is worked out in the second buffer unless it is a single row. */
    method AndGroup(bitmap: Bitmap, ids: seq<nat>, ghost groups: seq<seq<nat>>)
      requires bitmap.Value().Valid() && ids != [] && AllBelow(ids, bitmap.height)
      requires bitmap.width <= BUFFER && scratch.Length == 2 * BUFFER && bitmap.data != scratch
      requires MarksAll(bitmap.Value(), groups, scratch[..bitmap.width])
      modifies scratch
      ensures MarksAll(bitmap.Value(), groups + [ids], scratch[..bitmap.width])
    {
      ghost var g := bitmap.Value();
      ghost var all := scratch[..bitmap.width];
      assert all == scratch[0..0 + bitmap.width];
      if |ids| < 2 {
        RowMarks(g, ids[0]);
        assert ids == [ids[0]];
        AndMarks(g, groups, all, ids, g.Row(ids[0]));
        bitmap.CombineRow(AndOp, ids[0], scratch, 0, scratch, 0);
      } else {
        OrGroup(bitmap, ids, BUFFER);
        assert scratch[..bitmap.width] == all;
        AndMarks(g, groups, all, ids, scratch[BUFFER..BUFFER + bitmap.width]);
        bitmap.CombineBuffers(AndOp, scratch, 0, scratch, BUFFER, scratch, 0);
      }
      assert scratch[..bitmap.width] == scratch[0..0 + bitmap.width];
    }

    /** The mask of the samples that satisfy the targeting, at the start of the scratch memory. */
    method GetTarget(bitmap: Bitmap)
      requires bitmap.Value().Valid() && Usable(bitmap.Value(), targetings)
      requires bitmap.width <= BUFFER && scratch.Length == 2 * BUFFER && bitmap.data != scratch
      modifies scratch
      ensures MarksAll(bitmap.Value(), targetings, scratch[..bitmap.width])
    {
      ghost var g := bitmap.Value();
      if targetings == [] {
        SetOnes(bitmap.width);
        AllOnes(g, scratch[..bitmap.width]);
        return;
      }
      OrGroup(bitmap, targetings[0], 0);
      assert scratch[..bitmap.width] == scratch[0..0 + bitmap.width];
      AnyMarksAll(g, targetings[0], scratch[..bitmap.width]);
      assert targetings[..1] == [targetings[0]];
      AndRest(bitmap);
    }

    /** The loop of GetTarget. */
    method AndRest(bitmap: Bitmap)
      requires bitmap.Value().Valid() && Usable(bitmap.Value(), targetings) && targetings != []
      requires bitmap.width <= BUFFER && scratch.Length == 2 * BUFFER && bitmap.data != scratch
      requires MarksAll(bitmap.Value(), targetings[..1], scratch[..bitmap.width])
      modifies scratch
      ensures MarksAll(bitmap.Value(), targetings, scratch[..bitmap.width])
    {
      ghost var g := bitmap.Value();
      for i := 1 to |targetings|
        invariant bitmap.Value() == g
        invariant MarksAll(g, targetings[..i], scratch[..g.width])
      {
        AndGroup(bitmap, targetings[i], targetings[..i]);
        assert targetings[..i + 1] == targetings[..i] + [targetings[i]];
      }
      assert targetings[..|targetings|] == targetings;
    }
  }
}
