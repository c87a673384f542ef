/** The bitmap of common/bitmap.hpp. */
module Bitmap {
  import opened Bytes
  import opened Bits
  import opened Grids
  import opened Popping

  function One(): nat -> nat { c => 1 }

  class Bitmap {
    var size: nat
    var width: nat
    var height: nat
    var data: array<Byte>

    ghost function Value(): Grid
      reads this, data
    {
      Grid(size, width, height, data[..])
    }

    constructor ()
      ensures Value() == Grid(0, 0, 0, [])
      ensures fresh(data)
    {
      size, width, height := 0, 0, 0;
      data := new Byte[0];
    }

    method Clear()
      modifies this
      ensures Value() == Grid(0, 0, 0, [])
      ensures fresh(data)
    {
      size, width, height := 0, 0, 0;
      data := new Byte[0];
    }

    /** The bit of a row and a column. */
    method GetBit(row: nat, col: nat) returns (bit: nat)
      requires Value().Valid() && row < height && col < 8 * width
      ensures bit == if Value().Cell(row, col) then 1 else 0
    {
      RowFits(row, width, height);
      CellIs(Value(), row, col);
      ShiftBit(data[row * width + col / 8], 7 - col % 8);
      bit := data[row * width + col / 8] / Pow2(7 - col % 8) % 2;
    }

    method SetBit(row: nat, col: nat)
      requires Value().Valid() && row < height && col < 8 * width
      modifies data
      ensures Value() == old(Value().Set(row, col))
    {
      RowFits(row, width, height);
      var k := row * width + col / 8;
      data[k] := ApplyByte(OrOp, data[k], Mask(7 - col % 8));
    }

    /** The inner loop of Generate. */
    method SetColumn(i: nat, ids: seq<nat>) returns (ok: bool)
      requires Value().Valid() && i < 8 * width
      modifies data
      ensures Value().Valid()
      ensures ok <==> AllBelow(ids, height)
      ensures ok ==> Adds(old(Value()), Value(), i, ids)
    {
      ghost var g := Value();
      for j := 0 to |ids|
        invariant Adds(g, Value(), i, ids[..j])
        invariant AllBelow(ids[..j], height)
      {
        if ids[j] >= height {
          return false;
        }
        AddsNext(g, Value(), i, ids[..j], ids[j]);
        assert ids[..j + 1] == ids[..j] + [ids[j]];
        SetBit(ids[j], i);
      }
      assert ids[..|ids|] == ids;
      ok := true;
    }

    /** The start of Generate: no column is set yet. */
    method Allocate(columns: nat, rows: nat)
      requires columns < 0x1_0000_0000 && Width(columns) * rows < 0x1_0000_0000
      modifies this
      ensures fresh(data)
      ensures Value().Valid() && size == columns && height == rows
      ensures forall k :: 0 <= k < data.Length ==> data[k] == 0
    {
      Clear();
      size := columns;
      width := (size / 64 + if size % 64 > 0 then 1 else 0) * 8;
      height := rows;
      data := new Byte[width * height](_ => 0);
    }

    /** The bitmap of the samples cols, which must fit 32-bit sizes; an identifier that has no row
        makes it fail. */
    method Generate(cols: seq<seq<nat>>, rows: nat) returns (ok: bool)
      requires |cols| < 0x1_0000_0000 && Width(|cols|) * rows < 0x1_0000_0000
      modifies this
      ensures fresh(data)
      ensures Value().Valid() && height == rows
      ensures ok <==> Below(cols, rows)
      ensures ok ==> IsBitmapOf(Value(), cols)
    {
      Allocate(|cols|, rows);
      FilledNot(Value(), cols);
      for i := 0 to |cols|
        invariant size == |cols| && height == rows && fresh(data)
        invariant Filled(Value(), cols, i)
        invariant forall k :: 0 <= k < i ==> AllBelow(cols[k], rows)
      {
        ghost var g := Value();
        ok := SetColumn(i, cols[i]);
        if !ok {
          return false;
        }
        FilledNext(g, Value(), cols, i);
      }
      ok := true;
    }

    // --------------------------------------------------------------- And and Or

    /** The loops run over whole words. */
    function Bound(): nat
      reads this
    {
      width / 8 + if width % 8 > 0 then 1 else 0
    }

    /** Where a row starts. */
    method RowStart(r: nat, ghost row: seq<Byte>) returns (at: nat)
      requires Value().Valid() && r < height && row == Value().Row(r)
      ensures 8 * Bound() == width
      ensures at + 8 * Bound() <= data.Length
      ensures data[at..at + 8 * Bound()] == row
    {
      RowFits(r, width, height);
      at := r * width;
    }

    /** And and Or of two rows. */
    method CombineRows(op: Op, first: nat, second: nat, result: array<Byte>, at: nat)
      requires Value().Valid() && first < height && second < height
      requires at + width <= result.Length && result != data
      modifies result
      ensures result[at..at + width] == Zip(op, old(Value().Row(first)), old(Value().Row(second)))
      ensures Untouched(old(result[..]), result, at, width)
    {
      ghost var t := Value().Row(second);
      var j := RowStart(second, t);
      CombineRow(op, first, data, j, result, at);
    }

    /** And and Or of a row and a buffer, which the result may be written over. */
    method CombineRow(op: Op, first: nat, second: array<Byte>, from: nat, result: array<Byte>, at: nat)
      requires Value().Valid() && first < height
      requires from + width <= second.Length && at + width <= result.Length && result != data
      requires second != result || from == at || from + width <= at || at + width <= from
      modifies result
      ensures result[at..at + width] == Zip(op, old(Value().Row(first)), old(second[from..from + width]))
      ensures Untouched(old(result[..]), result, at, width)
    {
      ghost var s := Value().Row(first);
      var i := RowStart(first, s);
      Combine(op, data, i, second, from, result, at, Bound());
    }

    /** And and Or of two buffers. */
    method CombineBuffers(op: Op, first: array<Byte>, i: nat, second: array<Byte>, j: nat, result: array<Byte>, at: nat)
      requires Value().Valid()
      requires i + width <= first.Length && j + width <= second.Length && at + width <= result.Length
      requires first != result || i == at || i + width <= at || at + width <= i
      requires second != result || j == at || j + width <= at || at + width <= j
      modifies result
      ensures result[at..at + width] == Zip(op, old(first[i..i + width]), old(second[j..j + width]))
      ensures Untouched(old(result[..]), result, at, width)
    {
      Combine(op, first, i, second, j, result, at, Bound());
    }

    // --------------------------------------------------------------- Count

    /** Both Count loops: the number of set columns of a row. */
    static method CountColumns(row: seq<Byte>) returns (sum: nat)
      ensures sum == Total(One(), row, 0, 8 * |row|)
    {
      sum := 0;
      for i := 0 to |row|
        invariant sum == Total(One(), row, 0, 8 * i)
      {
        sum := CountByte(row, i, sum);
      }
    }

    static method CountByte(row: seq<Byte>, i: nat, start: nat) returns (sum: nat)
      requires i < |row| && start == Total(One(), row, 0, 8 * i)
      ensures sum == Total(One(), row, 0, 8 * i + 8)
    {
      sum := start;
      ghost var t := 0;
      var j, s := Pop(row[i]);
      FirstPop(row[i], j, s);
      while j >= 0
        invariant Popped(row[i], s, t, j)
        invariant sum == start + Total(One(), row, 8 * i + 8 - t, 8 * i + 8)
        decreases 8 - t
      {
        TakeBit(One(), row, i, t, j);
        sum := sum + 1;
        ghost var k, u := j, s;
        j, s := Pop(s);
        NextPop(row[i], u, t, k, s, j);
        t := k + 1;
      }
      EndByte(One(), row, i, t);
    }

    /** The number of set columns of a mask. */
    method CountMask(mask: array<Byte>) returns (sum: nat)
      requires width <= mask.Length
      ensures sum == Total(One(), mask[..width], 0, 8 * width)
    {
      sum := CountColumns(mask[..width]);
    }

    /** The number of set columns of a row, 0 for a row that does not exist. */
    method CountRow(index: nat) returns (sum: nat)
      requires Value().Valid()
      ensures sum == if index < height then Total(One(), Value().Row(index), 0, 8 * width) else 0
    {
      sum := 0;
      if index < height {
        RowFits(index, width, height);
        sum := CountColumns(data[index * width..index * width + width]);
      }
    }
  }
}
