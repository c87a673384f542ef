/** The bitmap with a bid for every sample (include/bid_bitmap.hpp). */
module BidBitmap {
  import opened Bytes
  import opened Bits
  import opened Grids
  import opened Popping
  import opened Bitmap

  /** What Count finds out about the samples of a mask. */
  datatype Result = Result(bidSum: nat, targetNum: nat, winNum: nat, zeroNum: nat, bidNum: nat)

  function BidAt(bids: seq<nat>, c: nat): nat { if c < |bids| then bids[c] else 0 }

  function BidOf(bids: seq<nat>): nat -> nat { c => BidAt(bids, c) }

  function Wins(bids: seq<nat>, price: nat): nat -> nat { c => if price >= BidAt(bids, c) then 1 else 0 }

  function IsZero(bids: seq<nat>): nat -> nat { c => if BidAt(bids, c) == 0 then 1 else 0 }

  function IsPaid(bids: seq<nat>): nat -> nat { c => if BidAt(bids, c) > 0 then 1 else 0 }

  /** The five sums over the set columns from lo to hi. */
  function Sums(bids: seq<nat>, price: nat, row: seq<Byte>, lo: nat, hi: nat): Result
    requires lo <= hi <= 8 * |row|
  {
    Result(Total(BidOf(bids), row, lo, hi),
           Total(One(), row, lo, hi),
           Total(Wins(bids, price), row, lo, hi),
           Total(IsZero(bids), row, lo, hi),
           Total(IsPaid(bids), row, lo, hi))
  }

  /** A mask with no column past the samples. */
  ghost predicate Clean(row: seq<Byte>, size: nat) {
    forall c :: size <= c < 8 * |row| ==> !Column(row, c)
  }

  function Plus(r: Result, q: Result): Result {
    Result(r.bidSum + q.bidSum, r.targetNum + q.targetNum, r.winNum + q.winNum,
           r.zeroNum + q.zeroNum, r.bidNum + q.bidNum)
  }

  lemma PlusSwaps(p: Result, q: Result, r: Result)
    ensures Plus(p, Plus(q, r)) == Plus(Plus(p, r), q)
  {
  }

  function Sample(bids: seq<nat>, price: nat, c: nat): Result {
    Result(BidOf(bids)(c), 1, Wins(bids, price)(c), IsZero(bids)(c), IsPaid(bids)(c))
  }

  lemma TakeSample(bids: seq<nat>, price: nat, row: seq<Byte>, i: nat, t: nat, j: nat)
    requires i < |row| && t <= j < 8
    requires NoBits(row[i], t, j) && Bit(row[i], j)
    ensures Sums(bids, price, row, 8 * i + 7 - j, 8 * i + 8)
         == Plus(Sample(bids, price, 8 * i + 7 - j), Sums(bids, price, row, 8 * i + 8 - t, 8 * i + 8))
  {
    TakeBit(BidOf(bids), row, i, t, j);
    TakeBit(One(), row, i, t, j);
    TakeBit(Wins(bids, price), row, i, t, j);
    TakeBit(IsZero(bids), row, i, t, j);
    TakeBit(IsPaid(bids), row, i, t, j);
  }

  /** What a sample with the bid b comes to. */
  function OneSample(b: nat, price: nat): Result {
    Result(b, 1, if price >= b then 1 else 0, if b == 0 then 1 else 0, if b > 0 then 1 else 0)
  }

  lemma SampleOfBid(bids: seq<nat>, price: nat, c: nat)
    requires c < |bids|
    ensures Sample(bids, price, c) == OneSample(bids[c], price)
  {
  }

  /** The sample popped next goes to what has been summed up. */
  lemma NextSample(bids: seq<nat>, price: nat, row: seq<Byte>, i: nat, t: nat, j: nat, start: Result, r: Result)
    requires i < |row| && t <= j < 8 && Clean(row, |bids|)
    requires NoBits(row[i], t, j) && Bit(row[i], j)
    requires r == Plus(start, Sums(bids, price, row, 8 * i + 8 - t, 8 * i + 8))
    ensures 8 * i + 7 - j < |bids|
    ensures Plus(r, OneSample(bids[8 * i + 7 - j], price))
         == Plus(start, Sums(bids, price, row, 8 * i + 8 - (j + 1), 8 * i + 8))
  {
    TakeSample(bids, price, row, i, t, j);
    ColumnOfBit(row, i, j);
    SampleOfBid(bids, price, 8 * i + 7 - j);
    PlusSwaps(start, Sample(bids, price, 8 * i + 7 - j), Sums(bids, price, row, 8 * i + 8 - t, 8 * i + 8));
  }

  lemma NoSamples(bids: seq<nat>, price: nat, row: seq<Byte>, c: nat, start: Result)
    requires c <= 8 * |row|
    ensures Plus(start, Sums(bids, price, row, c, c)) == start
  {
  }

  lemma EndSamples(bids: seq<nat>, price: nat, row: seq<Byte>, i: nat, t: nat)
    requires i < |row| && t <= 8 && NoBits(row[i], t, 8)
    ensures Sums(bids, price, row, 0, 8 * i + 8)
         == Plus(Sums(bids, price, row, 0, 8 * i), Sums(bids, price, row, 8 * i + 8 - t, 8 * i + 8))
  {
    EndByte(BidOf(bids), row, i, t);
    EndByte(One(), row, i, t);
    EndByte(Wins(bids, price), row, i, t);
    EndByte(IsZero(bids), row, i, t);
    EndByte(IsPaid(bids), row, i, t);
  }

  class BidBitmap {
    const bitmap: Bitmap
    var bids: seq<nat>

    /** Every sample has a bid of 16 bits. */
    ghost predicate Valid()
      reads this, bitmap, bitmap.data
    {
      && bitmap.Value().Valid()
      && |bids| == bitmap.size
      && AllBelow(bids, 0x1_0000)
    }

    constructor ()
      ensures Valid() && bids == [] && bitmap.Value() == Grid(0, 0, 0, [])
      ensures fresh(bitmap) && fresh(bitmap.data)
    {
      bitmap := new Bitmap();
      bids := [];
    }

    /** The bitmap of the samples cols and their bids; it fails if an identifier has no row or the
        number of bids is another one. */
    method Generate(cols: seq<seq<nat>>, bids: seq<nat>, rows: nat) returns (ok: bool)
      requires |cols| < 0x1_0000_0000 && Width(|cols|) * rows < 0x1_0000_0000
      requires AllBelow(bids, 0x1_0000)
      modifies this, bitmap
      ensures fresh(bitmap.data)
      ensures ok <==> Below(cols, rows) && |bids| == |cols|
      ensures ok ==> Valid() && bitmap.height == rows && IsBitmapOf(bitmap.Value(), cols) && this.bids == bids
    {
      this.bids := [];
      ok := bitmap.Generate(cols, rows);
      if !ok {
        return;
      }
      if |bids| != bitmap.size {
        return false;
      }
      this.bids := bids;
    }

    /** What the loop of Count does with the bid of a sample. */
    static method AddSample(r: Result, b: nat, price: nat) returns (sum: Result)
      ensures sum == Plus(r, OneSample(b, price))
    {
      sum := r.(targetNum := r.targetNum + 1);
      if b > 0 {
        sum := sum.(bidSum := sum.bidSum + b, bidNum := sum.bidNum + 1);
      } else {
        sum := sum.(zeroNum := sum.zeroNum + 1);
      }
      if price >= b {
        sum := sum.(winNum := sum.winNum + 1);
      }
    }

    /** The body of the loop: the sample of the bit popped last is added, and the next bit is popped. */
    method CountPopped(row: seq<Byte>, i: nat, price: nat, ghost start: Result, ghost t: nat,
                       r: Result, j: int, s: Byte)
      returns (sum: Result, next: int, rest: Byte)
      requires i < |row| && Clean(row, |bids|) && j >= 0 && Popped(row[i], s, t, j)
      requires r == Plus(start, Sums(bids, price, row, 8 * i + 8 - t, 8 * i + 8))
      ensures Popped(row[i], rest, j + 1, next)
      ensures sum == Plus(start, Sums(bids, price, row, 8 * i + 8 - (j + 1), 8 * i + 8))
    {
      NextSample(bids, price, row, i, t, j, start, r);
      sum := AddSample(r, bids[8 * i + 7 - j], price);
      next, rest := Pop(s);
      NextPop(row[i], s, t, j, rest, next);
    }

    /** The inner loop of Count, from the first pop on; t tells how far the byte has been popped. */
    method CountBits(row: seq<Byte>, i: nat, price: nat, first: int, left: Byte, start: Result)
      returns (r: Result, ghost t: nat)
      requires i < |row| && Clean(row, |bids|) && Popped(row[i], left, 0, first)
      ensures t <= 8 && NoBits(row[i], t, 8)
      ensures r == Plus(start, Sums(bids, price, row, 8 * i + 8 - t, 8 * i + 8))
    {
      var j, s := first, left;
      r, t := start, 0;
      NoSamples(bids, price, row, 8 * i + 8, start);
      while j >= 0
        invariant Popped(row[i], s, t, j)
        invariant r == Plus(start, Sums(bids, price, row, 8 * i + 8 - t, 8 * i + 8))
        decreases 8 - t
      {
        ghost var done := j + 1;
        r, j, s := CountPopped(row, i, price, start, t, r, j, s);
        t := done;
      }
    }

    /** The loops of Count over one byte of the mask. */
    method CountByte(row: seq<Byte>, i: nat, price: nat, start: Result) returns (r: Result)
      requires i < |row| && Clean(row, |bids|)
      requires start == Sums(bids, price, row, 0, 8 * i)
      ensures r == Sums(bids, price, row, 0, 8 * i + 8)
    {
      var j, s := Pop(row[i]);
      FirstPop(row[i], j, s);
      ghost var t;
      r, t := CountBits(row, i, price, j, s, start);
      EndSamples(bids, price, row, i, t);
    }

    /** The five sums over the samples of a mask.  A set bit past the samples would be used as an index
        into the bids. */
    method Count(mask: array<Byte>, price: nat) returns (r: Result)
      requires Valid() && bitmap.width <= mask.Length
      requires Clean(mask[..bitmap.width], bitmap.size)
      ensures r == Sums(bids, price, mask[..bitmap.width], 0, 8 * bitmap.width)
    {
      r := Result(0, 0, 0, 0, 0);
      for i := 0 to bitmap.width
        invariant r == Sums(bids, price, mask[..bitmap.width], 0, 8 * i)
      {
        r := CountByte(mask[..bitmap.width], i, price, r);
      }
    }
  }
}
