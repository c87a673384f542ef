/** The answer a request gets from a bitmap is the one that looking at the samples one by one gives. */
module Scan {
  import opened Bytes
  import opened Bits
  import opened Grids
  import opened Popping
  import opened Bitmap
  import opened BidBitmap
  import opened Query

  // ----------------------------------------------------------------- one sample after the other

  predicate HasTarget(sample: seq<nat>, group: seq<nat>) {
    exists j :: 0 <= j < |group| && group[j] in sample
  }

  /** The sample has a target of every group. */
  predicate Hit(sample: seq<nat>, groups: seq<seq<nat>>) {
    forall i :: 0 <= i < |groups| ==> HasTarget(sample, groups[i])
  }

  /** The sum of v over the bids of those of the first n samples that satisfy the targeting. */
  function Weigh(v: nat -> nat, cols: seq<seq<nat>>, bids: seq<nat>, groups: seq<seq<nat>>, n: nat): nat
    requires n <= |cols| == |bids|
  {
    if n == 0 then 0
    else Weigh(v, cols, bids, groups, n - 1) + if Hit(cols[n - 1], groups) then v(bids[n - 1]) else 0
  }

  function Itself(): nat -> nat { b => b }

  function Unit(): nat -> nat { b => 1 }

  function WinsAt(price: nat): nat -> nat { b => if price >= b then 1 else 0 }

  function ZeroBid(): nat -> nat { b => if b == 0 then 1 else 0 }

  function PaidBid(): nat -> nat { b => if b > 0 then 1 else 0 }

  /** What looking at the samples one by one finds out. */
  function Scanned(cols: seq<seq<nat>>, bids: seq<nat>, price: nat, groups: seq<seq<nat>>): Result
    requires |cols| == |bids|
  {
    Result(Weigh(Itself(), cols, bids, groups, |cols|),
           Weigh(Unit(), cols, bids, groups, |cols|),
           Weigh(WinsAt(price), cols, bids, groups, |cols|),
           Weigh(ZeroBid(), cols, bids, groups, |cols|),
           Weigh(PaidBid(), cols, bids, groups, |cols|))
  }

  // ----------------------------------------------------------------- the counts as sizes of sets

  /** Those of the first n samples that satisfy the targeting and whose bid v counts. */
  function Counted(v: nat -> nat, cols: seq<seq<nat>>, bids: seq<nat>, groups: seq<seq<nat>>, n: nat): set<nat>
    requires n <= |cols| == |bids|
  {
    set c | 0 <= c < n && Hit(cols[c], groups) && v(bids[c]) == 1
  }

  lemma {:induction false} WeighIsSize(v: nat -> nat, cols: seq<seq<nat>>, bids: seq<nat>,
                                       groups: seq<seq<nat>>, n: nat)
    requires n <= |cols| == |bids|
    requires forall b :: v(b) <= 1
    ensures Weigh(v, cols, bids, groups, n) == |Counted(v, cols, bids, groups, n)|
  {
    if n > 0 {
      WeighIsSize(v, cols, bids, groups, n - 1);
      CountedNext(v, cols, bids, groups, n - 1);
    }
  }

  lemma CountedNext(v: nat -> nat, cols: seq<seq<nat>>, bids: seq<nat>, groups: seq<seq<nat>>, n: nat)
    requires n < |cols| == |bids|
    ensures |Counted(v, cols, bids, groups, n + 1)|
         == |Counted(v, cols, bids, groups, n)| + if Hit(cols[n], groups) && v(bids[n]) == 1 then 1 else 0
  {
    var before, after := Counted(v, cols, bids, groups, n), Counted(v, cols, bids, groups, n + 1);
    SizeNext(before, after, n, Hit(cols[n], groups) && v(bids[n]) == 1);
  }

  lemma SizeNext(before: set<nat>, after: set<nat>, n: nat, more: bool)
    requires n !in before && (forall c :: c in after <==> c in before || (more && c == n))
    ensures |after| == |before| + if more then 1 else 0
  {
    assert after == before + if more then {n} else {};
  }

  /** The counts are the sizes of the sets that the result is documented to stand for. */
  lemma ScanCountsSamples(cols: seq<seq<nat>>, bids: seq<nat>, price: nat, groups: seq<seq<nat>>)
    requires |cols| == |bids|
    ensures var r := Scanned(cols, bids, price, groups);
            && r.targetNum == |set c | 0 <= c < |cols| && Hit(cols[c], groups)|
            && r.winNum == |set c | 0 <= c < |cols| && Hit(cols[c], groups) && bids[c] <= price|
            && r.zeroNum == |set c | 0 <= c < |cols| && Hit(cols[c], groups) && bids[c] == 0|
            && r.bidNum == |set c | 0 <= c < |cols| && Hit(cols[c], groups) && bids[c] > 0|
  {
    WeighIsSize(Unit(), cols, bids, groups, |cols|);
    WeighIsSize(WinsAt(price), cols, bids, groups, |cols|);
    WeighIsSize(ZeroBid(), cols, bids, groups, |cols|);
    WeighIsSize(PaidBid(), cols, bids, groups, |cols|);
    assert Counted(Unit(), cols, bids, groups, |cols|) == set c | 0 <= c < |cols| && Hit(cols[c], groups);
    assert Counted(WinsAt(price), cols, bids, groups, |cols|)
        == set c | 0 <= c < |cols| && Hit(cols[c], groups) && bids[c] <= price;
    assert Counted(ZeroBid(), cols, bids, groups, |cols|)
        == set c | 0 <= c < |cols| && Hit(cols[c], groups) && bids[c] == 0;
    assert Counted(PaidBid(), cols, bids, groups, |cols|)
        == set c | 0 <= c < |cols| && Hit(cols[c], groups) && bids[c] > 0;
  }

  // ----------------------------------------------------------------- the sum of the bids

  /** How many of the first n samples that satisfy the targeting are lost at the price. */
  function Lost(cols: seq<seq<nat>>, bids: seq<nat>, price: nat, groups: seq<seq<nat>>): int
    requires |cols| == |bids|
  {
    var r := Scanned(cols, bids, price, groups);
    r.targetNum - r.winNum
  }

  /** The samples lost at each of the prices below the top, taken together. */
  function LostBelow(cols: seq<seq<nat>>, bids: seq<nat>, top: nat, groups: seq<seq<nat>>): int
    requires |cols| == |bids|
  {
    if top == 0 then 0 else LostBelow(cols, bids, top - 1, groups) + Lost(cols, bids, top - 1, groups)
  }

  /** A bid counts in the sum once for every price below it: the sum of the bids is that of the samples lost
      at the prices below the highest bid. */
  lemma BidSumIsLost(cols: seq<seq<nat>>, bids: seq<nat>, price: nat, groups: seq<seq<nat>>)
    requires |cols| == |bids| && (forall c :: 0 <= c < |bids| ==> bids[c] <= 0xffff)
    ensures Scanned(cols, bids, price, groups).bidSum == LostBelow(cols, bids, 0xffff, groups)
  {
    LostIsCut(cols, bids, 0xffff, groups);
    CutAtTop(cols, bids, 0xffff, groups, |cols|);
  }

  /** A bid, cut at a top. */
  function Cut(top: nat): nat -> nat { b => if b < top then b else top }

  lemma {:induction false} LostIsCut(cols: seq<seq<nat>>, bids: seq<nat>, top: nat, groups: seq<seq<nat>>)
    requires |cols| == |bids|
    ensures LostBelow(cols, bids, top, groups) == Weigh(Cut(top), cols, bids, groups, |cols|)
    decreases top
  {
    if top == 0 {
      NothingCut(cols, bids, groups, |cols|);
    } else {
      LostIsCut(cols, bids, top - 1, groups);
      CutGrows(cols, bids, top - 1, groups, |cols|);
    }
  }

  lemma {:induction false} NothingCut(cols: seq<seq<nat>>, bids: seq<nat>, groups: seq<seq<nat>>, n: nat)
    requires n <= |cols| == |bids|
    ensures Weigh(Cut(0), cols, bids, groups, n) == 0
  {
    if n > 0 {
      NothingCut(cols, bids, groups, n - 1);
    }
  }

  lemma {:induction false} CutGrows(cols: seq<seq<nat>>, bids: seq<nat>, top: nat, groups: seq<seq<nat>>, n: nat)
    requires n <= |cols| == |bids|
    ensures Weigh(Cut(top + 1), cols, bids, groups, n)
         == Weigh(Cut(top), cols, bids, groups, n) + Weigh(Unit(), cols, bids, groups, n)
            - Weigh(WinsAt(top), cols, bids, groups, n)
  {
    if n > 0 {
      CutGrows(cols, bids, top, groups, n - 1);
    }
  }

  lemma {:induction false} CutAtTop(cols: seq<seq<nat>>, bids: seq<nat>, top: nat, groups: seq<seq<nat>>, n: nat)
    requires n <= |cols| == |bids| && (forall c :: 0 <= c < |bids| ==> bids[c] <= top)
    ensures Weigh(Cut(top), cols, bids, groups, n) == Weigh(Itself(), cols, bids, groups, n)
  {
    if n > 0 {
      CutAtTop(cols, bids, top, groups, n - 1);
    }
  }

  // ----------------------------------------------------------------- the bitmap agrees with the samples

  lemma ColumnHit(g: Grid, cols: seq<seq<nat>>, groups: seq<seq<nat>>, c: nat)
    requires IsBitmapOf(g, cols) && Usable(g, groups) && c < |cols|
    ensures Satisfied(g, groups, c) == Hit(cols[c], groups)
  {
    forall i | 0 <= i < |groups| ensures AnyRow(g, groups[i], c) == HasTarget(cols[c], groups[i]) {
      ColumnHasTarget(g, cols, groups[i], c);
    }
  }

  lemma ColumnHasTarget(g: Grid, cols: seq<seq<nat>>, ids: seq<nat>, c: nat)
    requires IsBitmapOf(g, cols) && AllBelow(ids, g.height) && c < |cols|
    ensures AnyRow(g, ids, c) == HasTarget(cols[c], ids)
  {
    forall j | 0 <= j < |ids| ensures g.Cell(ids[j], c) == (ids[j] in cols[c]) {
    }
  }

  /** In the padding no group of a bitmap has a target. */
  lemma PaddingHasNone(g: Grid, cols: seq<seq<nat>>, groups: seq<seq<nat>>, c: nat)
    requires IsBitmapOf(g, cols) && Usable(g, groups) && |cols| <= c < 8 * g.width
    requires groups != []
    ensures !Satisfied(g, groups, c)
  {
    forall j | 0 <= j < |groups[0]| ensures !g.Cell(groups[0][j], c) {
    }
    assert !AnyRow(g, groups[0], c);
  }

  /** The mask of a targeting has no bits in the padding exactly if there is a group or no padding. */
  lemma WhenMaskIsClean(g: Grid, cols: seq<seq<nat>>, groups: seq<seq<nat>>, mask: seq<Byte>)
    requires IsBitmapOf(g, cols) && MarksAll(g, groups, mask)
    ensures Clean(mask, |cols|) <==> groups != [] || |cols| % 64 == 0
  {
    if groups != [] {
      forall c | |cols| <= c < 8 * |mask| ensures !Column(mask, c) {
        PaddingHasNone(g, cols, groups, c);
      }
    } else if |cols| % 64 != 0 {
      WidthIsExact(|cols|);
      assert Satisfied(g, groups, |cols|);
      assert Column(mask, |cols|);
    } else {
      WidthIsExact(|cols|);
    }
  }

  lemma WidthIsExact(size: nat)
    ensures 8 * Width(size) == size <==> size % 64 == 0
  {
  }

  lemma {:induction false} TotalIsWeigh(f: nat -> nat, v: nat -> nat, row: seq<Byte>,
                                        cols: seq<seq<nat>>, bids: seq<nat>, groups: seq<seq<nat>>, n: nat)
    requires n <= |cols| == |bids| && n <= 8 * |row|
    requires forall c :: 0 <= c < n ==> Column(row, c) == Hit(cols[c], groups)
    requires forall c :: 0 <= c < n ==> f(c) == v(bids[c])
    ensures Total(f, row, 0, n) == Weigh(v, cols, bids, groups, n)
  {
    if n > 0 {
      TotalIsWeigh(f, v, row, cols, bids, groups, n - 1);
      TotalConcat(f, row, 0, n - 1, n);
    }
  }

  lemma MaskTotal(f: nat -> nat, v: nat -> nat, row: seq<Byte>,
                  cols: seq<seq<nat>>, bids: seq<nat>, groups: seq<seq<nat>>)
    requires |cols| == |bids| && |cols| <= 8 * |row| && Clean(row, |cols|)
    requires forall c :: 0 <= c < |cols| ==> Column(row, c) == Hit(cols[c], groups)
    requires forall c :: 0 <= c < |cols| ==> f(c) == v(bids[c])
    ensures Total(f, row, 0, 8 * |row|) == Weigh(v, cols, bids, groups, |cols|)
  {
    TotalConcat(f, row, 0, |cols|, 8 * |row|);
    TotalOfNone(f, row, |cols|, 8 * |row|);
    TotalIsWeigh(f, v, row, cols, bids, groups, |cols|);
  }

  /** The sums over the mask are the sums over the samples. */
  lemma SumsAreScanned(g: Grid, cols: seq<seq<nat>>, bids: seq<nat>, price: nat, groups: seq<seq<nat>>, mask: seq<Byte>)
    requires IsBitmapOf(g, cols) && MarksAll(g, groups, mask) && Clean(mask, |cols|)
    requires |bids| == |cols|
    ensures Sums(bids, price, mask, 0, 8 * |mask|) == Scanned(cols, bids, price, groups)
  {
    forall c | 0 <= c < |cols| ensures Column(mask, c) == Hit(cols[c], groups) {
      ColumnHit(g, cols, groups, c);
    }
    MaskTotal(BidOf(bids), Itself(), mask, cols, bids, groups);
    MaskTotal(One(), Unit(), mask, cols, bids, groups);
    MaskTotal(Wins(bids, price), WinsAt(price), mask, cols, bids, groups);
    MaskTotal(IsZero(bids), ZeroBid(), mask, cols, bids, groups);
    MaskTotal(IsPaid(bids), PaidBid(), mask, cols, bids, groups);
  }

  /** A request on one bitmap: the samples are marked in the scratch memory and counted there.  Without
      a targeting this needs a number of samples that leaves no padding. */
  method Ask(evaluator: Evaluator, bitmap: BidBitmap, price: nat, ghost cols: seq<seq<nat>>) returns (r: Result)
    requires bitmap.Valid() && IsBitmapOf(bitmap.bitmap.Value(), cols)
    requires Usable(bitmap.bitmap.Value(), evaluator.targetings)
    requires evaluator.targetings != [] || |cols| % 64 == 0
    requires bitmap.bitmap.width <= BUFFER && evaluator.scratch.Length == 2 * BUFFER
    requires bitmap.bitmap.data != evaluator.scratch
    modifies evaluator.scratch
    ensures r == Scanned(cols, bitmap.bids, price, evaluator.targetings)
  {
    ghost var g := bitmap.bitmap.Value();
    evaluator.GetTarget(bitmap.bitmap);
    ghost var mask := evaluator.scratch[..g.width];
    WhenMaskIsClean(g, cols, evaluator.targetings, mask);
    SumsAreScanned(g, cols, bitmap.bids, price, evaluator.targetings, mask);
    r := bitmap.Count(evaluator.scratch, price);
  }

  // ----------------------------------------------------------------- what the counts have to do with each other

  lemma {:induction false} TotalMonotone(f: nat -> nat, h: nat -> nat, row: seq<Byte>, lo: nat, hi: nat)
    requires lo <= hi <= 8 * |row|
    requires forall c :: f(c) <= h(c)
    ensures Total(f, row, lo, hi) <= Total(h, row, lo, hi)
    decreases hi - lo
  {
    if lo < hi {
      TotalMonotone(f, h, row, lo + 1, hi);
    }
  }

  lemma {:induction false} TotalAdds(f: nat -> nat, h: nat -> nat, sum: nat -> nat, row: seq<Byte>, lo: nat, hi: nat)
    requires lo <= hi <= 8 * |row|
    requires forall c :: sum(c) == f(c) + h(c)
    ensures Total(sum, row, lo, hi) == Total(f, row, lo, hi) + Total(h, row, lo, hi)
    decreases hi - lo
  {
    if lo < hi {
      TotalAdds(f, h, sum, row, lo + 1, hi);
    }
  }

  /** Samples with and without a bid make up the targeted ones; a sample without a bid is won at any
      price; a higher price wins no less. */
  lemma CountsAreSane(bids: seq<nat>, price: nat, higher: nat, row: seq<Byte>)
    requires price <= higher
    ensures var r, q := Sums(bids, price, row, 0, 8 * |row|), Sums(bids, higher, row, 0, 8 * |row|);
            && r.zeroNum + r.bidNum == r.targetNum
            && r.zeroNum <= r.winNum <= r.targetNum
            && r.bidNum <= r.bidSum
            && r.winNum <= q.winNum
            && q == r.(winNum := q.winNum)
  {
    var n := 8 * |row|;
    TotalAdds(IsZero(bids), IsPaid(bids), One(), row, 0, n);
    TotalMonotone(IsZero(bids), Wins(bids, price), row, 0, n);
    TotalMonotone(Wins(bids, price), One(), row, 0, n);
    TotalMonotone(IsPaid(bids), BidOf(bids), row, 0, n);
    TotalMonotone(Wins(bids, price), Wins(bids, higher), row, 0, n);
  }

  // ----------------------------------------------------------------- from the names of targets to rows

  /** The rows of the targets of a group that are known. */
  function Known(rows: map<Name, nat>, names: seq<Name>): seq<nat> {
    if names == [] then []
    else
      var before := Known(rows, names[..|names| - 1]);
      var name := names[|names| - 1];
      if name in rows then before + [rows[name]] else before
  }

  /** The groups without those in which no target is known. */
  function Encoded(rows: map<Name, nat>, groups: seq<seq<Name>>): seq<seq<nat>> {
    if groups == [] then []
    else
      var before := Encoded(rows, groups[..|groups| - 1]);
      var known := Known(rows, groups[|groups| - 1]);
      if known != [] then before + [known] else before
  }

  /** EncodeTargeting. */
  method EncodeTargeting(rows: map<Name, nat>, groups: seq<seq<Name>>) returns (targetings: seq<seq<nat>>)
    ensures targetings == Encoded(rows, groups)
  {
    targetings := [];
    for i := 0 to |groups|
      invariant targetings == Encoded(rows, groups[..i])
    {
      var ids := [];
      for j := 0 to |groups[i]|
        invariant ids == Known(rows, groups[i][..j])
      {
        assert groups[i][..j + 1][..j] == groups[i][..j];
        if groups[i][j] in rows {
          ids := ids + [rows[groups[i][j]]];
        }
      }
      assert groups[i][..|groups[i]|] == groups[i];
      assert groups[..i + 1][..i] == groups[..i];
      if ids != [] {
        targetings := targetings + [ids];
      }
    }
    assert groups[..|groups|] == groups;
  }

  /** The sample has a target that a name of the group stands for. */
  ghost predicate Named(rows: map<Name, nat>, sample: seq<nat>, names: seq<Name>) {
    exists j :: 0 <= j < |names| && names[j] in rows && rows[names[j]] in sample
  }

  ghost predicate AnyKnown(rows: map<Name, nat>, names: seq<Name>) {
    exists j :: 0 <= j < |names| && names[j] in rows
  }

  lemma {:induction false} KnownMeans(rows: map<Name, nat>, names: seq<Name>, sample: seq<nat>)
    ensures Known(rows, names) != [] <==> AnyKnown(rows, names)
    ensures HasTarget(sample, Known(rows, names)) <==> Named(rows, sample, names)
    decreases |names|
  {
    if names != [] {
      var shorter, name := names[..|names| - 1], names[|names| - 1];
      KnownMeans(rows, shorter, sample);
      assert names == shorter + [name];
      KnownOneMore(rows, shorter, name, sample);
      if name in rows {
        TargetOneMore(sample, Known(rows, shorter), rows[name]);
      }
    }
  }

  lemma TargetOneMore(sample: seq<nat>, group: seq<nat>, id: nat)
    ensures HasTarget(sample, group + [id]) <==> HasTarget(sample, group) || id in sample
  {
    var more := group + [id];
    assert more[|group|] == id;
    forall j | 0 <= j < |group| ensures more[j] == group[j] {
    }
  }

  lemma KnownOneMore(rows: map<Name, nat>, names: seq<Name>, name: Name, sample: seq<nat>)
    ensures AnyKnown(rows, names + [name]) <==> AnyKnown(rows, names) || name in rows
    ensures Named(rows, sample, names + [name])
       <==> Named(rows, sample, names) || (name in rows && rows[name] in sample)
  {
    var more := names + [name];
    assert more[|names|] == name;
    forall j | 0 <= j < |names| ensures more[j] == names[j] {
    }
  }

  /** A sample satisfies the encoded targeting exactly if it has a target of every group in which some
      target is known: groups of unknown targets ask for nothing. */
  lemma {:induction false} EncodedMeans(rows: map<Name, nat>, groups: seq<seq<Name>>, sample: seq<nat>)
    ensures Hit(sample, Encoded(rows, groups))
       <==> forall i :: 0 <= i < |groups| && AnyKnown(rows, groups[i]) ==> Named(rows, sample, groups[i])
    ensures forall i :: 0 <= i < |Encoded(rows, groups)| ==> Encoded(rows, groups)[i] != []
    decreases |groups|
  {
    if groups != [] {
      var shorter, last := groups[..|groups| - 1], groups[|groups| - 1];
      EncodedMeans(rows, shorter, sample);
      KnownMeans(rows, last, sample);
      HitOneMore(sample, Encoded(rows, shorter), Known(rows, last));
      assert groups == shorter + [last];
    }
  }

  lemma HitOneMore(sample: seq<nat>, groups: seq<seq<nat>>, group: seq<nat>)
    ensures Hit(sample, groups + [group]) <==> Hit(sample, groups) && HasTarget(sample, group)
  {
    var more := groups + [group];
    assert more[|groups|] == group;
    forall i | 0 <= i < |groups| ensures more[i] == groups[i] {
    }
  }
}
