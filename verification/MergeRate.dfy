/** The merge rate of a request: how many samples its ad slots reach together, against the sum of what
    each of them reaches (src/request_handler.cc). */
module MergeRate {
  import opened Bytes
  import opened Bits
  import opened Grids
  import opened Popping
  import opened Bitmap
  import opened Query
  import opened UvMerge

  const ESCAPE_ZERO: real := 0.000000001

  /** The rows in ids have together the samples in which one of the slots occurs. */
  ghost predicate Reach(g: Grid, ids: seq<nat>, psids: seq<seq<Name>>, slots: seq<Name>) {
    && g.Valid() && AllBelow(ids, g.height)
    && (forall c :: 0 <= c < 8 * g.width ==> AnyRow(g, ids, c) == (c in SamplesOfAny(psids, slots)))
  }

  lemma AnyOfMoreSlots(psids: seq<seq<Name>>, slots: seq<Name>, slot: Name)
    ensures SamplesOfAny(psids, slots + [slot]) == SamplesOfAny(psids, slots) + SamplesOf(psids, slot)
    ensures UvSum(psids, slots + [slot]) == UvSum(psids, slots) + |SamplesOf(psids, slot)|
  {
    assert (slots + [slot])[..|slots|] == slots;
  }

  lemma ReachMore(g: Grid, ids: seq<nat>, psids: seq<seq<Name>>, slots: seq<Name>, slot: Name, id: nat)
    requires Reach(g, ids, psids, slots)
    requires id < g.height && RowIs(g, id, psids, slot)
    ensures Reach(g, ids + [id], psids, slots + [slot])
  {
    AnyOfMoreSlots(psids, slots, slot);
    forall c | 0 <= c < 8 * g.width
      ensures AllBelow(ids + [id], g.height)
      ensures AnyRow(g, ids + [id], c) == (c in SamplesOfAny(psids, slots + [slot]))
    {
      AnyOfMore(g, ids, id, c);
      assert g.Cell(id, c) == (c in SamplesOf(psids, slot));
    }
  }

  lemma NothingReached(g: Grid, psids: seq<seq<Name>>)
    requires g.Valid()
    ensures Reach(g, [], psids, [])
  {
  }

  lemma MaskIsUnion(g: Grid, ids: seq<nat>, psids: seq<seq<Name>>, slots: seq<Name>, mask: seq<Byte>)
    requires Reach(g, ids, psids, slots) && MarksAny(g, ids, mask) && g.size == |psids|
    ensures Total(One(), mask, 0, 8 * g.width) == |SamplesOfAny(psids, slots)|
  {
    TotalIsSize(mask, 8 * g.width);
    AnyIsSample(psids, slots);
    assert Columns(mask, 8 * g.width) == SamplesOfAny(psids, slots);
  }

  lemma {:induction false} AnyIsSample(psids: seq<seq<Name>>, slots: seq<Name>)
    ensures forall c :: c in SamplesOfAny(psids, slots) ==> c < |psids|
    decreases |slots|
  {
    if slots != [] {
      AnyIsSample(psids, slots[..|slots| - 1]);
    }
  }

  /** With what the slots have together at most the sum of what each has, the rate is in (0, 1]. */
  function Rate(together: nat, sum: nat): (rate: real)
    requires together <= sum
    ensures 0.0 < rate <= 1.0
    ensures rate == 1.0 <==> together == sum
  {
    (together as real + ESCAPE_ZERO) / (sum as real + ESCAPE_ZERO)
  }

  /** The rate times the sum is what the slots reach together, but for a billionth, and exactly that when the
      billionth is added to both. */
  predicate IsRate(rate: real, together: nat, sum: nat) {
    && together as real <= rate * sum as real <= together as real + 0.000000001
    && rate * (sum as real + 0.000000001) == together as real + 0.000000001
  }

  lemma RateBrackets(together: nat, sum: nat, rate: real)
    requires together <= sum && rate == Rate(together, sum)
    ensures IsRate(rate, together, sum)
  {
    var t, s, e := together as real, sum as real, 0.000000001;
    assert rate * (s + e) == t + e;
    Distributes(rate, s, e, rate * s, rate * e);
    ProductAtMost(rate, e, rate * e);
    ProductNotNegative(rate, e, rate * e);
  }

  lemma Distributes(r: real, s: real, e: real, p: real, q: real)
    requires p == r * s && q == r * e
    ensures r * (s + e) == p + q
  {
  }

  lemma ProductAtMost(r: real, e: real, p: real)
    requires r <= 1.0 && 0.0 <= e && p == r * e
    ensures p <= e
  {
  }

  lemma ProductNotNegative(r: real, e: real, p: real)
    requires 0.0 <= r && 0.0 <= e && p == r * e
    ensures 0.0 <= p
  {
  }

  class Merger {
    const buffer: array<Byte>

    constructor (size: nat)
      ensures buffer.Length == size && fresh(buffer)
    {
      buffer := new Byte[size](_ => 0);
    }

    /** The body of the loop: a slot that is not in the bitmap is left out. */
    method CollectNext(uv: UvMergeBitmap, slot: Name, ids: seq<nat>, sum: nat,
                       ghost slots: seq<Name>, ghost psids: seq<seq<Name>>) returns (more: seq<nat>, next: nat)
      requires uv.IsMergeOf(psids)
      requires Reach(uv.bitmap.Value(), ids, psids, slots) && sum == UvSum(psids, slots)
      ensures Reach(uv.bitmap.Value(), more, psids, slots + [slot])
      ensures next == UvSum(psids, slots + [slot])
    {
      AnyOfMoreSlots(psids, slots, slot);
      more, next := ids, sum;
      var id := uv.GetRowId(slot, psids);
      if id < 0 {
        return;
      }
      ReachMore(uv.bitmap.Value(), ids, psids, slots, slot, id);
      more := ids + [id];
      var rowUv := uv.GetRowUv(id, psids);
      if rowUv < 0 {
        return;
      }
      next := sum + rowUv;
    }

    /** The loop over the slots of the request; the slots that are not in the bitmap are left out. */
    method Collect(uv: UvMergeBitmap, slots: seq<Name>, ghost psids: seq<seq<Name>>) returns (ids: seq<nat>, sum: nat)
      requires uv.IsMergeOf(psids)
      ensures Reach(uv.bitmap.Value(), ids, psids, slots)
      ensures sum == UvSum(psids, slots)
    {
      ids, sum := [], 0;
      NothingReached(uv.bitmap.Value(), psids);
      for i := 0 to |slots|
        invariant Reach(uv.bitmap.Value(), ids, psids, slots[..i])
        invariant sum == UvSum(psids, slots[..i])
      {
        assert slots[..i + 1] == slots[..i] + [slots[i]];
        ids, sum := CollectNext(uv, slots[i], ids, sum, slots[..i], psids);
      }
      assert slots[..|slots|] == slots;
    }

    method CountUnion(uv: UvMergeBitmap, ids: seq<nat>, ghost slots: seq<Name>, ghost psids: seq<seq<Name>>)
      returns (together: nat)
      requires uv.IsMergeOf(psids) && Reach(uv.bitmap.Value(), ids, psids, slots)
      requires uv.bitmap.width <= buffer.Length && uv.bitmap.data != buffer
      modifies buffer
      ensures together == |SamplesOfAny(psids, slots)|
    {
      uv.Union(ids, buffer);
      MaskIsUnion(uv.bitmap.Value(), ids, psids, slots, buffer[..uv.bitmap.width]);
      together := uv.bitmap.CountMask(buffer);
    }

    /** GetUvMergeRate: the samples that the slots have together, by their sum; the rate times the sum is
        the size of the union, but for a billionth. */
    method GetUvMergeRate(uv: UvMergeBitmap, slots: seq<Name>, ghost psids: seq<seq<Name>>) returns (rate: real)
      requires uv.IsMergeOf(psids)
      requires uv.bitmap.width <= buffer.Length && uv.bitmap.data != buffer
      modifies buffer
      ensures |SamplesOfAny(psids, slots)| <= UvSum(psids, slots)
      ensures rate == Rate(|SamplesOfAny(psids, slots)|, UvSum(psids, slots))
      ensures IsRate(rate, |SamplesOfAny(psids, slots)|, UvSum(psids, slots))
    {
      var ids, sum := Collect(uv, slots, psids);
      var together := CountUnion(uv, ids, slots, psids);
      UnionAtMostSum(psids, slots);
      rate := Rate(together, sum);
      RateBrackets(together, sum, rate);
    }
  }
}
