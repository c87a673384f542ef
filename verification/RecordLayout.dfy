/** Where the fields of a record stand in the index file, byte by byte (Dump of common/bitmap.hpp,
    include/bid_bitmap.hpp, src/pv_bid_bitmap.cc, src/uv_bid_bitmap.cc and src/uv_merge_bitmap.cc). */
module RecordLayout {
  import opened Bytes
  import opened Grids
  import opened Files
  import opened Records

  /** The k bytes from a position on, the least significant first, are the number x. */
  ghost predicate Stands(bytes: seq<Byte>, pos: nat, k: nat, x: nat) { GetNumber(bytes, pos, k) == Done(x, pos + k) }

  /** The numbers of s, in 2 or in 4 bytes each. */
  ghost predicate Pairs(bytes: seq<Byte>, pos: nat, s: seq<nat>) {
    forall i :: 0 <= i < |s| ==> Stands(bytes, pos + 2 * i, 2, s[i])
  }

  ghost predicate Quads(bytes: seq<Byte>, pos: nat, s: seq<nat>) {
    forall i :: 0 <= i < |s| ==> Stands(bytes, pos + 4 * i, 4, s[i])
  }

  lemma {:induction false} NumberAt(bytes: seq<Byte>, pos: nat, s: seq<nat>, k: nat, bound: nat, i: nat)
    requires Holds(k, bound) && AllFit(s, bound) && At(bytes, pos, PutNumbers(s, k)) && i < |s|
    ensures Stands(bytes, pos + k * i, k, s[i])
    decreases |s|
  {
    var n := |s| - 1;
    AtConcat(bytes, pos, PutNumbers(s[..n], k), Little(s[n], k));
    if i < n {
      NumberAt(bytes, pos, s[..n], k, bound, i);
    } else {
      NumberInverts(bytes, pos + k * n, s[n], k, bound);
    }
  }

  lemma PairsStand(bytes: seq<Byte>, pos: nat, s: seq<nat>)
    requires AllFit(s, 0x1_0000) && At(bytes, pos, PutNumbers(s, 2))
    ensures Pairs(bytes, pos, s)
  {
    forall i | 0 <= i < |s| ensures Stands(bytes, pos + 2 * i, 2, s[i]) {
      NumberAt(bytes, pos, s, 2, 0x1_0000, i);
    }
  }

  lemma QuadsStand(bytes: seq<Byte>, pos: nat, s: seq<nat>)
    requires AllFit(s, 0x1_0000_0000) && At(bytes, pos, PutNumbers(s, 4))
    ensures Quads(bytes, pos, s)
  {
    forall i | 0 <= i < |s| ensures Stands(bytes, pos + 4 * i, 4, s[i]) {
      NumberAt(bytes, pos, s, 4, 0x1_0000_0000, i);
    }
  }

  /** A bitmap: its width, number of columns and number of rows in 4 bytes each, and its rows. */
  lemma GridLayout(bytes: seq<Byte>, pos: nat, g: Grid)
    requires GridFits(g) && At(bytes, pos, PutGrid(g))
    ensures GridStands(bytes, pos, g) && |PutGrid(g)| == 12 + |g.data|
  {
    AtConcat(bytes, pos, PutNumbers([g.width, g.size, g.height], 4), g.data);
    HeaderStands(bytes, pos, [g.width, g.size, g.height]);
  }

  lemma HeaderStands(bytes: seq<Byte>, pos: nat, s: seq<nat>)
    requires |s| == 3 && AllFit(s, 0x1_0000_0000) && At(bytes, pos, PutNumbers(s, 4))
    ensures Stands(bytes, pos, 4, s[0]) && Stands(bytes, pos + 4, 4, s[1]) && Stands(bytes, pos + 8, 4, s[2])
  {
    QuadsStand(bytes, pos, s);
    assert Stands(bytes, pos + 4 * 0, 4, s[0]) && Stands(bytes, pos + 4 * 1, 4, s[1]);
    assert Stands(bytes, pos + 4 * 2, 4, s[2]);
  }

  ghost predicate GridStands(bytes: seq<Byte>, pos: nat, g: Grid) {
    && Stands(bytes, pos, 4, g.width) && Stands(bytes, pos + 4, 4, g.size) && Stands(bytes, pos + 8, 4, g.height)
    && At(bytes, pos + 12, g.data)
  }

  /** The samples of a slot: behind the bitmap a bid of 2 bytes for each column. */
  ghost predicate SamplesStand(bytes: seq<Byte>, pos: nat, r: BidRecord) {
    GridStands(bytes, pos, r.grid) && Pairs(bytes, pos + 12 + |r.grid.data|, r.bids)
  }

  lemma BidsLayout(bytes: seq<Byte>, pos: nat, r: BidRecord)
    requires BidsFit(r) && At(bytes, pos, PutBids(r))
    ensures SamplesStand(bytes, pos, r) && |PutBids(r)| == 12 + |r.grid.data| + 2 * r.grid.size
  {
    AtConcat(bytes, pos, PutGrid(r.grid), PutNumbers(r.bids, 2));
    GridLayout(bytes, pos, r.grid);
    PairsStand(bytes, pos + |PutGrid(r.grid)|, r.bids);
  }

  /** A slot: the length of its name, the name, and two numbers of 8 bytes. */
  ghost predicate SlotStands(bytes: seq<Byte>, pos: nat, name: Name, x: nat, y: nat) {
    && Stands(bytes, pos, 4, |name|) && At(bytes, pos + 4, name)
    && Stands(bytes, pos + 4 + |name|, 8, x) && Stands(bytes, pos + 12 + |name|, 8, y)
  }

  lemma SlotLayout(bytes: seq<Byte>, pos: nat, name: Name, x: nat, y: nat)
    requires NameFits(name) && x < 0x1_0000_0000_0000_0000 && y < 0x1_0000_0000_0000_0000
    requires At(bytes, pos, PutSlot(name, x, y))
    ensures SlotStands(bytes, pos, name, x, y) && |PutSlot(name, x, y)| == 20 + |name|
  {
    AtThree(bytes, pos, PutName(name), Little(x, 8), Little(y, 8));
    AtConcat(bytes, pos, Little(|name|, 4), name);
    NumberInverts(bytes, pos, |name|, 4, 0x1_0000_0000);
    NumberInverts(bytes, pos + 4 + |name|, x, 8, 0x1_0000_0000_0000_0000);
    NumberInverts(bytes, pos + 12 + |name|, y, 8, 0x1_0000_0000_0000_0000);
  }

  /** The three arrays of 24 hours, 4 bytes for each. */
  ghost predicate HoursStand(bytes: seq<Byte>, pos: nat, r: PvRecord) {
    && Quads(bytes, pos, r.hourlyRequest) && Quads(bytes, pos + 96, r.hourlyPv) && Quads(bytes, pos + 192, r.hourlyCtr)
  }

  lemma HoursLayout(bytes: seq<Byte>, pos: nat, r: PvRecord)
    requires HoursFit(r.hourlyRequest) && HoursFit(r.hourlyPv) && HoursFit(r.hourlyCtr) && At(bytes, pos, PutHours(r))
    ensures HoursStand(bytes, pos, r) && |PutHours(r)| == 288
  {
    AtThree(bytes, pos, PutNumbers(r.hourlyRequest, 4), PutNumbers(r.hourlyPv, 4), PutNumbers(r.hourlyCtr, 4));
    QuadsStand(bytes, pos, r.hourlyRequest);
    QuadsStand(bytes, pos + 96, r.hourlyPv);
    QuadsStand(bytes, pos + 192, r.hourlyCtr);
  }

  /** The record of a slot's page views. */
  lemma PvLayout(bytes: seq<Byte>, pos: nat, r: PvRecord, at: nat)
    requires PvFits(r) && At(bytes, pos, PutPv(r))
    requires at == pos + 12 + |r.samples.grid.data| + 2 * r.samples.grid.size
    ensures SamplesStand(bytes, pos, r.samples) && SlotStands(bytes, at, r.psid, r.request, r.pv)
    ensures HoursStand(bytes, at + 20 + |r.psid|, r)
    ensures pos + |PutPv(r)| == at + 308 + |r.psid|
  {
    var next, later, last := PvParts(bytes, pos, r);
    BidsLayout(bytes, pos, r.samples);
    BehindSamples(bytes, r, at, later);
  }

  lemma BehindSamples(bytes: seq<Byte>, r: PvRecord, next: nat, later: nat)
    requires PvFits(r) && At(bytes, next, PutSlot(r.psid, r.request, r.pv))
    requires later == next + |PutSlot(r.psid, r.request, r.pv)| && At(bytes, later, PutHours(r))
    ensures SlotStands(bytes, next, r.psid, r.request, r.pv) && HoursStand(bytes, next + 20 + |r.psid|, r)
    ensures later + |PutHours(r)| == next + 308 + |r.psid|
  {
    SlotLayout(bytes, next, r.psid, r.request, r.pv);
    HoursLayout(bytes, later, r);
  }

  /** The record of a slot's unique views. */
  lemma UvLayout(bytes: seq<Byte>, pos: nat, r: UvRecord, at: nat)
    requires UvFits(r) && At(bytes, pos, PutUv(r))
    requires at == pos + 12 + |r.samples.grid.data| + 2 * r.samples.grid.size
    ensures SamplesStand(bytes, pos, r.samples) && SlotStands(bytes, at, r.psid, r.request, r.uv)
    ensures pos + |PutUv(r)| == at + 20 + |r.psid|
  {
    AtConcat(bytes, pos, PutBids(r.samples), PutSlot(r.psid, r.request, r.uv));
    BidsLayout(bytes, pos, r.samples);
    SlotLayout(bytes, at, r.psid, r.request, r.uv);
  }

  /** Where entry i of a dictionary begins. */
  function EntryStart(order: seq<Name>, k: nat, i: nat): nat
    requires i <= |order|
  {
    if i == 0 then 0 else EntryStart(order, k, i - 1) + 4 + |order[i - 1]| + k
  }

  ghost predicate EntryStands(bytes: seq<Byte>, pos: nat, name: Name, k: nat, x: nat) {
    Stands(bytes, pos, 4, |name|) && At(bytes, pos + 4, name) && Stands(bytes, pos + 4 + |name|, k, x)
  }

  lemma EntryLayout(bytes: seq<Byte>, pos: nat, dict: map<Name, nat>, name: Name, k: nat, bound: nat)
    requires Holds(k, bound) && EntriesFit(dict, bound) && name in dict && At(bytes, pos, PutEntry(dict, name, k))
    ensures EntryStands(bytes, pos, name, k, dict[name]) && |PutEntry(dict, name, k)| == 4 + |name| + k
  {
    AtConcat(bytes, pos, PutName(name), Little(dict[name], k));
    AtConcat(bytes, pos, Little(|name|, 4), name);
    NumberInverts(bytes, pos, |name|, 4, 0x1_0000_0000);
    NumberInverts(bytes, pos + 4 + |name|, dict[name], k, bound);
  }

  /** An offset map or dictionary: for every name its length, the name, and its number in k bytes. */
  lemma EntriesLayout(bytes: seq<Byte>, pos: nat, dict: map<Name, nat>, order: seq<Name>, k: nat, bound: nat, i: nat)
    requires Holds(k, bound) && EntriesFit(dict, bound) && i < |order| && order[i] in dict
    requires At(bytes, pos, PutEntries(dict, order, k))
    ensures EntryStands(bytes, pos + EntryStart(order, k, i), order[i], k, dict[order[i]])
  {
    EntryBegins(bytes, pos, dict, order, k, i);
    EntryLayout(bytes, pos + EntryStart(order, k, i), dict, order[i], k, bound);
  }

  lemma EntryBegins(bytes: seq<Byte>, pos: nat, dict: map<Name, nat>, order: seq<Name>, k: nat, i: nat)
    requires i < |order| && At(bytes, pos, PutEntries(dict, order, k))
    ensures At(bytes, pos + EntryStart(order, k, i), PutEntry(dict, order[i], k))
  {
    var upTo := order[..i + 1];
    AtFront(bytes, pos, dict, order, k, i + 1);
    FrontBegins(bytes, pos, dict, upTo, order[..i], order[i], k);
    FrontSize(dict, order, k, i);
  }

  lemma FrontBegins(bytes: seq<Byte>, pos: nat, dict: map<Name, nat>, upTo: seq<Name>, front: seq<Name>, name: Name,
                    k: nat)
    requires upTo == front + [name] && At(bytes, pos, PutEntries(dict, upTo, k))
    ensures At(bytes, pos + |PutEntries(dict, front, k)|, PutEntry(dict, name, k))
  {
    var next, end := EntriesSplit(bytes, pos, dict, front, name, k);
  }

  lemma FrontSize(dict: map<Name, nat>, order: seq<Name>, k: nat, i: nat)
    requires i <= |order|
    ensures |PutEntries(dict, order[..i], k)| == EntryStart(order, k, i)
  {
    EntriesSize(dict, order[..i], k);
    StartOfFront(order, k, i);
  }

  lemma {:induction false} AtFront(bytes: seq<Byte>, pos: nat, dict: map<Name, nat>, order: seq<Name>, k: nat, i: nat)
    requires i <= |order| && At(bytes, pos, PutEntries(dict, order, k))
    ensures At(bytes, pos, PutEntries(dict, order[..i], k))
    decreases |order|
  {
    if i < |order| {
      var n := |order| - 1;
      AtConcat(bytes, pos, PutEntries(dict, order[..n], k), PutEntry(dict, order[n], k));
      AtFront(bytes, pos, dict, order[..n], k, i);
      assert order[..n][..i] == order[..i];
    } else {
      assert order[..i] == order;
    }
  }

  lemma {:induction false} StartOfFront(order: seq<Name>, k: nat, i: nat)
    requires i <= |order|
    ensures EntryStart(order[..i], k, i) == EntryStart(order, k, i)
    decreases i
  {
    if i > 0 {
      StartOfFront(order, k, i - 1);
      StartOfFront(order[..i], k, i - 1);
      assert order[..i][..i - 1] == order[..i - 1];
    }
  }

  lemma {:induction false} EntriesSize(dict: map<Name, nat>, order: seq<Name>, k: nat)
    ensures |PutEntries(dict, order, k)| == EntryStart(order, k, |order|)
    decreases |order|
  {
    if order != [] {
      var n := |order| - 1;
      EntriesSize(dict, order[..n], k);
      StartOfFront(order, k, n);
    }
  }

  lemma MergeFront(bytes: seq<Byte>, pos: nat, r: MergeRecord, next: nat, later: nat)
    requires GridFits(r.grid) && AllFit(r.uvs, 0x1_0000_0000)
    requires At(bytes, pos, PutGrid(r.grid)) && next == pos + |PutGrid(r.grid)|
    requires At(bytes, next, PutNumbers(r.uvs, 4)) && later == next + |PutNumbers(r.uvs, 4)|
    ensures GridStands(bytes, pos, r.grid) && Quads(bytes, pos + 12 + |r.grid.data|, r.uvs)
    ensures later == pos + 12 + |r.grid.data| + 4 * |r.uvs|
  {
    GridLayout(bytes, pos, r.grid);
    QuadsStand(bytes, next, r.uvs);
  }

  /** The merge record: the bitmap, a count of 4 bytes for each row, and the entries of the dictionary (see
      EntriesLayout). */
  lemma MergeLayout(bytes: seq<Byte>, pos: nat, r: MergeRecord, entries: seq<Byte>)
    requires MergeFits(r) && At(bytes, pos, PutMerge(r, entries))
    ensures GridStands(bytes, pos, r.grid) && Quads(bytes, pos + 12 + |r.grid.data|, r.uvs)
    ensures At(bytes, pos + 12 + |r.grid.data| + 4 * r.grid.height, entries)
  {
    var next, later, last := MergeParts(bytes, pos, r, entries);
    MergeFront(bytes, pos, r, next, later);
  }
}
