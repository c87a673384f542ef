/** The records of the index file: a bitmap, its bids, and what belongs to an ad slot (Dump and Load of
    common/bitmap.hpp, include/bid_bitmap.hpp, src/pv_bid_bitmap.cc and src/uv_bid_bitmap.cc). */
module Records {
  import opened Bytes
  import opened Grids
  import opened Files

  /** The samples of a slot with their bids. */
  datatype BidRecord = BidRecord(grid: Grid, bids: seq<nat>)

  /** Hourly click rates are kept as the 32 bits of a float. */
  datatype PvRecord = PvRecord(samples: BidRecord, psid: Name, request: nat, pv: nat,
                               hourlyRequest: seq<nat>, hourlyPv: seq<nat>, hourlyCtr: seq<nat>)

  datatype UvRecord = UvRecord(samples: BidRecord, psid: Name, request: nat, uv: nat)

  // ----------------------------------------------------------------- values that fit their fields

  /** The bytes of a number of rows. */
  function Area(width: nat, rows: nat): nat {
    if rows == 0 then 0 else width + Area(width, rows - 1)
  }

  lemma {:induction false} AreaIsProduct(width: nat, rows: nat)
    ensures Area(width, rows) == width * rows
  {
    if rows > 0 {
      AreaIsProduct(width, rows - 1);
    }
  }

  ghost predicate GridFits(g: Grid) {
    && |g.data| == Area(g.width, g.height) < 0x1_0000_0000
    && g.size < 0x1_0000_0000 && g.width < 0x1_0000_0000 && g.height < 0x1_0000_0000
  }

  ghost predicate BidsFit(r: BidRecord) {
    GridFits(r.grid) && |r.bids| == r.grid.size && AllFit(r.bids, 0x1_0000)
  }

  ghost predicate NameFits(name: Name) { |name| < 0x1_0000_0000 }

  ghost predicate HoursFit(s: seq<nat>) { |s| == 24 && AllFit(s, 0x1_0000_0000) }

  ghost predicate PvFits(r: PvRecord) {
    && BidsFit(r.samples) && NameFits(r.psid)
    && r.request < 0x1_0000_0000_0000_0000 && r.pv < 0x1_0000_0000_0000_0000
    && HoursFit(r.hourlyRequest) && HoursFit(r.hourlyPv) && HoursFit(r.hourlyCtr)
  }

  ghost predicate UvFits(r: UvRecord) {
    && BidsFit(r.samples) && NameFits(r.psid)
    && r.request < 0x1_0000_0000_0000_0000 && r.uv < 0x1_0000_0000_0000_0000
  }

  // ----------------------------------------------------------------- bitmaps

  function PutGrid(g: Grid): seq<Byte> { PutNumbers([g.width, g.size, g.height], 4) + g.data }

  /** A bitmap without bytes is taken for one that could not be read.  Bytes that a short file does not
      supply are unspecified in the program and zero here. */
  function GetGrid(bytes: seq<Byte>, pos: nat): Parsed<Grid> {
    match GetNumbers(bytes, pos, 4, 3)
    case Fail(code) => Fail(code)
    case Done(s, next) =>
      NumbersGot(bytes, pos, 4, 3);
      var n := Area(s[0], s[2]) % 0x1_0000_0000;
      var data := Some(bytes, next, n);
      if data == [] then Fail(1)
      else Done(Grid(s[1], s[0], s[2], data + seq(n - |data|, _ => 0)), next + |data|)
  }

  lemma {:induction false} NumbersGot(bytes: seq<Byte>, pos: nat, k: nat, n: nat)
    ensures var r := GetNumbers(bytes, pos, k, n); r.Done? ==> |r.value| == n
  {
    if n > 0 {
      NumbersGot(bytes, pos, k, n - 1);
    }
  }

  lemma GetGridInverts(bytes: seq<Byte>, pos: nat, g: Grid)
    requires GridFits(g)
    ensures At(bytes, pos, PutGrid(g)) ==>
      GetGrid(bytes, pos) == if g.data == [] then Fail(1) else Done(g, pos + |PutGrid(g)|)
  {
    NumbersInvert(bytes, pos, [g.width, g.size, g.height], 4, 0x1_0000_0000);
    if At(bytes, pos, PutNumbers([g.width, g.size, g.height], 4) + g.data) {
      GridOf(bytes, pos, g, PutNumbers([g.width, g.size, g.height], 4));
    }
  }

  lemma GridOf(bytes: seq<Byte>, pos: nat, g: Grid, header: seq<Byte>)
    requires At(bytes, pos, header + g.data) && |g.data| == Area(g.width, g.height) < 0x1_0000_0000
    requires At(bytes, pos, header) ==>
      GetNumbers(bytes, pos, 4, 3) == Done([g.width, g.size, g.height], pos + |header|)
    ensures GetGrid(bytes, pos) == if g.data == [] then Fail(1) else Done(g, pos + |header + g.data|)
  {
    AtConcat(bytes, pos, header, g.data);
    SomeIsAll(bytes, pos + |header|, g.data);
    assert g.data + seq(0, _ => 0) == g.data;
  }

  lemma SomeIsAll(bytes: seq<Byte>, pos: nat, s: seq<Byte>)
    requires At(bytes, pos, s)
    ensures Some(bytes, pos, |s|) == s
  {
  }

  // ----------------------------------------------------------------- bitmaps with bids

  function PutBids(r: BidRecord): seq<Byte> { PutGrid(r.grid) + PutNumbers(r.bids, 2) }

  function GetBids(bytes: seq<Byte>, pos: nat): Parsed<BidRecord> {
    match GetGrid(bytes, pos)
    case Fail(code) => Fail(code)
    case Done(g, next) =>
      match GetNumbers(bytes, next, 2, g.size)
      case Fail(code) => Fail(code)
      case Done(bids, last) => Done(BidRecord(g, bids), last)
  }

  lemma GetBidsInverts(bytes: seq<Byte>, pos: nat, r: BidRecord)
    requires BidsFit(r)
    ensures At(bytes, pos, PutBids(r)) ==>
      GetBids(bytes, pos) == if r.grid.data == [] then Fail(1) else Done(r, pos + |PutBids(r)|)
  {
    var next := pos + |PutGrid(r.grid)|;
    if At(bytes, pos, PutBids(r)) {
      AtConcat(bytes, pos, PutGrid(r.grid), PutNumbers(r.bids, 2));
      BidsWith(bytes, pos, r, next, next + |PutNumbers(r.bids, 2)|);
    }
  }

  lemma BidsWith(bytes: seq<Byte>, pos: nat, r: BidRecord, next: nat, last: nat)
    requires BidsFit(r)
    requires At(bytes, pos, PutGrid(r.grid)) && next == pos + |PutGrid(r.grid)|
    requires At(bytes, next, PutNumbers(r.bids, 2)) && last == next + |PutNumbers(r.bids, 2)|
    ensures GetBids(bytes, pos) == if r.grid.data == [] then Fail(1) else Done(r, last)
  {
    GetGridInverts(bytes, pos, r.grid);
    NumbersInvert(bytes, next, r.bids, 2, 0x1_0000);
    BidsOf(bytes, pos, r, next, last);
  }

  lemma BidsOf(bytes: seq<Byte>, pos: nat, r: BidRecord, next: nat, last: nat)
    requires GetGrid(bytes, pos) == if r.grid.data == [] then Fail(1) else Done(r.grid, next)
    requires GetNumbers(bytes, next, 2, r.grid.size) == Done(r.bids, last)
    ensures GetBids(bytes, pos) == if r.grid.data == [] then Fail(1) else Done(r, last)
  {
  }

  // ----------------------------------------------------------------- page views

  function PutHours(r: PvRecord): seq<Byte> {
    PutNumbers(r.hourlyRequest, 4) + (PutNumbers(r.hourlyPv, 4) + PutNumbers(r.hourlyCtr, 4))
  }

  function PutSlot(name: Name, x: nat, y: nat): seq<Byte> { PutName(name) + (Little(x, 8) + Little(y, 8)) }

  function PutPv(r: PvRecord): seq<Byte> { PutBids(r.samples) + (PutSlot(r.psid, r.request, r.pv) + PutHours(r)) }

  /** The three arrays of 24 hours. */
  function GetHours(bytes: seq<Byte>, pos: nat): Parsed<(seq<nat>, seq<nat>, seq<nat>)> {
    match GetNumbers(bytes, pos, 4, 24)
    case Fail(code) => Fail(code)
    case Done(request, next) =>
      match GetNumbers(bytes, next, 4, 24)
      case Fail(code) => Fail(code)
      case Done(pv, later) =>
        match GetNumbers(bytes, later, 4, 24)
        case Fail(code) => Fail(code)
        case Done(ctr, last) => Done((request, pv, ctr), last)
  }

  /** A name and two numbers of 64 bits. */
  function GetSlot(bytes: seq<Byte>, pos: nat): Parsed<(Name, nat, nat)> {
    match GetName(bytes, pos)
    case Fail(code) => Fail(code)
    case Done(name, next) =>
      match GetNumber(bytes, next, 8)
      case Fail(code) => Fail(code)
      case Done(x, later) =>
        match GetNumber(bytes, later, 8)
        case Fail(code) => Fail(code)
        case Done(y, last) => Done((name, x, y), last)
  }

  function GetPv(bytes: seq<Byte>, pos: nat): Parsed<PvRecord> {
    match GetBids(bytes, pos)
    case Fail(code) => Fail(code)
    case Done(samples, next) =>
      match GetSlot(bytes, next)
      case Fail(code) => Fail(code)
      case Done(slot, later) =>
        match GetHours(bytes, later)
        case Fail(code) => Fail(code)
        case Done(h, last) => Done(PvRecord(samples, slot.0, slot.1, slot.2, h.0, h.1, h.2), last)
  }

  lemma GetHoursInverts(bytes: seq<Byte>, pos: nat, r: PvRecord)
    requires HoursFit(r.hourlyRequest) && HoursFit(r.hourlyPv) && HoursFit(r.hourlyCtr)
    ensures At(bytes, pos, PutHours(r)) ==>
      GetHours(bytes, pos) == Done((r.hourlyRequest, r.hourlyPv, r.hourlyCtr), pos + |PutHours(r)|)
  {
    var a, b, c := PutNumbers(r.hourlyRequest, 4), PutNumbers(r.hourlyPv, 4), PutNumbers(r.hourlyCtr, 4);
    if At(bytes, pos, PutHours(r)) {
      AtThree(bytes, pos, a, b, c);
      HoursWith(bytes, pos, r, pos + |a|, pos + |a| + |b|, pos + |a| + |b| + |c|);
    }
  }

  lemma HoursWith(bytes: seq<Byte>, pos: nat, r: PvRecord, next: nat, later: nat, last: nat)
    requires HoursFit(r.hourlyRequest) && HoursFit(r.hourlyPv) && HoursFit(r.hourlyCtr)
    requires At(bytes, pos, PutNumbers(r.hourlyRequest, 4)) && next == pos + |PutNumbers(r.hourlyRequest, 4)|
    requires At(bytes, next, PutNumbers(r.hourlyPv, 4)) && later == next + |PutNumbers(r.hourlyPv, 4)|
    requires At(bytes, later, PutNumbers(r.hourlyCtr, 4)) && last == later + |PutNumbers(r.hourlyCtr, 4)|
    ensures GetHours(bytes, pos) == Done((r.hourlyRequest, r.hourlyPv, r.hourlyCtr), last)
  {
    DayInverts(bytes, pos, r.hourlyRequest, next);
    DayInverts(bytes, next, r.hourlyPv, later);
    DayInverts(bytes, later, r.hourlyCtr, last);
  }

  lemma DayInverts(bytes: seq<Byte>, pos: nat, s: seq<nat>, next: nat)
    requires HoursFit(s) && At(bytes, pos, PutNumbers(s, 4)) && next == pos + |PutNumbers(s, 4)|
    ensures GetNumbers(bytes, pos, 4, 24) == Done(s, next)
  {
    NumbersInvert(bytes, pos, s, 4, 0x1_0000_0000);
  }

  lemma GetSlotInverts(bytes: seq<Byte>, pos: nat, name: Name, x: nat, y: nat)
    requires NameFits(name) && x < 0x1_0000_0000_0000_0000 && y < 0x1_0000_0000_0000_0000
    ensures At(bytes, pos, PutSlot(name, x, y)) ==>
      GetSlot(bytes, pos) == Done((name, x, y), pos + |PutSlot(name, x, y)|)
  {
    GetNameInverts(bytes, pos, name);
    NumberInverts(bytes, pos + |PutName(name)|, x, 8, 0x1_0000_0000_0000_0000);
    NumberInverts(bytes, pos + |PutName(name)| + 8, y, 8, 0x1_0000_0000_0000_0000);
    if At(bytes, pos, PutSlot(name, x, y)) {
      AtThree(bytes, pos, PutName(name), Little(x, 8), Little(y, 8));
    }
  }

  /** A record is read back as it was, unless its bitmap has no bytes. */
  lemma GetPvInverts(bytes: seq<Byte>, pos: nat, r: PvRecord)
    requires PvFits(r)
    ensures At(bytes, pos, PutPv(r)) ==>
      GetPv(bytes, pos) == if r.samples.grid.data == [] then Fail(1) else Done(r, pos + |PutPv(r)|)
  {
    if At(bytes, pos, PutPv(r)) {
      var next, later, last := PvParts(bytes, pos, r);
      PvWith(bytes, pos, r, next, later, last);
    }
  }

  lemma PvParts(bytes: seq<Byte>, pos: nat, r: PvRecord) returns (next: nat, later: nat, last: nat)
    requires At(bytes, pos, PutPv(r))
    ensures At(bytes, pos, PutBids(r.samples)) && next == pos + |PutBids(r.samples)|
    ensures At(bytes, next, PutSlot(r.psid, r.request, r.pv)) && later == next + |PutSlot(r.psid, r.request, r.pv)|
    ensures At(bytes, later, PutHours(r)) && last == later + |PutHours(r)| == pos + |PutPv(r)|
  {
    next, later, last := Three(bytes, pos, PutBids(r.samples), PutSlot(r.psid, r.request, r.pv), PutHours(r));
  }

  lemma Three(bytes: seq<Byte>, pos: nat, a: seq<Byte>, b: seq<Byte>, c: seq<Byte>)
    returns (next: nat, later: nat, last: nat)
    requires At(bytes, pos, a + (b + c))
    ensures At(bytes, pos, a) && next == pos + |a|
    ensures At(bytes, next, b) && later == next + |b|
    ensures At(bytes, later, c) && last == later + |c| == pos + |a + (b + c)|
  {
    AtThree(bytes, pos, a, b, c);
    next, later, last := pos + |a|, pos + |a| + |b|, pos + |a| + |b| + |c|;
  }

  lemma PvWith(bytes: seq<Byte>, pos: nat, r: PvRecord, next: nat, later: nat, last: nat)
    requires PvFits(r)
    requires At(bytes, pos, PutBids(r.samples)) && next == pos + |PutBids(r.samples)|
    requires At(bytes, next, PutSlot(r.psid, r.request, r.pv)) && later == next + |PutSlot(r.psid, r.request, r.pv)|
    requires At(bytes, later, PutHours(r)) && last == later + |PutHours(r)|
    ensures GetPv(bytes, pos) == if r.samples.grid.data == [] then Fail(1) else Done(r, last)
  {
    GetBidsInverts(bytes, pos, r.samples);
    GetSlotInverts(bytes, next, r.psid, r.request, r.pv);
    GetHoursInverts(bytes, later, r);
    PvOf(bytes, pos, r, next, later, last);
  }

  lemma PvOf(bytes: seq<Byte>, pos: nat, r: PvRecord, next: nat, later: nat, last: nat)
    requires GetBids(bytes, pos) == if r.samples.grid.data == [] then Fail(1) else Done(r.samples, next)
    requires GetSlot(bytes, next) == Done((r.psid, r.request, r.pv), later)
    requires GetHours(bytes, later) == Done((r.hourlyRequest, r.hourlyPv, r.hourlyCtr), last)
    ensures GetPv(bytes, pos) == if r.samples.grid.data == [] then Fail(1) else Done(r, last)
  {
  }

  // ----------------------------------------------------------------- unique views

  function PutUv(r: UvRecord): seq<Byte> { PutBids(r.samples) + PutSlot(r.psid, r.request, r.uv) }

  function GetUv(bytes: seq<Byte>, pos: nat): Parsed<UvRecord> {
    match GetBids(bytes, pos)
    case Fail(code) => Fail(code)
    case Done(samples, next) =>
      match GetSlot(bytes, next)
      case Fail(code) => Fail(code)
      case Done(slot, last) => Done(UvRecord(samples, slot.0, slot.1, slot.2), last)
  }

  lemma GetUvInverts(bytes: seq<Byte>, pos: nat, r: UvRecord)
    requires UvFits(r)
    ensures At(bytes, pos, PutUv(r)) ==>
      GetUv(bytes, pos) == if r.samples.grid.data == [] then Fail(1) else Done(r, pos + |PutUv(r)|)
  {
    var next := pos + |PutBids(r.samples)|;
    if At(bytes, pos, PutUv(r)) {
      AtConcat(bytes, pos, PutBids(r.samples), PutSlot(r.psid, r.request, r.uv));
      UvWith(bytes, pos, r, next, next + |PutSlot(r.psid, r.request, r.uv)|);
    }
  }

  lemma UvWith(bytes: seq<Byte>, pos: nat, r: UvRecord, next: nat, last: nat)
    requires UvFits(r)
    requires At(bytes, pos, PutBids(r.samples)) && next == pos + |PutBids(r.samples)|
    requires At(bytes, next, PutSlot(r.psid, r.request, r.uv)) && last == next + |PutSlot(r.psid, r.request, r.uv)|
    ensures GetUv(bytes, pos) == if r.samples.grid.data == [] then Fail(1) else Done(r, last)
  {
    GetBidsInverts(bytes, pos, r.samples);
    GetSlotInverts(bytes, next, r.psid, r.request, r.uv);
    UvOf(bytes, pos, r, next, last);
  }

  lemma UvOf(bytes: seq<Byte>, pos: nat, r: UvRecord, next: nat, last: nat)
    requires GetBids(bytes, pos) == if r.samples.grid.data == [] then Fail(1) else Done(r.samples, next)
    requires GetSlot(bytes, next) == Done((r.psid, r.request, r.uv), last)
    ensures GetUv(bytes, pos) == if r.samples.grid.data == [] then Fail(1) else Done(r, last)
  {
  }

  // ----------------------------------------------------------------- dictionaries

  /** The keys in some order, each once. */
  ghost predicate Enumerates(order: seq<Name>, keys: set<Name>) {
    Distinct(order, keys) && (forall k :: k in keys ==> k in order)
  }

  ghost predicate Distinct(order: seq<Name>, keys: set<Name>) {
    && (forall i :: 0 <= i < |order| ==> order[i] in keys)
    && (forall i, j :: 0 <= i < j < |order| ==> order[i] != order[j])
  }

  function PutEntry(dict: map<Name, nat>, name: Name, k: nat): seq<Byte> {
    PutName(name) + Little(if name in dict then dict[name] else 0, k)
  }

  /** The entries of a dictionary in an order, the values in k bytes. */
  function PutEntries(dict: map<Name, nat>, order: seq<Name>, k: nat): seq<Byte> {
    if order == [] then [] else PutEntries(dict, order[..|order| - 1], k) + PutEntry(dict, order[|order| - 1], k)
  }

  /** n entries; of entries with the same key the first counts. */
  function GetEntries(bytes: seq<Byte>, pos: nat, k: nat, n: nat): Parsed<map<Name, nat>> {
    if n == 0 then Done(map[], pos)
    else
      match GetEntries(bytes, pos, k, n - 1)
      case Fail(code) => Fail(code)
      case Done(dict, next) =>
        match GetEntry(bytes, next, k)
        case Fail(code) => Fail(code)
        case Done(e, last) => Done(Inserted(dict, e.0, e.1), last)
  }

  function GetEntry(bytes: seq<Byte>, pos: nat, k: nat): Parsed<(Name, nat)> {
    match GetName(bytes, pos)
    case Fail(code) => Fail(code)
    case Done(name, next) =>
      match GetNumber(bytes, next, k)
      case Fail(code) => Fail(code)
      case Done(x, last) => Done((name, x), last)
  }

  function Inserted(dict: map<Name, nat>, name: Name, x: nat): map<Name, nat> {
    if name in dict then dict else dict[name := x]
  }

  ghost predicate EntriesFit(dict: map<Name, nat>, bound: nat) {
    forall name :: name in dict ==> NameFits(name) && dict[name] < bound
  }

  lemma GetEntryInverts(bytes: seq<Byte>, pos: nat, dict: map<Name, nat>, name: Name, k: nat, bound: nat)
    requires Holds(k, bound) && EntriesFit(dict, bound) && name in dict
    requires At(bytes, pos, PutEntry(dict, name, k))
    ensures GetEntry(bytes, pos, k) == Done((name, dict[name]), pos + |PutEntry(dict, name, k)|)
  {
    GetNameInverts(bytes, pos, name);
    NumberInverts(bytes, pos + |PutName(name)|, dict[name], k, bound);
    AtConcat(bytes, pos, PutName(name), Little(dict[name], k));
  }

  /** The part of the dictionary with the given keys. */
  function Part(dict: map<Name, nat>, order: seq<Name>): map<Name, nat> {
    map name | name in dict && name in order :: dict[name]
  }

  lemma {:induction false} GetEntriesInverts(bytes: seq<Byte>, pos: nat, dict: map<Name, nat>, order: seq<Name>,
                                             k: nat, bound: nat)
    requires Holds(k, bound) && EntriesFit(dict, bound) && Distinct(order, dict.Keys)
    requires At(bytes, pos, PutEntries(dict, order, k))
    ensures GetEntries(bytes, pos, k, |order|) == Done(Part(dict, order), pos + |PutEntries(dict, order, k)|)
    decreases |order|
  {
    if order == [] {
      NoEntryInverts(bytes, pos, dict, order, k);
    } else {
      var front, name := LastApart(order, dict.Keys);
      var next, end := EntriesSplit(bytes, pos, dict, front, name, k);
      GetEntriesInverts(bytes, pos, dict, front, k, bound);
      LastEntryInverts(bytes, pos, dict, front, name, k, bound, next, end);
    }
  }

  lemma NoEntryInverts(bytes: seq<Byte>, pos: nat, dict: map<Name, nat>, order: seq<Name>, k: nat)
    requires order == []
    ensures GetEntries(bytes, pos, k, |order|) == Done(Part(dict, order), pos + |PutEntries(dict, order, k)|)
  {
    assert Part(dict, order) == map[];
  }

  lemma LastApart(order: seq<Name>, keys: set<Name>) returns (front: seq<Name>, name: Name)
    requires order != [] && Distinct(order, keys)
    ensures order == front + [name] && Distinct(front, keys) && name in keys && name !in front
  {
    front, name := order[..|order| - 1], order[|order| - 1];
  }

  lemma EntriesSplit(bytes: seq<Byte>, pos: nat, dict: map<Name, nat>, front: seq<Name>, name: Name, k: nat)
    returns (next: nat, end: nat)
    requires At(bytes, pos, PutEntries(dict, front + [name], k))
    ensures At(bytes, pos, PutEntries(dict, front, k)) && next == pos + |PutEntries(dict, front, k)|
    ensures At(bytes, next, PutEntry(dict, name, k)) && end == next + |PutEntry(dict, name, k)|
    ensures end == pos + |PutEntries(dict, front + [name], k)|
  {
    assert (front + [name])[..|front|] == front;
    AtConcat(bytes, pos, PutEntries(dict, front, k), PutEntry(dict, name, k));
    next := pos + |PutEntries(dict, front, k)|;
    end := next + |PutEntry(dict, name, k)|;
  }

  lemma LastEntryInverts(bytes: seq<Byte>, pos: nat, dict: map<Name, nat>, front: seq<Name>, name: Name,
                         k: nat, bound: nat, next: nat, end: nat)
    requires Holds(k, bound) && EntriesFit(dict, bound) && name in dict && name !in front
    requires GetEntries(bytes, pos, k, |front|) == Done(Part(dict, front), next)
    requires At(bytes, next, PutEntry(dict, name, k)) && end == next + |PutEntry(dict, name, k)|
    ensures GetEntries(bytes, pos, k, |front| + 1) == Done(Part(dict, front + [name]), end)
  {
    GetEntryInverts(bytes, next, dict, name, k, bound);
    PartNext(dict, front, name);
  }

  lemma PartNext(dict: map<Name, nat>, front: seq<Name>, name: Name)
    requires name in dict && name !in front
    ensures Part(dict, front + [name]) == Inserted(Part(dict, front), name, dict[name])
  {
  }

  lemma PartIsAll(dict: map<Name, nat>, order: seq<Name>)
    requires Enumerates(order, dict.Keys)
    ensures Part(dict, order) == dict
  {
  }

  lemma {:induction false} EnumeratesSize(order: seq<Name>, keys: set<Name>)
    requires Enumerates(order, keys)
    ensures |order| == |keys|
    decreases |order|
  {
    if order == [] {
      assert keys == {};
    } else {
      var n := |order| - 1;
      assert order == order[..n] + [order[n]];
      EnumeratesSize(order[..n], keys - {order[n]});
    }
  }

  function GetDictionary(bytes: seq<Byte>, pos: nat, k: nat, n: nat): Parsed<map<Name, nat>> {
    GetEntries(bytes, pos, k, n)
  }

  /** A dictionary is read back as it was, whatever the order its entries were written in. */
  lemma DictionaryInverts(bytes: seq<Byte>, pos: nat, dict: map<Name, nat>, order: seq<Name>,
                          k: nat, bound: nat, n: nat)
    requires Holds(k, bound) && EntriesFit(dict, bound) && Enumerates(order, dict.Keys)
    requires n == |dict|
    requires At(bytes, pos, PutEntries(dict, order, k))
    ensures GetDictionary(bytes, pos, k, n) == Done(dict, pos + |PutEntries(dict, order, k)|)
  {
    EnumeratesSize(order, dict.Keys);
    GetEntriesInverts(bytes, pos, dict, order, k, bound);
    PartIsAll(dict, order);
    assert |dict| == |dict.Keys|;
  }

  // ----------------------------------------------------------------- several slots together

  datatype MergeRecord = MergeRecord(grid: Grid, uvs: seq<nat>, rows: map<Name, nat>)

  ghost predicate MergeFits(r: MergeRecord) {
    && GridFits(r.grid)
    && |r.uvs| == |r.rows| == r.grid.height
    && AllFit(r.uvs, 0x1_0000_0000) && EntriesFit(r.rows, 0x1_0000_0000)
  }

  /** A record, the entries of its dictionary being given. */
  function PutMerge(r: MergeRecord, entries: seq<Byte>): seq<Byte> {
    PutGrid(r.grid) + (PutNumbers(r.uvs, 4) + entries)
  }

  function GetMerge(bytes: seq<Byte>, pos: nat): Parsed<MergeRecord> {
    match GetGrid(bytes, pos)
    case Fail(code) => Fail(code)
    case Done(g, next) =>
      match GetNumbers(bytes, next, 4, g.height)
      case Fail(code) => Fail(code)
      case Done(uvs, later) =>
        match GetDictionary(bytes, later, 4, g.height)
        case Fail(code) => Fail(code)
        case Done(rows, last) => Done(MergeRecord(g, uvs, rows), last)
  }

  /** The entries may have been written in any order. */
  lemma GetMergeInverts(bytes: seq<Byte>, pos: nat, r: MergeRecord, order: seq<Name>, entries: seq<Byte>)
    requires MergeFits(r) && Enumerates(order, r.rows.Keys) && entries == PutEntries(r.rows, order, 4)
    requires At(bytes, pos, PutMerge(r, entries))
    ensures GetMerge(bytes, pos) == if r.grid.data == [] then Fail(1) else Done(r, pos + |PutMerge(r, entries)|)
  {
    var next, later, last := MergeParts(bytes, pos, r, entries);
    RowsInvert(bytes, later, r, order, entries);
    GetMergeWith(bytes, pos, r, next, later, last);
  }

  lemma RowsInvert(bytes: seq<Byte>, later: nat, r: MergeRecord, order: seq<Name>, entries: seq<Byte>)
    requires MergeFits(r) && Enumerates(order, r.rows.Keys) && entries == PutEntries(r.rows, order, 4)
    requires At(bytes, later, entries)
    ensures GetDictionary(bytes, later, 4, r.grid.height) == Done(r.rows, later + |entries|)
  {
    DictionaryInverts(bytes, later, r.rows, order, 4, 0x1_0000_0000, r.grid.height);
  }

  lemma GetMergeWith(bytes: seq<Byte>, pos: nat, r: MergeRecord, next: nat, later: nat, last: nat)
    requires GridFits(r.grid) && |r.uvs| == r.grid.height && AllFit(r.uvs, 0x1_0000_0000)
    requires At(bytes, pos, PutGrid(r.grid)) && next == pos + |PutGrid(r.grid)|
    requires At(bytes, next, PutNumbers(r.uvs, 4)) && later == next + |PutNumbers(r.uvs, 4)|
    requires GetDictionary(bytes, later, 4, r.grid.height) == Done(r.rows, last)
    ensures GetMerge(bytes, pos) == if r.grid.data == [] then Fail(1) else Done(r, last)
  {
    GetGridInverts(bytes, pos, r.grid);
    UvsOf(bytes, r, next, later);
    MergeOf(bytes, pos, r, next, later, last);
  }

  lemma UvsOf(bytes: seq<Byte>, r: MergeRecord, next: nat, later: nat)
    requires |r.uvs| == r.grid.height && AllFit(r.uvs, 0x1_0000_0000)
    requires At(bytes, next, PutNumbers(r.uvs, 4)) && later == next + |PutNumbers(r.uvs, 4)|
    ensures GetNumbers(bytes, next, 4, r.grid.height) == Done(r.uvs, later)
  {
    NumbersInvert(bytes, next, r.uvs, 4, 0x1_0000_0000);
  }

  lemma MergeParts(bytes: seq<Byte>, pos: nat, r: MergeRecord, entries: seq<Byte>)
    returns (next: nat, later: nat, last: nat)
    requires At(bytes, pos, PutMerge(r, entries))
    ensures At(bytes, pos, PutGrid(r.grid)) && next == pos + |PutGrid(r.grid)|
    ensures At(bytes, next, PutNumbers(r.uvs, 4)) && later == next + |PutNumbers(r.uvs, 4)|
    ensures At(bytes, later, entries) && last == later + |entries| == pos + |PutMerge(r, entries)|
  {
    next, later, last := Three(bytes, pos, PutGrid(r.grid), PutNumbers(r.uvs, 4), entries);
  }

  lemma MergeOf(bytes: seq<Byte>, pos: nat, r: MergeRecord, next: nat, later: nat, last: nat)
    requires GetGrid(bytes, pos) == if r.grid.data == [] then Fail(1) else Done(r.grid, next)
    requires GetNumbers(bytes, next, 4, r.grid.height) == Done(r.uvs, later)
    requires GetDictionary(bytes, later, 4, r.grid.height) == Done(r.rows, last)
    ensures GetMerge(bytes, pos) == if r.grid.data == [] then Fail(1) else Done(r, last)
  {
  }
}
