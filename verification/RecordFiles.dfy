/** Writing the records of the index file at the cursor and reading them back. */
module RecordFiles {
  import opened Bytes
  import opened Grids
  import opened Files
  import opened Records

  /** The loop that writes numbers. */
  method WriteNumbers(f: ByteFile, s: seq<nat>, k: nat) returns (size: nat)
    requires f.pos <= |f.bytes|
    modifies f
    ensures f.bytes == Overwritten(old(f.bytes), old(f.pos), PutNumbers(s, k))
    ensures f.pos == old(f.pos) + |PutNumbers(s, k)| && size == |PutNumbers(s, k)|
  {
    for i := 0 to |s|
      invariant f.pos <= |f.bytes| && f.pos == old(f.pos) + |PutNumbers(s[..i], k)|
      invariant f.bytes == Overwritten(old(f.bytes), old(f.pos), PutNumbers(s[..i], k))
    {
      NumbersNext(s, i, k);
      OverwrittenTwice(old(f.bytes), old(f.pos), PutNumbers(s[..i], k), Little(s[i], k));
      f.Write(Little(s[i], k));
    }
    assert s[..|s|] == s;
    size := k * |s|;
  }

  lemma NumbersNext(s: seq<nat>, i: nat, k: nat)
    requires i < |s|
    ensures PutNumbers(s[..i + 1], k) == PutNumbers(s[..i], k) + Little(s[i], k)
  {
    assert s[..i + 1][..i] == s[..i];
  }

  method WriteName(f: ByteFile, name: Name) returns (size: nat)
    requires f.pos <= |f.bytes|
    modifies f
    ensures f.bytes == Overwritten(old(f.bytes), old(f.pos), PutName(name))
    ensures f.pos == old(f.pos) + |PutName(name)| && size == |PutName(name)|
  {
    OverwrittenTwice(f.bytes, f.pos, Little(|name|, 4), name);
    f.Write(Little(|name|, 4));
    f.Write(name);
    size := 4 + |name|;
  }

  // ----------------------------------------------------------------- bitmaps

  method DumpGrid(f: ByteFile, g: Grid) returns (size: nat)
    requires GridFits(g) && f.pos <= |f.bytes|
    modifies f
    ensures f.bytes == Overwritten(old(f.bytes), old(f.pos), PutGrid(g))
    ensures f.pos == old(f.pos) + |PutGrid(g)| && size == |PutGrid(g)|
  {
    OverwrittenTwice(f.bytes, f.pos, PutNumbers([g.width, g.size, g.height], 4), g.data);
    f.Write(PutNumbers([g.width, g.size, g.height], 4));
    f.Write(g.data);
    size := 12 + |g.data|;
  }

  method LoadGrid(f: ByteFile) returns (code: int, g: Grid)
    modifies f`pos
    ensures (if code == 0 then Done(g, f.pos) else Fail(code)) == GetGrid(f.bytes, old(f.pos))
  {
    g := Grid(0, 0, 0, []);
    var ok, header := f.ReadNumbers(4, 3);
    if !ok {
      return 1, g;
    }
    NumbersGot(f.bytes, old(f.pos), 4, 3);
    var n := Area(header[0], header[2]) % 0x1_0000_0000;
    var data := f.ReadSome(n);
    if data == [] {
      return 1, g;
    }
    code, g := 0, Grid(header[1], header[0], header[2], data + seq(n - |data|, _ => 0));
  }

  method DumpBids(f: ByteFile, r: BidRecord) returns (size: nat)
    requires BidsFit(r) && f.pos <= |f.bytes|
    modifies f
    ensures f.bytes == Overwritten(old(f.bytes), old(f.pos), PutBids(r))
    ensures f.pos == old(f.pos) + |PutBids(r)| && size == |PutBids(r)|
  {
    OverwrittenTwice(f.bytes, f.pos, PutGrid(r.grid), PutNumbers(r.bids, 2));
    size := DumpGrid(f, r.grid);
    var more := WriteNumbers(f, r.bids, 2);
    size := size + more;
  }

  method LoadBids(f: ByteFile) returns (code: int, r: BidRecord)
    modifies f`pos
    ensures (if code == 0 then Done(r, f.pos) else Fail(code)) == GetBids(f.bytes, old(f.pos))
  {
    var g;
    code, g := LoadGrid(f);
    r := BidRecord(g, []);
    if code != 0 {
      return;
    }
    var ok, bids := f.ReadNumbers(2, g.size);
    if !ok {
      return 1, r;
    }
    r := BidRecord(g, bids);
  }

  // ----------------------------------------------------------------- ad slots

  method WriteSlot(f: ByteFile, name: Name, x: nat, y: nat) returns (size: nat)
    requires f.pos <= |f.bytes|
    modifies f
    ensures f.bytes == Overwritten(old(f.bytes), old(f.pos), PutSlot(name, x, y))
    ensures f.pos == old(f.pos) + |PutSlot(name, x, y)| && size == |PutSlot(name, x, y)|
  {
    OverwrittenTwice(f.bytes, f.pos, PutName(name), Little(x, 8) + Little(y, 8));
    size := WriteName(f, name);
    OverwrittenTwice(f.bytes, f.pos, Little(x, 8), Little(y, 8));
    f.Write(Little(x, 8));
    f.Write(Little(y, 8));
    size := size + 16;
  }

  method ReadSlot(f: ByteFile) returns (ok: bool, name: Name, x: nat, y: nat)
    modifies f`pos
    ensures (if ok then Done((name, x, y), f.pos) else Fail(1)) == GetSlot(f.bytes, old(f.pos))
  {
    x, y := 0, 0;
    ok, name := f.ReadName();
    if !ok {
      return;
    }
    ok, x := f.ReadNumber(8);
    if !ok {
      return;
    }
    ok, y := f.ReadNumber(8);
  }

  method WriteHours(f: ByteFile, r: PvRecord) returns (size: nat)
    requires f.pos <= |f.bytes|
    modifies f
    ensures f.bytes == Overwritten(old(f.bytes), old(f.pos), PutHours(r))
    ensures f.pos == old(f.pos) + |PutHours(r)| && size == |PutHours(r)|
  {
    OverwrittenTwice(f.bytes, f.pos, PutNumbers(r.hourlyRequest, 4),
                     PutNumbers(r.hourlyPv, 4) + PutNumbers(r.hourlyCtr, 4));
    size := WriteNumbers(f, r.hourlyRequest, 4);
    OverwrittenTwice(f.bytes, f.pos, PutNumbers(r.hourlyPv, 4), PutNumbers(r.hourlyCtr, 4));
    var more := WriteNumbers(f, r.hourlyPv, 4);
    var last := WriteNumbers(f, r.hourlyCtr, 4);
    size := size + more + last;
  }

  method ReadHours(f: ByteFile) returns (ok: bool, request: seq<nat>, pv: seq<nat>, ctr: seq<nat>)
    modifies f`pos
    ensures (if ok then Done((request, pv, ctr), f.pos) else Fail(1)) == GetHours(f.bytes, old(f.pos))
  {
    pv, ctr := [], [];
    ok, request := f.ReadNumbers(4, 24);
    if !ok {
      return;
    }
    ok, pv := f.ReadNumbers(4, 24);
    if !ok {
      return;
    }
    ok, ctr := f.ReadNumbers(4, 24);
  }

  /** Dump of the page views of a slot; without 24 values for each hourly array it gives up, with the
      bitmap already written. */
  method DumpPv(f: ByteFile, r: PvRecord) returns (size: int)
    requires BidsFit(r.samples) && f.pos <= |f.bytes|
    modifies f
    ensures PvFits(r) ==> f.bytes == Overwritten(old(f.bytes), old(f.pos), PutPv(r))
    ensures PvFits(r) ==> f.pos == old(f.pos) + |PutPv(r)| && size == |PutPv(r)|
    ensures !(|r.hourlyRequest| == |r.hourlyPv| == |r.hourlyCtr| == 24) ==> size == -1
  {
    ghost var rest := PutSlot(r.psid, r.request, r.pv) + PutHours(r);
    OverwrittenTwice(f.bytes, f.pos, PutBids(r.samples), rest);
    size := DumpBids(f, r.samples);
    if |r.hourlyRequest| == 24 && |r.hourlyPv| == 24 && |r.hourlyCtr| == 24 {
      OverwrittenTwice(f.bytes, f.pos, PutSlot(r.psid, r.request, r.pv), PutHours(r));
      var slot := WriteSlot(f, r.psid, r.request, r.pv);
      var hours := WriteHours(f, r);
      size := size + slot + hours;
    } else {
      size := -1;
    }
  }

  method LoadPv(f: ByteFile) returns (code: int, r: PvRecord)
    modifies f`pos
    ensures (if code == 0 then Done(r, f.pos) else Fail(code)) == GetPv(f.bytes, old(f.pos))
  {
    var samples;
    code, samples := LoadBids(f);
    r := PvRecord(samples, [], 0, 0, [], [], []);
    if code != 0 {
      return;
    }
    var ok, psid, request, pv := ReadSlot(f);
    if !ok {
      return 1, r;
    }
    var all, hourlyRequest, hourlyPv, hourlyCtr := ReadHours(f);
    if !all {
      return 1, r;
    }
    r := PvRecord(samples, psid, request, pv, hourlyRequest, hourlyPv, hourlyCtr);
  }

  method DumpUv(f: ByteFile, r: UvRecord) returns (size: nat)
    requires BidsFit(r.samples) && f.pos <= |f.bytes|
    modifies f
    ensures f.bytes == Overwritten(old(f.bytes), old(f.pos), PutUv(r))
    ensures f.pos == old(f.pos) + |PutUv(r)| && size == |PutUv(r)|
  {
    OverwrittenTwice(f.bytes, f.pos, PutBids(r.samples), PutSlot(r.psid, r.request, r.uv));
    size := DumpBids(f, r.samples);
    var slot := WriteSlot(f, r.psid, r.request, r.uv);
    size := size + slot;
  }

  method LoadUv(f: ByteFile) returns (code: int, r: UvRecord)
    modifies f`pos
    ensures (if code == 0 then Done(r, f.pos) else Fail(code)) == GetUv(f.bytes, old(f.pos))
  {
    var samples;
    code, samples := LoadBids(f);
    r := UvRecord(samples, [], 0, 0);
    if code != 0 {
      return;
    }
    var ok, psid, request, uv := ReadSlot(f);
    if !ok {
      return 1, r;
    }
    r := UvRecord(samples, psid, request, uv);
  }

  // ----------------------------------------------------------------- dictionaries

  /** The loop over a hash map: its entries are written in some order. */
  method WriteEntries(f: ByteFile, dict: map<Name, nat>, k: nat) returns (size: nat, ghost order: seq<Name>)
    requires f.pos <= |f.bytes|
    modifies f
    ensures Enumerates(order, dict.Keys)
    ensures f.bytes == Overwritten(old(f.bytes), old(f.pos), PutEntries(dict, order, k))
    ensures f.pos == old(f.pos) + |PutEntries(dict, order, k)| && size == |PutEntries(dict, order, k)|
  {
    order := [];
    size := 0;
    var left := dict.Keys;
    while left != {}
      invariant left <= dict.Keys && Enumerates(order, dict.Keys - left)
      invariant f.pos <= |f.bytes| && f.pos == old(f.pos) + size
      invariant size == |PutEntries(dict, order, k)|
      invariant f.bytes == Overwritten(old(f.bytes), old(f.pos), PutEntries(dict, order, k))
    {
      var name :| name in left;
      EntriesNext(dict, order, name, left, k);
      OverwrittenTwice(old(f.bytes), old(f.pos), PutEntries(dict, order, k), PutEntry(dict, name, k));
      var more := WriteEntry(f, dict, name, k);
      size := size + more;
      order := order + [name];
      left := left - {name};
    }
    assert dict.Keys - left == dict.Keys;
  }

  method WriteEntry(f: ByteFile, dict: map<Name, nat>, name: Name, k: nat) returns (size: nat)
    requires f.pos <= |f.bytes| && name in dict
    modifies f
    ensures f.bytes == Overwritten(old(f.bytes), old(f.pos), PutEntry(dict, name, k))
    ensures f.pos == old(f.pos) + |PutEntry(dict, name, k)| && size == |PutEntry(dict, name, k)|
  {
    OverwrittenTwice(f.bytes, f.pos, PutName(name), Little(dict[name], k));
    size := WriteName(f, name);
    f.Write(Little(dict[name], k));
    size := size + k;
  }

  lemma EntriesNext(dict: map<Name, nat>, order: seq<Name>, name: Name, left: set<Name>, k: nat)
    requires left <= dict.Keys && Enumerates(order, dict.Keys - left) && name in left
    ensures Enumerates(order + [name], dict.Keys - (left - {name}))
    ensures PutEntries(dict, order + [name], k)
         == PutEntries(dict, order, k) + PutEntry(dict, name, k)
  {
    var more := order + [name];
    assert more[..|order|] == order;
    forall key | key in dict.Keys - (left - {name}) ensures key in more {
      assert key == name || key in order;
      assert more[|order|] == name;
    }
  }

  /** The loop that fills a map; a key that is there already keeps its value. */
  method ReadEntries(f: ByteFile, k: nat, n: nat) returns (ok: bool, dict: map<Name, nat>)
    modifies f`pos
    ensures (if ok then Done(dict, f.pos) else Fail(1)) == GetDictionary(f.bytes, old(f.pos), k, n)
  {
    dict := map[];
    var i := 0;
    while i < n
      invariant i <= n && GetEntries(f.bytes, old(f.pos), k, i) == Done(dict, f.pos)
    {
      var name, x;
      ok, name, x := ReadEntry(f, k);
      if !ok {
        EntriesFail(f.bytes, old(f.pos), k, i + 1, n);
        return;
      }
      if name !in dict {
        dict := dict[name := x];
      }
      i := i + 1;
    }
    ok := true;
  }

  method ReadEntry(f: ByteFile, k: nat) returns (ok: bool, name: Name, x: nat)
    modifies f`pos
    ensures (if ok then Done((name, x), f.pos) else Fail(1)) == GetEntry(f.bytes, old(f.pos), k)
  {
    x := 0;
    ok, name := f.ReadName();
    if !ok {
      return;
    }
    ok, x := f.ReadNumber(k);
  }

  lemma {:induction false} EntriesFail(bytes: seq<Byte>, pos: nat, k: nat, i: nat, n: nat)
    requires i <= n && GetEntries(bytes, pos, k, i) == Fail(1)
    ensures GetEntries(bytes, pos, k, n) == Fail(1)
    decreases n
  {
    if i < n {
      EntriesFail(bytes, pos, k, i, n - 1);
    }
  }

  // ----------------------------------------------------------------- several slots together

  method DumpMerge(f: ByteFile, r: MergeRecord) returns (size: nat, ghost order: seq<Name>)
    requires MergeFits(r) && f.pos <= |f.bytes|
    modifies f
    ensures Enumerates(order, r.rows.Keys)
    ensures f.bytes == Overwritten(old(f.bytes), old(f.pos), PutMerge(r, PutEntries(r.rows, order, 4)))
    ensures f.pos == old(f.pos) + size && size == |PutMerge(r, PutEntries(r.rows, order, 4))|
  {
    ghost var start, pos := f.bytes, f.pos;
    size := WriteCounts(f, r);
    var rows;
    rows, order := WriteEntries(f, r.rows, 4);
    OverwrittenThrice(start, pos, PutGrid(r.grid), PutNumbers(r.uvs, 4), PutEntries(r.rows, order, 4));
    size := size + rows;
  }

  /** The bitmap and the counts. */
  method WriteCounts(f: ByteFile, r: MergeRecord) returns (size: nat)
    requires MergeFits(r) && f.pos <= |f.bytes|
    modifies f
    ensures f.bytes == Overwritten(old(f.bytes), old(f.pos), PutGrid(r.grid) + PutNumbers(r.uvs, 4))
    ensures size == |PutGrid(r.grid)| + |PutNumbers(r.uvs, 4)| && f.pos == old(f.pos) + size
  {
    OverwrittenTwice(f.bytes, f.pos, PutGrid(r.grid), PutNumbers(r.uvs, 4));
    size := DumpGrid(f, r.grid);
    var uvs := WriteNumbers(f, r.uvs, 4);
    size := size + uvs;
  }

  lemma OverwrittenThrice(start: seq<Byte>, pos: nat, a: seq<Byte>, b: seq<Byte>, c: seq<Byte>)
    requires pos <= |start|
    ensures Overwritten(Overwritten(start, pos, a + b), pos + |a| + |b|, c) == Overwritten(start, pos, a + (b + c))
  {
    OverwrittenTwice(start, pos, a + b, c);
    assert a + b + c == a + (b + c);
  }

  method LoadMerge(f: ByteFile) returns (code: int, r: MergeRecord)
    modifies f`pos
    ensures (if code == 0 then Done(r, f.pos) else Fail(code)) == GetMerge(f.bytes, old(f.pos))
  {
    var g;
    code, g := LoadGrid(f);
    r := MergeRecord(g, [], map[]);
    if code != 0 {
      return;
    }
    var ok, uvs := f.ReadNumbers(4, g.height);
    if !ok {
      return 1, r;
    }
    var all, rows := ReadEntries(f, 4, g.height);
    if !all {
      return 1, r;
    }
    r := MergeRecord(g, uvs, rows);
  }
}
