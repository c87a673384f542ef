/** The index file (Dump and Load of src/index.cc): two regions of 64 KiB with the offsets of the
    records, the offset of the merge record, and the records. */
module IndexFile {
  import opened Bytes
  import opened Grids
  import opened Files
  import opened Records
  import opened RecordFiles
  import BidBitmap
  import UvMerge

  datatype Option<T> = None | Some(value: T)

  const REGION := 65536
  const FIRST := 131080

  /** The record of an ad slot; the index has one map for each kind. */
  datatype Record = Pv(pv: PvRecord) | Uv(uv: UvRecord) {
    function Samples(): BidRecord { if Pv? then pv.samples else uv.samples }
  }

  /** A slot can be in a map without a record. */
  type Slots = map<Name, Option<Record>>

  ghost predicate RecordFits(kind: bool, r: Record) {
    match r
    case Pv(pv) => kind && PvFits(pv)
    case Uv(uv) => !kind && UvFits(uv)
  }

  function PutRecord(r: Record): seq<Byte> {
    match r
    case Pv(pv) => PutPv(pv)
    case Uv(uv) => PutUv(uv)
  }

  function GetRecord(kind: bool, bytes: seq<Byte>, pos: nat): Option<Record> {
    if kind then
      match GetPv(bytes, pos)
      case Fail(_) => None
      case Done(pv, _) => Some(Pv(pv))
    else
      match GetUv(bytes, pos)
      case Fail(_) => None
      case Done(uv, _) => Some(Uv(uv))
  }

  /** A record whose bitmap has no bytes is written but cannot be read. */
  function Readable(r: Record): bool { r.Samples().grid.data != [] }

  lemma GetRecordInverts(kind: bool, bytes: seq<Byte>, pos: nat, r: Record)
    requires RecordFits(kind, r) && At(bytes, pos, PutRecord(r))
    ensures GetRecord(kind, bytes, pos) == if Readable(r) then Some(r) else None
  {
    if kind {
      GetPvInverts(bytes, pos, r.pv);
    } else {
      GetUvInverts(bytes, pos, r.uv);
    }
  }

  // ----------------------------------------------------------------- offset maps

  function PutDirectory(at: map<Name, nat>, order: seq<Name>): seq<Byte> {
    Little(|order|, 4) + PutEntries(at, order, 8)
  }

  function GetDirectory(bytes: seq<Byte>, pos: nat): Parsed<map<Name, nat>> {
    match GetNumber(bytes, pos, 4)
    case Fail(code) => Fail(code)
    case Done(n, next) => GetDictionary(bytes, next, 8, n)
  }

  lemma GetDirectoryInverts(bytes: seq<Byte>, pos: nat, at: map<Name, nat>, order: seq<Name>)
    requires EntriesFit(at, 0x1_0000_0000_0000_0000) && Enumerates(order, at.Keys) && |order| < 0x1_0000_0000
    requires At(bytes, pos, PutDirectory(at, order))
    ensures GetDirectory(bytes, pos).Done? && GetDirectory(bytes, pos).value == at
  {
    EnumeratesSize(order, at.Keys);
    assert |at| == |at.Keys|;
    DirectoryParts(bytes, pos, at, order);
    DictionaryInverts(bytes, pos + 4, at, order, 8, 0x1_0000_0000_0000_0000, |order|);
  }

  lemma DirectoryParts(bytes: seq<Byte>, pos: nat, at: map<Name, nat>, order: seq<Name>)
    requires At(bytes, pos, PutDirectory(at, order)) && |order| < 0x1_0000_0000
    ensures GetNumber(bytes, pos, 4) == Done(|order|, pos + 4)
    ensures At(bytes, pos + 4, PutEntries(at, order, 8))
  {
    AtConcat(bytes, pos, Little(|order|, 4), PutEntries(at, order, 8));
    NumberInverts(bytes, pos, |order|, 4, 0x1_0000_0000);
  }

  /** The bytes that entries with these names take, beside the size in front of them. */
  function EntryBytes(order: seq<Name>): nat {
    if order == [] then 0 else EntryBytes(order[..|order| - 1]) + 12 + |order[|order| - 1]|
  }

  lemma {:induction false} EntriesTake(at: map<Name, nat>, order: seq<Name>)
    ensures |PutEntries(at, order, 8)| == EntryBytes(order)
    ensures 12 * |order| <= EntryBytes(order)
    decreases |order|
  {
    if order != [] {
      EntriesTake(at, order[..|order| - 1]);
    }
  }

  /** ... summed over a set. */
  ghost function NamesBytes(names: set<Name>): nat {
    if names == {} then 0
    else
      var name :| name in names;
      NamesBytes(names - {name}) + 12 + |name|
  }

  lemma {:induction false} NamesBytesOf(names: set<Name>, name: Name)
    requires name in names
    ensures NamesBytes(names) == NamesBytes(names - {name}) + 12 + |name|
    decreases names
  {
    var first :| first in names && NamesBytes(names) == NamesBytes(names - {first}) + 12 + |first|;
    if first != name {
      NamesBytesOf(names - {first}, name);
      NamesBytesOf(names - {name}, first);
      assert names - {first} - {name} == names - {name} - {first};
    }
  }

  /** The sum does not depend on the order. */
  lemma {:induction false} BytesOfOrder(order: seq<Name>, names: set<Name>)
    requires Enumerates(order, names)
    ensures EntryBytes(order) == NamesBytes(names)
    decreases |order|
  {
    if order == [] {
      assert names == {};
    } else {
      var n := |order| - 1;
      WithoutLast(order, names);
      BytesOfOrder(order[..n], names - {order[n]});
      NamesBytesOf(names, order[n]);
    }
  }

  lemma WithoutLast(order: seq<Name>, names: set<Name>)
    requires Enumerates(order, names) && order != []
    ensures order[|order| - 1] in names
    ensures Enumerates(order[..|order| - 1], names - {order[|order| - 1]})
  {
    var n := |order| - 1;
    forall k | k in names && k != order[n] ensures k in order[..n] {
      var i :| 0 <= i < |order| && order[i] == k;
      assert order[..n][i] == k;
    }
  }

  /** There is an order, so this says how much the offset map of a set of slots takes. */
  lemma {:induction false} OrderExists(names: set<Name>) returns (order: seq<Name>)
    ensures Enumerates(order, names) && EntryBytes(order) == NamesBytes(names)
    decreases names
  {
    if names == {} {
      order := [];
    } else {
      var name :| name in names;
      var before := OrderExists(names - {name});
      order := before + [name];
      NamesBytesOf(names, name);
      assert order[..|order| - 1] == before;
      assert order[|before|] == name;
      forall k | k in names ensures k in order {
      }
    }
  }

  /** The offset map of these slots fits its region. */
  ghost predicate DirectoryFits(names: set<Name>) { 4 + NamesBytes(names) <= REGION }

  // ----------------------------------------------------------------- the layout of the file

  datatype Contents = Contents(pv: Slots, uv: Slots, merge: Option<MergeRecord>)

  /** The slots that have a record. */
  function Present(slots: Slots): set<Name> { set name | name in slots && slots[name].Some? }

  ghost predicate SlotsFit(kind: bool, slots: Slots) {
    forall name :: name in slots ==> NameFits(name) && (slots[name].Some? ==> RecordFits(kind, slots[name].value))
  }

  /** The records stand at their offsets, behind the directories. */
  ghost predicate RecordsAt(bytes: seq<Byte>, at: map<Name, nat>, slots: Slots) {
    forall name :: name in at ==> RecordAt(bytes, slots, name, at[name])
  }

  ghost predicate RecordAt(bytes: seq<Byte>, slots: Slots, name: Name, pos: nat) {
    && name in slots && slots[name].Some?
    && FIRST <= pos && At(bytes, pos, PutRecord(slots[name].value))
  }

  /** Where things are in a file, and the orders the maps were written in. */
  datatype Layout = Layout(pvAt: map<Name, nat>, uvAt: map<Name, nat>, mergeAt: nat,
                           pvOrder: seq<Name>, uvOrder: seq<Name>, mergeOrder: seq<Name>)

  ghost predicate DirectoryAt(bytes: seq<Byte>, pos: nat, at: map<Name, nat>, order: seq<Name>) {
    Enumerates(order, at.Keys) && At(bytes, pos, PutDirectory(at, order))
  }

  ghost predicate MergeAt(bytes: seq<Byte>, pos: nat, r: MergeRecord, order: seq<Name>) {
    && Enumerates(order, r.rows.Keys)
    && FIRST <= pos && At(bytes, pos, PutMerge(r, PutEntries(r.rows, order, 4)))
  }

  ghost predicate Laid(bytes: seq<Byte>, c: Contents, l: Layout) {
    && c.merge.Some?
    && l.pvAt.Keys == Present(c.pv) && DirectoryAt(bytes, 0, l.pvAt, l.pvOrder) && RecordsAt(bytes, l.pvAt, c.pv)
    && l.uvAt.Keys == Present(c.uv) && DirectoryAt(bytes, REGION, l.uvAt, l.uvOrder) && RecordsAt(bytes, l.uvAt, c.uv)
    && At(bytes, 2 * REGION, Little(l.mergeAt, 8)) && MergeAt(bytes, l.mergeAt, c.merge.value, l.mergeOrder)
  }

  lemma AppendedIs(bytes: seq<Byte>, s: seq<Byte>)
    ensures Overwritten(bytes, |bytes|, s) == bytes + s
  {
  }

  lemma RecordsKept(bytes: seq<Byte>, at: map<Name, nat>, slots: Slots, pos: nat, s: seq<Byte>)
    requires RecordsAt(bytes, at, slots)
    requires pos <= |bytes| && (pos + |s| <= FIRST || pos == |bytes|)
    ensures RecordsAt(Overwritten(bytes, pos, s), at, slots)
  {
    forall name | name in at ensures RecordAt(Overwritten(bytes, pos, s), slots, name, at[name]) {
      assert RecordAt(bytes, slots, name, at[name]);
      OverwrittenElsewhere(bytes, pos, s, at[name], PutRecord(slots[name].value));
    }
  }

  // ----------------------------------------------------------------- Dump

  method DumpRecord(f: ByteFile, r: Record, ghost kind: bool) returns (size: nat)
    requires RecordFits(kind, r) && f.pos <= |f.bytes|
    modifies f
    ensures f.bytes == Overwritten(old(f.bytes), old(f.pos), PutRecord(r))
    ensures f.pos == old(f.pos) + |PutRecord(r)| && size == |PutRecord(r)|
  {
    match r
    case Pv(pv) => size := DumpPv(f, pv);
    case Uv(uv) => size := DumpUv(f, uv);
  }

  lemma RecordAdded(bytes: seq<Byte>, at: map<Name, nat>, slots: Slots, name: Name)
    requires RecordsAt(bytes, at, slots) && FIRST <= |bytes|
    requires name in slots && slots[name].Some?
    ensures RecordsAt(Overwritten(bytes, |bytes|, PutRecord(slots[name].value)), at[name := |bytes|], slots)
    ensures bytes <= Overwritten(bytes, |bytes|, PutRecord(slots[name].value))
  {
    var s := PutRecord(slots[name].value);
    Appended(bytes, s);
    RecordsKept(bytes, at, slots, |bytes|, s);
    OneMoreAt(Overwritten(bytes, |bytes|, s), at, slots, name, |bytes|, s);
  }

  lemma Appended(bytes: seq<Byte>, s: seq<Byte>)
    ensures bytes <= Overwritten(bytes, |bytes|, s)
    ensures At(Overwritten(bytes, |bytes|, s), |bytes|, s)
  {
    WrittenIsThere(bytes, |bytes|, s);
    AppendedIs(bytes, s);
  }

  lemma OneMoreAt(bytes: seq<Byte>, at: map<Name, nat>, slots: Slots, name: Name, offset: nat, s: seq<Byte>)
    requires RecordsAt(bytes, at, slots) && FIRST <= offset
    requires name in slots && slots[name].Some? && s == PutRecord(slots[name].value) && At(bytes, offset, s)
    ensures RecordsAt(bytes, at[name := offset], slots)
  {
    forall other | other in at && other != name ensures RecordAt(bytes, slots, other, at[name := offset][other]) {
    }
  }

  ghost predicate OffsetsUpTo(at: map<Name, nat>, offset: nat) {
    forall name :: name in at ==> at[name] <= offset
  }

  /** One record at the end of the file. */
  method DumpNext(f: ByteFile, slots: Slots, name: Name, at: map<Name, nat>, offset: nat, ghost kind: bool)
    returns (more: map<Name, nat>, next: nat)
    requires SlotsFit(kind, slots) && name in slots && slots[name].Some?
    requires FIRST <= offset == f.pos == |f.bytes|
    requires RecordsAt(f.bytes, at, slots) && OffsetsUpTo(at, offset)
    modifies f
    ensures offset <= next == f.pos == |f.bytes| && old(f.bytes) <= f.bytes
    ensures more == at[name := offset]
    ensures RecordsAt(f.bytes, more, slots) && OffsetsUpTo(more, next)
  {
    RecordAdded(f.bytes, at, slots, name);
    var size := DumpRecord(f, slots[name].value, kind);
    more := at[name := offset];
    next := offset + size;
  }

  /** The two loops of Dump over the maps, in whatever order these have. */
  method DumpRecords(f: ByteFile, slots: Slots, start: nat, ghost kind: bool) returns (at: map<Name, nat>, offset: nat)
    requires SlotsFit(kind, slots)
    requires FIRST <= start == f.pos == |f.bytes|
    modifies f
    ensures start <= offset == f.pos == |f.bytes| && old(f.bytes) <= f.bytes
    ensures at.Keys == Present(slots) && RecordsAt(f.bytes, at, slots) && OffsetsUpTo(at, offset)
  {
    at, offset := map[], start;
    var left := slots.Keys;
    while left != {}
      invariant left <= slots.Keys
      invariant start <= offset == f.pos == |f.bytes| && old(f.bytes) <= f.bytes
      invariant at.Keys == Present(slots) - left && RecordsAt(f.bytes, at, slots) && OffsetsUpTo(at, offset)
    {
      var name :| name in left;
      PresentNext(slots, left, name);
      left := left - {name};
      if slots[name].None? {
        continue;
      }
      at, offset := DumpNext(f, slots, name, at, offset, kind);
    }
  }

  lemma PresentNext(slots: Slots, left: set<Name>, name: Name)
    requires left <= slots.Keys && name in left
    ensures Present(slots) - (left - {name})
         == Present(slots) - left + if slots[name].Some? then {name} else {}
  {
  }

  /** DumpOffsetMap. */
  method DumpDirectory(f: ByteFile, at: map<Name, nat>) returns (size: nat, ghost order: seq<Name>)
    requires f.pos <= |f.bytes|
    modifies f
    ensures Enumerates(order, at.Keys)
    ensures f.bytes == Overwritten(old(f.bytes), old(f.pos), PutDirectory(at, order))
    ensures f.pos == old(f.pos) + size && size == |PutDirectory(at, order)|
  {
    f.Write(Little(|at|, 4));
    var entries;
    entries, order := WriteEntries(f, at, 8);
    EnumeratesSize(order, at.Keys);
    assert |at| == |at.Keys|;
    OverwrittenTwice(old(f.bytes), old(f.pos), Little(|at|, 4), PutEntries(at, order, 8));
    size := 4 + entries;
  }

  lemma RecordsStay(bytes: seq<Byte>, more: seq<Byte>, at: map<Name, nat>, slots: Slots)
    requires RecordsAt(bytes, at, slots) && bytes <= more
    ensures RecordsAt(more, at, slots)
  {
    forall name | name in at ensures RecordAt(more, slots, name, at[name]) {
      assert RecordAt(bytes, slots, name, at[name]);
      Stays(bytes, more, at[name], PutRecord(slots[name].value));
    }
  }

  lemma Stays(bytes: seq<Byte>, more: seq<Byte>, pos: nat, s: seq<Byte>)
    requires At(bytes, pos, s) && bytes <= more
    ensures At(more, pos, s)
  {
    Files.SameSlice(bytes, more, pos, |s|);
  }

  /** One sum over the names tells how long the offset map is, in whatever order it is written. */
  lemma DirectorySize(at: map<Name, nat>, order: seq<Name>)
    requires Enumerates(order, at.Keys)
    ensures |PutDirectory(at, order)| == 4 + NamesBytes(at.Keys)
    ensures |PutDirectory(at, order)| <= REGION <==> DirectoryFits(at.Keys)
    ensures DirectoryFits(at.Keys) ==> |order| < 0x1_0000_0000
  {
    EntriesTake(at, order);
    BytesOfOrder(order, at.Keys);
  }

  /** What the file holds before the directories are written. */
  ghost predicate Recorded(bytes: seq<Byte>, c: Contents, l: Layout) {
    && c.merge.Some? && FIRST <= |bytes|
    && l.pvAt.Keys == Present(c.pv) && RecordsAt(bytes, l.pvAt, c.pv)
    && l.uvAt.Keys == Present(c.uv) && RecordsAt(bytes, l.uvAt, c.uv)
    && MergeAt(bytes, l.mergeAt, c.merge.value, l.mergeOrder)
  }

  /** Writing in front of the records leaves them as they are. */
  lemma RecordedKept(bytes: seq<Byte>, c: Contents, l: Layout, pos: nat, s: seq<Byte>)
    requires Recorded(bytes, c, l) && pos + |s| <= FIRST
    ensures Recorded(Overwritten(bytes, pos, s), c, l)
  {
    RecordsKept(bytes, l.pvAt, c.pv, pos, s);
    RecordsKept(bytes, l.uvAt, c.uv, pos, s);
    OverwrittenElsewhere(bytes, pos, s, l.mergeAt,
                         PutMerge(c.merge.value, PutEntries(c.merge.value.rows, l.mergeOrder, 4)));
  }

  /** The three pieces in front of the records do not touch each other. */
  lemma FrontPieces(bytes: seq<Byte>, pv: seq<Byte>, uv: seq<Byte>, offset: seq<Byte>)
    requires FIRST <= |bytes| && |pv| <= REGION && |uv| <= REGION && |offset| == 8
    ensures var done := Overwritten(Overwritten(Overwritten(bytes, 0, pv), REGION, uv), 2 * REGION, offset);
            At(done, 0, pv) && At(done, REGION, uv) && At(done, 2 * REGION, offset) && |done| == |bytes|
  {
    var one := Overwritten(bytes, 0, pv);
    var two := Overwritten(one, REGION, uv);
    WrittenIsThere(bytes, 0, pv);
    WrittenIsThere(one, REGION, uv);
    OverwrittenElsewhere(one, REGION, uv, 0, pv);
    WrittenIsThere(two, 2 * REGION, offset);
    OverwrittenElsewhere(two, 2 * REGION, offset, 0, pv);
    OverwrittenElsewhere(two, 2 * REGION, offset, REGION, uv);
  }

  /** The file when the front has been filled in, whether or not the offset maps fit. */
  function FrontWritten(back: seq<Byte>, l: Layout): seq<Byte>
    requires FIRST <= |back|
  {
    var one := Overwritten(back, 0, PutDirectory(l.pvAt, l.pvOrder));
    var two := Overwritten(one, REGION, PutDirectory(l.uvAt, l.uvOrder));
    Overwritten(two, 2 * REGION, Little(l.mergeAt, 8))
  }

  lemma FrontCompletes(bytes: seq<Byte>, c: Contents, l: Layout)
    requires Recorded(bytes, c, l)
    requires Enumerates(l.pvOrder, l.pvAt.Keys) && DirectoryFits(l.pvAt.Keys)
    requires Enumerates(l.uvOrder, l.uvAt.Keys) && DirectoryFits(l.uvAt.Keys)
    ensures Laid(FrontWritten(bytes, l), c, l) && |FrontWritten(bytes, l)| == |bytes|
  {
    var pv, uv, offset := PutDirectory(l.pvAt, l.pvOrder), PutDirectory(l.uvAt, l.uvOrder), Little(l.mergeAt, 8);
    DirectorySize(l.pvAt, l.pvOrder);
    DirectorySize(l.uvAt, l.uvOrder);
    FrontPieces(bytes, pv, uv, offset);
    RecordedKept(bytes, c, l, 0, pv);
    RecordedKept(Overwritten(bytes, 0, pv), c, l, REGION, uv);
    RecordedKept(Overwritten(Overwritten(bytes, 0, pv), REGION, uv), c, l, 2 * REGION, offset);
  }

  /** The records, behind an empty front. */
  method DumpBack(f: ByteFile, pvs: Slots, uvs: Slots, merge: MergeRecord)
    returns (pvAt: map<Name, nat>, uvAt: map<Name, nat>, offset: nat, size: nat, ghost mergeOrder: seq<Name>)
    requires SlotsFit(true, pvs) && SlotsFit(false, uvs) && MergeFits(merge)
    modifies f
    ensures Recorded(f.bytes, Contents(pvs, uvs, Some(merge)), Layout(pvAt, uvAt, offset, [], [], mergeOrder))
    ensures offset + size == |f.bytes|
  {
    f.Truncate();
    f.Write(seq(FIRST, _ => 0));
    pvAt, offset := DumpRecords(f, pvs, FIRST, true);
    ghost var one := f.bytes;
    uvAt, offset := DumpRecords(f, uvs, offset, false);
    ghost var two := f.bytes;
    RecordsStay(one, two, pvAt, pvs);
    size, mergeOrder := DumpMerge(f, merge);
    Appended(two, PutMerge(merge, PutEntries(merge.rows, mergeOrder, 4)));
    RecordsStay(two, f.bytes, pvAt, pvs);
    RecordsStay(two, f.bytes, uvAt, uvs);
  }

  /** The directories and the offset of the merge record. */
  method DumpFront(f: ByteFile, pvAt: map<Name, nat>, uvAt: map<Name, nat>, offset: nat)
    returns (ghost pvOrder: seq<Name>, ghost uvOrder: seq<Name>)
    requires FIRST <= |f.bytes|
    modifies f
    ensures Enumerates(pvOrder, pvAt.Keys) && Enumerates(uvOrder, uvAt.Keys)
    ensures f.bytes == FrontWritten(old(f.bytes), Layout(pvAt, uvAt, offset, pvOrder, uvOrder, []))
  {
    var ok := f.Seek(0);
    var size;
    size, pvOrder := DumpDirectory(f, pvAt);
    ok := f.Seek(REGION);
    size, uvOrder := DumpDirectory(f, uvAt);
    ok := f.Seek(2 * REGION);
    f.Write(Little(offset, 8));
  }

  // ----------------------------------------------------------------- Load

  const EMPTY := Contents(map[], map[], None)

  /** The records that are found at their offsets. */
  function Found(read: nat -> Option<Record>, at: map<Name, nat>): Slots {
    map name | name in at && at[name] <= INT64_MAX && read(at[name]).Some? :: read(at[name])
  }

  function Reader(kind: bool, bytes: seq<Byte>): nat -> Option<Record> {
    (pos: nat) => GetRecord(kind, bytes, pos)
  }

  function LoadedRecords(kind: bool, bytes: seq<Byte>, at: map<Name, nat>): Slots { Found(Reader(kind, bytes), at) }

  /** What Load makes of a file: its return code and the contents of the index. */
  function Loaded(bytes: seq<Byte>): (int, Contents) {
    match GetDirectory(bytes, 0)
    case Fail(_) => (-2, EMPTY)
    case Done(pvAt, _) =>
      match GetDirectory(bytes, REGION)
      case Fail(_) => (-2, EMPTY)
      case Done(uvAt, _) =>
        match GetNumber(bytes, 2 * REGION, 8)
        case Fail(_) => (-4, EMPTY)
        case Done(mergeAt, _) =>
          var found := Contents(LoadedRecords(true, bytes, pvAt), LoadedRecords(false, bytes, uvAt), None);
          LoadedMerge(bytes, mergeAt, found)
  }

  function LoadedMerge(bytes: seq<Byte>, mergeAt: nat, found: Contents): (int, Contents) {
    if mergeAt > INT64_MAX then (-3, found)
    else
      match GetMerge(bytes, mergeAt)
      case Fail(_) => (-6, found)
      case Done(merge, _) => (0, found.(merge := Some(merge)))
  }

  /** LoadOffsetMap. */
  method LoadDirectory(f: ByteFile) returns (ok: bool, at: map<Name, nat>)
    modifies f`pos
    ensures (if ok then Done(at, f.pos) else Fail(1)) == GetDirectory(f.bytes, old(f.pos))
  {
    at := map[];
    var n;
    ok, n := f.ReadNumber(4);
    if !ok {
      return;
    }
    ok, at := ReadEntries(f, 8, n);
  }

  method LoadRecord(f: ByteFile, kind: bool) returns (r: Option<Record>)
    modifies f`pos
    ensures r == GetRecord(kind, f.bytes, old(f.pos))
  {
    if kind {
      var code, pv := LoadPv(f);
      r := if code == 0 then Some(Pv(pv)) else None;
    } else {
      var code, uv := LoadUv(f);
      r := if code == 0 then Some(Uv(uv)) else None;
    }
  }

  /** The two loops of Load; records that cannot be read are passed over. */
  method LoadRecords(f: ByteFile, kind: bool, at: map<Name, nat>) returns (slots: Slots)
    modifies f`pos
    ensures slots == LoadedRecords(kind, f.bytes, at)
  {
    slots := map[];
    var left := at.Keys;
    while left != {}
      invariant left <= at.Keys
      invariant slots == LoadedRecords(kind, f.bytes, Outside(at, left))
    {
      var name :| name in left;
      OutsideNext(Reader(kind, f.bytes), at, left, name);
      left := left - {name};
      var ok := f.Seek(at[name]);
      if !ok {
        continue;
      }
      var r := LoadRecord(f, kind);
      if r.Some? {
        slots := slots[name := r];
      }
    }
    assert Outside(at, left) == at;
  }

  function Outside(at: map<Name, nat>, left: set<Name>): map<Name, nat> {
    map name | name in at && name !in left :: at[name]
  }

  lemma OutsideNext(read: nat -> Option<Record>, at: map<Name, nat>, left: set<Name>, name: Name)
    requires left <= at.Keys && name in left
    ensures var before, after := Found(read, Outside(at, left)), Found(read, Outside(at, left - {name}));
            after == if at[name] <= INT64_MAX && read(at[name]).Some? then before[name := read(at[name])] else before
  {
  }

  // ----------------------------------------------------------------- round trip

  ghost predicate ContentsFit(c: Contents) {
    && SlotsFit(true, c.pv) && SlotsFit(false, c.uv)
    && (c.merge.Some? ==> MergeFits(c.merge.value))
  }

  /** The offset maps of the slots with records fit their regions. */
  ghost predicate DirectoriesFit(c: Contents) {
    DirectoryFits(Present(c.pv)) && DirectoryFits(Present(c.uv))
  }

  /** The slots with a record that has a bitmap. */
  function Kept(slots: Slots): Slots {
    map name | name in slots && slots[name].Some? && Readable(slots[name].value) :: slots[name]
  }

  function Restored(c: Contents): Contents {
    Contents(Kept(c.pv), Kept(c.uv),
             if c.merge.Some? && c.merge.value.grid.data == [] then None else c.merge)
  }

  lemma RecordLoads(kind: bool, bytes: seq<Byte>, at: map<Name, nat>, slots: Slots, name: Name)
    requires SlotsFit(kind, slots) && |bytes| <= INT64_MAX
    requires RecordsAt(bytes, at, slots) && name in at
    ensures name in slots && slots[name].Some? && at[name] <= INT64_MAX
    ensures Reader(kind, bytes)(at[name]) == if Readable(slots[name].value) then slots[name] else None
  {
    assert RecordAt(bytes, slots, name, at[name]);
    GetRecordInverts(kind, bytes, at[name], slots[name].value);
  }

  lemma RecordsLoad(kind: bool, bytes: seq<Byte>, at: map<Name, nat>, slots: Slots)
    requires SlotsFit(kind, slots) && |bytes| <= INT64_MAX
    requires at.Keys == Present(slots) && RecordsAt(bytes, at, slots)
    ensures LoadedRecords(kind, bytes, at) == Kept(slots)
  {
    var read := Reader(kind, bytes);
    forall name | name in at
      ensures at[name] <= INT64_MAX
      ensures read(at[name]) == if Readable(slots[name].value) then slots[name] else None
    {
      RecordLoads(kind, bytes, at, slots, name);
    }
    FoundIsKept(read, at, slots);
  }

  lemma FoundIsKept(read: nat -> Option<Record>, at: map<Name, nat>, slots: Slots)
    requires at.Keys == Present(slots)
    requires forall name :: name in at ==>
      at[name] <= INT64_MAX && read(at[name]) == if Readable(slots[name].value) then slots[name] else None
    ensures Found(read, at) == Kept(slots)
  {
  }

  lemma OffsetsFit(kind: bool, bytes: seq<Byte>, at: map<Name, nat>, slots: Slots)
    requires SlotsFit(kind, slots) && |bytes| <= INT64_MAX && RecordsAt(bytes, at, slots)
    ensures EntriesFit(at, 0x1_0000_0000_0000_0000)
  {
    forall name | name in at ensures NameFits(name) && at[name] < 0x1_0000_0000_0000_0000 {
      assert RecordAt(bytes, slots, name, at[name]);
    }
  }

  lemma DirectoryLoads(kind: bool, bytes: seq<Byte>, pos: nat, at: map<Name, nat>, order: seq<Name>, slots: Slots)
    requires SlotsFit(kind, slots) && |bytes| <= INT64_MAX && DirectoryFits(at.Keys)
    requires DirectoryAt(bytes, pos, at, order) && RecordsAt(bytes, at, slots)
    ensures GetDirectory(bytes, pos).Done? && GetDirectory(bytes, pos).value == at
  {
    OffsetsFit(kind, bytes, at, slots);
    DirectorySize(at, order);
    GetDirectoryInverts(bytes, pos, at, order);
  }

  lemma MergeLoads(bytes: seq<Byte>, pos: nat, r: MergeRecord, order: seq<Name>, found: Contents)
    requires MergeFits(r) && |bytes| <= INT64_MAX && MergeAt(bytes, pos, r, order)
    ensures LoadedMerge(bytes, pos, found)
         == if r.grid.data == [] then (-6, found) else (0, found.(merge := Some(r)))
  {
    GetMergeInverts(bytes, pos, r, order, PutEntries(r.rows, order, 4));
  }

  /** Loading the file of an index gives back every record that has a bitmap, and nothing else.  Only if
      the merge record has none, Load reports an error. */
  lemma LoadRestores(bytes: seq<Byte>, c: Contents, l: Layout)
    requires ContentsFit(c) && DirectoriesFit(c) && |bytes| <= INT64_MAX
    requires Laid(bytes, c, l)
    ensures Loaded(bytes) == (if c.merge.value.grid.data == [] then -6 else 0, Restored(c))
  {
    DirectoryLoads(true, bytes, 0, l.pvAt, l.pvOrder, c.pv);
    DirectoryLoads(false, bytes, REGION, l.uvAt, l.uvOrder, c.uv);
    OffsetLoads(bytes, l.mergeAt);
    RecordsLoad(true, bytes, l.pvAt, c.pv);
    RecordsLoad(false, bytes, l.uvAt, c.uv);
    MergeLoads(bytes, l.mergeAt, c.merge.value, l.mergeOrder, Contents(Kept(c.pv), Kept(c.uv), None));
    LoadedOf(bytes, l.pvAt, l.uvAt, l.mergeAt);
  }

  // ----------------------------------------------------------------- the places, byte by byte

  /** What Dump leaves, if the two sums over the names are at most 64 KiB, is read back; the numbers of entries
      stand at bytes 0 and 65536 and the offset of the merge record at byte 131072, and every record behind
      them. */
  lemma DumpedIndexLoads(bytes: seq<Byte>, back: seq<Byte>, c: Contents, l: Layout)
    requires Written(bytes, back, c, l) && ContentsFit(c) && |bytes| <= INT64_MAX
    requires 4 + NamesBytes(Present(c.pv)) <= 65536 && 4 + NamesBytes(Present(c.uv)) <= 65536
    ensures Loaded(bytes) == (if c.merge.value.grid.data == [] then -6 else 0, Restored(c))
    ensures 131080 <= |bytes|
    ensures FromLittle(bytes[0..4]) == |Present(c.pv)| && FromLittle(bytes[65536..65540]) == |Present(c.uv)|
    ensures FromLittle(bytes[131072..131080]) == l.mergeAt >= 131080
    ensures l.pvAt.Keys == Present(c.pv) && (forall name :: name in l.pvAt ==> l.pvAt[name] >= 131080)
    ensures l.uvAt.Keys == Present(c.uv) && (forall name :: name in l.uvAt ==> l.uvAt[name] >= 131080)
  {
    FrontCompletes(back, c, l);
    LoadRestores(bytes, c, l);
    FrontNumbers(bytes, c, l);
    OffsetsBehind(bytes, l.pvAt, c.pv);
    OffsetsBehind(bytes, l.uvAt, c.uv);
  }

  lemma OffsetsBehind(bytes: seq<Byte>, at: map<Name, nat>, slots: Slots)
    requires RecordsAt(bytes, at, slots)
    ensures forall name :: name in at ==> at[name] >= 131080
  {
    forall name | name in at ensures at[name] >= 131080 {
      assert RecordAt(bytes, slots, name, at[name]);
    }
  }

  lemma FrontNumbers(bytes: seq<Byte>, c: Contents, l: Layout)
    requires Laid(bytes, c, l) && |bytes| <= INT64_MAX && DirectoriesFit(c)
    ensures 131080 <= |bytes|
    ensures FromLittle(bytes[0..4]) == |Present(c.pv)| && FromLittle(bytes[65536..65540]) == |Present(c.uv)|
    ensures FromLittle(bytes[131072..131080]) == l.mergeAt >= 131080
  {
    OffsetLoads(bytes, l.mergeAt);
    CountLoads(bytes, 0, l.pvAt, l.pvOrder);
    CountLoads(bytes, 65536, l.uvAt, l.uvOrder);
  }

  lemma CountLoads(bytes: seq<Byte>, pos: nat, at: map<Name, nat>, order: seq<Name>)
    requires DirectoryAt(bytes, pos, at, order) && DirectoryFits(at.Keys)
    ensures GetNumber(bytes, pos, 4) == Done(|at.Keys|, pos + 4)
  {
    DirectorySize(at, order);
    EnumeratesSize(order, at.Keys);
    DirectoryParts(bytes, pos, at, order);
  }

  /** Where Load looks, in any file: for the offset maps at bytes 0 and 65536, for the offset of the merge record
      at byte 131072. */
  lemma LoadLooksAt(bytes: seq<Byte>)
    ensures Loaded(bytes).0 == -2 <==> GetDirectory(bytes, 0).Fail? || GetDirectory(bytes, 65536).Fail?
    ensures Loaded(bytes).0 == -4 <==> Loaded(bytes).0 != -2 && |bytes| < 131080
    ensures Loaded(bytes).0 !in {-2, -4} ==>
      && 131080 <= |bytes|
      && Loaded(bytes).1.pv == LoadedRecords(true, bytes, GetDirectory(bytes, 0).value)
      && Loaded(bytes).1.uv == LoadedRecords(false, bytes, GetDirectory(bytes, 65536).value)
      && (Loaded(bytes).0 == 0 ==> MergeFound(bytes, FromLittle(bytes[131072..131080]), Loaded(bytes).1.merge))
  {
  }

  ghost predicate MergeFound(bytes: seq<Byte>, pos: nat, merge: Option<MergeRecord>) {
    GetMerge(bytes, pos).Done? && merge == Some(GetMerge(bytes, pos).value)
  }

  lemma OffsetLoads(bytes: seq<Byte>, mergeAt: nat)
    requires At(bytes, 2 * REGION, Little(mergeAt, 8)) && mergeAt <= INT64_MAX
    ensures GetNumber(bytes, 2 * REGION, 8) == Done(mergeAt, FIRST)
  {
    NumberInverts(bytes, 2 * REGION, mergeAt, 8, 0x1_0000_0000_0000_0000);
  }

  lemma LoadedOf(bytes: seq<Byte>, pvAt: map<Name, nat>, uvAt: map<Name, nat>, mergeAt: nat)
    requires GetDirectory(bytes, 0).Done? && GetDirectory(bytes, 0).value == pvAt
    requires GetDirectory(bytes, REGION).Done? && GetDirectory(bytes, REGION).value == uvAt
    requires GetNumber(bytes, 2 * REGION, 8) == Done(mergeAt, FIRST)
    ensures var found := Contents(LoadedRecords(true, bytes, pvAt), LoadedRecords(false, bytes, uvAt), None);
            Loaded(bytes) == LoadedMerge(bytes, mergeAt, found)
  {
  }

  // ----------------------------------------------------------------- offset maps that do not fit

  /** What Dump leaves for an index of any size. */
  ghost predicate Written(bytes: seq<Byte>, back: seq<Byte>, c: Contents, l: Layout) {
    && Recorded(back, c, l) && Enumerates(l.pvOrder, l.pvAt.Keys) && Enumerates(l.uvOrder, l.uvAt.Keys)
    && bytes == FrontWritten(back, l)
  }

  /** An offset map of page views that is too long is cut where the one of unique views begins. */
  lemma LongDirectoryIsCut(bytes: seq<Byte>, pv: seq<Byte>, uv: seq<Byte>, offset: seq<Byte>)
    requires FIRST <= |bytes| && |pv| > REGION && |uv| <= REGION && |offset| == 8
    ensures var done := Overwritten(Overwritten(Overwritten(bytes, 0, pv), REGION, uv), 2 * REGION, offset);
            At(done, 0, pv[..REGION]) && At(done, REGION, uv)
  {
    var one := Overwritten(bytes, 0, pv);
    var two := Overwritten(one, REGION, uv);
    assert At(one, 0, pv[..REGION]);
    OverwrittenElsewhere(one, REGION, uv, 0, pv[..REGION]);
    OverwrittenElsewhere(two, 2 * REGION, offset, 0, pv[..REGION]);
    WrittenIsThere(one, REGION, uv);
    OverwrittenElsewhere(two, 2 * REGION, offset, REGION, uv);
  }

  /** What s is written over t at a position, if it reaches there, is the same as before. */
  ghost predicate Agrees(t: seq<Byte>, at: nat, s: seq<Byte>) {
    forall k :: 0 <= k < |s| && at + k < |t| ==> t[at + k] == s[k]
  }

  /** Exactly when the two offset maps can still be read: they must have by chance the bytes that are written
      over them, which they have if they fit. */
  lemma DirectoriesSurvive(bytes: seq<Byte>, pv: seq<Byte>, uv: seq<Byte>, offset: seq<Byte>)
    requires FIRST <= |bytes| && |offset| == 8
    ensures var done := Overwritten(Overwritten(Overwritten(bytes, 0, pv), REGION, uv), 2 * REGION, offset);
            && (|uv| <= REGION ==> (At(done, 0, pv) <==> Agrees(pv, REGION, uv) && Agrees(pv, 2 * REGION, offset)))
            && (At(done, REGION, uv) <==> Agrees(uv, REGION, offset))
    ensures |pv| <= REGION ==> Agrees(pv, REGION, uv) && Agrees(pv, 2 * REGION, offset)
    ensures |uv| <= REGION ==> Agrees(uv, REGION, offset)
  {
    var one := Overwritten(bytes, 0, pv);
    var two := Overwritten(one, REGION, uv);
    WrittenIsThere(bytes, 0, pv);
    WrittenIsThere(one, REGION, uv);
    Survives(two, 2 * REGION, offset, REGION, uv);
    if |uv| <= REGION {
      Survives(one, REGION, uv, 0, pv);
      SurvivesBoth(one, uv, offset, pv);
    }
  }

  lemma Survives(bytes: seq<Byte>, pos: nat, s: seq<Byte>, at: nat, t: seq<Byte>)
    requires pos <= |bytes| && at <= pos && At(bytes, at, t)
    ensures At(Overwritten(bytes, pos, s), at, t) <==> Agrees(t, pos - at, s)
  {
    var after := Overwritten(bytes, pos, s);
    ByteAfter(bytes, pos, s);
    WrittenIsThere(bytes, pos, s);
    BothAgree(after, at, t, pos, s);
    if Agrees(t, pos - at, s) {
      ReadAt(bytes, at, t);
      StaysWhereAgreed(bytes, after, pos, s, at, t);
      ReadAt(after, at, t);
    }
  }

  lemma ByteAfter(bytes: seq<Byte>, pos: nat, s: seq<Byte>)
    requires pos <= |bytes|
    ensures var after := Overwritten(bytes, pos, s);
            forall k :: 0 <= k < |after| ==>
              if pos <= k < pos + |s| then after[k] == s[k - pos] else k < |bytes| && after[k] == bytes[k]
  {
  }

  lemma StaysWhereAgreed(bytes: seq<Byte>, after: seq<Byte>, pos: nat, s: seq<Byte>, at: nat, t: seq<Byte>)
    requires at <= pos && at + |t| <= |bytes| <= |after|
    requires forall k :: 0 <= k < |after| ==>
      if pos <= k < pos + |s| then after[k] == s[k - pos] else k < |bytes| && after[k] == bytes[k]
    requires forall i :: 0 <= i < |t| ==> bytes[at + i] == t[i]
    requires Agrees(t, pos - at, s)
    ensures forall i :: 0 <= i < |t| ==> after[at + i] == t[i]
  {
    forall i | 0 <= i < |t| ensures after[at + i] == t[i] {
      assert pos <= at + i < pos + |s| ==> t[pos - at + (at + i - pos)] == s[at + i - pos];
    }
  }

  lemma ReadAt(bytes: seq<Byte>, at: nat, t: seq<Byte>)
    requires at + |t| <= |bytes|
    ensures At(bytes, at, t) <==> forall i :: 0 <= i < |t| ==> bytes[at + i] == t[i]
  {
    if At(bytes, at, t) {
      forall i | 0 <= i < |t| ensures bytes[at + i] == t[i] {
        assert bytes[at..at + |t|][i] == t[i];
      }
    }
  }

  lemma SurvivesBoth(one: seq<Byte>, uv: seq<Byte>, offset: seq<Byte>, pv: seq<Byte>)
    requires FIRST <= |one| && |uv| <= REGION && |offset| == 8 && At(one, 0, pv)
    ensures At(Overwritten(Overwritten(one, REGION, uv), 2 * REGION, offset), 0, pv)
       <==> Agrees(pv, REGION, uv) && Agrees(pv, 2 * REGION, offset)
  {
    var two := Overwritten(one, REGION, uv);
    var done := Overwritten(two, 2 * REGION, offset);
    Survives(one, REGION, uv, 0, pv);
    WrittenIsThere(one, REGION, uv);
    OverwrittenElsewhere(two, 2 * REGION, offset, REGION, uv);
    BothAgree(done, 0, pv, REGION, uv);
    if Agrees(pv, REGION, uv) {
      Survives(two, 2 * REGION, offset, 0, pv);
    }
  }

  lemma BothAgree(bytes: seq<Byte>, at: nat, t: seq<Byte>, pos: nat, s: seq<Byte>)
    requires at <= pos && at + |t| <= |bytes| && At(bytes, pos, s)
    ensures At(bytes, at, t) ==> Agrees(t, pos - at, s)
  {
    ReadAt(bytes, at, t);
    ReadAt(bytes, pos, s);
    if At(bytes, at, t) {
      forall k | 0 <= k < |s| && pos - at + k < |t| ensures t[pos - at + k] == s[k] {
        assert bytes[pos + k] == bytes[at + (pos - at + k)];
      }
    }
  }

  /** One slot whose name is as long as the whole region.  The name is read back with other bytes, from
      the number of unique views, so the slot is lost. */
  lemma LongNameIsLost(bytes: seq<Byte>, back: seq<Byte>, c: Contents, l: Layout, name: Name)
    requires Written(bytes, back, c, l) && Present(c.pv) == {name} && |name| == REGION
    requires c.uv == map[] && name[REGION - 8] != 0
    ensures name !in Loaded(bytes).1.pv
  {
    OneName(l.pvOrder, name);
    NoName(l.uvOrder);
    var pv, uv := PutDirectory(l.pvAt, [name]), PutDirectory(map[], []);
    OneEntry(l.pvAt, name);
    assert l.uvAt == map[];
    LongDirectoryIsCut(back, pv, uv, Little(l.mergeAt, 8));
    NoEntries(bytes);
    CutNameDiffers(bytes, name, Little(l.pvAt[name], 8));
    NotLoaded(bytes, name);
  }

  lemma OneEntry(at: map<Name, nat>, name: Name)
    requires name in at
    ensures PutDirectory(at, [name]) == Little(1, 4) + (Little(|name|, 4) + (name + Little(at[name], 8)))
  {
    EntriesOfOne(at, name, 8);
    Regroup(Little(|name|, 4), name, Little(at[name], 8));
  }

  lemma EntriesOfOne(at: map<Name, nat>, name: Name, k: nat)
    requires name in at
    ensures PutEntries(at, [name], k) == Little(|name|, 4) + name + Little(at[name], k)
  {
    assert PutEntries(at, [], k) == [];
    assert [name][..0] == [];
  }

  lemma Regroup(a: seq<Byte>, b: seq<Byte>, c: seq<Byte>)
    ensures a + b + c == a + (b + c)
  {
  }

  lemma NoEntries(bytes: seq<Byte>)
    requires At(bytes, REGION, PutDirectory(map[], []))
    ensures REGION < |bytes| && bytes[REGION] == 0
  {
    assert bytes[REGION..REGION + 4][0] == Little(0, 4)[0];
  }

  lemma HeadStays(bytes: seq<Byte>, a: seq<Byte>, b: seq<Byte>, rest: seq<Byte>, n: nat)
    requires |a| == |b| == 4 && 8 <= n <= |a + (b + rest)| && At(bytes, 0, (a + (b + rest))[..n])
    ensures At(bytes, 0, a) && At(bytes, 4, b)
  {
    assert (a + (b + rest))[..n][..4] == a && (a + (b + rest))[..n][4..8] == b;
  }

  lemma CutNameDiffers(bytes: seq<Byte>, name: Name, rest: seq<Byte>)
    requires |name| == REGION && name[REGION - 8] != 0 && REGION < |bytes| && bytes[REGION] == 0
    requires At(bytes, 0, (Little(1, 4) + (Little(REGION, 4) + (name + rest)))[..REGION])
    ensures GetDirectory(bytes, 0).Done? ==> name !in GetDirectory(bytes, 0).value
  {
    HeadStays(bytes, Little(1, 4), Little(REGION, 4), name + rest, REGION);
    NumberInverts(bytes, 0, 1, 4, 0x1_0000_0000);
    NumberInverts(bytes, 4, REGION, 4, 0x1_0000_0000);
    FirstEntry(bytes, name);
  }

  lemma FirstEntry(bytes: seq<Byte>, name: Name)
    requires |name| == REGION && name[REGION - 8] != 0 && REGION < |bytes| && bytes[REGION] == 0
    requires GetNumber(bytes, 0, 4) == Done(1, 4) && GetNumber(bytes, 4, 4) == Done(REGION, 8)
    ensures GetDirectory(bytes, 0).Done? ==> name !in GetDirectory(bytes, 0).value
  {
    assert GetEntries(bytes, 4, 8, 0) == Done(map[], 4);
    if GetName(bytes, 4).Done? {
      assert GetName(bytes, 4).value[REGION - 8] == bytes[REGION];
    }
  }

  lemma NotLoaded(bytes: seq<Byte>, name: Name)
    requires GetDirectory(bytes, 0).Done? ==> name !in GetDirectory(bytes, 0).value
    ensures name !in Loaded(bytes).1.pv
  {
  }

  lemma OneName(order: seq<Name>, name: Name)
    requires Enumerates(order, {name})
    ensures order == [name]
  {
    EnumeratesSize(order, {name});
  }

  lemma NoName(order: seq<Name>)
    requires Enumerates(order, {})
    ensures order == []
  {
    EnumeratesSize(order, {});
  }

  // ----------------------------------------------------------------- new records fit

  lemma NewBidsFit(g: Grid, bids: seq<nat>)
    requires g.Valid() && g.size < 0x1_0000_0000 && g.height < 0x1_0000_0000
    requires Width(g.size) * g.height < 0x1_0000_0000
    requires |bids| == g.size && AllBelow(bids, 0x1_0000)
    ensures BidsFit(BidRecord(g, bids))
  {
    NewGridFits(g);
  }

  lemma NewGridFits(g: Grid)
    requires g.Valid() && g.size < 0x1_0000_0000 && g.height < 0x1_0000_0000
    requires Width(g.size) * g.height < 0x1_0000_0000
    ensures GridFits(g)
  {
    AreaIsProduct(g.width, g.height);
    WidthFits(g.size);
  }

  lemma WidthFits(size: nat)
    requires size < 0x1_0000_0000
    ensures Width(size) < 0x1_0000_0000
  {
  }

  lemma NewMergeFits(g: Grid, uvs: seq<nat>, dict: map<Name, nat>, names: seq<Name>, psids: seq<seq<Name>>)
    requires UvMerge.Numbers(dict, names) && UvMerge.RowsAre(g, names, psids)
    requires UvMerge.UvsAre(uvs, names, psids, |names|)
    requires |psids| < 0x1_0000_0000 && |dict.Keys| < 0x1_0000_0000 && Width(|psids|) * |dict.Keys| < 0x1_0000_0000
    requires forall p :: p in dict.Keys ==> NameFits(p)
    ensures MergeFits(MergeRecord(g, uvs, dict))
  {
    UvMerge.NumbersSize(dict, names);
    assert |dict| == |dict.Keys|;
    NewGridFits(g);
    forall r | 0 <= r < |uvs| ensures uvs[r] < 0x1_0000_0000 {
      UvAtMost(psids, names[r]);
    }
  }

  lemma {:induction false} UvAtMost(psids: seq<seq<Name>>, p: Name)
    ensures |UvMerge.SamplesOf(psids, p)| <= |psids|
    decreases |psids|
  {
    if psids != [] {
      var n := |psids| - 1;
      var shorter := UvMerge.SamplesOf(psids[..n], p);
      UvAtMost(psids[..n], p);
      assert UvMerge.SamplesOf(psids, p) == shorter + if p in psids[n] then {n} else {};
    }
  }

  // ----------------------------------------------------------------- the index

  function Has(slots: Slots, name: Name): bool { name in slots && slots[name].Some? }

  /** The samples of a slot make up a bitmap. */
  ghost predicate Consistent(cols: seq<seq<nat>>, bids: seq<nat>, rows: nat) {
    Grids.Below(cols, rows) && |bids| == |cols|
  }

  ghost predicate AreSamples(r: BidRecord, cols: seq<seq<nat>>, bids: seq<nat>, rows: nat) {
    IsBitmapOf(r.grid, cols) && r.grid.height == rows && r.bids == bids
  }

  /** The record made of these data. */
  ghost predicate IsPvOf(r: Record, psid: Name, request: nat, pv: nat,
                         hourlyRequest: seq<nat>, hourlyPv: seq<nat>, hourlyCtr: seq<nat>,
                         cols: seq<seq<nat>>, bids: seq<nat>, rows: nat) {
    && r.Pv? && AreSamples(r.pv.samples, cols, bids, rows)
    && r.pv == PvRecord(r.pv.samples, psid, request, pv, hourlyRequest, hourlyPv, hourlyCtr)
  }

  ghost predicate IsUvOf(r: Record, psid: Name, request: nat, uv: nat,
                         cols: seq<seq<nat>>, bids: seq<nat>, rows: nat) {
    && r.Uv? && AreSamples(r.uv.samples, cols, bids, rows)
    && r.uv == UvRecord(r.uv.samples, psid, request, uv)
  }

  class Index {
    var pvMap: Slots
    var uvMap: Slots
    var merge: Option<MergeRecord>

    function Value(): Contents
      reads this
    {
      Contents(pvMap, uvMap, merge)
    }

    constructor ()
      ensures Value() == EMPTY
    {
      pvMap, uvMap, merge := map[], map[], None;
    }

    method Clear()
      modifies this
      ensures Value() == EMPTY
    {
      pvMap, uvMap, merge := map[], map[], None;
    }

    /** Adds the page views of a slot that has no record yet.  If the data do not fit together, the slot
        is left without a record. */
    method AddPv(psid: Name, request: nat, pv: nat, hourlyRequest: seq<nat>, hourlyPv: seq<nat>, hourlyCtr: seq<nat>,
                 cols: seq<seq<nat>>, bids: seq<nat>, rows: nat) returns (code: int)
      requires ContentsFit(Value())
      requires NameFits(psid) && request < 0x1_0000_0000_0000_0000 && pv < 0x1_0000_0000_0000_0000
      requires AllFit(hourlyRequest, 0x1_0000_0000) && AllFit(hourlyPv, 0x1_0000_0000)
      requires AllFit(hourlyCtr, 0x1_0000_0000)
      requires |cols| < 0x1_0000_0000 && rows < 0x1_0000_0000 && Width(|cols|) * rows < 0x1_0000_0000
      requires AllBelow(bids, 0x1_0000)
      modifies this`pvMap
      ensures ContentsFit(Value())
      ensures code == if Has(old(pvMap), psid) then 1
                      else if Consistent(cols, bids, rows) && |hourlyRequest| == |hourlyPv| == |hourlyCtr| == 24 then 0
                      else -2
      ensures code == 1 ==> pvMap == old(pvMap)
      ensures code == -2 ==> pvMap == old(pvMap)[psid := None]
      ensures code == 0 ==> Has(pvMap, psid) && pvMap == old(pvMap)[psid := pvMap[psid]]
      ensures code == 0 ==>
        IsPvOf(pvMap[psid].value, psid, request, pv, hourlyRequest, hourlyPv, hourlyCtr, cols, bids, rows)
    {
      if Has(pvMap, psid) {
        return 1;
      }
      pvMap := pvMap[psid := None];
      if |hourlyRequest| != 24 || |hourlyPv| != 24 || |hourlyCtr| != 24 {
        return -2;
      }
      var b := new BidBitmap.BidBitmap();
      var ok := b.Generate(cols, bids, rows);
      if !ok {
        return -2;
      }
      var g := Grid(b.bitmap.size, b.bitmap.width, b.bitmap.height, b.bitmap.data[..]);
      NewBidsFit(g, bids);
      var r := PvRecord(BidRecord(g, bids), psid, request, pv, hourlyRequest, hourlyPv, hourlyCtr);
      pvMap := pvMap[psid := Some(Pv(r))];
      code := 0;
    }

    /** Adds the unique views of a slot that has no record yet. */
    method AddUv(psid: Name, request: nat, uv: nat, cols: seq<seq<nat>>, bids: seq<nat>, rows: nat) returns (code: int)
      requires ContentsFit(Value())
      requires NameFits(psid) && request < 0x1_0000_0000_0000_0000 && uv < 0x1_0000_0000_0000_0000
      requires |cols| < 0x1_0000_0000 && rows < 0x1_0000_0000 && Width(|cols|) * rows < 0x1_0000_0000
      requires AllBelow(bids, 0x1_0000)
      modifies this`uvMap
      ensures ContentsFit(Value())
      ensures code == if Has(old(uvMap), psid) then 1 else if Consistent(cols, bids, rows) then 0 else -2
      ensures code == 1 ==> uvMap == old(uvMap)
      ensures code == -2 ==> uvMap == old(uvMap)[psid := None]
      ensures code == 0 ==> Has(uvMap, psid) && uvMap == old(uvMap)[psid := uvMap[psid]]
      ensures code == 0 ==> IsUvOf(uvMap[psid].value, psid, request, uv, cols, bids, rows)
    {
      if Has(uvMap, psid) {
        return 1;
      }
      uvMap := uvMap[psid := None];
      var b := new BidBitmap.BidBitmap();
      var ok := b.Generate(cols, bids, rows);
      if !ok {
        return -2;
      }
      var g := Grid(b.bitmap.size, b.bitmap.width, b.bitmap.height, b.bitmap.data[..]);
      NewBidsFit(g, bids);
      uvMap := uvMap[psid := Some(Uv(UvRecord(BidRecord(g, bids), psid, request, uv)))];
      code := 0;
    }

    /** Adds the merge record if there is none yet. */
    method AddMerge(psids: seq<seq<Name>>) returns (code: int)
      requires ContentsFit(Value())
      requires |psids| < 0x1_0000_0000 && Width(|psids|) * |UvMerge.Seen(psids)| < 0x1_0000_0000
      requires |UvMerge.Seen(psids)| < 0x1_0000_0000
      requires forall p :: p in UvMerge.Seen(psids) ==> NameFits(p)
      modifies this`merge
      ensures ContentsFit(Value())
      ensures code == if old(merge).Some? then 1 else 0
      ensures code == 1 ==> merge == old(merge)
      ensures code == 0 ==> merge.Some? && exists names ::
        UvMerge.Numbers(merge.value.rows, names) && UvMerge.RowsAre(merge.value.grid, names, psids)
        && UvMerge.UvsAre(merge.value.uvs, names, psids, |names|)
      ensures code == 0 ==> merge.value.rows.Keys == UvMerge.Seen(psids)
    {
      if merge.Some? {
        return 1;
      }
      var m := new UvMerge.UvMergeBitmap();
      var ok := m.Generate(psids);
      if !ok {
        return -2;
      }
      var g := Grid(m.bitmap.size, m.bitmap.width, m.bitmap.height, m.bitmap.data[..]);
      NewMergeFits(g, m.sampleUv, m.dict, m.names, psids);
      merge := Some(MergeRecord(g, m.sampleUv, m.dict));
      code := 0;
    }

    /** Writes the index to a file; without a merge record nothing is done.  Whatever fits, the file is the
        records with the front written over what was there; if the offset maps fit, it is laid out as
        documented and the result is its length. */
    method Dump(f: ByteFile) returns (result: int, ghost l: Layout, ghost back: seq<Byte>)
      requires ContentsFit(Value())
      modifies f
      ensures merge.None? ==> result == -3 && f.bytes == old(f.bytes)
      ensures merge.Some? ==> Written(f.bytes, back, Value(), l) && result == |back|
      ensures merge.Some? && DirectoriesFit(Value()) ==> Laid(f.bytes, Value(), l) && result == |f.bytes|
    {
      l, back := Layout(map[], map[], 0, [], [], []), [];
      if merge.None? {
        return -3, l, back;
      }
      var pvAt, uvAt, offset, size;
      ghost var mergeOrder;
      pvAt, uvAt, offset, size, mergeOrder := DumpBack(f, pvMap, uvMap, merge.value);
      back := f.bytes;
      ghost var pvOrder, uvOrder := DumpFront(f, pvAt, uvAt, offset);
      l := Layout(pvAt, uvAt, offset, pvOrder, uvOrder, mergeOrder);
      if DirectoriesFit(Value()) {
        FrontCompletes(back, Value(), l);
      }
      result := offset + size;
    }

    /** Reads an index from a file. */
    method Load(f: ByteFile) returns (code: int)
      requires f.pos == 0
      modifies this, f`pos
      ensures (code, Value()) == Loaded(f.bytes)
    {
      Clear();
      var ok, pvAt := LoadDirectory(f);
      if !ok {
        return -2;
      }
      ok := f.Seek(REGION);
      var uvAt;
      ok, uvAt := LoadDirectory(f);
      if !ok {
        return -2;
      }
      ok := f.Seek(2 * REGION);
      var mergeAt;
      ok, mergeAt := f.ReadNumber(8);
      if !ok {
        return -4;
      }
      pvMap := LoadRecords(f, true, pvAt);
      uvMap := LoadRecords(f, false, uvAt);
      code := LoadLast(f, mergeAt);
    }

    /** The end of Load. */
    method LoadLast(f: ByteFile, mergeAt: nat) returns (code: int)
      requires merge.None?
      modifies this`merge, f`pos
      ensures (code, Value()) == LoadedMerge(f.bytes, mergeAt, old(Value()))
    {
      var ok := f.Seek(mergeAt);
      if !ok {
        return -3;
      }
      var error, r := LoadMerge(f);
      if error != 0 {
        return -6;
      }
      merge := Some(r);
      code := 0;
    }
  }
}
