/** The bitmap that tells how many samples several ad slots have together (include/uv_merge_bitmap.h,
    src/uv_merge_bitmap.cc): a row for each slot, a column for each sample. */
module UvMerge {
  import opened Bytes
  import opened Bits
  import opened Grids
  import opened Popping
  import opened Bitmap
  import opened Query

  // ----------------------------------------------------------------- numbering the slots

  /** The slots that occur in the samples. */
  function Seen(psids: seq<seq<Name>>): set<Name> {
    if psids == [] then {} else Seen(psids[..|psids| - 1]) + Among(psids[|psids| - 1])
  }

  function Among(names: seq<Name>): set<Name> { set p | p in names }

  /** The dictionary numbers the names in their order: it is a bijection onto 0 .. |names| - 1. */
  ghost predicate Numbers(dict: map<Name, nat>, names: seq<Name>) {
    && (forall r :: 0 <= r < |names| ==> names[r] in dict && dict[names[r]] == r)
    && (forall p :: p in dict ==> dict[p] < |names| && names[dict[p]] == p)
  }

  lemma {:induction false} NumbersSize(dict: map<Name, nat>, names: seq<Name>)
    requires Numbers(dict, names)
    ensures |dict| == |names|
    decreases |names|
  {
    if names == [] {
      assert dict.Keys == {};
    } else {
      var last := |names| - 1;
      var shorter := map p | p in dict && p != names[last] :: dict[p];
      assert dict.Keys == shorter.Keys + {names[last]};
      NumbersSize(shorter, names[..last]);
    }
  }

  /** ids are the numbers of names. */
  ghost predicate Translates(dict: map<Name, nat>, names: seq<Name>, ids: seq<nat>) {
    |ids| == |names| && (forall j :: 0 <= j < |names| ==> names[j] in dict && ids[j] == dict[names[j]])
  }

  lemma TranslatedIn(dict: map<Name, nat>, all: seq<Name>, names: seq<Name>, ids: seq<nat>, p: Name)
    requires Numbers(dict, all) && Translates(dict, names, ids) && p in dict
    ensures dict[p] in ids <==> p in names
  {
    if p in names {
      var j :| 0 <= j < |names| && names[j] == p;
      assert ids[j] == dict[p];
    }
    if dict[p] in ids {
      var j :| 0 <= j < |ids| && ids[j] == dict[p];
      assert all[dict[names[j]]] == names[j];
    }
  }

  // ----------------------------------------------------------------- sizes of sets of samples

  /** The numbers below n with a property. */
  function Where(p: nat -> bool, n: nat): set<nat> { set c | 0 <= c < n && p(c) }

  lemma WhereNext(p: nat -> bool, n: nat)
    ensures |Where(p, n + 1)| == |Where(p, n)| + if p(n) then 1 else 0
  {
    if p(n) {
      assert Where(p, n + 1) == Where(p, n) + {n};
    } else {
      assert Where(p, n + 1) == Where(p, n);
    }
  }

  function Marked(row: seq<Byte>): nat -> bool { (c: nat) => c < 8 * |row| && Column(row, c) }

  /** The columns of a row that are set. */
  function Columns(row: seq<Byte>, n: nat): set<nat> { Where(Marked(row), n) }

  lemma {:induction false} TotalIsSize(row: seq<Byte>, n: nat)
    requires n <= 8 * |row|
    ensures Total(One(), row, 0, n) == |Columns(row, n)|
  {
    if n > 0 {
      TotalIsSize(row, n - 1);
      TotalConcat(One(), row, 0, n - 1, n);
      WhereNext(Marked(row), n - 1);
    }
  }

  /** The samples in which a slot occurs. */
  function SamplesOf(psids: seq<seq<Name>>, p: Name): set<nat> {
    set i | 0 <= i < |psids| && p in psids[i]
  }

  /** The slots seen are those that occur in a sample. */
  lemma {:induction false} SeenMeansOccurs(psids: seq<seq<Name>>, slot: Name)
    ensures slot in Seen(psids) <==> SamplesOf(psids, slot) != {}
    decreases |psids|
  {
    if psids != [] {
      var last := |psids| - 1;
      SeenMeansOccurs(psids[..last], slot);
      OccursNext(psids, slot);
    }
  }

  lemma OccursNext(psids: seq<seq<Name>>, slot: Name)
    requires psids != []
    ensures SamplesOf(psids, slot) == SamplesOf(psids[..|psids| - 1], slot) +
                                      if slot in psids[|psids| - 1] then {|psids| - 1} else {}
  {
  }

  /** The samples in which one of the slots occurs. */
  function SamplesOfAny(psids: seq<seq<Name>>, slots: seq<Name>): set<nat> {
    if slots == [] then {} else SamplesOfAny(psids, slots[..|slots| - 1]) + SamplesOf(psids, slots[|slots| - 1])
  }

  function UvSum(psids: seq<seq<Name>>, slots: seq<Name>): nat {
    if slots == [] then 0 else UvSum(psids, slots[..|slots| - 1]) + |SamplesOf(psids, slots[|slots| - 1])|
  }

  /** What several slots have together is no more than the sum of what each has ... */
  lemma {:induction false} UnionAtMostSum(psids: seq<seq<Name>>, slots: seq<Name>)
    ensures |SamplesOfAny(psids, slots)| <= UvSum(psids, slots)
    decreases |slots|
  {
    if slots != [] {
      var shorter, last := slots[..|slots| - 1], slots[|slots| - 1];
      UnionAtMostSum(psids, shorter);
      SizeOfUnion(SamplesOfAny(psids, shorter), SamplesOf(psids, last));
    }
  }

  lemma SizeOfUnion(s: set<nat>, t: set<nat>)
    ensures |s + t| <= |s| + |t|
    ensures |s + t| == |s| + |t| <==> s * t == {}
  {
    assert |s + t| + |s * t| == |s| + |t|;
  }

  /** ... and no less than what one of them has. */
  lemma {:induction false} UnionAtLeastEach(psids: seq<seq<Name>>, slots: seq<Name>, k: nat)
    requires k < |slots|
    ensures |SamplesOf(psids, slots[k])| <= |SamplesOfAny(psids, slots)|
    decreases |slots|
  {
    var shorter, last := slots[..|slots| - 1], slots[|slots| - 1];
    var before, one := SamplesOfAny(psids, shorter), SamplesOf(psids, last);
    Subset(before, before + one);
    Subset(one, before + one);
    if k < |slots| - 1 {
      UnionAtLeastEach(psids, shorter, k);
    }
  }

  lemma {:induction false} Subset(s: set<nat>, t: set<nat>)
    requires s <= t
    ensures |s| <= |t|
    decreases s
  {
    assert t == s + (t - s);
    assert |t| == |s| + |t - s|;
  }

  // ----------------------------------------------------------------- the bitmap of the slots

  ghost predicate Grown(before: map<Name, nat>, after: map<Name, nat>) {
    forall p :: p in before ==> p in after && after[p] == before[p]
  }

  /** Every sample so far is translated. */
  ghost predicate AllTranslate(dict: map<Name, nat>, psids: seq<seq<Name>>, cols: seq<seq<nat>>) {
    |cols| == |psids| && (forall i :: 0 <= i < |cols| ==> Translates(dict, psids[i], cols[i]))
  }

  lemma TranslateNext(before: map<Name, nat>, after: map<Name, nat>, psids: seq<seq<Name>>, cols: seq<seq<nat>>,
                      sample: seq<Name>, col: seq<nat>)
    requires AllTranslate(before, psids, cols) && Grown(before, after) && Translates(after, sample, col)
    ensures AllTranslate(after, psids + [sample], cols + [col])
  {
    forall i | 0 <= i < |cols| ensures Translates(after, psids[i], cols[i]) {
    }
  }

  lemma TranslatesNext(before: map<Name, nat>, after: map<Name, nat>, sample: seq<Name>, j: nat, column: seq<nat>,
                       pos: nat)
    requires j < |sample| && Translates(before, sample[..j], column)
    requires Grown(before, after) && sample[j] in after && after[sample[j]] == pos
    ensures Translates(after, sample[..j + 1], column + [pos])
  {
    var part := sample[..j];
    forall k | 0 <= k < j ensures part[k] in after && column[k] == after[part[k]] {
    }
  }

  lemma AllBelowHeight(dict: map<Name, nat>, names: seq<Name>, psids: seq<seq<Name>>, cols: seq<seq<nat>>)
    requires Numbers(dict, names) && AllTranslate(dict, psids, cols)
    ensures Below(cols, |names|)
  {
    forall i | 0 <= i < |cols| ensures AllBelow(cols[i], |names|) {
      assert Translates(dict, psids[i], cols[i]);
      forall j | 0 <= j < |cols[i]| ensures cols[i][j] < |names| {
        assert psids[i][j] in dict;
      }
    }
  }

  lemma AmongNext(sample: seq<Name>, j: nat)
    requires j < |sample|
    ensures Among(sample[..j + 1]) == Among(sample[..j]) + {sample[j]}
  {
    assert sample[..j + 1] == sample[..j] + [sample[j]];
  }

  lemma SeenNext(psids: seq<seq<Name>>, i: nat)
    requires i < |psids|
    ensures Seen(psids[..i + 1]) == Seen(psids[..i]) + Among(psids[i])
  {
    assert psids[..i + 1][..i] == psids[..i];
  }

  /** Row r of the bitmap has the samples in which p occurs. */
  ghost predicate RowIs(g: Grid, r: nat, psids: seq<seq<Name>>, p: Name)
    requires g.Valid() && r < g.height
  {
    forall c :: 0 <= c < 8 * g.width ==> g.Cell(r, c) == (c < |psids| && p in psids[c])
  }

  lemma RowOfSlot(g: Grid, dict: map<Name, nat>, names: seq<Name>, psids: seq<seq<Name>>, cols: seq<seq<nat>>, r: nat)
    requires IsBitmapOf(g, cols) && Numbers(dict, names) && AllTranslate(dict, psids, cols)
    requires r < g.height == |names|
    ensures RowIs(g, r, psids, names[r])
  {
    forall c | 0 <= c < 8 * g.width ensures g.Cell(r, c) == (c < |psids| && names[r] in psids[c]) {
      if c < |psids| {
        TranslatedIn(dict, names, psids[c], cols[c], names[r]);
      }
    }
  }

  lemma RowCounts(g: Grid, r: nat, psids: seq<seq<Name>>, p: Name)
    requires g.Valid() && r < g.height && RowIs(g, r, psids, p) && g.size == |psids|
    ensures Total(One(), g.Row(r), 0, 8 * g.width) == |SamplesOf(psids, p)|
  {
    TotalIsSize(g.Row(r), 8 * g.width);
    forall c | 0 <= c < 8 * g.width ensures Column(g.Row(r), c) == (c < |psids| && p in psids[c]) {
      assert g.Cell(r, c) == (c < |psids| && p in psids[c]);
    }
    ColumnsAreSamples(g.Row(r), psids, p);
  }

  lemma ColumnsAreSamples(row: seq<Byte>, psids: seq<seq<Name>>, p: Name)
    requires |psids| <= 8 * |row|
    requires forall c :: 0 <= c < 8 * |row| ==> Column(row, c) == (c < |psids| && p in psids[c])
    ensures Columns(row, 8 * |row|) == SamplesOf(psids, p)
  {
  }

  /** The row of every name and its count. */
  ghost predicate RowsAre(g: Grid, names: seq<Name>, psids: seq<seq<Name>>) {
    && g.Valid() && g.size == |psids| && g.height == |names|
    && (forall r :: 0 <= r < |names| ==> RowIs(g, r, psids, names[r]))
  }

  ghost predicate UvsAre(uvs: seq<nat>, names: seq<Name>, psids: seq<seq<Name>>, n: nat)
    requires n <= |names|
  {
    |uvs| == n && (forall r :: 0 <= r < n ==> uvs[r] == |SamplesOf(psids, names[r])|)
  }

  class UvMergeBitmap {
    const bitmap: Bitmap
    var sampleUv: seq<nat>
    var dict: map<Name, nat>
    ghost var names: seq<Name>

    constructor ()
      ensures fresh(bitmap) && fresh(bitmap.data)
      ensures dict == map[] && sampleUv == []
    {
      bitmap := new Bitmap();
      sampleUv, dict, names := [], map[], [];
    }

    /** The number of a slot, a new one if it has none yet. */
    method Number(p: Name) returns (pos: nat)
      requires Numbers(dict, names)
      modifies this`dict, this`names
      ensures Numbers(dict, names) && Grown(old(dict), dict)
      ensures dict.Keys == old(dict).Keys + {p} && dict[p] == pos
    {
      if p !in dict {
        NumbersSize(dict, names);
        pos := |dict|;
        dict := dict[p := pos];
        names := names + [p];
      } else {
        pos := dict[p];
      }
    }

    /** The inner loop of Generate. */
    method Translate(sample: seq<Name>) returns (column: seq<nat>)
      requires Numbers(dict, names)
      modifies this`dict, this`names
      ensures Numbers(dict, names) && Grown(old(dict), dict)
      ensures dict.Keys == old(dict).Keys + Among(sample)
      ensures Translates(dict, sample, column)
    {
      column := [];
      for j := 0 to |sample|
        invariant Numbers(dict, names) && Grown(old(dict), dict)
        invariant dict.Keys == old(dict).Keys + Among(sample[..j])
        invariant Translates(dict, sample[..j], column)
      {
        AmongNext(sample, j);
        ghost var before := dict;
        var pos := Number(sample[j]);
        TranslatesNext(before, dict, sample, j, column, pos);
        column := column + [pos];
      }
      assert sample[..|sample|] == sample;
    }

    /** The first loop of Generate. */
    method TranslateAll(psids: seq<seq<Name>>) returns (cols: seq<seq<nat>>)
      requires dict == map[] && names == []
      modifies this`dict, this`names
      ensures Numbers(dict, names) && dict.Keys == Seen(psids)
      ensures AllTranslate(dict, psids, cols)
    {
      cols := [];
      for i := 0 to |psids|
        invariant Numbers(dict, names) && dict.Keys == Seen(psids[..i])
        invariant AllTranslate(dict, psids[..i], cols)
      {
        ghost var before := dict;
        var column := Translate(psids[i]);
        TranslateNext(before, dict, psids[..i], cols, psids[i], column);
        SeenNext(psids, i);
        assert psids[..i + 1] == psids[..i] + [psids[i]];
        cols := cols + [column];
      }
      assert psids[..|psids|] == psids;
    }

    /** What Generate makes of the samples: every slot has a number, the row of that number has the
        samples in which the slot occurs, and their count is kept. */
    ghost predicate IsMergeOf(psids: seq<seq<Name>>)
      reads this, bitmap, bitmap.data
    {
      && Numbers(dict, names) && dict.Keys == Seen(psids)
      && RowsAre(bitmap.Value(), names, psids)
      && UvsAre(sampleUv, names, psids, |names|)
    }

    /** Identifiers are handed out without gaps, so this never fails. */
    method Generate(psids: seq<seq<Name>>) returns (ok: bool)
      requires |psids| < 0x1_0000_0000 && Width(|psids|) * |Seen(psids)| < 0x1_0000_0000
      modifies this, bitmap
      ensures ok && IsMergeOf(psids)
      ensures fresh(bitmap.data)
    {
      sampleUv, dict, names := [], map[], [];
      var cols := TranslateAll(psids);
      NumbersSize(dict, names);
      assert |dict| == |dict.Keys|;
      AllBelowHeight(dict, names, psids, cols);
      ok := bitmap.Generate(cols, |dict|);
      if !ok {
        return;
      }
      forall r | 0 <= r < |names| ensures RowIs(bitmap.Value(), r, psids, names[r]) {
        RowOfSlot(bitmap.Value(), dict, names, psids, cols, r);
      }
      CountRows(psids);
    }

    /** The second loop of Generate. */
    method CountRows(ghost psids: seq<seq<Name>>)
      requires RowsAre(bitmap.Value(), names, psids) && sampleUv == []
      modifies this`sampleUv
      ensures UvsAre(sampleUv, names, psids, |names|)
    {
      for i := 0 to bitmap.height
        invariant UvsAre(sampleUv, names, psids, i)
      {
        RowCounts(bitmap.Value(), i, psids, names[i]);
        var uv := bitmap.CountRow(i);
        sampleUv := sampleUv + [uv];
      }
    }

    /** A slot has a row exactly if it occurs in some sample, and the row marks those samples. */
    method GetRowId(psid: Name, ghost psids: seq<seq<Name>>) returns (id: int)
      requires IsMergeOf(psids)
      ensures id >= 0 <==> SamplesOf(psids, psid) != {}
      ensures id >= 0 ==> id < bitmap.height && names[id] == psid && RowIs(bitmap.Value(), id, psids, psid)
      ensures id < 0 ==> id == -1
    {
      SeenMeansOccurs(psids, psid);
      id := if psid in dict then dict[psid] else -1;
    }

    /** How many samples the slot of a row occurs in; -1 for a number that is not handed out. */
    method GetRowUv(row: nat, ghost psids: seq<seq<Name>>) returns (uv: int)
      requires IsMergeOf(psids)
      ensures row < |names| ==> uv == |SamplesOf(psids, names[row])|
      ensures row >= |names| ==> uv == -1
    {
      uv := if row < |sampleUv| then sampleUv[row] else -1;
    }

    /** The samples of a list of rows, marked in a buffer. */
    method Union(ids: seq<nat>, result: array<Byte>)
      requires bitmap.Value().Valid() && AllBelow(ids, bitmap.height)
      requires bitmap.width <= result.Length && bitmap.data != result
      modifies result
      ensures MarksAny(bitmap.Value(), ids, result[..bitmap.width])
    {
      if |ids| == 0 {
        forall k | 0 <= k < bitmap.width { result[k] := 0; }
        NoneMarked(bitmap.Value(), result[..bitmap.width]);
        assert ids == [];
        return;
      }
      assert result[..bitmap.width] == result[0..0 + bitmap.width];
      if |ids| == 1 {
        bitmap.CombineRows(OrOp, ids[0], ids[0], result, 0);
        RowMarks(bitmap.Value(), ids[0]);
        OrSelf(bitmap.Value().Row(ids[0]));
        assert ids == [ids[0]];
        return;
      }
      bitmap.CombineRows(OrOp, ids[0], ids[1], result, 0);
      OrBoth(bitmap.Value(), ids[0], ids[1]);
      assert ids[..2] == [ids[0], ids[1]];
      UnionRest(ids, result);
    }

    /** The loop of Union. */
    method UnionRest(ids: seq<nat>, result: array<Byte>)
      requires bitmap.Value().Valid() && |ids| >= 2 && AllBelow(ids, bitmap.height)
      requires bitmap.width <= result.Length && bitmap.data != result
      requires MarksAny(bitmap.Value(), ids[..2], result[0..0 + bitmap.width])
      modifies result
      ensures MarksAny(bitmap.Value(), ids, result[0..0 + bitmap.width])
    {
      for i := 2 to |ids|
        invariant MarksAny(bitmap.Value(), ids[..i], result[0..0 + bitmap.width])
      {
        OrMarks(bitmap.Value(), ids[..i], result[0..0 + bitmap.width], ids[i]);
        assert ids[..i + 1] == ids[..i] + [ids[i]];
        bitmap.CombineRow(OrOp, ids[i], result, 0, result, 0);
      }
      assert ids[..|ids|] == ids;
    }
  }

  lemma NoneMarked(g: Grid, mask: seq<Byte>)
    requires g.Valid() && |mask| == g.width
    requires forall k :: 0 <= k < |mask| ==> mask[k] == 0
    ensures MarksAny(g, [], mask)
  {
    forall c | 0 <= c < 8 * g.width ensures !Column(mask, c) {
      BitOfZero(7 - c % 8);
    }
  }
}
