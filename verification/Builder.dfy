/** Building the index from sample lines that are grouped by ad slot (src/builder.cc). */
module Builder {
  import Bits
  import opened Bytes
  import Files
  import opened Grids
  import opened Records
  import opened IndexFile

  /** A line of the sample file: a slot, the targets and the bid of one sample. */
  datatype Sample = Sample(psid: Name, targets: seq<nat>, bid: nat)

  /** A line of the info file. */
  datatype Info = Info(request: nat, pv: nat, hourlyRequest: seq<nat>, hourlyPv: seq<nat>, hourlyCtr: seq<nat>)

  /** Consecutive samples of one slot. */
  datatype Run = Run(psid: Name, cols: seq<seq<nat>>, bids: seq<nat>)

  type Infos = map<Name, Info>

  // ----------------------------------------------------------------- lines

  /** The lines that could be parsed. */
  function Parsed(lines: seq<Option<Sample>>): seq<Sample> {
    if lines == [] then []
    else
      var before, last := Parsed(lines[..|lines| - 1]), lines[|lines| - 1];
      if last.Some? then before + [last.value] else before
  }

  /** The runs of samples with the same slot. */
  function Runs(samples: seq<Sample>): (runs: seq<Run>)
    ensures samples == [] <==> runs == []
  {
    if samples == [] then [] else Joined(Runs(samples[..|samples| - 1]), samples[|samples| - 1])
  }

  /** One more sample, which goes to the last run if it is of the same slot. */
  function Joined(runs: seq<Run>, s: Sample): (r: seq<Run>)
    ensures r != []
  {
    var n := |runs| - 1;
    if n >= 0 && runs[n].psid == s.psid then
      runs[..n] + [Run(s.psid, runs[n].cols + [s.targets], runs[n].bids + [s.bid])]
    else runs + [Run(s.psid, [s.targets], [s.bid])]
  }

  // ----------------------------------------------------------------- what is kept of the runs

  /** The run makes a record. */
  ghost predicate Good(run: Run, infos: Infos, rows: nat) {
    && run.psid in infos
    && Consistent(run.cols, run.bids, rows)
    && |infos[run.psid].hourlyRequest| == |infos[run.psid].hourlyPv| == |infos[run.psid].hourlyCtr| == 24
  }

  /** Of the runs of a slot that make a record the first is kept, if the index had none for the slot. */
  ghost function Kept(runs: seq<Run>, had: Slots, infos: Infos, rows: nat): map<Name, Run> {
    if runs == [] then map[]
    else KeptNext(Kept(runs[..|runs| - 1], had, infos, rows), runs[|runs| - 1], had, infos, rows)
  }

  ghost function KeptNext(kept: map<Name, Run>, run: Run, had: Slots, infos: Infos, rows: nat): map<Name, Run> {
    if Good(run, infos, rows) && run.psid !in kept && !Has(had, run.psid) then kept[run.psid := run] else kept
  }

  /** ... when a run may not have begun yet. */
  ghost function KeptWith(kept: map<Name, Run>, run: Run, had: Slots, infos: Infos, rows: nat): map<Name, Run> {
    if run.cols == [] then kept else KeptNext(kept, run, had, infos, rows)
  }

  /** The record of a run. */
  ghost predicate IsRecordOf(r: Record, run: Run, infos: Infos, rows: nat)
    requires run.psid in infos
  {
    var i := infos[run.psid];
    IsPvOf(r, run.psid, i.request, i.pv, i.hourlyRequest, i.hourlyPv, i.hourlyCtr, run.cols, run.bids, rows)
  }

  /** To the records it had, the index has got those of exactly the slots that were kept. */
  ghost predicate Built(slots: Slots, kept: map<Name, Run>, had: Slots, infos: Infos, rows: nat) {
    && (forall name :: Has(slots, name) <==> name in kept || Has(had, name))
    && (forall name :: Has(had, name) ==> name !in kept && slots[name] == had[name])
    && (forall name :: name in kept ==>
          && kept[name].psid == name && name in infos
          && IsRecordOf(slots[name].value, kept[name], infos, rows))
  }

  ghost predicate InfosFit(infos: Infos) {
    forall name :: name in infos ==> NameFits(name) && InfoFits(infos[name])
  }

  ghost predicate InfoFits(i: Info) {
    && i.request < 0x1_0000_0000_0000_0000 && i.pv < 0x1_0000_0000_0000_0000
    && Files.AllFit(i.hourlyRequest, 0x1_0000_0000) && Files.AllFit(i.hourlyPv, 0x1_0000_0000)
    && Files.AllFit(i.hourlyCtr, 0x1_0000_0000)
  }

  // ----------------------------------------------------------------- the loop of ProcessPvMap

  lemma BuiltNext(before: Slots, slots: Slots, kept: map<Name, Run>, run: Run, had: Slots, infos: Infos, rows: nat)
    requires Built(before, kept, had, infos, rows)
    requires Good(run, infos, rows) && !Has(before, run.psid)
    requires Has(slots, run.psid) && slots == before[run.psid := slots[run.psid]]
    requires IsRecordOf(slots[run.psid].value, run, infos, rows)
    ensures Built(slots, KeptNext(kept, run, had, infos, rows), had, infos, rows)
  {
    forall name | name != run.psid ensures Has(slots, name) == Has(before, name) {
    }
  }

  lemma BuiltStays(before: Slots, slots: Slots, kept: map<Name, Run>, name: Name, had: Slots, infos: Infos, rows: nat)
    requires Built(before, kept, had, infos, rows) && !Has(before, name) && slots == before[name := None]
    ensures Built(slots, kept, had, infos, rows)
  {
    forall other ensures Has(slots, other) == Has(before, other) {
    }
  }

  /** A run is over: its record is added unless there is nothing to add or no info. */
  method Flush(index: Index, run: Run, ghost had: Slots, infos: Infos, rows: nat, ghost kept: map<Name, Run>)
    requires ContentsFit(index.Value()) && InfosFit(infos)
    requires Built(index.pvMap, kept, had, infos, rows)
    requires |run.cols| < 0x1_0000_0000 && rows < 0x1_0000_0000 && Width(|run.cols|) * rows < 0x1_0000_0000
    requires AllBelow(run.bids, 0x1_0000)
    modifies index`pvMap
    ensures ContentsFit(index.Value())
    ensures Built(index.pvMap, KeptWith(kept, run, had, infos, rows), had, infos, rows)
  {
    if run.cols == [] || run.psid !in infos {
      return;
    }
    ghost var before := index.pvMap;
    var i := infos[run.psid];
    var code := index.AddPv(run.psid, i.request, i.pv, i.hourlyRequest, i.hourlyPv, i.hourlyCtr,
                            run.cols, run.bids, rows);
    if code == 0 {
      BuiltNext(before, index.pvMap, kept, run, had, infos, rows);
    } else if code == -2 {
      BuiltStays(before, index.pvMap, kept, run.psid, had, infos, rows);
    }
  }

  lemma ParsedNext(lines: seq<Option<Sample>>, i: nat)
    requires i < |lines|
    ensures Parsed(lines[..i + 1]) == Parsed(lines[..i]) + if lines[i].Some? then [lines[i].value] else []
  {
    assert lines[..i + 1][..i] == lines[..i];
  }

  lemma RunsNext(samples: seq<Sample>, s: Sample)
    ensures Runs(samples + [s]) == Joined(Runs(samples), s)
  {
    assert (samples + [s])[..|samples|] == samples;
  }

  /** What was kept of the runs that are over. */
  ghost function KeptBefore(samples: seq<Sample>, had: Slots, infos: Infos, rows: nat): map<Name, Run> {
    var runs := Runs(samples);
    if runs == [] then map[] else Kept(runs[..|runs| - 1], had, infos, rows)
  }

  /** The run that the loop is collecting. */
  ghost predicate Open(samples: seq<Sample>, run: Run) {
    var runs := Runs(samples);
    && |run.cols| == |run.bids| <= |samples| && AllBelow(run.bids, 0x1_0000)
    && (samples == [] ==> run == Run([], [], []))
    && (samples != [] ==> runs[|runs| - 1] == run && run.cols != [])
  }

  lemma JoinedSame(runs: seq<Run>, s: Sample)
    requires runs != [] && runs[|runs| - 1].psid == s.psid
    ensures var n := |runs| - 1;
            && |Joined(runs, s)| == |runs| && Joined(runs, s)[..n] == runs[..n]
            && Joined(runs, s)[n] == Run(s.psid, runs[n].cols + [s.targets], runs[n].bids + [s.bid])
  {
  }

  lemma OpenSame(samples: seq<Sample>, run: Run, s: Sample)
    requires Open(samples, run) && s.psid == run.psid && s.bid < 0x1_0000
    ensures Open(samples + [s], Run(run.psid, run.cols + [s.targets], run.bids + [s.bid]))
  {
    RunsNext(samples, s);
    if samples != [] {
      JoinedSame(Runs(samples), s);
    }
  }

  lemma KeptSame(samples: seq<Sample>, run: Run, s: Sample, had: Slots, infos: Infos, rows: nat)
    requires Open(samples, run) && s.psid == run.psid
    ensures KeptBefore(samples + [s], had, infos, rows) == KeptBefore(samples, had, infos, rows)
  {
    RunsNext(samples, s);
    if samples != [] {
      JoinedSame(Runs(samples), s);
    } else {
      assert Joined([], s)[..0] == [];
    }
  }

  lemma OpenNew(samples: seq<Sample>, run: Run, s: Sample)
    requires Open(samples, run) && s.psid != run.psid && s.bid < 0x1_0000
    ensures Open(samples + [s], Run(s.psid, [s.targets], [s.bid]))
  {
    RunsNext(samples, s);
  }

  lemma KeptNew(samples: seq<Sample>, run: Run, s: Sample, had: Slots, infos: Infos, rows: nat)
    requires Open(samples, run) && s.psid != run.psid
    ensures KeptBefore(samples + [s], had, infos, rows)
         == KeptWith(KeptBefore(samples, had, infos, rows), run, had, infos, rows)
  {
    RunsNext(samples, s);
    assert Joined(Runs(samples), s)[..|Runs(samples)|] == Runs(samples);
    EndOfRuns(samples, run, had, infos, rows);
  }

  /** When the open run is over as well, all runs are. */
  lemma EndOfRuns(samples: seq<Sample>, run: Run, had: Slots, infos: Infos, rows: nat)
    requires Open(samples, run)
    ensures KeptWith(KeptBefore(samples, had, infos, rows), run, had, infos, rows)
         == Kept(Runs(samples), had, infos, rows)
  {
  }

  ghost predicate SamplesFit(lines: seq<Option<Sample>>) {
    forall i :: 0 <= i < |lines| && lines[i].Some? ==> lines[i].value.bid < 0x1_0000
  }

  lemma RunFits(n: nat, all: nat, rows: nat)
    requires n <= all && Width(all) * rows < 0x1_0000_0000
    ensures Width(n) * rows < 0x1_0000_0000
  {
    Bits.Monotone(Width(n), Width(all), rows);
  }

  /** The body of the loop for a sample of another slot than the open run: the run is over. */
  method EndRun(index: Index, s: Sample, run: Run, ghost had: Slots, infos: Infos, rows: nat,
                ghost samples: seq<Sample>)
    requires ContentsFit(index.Value()) && InfosFit(infos)
    requires |run.cols| < 0x1_0000_0000 && rows < 0x1_0000_0000 && Width(|run.cols|) * rows < 0x1_0000_0000
    requires Open(samples, run) && s.psid != run.psid
    requires Built(index.pvMap, KeptBefore(samples, had, infos, rows), had, infos, rows)
    modifies index`pvMap
    ensures ContentsFit(index.Value())
    ensures Built(index.pvMap, KeptBefore(samples + [s], had, infos, rows), had, infos, rows)
  {
    KeptNew(samples, run, s, had, infos, rows);
    Flush(index, run, had, infos, rows, KeptBefore(samples, had, infos, rows));
  }

  /** The body of the loop, for a line that could be parsed. */
  method TakeSample(index: Index, s: Sample, run: Run, ghost had: Slots, infos: Infos, rows: nat,
                    ghost samples: seq<Sample>)
    returns (next: Run)
    requires ContentsFit(index.Value()) && InfosFit(infos) && s.bid < 0x1_0000
    requires |run.cols| < 0x1_0000_0000 && rows < 0x1_0000_0000 && Width(|run.cols|) * rows < 0x1_0000_0000
    requires Open(samples, run)
    requires Built(index.pvMap, KeptBefore(samples, had, infos, rows), had, infos, rows)
    modifies index`pvMap
    ensures ContentsFit(index.Value())
    ensures Open(samples + [s], next)
    ensures Built(index.pvMap, KeptBefore(samples + [s], had, infos, rows), had, infos, rows)
  {
    if s.psid != run.psid {
      EndRun(index, s, run, had, infos, rows, samples);
      OpenNew(samples, run, s);
      next := Run(s.psid, [], []);
    } else {
      KeptSame(samples, run, s, had, infos, rows);
      OpenSame(samples, run, s);
      next := run;
    }
    next := Run(next.psid, next.cols + [s.targets], next.bids + [s.bid]);
  }

  /** A line of the loop; one that could not be parsed is passed over. */
  method TakeLine(index: Index, line: Option<Sample>, run: Run, ghost had: Slots, infos: Infos, rows: nat,
                  ghost samples: seq<Sample>)
    returns (next: Run, ghost more: seq<Sample>)
    requires ContentsFit(index.Value()) && InfosFit(infos) && (line.Some? ==> line.value.bid < 0x1_0000)
    requires |run.cols| < 0x1_0000_0000 && rows < 0x1_0000_0000 && Width(|run.cols|) * rows < 0x1_0000_0000
    requires Open(samples, run)
    requires Built(index.pvMap, KeptBefore(samples, had, infos, rows), had, infos, rows)
    modifies index`pvMap
    ensures ContentsFit(index.Value())
    ensures more == samples + if line.Some? then [line.value] else []
    ensures Open(more, next)
    ensures Built(index.pvMap, KeptBefore(more, had, infos, rows), had, infos, rows)
  {
    if line.None? {
      assert samples + [] == samples;
      return run, samples;
    }
    next := TakeSample(index, line.value, run, had, infos, rows, samples);
    more := samples + [line.value];
  }

  /** The loop of ProcessPvMap. */
  method TakeLines(index: Index, lines: seq<Option<Sample>>, infos: Infos, rows: nat) returns (run: Run)
    requires ContentsFit(index.Value())
    requires InfosFit(infos) && SamplesFit(lines)
    requires |lines| < 0x1_0000_0000 && rows < 0x1_0000_0000 && Width(|lines|) * rows < 0x1_0000_0000
    modifies index`pvMap
    ensures ContentsFit(index.Value())
    ensures Open(Parsed(lines), run) && |run.cols| <= |lines|
    ensures Built(index.pvMap, KeptBefore(Parsed(lines), old(index.pvMap), infos, rows), old(index.pvMap), infos, rows)
  {
    ghost var had := index.pvMap;
    run := Run([], [], []);
    ghost var samples := [];
    for i := 0 to |lines|
      invariant ContentsFit(index.Value())
      invariant samples == Parsed(lines[..i]) && |samples| <= i
      invariant Open(samples, run)
      invariant Built(index.pvMap, KeptBefore(samples, had, infos, rows), had, infos, rows)
    {
      ParsedNext(lines, i);
      RunFits(|run.cols|, |lines|, rows);
      run, samples := TakeLine(index, lines[i], run, had, infos, rows, samples);
    }
    assert lines[..|lines|] == lines;
  }

  /** ProcessPvMap: from the sample lines, with the info of the slots and the number of targets, the
      records of the kept runs are added. */
  method ProcessPv(index: Index, lines: seq<Option<Sample>>, infos: Infos, rows: nat)
    requires ContentsFit(index.Value())
    requires InfosFit(infos) && SamplesFit(lines)
    requires |lines| < 0x1_0000_0000 && rows < 0x1_0000_0000 && Width(|lines|) * rows < 0x1_0000_0000
    modifies index`pvMap
    ensures ContentsFit(index.Value())
    ensures Built(index.pvMap, Kept(Runs(Parsed(lines)), old(index.pvMap), infos, rows), old(index.pvMap), infos, rows)
  {
    ghost var had := index.pvMap;
    var run := TakeLines(index, lines, infos, rows);
    RunFits(|run.cols|, |lines|, rows);
    EndOfRuns(Parsed(lines), run, had, infos, rows);
    Flush(index, run, had, infos, rows, KeptBefore(Parsed(lines), had, infos, rows));
  }

  // ----------------------------------------------------------------- no sample is lost

  function RunSamples(run: Run): seq<Sample> {
    seq(|run.cols|, i requires 0 <= i < |run.cols| =>
      Sample(run.psid, run.cols[i], if i < |run.bids| then run.bids[i] else 0))
  }

  function Unrolled(runs: seq<Run>): seq<Sample> {
    if runs == [] then [] else Unrolled(runs[..|runs| - 1]) + RunSamples(runs[|runs| - 1])
  }

  /** Every run has a bid for each sample. */
  ghost predicate Even(runs: seq<Run>) {
    forall k :: 0 <= k < |runs| ==> |runs[k].cols| == |runs[k].bids|
  }

  /** Every sample is in a run, in its place and under its slot. */
  lemma {:induction false} NothingIsLost(samples: seq<Sample>)
    ensures Unrolled(Runs(samples)) == samples && Even(Runs(samples))
    decreases |samples|
  {
    if samples != [] {
      var before, s := samples[..|samples| - 1], samples[|samples| - 1];
      LastApart(samples, before, s);
      NothingIsLost(before);
      NotLostNext(before, s);
    }
  }

  lemma LastApart(samples: seq<Sample>, before: seq<Sample>, s: Sample)
    requires samples != [] && before == samples[..|samples| - 1] && s == samples[|samples| - 1]
    ensures before + [s] == samples
  {
  }

  lemma NotLostNext(samples: seq<Sample>, s: Sample)
    requires Unrolled(Runs(samples)) == samples && Even(Runs(samples))
    ensures Unrolled(Runs(samples + [s])) == samples + [s] && Even(Runs(samples + [s]))
  {
    RunsNext(samples, s);
    UnrolledJoined(Runs(samples), s);
  }

  lemma UnrolledJoined(runs: seq<Run>, s: Sample)
    requires Even(runs)
    ensures Unrolled(Joined(runs, s)) == Unrolled(runs) + [s] && Even(Joined(runs, s))
  {
    if runs != [] && runs[|runs| - 1].psid == s.psid {
      JoinedSame(runs, s);
      assert RunSamples(Joined(runs, s)[|runs| - 1]) == RunSamples(runs[|runs| - 1]) + [s];
    } else {
      assert Joined(runs, s)[..|runs|] == runs;
      assert RunSamples(Joined(runs, s)[|runs|]) == [s];
    }
  }

  // ----------------------------------------------------------------- which run of a slot is kept

  ghost predicate GoodAt(runs: seq<Run>, k: nat, name: Name, had: Slots, infos: Infos, rows: nat) {
    k < |runs| && runs[k].psid == name && Good(runs[k], infos, rows) && !Has(had, name)
  }

  /** A slot without a record gets the first of its runs that makes one; the samples of its other runs
      are dropped. */
  lemma {:induction false} KeptIsFirst(runs: seq<Run>, had: Slots, infos: Infos, rows: nat, name: Name)
    ensures name in Kept(runs, had, infos, rows) <==> exists k: nat :: GoodAt(runs, k, name, had, infos, rows)
    ensures name in Kept(runs, had, infos, rows) ==>
      exists k: nat :: GoodAt(runs, k, name, had, infos, rows) && Kept(runs, had, infos, rows)[name] == runs[k]
                       && forall j :: 0 <= j < k ==> !GoodAt(runs, j, name, had, infos, rows)
    decreases |runs|
  {
    if runs != [] {
      var n := |runs| - 1;
      var shorter := runs[..n];
      KeptIsFirst(shorter, had, infos, rows, name);
      forall k | 0 <= k < n
        ensures GoodAt(runs, k, name, had, infos, rows) == GoodAt(shorter, k, name, had, infos, rows)
      {
      }
      if name in Kept(shorter, had, infos, rows) {
        var k: nat :| GoodAt(shorter, k, name, had, infos, rows) && Kept(shorter, had, infos, rows)[name] == shorter[k]
                      && forall j :: 0 <= j < k ==> !GoodAt(shorter, j, name, had, infos, rows);
        assert GoodAt(runs, k, name, had, infos, rows);
      } else if GoodAt(runs, n, name, had, infos, rows) {
        assert Kept(runs, had, infos, rows)[name] == runs[n];
      }
    }
  }

  // ----------------------------------------------------------------- slots whose samples stand together

  ghost predicate Occurs(samples: seq<Sample>, name: Name) {
    exists i :: 0 <= i < |samples| && samples[i].psid == name
  }

  /** The samples of a slot stand together. */
  ghost predicate Together(samples: seq<Sample>, name: Name) {
    forall i, j, k :: 0 <= i < j < k < |samples| && samples[i].psid == name && samples[k].psid == name
                      ==> samples[j].psid == name
  }

  /** All samples of a slot, in their order. */
  function AllOf(samples: seq<Sample>, name: Name): Run {
    if samples == [] then Run(name, [], [])
    else
      var before, s := AllOf(samples[..|samples| - 1], name), samples[|samples| - 1];
      if s.psid == name then Run(name, before.cols + [s.targets], before.bids + [s.bid]) else before
  }

  /** How many runs a slot has ... */
  function Number(runs: seq<Run>, name: Name): nat {
    if runs == [] then 0
    else Number(runs[..|runs| - 1], name) + if runs[|runs| - 1].psid == name then 1 else 0
  }

  /** ... and those runs one behind the other. */
  function Chained(runs: seq<Run>, name: Name): Run {
    if runs == [] then Run(name, [], [])
    else
      var before, last := Chained(runs[..|runs| - 1], name), runs[|runs| - 1];
      if last.psid == name then Run(name, before.cols + last.cols, before.bids + last.bids) else before
  }

  lemma ChainedNext(runs: seq<Run>, run: Run, name: Name)
    ensures var before := Chained(runs, name);
            Chained(runs + [run], name) ==
              if run.psid == name then Run(name, before.cols + run.cols, before.bids + run.bids) else before
    ensures Number(runs + [run], name) == Number(runs, name) + if run.psid == name then 1 else 0
  {
    assert (runs + [run])[..|runs|] == runs;
  }

  lemma AllOfNext(samples: seq<Sample>, s: Sample, name: Name)
    ensures var before, after := AllOf(samples, name), AllOf(samples + [s], name);
            after == if s.psid == name then Run(name, before.cols + [s.targets], before.bids + [s.bid]) else before
  {
    assert (samples + [s])[..|samples|] == samples;
  }

  lemma OccursNext(samples: seq<Sample>, s: Sample, name: Name)
    ensures Occurs(samples + [s], name) <==> Occurs(samples, name) || s.psid == name
  {
    var more := samples + [s];
    assert more[|samples|] == s;
    forall i | 0 <= i < |samples| ensures more[i] == samples[i] {
    }
  }

  /** Another sample keeps a slot together unless it goes on after an interruption. */
  lemma TogetherNext(samples: seq<Sample>, s: Sample, name: Name)
    ensures Together(samples + [s], name) <==>
      && Together(samples, name)
      && (s.psid == name && Occurs(samples, name) ==> samples[|samples| - 1].psid == name)
  {
    var more, n := samples + [s], |samples|;
    assert more[n] == s;
    forall i | 0 <= i < n ensures more[i] == samples[i] {
    }
    if s.psid == name && Occurs(samples, name) {
      var i :| 0 <= i < n && samples[i].psid == name;
      if Together(more, name) {
        assert i < n - 1 ==> more[n - 1].psid == name;
      }
      if Together(samples, name) && samples[n - 1].psid == name {
        forall i, j | 0 <= i < j < n && samples[i].psid == name ensures samples[j].psid == name {
        }
      }
    }
  }

  /** What the runs of a slot have to do with its samples. */
  ghost predicate Divided(runs: seq<Run>, samples: seq<Sample>, name: Name) {
    && (if samples == [] then runs == [] else runs != [] && runs[|runs| - 1].psid == samples[|samples| - 1].psid)
    && Chained(runs, name) == AllOf(samples, name)
    && (Number(runs, name) == 0 <==> !Occurs(samples, name))
    && (Number(runs, name) <= 1 <==> Together(samples, name))
  }

  /** A slot stands together exactly if it has one run at most, and its runs make up all its samples. */
  lemma {:induction false} RunsDivide(samples: seq<Sample>, name: Name)
    ensures Divided(Runs(samples), samples, name)
    decreases |samples|
  {
    if samples != [] {
      var before, s := samples[..|samples| - 1], samples[|samples| - 1];
      LastApart(samples, before, s);
      RunsDivide(before, name);
      RunsNext(before, s);
      DividedNext(Runs(before), before, s, name);
    }
  }

  lemma DividedNext(runs: seq<Run>, samples: seq<Sample>, s: Sample, name: Name)
    requires Divided(runs, samples, name)
    ensures Divided(Joined(runs, s), samples + [s], name)
  {
    AllOfNext(samples, s, name);
    OccursNext(samples, s, name);
    TogetherNext(samples, s, name);
    ChainedJoined(runs, s, name);
  }

  lemma ChainedJoined(runs: seq<Run>, s: Sample, name: Name)
    ensures Joined(runs, s)[|Joined(runs, s)| - 1].psid == s.psid
    ensures var before := Chained(runs, name);
            Chained(Joined(runs, s), name) ==
              if s.psid == name then Run(name, before.cols + [s.targets], before.bids + [s.bid]) else before
    ensures Number(Joined(runs, s), name) == Number(runs, name) +
              if s.psid != name || (runs != [] && runs[|runs| - 1].psid == name) then 0 else 1
  {
    if runs != [] && runs[|runs| - 1].psid == s.psid {
      var n := |runs| - 1;
      var last := Run(s.psid, runs[n].cols + [s.targets], runs[n].bids + [s.bid]);
      assert runs == runs[..n] + [runs[n]];
      ChainedNext(runs[..n], runs[n], name);
      ChainedNext(runs[..n], last, name);
      Associates(Chained(runs[..n], name), runs[n], s);
    } else {
      ChainedNext(runs, Run(s.psid, [s.targets], [s.bid]), name);
    }
  }

  lemma Associates(before: Run, run: Run, s: Sample)
    ensures before.cols + (run.cols + [s.targets]) == before.cols + run.cols + [s.targets]
    ensures before.bids + (run.bids + [s.bid]) == before.bids + run.bids + [s.bid]
  {
  }

  ghost predicate NoneEmpty(runs: seq<Run>) { forall k :: 0 <= k < |runs| ==> runs[k].cols != [] }

  lemma {:induction false} RunsNotEmpty(samples: seq<Sample>)
    ensures NoneEmpty(Runs(samples))
    decreases |samples|
  {
    if samples != [] {
      RunsNotEmpty(samples[..|samples| - 1]);
      JoinedNotEmpty(Runs(samples[..|samples| - 1]), samples[|samples| - 1]);
    }
  }

  lemma JoinedNotEmpty(runs: seq<Run>, s: Sample)
    requires NoneEmpty(runs)
    ensures NoneEmpty(Joined(runs, s))
  {
    var joined := Joined(runs, s);
    forall k | 0 <= k < |joined| ensures joined[k].cols != [] {
    }
  }

  /** A run of a slot is all there is of the slot exactly if it is the only one. */
  lemma {:induction false} OnlyRun(runs: seq<Run>, k: nat, name: Name)
    requires NoneEmpty(runs) && k < |runs| && runs[k].psid == name
    ensures Number(runs, name) >= 1 && (runs[k] == Chained(runs, name) <==> Number(runs, name) == 1)
    ensures |runs[k].cols| <= |Chained(runs, name).cols|
    ensures |runs[k].cols| == |Chained(runs, name).cols| <==> Number(runs, name) == 1
    decreases |runs|
  {
    var n := |runs| - 1;
    if k < n {
      OnlyRun(runs[..n], k, name);
    } else {
      NoRunNothing(runs[..n], name);
    }
  }

  lemma {:induction false} NoRunNothing(runs: seq<Run>, name: Name)
    requires NoneEmpty(runs)
    ensures Number(runs, name) == 0 ==> Chained(runs, name) == Run(name, [], [])
    ensures Number(runs, name) > 0 ==> Chained(runs, name).cols != []
    decreases |runs|
  {
    if runs != [] {
      NoRunNothing(runs[..|runs| - 1], name);
    }
  }

  lemma {:induction false} SomeRun(runs: seq<Run>, name: Name) returns (k: nat)
    requires Number(runs, name) > 0
    ensures k < |runs| && runs[k].psid == name
    decreases |runs|
  {
    var n := |runs| - 1;
    if runs[n].psid == name {
      k := n;
    } else {
      k := SomeRun(runs[..n], name);
    }
  }

  /** For every list of samples, a slot gets a record of all its samples in their order exactly if it has
      samples, they stand together, they make a record and the index had none for the slot. */
  lemma KeptWholeIffTogether(samples: seq<Sample>, had: Slots, infos: Infos, rows: nat, name: Name)
    ensures var kept := Kept(Runs(samples), had, infos, rows);
            name in kept && kept[name] == AllOf(samples, name) <==>
              && Occurs(samples, name) && Together(samples, name)
              && Good(AllOf(samples, name), infos, rows) && !Has(had, name)
  {
    RunsDivide(samples, name);
    RunsNotEmpty(samples);
    KeptIsFirst(Runs(samples), had, infos, rows, name);
    KeptWhole(Runs(samples), AllOf(samples, name), had, infos, rows, name);
  }

  lemma KeptWhole(runs: seq<Run>, all: Run, had: Slots, infos: Infos, rows: nat, name: Name)
    requires NoneEmpty(runs) && Chained(runs, name) == all
    ensures var kept := Kept(runs, had, infos, rows);
            name in kept && kept[name] == all <==> Number(runs, name) == 1 && Good(all, infos, rows) && !Has(had, name)
  {
    KeptIsFirst(runs, had, infos, rows, name);
    if name in Kept(runs, had, infos, rows) {
      var k: nat :| GoodAt(runs, k, name, had, infos, rows) && Kept(runs, had, infos, rows)[name] == runs[k]
                    && forall j :: 0 <= j < k ==> !GoodAt(runs, j, name, had, infos, rows);
      OnlyRun(runs, k, name);
    } else if Number(runs, name) == 1 {
      var k := SomeRun(runs, name);
      OnlyRun(runs, k, name);
      assert !GoodAt(runs, k, name, had, infos, rows);
    }
  }

  /** If the samples of a slot stand together, as all do in a sorted file, none of them is dropped: what is
      kept for the slot, if anything, is all of it. */
  lemma GroupedKeepsAll(samples: seq<Sample>, had: Slots, infos: Infos, rows: nat, name: Name)
    requires Together(samples, name)
    ensures var kept := Kept(Runs(samples), had, infos, rows);
            && (name in kept <==> Occurs(samples, name) && Good(AllOf(samples, name), infos, rows) && !Has(had, name))
            && (name in kept ==> kept[name] == AllOf(samples, name))
  {
    RunsDivide(samples, name);
    RunsNotEmpty(samples);
    var runs := Runs(samples);
    KeptIsFirst(runs, had, infos, rows, name);
    KeptWhole(runs, AllOf(samples, name), had, infos, rows, name);
    if name in Kept(runs, had, infos, rows) {
      var k: nat :| GoodAt(runs, k, name, had, infos, rows) && Kept(runs, had, infos, rows)[name] == runs[k]
                    && forall j :: 0 <= j < k ==> !GoodAt(runs, j, name, had, infos, rows);
      OnlyRun(runs, k, name);
    }
  }
}
