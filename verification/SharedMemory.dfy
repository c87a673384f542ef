/** The double-buffered hot reload of the index and of the parameters
    (include/shared_memory.hpp).

    The class DoubleBuffer is the updater's sequential code, each statement a step of the relation.
    The relation interleaves these steps with any number of requests that take a reference to the
    visible buffer and keep it for as long as they run. */
module SharedMemory {

  type Version = int
  type Time = int
  type RequestId = int

  /** What a buffer holds; Torn is anything between empty and complete. */
  datatype Slot = Empty | Torn | Full(version: Version)

  /** static_cast<size_t>(flag) */
  function Index(flag: bool): nat { if flag then 1 else 0 }

  // ------------------------------------------------------------------------- the protocol

  /** Where the updater is inside Update. */
  datatype Updater = Idle | Loading(mtime: Time) | Ready(mtime: Time) | Flipped(mtime: Time) | Grace | Clearing

  /** A request holds the buffer it took, and remembers what was in it then. */
  datatype Request = Request(slot: bool, seen: Slot)

  /** published is the version of the last flip; it is Empty before the first. */
  datatype State = State(
    slots: seq<Slot>,
    flag: bool,
    ts: Time,
    updater: Updater,
    requests: map<RequestId, Request>,
    published: Slot)
  {
    function Visible(): Slot
      requires |slots| == 2
    {
      slots[Index(flag)]
    }
  }

  datatype Step =
    | StartLoad(mtime: Time)
    | LoadFails
    | LoadSucceeds(version: Version)
    | Flip
    | SetTimestamp
    | StartClear
    | FinishClear
    | Begin(r: RequestId)
    | End(r: RequestId)

  ghost predicate Init(s: State) {
    s == State([Empty, Empty], false, 0, Idle, map[], Empty)
  }

  predicate Enabled(s: State, step: Step) {
    && |s.slots| == 2
    && match step
       case StartLoad(mtime) => s.updater.Idle? && mtime > s.ts
       case LoadFails => s.updater.Loading?
       case LoadSucceeds(_) => s.updater.Loading?
       case Flip => s.updater.Ready?
       case SetTimestamp => s.updater.Flipped?
       case StartClear => s.updater.Grace?
       case FinishClear => s.updater.Clearing?
       case Begin(r) => r !in s.requests
       case End(r) => r in s.requests
  }

  function Apply(s: State, step: Step): State
    requires Enabled(s, step)
  {
    var hidden := Index(!s.flag);
    match step
    case StartLoad(mtime) => s.(slots := s.slots[hidden := Torn], updater := Loading(mtime))
    case LoadFails => s.(updater := Idle)
    case LoadSucceeds(v) => s.(slots := s.slots[hidden := Full(v)], updater := Ready(s.updater.mtime))
    case Flip => s.(flag := !s.flag, updater := Flipped(s.updater.mtime), published := s.slots[hidden])
    case SetTimestamp => s.(ts := s.updater.mtime, updater := Grace)
    case StartClear => s.(slots := s.slots[hidden := Torn], updater := Clearing)
    case FinishClear => s.(slots := s.slots[hidden := Empty], updater := Idle)
    case Begin(r) => s.(requests := s.requests[r := Request(s.flag, s.Visible())])
    case End(r) => s.(requests := s.requests - {r})
  }

  ghost predicate StepAt(run: seq<State>, steps: seq<Step>, k: nat)
    requires |run| == |steps| + 1 && k < |steps|
  {
    Enabled(run[k], steps[k]) && run[k + 1] == Apply(run[k], steps[k])
  }

  ghost predicate IsRun(run: seq<State>, steps: seq<Step>) {
    && |run| == |steps| + 1 && Init(run[0])
    && forall k :: 0 <= k < |steps| ==> StepAt(run, steps, k)
  }

  /** Every request still finds in its buffer what it found when it took it. */
  ghost predicate Untorn(s: State) {
    |s.slots| == 2 && forall r :: r in s.requests ==> s.slots[Index(s.requests[r].slot)] == s.requests[r].seen
  }

  /** The grace period was long enough: nobody still holds the buffer about to be cleared. */
  ghost predicate NobodyOnHidden(s: State) {
    forall r :: r in s.requests ==> s.requests[r].slot == s.flag
  }

  ghost predicate GraceRespectedAt(run: seq<State>, steps: seq<Step>, k: nat)
    requires |run| == |steps| + 1 && k < |steps|
  {
    steps[k] == StartClear ==> NobodyOnHidden(run[k])
  }

  // -------------------------------------------------------------------- the updater's code

  datatype LoadResult = Loaded(version: Version) | LoadFailed(code: int)

  /** The steps of a reload, without interruption. */
  function Reloaded(s: State, mtime: Time, result: LoadResult): State
    requires |s.slots| == 2 && s.updater.Idle?
  {
    if mtime <= s.ts then s
    else
      var loading := Apply(s, StartLoad(mtime));
      match result
      case LoadFailed(_) => Apply(loading, LoadFails)
      case Loaded(version) => Apply(Apply(Published(loading, version), StartClear), FinishClear)
  }

  /** ... up to the pause before the old buffer is cleared. */
  function Published(loading: State, version: Version): (s: State)
    requires |loading.slots| == 2 && loading.updater.Loading?
    ensures |s.slots| == 2 && s.updater.Grace?
  {
    Apply(Apply(Apply(loading, LoadSucceeds(version)), Flip), SetTimestamp)
  }

  class DoubleBuffer {
    var buffer: array<Slot>
    var ts: Time
    var flag: bool

    constructor ()
      ensures buffer.Length == 2 && fresh(buffer) && buffer[0] == buffer[1] == Empty
      ensures ts == 0 && !flag
    {
      buffer := new Slot[2](_ => Empty);
      ts, flag := 0, false;
    }

    /** The memory is as in a state of the relation. */
    ghost predicate Is(s: State)
      reads this, buffer
    {
      s.slots == buffer[..] && s.flag == flag && s.ts == ts
    }

    /** The file's modification time and the outcome of loading it come from outside. */
    method Update(mtime: Time, result: LoadResult, ghost s: State) returns (code: int)
      requires buffer.Length == 2 && Is(s) && s.updater.Idle?
      requires result.LoadFailed? ==> result.code != 0
      modifies this`ts, this`flag, buffer
      ensures Is(Reloaded(s, mtime, result)) && Reloaded(s, mtime, result).updater.Idle?
      ensures code != 0 <==> mtime > old(ts) && result.LoadFailed?
      ensures code != 0 ==> code == result.code
      ensures ts == (if mtime > old(ts) && result.Loaded? then mtime else old(ts))
      ensures buffer[Index(flag)] ==
              if mtime > old(ts) && result.Loaded? then Full(result.version) else old(buffer[Index(flag)])
    {
      if mtime <= ts {
        return 0;
      }
      ghost var now := Apply(s, StartLoad(mtime));
      buffer[Index(!flag)] := Torn;
      assert Is(now);
      if result.LoadFailed? {
        return result.code;
      }
      now := Apply(now, LoadSucceeds(result.version));
      buffer[Index(!flag)] := Full(result.version);
      assert Is(now);
      now := Apply(now, Flip);
      flag := !flag;
      assert Is(now);
      now := Apply(now, SetTimestamp);
      ts := mtime;
      assert Is(now);
      now := Apply(now, StartClear);
      buffer[Index(!flag)] := Torn;
      assert Is(now);
      now := Apply(now, FinishClear);
      buffer[Index(!flag)] := Empty;
      assert Is(now);
      return 0;
    }
  }

  // ------------------------------------------------------------------------ the invariant

  /** What holds in every run, whatever the requests do. */
  ghost predicate Inv(s: State) {
    && |s.slots| == 2
    && s.Visible() == s.published && s.published != Torn
    && (s.updater.Ready? ==> s.slots[Index(!s.flag)].Full?)
    && (s.updater.Flipped? || s.updater.Grace? ==> s.slots[Index(!s.flag)] != Torn)
    && (s.updater.Loading? || s.updater.Ready? || s.updater.Flipped? ==> s.updater.mtime > s.ts)
    && (forall r :: r in s.requests ==> s.requests[r].seen != Torn)
  }

  /** What holds besides while the grace period has been respected. */
  ghost predicate GraceInv(s: State) {
    && Untorn(s)
    && (s.updater.Flipped? || s.updater.Grace? || NobodyOnHidden(s))
  }

  lemma StepKeepsInv(s: State, step: Step)
    requires Inv(s) && Enabled(s, step)
    ensures Inv(Apply(s, step))
  {
  }

  lemma StepKeepsGraceInv(s: State, step: Step)
    requires Inv(s) && GraceInv(s) && Enabled(s, step)
    requires step == StartClear ==> NobodyOnHidden(s)
    ensures GraceInv(Apply(s, step))
  {
  }

  lemma {:induction false} RunKeepsInv(run: seq<State>, steps: seq<Step>, k: nat)
    requires IsRun(run, steps) && k < |run|
    ensures Inv(run[k])
  {
    if k > 0 {
      RunKeepsInv(run, steps, k - 1);
      assert StepAt(run, steps, k - 1);
      StepKeepsInv(run[k - 1], steps[k - 1]);
    }
  }

  lemma {:induction false} GraceKeepsRequestsUntorn(run: seq<State>, steps: seq<Step>, k: nat)
    requires IsRun(run, steps) && k < |run|
    requires forall j :: 0 <= j < |steps| && j < k ==> GraceRespectedAt(run, steps, j)
    ensures GraceInv(run[k])
  {
    if k > 0 {
      GraceKeepsRequestsUntorn(run, steps, k - 1);
      RunKeepsInv(run, steps, k - 1);
      assert StepAt(run, steps, k - 1) && GraceRespectedAt(run, steps, k - 1);
      StepKeepsGraceInv(run[k - 1], steps[k - 1]);
    }
  }

  // ------------------------------------------------------------------------- the theorems

  /** The exact condition for the reload to be invisible: in a run, no request ever finds its
      buffer changed under it if and only if every clearing waits until no request holds the
      buffer that was visible before the flip. */
  lemma UntornIffGraceRespected(run: seq<State>, steps: seq<Step>)
    requires IsRun(run, steps)
    ensures (forall k :: 0 <= k < |run| ==> Untorn(run[k]))
       <==> (forall k :: 0 <= k < |steps| ==> GraceRespectedAt(run, steps, k))
  {
    if forall k :: 0 <= k < |steps| ==> GraceRespectedAt(run, steps, k) {
      forall k | 0 <= k < |run| ensures Untorn(run[k]) {
        GraceKeepsRequestsUntorn(run, steps, k);
      }
    }
    if forall k :: 0 <= k < |run| ==> Untorn(run[k]) {
      forall k | 0 <= k < |steps| ensures GraceRespectedAt(run, steps, k) {
        RunKeepsInv(run, steps, k);
        assert StepAt(run, steps, k) && Untorn(run[k + 1]);
        if steps[k] == StartClear {
          forall r | r in run[k].requests ensures run[k].requests[r].slot == run[k].flag {
            assert run[k + 1].requests[r].seen != Torn;
          }
        }
      }
    }
  }

  /** A request that starts sees the version published last, complete, and a request never sees a
      buffer that is being loaded or cleared while the grace period is respected. */
  lemma RequestSeesOneCompleteVersion(run: seq<State>, steps: seq<Step>, k: nat, r: RequestId)
    requires IsRun(run, steps) && k < |run| && r in run[k].requests
    requires forall j :: 0 <= j < |steps| ==> GraceRespectedAt(run, steps, j)
    ensures var s := run[k]; var q := s.requests[r];
      && |s.slots| == 2
      && s.slots[Index(q.slot)] == q.seen && q.seen != Torn
    ensures k > 0 && steps[k - 1] == Begin(r) ==> run[k].requests[r].seen == run[k].published
  {
    GraceKeepsRequestsUntorn(run, steps, k);
    RunKeepsInv(run, steps, k);
    if k > 0 {
      RunKeepsInv(run, steps, k - 1);
      assert StepAt(run, steps, k - 1);
    }
  }

  /** What a request sees stays what it was for as long as the request runs. */
  lemma {:induction false} RequestKeepsItsVersion(run: seq<State>, steps: seq<Step>, j: nat, k: nat, r: RequestId)
    requires IsRun(run, steps) && j <= k < |run|
    requires forall i :: j <= i <= k ==> r in run[i].requests
    ensures run[k].requests[r] == run[j].requests[r]
    decreases k - j
  {
    if j < k {
      RequestKeepsItsVersion(run, steps, j, k - 1, r);
      assert StepAt(run, steps, k - 1);
      assert r in run[k - 1].requests;
    }
  }

  /** Only a flip changes what is visible, and then to the version just loaded in full; a load
      that fails, or clearing, changes neither the visible version nor the timestamp. */
  lemma OnlyFlipChangesTheView(run: seq<State>, steps: seq<Step>, k: nat)
    requires IsRun(run, steps) && k < |steps|
    ensures |run[k].slots| == |run[k + 1].slots| == 2
    ensures steps[k] != Flip ==> run[k + 1].Visible() == run[k].Visible() && run[k + 1].flag == run[k].flag
    ensures steps[k] == Flip ==> run[k + 1].Visible().Full? && run[k + 1].Visible() == run[k].slots[Index(!run[k].flag)]
    ensures steps[k] != SetTimestamp ==> run[k + 1].ts == run[k].ts
  {
    RunKeepsInv(run, steps, k);
    assert StepAt(run, steps, k);
  }

  lemma {:induction false} TimestampsNeverDecrease(run: seq<State>, steps: seq<Step>, j: nat, k: nat)
    requires IsRun(run, steps) && j <= k < |run|
    ensures run[j].ts <= run[k].ts
    decreases k - j
  {
    if j < k {
      TimestampsNeverDecrease(run, steps, j, k - 1);
      RunKeepsInv(run, steps, k - 1);
      assert StepAt(run, steps, k - 1);
    }
  }

  /** The sleep before clearing is only a hope: in this run a request outlasts it and then holds
      a buffer that is being cleared. */
  lemma SlowRequestIsTorn() returns (run: seq<State>, steps: seq<Step>)
    ensures IsRun(run, steps) && run[|run| - 1].requests.Keys == {0} && !Untorn(run[|run| - 1])
  {
    steps := [StartLoad(1), LoadSucceeds(7), Flip, SetTimestamp, StartClear, FinishClear, Begin(0),
              StartLoad(2), LoadSucceeds(8), Flip, SetTimestamp, StartClear];
    var s0 := State([Empty, Empty], false, 0, Idle, map[], Empty);
    var s7 := State([Empty, Full(7)], true, 1, Idle, map[0 := Request(true, Full(7))], Full(7));
    run := [s0,
            s0.(slots := [Empty, Torn], updater := Loading(1)),
            s0.(slots := [Empty, Full(7)], updater := Ready(1)),
            State([Empty, Full(7)], true, 0, Flipped(1), map[], Full(7)),
            State([Empty, Full(7)], true, 1, Grace, map[], Full(7)),
            State([Torn, Full(7)], true, 1, Clearing, map[], Full(7)),
            State([Empty, Full(7)], true, 1, Idle, map[], Full(7)),
            s7,
            s7.(slots := [Torn, Full(7)], updater := Loading(2)),
            s7.(slots := [Full(8), Full(7)], updater := Ready(2)),
            s7.(slots := [Full(8), Full(7)], flag := false, updater := Flipped(2), published := Full(8)),
            s7.(slots := [Full(8), Full(7)], flag := false, ts := 2, updater := Grace, published := Full(8)),
            s7.(slots := [Full(8), Torn], flag := false, ts := 2, updater := Clearing, published := Full(8))];
    assert 0 in run[12].requests && run[12].slots[Index(true)] == Torn;
  }
}
