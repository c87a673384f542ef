/** The reference-count protocol of shared_ptr and weak_ptr (third-party/base/shared_ptr.h).

    Any number of threads copy, swap and destroy any number of handles to any number of control
    blocks.  Each atomic increment or decrement, each deletion of an object and each deletion of
    a control block is a step of its own, so a destroyer can be overtaken between its two
    decrements.  A handle is only read by the steps of threads that see it alive, which is the
    thread safety the header asks of its users. */
module SharedPtr {

  type Handle = int
  type BlockId = nat

  /** A handle is empty or points at a control block. */
  datatype Ref = Null | To(block: BlockId)

  /** A control block, with counts of how often it and its object have been deleted. */
  datatype Block = Block(refcount: int, weakCount: int, objectDeletes: nat, blockDeletes: nat)

  /** The rest of a destructor that has made a count reach zero. */
  datatype Exit = DeletingObject(block: BlockId) | DroppingWeak(block: BlockId) | FreeingBlock(block: BlockId)

  datatype State = State(
    blocks: map<BlockId, Block>,
    strong: map<Handle, Ref>,
    weak: map<Handle, Ref>,
    exits: multiset<Exit>)

  datatype Step =
    | New(h: Handle, b: BlockId)
    | NewEmpty(h: Handle)
    | Copy(h: Handle, src: Handle)
    | Swap(h: Handle, g: Handle)
    | Drop(h: Handle)
    | Observe(h: Handle, src: Handle)
    | CopyWeak(h: Handle, src: Handle)
    | DropWeak(h: Handle)
    | DeleteObject(b: BlockId)
    | DropLastWeak(b: BlockId)
    | FreeBlock(b: BlockId)

  ghost predicate Init(s: State) {
    s == State(map[], map[], map[], multiset{})
  }

  predicate Enabled(s: State, step: Step) {
    match step
    case New(h, b) => h !in s.strong && b !in s.blocks
    case NewEmpty(h) => h !in s.strong
    case Copy(h, src) => h !in s.strong && src in s.strong && Known(s.blocks, s.strong[src])
    case Swap(h, g) => h in s.strong && g in s.strong
    case Drop(h) => h in s.strong && Known(s.blocks, s.strong[h])
    case Observe(h, src) => h !in s.weak && src in s.strong && Known(s.blocks, s.strong[src])
    case CopyWeak(h, src) => h !in s.weak && src in s.weak && Known(s.blocks, s.weak[src])
    case DropWeak(h) => h in s.weak && Known(s.blocks, s.weak[h])
    case DeleteObject(b) => DeletingObject(b) in s.exits && b in s.blocks
    case DropLastWeak(b) => DroppingWeak(b) in s.exits && b in s.blocks
    case FreeBlock(b) => FreeingBlock(b) in s.exits && b in s.blocks
  }

  predicate Known(blocks: map<BlockId, Block>, r: Ref) {
    r.To? ==> r.block in blocks
  }

  function AddStrong(s: State, r: Ref, delta: int): map<BlockId, Block>
    requires Known(s.blocks, r)
  {
    if r == Null then s.blocks
    else s.blocks[r.block := s.blocks[r.block].(refcount := s.blocks[r.block].refcount + delta)]
  }

  function AddWeak(s: State, r: Ref, delta: int): map<BlockId, Block>
    requires Known(s.blocks, r)
  {
    if r == Null then s.blocks
    else s.blocks[r.block := s.blocks[r.block].(weakCount := s.blocks[r.block].weakCount + delta)]
  }

  function Apply(s: State, step: Step): State
    requires Enabled(s, step)
  {
    match step
    case New(h, b) => s.(blocks := s.blocks[b := Block(1, 1, 0, 0)], strong := s.strong[h := To(b)])
    case NewEmpty(h) => s.(strong := s.strong[h := Null])
    case Copy(h, src) =>
      s.(blocks := AddStrong(s, s.strong[src], 1), strong := s.strong[h := s.strong[src]])
    case Swap(h, g) => s.(strong := s.strong[h := s.strong[g]][g := s.strong[h]])
    case Drop(h) =>
      var r := s.strong[h];
      var blocks := AddStrong(s, r, -1);
      s.(blocks := blocks, strong := s.strong - {h},
         exits := if r.To? && blocks[r.block].refcount == 0
                  then s.exits + multiset{DeletingObject(r.block)} else s.exits)
    case Observe(h, src) =>
      s.(blocks := AddWeak(s, s.strong[src], 1), weak := s.weak[h := s.strong[src]])
    case CopyWeak(h, src) =>
      s.(blocks := AddWeak(s, s.weak[src], 1), weak := s.weak[h := s.weak[src]])
    case DropWeak(h) =>
      var r := s.weak[h];
      var blocks := AddWeak(s, r, -1);
      s.(blocks := blocks, weak := s.weak - {h},
         exits := if r.To? && blocks[r.block].weakCount == 0
                  then s.exits + multiset{FreeingBlock(r.block)} else s.exits)
    case DeleteObject(b) =>
      s.(blocks := s.blocks[b := s.blocks[b].(objectDeletes := s.blocks[b].objectDeletes + 1)],
         exits := s.exits - multiset{DeletingObject(b)} + multiset{DroppingWeak(b)})
    case DropLastWeak(b) =>
      var blocks := AddWeak(s, To(b), -1);
      var exits := s.exits - multiset{DroppingWeak(b)};
      s.(blocks := blocks,
         exits := if blocks[b].weakCount == 0 then exits + multiset{FreeingBlock(b)} else exits)
    case FreeBlock(b) =>
      s.(blocks := s.blocks[b := s.blocks[b].(blockDeletes := s.blocks[b].blockDeletes + 1)],
         exits := s.exits - multiset{FreeingBlock(b)})
  }

  ghost predicate Next(s: State, t: State) {
    exists step :: Enabled(s, step) && t == Apply(s, step)
  }

  ghost predicate NextAt(run: seq<State>, k: nat)
    requires 0 < k < |run|
  {
    Next(run[k - 1], run[k])
  }

  ghost predicate IsRun(run: seq<State>) {
    && |run| > 0 && Init(run[0])
    && forall k :: 0 < k < |run| ==> NextAt(run, k)
  }

  // ------------------------------------------------------------------------ the invariant

  /** The live handles in m that point at block b. */
  function Holders(m: map<Handle, Ref>, b: BlockId): set<Handle> {
    set h | h in m && m[h] == To(b)
  }

  /** A destructor stands between the decrement of refcount_ and that of weak_count_. */
  predicate MidDestruction(s: State, b: BlockId) {
    DeletingObject(b) in s.exits || DroppingWeak(b) in s.exits
  }

  ghost predicate BlockInv(s: State, b: BlockId)
    requires b in s.blocks
  {
    var k := s.blocks[b];
    && k.refcount == |Holders(s.strong, b)|
    && k.weakCount == |Holders(s.weak, b)| + (if k.refcount > 0 || MidDestruction(s, b) then 1 else 0)
    && s.exits[DeletingObject(b)] + s.exits[DroppingWeak(b)] + s.exits[FreeingBlock(b)] <= 1
    && (MidDestruction(s, b) ==> k.refcount == 0)
    && (FreeingBlock(b) in s.exits ==> k.weakCount == 0)
    && k.objectDeletes == (if k.refcount > 0 || DeletingObject(b) in s.exits then 0 else 1)
    && k.blockDeletes == (if k.weakCount > 0 || FreeingBlock(b) in s.exits then 0 else 1)
  }

  ghost predicate RefsKnown(s: State) {
    && (forall h :: h in s.strong ==> Known(s.blocks, s.strong[h]))
    && (forall h :: h in s.weak ==> Known(s.blocks, s.weak[h]))
    && (forall e :: e in s.exits ==> e.block in s.blocks)
  }

  ghost predicate Inv(s: State) {
    RefsKnown(s) && forall b :: b in s.blocks ==> BlockInv(s, b)
  }

  lemma HoldersAdded(m: map<Handle, Ref>, h: Handle, r: Ref, b: BlockId)
    requires h !in m
    ensures |Holders(m[h := r], b)| == |Holders(m, b)| + (if r == To(b) then 1 else 0)
  {
    if r == To(b) {
      assert Holders(m[h := r], b) == Holders(m, b) + {h};
    } else {
      assert Holders(m[h := r], b) == Holders(m, b);
    }
  }

  lemma HoldersRemoved(m: map<Handle, Ref>, h: Handle, b: BlockId)
    requires h in m
    ensures |Holders(m - {h}, b)| == |Holders(m, b)| - (if m[h] == To(b) then 1 else 0)
  {
    assert Holders(m - {h}, b) == Holders(m, b) - {h};
  }

  lemma HoldersSwapped(m: map<Handle, Ref>, h: Handle, g: Handle, b: BlockId)
    requires h in m && g in m
    ensures |Holders(m[h := m[g]][g := m[h]], b)| == |Holders(m, b)|
  {
    HoldersRemoved(m, h, b);
    if h != g {
      HoldersRemoved(m - {h}, g, b);
      var rest := m - {h} - {g};
      HoldersAdded(rest, h, m[g], b);
      HoldersAdded(rest[h := m[g]], g, m[h], b);
      assert m[h := m[g]][g := m[h]] == rest[h := m[g]][g := m[h]];
    } else {
      assert m[h := m[g]][g := m[h]] == m;
    }
  }

  lemma BlocksOnlyGrow(s: State, step: Step)
    requires Enabled(s, step)
    ensures s.blocks.Keys <= Apply(s, step).blocks.Keys
  {
  }

  lemma StepKeepsStrongKnown(s: State, step: Step, h: Handle)
    requires RefsKnown(s) && Enabled(s, step) && h in Apply(s, step).strong
    ensures Known(Apply(s, step).blocks, Apply(s, step).strong[h])
  {
    BlocksOnlyGrow(s, step);
    assert step.Swap? ==> Known(s.blocks, s.strong[step.g]);
  }

  lemma StepKeepsWeakKnown(s: State, step: Step, h: Handle)
    requires RefsKnown(s) && Enabled(s, step) && h in Apply(s, step).weak
    ensures Known(Apply(s, step).blocks, Apply(s, step).weak[h])
  {
    BlocksOnlyGrow(s, step);
  }

  lemma StepKeepsExitsKnown(s: State, step: Step, e: Exit)
    requires RefsKnown(s) && Enabled(s, step) && e in Apply(s, step).exits
    ensures e.block in Apply(s, step).blocks
  {
    BlocksOnlyGrow(s, step);
    assert e in s.exits || e.block in s.blocks;
  }

  lemma CreationKeepsInv(s: State, step: Step, b: BlockId)
    requires RefsKnown(s) && Enabled(s, step) && (step.New? || step.NewEmpty?)
    requires b in Apply(s, step).blocks && (b in s.blocks ==> BlockInv(s, b))
    ensures BlockInv(Apply(s, step), b)
  {
    var t := Apply(s, step);
    HoldersAdded(s.strong, step.h, t.strong[step.h], b);
    if b !in s.blocks {
      assert forall h :: h in s.strong ==> Known(s.blocks, s.strong[h]);
      assert forall h :: h in s.weak ==> Known(s.blocks, s.weak[h]);
      assert Holders(s.strong, b) == {} && Holders(s.weak, b) == {};
      assert DeletingObject(b) !in s.exits && DroppingWeak(b) !in s.exits && FreeingBlock(b) !in s.exits;
    }
  }

  lemma CopyKeepsInv(s: State, step: Step, b: BlockId)
    requires Enabled(s, step) && (step.Copy? || step.Swap?)
    requires b in s.blocks && BlockInv(s, b)
    ensures b in Apply(s, step).blocks && BlockInv(Apply(s, step), b)
  {
    if step.Copy? {
      HoldersAdded(s.strong, step.h, s.strong[step.src], b);
      assert step.src in Holders(s.strong, b) || s.strong[step.src] != To(b);
    } else {
      HoldersSwapped(s.strong, step.h, step.g, b);
    }
  }

  lemma DropKeepsInv(s: State, h: Handle, b: BlockId)
    requires Enabled(s, Drop(h))
    requires b in s.blocks && BlockInv(s, b)
    ensures b in Apply(s, Drop(h)).blocks && BlockInv(Apply(s, Drop(h)), b)
  {
    HoldersRemoved(s.strong, h, b);
  }

  lemma WatchKeepsInv(s: State, step: Step, b: BlockId)
    requires Enabled(s, step) && (step.Observe? || step.CopyWeak?)
    requires b in s.blocks && BlockInv(s, b)
    ensures b in Apply(s, step).blocks && BlockInv(Apply(s, step), b)
  {
    HoldersAdded(s.weak, step.h, Apply(s, step).weak[step.h], b);
    if step.Observe? {
      assert step.src in Holders(s.strong, b) || s.strong[step.src] != To(b);
    } else {
      assert step.src in Holders(s.weak, b) || s.weak[step.src] != To(b);
    }
  }

  lemma DropWeakKeepsInv(s: State, h: Handle, b: BlockId)
    requires Enabled(s, DropWeak(h))
    requires b in s.blocks && BlockInv(s, b)
    ensures b in Apply(s, DropWeak(h)).blocks && BlockInv(Apply(s, DropWeak(h)), b)
  {
    HoldersRemoved(s.weak, h, b);
  }

  lemma DeleteObjectKeepsInv(s: State, d: BlockId, b: BlockId)
    requires Enabled(s, DeleteObject(d)) && b in s.blocks && BlockInv(s, b)
    ensures BlockInv(Apply(s, DeleteObject(d)), b)
  {
  }

  lemma DropLastWeakKeepsInv(s: State, d: BlockId, b: BlockId)
    requires Enabled(s, DropLastWeak(d)) && b in s.blocks && BlockInv(s, b)
    ensures BlockInv(Apply(s, DropLastWeak(d)), b)
  {
  }

  lemma FreeBlockKeepsInv(s: State, d: BlockId, b: BlockId)
    requires Enabled(s, FreeBlock(d)) && b in s.blocks && BlockInv(s, b)
    ensures BlockInv(Apply(s, FreeBlock(d)), b)
  {
  }

  lemma StepKeepsBlockInv(s: State, step: Step, b: BlockId)
    requires RefsKnown(s) && Enabled(s, step) && b in Apply(s, step).blocks
    requires b in s.blocks ==> BlockInv(s, b)
    ensures BlockInv(Apply(s, step), b)
  {
    match step
    case New(_, _) => CreationKeepsInv(s, step, b);
    case NewEmpty(_) => CreationKeepsInv(s, step, b);
    case Copy(_, _) => CopyKeepsInv(s, step, b);
    case Swap(_, _) => CopyKeepsInv(s, step, b);
    case Drop(h) => DropKeepsInv(s, h, b);
    case Observe(_, _) => WatchKeepsInv(s, step, b);
    case CopyWeak(_, _) => WatchKeepsInv(s, step, b);
    case DropWeak(h) => DropWeakKeepsInv(s, h, b);
    case DeleteObject(d) => DeleteObjectKeepsInv(s, d, b);
    case DropLastWeak(d) => DropLastWeakKeepsInv(s, d, b);
    case FreeBlock(d) => FreeBlockKeepsInv(s, d, b);
  }

  lemma StepKeepsInv(s: State, step: Step)
    requires Inv(s) && Enabled(s, step)
    ensures Inv(Apply(s, step))
  {
    forall h | h in Apply(s, step).strong ensures Known(Apply(s, step).blocks, Apply(s, step).strong[h]) {
      StepKeepsStrongKnown(s, step, h);
    }
    forall h | h in Apply(s, step).weak ensures Known(Apply(s, step).blocks, Apply(s, step).weak[h]) {
      StepKeepsWeakKnown(s, step, h);
    }
    forall e | e in Apply(s, step).exits ensures e.block in Apply(s, step).blocks {
      StepKeepsExitsKnown(s, step, e);
    }
    forall b | b in Apply(s, step).blocks ensures BlockInv(Apply(s, step), b) {
      StepKeepsBlockInv(s, step, b);
    }
  }

  lemma NextKeepsInv(s: State, t: State)
    requires Inv(s) && Next(s, t)
    ensures Inv(t)
  {
    var step :| Enabled(s, step) && t == Apply(s, step);
    StepKeepsInv(s, step);
  }

  lemma {:induction false} RunKeepsInv(run: seq<State>, k: nat)
    requires IsRun(run) && k < |run|
    ensures Inv(run[k])
  {
    if k > 0 {
      RunKeepsInv(run, k - 1);
      assert NextAt(run, k);
      NextKeepsInv(run[k - 1], run[k]);
    }
  }

  // ------------------------------------------------------------------------- the theorems

  /** What the header says of the counts: refcount_ is the number of shared_ptrs, and weak_count_
      the number of weak_ptrs plus one while there are shared_ptrs (or the destructor of the last
      one has not yet given that one up). */
  lemma CountsAreExact(run: seq<State>, k: nat, b: BlockId)
    requires IsRun(run) && k < |run| && b in run[k].blocks
    ensures var s := run[k];
      && s.blocks[b].refcount == |Holders(s.strong, b)|
      && s.blocks[b].weakCount == |Holders(s.weak, b)|
           + (if Holders(s.strong, b) != {} || MidDestruction(s, b) then 1 else 0)
  {
    RunKeepsInv(run, k);
    assert BlockInv(run[k], b);
  }

  /** The object lives as long as a shared_ptr does and is never deleted twice; the control block
      lives as long as any handle does and is never deleted twice, and only after the object. */
  lemma DeletedAtMostOnceAndNotTooSoon(run: seq<State>, k: nat, b: BlockId)
    requires IsRun(run) && k < |run| && b in run[k].blocks
    ensures var s := run[k];
      && s.blocks[b].blockDeletes <= s.blocks[b].objectDeletes <= 1
      && (s.blocks[b].objectDeletes == 1 ==> Holders(s.strong, b) == {})
      && (s.blocks[b].blockDeletes == 1 ==>
            Holders(s.strong, b) == {} && Holders(s.weak, b) == {} && (forall e :: e in s.exits ==> e.block != b))
  {
    RunKeepsInv(run, k);
    assert BlockInv(run[k], b);
  }

  /** Nothing leaks: once no handle is left and no destructor is running, both are gone. */
  lemma NothingLeaks(run: seq<State>, k: nat, b: BlockId)
    requires IsRun(run) && k < |run| && b in run[k].blocks
    requires Holders(run[k].strong, b) == {} && forall e :: e in run[k].exits ==> e.block != b
    ensures run[k].blocks[b].objectDeletes == 1
    ensures Holders(run[k].weak, b) == {} <==> run[k].blocks[b].blockDeletes == 1
  {
    RunKeepsInv(run, k);
    assert BlockInv(run[k], b);
    assert DeletingObject(b) !in run[k].exits && DroppingWeak(b) !in run[k].exits;
    assert FreeingBlock(b) !in run[k].exits;
  }

  /** The control block whose counts or memory a step reaches through a handle or an exit. */
  function Touched(s: State, step: Step): Ref
    requires Enabled(s, step)
  {
    match step
    case Copy(_, src) => s.strong[src]
    case Drop(h) => s.strong[h]
    case Observe(_, src) => s.strong[src]
    case CopyWeak(_, src) => s.weak[src]
    case DropWeak(h) => s.weak[h]
    case DeleteObject(b) => To(b)
    case DropLastWeak(b) => To(b)
    case FreeBlock(b) => To(b)
    case _ => Null
  }

  /** No step of any run touches a control block that has been freed, and none deletes an object
      that has been deleted. */
  lemma NoUseAfterFree(run: seq<State>, k: nat, step: Step)
    requires IsRun(run) && k < |run| && Enabled(run[k], step)
    ensures var s := run[k]; var r := Touched(s, step);
      && (r.To? ==> r.block in s.blocks && s.blocks[r.block].blockDeletes == 0)
      && (step.DeleteObject? ==> s.blocks[step.b].objectDeletes == 0)
  {
    RunKeepsInv(run, k);
    var s := run[k];
    var r := Touched(s, step);
    if r.To? {
      assert BlockInv(s, r.block);
      match step
      case Copy(_, src) => assert src in Holders(s.strong, r.block);
      case Drop(h) => assert h in Holders(s.strong, r.block);
      case Observe(_, src) => assert src in Holders(s.strong, r.block);
      case CopyWeak(_, src) => assert src in Holders(s.weak, r.block);
      case DropWeak(h) => assert h in Holders(s.weak, r.block);
      case _ =>
    }
  }

  /** operator= does nothing for handles to the same object; else it copies into a temporary, swaps and
      destroys it. */
  function Assign(s: State, dst: Handle, src: Handle, tmp: Handle): State
    requires RefsKnown(s) && dst in s.strong && src in s.strong && tmp !in s.strong
  {
    if s.strong[dst] == s.strong[src] then s
    else
      assert Known(s.blocks, s.strong[dst]) && Known(s.blocks, s.strong[src]);
      Apply(Apply(Apply(s, Copy(tmp, src)), Swap(tmp, dst)), Drop(tmp))
  }

  function RefcountOf(s: State, r: Ref): int { if r.To? && r.block in s.blocks then s.blocks[r.block].refcount else 0 }

  /** Assignment rebinds the target and no other handle; the two counts move by one, or not at all. */
  lemma AssignmentRebinds(s: State, dst: Handle, src: Handle, tmp: Handle)
    requires RefsKnown(s) && dst in s.strong && src in s.strong && tmp !in s.strong
    ensures var t := Assign(s, dst, src, tmp); var was, now := s.strong[dst], s.strong[src];
      && t.strong == s.strong[dst := now] && t.weak == s.weak
      && (was == now ==> t == s)
      && (was != now && was.To? ==> RefcountOf(t, was) == RefcountOf(s, was) - 1)
      && (was != now && now.To? ==> RefcountOf(t, now) == RefcountOf(s, now) + 1)
      && (forall r: Ref :: r != was && r != now ==> RefcountOf(t, r) == RefcountOf(s, r))
  {
    assert Known(s.blocks, s.strong[dst]) && Known(s.blocks, s.strong[src]);
  }

  /** A drop starts deleting the object exactly if it takes the last handle. */
  lemma LastDropDeletes(s: State, h: Handle)
    requires Inv(s) && Enabled(s, Drop(h)) && s.strong[h].To?
    ensures var b := s.strong[h].block;
      DeletingObject(b) in Apply(s, Drop(h)).exits <==> Holders(s.strong, b) == {h}
  {
    var b := s.strong[h].block;
    assert BlockInv(s, b);
    assert h in Holders(s.strong, b);
    if |Holders(s.strong, b)| == 1 {
      assert |Holders(s.strong, b) - {h}| == 0;
    }
  }
}
