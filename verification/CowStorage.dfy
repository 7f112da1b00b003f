/** The address spaces of the protocol in one physical memory: every step of a run
    rewrites the tables it means to rewrite, and all trees are still there after it. */
module CowStorage {
  import opened PageBits
  import opened PageTree
  import opened PageMemory
  import opened PageStore
  import opened PageFork
  import opened PageForkStore
  import opened PageForkRoot
  import opened SpaceTables
  import opened CowMemory
  import opened CowFaults
  import opened CowProtocol

  /** The words of space `i` that are its own. */
  ghost predicate HoldsSpace(m: Memory, s: Sys, i: nat)
    requires i < |s.spaces|
  {
    |s.spaces[i].slots| == ENTRIES && Holds(m, UserPart(s.spaces[i], s.kernel.e))
  }

  /** One memory holds the trees of all spaces, and the kernel's. */
  ghost predicate InMemory(m: Memory, s: Sys) {
    && s.kernel.Link? && Holds(m, s.kernel.sub)
    && forall i :: 0 <= i < |s.spaces| ==> HoldsSpace(m, s, i)
  }

  /** A space as the processor has it. */
  function Root(s: Sys, i: nat): Table
    requires i < |s.spaces| && |s.spaces[i].slots| == ENTRIES
  {
    Full(s.spaces[i], s.kernel)
  }

  lemma SpaceShape(s: Sys, i: nat)
    requires Inv(s) && i < |s.spaces|
    ensures SpaceOk(s.spaces[i], s.kernel, s.owned) && |s.spaces[i].slots| == ENTRIES
    ensures KernelOk(s.kernel) && SlotFrames(s.kernel) <= s.owned
  {
    hide Separate, Total, Lookup, FrameOk, PageOk, KernelPageOk, Regions;
  }

  /** In such a state the page-table code can be called on any space. */
  lemma SpaceRepresented(s: Sys, m: Memory, i: nat, fs: seq<Frame>)
    requires Inv(s) && InMemory(m, s) && i < |s.spaces| && Free(s, fs) && Backed(m, fs)
    ensures |s.spaces[i].slots| == ENTRIES && Represents(m, fs, Root(s, i))
  {
    SpaceShape(s, i);
    hide WellFormed, Separate, Holds, Frames, Inv;
    FreeUnowned(s, fs);
    FullShape(s.spaces[i], s.kernel);
    assert HoldsSpace(m, s, i);
    FullHolds(m, s.spaces[i], s.kernel);
  }

  // ---------- the processor's view ----------

  /** What the protocol takes for the processor's answer is the processor's answer, for
      every address of every space. */
  lemma TranslatedIsWalk(s: Sys, m: Memory, i: nat, path: Path)
    requires Inv(s) && InMemory(m, s) && i < |s.spaces| && |path| == 4
    ensures |s.spaces[i].slots| == ENTRIES
    ensures Walk(m, s.spaces[i].frame, path) == Translation(Translated(s, i, path))
  {
    SpaceShape(s, i);
    hide WellFormed, Separate, Holds, Frames, Inv, Walk, Lookup, Unwind;
    FullShape(s.spaces[i], s.kernel);
    assert HoldsSpace(m, s, i);
    FullHolds(m, s.spaces[i], s.kernel);
    if path[0] == SELF_REF {
      WindowWalk(m, Root(s, i), path);
    } else {
      WalkIsLookup(m, Root(s, i), path);
      FullLookup(s.spaces[i], s.kernel, path);
    }
  }

  /** An access outside every region ends the process if the processor's walk faults,
      and stops the machine if it does not. */
  lemma NoRegionOutcome(s: Sys, m: Memory, a: Access, fs: seq<Frame>)
    requires CanHandle(s, a, fs) && InMemory(m, s) && Region(s, a).None?
    ensures Handle(s, a, fs) == (s, if Walk(m, s.spaces[a.space].frame, a.path).Fault? then Killed else Halted)
  {
    hide Inv, InMemory, Walk, Free;
    TranslatedIsWalk(s, m, a.space, a.path);
  }

  // ---------- steps in memory ----------

  /** The tables that an entry of space `i` can be in. */
  ghost function TablesFor(s: Sys, i: nat, path: Path): set<Frame>
    requires i < |s.spaces|
  {
    if KernelPath(path) then SlotFrames(s.kernel) else Frames(s.spaces[i])
  }

  /** The pages a step may write to. */
  ghost function Writes(s: Sys, op: Op): set<Frame>
    requires Inv(s) && Enabled(s, op)
  {
    match op
    case Faulting(a, fs) => TablesFor(s, a.space, a.path) + Taken(fs, |fs|)
    case StoreByte(a, _, _) => {At4(s, a.space, a.path).frame}
    case Forking(i, _, fs) => Frames(s.spaces[i]) + Taken(fs, |fs|)
    case Sharing(i, _) => Frames(s.spaces[i])
    case Taking(fs) => Taken(fs, |fs|)
    case Releasing(i, _) => Frames(s.spaces[i])
    case Mapping(_, _, _) => {}
    case KernelMapping(_, _) => {}
    case Unmapping(_, _) => {}
    case Execing(fs) => Taken(fs, |fs|)
    case Loading(i, path, _, _, fs) => TablesFor(s, i, path) + Taken(fs, |fs|)
  }

  /** The step rewrites the tables of space `j`. */
  predicate Rewrites(s: Sys, op: Op, j: nat) {
    match op
    case Faulting(a, _) => j == a.space && !KernelPath(a.path)
    case Forking(i, _, _) => j == i || j == |s.spaces|
    case Sharing(i, _) => j == i
    case Releasing(i, _) => j == i
    case Execing(_) => j == |s.spaces|
    case Loading(i, path, _, _, _) => j == i && !KernelPath(path)
    case _ => false
  }

  /** The step rewrites the kernel's tables. */
  predicate RewritesKernel(op: Op) {
    match op
    case Faulting(a, _) => KernelPath(a.path)
    case Loading(_, path, _, _, _) => KernelPath(path)
    case _ => false
  }

  /** What a step does to memory: it stays within its pages, and where it rewrites
      tables it leaves the tree it is to leave. */
  ghost predicate MemStep(s: Sys, m: Memory, op: Op, m': Memory)
    requires Inv(s) && Enabled(s, op)
  {
    var s' := Step(s, op);
    && SameOutside(m, m', Writes(s, op))
    && (RewritesKernel(op) ==> s'.kernel.Link? && Holds(m', s'.kernel.sub))
    && forall j: nat :: Rewrites(s, op, j) && j < |s'.spaces| ==> HoldsSpace(m', s', j)
  }

  /** A change to a page of the kernel's leaves all spaces alone, one to a page of
      space `i` all others and the kernel. */
  ghost predicate OnlyTables(spaces: seq<Table>, kernel: Slot, spaces': seq<Table>, kernel': Slot, i: nat, path: Path) {
    && |spaces'| == |spaces| && kernel'.Link? && kernel'.e == kernel.e
    && (KernelPath(path) ==> spaces' == spaces)
    && (!KernelPath(path) ==> kernel' == kernel && forall j: nat :: j < |spaces| && j != i ==> spaces'[j] == spaces[j])
  }

  lemma MapShape(s: Sys, i: nat, path: Path, e: Pte, fs: seq<Frame>)
    requires Addressed(s, i, path) && Supply(fs, {}) && Lacking(s, i, path) <= |fs|
    ensures var s' := MapPage(s, i, path, e, fs); OnlyTables(s.spaces, s.kernel, s'.spaces, s'.kernel, i, path)
  {
  }

  lemma ProtectShape(s: Sys, i: nat, path: Path, prot: Prot)
    requires Addressed(s, i, path) && Lacking(s, i, path) == 0
    ensures var s' := Protect(s, i, path, prot); OnlyTables(s.spaces, s.kernel, s'.spaces, s'.kernel, i, path)
  {
    hide Lookup, Missing, MapPage, OnlyTables;
    MapShape(s, i, path, Leaf(At4(s, i, path).frame, prot), []);
  }

  lemma UnflagShape(s: Sys, f: Frame, i: nat, path: Path, prot: Prot)
    requires Addressed(s, i, path) && Lacking(s, i, path) == 0 && f in s.desc
    ensures Addressed(Unflag(s, f), i, path) && Lacking(Unflag(s, f), i, path) == 0
    ensures var s' := Protect(Unflag(s, f), i, path, prot); OnlyTables(s.spaces, s.kernel, s'.spaces, s'.kernel, i, path)
  {
    hide Lookup, Missing, OnlyTables, Protect;
    ProtectShape(Unflag(s, f), i, path, prot);
  }

  lemma CopyShape(s: Sys, i: nat, path: Path, prot: Prot, fs: seq<Frame>)
    requires CanCopy(s, i, path, fs)
    ensures At4(s, i, path).frame in s.data
    ensures var s' := Copy(s, i, path, prot, fs); OnlyTables(s.spaces, s.kernel, s'.spaces, s'.kernel, i, path)
  {
    hide Inv, Lookup, Missing, Demand, OnlyTables;
    InvShapesOf(s);
    var f := At4(s, i, path).frame;
    DemandShape(Less(s, f).(data := s.data[fs[0] := s.data[f]]), i, path, prot, fs);
  }

  lemma HandleShape(s: Sys, a: Access, fs: seq<Frame>)
    requires CanHandle(s, a, fs)
    ensures var s' := Handle(s, a, fs).0; OnlyTables(s.spaces, s.kernel, s'.spaces, s'.kernel, a.space, a.path)
  {
    hide Inv, Lookup, Missing, Total, Free, OnlyTables, Demand, Protect, WriteFault;
    InvShapesOf(s);
    SameTables(s, a);
    if Region(s, a).Some? {
      var prot := Region(s, a).value;
      RegionFacts(s, a);
      if At4(s, a.space, a.path).present {
        PageFacts(s, a, fs);
        ProtectShape(s, a.space, a.path, prot);
        WriteShape(s, a, prot, fs);
      } else if fs != [] {
        DemandShape(s, a.space, a.path, prot, fs);
      }
    }
  }

  lemma WriteShape(s: Sys, a: Access, prot: Prot, fs: seq<Frame>)
    requires CanHandle(s, a, fs) && Region(s, a) == Some(prot)
    requires Addressed(s, a.space, a.path) && Lacking(s, a.space, a.path) == 0 && At4(s, a.space, a.path).present
    ensures var s' := WriteFault(s, a, prot, fs).0; OnlyTables(s.spaces, s.kernel, s'.spaces, s'.kernel, a.space, a.path)
  {
    hide Inv, Lookup, Missing, Total, OnlyTables, Protect, Copy, At4, KernelTree;
    InvShapesOf(s);
    SameTables(s, a);
    var i, path, f := a.space, a.path, At4(s, a.space, a.path).frame;
    ProtectShape(s, i, path, prot);
    if f in s.desc {
      UnflagShape(s, f, i, path, prot);
      if s.desc[f].refcount >= 2 && fs != [] {
        CopyShape(s, i, path, prot, fs);
      }
    }
  }

  lemma SameTables(s: Sys, a: Access)
    requires KernelTree(s.kernel)
    ensures OnlyTables(s.spaces, s.kernel, s.spaces, s.kernel, a.space, a.path)
  {
  }

  lemma InvShapesOf(s: Sys)
    requires Inv(s)
    ensures KernelTree(s.kernel) && s.data.Keys == s.desc.Keys
  {
  }

  lemma DemandShape(s: Sys, i: nat, path: Path, prot: Prot, fs: seq<Frame>)
    requires Addressed(s, i, path) && Supply(fs, {}) && Lacking(s, i, path) < |fs|
    ensures var s' := Demand(s, i, path, prot, fs); OnlyTables(s.spaces, s.kernel, s'.spaces, s'.kernel, i, path)
  {
    hide Lookup, Missing, MapPage, Claimed, Put, OnlyTables;
    MapShape(s.(desc := Claimed(s.desc, fs, 1), owned := PageTaken(s, path, fs[0])), i, path, Leaf(fs[0], prot), fs[1..]);
  }

  /** Spaces the step does not rewrite are as they were, and so is the kernel's part;
      the entry all roots have for it never changes. */
  lemma StepShape(s: Sys, op: Op)
    requires Inv(s) && Enabled(s, op) && !OverTables(op)
    ensures var s' := Step(s, op);
            && s'.kernel.Link? && s'.kernel.e == s.kernel.e && |s.spaces| <= |s'.spaces|
            && (!RewritesKernel(op) ==> s'.kernel == s.kernel)
            && forall j: nat :: j < |s'.spaces| && !Rewrites(s, op, j) ==> j < |s.spaces| && s'.spaces[j] == s.spaces[j]
  {
    hide Inv, Lookup, Missing, Total, Handle, Claimed, ForkDesc, Cleared, Taken, Share, Release, Loaded, Free, EmptyRoot;
    InvShapesOf(s);
    match op
    case Faulting(a, fs) => HandleShape(s, a, fs);
    case Loading(i, path, prot, contents, fs) => LoadedShape(s, i, path, prot, contents, fs);
    case Sharing(i, path) => ShareShape(s, i, path);
    case Releasing(i, path) => ReleaseShape(s, i, path);
    case _ =>
  }

  lemma ShareShape(s: Sys, i: nat, path: Path)
    requires Inv(s) && PresentPage(s, i, path)
    ensures (ShareInv(s, i, path);
      var s' := Share(s, i, path); OnlyTables(s.spaces, s.kernel, s'.spaces, s'.kernel, i, path))
  {
    hide Inv, Lookup, Missing, MapPage, OnlyTables;
    ShareInv(s, i, path);
    MapShape(s, i, path, Dim(At4(s, i, path)), []);
  }

  lemma ReleaseShape(s: Sys, i: nat, path: Path)
    requires Inv(s) && PresentPage(s, i, path)
    ensures (ReleaseInv(s, i, path);
      var s' := Release(s, i, path); OnlyTables(s.spaces, s.kernel, s'.spaces, s'.kernel, i, path))
  {
    hide Inv, Lookup, Missing, MapPage, OnlyTables;
    ReleaseInv(s, i, path);
    MapShape(s, i, path, At4(s, i, path).(present := false, rest := 0), []);
  }

  lemma LoadedShape(s: Sys, i: nat, path: Path, prot: Prot, contents: Data, fs: seq<Frame>)
    requires CanDemand(s, i, path, fs)
    ensures var s' := Loaded(s, i, path, prot, contents, fs); OnlyTables(s.spaces, s.kernel, s'.spaces, s'.kernel, i, path)
  {
    hide Inv, Lookup, Missing, Demand, OnlyTables;
    DemandShape(s.(data := s.data[fs[0] := contents]), i, path, prot, fs);
  }

  /** The frames a step takes belong to nobody yet. */
  lemma OwnedNotFree(s: Sys, fs: seq<Frame>, f: Frame)
    requires Inv(s) && Free(s, fs) && f in s.owned
    ensures f !in Taken(fs, |fs|)
  {
    hide Inv, Free;
    if f in Taken(fs, |fs|) {
      TakenFree(s, fs, |fs|, f);
    }
  }

  lemma OtherSpace(s: Sys, i: nat, j: nat, f: Frame)
    requires Inv(s) && i < |s.spaces| && j < |s.spaces| && i != j && f in Frames(s.spaces[j])
    ensures f !in Frames(s.spaces[i])
  {
    hide WellFormed, Separate, Frames, Lookup, Total, FrameOk, PageOk, KernelPageOk, Regions, SpaceOk;
    assert if i < j then Apart(s.spaces[i], s.spaces[j]) else Apart(s.spaces[j], s.spaces[i]);
  }

  /** No table page of a space the step does not rewrite is written to. */
  lemma OutsideWrites(s: Sys, op: Op, j: nat, f: Frame)
    requires Inv(s) && Enabled(s, op) && !OverTables(op) && j < |s.spaces| && !Rewrites(s, op, j) && f in Frames(s.spaces[j])
    ensures f !in Writes(s, op)
  {
    hide Inv, WellFormed, Separate, Frames, SlotFrames, Lookup, Total, Free, ChildOf, Taken;
    SpaceShape(s, j);
    match op {
      case Faulting(a, fs) =>
        OwnedNotFree(s, fs, f);
        if !KernelPath(a.path) {
          OtherSpace(s, a.space, j, f);
        }
      case Loading(i, path, _, _, fs) =>
        OwnedNotFree(s, fs, f);
        if !KernelPath(path) {
          OtherSpace(s, i, j, f);
        }
      case Forking(i, _, fs) => OwnedNotFree(s, fs, f); OtherSpace(s, i, j, f);
      case Sharing(i, _) => OtherSpace(s, i, j, f);
      case Releasing(i, _) => OtherSpace(s, i, j, f);
      case Taking(fs) => OwnedNotFree(s, fs, f);
      case Execing(fs) => OwnedNotFree(s, fs, f);
      case StoreByte(a, _, _) => MappedReferenced(s, a.space, a.path);
      case Mapping(_, _, _) =>
      case KernelMapping(_, _) =>
      case Unmapping(_, _) =>
    }
  }

  /** Nor is a table page of the kernel's, unless its tables are rewritten. */
  lemma OutsideKernel(s: Sys, op: Op, f: Frame)
    requires Inv(s) && Enabled(s, op) && !OverTables(op) && !RewritesKernel(op) && f in SlotFrames(s.kernel)
    ensures f !in Writes(s, op)
  {
    KernelOwned(s);
    hide Inv, WellFormed, Separate, Frames, SlotFrames, Lookup, Total, Free, ChildOf, Taken;
    match op {
      case Faulting(a, fs) => OwnedNotFree(s, fs, f); SpaceShape(s, a.space);
      case Loading(i, _, _, _, fs) => OwnedNotFree(s, fs, f); SpaceShape(s, i);
      case Forking(i, _, fs) => OwnedNotFree(s, fs, f); SpaceShape(s, i);
      case Sharing(i, _) => SpaceShape(s, i);
      case Releasing(i, _) => SpaceShape(s, i);
      case Taking(fs) => OwnedNotFree(s, fs, f);
      case Execing(fs) => OwnedNotFree(s, fs, f);
      case StoreByte(a, _, _) => MappedReferenced(s, a.space, a.path);
      case Mapping(_, _, _) =>
      case KernelMapping(_, _) =>
      case Unmapping(_, _) =>
    }
  }

  lemma KernelOwned(s: Sys)
    requires Inv(s)
    ensures KernelOk(s.kernel) && SlotFrames(s.kernel) <= s.owned
  {
    hide Total, Lookup, FrameOk, PageOk, KernelPageOk, Regions;
  }

  /** All trees are still in memory after any step. */
  lemma StepInMemory(s: Sys, m: Memory, op: Op, m': Memory)
    requires Inv(s) && Enabled(s, op) && !OverTables(op) && InMemory(m, s) && MemStep(s, m, op, m')
    ensures InMemory(m', Step(s, op))
  {
    hide Inv, Enabled, Step, Holds, Writes, Rewrites, RewritesKernel, Frames;
    StepShape(s, op);
    var s' := Step(s, op);
    if !RewritesKernel(op) {
      forall f | f in SlotFrames(s.kernel) && f in m ensures f in m' && m'[f] == m[f] {
        OutsideKernel(s, op, f);
      }
      HoldsFrame(m, m', s.kernel.sub);
    }
    forall j | 0 <= j < |s'.spaces| ensures HoldsSpace(m', s', j) {
      if !Rewrites(s, op, j) {
        Undisturbed(s, m, op, m', j);
      }
    }
  }

  lemma Undisturbed(s: Sys, m: Memory, op: Op, m': Memory, j: nat)
    requires Inv(s) && Enabled(s, op) && !OverTables(op) && InMemory(m, s) && j < |s.spaces| && !Rewrites(s, op, j)
    requires SameOutside(m, m', Writes(s, op))
    ensures HoldsSpace(m', s, j)
  {
    hide Inv, Enabled, Separate, Frames, Holds, Writes, Rewrites;
    SpaceShape(s, j);
    var t := s.spaces[j];
    UserPartFrames(t, s.kernel.e);
    assert HoldsSpace(m, s, j);
    forall f | f in Frames(t) && f in m ensures f in m' && m'[f] == m[f] {
      OutsideWrites(s, op, j, f);
    }
    HoldsFrame(m, m', UserPart(t, s.kernel.e));
  }

  /** Nor does a step write to the page of a process, unless it stores through it,
      gives it up or has it loaded. */
  lemma PageUndisturbed(s: Sys, m: Memory, op: Op, m': Memory, j: nat, q: Path)
    requires Inv(s) && Enabled(s, op) && !OverTables(op) && MemStep(s, m, op, m')
    requires PresentPage(s, j, q) && !Affects(op, j, q) && At4(s, j, q).frame in m
    ensures At4(s, j, q).frame in m' && m'[At4(s, j, q).frame] == m[At4(s, j, q).frame]
  {
    hide Inv, Separate, Frames, SlotFrames, Lookup, Total, Free, ChildOf, Taken, Holds, Step;
    var f := At4(s, j, q).frame;
    MappedReferenced(s, j, q);
    match op {
      case Faulting(a, fs) => NoPageIsTable(s, j, q, a.space); NotTaken(s, fs, f);
      case Loading(i, _, _, _, fs) => NoPageIsTable(s, j, q, i); NotTaken(s, fs, f);
      case Forking(i, _, fs) => NoPageIsTable(s, j, q, i); NotTaken(s, fs, f);
      case Sharing(i, _) => NoPageIsTable(s, j, q, i);
      case Releasing(i, _) => NoPageIsTable(s, j, q, i);
      case Taking(fs) => NotTaken(s, fs, f);
      case Execing(fs) => NotTaken(s, fs, f);
      case StoreByte(a, _, _) =>
        if At4(s, a.space, a.path).frame == f {
          WritableAlone(s, a.space, a.path, j, q);
        }
      case Mapping(_, _, _) =>
      case KernelMapping(_, _) =>
      case Unmapping(_, _) =>
    }
  }

  lemma NotTaken(s: Sys, fs: seq<Frame>, f: Frame)
    requires Free(s, fs) && f in s.desc && s.desc[f].refcount >= 1
    ensures f !in Taken(fs, |fs|)
  {
  }

  // ---------- runs in memory ----------

  /** `ms` are the memories between the steps of the run. */
  ghost predicate MemRuns(s: Sys, ops: seq<Op>, ms: seq<Memory>)
    requires Inv(s) && Runs(s, ops)
    decreases ops
  {
    && |ms| == |ops| + 1
    && (ops != [] ==>
          && MemStep(s, ms[0], ops[0], ms[1])
          && (StepInv(s, ops[0]); MemRuns(Step(s, ops[0]), ops[1..], ms[1..])))
  }

  /** In every state of every run one memory holds the trees of all processes. */
  lemma {:induction false} RunInMemory(s: Sys, ops: seq<Op>, ms: seq<Memory>)
    requires Inv(s) && Runs(s, ops) && MemRuns(s, ops, ms) && InMemory(ms[0], s)
    ensures InMemory(ms[|ops|], Run(s, ops))
    decreases ops
  {
    hide Inv, Enabled, Breaks, Step, InMemory, MemStep, Halts;
    if ops != [] {
      StepInv(s, ops[0]);
      NotOverTables(s, ops[0]);
      StepInMemory(s, ms[0], ops[0], ms[1]);
      RunInMemory(Step(s, ops[0]), ops[1..], ms[1..]);
    }
  }
}
