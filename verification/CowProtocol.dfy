/** Runs of the copy-on-write protocol: whatever faults, forks, stores and
    releases follow one another, every address space behaves like a private
    memory. */
module CowProtocol {
  import opened PageBits
  import opened PageTree
  import opened PageStore
  import opened PageFork
  import opened PageForkStore
  import opened PageForkRoot
  import opened SpaceTables
  import opened CowMemory
  import opened CowFaults

  // ---------- steps ----------

  /** What can happen next: an access the processor refuses, a store it lets through,
      a fork, what a fork does to one page and the pages it takes before it gives up,
      the release of a page, a page more or less in a region of a process or more in one
      of the kernel's, the empty address space that exec switches to, and a page mapped
      by the loader or for the kernel. mmap and the loader take any address. */
  datatype Op =
    | Faulting(a: Access, fs: seq<Frame>)
    | StoreByte(a: Access, offset: nat, value: bv8)
    | Forking(parent: nat, child: Table, fs: seq<Frame>)
    | Sharing(space: nat, path: Path)
    | Taking(fs: seq<Frame>)
    | Releasing(space: nat, path: Path)
    | Mapping(space: nat, path: Path, prot: Prot)
    | KernelMapping(path: Path, prot: Prot)
    | Unmapping(space: nat, path: Path)
    | Execing(fs: seq<Frame>)
    | Loading(space: nat, path: Path, prot: Prot, contents: Data, fs: seq<Frame>)

  ghost predicate PresentPage(s: Sys, i: nat, path: Path) {
    i < |s.spaces| && UserPath(path) && At4(s, i, path).present
  }

  ghost predicate Enabled(s: Sys, op: Op) {
    match op
    case Faulting(a, fs) => CanHandle(s, a, fs) && !Allowed(Translated(s, a.space, a.path), a)
    case StoreByte(a, offset, _) =>
      && PresentPage(s, a.space, a.path) && a.write && Allowed(At4(s, a.space, a.path), a)
      && At4(s, a.space, a.path).frame in s.data
      && offset < |s.data[At4(s, a.space, a.path).frame]|
    case Forking(i, c, fs) => CanForkSpace(s, i, c, fs)
    case Sharing(i, path) => PresentPage(s, i, path)
    case Taking(fs) => Free(s, fs)
    case Releasing(i, path) => PresentPage(s, i, path)
    case Mapping(i, path, prot) => i < |s.vma| && |path| == 4 && path !in s.vma[i] && prot.user
    case KernelMapping(path, prot) => InKernel(path) && path !in s.kvma && !prot.user
    case Unmapping(i, path) => i < |s.vma| && path in s.vma[i]
    case Execing(fs) => Free(s, fs) && fs != []
    case Loading(i, path, prot, _, fs) => Placed(s, i, path) && Free(s, fs) && Lacking(s, i, path) < |fs|
  }

  ghost function Stored(s: Sys, f: Frame, offset: nat, value: bv8): Sys
    requires f in s.data && offset < |s.data[f]|
  {
    s.(data := s.data[f := s.data[f][offset := value]])
  }

  ghost function Execed(s: Sys, fs: seq<Frame>): Sys
    requires fs != []
  {
    s.(spaces := s.spaces + [EmptyRoot(fs[0])], vma := s.vma + [map[]],
       desc := Claimed(s.desc, fs, 1), owned := s.owned + {fs[0]})
  }

  function MappedRegion(s: Sys, i: nat, path: Path, prot: Prot): Sys
    requires i < |s.vma|
  {
    s.(vma := s.vma[i := s.vma[i][path := prot]])
  }

  function Unmapped(s: Sys, i: nat, path: Path): Sys
    requires i < |s.vma|
  {
    s.(vma := s.vma[i := s.vma[i] - {path}])
  }

  /** A page mapped and filled at once. */
  ghost function Loaded(s: Sys, i: nat, path: Path, prot: Prot, contents: Data, fs: seq<Frame>): Sys
    requires Placed(s, i, path) && Supply(fs, {}) && Lacking(s, i, path) < |fs|
  {
    Demand(s.(data := s.data[fs[0] := contents]), i, path, prot, fs)
  }

  ghost function Step(s: Sys, op: Op): Sys
    requires Inv(s) && Enabled(s, op)
  {
    match op
    case Faulting(a, fs) => Handle(s, a, fs).0
    case StoreByte(a, offset, value) => Stored(s, At4(s, a.space, a.path).frame, offset, value)
    case Forking(i, c, fs) => Fork(s, i, c, fs)
    case Sharing(i, path) =>
      ShareInv(s, i, path);
      Share(s, i, path)
    case Taking(fs) => Take(s, fs)
    case Releasing(i, path) =>
      ReleaseInv(s, i, path);
      Release(s, i, path)
    case Mapping(i, path, prot) => MappedRegion(s, i, path, prot)
    case KernelMapping(path, prot) => s.(kvma := s.kvma[path := prot])
    case Unmapping(i, path) => Unmapped(s, i, path)
    case Execing(fs) => Execed(s, fs)
    case Loading(i, path, prot, contents, fs) => Loaded(s, i, path, prot, contents, fs)
  }

  /** A page is mapped for those it may be for, and not over the window or over another
      page of the map of physical memory. */
  ghost predicate LoadFits(s: Sys, path: Path, prot: Prot, fs: seq<Frame>)
    requires fs != []
  {
    Mappable(path) && prot.user == UserPath(path) && (path in s.direct ==> s.direct[path] == fs[0])
  }

  /** The steps after which the state is not in order: faults that rob a frame or grant a
      shared one, a region of a process that is neither at user addresses nor where the
      kernel's regions are, and a page mapped for others than it may be for. */
  ghost predicate Breaks(s: Sys, op: Op)
    requires Enabled(s, op)
  {
    match op
    case Faulting(a, fs) => Robs(s, a, fs) || Grants(s, a, fs)
    case Mapping(_, path, _) => !UserPath(path) && !InKernel(path)
    case Loading(_, path, prot, _, fs) => !LoadFits(s, path, prot, fs)
    case _ => false
  }

  /** The step after which nothing happens any more. */
  ghost predicate Halts(s: Sys, op: Op)
    requires Enabled(s, op)
  {
    op.Faulting? && Handle(s, op.a, op.fs).1 == Halted
  }

  /** Contents and regions are no part of what pages and frames have to agree on. */
  lemma OutsideInv(s: Sys, s': Sys)
    requires Inv(s) && s' == s.(data := s'.data, vma := s'.vma, kvma := s'.kvma)
    requires s'.data.Keys == s.data.Keys && |s'.vma| == |s.vma| && Regions(s')
    ensures Inv(s')
  {
    hide WellFormed, Total, Lookup, IsFrame, TablesOk, Regions;
    forall g | g in s'.desc
      ensures FrameOk(s', g)
    {
      assert FrameOk(s, g);
    }
    forall j: nat, q: Path | j < |s'.spaces| && UserPath(q)
      ensures PageOk(s', j, q)
    {
      assert PageOk(s, j, q);
    }
    forall q: Path | KernelPath(q)
      ensures KernelPageOk(s', q)
    {
      assert KernelPageOk(s, q);
    }
  }

  lemma InvRegions(s: Sys)
    requires Inv(s)
    ensures Regions(s) && |s.vma| == |s.spaces| && s.data.Keys == s.desc.Keys
  {
  }

  /** A process may have a region at user addresses, and at addresses that are looked up
      in the kernel's regions, where it has no effect; not over the window, and not in
      slot 511 below the kernel's. */
  lemma MappingInv(s: Sys, i: nat, path: Path, prot: Prot)
    requires Inv(s) && Enabled(s, Mapping(i, path, prot))
    ensures Inv(MappedRegion(s, i, path, prot)) <==> UserPath(path) || InKernel(path)
  {
    hide Inv, Regions;
    InvRegions(s);
    MappedRegions(s, i, path, prot);
    if UserPath(path) || InKernel(path) {
      OutsideInv(s, MappedRegion(s, i, path, prot));
    } else if Inv(MappedRegion(s, i, path, prot)) {
      InvRegions(MappedRegion(s, i, path, prot));
    }
  }

  lemma MappedRegions(s: Sys, i: nat, path: Path, prot: Prot)
    requires Regions(s) && i < |s.vma| && prot.user
    ensures Regions(MappedRegion(s, i, path, prot)) <==> UserPath(path) || InKernel(path)
  {
    var s' := MappedRegion(s, i, path, prot);
    assert path in s'.vma[i];
    if UserPath(path) || InKernel(path) {
      forall j: nat, q: Path | j < |s'.vma| && q in s'.vma[j]
        ensures RegionFits(q, s'.vma[j][q])
      {
        assert q != path ==> q in s.vma[j];
      }
    }
  }

  lemma KernelMappingInv(s: Sys, path: Path, prot: Prot)
    requires Inv(s) && InKernel(path) && !prot.user
    ensures Inv(s.(kvma := s.kvma[path := prot]))
  {
    hide Inv;
    InvRegions(s);
    var s' := s.(kvma := s.kvma[path := prot]);
    assert s'.vma == s.vma && s'.direct == s.direct;
    OutsideInv(s, s');
  }

  lemma UnmappedInv(s: Sys, i: nat, path: Path)
    requires Inv(s) && i < |s.vma|
    ensures Inv(Unmapped(s, i, path))
  {
    hide Inv, Regions;
    InvRegions(s);
    UnmappedRegions(s, i, path);
    OutsideInv(s, Unmapped(s, i, path));
  }

  lemma UnmappedRegions(s: Sys, i: nat, path: Path)
    requires Regions(s) && i < |s.vma|
    ensures Regions(Unmapped(s, i, path))
  {
    var s' := Unmapped(s, i, path);
    forall j: nat, q: Path | j < |s'.vma| && q in s'.vma[j]
      ensures RegionFits(q, s'.vma[j][q])
    {
      assert q in s.vma[j];
    }
    assert s'.kvma == s.kvma && s'.direct == s.direct;
  }

  lemma SameRegions(s: Sys, s': Sys)
    requires Regions(s) && s'.kvma == s.kvma && s'.direct == s.direct
    requires s'.vma == s.vma || s'.vma == s.vma + [map[]]
    ensures Regions(s')
  {
    forall j: nat, q: Path | j < |s'.vma| && q in s'.vma[j]
      ensures RegionFits(q, s'.vma[j][q])
    {
      assert q in s.vma[j];
    }
  }

  lemma DataInv(s: Sys, data: map<Frame, Data>)
    requires Inv(s) && data.Keys == s.data.Keys
    ensures Inv(s.(data := data))
  {
    hide Inv, Regions;
    InvRegions(s);
    SameRegions(s, s.(data := data));
    OutsideInv(s, s.(data := data));
  }

  lemma StoredInv(s: Sys, f: Frame, offset: nat, value: bv8)
    requires Inv(s) && f in s.data && offset < |s.data[f]|
    ensures Inv(Stored(s, f, offset, value))
  {
    hide Inv;
    var data := s.data[f := s.data[f][offset := value]];
    assert data.Keys == s.data.Keys;
    DataInv(s, data);
  }

  /** A page may be mapped eagerly for those it may be for, and for nobody else. */
  lemma LoadedInv(s: Sys, i: nat, path: Path, prot: Prot, contents: Data, fs: seq<Frame>)
    requires Inv(s) && Enabled(s, Loading(i, path, prot, contents, fs))
    ensures Inv(s.(data := s.data[fs[0] := contents]))
    ensures Enabled(s.(data := s.data[fs[0] := contents]), Loading(i, path, prot, contents, fs))
    ensures Inv(Loaded(s, i, path, prot, contents, fs)) <==> LoadFits(s, path, prot, fs)
  {
    hide Inv, Missing, Gap, WellFormed, Regions, Demand, Lookup;
    InvRegions(s);
    var data := s.data[fs[0] := contents];
    assert data.Keys == s.data.Keys;
    DataInv(s, data);
    var s1 := s.(data := data);
    assert Free(s1, fs);
    hide Free;
    if LoadFits(s, path, prot, fs) {
      DemandInv(s1, i, path, prot, fs);
    } else if Mappable(path) {
      MisplacedBreaks(s1, i, path, prot, fs);
    } else {
      WindowBreaks(s1, i, path, prot, fs);
    }
  }

  lemma RootCount(f: Frame, g: Frame)
    ensures Count(EmptyRoot(f).slots, 4, g) == 0
  {
    hide Count;
    var t := Empty(f);
    CountAbsent(t.slots, 4, g);
    CountSwap(t.slots, 4, g, SELF_REF, Entry(SelfPte(f)));
  }

  lemma ExecedFacts(s: Sys, fs: seq<Frame>)
    requires Inv(s) && Free(s, fs) && fs != []
    ensures var s' := Execed(s, fs);
            && TablesOk(s'.spaces, s'.kernel, s'.owned) && Shapes(s')
            && (forall q: Path :: UserPath(q) ==> At4(s', |s.spaces|, q) == ABSENT)
            && (forall f :: Total(s'.spaces, f) == Total(s.spaces, f))
            && (forall f :: f in s.desc ==>
                  f in s'.desc && s'.desc[f] == if f == fs[0] then s.desc[f].(refcount := s.desc[f].refcount + 1) else s.desc[f])
  {
    hide Separate, Total, Lookup, Count, FrameOk, PageOk, KernelPageOk, Regions, EmptyRoot, Frames;
    FreeUnowned(s, fs);
    EmptyRootSpace(fs[0]);
    AddTables(s.spaces, s.kernel, s.owned, EmptyRoot(fs[0]), {fs[0]});
    assert Taken(fs, 1) == {fs[0]};
    forall f ensures Total(s.spaces + [EmptyRoot(fs[0])], f) == Total(s.spaces, f) {
      TotalLast(s.spaces, EmptyRoot(fs[0]), f);
      RootCount(fs[0], f);
    }
  }

  lemma ExecedFrames(s: Sys, fs: seq<Frame>)
    requires Inv(s) && Free(s, fs) && fs != []
    ensures var s' := Execed(s, fs); s'.desc.Keys == s.desc.Keys && forall g :: g in s'.desc ==> FrameOk(s', g)
  {
    hide WellFormed, Total, Lookup, IsFrame, Count, TablesOk, EmptyRoot, PageOk, KernelPageOk, Regions;
    var s' := Execed(s, fs);
    ExecedFacts(s, fs);
    FreeFrame(s, fs, 0);
    forall g | g in s'.desc
      ensures FrameOk(s', g)
    {
      assert FrameOk(s, g);
    }
  }

  lemma ExecedInv(s: Sys, fs: seq<Frame>)
    requires Inv(s) && Free(s, fs) && fs != []
    ensures Inv(Execed(s, fs))
  {
    hide WellFormed, Total, Lookup, IsFrame, Count, TablesOk, EmptyRoot, Claimed, FrameOk, Regions;
    var s' := Execed(s, fs);
    SameRegions(s, s');
    ExecedFacts(s, fs);
    FreeFrame(s, fs, 0);
    ExecedFrames(s, fs);
    forall j: nat, q: Path | j < |s'.spaces| && UserPath(q)
      ensures PageOk(s', j, q)
    {
      if j < |s.spaces| {
        assert PageOk(s, j, q);
        if At4(s, j, q).present {
          MappedReferenced(s, j, q);
        }
      }
    }
    forall q: Path | KernelPath(q)
      ensures KernelPageOk(s', q)
    {
      assert KernelPageOk(s, q);
    }
  }

  /** Every step leaves the state in order, except exactly those. */
  lemma StepInv(s: Sys, op: Op)
    requires Inv(s) && Enabled(s, op)
    ensures Inv(Step(s, op)) <==> !Breaks(s, op)
  {
    hide Inv, Handle, Fork, Release, Share, Take, Execed, Unmapped, MappedRegion, Stored, Loaded;
    match op
    case Faulting(a, fs) => HandleInv(s, a, fs);
    case StoreByte(a, offset, value) => StoredInv(s, At4(s, a.space, a.path).frame, offset, value);
    case Forking(i, c, fs) => ForkInv(s, i, c, fs);
    case Sharing(i, path) => ShareInv(s, i, path);
    case Taking(fs) => TakeInv(s, fs);
    case Releasing(i, path) => ReleaseInv(s, i, path);
    case Mapping(i, path, prot) => MappingInv(s, i, path, prot);
    case KernelMapping(path, prot) => KernelMappingInv(s, path, prot);
    case Unmapping(i, path) => UnmappedInv(s, i, path);
    case Execing(fs) => ExecedInv(s, fs);
    case Loading(i, path, prot, contents, fs) => LoadedInv(s, i, path, prot, contents, fs);
  }

  // ---------- runs ----------

  /** Runs without a breaking step; after a halt there are no more steps. */
  ghost predicate Runs(s: Sys, ops: seq<Op>)
    requires Inv(s)
    decreases ops
  {
    ops != [] ==>
      && Enabled(s, ops[0]) && !Breaks(s, ops[0]) && (Halts(s, ops[0]) ==> |ops| == 1)
      && (StepInv(s, ops[0]); Runs(Step(s, ops[0]), ops[1..]))
  }

  ghost function Run(s: Sys, ops: seq<Op>): Sys
    requires Inv(s) && Runs(s, ops)
    decreases ops
  {
    if ops == [] then s else
      StepInv(s, ops[0]);
      Run(Step(s, ops[0]), ops[1..])
  }

  /** Every state of every run satisfies the invariant. */
  lemma {:induction false} RunInv(s: Sys, ops: seq<Op>)
    requires Inv(s) && Runs(s, ops)
    ensures Inv(Run(s, ops))
    decreases ops
  {
    hide Inv, Enabled, Step, Breaks, Halts;
    if ops != [] {
      StepInv(s, ops[0]);
      RunInv(Step(s, ops[0]), ops[1..]);
    }
  }

  /** Before the first process there are no address spaces, only the frames the
      kernel owns have references, and the kernel has its tables and regions. */
  ghost predicate Boot(s: Sys) {
    && s.spaces == [] && s.vma == [] && s.data.Keys == s.desc.Keys
    && (forall f :: f in s.desc ==> IsFrame(f) && (f in s.owned <==> s.desc[f].refcount >= 1))
    && KernelOk(s.kernel) && SlotFrames(s.kernel) <= s.owned
    && Regions(s) && (forall path: Path :: KernelPath(path) ==> KernelPageOk(s, path))
  }

  lemma BootInv(s: Sys)
    requires Boot(s)
    ensures Inv(s) && Exact(s) && RegionsKept(s)
  {
    hide KernelPageOk, Regions, Lookup;
  }

  /** In every run from boot: a frame that some page may write is mapped by that
      page alone, each page has a reference, and a frame with two or more references
      is flagged. */
  lemma CowSafety(s: Sys, ops: seq<Op>, i: nat, p: Path, j: nat, q: Path)
    requires Boot(s) && (BootInv(s); Runs(s, ops))
    requires var z := (BootInv(s); Run(s, ops));
      PresentPage(z, i, p) && PresentPage(z, j, q) && At4(z, i, p).frame == At4(z, j, q).frame
    ensures var z := (BootInv(s); Run(s, ops));
      && (At4(z, i, p).write ==> i == j && p == q)
      && At4(z, i, p).frame in z.desc
      && z.desc[At4(z, i, p).frame].refcount >= Total(z.spaces, At4(z, i, p).frame)
      && (z.desc[At4(z, i, p).frame].refcount >= 2 ==> z.desc[At4(z, i, p).frame].cow)
  {
    BootInv(s);
    RunInv(s, ops);
    hide Runs, Run, Boot, Lookup, Total, Inv, IsFrame;
    var z := Run(s, ops);
    InvParts(z, i, p);
    assert FrameOk(z, At4(z, i, p).frame);
    if At4(z, i, p).write {
      WritableAlone(z, i, p, j, q);
    }
  }

  // ---------- isolation ----------

  /** A store reaches the page it is made through, no other page of any process, and
      no translation table. */
  lemma StoreView(s: Sys, a: Access, offset: nat, value: bv8, j: nat, q: Path)
    requires Inv(s) && Enabled(s, StoreByte(a, offset, value)) && j < |s.spaces| && UserPath(q)
    ensures View(Step(s, StoreByte(a, offset, value)), j, q) ==
      if j == a.space && q == a.path
      then Some(s.data[At4(s, j, q).frame][offset := value]) else View(s, j, q)
    ensures At4(s, a.space, a.path).frame !in Frames(s.spaces[j]) + SlotFrames(s.kernel)
  {
    hide Inv, Lookup, Total, Frames, SlotFrames;
    NoPageIsTable(s, a.space, a.path, j);
    var f := At4(s, a.space, a.path).frame;
    if At4(s, j, q).present && At4(s, j, q).frame == f {
      WritableAlone(s, a.space, a.path, j, q);
    }
  }

  /** A fork shows the child what the parent sees, and changes nothing for anyone. */
  lemma ForkView(s: Sys, i: nat, c: Table, fs: seq<Frame>, j: nat, q: Path)
    requires CanForkSpace(s, i, c, fs) && j <= |s.spaces| && UserPath(q)
    ensures View(Fork(s, i, c, fs), j, q) == View(s, if j == |s.spaces| then i else j, q)
  {
    hide WellFormed, Lookup, Total, FrameOk, PageOk, Tables, ForkDesc, Taken, ChildOf;
    ForkFacts(s, i, c, fs);
  }

  lemma ReleaseView(s: Sys, i: nat, path: Path, j: nat, q: Path)
    requires Inv(s) && PresentPage(s, i, path) && j < |s.spaces| && UserPath(q)
    ensures (ReleaseInv(s, i, path); View(Release(s, i, path), j, q) == if j == i && q == path then None else View(s, j, q))
  {
    hide Inv, Lookup, Total, MapPage, Missing, WellFormed;
    ReleaseInv(s, i, path);
    EntryFacts(s, i, path, At4(s, i, path).(present := false, rest := 0));
  }

  lemma ShareView(s: Sys, i: nat, path: Path, j: nat, q: Path)
    requires Inv(s) && PresentPage(s, i, path) && j < |s.spaces| && UserPath(q)
    ensures (ShareInv(s, i, path); View(Share(s, i, path), j, q) == View(s, j, q))
  {
    hide Inv, Lookup, Total, MapPage, Missing, WellFormed;
    ShareInv(s, i, path);
    EntryFacts(s, i, path, Dim(At4(s, i, path)));
  }

  /** A page loaded shows what was loaded, and nothing else changes. */
  lemma LoadedView(s: Sys, i: nat, path: Path, prot: Prot, contents: Data, fs: seq<Frame>, j: nat, q: Path)
    requires CanDemand(s, i, path, fs) && j < |s.spaces| && UserPath(q)
    ensures j < |Loaded(s, i, path, prot, contents, fs).spaces|
    ensures View(Loaded(s, i, path, prot, contents, fs), j, q) ==
      if j == i && q == path then Some(contents) else View(s, j, q)
  {
    hide Lookup, Missing, WellFormed, Total, Count, IsFrame, Taken, FrameOk, PageOk, Demand, TablesOk;
    DemandFacts(s.(data := s.data[fs[0] := contents]), i, path, prot, fs);
    if At4(s, j, q).present {
      MappedReferenced(s, j, q);
    }
  }

  /** The operation stores into this page, gives it up or loads it. */
  predicate Affects(op: Op, j: nat, q: Path) {
    match op
    case StoreByte(a, _, _) => a.space == j && a.path == q
    case Releasing(i, path) => i == j && path == q
    case Loading(i, path, _, _, _) => i == j && path == q
    case _ => false
  }

  /** The loader overwrites a table entry through the window. */
  predicate OverTables(op: Op) { op.Loading? && Window(op.path) }

  lemma NotOverTables(s: Sys, op: Op)
    requires Enabled(s, op) && !Breaks(s, op)
    ensures !OverTables(op)
  {
  }

  /** Any other step leaves alone every page present that it does not store into, release
      or load; even a step that breaks the invariant does. */
  lemma StepView(s: Sys, op: Op, j: nat, q: Path)
    requires Inv(s) && Enabled(s, op) && PresentPage(s, j, q) && !Affects(op, j, q) && !OverTables(op)
    ensures PresentPage(Step(s, op), j, q) && View(Step(s, op), j, q) == View(s, j, q)
  {
    PresentSeen(s, j, q);
    hide Inv, Lookup, Total, Handle, Fork, Release, Share, Loaded, CanForkSpace, Free, View, Supply, Taken, Missing, Gap, At4;
    match op {
    case Faulting(a, fs) => HandleView(s, a, fs, j, q);
    case StoreByte(a, offset, value) => StoreView(s, a, offset, value, j, q);
    case Forking(i, c, fs) => ForkView(s, i, c, fs, j, q);
    case Sharing(i, path) => ShareView(s, i, path, j, q);
    case Releasing(i, path) => ReleaseView(s, i, path, j, q);
    case Loading(i, path, prot, contents, fs) => LoadedView(s, i, path, prot, contents, fs, j, q);
    case _ => QuietView(s, op, j, q);
    }
    ViewPresent(Step(s, op), j, q);
  }

  lemma ViewPresent(s: Sys, j: nat, q: Path)
    requires View(s, j, q).Some? && UserPath(q)
    ensures PresentPage(s, j, q)
  {
  }

  lemma QuietView(s: Sys, op: Op, j: nat, q: Path)
    requires Inv(s) && Enabled(s, op) && j < |s.spaces| && UserPath(q)
    requires op.Taking? || op.Mapping? || op.KernelMapping? || op.Unmapping? || op.Execing?
    ensures View(Step(s, op), j, q) == View(s, j, q)
  {
    hide Inv, Lookup, Free, Taken, Claimed;
  }

  lemma PresentSeen(s: Sys, j: nat, q: Path)
    requires Inv(s) && PresentPage(s, j, q)
    ensures View(s, j, q).Some?
  {
    hide Lookup, Total, FrameOk, Shapes, TablesOk, Regions;
    assert PageOk(s, j, q);
  }

  /** Isolation over whole runs: whatever any process does, what a process sees in
      a page stays until it stores into that page itself, gives it up or has it
      loaded. */
  lemma {:induction false} RunKeepsPage(s: Sys, ops: seq<Op>, j: nat, q: Path)
    requires Inv(s) && Runs(s, ops) && PresentPage(s, j, q)
    requires forall k :: 0 <= k < |ops| ==> !Affects(ops[k], j, q)
    ensures View(Run(s, ops), j, q) == View(s, j, q)
    decreases ops
  {
    hide Inv, Enabled, Step, View, PresentPage, Breaks, Halts;
    if ops != [] {
      StepInv(s, ops[0]);
      assert !Affects(ops[0], j, q);
      NotOverTables(s, ops[0]);
      StepView(s, ops[0], j, q);
      RunKeepsPage(Step(s, ops[0]), ops[1..], j, q);
    }
  }

  /** So a child keeps the parent's memory as of the fork, whatever the parent
      writes, until it writes itself; and the other way round. */
  lemma ForkThenRun(s: Sys, i: nat, c: Table, fs: seq<Frame>, ops: seq<Op>, j: nat, q: Path)
    requires CanForkSpace(s, i, c, fs) && (ForkInv(s, i, c, fs); Runs(Fork(s, i, c, fs), ops))
    requires (j == i || j == |s.spaces|) && UserPath(q) && At4(s, i, q).present
    requires forall k :: 0 <= k < |ops| ==> !Affects(ops[k], j, q)
    ensures (ForkInv(s, i, c, fs); View(Run(Fork(s, i, c, fs), ops), j, q) == View(s, i, q))
  {
    ForkInv(s, i, c, fs);
    hide Runs, Run, WellFormed, Lookup, Total, Tables, ForkDesc, Taken, FrameOk;
    ForkFacts(s, i, c, fs);
    ForkView(s, i, c, fs, j, q);
    RunKeepsPage(Fork(s, i, c, fs), ops, j, q);
  }

  /** The state after a store through a page and the release of that page. */
  ghost function StoredAndReleased(s: Sys, a: Access, offset: nat, value: bv8): Sys
    requires Inv(s) && Enabled(s, StoreByte(a, offset, value))
  {
    StepInv(s, StoreByte(a, offset, value));
    Step(Step(s, StoreByte(a, offset, value)), Releasing(a.space, a.path))
  }

  /** What isolation does not cover: a byte stored through a page of one process shows
      in a page that another one gets later, if the frame was released in between
      and not written since. The new page shows nothing else. */
  lemma LeftoverSeen(s: Sys, a: Access, offset: nat, value: bv8, b: Access, fs: seq<Frame>)
    requires Inv(s) && Enabled(s, StoreByte(a, offset, value))
    requires var s2 := StoredAndReleased(s, a, offset, value);
             && Enabled(s2, Faulting(b, fs)) && !At4(s2, b.space, b.path).present && Region(s2, b).Some?
             && fs != [] && fs[0] == At4(s, a.space, a.path).frame
    ensures var s2 := StoredAndReleased(s, a, offset, value);
            var seen := View(Handle(s2, b, fs).0, b.space, b.path);
            seen == Some(s.data[fs[0]][offset := value]) && offset < |seen.value| && seen.value[offset] == value
  {
    hide WellFormed, Lookup, Total, FrameOk, PageOk, TablesOk, Demand, Missing, View;
    var s2 := StoredAndReleased(s, a, offset, value);
    assert s2.data == s.data[fs[0] := s.data[fs[0]][offset := value]];
    hide Inv;
    RegionFacts(s2, b);
    DemandShows(s2, b.space, b.path, Region(s2, b).value, fs);
  }
}
