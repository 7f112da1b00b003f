/** What else runs keep: reference counts that are exact, and pages that stay within
    their regions; and which steps exactly do not keep them. */
module CowCounts {
  import opened PageBits
  import opened PageTree
  import opened PageStore
  import opened PageFork
  import opened PageForkStore
  import opened PageForkRoot
  import opened CowMemory
  import opened CowFaults
  import opened CowProtocol

  // ---------- exact counts ----------

  /** The steps that leave a reference without a page: a fork that gives up half way,
      and a page mapped over one that is there. */
  ghost predicate Leaks(s: Sys, op: Op)
    requires Enabled(s, op)
  {
    op.Sharing? || (op.Loading? && PresentPage(s, op.space, op.path))
  }

  lemma ExactAt(s: Sys, f: Frame)
    requires Exact(s) && f in s.desc && f !in s.owned
    ensures s.desc[f].refcount == Total(s.spaces, f)
  {
  }

  lemma DemandExact(s: Sys, i: nat, path: Path, prot: Prot, fs: seq<Frame>)
    requires CanDemand(s, i, path, fs) && Exact(s)
    ensures Exact(Demand(s, i, path, prot, fs)) <==> !PresentPage(s, i, path)
  {
    hide Lookup, Missing, WellFormed, Total, Taken, Demand, Inv, Exact;
    var s', n := Demand(s, i, path, prot, fs), Lacking(s, i, path);
    InvShapes(s);
    DemandFacts(s, i, path, prot, fs);
    if PresentPage(s, i, path) {
      var f := At4(s, i, path).frame;
      MappedReferenced(s, i, path);
      ExactAt(s, f);
      if f in Taken(fs, n + 1) {
        TakenFree(s, fs, n + 1, f);
      }
      NotExact(s', f);
    } else {
      forall f | f in s'.desc && f !in s'.owned
        ensures s'.desc[f].refcount == Total(s'.spaces, f)
      {
        if f in Taken(fs, n + 1) {
          TakenFree(s, fs, n + 1, f);
        }
        ExactAt(s, f);
      }
      ExactAll(s');
    }
  }

  lemma InvShapes(s: Sys)
    requires Inv(s)
    ensures Shapes(s)
  {
  }

  lemma NotExact(s: Sys, f: Frame)
    requires f in s.desc && f !in s.owned && s.desc[f].refcount != Total(s.spaces, f)
    ensures !Exact(s)
  {
  }

  lemma ExactAll(s: Sys)
    requires forall f :: f in s.desc && f !in s.owned ==> s.desc[f].refcount == Total(s.spaces, f)
    ensures Exact(s)
  {
  }

  lemma CopyExact(s: Sys, i: nat, path: Path, prot: Prot, fs: seq<Frame>)
    requires CanCopy(s, i, path, fs) && Exact(s)
    requires KernelPath(path) ==> !TakesReference(s, At4(s, i, path).frame)
    ensures Exact(Copy(s, i, path, prot, fs))
  {
    hide Lookup, Missing, WellFormed, Total, Taken, Copy, Inv, Exact;
    InvRegions(s);
    var s' := Copy(s, i, path, prot, fs);
    CopyFacts(s, i, path, prot, fs);
    FreeFrame(s, fs, 0);
    if UserPath(path) {
      MappedReferenced(s, i, path);
    }
    forall f | f in s'.desc && f !in s'.owned
      ensures s'.desc[f].refcount == Total(s'.spaces, f)
    {
      ExactAt(s, f);
    }
    ExactAll(s');
  }

  /** A page that keeps its frame keeps the counts. */
  lemma ProtectExact(s: Sys, i: nat, path: Path, prot: Prot)
    requires Addressed(s, i, path) && Shapes(s) && Lacking(s, i, path) == 0 && At4(s, i, path).present && Exact(s)
    ensures Exact(Protect(s, i, path, prot))
  {
    hide Lookup, Missing, WellFormed, Total, Protect;
    ProtectFacts(s, i, path, prot);
  }

  lemma UnflagExact(s: Sys, f: Frame)
    requires Exact(s) && f in s.desc
    ensures Exact(Unflag(s, f))
  {
    hide Total;
  }

  lemma LessExact(s: Sys, f: Frame)
    requires Exact(s) && f in s.desc && s.desc[f].refcount >= 1 && !TakesReference(s, f)
    ensures Exact(Less(s, f))
  {
    hide Total;
  }

  /** A fault that robs no frame keeps the counts exact. */
  lemma HandleExact(s: Sys, a: Access, fs: seq<Frame>)
    requires CanHandle(s, a, fs) && Exact(s) && !Robs(s, a, fs)
    ensures Exact(Handle(s, a, fs).0)
  {
    hide Lookup, Missing, Total, Inv, Demand, Copy, Protect, Free, Exact, Less, Unflag, TakesReference;
    if Region(s, a).Some? {
      var e, prot := At4(s, a.space, a.path), Region(s, a).value;
      RegionFacts(s, a);
      if !e.present {
        if fs != [] {
          DemandExact(s, a.space, a.path, prot, fs);
        }
      } else {
        PageFacts(s, a, fs);
        ProtectExact(s, a.space, a.path, prot);
        if CopiesShared(s, a, fs) {
          if fs == [] {
            LessExact(s, e.frame);
          } else {
            CopyExact(s, a.space, a.path, prot, fs);
          }
        } else if e.frame in s.desc {
          UnflagExact(s, e.frame);
          UnflagFacts(s, e.frame);
          ProtectExact(Unflag(s, e.frame), a.space, a.path, prot);
        }
      }
    }
  }

  lemma ReleaseExact(s: Sys, i: nat, path: Path)
    requires Inv(s) && PresentPage(s, i, path) && Exact(s)
    ensures (ReleaseInv(s, i, path); Exact(Release(s, i, path)))
  {
    hide Inv, Lookup, Total, MapPage, Missing, WellFormed;
    ReleaseInv(s, i, path);
    MappedReferenced(s, i, path);
    EntryFacts(s, i, path, At4(s, i, path).(present := false, rest := 0));
  }

  /** It leaves the frame of the page one reference too many, and no other frame. */
  lemma ShareInexact(s: Sys, i: nat, path: Path)
    requires Inv(s) && PresentPage(s, i, path) && Exact(s)
    ensures (ShareInv(s, i, path);
             var s' := Share(s, i, path);
             !Exact(s') && forall f :: f in s'.desc && f !in s'.owned ==>
               s'.desc[f].refcount == Total(s'.spaces, f) + if f == At4(s, i, path).frame then 1 else 0)
  {
    hide Inv, Lookup, Total, MapPage, Missing, WellFormed;
    ShareInv(s, i, path);
    MappedReferenced(s, i, path);
    EntryFacts(s, i, path, Dim(At4(s, i, path)));
    NotExact(Share(s, i, path), At4(s, i, path).frame);
  }

  lemma ForkExact(s: Sys, i: nat, c: Table, fs: seq<Frame>)
    requires CanForkSpace(s, i, c, fs) && Exact(s)
    ensures Exact(Fork(s, i, c, fs))
  {
    hide Inv, Lookup, Total, Count, Tables, Taken, ChildOf, Cleared;
    ForkFacts(s, i, c, fs);
  }

  lemma TakeExact(s: Sys, fs: seq<Frame>)
    requires Exact(s)
    ensures Exact(Take(s, fs))
  {
    hide Total, Taken;
  }

  lemma ExecExact(s: Sys, fs: seq<Frame>)
    requires Inv(s) && Free(s, fs) && fs != [] && Exact(s)
    ensures Exact(Execed(s, fs))
  {
    hide Inv, Lookup, Total, EmptyRoot, Claimed;
    ExecedFacts(s, fs);
    ExecedFrames(s, fs);
  }

  /** Counts that are exact stay exact in every step but exactly those two. */
  lemma StepExact(s: Sys, op: Op)
    requires Inv(s) && Exact(s) && Enabled(s, op) && !Breaks(s, op)
    ensures Exact(Step(s, op)) <==> !Leaks(s, op)
  {
    hide Inv, Handle, Fork, Release, Share, Take, Execed, Loaded, Lookup, Total;
    match op
    case Faulting(a, fs) => HandleExact(s, a, fs);
    case Forking(i, c, fs) => ForkExact(s, i, c, fs);
    case Sharing(i, path) => ShareInexact(s, i, path);
    case Taking(fs) => TakeExact(s, fs);
    case Releasing(i, path) => ReleaseExact(s, i, path);
    case Execing(fs) => ExecExact(s, fs);
    case Loading(i, path, prot, contents, fs) => LoadedExact(s, i, path, prot, contents, fs);
    case StoreByte(_, _, _) =>
    case Mapping(_, _, _) =>
    case KernelMapping(_, _) =>
    case Unmapping(_, _) =>
  }

  lemma LoadedExact(s: Sys, i: nat, path: Path, prot: Prot, contents: Data, fs: seq<Frame>)
    requires Inv(s) && Enabled(s, Loading(i, path, prot, contents, fs)) && LoadFits(s, path, prot, fs) && Exact(s)
    ensures Exact(Loaded(s, i, path, prot, contents, fs)) <==> !PresentPage(s, i, path)
  {
    hide Inv, Lookup, Total, Demand, Free, Missing, WellFormed;
    LoadedInv(s, i, path, prot, contents, fs);
    DemandExact(s.(data := s.data[fs[0] := contents]), i, path, prot, fs);
  }

  // ---------- pages in regions ----------

  /** The steps that leave a page outside its region, or with more than it allows: a
      region taken from a page that is there, and a page mapped where no region is or
      otherwise than it says. */
  ghost predicate Strays(s: Sys, op: Op)
    requires Inv(s) && Enabled(s, op)
  {
    match op
    case Unmapping(i, path) => PresentPage(s, i, path)
    case Loading(i, path, prot, _, _) =>
      UserPath(path) && !(path in s.vma[i] && prot.nx == s.vma[i][path].nx && (prot.write ==> s.vma[i][path].write))
    case _ => false
  }

  /** One page gets another entry, all others keep theirs. */
  lemma OneEntryRegions(s: Sys, s': Sys, i: nat, path: Path, e: Pte)
    requires RegionsKept(s) && |s'.spaces| == |s.spaces| && s'.vma == s.vma && i < |s.spaces|
    requires forall j: nat, q: Path :: j < |s.spaces| && Mappable(q) ==>
      At4(s', j, q) == if SamePage(i, path, j, q) then e else At4(s, j, q)
    ensures RegionsKept(s') <==> (UserPath(path) && e.present ==>
      path in s.vma[i] && e.nx == s.vma[i][path].nx && (e.write ==> s.vma[i][path].write))
  {
    hide Lookup, At4;
    if UserPath(path) && RegionsKept(s') {
      assert PageInRegion(s', i, path);
    }
    if UserPath(path) && e.present ==> path in s.vma[i] && e.nx == s.vma[i][path].nx && (e.write ==> s.vma[i][path].write) {
      forall j: nat, q: Path | j < |s'.spaces| && UserPath(q)
        ensures PageInRegion(s', j, q)
      {
        assert PageInRegion(s, j, q);
      }
    }
  }

  lemma DescRegions(s: Sys, desc: Descs)
    requires RegionsKept(s)
    ensures RegionsKept(s.(desc := desc))
  {
    hide Lookup;
    var s' := s.(desc := desc);
    forall j: nat, q: Path | j < |s'.spaces| && UserPath(q)
      ensures PageInRegion(s', j, q)
    {
      assert PageInRegion(s, j, q);
    }
  }

  lemma ProtectRegions(s: Sys, a: Access, prot: Prot)
    requires a.space < |s.spaces| == |s.vma| && Addressed(s, a.space, a.path) && Shapes(s) && Lacking(s, a.space, a.path) == 0
    requires RegionsKept(s) && At4(s, a.space, a.path).present && Region(s, a) == Some(prot)
    ensures RegionsKept(Protect(s, a.space, a.path, prot))
  {
    hide Lookup, Missing, WellFormed, Total, Protect, RegionsKept;
    ProtectFacts(s, a.space, a.path, prot);
    OneEntryRegions(s, Protect(s, a.space, a.path, prot), a.space, a.path, Leaf(At4(s, a.space, a.path).frame, prot));
  }

  /** Faults keep pages in their regions, whatever else they do. */
  lemma HandleRegions(s: Sys, a: Access, fs: seq<Frame>)
    requires CanHandle(s, a, fs) && RegionsKept(s)
    ensures RegionsKept(Handle(s, a, fs).0)
  {
    hide Lookup, Missing, Total, Inv, Demand, Copy, Protect, Free, RegionsKept;
    if Region(s, a).Some? {
      var i, path, e, prot := a.space, a.path, At4(s, a.space, a.path), Region(s, a).value;
      RegionFacts(s, a);
      if !e.present {
        if fs != [] {
          DemandFacts(s, i, path, prot, fs);
          OneEntryRegions(s, Demand(s, i, path, prot, fs), i, path, Leaf(fs[0], prot));
        }
      } else {
        PageFacts(s, a, fs);
        ProtectRegions(s, a, prot);
        if CopiesShared(s, a, fs) {
          if fs == [] {
            DescRegions(s, Less(s, e.frame).desc);
          } else {
            CopyFacts(s, i, path, prot, fs);
            OneEntryRegions(s, Copy(s, i, path, prot, fs), i, path, Leaf(fs[0], prot));
          }
        } else if e.frame in s.desc {
          DescRegions(s, Unflag(s, e.frame).desc);
          UnflagFacts(s, e.frame);
          ProtectRegions(Unflag(s, e.frame), a, prot);
        }
      }
    }
  }

  lemma ReleaseRegions(s: Sys, i: nat, path: Path)
    requires Inv(s) && PresentPage(s, i, path) && RegionsKept(s)
    ensures (ReleaseInv(s, i, path); RegionsKept(Release(s, i, path)))
  {
    hide Inv, Lookup, Total, MapPage, Missing, WellFormed, RegionsKept, At4;
    var e := At4(s, i, path).(present := false, rest := 0);
    ReleaseInv(s, i, path);
    EntryFacts(s, i, path, e);
    OneEntryRegions(s, MapPage(s, i, path, e, []), i, path, e);
    DescRegions(MapPage(s, i, path, e, []), Release(s, i, path).desc);
  }

  lemma KeptAt(s: Sys, i: nat, path: Path)
    requires RegionsKept(s) && i < |s.spaces| && UserPath(path)
    ensures |s.vma| == |s.spaces| && PageInRegion(s, i, path)
  {
  }

  lemma ShareRegions(s: Sys, i: nat, path: Path)
    requires Inv(s) && PresentPage(s, i, path) && RegionsKept(s)
    ensures (ShareInv(s, i, path); RegionsKept(Share(s, i, path)))
  {
    hide Inv, Lookup, Total, MapPage, Missing, WellFormed, RegionsKept, At4;
    KeptAt(s, i, path);
    ShareInv(s, i, path);
    EntryFacts(s, i, path, Dim(At4(s, i, path)));
    OneEntryRegions(s, MapPage(s, i, path, Dim(At4(s, i, path)), []), i, path, Dim(At4(s, i, path)));
    DescRegions(MapPage(s, i, path, Dim(At4(s, i, path)), []), Share(s, i, path).desc);
  }

  lemma ForkRegions(s: Sys, i: nat, c: Table, fs: seq<Frame>)
    requires CanForkSpace(s, i, c, fs) && RegionsKept(s)
    ensures RegionsKept(Fork(s, i, c, fs))
  {
    hide Inv, Lookup, Total, Count, Tables, Taken, ChildOf, Cleared, ForkDesc;
    ForkFacts(s, i, c, fs);
    var s' := Fork(s, i, c, fs);
    forall j: nat, q: Path | j < |s'.spaces| && UserPath(q)
      ensures PageInRegion(s', j, q)
    {
      assert PageInRegion(s, if j == |s.spaces| then i else j, q);
    }
  }

  lemma ExecRegions(s: Sys, fs: seq<Frame>)
    requires Inv(s) && Free(s, fs) && fs != [] && RegionsKept(s)
    ensures RegionsKept(Execed(s, fs))
  {
    hide Inv, Lookup, Total, EmptyRoot, Claimed;
    ExecedFacts(s, fs);
    var s' := Execed(s, fs);
    forall j: nat, q: Path | j < |s'.spaces| && UserPath(q)
      ensures PageInRegion(s', j, q)
    {
      if j < |s.spaces| {
        assert PageInRegion(s, j, q);
      }
    }
  }

  lemma LoadedRegions(s: Sys, i: nat, path: Path, prot: Prot, contents: Data, fs: seq<Frame>)
    requires Inv(s) && Enabled(s, Loading(i, path, prot, contents, fs)) && RegionsKept(s) && Mappable(path)
    ensures RegionsKept(Loaded(s, i, path, prot, contents, fs)) <==> !Strays(s, Loading(i, path, prot, contents, fs))
  {
    hide Inv, Lookup, Total, Demand, Missing, WellFormed, RegionsKept;
    InvShapes(s);
    var s1 := s.(data := s.data[fs[0] := contents]);
    DemandFacts(s1, i, path, prot, fs);
    OneEntryRegions(s, Loaded(s, i, path, prot, contents, fs), i, path, Leaf(fs[0], prot));
  }

  lemma MappingRegions(s: Sys, i: nat, path: Path, prot: Prot)
    requires Inv(s) && Enabled(s, Mapping(i, path, prot)) && RegionsKept(s)
    ensures RegionsKept(MappedRegion(s, i, path, prot))
  {
    hide Inv, Lookup;
    var s' := MappedRegion(s, i, path, prot);
    forall j: nat, q: Path | j < |s'.spaces| && UserPath(q)
      ensures PageInRegion(s', j, q)
    {
      assert PageInRegion(s, j, q);
    }
  }

  /** A page may leave its region exactly when it is not there; munmap does not look. */
  lemma UnmappingRegions(s: Sys, i: nat, path: Path)
    requires Inv(s) && Enabled(s, Unmapping(i, path)) && RegionsKept(s)
    ensures RegionsKept(Unmapped(s, i, path)) <==> !PresentPage(s, i, path)
  {
    hide Inv, Lookup;
    var s' := Unmapped(s, i, path);
    if PresentPage(s, i, path) {
      assert !PageInRegion(s', i, path);
    } else {
      forall j: nat, q: Path | j < |s'.spaces| && UserPath(q)
        ensures PageInRegion(s', j, q)
      {
        assert PageInRegion(s, j, q);
      }
    }
  }

  lemma QuietRegions(s: Sys, op: Op)
    requires Inv(s) && RegionsKept(s) && Enabled(s, op) && (op.StoreByte? || op.Taking? || op.KernelMapping?)
    ensures RegionsKept(Step(s, op))
  {
    hide Inv, Lookup, Claimed, Taken, Free;
    var s' := Step(s, op);
    forall j: nat, q: Path | j < |s'.spaces| && UserPath(q)
      ensures PageInRegion(s', j, q)
    {
      assert PageInRegion(s, j, q);
    }
  }

  /** Pages in their regions stay there in every step but exactly those two. */
  lemma StepRegions(s: Sys, op: Op)
    requires Inv(s) && RegionsKept(s) && Enabled(s, op) && !OverTables(op)
    ensures RegionsKept(Step(s, op)) <==> !Strays(s, op)
  {
    hide Inv, RegionsKept, Handle, Fork, Release, Share, Take, Execed, Loaded, MappedRegion, Unmapped, Lookup;
    match op
    case Faulting(a, fs) => HandleRegions(s, a, fs);
    case Forking(i, c, fs) => ForkRegions(s, i, c, fs);
    case Sharing(i, path) => ShareRegions(s, i, path);
    case Releasing(i, path) => ReleaseRegions(s, i, path);
    case Execing(fs) => ExecRegions(s, fs);
    case Loading(i, path, prot, contents, fs) => LoadedRegions(s, i, path, prot, contents, fs);
    case Mapping(i, path, prot) => MappingRegions(s, i, path, prot);
    case Unmapping(i, path) => UnmappingRegions(s, i, path);
    case Taking(_) => QuietRegions(s, op);
    case KernelMapping(_, _) => QuietRegions(s, op);
    case StoreByte(_, _, _) => QuietRegions(s, op);
  }

  // ---------- over runs ----------

  /** No step of the run leaks a reference or strays from a region. */
  ghost predicate Tidy(s: Sys, ops: seq<Op>)
    requires Inv(s) && Runs(s, ops)
    decreases ops
  {
    ops != [] ==>
      && !Leaks(s, ops[0]) && !Strays(s, ops[0])
      && (StepInv(s, ops[0]); Tidy(Step(s, ops[0]), ops[1..]))
  }

  /** Such runs keep counts exact and pages in their regions. */
  lemma {:induction false} RunTidy(s: Sys, ops: seq<Op>)
    requires Inv(s) && Exact(s) && RegionsKept(s) && Runs(s, ops) && Tidy(s, ops)
    ensures Exact(Run(s, ops)) && RegionsKept(Run(s, ops))
    decreases ops
  {
    hide Inv, Exact, RegionsKept, Enabled, Step, Breaks, Halts, Leaks, Strays;
    if ops != [] {
      StepInv(s, ops[0]);
      StepExact(s, ops[0]);
      NotOverTables(s, ops[0]);
      StepRegions(s, ops[0]);
      RunTidy(Step(s, ops[0]), ops[1..]);
    }
  }

  /** In every such run from boot, the reference count of each user frame is the
      number of pages mapped to it, and every page lies in a region that grants what
      its entry grants. */
  lemma CountsExact(s: Sys, ops: seq<Op>, i: nat, p: Path)
    requires Boot(s) && (BootInv(s); Runs(s, ops) && Tidy(s, ops))
    requires (BootInv(s); PresentPage(Run(s, ops), i, p))
    ensures var z := (BootInv(s); Run(s, ops));
      && At4(z, i, p).frame in z.desc
      && z.desc[At4(z, i, p).frame].refcount == Total(z.spaces, At4(z, i, p).frame)
      && i < |z.vma| && p in z.vma[i] && (At4(z, i, p).write ==> z.vma[i][p].write)
  {
    BootInv(s);
    RunInv(s, ops);
    RunTidy(s, ops);
    hide Runs, Run, Boot, Lookup, Total, Inv;
    var z := Run(s, ops);
    MappedReferenced(z, i, p);
    assert PageInRegion(z, i, p);
  }
}
