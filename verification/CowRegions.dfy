/** Which region a page is in after each step, and what that means for the next access. */
module CowRegions {
  import opened PageBits
  import opened PageTree
  import opened PageStore
  import opened PageFork
  import opened PageForkStore
  import opened PageForkRoot
  import opened SpaceTables
  import opened CowMemory
  import opened CowFaults
  import opened CowProgress
  import opened CowProtocol

  /** The kernel's region of a page. */
  function KernelRegion(s: Sys, path: Path): Option<Prot> {
    if InKernel(path) && path in s.kvma then Some(s.kvma[path]) else None
  }

  /** The regions after a step: one page enters a region or leaves it, a child has all of
      its parent's regions, an address space of exec has none but the kernel's, and
      otherwise nothing changes. */
  ghost predicate RegionAfter(s: Sys, op: Op, a: Access, r: Option<Prot>)
    requires Inv(s) && Enabled(s, op)
  {
    match op
    case Mapping(i, path, prot) =>
      a.space < |s.vma| && r == if a.space == i && a.path == path && !InKernel(path) then Some(prot) else Region(s, a)
    case KernelMapping(path, prot) => a.space < |s.vma| && r == if a.path == path then Some(prot) else Region(s, a)
    case Unmapping(i, path) =>
      a.space < |s.vma| && r == if a.space == i && a.path == path && !InKernel(path) then None else Region(s, a)
    case Forking(i, _, _) => i < |s.vma| &&
      if a.space == |s.vma| then r == Region(s, a.(space := i)) else a.space < |s.vma| && r == Region(s, a)
    case Execing(_) =>
      if a.space == |s.vma| then r == KernelRegion(s, a.path) else a.space < |s.vma| && r == Region(s, a)
    case _ => a.space < |s.vma| && r == Region(s, a)
  }

  /** Regions are not touched by what happens to tables. */
  ghost predicate SameLists(s: Sys, s': Sys) { s'.vma == s.vma && s'.kvma == s.kvma }

  lemma MapLists(s: Sys, i: nat, path: Path, e: Pte, fs: seq<Frame>)
    requires Placed(s, i, path) && Supply(fs, {}) && Lacking(s, i, path) <= |fs|
    ensures SameLists(s, MapPage(s, i, path, e, fs))
  {
    hide MapWindow, KernelPut, Put, Missing, Gap, Claimed, Lookup;
    if Window(path) {
      MapWindowOnly(s, i, path, e, fs);
    }
  }

  lemma HandleLists(s: Sys, a: Access, fs: seq<Frame>)
    requires CanHandle(s, a, fs)
    ensures SameLists(s, Handle(s, a, fs).0)
  {
    hide Inv, Lookup, Missing, Gap, Total, Free, Demand, Copy, Protect;
    if Region(s, a).Some? {
      var i, path, e, prot := a.space, a.path, At4(s, a.space, a.path), Region(s, a).value;
      RegionFacts(s, a);
      if !e.present {
        if fs != [] {
          DemandFacts(s, i, path, prot, fs);
        }
      } else {
        PageFacts(s, a, fs);
        ProtectFacts(s, i, path, prot);
        if CopiesShared(s, a, fs) {
          if fs != [] {
            CopyFacts(s, i, path, prot, fs);
          }
        } else if e.frame in s.desc {
          UnflagFacts(s, e.frame);
          ProtectFacts(Unflag(s, e.frame), i, path, prot);
        }
      }
    }
  }

  lemma LoadedLists(s: Sys, i: nat, path: Path, prot: Prot, contents: Data, fs: seq<Frame>)
    requires Placed(s, i, path) && Supply(fs, {}) && Lacking(s, i, path) < |fs|
    ensures SameLists(s, Loaded(s, i, path, prot, contents, fs))
  {
    hide MapPage, Missing, Gap, Lookup, Claimed;
    var s1 := s.(data := s.data[fs[0] := contents]);
    MapLists(s1.(desc := Claimed(s1.desc, fs, 1), owned := PageTaken(s1, path, fs[0])), i, path, Leaf(fs[0], prot), fs[1..]);
  }

  lemma EntryLists(s: Sys, op: Op)
    requires Inv(s) && Enabled(s, op) && (op.Sharing? || op.Releasing?)
    ensures SameLists(s, Step(s, op))
  {
    hide Inv, MapPage, Missing, Gap, Lookup;
    if op.Sharing? {
      ShareInv(s, op.space, op.path);
    } else {
      ReleaseInv(s, op.space, op.path);
    }
    var e := At4(s, op.space, op.path);
    MapLists(s, op.space, op.path, Dim(e), []);
    MapLists(s, op.space, op.path, e.(present := false, rest := 0), []);
  }

  /** What every step does to the regions of every process. */
  lemma StepRegion(s: Sys, op: Op, a: Access)
    requires Inv(s) && Enabled(s, op) && a.space < |Step(s, op).vma|
    ensures RegionAfter(s, op, a, Region(Step(s, op), a))
  {
    hide Inv, Handle, Fork, Loaded, Share, Release, Lookup, Missing, Gap, CanForkSpace, Claimed, Total;
    InvRegions(s);
    match op
    case Faulting(b, fs) => HandleLists(s, b, fs);
    case Loading(i, path, prot, contents, fs) => LoadedLists(s, i, path, prot, contents, fs);
    case Sharing(_, _) => EntryLists(s, op);
    case Releasing(_, _) => EntryLists(s, op);
    case Forking(i, c, fs) => ForkLists(s, i, c, fs);
    case _ =>
  }

  lemma ForkLists(s: Sys, i: nat, c: Table, fs: seq<Frame>)
    requires CanForkSpace(s, i, c, fs)
    ensures i < |s.vma| && Fork(s, i, c, fs).vma == s.vma + [s.vma[i]] && Fork(s, i, c, fs).kvma == s.kvma
  {
    hide Lookup, Tables, ChildOf, ForkDesc, Cleared, Total;
  }

  /** A child can do at once what its parent could: an access that the parent's region
      permits faults at most once in the child, whether or not the parent had the page. */
  lemma ChildServed(s: Sys, i: nat, c: Table, fs: seq<Frame>, a: Access, fs2: seq<Frame>)
    requires CanForkSpace(s, i, c, fs) && a.space == |s.spaces| && UserPath(a.path)
    requires i < |s.vma| && Region(s, a.(space := i)).Some? && Permitted(Region(s, a.(space := i)).value, a)
    requires !Region(s, a.(space := i)).value.nx
    requires CanHandle(Fork(s, i, c, fs), a, fs2) && !Allowed(Translated(Fork(s, i, c, fs), a.space, a.path), a)
    ensures var s1 := Fork(s, i, c, fs);
            && a.space < |s1.vma| && Region(s1, a) == Region(s, a.(space := i))
            && var (s2, outcome) := Handle(s1, a, fs2);
            if fs2 == [] && NeedsFrame(s1, a) then outcome == Killed
            else outcome == Resolved && a.space < |s2.spaces| && Allowed(At4(s2, a.space, a.path), a)
  {
    hide Inv, Handle, Fork, Lookup, CanHandle, Allowed, Free;
    ForkLists(s, i, c, fs);
    InvRegionsOf(s, i, c, fs);
    PermittedOneFault(Fork(s, i, c, fs), a, fs2);
  }

  lemma InvRegionsOf(s: Sys, i: nat, c: Table, fs: seq<Frame>)
    requires CanForkSpace(s, i, c, fs)
    ensures |s.vma| == |s.spaces|
  {
  }

  /** So can a process in a region it has just mapped at user addresses. */
  lemma MappingServed(s: Sys, i: nat, path: Path, prot: Prot, a: Access, fs: seq<Frame>)
    requires Inv(s) && Enabled(s, Mapping(i, path, prot)) && UserPath(path) && !prot.nx
    requires a.space == i && a.path == path && Permitted(prot, a)
    requires var s1 := MappedRegion(s, i, path, prot); CanHandle(s1, a, fs) && !Allowed(Translated(s1, i, path), a)
    ensures var s1 := MappedRegion(s, i, path, prot);
            && Region(s1, a) == Some(prot)
            && var (s2, outcome) := Handle(s1, a, fs);
            if fs == [] && NeedsFrame(s1, a) then outcome == Killed
            else outcome == Resolved && i < |s2.spaces| && Allowed(At4(s2, i, path), a)
  {
    hide Inv, Handle, Lookup, Allowed, Free;
    PermittedOneFault(MappedRegion(s, i, path, prot), a, fs);
  }
}
