/** What becomes of a region that mmap puts outside user addresses: over the window of
    slot 256, or in slot 511 below the kernel's regions. */
module CowOutside {
  import opened PageBits
  import opened PageTree
  import opened PageMemory
  import opened PageForkRoot
  import opened SpaceTables
  import opened CowMemory
  import opened CowFaults
  import opened CowProgress
  import opened CowProtocol
  import opened CowStorage

  const WINDOW_START: bv64 := 0xFFFF_8000_0000_0000
  const WINDOW_END: bv64 := 0xFFFF_8080_0000_0000
  const KERNEL_SLOT: bv64 := 0xFFFF_FF80_0000_0000

  /** The addresses at which a process may have no region can be told before the call: those
      of the window, and those of slot 511 below start_kernel. */
  lemma OutsideAddresses(va: bv64)
    requires Canonical(va)
    ensures !UserPath(PathOf(va)) && !InKernel(PathOf(va)) <==>
      (WINDOW_START <= va < WINDOW_END) || (KERNEL_SLOT <= va < START_KERNEL)
  {
  }

  /** The lower half is all user addresses. */
  lemma LowerHalf(va: bv64)
    requires va < 0x8000_0000_0000
    ensures Canonical(va) && UserPath(PathOf(va))
  {
  }

  function RootPath(): Path { PathOf(SelfRefPml4(0)) }

  /** No process has a region there in a state that is in order. */
  lemma RootUnmapped(s: Sys, i: nat)
    requires Inv(s) && i < |s.spaces|
    ensures |s.vma| == |s.spaces| && RootPath() !in s.vma[i] && |RootPath()| == 4
    ensures Window(RootPath()) && !UserPath(RootPath()) && !InKernel(RootPath())
  {
    hide Inv, PathOf, SelfRefPml4;
    InvRegions(s);
    RootWindow();
  }

  /** The first read in such a region rewrites slot 256 of the root with the rights of
      the region. */
  lemma WindowFault(s: Sys, i: nat, prot: Prot, fs: seq<Frame>)
    requires Inv(s) && i < |s.spaces| && Free(s, fs) && prot.user
    ensures i < |s.vma| && Enabled(s, Mapping(i, RootPath(), prot)) && Breaks(s, Mapping(i, RootPath(), prot))
    ensures var s1, a := MappedRegion(s, i, RootPath(), prot), Access(i, RootPath(), false, true);
            && HandlePre(s1, a, fs) && !Allowed(Translated(s1, i, a.path), a)
            && var (s2, o) := Handle(s1, a, fs);
            && o == Resolved && |s2.spaces| == |s.spaces| && |s.spaces[i].slots| == ENTRIES
            && s2.spaces[i] == s.spaces[i].(slots := s.spaces[i].slots[SELF_REF := Entry(Leaf(s.spaces[i].frame, prot))])
  {
    RootUnmapped(s, i);
    SpaceShape(s, i);
    RootWindow();
    InvShapesOf(s);
    hide PathOf, SelfRefPml4, Separate, IsFrame, Total, PageOk, FrameOk, KernelPageOk, TablesOk, Regions, RootPath;
    var t, s1, a := s.spaces[i], MappedRegion(s, i, RootPath(), prot), Access(i, RootPath(), false, true);
    RootThere(s1, i);
    var e := Leaf(t.frame, prot);
    assert Unwind(RootPath()) == [SELF_REF];
    var u := Graft(Full(t, s.kernel), [SELF_REF], e, []);
    assert u.slots[KERNEL := t.slots[KERNEL]] == t.slots[SELF_REF := Entry(e)];
  }

  /** A root whose slot 256 leads back to it with the rights of `prot` shows itself with
      these rights. */
  lemma SelfWalk(m: Memory, f: Frame, prot: Prot)
    requires f in m && |m[f]| == ENTRIES && Decode(m[f][SELF_REF]) == Leaf(f, prot)
    ensures Walk(m, f, [SELF_REF, SELF_REF, SELF_REF, SELF_REF]) == Found(f, prot.write, prot.user)
  {
    hide Decode;
    var p: Path := [SELF_REF, SELF_REF, SELF_REF, SELF_REF];
    var p1, p2, p3 := p[1..], p[1..][1..], p[1..][1..][1..];
    assert p3[1..] == [];
    assert Walk(m, f, p3) == Found(f, prot.write, prot.user);
    assert Walk(m, f, p2) == Found(f, prot.write, prot.user);
    assert Walk(m, f, p1) == Found(f, prot.write, prot.user);
  }

  /** So in every state: with a region over the window, one read gives user code the
      tables of its own space, to write if the region may be written. */
  lemma WindowOpened(s: Sys, i: nat, prot: Prot, fs: seq<Frame>, m: Memory)
    requires Inv(s) && i < |s.spaces| && Free(s, fs) && prot.user
    requires (WindowFault(s, i, prot, fs);
      HoldsSpace(m, Handle(MappedRegion(s, i, RootPath(), prot), Access(i, RootPath(), false, true), fs).0, i))
    ensures Walk(m, s.spaces[i].frame, RootPath()) == Found(s.spaces[i].frame, prot.write, true)
  {
    WindowFault(s, i, prot, fs);
    RootWindow();
    hide Inv, Handle, PathOf, SelfRefPml4, Walk, Decode, Free, Enabled, Breaks;
    SelfWalk(m, s.spaces[i].frame, prot);
  }

  /** That is what update_curr_page_table leaves in memory at that address. */
  lemma WindowOpenedInMemory(t: Table, m: Memory, prot: Prot)
    requires |t.slots| == ENTRIES && Holds(m, Graft(t, Unwind(RootPath()), Leaf(t.frame, prot), []))
    ensures Walk(m, t.frame, RootPath()) == Found(t.frame, prot.write, prot.user)
  {
    RootWindow();
    hide PathOf, SelfRefPml4, Walk, Decode;
    var g := Graft(t, [SELF_REF], Leaf(t.frame, prot), []);
    assert g.slots[SELF_REF] == Entry(Leaf(t.frame, prot)) && g.frame == t.frame;
    SelfWalk(m, t.frame, prot);
  }

  /** A region in slot 511 below the kernel's: the first read in it puts a page for user
      code into tables that all spaces share. */
  lemma KernelOpened(s: Sys, i: nat, path: Path, prot: Prot, fs: seq<Frame>)
    requires Inv(s) && i < |s.spaces| && KernelPath(path) && !InKernel(path) && prot.user && Free(s, fs)
    requires Placed(s, i, path) && (fs != [] ==> Lacking(s, i, path) < |fs|)
    requires !At4(s, i, path).present ==> fs != []
    ensures i < |s.vma| && Enabled(s, Mapping(i, path, prot)) && Breaks(s, Mapping(i, path, prot))
    ensures var s1, a := MappedRegion(s, i, path, prot), Access(i, path, false, true);
            && HandlePre(s1, a, fs) && !Allowed(Translated(s1, i, path), a)
            && var (s2, o) := Handle(s1, a, fs);
            && o == Resolved && |s2.spaces| == |s.spaces| && !Inv(s2)
            && forall j: nat :: j < |s.spaces| ==> At4(s2, j, path).present && PermOf(At4(s2, j, path)) == prot
  {
    hide Inv, Lookup, Missing, Gap, WellFormed, Total, Demand, Protect;
    InvRegions(s);
    InvParts(s, i, path);
    InvShapesOf(s);
    var s1, a := MappedRegion(s, i, path, prot), Access(i, path, false, true);
    PlainPlace(s, i, path, prot, fs);
    var s2 := Handle(s1, a, fs).0;
    if At4(s1, i, path).present {
      PresentNothingLacking(s1, i, path);
      ProtectFacts(s1, i, path, prot);
    } else {
      DemandFacts(s1, i, path, prot, fs);
    }
    assert SamePage(i, path, i, path) && At4(s2, i, path) == KernelAt(s2, path);
    NotKernelPage(s2, path);
  }

  lemma NotKernelPage(s: Sys, path: Path)
    requires KernelPath(path) && KernelAt(s, path).present && KernelAt(s, path).user
    ensures !Inv(s)
  {
    hide PageOk, FrameOk, Regions, Shapes, TablesOk, Lookup;
    assert !KernelPageOk(s, path);
  }

  lemma PlainPlace(s: Sys, i: nat, path: Path, prot: Prot, fs: seq<Frame>)
    requires Inv(s) && i < |s.spaces| && KernelPath(path) && !InKernel(path) && Placed(s, i, path)
    ensures i < |s.vma| && path !in s.vma[i]
    ensures var s1 := MappedRegion(s, i, path, prot);
            && Shapes(s1) && |s1.vma| == |s1.spaces| && s1.data.Keys == s1.desc.Keys
            && Region(s1, Access(i, path, false, true)) == Some(prot) && Addressed(s1, i, path)
            && Lacking(s1, i, path) == Lacking(s, i, path)
            && forall j: nat, q: Path :: j < |s.spaces| ==> At4(s1, j, q) == At4(s, j, q)
  {
    hide PageOk, FrameOk, KernelPageOk, TablesOk, Lookup, Missing, Gap, WellFormed, Total;
  }
}
