/** What page_fault_handler does about an access to any address: user pages, the
    kernel's pages above slot 511, and the table window in slot 256. */
module CowFaults {
  import opened PageBits
  import opened PageTree
  import opened PageStore
  import opened PageFork
  import opened PageForkRoot
  import opened SpaceTables
  import opened CowMemory

  // ---------- accesses ----------

  datatype Access = Access(space: nat, path: Path, write: bool, user: bool)

  /** The processor lets the access through. Supervisor writes obey the R/W bit too;
      and as no-execute pages are never switched on, the NX bit has to be clear. */
  predicate Allowed(e: Pte, a: Access) {
    e.present && !e.nx && (a.write ==> e.write) && (a.user ==> e.user)
  }

  /** The region of the page allows the access. */
  predicate Permitted(p: Prot, a: Access) { (a.write ==> p.write) && (a.user ==> p.user) }

  /** What the processor makes of the entries on its way: through the window, the table
      it lands on. */
  function Translated(s: Sys, i: nat, path: Path): Pte
    requires i < |s.spaces|
  {
    var e := At4(s, i, path);
    if !Window(path) then e else if e.present then SelfPte(e.frame) else ABSENT
  }

  /** The region of a page: of the kernel's from start_kernel on, else of the process's. */
  function Region(s: Sys, a: Access): Option<Prot>
    requires a.space < |s.vma|
  {
    var regions := if InKernel(a.path) then s.kvma else s.vma[a.space];
    if a.path in regions then Some(regions[a.path]) else None
  }

  // ---------- the handler ----------

  /** How a fault ends: the access is tried again, the handler reports an error and
      its caller stops the machine, or the process is terminated. */
  datatype Outcome = Resolved | Halted | Killed

  /** What the code needs to run: tables for the page if any frame is left at all,
      and contents for each page with a descriptor. `fs` are the frames the allocator
      would hand out, in order; with none it fails. */
  ghost predicate HandlePre(s: Sys, a: Access, fs: seq<Frame>) {
    && |s.spaces| == |s.vma| && s.data.Keys == s.desc.Keys && Shapes(s)
    && a.space < |s.spaces| && |a.path| == 4 && Supply(fs, {})
    && (Region(s, a).Some? && fs != [] ==> Lacking(s, a.space, a.path) < |fs|)
  }

  ghost predicate CanHandle(s: Sys, a: Access, fs: seq<Frame>) {
    Inv(s) && Free(s, fs) && HandlePre(s, a, fs)
  }

  /** Of that the invariant leaves only the pages for missing tables to ask for. */
  lemma HandlePossible(s: Sys, a: Access, fs: seq<Frame>)
    requires Inv(s) && a.space < |s.spaces| && |a.path| == 4 && Free(s, fs)
    requires fs != [] && Placed(s, a.space, a.path) ==> Lacking(s, a.space, a.path) < |fs|
    ensures CanHandle(s, a, fs)
  {
    hide Lookup, Missing, Gap, WellFormed, Total, TablesOk, PageOk, FrameOk, KernelPageOk;
  }

  /** What page_fault_handler does about an access. */
  ghost function Handle(s: Sys, a: Access, fs: seq<Frame>): (Sys, Outcome)
    requires HandlePre(s, a, fs)
  {
    var e := At4(s, a.space, a.path);
    match Region(s, a)
    case None => (s, if e.present then Halted else Killed)
    case Some(prot) =>
      if !e.present then
        if fs == [] then (s, Killed) else (Demand(s, a.space, a.path, prot, fs), Resolved)
      else
        PresentNothingLacking(s, a.space, a.path);
        if a.write then WriteFault(s, a, prot, fs)
        else if (a.user && !prot.user) || PermOf(e) == prot then (s, Killed)
        else (Protect(s, a.space, a.path, prot), Resolved)
  }

  /** A write fault on a page that is there. A copy that finds no frame has already
      given up its reference when the process is terminated. */
  ghost function WriteFault(s: Sys, a: Access, prot: Prot, fs: seq<Frame>): (Sys, Outcome)
    requires HandlePre(s, a, fs) && Lacking(s, a.space, a.path) == 0
  {
    var e := At4(s, a.space, a.path);
    if !prot.write then (s, Killed)
    else if e.frame !in s.desc then (s, Halted)
    else
      var d := s.desc[e.frame];
      if !d.cow then
        if (a.user && !prot.user) || PermOf(e) == prot then (s, Killed)
        else (Protect(s, a.space, a.path, prot), Resolved)
      else if d.refcount == 1 then
        if PermOf(e) == prot then (Unflag(s, e.frame), Halted)
        else (Protect(Unflag(s, e.frame), a.space, a.path, prot), Resolved)
      else if d.refcount == 0 then (s, Halted)
      else if fs == [] then (Less(s, e.frame), Killed)
      else (Copy(s, a.space, a.path, prot, fs), Resolved)
  }

  /** A page whose region may be written and whose frame is flagged with more than
      one reference: a write to it makes a copy. */
  ghost predicate CopiesShared(s: Sys, a: Access, fs: seq<Frame>)
    requires HandlePre(s, a, fs)
  {
    var e := At4(s, a.space, a.path);
    && a.write && e.present && Region(s, a).Some? && Region(s, a).value.write
    && e.frame in s.desc && s.desc[e.frame].cow && s.desc[e.frame].refcount >= 2
  }

  /** Such a write by which the frame loses a reference while its page stays, or a
      page of the map of physical memory its frame: no frame is left for the copy, or
      the page written to is the kernel's. */
  ghost predicate Robs(s: Sys, a: Access, fs: seq<Frame>)
    requires HandlePre(s, a, fs)
  {
    && CopiesShared(s, a, fs)
    && ((TakesReference(s, At4(s, a.space, a.path).frame) && (fs == [] || KernelPath(a.path)))
        || (fs != [] && KernelPath(a.path) && a.path in s.direct))
  }

  /** A read of a user page whose entry the processor takes for damaged: the page gets
      its region's permissions, and with them the right to write a shared frame. */
  ghost predicate Grants(s: Sys, a: Access, fs: seq<Frame>)
    requires HandlePre(s, a, fs)
  {
    var e := At4(s, a.space, a.path);
    && !a.write && e.present && UserPath(a.path) && Region(s, a).Some? && Region(s, a).value.write
    && PermOf(e) != Region(s, a).value && e.frame in s.desc && s.desc[e.frame].refcount >= 2
  }

  lemma InvParts(s: Sys, i: nat, path: Path)
    requires Inv(s) && i < |s.spaces|
    ensures UserPath(path) ==> PageOk(s, i, path)
    ensures KernelPath(path) ==> KernelPageOk(s, path)
    ensures path in s.direct ==> InKernel(path)
    ensures forall f :: f in s.desc ==> FrameOk(s, f)
  {
    hide PageOk, KernelPageOk, FrameOk, Shapes, TablesOk;
  }

  /** Regions of the process are of user pages, for user code; the kernel's are not. */
  lemma RegionFacts(s: Sys, a: Access)
    requires Inv(s) && a.space < |s.spaces| && |a.path| == 4 && Region(s, a).Some?
    ensures Addressed(s, a.space, a.path) && Translated(s, a.space, a.path) == At4(s, a.space, a.path)
    ensures Region(s, a).value.user == UserPath(a.path)
  {
    hide Lookup, WellFormed, Total, TablesOk, PageOk, FrameOk, KernelPageOk;
    assert !InKernel(a.path) ==> a.path in s.vma[a.space];
  }

  /** The page an access is about, in a state satisfying the invariant. */
  lemma PageFacts(s: Sys, a: Access, fs: seq<Frame>)
    requires CanHandle(s, a, fs) && Region(s, a).Some? && At4(s, a.space, a.path).present
    ensures Addressed(s, a.space, a.path) && Lacking(s, a.space, a.path) == 0
    ensures Translated(s, a.space, a.path) == At4(s, a.space, a.path)
    ensures UserPath(a.path) ==>
      && At4(s, a.space, a.path).user && At4(s, a.space, a.path).frame in s.desc && At4(s, a.space, a.path).frame !in s.owned
      && s.desc[At4(s, a.space, a.path).frame].refcount >= 1
      && (s.desc[At4(s, a.space, a.path).frame].refcount >= 2 ==> s.desc[At4(s, a.space, a.path).frame].cow)
      && (At4(s, a.space, a.path).write ==> s.desc[At4(s, a.space, a.path).frame].refcount == 1)
    ensures KernelPath(a.path) ==> !At4(s, a.space, a.path).user
  {
    hide Lookup, Missing, WellFormed, Total, Inv, Free;
    RegionFacts(s, a);
    PresentNothingLacking(s, a.space, a.path);
    InvParts(s, a.space, a.path);
    if UserPath(a.path) {
      MappedReferenced(s, a.space, a.path);
      assert FrameOk(s, At4(s, a.space, a.path).frame);
    }
  }

  /** Handling a genuine fault keeps the invariant exactly when it does not rob a
      frame of a reference, and is not a read of a shared page whose entry has the NX
      bit. Of the two branches that hand out write permission without looking at the
      sharing of the frame, the copy-on-write flag guards the other. */
  lemma HandleInv(s: Sys, a: Access, fs: seq<Frame>)
    requires CanHandle(s, a, fs) && !Allowed(Translated(s, a.space, a.path), a)
    ensures Inv(Handle(s, a, fs).0) <==> !Robs(s, a, fs) && !Grants(s, a, fs)
  {
    hide Lookup, Missing, WellFormed, Total, Inv, Demand, Copy, Protect, Count, Free;
    if Region(s, a).Some? {
      var e, prot := At4(s, a.space, a.path), Region(s, a).value;
      RegionFacts(s, a);
      if !e.present {
        InvParts(s, a.space, a.path);
        if fs != [] {
          DemandInv(s, a.space, a.path, prot, fs);
        }
      } else {
        PresentInv(s, a, prot, fs);
      }
    }
  }

  lemma PresentInv(s: Sys, a: Access, prot: Prot, fs: seq<Frame>)
    requires CanHandle(s, a, fs) && Region(s, a) == Some(prot)
    requires At4(s, a.space, a.path).present && !Allowed(At4(s, a.space, a.path), a)
    ensures Inv(Handle(s, a, fs).0) <==> !Robs(s, a, fs) && !Grants(s, a, fs)
  {
    hide Lookup, Missing, WellFormed, Total, Inv, Demand, Copy, Protect, Count, Free, Less, Unflag;
    var e := At4(s, a.space, a.path);
    RegionFacts(s, a);
    PageFacts(s, a, fs);
    if CopiesShared(s, a, fs) {
      if fs == [] {
        LessInv(s, e.frame);
      } else {
        CopyInv(s, a.space, a.path, prot, fs);
      }
    } else if a.write && prot.write && e.frame in s.desc && s.desc[e.frame].cow && s.desc[e.frame].refcount == 1 {
      UnflagInv(s, e.frame);
      UnflagFacts(s, e.frame);
      if PermOf(e) != prot {
        ProtectInv(Unflag(s, e.frame), a.space, a.path, prot);
      }
    } else if Grants(s, a, fs) {
      ProtectBreaks(s, a.space, a.path, prot);
    } else if PermOf(e) != prot {
      ProtectInv(s, a.space, a.path, prot);
    }
  }

  lemma UnflagFacts(s: Sys, f: Frame)
    requires f in s.desc
    ensures Unflag(s, f) == s.(desc := s.desc[f := s.desc[f].(cow := false)])
    ensures forall i: nat, path :: i < |s.spaces| ==> At4(Unflag(s, f), i, path) == At4(s, i, path)
    ensures forall i: nat, path :: Addressed(s, i, path) ==>
      Addressed(Unflag(s, f), i, path) && Lacking(Unflag(s, f), i, path) == Lacking(s, i, path)
  {
  }

  // ---------- what robbing leads to ----------

  /** Two user pages have the frame between them, and its count says so. */
  ghost predicate Between(s: Sys, i: nat, p: Path, j: nat, q: Path, f: Frame) {
    && i < |s.spaces| && j < |s.spaces| && UserPath(p) && UserPath(q) && (i != j || p != q)
    && At4(s, i, p).present && At4(s, j, q).present && At4(s, i, p).frame == At4(s, j, q).frame == f
    && f in s.desc && s.desc[f].refcount == 2 && TakesReference(s, f)
  }

  /** What a fault that takes a reference does to those two pages: nothing. */
  lemma RobbedFacts(s: Sys, a: Access, fs: seq<Frame>, i: nat, p: Path, j: nat, q: Path, f: Frame)
    requires CanHandle(s, a, fs) && Robs(s, a, fs) && Translated(s, a.space, a.path).frame == f
    requires Between(s, i, p, j, q, f)
    ensures var s1 := Handle(s, a, fs).0;
            && |s1.spaces| == |s.spaces| && s1.vma == s.vma && Shapes(s1) && s1.data.Keys == s1.desc.Keys
            && At4(s1, i, p) == At4(s, i, p) && At4(s1, j, q) == At4(s, j, q)
            && f in s1.desc && s1.desc[f] == Desc(1, true)
    ensures Handle(s, a, fs).1 == if fs == [] then Killed else Resolved
  {
    hide Lookup, Missing, WellFormed, Total, TablesOk, Count, FrameOk, Copy, PageOk, KernelPageOk, Regions;
    RegionFacts(s, a);
    PageFacts(s, a, fs);
    if fs != [] {
      CopyFacts(s, a.space, a.path, Region(s, a).value, fs);
    }
  }

  /** Of two pages sharing a frame that was robbed of a reference, each still has it;
      and the next write through one of them makes it writable there. */
  lemma RobbedShares(s: Sys, a: Access, fs: seq<Frame>, b: Access, fs2: seq<Frame>, i: nat, p: Path)
    requires CanHandle(s, a, fs) && Robs(s, a, fs)
    requires Between(s, i, p, b.space, b.path, Translated(s, a.space, a.path).frame)
    requires b.write && Region(s, b).Some? && Region(s, b).value.write && Supply(fs2, {})
    ensures var s1 := Handle(s, a, fs).0;
            && HandlePre(s1, b, fs2)
            && var (s2, o) := Handle(s1, b, fs2);
            && o == Resolved && i < |s2.spaces| && b.space < |s2.spaces|
            && At4(s2, b.space, b.path).write && At4(s2, b.space, b.path).present && At4(s2, i, p).present
            && At4(s2, b.space, b.path).frame == At4(s2, i, p).frame
  {
    hide Lookup, Missing, Total, Count, Inv, Protect, Robs, Free, TakesReference;
    var f := Translated(s, a.space, a.path).frame;
    RobbedFacts(s, a, fs, i, p, b.space, b.path, f);
    NotWritable(s, i, p, b.space, b.path, f);
    var s1, prot := Handle(s, a, fs).0, Region(s, b).value;
    hide Handle;
    PresentNothingLacking(s1, b.space, b.path);
    NextWrite(s1, b, prot, fs2, f);
    var s3 := Unflag(s1, f);
    UnflagFacts(s1, f);
    ProtectFacts(s3, b.space, b.path, prot);
  }

  lemma NotWritable(s: Sys, i: nat, p: Path, j: nat, q: Path, f: Frame)
    requires Inv(s) && Between(s, i, p, j, q, f)
    ensures !At4(s, j, q).write
  {
    hide Inv, Lookup, Total, TakesReference;
    InvParts(s, j, q);
  }

  lemma NextWrite(s: Sys, b: Access, prot: Prot, fs: seq<Frame>, f: Frame)
    requires HandlePre(s, b, fs) && UserPath(b.path) && Region(s, b) == Some(prot) && b.write && prot.write
    requires At4(s, b.space, b.path).present && At4(s, b.space, b.path).frame == f && !At4(s, b.space, b.path).write
    requires f in s.desc && s.desc[f] == Desc(1, true) && Lacking(s, b.space, b.path) == 0
    ensures Addressed(Unflag(s, f), b.space, b.path) && Lacking(Unflag(s, f), b.space, b.path) == 0
    ensures Handle(s, b, fs) == (Protect(Unflag(s, f), b.space, b.path, prot), Resolved)
  {
    hide Lookup, Missing, WellFormed, Protect;
  }

  // ---------- what the processes see ----------

  /** The contents of a page as its process sees them. */
  ghost function View(s: Sys, i: nat, path: Path): Option<Data> {
    if i < |s.spaces| && At4(s, i, path).present && At4(s, i, path).frame in s.data
    then Some(s.data[At4(s, i, path).frame]) else None
  }

  /** No fault changes what any process sees in a page it already has; at most the
      page asked for appears. Not even one that robs a frame of a reference does. */
  lemma HandleView(s: Sys, a: Access, fs: seq<Frame>, j: nat, q: Path)
    requires CanHandle(s, a, fs) && j < |s.spaces| && UserPath(q)
    ensures j < |Handle(s, a, fs).0.spaces|
    ensures !(j == a.space && q == a.path && !At4(s, j, q).present) ==>
      View(Handle(s, a, fs).0, j, q) == View(s, j, q)
  {
    hide Lookup, Missing, WellFormed, Total, Count, Inv, Demand, Copy, Protect, View, Free, Less, Unflag;
    if Region(s, a).Some? {
      var e, prot := At4(s, a.space, a.path), Region(s, a).value;
      RegionFacts(s, a);
      if !e.present {
        if fs != [] {
          DemandView(s, a.space, a.path, prot, fs, j, q);
        }
      } else {
        PageFacts(s, a, fs);
        ProtectView(s, a.space, a.path, prot, j, q);
        if a.write && prot.write && e.frame in s.desc && s.desc[e.frame].cow {
          if s.desc[e.frame].refcount == 1 {
            UnflagFacts(s, e.frame);
            DescView(s, Unflag(s, e.frame).desc, j, q);
            ProtectView(Unflag(s, e.frame), a.space, a.path, prot, j, q);
          } else if s.desc[e.frame].refcount >= 2 {
            SharedView(s, a, prot, fs, j, q);
          }
        }
      }
    }
  }

  lemma SharedView(s: Sys, a: Access, prot: Prot, fs: seq<Frame>, j: nat, q: Path)
    requires CanHandle(s, a, fs) && CopiesShared(s, a, fs) && Region(s, a) == Some(prot)
    requires j < |s.spaces| && UserPath(q)
    ensures j < |Handle(s, a, fs).0.spaces| && View(Handle(s, a, fs).0, j, q) == View(s, j, q)
  {
    hide Lookup, Missing, WellFormed, Total, Count, Inv, Demand, Copy, Protect, View, Free;
    RegionFacts(s, a);
    PageFacts(s, a, fs);
    var e := At4(s, a.space, a.path);
    if fs == [] {
      DescView(s, Less(s, e.frame).desc, j, q);
    } else {
      CopyView(s, a.space, a.path, prot, fs, j, q);
    }
  }

  lemma DescView(s: Sys, desc: Descs, j: nat, q: Path)
    ensures View(s.(desc := desc), j, q) == View(s, j, q)
  {
  }

  lemma DemandView(s: Sys, i: nat, path: Path, prot: Prot, fs: seq<Frame>, j: nat, q: Path)
    requires CanDemand(s, i, path, fs) && j < |s.spaces| && UserPath(q)
    ensures j < |Demand(s, i, path, prot, fs).spaces|
    ensures !(j == i && q == path) ==> View(Demand(s, i, path, prot, fs), j, q) == View(s, j, q)
  {
    hide Lookup, Missing, WellFormed, Total, Count, IsFrame, Taken, FrameOk, PageOk, Demand;
    DemandFacts(s, i, path, prot, fs);
  }

  /** What a page shows when it appears: the old contents of its frame. */
  lemma DemandShows(s: Sys, i: nat, path: Path, prot: Prot, fs: seq<Frame>)
    requires CanDemand(s, i, path, fs)
    ensures fs[0] in s.data && View(Demand(s, i, path, prot, fs), i, path) == Some(s.data[fs[0]])
  {
    hide Lookup, Missing, WellFormed, Total, Count, IsFrame, Taken, FrameOk, PageOk, Demand, TablesOk;
    DemandFacts(s, i, path, prot, fs);
  }

  lemma ProtectView(s: Sys, i: nat, path: Path, prot: Prot, j: nat, q: Path)
    requires Addressed(s, i, path) && Shapes(s) && Lacking(s, i, path) == 0 && At4(s, i, path).present
    requires j < |s.spaces| && UserPath(q)
    ensures j < |Protect(s, i, path, prot).spaces|
    ensures View(Protect(s, i, path, prot), j, q) == View(s, j, q)
  {
    hide Lookup, Missing, WellFormed, Total, Protect;
    ProtectFacts(s, i, path, prot);
  }

  lemma CopyView(s: Sys, i: nat, path: Path, prot: Prot, fs: seq<Frame>, j: nat, q: Path)
    requires CanCopy(s, i, path, fs) && j < |s.spaces| && UserPath(q)
    ensures j < |Copy(s, i, path, prot, fs).spaces|
    ensures View(Copy(s, i, path, prot, fs), j, q) == View(s, j, q)
  {
    hide Lookup, Missing, WellFormed, Total, Count, IsFrame, Copy, FrameOk, PageOk;
    CopyFacts(s, i, path, prot, fs);
    if At4(s, j, q).present {
      MappedReferenced(s, j, q);
    }
  }
}
