/** Every access is decided after a bounded number of faults: let through, or its
    process ended, or the machine stopped, and exactly when. */
module CowProgress {
  import opened PageBits
  import opened PageTree
  import opened PageForkRoot
  import opened SpaceTables
  import opened CowMemory
  import opened CowFaults

  /** The fault takes a frame for the page itself. */
  ghost predicate NeedsFrame(s: Sys, a: Access)
    requires a.space < |s.spaces|
  {
    var e := At4(s, a.space, a.path);
    !e.present || (a.write && e.frame in s.desc && s.desc[e.frame].refcount >= 2)
  }

  /** An access to a user page that its region permits faults at most once: the
      handler resolves the fault and the processor then lets the access through,
      unless a frame is needed and none is left, which ends the process. This is for
      regions without the NX bit. */
  lemma PermittedOneFault(s: Sys, a: Access, fs: seq<Frame>)
    requires CanHandle(s, a, fs) && UserPath(a.path) && Region(s, a).Some? && Permitted(Region(s, a).value, a)
    requires !Region(s, a).value.nx
    requires !Allowed(Translated(s, a.space, a.path), a)
    ensures var (s', outcome) := Handle(s, a, fs);
            if fs == [] && NeedsFrame(s, a) then outcome == Killed
            else outcome == Resolved && a.space < |s'.spaces| && Allowed(At4(s', a.space, a.path), a)
  {
    hide Lookup, Missing, WellFormed, Total, Inv, Demand, Copy, Protect, Free;
    var e, prot := At4(s, a.space, a.path), Region(s, a).value;
    RegionFacts(s, a);
    if !e.present {
      if fs != [] {
        DemandFacts(s, a.space, a.path, prot, fs);
      }
    } else {
      PageFacts(s, a, fs);
      if a.write && s.desc[e.frame].refcount >= 2 {
        if fs != [] {
          CopyFacts(s, a.space, a.path, prot, fs);
        }
      } else if a.write && s.desc[e.frame].cow {
        UnflagFacts(s, e.frame);
        ProtectFacts(Unflag(s, e.frame), a.space, a.path, prot);
      } else {
        ProtectFacts(s, a.space, a.path, prot);
      }
    }
  }

  /** The processor refuses a read of a user page that is there exactly if its entry has
      the NX bit: otherwise the handler's read-protection path is not reached for one. */
  lemma PresentUserPageReadable(s: Sys, a: Access)
    requires Inv(s) && a.space < |s.spaces| && UserPath(a.path) && At4(s, a.space, a.path).present && !a.write
    ensures Allowed(At4(s, a.space, a.path), a) <==> !At4(s, a.space, a.path).nx
  {
    hide Inv, Lookup, Total;
    InvParts(s, a.space, a.path);
  }

  /** User code gets at user pages and at nothing else. */
  lemma UserReach(s: Sys, a: Access)
    requires Inv(s) && a.space < |s.spaces| && |a.path| == 4 && a.user
    requires Allowed(Translated(s, a.space, a.path), a)
    ensures UserPath(a.path)
  {
    hide Inv, Lookup, Total;
    InvParts(s, a.space, a.path);
  }

  /** While pages are in regions, an access to a user page outside every region ends
      the process at its first fault. */
  lemma NoRegionKilled(s: Sys, a: Access, fs: seq<Frame>)
    requires CanHandle(s, a, fs) && RegionsKept(s) && UserPath(a.path) && Region(s, a).None?
    ensures !Allowed(Translated(s, a.space, a.path), a) && Handle(s, a, fs).1 == Killed
  {
    hide Lookup, Total, Missing, TablesOk, Inv, Free;
    assert PageInRegion(s, a.space, a.path);
  }

  /** SELF_REF_PML4(0) is the window's way to slot 256 of the root. */
  lemma RootWindow()
    ensures PathOf(SelfRefPml4(0)) == [SELF_REF, SELF_REF, SELF_REF, SELF_REF]
    ensures Unwind([SELF_REF, SELF_REF, SELF_REF, SELF_REF]) == [SELF_REF]
  {
    assert SelfRefPml4e(0) == SelfRefPml4(0);
    SelfRefPml4eIndices(0);
    hide SelfRefPml4e, SelfRefPml4, IndexPml4e, IndexPdpe, IndexPde, IndexPte;
    var p: Path := [SELF_REF, SELF_REF, SELF_REF, SELF_REF];
    assert p[1..][1..][1..] == [SELF_REF];
    assert Unwind(p) == Unwind(p[1..]) == Unwind(p[1..][1..]) == Unwind(p[1..][1..][1..]);
  }

  /** The root's own page in the window is there in every space. */
  lemma RootThere(s: Sys, i: nat)
    requires i < |s.spaces| && WellFormed(s.spaces[i], 4)
    ensures At4(s, i, PathOf(SelfRefPml4(0))).(rest := 0) == SelfPte(s.spaces[i].frame)
    ensures Window(PathOf(SelfRefPml4(0))) && !InKernel(PathOf(SelfRefPml4(0)))
  {
    RootWindow();
    hide SelfRefPml4, PathOf, IsFrame;
    var t := Full(s.spaces[i], s.kernel);
    assert Lookup(t, [SELF_REF]) == t.slots[SELF_REF].e;
  }

  /** A user access to the window's root page stops the machine, unless a region of the
      process is around it: the entry is there, and it is not for user code. */
  lemma WindowHalts(s: Sys, i: nat, write: bool, fs: seq<Frame>)
    requires HandlePre(s, Access(i, PathOf(SelfRefPml4(0)), write, true), fs) && PathOf(SelfRefPml4(0)) !in s.vma[i]
    ensures var a := Access(i, PathOf(SelfRefPml4(0)), write, true);
            !Allowed(Translated(s, i, a.path), a) && Handle(s, a, fs) == (s, Halted)
  {
    hide SelfRefPml4, PathOf, Lookup;
    RootThere(s, i);
  }

  // ---------- accesses that are refused ----------

  /** The outcome of an access tried again after its first fault. */
  ghost function TwoFaults(s: Sys, a: Access, fs: seq<Frame>, fs2: seq<Frame>): Outcome
    requires HandlePre(s, a, fs)
  {
    var (s', outcome) := Handle(s, a, fs);
    if outcome == Resolved && HandlePre(s', a, fs2) then Handle(s', a, fs2).1 else outcome
  }

  /** `fs2` are frames left when the access is tried again. */
  ghost predicate Retried(s: Sys, a: Access, fs: seq<Frame>, fs2: seq<Frame>)
    requires HandlePre(s, a, fs)
  {
    Handle(s, a, fs).1 == Resolved ==> HandlePre(Handle(s, a, fs).0, a, fs2)
  }

  /** A write to a read-only region, of a process or of the kernel, that faults ends the
      process after at most two faults and is not let through in between. */
  lemma ReadOnlyTwice(s: Sys, a: Access, fs: seq<Frame>, fs2: seq<Frame>)
    requires CanHandle(s, a, fs) && !Window(a.path) && Region(s, a).Some? && Retried(s, a, fs, fs2)
    requires a.write && !Region(s, a).value.write
    ensures TwoFaults(s, a, fs, fs2) == Killed
    ensures Handle(s, a, fs).1 == Resolved ==>
      var s' := Handle(s, a, fs).0; a.space < |s'.spaces| && !Allowed(At4(s', a.space, a.path), a)
  {
    hide Lookup, Missing, Total, Demand, Copy, Protect, TablesOk, Inv, Free;
    RegionFacts(s, a);
    if !At4(s, a.space, a.path).present && fs != [] {
      DemandFacts(s, a.space, a.path, Region(s, a).value, fs);
    }
  }

  /** A write to a read-only region of a process is never let through, while pages are
      in regions. */
  lemma ReadOnlyKilled(s: Sys, a: Access, fs: seq<Frame>, fs2: seq<Frame>)
    requires CanHandle(s, a, fs) && RegionsKept(s) && UserPath(a.path) && Region(s, a).Some? && Retried(s, a, fs, fs2)
    requires a.write && !Region(s, a).value.write
    ensures !Allowed(Translated(s, a.space, a.path), a) && TwoFaults(s, a, fs, fs2) == Killed
    ensures Handle(s, a, fs).1 == Resolved ==>
      var s' := Handle(s, a, fs).0; a.space < |s'.spaces| && !Allowed(At4(s', a.space, a.path), a)
  {
    hide Lookup, Missing, Total, Inv, Free, Handle, TwoFaults;
    assert PageInRegion(s, a.space, a.path);
    RegionFacts(s, a);
    ReadOnlyTwice(s, a, fs, fs2);
  }

  /** A write by which the handler gives up: the frame has no descriptor, or is
      flagged without a reference, or it is flagged with its only one and the page has
      all its region allows. */
  ghost predicate GivesUp(s: Sys, f: Frame, same: bool) {
    f !in s.desc || (s.desc[f].cow && (s.desc[f].refcount == 0 || (s.desc[f].refcount == 1 && same)))
  }

  /** A write to a kernel page meets such a frame, or will meet the flag left from an
      earlier use on the frame that the first fault takes. */
  ghost predicate Stops(s: Sys, a: Access, fs: seq<Frame>)
    requires HandlePre(s, a, fs) && Region(s, a).Some?
  {
    var e, prot := At4(s, a.space, a.path), Region(s, a).value;
    && a.write && prot.write
    && if e.present && !(e.frame in s.desc && s.desc[e.frame].cow && s.desc[e.frame].refcount >= 2)
       then GivesUp(s, e.frame, PermOf(e) == prot)
       else fs != [] && fs[0] in s.desc && s.desc[fs[0]].cow
  }

  /** An access to a page that can never be let through: a user's to a kernel page, or
      one to a page of a region with the NX bit. */
  ghost predicate Refused(s: Sys, a: Access, prot: Prot) {
    && a.space < |s.vma| && Region(s, a) == Some(prot)
    && ((KernelPath(a.path) && a.user && !prot.user) || (!Window(a.path) && |a.path| == 4 && prot.nx))
  }

  /** The frame has a descriptor, flagged only with one reference. */
  ghost predicate OnlyFlagged(s: Sys, f: Frame) { f in s.desc && (s.desc[f].cow ==> s.desc[f].refcount == 1) }

  /** The first fault of such an access, if resolved: the page is there with the region's
      permissions; after a write its frame is flagged only with one reference, and only if
      that was left from an earlier use. */
  ghost predicate OnceRefused(s: Sys, a: Access, prot: Prot, stops: bool, s': Sys, outcome: Outcome) {
    && (outcome == Halted ==> stops) && (outcome == Killed ==> !stops)
    && (outcome == Resolved ==>
          && a.space < |s'.spaces| && s'.vma == s.vma && s'.kvma == s.kvma
          && At4(s', a.space, a.path).present && PermOf(At4(s', a.space, a.path)) == prot
          && (a.write ==> OnlyFlagged(s', At4(s', a.space, a.path).frame))
          && (a.write && prot.write && s'.desc[At4(s', a.space, a.path).frame].cow <==> stops))
  }

  lemma RefusedFirst(s: Sys, a: Access, prot: Prot, fs: seq<Frame>)
    requires CanHandle(s, a, fs) && Refused(s, a, prot)
    ensures var (s', outcome) := Handle(s, a, fs); OnceRefused(s, a, prot, Stops(s, a, fs), s', outcome)
  {
    hide Lookup, Missing, WellFormed, Total, Demand, Copy, Protect, Inv;
    var e := At4(s, a.space, a.path);
    RegionFacts(s, a);
    if !e.present || CopiesShared(s, a, fs) {
      if fs != [] {
        if !e.present {
          DemandFacts(s, a.space, a.path, prot, fs);
        } else {
          PageFacts(s, a, fs);
          CopyFacts(s, a.space, a.path, prot, fs);
        }
      }
    } else {
      RefusedPresent(s, a, prot, fs);
    }
  }

  lemma RefusedPresent(s: Sys, a: Access, prot: Prot, fs: seq<Frame>)
    requires CanHandle(s, a, fs) && Refused(s, a, prot)
    requires At4(s, a.space, a.path).present && !CopiesShared(s, a, fs)
    ensures var (s', outcome) := Handle(s, a, fs); OnceRefused(s, a, prot, Stops(s, a, fs), s', outcome)
  {
    hide Lookup, Missing, WellFormed, Total, Demand, Copy, Protect, Inv, Free;
    var e := At4(s, a.space, a.path);
    RegionFacts(s, a);
    PageFacts(s, a, fs);
    if a.write && prot.write && e.frame in s.desc && s.desc[e.frame].cow {
      UnflagFacts(s, e.frame);
      ProtectFacts(Unflag(s, e.frame), a.space, a.path, prot);
    } else {
      ProtectFacts(s, a.space, a.path, prot);
    }
  }

  lemma RefusedAgain(s: Sys, a: Access, prot: Prot, fs: seq<Frame>)
    requires HandlePre(s, a, fs) && Refused(s, a, prot)
    requires At4(s, a.space, a.path).present && PermOf(At4(s, a.space, a.path)) == prot
    requires a.write ==> OnlyFlagged(s, At4(s, a.space, a.path).frame)
    ensures Handle(s, a, fs).1 ==
      if a.write && prot.write && s.desc[At4(s, a.space, a.path).frame].cow then Halted else Killed
  {
    hide Lookup, Missing, Protect, Copy, Demand;
    PresentNothingLacking(s, a.space, a.path);
  }

  /** Such an access ends the process after at most two faults, exactly unless the
      handler gives up on the frame: then it reports an error, and the machine stops. */
  lemma RefusedTwice(s: Sys, a: Access, prot: Prot, fs: seq<Frame>, fs2: seq<Frame>)
    requires CanHandle(s, a, fs) && Refused(s, a, prot) && Retried(s, a, fs, fs2)
    ensures TwoFaults(s, a, fs, fs2) == if Stops(s, a, fs) then Halted else Killed
    ensures Handle(s, a, fs).1 == Resolved ==>
      var s' := Handle(s, a, fs).0; a.space < |s'.spaces| && !Allowed(At4(s', a.space, a.path), a)
  {
    hide Lookup, Missing, Total, Inv, Free, Demand, Copy, Protect, Handle, Stops;
    RefusedFirst(s, a, prot, fs);
    if Handle(s, a, fs).1 == Resolved {
      RefusedAgain(Handle(s, a, fs).0, a, prot, fs2);
    }
  }

  /** A user access to a page in a kernel region is never let through. */
  lemma KernelPageKilled(s: Sys, a: Access, fs: seq<Frame>, fs2: seq<Frame>)
    requires CanHandle(s, a, fs) && Region(s, a).Some? && KernelPath(a.path) && a.user && Retried(s, a, fs, fs2)
    ensures !Allowed(Translated(s, a.space, a.path), a)
    ensures TwoFaults(s, a, fs, fs2) == if Stops(s, a, fs) then Halted else Killed
    ensures Handle(s, a, fs).1 == Resolved ==>
      var s' := Handle(s, a, fs).0; a.space < |s'.spaces| && !Allowed(At4(s', a.space, a.path), a)
  {
    hide Lookup, Missing, Total, Inv, Free, Handle, Stops, TwoFaults;
    RegionFacts(s, a);
    if At4(s, a.space, a.path).present {
      PageFacts(s, a, fs);
    }
    RefusedTwice(s, a, Region(s, a).value, fs, fs2);
  }

  /** Nor, once it has faulted, is the kernel's own access to a page of a kernel region
      with the NX bit, such as that of its map of physical memory. */
  lemma KernelNoExecuteKilled(s: Sys, a: Access, fs: seq<Frame>, fs2: seq<Frame>)
    requires CanHandle(s, a, fs) && Region(s, a).Some? && KernelPath(a.path) && Retried(s, a, fs, fs2)
    requires Region(s, a).value.nx
    ensures TwoFaults(s, a, fs, fs2) == if Stops(s, a, fs) then Halted else Killed
    ensures Handle(s, a, fs).1 == Resolved ==>
      var s' := Handle(s, a, fs).0; a.space < |s'.spaces| && !Allowed(At4(s', a.space, a.path), a)
  {
    hide Lookup, Missing, Total, Inv, Free, Handle, Stops, TwoFaults;
    RefusedTwice(s, a, Region(s, a).value, fs, fs2);
  }

  /** The kernel's own access to one of its pages that the region permits faults at most
      once, as a process's does, unless the handler gives up on the frame written to. */
  lemma KernelOneFault(s: Sys, a: Access, fs: seq<Frame>)
    requires CanHandle(s, a, fs) && KernelPath(a.path) && Region(s, a).Some? && Permitted(Region(s, a).value, a)
    requires !a.user && !Region(s, a).value.nx && !Allowed(Translated(s, a.space, a.path), a)
    ensures var (s', outcome) := Handle(s, a, fs);
            var e := At4(s, a.space, a.path);
            if a.write && e.present && GivesUp(s, e.frame, false) then outcome == Halted
            else if fs == [] && (!e.present || CopiesShared(s, a, fs)) then outcome == Killed
            else outcome == Resolved && a.space < |s'.spaces| && Allowed(At4(s', a.space, a.path), a)
  {
    hide Lookup, Missing, WellFormed, Total, Inv, Demand, Copy, Protect, Free;
    var e, prot := At4(s, a.space, a.path), Region(s, a).value;
    RegionFacts(s, a);
    if !e.present {
      if fs != [] {
        DemandFacts(s, a.space, a.path, prot, fs);
      }
    } else {
      PageFacts(s, a, fs);
      if CopiesShared(s, a, fs) {
        if fs != [] {
          CopyFacts(s, a.space, a.path, prot, fs);
        }
      } else if a.write && e.frame in s.desc && s.desc[e.frame].cow {
        UnflagFacts(s, e.frame);
        ProtectFacts(Unflag(s, e.frame), a.space, a.path, prot);
      } else {
        ProtectFacts(s, a.space, a.path, prot);
      }
    }
  }

  /** Nor is any access to a user page of a region with the NX bit, while pages are in
      regions. */
  lemma NoExecuteKilled(s: Sys, a: Access, fs: seq<Frame>, fs2: seq<Frame>)
    requires CanHandle(s, a, fs) && RegionsKept(s) && Region(s, a).Some? && UserPath(a.path) && Retried(s, a, fs, fs2)
    requires Region(s, a).value.nx
    ensures !Allowed(Translated(s, a.space, a.path), a)
    ensures TwoFaults(s, a, fs, fs2) == if Stops(s, a, fs) then Halted else Killed
    ensures Handle(s, a, fs).1 == Resolved ==>
      var s' := Handle(s, a, fs).0; a.space < |s'.spaces| && !Allowed(At4(s', a.space, a.path), a)
  {
    hide Lookup, Missing, Total, Inv, Free, Handle, Stops, TwoFaults;
    RegionFacts(s, a);
    assert PageInRegion(s, a.space, a.path);
    RefusedTwice(s, a, Region(s, a).value, fs, fs2);
  }

  /** Which faults stop the machine: those on an entry that is there and in no region,
      and writes to a page on whose frame the handler gives up. A user page is such a
      page only if its region has the NX bit. */
  lemma HaltsExactly(s: Sys, a: Access, fs: seq<Frame>)
    requires CanHandle(s, a, fs) && !Allowed(Translated(s, a.space, a.path), a)
    ensures Handle(s, a, fs).1 == Halted <==>
      var e := Translated(s, a.space, a.path);
      && e.present
      && match Region(s, a)
         case None => true
         case Some(prot) => a.write && prot.write && GivesUp(s, e.frame, PermOf(e) == prot)
    ensures Handle(s, a, fs).1 == Halted && Region(s, a).Some? && UserPath(a.path) ==> Region(s, a).value.nx
  {
    hide Lookup, Missing, Total, Demand, Copy, Protect, Inv, Free;
    if Region(s, a).Some? {
      RegionFacts(s, a);
      if At4(s, a.space, a.path).present {
        PageFacts(s, a, fs);
      }
    }
  }
}
