/** What the page-table code does to memory is what the steps of the protocol do. */
module CowSteps {
  import opened PageBits
  import opened PageTree
  import opened PageMemory
  import opened PageStore
  import opened PageFork
  import opened PageForkStore
  import opened PageForkRoot
  import opened SpaceTables
  import opened CowMemory
  import opened CowFaults
  import opened CowProtocol
  import opened CowStorage

  /** A mapping made by the code in the tree of space `i`, as a mapping of the
      protocol: it leaves the other part of the tree alone. */
  lemma MappedInSpace(s: Sys, m: Memory, i: nat, path: Path, e: Pte, pool: seq<Frame>, desc: Descs, st: Store)
    requires Inv(s) && i < |s.spaces| && Mappable(path) && |s.spaces[i].slots| == ENTRIES
    requires HoldsSpace(m, s, i) && s.kernel.Link? && Holds(m, s.kernel.sub)
    requires Mapped(Store(m, pool, desc), Root(s, i), st, path, e)
    ensures Addressed(s, i, path) && Lacking(s, i, path) <= |pool|
    ensures var s' := MapPage(s, i, path, e, pool);
            && |s'.spaces| == |s.spaces| && s'.kernel.Link? && Holds(st.mem, s'.kernel.sub) && HoldsSpace(st.mem, s', i)
            && SameOutside(m, st.mem, TablesFor(s, i, path) + Taken(pool, Lacking(s, i, path)))
  {
    SpaceShape(s, i);
    var t, k := s.spaces[i], s.kernel;
    FullShape(t, k);
    if KernelPath(path) {
      KernelMapped(s, m, i, path, e, pool, desc, st);
    } else {
      UserMapped(s, m, i, path, e, pool, desc, st);
    }
  }

  lemma UserMapped(s: Sys, m: Memory, i: nat, path: Path, e: Pte, pool: seq<Frame>, desc: Descs, st: Store)
    requires i < |s.spaces| && UserPath(path) && UserSpace(s.spaces[i]) && KernelOk(s.kernel)
    requires WellFormed(Root(s, i), 4) && Frames(Root(s, i)) == Frames(s.spaces[i]) + SlotFrames(s.kernel)
    requires Holds(m, s.kernel.sub) && Mapped(Store(m, pool, desc), Root(s, i), st, path, e)
    ensures Addressed(s, i, path) && Lacking(s, i, path) <= |pool|
    ensures var s' := MapPage(s, i, path, e, pool);
            && |s'.spaces| == |s.spaces| && s'.kernel.Link? && Holds(st.mem, s'.kernel.sub) && HoldsSpace(st.mem, s', i)
            && SameOutside(m, st.mem, TablesFor(s, i, path) + Taken(pool, Lacking(s, i, path)))
  {
    var t, k := s.spaces[i], s.kernel;
    assert Missing(t, path) == Missing(Full(t, k), path);
    FullPut(t, k, path, e, pool);
    hide WellFormed, Separate, Frames, Holds, Put, Missing;
    FullHolds(st.mem, Put(t, path, e, pool), k);
    forall f | f in m && f !in Frames(t) + Taken(pool, Missing(t, path)) ensures st.mem[f] == m[f] {
      if f in SlotFrames(k) {
        HoldsDetermines(m, st.mem, k.sub, f);
      }
    }
  }

  lemma KernelMapped(s: Sys, m: Memory, i: nat, path: Path, e: Pte, pool: seq<Frame>, desc: Descs, st: Store)
    requires i < |s.spaces| && KernelPath(path) && UserSpace(s.spaces[i]) && KernelOk(s.kernel) && HoldsSpace(m, s, i)
    requires WellFormed(Root(s, i), 4) && Frames(Root(s, i)) == Frames(s.spaces[i]) + SlotFrames(s.kernel)
    requires Mapped(Store(m, pool, desc), Root(s, i), st, path, e)
    ensures Addressed(s, i, path) && Lacking(s, i, path) <= |pool|
    ensures var s' := MapPage(s, i, path, e, pool);
            && |s'.spaces| == |s.spaces| && s'.kernel.Link? && Holds(st.mem, s'.kernel.sub) && HoldsSpace(st.mem, s', i)
            && SameOutside(m, st.mem, TablesFor(s, i, path) + Taken(pool, Lacking(s, i, path)))
  {
    var t, k := s.spaces[i], s.kernel;
    assert Missing(k.sub, path[1..]) == Missing(Full(t, k), path);
    FullKernelPut(t, k, path, e, pool);
    UserPartFrames(t, k.e);
    hide WellFormed, Separate, Frames, Holds, Put, Missing;
    FullHolds(st.mem, t, KernelPut(k, path, e, pool));
    forall f | f in m && f !in SlotFrames(k) + Taken(pool, Missing(k.sub, path[1..])) ensures st.mem[f] == m[f] {
      if f in Frames(t) {
        HoldsDetermines(m, st.mem, UserPart(t, k.e), f);
      }
    }
  }

  /** A free frame may be filled without touching any tree. */
  lemma FillKeeps(s: Sys, m: Memory, m1: Memory, i: nat, fs: seq<Frame>)
    requires Inv(s) && InMemory(m, s) && i < |s.spaces| && Free(s, fs) && fs != [] && SameOutside(m, m1, {fs[0]})
    ensures s.kernel.Link? && Holds(m1, s.kernel.sub) && HoldsSpace(m1, s, i)
  {
    hide Inv, Holds, Frames, Separate;
    SpaceShape(s, i);
    FreeUnowned(s, fs);
    UserPartFrames(s.spaces[i], s.kernel.e);
    assert HoldsSpace(m, s, i);
    HoldsFrame(m, m1, UserPart(s.spaces[i], s.kernel.e));
    HoldsFrame(m, m1, s.kernel.sub);
  }

  lemma TakenTail(fs: seq<Frame>, n: nat)
    requires fs != [] && n < |fs|
    ensures fs[0] in Taken(fs, |fs|) && Taken(fs[1..], n) <= Taken(fs, |fs|)
  {
    forall f | f in Taken(fs[1..], n) ensures f in Taken(fs, |fs|) {
      var k :| 0 <= k < n && fs[1..][k] == f;
      assert fs[k+1] == f;
    }
  }

  lemma DemandMaps(s: Sys, s1: Sys, i: nat, path: Path, prot: Prot, fs: seq<Frame>)
    requires Addressed(s, i, path) && s1.spaces == s.spaces && s1.kernel == s.kernel && Supply(fs, {})
    requires Lacking(s, i, path) < |fs|
    ensures Addressed(s1, i, path) && Lacking(s1, i, path) < |fs|
    ensures var d, p := Demand(s1, i, path, prot, fs), MapPage(s, i, path, Leaf(fs[0], prot), fs[1..]);
            d.spaces == p.spaces && d.kernel == p.kernel
  {
    hide WellFormed, Missing, Lookup, Put, Claimed, KernelPut;
  }

  /** A page mapped to a new frame: whatever is put into the frame, and then the
      mapping made by update_curr_page_table. `s1` may differ in descriptors and
      contents. */
  lemma NewFrameMapped(s: Sys, s1: Sys, m: Memory, m1: Memory, i: nat, path: Path, prot: Prot, fs: seq<Frame>, desc: Descs, st: Store)
    requires Inv(s) && InMemory(m, s) && i < |s.spaces| && Mappable(path) && Free(s, fs) && fs != []
    requires s1.spaces == s.spaces && s1.kernel == s.kernel
    requires SameOutside(m, m1, {fs[0]}) && |s.spaces[i].slots| == ENTRIES
    requires Mapped(Store(m1, fs[1..], desc), Root(s, i), st, path, Leaf(fs[0], prot))
    ensures Addressed(s1, i, path) && Lacking(s1, i, path) < |fs|
    ensures var s' := Demand(s1, i, path, prot, fs);
            && |s'.spaces| == |s.spaces| && s'.kernel.Link? && Holds(st.mem, s'.kernel.sub) && HoldsSpace(st.mem, s', i)
            && SameOutside(m, st.mem, TablesFor(s, i, path) + Taken(fs, |fs|))
  {
    hide Inv, Holds, Frames, SlotFrames, WellFormed, Missing, Lookup, Taken, Mapped, MapPage, Demand, InMemory;
    FillKeeps(s, m, m1, i, fs);
    MappedInSpace(s, m1, i, path, Leaf(fs[0], prot), fs[1..], desc, st);
    DemandMaps(s, s1, i, path, prot, fs);
    TakenTail(fs, Lacking(s, i, path));
  }

  /** A fault that takes a frame. */
  lemma FrameFaultIsMemStep(s: Sys, m: Memory, m1: Memory, a: Access, fs: seq<Frame>, desc: Descs, st: Store)
    requires Inv(s) && InMemory(m, s) && Enabled(s, Faulting(a, fs)) && Region(s, a).Some? && fs != []
    requires !At4(s, a.space, a.path).present || CopiesShared(s, a, fs)
    requires SameOutside(m, m1, {fs[0]}) && |s.spaces[a.space].slots| == ENTRIES
    requires Mapped(Store(m1, fs[1..], desc), Root(s, a.space), st, a.path, Leaf(fs[0], Region(s, a).value))
    ensures MemStep(s, m, Faulting(a, fs), st.mem)
  {
    hide Inv, Holds, Frames, SlotFrames, Lookup, Total, Missing, Taken, Demand, Mapped, InMemory, Free;
    var i, path, prot := a.space, a.path, Region(s, a).value;
    RegionFacts(s, a);
    if At4(s, i, path).present {
      PageFacts(s, a, fs);
      var f := At4(s, i, path).frame;
      NewFrameMapped(s, Less(s, f).(data := s.data[fs[0] := s.data[f]]), m, m1, i, path, prot, fs, desc, st);
    } else {
      NewFrameMapped(s, s, m, m1, i, path, prot, fs, desc, st);
    }
  }

  /** The words of a frame that is copied: afterwards the new frame has them, and the old
      one keeps them. */
  lemma CopiedWords(s: Sys, m: Memory, a: Access, fs: seq<Frame>, desc: Descs, st: Store)
    requires Inv(s) && InMemory(m, s) && Enabled(s, Faulting(a, fs)) && CopiesShared(s, a, fs) && fs != []
    requires |s.spaces[a.space].slots| == ENTRIES && UserPath(a.path)
    requires At4(s, a.space, a.path).frame in m && fs[0] in m
    requires var copied := m[fs[0] := m[At4(s, a.space, a.path).frame]];
             Mapped(Store(copied, fs[1..], desc), Root(s, a.space), st, a.path, Leaf(fs[0], Region(s, a).value))
    ensures var f := At4(s, a.space, a.path).frame;
            && fs[0] in st.mem && st.mem[fs[0]] == m[f] && f in st.mem && st.mem[f] == m[f]
            && View(Step(s, Faulting(a, fs)), a.space, a.path) == View(s, a.space, a.path)
  {
    hide Inv, Holds, Frames, SlotFrames, Lookup, Total, Missing, Taken, InMemory, Free, Handle, View, Put;
    var f := At4(s, a.space, a.path).frame;
    RegionFacts(s, a);
    PageFacts(s, a, fs);
    HandleView(s, a, fs, a.space, a.path);
    FrameOutside(s, a.space, fs);
    PageOutside(s, a.space, a.path, fs);
    TakenWithin(fs, Missing(Root(s, a.space), a.path));
  }

  lemma TakenWithin(fs: seq<Frame>, n: nat)
    requires fs != [] && n < |fs|
    ensures forall f :: f in Taken(fs[1..], n) ==> f in fs[1..]
  {
  }

  /** Nor is the frame of a page among the tables or the frames still free. */
  lemma PageOutside(s: Sys, i: nat, path: Path, fs: seq<Frame>)
    requires Inv(s) && i < |s.spaces| && UserPath(path) && At4(s, i, path).present && Free(s, fs)
    ensures |s.spaces[i].slots| == ENTRIES
    ensures At4(s, i, path).frame !in Frames(Root(s, i)) && At4(s, i, path).frame !in fs
  {
    hide Inv, Frames, SlotFrames, Separate, Lookup, Total;
    SpaceShape(s, i);
    FullShape(s.spaces[i], s.kernel);
    NoPageIsTable(s, i, path, i);
    MappedReferenced(s, i, path);
  }

  /** A page mapped by v_alloc_pages_at_virt. */
  lemma LoadIsMemStep(s: Sys, m: Memory, m1: Memory, i: nat, path: Path, prot: Prot, contents: Data, fs: seq<Frame>, desc: Descs, st: Store)
    requires Inv(s) && InMemory(m, s) && Enabled(s, Loading(i, path, prot, contents, fs)) && Mappable(path)
    requires SameOutside(m, m1, {fs[0]}) && |s.spaces[i].slots| == ENTRIES
    requires Mapped(Store(m1, fs[1..], desc), Root(s, i), st, path, Leaf(fs[0], prot))
    ensures MemStep(s, m, Loading(i, path, prot, contents, fs), st.mem)
  {
    hide Inv, Holds, Frames, SlotFrames, Lookup, Total, Missing, Taken, Demand, Mapped, InMemory, Free;
    NewFrameMapped(s, s.(data := s.data[fs[0] := contents]), m, m1, i, path, prot, fs, desc, st);
  }

  /** A page mapped, filled and mapped again with other rights is a page filled and then
      mapped with these. */
  lemma MappedAgain(st: Store, t: Table, st1: Store, m2: Memory, st2: Store, path: Path, f: Frame, e: Pte, e': Pte)
    requires Mapped(st, t, st1, path, e) && SameOutside(st1.mem, m2, {f})
    requires f in st.mem && f !in Frames(t) && f !in st.pool
    requires Mapped(st1.(mem := m2), Put(t, path, e, st.pool), st2, path, e')
    ensures f in st2.mem && Mapped(st.(mem := st.mem[f := st2.mem[f]]), t, st2, path, e')
  {
    hide WellFormed, Holds, Frames, Missing, Put, IsFrame, PathOk;
    PutTwice(t, path, e, e', st.pool, st1.pool);
    PutFrames(t, path, e, st.pool);
    var n := Missing(t, path);
    assert f !in Taken(st.pool, n);
    assert Taken(st1.pool, 0) == {};
    assert Claimed(st1.desc, st1.pool, 0) == st1.desc;
  }

  /** A page of a file mapped by do_mmap. */
  lemma LoaderIsMemStep(s: Sys, m: Memory, i: nat, path: Path, prot: Prot, contents: Data, fs: seq<Frame>, desc: Descs,
                        st1: Store, m2: Memory, st2: Store)
    requires Inv(s) && InMemory(m, s) && Enabled(s, Loading(i, path, prot, contents, fs)) && Mappable(path)
    requires |s.spaces[i].slots| == ENTRIES && fs[0] in m
    requires Mapped(Store(m, fs[1..], desc), Root(s, i), st1, path, Leaf(fs[0], prot.(write := true)))
    requires SameOutside(st1.mem, m2, {fs[0]})
    requires Mapped(st1.(mem := m2), Put(Root(s, i), path, Leaf(fs[0], prot.(write := true)), fs[1..]), st2, path, Leaf(fs[0], prot))
    ensures MemStep(s, m, Loading(i, path, prot, contents, fs), st2.mem)
  {
    hide Inv, Holds, Frames, SlotFrames, Lookup, Total, Missing, Mapped, InMemory, Put, MemStep;
    FrameOutside(s, i, fs);
    MappedAgain(Store(m, fs[1..], desc), Root(s, i), st1, m2, st2, path, fs[0], Leaf(fs[0], prot.(write := true)), Leaf(fs[0], prot));
    LoadIsMemStep(s, m, m[fs[0] := st2.mem[fs[0]]], i, path, prot, contents, fs, desc, st2);
  }

  lemma FrameOutside(s: Sys, i: nat, fs: seq<Frame>)
    requires Inv(s) && i < |s.spaces| && Free(s, fs) && fs != []
    ensures |s.spaces[i].slots| == ENTRIES && fs[0] !in Frames(Root(s, i)) && fs[0] !in fs[1..]
  {
    hide Inv, Frames, SlotFrames, Separate;
    SpaceShape(s, i);
    FullShape(s.spaces[i], s.kernel);
    FreeUnowned(s, fs);
  }

  /** A page that keeps its tables: its entry changed in place. */
  lemma InPlaceMapped(s: Sys, m: Memory, i: nat, path: Path, e: Pte, pool: seq<Frame>, desc: Descs, st: Store)
    requires Inv(s) && InMemory(m, s) && i < |s.spaces| && Mappable(path) && |s.spaces[i].slots| == ENTRIES
    requires At4(s, i, path).present && Mapped(Store(m, pool, desc), Root(s, i), st, path, e)
    ensures Addressed(s, i, path) && Lacking(s, i, path) == 0
    ensures var s' := MapPage(s, i, path, e, []);
            && |s'.spaces| == |s.spaces| && s'.kernel.Link? && Holds(st.mem, s'.kernel.sub) && HoldsSpace(st.mem, s', i)
            && SameOutside(m, st.mem, TablesFor(s, i, path))
  {
    hide Inv, Holds, Frames, SlotFrames, Lookup, WellFormed, Missing, MapPage;
    MappedInSpace(s, m, i, path, e, pool, desc, st);
    PresentNothingLacking(s, i, path);
    MapNoPool(s, i, path, e, pool);
    assert Taken(pool, 0) == {};
  }

  /** A fault that is resolved without a frame: the permissions changed. */
  lemma KeptFrameIsMemStep(s: Sys, m: Memory, a: Access, fs: seq<Frame>, pool: seq<Frame>, desc: Descs, st: Store)
    requires Inv(s) && InMemory(m, s) && Enabled(s, Faulting(a, fs)) && Handle(s, a, fs).1 == Resolved
    requires At4(s, a.space, a.path).present && !CopiesShared(s, a, fs) && |s.spaces[a.space].slots| == ENTRIES
    requires Region(s, a).Some?
    requires Mapped(Store(m, pool, desc), Root(s, a.space), st, a.path, Leaf(At4(s, a.space, a.path).frame, Region(s, a).value))
    ensures MemStep(s, m, Faulting(a, fs), st.mem)
  {
    hide Inv, Holds, Frames, SlotFrames, Lookup, Total, Missing, Taken, Demand, Mapped, InMemory, Free, Copy, MapPage;
    var i, path, f, prot := a.space, a.path, At4(s, a.space, a.path).frame, Region(s, a).value;
    RegionFacts(s, a);
    PageFacts(s, a, fs);
    InPlaceMapped(s, m, i, path, Leaf(f, prot), pool, desc, st);
    if f in s.desc {
      UnflagMaps(s, f, i, path, Leaf(f, prot));
    }
  }

  lemma UnflagMaps(s: Sys, f: Frame, i: nat, path: Path, e: Pte)
    requires Addressed(s, i, path) && Lacking(s, i, path) == 0 && f in s.desc
    ensures Addressed(Unflag(s, f), i, path) && Lacking(Unflag(s, f), i, path) == 0
    ensures var d, p := MapPage(Unflag(s, f), i, path, e, []), MapPage(s, i, path, e, []);
            d.spaces == p.spaces && d.kernel == p.kernel
  {
    hide WellFormed, Missing, Lookup, Put, Claimed, KernelPut;
  }

  /** A fault that ends the process or stops the machine touches no table. */
  lemma UnresolvedIsMemStep(s: Sys, m: Memory, a: Access, fs: seq<Frame>)
    requires Inv(s) && InMemory(m, s) && Enabled(s, Faulting(a, fs)) && Handle(s, a, fs).1 != Resolved
    ensures MemStep(s, m, Faulting(a, fs), m)
  {
    hide Inv, Holds, Frames, SlotFrames, Lookup, Total, Missing, Taken, Demand, Free, Copy, MapPage, Writes;
    var s' := Handle(s, a, fs).0;
    assert s'.spaces == s.spaces && s'.kernel == s.kernel;
    if a.space < |s'.spaces| {
      assert HoldsSpace(m, s, a.space);
    }
  }

  /** A page given up by v_free_page. */
  lemma ReleaseIsMemStep(s: Sys, m: Memory, i: nat, path: Path, pool: seq<Frame>, desc: Descs, st: Store)
    requires Inv(s) && InMemory(m, s) && Enabled(s, Releasing(i, path)) && |s.spaces[i].slots| == ENTRIES
    requires Mapped(Store(m, pool, desc), Root(s, i), st, path, At4(s, i, path).(present := false, rest := 0))
    ensures MemStep(s, m, Releasing(i, path), st.mem)
  {
    hide Inv, Holds, Frames, SlotFrames, Lookup, Total, Missing, Mapped, InMemory, MapPage;
    InPlaceMapped(s, m, i, path, At4(s, i, path).(present := false, rest := 0), pool, desc, st);
    ReleaseInv(s, i, path);
  }

  /** Exec by get_kduplicate_curr_self_ref_PML4. */
  lemma ExecIsMemStep(s: Sys, m: Memory, fs: seq<Frame>, m': Memory)
    requires Inv(s) && Free(s, fs) && fs != [] && s.kernel.Link?
    requires SameOutside(m, m', {fs[0]}) && Holds(m', Full(EmptyRoot(fs[0]), s.kernel))
    ensures Enabled(s, Execing(fs)) && MemStep(s, m, Execing(fs), m')
  {
    hide Inv, Holds;
    assert fs[0] in Taken(fs, |fs|);
    FullHolds(m', EmptyRoot(fs[0]), s.kernel);
  }

  /** A fork into clean pages by cow_fork_page_table. */
  lemma ForkIsMemStep(s: Sys, m: Memory, i: nat, fs: seq<Frame>, raw: Memory, st: Store, d: Table)
    requires Inv(s) && InMemory(m, s) && i < |s.spaces| && Free(s, fs) && Backed(m, fs) && |s.spaces[i].slots| == ENTRIES
    requires SpaceForked(Store(m, fs, s.desc), raw, st, Root(s, i), d) && Clean(raw, Shallow(Root(s, i)), d, 4)
    ensures var op := Forking(i, Bare(d), fs);
            && Enabled(s, op) && MemStep(s, m, op, st.mem) && st.desc == Step(s, op).desc
  {
    hide Inv, WellFormed, Separate, Frames, Lookup, Total, Count, Tables, IsFrame, Holds, Cleared, ChildOf, CopyOf, Clean;
    var t, k := s.spaces[i], s.kernel;
    SpaceShape(s, i);
    FullShape(t, k);
    SpaceRepresented(s, m, i, fs);
    ForkDelivers(Store(m, fs, s.desc), raw, st, t, k, d);
    ForkedHolds(s, m, i, fs, raw, st, d);
    KernelUncounted(s.desc, fs, t, k);
  }

  lemma KernelUncounted(desc: Descs, fs: seq<Frame>, t: Table, k: Slot)
    requires |t.slots| == ENTRIES && Tables(t.slots, 4) + 1 <= |fs|
    ensures Tables(Full(t, k).slots, 4) == Tables(t.slots, 4)
    ensures ForkDesc(desc, fs, Tables(t.slots, 4) + 1, Full(t, k).slots, 4) == ForkDesc(desc, fs, Tables(t.slots, 4) + 1, t.slots, 4)
  {
    hide Count, Tables, Taken;
    KernelNotCounted(t, k);
  }

  lemma ForkedHolds(s: Sys, m: Memory, i: nat, fs: seq<Frame>, raw: Memory, st: Store, d: Table)
    requires i < |s.spaces| && |s.spaces[i].slots| == ENTRIES && s.spaces[i].slots[KERNEL] == Entry(ABSENT)
    requires s.kernel.Link? && InMemory(m, s)
    requires SpaceForked(Store(m, fs, s.desc), raw, st, Root(s, i), d)
    requires RootChild(Root(s, i), d) == Full(Bare(d), s.kernel)
    requires Frames(Root(s, i)) == Frames(s.spaces[i]) + SlotFrames(s.kernel)
    ensures |Cleared(s.spaces[i], 4).slots| == ENTRIES && Holds(st.mem, UserPart(Cleared(s.spaces[i], 4), s.kernel.e))
    ensures Holds(st.mem, UserPart(Bare(d), s.kernel.e))
    ensures SameOutside(m, st.mem, Frames(s.spaces[i]) + Taken(fs, |fs|))
  {
    var t, k := s.spaces[i], s.kernel;
    assert Cleared(t, 4).slots[KERNEL] == Entry(ABSENT);
    assert Cleared(Full(t, k), 4).slots == Full(Cleared(t, 4), k).slots;
    hide Frames, Holds, Cleared, Tables, CopyOf, Count;
    FullHolds(st.mem, Cleared(t, 4), k);
    FullHolds(st.mem, Bare(d), k);
    forall f | f in m && f !in Frames(t) + Taken(fs, |fs|) ensures st.mem[f] == m[f] {
      if f in SlotFrames(k) {
        HoldsDetermines(m, st.mem, k.sub, f);
      }
    }
  }
}
