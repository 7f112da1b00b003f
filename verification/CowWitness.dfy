/** Concrete states of the copy-on-write protocol in which its failing steps happen:
    two address spaces, one kernel page and one user frame. */
module CowWitness {
  import opened PageBits
  import opened PageTree
  import opened PageStore
  import opened PageFork
  import opened PageForkRoot
  import opened SpaceTables
  import opened CowMemory
  import opened CowFaults
  import opened CowProgress
  import opened CowProtocol
  import opened CowOutside

  const ROOT_A: Frame := Frame(0x1000)
  const ROOT_B: Frame := Frame(0x2000)
  const TABLES_A: seq<Frame> := [Frame(0x3000), Frame(0x4000), Frame(0x5000)]
  const TABLES_B: seq<Frame> := [Frame(0x6000), Frame(0x7000), Frame(0x8000)]
  const KERNEL_TABLE: Frame := Frame(0x9000)
  const KERNEL_TABLES: seq<Frame> := [Frame(0xB000), Frame(0xC000)]
  const FRAME: Frame := Frame(0xA000)
  const SPARE: Frame := Frame(0xD000)

  function Page(): Path { [0, 0, 0, 0] }

  function KernelPage(): Path { [511, 511, 0, 0] }

  const USER_RW := Prot(true, true, false)
  const USER_RO := Prot(false, true, false)
  const KERNEL_RW := Prot(true, false, false)
  const DIRECT := Prot(true, false, true)

  function KernelSlot(): Slot { Link(LinkPte(KERNEL_TABLE), Empty(KERNEL_TABLE)) }

  function Roots(): seq<Table> { [EmptyRoot(ROOT_A), EmptyRoot(ROOT_B)] }

  function Regions2(): seq<map<Path, Prot>> { [map[Page() := USER_RW], map[Page() := USER_RW]] }

  /** Two spaces without pages; the page at address 0 is in a region of both. */
  function Bases(kprot: Prot, direct: map<Path, Frame>, desc: Descs, more: set<Frame>): Sys {
    Sys(Roots(), Regions2(), desc, {KERNEL_TABLE, ROOT_A, ROOT_B} + more, map f | f in desc :: [0],
        KernelSlot(), map[KernelPage() := kprot], direct)
  }

  lemma KernelSlotOk()
    ensures KernelOk(KernelSlot()) && SlotFrames(KernelSlot()) == {KERNEL_TABLE}
    ensures Missing(KernelSlot().sub, KernelPage()[1..]) == 2
    ensures forall q: Path :: Lookup(KernelSlot().sub, q) == ABSENT
  {
    EmptyTable(KERNEL_TABLE, [511, 0, 0]);
    assert KernelPage()[1..] == [511, 0, 0];
  }

  lemma RootFacts(f: Frame)
    requires IsFrame(f)
    ensures var r := EmptyRoot(f);
            && UserSpace(r) && Frames(r) == {f} && Missing(r, Page()) == 3
            && (forall q: Path :: UserPath(q) ==> Lookup(r, q) == ABSENT)
  {
    EmptyRootSpace(f);
  }

  lemma BasesTables(kprot: Prot, direct: map<Path, Frame>, desc: Descs, more: set<Frame>)
    ensures var s := Bases(kprot, direct, desc, more); TablesOk(s.spaces, s.kernel, s.owned)
  {
    hide UserSpace, Lookup, EmptyRoot, Missing, Frames, SlotFrames;
    KernelSlotOk();
    RootFacts(ROOT_A);
    RootFacts(ROOT_B);
    var k, a, b := KernelSlot(), EmptyRoot(ROOT_A), EmptyRoot(ROOT_B);
    AddTables([], k, {KERNEL_TABLE}, a, {ROOT_A});
    AddTables([a], k, {KERNEL_TABLE, ROOT_A}, b, {ROOT_B});
    assert [a] + [b] == Roots() && [] + [a] == [a];
    OwnMore(Roots(), k, {KERNEL_TABLE, ROOT_A, ROOT_B}, more);
    assert {KERNEL_TABLE, ROOT_A} + {ROOT_B} == {KERNEL_TABLE, ROOT_A, ROOT_B};
  }

  lemma BasesEmpty(f: Frame)
    ensures Total(Roots(), f) == 0
  {
    hide Count, EmptyRoot, Total;
    var a, b := EmptyRoot(ROOT_A), EmptyRoot(ROOT_B);
    RootCount(ROOT_A, f);
    RootCount(ROOT_B, f);
    TotalLast([], a, f);
    TotalLast([a], b, f);
    assert [] + [a] == [a] && [a] + [b] == Roots();
    NoSpaces(f);
  }

  lemma NoSpaces(f: Frame)
    ensures Total([], f) == 0
  {
  }

  lemma BasesFacts(kprot: Prot, direct: map<Path, Frame>, desc: Descs, more: set<Frame>)
    ensures var s := Bases(kprot, direct, desc, more);
            && Shapes(s) && Addressed(s, 0, KernelPage()) && Lacking(s, 0, KernelPage()) == 2
            && Addressed(s, 0, Page()) && Lacking(s, 0, Page()) == 3
            && Addressed(s, 1, Page()) && Lacking(s, 1, Page()) == 3
            && (forall j: nat, q: Path :: j < 2 && Mappable(q) ==> At4(s, j, q) == ABSENT)
    ensures Supply(KERNEL_TABLES, {}) && Supply(TABLES_A, {}) && Supply(TABLES_B, {})
  {
    hide Lookup, EmptyRoot, Missing, Frames, SlotFrames, Separate;
    KernelSlotOk();
    RootFacts(ROOT_A);
    RootFacts(ROOT_B);
  }

  // ---------- one kernel page ----------

  function WithKernel(kprot: Prot, e: Pte, direct: map<Path, Frame>, desc: Descs, more: set<Frame>): Sys {
    BasesFacts(kprot, direct, desc, more);
    MapPage(Bases(kprot, direct, desc, more), 0, KernelPage(), e, KERNEL_TABLES)
  }

  ghost predicate Clear(desc: Descs, more: set<Frame>) {
    desc.Keys + more <= {FRAME, SPARE} + Taken(TABLES_B, 3) && more <= {FRAME, SPARE}
  }

  lemma Distinct(desc: Descs, more: set<Frame>)
    requires Clear(desc, more)
    ensures Supply(KERNEL_TABLES, {KERNEL_TABLE, ROOT_A, ROOT_B} + more) && Taken(KERNEL_TABLES, 2) !! desc.Keys
    ensures var owned := {KERNEL_TABLE, ROOT_A, ROOT_B} + more + Taken(KERNEL_TABLES, 2);
            && Supply(TABLES_A, owned) && Taken(TABLES_A, 3) !! desc.Keys && Supply(TABLES_B, owned + Taken(TABLES_A, 3))
  {
  }

  lemma FramesOk()
    ensures IsFrame(FRAME) && IsFrame(SPARE) && FRAME != SPARE && SPARE != Frame(0) && FRAME != Frame(0)
    ensures forall f :: f in Taken(TABLES_B, 3) ==> IsFrame(f) && f != FRAME && f != SPARE && f != Frame(0)
    ensures FRAME !in {KERNEL_TABLE, ROOT_A, ROOT_B} + Taken(KERNEL_TABLES, 2) + Taken(TABLES_A, 3) + Taken(TABLES_B, 3)
    ensures SPARE !in {KERNEL_TABLE, ROOT_A, ROOT_B} + Taken(KERNEL_TABLES, 2) + Taken(TABLES_A, 3) + Taken(TABLES_B, 3)
    ensures UserPath(Page()) && InKernel(KernelPage())
  {
  }

  lemma WithKernelFacts(kprot: Prot, e: Pte, direct: map<Path, Frame>, desc: Descs, more: set<Frame>)
    requires Clear(desc, more)
    ensures var s, b := WithKernel(kprot, e, direct, desc, more), Bases(kprot, direct, desc, more);
            && Shapes(s) && TablesOk(s.spaces, s.kernel, s.owned)
            && s == b.(kernel := s.kernel, owned := b.owned + Taken(KERNEL_TABLES, 2))
            && (forall j: nat, q: Path :: j < 2 && Mappable(q) ==> At4(s, j, q) == if q == KernelPage() then e else ABSENT)
            && (forall f :: Total(s.spaces, f) == 0)
            && Addressed(s, 0, Page()) && Lacking(s, 0, Page()) == 3
            && Addressed(s, 1, Page()) && Lacking(s, 1, Page()) == 3
  {
    hide Lookup, EmptyRoot, Missing, Total, TablesOk, KernelPut;
    var b := Bases(kprot, direct, desc, more);
    BasesFacts(kprot, direct, desc, more);
    BasesTables(kprot, direct, desc, more);
    Distinct(desc, more);
    MapFacts(b, 0, KernelPage(), e, KERNEL_TABLES);
    MapTables(b, 0, KernelPage(), e, KERNEL_TABLES);
    forall f ensures Total(Roots(), f) == 0 {
      BasesEmpty(f);
    }
    assert Claimed(desc, KERNEL_TABLES, 2) == desc;
  }

  /** A page of the kernel's own, such as a kernel stack, whose frame kept the flag of
      an earlier use. */
  function Flagged(): Sys {
    WithKernel(KERNEL_RW, Leaf(FRAME, KERNEL_RW), map[], map[FRAME := Desc(1, true)], {FRAME})
  }

  lemma RegionsOk(s: Sys, kprot: Prot)
    requires s.vma == Regions2() && s.kvma == map[KernelPage() := kprot] && !kprot.user && s.direct.Keys <= {KernelPage()}
    ensures Regions(s)
  {
    FramesOk();
    forall i: nat, path: Path | i < |s.vma| && path in s.vma[i] ensures UserPath(path) && s.vma[i][path].user {
    }
  }

  lemma RootsTwo()
    ensures |Roots()| == 2
  {
  }

  lemma FlaggedInv()
    ensures Inv(Flagged()) && Flagged().kvma == map[KernelPage() := KERNEL_RW] && |Flagged().spaces| == 2
    ensures At4(Flagged(), 0, KernelPage()) == Leaf(FRAME, KERNEL_RW) && Flagged().desc == map[FRAME := Desc(1, true)]
  {
    hide Lookup, Missing, Total, TablesOk, WithKernel, Roots, IsFrame, KernelSlot, Claimed, Regions;
    var desc: Descs := map[FRAME := Desc(1, true)];
    WithKernelFacts(KERNEL_RW, Leaf(FRAME, KERNEL_RW), map[], desc, {FRAME});
    RootsTwo();
    FramesOk();
    var s := Flagged();
    RegionsOk(s, KERNEL_RW);
    forall q: Path | KernelPath(q) ensures KernelPageOk(s, q) {
      assert KernelAt(s, q) == At4(s, 0, q);
    }
    forall j: nat, q: Path | j < |s.spaces| && UserPath(q) ensures PageOk(s, j, q) {
    }
  }

  /** A user write to that page: the handler reports an error and the machine stops;
      the process is not terminated. */
  lemma FlaggedHalts()
    ensures var s, a := Flagged(), Access(0, KernelPage(), true, true);
            && Inv(s) && CanHandle(s, a, []) && !Allowed(Translated(s, 0, KernelPage()), a)
            && Handle(s, a, []).1 == Halted
  {
    hide Lookup, Missing, Total, TablesOk, Inv, Handle, Flagged;
    var s, a := Flagged(), Access(0, KernelPage(), true, true);
    FlaggedInv();
    FramesOk();
    HandlePossible(s, a, []);
    HaltsExactly(s, a, []);
  }

  // ---------- one user page ----------

  /** The kernel page shows the user frame, as its map of physical memory does. */
  function Direct(desc: Descs): Sys {
    WithKernel(DIRECT, Leaf(FRAME, KERNEL_RW), map[KernelPage() := FRAME], desc, {})
  }

  /** The first space has its page, mapped to the user frame through `e`. */
  function OnePage(e: Pte, desc: Descs): Sys
    requires Clear(desc, {})
  {
    WithKernelFacts(DIRECT, Leaf(FRAME, KERNEL_RW), map[KernelPage() := FRAME], desc, {});
    BasesFacts(DIRECT, map[KernelPage() := FRAME], desc, {});
    MapPage(Direct(desc), 0, Page(), e, TABLES_A)
  }

  /** Everything but the user pages. */
  ghost predicate Around(s: Sys, desc: Descs, tables: set<Frame>) {
    && |s.spaces| == 2 && s.vma == Regions2() && s.desc == desc && s.data == (map f | f in desc :: [0])
    && s.owned == {KERNEL_TABLE, ROOT_A, ROOT_B} + Taken(KERNEL_TABLES, 2) + tables
    && s.kvma == map[KernelPage() := DIRECT] && s.direct == map[KernelPage() := FRAME]
    && Shapes(s) && TablesOk(s.spaces, s.kernel, s.owned)
    && (forall j: nat, q: Path :: j < 2 && KernelPath(q) ==>
          At4(s, j, q) == if q == KernelPage() then Leaf(FRAME, KERNEL_RW) else ABSENT)
  }

  lemma OnePageFacts(e: Pte, desc: Descs)
    requires Clear(desc, {})
    ensures var s := OnePage(e, desc);
            && Around(s, desc, Taken(TABLES_A, 3))
            && (forall j: nat, q: Path :: j < 2 && UserPath(q) ==>
                  At4(s, j, q) == if j == 0 && q == Page() then e else ABSENT)
            && (forall f :: Total(s.spaces, f) == Maps(e, f))
            && Addressed(s, 1, Page()) && Lacking(s, 1, Page()) == 3
  {
    hide Lookup, EmptyRoot, Missing, Total, TablesOk, Put, WithKernel;
    WithKernelFacts(DIRECT, Leaf(FRAME, KERNEL_RW), map[KernelPage() := FRAME], desc, {});
    BasesFacts(DIRECT, map[KernelPage() := FRAME], desc, {});
    Distinct(desc, {});
    FramesOk();
    var b := Direct(desc);
    MapFacts(b, 0, Page(), e, TABLES_A);
    MapTables(b, 0, Page(), e, TABLES_A);
    assert Claimed(desc, TABLES_A, 3) == desc;
  }

  /** The kernel's part of such a state is in order. */
  lemma AroundOk(s: Sys, desc: Descs, tables: set<Frame>)
    requires Around(s, desc, tables)
    ensures Regions(s) && s.data.Keys == s.desc.Keys && forall q: Path :: KernelPath(q) ==> KernelPageOk(s, q)
  {
    hide Lookup, Shapes, TablesOk, IsFrame, Regions;
    FramesOk();
    RegionsOk(s, DIRECT);
    forall q: Path | KernelPath(q) ensures KernelPageOk(s, q) {
      assert KernelAt(s, q) == At4(s, 0, q);
    }
  }

  // ---------- leftovers ----------

  function FreeTables(): Descs { map f | f in Taken(TABLES_B, 3) :: Desc(0, false) }

  /** A page that its process may write; frames for tables of the other are free. */
  function Private(): Sys { OnePage(Leaf(FRAME, USER_RW), FreeTables()[FRAME := Desc(1, false)]) }

  lemma PrivateFacts()
    ensures var s := Private();
            && |s.spaces| == 2 && s.vma == Regions2() && s.desc == FreeTables()[FRAME := Desc(1, false)]
            && FRAME in s.data && s.data[FRAME] == [0] && At4(s, 0, Page()) == Leaf(FRAME, USER_RW)
            && At4(s, 1, Page()) == ABSENT && Addressed(s, 1, Page()) && Lacking(s, 1, Page()) == 3
  {
    hide OnePage, Missing, Lookup, TablesOk, Total, Shapes;
    FramesOk();
    OnePageFacts(Leaf(FRAME, USER_RW), FreeTables()[FRAME := Desc(1, false)]);
  }

  lemma PrivateInv()
    ensures Inv(Private())
  {
    hide Lookup, Missing, Total, TablesOk, OnePage, EmptyRoot, IsFrame, Regions;
    var desc := FreeTables()[FRAME := Desc(1, false)];
    OnePageFacts(Leaf(FRAME, USER_RW), desc);
    var s := Private();
    AroundOk(s, desc, Taken(TABLES_A, 3));
    FramesOk();
    Distinct(desc, {});
    forall f | f in s.desc ensures FrameOk(s, f) {
    }
    forall j: nat, q: Path | j < |s.spaces| && UserPath(q) ensures PageOk(s, j, q) {
    }
  }

  /** The first process has stored a seven in its page and given the page up. */
  lemma PrivateReleased()
    ensures var s, a := Private(), Access(0, Page(), true, true);
            && Inv(s) && Enabled(s, StoreByte(a, 0, 7)) && At4(s, 0, Page()).frame == FRAME
            && var s2 := StoredAndReleased(s, a, 0, 7);
            && |s2.spaces| == 2 && s2.vma == Regions2() && s2.desc == FreeTables()[FRAME := Desc(0, false)]
            && Addressed(s2, 1, Page()) && Lacking(s2, 1, Page()) == 3 && At4(s2, 1, Page()) == ABSENT && Inv(s2)
  {
    hide Lookup, Missing, Total, TablesOk, OnePage, IsFrame, Inv, MapPage, FreeTables, Private, Shapes;
    var s, a := Private(), Access(0, Page(), true, true);
    PrivateInv();
    PrivateFacts();
    FramesOk();
    var s1 := Step(s, StoreByte(a, 0, 7));
    StepInv(s, StoreByte(a, 0, 7));
    StepInv(s1, Releasing(0, Page()));
    ReleaseInv(s1, 0, Page());
    var e := At4(s1, 0, Page()).(present := false, rest := 0);
    EntryFacts(s1, 0, Page(), e);
    OtherLacking(s1, e);
    assert At4(MapPage(s1, 0, Page(), e, []), 1, Page()) == At4(s1, 1, Page());
    assert FreeTables()[FRAME := Desc(1, false)][FRAME := Desc(0, false)] == FreeTables()[FRAME := Desc(0, false)];
  }

  lemma OtherLacking(s: Sys, e: Pte)
    requires |s.spaces| == 2 && Addressed(s, 0, Page()) && Lacking(s, 0, Page()) == 0
    requires Addressed(s, 1, Page()) && Lacking(s, 1, Page()) == 3
    ensures var s' := MapPage(s, 0, Page(), e, []);
            |s'.spaces| == 2 && Addressed(s', 1, Page()) && Lacking(s', 1, Page()) == 3
  {
    hide Missing, Put, WellFormed;
  }

  /** The second process then asks for its page, gets the frame, and sees the seven. */
  lemma SevenSeen()
    ensures var s, a, b, fs := Private(), Access(0, Page(), true, true), Access(1, Page(), false, true), [FRAME] + TABLES_B;
            && Inv(s) && Enabled(s, StoreByte(a, 0, 7))
            && var s2 := StoredAndReleased(s, a, 0, 7);
            && Inv(s2) && Enabled(s2, Faulting(b, fs))
            && View(Handle(s2, b, fs).0, 1, Page()) == Some([7])
  {
    hide Lookup, Missing, Total, TablesOk, Private, Inv, StoredAndReleased, Handle, View;
    var s, a, b, fs := Private(), Access(0, Page(), true, true), Access(1, Page(), false, true), [FRAME] + TABLES_B;
    PrivateReleased();
    var s2 := StoredAndReleased(s, a, 0, 7);
    FramesOk();
    TablesFree(s2);
    HandlePossible(s2, b, fs);
    PrivateFacts();
    LeftoverSeen(s, a, 0, 7, b, fs);
    var zero: Data := [0];
    assert zero[0 := 7] == [7];
  }

  lemma TablesFree(s: Sys)
    requires s.desc == FreeTables()[FRAME := Desc(0, false)]
    ensures Free(s, [FRAME] + TABLES_B)
  {
    FramesOk();
    assert forall k :: 0 <= k < 3 ==> TABLES_B[k] in Taken(TABLES_B, 3);
  }

  // ---------- two user pages ----------

  const SHARED: Descs := map[FRAME := Desc(2, true), SPARE := Desc(0, false)]

  /** Both spaces have their page, read-only, mapped to the same flagged frame. */
  function Shared(): Sys {
    var e := Leaf(FRAME, USER_RO);
    OnePageFacts(e, SHARED);
    BasesFacts(DIRECT, map[KernelPage() := FRAME], SHARED, {});
    MapPage(OnePage(e, SHARED), 1, Page(), e, TABLES_B)
  }

  lemma SharedFacts()
    ensures var s, e := Shared(), Leaf(FRAME, USER_RO);
            && Around(s, SHARED, Taken(TABLES_A, 3) + Taken(TABLES_B, 3))
            && (forall j: nat, q: Path :: j < 2 && UserPath(q) ==> At4(s, j, q) == if q == Page() then e else ABSENT)
            && (forall f :: Total(s.spaces, f) == 2 * Maps(e, f))
  {
    hide Lookup, Missing, Total, TablesOk, Put, OnePage;
    var e := Leaf(FRAME, USER_RO);
    OnePageFacts(e, SHARED);
    BasesFacts(DIRECT, map[KernelPage() := FRAME], SHARED, {});
    Distinct(SHARED, {});
    FramesOk();
    var s1 := OnePage(e, SHARED);
    SupplyB();
    MapFacts(s1, 1, Page(), e, TABLES_B);
    MapTables(s1, 1, Page(), e, TABLES_B);
    assert Claimed(SHARED, TABLES_B, 3) == SHARED;
  }

  lemma SupplyB()
    ensures Supply(TABLES_B, {KERNEL_TABLE, ROOT_A, ROOT_B} + Taken(KERNEL_TABLES, 2) + Taken(TABLES_A, 3))
  {
  }

  lemma SharedInv()
    ensures Inv(Shared())
  {
    hide Lookup, Missing, Total, TablesOk, Shared, IsFrame, Regions;
    SharedFacts();
    var s := Shared();
    AroundOk(s, SHARED, Taken(TABLES_A, 3) + Taken(TABLES_B, 3));
    FramesOk();
    forall f | f in s.desc ensures FrameOk(s, f) {
    }
    forall j: nat, q: Path | j < |s.spaces| && UserPath(q) ensures PageOk(s, j, q) {
    }
  }

  /** After a fault of `a` in that state, a write by the second process makes the frame
      writable while the page of the first is still mapped to it. */
  ghost predicate ThenShared(a: Access, fs: seq<Frame>) {
    var s, b := Shared(), Access(1, Page(), true, true);
    && Inv(s) && CanHandle(s, a, fs) && !Allowed(Translated(s, a.space, a.path), a) && Robs(s, a, fs)
    && var s1 := Handle(s, a, fs).0;
    && !Inv(s1) && HandlePre(s1, b, [])
    && var (s2, o) := Handle(s1, b, []);
    && o == Resolved && |s2.spaces| > 1 && At4(s2, 1, Page()).write && At4(s2, 0, Page()).present
    && At4(s2, 0, Page()).frame == At4(s2, 1, Page()).frame
  }

  lemma RobbedThenShared(a: Access, fs: seq<Frame>)
    requires CanHandle(Shared(), a, fs) && !Allowed(Translated(Shared(), a.space, a.path), a) && Robs(Shared(), a, fs)
    requires Translated(Shared(), a.space, a.path).frame == FRAME
    ensures ThenShared(a, fs)
  {
    hide Lookup, Missing, Total, TablesOk, Shared, Inv, Handle, Robs, Shapes, CanHandle;
    var s, b := Shared(), Access(1, Page(), true, true);
    SharedInv();
    SharedFacts();
    FramesOk();
    HandleInv(s, a, fs);
    RobbedShares(s, a, fs, b, [], 0, Page());
  }

  /** A write by the first process finds no frame for the copy and ends it. */
  lemma SharedStarves()
    ensures ThenShared(Access(0, Page(), true, true), [])
    ensures Handle(Shared(), Access(0, Page(), true, true), []).1 == Killed
  {
    hide Lookup, Missing, Total, TablesOk, Shared, Inv, Shapes, ThenShared;
    var s, a := Shared(), Access(0, Page(), true, true);
    SharedInv();
    SharedFacts();
    FramesOk();
    HandlePossible(s, a, []);
    PageFacts(s, a, []);
    RobbedThenShared(a, []);
  }

  /** A write by the first process to the page of the map of physical memory that shows
      the frame: it takes a reference that belongs to one of the user pages, and the
      page of the map gets another frame. */
  lemma DirectRobs()
    ensures ThenShared(Access(0, KernelPage(), true, true), [SPARE])
    ensures var (s1, o) := Handle(Shared(), Access(0, KernelPage(), true, true), [SPARE]);
            && o == Resolved && FRAME in s1.desc && s1.desc[FRAME].refcount == 1 && Total(s1.spaces, FRAME) == 2
            && |s1.spaces| == 2 && At4(s1, 0, KernelPage()).frame == SPARE
  {
    hide Lookup, Missing, Total, TablesOk, Shared, Inv, Shapes, ThenShared, Copy;
    var s, a := Shared(), Access(0, KernelPage(), true, true);
    SharedInv();
    SharedFacts();
    FramesOk();
    SpareFree(s);
    KernelPageThere(s);
    HandlePossible(s, a, [SPARE]);
    PageFacts(s, a, [SPARE]);
    RobbedThenShared(a, [SPARE]);
    CopyFacts(s, 0, KernelPage(), DIRECT, [SPARE]);
  }

  lemma SpareFree(s: Sys)
    requires s.desc == SHARED
    ensures Free(s, [SPARE])
  {
    FramesOk();
  }

  lemma KernelPageThere(s: Sys)
    requires Inv(s) && |s.spaces| == 2 && At4(s, 0, KernelPage()).present
    ensures Addressed(s, 0, KernelPage()) && Lacking(s, 0, KernelPage()) == 0
  {
    hide Lookup, Missing, Total, TablesOk, PageOk, FrameOk, KernelPageOk, Regions;
    PresentNothingLacking(s, 0, KernelPage());
  }

  // ---------- regions outside user addresses ----------

  /** The first process maps a region over the window and reads in it: slot 256 of its
      root is for user code from then on. */
  lemma WindowRun()
    ensures var s := Private();
            && Inv(s) && Enabled(s, Mapping(0, RootPath(), USER_RW)) && Breaks(s, Mapping(0, RootPath(), USER_RW))
            && var s1, a := Step(s, Mapping(0, RootPath(), USER_RW)), Access(0, RootPath(), false, true);
            && HandlePre(s1, a, [])
            && var (s2, o) := Handle(s1, a, []);
            && o == Resolved && |s2.spaces| == 2 && |s2.spaces[0].slots| == ENTRIES
            && s2.spaces[0].slots[SELF_REF] == Entry(Leaf(s2.spaces[0].frame, USER_RW))
  {
    hide Inv, Handle, Private, RootPath, Enabled, Breaks;
    PrivateInv();
    PrivateFacts();
    FramesOk();
    WindowFault(Private(), 0, USER_RW, []);
  }

  function Low(): Path { [511, 0, 0, 0] }

  lemma LowLacking()
    ensures Placed(Private(), 0, Low()) && Lacking(Private(), 0, Low()) == 2 && !At4(Private(), 0, Low()).present
    ensures KernelPath(Low()) && !InKernel(Low())
  {
    hide Lookup, Missing, Total, TablesOk, OnePage, IsFrame, Put;
    var desc := FreeTables()[FRAME := Desc(1, false)];
    FramesOk();
    OnePageFacts(Leaf(FRAME, USER_RW), desc);
    PrivateKernel();
  }

  lemma PrivateKernel()
    ensures Private().kernel.Link? && WellFormed(Private().kernel.sub, 3) && Missing(Private().kernel.sub, Low()[1..]) == 2
  {
    var desc := FreeTables()[FRAME := Desc(1, false)];
    FramesOk();
    hide IsFrame, Lookup, Total, TablesOk;
    BasesFacts(DIRECT, map[KernelPage() := FRAME], desc, {});
    WithKernelFacts(DIRECT, Leaf(FRAME, KERNEL_RW), map[KernelPage() := FRAME], desc, {});
    assert Private().kernel == Direct(desc).kernel;
    assert Low()[1..] == [0, 0, 0] && KernelPage()[1..] == [511, 0, 0];
    KernelSlotOk();
    assert Direct(desc).kernel.sub.slots[0] == Entry(ABSENT);
  }

  /** The first process maps a region in slot 511 below the kernel's and reads in it: both
      processes have the page. */
  lemma LowRun()
    ensures var s := Private();
            && Inv(s) && Enabled(s, Mapping(0, Low(), USER_RW)) && Breaks(s, Mapping(0, Low(), USER_RW))
            && var s1, a := Step(s, Mapping(0, Low(), USER_RW)), Access(0, Low(), false, true);
            && HandlePre(s1, a, TABLES_B)
            && var (s2, o) := Handle(s1, a, TABLES_B);
            && o == Resolved && |s2.spaces| == 2 && !Inv(s2)
            && Allowed(At4(s2, 1, Low()), Access(1, Low(), true, true))
  {
    hide Inv, Handle, Private, Enabled, Breaks, Lookup, Missing;
    PrivateInv();
    PrivateFacts();
    LowLacking();
    assert Free(Private(), TABLES_B) by {
      FramesOk();
      assert forall k :: 0 <= k < 3 ==> TABLES_B[k] in Taken(TABLES_B, 3);
    }
    KernelOpened(Private(), 0, Low(), USER_RW, TABLES_B);
  }
}
