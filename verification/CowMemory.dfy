/** Copy-on-write memory as a protocol over all address spaces: page tables, page
    descriptors and page contents, changed by page faults, forks, stores and page
    releases (sys/memory/page_fault_handler.c, cow_fork_page_table and v_free_page).
    The state is stated on values here; the handler itself is the class in
    `FaultHandler`. */
module CowMemory {
  import opened PageBits
  import opened PageTree
  import PageMemory
  import opened PageStore
  import opened PageFork
  import opened PageForkStore
  import opened PageForkRoot
  import opened SpaceTables

  /** The protection of a memory region: R/W, U/S and NX bits. */
  datatype Prot = Prot(write: bool, user: bool, nx: bool)

  datatype Option<T> = None | Some(value: T)

  type Path = seq<Index>
  type Data = seq<bv8>

  /** `spaces` keeps the address spaces that exit and exec leave behind. `vma`
      gives the protection of each page of each space that lies in a region,
      `owned` the frames in use other than as user pages, `kernel` what all roots
      have in slot 511, `kvma` the protection of each page in a region of the
      kernel's, and `direct` the frame that each page of the kernel's map of
      physical memory is there to show. */
  datatype Sys = Sys(spaces: seq<Table>, vma: seq<map<Path, Prot>>, desc: Descs,
                     owned: set<Frame>, data: map<Frame, Data>,
                     kernel: Slot, kvma: map<Path, Prot>, direct: map<Path, Frame>)

  /** start_kernel: kernmem of the linker script. */
  const START_KERNEL: bv64 := 0xFFFF_FFFF_8020_0000

  /** From there on, faults are looked up in the kernel's regions. */
  predicate InKernel(path: Path) {
    KernelPath(path) && (path[1] == 511 || (path[1] == 510 && path[2] >= 1))
  }

  predicate Mappable(path: Path) { UserPath(path) || KernelPath(path) }

  /** An address in the window of slot 256. */
  predicate Window(path: Path) { |path| == 4 && path[0] == SELF_REF }

  function Leaf(f: Frame, p: Prot): Pte { Pte(f, true, p.write, p.user, p.nx, 0) }

  function PermOf(e: Pte): Prot { Prot(e.write, e.user, e.nx) }

  /** vm_page_prot as the kernel stores it. */
  function Bits(p: Prot): bv64 {
    (if p.write then READ_WRITE else 0) | (if p.user then USER else 0) | (if p.nx then NX else 0)
  }

  lemma DecodeBits(p: Prot)
    ensures Decode(Bits(p)) == Pte(Frame(0), false, p.write, p.user, p.nx, 0)
  {
  }

  /** The entry update_curr_page_table writes for those bits, and what comparing
      them with an entry's permission bits decides. */
  lemma BitsMeanProt(p: Prot, f: Frame, w: bv64)
    ensures LeafPte(f.addr, Bits(p)) == Leaf(f, p)
    ensures PermBits(w) == Bits(p) <==> PermOf(Decode(w)) == p
  {
    DecodeBits(p);
    DecodePerm(w);
    hide Decode, Bits, PermBits;
    if Decode(PermBits(w)) == Decode(Bits(p)) {
      DecodeInjective(PermBits(w), Bits(p));
    }
  }

  /** The last entry on the way to a page as space `i` has it. */
  function At4(s: Sys, i: nat, path: Path): Pte
    requires i < |s.spaces|
  {
    if KernelPath(path) then KernelAt(s, path)
    else if Window(path) then WindowAt(s, i, path)
    else Lookup(s.spaces[i], path)
  }

  function WindowAt(s: Sys, i: nat, path: Path): Pte
    requires i < |s.spaces|
  {
    if |s.spaces[i].slots| != ENTRIES then ABSENT else Lookup(Full(s.spaces[i], s.kernel), Unwind(path))
  }

  function KernelAt(s: Sys, path: Path): Pte
    requires path != []
  {
    if s.kernel.Link? then Lookup(s.kernel.sub, path[1..]) else ABSENT
  }

  /** How many user pages of all address spaces are mapped to `f`. */
  ghost function Total(spaces: seq<Table>, f: Frame): nat {
    if spaces == [] then 0
    else Total(spaces[..|spaces|-1], f) + Count(spaces[|spaces|-1].slots, 4, f)
  }

  lemma {:induction false} TotalSwap(spaces: seq<Table>, i: nat, t: Table, f: Frame)
    requires i < |spaces|
    ensures Total(spaces[i := t], f) + Count(spaces[i].slots, 4, f)
         == Total(spaces, f) + Count(t.slots, 4, f)
    decreases |spaces|
  {
    var n := |spaces| - 1;
    if i < n {
      assert spaces[i := t][..n] == spaces[..n][i := t];
      TotalSwap(spaces[..n], i, t, f);
    } else {
      assert spaces[i := t][..n] == spaces[..n];
    }
  }

  lemma {:induction false} TotalAtLeast(spaces: seq<Table>, i: nat, f: Frame)
    requires i < |spaces|
    ensures Count(spaces[i].slots, 4, f) <= Total(spaces, f)
    decreases |spaces|
  {
    if i < |spaces| - 1 {
      TotalAtLeast(spaces[..|spaces|-1], i, f);
    }
  }

  /** A mapped page counts. */
  lemma {:induction false} MappedCounts(t: Table, path: Path, f: Frame)
    requires WellFormed(t, |path|) && PathOk(path) && (|path| == 4 ==> path[0] != KERNEL)
    requires Maps(Lookup(t, path), f) == 1
    ensures Count(t.slots, |path|, f) >= 1
    decreases path
  {
    var i: nat := path[0];
    hide Count, IsFrame;
    CountNext(t.slots, |path|, i, f);
    CountPrefix(t.slots, |path|, i + 1, f);
    if |path| > 1 {
      MappedCounts(t.slots[i].sub, path[1..], f);
    }
  }

  /** A present page has all its tables. */
  lemma {:induction false} PresentNothingMissing(t: Table, path: Path)
    requires WellFormed(t, |path|) && PathOk(path) && Lookup(t, path).present
    ensures Missing(t, path) == 0
    decreases path
  {
    if |path| > 1 {
      PresentNothingMissing(t.slots[path[0]].sub, path[1..]);
    }
  }

  /** Two different pages mapped to one frame count twice. */
  lemma MappedTwice(spaces: seq<Table>, i: nat, p: Path, j: nat, q: Path, f: Frame)
    requires i < |spaces| && j < |spaces| && (i != j || p != q)
    requires WellFormed(spaces[i], 4) && WellFormed(spaces[j], 4) && UserPath(p) && UserPath(q)
    requires Maps(Lookup(spaces[i], p), f) == 1 && Maps(Lookup(spaces[j], q), f) == 1
    ensures Total(spaces, f) >= 2
  {
    hide Count, Put, Lookup, Missing, WellFormed;
    PresentNothingMissing(spaces[i], p);
    var u := Put(spaces[i], p, ABSENT, []);
    CountPut(spaces[i], p, ABSENT, [], f);
    PutWellFormed(spaces[i], p, ABSENT, []);
    PutLookup(spaces[i], p, ABSENT, [], q);
    TotalSwap(spaces, i, u, f);
    MappedCounts(spaces[i := u][j], q, f);
    TotalAtLeast(spaces[i := u], j, f);
  }

  // ---------- the invariant ----------

  ghost predicate PageOk(s: Sys, i: nat, path: Path)
    requires i < |s.spaces|
  {
    var e := At4(s, i, path);
    e.present ==>
      && e.frame in s.desc && e.frame !in s.owned && e.user
      // a frame that some page may write has no other page
      && (e.write ==> s.desc[e.frame].refcount == 1)
  }

  /** Kernel pages are out of reach for user code, and the map of physical memory,
      through which pages are copied, shows what it is to show. */
  ghost predicate KernelPageOk(s: Sys, path: Path)
    requires path != []
  {
    var e := KernelAt(s, path);
    (e.present ==> !e.user) && (path in s.direct ==> e.present && e.frame == s.direct[path])
  }

  ghost predicate FrameOk(s: Sys, f: Frame)
    requires f in s.desc
  {
    && IsFrame(f)
    && (f in s.owned ==> s.desc[f].refcount >= 1 && Total(s.spaces, f) == 0)
    // every page mapped has a reference
    && (f !in s.owned ==> s.desc[f].refcount >= Total(s.spaces, f))
    && (f !in s.owned && s.desc[f].refcount >= 2 ==> s.desc[f].cow)
  }

  predicate RegionFits(path: Path, prot: Prot) { (UserPath(path) || InKernel(path)) && prot.user }

  /** The regions of a process are for user code and at user addresses, or at addresses
      that are looked up in the kernel's; kernel regions are not for user code. */
  ghost predicate Regions(s: Sys) {
    && (forall i: nat, path: Path :: i < |s.vma| && path in s.vma[i] ==> RegionFits(path, s.vma[i][path]))
    && (forall path :: path in s.kvma ==> InKernel(path) && !s.kvma[path].user)
    && (forall path :: path in s.direct ==> InKernel(path))
  }

  ghost predicate Shapes(s: Sys) {
    (forall i :: 0 <= i < |s.spaces| ==> WellFormed(s.spaces[i], 4)) && KernelTree(s.kernel)
  }

  ghost predicate Inv(s: Sys) {
    && |s.spaces| == |s.vma| && s.data.Keys == s.desc.Keys && Shapes(s)
    && (forall i: nat, path: Path :: i < |s.spaces| && UserPath(path) ==> PageOk(s, i, path))
    && (forall path: Path :: KernelPath(path) ==> KernelPageOk(s, path))
    && (forall f :: f in s.desc ==> FrameOk(s, f))
    && (forall f :: Total(s.spaces, f) > 0 ==> f in s.desc)
    && Regions(s) && TablesOk(s.spaces, s.kernel, s.owned)
  }

  /** The reference count of a user frame is the number of pages mapped to it. */
  ghost predicate Exact(s: Sys) {
    forall f :: f in s.desc && f !in s.owned ==> s.desc[f].refcount == Total(s.spaces, f)
  }

  ghost predicate PageInRegion(s: Sys, i: nat, path: Path)
    requires i < |s.spaces| == |s.vma|
  {
    var e := At4(s, i, path);
    e.present ==>
      path in s.vma[i] && e.nx == s.vma[i][path].nx && (e.write ==> s.vma[i][path].write)
  }

  /** Pages are in regions, and no entry grants more than its region does. */
  ghost predicate RegionsKept(s: Sys) {
    && |s.spaces| == |s.vma|
    && forall i: nat, path: Path :: i < |s.spaces| && UserPath(path) ==> PageInRegion(s, i, path)
  }

  /** No page of any process is a table page of any process, or of the kernel. */
  lemma NoPageIsTable(s: Sys, i: nat, path: Path, j: nat)
    requires Inv(s) && i < |s.spaces| && j < |s.spaces| && UserPath(path) && At4(s, i, path).present
    ensures At4(s, i, path).frame !in Frames(s.spaces[j]) + SlotFrames(s.kernel)
  {
    hide WellFormed, Separate, Lookup, Total, FrameOk, Frames;
    assert PageOk(s, i, path);
    assert SpaceOk(s.spaces[j], s.kernel, s.owned);
  }

  /** A frame some page may write is mapped by that page alone, in the whole system. */
  lemma WritableAlone(s: Sys, i: nat, p: Path, j: nat, q: Path)
    requires Inv(s) && i < |s.spaces| && j < |s.spaces| && UserPath(p) && UserPath(q)
    requires At4(s, i, p).present && At4(s, i, p).write
    requires At4(s, j, q).present && At4(s, j, q).frame == At4(s, i, p).frame
    ensures i == j && p == q
  {
    hide Lookup, Total, Inv, FrameOk;
    assert PageOk(s, i, p) by {
      OnePageOk(s, i, p);
    }
    OneReferenceAlone(s, i, p, j, q);
  }

  lemma OnePageOk(s: Sys, i: nat, path: Path)
    requires Inv(s) && i < |s.spaces| && UserPath(path)
    ensures PageOk(s, i, path)
  {
    hide PageOk, FrameOk, Regions, Shapes, TablesOk;
  }

  /** Two pages of one frame are two references. */
  lemma OneReferenceAlone(s: Sys, i: nat, p: Path, j: nat, q: Path)
    requires Inv(s) && i < |s.spaces| && j < |s.spaces| && UserPath(p) && UserPath(q)
    requires At4(s, i, p).present && At4(s, j, q).present && At4(s, j, q).frame == At4(s, i, p).frame
    requires At4(s, i, p).frame in s.desc && s.desc[At4(s, i, p).frame].refcount <= 1
    ensures i == j && p == q
  {
    hide WellFormed, Count, Lookup, Total, TablesOk, Regions;
    var f := At4(s, i, p).frame;
    assert PageOk(s, i, p) && FrameOk(s, f);
    if i != j || p != q {
      MappedTwice(s.spaces, i, p, j, q, f);
    }
  }

  // ---------- what a page fault does ----------

  /** Frames the allocator can hand out: distinct and without references. */
  ghost predicate Free(s: Sys, fs: seq<Frame>) {
    Supply(fs, {}) && forall k :: 0 <= k < |fs| ==> fs[k] in s.desc && s.desc[fs[k]].refcount == 0
  }

  /** Any address of a space whose tables are in order. */
  ghost predicate Placed(s: Sys, i: nat, path: Path) {
    i < |s.spaces| && |path| == 4 && WellFormed(s.spaces[i], 4) && KernelTree(s.kernel)
  }

  ghost predicate Addressed(s: Sys, i: nat, path: Path) { Placed(s, i, path) && Mappable(path) }

  /** How many tables mapping the page has to add. */
  function Lacking(s: Sys, i: nat, path: Path): nat
    requires Placed(s, i, path)
  {
    if KernelPath(path) then Missing(s.kernel.sub, path[1..])
    else if Window(path) then Gap(Full(s.spaces[i], s.kernel), Unwind(path))
    else Missing(s.spaces[i], path)
  }

  /** update_curr_page_table at a window address: some entry of the tables in use is
      overwritten, in the kernel's part or in the space's own. */
  function MapWindow(s: Sys, i: nat, path: Path, e: Pte, fs: seq<Frame>): Sys
    requires i < |s.spaces| && |s.spaces[i].slots| == ENTRIES && Window(path)
  {
    UnwindFacts(path);
    var t, w := s.spaces[i], Unwind(path);
    var u := Graft(Full(t, s.kernel), w, e, fs);
    if w[0] == KERNEL && |w| > 1 && |u.slots| == ENTRIES then s.(kernel := u.slots[KERNEL])
    else if w == [KERNEL] || |u.slots| != ENTRIES then s.(spaces := s.spaces[i := u])
    else s.(spaces := s.spaces[i := u.(slots := u.slots[KERNEL := t.slots[KERNEL]])])
  }

  lemma MapWindowOnly(s: Sys, i: nat, path: Path, e: Pte, fs: seq<Frame>)
    requires i < |s.spaces| && |s.spaces[i].slots| == ENTRIES && Window(path)
    ensures var s' := MapWindow(s, i, path, e, fs); s' == s.(spaces := s'.spaces, kernel := s'.kernel)
  {
  }

  /** update_curr_page_table in space `i`; the tables it adds come from `fs` and are
      owned by the kernel from then on. */
  function MapPage(s: Sys, i: nat, path: Path, e: Pte, fs: seq<Frame>): Sys
    requires Placed(s, i, path) && Supply(fs, {}) && Lacking(s, i, path) <= |fs|
  {
    if Window(path) then
      var n := Lacking(s, i, path);
      MapWindow(s, i, path, e, fs).(desc := Claimed(s.desc, fs, n), owned := s.owned + Taken(fs, n))
    else if KernelPath(path) then
      var n := Missing(s.kernel.sub, path[1..]);
      s.(kernel := KernelPut(s.kernel, path, e, fs), desc := Claimed(s.desc, fs, n), owned := s.owned + Taken(fs, n))
    else
      var n := Missing(s.spaces[i], path);
      s.(spaces := s.spaces[i := Put(s.spaces[i], path, e, fs)],
         desc := Claimed(s.desc, fs, n),
         owned := s.owned + Taken(fs, n))
  }

  /** The frame of a kernel page is the kernel's own. */
  function PageTaken(s: Sys, path: Path, f: Frame): set<Frame> {
    if KernelPath(path) then s.owned + {f} else s.owned
  }

  /** A frame for a page, whose contents are left as they were. */
  function Demand(s: Sys, i: nat, path: Path, prot: Prot, fs: seq<Frame>): Sys
    requires Placed(s, i, path) && Supply(fs, {}) && Lacking(s, i, path) < |fs|
  {
    MapPage(s.(desc := Claimed(s.desc, fs, 1), owned := PageTaken(s, path, fs[0])), i, path, Leaf(fs[0], prot), fs[1..])
  }

  /** The region's own permissions for a page that keeps its frame. */
  function Protect(s: Sys, i: nat, path: Path, prot: Prot): Sys
    requires Placed(s, i, path) && Lacking(s, i, path) == 0
  {
    MapPage(s, i, path, Leaf(At4(s, i, path).frame, prot), [])
  }

  function SetDesc(s: Sys, f: Frame, d: Desc): Sys { s.(desc := s.desc[f := d]) }

  /** One reference less. */
  function Less(s: Sys, f: Frame): Sys
    requires f in s.desc && s.desc[f].refcount >= 1
  {
    SetDesc(s, f, s.desc[f].(refcount := s.desc[f].refcount - 1))
  }

  /** A private copy of a shared page: one reference less to the old frame. */
  function Copy(s: Sys, i: nat, path: Path, prot: Prot, fs: seq<Frame>): Sys
    requires Placed(s, i, path) && Supply(fs, {}) && fs != [] && Lacking(s, i, path) == 0
    requires At4(s, i, path).frame in s.desc && At4(s, i, path).frame in s.data
    requires s.desc[At4(s, i, path).frame].refcount >= 1
  {
    var f := At4(s, i, path).frame;
    Demand(Less(s, f).(data := s.data[fs[0] := s.data[f]]), i, path, prot, fs)
  }

  /** A page that needs no table takes nothing from the pool. */
  lemma MapNoPool(s: Sys, i: nat, path: Path, e: Pte, pool: seq<Frame>)
    requires Placed(s, i, path) && Lacking(s, i, path) == 0 && Supply(pool, {})
    ensures MapPage(s, i, path, e, pool) == MapPage(s, i, path, e, [])
  {
    if Window(path) {
      GraftNoPool(Full(s.spaces[i], s.kernel), Unwind(path), e, pool);
    } else if KernelPath(path) {
      PutNoPool(s.kernel.sub, path[1..], e, pool);
    } else {
      PutNoPool(s.spaces[i], path, e, pool);
    }
    assert Taken(pool, 0) == Taken([], 0);
    assert Claimed(s.desc, pool, 0) == Claimed(s.desc, [], 0);
  }

  /** The page that an entry of space `i` is about; kernel pages are everybody's. */
  predicate SamePage(i: nat, path: Path, j: nat, q: Path) { q == path && (j == i || KernelPath(path)) }

  /** Entries of user pages are counted. */
  ghost function Counted(path: Path, e: Pte, f: Frame): nat { if UserPath(path) then Maps(e, f) else 0 }

  /** One page changes its entry, and with it one reference moves. */
  lemma MapFacts(s: Sys, i: nat, path: Path, e: Pte, fs: seq<Frame>)
    requires Addressed(s, i, path) && Shapes(s) && Supply(fs, {}) && Lacking(s, i, path) <= |fs|
    ensures var s' := MapPage(s, i, path, e, fs);
            && |s'.spaces| == |s.spaces| && Shapes(s')
            && (forall j: nat, q: Path :: j < |s.spaces| && Mappable(q) ==>
                  At4(s', j, q) == if SamePage(i, path, j, q) then e else At4(s, j, q))
            && (forall f :: Total(s'.spaces, f) + Counted(path, At4(s, i, path), f) == Total(s.spaces, f) + Counted(path, e, f))
  {
    hide Count, Put, Missing, WellFormed, Lookup, Total, Claimed, Taken, IsFrame;
    if KernelPath(path) {
      KernelPutTree(s.kernel, path, e, fs);
    } else {
      UserMapFacts(s, i, path, e, fs);
    }
  }

  lemma UserMapFacts(s: Sys, i: nat, path: Path, e: Pte, fs: seq<Frame>)
    requires Addressed(s, i, path) && Shapes(s) && Supply(fs, {}) && Lacking(s, i, path) <= |fs| && UserPath(path)
    ensures var s' := MapPage(s, i, path, e, fs);
            && |s'.spaces| == |s.spaces| && Shapes(s')
            && (forall j: nat, q: Path :: j < |s.spaces| && Mappable(q) ==>
                  At4(s', j, q) == if SamePage(i, path, j, q) then e else At4(s, j, q))
            && (forall f :: Total(s'.spaces, f) + Maps(At4(s, i, path), f) == Total(s.spaces, f) + Maps(e, f))
  {
    hide Count, Put, Missing, WellFormed, Lookup, Total, Claimed, Taken, IsFrame;
    var t := s.spaces[i];
    var u := Put(t, path, e, fs);
    PutWellFormed(t, path, e, fs);
    forall j: nat, q: Path | j < |s.spaces| && Mappable(q)
      ensures At4(MapPage(s, i, path, e, fs), j, q) == if SamePage(i, path, j, q) then e else At4(s, j, q)
    {
      if UserPath(q) {
        PutLookup(t, path, e, fs, q);
      }
    }
    forall f
      ensures Total(s.spaces[i := u], f) + Maps(At4(s, i, path), f) == Total(s.spaces, f) + Maps(e, f)
    {
      TotalSwap(s.spaces, i, u, f);
      CountPut(t, path, e, fs, f);
    }
  }

  lemma PresentNothingLacking(s: Sys, i: nat, path: Path)
    requires Placed(s, i, path) && At4(s, i, path).present
    ensures Lacking(s, i, path) == 0
  {
    hide Missing, Gap, Lookup;
    if Window(path) {
      PresentNoGap(Full(s.spaces[i], s.kernel), Unwind(path));
    } else if KernelPath(path) {
      PresentNothingMissing(s.kernel.sub, path[1..]);
    } else {
      PresentNothingMissing(s.spaces[i], path);
    }
  }

  /** A mapped frame has a reference, so it is not among the free ones. */
  lemma MappedReferenced(s: Sys, i: nat, path: Path)
    requires Inv(s) && i < |s.spaces| && UserPath(path) && At4(s, i, path).present
    ensures At4(s, i, path).frame in s.desc && At4(s, i, path).frame !in s.owned
    ensures s.desc[At4(s, i, path).frame].refcount >= 1 && Total(s.spaces, At4(s, i, path).frame) >= 1
  {
    hide Count, WellFormed, Lookup, Total, TablesOk, Regions;
    var f := At4(s, i, path).frame;
    assert PageOk(s, i, path) && FrameOk(s, f);
    MappedCounts(s.spaces[i], path, f);
    TotalAtLeast(s.spaces, i, f);
  }

  lemma MapTables(s: Sys, i: nat, path: Path, e: Pte, fs: seq<Frame>)
    requires Addressed(s, i, path) && Supply(fs, s.owned) && Lacking(s, i, path) <= |fs|
    requires TablesOk(s.spaces, s.kernel, s.owned)
    ensures var s' := MapPage(s, i, path, e, fs); TablesOk(s'.spaces, s'.kernel, s'.owned)
  {
    hide WellFormed, Put, Missing, TablesOk, IsFrame, KernelPut;
    if KernelPath(path) {
      KernelPutTables(s.spaces, s.kernel, s.owned, path, e, fs);
    } else {
      PutTables(s.spaces, s.kernel, s.owned, i, path, e, fs);
    }
  }

  lemma FreeUnowned(s: Sys, fs: seq<Frame>)
    requires Inv(s) && Free(s, fs)
    ensures Supply(fs, s.owned)
  {
    hide WellFormed, Total, TablesOk, IsFrame;
    forall k | 0 <= k < |fs| ensures fs[k] !in s.owned {
      FreeFrame(s, fs, k);
    }
  }

  lemma FreeFrame(s: Sys, fs: seq<Frame>, k: nat)
    requires Inv(s) && Free(s, fs) && k < |fs|
    ensures fs[k] in s.desc && fs[k] !in s.owned && Total(s.spaces, fs[k]) == 0
  {
    hide WellFormed, Total, TablesOk;
    assert FrameOk(s, fs[k]);
  }

  lemma TakenFree(s: Sys, fs: seq<Frame>, n: nat, f: Frame)
    requires Inv(s) && Free(s, fs) && n <= |fs| && f in Taken(fs, n)
    ensures f in s.desc && s.desc[f].refcount == 0 && f !in s.owned && Total(s.spaces, f) == 0
  {
    hide Inv;
    var k :| 0 <= k < n && fs[k] == f;
    FreeFrame(s, fs, k);
  }

  /** Claiming the page and then the tables is claiming them all. */
  lemma ClaimTwice(desc: Descs, fs: seq<Frame>, n: nat, f: Frame)
    requires Supply(fs, {}) && n < |fs| && f in desc
    ensures var d := Claimed(Claimed(desc, fs, 1), fs[1..], n);
            f in d && d[f] == if f in Taken(fs, n + 1) then desc[f].(refcount := desc[f].refcount + 1) else desc[f]
    ensures Taken(fs, n + 1) == {fs[0]} + Taken(fs[1..], n) && fs[0] !in Taken(fs[1..], n)
  {
    hide IsFrame;
    TakenSplit(fs, 1, fs[1..], n);
    assert Taken(fs, 1) == {fs[0]} by {
      assert fs[0] in Taken(fs, 1);
    }
  }

  ghost predicate CanDemand(s: Sys, i: nat, path: Path, fs: seq<Frame>) {
    Inv(s) && Addressed(s, i, path) && Free(s, fs) && Lacking(s, i, path) < |fs|
  }

  /** What a new page changes: its entry, the counts of the frames taken, and who
      owns them. */
  lemma DemandFacts(s: Sys, i: nat, path: Path, prot: Prot, fs: seq<Frame>)
    requires Addressed(s, i, path) && Shapes(s) && Supply(fs, {}) && Lacking(s, i, path) < |fs|
    ensures var s', n := Demand(s, i, path, prot, fs), Lacking(s, i, path);
            && |s'.spaces| == |s.spaces| && Shapes(s') && s'.desc.Keys == s.desc.Keys
            && s' == s.(spaces := s'.spaces, kernel := s'.kernel, desc := s'.desc, owned := s'.owned)
            && (forall f :: f in s.desc ==>
                  s'.desc[f] == if f in Taken(fs, n + 1) then s.desc[f].(refcount := s.desc[f].refcount + 1) else s.desc[f])
            && s'.owned == s.owned + (if KernelPath(path) then Taken(fs, n + 1) else Taken(fs, n + 1) - {fs[0]})
            && fs[0] in Taken(fs, n + 1)
            && (forall j: nat, q: Path :: j < |s.spaces| && Mappable(q) ==>
                  At4(s', j, q) == if SamePage(i, path, j, q) then Leaf(fs[0], prot) else At4(s, j, q))
            && (forall f :: Total(s'.spaces, f) + Counted(path, At4(s, i, path), f)
                         == Total(s.spaces, f) + Counted(path, Leaf(fs[0], prot), f))
  {
    hide Count, Put, Missing, WellFormed, Lookup, Total, IsFrame, Claimed, Taken, KernelPut;
    var s1 := s.(desc := Claimed(s.desc, fs, 1), owned := PageTaken(s, path, fs[0]));
    MapFacts(s1, i, path, Leaf(fs[0], prot), fs[1..]);
    DemandClaims(s, i, path, prot, fs);
  }

  lemma DemandClaims(s: Sys, i: nat, path: Path, prot: Prot, fs: seq<Frame>)
    requires Addressed(s, i, path) && Supply(fs, {}) && Lacking(s, i, path) < |fs|
    ensures var s', n := Demand(s, i, path, prot, fs), Lacking(s, i, path);
            && s'.desc.Keys == s.desc.Keys
            && (forall f :: f in s.desc ==>
                  s'.desc[f] == if f in Taken(fs, n + 1) then s.desc[f].(refcount := s.desc[f].refcount + 1) else s.desc[f])
            && s'.owned == s.owned + (if KernelPath(path) then Taken(fs, n + 1) else Taken(fs, n + 1) - {fs[0]})
            && fs[0] in Taken(fs, n + 1)
  {
    hide Put, Missing, WellFormed, Lookup, IsFrame, KernelPut;
    var s', n := Demand(s, i, path, prot, fs), Lacking(s, i, path);
    assert s'.desc == Claimed(Claimed(s.desc, fs, 1), fs[1..], n);
    assert fs[0] in Taken(fs, n + 1);
    hide Claimed, Taken, Supply;
    forall f | f in s.desc
      ensures f in s'.desc
      ensures s'.desc[f] == if f in Taken(fs, n + 1) then s.desc[f].(refcount := s.desc[f].refcount + 1) else s.desc[f]
    {
      ClaimTwice(s.desc, fs, n, f);
    }
    TakenFirst(fs, n);
  }

  lemma TakenFirst(fs: seq<Frame>, n: nat)
    requires Supply(fs, {}) && n < |fs|
    ensures Taken(fs, n + 1) == {fs[0]} + Taken(fs[1..], n) && fs[0] !in Taken(fs[1..], n)
  {
    hide IsFrame;
    TakenSplit(fs, 1, fs[1..], n);
    assert Taken(fs, 1) == {fs[0]} by {
      assert fs[0] in Taken(fs, 1);
    }
  }

  lemma DemandFrame(s: Sys, i: nat, path: Path, prot: Prot, fs: seq<Frame>, f: Frame)
    requires CanDemand(s, i, path, fs) && f in s.desc
    ensures f in Demand(s, i, path, prot, fs).desc && FrameOk(Demand(s, i, path, prot, fs), f)
  {
    hide Count, Put, Missing, WellFormed, Lookup, Total, IsFrame, PageOk, Taken, TablesOk, Regions, Demand;
    DemandFacts(s, i, path, prot, fs);
    assert FrameOk(s, f);
    if f in Taken(fs, Lacking(s, i, path) + 1) {
      TakenFree(s, fs, Lacking(s, i, path) + 1, f);
    }
  }

  lemma DemandPage(s: Sys, i: nat, path: Path, prot: Prot, fs: seq<Frame>, j: nat, q: Path)
    requires CanDemand(s, i, path, fs) && prot.user == UserPath(path) && j < |s.spaces| && UserPath(q)
    ensures j < |Demand(s, i, path, prot, fs).spaces| && PageOk(Demand(s, i, path, prot, fs), j, q)
  {
    hide Count, Put, Missing, WellFormed, Lookup, Total, IsFrame, Taken, TablesOk, Regions, Demand;
    var n := Lacking(s, i, path);
    DemandFacts(s, i, path, prot, fs);
    assert PageOk(s, j, q);
    TakenFree(s, fs, n + 1, fs[0]);
    if !SamePage(i, path, j, q) && At4(s, j, q).present {
      MappedReferenced(s, j, q);
      if At4(s, j, q).frame in Taken(fs, n + 1) {
        TakenFree(s, fs, n + 1, At4(s, j, q).frame);
      }
    }
  }

  lemma DemandTables(s: Sys, i: nat, path: Path, prot: Prot, fs: seq<Frame>)
    requires CanDemand(s, i, path, fs)
    ensures var s' := Demand(s, i, path, prot, fs); TablesOk(s'.spaces, s'.kernel, s'.owned)
  {
    hide Count, Put, Missing, WellFormed, Lookup, Total, IsFrame, FrameOk, PageOk, TablesOk, Claimed, KernelPut;
    FreeUnowned(s, fs);
    var owned := PageTaken(s, path, fs[0]);
    OwnMore(s.spaces, s.kernel, s.owned, owned);
    assert s.owned + owned == owned;
    assert Supply(fs[1..], owned);
    MapTables(s.(desc := Claimed(s.desc, fs, 1), owned := owned), i, path, Leaf(fs[0], prot), fs[1..]);
  }

  /** A new page for those it may be for keeps the state in order wherever it is put,
      except in the place of a page of the map of physical memory. */
  lemma DemandInv(s: Sys, i: nat, path: Path, prot: Prot, fs: seq<Frame>)
    requires CanDemand(s, i, path, fs) && prot.user == UserPath(path) && (path in s.direct ==> s.direct[path] == fs[0])
    ensures Inv(Demand(s, i, path, prot, fs))
  {
    hide Count, Put, Missing, WellFormed, Lookup, Total, IsFrame, FrameOk, PageOk, TablesOk, Taken, Demand;
    var s' := Demand(s, i, path, prot, fs);
    DemandFacts(s, i, path, prot, fs);
    DemandTables(s, i, path, prot, fs);
    forall f | f in s'.desc
      ensures FrameOk(s', f)
    {
      DemandFrame(s, i, path, prot, fs, f);
    }
    forall j: nat, q: Path | j < |s'.spaces| && UserPath(q)
      ensures PageOk(s', j, q)
    {
      DemandPage(s, i, path, prot, fs, j, q);
    }
    forall q: Path | KernelPath(q)
      ensures KernelPageOk(s', q)
    {
      assert KernelPageOk(s, q);
      assert At4(s', i, q) == KernelAt(s', q) && At4(s, i, q) == KernelAt(s, q);
    }
    FreeFrame(s, fs, 0);
  }

  /** A page that is not for those it may be for breaks the order of things. */
  lemma MisplacedBreaks(s: Sys, i: nat, path: Path, prot: Prot, fs: seq<Frame>)
    requires CanDemand(s, i, path, fs)
    requires prot.user != UserPath(path) || (path in s.direct && s.direct[path] != fs[0])
    ensures !Inv(Demand(s, i, path, prot, fs))
  {
    hide Count, Missing, WellFormed, Lookup, Total, IsFrame, TablesOk, Demand, Taken, FrameOk;
    DemandFacts(s, i, path, prot, fs);
    var s' := Demand(s, i, path, prot, fs);
    assert path in s.direct ==> InKernel(path);
    if UserPath(path) {
      assert !PageOk(s', i, path);
    } else {
      assert At4(s', i, path) == KernelAt(s', path);
      assert !KernelPageOk(s', path);
    }
  }

  /** A page put where the window shows a table breaks it too: what is written is an
      entry above the page tables. */
  lemma WindowBreaks(s: Sys, i: nat, path: Path, prot: Prot, fs: seq<Frame>)
    requires Inv(s) && Placed(s, i, path) && Window(path) && Free(s, fs) && Lacking(s, i, path) < |fs|
    ensures !Inv(Demand(s, i, path, prot, fs))
  {
    hide Total, Lookup, IsFrame, PageOk, FrameOk, KernelPageOk, Regions, Claimed, Separate, Graft, Gap;
    FreeUnowned(s, fs);
    UnwindFacts(path);
    assert SpaceOk(s.spaces[i], s.kernel, s.owned);
    var t, w, e := s.spaces[i], Unwind(path), Leaf(fs[0], prot);
    assert Supply(fs[1..], {});
    assert t.frame in Frames(t);
    WindowParts(t, s.kernel, w, e, fs[1..]);
    var s' := Demand(s, i, path, prot, fs);
    if w[0] == KERNEL && |w| > 1 {
      GraftUnshaped(s.kernel.sub, 3, w[1..], e, fs[1..]);
    } else if w[0] != KERNEL {
      GraftUnshaped(t, 4, w, e, fs[1..]);
      assert s'.spaces[i] == Graft(t, w, e, fs[1..]);
    } else {
      assert !SpaceOk(s'.spaces[i], s'.kernel, s'.owned);
    }
  }

  lemma WindowParts(t: Table, k: Slot, w: Path, e: Pte, pool: seq<Frame>)
    requires UserSpace(t) && k.Link? && |k.sub.slots| == ENTRIES && w != []
    ensures var u := Graft(Full(t, k), w, e, pool);
            && |u.slots| == ENTRIES
            && (w[0] == KERNEL && |w| > 1 ==>
                  u.slots[KERNEL] == Link(k.e, Graft(k.sub, w[1..], e, pool)) && Gap(k.sub, w[1..]) == Gap(Full(t, k), w))
            && (w == [KERNEL] ==> u.slots[KERNEL] == Entry(e))
            && (w[0] != KERNEL ==>
                  u.(slots := u.slots[KERNEL := t.slots[KERNEL]]) == Graft(t, w, e, pool) && Gap(t, w) == Gap(Full(t, k), w))
  {
    var u := Graft(Full(t, k), w, e, pool);
    if w[0] != KERNEL {
      assert u.slots[KERNEL := t.slots[KERNEL]] == Graft(t, w, e, pool).slots;
    }
  }

  // ---------- copying, reclaiming and releasing a page ----------

  /** A fault that finds the frame shared. */
  ghost predicate CanCopy(s: Sys, i: nat, path: Path, fs: seq<Frame>) {
    && Inv(s) && Addressed(s, i, path) && Free(s, fs) && fs != []
    && At4(s, i, path).present && Lacking(s, i, path) == 0
    && At4(s, i, path).frame in s.desc && s.desc[At4(s, i, path).frame].refcount >= 2
  }

  lemma CopyFacts(s: Sys, i: nat, path: Path, prot: Prot, fs: seq<Frame>)
    requires CanCopy(s, i, path, fs)
    ensures var s', f := Copy(s, i, path, prot, fs), At4(s, i, path).frame;
            && fs[0] != f && |s'.spaces| == |s.spaces| && Shapes(s')
            && s' == s.(spaces := s'.spaces, kernel := s'.kernel, owned := s'.owned, data := s'.data,
                        desc := Less(s, f).desc[fs[0] := s.desc[fs[0]].(refcount := 1)])
            && s'.owned == PageTaken(s, path, fs[0]) && s'.data == s.data[fs[0] := s.data[f]]
            && (forall j: nat, q: Path :: j < |s.spaces| && Mappable(q) ==>
                  At4(s', j, q) == if SamePage(i, path, j, q) then Leaf(fs[0], prot) else At4(s, j, q))
            && (forall g :: Total(s'.spaces, g) + Counted(path, At4(s, i, path), g)
                         == Total(s.spaces, g) + Counted(path, Leaf(fs[0], prot), g))
  {
    hide Count, Put, Missing, WellFormed, Lookup, Total, IsFrame, PageOk, FrameOk, TablesOk, Demand;
    var f := At4(s, i, path).frame;
    var less := Less(s, f).(data := s.data[fs[0] := s.data[f]]);
    DemandFacts(less, i, path, prot, fs);
    assert Taken(fs, 1) == {fs[0]};
  }

  lemma CopyTables(s: Sys, i: nat, path: Path, prot: Prot, fs: seq<Frame>)
    requires CanCopy(s, i, path, fs)
    ensures var s' := Copy(s, i, path, prot, fs); TablesOk(s'.spaces, s'.kernel, s'.owned)
  {
    hide Count, Put, Missing, WellFormed, Lookup, Total, IsFrame, PageOk, FrameOk, TablesOk, Claimed, KernelPut;
    var f := At4(s, i, path).frame;
    var less := Less(s, f).(data := s.data[fs[0] := s.data[f]]);
    FreeUnowned(s, fs);
    var owned := PageTaken(s, path, fs[0]);
    OwnMore(s.spaces, s.kernel, s.owned, owned);
    assert s.owned + owned == owned;
    assert Supply(fs[1..], owned);
    MapTables(less.(desc := Claimed(less.desc, fs, 1), owned := owned), i, path, Leaf(fs[0], prot), fs[1..]);
  }

  /** The frame a kernel page is mapped to is a user frame, and each of its
      references is a user page. */
  ghost predicate TakesReference(s: Sys, f: Frame)
    requires f in s.desc
  {
    f !in s.owned && s.desc[f].refcount == Total(s.spaces, f)
  }

  /** A user page may always be copied. The copy of a kernel page takes a reference
      that is not its own, or a page out of the map of physical memory. */
  lemma CopyInv(s: Sys, i: nat, path: Path, prot: Prot, fs: seq<Frame>)
    requires CanCopy(s, i, path, fs) && prot.user == UserPath(path)
    ensures Inv(Copy(s, i, path, prot, fs)) <==>
      !(KernelPath(path) && (TakesReference(s, At4(s, i, path).frame) || path in s.direct))
  {
    hide Count, Put, Missing, WellFormed, Lookup, Total, IsFrame, TablesOk, Copy, Regions;
    var s', f := Copy(s, i, path, prot, fs), At4(s, i, path).frame;
    CopyFacts(s, i, path, prot, fs);
    FreeFrame(s, fs, 0);
    if KernelPath(path) && TakesReference(s, f) {
      assert f in s'.desc && !FrameOk(s', f);
    } else if KernelPath(path) && path in s.direct {
      assert KernelPageOk(s, path) && At4(s', i, path) == KernelAt(s', path);
      assert !KernelPageOk(s', path);
    } else {
      CopyKeeps(s, i, path, prot, fs);
    }
  }

  lemma CopyKeeps(s: Sys, i: nat, path: Path, prot: Prot, fs: seq<Frame>)
    requires CanCopy(s, i, path, fs) && prot.user == UserPath(path)
    requires !(KernelPath(path) && (TakesReference(s, At4(s, i, path).frame) || path in s.direct))
    ensures Inv(Copy(s, i, path, prot, fs))
  {
    hide Count, Put, Missing, WellFormed, Lookup, Total, IsFrame, TablesOk, Copy, PageOk, FrameOk, KernelPageOk, TakesReference;
    CopyFacts(s, i, path, prot, fs);
    FreeFrame(s, fs, 0);
    CopyTables(s, i, path, prot, fs);
    CopyFrames(s, i, path, prot, fs);
    assert path !in s.direct;
    CopyPages(s, i, path, prot, fs);
  }

  lemma CopyFrames(s: Sys, i: nat, path: Path, prot: Prot, fs: seq<Frame>)
    requires CanCopy(s, i, path, fs) && !(KernelPath(path) && TakesReference(s, At4(s, i, path).frame))
    ensures var s' := Copy(s, i, path, prot, fs);
            && (forall g :: g in s'.desc ==> FrameOk(s', g)) && (forall g :: Total(s'.spaces, g) > 0 ==> g in s'.desc)
  {
    hide Count, Put, Missing, WellFormed, Lookup, Total, IsFrame, TablesOk, Copy, Regions, PageOk;
    var s', f := Copy(s, i, path, prot, fs), At4(s, i, path).frame;
    CopyFacts(s, i, path, prot, fs);
    FreeFrame(s, fs, 0);
    if UserPath(path) {
      MappedReferenced(s, i, path);
    }
    forall g | g in s'.desc
      ensures FrameOk(s', g)
    {
      assert FrameOk(s, g);
    }
  }

  lemma CopyPages(s: Sys, i: nat, path: Path, prot: Prot, fs: seq<Frame>)
    requires CanCopy(s, i, path, fs) && prot.user == UserPath(path)
    ensures var s' := Copy(s, i, path, prot, fs);
            && (forall j: nat, q: Path :: j < |s'.spaces| && UserPath(q) ==> PageOk(s', j, q))
            && (path !in s.direct ==> forall q: Path :: KernelPath(q) ==> KernelPageOk(s', q))
  {
    hide Count, Put, Missing, WellFormed, Lookup, Total, IsFrame, TablesOk, Copy, Regions, FrameOk;
    var s', f := Copy(s, i, path, prot, fs), At4(s, i, path).frame;
    CopyFacts(s, i, path, prot, fs);
    FreeFrame(s, fs, 0);
    forall j: nat, q: Path | j < |s'.spaces| && UserPath(q)
      ensures PageOk(s', j, q)
    {
      assert PageOk(s, j, q);
      if At4(s, j, q).present {
        MappedReferenced(s, j, q);
      }
    }
    if path !in s.direct {
      forall q: Path | KernelPath(q)
        ensures KernelPageOk(s', q)
      {
        assert KernelPageOk(s, q);
        assert At4(s', i, q) == KernelAt(s', q) && At4(s, i, q) == KernelAt(s, q);
      }
    }
  }

  /** A fault that finds the frame in copy-on-write mode with one reference left:
      the flag goes. */
  function Unflag(s: Sys, f: Frame): Sys
    requires f in s.desc
  {
    SetDesc(s, f, s.desc[f].(cow := false))
  }

  /** A change to the descriptors that keeps the counts, and flags where they are
      needed, does no harm. */
  lemma RedescribedInv(s: Sys, desc: Descs)
    requires Inv(s) && desc.Keys == s.desc.Keys
    requires forall f :: f in desc ==> desc[f].refcount == s.desc[f].refcount
    requires forall f :: f in desc && f !in s.owned && desc[f].refcount >= 2 ==> desc[f].cow
    ensures Inv(s.(desc := desc))
  {
    hide WellFormed, Lookup, Total, IsFrame, TablesOk;
    var s' := s.(desc := desc);
    forall g | g in s'.desc
      ensures FrameOk(s', g)
    {
      assert FrameOk(s, g);
    }
    forall j: nat, q: Path | j < |s'.spaces| && UserPath(q)
      ensures PageOk(s', j, q)
    {
      assert PageOk(s, j, q);
    }
    forall q: Path | KernelPath(q)
      ensures KernelPageOk(s', q)
    {
      assert KernelPageOk(s, q);
    }
  }

  lemma UnflagInv(s: Sys, f: Frame)
    requires Inv(s) && f in s.desc && s.desc[f].refcount <= 1
    ensures Inv(Unflag(s, f))
  {
    hide Total, Shapes, PageOk, KernelPageOk, Regions, TablesOk;
    forall g | g in s.desc ensures FrameOk(s, g) {
    }
    assert forall g :: g in s.desc && g !in s.owned && s.desc[g].refcount >= 2 ==> s.desc[g].cow;
    hide Inv;
    RedescribedInv(s, Unflag(s, f).desc);
  }

  /** What giving up a reference without a page breaks: the count. */
  lemma LessInv(s: Sys, f: Frame)
    requires Inv(s) && f in s.desc && s.desc[f].refcount >= 2
    ensures Inv(Less(s, f)) <==> !TakesReference(s, f)
  {
    hide WellFormed, Lookup, Total, IsFrame, TablesOk;
    var s' := Less(s, f);
    if TakesReference(s, f) {
      assert !FrameOk(s', f);
    } else {
      forall g | g in s'.desc
        ensures FrameOk(s', g)
      {
        assert FrameOk(s, g);
      }
      forall j: nat, q: Path | j < |s'.spaces| && UserPath(q)
        ensures PageOk(s', j, q)
      {
        assert PageOk(s, j, q);
      }
      forall q: Path | KernelPath(q)
        ensures KernelPageOk(s', q)
      {
        assert KernelPageOk(s, q);
      }
    }
  }

  lemma ProtectFacts(s: Sys, i: nat, path: Path, prot: Prot)
    requires Addressed(s, i, path) && Shapes(s) && Lacking(s, i, path) == 0 && At4(s, i, path).present
    ensures var s', f := Protect(s, i, path, prot), At4(s, i, path).frame;
            && |s'.spaces| == |s.spaces| && Shapes(s') && s' == s.(spaces := s'.spaces, kernel := s'.kernel)
            && (forall j: nat, q: Path :: j < |s.spaces| && Mappable(q) ==>
                  At4(s', j, q) == if SamePage(i, path, j, q) then Leaf(f, prot) else At4(s, j, q))
            && (forall g :: Total(s'.spaces, g) == Total(s.spaces, g))
  {
    hide Count, Put, Missing, WellFormed, Lookup, Total, IsFrame, Claimed, Taken, KernelPut;
    MapFacts(s, i, path, Leaf(At4(s, i, path).frame, prot), []);
    ClaimNothing(s.desc);
    assert s.owned + {} == s.owned;
  }

  lemma ProtectTables(s: Sys, i: nat, path: Path, prot: Prot)
    requires Inv(s) && Addressed(s, i, path) && Lacking(s, i, path) == 0
    ensures var s' := Protect(s, i, path, prot); TablesOk(s'.spaces, s'.kernel, s'.owned)
  {
    hide Count, Put, Missing, WellFormed, Lookup, Total, IsFrame, PageOk, FrameOk, TablesOk, Claimed, Taken, KernelPut;
    MapTables(s, i, path, Leaf(At4(s, i, path).frame, prot), []);
  }

  /** A page may be given other permissions if it is not to be written, or nobody
      else has its frame. */
  lemma ProtectInv(s: Sys, i: nat, path: Path, prot: Prot)
    requires Inv(s) && Addressed(s, i, path) && Lacking(s, i, path) == 0 && At4(s, i, path).present
    requires prot.user == UserPath(path)
    requires UserPath(path) && prot.write ==> At4(s, i, path).frame in s.desc && s.desc[At4(s, i, path).frame].refcount == 1
    ensures Inv(Protect(s, i, path, prot))
  {
    hide Count, Put, Missing, WellFormed, Lookup, Total, IsFrame, TablesOk, Protect;
    var s' := Protect(s, i, path, prot);
    ProtectFacts(s, i, path, prot);
    ProtectTables(s, i, path, prot);
    forall g | g in s'.desc
      ensures FrameOk(s', g)
    {
      assert FrameOk(s, g);
    }
    forall j: nat, q: Path | j < |s'.spaces| && UserPath(q)
      ensures PageOk(s', j, q)
    {
      assert PageOk(s, j, q);
    }
    forall q: Path | KernelPath(q)
      ensures KernelPageOk(s', q)
    {
      assert KernelPageOk(s, q);
      assert At4(s', i, q) == KernelAt(s', q) && At4(s, i, q) == KernelAt(s, q);
    }
  }

  /** And not otherwise. */
  lemma ProtectBreaks(s: Sys, i: nat, path: Path, prot: Prot)
    requires Inv(s) && Addressed(s, i, path) && Lacking(s, i, path) == 0 && At4(s, i, path).present
    requires UserPath(path) && prot.write && At4(s, i, path).frame in s.desc && s.desc[At4(s, i, path).frame].refcount != 1
    ensures !Inv(Protect(s, i, path, prot))
  {
    hide Count, Missing, WellFormed, Lookup, Total, IsFrame, TablesOk, Protect, FrameOk, KernelPageOk, Regions;
    ProtectFacts(s, i, path, prot);
    assert !PageOk(Protect(s, i, path, prot), i, path);
  }

  lemma ClaimNothing(desc: Descs)
    ensures Claimed(desc, [], 0) == desc && Taken([], 0) == {}
  {
  }

  /** v_free_page: the entry loses its present bit, the frame a reference. */
  ghost function Release(s: Sys, i: nat, path: Path): Sys
    requires Addressed(s, i, path) && Lacking(s, i, path) == 0
    requires At4(s, i, path).frame in s.desc && s.desc[At4(s, i, path).frame].refcount >= 1
  {
    var e := At4(s, i, path);
    Less(MapPage(s, i, path, e.(present := false, rest := 0), []).(desc := s.desc), e.frame)
  }

  /** What cow_fork_level does for one page of the parent: it can no longer be
      written, and its frame is flagged and has one more reference. */
  ghost function Share(s: Sys, i: nat, path: Path): Sys
    requires Addressed(s, i, path) && Lacking(s, i, path) == 0 && At4(s, i, path).frame in s.desc
  {
    var e := At4(s, i, path);
    SetDesc(MapPage(s, i, path, Dim(e), []).(desc := s.desc), e.frame, Desc(s.desc[e.frame].refcount + 1, true))
  }

  /** One page of a user gets another entry, and its frame another descriptor. */
  lemma EntryFacts(s: Sys, i: nat, path: Path, e: Pte)
    requires Inv(s) && i < |s.spaces| && UserPath(path) && At4(s, i, path).present
    ensures Addressed(s, i, path) && Lacking(s, i, path) == 0
    ensures var s' := MapPage(s, i, path, e, []);
            && |s'.spaces| == |s.spaces| && Shapes(s') && s' == s.(spaces := s'.spaces)
            && (forall j: nat, q: Path :: j < |s.spaces| && Mappable(q) ==>
                  At4(s', j, q) == if SamePage(i, path, j, q) then e else At4(s, j, q))
            && (forall g :: Total(s'.spaces, g) + Maps(At4(s, i, path), g) == Total(s.spaces, g) + Maps(e, g))
            && TablesOk(s'.spaces, s'.kernel, s'.owned)
  {
    hide Count, Put, Missing, WellFormed, Lookup, Total, IsFrame, Claimed, Taken, TablesOk, PageOk, FrameOk;
    PresentNothingLacking(s, i, path);
    MapFacts(s, i, path, e, []);
    MapTables(s, i, path, e, []);
    ClaimNothing(s.desc);
    assert s.owned + {} == s.owned;
  }

  lemma ReleaseInv(s: Sys, i: nat, path: Path)
    requires Inv(s) && i < |s.spaces| && UserPath(path) && At4(s, i, path).present
    ensures Addressed(s, i, path) && Lacking(s, i, path) == 0
    ensures At4(s, i, path).frame in s.desc && s.desc[At4(s, i, path).frame].refcount >= 1
    ensures Inv(Release(s, i, path))
  {
    hide Count, Put, Missing, WellFormed, Lookup, Total, IsFrame, Claimed, Taken, TablesOk, MapPage;
    var e := At4(s, i, path);
    MappedReferenced(s, i, path);
    EntryFacts(s, i, path, e.(present := false, rest := 0));
    var s' := Release(s, i, path);
    forall g | g in s'.desc
      ensures FrameOk(s', g)
    {
      assert FrameOk(s, g);
    }
    forall j: nat, q: Path | j < |s'.spaces| && UserPath(q)
      ensures PageOk(s', j, q)
    {
      assert PageOk(s, j, q);
      if !SamePage(i, path, j, q) && At4(s, j, q).present && At4(s, j, q).write && At4(s, j, q).frame == e.frame {
        WritableAlone(s, j, q, i, path);
      }
    }
    forall q: Path | KernelPath(q)
      ensures KernelPageOk(s', q)
    {
      assert KernelPageOk(s, q);
    }
  }

  lemma ShareInv(s: Sys, i: nat, path: Path)
    requires Inv(s) && i < |s.spaces| && UserPath(path) && At4(s, i, path).present
    ensures Addressed(s, i, path) && Lacking(s, i, path) == 0 && At4(s, i, path).frame in s.desc
    ensures Inv(Share(s, i, path))
  {
    hide Count, Put, Missing, WellFormed, Lookup, Total, IsFrame, Claimed, Taken, TablesOk, MapPage;
    var e := At4(s, i, path);
    MappedReferenced(s, i, path);
    EntryFacts(s, i, path, Dim(e));
    var s' := Share(s, i, path);
    forall g | g in s'.desc
      ensures FrameOk(s', g)
    {
      assert FrameOk(s, g);
    }
    forall j: nat, q: Path | j < |s'.spaces| && UserPath(q)
      ensures PageOk(s', j, q)
    {
      assert PageOk(s, j, q);
      if !SamePage(i, path, j, q) && At4(s, j, q).present && At4(s, j, q).write && At4(s, j, q).frame == e.frame {
        WritableAlone(s, j, q, i, path);
      }
    }
    forall q: Path | KernelPath(q)
      ensures KernelPageOk(s', q)
    {
      assert KernelPageOk(s, q);
    }
  }

  /** Pages taken and never given back: what a fork that gives up half way leaves. */
  function Take(s: Sys, fs: seq<Frame>): Sys {
    s.(desc := Claimed(s.desc, fs, |fs|), owned := s.owned + Taken(fs, |fs|))
  }

  lemma TakeInv(s: Sys, fs: seq<Frame>)
    requires Inv(s) && Free(s, fs)
    ensures Inv(Take(s, fs))
  {
    hide WellFormed, Lookup, Total, IsFrame, TablesOk, Taken;
    var s' := Take(s, fs);
    OwnMore(s.spaces, s.kernel, s.owned, Taken(fs, |fs|));
    forall g | g in s'.desc
      ensures FrameOk(s', g)
    {
      assert FrameOk(s, g);
      if g in Taken(fs, |fs|) {
        TakenFree(s, fs, |fs|, g);
      }
    }
    forall j: nat, q: Path | j < |s'.spaces| && UserPath(q)
      ensures PageOk(s', j, q)
    {
      assert PageOk(s, j, q);
      if At4(s, j, q).present {
        MappedReferenced(s, j, q);
        if At4(s, j, q).frame in Taken(fs, |fs|) {
          TakenFree(s, fs, |fs|, At4(s, j, q).frame);
        }
      }
    }
    forall q: Path | KernelPath(q)
      ensures KernelPageOk(s', q)
    {
      assert KernelPageOk(s, q);
    }
  }

  // ---------- fork ----------

  /** What cow_fork_page_table delivers for a child: tables that say what the
      parent's say, in pages of its own among `pages`. */
  ghost predicate ChildOf(t: Table, c: Table, pages: set<Frame>) {
    && UserSpace(c) && Frames(c) <= pages
    && (forall path: Path :: UserPath(path) ==> Seen(Lookup(c, path)) == Seen(Dim(Lookup(t, path))))
    && (forall f :: Count(c.slots, 4, f) == Count(t.slots, 4, f))
  }

  /** What hangs below slot 511 is neither counted nor copied. */
  lemma KernelNotCounted(t: Table, k: Slot)
    requires |t.slots| == ENTRIES
    ensures forall f :: Count(t.(slots := t.slots[KERNEL := k]).slots, 4, f) == Count(t.slots, 4, f)
    ensures Tables(t.(slots := t.slots[KERNEL := k]).slots, 4) == Tables(t.slots, 4)
  {
    forall f ensures Count(t.(slots := t.slots[KERNEL := k]).slots, 4, f) == Count(t.slots, 4, f) {
      CountSwap(t.slots, 4, f, KERNEL, k);
    }
    TablesSwap(t.slots, 4, KERNEL, k);
  }

  lemma CopyCounts(raw: PageMemory.Memory, t: Table, d: Table, f: Frame)
    requires |t.slots| == |d.slots| == ENTRIES
    requires CopyOf(raw, Shallow(t), d, 4) && Clean(raw, Shallow(t), d, 4)
    ensures Count(d.slots, 4, f) == Count(t.slots, 4, f)
  {
    hide Clean, CopyOf, Count;
    CopyCount(raw, Shallow(t), d, 4, ENTRIES, f);
    ShallowCount(t, f);
    assert d.slots[..ENTRIES] == d.slots && Shallow(t).slots[..ENTRIES] == Shallow(t).slots;
  }

  lemma RootSlotCount(t: Table)
    requires UserSpace(t)
    ensures |t.slots| == ENTRIES
  {
  }

  /** A fork of the page tables into clean pages is the fork of the protocol. */
  lemma ForkDelivers(s: Store, raw: PageMemory.Memory, s': Store, t: Table, k: Slot, d: Table)
    requires UserSpace(t) && KernelOk(k) && Represents(s.mem, s.pool, Full(t, k))
    requires SpaceForked(s, raw, s', Full(t, k), d) && Clean(raw, Shallow(Full(t, k)), d, 4)
    ensures Tables(Full(t, k).slots, 4) == Tables(t.slots, 4)
    ensures ChildOf(t, Bare(d), Taken(s.pool, Tables(t.slots, 4) + 1))
    ensures RootChild(Full(t, k), d) == Full(Bare(d), k)
  {
    hide WellFormed, PageMemory.Holds, Separate, Frames, Tables, Clean, CopyOf, Count, Lookup;
    RootSlotCount(t);
    var u := Full(t, k);
    CleanSameMeaning(raw, u, d);
    ForkTreesApart(s, raw, s', u, d);
    var c := RootChild(u, d);
    assert Bare(c) == Bare(d) && c == Full(Bare(d), k);
    BareShape(c);
    EntrySwap(d, KERNEL, ABSENT);
    KernelNotCounted(t, k);
    KernelNotCounted(d, Entry(ABSENT));
    forall f ensures Count(Bare(d).slots, 4, f) == Count(t.slots, 4, f) {
      CopyCounts(raw, u, d, f);
    }
    forall path: Path | UserPath(path) ensures Seen(Lookup(Bare(d), path)) == Seen(Dim(Lookup(t, path))) {
      FullLookup(t, k, path);
      FullLookup(Bare(d), k, path);
      assert Seen(Lookup(c, path)) == Seen(Dim(Lookup(u, path)));
    }
  }

  /** `s` after space `i` is forked into a new last space with root `c`; `fs`
      holds the pages taken for its tables. */
  ghost function Fork(s: Sys, i: nat, c: Table, fs: seq<Frame>): Sys
    requires i < |s.spaces| == |s.vma| && Tables(s.spaces[i].slots, 4) + 1 <= |fs|
  {
    var t := s.spaces[i];
    var n := Tables(t.slots, 4) + 1;
    s.(spaces := s.spaces[i := Cleared(t, 4)] + [c], vma := s.vma + [s.vma[i]],
       desc := ForkDesc(s.desc, fs, n, t.slots, 4), owned := s.owned + Taken(fs, n))
  }

  ghost predicate CanForkSpace(s: Sys, i: nat, c: Table, fs: seq<Frame>) {
    && Inv(s) && i < |s.spaces| && Free(s, fs) && Tables(s.spaces[i].slots, 4) + 1 <= |fs|
    && ChildOf(s.spaces[i], c, Taken(fs, Tables(s.spaces[i].slots, 4) + 1))
  }

  lemma ForkFacts(s: Sys, i: nat, c: Table, fs: seq<Frame>)
    requires CanForkSpace(s, i, c, fs)
    ensures var s', t := Fork(s, i, c, fs), s.spaces[i];
            && Shapes(s') && (forall j: nat, q: Path :: j < |s'.spaces| && KernelPath(q) ==> At4(s', j, q) == KernelAt(s, q))
            && (forall j: nat, q: Path :: j < |s.spaces| && UserPath(q) ==>
                  At4(s', j, q) == if j == i then Dim(At4(s, i, q)) else At4(s, j, q))
            && (forall q: Path :: UserPath(q) ==> Seen(At4(s', |s.spaces|, q)) == Seen(Dim(At4(s, i, q))))
            && (forall f :: Total(s'.spaces, f) == Total(s.spaces, f) + Count(t.slots, 4, f))
  {
    hide Count, Tables, WellFormed, Separate, Lookup, Total, Cleared, ForkDesc, IsFrame, PageOk, FrameOk, TablesOk, Regions;
    var t, s' := s.spaces[i], Fork(s, i, c, fs);
    var mid := s.spaces[i := Cleared(t, 4)];
    ClearedShape(t, 4);
    forall f
      ensures Total(s'.spaces, f) == Total(s.spaces, f) + Count(t.slots, 4, f)
    {
      TotalSwap(s.spaces, i, Cleared(t, 4), f);
      ClearedCountTable(t, 4, f);
      TotalLast(mid, c, f);
    }
    forall j: nat, q: Path | j < |s.spaces| && UserPath(q)
      ensures At4(s', j, q) == if j == i then Dim(At4(s, i, q)) else At4(s, j, q)
    {
      ClearedLookup(t, q);
    }
  }

  lemma TotalLast(spaces: seq<Table>, c: Table, f: Frame)
    ensures Total(spaces + [c], f) == Total(spaces, f) + Count(c.slots, 4, f)
  {
    assert (spaces + [c])[..|spaces|] == spaces;
  }

  lemma TotalPair(spaces: seq<Table>, i: nat, j: nat, f: Frame)
    requires i < |spaces| && j < |spaces| && i != j
    ensures Count(spaces[i].slots, 4, f) + Count(spaces[j].slots, 4, f) <= Total(spaces, f)
  {
    var none := Empty(Frame(0));
    CountAbsent(none.slots, 4, f);
    TotalSwap(spaces, i, none, f);
    TotalAtLeast(spaces[i := none], j, f);
  }

  lemma ForkFrame(s: Sys, i: nat, c: Table, fs: seq<Frame>, f: Frame)
    requires CanForkSpace(s, i, c, fs) && f in s.desc
    ensures FrameOk(Fork(s, i, c, fs), f)
  {
    hide Count, Tables, WellFormed, Lookup, Total, Cleared, IsFrame, PageOk, Taken, TablesOk, Regions, ChildOf;
    ForkFacts(s, i, c, fs);
    assert FrameOk(s, f);
    TotalAtLeast(s.spaces, i, f);
    if f in Taken(fs, Tables(s.spaces[i].slots, 4) + 1) {
      TakenFree(s, fs, Tables(s.spaces[i].slots, 4) + 1, f);
    }
  }

  lemma ForkPage(s: Sys, i: nat, c: Table, fs: seq<Frame>, j: nat, q: Path)
    requires CanForkSpace(s, i, c, fs) && j <= |s.spaces| && UserPath(q)
    ensures PageOk(Fork(s, i, c, fs), j, q)
  {
    hide Count, Tables, WellFormed, Lookup, Total, Cleared, IsFrame, Taken, TablesOk, Regions, ChildOf;
    ForkFacts(s, i, c, fs);
    var k := if j == |s.spaces| then i else j;
    assert PageOk(s, k, q);
    if At4(s, k, q).present {
      var f := At4(s, k, q).frame;
      MappedReferenced(s, k, q);
      MappedCounts(s.spaces[k], q, f);
      if f in Taken(fs, Tables(s.spaces[i].slots, 4) + 1) {
        TakenFree(s, fs, Tables(s.spaces[i].slots, 4) + 1, f);
      }
      if k != i {
        TotalPair(s.spaces, k, i, f);
        assert FrameOk(s, f);
      }
    }
  }

  lemma ForkTables(s: Sys, i: nat, c: Table, fs: seq<Frame>)
    requires CanForkSpace(s, i, c, fs)
    ensures var s' := Fork(s, i, c, fs); TablesOk(s'.spaces, s'.kernel, s'.owned)
  {
    hide Count, Tables, WellFormed, Separate, Lookup, Total, Cleared, IsFrame, PageOk, FrameOk, ForkDesc, Frames;
    var more := Taken(fs, Tables(s.spaces[i].slots, 4) + 1);
    FreeUnowned(s, fs);
    assert SpaceOk(s.spaces[i], s.kernel, s.owned);
    ClearedSpace(s.spaces[i]);
    SwapTables(s.spaces, s.kernel, s.owned, i, Cleared(s.spaces[i], 4));
    AddTables(s.spaces[i := Cleared(s.spaces[i], 4)], s.kernel, s.owned, c, more);
  }

  lemma ForkRegionsOk(s: Sys, i: nat, c: Table, fs: seq<Frame>)
    requires CanForkSpace(s, i, c, fs)
    ensures Regions(Fork(s, i, c, fs))
  {
    hide Count, Tables, Lookup, Total, Cleared, ForkDesc, PageOk, FrameOk, KernelPageOk, TablesOk, Shapes, ChildOf;
    var s' := Fork(s, i, c, fs);
    forall j: nat, q: Path | j < |s'.vma| && q in s'.vma[j]
      ensures RegionFits(q, s'.vma[j][q])
    {
      assert q in s.vma[if j < |s.vma| then j else i];
    }
  }

  lemma ForkInv(s: Sys, i: nat, c: Table, fs: seq<Frame>)
    requires CanForkSpace(s, i, c, fs)
    ensures Inv(Fork(s, i, c, fs))
  {
    hide Count, Tables, WellFormed, Lookup, Total, Cleared, IsFrame, Taken, FrameOk, PageOk, ChildOf, TablesOk, Regions;
    var s' := Fork(s, i, c, fs);
    ForkFacts(s, i, c, fs);
    ForkTables(s, i, c, fs);
    ForkRegionsOk(s, i, c, fs);
    forall f | f in s'.desc
      ensures FrameOk(s', f)
    {
      ForkFrame(s, i, c, fs, f);
    }
    forall j: nat, q: Path | j < |s'.spaces| && UserPath(q)
      ensures PageOk(s', j, q)
    {
      ForkPage(s, i, c, fs, j, q);
    }
    forall q: Path | KernelPath(q)
      ensures KernelPageOk(s', q)
    {
      assert KernelPageOk(s, q);
    }
    forall f | Total(s'.spaces, f) > 0
      ensures f in s'.desc
    {
      TotalAtLeast(s.spaces, i, f);
    }
  }
}
