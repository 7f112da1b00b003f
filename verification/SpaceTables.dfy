/** The table pages of all address spaces together. A space is a tree with nothing
    below slot 511; the kernel's part, which hangs there in every root, is kept once. */
module SpaceTables {
  import opened PageBits
  import opened PageTree
  import opened PageMemory
  import opened PageStore
  import opened PageFork
  import opened PageForkStore
  import opened PageForkRoot

  // ---------- one space and the kernel's part ----------

  /** The tree without the kernel's part. */
  function Bare(t: Table): Table
    requires |t.slots| == ENTRIES
  {
    t.(slots := t.slots[KERNEL := Entry(ABSENT)])
  }

  /** The tree as the processor has it. A root with an entry of its own in slot 511 has
      that instead of the kernel's. */
  function Full(t: Table, kernel: Slot): Table
    requires |t.slots| == ENTRIES
  {
    if t.slots[KERNEL] == Entry(ABSENT) then t.(slots := t.slots[KERNEL := kernel]) else t
  }

  ghost predicate UserSpace(t: Table) {
    WellFormed(t, 4) && Separate(t) && t.slots[KERNEL] == Entry(ABSENT)
  }

  /** The entry of slot 511 and the tables below it. */
  ghost predicate KernelOk(kernel: Slot) {
    && kernel.Link? && kernel.e.present && kernel.e.write && kernel.e.user && kernel.e.frame == kernel.sub.frame
    && WellFormed(kernel.sub, 3) && Separate(kernel.sub)
  }

  /** As much of that as mapping a page needs. */
  ghost predicate KernelTree(k: Slot) { k.Link? && WellFormed(k.sub, 3) }

  lemma FullShape(t: Table, k: Slot)
    requires UserSpace(t) && KernelOk(k) && Frames(t) !! SlotFrames(k)
    ensures WellFormed(Full(t, k), 4) && Separate(Full(t, k)) && Frames(Full(t, k)) == Frames(t) + SlotFrames(k)
  {
    hide IsFrame;
    SwapFrames(t, KERNEL, k);
    SwapSeparate(t, KERNEL, k, SlotFrames(k));
  }

  /** Taken apart and put together. */
  lemma BareShape(t: Table)
    requires WellFormed(t, 4) && Separate(t)
    ensures UserSpace(Bare(t)) && Full(Bare(t), t.slots[KERNEL]) == t
    ensures Frames(Bare(t)) <= Frames(t) && Frames(Bare(t)) !! SlotFrames(t.slots[KERNEL])
  {
    hide IsFrame;
    EntrySwap(t, KERNEL, ABSENT);
    ShallowShape(t);
    SameSlotFrames(Bare(t), Shallow(t));
  }

  lemma FullLookup(t: Table, k: Slot, path: seq<Index>)
    requires |t.slots| == ENTRIES && t.slots[KERNEL] == Entry(ABSENT) && k.Link? && |path| == 4
    ensures Lookup(Full(t, k), path) == if path[0] == KERNEL then Lookup(k.sub, path[1..]) else Lookup(t, path)
  {
  }

  /** The kernel's entry without what is below it: the words of the root. */
  function UserPart(t: Table, e: Pte): Table
    requires |t.slots| == ENTRIES
  {
    if t.slots[KERNEL] == Entry(ABSENT) then t.(slots := t.slots[KERNEL := Entry(e)]) else t
  }

  lemma UserPartFrames(t: Table, e: Pte)
    requires |t.slots| == ENTRIES && t.slots[KERNEL].Entry?
    ensures Frames(UserPart(t, e)) == Frames(t)
  {
    SameSlotFrames(t, UserPart(t, e));
  }

  /** A tree is in memory when the space's own words and the kernel's tables are. */
  lemma FullHolds(m: Memory, t: Table, k: Slot)
    requires |t.slots| == ENTRIES && t.slots[KERNEL] == Entry(ABSENT) && k.Link?
    ensures Holds(m, Full(t, k)) <==> Holds(m, UserPart(t, k.e)) && Holds(m, k.sub)
  {
    var f, u := Full(t, k), UserPart(t, k.e);
    forall i | 0 <= i < ENTRIES && i != KERNEL ensures f.slots[i] == u.slots[i] {
    }
    assert f.slots[KERNEL] == k && u.slots[KERNEL] == Entry(k.e);
  }

  // ---------- mapping ----------

  /** Mapping below slot 511. */
  function KernelPut(k: Slot, path: seq<Index>, e: Pte, pool: seq<Frame>): Slot
    requires KernelTree(k) && KernelPath(path)
    requires Missing(k.sub, path[1..]) <= |pool| && Supply(pool, {})
  {
    Link(k.e, Put(k.sub, path[1..], e, pool))
  }

  lemma FullPut(t: Table, k: Slot, path: seq<Index>, e: Pte, pool: seq<Frame>)
    requires UserSpace(t) && KernelOk(k) && WellFormed(Full(t, k), 4) && UserPath(path) && Supply(pool, {})
    requires Missing(t, path) <= |pool|
    ensures Missing(Full(t, k), path) == Missing(t, path) && |Put(t, path, e, pool).slots| == ENTRIES
    ensures Put(Full(t, k), path, e, pool) == Full(Put(t, path, e, pool), k)
    ensures Put(t, path, e, pool).slots[KERNEL] == Entry(ABSENT)
  {
    hide IsFrame;
    assert Put(Full(t, k), path, e, pool).slots == Full(Put(t, path, e, pool), k).slots;
  }

  lemma FullKernelPut(t: Table, k: Slot, path: seq<Index>, e: Pte, pool: seq<Frame>)
    requires UserSpace(t) && KernelOk(k) && WellFormed(Full(t, k), 4) && KernelPath(path) && Supply(pool, {})
    requires Missing(k.sub, path[1..]) <= |pool|
    ensures PathOk(path) && Missing(Full(t, k), path) == Missing(k.sub, path[1..])
    ensures Put(Full(t, k), path, e, pool) == Full(t, KernelPut(k, path, e, pool))
  {
    hide IsFrame;
  }

  lemma KernelPutTree(k: Slot, path: seq<Index>, e: Pte, pool: seq<Frame>)
    requires KernelTree(k) && KernelPath(path) && Supply(pool, {}) && Missing(k.sub, path[1..]) <= |pool|
    ensures KernelTree(KernelPut(k, path, e, pool)) && KernelPut(k, path, e, pool).e == k.e
    ensures forall q: seq<Index> :: KernelPath(q) ==>
      Lookup(KernelPut(k, path, e, pool).sub, q[1..]) == if q == path then e else Lookup(k.sub, q[1..])
  {
    hide WellFormed, IsFrame, Put, Missing, Lookup;
    PutWellFormed(k.sub, path[1..], e, pool);
    forall q: seq<Index> | KernelPath(q)
      ensures Lookup(KernelPut(k, path, e, pool).sub, q[1..]) == if q == path then e else Lookup(k.sub, q[1..])
    {
      PutLookup(k.sub, path[1..], e, pool, q[1..]);
      assert q == [q[0]] + q[1..] && path == [path[0]] + path[1..];
    }
  }

  lemma KernelPutOk(k: Slot, path: seq<Index>, e: Pte, pool: seq<Frame>)
    requires KernelOk(k) && KernelPath(path) && Supply(pool, SlotFrames(k))
    requires Missing(k.sub, path[1..]) <= |pool|
    ensures KernelOk(KernelPut(k, path, e, pool))
    ensures SlotFrames(KernelPut(k, path, e, pool)) == SlotFrames(k) + Taken(pool, Missing(k.sub, path[1..]))
  {
    hide WellFormed, Separate, Frames, IsFrame, Put, Missing;
    PutWellFormed(k.sub, path[1..], e, pool);
    PutSeparate(k.sub, path[1..], e, pool);
    PutFrames(k.sub, path[1..], e, pool);
  }

  // ---------- all spaces ----------

  /** A space whose table pages are in the hands of the kernel and none of the
      kernel's own. */
  ghost predicate SpaceOk(t: Table, kernel: Slot, owned: set<Frame>) {
    UserSpace(t) && Frames(t) <= owned && Frames(t) !! SlotFrames(kernel)
  }

  ghost predicate Apart(t: Table, u: Table) { Frames(t) !! Frames(u) }

  /** No table page belongs to two spaces, or to a space and the kernel. */
  ghost predicate TablesOk(spaces: seq<Table>, kernel: Slot, owned: set<Frame>) {
    && KernelOk(kernel) && SlotFrames(kernel) <= owned
    && (forall i :: 0 <= i < |spaces| ==> SpaceOk(spaces[i], kernel, owned))
    && (forall i, j :: 0 <= i < j < |spaces| ==> Apart(spaces[i], spaces[j]))
  }

  lemma PutSpace(t: Table, path: seq<Index>, e: Pte, pool: seq<Frame>, kernel: Slot, owned: set<Frame>)
    requires SpaceOk(t, kernel, owned) && SlotFrames(kernel) <= owned
    requires UserPath(path) && Supply(pool, owned) && Missing(t, path) <= |pool|
    ensures SpaceOk(Put(t, path, e, pool), kernel, owned + Taken(pool, Missing(t, path)))
    ensures Frames(Put(t, path, e, pool)) == Frames(t) + Taken(pool, Missing(t, path))
  {
    hide WellFormed, Separate, Frames, IsFrame, Missing;
    PutWellFormed(t, path, e, pool);
    PutSeparate(t, path, e, pool);
    PutFrames(t, path, e, pool);
    PutKernelSlot(t, path, e, pool);
  }

  lemma PutKernelSlot(t: Table, path: seq<Index>, e: Pte, pool: seq<Frame>)
    requires WellFormed(t, 4) && UserPath(path) && Supply(pool, {}) && Missing(t, path) <= |pool|
    ensures |Put(t, path, e, pool).slots| == ENTRIES && Put(t, path, e, pool).slots[KERNEL] == t.slots[KERNEL]
  {
  }

  /** Mapping a page in one space keeps all table pages apart. */
  lemma PutTables(spaces: seq<Table>, kernel: Slot, owned: set<Frame>, i: nat, path: seq<Index>, e: Pte, pool: seq<Frame>)
    requires TablesOk(spaces, kernel, owned) && i < |spaces|
    requires UserPath(path) && Supply(pool, owned) && Missing(spaces[i], path) <= |pool|
    ensures TablesOk(spaces[i := Put(spaces[i], path, e, pool)], kernel, owned + Taken(pool, Missing(spaces[i], path)))
  {
    hide WellFormed, Separate, KernelOk, Frames, IsFrame, Put, Missing;
    var t := spaces[i];
    assert SpaceOk(t, kernel, owned);
    var more := Taken(pool, Missing(t, path));
    PutSpace(t, path, e, pool, kernel, owned);
    var s' := spaces[i := Put(t, path, e, pool)];
    forall j | 0 <= j < |s'| ensures SpaceOk(s'[j], kernel, owned + more) {
      assert SpaceOk(spaces[j], kernel, owned);
    }
    forall j, k | 0 <= j < k < |s'| ensures Apart(s'[j], s'[k]) {
      assert Apart(spaces[j], spaces[k]) && SpaceOk(spaces[j], kernel, owned) && SpaceOk(spaces[k], kernel, owned);
    }
  }

  /** So does mapping a page of the kernel. */
  lemma KernelPutTables(spaces: seq<Table>, kernel: Slot, owned: set<Frame>, path: seq<Index>, e: Pte, pool: seq<Frame>)
    requires TablesOk(spaces, kernel, owned) && KernelPath(path) && Supply(pool, owned)
    requires Missing(kernel.sub, path[1..]) <= |pool|
    ensures TablesOk(spaces, KernelPut(kernel, path, e, pool), owned + Taken(pool, Missing(kernel.sub, path[1..])))
  {
    KernelPutOk(kernel, path, e, pool);
    hide UserSpace, KernelOk, Frames, SlotFrames, IsFrame, KernelPut, Put;
    var k', more := KernelPut(kernel, path, e, pool), Taken(pool, Missing(kernel.sub, path[1..]));
    forall j | 0 <= j < |spaces| ensures SpaceOk(spaces[j], k', owned + more) {
      assert SpaceOk(spaces[j], kernel, owned);
    }
  }

  /** So does a new space made of fresh pages. */
  lemma AddTables(spaces: seq<Table>, kernel: Slot, owned: set<Frame>, c: Table, more: set<Frame>)
    requires TablesOk(spaces, kernel, owned) && more !! owned && UserSpace(c) && Frames(c) <= more
    ensures TablesOk(spaces + [c], kernel, owned + more)
  {
    hide UserSpace, KernelOk, Frames, SlotFrames;
    var s' := spaces + [c];
    forall j | 0 <= j < |s'| ensures SpaceOk(s'[j], kernel, owned + more) {
      if j < |spaces| {
        assert SpaceOk(spaces[j], kernel, owned);
      }
    }
    forall j, k | 0 <= j < k < |s'| ensures Apart(s'[j], s'[k]) {
      assert SpaceOk(spaces[j], kernel, owned);
      if k < |spaces| {
        assert Apart(spaces[j], spaces[k]);
      }
    }
  }

  /** More pages in the kernel's hands do no harm. */
  lemma OwnMore(spaces: seq<Table>, kernel: Slot, owned: set<Frame>, more: set<Frame>)
    requires TablesOk(spaces, kernel, owned)
    ensures TablesOk(spaces, kernel, owned + more)
  {
    hide UserSpace, KernelOk, Frames, SlotFrames;
    forall j | 0 <= j < |spaces| ensures SpaceOk(spaces[j], kernel, owned + more) {
      assert SpaceOk(spaces[j], kernel, owned);
    }
  }

  /** A tree of the same pages in place of a space. */
  lemma SwapTables(spaces: seq<Table>, kernel: Slot, owned: set<Frame>, i: nat, u: Table)
    requires TablesOk(spaces, kernel, owned) && i < |spaces| && UserSpace(u) && Frames(u) == Frames(spaces[i])
    ensures TablesOk(spaces[i := u], kernel, owned)
  {
    hide UserSpace, KernelOk, Frames, SlotFrames;
    var s' := spaces[i := u];
    forall j | 0 <= j < |s'| ensures SpaceOk(s'[j], kernel, owned) {
      assert SpaceOk(spaces[j], kernel, owned) && SpaceOk(spaces[i], kernel, owned);
    }
    forall j, k | 0 <= j < k < |s'| ensures Apart(s'[j], s'[k]) {
      assert Apart(spaces[j], spaces[k]);
    }
  }

  lemma ClearedSpace(t: Table)
    requires UserSpace(t)
    ensures UserSpace(Cleared(t, 4)) && Frames(Cleared(t, 4)) == Frames(t)
  {
    hide IsFrame;
    ClearedShape(t, 4);
    ClearedSeparate(t, 4);
  }

  /** The root exec switches to (get_kduplicate_curr_self_ref_PML4) has no user page. */
  lemma EmptyRootSpace(f: Frame)
    requires IsFrame(f)
    ensures UserSpace(EmptyRoot(f)) && Frames(EmptyRoot(f)) == {f}
    ensures forall path: seq<Index> :: UserPath(path) ==> Lookup(EmptyRoot(f), path) == ABSENT
  {
    EmptyRootShape(f);
  }

  /** The words it writes make that root with the kernel's part. */
  lemma KernelRootHolds(m: Memory, f: Frame, kernel: Slot, w: bv64)
    requires IsFrame(f) && KernelOk(kernel) && Decode(w) == kernel.e && Holds(m, kernel.sub) && f !in SlotFrames(kernel)
    ensures Holds(m[f := Zeroes()[KERNEL := w][SELF_REF := SelfEntry(f.addr)]], Full(EmptyRoot(f), kernel))
  {
    DecodeZero();
    DecodeSelf(f);
    hide Decode, SelfEntry, IsFrame;
    HoldsFrame(m, m[f := Zeroes()[KERNEL := w][SELF_REF := SelfEntry(f.addr)]], kernel.sub);
  }
}
