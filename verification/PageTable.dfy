/** sys/memory/page_table_helper.c: the code that builds and reads translation
    tables, once through a direct map of physical memory and once through the
    self-reference window. Both are specified by what they do to the tree. */
module PageTable {
  import opened PageBits
  import opened PageTree
  import opened PageMemory
  import opened PageStore
  import opened PageFork
  import opened PageForkStore
  import opened PageForkRoot
  import opened PageForkFail
  import opened SpaceTables

  lemma KernelApart(mem: Memory, pool: seq<Frame>, t: Table)
    requires Represents(mem, pool, t) && pool != [] && t.slots[KERNEL].Link?
    ensures |t.slots| == ENTRIES && IsFrame(pool[0]) && pool[0] !in Frames(t) && pool[0] !in SlotFrames(t.slots[KERNEL])
    ensures Holds(mem, t.slots[KERNEL].sub) && Decode(mem[t.frame][KERNEL]) == t.slots[KERNEL].e
    ensures |mem[t.frame]| == ENTRIES && t.frame in Frames(t)
  {
    SlotFramesInTable(t, KERNEL);
  }

  class PageTables {
    var mem: Memory
    var pool: seq<Frame>
    var desc: Descs
    /** The root table the processor is using. */
    var cr3: Frame

    /** alloc_phys_pages(1), as far as the tables are concerned: the next free
        page with one reference more, its contents as they are; 0 if none. */
    method AllocPhysPage() returns (phys: bv64)
      modifies this`pool, this`desc
      ensures old(pool) == [] ==> phys == 0 && pool == old(pool) && desc == old(desc)
      ensures old(pool) != [] ==>
        phys == old(pool)[0].addr && Took(old(Store(mem, pool, desc)), Store(mem, pool, desc), 1)
    {
      if pool == [] {
        return 0;
      }
      var f := pool[0];
      pool := pool[1..];
      if f in desc {
        desc := desc[f := desc[f].(refcount := desc[f].refcount + 1)];
      }
      phys := f.addr;
      assert old(pool)[0] in Taken(old(pool), 1);
    }

    /** get_zeroed_page_trans_obj. That there was no page is not noticed: page 0 is
        cleared instead. */
    method GetZeroedPageTransObj() returns (phys: bv64)
      modifies this`mem, this`pool, this`desc
      ensures old(pool) != [] ==>
        && phys == old(pool)[0].addr && mem == old(mem)[old(pool)[0] := Zeroes()]
        && Took(old(Store(mem, pool, desc)), Store(mem, pool, desc), 1)
      ensures old(pool) == [] ==>
        phys == 0 && mem == old(mem)[Frame(0) := Zeroes()] && pool == [] && desc == old(desc)
    {
      phys := AllocPhysPage();
      mem := mem[Frame(phys) := Zeroes()];
    }

    /** One level of update_page_table_idmap: find the table below slot `i` of
        `table`, adding an empty one if there is none. */
    method TableBelow(table: Frame, i: Index, ghost t: Table, ghost path: seq<Index>, ghost d: nat, ghost e: Pte)
        returns (next: Frame, ghost u: Table)
      requires Represents(mem, pool, t) && |path| == 4 && PathOk(path) && d < 3
      requires Missing(t, path) <= |pool|
      requires Reaches(t, path[..d]) && At(t, path[..d]).frame == table && path[d] == i
      modifies this`mem, this`pool, this`desc
      ensures Grown(old(Store(mem, pool, desc)), t, Store(mem, pool, desc), u, path, e)
      ensures Represents(mem, pool, u) && Missing(u, path) <= |pool|
      ensures Reaches(u, path[..d+1]) && At(u, path[..d+1]).frame == next
    {
      hide WellFormed, Separate, Holds, Frames, Put, Missing, Grown, Represents, Claimed, Supply, Backed;
      hide SameOutside, Reaches, At, Open, Decode, IsFrame, EntryAddr, LinkEntry, Zeroes, PathOk;
      ghost var s := Store(mem, pool, desc);
      SlotRead(mem, pool, t, path, d);
      var w := mem[table][i];
      if w & PRESENT != 0 {
        next := Frame(EntryAddr(w));
        u := t;
        NotGrown(s, t, path, e);
      } else {
        OpenEnabled(mem, pool, t, path, d);
        OpenPlace(mem, pool, t, path, d);
        u := Open(t, path, d, pool[0]);
        var phys := GetZeroedPageTransObj();
        next := Frame(phys);
        mem := mem[table := mem[table][i := LinkEntry(phys)]];
        OpenGrows(s, t, path, d, e, table, Store(mem, pool, desc));
      }
    }

    /** The page table for `path`: the three levels above it. */
    method PageTableFor(pml4: Frame, i4: Index, i3: Index, i2: Index, ghost t: Table, ghost path: seq<Index>, ghost e: Pte)
        returns (pt: Frame, ghost u: Table)
      requires Represents(mem, pool, t) && t.frame == pml4
      requires |path| == 4 && PathOk(path) && path[0] == i4 && path[1] == i3 && path[2] == i2
      requires Missing(t, path) <= |pool|
      modifies this`mem, this`pool, this`desc
      ensures Grown(old(Store(mem, pool, desc)), t, Store(mem, pool, desc), u, path, e)
      ensures Reaches(u, path[..3]) && At(u, path[..3]).frame == pt
    {
      hide *;
      ReachesRoot(mem, pool, t, path);
      ghost var s := Store(mem, pool, desc);
      ghost var t3, t2;
      var pdp, pd;
      pdp, t3 := TableBelow(pml4, i4, t, path, 0, e);
      ghost var s3 := Store(mem, pool, desc);
      pd, t2 := TableBelow(pdp, i3, t3, path, 1, e);
      GrownFurther(s, t, s3, t3, Store(mem, pool, desc), t2, path, e);
      ghost var s2 := Store(mem, pool, desc);
      pt, u := TableBelow(pd, i2, t2, path, 2, e);
      GrownFurther(s, t, s2, t2, Store(mem, pool, desc), u, path, e);
    }

    /** update_page_table_idmap: install `phys` at `virt` below root `pml4`,
        walking the tables through the direct map. */
    method UpdatePageTableIdmap(pml4: bv64, phys: bv64, virt: bv64, accessPerm: bv64, ghost t: Table)
        returns (r: int)
      requires Represents(mem, pool, t) && t.frame == Frame(pml4)
      requires IndexPml4e(virt) != SELF_REF && IsFrame(Frame(phys))
      requires Missing(t, PathOf(virt)) <= |pool|
      modifies this`mem, this`pool, this`desc
      ensures r == 0
      ensures Mapped(old(Store(mem, pool, desc)), t, Store(mem, pool, desc), PathOf(virt), LeafPte(phys, accessPerm))
    {
      var w := LeafEntry(phys, accessPerm);
      DecodeLeaf(Frame(phys), accessPerm);
      hide WellFormed, Missing, Grown, Mapped, LeafEntry, Decode, IndexPml4e, IndexPdpe, IndexPde, IndexPte;
      ghost var s := Store(mem, pool, desc);
      var pt;
      ghost var u;
      pt, u := PageTableFor(Frame(pml4), IndexPml4e(virt), IndexPdpe(virt), IndexPde(virt), t, PathOf(virt), Decode(w));
      LeafStored(s, t, Store(mem, pool, desc), u, PathOf(virt), w);
      mem := mem[pt := mem[pt][IndexPte(virt) := w]];
      r := 0;
    }

    // ---------- through the self-reference window ----------

    /** A kernel read of the word at virtual address `va`. Its precondition is
        that the processor can translate the address: a call that could fault
        does not verify. */
    method Load(va: bv64) returns (w: bv64)
      requires Canonical(va) && Walk(mem, cr3, PathOf(va)).Found?
      requires Walk(mem, cr3, PathOf(va)).frame in mem
      requires |mem[Walk(mem, cr3, PathOf(va)).frame]| == ENTRIES
      ensures w == mem[Walk(mem, cr3, PathOf(va)).frame][WordIndex(va)]
    {
      w := mem[Walk(mem, cr3, PathOf(va)).frame][WordIndex(va)];
    }

    /** A kernel write, which in addition needs write permission at every level. */
    method StoreWord(va: bv64, w: bv64)
      requires Canonical(va) && Walk(mem, cr3, PathOf(va)).Found? && Walk(mem, cr3, PathOf(va)).write
      requires Walk(mem, cr3, PathOf(va)).frame in mem
      requires |mem[Walk(mem, cr3, PathOf(va)).frame]| == ENTRIES
      modifies this`mem
      ensures var f := old(Walk(mem, cr3, PathOf(va)).frame);
              mem == old(mem)[f := old(mem)[f][WordIndex(va) := w]]
    {
      var f := Walk(mem, cr3, PathOf(va)).frame;
      mem := mem[f := mem[f][WordIndex(va) := w]];
    }

    /** One level of the read-only walk: is there a table below this entry? */
    method LevelPresent(va: bv64, ghost t: Table, ghost path: seq<Index>, ghost d: nat) returns (present: bool)
      requires Represents(mem, pool, t) && cr3 == t.frame && |path| == 4 && PathOk(path) && d < 3
      requires Reaches(t, path[..d])
      requires Canonical(va) && WindowPath(va, path[..d]) && WordIndex(va) == path[d]
      ensures present ==> Reaches(t, path[..d+1])
      ensures !present ==> Lookup(t, path) == ABSENT
    {
      hide WellFormed, Separate, Holds, Frames, Represents, Supply, Backed, Reaches, At, Decode, EntryAddr;
      hide PathOk, Lookup, Canonical, WordIndex, PathOf, WindowPath, Walk;
      SlotRead(mem, pool, t, path, d);
      WindowRead(mem, pool, t, path, d, va);
      var w := Load(va);
      present := w & PRESENT != 0;
      if !present {
        NoTableNoLeaf(t, path, d);
      }
    }

    /** One level of update_curr_page_table. Without a page to map (`phys` 0) a
        missing level is an error; otherwise an empty table is added. */
    method WindowTableBelow(va: bv64, phys: bv64, ghost t: Table, ghost path: seq<Index>, ghost d: nat, ghost e: Pte)
        returns (ok: bool, ghost u: Table)
      requires Represents(mem, pool, t) && cr3 == t.frame && |path| == 4 && PathOk(path) && d < 3
      requires phys != 0 ==> Missing(t, path) <= |pool|
      requires Reaches(t, path[..d])
      requires Canonical(va) && WindowPath(va, path[..d]) && WordIndex(va) == path[d]
      modifies this`mem, this`pool, this`desc
      ensures ok <==> phys != 0 || At(t, path[..d]).slots[path[d]].Link?
      ensures phys == 0 ==> Store(mem, pool, desc) == old(Store(mem, pool, desc)) && u == t
      ensures phys != 0 ==> Grown(old(Store(mem, pool, desc)), t, Store(mem, pool, desc), u, path, e)
      ensures phys != 0 ==> Missing(u, path) <= |pool|
      ensures ok ==> Represents(mem, pool, u) && u.frame == t.frame && Reaches(u, path[..d+1])
    {
      hide WellFormed, Separate, Holds, Frames, Put, Missing, Grown, Represents, Claimed, Supply, Backed;
      hide SameOutside, Reaches, At, Open, Decode, IsFrame, EntryAddr, LinkEntry, Zeroes, PathOk;
      hide Canonical, WordIndex, PathOf, WindowPath, Walk;
      ghost var s := Store(mem, pool, desc);
      SlotRead(mem, pool, t, path, d);
      WindowRead(mem, pool, t, path, d, va);
      u := t;
      var w := Load(va);
      if w & PRESENT != 0 {
        ok := true;
        if phys != 0 {
          NotGrown(s, t, path, e);
        }
      } else if phys == 0 {
        ok := false;
      } else {
        ok := true;
        ghost var table := At(t, path[..d]).frame;
        OpenEnabled(mem, pool, t, path, d);
        OpenPlace(mem, pool, t, path, d);
        u := Open(t, path, d, pool[0]);
        ClearKeeps(mem, pool, t);
        var f := GetZeroedPageTransObj();
        WindowRead(mem, pool, t, path, d, va);
        StoreWord(va, LinkEntry(f));
        OpenGrows(s, t, path, d, e, table, Store(mem, pool, desc));
      }
    }

    /** The three levels update_curr_page_table passes before the page table. */
    method WindowPageTable(virt: bv64, phys: bv64, ghost t: Table, ghost e: Pte) returns (ok: bool, ghost u: Table)
      requires Represents(mem, pool, t) && cr3 == t.frame && PathOk(PathOf(virt))
      requires phys != 0 ==> Missing(t, PathOf(virt)) <= |pool|
      modifies this`mem, this`pool, this`desc
      ensures phys == 0 ==> Store(mem, pool, desc) == old(Store(mem, pool, desc)) && u == t
      ensures phys != 0 ==> ok && Grown(old(Store(mem, pool, desc)), t, Store(mem, pool, desc), u, PathOf(virt), e)
      ensures ok ==> Represents(mem, pool, u) && u.frame == t.frame && Reaches(u, PathOf(virt)[..3])
      ensures !ok ==> Lookup(t, PathOf(virt)) == ABSENT
    {
      WindowPaths(virt);
      hide WellFormed, Separate, Holds, Frames, Put, Missing, Grown, Represents, Supply, Backed;
      hide Reaches, At, PathOk, Lookup, Canonical, WordIndex, WindowPath;
      hide SelfRefPml4e, SelfRefPdpe, SelfRefPde, IndexPml4e, IndexPdpe, IndexPde, IndexPte;
      ghost var path := PathOf(virt);
      ghost var s := Store(mem, pool, desc);
      ReachesRoot(mem, pool, t, path);
      ok, u := WindowTableBelow(SelfRefPml4e(virt), phys, t, path, 0, e);
      if !ok {
        NoTableNoLeaf(t, path, 0);
        return;
      }
      ghost var s3, t3 := Store(mem, pool, desc), u;
      ok, u := WindowTableBelow(SelfRefPdpe(virt), phys, t3, path, 1, e);
      if !ok {
        NoTableNoLeaf(t, path, 1);
        return;
      }
      ghost var s2, t2 := Store(mem, pool, desc), u;
      ok, u := WindowTableBelow(SelfRefPde(virt), phys, t2, path, 2, e);
      if !ok {
        NoTableNoLeaf(t, path, 2);
        return;
      }
      if phys != 0 {
        GrownFurther(s, t, s3, t3, s2, t2, path, e);
        GrownFurther(s, t, s2, t2, Store(mem, pool, desc), u, path, e);
      }
    }

    /** *SELF_REF_PTE(virt), once every level above is there. */
    method LoadLeaf(virt: bv64, ghost t: Table) returns (w: bv64)
      requires Represents(mem, pool, t) && cr3 == t.frame && PathOk(PathOf(virt))
      requires Reaches(t, PathOf(virt)[..3])
      ensures Decode(w) == Lookup(t, PathOf(virt))
    {
      hide *;
      WindowLeaf(mem, pool, t, virt);
      w := Load(SelfRefPte(virt));
    }

    /** *SELF_REF_PTE(virt) = w, which completes the mapping. */
    method StoreLeaf(virt: bv64, w: bv64, ghost s: Store, ghost t: Table, ghost u: Table)
      requires Grown(s, t, Store(mem, pool, desc), u, PathOf(virt), Decode(w))
      requires Represents(mem, pool, u) && PathOk(PathOf(virt))
      requires cr3 == u.frame && Reaches(u, PathOf(virt)[..3])
      modifies this`mem
      ensures Mapped(s, t, Store(mem, pool, desc), PathOf(virt), Decode(w))
    {
      hide *;
      WindowLeaf(mem, pool, u, virt);
      LeafStored(s, t, Store(mem, pool, desc), u, PathOf(virt), w);
      StoreWord(SelfRefPte(virt), w);
    }

    /** update_curr_page_table: the same mapping made in the table in use, through
        the window; or, with `phys` 0, a change of permissions only. */
    method UpdateCurrPageTable(phys: bv64, virt: bv64, accessPerm: bv64, ghost t: Table) returns (r: int)
      requires Represents(mem, pool, t) && cr3 == t.frame
      requires IndexPml4e(virt) != SELF_REF && IsFrame(Frame(phys))
      requires phys != 0 ==> Missing(t, PathOf(virt)) <= |pool|
      modifies this`mem, this`pool, this`desc
      ensures phys != 0 ==>
        r == 0 && Mapped(old(Store(mem, pool, desc)), t, Store(mem, pool, desc), PathOf(virt), LeafPte(phys, accessPerm))
      ensures phys == 0 ==> r == if Lookup(t, PathOf(virt)).present then 0 else -1
      ensures phys == 0 && r == 0 ==>
        Mapped(old(Store(mem, pool, desc)), t, Store(mem, pool, desc), PathOf(virt),
               Decode(accessPerm).(frame := Lookup(t, PathOf(virt)).frame))
      ensures phys == 0 && r == -1 ==> Store(mem, pool, desc) == old(Store(mem, pool, desc))
    {
      ghost var path := PathOf(virt);
      ghost var s := Store(mem, pool, desc);
      assert PathOk(path) && |path| == 4;
      DecodeLeaf(Frame(phys), accessPerm);
      hide PathOf, WellFormed, Separate, Holds, Frames, Put, Missing, Grown, Represents, Supply, Backed, Mapped;
      hide Reaches, At, PathOk, Lookup, Decode, LeafEntry, ProtectEntry, IndexPml4e, IsFrame;
      var ok;
      ghost var u;
      ok, u := WindowPageTable(virt, phys, t, Decode(LeafEntry(phys, accessPerm)));
      if !ok {
        return -1;
      }
      var w := LoadLeaf(virt, u);
      if phys == 0 {
        DecodePresent(w);
        if w & PRESENT == 0 {
          return -1;
        }
        DecodeProtect(w, accessPerm);
        Ready(s, t, path, Decode(ProtectEntry(w, accessPerm)));
        StoreLeaf(virt, ProtectEntry(w, accessPerm), s, t, u);
      } else {
        StoreLeaf(virt, LeafEntry(phys, accessPerm), s, t, u);
      }
      r := 0;
    }

    /** The word that a window address names while the way to it is there. */
    method WindowLevel(va: bv64, ghost t: Table, ghost path: seq<Index>, ghost j: Index) returns (w: bv64)
      requires Represents(mem, pool, t) && cr3 == t.frame && |path| == 4 && path[0] == SELF_REF
      requires Canonical(va) && PathOf(va) == path && WordIndex(va) == j && Lookup(t, Unwind(path)).present
      ensures Decode(w) == Lookup(t, Unwind(path[1..] + [j]))
    {
      hide PathOf, Canonical, WordIndex, Decode, Lookup, Walk, Unwind;
      WindowWord(mem, t, path, j);
      w := Load(va);
    }

    /** The four reads of update_curr_page_table and virt2phys_selfref at an address in
        the window: they end at an entry of a table above. */
    method WindowEntry(virt: bv64, ghost t: Table) returns (present: bool, w: bv64)
      requires Represents(mem, pool, t) && cr3 == t.frame && IndexPml4e(virt) == SELF_REF
      ensures present <==> Lookup(t, Unwind(PathOf(virt))).present
      ensures present ==> Decode(w) == Lookup(t, Unwind(PathOf(virt)))
      ensures present ==> Lookup(t, Unwind(PathOf(SelfRefPte(virt)))).present
    {
      hide PathOf, Canonical, WordIndex, Decode, Lookup, Walk, Unwind, IndexPml4e, WellFormed, Separate, Holds, Supply, Backed;
      hide SelfRefPml4e, SelfRefPdpe, SelfRefPde, SelfRefPte;
      ghost var p := PathOf(virt);
      WindowReads(virt);
      WindowSlots(t, p);
      ghost var self: seq<Index> := [SELF_REF, SELF_REF, SELF_REF, SELF_REF];
      ghost var a: seq<Index>, b: seq<Index> := [SELF_REF, SELF_REF, SELF_REF, p[1]], [SELF_REF, SELF_REF, p[1], p[2]];
      assert self[1..] + [SELF_REF] == self && self[1..] + [p[1]] == a && a[1..] + [p[2]] == b && b[1..] + [p[3]] == p;
      w := WindowLevel(SelfRefPml4e(virt), t, self, SELF_REF);
      DecodePresent(w);
      present := w & PRESENT != 0;
      if present {
        w := WindowLevel(SelfRefPdpe(virt), t, self, p[1]);
        DecodePresent(w);
        present := w & PRESENT != 0;
      }
      if present {
        w := WindowLevel(SelfRefPde(virt), t, a, p[2]);
        DecodePresent(w);
        present := w & PRESENT != 0;
      }
      if present {
        w := WindowLevel(SelfRefPte(virt), t, b, p[3]);
        DecodePresent(w);
        present := w & PRESENT != 0;
      }
    }

    /** update_curr_page_table with `phys` 0 at an address in the window: what changes are
        the rights of an entry above the page tables, which may be the window's own. */
    method UpdateCurrWindow(virt: bv64, accessPerm: bv64, ghost t: Table) returns (r: int)
      requires Represents(mem, pool, t) && cr3 == t.frame && IndexPml4e(virt) == SELF_REF
      modifies this`mem
      ensures r == if Lookup(t, Unwind(PathOf(virt))).present then 0 else -1
      ensures r == -1 ==> mem == old(mem)
      ensures r == 0 ==>
        && SameOutside(old(mem), mem, Frames(t))
        && Holds(mem, Graft(t, Unwind(PathOf(virt)), Decode(accessPerm).(frame := Lookup(t, Unwind(PathOf(virt))).frame), []))
    {
      hide PathOf, Canonical, WordIndex, Decode, Lookup, Walk, Unwind, IndexPml4e, ProtectEntry, SelfRefPte, Frames, Graft;
      hide WellFormed, Separate, Holds, Supply, Backed;
      WindowReads(virt);
      ghost var p := PathOf(virt);
      var present, w := WindowEntry(virt, t);
      if !present {
        return -1;
      }
      DecodeProtect(w, accessPerm);
      WindowWord(mem, t, [SELF_REF, SELF_REF, p[1], p[2]], p[3]);
      WindowStored(mem, t, p, ProtectEntry(w, accessPerm));
      StoreWord(SelfRefPte(virt), ProtectEntry(w, accessPerm));
      r := 0;
    }

    /** The three levels virt2phys_selfref passes before the page table. */
    method LevelsPresent(virt: bv64, ghost t: Table) returns (present: bool)
      requires Represents(mem, pool, t) && cr3 == t.frame && PathOk(PathOf(virt))
      ensures present ==> Reaches(t, PathOf(virt)[..3])
      ensures !present ==> Lookup(t, PathOf(virt)) == ABSENT
    {
      WindowPaths(virt);
      hide WellFormed, Represents, Reaches, At, PathOk, Lookup, Canonical, WordIndex, WindowPath;
      hide SelfRefPml4e, SelfRefPdpe, SelfRefPde, IndexPml4e, IndexPdpe, IndexPde, IndexPte;
      ReachesRoot(mem, pool, t, PathOf(virt));
      present := LevelPresent(SelfRefPml4e(virt), t, PathOf(virt), 0);
      if present {
        present := LevelPresent(SelfRefPdpe(virt), t, PathOf(virt), 1);
      }
      if present {
        present := LevelPresent(SelfRefPde(virt), t, PathOf(virt), 2);
      }
    }

    /** virt2phys_selfref: address and permissions found through the window. */
    method Virt2PhysSelfref(virt: bv64, ghost t: Table) returns (phys: bv64, perm: bv64)
      requires Represents(mem, pool, t) && cr3 == t.frame && IndexPml4e(virt) != SELF_REF
      ensures phys == Answer(Lookup(t, PathOf(virt)))
      ensures Lookup(t, PathOf(virt)).present ==>
        Decode(perm) == Lookup(t, PathOf(virt)).(frame := Frame(0), present := false, rest := 0)
    {
      assert PathOk(PathOf(virt));
      hide *;
      phys, perm := MINUS_ONE, 0;
      AnswerAbsent();
      var present := LevelsPresent(virt, t);
      if !present {
        return;
      }
      var pte := LoadLeaf(virt, t);
      AnswerRead(pte);
      if pte & PRESENT == 0 {
        return;
      }
      DecodePerm(pte);
      perm := PermBits(pte);
      phys := EntryAddr(pte);
    }

    /** One level of the walk through the direct map. */
    method ReadLevel(table: Frame, i: Index, ghost t: Table, ghost path: seq<Index>, ghost d: nat)
        returns (present: bool, next: Frame)
      requires Represents(mem, pool, t) && |path| == 4 && PathOk(path) && d < 3
      requires Reaches(t, path[..d]) && At(t, path[..d]).frame == table && path[d] == i
      ensures present ==> Reaches(t, path[..d+1]) && At(t, path[..d+1]).frame == next
      ensures !present ==> Lookup(t, path) == ABSENT
    {
      hide WellFormed, Separate, Holds, Represents, Reaches, At, PathOk, Lookup, Decode, EntryAddr;
      SlotRead(mem, pool, t, path, d);
      var w := mem[table][i];
      present, next := w & PRESENT != 0, Frame(EntryAddr(w));
      if !present {
        NoTableNoLeaf(t, path, d);
      }
    }

    /** virt2phys_idmap: the same answer found through the direct map. */
    method Virt2PhysIdmap(pml4: bv64, virt: bv64, ghost t: Table) returns (phys: bv64)
      requires Represents(mem, pool, t) && t.frame == Frame(pml4) && IndexPml4e(virt) != SELF_REF
      ensures phys == Answer(Lookup(t, PathOf(virt)))
    {
      ghost var path := PathOf(virt);
      assert PathOk(path);
      hide WellFormed, Separate, Holds, Represents, Reaches, At, PathOk, Lookup, Decode, EntryAddr, Answer;
      hide IndexPml4e, IndexPdpe, IndexPde, IndexPte;
      phys := MINUS_ONE;
      AnswerAbsent();
      ReachesRoot(mem, pool, t, path);
      var present, table := ReadLevel(Frame(pml4), IndexPml4e(virt), t, path, 0);
      if present {
        present, table := ReadLevel(table, IndexPdpe(virt), t, path, 1);
      }
      if present {
        present, table := ReadLevel(table, IndexPde(virt), t, path, 2);
      }
      if present {
        LeafRead(mem, pool, t, path);
        var pte := mem[table][IndexPte(virt)];
        AnswerRead(pte);
        if pte & PRESENT != 0 {
          phys := EntryAddr(pte);
        }
      }
    }

    /** get_selfref_PML4: a new root that maps nothing but itself, in the next free page
        or, without one, in page 0. */
    method GetSelfrefPml4() returns (pml4: bv64)
      requires Supply(pool, {}) && Backed(mem, pool) && (pool == [] ==> Frame(0) in mem)
      modifies this`mem, this`pool, this`desc
      ensures Frame(pml4) == if old(pool) == [] then Frame(0) else old(pool)[0]
      ensures if old(pool) == [] then pool == [] && desc == old(desc)
              else Took(old(Store(mem, pool, desc)), Store(mem, pool, desc), 1)
      ensures SameOutside(old(mem), mem, {Frame(pml4)}) && Holds(mem, EmptyRoot(Frame(pml4)))
      ensures WellFormed(EmptyRoot(Frame(pml4)), 4) && Separate(EmptyRoot(Frame(pml4)))
      ensures Frames(EmptyRoot(Frame(pml4))) == {Frame(pml4)}
    {
      hide WellFormed, Separate, Frames, Holds, EmptyRoot, SelfEntry, Claimed, Decode;
      ghost var m := mem;
      pml4 := GetZeroedPageTransObj();
      var f := Frame(pml4);
      mem := mem[f := mem[f][SELF_REF := SelfEntry(pml4)]];
      EmptyRootShape(f);
      EmptyRootHolds(m, f);
      assert mem == m[f := Zeroes()[SELF_REF := SelfEntry(f.addr)]];
    }

    /** get_kduplicate_curr_self_ref_PML4: a new root with the kernel's entry of the one
        in use, and nothing else but itself. */
    method GetKduplicateCurrSelfRefPml4(ghost t: Table) returns (pml4: bv64)
      requires Represents(mem, pool, t) && cr3 == t.frame && pool != [] && KernelOk(t.slots[KERNEL])
      modifies this`mem, this`pool, this`desc
      ensures pml4 == old(pool)[0].addr && Took(old(Store(mem, pool, desc)), Store(mem, pool, desc), 1)
      ensures SameOutside(old(mem), mem, {old(pool)[0]}) && Holds(mem, t)
      ensures Holds(mem, Full(EmptyRoot(old(pool)[0]), t.slots[KERNEL]))
    {
      hide WellFormed, Separate, Frames, Decode, SelfEntry, Claimed, Walk, PathOf, IndexPml4e, IndexPdpe, IndexPde, IndexPte;
      KernelApart(mem, pool, t);
      ghost var m, k := mem, t.slots[KERNEL];
      pml4 := GetZeroedPageTransObj();
      var f := Frame(pml4);
      HoldsFrame(m, mem, t);
      WindowRootIn(mem, t);
      var src := Walk(mem, cr3, PathOf(SelfRefPml4(0))).frame;
      var w := mem[src][KERNEL];
      mem := mem[f := mem[f][KERNEL := w]];
      mem := mem[f := mem[f][SELF_REF := SelfEntry(pml4)]];
      KernelRootHolds(m, f, k, w);
      assert mem == m[f := Zeroes()[KERNEL := w][SELF_REF := SelfEntry(f.addr)]];
      HoldsFrame(m, mem, t);
    }

    // ---------- copy-on-write fork ----------

    /** cow_fork_level on a present leaf entry. */
    method ForkLeaf(src: Frame, dst: Frame, i: nat, w: bv64, ghost s: Store, ghost t: Table, ghost d: Table)
        returns (ok: bool, ghost e: Table)
      requires ForkPre(s, t, dst, 1) && t.frame == src && d.frame == dst && i < ENTRIES
      requires ForkedTo(s, Store(mem, pool, desc), t, d, 1, i)
      requires src in mem && |mem[src]| == ENTRIES && dst in mem && |mem[dst]| == ENTRIES && src != dst
      requires Decode(w) == t.slots[i].e && Decode(w).present && mem[src][i] == w
      modifies this`mem, this`desc
      ensures ok ==> e.frame == dst && ForkedTo(s, Store(mem, pool, desc), t, e, 1, i + 1)
      ensures !ok ==> !CanFork(s, t.slots, 1) && GaveUp(s, Store(mem, pool, desc), t, e, dst, 1)
    {
      hide Decode, ForkPre, ForkedTo, CanFork, EntryAddr, ClearWrite, IsFrame;
      ghost var s' := Store(mem, pool, desc);
      DecodeClear(w);
      DescsKept(s, s', t, d, dst, 1, i);
      DescriptorOf(desc, ClearWrite(w));
      mem := mem[src := mem[src][i := ClearWrite(w)]];
      mem := mem[dst := mem[dst][i := ClearWrite(w)]];
      var f := Frame(EntryAddr(ClearWrite(w)));
      e := d;
      if f !in desc {
        NoDescriptor(s, t, i);
        GaveUpAtLeaf(s, s', t, d, dst, i, ClearWrite(w));
        return false, Partial(t, 1, i + 1);
      }
      LeafSlot(s, s', t, d, dst, i, ClearWrite(w), f);
      desc := desc[f := Desc(desc[f].refcount + 1, true)];
      e := d.(slots := d.slots[i := Entry(Decode(ClearWrite(w)))]);
      ok := true;
    }

    /** cow_fork_level on an entry that leads to a lower table. */
    method ForkTable(src: Frame, dst: Frame, level: nat, i: nat, w: bv64, ghost s: Store, ghost t: Table, ghost d: Table)
        returns (ok: bool, ghost e: Table)
      requires ForkPre(s, t, dst, level) && t.frame == src && d.frame == dst && i < ENTRIES && 2 <= level
      requires ForkedTo(s, Store(mem, pool, desc), t, d, level, i)
      requires dst in mem && |mem[dst]| == ENTRIES
      requires t.slots[i].Link? && Descends(t.slots[i], level, i) && Decode(w) == t.slots[i].e
      modifies this`mem, this`pool, this`desc
      ensures ok ==> e.frame == dst && ForkedTo(s, Store(mem, pool, desc), t, e, level, i + 1)
      ensures !ok ==> !CanFork(s, t.slots, level) && GaveUp(s, Store(mem, pool, desc), t, e, dst, level)
      decreases level, 0
    {
      hide Decode, ForkPre, ForkedTo, CanFork, EntryAddr, CopyEntry, Forked, IsFrame;
      ghost var s' := Store(mem, pool, desc);
      e := d;
      DescsKept(s, s', t, d, dst, level, i);
      SubtreeAddr(s, t, dst, level, i, w);
      var srcPhys := Frame(EntryAddr(w));
      var destPhys := AllocPhysPage();
      if destPhys == 0 {
        NoPage(s, s', t, d, level, i);
        GaveUpBetween(s, s', t, d, level, i);
        return false, Partial(t, level, i);
      }
      var w2 := CopyEntry(w, destPhys);
      DecodeCopy(w, Frame(destPhys));
      mem := mem[dst := mem[dst][i := w2]];
      ghost var s1 := Store(mem, pool, desc);
      assert s1 == Linking(s', dst, i, w2);
      TablePre(s, s', t, d, dst, level, i, w2);
      ghost var c;
      ok, c := CowForkLevel(srcPhys, Frame(destPhys), level - 1, t.slots[i].sub);
      if !ok {
        NoSubtree(s, s', s1, t, d, level, i);
        GaveUpBelow(s, s', Store(mem, pool, desc), t, d, c, dst, level, i, w2);
        e := Partial(t, level, i);
        e := e.(slots := e.slots[i := Link(t.slots[i].e, c)]);
        return;
      }
      TablePost(s, s', Store(mem, pool, desc), t, d, c, dst, level, i, w2);
      e := d.(slots := d.slots[i := Link(Decode(w2), c)]);
    }

    /** One turn of the loop in cow_fork_level. */
    method ForkSlot(src: Frame, dst: Frame, level: nat, i: nat, ghost s: Store, ghost t: Table, ghost d: Table)
        returns (ok: bool, ghost e: Table)
      requires ForkPre(s, t, dst, level) && t.frame == src && d.frame == dst && i < ENTRIES
      requires ForkedTo(s, Store(mem, pool, desc), t, d, level, i)
      modifies this`mem, this`pool, this`desc
      ensures ok ==> e.frame == dst && ForkedTo(s, Store(mem, pool, desc), t, e, level, i + 1)
      ensures !ok ==> !CanFork(s, t.slots, level) && GaveUp(s, Store(mem, pool, desc), t, e, dst, level)
      decreases level, 1
    {
      hide *;
      ghost var s' := Store(mem, pool, desc);
      SlotWord(s, s', t, d, level, i);
      TreesApart(s, s', t, d, dst, level, i);
      ForkableSlot(s, t, dst, level, i);
      var w := mem[src][i];
      DecodePresent(w);
      ok, e := true, d;
      if w & PRESENT == 0 {
        SkipSlot(s, s', t, d, dst, level, i);
      } else if level == 1 {
        ok, e := ForkLeaf(src, dst, i, w, s, t, d);
      } else if level == 4 && i == KERNEL {
        KernelSlot(s, s', t, d, dst, w);
        mem := mem[dst := mem[dst][i := w]];
        e := d.(slots := d.slots[i := Entry(Decode(w))]);
      } else if level == 4 && i == SELF_REF {
        SkipSlot(s, s', t, d, dst, level, i);
      } else {
        ok, e := ForkTable(src, dst, level, i, w, s, t, d);
      }
    }

    /** cow_fork_level: copy the table at `src` into the page `dst`, and everything
        below it into new pages. It succeeds exactly when there are pages enough
        and every page mapped has a descriptor. When it gives up, `d` is what is left of
        the table copied. */
    method CowForkLevel(src: Frame, dst: Frame, level: nat, ghost t: Table) returns (ok: bool, ghost d: Table)
      requires ForkPre(Store(mem, pool, desc), t, dst, level) && t.frame == src
      modifies this`mem, this`pool, this`desc
      ensures ok <==> CanFork(old(Store(mem, pool, desc)), t.slots, level)
      ensures ok ==> d.frame == dst && Forked(old(Store(mem, pool, desc)), Store(mem, pool, desc), t, d, level)
      ensures !ok ==> GaveUp(old(Store(mem, pool, desc)), Store(mem, pool, desc), t, d, dst, level)
      decreases level, 2
    {
      hide *;
      ghost var s := Store(mem, pool, desc);
      ForkStart(s, t, dst, level);
      d := RawTable(dst, mem[dst]);
      var i := 0;
      ok := true;
      while i < ENTRIES
        invariant 0 <= i <= ENTRIES && ok && d.frame == dst
        invariant ForkedTo(s, Store(mem, pool, desc), t, d, level, i)
      {
        ok, d := ForkSlot(src, dst, level, i, s, t, d);
        if !ok {
          return;
        }
        i := i + 1;
      }
      ForkEnd(s, Store(mem, pool, desc), t, d, level);
      ForkedCould(s, Store(mem, pool, desc), t, d, level);
    }

    /** cow_fork_page_table: fork the address space in use. The root is reached
        through the window, the lower tables through the direct map. */
    method CowForkPageTable(ghost t: Table) returns (pml4: bv64, ghost raw: Memory, ghost d: Table)
      requires Represents(mem, pool, t) && cr3 == t.frame && pool != []
      requires forall f :: f in desc ==> IsFrame(f)
      modifies this`mem, this`pool, this`desc
      ensures pml4 != 0 <==> Tables(t.slots, 4) + 1 <= |old(pool)| && Described(t.slots, 4, old(desc))
      ensures pml4 != 0 ==>
        pml4 == d.frame.addr && SpaceForked(old(Store(mem, pool, desc)), raw, Store(mem, pool, desc), t, d)
      ensures pml4 == 0 ==> SpaceKept(old(Store(mem, pool, desc)), Store(mem, pool, desc), t, d)
    {
      ghost var s := Store(mem, pool, desc);
      hide *;
      RootReady(s, t);
      var root := GetSelfrefPml4();
      ghost var s1 := Store(mem, pool, desc);
      raw := mem;
      RootMadeNow(s, s1);
      RootPre(s, t, s1);
      WindowRoot(s, t, s1);
      var src := Walk(mem, cr3, PathOf(SelfRefPml4(0))).frame;
      var ok;
      ok, d := CowForkLevel(src, Frame(root), 4, Shallow(t));
      RootCanFork(s, s1, t);
      if !ok {
        RootGaveUp(s, s1, Store(mem, pool, desc), t, d);
        d := d.(slots := d.slots[KERNEL := t.slots[KERNEL]]);
        return 0, raw, d;
      }
      RootPost(s, s1, Store(mem, pool, desc), t, d);
      pml4 := root;
    }
  }
}
