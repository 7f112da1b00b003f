/** What the page-table code does to memory, stated on values: the store it
    works on, and the tree it leaves behind. */
module PageStore {
  import opened PageBits
  import opened PageTree
  import opened PageMemory

  /** Physical page descriptor: reference count and copy-on-write flag. */
  datatype Desc = Desc(refcount: nat, cow: bool)

  type Descs = map<Frame, Desc>

  /** One more reference to each of the first `n` pages of the pool. */
  function Claimed(desc: Descs, pool: seq<Frame>, n: nat): Descs
    requires n <= |pool|
  {
    map f | f in desc ::
      if f in Taken(pool, n) then desc[f].(refcount := desc[f].refcount + 1) else desc[f]
  }

  function LeafPte(phys: bv64, perm: bv64): Pte {
    Decode(perm).(frame := Frame(phys), present := true)
  }

  const MINUS_ONE: bv64 := 0xFFFF_FFFF_FFFF_FFFF

  /** What the lookups return for a leaf entry: the address the kernel reads out
      of it, or minus one when the page is not present. */
  function Answer(e: Pte): bv64 { if e.present then EntryAddr(e.frame.addr) else MINUS_ONE }

  /** On frames below bit 51 that is the frame the processor would access. */
  lemma AnswerIsFrame(e: Pte)
    requires e.present && IsFrame(e.frame)
    ensures Answer(e) == e.frame.addr
  {
  }

  lemma AnswerAbsent()
    ensures Answer(ABSENT) == MINUS_ONE
  {
  }

  lemma AnswerRead(w: bv64)
    ensures Answer(Decode(w)) == if w & PRESENT == 0 then MINUS_ONE else EntryAddr(w)
    ensures Decode(w).present <==> w & PRESENT != 0
  {
    hide EntryAddr;
    EntryAddrOfFrame(w);
  }

  function EmptyRoot(frame: Frame): Table {
    var t := Empty(frame);
    t.(slots := t.slots[SELF_REF := Entry(SelfPte(frame))])
  }

  lemma EmptyRootShape(f: Frame)
    requires IsFrame(f)
    ensures WellFormed(EmptyRoot(f), 4) && Separate(EmptyRoot(f)) && Frames(EmptyRoot(f)) == {f}
  {
  }

  /** A cleared page with the self-reference in it is that root. */
  lemma EmptyRootHolds(mem: Memory, f: Frame)
    requires IsFrame(f)
    ensures Holds(mem[f := Zeroes()[SELF_REF := SelfEntry(f.addr)]], EmptyRoot(f))
  {
    DecodeZero();
    DecodeSelf(f);
    hide Decode, SelfEntry, IsFrame;
  }

  ghost predicate Backed(mem: Memory, pool: seq<Frame>) {
    forall k :: 0 <= k < |pool| ==> pool[k] in mem && |mem[pool[k]]| == ENTRIES
  }

  /** Memory holds tree `t`, and the pages still to be handed out are not among
      its tables. */
  ghost predicate Represents(mem: Memory, pool: seq<Frame>, t: Table) {
    && WellFormed(t, 4) && Separate(t) && Holds(mem, t)
    && Supply(pool, Frames(t)) && Backed(mem, pool)
  }

  /** Memory after page `f` is cleared and linked below slot `i` of `table`. */
  function Linked(mem: Memory, f: Frame, table: Frame, i: Index): Memory
    requires table in mem && |mem[table]| == ENTRIES && table != f
  {
    mem[f := Zeroes()][table := mem[table][i := LinkEntry(f.addr)]]
  }

  lemma SupplyTail(pool: seq<Frame>, used: set<Frame>)
    requires pool != [] && Supply(pool, used)
    ensures Supply(pool[1..], used + {pool[0]})
  {
  }

  lemma LinkedBacked(mem: Memory, pool: seq<Frame>, table: Frame, i: Index)
    requires pool != [] && Backed(mem, pool) && table !in pool
    requires table in mem && |mem[table]| == ENTRIES
    ensures Backed(Linked(mem, pool[0], table, i), pool[1..])
  {
  }

  /** A page being handed out may be cleared without touching the tree. */
  lemma ClearKeeps(mem: Memory, pool: seq<Frame>, t: Table)
    requires Represents(mem, pool, t) && pool != []
    ensures Represents(mem[pool[0] := Zeroes()], pool[1..], t)
  {
    hide WellFormed, Separate, Holds, Frames, IsFrame;
    SupplyTail(pool, Frames(t));
    HoldsFrame(mem, mem[pool[0] := Zeroes()], t);
  }

  /** The table a new level is hooked into, and where the new level then is. */
  lemma OpenPlace(mem: Memory, pool: seq<Frame>, t: Table, path: seq<Index>, d: nat)
    requires Represents(mem, pool, t) && |path| == 4 && PathOk(path) && d < 3 && pool != []
    requires Reaches(t, path[..d]) && At(t, path[..d]).slots[path[d]].Entry?
    ensures var table := At(t, path[..d]).frame;
            table in mem && |mem[table]| == ENTRIES && table in Frames(t) && table !in pool
    ensures Reaches(Open(t, path, d, pool[0]), path[..d+1])
    ensures At(Open(t, path, d, pool[0]), path[..d+1]).frame == pool[0]
    ensures Open(t, path, d, pool[0]).frame == t.frame
  {
    hide IsFrame;
    AtHolds(mem, t, path[..d]);
    AtFrame(t, path[..d]);
    OpenReaches(t, path, d, pool[0]);
  }

  lemma OpenRepresents(mem: Memory, pool: seq<Frame>, t: Table, path: seq<Index>, d: nat)
    requires Represents(mem, pool, t) && |path| == 4 && PathOk(path) && d < 3 && pool != []
    requires Reaches(t, path[..d]) && At(t, path[..d]).slots[path[d]].Entry?
    ensures At(t, path[..d]).frame in mem && |mem[At(t, path[..d]).frame]| == ENTRIES
    ensures At(t, path[..d]).frame != pool[0]
    ensures Frames(Open(t, path, d, pool[0])) == Frames(t) + {pool[0]}
    ensures Represents(Linked(mem, pool[0], At(t, path[..d]).frame, path[d]), pool[1..], Open(t, path, d, pool[0]))
    ensures SameOutside(mem, Linked(mem, pool[0], At(t, path[..d]).frame, path[d]), Frames(t) + {pool[0]})
  {
    hide WellFormed, Separate, Holds, Frames, IsFrame, LinkEntry, Zeroes, Open, Reaches, At, PathOk;
    OpenPlace(mem, pool, t, path, d);
    SupplyTail(pool, Frames(t));
    LinkedBacked(mem, pool, At(t, path[..d]).frame, path[d]);
    OpenShape(t, path, d, pool[0]);
    OpenFrames(t, path, d, pool[0]);
    OpenSeparate(t, path, d, pool[0]);
    OpenHolds(mem, t, path, d, pool[0]);
  }

  /** The state a page-table operation works on: memory, the frames the
      allocator hands out next, and the page descriptors. */
  datatype Store = Store(mem: Memory, pool: seq<Frame>, desc: Descs)

  /** `s'` is `s` with the first `n` pages of the pool taken and accounted for. */
  ghost predicate Took(s: Store, s': Store, n: nat) {
    n <= |s.pool| && s'.pool == s.pool[n..] && s'.desc == Claimed(s.desc, s.pool, n)
  }

  lemma TookMore(s: Store, s1: Store, s2: Store, n: nat, k: nat)
    requires Took(s, s1, n) && Took(s1, s2, k) && Supply(s.pool, {})
    ensures Took(s, s2, n + k)
  {
    forall f | f in Taken(s1.pool, k)
      ensures f in Taken(s.pool, n + k) && f !in Taken(s.pool, n)
    {
      var j :| 0 <= j < k && s1.pool[j] == f;
      assert s.pool[n + j] == f;
    }
    forall f | f in Taken(s.pool, n + k) && f !in Taken(s.pool, n)
      ensures f in Taken(s1.pool, k)
    {
      var j :| 0 <= j < n + k && s.pool[j] == f;
      assert s1.pool[j - n] == f;
    }
  }

  /** `s'` holds `u`: tree `t` with some levels of `path` added, no page of
      memory touched outside it, and the same tree in prospect. */
  ghost predicate Grown(s: Store, t: Table, s': Store, u: Table, path: seq<Index>, e: Pte) {
    && Represents(s.mem, s.pool, t) && Represents(s'.mem, s'.pool, u)
    && |path| == 4 && PathOk(path)
    && Missing(u, path) <= Missing(t, path) <= |s.pool|
    && Missing(u, path) <= |s'.pool| && Took(s, s', Missing(t, path) - Missing(u, path))
    && Put(u, path, e, s'.pool) == Put(t, path, e, s.pool)
    && Frames(t) <= Frames(u) && SameOutside(s.mem, s'.mem, Frames(u))
  }

  lemma GrownFurther(s: Store, t: Table, s1: Store, t1: Table, s2: Store, t2: Table, path: seq<Index>, e: Pte)
    requires Grown(s, t, s1, t1, path, e) && Grown(s1, t1, s2, t2, path, e)
    ensures Grown(s, t, s2, t2, path, e)
  {
    hide WellFormed, Separate, Holds, Frames, Put, Missing, Decode;
    TookMore(s, s1, s2, Missing(t, path) - Missing(t1, path), Missing(t1, path) - Missing(t2, path));
  }

  /** With every level present, a store into the leaf needs no page. */
  lemma Ready(s: Store, t: Table, path: seq<Index>, e: Pte)
    requires Represents(s.mem, s.pool, t) && |path| == 4 && PathOk(path) && Reaches(t, path[..3])
    ensures Grown(s, t, s, t, path, e)
  {
    hide Put;
    PutLast(t, path, e, s.pool);
    NotGrown(s, t, path, e);
  }

  lemma NotGrown(s: Store, t: Table, path: seq<Index>, e: Pte)
    requires Represents(s.mem, s.pool, t) && |path| == 4 && PathOk(path)
    requires Missing(t, path) <= |s.pool|
    ensures Grown(s, t, s, t, path, e)
  {
    hide Put, Missing;
  }

  lemma ReachesRoot(mem: Memory, pool: seq<Frame>, t: Table, path: seq<Index>)
    requires Represents(mem, pool, t)
    ensures Reaches(t, path[..0]) && At(t, path[..0]) == t
  {
  }

  lemma OpenEnabled(mem: Memory, pool: seq<Frame>, t: Table, path: seq<Index>, d: nat)
    requires Represents(mem, pool, t) && |path| == 4 && d < 3
    requires Reaches(t, path[..d]) && At(t, path[..d]).slots[path[d]].Entry?
    requires Missing(t, path) <= |pool|
    ensures pool != [] && Backed(mem, pool)
  {
    MissingAt(t, path, d);
  }

  /** What one read of a table on the way down tells. */
  lemma SlotRead(mem: Memory, pool: seq<Frame>, t: Table, path: seq<Index>, d: nat)
    requires Represents(mem, pool, t) && |path| == 4 && PathOk(path) && d < 3
    requires Reaches(t, path[..d])
    ensures At(t, path[..d]).frame in mem && |mem[At(t, path[..d]).frame]| == ENTRIES
    ensures var w := mem[At(t, path[..d]).frame][path[d]];
            var slot := At(t, path[..d]).slots[path[d]];
            && (slot.Link? <==> w & PRESENT != 0)
            && (slot.Link? ==> Reaches(t, path[..d+1]) && At(t, path[..d+1]).frame == Frame(EntryAddr(w)))
  {
    AtHolds(mem, t, path[..d]);
    WellFormedAt(t, 4, path[..d]);
    var slot := At(t, path[..d]).slots[path[d]];
    var w := mem[At(t, path[..d]).frame][path[d]];
    if slot.Link? {
      EntryAddrIsHardwareAddr(w);
      ReachesBelow(t, path, d);
    }
  }

  lemma LeafRead(mem: Memory, pool: seq<Frame>, t: Table, path: seq<Index>)
    requires Represents(mem, pool, t) && |path| == 4 && PathOk(path)
    requires Reaches(t, path[..3])
    ensures At(t, path[..3]).frame in mem && |mem[At(t, path[..3]).frame]| == ENTRIES
    ensures Decode(mem[At(t, path[..3]).frame][path[3]]) == Lookup(t, path)
  {
    AtHolds(mem, t, path[..3]);
    PutLast(t, path, ABSENT, []);
  }

  /** A level missing above the page table means nothing is mapped. */
  lemma {:induction false} NoTableNoLeaf(t: Table, path: seq<Index>, d: nat)
    requires d + 1 < |path| && Reaches(t, path[..d]) && At(t, path[..d]).slots[path[d]].Entry?
    ensures Lookup(t, path) == ABSENT
    decreases path
  {
    if d > 0 {
      assert path[..d][1..] == path[1..][..d-1];
      NoTableNoLeaf(t.slots[path[0]].sub, path[1..], d - 1);
    }
  }

  /** A window address for depth `d` can be read and written, and names slot
      path[d] of the table at that depth. */
  lemma WindowRead(mem: Memory, pool: seq<Frame>, t: Table, path: seq<Index>, d: nat, va: bv64)
    requires Represents(mem, pool, t) && |path| == 4 && d <= 3 && Reaches(t, path[..d])
    requires WindowPath(va, path[..d])
    ensures Walk(mem, t.frame, PathOf(va)) == Found(At(t, path[..d]).frame, true, false)
    ensures At(t, path[..d]).frame in mem && |mem[At(t, path[..d]).frame]| == ENTRIES
  {
    AtHolds(mem, t, path[..d]);
    var selfs := PathOf(va)[..4 - d];
    assert PathOf(va) == selfs + path[..d];
    WindowLands(mem, t, selfs, path[..d]);
  }

  /** The window address of the leaf entry of `virt`. */
  lemma WindowLeaf(mem: Memory, pool: seq<Frame>, t: Table, virt: bv64)
    requires Represents(mem, pool, t) && PathOk(PathOf(virt)) && Reaches(t, PathOf(virt)[..3])
    ensures var f := At(t, PathOf(virt)[..3]).frame;
            && Walk(mem, t.frame, PathOf(SelfRefPte(virt))) == Found(f, true, false)
            && f in mem && |mem[f]| == ENTRIES
            && Decode(mem[f][WordIndex(SelfRefPte(virt))]) == Lookup(t, PathOf(virt))
    ensures Canonical(SelfRefPte(virt)) && WordIndex(SelfRefPte(virt)) == PathOf(virt)[3]
  {
    WindowPaths(virt);
    hide SelfRefPte, WordIndex, Canonical, IndexPml4e, IndexPdpe, IndexPde, IndexPte, Represents, Decode;
    WindowRead(mem, pool, t, PathOf(virt), 3, SelfRefPte(virt));
    LeafRead(mem, pool, t, PathOf(virt));
  }

  /** Hooking in one fresh table is growth. */
  lemma OpenGrows(s: Store, t: Table, path: seq<Index>, d: nat, e: Pte, table: Frame, s': Store)
    requires Represents(s.mem, s.pool, t) && |path| == 4 && PathOk(path) && d < 3
    requires Missing(t, path) <= |s.pool|
    requires Reaches(t, path[..d]) && At(t, path[..d]).slots[path[d]].Entry?
    requires table == At(t, path[..d]).frame && table in s.mem && |s.mem[table]| == ENTRIES
    requires s.pool != [] && table != s.pool[0]
    requires s'.mem == s.mem[s.pool[0] := Zeroes()][table := s.mem[table][path[d] := LinkEntry(s.pool[0].addr)]]
    requires Took(s, s', 1)
    ensures Grown(s, t, s', Open(t, path, d, s.pool[0]), path, e)
    ensures Represents(s'.mem, s'.pool, Open(t, path, d, s.pool[0]))
    ensures Missing(Open(t, path, d, s.pool[0]), path) <= |s'.pool|
  {
    hide Put, Missing, WellFormed, Separate, Frames, LinkEntry;
    MissingAt(t, path, d);
    OpenShape(t, path, d, s.pool[0]);
    PutOpen(t, path, d, e, s.pool);
    OpenRepresents(s.mem, s.pool, t, path, d);
  }

  /** `s'` is what mapping `e` at `path` makes of `s`. */
  ghost predicate Mapped(s: Store, t: Table, s': Store, path: seq<Index>, e: Pte) {
    && WellFormed(t, 4) && |path| == 4 && PathOk(path) && Supply(s.pool, {})
    && Missing(t, path) <= |s.pool|
    && Took(s, s', Missing(t, path))
    && Holds(s'.mem, Put(t, path, e, s.pool))
    && SameOutside(s.mem, s'.mem, Frames(t) + Taken(s.pool, Missing(t, path)))
  }

  /** That leaves no freedom: any two ways of doing it give the same store. */
  lemma MappedUnique(s: Store, t: Table, s1: Store, s2: Store, path: seq<Index>, e: Pte)
    requires Mapped(s, t, s1, path, e) && Mapped(s, t, s2, path, e)
    ensures s1 == s2
  {
    PutFrames(t, path, e, s.pool);
    forall f | f in s1.mem
      ensures s1.mem[f] == s2.mem[f]
    {
      if f in Frames(Put(t, path, e, s.pool)) {
        HoldsDetermines(s1.mem, s2.mem, Put(t, path, e, s.pool), f);
      }
    }
    assert s1.mem == s2.mem;
  }

  /** Storing the leaf entry completes the mapping. */
  lemma LeafStored(s: Store, t: Table, s1: Store, u: Table, path: seq<Index>, w: bv64)
    requires Grown(s, t, s1, u, path, Decode(w)) && Reaches(u, path[..3])
    ensures At(u, path[..3]).frame in s1.mem && |s1.mem[At(u, path[..3]).frame]| == ENTRIES
    ensures var table := At(u, path[..3]).frame;
            Mapped(s, t, s1.(mem := s1.mem[table := s1.mem[table][path[3] := w]]), path, Decode(w))
  {
    hide WellFormed, Separate, Holds, Frames, Put, Missing, Decode;
    var table := At(u, path[..3]).frame;
    AtHolds(s1.mem, u, path[..3]);
    AtFrame(u, path[..3]);
    PutLast(u, path, Decode(w), s1.pool);
    StoreHolds(s1.mem, u, path[..3], path[3], w, Entry(Decode(w)));
    PutFrames(u, path, Decode(w), s1.pool);
    PutFrames(t, path, Decode(w), s.pool);
  }

  /** A mapped store again represents a tree, so operations can follow one another. */
  lemma MappedRepresents(s: Store, t: Table, s': Store, path: seq<Index>, e: Pte)
    requires Represents(s.mem, s.pool, t) && |path| == 4 && PathOk(path)
    requires Mapped(s, t, s', path, e)
    ensures Represents(s'.mem, s'.pool, Put(t, path, e, s.pool))
  {
    hide WellFormed, Separate, Holds, Frames, Put, Missing, IsFrame;
    PutWellFormed(t, path, e, s.pool);
    PutSeparate(t, path, e, s.pool);
    PutFrames(t, path, e, s.pool);
  }

  /** What the lookups answer is where the processor's walk leads, or minus one where
      it faults. */
  lemma AnswerIsTranslation(mem: Memory, t: Table, path: seq<Index>)
    requires WellFormed(t, |path|) && PathOk(path) && Holds(mem, t)
    ensures match Walk(mem, t.frame, path)
            case Fault => Answer(Lookup(t, path)) == MINUS_ONE
            case Found(f, _, _) => IsFrame(f) ==> Answer(Lookup(t, path)) == f.addr
  {
    hide WellFormed, Holds, Walk, Lookup, IsFrame, EntryAddr;
    WalkIsLookup(mem, t, path);
    if Lookup(t, path).present && IsFrame(Lookup(t, path).frame) {
      AnswerIsFrame(Lookup(t, path));
    }
  }

  ghost function Translation(e: Pte): Walked {
    if e.present then Found(e.frame, e.write, e.user) else Fault
  }

  /** Mapping a page is a map update as the processor sees it: every address in
      that page translates through the new entry, and every address of any other
      page translates as it did before. */
  lemma MappingChangesOnePage(s: Store, t: Table, s': Store, virt: bv64, e: Pte, v: bv64)
    requires Represents(s.mem, s.pool, t) && PathOk(PathOf(virt)) && PathOk(PathOf(v))
    requires Mapped(s, t, s', PathOf(virt), e)
    requires Canonical(virt) && Canonical(v)
    ensures Walk(s'.mem, t.frame, PathOf(v)) ==
      if v & PAGE_ALIGN == virt & PAGE_ALIGN then Translation(e) else Walk(s.mem, t.frame, PathOf(v))
  {
    hide WellFormed, Separate, Holds, Frames, Put, Missing, Lookup, Walk, Canonical, IndexPml4e, IndexPdpe, IndexPde, IndexPte;
    PathIdentifiesPage(v, virt);
    PutWellFormed(t, PathOf(virt), e, s.pool);
    PutLookup(t, PathOf(virt), e, s.pool, PathOf(v));
    WalkIsLookup(s'.mem, Put(t, PathOf(virt), e, s.pool), PathOf(v));
    WalkIsLookup(s.mem, t, PathOf(v));
  }
}
