/** cow_fork_page_table: what forking the whole address space means. */
module PageForkRoot {
  import opened PageBits
  import opened PageTree
  import opened PageMemory
  import opened PageStore
  import opened PageFork
  import opened PageForkStore

  /** The root as fork sees it: whatever hangs below the kernel slot is no
      concern of its. */
  function Shallow(t: Table): Table
    requires |t.slots| == ENTRIES
  {
    t.(slots := t.slots[KERNEL := Entry(t.slots[KERNEL].e)])
  }

  /** The child's tree: the copy made, with the parent's kernel part below slot 511. */
  function RootChild(t: Table, d: Table): Table
    requires |t.slots| == |d.slots| == ENTRIES
  {
    if t.slots[KERNEL].Link? then d.(slots := d.slots[KERNEL := t.slots[KERNEL]]) else d
  }

  lemma ShallowForkable(t: Table)
    requires WellFormed(t, 4)
    ensures Forkable(Shallow(t), 4)
  {
  }

  lemma ShallowShape(t: Table)
    requires WellFormed(t, 4) && Separate(t)
    ensures Separate(Shallow(t)) && Frames(Shallow(t)) <= Frames(t)
    ensures Frames(Shallow(t)) !! SlotFrames(t.slots[KERNEL])
  {
    hide IsFrame;
    EntrySwap(t, KERNEL, t.slots[KERNEL].e);
    var s := Shallow(t);
    forall f | f in Frames(s)
      ensures f !in SlotFrames(t.slots[KERNEL])
    {
      if f != s.frame {
        var j :| 0 <= j < |s.slots| && s.slots[j].Link? && f in Frames(s.slots[j].sub);
        assert j != KERNEL && s.slots[j] == t.slots[j];
        assert SlotFrames(t.slots[j]) !! SlotFrames(t.slots[KERNEL]);
      }
    }
  }

  lemma ShallowHolds(m: Memory, t: Table)
    requires Holds(m, t) && |t.slots| == ENTRIES
    ensures Holds(m, Shallow(t))
  {
  }

  /** Adding the kernel's part back under slot 511. */
  lemma KernelHolds(m: Memory, a: Table, k: Slot)
    requires Holds(m, a) && |a.slots| == ENTRIES && k.e == a.slots[KERNEL].e
    requires k.Link? ==> Holds(m, k.sub)
    ensures Holds(m, a.(slots := a.slots[KERNEL := k]))
  {
  }

  lemma ShallowCount(t: Table, f: Frame)
    requires |t.slots| == ENTRIES
    ensures Count(Shallow(t).slots, 4, f) == Count(t.slots, 4, f)
  {
    CountSwap(t.slots, 4, f, KERNEL, Entry(t.slots[KERNEL].e));
  }

  lemma ShallowTables(t: Table)
    requires |t.slots| == ENTRIES
    ensures Tables(Shallow(t).slots, 4) == Tables(t.slots, 4)
  {
    TablesSwap(t.slots, 4, KERNEL, Entry(t.slots[KERNEL].e));
  }

  lemma ShallowCleared(t: Table)
    requires |t.slots| == ENTRIES
    ensures Cleared(t, 4) == Cleared(Shallow(t), 4).(slots := Cleared(Shallow(t), 4).slots[KERNEL := t.slots[KERNEL]])
    ensures Cleared(Shallow(t), 4).slots[KERNEL].e == t.slots[KERNEL].e
  {
  }

  /** The state in which the root is handed to cow_fork_level: page pool[0] has
      become a root that maps nothing but itself. */
  ghost predicate RootMade(s: Store, s1: Store) {
    && s.pool != [] && Took(s, s1, 1) && SameOutside(s.mem, s1.mem, {s.pool[0]})
    && Holds(s1.mem, EmptyRoot(s.pool[0]))
  }

  lemma RootPre(s: Store, t: Table, s1: Store)
    requires Represents(s.mem, s.pool, t) && RootMade(s, s1)
    requires forall f :: f in s.desc ==> IsFrame(f)
    ensures ForkPre(s1, Shallow(t), s.pool[0], 4)
  {
    ShallowForkable(t);
    ShallowShape(t);
    SupplyTail(s.pool, Frames(t));
    hide IsFrame, WellFormed, Separate, Frames;
    HoldsFrame(s.mem, s1.mem, t);
    ShallowHolds(s1.mem, t);
    assert |s1.mem[s.pool[0]]| == ENTRIES;
    hide Holds;
    forall k | 0 <= k < |s1.pool|
      ensures s1.pool[k] in s1.mem && |s1.mem[s1.pool[k]]| == ENTRIES
    {
      assert s1.pool[k] == s.pool[k + 1];
    }
  }

  /** The outcome of forking an address space. `raw` is memory as it was when the
      child's pages were taken. */
  ghost predicate SpaceForked(s: Store, raw: Memory, s': Store, t: Table, d: Table) {
    && |t.slots| == |d.slots| == ENTRIES && s.pool != [] && d.frame == s.pool[0]
    && Tables(t.slots, 4) + 1 <= |s.pool|
    && s'.pool == s.pool[Tables(t.slots, 4) + 1..]
    && s'.desc == ForkDesc(s.desc, s.pool, Tables(t.slots, 4) + 1, t.slots, 4)
    && Described(t.slots, 4, s.desc)
    && Holds(s'.mem, Cleared(t, 4)) && Holds(s'.mem, RootChild(t, d))
    && CopyOf(raw, Shallow(t), d, 4)
    && Separate(d) && Frames(d) <= Taken(s.pool, Tables(t.slots, 4) + 1)
    && Holds(raw, EmptyRoot(s.pool[0]))
    && SameOutside(s.mem, s'.mem, Frames(t) + Taken(s.pool, Tables(t.slots, 4) + 1))
  }

  /** Descriptors and pool after the root page and then the tables are taken. */
  lemma RootAccounted(s: Store, s1: Store, s': Store, t: Table)
    requires |t.slots| == ENTRIES && s.pool != [] && Took(s, s1, 1) && Supply(s.pool, {})
    requires Accounted(s1, s', Shallow(t).slots, 4)
    ensures Tables(t.slots, 4) + 1 <= |s.pool|
    ensures s'.pool == s.pool[Tables(t.slots, 4) + 1..]
    ensures s'.desc == ForkDesc(s.desc, s.pool, Tables(t.slots, 4) + 1, t.slots, 4)
    ensures Described(t.slots, 4, s.desc)
    ensures Taken(s.pool, Tables(t.slots, 4) + 1) == {s.pool[0]} + Taken(s1.pool, Tables(t.slots, 4))
  {
    var k := Tables(t.slots, 4);
    ShallowTables(t);
    forall f
      ensures Count(Shallow(t).slots, 4, f) == Count(t.slots, 4, f)
    {
      ShallowCount(t, f);
    }
    var none: seq<Slot> := [];
    assert forall f :: Count(none, 4, f) == 0;
    hide Count, Tables, IsFrame;
    TakenSplit(s.pool, 1, s1.pool, k);
    assert Taken(s.pool, 1) == {s.pool[0]} by {
      assert s.pool[0] in Taken(s.pool, 1);
    }
    assert s1.desc == ForkDesc(s.desc, s.pool, 1, none, 4);
    DescAppend(s.desc, s.pool, 1, s1.pool, k, none, 4, Shallow(t).slots, 4, t.slots);
  }

  lemma RootPost(s: Store, s1: Store, s': Store, t: Table, d: Table)
    requires Represents(s.mem, s.pool, t) && RootMade(s, s1) && d.frame == s.pool[0]
    requires Forked(s1, s', Shallow(t), d, 4)
    ensures |d.slots| == ENTRIES && SpaceForked(s, s1.mem, s', t, d)
  {
    hide IsFrame, Count, Tables, Separate, Frames, ForkDesc, Described, Decode;
    ShallowShape(t);
    RootAccounted(s, s1, s', t);
    ShallowTables(t);
    HoldsFrame(s.mem, s1.mem, t);
    var k := t.slots[KERNEL];
    ShallowCleared(t);
    assert d.slots[KERNEL].e == k.e || !k.Link?;
    hide CopyOf, WellFormed;
    if k.Link? {
      SlotFramesInTable(t, KERNEL);
      HoldsFrame(s1.mem, s'.mem, k.sub);
    }
    hide Holds;
    KernelHolds(s'.mem, Cleared(Shallow(t), 4), k);
    if k.Link? {
      KernelHolds(s'.mem, d, k);
    }
  }

  lemma RootReady(s: Store, t: Table)
    requires Represents(s.mem, s.pool, t) && s.pool != []
    ensures Backed(s.mem, s.pool) && Supply(s.pool, {}) && |t.slots| == ENTRIES && s.pool[0].addr != 0
  {
  }

  lemma RootMadeNow(s: Store, s1: Store)
    requires s.pool != [] && Took(s, s1, 1) && SameOutside(s.mem, s1.mem, {s.pool[0]})
    requires Holds(s1.mem, EmptyRoot(s.pool[0]))
    ensures RootMade(s, s1)
  {
  }

  /** SELF_REF_PML4(0) is where the kernel finds the root in use. */
  lemma WindowRootIn(m: Memory, t: Table)
    requires WellFormed(t, 4) && Holds(m, t)
    ensures Walk(m, t.frame, PathOf(SelfRefPml4(0))) == Found(t.frame, true, false)
  {
    assert SelfRefPml4e(0) == SelfRefPml4(0);
    SelfRefPml4eIndices(0);
    hide SelfRefPml4e, SelfRefPml4, IndexPml4e, IndexPdpe, IndexPde, IndexPte, PathOf, Decode, Walk, IsFrame;
    var none: seq<Index> := [];
    WindowLands(m, t, PathOf(SelfRefPml4(0)), none);
    assert PathOf(SelfRefPml4(0)) + none == PathOf(SelfRefPml4(0));
  }

  lemma WindowRoot(s: Store, t: Table, s1: Store)
    requires Represents(s.mem, s.pool, t) && RootMade(s, s1)
    ensures Walk(s1.mem, t.frame, PathOf(SelfRefPml4(0))) == Found(t.frame, true, false)
    ensures Shallow(t).frame == t.frame
  {
    HoldsFrame(s.mem, s1.mem, t);
    hide Walk, Decode, IsFrame;
    WindowRootIn(s1.mem, t);
  }

  lemma RootCanFork(s: Store, s1: Store, t: Table)
    requires RootMade(s, s1) && |t.slots| == ENTRIES
    ensures CanFork(s1, Shallow(t).slots, 4)
       <==> Tables(t.slots, 4) + 1 <= |s.pool| && Described(t.slots, 4, s.desc)
  {
    ShallowTables(t);
    forall f
      ensures Count(Shallow(t).slots, 4, f) == Count(t.slots, 4, f)
    {
      ShallowCount(t, f);
    }
    hide Count, Tables, Holds;
  }

  // ---------- what fork promises ----------

  /** A path to a user page. */
  predicate UserPath(path: seq<Index>) { |path| == 4 && path[0] != SELF_REF && path[0] != KERNEL }

  predicate KernelPath(path: seq<Index>) { |path| == 4 && path[0] == KERNEL }

  /** `c` is an address space that translates every user page as `t` does, less
      the permission to write, and every kernel page exactly as `t` does. */
  ghost predicate SameMeaning(t: Table, c: Table) {
    && WellFormed(c, 4)
    && (forall path: seq<Index> :: UserPath(path) ==> Seen(Lookup(c, path)) == Seen(Dim(Lookup(t, path))))
    && (forall path: seq<Index> :: KernelPath(path) ==> Seen(Lookup(c, path)) == Seen(Lookup(t, path)))
  }

  /** The root itself never has anything stale in it. */
  lemma RootSlots(raw: Memory, t: Table, d: Table, i: nat)
    requires WellFormed(t, 4) && CopyOf(raw, Shallow(t), d, 4) && Holds(raw, EmptyRoot(d.frame))
    requires i < ENTRIES && !Descends(Shallow(t).slots[i], 4, i)
    ensures !t.slots[i].e.present ==> d.slots[i] == Entry(ABSENT)
    ensures i == SELF_REF ==> d.slots[i] == Entry(SelfPte(d.frame))
  {
    hide IsFrame;
    assert EmptyRoot(d.frame).slots[i].e == Decode(raw[d.frame][i]);
  }

  lemma CleanSlot(raw: Memory, t: Table, d: Table, i: nat)
    requires WellFormed(t, 4) && CopyOf(raw, Shallow(t), d, 4) && Holds(raw, EmptyRoot(d.frame))
    requires Clean(raw, Shallow(t), d, 4) && i < ENTRIES
    ensures var c := RootChild(t, d);
            && (Descends(t.slots[i], 4, i) ==> c.slots[i].Link? && Faithful(t.slots[i].sub, c.slots[i].sub, 3))
            && SlotOk(c.slots[i], c.frame, 4, i)
            && (c.slots[i].Link? ==> WellFormed(c.slots[i].sub, 3))
            && (!Descends(t.slots[i], 4, i) && c.slots[i].Link? ==> c.slots[i] == t.slots[i])
  {
    hide Decode, IsFrame, Lookup, Holds;
    if Descends(t.slots[i], 4, i) {
      CleanFaithful(raw, t.slots[i].sub, d.slots[i].sub, 3);
    } else {
      RootSlots(raw, t, d, i);
    }
  }

  lemma CleanPath(raw: Memory, t: Table, d: Table, path: seq<Index>)
    requires WellFormed(t, 4) && CopyOf(raw, Shallow(t), d, 4) && Holds(raw, EmptyRoot(d.frame))
    requires Clean(raw, Shallow(t), d, 4) && |path| == 4 && path[0] != SELF_REF
    ensures Seen(Lookup(RootChild(t, d), path))
         == Seen(if path[0] == KERNEL then Lookup(t, path) else Dim(Lookup(t, path)))
  {
    CleanSlot(raw, t, d, path[0]);
    hide Clean, Decode, Holds, CopyOf, IsFrame;
  }

  lemma CleanSameMeaning(raw: Memory, t: Table, d: Table)
    requires WellFormed(t, 4) && CopyOf(raw, Shallow(t), d, 4) && Holds(raw, EmptyRoot(d.frame))
    requires Clean(raw, Shallow(t), d, 4)
    ensures SameMeaning(t, RootChild(t, d))
  {
    hide Clean, Decode, Holds, Lookup, Faithful, IsFrame, SlotOk;
    var c := RootChild(t, d);
    forall i | 0 <= i < ENTRIES
      ensures SlotOk(c.slots[i], c.frame, 4, i)
      ensures c.slots[i].Link? ==> WellFormed(c.slots[i].sub, 3)
    {
      CleanSlot(raw, t, d, i);
    }
    assert WellFormed(c, 4);
    hide WellFormed, CopyOf;
    forall path: seq<Index> | UserPath(path)
      ensures Seen(Lookup(c, path)) == Seen(Dim(Lookup(t, path)))
    {
      CleanPath(raw, t, d, path);
    }
    forall path: seq<Index> | KernelPath(path)
      ensures Seen(Lookup(c, path)) == Seen(Lookup(t, path))
    {
      CleanPath(raw, t, d, path);
    }
  }

  lemma SlotFaithful(t: Table, c: Table, i: Index)
    requires |t.slots| == ENTRIES && SameMeaning(t, c) && Descends(t.slots[i], 4, i) && i != SELF_REF
    requires c.slots[i].Link?
    ensures Faithful(t.slots[i].sub, c.slots[i].sub, 3)
  {
    forall p: seq<Index> | |p| == 3
      ensures Seen(Lookup(c.slots[i].sub, p)) == Seen(Dim(Lookup(t.slots[i].sub, p)))
    {
      var path: seq<Index> := [i] + p;
      assert path[1..] == p && UserPath(path);
      assert Seen(Lookup(c, path)) == Seen(Dim(Lookup(t, path)));
    }
  }

  lemma SameMeaningClean(raw: Memory, t: Table, d: Table)
    requires WellFormed(t, 4) && CopyOf(raw, Shallow(t), d, 4) && Holds(raw, EmptyRoot(d.frame))
    requires SameMeaning(t, RootChild(t, d))
    ensures Clean(raw, Shallow(t), d, 4)
  {
    hide SameMeaning, Decode, IsFrame, Faithful, Lookup;
    forall i | 0 <= i < ENTRIES
      ensures if Descends(Shallow(t).slots[i], 4, i) then Clean(raw, t.slots[i].sub, d.slots[i].sub, 3)
              else !Shallow(t).slots[i].e.present ==> !Decode(raw[d.frame][i]).present
    {
      if Descends(Shallow(t).slots[i], 4, i) {
        SlotFaithful(t, RootChild(t, d), i);
        FaithfulClean(raw, t.slots[i].sub, d.slots[i].sub, 3);
      } else {
        RootSlots(raw, t, d, i);
      }
    }
  }

  /** Fork preserves meaning exactly when the pages it takes for the child's
      tables hold no present entry where the parent has none. */
  lemma ForkPreservesMeaning(s: Store, raw: Memory, s': Store, t: Table, d: Table)
    requires WellFormed(t, 4) && SpaceForked(s, raw, s', t, d)
    ensures SameMeaning(t, RootChild(t, d)) <==> Clean(raw, Shallow(t), d, 4)
  {
    hide Clean, SameMeaning, WellFormed, Holds, CopyOf, Separate, Frames, Count, Tables, SameOutside;
    if Clean(raw, Shallow(t), d, 4) {
      CleanSameMeaning(raw, t, d);
    }
    if SameMeaning(t, RootChild(t, d)) {
      SameMeaningClean(raw, t, d);
    }
  }

  function WithoutWrite(w: Walked): Walked {
    match w
    case Fault => Fault
    case Found(f, _, u) => Found(f, false, u)
  }

  /** As the processor sees it: each user address leads parent and child to the
      frame it led the parent to before, and lets neither of them write to it;
      each kernel address leads both exactly where it led before. */
  lemma ForkTranslates(s: Store, raw: Memory, s': Store, t: Table, d: Table, path: seq<Index>)
    requires Represents(s.mem, s.pool, t) && SpaceForked(s, raw, s', t, d)
    requires Clean(raw, Shallow(t), d, 4) && |path| == 4 && path[0] != SELF_REF
    ensures var before := Walk(s.mem, t.frame, path);
            var after := if path[0] == KERNEL then before else WithoutWrite(before);
            Walk(s'.mem, t.frame, path) == after && Walk(s'.mem, d.frame, path) == after
  {
    CleanSameMeaning(raw, t, d);
    ClearedShape(t, 4);
    ClearedLookup(t, path);
    hide WellFormed, Holds, CopyOf, Separate, Frames, Count, Tables, SameOutside, Walk, Clean, Cleared, Lookup;
    WalkIsLookup(s.mem, t, path);
    WalkIsLookup(s'.mem, Cleared(t, 4), path);
    WalkIsLookup(s'.mem, RootChild(t, d), path);
    assert Seen(Lookup(RootChild(t, d), path)) == Seen(Lookup(Cleared(t, 4), path));
  }

  /** The child's own tables share no page with the parent's; only what hangs
      below the kernel slot is common. */
  lemma ForkTreesApart(s: Store, raw: Memory, s': Store, t: Table, d: Table)
    requires Represents(s.mem, s.pool, t) && SpaceForked(s, raw, s', t, d)
    ensures Frames(d) !! Frames(t) && Separate(RootChild(t, d))
    ensures Frames(RootChild(t, d)) <= Frames(d) + SlotFrames(t.slots[KERNEL])
    ensures t.slots[KERNEL].Link? ==> RootChild(t, d).slots[KERNEL] == t.slots[KERNEL]
    ensures RootChild(t, d).slots[SELF_REF] == Entry(SelfPte(d.frame))
    ensures Represents(s'.mem, s'.pool, Cleared(t, 4))
  {
    RootSlots(raw, t, d, SELF_REF);
    ClearedShape(t, 4);
    ClearedSeparate(t, 4);
    hide IsFrame, Count, Tables, Holds, CopyOf;
    SlotFramesInTable(t, KERNEL);
    if t.slots[KERNEL].Link? {
      SwapSeparate(d, KERNEL, t.slots[KERNEL], SlotFrames(t.slots[KERNEL]));
      KernelFrames(d, t.slots[KERNEL]);
    }
    PoolLeft(s, s', t, Tables(t.slots, 4) + 1);
  }

  lemma KernelFrames(d: Table, k: Slot)
    requires |d.slots| == ENTRIES
    ensures Frames(d.(slots := d.slots[KERNEL := k])) <= Frames(d) + SlotFrames(k)
  {
    var c := d.(slots := d.slots[KERNEL := k]);
    forall f | f in Frames(c)
      ensures f in Frames(d) + SlotFrames(k)
    {
      if f != c.frame {
        var j :| 0 <= j < |c.slots| && c.slots[j].Link? && f in Frames(c.slots[j].sub);
        assert j != KERNEL ==> d.slots[j] == c.slots[j];
      }
    }
  }

  lemma PoolLeft(s: Store, s': Store, t: Table, n: nat)
    requires Supply(s.pool, Frames(t)) && Backed(s.mem, s.pool) && n <= |s.pool| && s'.pool == s.pool[n..]
    requires SameOutside(s.mem, s'.mem, Frames(t) + Taken(s.pool, n))
    ensures Supply(s'.pool, Frames(t)) && Backed(s'.mem, s'.pool)
  {
    hide IsFrame, Frames;
    forall k | 0 <= k < |s'.pool|
      ensures s'.pool[k] == s.pool[n + k] && s'.pool[k] !in Taken(s.pool, n)
    {
    }
  }

  /** Zeroed pages are clean. */
  lemma {:induction false} ZeroedClean(raw: Memory, s: Table, d: Table, level: nat)
    requires CopyOf(raw, s, d, level)
    requires forall f :: f in Frames(d) && f in raw ==> raw[f] == Zeroes()
    ensures Clean(raw, s, d, level)
    decreases level
  {
    DecodeZero();
    forall i | 0 <= i < ENTRIES && Descends(s.slots[i], level, i)
      ensures Clean(raw, s.slots[i].sub, d.slots[i].sub, level - 1)
    {
      SlotFramesInTable(d, i);
      ZeroedClean(raw, s.slots[i].sub, d.slots[i].sub, level - 1);
    }
  }

  /** A page that is not: copied into it, an empty page table maps a page. */
  lemma StalePageMaps(src: Frame, dst: Frame)
    requires IsFrame(src) && IsFrame(dst)
    ensures var raw: Memory := map[dst := Zeroes()[0 := LinkEntry(0x5000)]];
            var d := RawTable(dst, raw[dst]);
            && CopyOf(raw, Empty(src), d, 1)
            && Lookup(d, [0]).present && !Lookup(Empty(src), [0]).present
  {
    DecodeLink(Frame(0x5000));
  }
}
