/** cow_fork_level step by step, on values: after slot `i` of a table has been
    visited, memory holds the parent with its first `i` slots cleared and the
    child with its first `i` slots copied, and the descriptors account for it. */
module PageForkStore {
  import opened PageBits
  import opened PageTree
  import opened PageMemory
  import opened PageStore
  import opened PageFork

  /** The table fork is called on. At the root the kernel slot is an entry to be
      copied as it stands, whatever hangs below it. */
  ghost predicate Forkable(t: Table, level: nat) {
    && 1 <= level <= 4 && |t.slots| == ENTRIES
    && forall i :: 0 <= i < ENTRIES ==>
         && (t.slots[i].Link? ==>
               && Descends(t.slots[i], level, i)
               && t.slots[i].e.present && t.slots[i].e.frame == t.slots[i].sub.frame
               && IsFrame(t.slots[i].sub.frame)
               && WellFormed(t.slots[i].sub, level - 1))
         && (t.slots[i].Entry? && level > 1 && t.slots[i].e.present ==>
               level == 4 && (i == SELF_REF || i == KERNEL))
         && (level == 4 && i == SELF_REF ==> t.slots[i].Entry? && t.slots[i].e.present)
  }

  ghost predicate ForkPre(s: Store, t: Table, dst: Frame, level: nat) {
    && Forkable(t, level) && Separate(t) && Holds(s.mem, t)
    && dst in s.mem && |s.mem[dst]| == ENTRIES && IsFrame(dst) && dst !in Frames(t)
    && Supply(s.pool, Frames(t) + {dst}) && Backed(s.mem, s.pool)
    && forall f :: f in s.desc ==> IsFrame(f)
  }

  /** The parent with its first `i` slots cleared. */
  ghost function Partial(t: Table, level: nat, i: nat): Table {
    Table(t.frame, seq(|t.slots|, j requires 0 <= j < |t.slots| =>
      if j < i then ClearedSlot(t.slots[j], level, j) else t.slots[j]))
  }

  ghost predicate CopiedSlot(raw: Memory, s: Slot, c: Slot, level: nat, j: nat, was: Pte) {
    if Descends(s, level, j) then
      && c.Link? && level > 1 && c.e == s.e.(frame := c.sub.frame)
      && CopyOf(raw, s.sub, c.sub, level - 1)
    else c == CopiedEntry(s.e, level, j, was)
  }

  ghost predicate CopiedTo(raw: Memory, t: Table, d: Table, level: nat, i: nat) {
    && |t.slots| == |d.slots| == ENTRIES
    && d.frame in raw && |raw[d.frame]| == ENTRIES && IsFrame(d.frame)
    && forall j :: 0 <= j < ENTRIES ==>
         if j < i then CopiedSlot(raw, t.slots[j], d.slots[j], level, j, Decode(raw[d.frame][j]))
         else d.slots[j] == Entry(Decode(raw[d.frame][j]))
  }

  /** Every frame mapped below these slots has a descriptor. */
  ghost predicate Described(slots: seq<Slot>, level: nat, desc: Descs) {
    forall f :: Count(slots, level, f) > 0 ==> f in desc
  }

  /** One reference more for each table page taken and each mapping copied;
      frames with a copied mapping are in copy-on-write mode. */
  ghost function ForkDesc(desc: Descs, pool: seq<Frame>, n: nat, slots: seq<Slot>, level: nat): Descs
    requires n <= |pool|
  {
    map f | f in desc ::
      Desc(desc[f].refcount + (if f in Taken(pool, n) then 1 else 0) + Count(slots, level, f),
           desc[f].cow || Count(slots, level, f) > 0)
  }

  ghost predicate Accounted(s: Store, s': Store, slots: seq<Slot>, level: nat) {
    && Tables(slots, level) <= |s.pool|
    && s'.pool == s.pool[Tables(slots, level)..]
    && s'.desc == ForkDesc(s.desc, s.pool, Tables(slots, level), slots, level)
    && Described(slots, level, s.desc)
  }

  ghost predicate ForkedTo(s: Store, s': Store, t: Table, d: Table, level: nat, i: nat) {
    && i <= ENTRIES && |t.slots| == ENTRIES
    && Accounted(s, s', t.slots[..i], level)
    && Holds(s'.mem, Partial(t, level, i))
    && Holds(s'.mem, d) && Separate(d) && CopiedTo(s.mem, t, d, level, i)
    && Frames(d) <= {d.frame} + Taken(s.pool, Tables(t.slots[..i], level))
    && SameOutside(s.mem, s'.mem, Frames(t) + {d.frame} + Taken(s.pool, Tables(t.slots[..i], level)))
  }

  /** The outcome of forking one table. */
  ghost predicate Forked(s: Store, s': Store, t: Table, d: Table, level: nat) {
    && Accounted(s, s', t.slots, level)
    && Holds(s'.mem, Cleared(t, level))
    && Holds(s'.mem, d) && Separate(d) && CopyOf(s.mem, t, d, level)
    && Frames(d) <= {d.frame} + Taken(s.pool, Tables(t.slots, level))
    && SameOutside(s.mem, s'.mem, Frames(t) + {d.frame} + Taken(s.pool, Tables(t.slots, level)))
  }

  function RawTable(f: Frame, words: seq<bv64>): Table {
    Table(f, seq(|words|, j requires 0 <= j < |words| => Entry(Decode(words[j]))))
  }

  lemma ForkStart(s: Store, t: Table, dst: Frame, level: nat)
    requires ForkPre(s, t, dst, level)
    ensures dst in s.mem && ForkedTo(s, s, t, RawTable(dst, s.mem[dst]), level, 0)
    ensures RawTable(dst, s.mem[dst]).frame == dst && 0 <= ENTRIES
  {
    hide IsFrame, Decode, WellFormed;
    var d := RawTable(dst, s.mem[dst]);
    assert t.slots[..0] == [];
    assert Partial(t, level, 0) == t;
    assert s.pool[0..] == s.pool;
    assert Taken(s.pool, 0) == {};
    assert ForkDesc(s.desc, s.pool, 0, [], level) == s.desc;
    assert Frames(d) == {dst};
  }

  lemma ForkEnd(s: Store, s': Store, t: Table, d: Table, level: nat)
    requires ForkedTo(s, s', t, d, level, ENTRIES)
    ensures Forked(s, s', t, d, level)
  {
    hide IsFrame, Decode, Holds, Separate, Frames, Count, Tables;
    assert t.slots[..ENTRIES] == t.slots;
    assert Partial(t, level, ENTRIES) == Cleared(t, level);
  }

  // ---------- one slot ----------

  lemma PartialNext(t: Table, level: nat, i: nat)
    requires i < |t.slots|
    ensures var p := Partial(t, level, i);
            Partial(t, level, i + 1) == p.(slots := p.slots[i := ClearedSlot(t.slots[i], level, i)])
    ensures Partial(t, level, i).slots[i] == t.slots[i]
  {
  }

  lemma PartialShape(t: Table, level: nat, i: nat)
    requires Forkable(t, level) && Separate(t)
    ensures Frames(Partial(t, level, i)) == Frames(t)
    ensures Separate(Partial(t, level, i))
  {
    hide IsFrame;
    var p := Partial(t, level, i);
    forall j | 0 <= j < ENTRIES
      ensures SlotFrames(p.slots[j]) == SlotFrames(t.slots[j])
      ensures p.slots[j].Link? ==> Separate(p.slots[j].sub)
    {
      if j < i && t.slots[j].Link? {
        ClearedShape(t.slots[j].sub, level - 1);
        ClearedSeparate(t.slots[j].sub, level - 1);
      }
    }
    SameSlotFrames(t, p);
  }

  /** Two trees in one memory with no page in common: a store into the root page
      of one is a change of that one alone. */
  lemma StoreOne(m: Memory, a: Table, b: Table, i: nat, w: bv64)
    requires Holds(m, a) && Holds(m, b) && Separate(a) && Frames(a) !! Frames(b)
    requires i < |a.slots| == ENTRIES
    ensures a.frame in m && |m[a.frame]| == ENTRIES
    ensures var m' := m[a.frame := m[a.frame][i := w]];
            && Holds(m', a.(slots := a.slots[i := Entry(Decode(w))]))
            && Holds(m', b)
  {
    var m' := m[a.frame := m[a.frame][i := w]];
    StoreHolds(m, a, [], i, w, Entry(Decode(w)));
    HoldsFrame(m, m', b);
  }

  /** Replacing a slot by an entry keeps a tree separate and adds no page. */
  lemma EntrySwap(d: Table, i: nat, e: Pte)
    requires i < |d.slots| == ENTRIES && Separate(d)
    ensures Separate(d.(slots := d.slots[i := Entry(e)]))
    ensures Frames(d.(slots := d.slots[i := Entry(e)])) <= Frames(d)
  {
    var c := d.(slots := d.slots[i := Entry(e)]);
    SwapSeparate(d, i, Entry(e), {});
    forall f | f in Frames(c)
      ensures f in Frames(d)
    {
      if f != c.frame {
        var j :| 0 <= j < |c.slots| && c.slots[j].Link? && f in Frames(c.slots[j].sub);
        assert d.slots[j] == c.slots[j];
      }
    }
  }

  lemma AccountedSkip(s: Store, s': Store, slots: seq<Slot>, level: nat, i: nat)
    requires i < |slots| && Accounted(s, s', slots[..i], level)
    requires !Descends(slots[i], level, i) && (level <= 1 ==> !slots[i].e.present)
    ensures Accounted(s, s', slots[..i+1], level)
    ensures Tables(slots[..i+1], level) == Tables(slots[..i], level)
  {
    TablesNext(slots, level, i);
    forall f
      ensures Count(slots[..i+1], level, f) == Count(slots[..i], level, f)
    {
      CountNext(slots, level, i, f);
    }
    hide Count, Tables;
    var n := Tables(slots[..i], level);
    assert ForkDesc(s.desc, s.pool, n, slots[..i+1], level) == ForkDesc(s.desc, s.pool, n, slots[..i], level);
  }

  lemma SkipSlot(s: Store, s': Store, t: Table, d: Table, dst: Frame, level: nat, i: nat)
    requires ForkPre(s, t, dst, level) && i < ENTRIES && ForkedTo(s, s', t, d, level, i)
    requires !t.slots[i].e.present || (level == 4 && i == SELF_REF)
    ensures ForkedTo(s, s', t, d, level, i + 1)
  {
    hide IsFrame, Decode, Holds, Separate, Frames, Count, Tables, WellFormed, Accounted, SameOutside, CopyOf;
    AccountedSkip(s, s', t.slots, level, i);
    PartialNext(t, level, i);
    assert ClearedSlot(t.slots[i], level, i) == t.slots[i];
    assert Partial(t, level, i + 1) == Partial(t, level, i);
  }

  /** The pages of parent and child are apart. */
  lemma TreesApart(s: Store, s': Store, t: Table, d: Table, dst: Frame, level: nat, i: nat)
    requires ForkPre(s, t, dst, level) && ForkedTo(s, s', t, d, level, i) && d.frame == dst
    ensures Frames(d) !! Frames(Partial(t, level, i)) && Separate(Partial(t, level, i))
    ensures d.frame in s'.mem && |s'.mem[d.frame]| == ENTRIES
    ensures t.frame in s'.mem && |s'.mem[t.frame]| == ENTRIES
    ensures d.frame != t.frame && |d.slots| == ENTRIES
  {
    hide IsFrame, Decode, Count, Tables, WellFormed;
    PartialShape(t, level, i);
  }

  lemma CopiedNext(raw: Memory, t: Table, d: Table, level: nat, i: nat, c: Slot)
    requires i < ENTRIES && CopiedTo(raw, t, d, level, i)
    requires CopiedSlot(raw, t.slots[i], c, level, i, Decode(raw[d.frame][i]))
    ensures CopiedTo(raw, t, d.(slots := d.slots[i := c]), level, i + 1)
  {
    hide CopyOf, CopiedSlot, Decode, IsFrame;
  }

  /** Slot 511 of the root: the entry is copied and nothing below it is. */
  lemma KernelSlot(s: Store, s': Store, t: Table, d: Table, dst: Frame, w: bv64)
    requires ForkPre(s, t, dst, 4) && ForkedTo(s, s', t, d, 4, KERNEL) && d.frame == dst
    requires t.slots[KERNEL].e.present && Decode(w) == t.slots[KERNEL].e
    ensures dst in s'.mem && |s'.mem[dst]| == ENTRIES
    ensures ForkedTo(s, s'.(mem := s'.mem[dst := s'.mem[dst][KERNEL := w]]), t,
                     d.(slots := d.slots[KERNEL := Entry(Decode(w))]), 4, KERNEL + 1)
  {
    hide IsFrame, Decode, Holds, Separate, Frames, Count, Tables, WellFormed, CopyOf, ForkDesc, Described;
    TreesApart(s, s', t, d, dst, 4, KERNEL);
    AccountedSkip(s, s', t.slots, 4, KERNEL);
    PartialNext(t, 4, KERNEL);
    StoreOne(s'.mem, d, Partial(t, 4, KERNEL), KERNEL, w);
    EntrySwap(d, KERNEL, Decode(w));
    CopiedNext(s.mem, t, d, 4, KERNEL, Entry(Decode(w)));
    hide CopiedTo;
    assert Partial(t, 4, KERNEL + 1) == Partial(t, 4, KERNEL);
  }

  lemma AccountedLeaf(s: Store, s': Store, slots: seq<Slot>, i: nat, f: Frame)
    requires i < |slots| && Accounted(s, s', slots[..i], 1)
    requires slots[i].e.present && slots[i].e.frame == f && f in s.desc
    ensures f in s'.desc
    ensures Accounted(s, s'.(desc := s'.desc[f := Desc(s'.desc[f].refcount + 1, true)]), slots[..i+1], 1)
    ensures Tables(slots[..i+1], 1) == Tables(slots[..i], 1)
  {
    TablesNext(slots, 1, i);
    forall g
      ensures Count(slots[..i+1], 1, g) == Count(slots[..i], 1, g) + if g == f then 1 else 0
    {
      CountNext(slots, 1, i, g);
    }
    hide Count, Tables;
    var n := Tables(slots[..i], 1);
    assert ForkDesc(s.desc, s.pool, n, slots[..i+1], 1)
        == s'.desc[f := Desc(s'.desc[f].refcount + 1, true)];
  }

  /** A present page: write permission goes, the entry is copied, and its frame
      gains a reference and the copy-on-write flag. */
  lemma LeafSlot(s: Store, s': Store, t: Table, d: Table, dst: Frame, i: nat, w: bv64, f: Frame)
    requires ForkPre(s, t, dst, 1) && i < ENTRIES && ForkedTo(s, s', t, d, 1, i) && d.frame == dst
    requires t.slots[i].e.present && Decode(w) == Dim(t.slots[i].e)
    requires f == t.slots[i].e.frame && f in s.desc
    ensures f in s'.desc && t.frame in s'.mem && dst in s'.mem && t.frame != dst
    ensures |s'.mem[t.frame]| == |s'.mem[dst]| == ENTRIES
    ensures ForkedTo(s,
                     Store(s'.mem[t.frame := s'.mem[t.frame][i := w]][dst := s'.mem[dst][i := w]],
                           s'.pool, s'.desc[f := Desc(s'.desc[f].refcount + 1, true)]),
                     t, d.(slots := d.slots[i := Entry(Decode(w))]), 1, i + 1)
  {
    hide IsFrame, Decode, Holds, Separate, Frames, Count, Tables, WellFormed, CopyOf, ForkDesc, Described;
    TreesApart(s, s', t, d, dst, 1, i);
    AccountedLeaf(s, s', t.slots, i, f);
    PartialNext(t, 1, i);
    StoreOne(s'.mem, Partial(t, 1, i), d, i, w);
    var m := s'.mem[t.frame := s'.mem[t.frame][i := w]];
    PartialShape(t, 1, i);
    PartialShape(t, 1, i + 1);
    StoreOne(m, d, Partial(t, 1, i + 1), i, w);
    EntrySwap(d, i, Decode(w));
    CopiedNext(s.mem, t, d, 1, i, Entry(Decode(w)));
    hide CopiedTo;
    AtFrame(t, []);
    assert m[dst] == s'.mem[dst];
  }

  // ---------- a slot with a table below it ----------

  lemma WellFormedForkable(t: Table, level: nat)
    requires WellFormed(t, level) && level <= 3
    ensures Forkable(t, level)
  {
  }

  lemma {:induction false} CopyOfFrame(raw: Memory, raw': Memory, s: Table, d: Table, level: nat)
    requires CopyOf(raw, s, d, level)
    requires forall g :: g in Frames(d) && g in raw ==> g in raw' && raw'[g] == raw[g]
    ensures CopyOf(raw', s, d, level)
    decreases level
  {
    hide Decode, IsFrame;
    forall i | 0 <= i < ENTRIES && Descends(s.slots[i], level, i)
      ensures CopyOf(raw', s.slots[i].sub, d.slots[i].sub, level - 1)
    {
      SlotFramesInTable(d, i);
      CopyOfFrame(raw, raw', s.slots[i].sub, d.slots[i].sub, level - 1);
    }
  }

  /** A change confined to one subtree and to pages outside the tree. */
  lemma HoldsSubtree(m: Memory, m': Memory, a: Table, i: nat, c: Table, extra: set<Frame>)
    requires Holds(m, a) && Separate(a) && i < |a.slots| == ENTRIES && a.slots[i].Link?
    requires SameOutside(m, m', Frames(a.slots[i].sub) + extra) && extra !! Frames(a)
    requires Holds(m', c)
    ensures Holds(m', a.(slots := a.slots[i := Link(a.slots[i].e, c)]))
  {
    forall j | 0 <= j < |a.slots| && j != i && a.slots[j].Link?
      ensures Holds(m', a.slots[j].sub)
    {
      SlotFramesInTable(a, j);
      assert SlotFrames(a.slots[j]) !! SlotFrames(a.slots[i]);
      HoldsFrame(m, m', a.slots[j].sub);
    }
  }

  /** Pages not handed out yet are as they were at the start. */
  lemma PoolUntouched(s: Store, s': Store, t: Table, d: Table, dst: Frame, level: nat, i: nat)
    requires ForkPre(s, t, dst, level) && ForkedTo(s, s', t, d, level, i) && d.frame == dst
    ensures Backed(s'.mem, s'.pool) && Supply(s'.pool, Frames(t) + {dst})
    ensures forall k :: 0 <= k < |s'.pool| ==>
      s'.pool[k] in s.mem && s'.mem[s'.pool[k]] == s.mem[s'.pool[k]] && s'.pool[k] !in Frames(d)
  {
    hide IsFrame, Decode, Holds, Separate, Frames, Count, Tables, WellFormed, CopyOf, ForkDesc, Described, CopiedTo;
    var n := Tables(t.slots[..i], level);
    forall k | 0 <= k < |s'.pool|
      ensures s'.pool[k] == s.pool[n + k] && s'.pool[k] !in Taken(s.pool, n)
    {
    }
  }

  /** The state in which fork calls itself: page `s'.pool[0]` taken and linked. */
  ghost function Linking(s: Store, dst: Frame, i: nat, w: bv64): Store
    requires s.pool != [] && dst in s.mem && i < |s.mem[dst]|
  {
    Store(s.mem[dst := s.mem[dst][i := w]], s.pool[1..], Claimed(s.desc, s.pool, 1))
  }

  lemma TablePre(s: Store, s': Store, t: Table, d: Table, dst: Frame, level: nat, i: nat, w: bv64)
    requires ForkPre(s, t, dst, level) && i < ENTRIES && ForkedTo(s, s', t, d, level, i) && d.frame == dst
    requires t.slots[i].Link? && s'.pool != []
    ensures dst in s'.mem && |s'.mem[dst]| == ENTRIES
    ensures ForkPre(Linking(s', dst, i, w), t.slots[i].sub, s'.pool[0], level - 1)
  {
    hide IsFrame, Decode, Frames, Count, Tables, WellFormed, CopyOf, Described, CopiedTo;
    var sub := t.slots[i].sub;
    TreesApart(s, s', t, d, dst, level, i);
    PoolUntouched(s, s', t, d, dst, level, i);
    WellFormedForkable(sub, level - 1);
    PartialNext(t, level, i);
    assert Holds(s'.mem, sub);
    SlotFramesInTable(t, i);
    HoldsFrame(s'.mem, Linking(s', dst, i, w).mem, sub);
    SupplyTail(s'.pool, Frames(t) + {dst});
  }

  lemma TakenSplit(pool: seq<Frame>, m: nat, rest: seq<Frame>, k: nat)
    requires m + k <= |pool| && rest == pool[m..] && Supply(pool, {})
    ensures Taken(pool, m + k) == Taken(pool, m) + Taken(rest, k)
    ensures Taken(pool, m) !! Taken(rest, k)
  {
    hide IsFrame;
    forall f | f in Taken(pool, m + k)
      ensures f in Taken(pool, m) + Taken(rest, k)
    {
      var j :| 0 <= j < m + k && pool[j] == f;
      if j >= m {
        assert rest[j - m] == f;
      }
    }
    forall f | f in Taken(rest, k)
      ensures f in Taken(pool, m + k) && f !in Taken(pool, m)
    {
      var j :| 0 <= j < k && rest[j] == f;
      assert pool[m + j] == f;
    }
  }

  /** Taking one more page, and then forking a subtree, adds up. */
  lemma DescAlloc(desc: Descs, pool: seq<Frame>, n: nat, rest: seq<Frame>, slots: seq<Slot>, level: nat)
    requires n < |pool| && rest == pool[n..] && Supply(pool, {})
    ensures Claimed(ForkDesc(desc, pool, n, slots, level), rest, 1) == ForkDesc(desc, pool, n + 1, slots, level)
    ensures ForkDesc(desc, pool, n + 1, slots, level).Keys == desc.Keys
  {
    hide Count;
    TakenSplit(pool, n, rest, 1);
    hide Taken;
  }

  lemma DescAppend(desc: Descs, pool: seq<Frame>, m: nat, rest: seq<Frame>, k: nat,
                   a: seq<Slot>, la: nat, b: seq<Slot>, lb: nat, c: seq<Slot>)
    requires m + k <= |pool| && rest == pool[m..] && Supply(pool, {})
    requires forall f :: Count(c, la, f) == Count(a, la, f) + Count(b, lb, f)
    ensures ForkDesc(ForkDesc(desc, pool, m, a, la), rest, k, b, lb) == ForkDesc(desc, pool, m + k, c, la)
  {
    hide Count;
    TakenSplit(pool, m, rest, k);
    hide Taken;
  }

  lemma TableSums(slots: seq<Slot>, level: nat, i: nat)
    requires i < |slots| && Descends(slots[i], level, i)
    ensures Tables(slots[..i+1], level) == Tables(slots[..i], level) + 1 + Tables(slots[i].sub.slots, level - 1)
    ensures forall f :: Count(slots[..i+1], level, f)
                     == Count(slots[..i], level, f) + Count(slots[i].sub.slots, level - 1, f)
  {
    TablesNext(slots, level, i);
    forall f
      ensures Count(slots[..i+1], level, f) == Count(slots[..i], level, f) + Count(slots[i].sub.slots, level - 1, f)
    {
      CountNext(slots, level, i, f);
    }
  }

  lemma AccountedTable(s: Store, s': Store, s1: Store, s2: Store, slots: seq<Slot>, level: nat, i: nat)
    requires i < |slots| && Accounted(s, s', slots[..i], level) && Descends(slots[i], level, i)
    requires Supply(s.pool, {}) && s'.pool != []
    requires s1.pool == s'.pool[1..] && s1.desc == Claimed(s'.desc, s'.pool, 1)
    requires Accounted(s1, s2, slots[i].sub.slots, level - 1)
    ensures Accounted(s, s2, slots[..i+1], level)
    ensures Tables(slots[..i+1], level) == Tables(slots[..i], level) + 1 + Tables(slots[i].sub.slots, level - 1)
  {
    hide Count, Tables, IsFrame, ForkDesc, Claimed, Taken;
    var n, b := Tables(slots[..i], level), slots[i].sub.slots;
    var k := Tables(b, level - 1);
    TableSums(slots, level, i);
    assert s1.pool == s.pool[n+1..];
    DescAlloc(s.desc, s.pool, n, s'.pool, slots[..i], level);
    DescAppend(s.desc, s.pool, n + 1, s1.pool, k, slots[..i], level, b, level - 1, slots[..i+1]);
    assert s2.pool == s.pool[n + 1 + k..];
  }

  /** Pages the recursive call may have touched, beside the subtree itself. */
  ghost function Touched(s': Store, sub: Table, level: nat): set<Frame>
    requires s'.pool != [] && Tables(sub.slots, level) <= |s'.pool| - 1
  {
    {s'.pool[0]} + Taken(s'.pool[1..], Tables(sub.slots, level))
  }

  lemma TouchedApart(s: Store, s': Store, t: Table, d: Table, dst: Frame, level: nat, i: nat)
    requires ForkPre(s, t, dst, level) && i < ENTRIES && ForkedTo(s, s', t, d, level, i) && d.frame == dst
    requires t.slots[i].Link? && s'.pool != [] && Tables(t.slots[i].sub.slots, level - 1) <= |s'.pool| - 1
    ensures Tables(t.slots[..i+1], level) <= |s.pool|
    ensures var x := Touched(s', t.slots[i].sub, level - 1);
            && x !! Frames(t) && x !! Frames(d) && dst !in x
            && (forall g :: g in x ==> g in s.mem && g in s'.mem && s'.mem[g] == s.mem[g])
            && Taken(s.pool, Tables(t.slots[..i], level)) + x
               == Taken(s.pool, Tables(t.slots[..i+1], level))
  {
    hide IsFrame, Decode, Frames, Count, WellFormed, CopyOf, Described, CopiedTo, Holds, Separate, ForkDesc;
    PoolUntouched(s, s', t, d, dst, level, i);
    TablesNext(t.slots, level, i);
    hide Tables;
    var n, k := Tables(t.slots[..i], level), Tables(t.slots[i].sub.slots, level - 1);
    TakenSplit(s.pool, n, s'.pool, k + 1);
    TakenSplit(s'.pool, 1, s'.pool[1..], k);
    assert Taken(s'.pool, 1) == {s'.pool[0]} by {
      assert s'.pool[0] in Taken(s'.pool, 1);
    }
  }

  /** Memory after the recursive call: both trees, one slot further. */
  lemma TablePostMemory(s: Store, s': Store, s2: Store, t: Table, d: Table, c: Table, dst: Frame, level: nat, i: nat, w: bv64)
    requires ForkPre(s, t, dst, level) && i < ENTRIES && ForkedTo(s, s', t, d, level, i) && d.frame == dst
    requires t.slots[i].Link? && s'.pool != [] && c.frame == s'.pool[0]
    requires dst in s'.mem && |s'.mem[dst]| == ENTRIES
    requires Forked(Linking(s', dst, i, w), s2, t.slots[i].sub, c, level - 1)
    ensures Holds(s2.mem, Partial(t, level, i + 1))
    ensures Holds(s2.mem, d.(slots := d.slots[i := Link(Decode(w), c)]))
  {
    hide IsFrame, Decode, Frames, Count, Tables, WellFormed, CopyOf, Described, Separate, ForkDesc;
    var s1, sub, p := Linking(s', dst, i, w), t.slots[i].sub, Partial(t, level, i);
    var x := Touched(s', sub, level - 1);
    TreesApart(s, s', t, d, dst, level, i);
    TouchedApart(s, s', t, d, dst, level, i);
    PartialNext(t, level, i);
    PartialShape(t, level, i);
    StoreOne(s'.mem, d, p, i, w);
    assert SameOutside(s1.mem, s2.mem, Frames(sub) + x);
    HoldsSubtree(s1.mem, s2.mem, p, i, Cleared(sub, level - 1), x);
    var e := d.(slots := d.slots[i := Entry(Decode(w))]);
    EntrySwap(d, i, Decode(w));
    SlotFramesInTable(t, i);
    HoldsFrame(s1.mem, s2.mem, e);
  }

  /** The child's side of the slot. */
  lemma TablePostCopy(s: Store, s': Store, s2: Store, t: Table, d: Table, c: Table, dst: Frame, level: nat, i: nat, w: bv64)
    requires ForkPre(s, t, dst, level) && i < ENTRIES && ForkedTo(s, s', t, d, level, i) && d.frame == dst
    requires t.slots[i].Link? && s'.pool != [] && c.frame == s'.pool[0]
    requires dst in s'.mem && |s'.mem[dst]| == ENTRIES
    requires Decode(w) == t.slots[i].e.(frame := c.frame)
    requires Forked(Linking(s', dst, i, w), s2, t.slots[i].sub, c, level - 1)
    ensures var e := d.(slots := d.slots[i := Link(Decode(w), c)]);
            && Separate(e) && CopiedTo(s.mem, t, e, level, i + 1)
            && Frames(e) <= Frames(d) + Touched(s', t.slots[i].sub, level - 1)
  {
    hide IsFrame, Decode, Frames, Count, Tables, WellFormed, CopyOf, Described, Separate, ForkDesc, Holds;
    var s1, sub := Linking(s', dst, i, w), t.slots[i].sub;
    var x := Touched(s', sub, level - 1);
    TouchedApart(s, s', t, d, dst, level, i);
    assert Frames(c) <= x;
    SwapSeparate(d, i, Link(Decode(w), c), x);
    SwapFrames(d, i, Link(Decode(w), c));
    CopyOfFrame(s1.mem, s.mem, sub, c, level - 1);
    CopiedNext(s.mem, t, d, level, i, Link(Decode(w), c));
  }

  /** What the recursive call reports makes one slot more of this table done. */
  lemma TablePost(s: Store, s': Store, s2: Store, t: Table, d: Table, c: Table, dst: Frame, level: nat, i: nat, w: bv64)
    requires ForkPre(s, t, dst, level) && i < ENTRIES && ForkedTo(s, s', t, d, level, i) && d.frame == dst
    requires t.slots[i].Link? && s'.pool != [] && c.frame == s'.pool[0]
    requires dst in s'.mem && |s'.mem[dst]| == ENTRIES
    requires Decode(w) == t.slots[i].e.(frame := c.frame)
    requires Forked(Linking(s', dst, i, w), s2, t.slots[i].sub, c, level - 1)
    ensures ForkedTo(s, s2, t, d.(slots := d.slots[i := Link(Decode(w), c)]), level, i + 1)
  {
    hide IsFrame, Decode, Frames, Count, Tables, WellFormed, CopyOf, Described, CopiedTo, Holds, Separate, ForkDesc;
    var s1 := Linking(s', dst, i, w);
    var sub := t.slots[i].sub;
    AccountedTable(s, s', s1, s2, t.slots, level, i);
    TablePostMemory(s, s', s2, t, d, c, dst, level, i, w);
    TablePostCopy(s, s', s2, t, d, c, dst, level, i, w);
    TouchedApart(s, s', t, d, dst, level, i);
    SlotFramesInTable(t, i);
    assert SameOutside(s1.mem, s2.mem, Frames(sub) + Touched(s', sub, level - 1));
  }

  // ---------- when fork fails ----------

  /** Enough pages for the tables, and a descriptor for every page mapped. */
  ghost predicate CanFork(s: Store, slots: seq<Slot>, level: nat) {
    Tables(slots, level) <= |s.pool| && Described(slots, level, s.desc)
  }

  lemma {:induction false} CountPrefix(slots: seq<Slot>, level: nat, i: nat, f: Frame)
    requires i <= |slots|
    ensures Count(slots[..i], level, f) <= Count(slots, level, f)
    decreases |slots| - i
  {
    if i < |slots| {
      CountNext(slots, level, i, f);
      CountPrefix(slots, level, i + 1, f);
    } else {
      assert slots[..i] == slots;
    }
  }

  lemma {:induction false} TablesPrefix(slots: seq<Slot>, level: nat, i: nat)
    requires i <= |slots|
    ensures Tables(slots[..i], level) <= Tables(slots, level)
    decreases |slots| - i
  {
    if i < |slots| {
      TablesNext(slots, level, i);
      TablesPrefix(slots, level, i + 1);
    } else {
      assert slots[..i] == slots;
    }
  }

  lemma NoDescriptor(s: Store, t: Table, i: nat)
    requires i < |t.slots| && t.slots[i].e.present && t.slots[i].e.frame !in s.desc
    ensures !CanFork(s, t.slots, 1)
  {
    CountNext(t.slots, 1, i, t.slots[i].e.frame);
    CountPrefix(t.slots, 1, i + 1, t.slots[i].e.frame);
    hide Tables;
  }

  lemma NoPage(s: Store, s': Store, t: Table, d: Table, level: nat, i: nat)
    requires ForkedTo(s, s', t, d, level, i) && i < ENTRIES && Descends(t.slots[i], level, i) && s'.pool == []
    ensures !CanFork(s, t.slots, level)
  {
    TablesNext(t.slots, level, i);
    TablesPrefix(t.slots, level, i + 1);
    hide Holds, Separate, Frames, Count, Tables, CopiedTo, ForkDesc, Decode, SameOutside;
  }

  lemma NoSubtree(s: Store, s': Store, s1: Store, t: Table, d: Table, level: nat, i: nat)
    requires ForkedTo(s, s', t, d, level, i) && i < ENTRIES && Descends(t.slots[i], level, i) && s'.pool != []
    requires s1.pool == s'.pool[1..] && s1.desc.Keys == s.desc.Keys
    requires !CanFork(s1, t.slots[i].sub.slots, level - 1)
    ensures !CanFork(s, t.slots, level)
  {
    TablesNext(t.slots, level, i);
    TablesPrefix(t.slots, level, i + 1);
    forall f
      ensures Count(t.slots[i].sub.slots, level - 1, f) <= Count(t.slots, level, f)
    {
      CountNext(t.slots, level, i, f);
      CountPrefix(t.slots, level, i + 1, f);
    }
    hide Holds, Separate, Frames, Count, Tables, CopiedTo, ForkDesc, Decode, SameOutside;
  }

  /** What reading slot `i` of the source tells. */
  lemma SlotWord(s: Store, s': Store, t: Table, d: Table, level: nat, i: nat)
    requires i < ENTRIES && ForkedTo(s, s', t, d, level, i)
    ensures t.frame in s'.mem && |s'.mem[t.frame]| == ENTRIES
    ensures Decode(s'.mem[t.frame][i]) == t.slots[i].e
  {
    PartialNext(t, level, i);
  }

  /** The descriptor the kernel finds for an entry is the one of its frame. */
  lemma DescriptorOf(desc: Descs, w: bv64)
    requires forall f :: f in desc ==> IsFrame(f)
    ensures Frame(EntryAddr(w)) in desc <==> Decode(w).frame in desc
    ensures Decode(w).frame in desc ==> Frame(EntryAddr(w)) == Decode(w).frame
  {
    if IsFrame(Decode(w).frame) {
      EntryAddrIsHardwareAddr(w);
    } else {
      OddFrameOddAddr(w);
    }
  }

  lemma ForkableSlot(s: Store, t: Table, dst: Frame, level: nat, i: nat)
    requires ForkPre(s, t, dst, level) && i < ENTRIES
    ensures i < |t.slots| && 1 <= level <= 4
    ensures t.slots[i].e.present && level > 1 && !(level == 4 && (i == SELF_REF || i == KERNEL)) ==>
      t.slots[i].Link? && Descends(t.slots[i], level, i)
  {
  }

  lemma DescsKept(s: Store, s': Store, t: Table, d: Table, dst: Frame, level: nat, i: nat)
    requires ForkPre(s, t, dst, level) && ForkedTo(s, s', t, d, level, i)
    ensures s'.desc.Keys == s.desc.Keys && |t.slots| == |d.slots| == ENTRIES
    ensures forall f :: f in s'.desc ==> IsFrame(f)
    ensures s'.pool != [] ==> IsFrame(s'.pool[0]) && s'.pool[0].addr != 0
  {
  }

  /** The entry leads where the tree says it does. */
  lemma SubtreeAddr(s: Store, t: Table, dst: Frame, level: nat, i: nat, w: bv64)
    requires ForkPre(s, t, dst, level) && i < ENTRIES && t.slots[i].Link? && Decode(w) == t.slots[i].e
    ensures t.slots[i].sub.frame == Frame(EntryAddr(w))
  {
    EntryAddrIsHardwareAddr(w);
  }

  lemma ForkedCould(s: Store, s': Store, t: Table, d: Table, level: nat)
    requires Forked(s, s', t, d, level)
    ensures CanFork(s, t.slots, level)
  {
    hide Holds, Separate, Frames, Count, Tables, CopyOf, ForkDesc, Decode, SameOutside;
  }
}
