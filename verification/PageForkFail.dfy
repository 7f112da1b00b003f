/** What a fork that gives up half way leaves of the parent: its tree, with write
    permission withdrawn from some of the pages and nothing else changed. */
module PageForkFail {
  import opened PageBits
  import opened PageTree
  import opened PageMemory
  import opened PageStore
  import opened PageFork
  import opened PageForkStore
  import opened PageForkRoot

  /** `u` is `t` with some leaf entries as fork leaves them and the others as they were. */
  ghost predicate HalfCleared(t: Table, u: Table, level: nat)
    decreases level
  {
    && u.frame == t.frame && |u.slots| == |t.slots|
    && forall i :: 0 <= i < |t.slots| ==>
         if level <= 1 then u.slots[i] == t.slots[i] || u.slots[i] == Entry(Dim(t.slots[i].e))
         else if Descends(t.slots[i], level, i) then
           u.slots[i].Link? && u.slots[i].e == t.slots[i].e && HalfCleared(t.slots[i].sub, u.slots[i].sub, level - 1)
         else u.slots[i] == t.slots[i]
  }

  lemma {:induction false} ClearedHalf(t: Table, level: nat)
    ensures HalfCleared(t, Cleared(t, level), level)
    decreases level
  {
    forall i | 0 <= i < |t.slots| && level > 1 && Descends(t.slots[i], level, i)
      ensures HalfCleared(t.slots[i].sub, Cleared(t, level).slots[i].sub, level - 1)
    {
      ClearedHalf(t.slots[i].sub, level - 1);
    }
  }

  lemma {:induction false} SameHalf(t: Table, level: nat)
    ensures HalfCleared(t, t, level)
    decreases level
  {
    forall i | 0 <= i < |t.slots| && level > 1 && Descends(t.slots[i], level, i)
      ensures HalfCleared(t.slots[i].sub, t.slots[i].sub, level - 1)
    {
      SameHalf(t.slots[i].sub, level - 1);
    }
  }

  lemma PartialHalf(t: Table, level: nat, i: nat)
    requires i <= |t.slots|
    ensures HalfCleared(t, Partial(t, level, i), level)
  {
    var p := Partial(t, level, i);
    forall j | 0 <= j < |t.slots| && level > 1 && Descends(t.slots[j], level, j)
      ensures HalfCleared(t.slots[j].sub, p.slots[j].sub, level - 1)
    {
      ClearedHalf(t.slots[j].sub, level - 1);
      SameHalf(t.slots[j].sub, level - 1);
    }
  }

  /** Each translation is as it was, or less the permission to write. */
  lemma {:induction false} HalfLookup(t: Table, u: Table, path: seq<Index>)
    requires WellFormed(t, |path|) && PathOk(path) && HalfCleared(t, u, |path|)
    ensures Lookup(u, path) == Lookup(t, path) || Lookup(u, path) == Dim(Lookup(t, path))
    ensures |path| == 4 && path[0] == KERNEL ==> Lookup(u, path) == Lookup(t, path)
    decreases path
  {
    if |path| > 1 && Descends(t.slots[path[0]], |path|, path[0]) {
      HalfLookup(t.slots[path[0]].sub, u.slots[path[0]].sub, path[1..]);
    }
  }

  lemma {:induction false} HalfShape(t: Table, u: Table, level: nat)
    requires WellFormed(t, level) && HalfCleared(t, u, level)
    ensures WellFormed(u, level) && Frames(u) == Frames(t)
    decreases level
  {
    forall i | 0 <= i < ENTRIES && Descends(t.slots[i], level, i)
      ensures WellFormed(u.slots[i].sub, level - 1) && Frames(u.slots[i].sub) == Frames(t.slots[i].sub)
      ensures u.slots[i].sub.frame == t.slots[i].sub.frame
    {
      HalfShape(t.slots[i].sub, u.slots[i].sub, level - 1);
    }
    forall i | 0 <= i < ENTRIES ensures SlotFrames(u.slots[i]) == SlotFrames(t.slots[i]) {
    }
    SameSlotFrames(t, u);
  }

  /** No count is lowered and no flag dropped. */
  ghost predicate DescsGrow(d: Descs, d': Descs) {
    d'.Keys == d.Keys && forall f :: f in d ==> d[f].refcount <= d'[f].refcount && (d[f].cow ==> d'[f].cow)
  }

  /** What a fork of table `t` into page `dst` has done when it gives up. */
  ghost predicate GaveUp(s: Store, s': Store, t: Table, u: Table, dst: Frame, level: nat) {
    && HalfCleared(t, u, level) && Holds(s'.mem, u)
    && SameOutside(s.mem, s'.mem, Frames(t) + {dst} + Taken(s.pool, |s.pool|))
    && |s'.pool| <= |s.pool| && s'.pool == s.pool[|s.pool| - |s'.pool|..]
    && DescsGrow(s.desc, s'.desc)
  }

  /** Between two slots. */
  lemma GaveUpBetween(s: Store, s': Store, t: Table, d: Table, level: nat, i: nat)
    requires ForkedTo(s, s', t, d, level, i)
    ensures GaveUp(s, s', t, Partial(t, level, i), d.frame, level)
  {
    hide IsFrame, Decode, Frames, Count, Tables, WellFormed, CopiedTo, Holds, Separate, HalfCleared;
    PartialHalf(t, level, i);
    var n := Tables(t.slots[..i], level);
    assert Taken(s.pool, n) <= Taken(s.pool, |s.pool|);
  }

  /** At a page without a descriptor, its entry already written in both tables. */
  lemma GaveUpAtLeaf(s: Store, s': Store, t: Table, d: Table, dst: Frame, i: nat, w: bv64)
    requires ForkPre(s, t, dst, 1) && i < ENTRIES && ForkedTo(s, s', t, d, 1, i) && d.frame == dst
    requires Decode(w) == Dim(t.slots[i].e)
    ensures t.frame in s'.mem && dst in s'.mem && |s'.mem[t.frame]| == |s'.mem[dst]| == ENTRIES && t.frame != dst
    ensures GaveUp(s, s'.(mem := s'.mem[t.frame := s'.mem[t.frame][i := w]][dst := s'.mem[dst][i := w]]), t,
                   Partial(t, 1, i + 1), dst, 1)
  {
    hide IsFrame, Decode, Holds, Separate, Frames, Count, Tables, WellFormed, CopyOf, ForkDesc, Described, HalfCleared, DescsGrow;
    TreesApart(s, s', t, d, dst, 1, i);
    GaveUpBetween(s, s', t, d, 1, i);
    PartialNext(t, 1, i);
    StoreOne(s'.mem, Partial(t, 1, i), d, i, w);
    var m := s'.mem[t.frame := s'.mem[t.frame][i := w]];
    PartialShape(t, 1, i);
    PartialShape(t, 1, i + 1);
    StoreOne(m, d, Partial(t, 1, i + 1), i, w);
    PartialHalf(t, 1, i + 1);
    AtFrame(t, []);
    assert m[dst] == s'.mem[dst];
  }

  lemma GrowTwice(a: Descs, b: Descs, c: Descs)
    requires DescsGrow(a, b) && DescsGrow(b, c)
    ensures DescsGrow(a, c)
  {
  }

  lemma ClaimGrows(d: Descs, pool: seq<Frame>, n: nat)
    requires n <= |pool|
    ensures DescsGrow(d, Claimed(d, pool, n))
  {
  }

  lemma SuffixTaken(pool: seq<Frame>, rest: seq<Frame>)
    requires |rest| <= |pool| && rest == pool[|pool| - |rest|..]
    ensures Taken(rest, |rest|) <= Taken(pool, |pool|)
    ensures rest != [] ==> rest[0] in Taken(pool, |pool|) && Taken(rest[1..], |rest| - 1) <= Taken(pool, |pool|)
  {
    forall f | f in Taken(rest, |rest|) ensures f in Taken(pool, |pool|) {
      var k :| 0 <= k < |rest| && rest[k] == f;
      assert pool[|pool| - |rest| + k] == f;
    }
    if rest != [] {
      assert rest[0] in Taken(rest, |rest|);
      forall f | f in Taken(rest[1..], |rest| - 1) ensures f in Taken(pool, |pool|) {
        var k :| 0 <= k < |rest| - 1 && rest[1..][k] == f;
        assert rest[k+1] == f && f in Taken(rest, |rest|);
      }
    }
  }

  /** Below this table. */
  lemma GaveUpBelow(s: Store, s': Store, s2: Store, t: Table, d: Table, u: Table, dst: Frame, level: nat, i: nat, w: bv64)
    requires ForkPre(s, t, dst, level) && i < ENTRIES && ForkedTo(s, s', t, d, level, i) && d.frame == dst
    requires t.slots[i].Link? && Descends(t.slots[i], level, i) && s'.pool != []
    requires dst in s'.mem && |s'.mem[dst]| == ENTRIES
    requires GaveUp(Linking(s', dst, i, w), s2, t.slots[i].sub, u, s'.pool[0], level - 1)
    ensures var p := Partial(t, level, i);
            GaveUp(s, s2, t, p.(slots := p.slots[i := Link(t.slots[i].e, u)]), dst, level)
  {
    hide IsFrame, Decode, Frames, Count, Tables, WellFormed, CopyOf, Described, CopiedTo, Holds, Separate, ForkDesc, HalfCleared, DescsGrow;
    hide SameOutside, Partial, Accounted, Claimed;
    BelowMemory(s, s', s2, t, d, u, dst, level, i, w);
    var s1, p := Linking(s', dst, i, w), Partial(t, level, i);
    GaveUpBetween(s, s', t, d, level, i);
    ClaimGrows(s'.desc, s'.pool, 1);
    GrowTwice(s'.desc, s1.desc, s2.desc);
    GrowTwice(s.desc, s'.desc, s2.desc);
    HalfNext(t, p, u, level, i);
  }

  lemma HalfNext(t: Table, p: Table, u: Table, level: nat, i: nat)
    requires i < |t.slots| && HalfCleared(t, p, level) && Descends(t.slots[i], level, i)
    requires HalfCleared(t.slots[i].sub, u, level - 1)
    ensures HalfCleared(t, p.(slots := p.slots[i := Link(t.slots[i].e, u)]), level)
  {
  }

  lemma BelowMemory(s: Store, s': Store, s2: Store, t: Table, d: Table, u: Table, dst: Frame, level: nat, i: nat, w: bv64)
    requires ForkPre(s, t, dst, level) && i < ENTRIES && ForkedTo(s, s', t, d, level, i) && d.frame == dst
    requires t.slots[i].Link? && s'.pool != [] && dst in s'.mem && |s'.mem[dst]| == ENTRIES
    requires GaveUp(Linking(s', dst, i, w), s2, t.slots[i].sub, u, s'.pool[0], level - 1)
    ensures var p := Partial(t, level, i); i < |p.slots| && Holds(s2.mem, p.(slots := p.slots[i := Link(t.slots[i].e, u)]))
    ensures SameOutside(s.mem, s2.mem, Frames(t) + {dst} + Taken(s.pool, |s.pool|))
    ensures |s2.pool| <= |s.pool| && s2.pool == s.pool[|s.pool| - |s2.pool|..]
  {
    hide IsFrame, Decode, Frames, Count, Tables, WellFormed, CopyOf, Described, Separate, ForkDesc, HalfCleared, DescsGrow;
    var s1, sub, p := Linking(s', dst, i, w), t.slots[i].sub, Partial(t, level, i);
    TreesApart(s, s', t, d, dst, level, i);
    PoolUntouched(s, s', t, d, dst, level, i);
    PartialNext(t, level, i);
    PartialShape(t, level, i);
    StoreOne(s'.mem, d, p, i, w);
    GaveUpBetween(s, s', t, d, level, i);
    SuffixTaken(s.pool, s'.pool);
    var x := {s'.pool[0]} + Taken(s1.pool, |s1.pool|);
    PoolApart(s'.pool, Frames(t) + {dst});
    HoldsSubtree(s1.mem, s2.mem, p, i, u, x);
    SlotFramesInTable(t, i);
  }

  lemma PoolApart(pool: seq<Frame>, used: set<Frame>)
    requires Supply(pool, used) && pool != []
    ensures ({pool[0]} + Taken(pool[1..], |pool| - 1)) !! used
  {
    hide IsFrame;
  }

  // ---------- the whole address space ----------

  /** What a fork of the address space leaves when it fails: `u` in place of `t`. */
  ghost predicate SpaceKept(s: Store, s': Store, t: Table, u: Table) {
    && HalfCleared(t, u, 4) && Holds(s'.mem, u)
    && SameOutside(s.mem, s'.mem, Frames(t) + Taken(s.pool, |s.pool|))
    && |s'.pool| <= |s.pool| && s'.pool == s.pool[|s.pool| - |s'.pool|..]
    && DescsGrow(s.desc, s'.desc)
  }

  lemma HalfRoot(t: Table, u: Table)
    requires |t.slots| == ENTRIES && HalfCleared(Shallow(t), u, 4)
    ensures KERNEL < |u.slots| == |t.slots| && HalfCleared(t, u.(slots := u.slots[KERNEL := t.slots[KERNEL]]), 4)
    ensures u.slots[KERNEL].e == t.slots[KERNEL].e
  {
  }

  lemma RootKept(s: Store, s1: Store, s': Store, t: Table, u: Table)
    requires Represents(s.mem, s.pool, t) && RootMade(s, s1) && GaveUp(s1, s', Shallow(t), u, s.pool[0], 4)
    requires |t.slots| == |u.slots| == ENTRIES && u.slots[KERNEL].e == t.slots[KERNEL].e
    ensures Holds(s'.mem, u.(slots := u.slots[KERNEL := t.slots[KERNEL]]))
    ensures SameOutside(s.mem, s'.mem, Frames(t) + Taken(s.pool, |s.pool|))
  {
    hide IsFrame, Separate, Frames, Decode, Claimed, HalfCleared, DescsGrow, WellFormed;
    var k := t.slots[KERNEL];
    ShallowShape(t);
    HoldsFrame(s.mem, s1.mem, t);
    SuffixTaken(s.pool, s.pool);
    PoolApart(s.pool, Frames(t));
    if k.Link? {
      SlotFramesInTable(t, KERNEL);
      HoldsFrame(s1.mem, s'.mem, k.sub);
    }
    hide Holds;
    KernelHolds(s'.mem, u, k);
  }

  lemma RootGaveUp(s: Store, s1: Store, s': Store, t: Table, u: Table)
    requires Represents(s.mem, s.pool, t) && RootMade(s, s1) && |t.slots| == ENTRIES
    requires GaveUp(s1, s', Shallow(t), u, s.pool[0], 4)
    ensures KERNEL < |u.slots| == |t.slots| && SpaceKept(s, s', t, u.(slots := u.slots[KERNEL := t.slots[KERNEL]]))
  {
    hide Represents, Frames, Holds, Claimed, HalfCleared, DescsGrow, SameOutside;
    HalfRoot(t, u);
    RootKept(s, s1, s', t, u);
    ClaimGrows(s.desc, s.pool, 1);
    GrowTwice(s.desc, s1.desc, s'.desc);
  }

  /** After a failed fork the process goes on with its memory: each address leads where it
      led before, at most with less permission to write, and kernel addresses exactly. */
  lemma KeptTranslates(s: Store, s': Store, t: Table, u: Table, path: seq<Index>)
    requires Represents(s.mem, s.pool, t) && SpaceKept(s, s', t, u) && |path| == 4 && path[0] != SELF_REF
    ensures var before, after := Walk(s.mem, t.frame, path), Walk(s'.mem, t.frame, path);
            after == before || (path[0] != KERNEL && after == WithoutWrite(before))
    ensures WellFormed(u, 4) && Frames(u) == Frames(t)
  {
    HalfShape(t, u, 4);
    HalfLookup(t, u, path);
    hide WellFormed, Holds, Separate, Frames, SameOutside, Walk, Lookup;
    WalkIsLookup(s.mem, t, path);
    WalkIsLookup(s'.mem, u, path);
  }
}
