/** What a copy-on-write fork does to translation trees: the parent keeps its
    tree with write permission withdrawn from every user page, the child gets
    tables of its own that say the same, and the kernel slot is shared. */
module PageFork {
  import opened PageBits
  import opened PageTree
  import opened PageMemory

  /** A leaf entry as fork leaves it, in the parent and in the child. */
  function Dim(e: Pte): Pte { if e.present then e.(write := false) else e }

  /** Slots fork descends into: lower tables, except the kernel's. */
  predicate Descends(s: Slot, level: nat, i: nat) {
    s.Link? && level > 1 && !(level == 4 && i == KERNEL)
  }

  /** The parent's tree afterwards. */
  ghost function Cleared(t: Table, level: nat): Table
    decreases level
  {
    Table(t.frame, seq(|t.slots|, i requires 0 <= i < |t.slots| =>
      if level <= 1 then Entry(Dim(t.slots[i].e))
      else if Descends(t.slots[i], level, i) then Link(t.slots[i].e, Cleared(t.slots[i].sub, level - 1))
      else t.slots[i]))
  }

  ghost function ClearedSlot(s: Slot, level: nat, i: nat): Slot {
    if level <= 1 then Entry(Dim(s.e))
    else if Descends(s, level, i) then Link(s.e, Cleared(s.sub, level - 1))
    else s
  }

  ghost function ClearedSlots(slots: seq<Slot>, level: nat): seq<Slot> {
    seq(|slots|, i requires 0 <= i < |slots| => ClearedSlot(slots[i], level, i))
  }

  /** How many table pages fork copies below these slots. */
  ghost function Tables(slots: seq<Slot>, level: nat): nat
    decreases level, |slots|
  {
    if slots == [] then 0
    else
      var n := |slots| - 1;
      Tables(slots[..n], level) +
      if Descends(slots[n], level, n) then 1 + Tables(slots[n].sub.slots, level - 1) else 0
  }

  /** How many user pages among these slots are mapped to frame `f`. */
  ghost function Count(slots: seq<Slot>, level: nat, f: Frame): nat
    decreases level, |slots|
  {
    if slots == [] then 0
    else
      var n := |slots| - 1;
      Count(slots[..n], level, f) +
      if level <= 1 then (if slots[n].e.present && slots[n].e.frame == f then 1 else 0)
      else if Descends(slots[n], level, n) then Count(slots[n].sub.slots, level - 1, f)
      else 0
  }

  ghost function CountSlot(s: Slot, level: nat, i: nat, f: Frame): nat {
    if level <= 1 then (if s.e.present && s.e.frame == f then 1 else 0)
    else if Descends(s, level, i) then Count(s.sub.slots, level - 1, f)
    else 0
  }

  ghost function TablesSlot(s: Slot, level: nat, i: nat): nat {
    if Descends(s, level, i) then 1 + Tables(s.sub.slots, level - 1) else 0
  }

  lemma {:induction false} CountSwap(slots: seq<Slot>, level: nat, f: Frame, i: nat, s: Slot)
    requires i < |slots|
    ensures Count(slots[i := s], level, f) + CountSlot(slots[i], level, i, f)
         == Count(slots, level, f) + CountSlot(s, level, i, f)
    decreases |slots|
  {
    var n := |slots| - 1;
    if i < n {
      assert slots[i := s][..n] == slots[..n][i := s];
      CountSwap(slots[..n], level, f, i, s);
    } else {
      assert slots[i := s][..n] == slots[..n];
    }
  }

  lemma {:induction false} TablesSwap(slots: seq<Slot>, level: nat, i: nat, s: Slot)
    requires i < |slots|
    ensures Tables(slots[i := s], level) + TablesSlot(slots[i], level, i)
         == Tables(slots, level) + TablesSlot(s, level, i)
    decreases |slots|
  {
    var n := |slots| - 1;
    if i < n {
      assert slots[i := s][..n] == slots[..n][i := s];
      TablesSwap(slots[..n], level, i, s);
    } else {
      assert slots[i := s][..n] == slots[..n];
    }
  }

  /** Installing an entry at a user path moves exactly one reference. */
  lemma {:induction false} CountPut(t: Table, path: seq<Index>, e: Pte, pool: seq<Frame>, f: Frame)
    requires WellFormed(t, |path|) && PathOk(path) && (|path| == 4 ==> path[0] != KERNEL)
    requires Missing(t, path) <= |pool| && Supply(pool, {})
    ensures Count(Put(t, path, e, pool).slots, |path|, f) + Maps(Lookup(t, path), f)
         == Count(t.slots, |path|, f) + Maps(e, f)
    decreases path, 1
  {
    hide Count, IsFrame;
    var i, p := path[0], Put(t, path, e, pool);
    CountSwap(t.slots, |path|, f, i, p.slots[i]);
    if |path| > 1 {
      if t.slots[i].Link? {
        CountPut(t.slots[i].sub, path[1..], e, pool, f);
      } else {
        CountPutFresh(path[1..], e, pool, f);
      }
    }
  }

  lemma {:induction false} CountPutFresh(path: seq<Index>, e: Pte, pool: seq<Frame>, f: Frame)
    requires 1 <= |path| <= 3 && |path| <= |pool| && Supply(pool, {})
    ensures WellFormed(Empty(pool[0]), |path|) && Missing(Empty(pool[0]), path) <= |pool[1..]|
    ensures Count(Put(Empty(pool[0]), path, e, pool[1..]).slots, |path|, f) == Maps(e, f)
    decreases path, 2
  {
    EmptyTable(pool[0], path);
    CountPut(Empty(pool[0]), path, e, pool[1..], f);
    CountAbsent(Empty(pool[0]).slots, |path|, f);
  }

  ghost function Maps(e: Pte, f: Frame): nat { if e.present && e.frame == f then 1 else 0 }

  lemma {:induction false} CountAbsent(slots: seq<Slot>, level: nat, f: Frame)
    requires forall i :: 0 <= i < |slots| ==> slots[i] == Entry(ABSENT)
    ensures Count(slots, level, f) == 0
    decreases |slots|
  {
    if slots != [] {
      CountAbsent(slots[..|slots|-1], level, f);
    }
  }

  // ---------- the parent ----------

  lemma {:induction false} ClearedShape(t: Table, level: nat)
    requires WellFormed(t, level)
    ensures WellFormed(Cleared(t, level), level) && Cleared(t, level).frame == t.frame
    ensures Frames(Cleared(t, level)) == Frames(t)
    decreases level
  {
    var c := Cleared(t, level);
    forall i | 0 <= i < ENTRIES && Descends(t.slots[i], level, i)
      ensures WellFormed(c.slots[i].sub, level - 1)
      ensures c.slots[i].sub.frame == t.slots[i].sub.frame
      ensures Frames(c.slots[i].sub) == Frames(t.slots[i].sub)
    {
      ClearedShape(t.slots[i].sub, level - 1);
    }
    forall i | 0 <= i < ENTRIES
      ensures SlotFrames(c.slots[i]) == SlotFrames(t.slots[i])
    {
    }
    SameSlotFrames(t, c);
  }

  lemma SameSlotFrames(t: Table, c: Table)
    requires t.frame == c.frame && |t.slots| == |c.slots|
    requires forall i :: 0 <= i < |t.slots| ==> SlotFrames(c.slots[i]) == SlotFrames(t.slots[i])
    ensures Frames(t) == Frames(c)
  {
    forall f | f in Frames(t)
      ensures f in Frames(c)
    {
      if f != t.frame {
        var i :| 0 <= i < |t.slots| && t.slots[i].Link? && f in Frames(t.slots[i].sub);
        assert f in SlotFrames(c.slots[i]);
      }
    }
    forall f | f in Frames(c)
      ensures f in Frames(t)
    {
      if f != t.frame {
        var i :| 0 <= i < |c.slots| && c.slots[i].Link? && f in Frames(c.slots[i].sub);
        assert f in SlotFrames(t.slots[i]);
      }
    }
  }

  lemma {:induction false} ClearedSeparate(t: Table, level: nat)
    requires WellFormed(t, level) && Separate(t)
    ensures Separate(Cleared(t, level))
    decreases level
  {
    var c := Cleared(t, level);
    forall i | 0 <= i < ENTRIES && Descends(t.slots[i], level, i)
      ensures Separate(c.slots[i].sub) && Frames(c.slots[i].sub) == Frames(t.slots[i].sub)
    {
      ClearedSeparate(t.slots[i].sub, level - 1);
      ClearedShape(t.slots[i].sub, level - 1);
    }
    forall i | 0 <= i < ENTRIES
      ensures SlotFrames(c.slots[i]) == SlotFrames(t.slots[i])
    {
    }
  }

  /** In the parent every user translation stays as it was, less the permission
      to write; the kernel's stay entirely. */
  lemma {:induction false} ClearedLookup(t: Table, path: seq<Index>)
    requires WellFormed(t, |path|) && PathOk(path)
    ensures Lookup(Cleared(t, |path|), path) ==
      if |path| == 4 && path[0] == KERNEL then Lookup(t, path) else Dim(Lookup(t, path))
    decreases path
  {
    if |path| > 1 && Descends(t.slots[path[0]], |path|, path[0]) {
      ClearedLookup(t.slots[path[0]].sub, path[1..]);
    }
  }

  lemma {:induction false} ClearedCount(slots: seq<Slot>, level: nat, f: Frame)
    ensures Count(ClearedSlots(slots, level), level, f) == Count(slots, level, f)
    decreases level, |slots|, 0
  {
    var c := ClearedSlots(slots, level);
    if slots != [] {
      var n := |slots| - 1;
      assert c[..n] == ClearedSlots(slots[..n], level);
      ClearedCount(slots[..n], level, f);
      if Descends(slots[n], level, n) {
        ClearedCountTable(slots[n].sub, level - 1, f);
      }
    }
  }

  lemma {:induction false} ClearedCountTable(t: Table, level: nat, f: Frame)
    ensures Count(Cleared(t, level).slots, level, f) == Count(t.slots, level, f)
    decreases level, |t.slots|, 1
  {
    ClearedCount(t.slots, level, f);
    assert Cleared(t, level).slots == ClearedSlots(t.slots, level);
  }

  // ---------- the child ----------

  /** `d` is the copy of `s` made in pages that contained `raw` beforehand: where
      the source has no entry, the old contents of the page remain. */
  ghost predicate CopyOf(raw: Memory, s: Table, d: Table, level: nat)
    decreases level
  {
    && |s.slots| == |d.slots| == ENTRIES
    && d.frame in raw && |raw[d.frame]| == ENTRIES && IsFrame(d.frame)
    && forall i :: 0 <= i < ENTRIES ==>
         if Descends(s.slots[i], level, i) then
           && d.slots[i].Link? && level > 1
           && d.slots[i].e == s.slots[i].e.(frame := d.slots[i].sub.frame)
           && CopyOf(raw, s.slots[i].sub, d.slots[i].sub, level - 1)
         else d.slots[i] == CopiedEntry(s.slots[i].e, level, i, Decode(raw[d.frame][i]))
  }

  /** The slot written for an entry that fork does not descend into. */
  function CopiedEntry(e: Pte, level: nat, i: nat, was: Pte): Slot {
    Entry(if !e.present || (level == 4 && i == SELF_REF) then was
          else if level <= 1 then Dim(e)
          else e)
  }

  /** The pages the copy was made in had no present entry where the source has
      none; zeroed pages are clean. */
  ghost predicate Clean(raw: Memory, s: Table, d: Table, level: nat)
    requires CopyOf(raw, s, d, level)
    decreases level
  {
    forall i :: 0 <= i < ENTRIES ==>
      if Descends(s.slots[i], level, i) then Clean(raw, s.slots[i].sub, d.slots[i].sub, level - 1)
      else !s.slots[i].e.present ==> !Decode(raw[d.frame][i]).present
  }

  /** What the processor can tell about a leaf entry. */
  function Seen(e: Pte): Pte { if e.present then e else ABSENT }

  /** `d` is a table tree that translates every path as `s` does, less writes. */
  ghost predicate Faithful(s: Table, d: Table, level: nat) {
    && WellFormed(d, level)
    && forall path: seq<Index> :: |path| == level ==> Seen(Lookup(d, path)) == Seen(Dim(Lookup(s, path)))
  }

  /** Below the root, the copy is faithful exactly when its pages were clean. */
  lemma {:induction false} CleanFaithful(raw: Memory, s: Table, d: Table, level: nat)
    requires 1 <= level <= 3 && WellFormed(s, level) && CopyOf(raw, s, d, level)
    requires Clean(raw, s, d, level)
    ensures Faithful(s, d, level)
    decreases level
  {
    forall i | 0 <= i < ENTRIES && Descends(s.slots[i], level, i)
      ensures Faithful(s.slots[i].sub, d.slots[i].sub, level - 1)
    {
      CleanFaithful(raw, s.slots[i].sub, d.slots[i].sub, level - 1);
    }
  }

  lemma {:induction false} FaithfulClean(raw: Memory, s: Table, d: Table, level: nat)
    requires 1 <= level <= 3 && WellFormed(s, level) && CopyOf(raw, s, d, level)
    requires Faithful(s, d, level)
    ensures Clean(raw, s, d, level)
    decreases level
  {
    forall i | 0 <= i < ENTRIES
      ensures if Descends(s.slots[i], level, i) then Clean(raw, s.slots[i].sub, d.slots[i].sub, level - 1)
              else !s.slots[i].e.present ==> !Decode(raw[d.frame][i]).present
    {
      if Descends(s.slots[i], level, i) {
        forall p: seq<Index> | |p| == level - 1
          ensures Seen(Lookup(d.slots[i].sub, p)) == Seen(Dim(Lookup(s.slots[i].sub, p)))
        {
          var path: seq<Index> := [i] + p;
          assert path[1..] == p;
          assert Seen(Lookup(d, path)) == Seen(Dim(Lookup(s, path)));
        }
        FaithfulClean(raw, s.slots[i].sub, d.slots[i].sub, level - 1);
      } else if level == 1 {
        var path: seq<Index> := [i];
        assert Seen(Lookup(d, path)) == Seen(Dim(Lookup(s, path)));
      }
    }
  }

  lemma {:induction false} CopyCount(raw: Memory, s: Table, d: Table, level: nat, n: nat, f: Frame)
    requires 1 <= level && CopyOf(raw, s, d, level) && Clean(raw, s, d, level) && n <= ENTRIES
    ensures Count(d.slots[..n], level, f) == Count(s.slots[..n], level, f)
    decreases level, n
  {
    hide Decode, IsFrame;
    if n > 0 {
      CopyCount(raw, s, d, level, n - 1, f);
      CountNext(s.slots, level, n - 1, f);
      CountNext(d.slots, level, n - 1, f);
      hide Count;
      if Descends(s.slots[n-1], level, n - 1) {
        var a, b := s.slots[n-1].sub, d.slots[n-1].sub;
        CopyCount(raw, a, b, level - 1, ENTRIES, f);
        assert a.slots[..ENTRIES] == a.slots && b.slots[..ENTRIES] == b.slots;
      }
    }
  }

  lemma CountNext(slots: seq<Slot>, level: nat, i: nat, f: Frame)
    requires i < |slots|
    ensures Count(slots[..i+1], level, f) == Count(slots[..i], level, f) + CountSlot(slots[i], level, i, f)
  {
    assert slots[..i+1][..i] == slots[..i];
  }

  lemma TablesNext(slots: seq<Slot>, level: nat, i: nat)
    requires i < |slots|
    ensures Tables(slots[..i+1], level) == Tables(slots[..i], level) + TablesSlot(slots[i], level, i)
  {
    assert slots[..i+1][..i] == slots[..i];
  }
}
