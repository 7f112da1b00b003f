/** A four-level translation table seen as a tree: the value that the words of
    physical memory represent. The page-table code is specified by functions on
    this tree, and what the code is for is proved here about those functions. */
module PageTree {
  import opened PageBits

  datatype Slot =
    | Entry(e: Pte)
    | Link(e: Pte, sub: Table)

  datatype Table = Table(frame: Frame, slots: seq<Slot>)

  /** `level` is 4 for a PML4 table and 1 for a page table. */
  ghost predicate WellFormed(t: Table, level: nat)
    decreases level
  {
    && 1 <= level <= 4
    && |t.slots| == ENTRIES
    && IsFrame(t.frame)
    && forall i :: 0 <= i < ENTRIES ==>
         && SlotOk(t.slots[i], t.frame, level, i)
         && (t.slots[i].Link? ==> level > 1 && WellFormed(t.slots[i].sub, level - 1))
  }

  /** Upper-level entries are absent, or present, writable and user-visible
      and point to the table below; slot 256 of the root points back to the root.
      The bits the processor sets, in `rest`, may be any. */
  ghost predicate SlotOk(s: Slot, frame: Frame, level: nat, i: nat) {
    if level == 1 then s.Entry?
    else if level == 4 && i == SELF_REF then s.Entry? && s.e.(rest := 0) == SelfPte(frame)
    else if s.Link? then s.e.present && s.e.write && s.e.user && s.e.frame == s.sub.frame
    else !s.e.present
  }

  function SelfPte(frame: Frame): Pte { Pte(frame, true, true, false, false, 0) }
  function LinkPte(frame: Frame): Pte { Pte(frame, true, true, true, false, 0) }

  /** The table pages a tree is made of. */
  ghost function Frames(t: Table): set<Frame>
  {
    {t.frame} +
    set i: int, f | 0 <= i < |t.slots| && t.slots[i].Link? && f in Frames(t.slots[i].sub) :: f
  }

  ghost function SlotFrames(s: Slot): set<Frame> { if s.Link? then Frames(s.sub) else {} }

  /** No table page is used twice. */
  ghost predicate Separate(t: Table)
  {
    && (forall i :: 0 <= i < |t.slots| && t.slots[i].Link? ==>
          Separate(t.slots[i].sub) && t.frame !in Frames(t.slots[i].sub))
    && (forall i, j :: 0 <= i < j < |t.slots| ==>
          SlotFrames(t.slots[i]) !! SlotFrames(t.slots[j]))
  }

  /** The leaf entry at the end of `path`, absent when an upper level is. */
  function Lookup(t: Table, path: seq<Index>): Pte
    decreases path
  {
    if path == [] || |t.slots| != ENTRIES then ABSENT
    else if |path| == 1 then t.slots[path[0]].e
    else if t.slots[path[0]].Link? then Lookup(t.slots[path[0]].sub, path[1..])
    else ABSENT
  }

  function Empty(frame: Frame): Table { Table(frame, seq(ENTRIES, _ => Entry(ABSENT))) }

  /** A path into the part of the tree the kernel maps pages in: at the root,
      every slot but the self-reference. */
  predicate PathOk(path: seq<Index>) {
    1 <= |path| <= 4 && (|path| == 4 ==> path[0] != SELF_REF)
  }

  /** How many table pages mapping at `path` has to add. */
  function Missing(t: Table, path: seq<Index>): nat
    requires WellFormed(t, |path|)
    decreases path
  {
    if |path| == 1 then 0
    else if t.slots[path[0]].Link? then Missing(t.slots[path[0]].sub, path[1..])
    else |path| - 1
  }

  /** Frames the allocator hands out: genuine, distinct, not page 0, and not in
      `used`. */
  ghost predicate Supply(pool: seq<Frame>, used: set<Frame>) {
    && (forall k :: 0 <= k < |pool| ==>
          IsFrame(pool[k]) && pool[k] != Frame(0) && pool[k] !in used)
    && (forall k, l :: 0 <= k < l < |pool| ==> pool[k] != pool[l])
  }

  /** The tree after entry `e` is installed at `path`, the missing levels being
      taken from `pool` in order. */
  function Put(t: Table, path: seq<Index>, e: Pte, pool: seq<Frame>): Table
    requires WellFormed(t, |path|) && PathOk(path)
    requires Missing(t, path) <= |pool| && Supply(pool, {})
    decreases path
  {
    var i := path[0];
    if |path| == 1 then t.(slots := t.slots[i := Entry(e)])
    else if t.slots[i].Link? then
      t.(slots := t.slots[i := Link(t.slots[i].e, Put(t.slots[i].sub, path[1..], e, pool))])
    else
      EmptyTable(pool[0], path[1..]);
      t.(slots := t.slots[i := Link(LinkPte(pool[0]), Put(Empty(pool[0]), path[1..], e, pool[1..]))])
  }

  lemma EmptyTable(frame: Frame, path: seq<Index>)
    requires 1 <= |path| <= 3 && IsFrame(frame)
    ensures WellFormed(Empty(frame), |path|)
    ensures Missing(Empty(frame), path) == |path| - 1
    ensures Frames(Empty(frame)) == {frame}
    ensures Separate(Empty(frame))
    ensures forall r: seq<Index> :: Lookup(Empty(frame), r) == ABSENT
  {
  }

  // ---------- mapping one page is a map update on the tree ----------

  lemma {:induction false} PutWellFormed(t: Table, path: seq<Index>, e: Pte, pool: seq<Frame>)
    requires WellFormed(t, |path|) && PathOk(path)
    requires Missing(t, path) <= |pool| && Supply(pool, {})
    ensures WellFormed(Put(t, path, e, pool), |path|)
    ensures Put(t, path, e, pool).frame == t.frame
    decreases path
  {
    if |path| > 1 {
      if t.slots[path[0]].Link? {
        PutWellFormed(t.slots[path[0]].sub, path[1..], e, pool);
      } else {
        EmptyTable(pool[0], path[1..]);
        PutWellFormed(Empty(pool[0]), path[1..], e, pool[1..]);
      }
    }
  }

  /** Mapping makes the path translate through `e` and changes no other path. */
  lemma {:induction false} PutLookup(t: Table, path: seq<Index>, e: Pte, pool: seq<Frame>, r: seq<Index>)
    requires WellFormed(t, |path|) && PathOk(path)
    requires Missing(t, path) <= |pool| && Supply(pool, {})
    requires |r| == |path|
    ensures Lookup(Put(t, path, e, pool), r) == if r == path then e else Lookup(t, r)
    decreases path
  {
    if |path| > 1 {
      assert r == path <==> r[0] == path[0] && r[1..] == path[1..];
      if t.slots[path[0]].Link? {
        PutLookup(t.slots[path[0]].sub, path[1..], e, pool, r[1..]);
      } else {
        EmptyTable(pool[0], path[1..]);
        PutLookup(Empty(pool[0]), path[1..], e, pool[1..], r[1..]);
      }
    }
  }

  // ---------- entries above the page tables ----------

  /** How many table pages there are to add before the slot at the end of `w`, which
      may be one of any level. */
  function Gap(t: Table, w: seq<Index>): nat
    decreases w
  {
    if |w| <= 1 || |t.slots| != ENTRIES then 0
    else if t.slots[w[0]].Link? then Gap(t.slots[w[0]].sub, w[1..])
    else |w| - 1
  }

  /** The tree after entry `e` is written to that slot, whatever it is for. Where a
      table was linked, the tree no longer says what is below. */
  function Graft(t: Table, w: seq<Index>, e: Pte, pool: seq<Frame>): Table
    decreases w
  {
    if w == [] || |t.slots| != ENTRIES then t
    else if |w| == 1 then t.(slots := t.slots[w[0] := Entry(e)])
    else if t.slots[w[0]].Link? then
      t.(slots := t.slots[w[0] := Link(t.slots[w[0]].e, Graft(t.slots[w[0]].sub, w[1..], e, pool))])
    else if pool == [] then t
    else t.(slots := t.slots[w[0] := Link(LinkPte(pool[0]), Graft(Empty(pool[0]), w[1..], e, pool[1..]))])
  }

  /** A present entry written where a table is to be linked leaves no well-formed tree. */
  lemma {:induction false} GraftUnshaped(t: Table, level: nat, w: seq<Index>, e: Pte, pool: seq<Frame>)
    requires WellFormed(t, level) && 1 <= |w| < level && e.present && Gap(t, w) <= |pool| && Supply(pool, {})
    requires level == 4 && w[0] == SELF_REF ==> |w| == 1 && e.(rest := 0) != SelfPte(t.frame)
    ensures !WellFormed(Graft(t, w, e, pool), level)
    decreases w
  {
    var g := Graft(t, w, e, pool);
    if |w| == 1 {
      assert !SlotOk(g.slots[w[0]], t.frame, level, w[0]);
    } else if t.slots[w[0]].Link? {
      GraftUnshaped(t.slots[w[0]].sub, level - 1, w[1..], e, pool);
      assert !WellFormed(g.slots[w[0]].sub, level - 1);
    } else {
      EmptyTable(pool[0], [0, 0, 0][..level - 1]);
      GapEmpty(pool[0], w[1..]);
      GraftUnshaped(Empty(pool[0]), level - 1, w[1..], e, pool[1..]);
      assert !WellFormed(g.slots[w[0]].sub, level - 1);
    }
  }

  /** A present entry has all its tables. */
  lemma {:induction false} PresentNoGap(t: Table, w: seq<Index>)
    requires Lookup(t, w).present
    ensures Gap(t, w) == 0
    decreases w
  {
    if |w| > 1 {
      PresentNoGap(t.slots[w[0]].sub, w[1..]);
    }
  }

  lemma {:induction false} GraftNoPool(t: Table, w: seq<Index>, e: Pte, pool: seq<Frame>)
    requires Gap(t, w) == 0
    ensures Graft(t, w, e, pool) == Graft(t, w, e, [])
    decreases w
  {
    if |w| > 1 && |t.slots| == ENTRIES {
      GraftNoPool(t.slots[w[0]].sub, w[1..], e, pool);
    }
  }

  lemma GapEmpty(f: Frame, w: seq<Index>)
    requires |w| >= 1
    ensures Gap(Empty(f), w) == |w| - 1
  {
  }

  /** A second mapping of the same page replaces the first. */
  lemma {:induction false} PutTwice(t: Table, path: seq<Index>, e: Pte, e': Pte, pool: seq<Frame>, rest: seq<Frame>)
    requires WellFormed(t, |path|) && PathOk(path) && Missing(t, path) <= |pool| && Supply(pool, {}) && Supply(rest, {})
    ensures WellFormed(Put(t, path, e, pool), |path|) && Missing(Put(t, path, e, pool), path) == 0
    ensures Put(Put(t, path, e, pool), path, e', rest) == Put(t, path, e', pool)
    decreases path
  {
    PutWellFormed(t, path, e, pool);
    if |path| > 1 {
      if t.slots[path[0]].Link? {
        PutTwice(t.slots[path[0]].sub, path[1..], e, e', pool, rest);
      } else {
        EmptyTable(pool[0], path[1..]);
        PutTwice(Empty(pool[0]), path[1..], e, e', pool[1..], rest);
      }
    }
  }

  /** A page that needs no table takes nothing from the pool. */
  lemma {:induction false} PutNoPool(t: Table, path: seq<Index>, e: Pte, pool: seq<Frame>)
    requires WellFormed(t, |path|) && PathOk(path) && Missing(t, path) == 0 && Supply(pool, {})
    ensures Put(t, path, e, pool) == Put(t, path, e, [])
    decreases path
  {
    if |path| > 1 {
      PutNoPool(t.slots[path[0]].sub, path[1..], e, pool);
    }
  }

  function Taken(pool: seq<Frame>, n: nat): set<Frame>
    requires n <= |pool|
  {
    set k | 0 <= k < n :: pool[k]
  }

  lemma {:induction false} PutFrames(t: Table, path: seq<Index>, e: Pte, pool: seq<Frame>)
    requires WellFormed(t, |path|) && PathOk(path)
    requires Missing(t, path) <= |pool| && Supply(pool, {})
    ensures Frames(Put(t, path, e, pool)) == Frames(t) + Taken(pool, Missing(t, path))
    decreases path
  {
    var p := Put(t, path, e, pool);
    if |path| > 1 {
      var i := path[0];
      if t.slots[i].Link? {
        PutFrames(t.slots[i].sub, path[1..], e, pool);
      } else {
        EmptyTable(pool[0], path[1..]);
        PutFrames(Empty(pool[0]), path[1..], e, pool[1..]);
        assert Taken(pool, |path| - 1) == {pool[0]} + Taken(pool[1..], |path| - 2);
      }
      SwapFrames(t, i, p.slots[i]);
    } else {
      SwapFrames(t, path[0], Entry(e));
    }
  }

  lemma SlotFramesInTable(t: Table, i: nat)
    requires i < |t.slots|
    ensures SlotFrames(t.slots[i]) <= Frames(t)
  {
  }

  lemma SwapFrames(t: Table, i: Index, s: Slot)
    requires |t.slots| == ENTRIES
    requires SlotFrames(t.slots[i]) <= SlotFrames(s)
    ensures Frames(t.(slots := t.slots[i := s])) == Frames(t) + SlotFrames(s)
  {
    var u := t.(slots := t.slots[i := s]);
    forall f | f in Frames(t) + SlotFrames(s)
      ensures f in Frames(u)
    {
      if f in SlotFrames(s) {
        SlotFramesInTable(u, i);
      } else if f != t.frame {
        var j :| 0 <= j < |t.slots| && t.slots[j].Link? && f in Frames(t.slots[j].sub);
        assert u.slots[j] == t.slots[j];
      }
    }
    forall f | f in Frames(u)
      ensures f in Frames(t) + SlotFrames(s)
    {
      if f != u.frame {
        var j :| 0 <= j < |u.slots| && u.slots[j].Link? && f in Frames(u.slots[j].sub);
        assert j != i ==> u.slots[j] == t.slots[j];
      }
    }
  }

  /** The tree keeps its shape when up to three fresh levels are inserted. */
  lemma {:induction false} PutSeparate(t: Table, path: seq<Index>, e: Pte, pool: seq<Frame>)
    requires WellFormed(t, |path|) && PathOk(path) && Separate(t)
    requires Missing(t, path) <= |pool| && Supply(pool, Frames(t))
    ensures Separate(Put(t, path, e, pool))
    decreases path, 1
  {
    var i := path[0];
    var s := Put(t, path, e, pool).slots[i];
    if |path| > 1 {
      SlotFramesInTable(t, i);
      if t.slots[i].Link? {
        PutSeparate(t.slots[i].sub, path[1..], e, pool);
        PutFrames(t.slots[i].sub, path[1..], e, pool);
      } else {
        PutSeparateFresh(path[1..], e, pool);
      }
    }
    SwapSeparate(t, i, s, Taken(pool, |pool|));
  }

  /** The branch of `PutSeparate` in which everything below is new. */
  lemma {:induction false} PutSeparateFresh(path: seq<Index>, e: Pte, pool: seq<Frame>)
    requires 1 <= |path| <= 3 && |path| <= |pool| && Supply(pool, {})
    ensures WellFormed(Empty(pool[0]), |path|) && Missing(Empty(pool[0]), path) <= |pool[1..]|
    ensures Separate(Put(Empty(pool[0]), path, e, pool[1..]))
    ensures Frames(Put(Empty(pool[0]), path, e, pool[1..])) <= Taken(pool, |pool|)
    decreases path, 2
  {
    EmptyTable(pool[0], path);
    PutSeparate(Empty(pool[0]), path, e, pool[1..]);
    PutFrames(Empty(pool[0]), path, e, pool[1..]);
  }

  lemma SwapSeparate(t: Table, i: Index, s: Slot, extra: set<Frame>)
    requires |t.slots| == ENTRIES && Separate(t) && extra !! Frames(t)
    requires s.Link? ==> Separate(s.sub)
    requires SlotFrames(s) <= SlotFrames(t.slots[i]) + extra
    ensures Separate(t.(slots := t.slots[i := s]))
  {
    var u := t.(slots := t.slots[i := s]);
    assert t.frame !in SlotFrames(s);
    forall j | 0 <= j < |u.slots| && j != i
      ensures SlotFrames(u.slots[j]) !! SlotFrames(s)
    {
      SlotFramesInTable(t, j);
      assert SlotFrames(t.slots[j]) !! SlotFrames(t.slots[i]);
    }
  }

  // ---------- one store into one table ----------

  ghost predicate Reaches(t: Table, q: seq<Index>)
    decreases q
  {
    |t.slots| == ENTRIES &&
    (q != [] ==> t.slots[q[0]].Link? && Reaches(t.slots[q[0]].sub, q[1..]))
  }

  ghost function At(t: Table, q: seq<Index>): (r: Table)
    requires Reaches(t, q)
    ensures |r.slots| == ENTRIES
    decreases q
  {
    if q == [] then t else At(t.slots[q[0]].sub, q[1..])
  }

  ghost function SetSlot(t: Table, q: seq<Index>, i: Index, s: Slot): Table
    requires Reaches(t, q)
    decreases q
  {
    if q == [] then t.(slots := t.slots[i := s])
    else
      var l := t.slots[q[0]];
      t.(slots := t.slots[q[0] := Link(l.e, SetSlot(l.sub, q[1..], i, s))])
  }

  /** The tree after an empty table is hooked in at depth `d` of the path. */
  ghost function Open(t: Table, path: seq<Index>, d: nat, frame: Frame): Table
    requires d < |path| && Reaches(t, path[..d])
  {
    SetSlot(t, path[..d], path[d], Link(LinkPte(frame), Empty(frame)))
  }

  lemma SwapWellFormed(t: Table, level: nat, i: Index, s: Slot)
    requires WellFormed(t, level) && SlotOk(s, t.frame, level, i)
    requires s.Link? ==> level > 1 && WellFormed(s.sub, level - 1)
    ensures WellFormed(t.(slots := t.slots[i := s]), level)
  {
  }

  lemma {:induction false} MissingAt(t: Table, path: seq<Index>, d: nat)
    requires WellFormed(t, |path|) && d < |path| - 1
    requires Reaches(t, path[..d]) && At(t, path[..d]).slots[path[d]].Entry?
    ensures Missing(t, path) == |path| - 1 - d
    decreases path
  {
    if d > 0 {
      assert path[..d][1..] == path[1..][..d-1];
      MissingAt(t.slots[path[0]].sub, path[1..], d - 1);
    }
  }

  lemma {:induction false} OpenShape(t: Table, path: seq<Index>, d: nat, frame: Frame)
    requires WellFormed(t, |path|) && PathOk(path) && d < |path| - 1 && IsFrame(frame)
    requires Reaches(t, path[..d]) && At(t, path[..d]).slots[path[d]].Entry?
    ensures WellFormed(Open(t, path, d, frame), |path|)
    ensures Open(t, path, d, frame).frame == t.frame
    ensures Missing(Open(t, path, d, frame), path) == |path| - 2 - d
    decreases path
  {
    if d == 0 {
      EmptyTable(frame, path[1..]);
      SwapWellFormed(t, |path|, path[0], Link(LinkPte(frame), Empty(frame)));
    } else {
      assert path[..d][1..] == path[1..][..d-1];
      var l := t.slots[path[0]];
      OpenShape(l.sub, path[1..], d - 1, frame);
      SwapWellFormed(t, |path|, path[0], Link(l.e, Open(l.sub, path[1..], d - 1, frame)));
    }
  }

  lemma {:induction false} OpenReaches(t: Table, path: seq<Index>, d: nat, frame: Frame)
    requires d < |path| && Reaches(t, path[..d])
    ensures Reaches(Open(t, path, d, frame), path[..d+1])
    ensures At(Open(t, path, d, frame), path[..d+1]) == Empty(frame)
    decreases path
  {
    if d > 0 {
      assert path[..d][1..] == path[1..][..d-1] && path[..d+1][1..] == path[1..][..d];
      OpenReaches(t.slots[path[0]].sub, path[1..], d - 1, frame);
    }
  }

  /** Hooking an empty table into the path leaves the result of `Put` as it was. */
  lemma {:induction false} PutOpen(t: Table, path: seq<Index>, d: nat, e: Pte, pool: seq<Frame>)
    requires WellFormed(t, |path|) && PathOk(path) && d < |path| - 1
    requires Reaches(t, path[..d]) && At(t, path[..d]).slots[path[d]].Entry?
    requires 0 < Missing(t, path) <= |pool| && Supply(pool, {})
    ensures WellFormed(Open(t, path, d, pool[0]), |path|)
    ensures Missing(Open(t, path, d, pool[0]), path) <= |pool[1..]|
    ensures Put(Open(t, path, d, pool[0]), path, e, pool[1..]) == Put(t, path, e, pool)
    decreases path
  {
    MissingAt(t, path, d);
    OpenShape(t, path, d, pool[0]);
    if d > 0 {
      assert path[..d][1..] == path[1..][..d-1];
      PutOpen(t.slots[path[0]].sub, path[1..], d - 1, e, pool);
    }
  }

  /** Once all levels exist, `Put` is a store into the page table. */
  lemma {:induction false} PutLast(t: Table, path: seq<Index>, e: Pte, pool: seq<Frame>)
    requires WellFormed(t, |path|) && PathOk(path) && Supply(pool, {})
    requires Reaches(t, path[..|path|-1])
    ensures Missing(t, path) == 0
    ensures Put(t, path, e, pool) == SetSlot(t, path[..|path|-1], path[|path|-1], Entry(e))
    ensures Lookup(t, path) == At(t, path[..|path|-1]).slots[path[|path|-1]].e
    decreases path
  {
    var n := |path| - 1;
    if n > 0 {
      assert path[..n][1..] == path[1..][..n-1];
      PutLast(t.slots[path[0]].sub, path[1..], e, pool);
    }
  }

  lemma {:induction false} AtFrame(t: Table, q: seq<Index>)
    requires Reaches(t, q)
    ensures At(t, q).frame in Frames(t)
    decreases q
  {
    if q != [] {
      AtFrame(t.slots[q[0]].sub, q[1..]);
    }
  }

  lemma {:induction false} OpenFrames(t: Table, path: seq<Index>, d: nat, frame: Frame)
    requires d < |path| && Reaches(t, path[..d]) && At(t, path[..d]).slots[path[d]].Entry?
    requires IsFrame(frame)
    ensures Frames(Open(t, path, d, frame)) == Frames(t) + {frame}
    decreases path
  {
    var s := Open(t, path, d, frame).slots[path[0]];
    if d == 0 {
      EmptyTable(frame, [0]);
    } else {
      assert path[..d][1..] == path[1..][..d-1];
      OpenFrames(t.slots[path[0]].sub, path[1..], d - 1, frame);
      SlotFramesInTable(t, path[0]);
    }
    SwapFrames(t, path[0], s);
  }

  lemma {:induction false} OpenSeparate(t: Table, path: seq<Index>, d: nat, frame: Frame)
    requires d < |path| && Reaches(t, path[..d]) && At(t, path[..d]).slots[path[d]].Entry?
    requires Separate(t) && frame !in Frames(t) && IsFrame(frame)
    ensures Separate(Open(t, path, d, frame))
    decreases path
  {
    var s := Open(t, path, d, frame).slots[path[0]];
    if d == 0 {
      EmptyTable(frame, [0]);
    } else {
      assert path[..d][1..] == path[1..][..d-1];
      SlotFramesInTable(t, path[0]);
      OpenSeparate(t.slots[path[0]].sub, path[1..], d - 1, frame);
      OpenFrames(t.slots[path[0]].sub, path[1..], d - 1, frame);
    }
    SwapSeparate(t, path[0], s, {frame});
  }

  lemma {:induction false} WellFormedAt(t: Table, level: nat, q: seq<Index>)
    requires WellFormed(t, level) && Reaches(t, q) && |q| < level
    ensures WellFormed(At(t, q), level - |q|)
    decreases q
  {
    if q != [] {
      WellFormedAt(t.slots[q[0]].sub, level - 1, q[1..]);
    }
  }

  lemma {:induction false} ReachesBelow(t: Table, path: seq<Index>, d: nat)
    requires d < |path| && Reaches(t, path[..d]) && At(t, path[..d]).slots[path[d]].Link?
    requires |At(t, path[..d]).slots[path[d]].sub.slots| == ENTRIES
    ensures Reaches(t, path[..d+1])
    ensures At(t, path[..d+1]) == At(t, path[..d]).slots[path[d]].sub
    decreases path
  {
    if d > 0 {
      assert path[..d][1..] == path[1..][..d-1] && path[..d+1][1..] == path[1..][..d];
      ReachesBelow(t.slots[path[0]].sub, path[1..], d - 1);
    }
  }

  // ---------- window addresses ----------

  /** The slot that a window address leads to, from the root. */
  function Unwind(path: seq<Index>): seq<Index> {
    if |path| > 1 && path[0] == SELF_REF then Unwind(path[1..]) else path
  }

  lemma {:induction false} UnwindFacts(path: seq<Index>)
    requires path != []
    ensures var w := Unwind(path); 1 <= |w| <= |path| && (w[0] == SELF_REF ==> |w| == 1)
    ensures |path| > 1 && path[0] == SELF_REF ==> |Unwind(path)| < |path|
    decreases path
  {
    if |path| > 1 && path[0] == SELF_REF {
      UnwindFacts(path[1..]);
    }
  }

  /** One more index leads one slot further. */
  lemma {:induction false} UnwindMore(q: seq<Index>, j: Index)
    requires q != []
    ensures Unwind(q + [j]) == if Unwind(q) == [SELF_REF] then [j] else Unwind(q) + [j]
    decreases q
  {
    if q[0] == SELF_REF {
      assert (q + [j])[1..] == q[1..] + [j];
      if |q| > 1 {
        UnwindMore(q[1..], j);
      }
    }
  }

  /** Writing the slot below a table that is there. */
  lemma {:induction false} GraftIsSet(t: Table, q: seq<Index>, j: Index, e: Pte)
    requires Reaches(t, q)
    ensures Graft(t, q + [j], e, []) == SetSlot(t, q, j, Entry(e)) && Lookup(t, q + [j]) == At(t, q).slots[j].e
    decreases q
  {
    if q == [] {
      assert q + [j] == [j];
    } else {
      assert (q + [j])[1..] == q[1..] + [j];
      GraftIsSet(t.slots[q[0]].sub, q[1..], j, e);
    }
  }

  /** A present entry above the page tables is a link to a table. */
  lemma {:induction false} PresentReaches(t: Table, level: nat, q: seq<Index>)
    requires WellFormed(t, level) && 1 <= |q| < level && Lookup(t, q).present
    requires level == 4 ==> q[0] != SELF_REF
    ensures Reaches(t, q) && At(t, q).frame == Lookup(t, q).frame
    decreases q
  {
    if |q| > 1 {
      PresentReaches(t.slots[q[0]].sub, level - 1, q[1..]);
    }
  }

  /** Below an entry that is not there nothing is. */
  lemma {:induction false} AbsentBelow(t: Table, level: nat, q: seq<Index>, j: Index)
    requires WellFormed(t, level) && 1 <= |q| < level && !Lookup(t, q).present
    requires level == 4 ==> q[0] != SELF_REF
    ensures !Lookup(t, q + [j]).present
    decreases q
  {
    assert (q + [j])[1..] == q[1..] + [j];
    if |q| > 1 && t.slots[q[0]].Link? {
      AbsentBelow(t.slots[q[0]].sub, level - 1, q[1..], j);
    }
  }

  /** The same for window addresses, one level after the other. */
  lemma WindowAbsent(t: Table, q: seq<Index>, j: Index)
    requires WellFormed(t, 4) && 1 <= |q| <= 3 && !Lookup(t, Unwind(q)).present
    ensures !Lookup(t, Unwind(q + [j])).present
  {
    UnwindMore(q, j);
    UnwindFacts(q);
    RootPresent(t);
    AbsentBelow(t, 4, Unwind(q), j);
  }

  lemma RootPresent(t: Table)
    requires WellFormed(t, 4)
    ensures Lookup(t, [SELF_REF]) == t.slots[SELF_REF].e && t.slots[SELF_REF].e.present
  {
  }

  /** The slots that the four reads at a window address lead to, each below the one
      before. */
  lemma WindowSlots(t: Table, p: seq<Index>)
    requires WellFormed(t, 4) && |p| == 4 && p[0] == SELF_REF
    ensures Unwind([SELF_REF, SELF_REF, SELF_REF, SELF_REF]) == [SELF_REF] && Lookup(t, [SELF_REF]).present
    ensures !Lookup(t, Unwind([SELF_REF, SELF_REF, SELF_REF, p[1]])).present ==>
      !Lookup(t, Unwind([SELF_REF, SELF_REF, p[1], p[2]])).present
    ensures !Lookup(t, Unwind([SELF_REF, SELF_REF, p[1], p[2]])).present ==> !Lookup(t, Unwind(p)).present
  {
    hide Lookup, WellFormed;
    RootPresent(t);
    var a: seq<Index>, b: seq<Index>, c: seq<Index> :=
      [SELF_REF, SELF_REF, SELF_REF, p[1]], [SELF_REF, SELF_REF, p[1], p[2]], [SELF_REF, SELF_REF, SELF_REF, SELF_REF];
    assert a[1..][1..] == [SELF_REF, p[1]] && Unwind(a) == Unwind(a[1..]) == Unwind(a[1..][1..]);
    assert b[1..] == [SELF_REF, p[1]] + [p[2]] && Unwind(b) == Unwind(b[1..]);
    assert p == [SELF_REF, p[1], p[2]] + [p[3]] && b[1..] == [SELF_REF, p[1], p[2]];
    assert c[1..][1..][1..] == [SELF_REF] && Unwind(c) == Unwind(c[1..]) == Unwind(c[1..][1..]) == Unwind(c[1..][1..][1..]);
    if !Lookup(t, Unwind(a)).present {
      WindowAbsent(t, [SELF_REF, p[1]], p[2]);
    }
    if !Lookup(t, Unwind(b)).present {
      WindowAbsent(t, [SELF_REF, p[1], p[2]], p[3]);
    }
  }
}
