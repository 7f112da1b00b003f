/** Physical memory holding translation tables, the processor's walk through
    it, and the correspondence between the words stored and the tree they mean. */
module PageMemory {
  import opened PageBits
  import opened PageTree

  /** Frame address -> the 512 words stored in that page. */
  type Memory = map<Frame, seq<bv64>>

  /** The words of memory represent tree `t`. */
  ghost predicate Holds(mem: Memory, t: Table)
    decreases t
  {
    && t.frame in mem
    && |mem[t.frame]| == |t.slots|
    && forall i :: 0 <= i < |t.slots| ==>
         && Decode(mem[t.frame][i]) == t.slots[i].e
         && (t.slots[i].Link? ==> Holds(mem, t.slots[i].sub))
  }

  /** The two memories have the same pages and differ at most in `fs`. */
  ghost predicate SameOutside(m: Memory, m': Memory, fs: set<Frame>) {
    m.Keys == m'.Keys && forall f :: f in m && f !in fs ==> m'[f] == m[f]
  }

  /** What a tree means depends on its own table pages only. */
  lemma {:induction false} HoldsFrame(m: Memory, m': Memory, t: Table)
    requires Holds(m, t)
    requires forall f :: f in Frames(t) && f in m ==> f in m' && m'[f] == m[f]
    ensures Holds(m', t)
    decreases t
  {
    forall i | 0 <= i < |t.slots| && t.slots[i].Link?
      ensures Holds(m', t.slots[i].sub)
    {
      SlotFramesInTable(t, i);
      HoldsFrame(m, m', t.slots[i].sub);
    }
  }

  /** A memory holds at most one tree of a given shape, and a tree pins down the
      words of its pages: two memories holding it agree on them. */
  lemma {:induction false} HoldsDetermines(m: Memory, m': Memory, t: Table, f: Frame)
    requires Holds(m, t) && Holds(m', t) && f in Frames(t)
    ensures f in m && f in m' && m[f] == m'[f]
    decreases t
  {
    if f == t.frame {
      forall i | 0 <= i < |t.slots|
        ensures m[f][i] == m'[f][i]
      {
        DecodeInjective(m[f][i], m'[f][i]);
      }
    } else {
      var i :| 0 <= i < |t.slots| && t.slots[i].Link? && f in Frames(t.slots[i].sub);
      HoldsDetermines(m, m', t.slots[i].sub, f);
    }
  }

  /** A store into the table at `q` leaves the trees beside the way there alone. */
  lemma StoreBeside(m: Memory, m': Memory, t: Table, q: seq<Index>, j: nat)
    requires Holds(m, t) && Separate(t) && Reaches(t, q) && j < |t.slots| && t.slots[j].Link?
    requires q != [] ==> j != q[0]
    requires forall f :: f in m && f != At(t, q).frame ==> f in m' && m'[f] == m[f]
    ensures Holds(m', t.slots[j].sub)
  {
    var f := At(t, q).frame;
    if q != [] {
      AtFrame(t.slots[q[0]].sub, q[1..]);
      assert SlotFrames(t.slots[j]) !! SlotFrames(t.slots[q[0]]);
    }
    assert f !in SlotFrames(t.slots[j]);
    HoldsFrame(m, m', t.slots[j].sub);
  }

  lemma StoreHere(m: Memory, t: Table, i: Index, w: bv64, s: Slot)
    requires Holds(m, t) && Separate(t) && Reaches(t, [])
    requires Decode(w) == s.e
    requires s.Link? ==> Holds(m, s.sub) && Frames(s.sub) !! Frames(t)
    ensures Holds(m[t.frame := m[t.frame][i := w]], t.(slots := t.slots[i := s]))
  {
    var m' := m[t.frame := m[t.frame][i := w]];
    forall j | 0 <= j < |t.slots| && t.slots[j].Link? ensures Holds(m', t.slots[j].sub) {
      StoreBeside(m, m', t, [], j);
    }
    if s.Link? {
      assert t.frame !in Frames(s.sub);
      HoldsFrame(m, m', s.sub);
    }
  }

  /** Storing one word into one table page is `SetSlot` on the tree. */
  lemma {:induction false} StoreHolds(m: Memory, t: Table, q: seq<Index>, i: Index, w: bv64, s: Slot)
    requires Holds(m, t) && Separate(t) && Reaches(t, q)
    requires Decode(w) == s.e
    requires s.Link? ==> Holds(m, s.sub) && Frames(s.sub) !! Frames(t)
    ensures At(t, q).frame in m && |m[At(t, q).frame]| == ENTRIES
    ensures Holds(m[At(t, q).frame := m[At(t, q).frame][i := w]], SetSlot(t, q, i, s))
    decreases q
  {
    AtHolds(m, t, q);
    if q == [] {
      StoreHere(m, t, i, w, s);
    } else {
      var f := At(t, q).frame;
      var m' := m[f := m[f][i := w]];
      forall j | 0 <= j < |t.slots| && j != q[0] && t.slots[j].Link? ensures Holds(m', t.slots[j].sub) {
        StoreBeside(m, m', t, q, j);
      }
      AtFrame(t.slots[q[0]].sub, q[1..]);
      SlotFramesInTable(t, q[0]);
      StoreHolds(m, t.slots[q[0]].sub, q[1..], i, w, s);
    }
  }

  lemma {:induction false} AtHolds(m: Memory, t: Table, q: seq<Index>)
    requires Holds(m, t) && Reaches(t, q)
    ensures Holds(m, At(t, q))
    decreases q
  {
    if q != [] {
      AtHolds(m, t.slots[q[0]].sub, q[1..]);
    }
  }

  function Zeroes(): seq<bv64> { seq(ENTRIES, _ => 0) }

  /** Clearing a page and linking it below slot path[d] is `Open` on the tree. */
  lemma OpenHolds(m: Memory, t: Table, path: seq<Index>, d: nat, f: Frame)
    requires Holds(m, t) && Separate(t) && d < |path| && Reaches(t, path[..d])
    requires f !in Frames(t) && IsFrame(f)
    ensures var table := At(t, path[..d]).frame;
            var z := m[f := Zeroes()];
            && table in z && |z[table]| == ENTRIES
            && Holds(z[table := z[table][path[d] := LinkEntry(f.addr)]], Open(t, path, d, f))
  {
    var z := m[f := Zeroes()];
    HoldsFrame(m, z, t);
    DecodeZero();
    EmptyTable(f, [0]);
    DecodeLink(f);
    StoreHolds(z, t, path[..d], path[d], LinkEntry(f.addr), Link(LinkPte(f), Empty(f)));
  }

  // ---------- the hardware walk ----------

  /** What the processor makes of an address: the frame it lands in and the
      access rights accumulated over the levels, or a fault. */
  datatype Walked = Fault | Found(frame: Frame, write: bool, user: bool)

  /** The processor's translation, section 5.3.3 "4-Kbyte Page Translation" of the
      AMD64 Architecture Programmer's Manual, Volume 2. */
  function Walk(mem: Memory, table: Frame, path: seq<Index>): Walked
    decreases path
  {
    if path == [] then Found(table, true, true)
    else if table !in mem || |mem[table]| != ENTRIES then Fault
    else
      var e := Decode(mem[table][path[0]]);
      if !e.present then Fault
      else
        match Walk(mem, e.frame, path[1..])
        case Fault => Fault
        case Found(f, w, u) => Found(f, w && e.write, u && e.user)
  }

  /** The processor translates exactly as the tree says: `Lookup` decides both
      presence and rights, because upper levels never take rights away. */
  lemma {:induction false} WalkIsLookup(mem: Memory, t: Table, path: seq<Index>)
    requires WellFormed(t, |path|) && PathOk(path) && Holds(mem, t)
    ensures var e := Lookup(t, path);
            Walk(mem, t.frame, path) == if e.present then Found(e.frame, e.write, e.user) else Fault
    decreases path
  {
    if |path| == 1 {
      assert Walk(mem, t.slots[path[0]].e.frame, path[1..]).Found?;
    } else if t.slots[path[0]].Link? {
      WalkIsLookup(mem, t.slots[path[0]].sub, path[1..]);
    }
  }

  /** Walking to a table, for as many levels as exist. */
  lemma {:induction false} WalkToTable(mem: Memory, t: Table, level: nat, q: seq<Index>)
    requires WellFormed(t, level) && Holds(mem, t) && Reaches(t, q) && |q| < level
    ensures Walk(mem, t.frame, q) == Found(At(t, q).frame, true, true)
    decreases q
  {
    if q != [] {
      WalkToTable(mem, t.slots[q[0]].sub, level - 1, q[1..]);
    }
  }

  /** Going through slot 256 of the root costs one level and gains nothing but
      supervisor mode. */
  lemma WalkSelf(mem: Memory, t: Table, q: seq<Index>)
    requires WellFormed(t, 4) && Holds(mem, t)
    ensures Walk(mem, t.frame, [SELF_REF] + q) ==
      match Walk(mem, t.frame, q)
      case Fault => Fault
      case Found(f, w, _) => Found(f, w, false)
  {
    assert ([SELF_REF] + q)[1..] == q;
    assert t.slots[SELF_REF].e.(rest := 0) == SelfPte(t.frame);
  }

  /** A window address built for the entry below `q` lands on the page of the
      table holding that entry: writable, and in supervisor mode only. */
  lemma {:induction false} WindowLands(mem: Memory, t: Table, selfs: seq<Index>, q: seq<Index>)
    requires WellFormed(t, 4) && Holds(mem, t) && Reaches(t, q) && |q| <= 3
    requires forall i :: 0 <= i < |selfs| ==> selfs[i] == SELF_REF
    ensures Walk(mem, t.frame, selfs + q) == Found(At(t, q).frame, true, selfs == [])
    decreases selfs
  {
    if selfs == [] {
      WalkToTable(mem, t, 4, q);
      assert selfs + q == q;
    } else {
      WindowLands(mem, t, selfs[1..], q);
      WalkSelf(mem, t, selfs[1..] + q);
      assert [SELF_REF] + (selfs[1..] + q) == selfs + q;
    }
  }

  /** A walk that ends above the page tables. */
  lemma {:induction false} WalkUpper(m: Memory, t: Table, level: nat, q: seq<Index>)
    requires WellFormed(t, level) && Holds(m, t) && 1 <= |q| < level
    requires level == 4 ==> q[0] != SELF_REF
    ensures var e := Lookup(t, q); Walk(m, t.frame, q) == if e.present then Found(e.frame, true, true) else Fault
    decreases q
  {
    var s := t.slots[q[0]];
    if |q| == 1 {
      assert Walk(m, s.e.frame, q[1..]) == Found(s.e.frame, true, true);
    } else if s.Link? {
      WalkUpper(m, s.sub, level - 1, q[1..]);
    }
  }

  /** Through the window the processor gets at the table whose entry the address names,
      and only in supervisor mode. */
  lemma {:induction false} WindowWalk(m: Memory, t: Table, path: seq<Index>)
    requires WellFormed(t, 4) && Holds(m, t) && 2 <= |path| <= 4 && path[0] == SELF_REF
    ensures var e := Lookup(t, Unwind(path));
            Walk(m, t.frame, path) == if e.present then Found(e.frame, true, false) else Fault
    decreases path
  {
    var q := path[1..];
    assert path == [SELF_REF] + q && Unwind(path) == Unwind(q);
    WalkSelf(m, t, q);
    if q[0] != SELF_REF {
      WalkUpper(m, t, 4, q);
    } else if |q| == 1 {
      assert Lookup(t, q) == t.slots[SELF_REF].e;
      assert Walk(m, t.frame, q[1..]) == Found(t.frame, true, true);
    } else {
      WindowWalk(m, t, q);
    }
  }

  /** The table that a window address shows: the page of the entry its way ends at. */
  lemma WindowWord(m: Memory, t: Table, path: seq<Index>, j: Index)
    requires WellFormed(t, 4) && Holds(m, t) && |path| == 4 && path[0] == SELF_REF && Lookup(t, Unwind(path)).present
    ensures var f := Lookup(t, Unwind(path)).frame;
            && Walk(m, t.frame, path) == Found(f, true, false) && f in m && |m[f]| == ENTRIES
            && Decode(m[f][j]) == Lookup(t, Unwind(path[1..] + [j]))
  {
    hide Decode, IsFrame, Walk;
    WindowWalk(m, t, path);
    var q := Unwind(path);
    UnwindFacts(path);
    UnwindMore(path[1..], j);
    assert Unwind(path[1..]) == q;
    if q == [SELF_REF] {
      assert Lookup(t, [SELF_REF]) == t.slots[SELF_REF].e && Lookup(t, [j]) == t.slots[j].e;
    } else {
      PresentReaches(t, 4, q);
      AtHolds(m, t, q);
      GraftIsSet(t, q, j, ABSENT);
    }
  }

  /** The indices of a window address: four minus |q| self references, then `q`. */
  ghost predicate WindowPath(va: bv64, q: seq<Index>) {
    && |q| <= 3
    && |PathOf(va)| == 4 && PathOf(va)[4 - |q|..] == q
    && forall i :: 0 <= i < 4 - |q| ==> PathOf(va)[i] == SELF_REF
  }

  /** The four SELF_REF macros build the window addresses for the four levels. */
  lemma WindowPaths(virt: bv64)
    ensures Canonical(SelfRefPml4e(virt)) && WindowPath(SelfRefPml4e(virt), PathOf(virt)[..0])
    ensures Canonical(SelfRefPdpe(virt)) && WindowPath(SelfRefPdpe(virt), PathOf(virt)[..1])
    ensures Canonical(SelfRefPde(virt)) && WindowPath(SelfRefPde(virt), PathOf(virt)[..2])
    ensures Canonical(SelfRefPte(virt)) && WindowPath(SelfRefPte(virt), PathOf(virt)[..3])
    ensures WordIndex(SelfRefPml4e(virt)) == PathOf(virt)[0]
    ensures WordIndex(SelfRefPdpe(virt)) == PathOf(virt)[1]
    ensures WordIndex(SelfRefPde(virt)) == PathOf(virt)[2]
    ensures WordIndex(SelfRefPte(virt)) == PathOf(virt)[3]
  {
    hide *;
    Pml4eWindow(virt);
    PdpeWindow(virt);
    PdeWindow(virt);
    PteWindow(virt);
  }

  lemma Pml4eWindow(virt: bv64)
    ensures Canonical(SelfRefPml4e(virt)) && |PathOf(virt)| == 4 && WindowPath(SelfRefPml4e(virt), PathOf(virt)[..0])
    ensures WordIndex(SelfRefPml4e(virt)) == PathOf(virt)[0]
  {
    hide SelfRefPml4e, IndexPml4e, IndexPdpe, IndexPde, IndexPte, WordIndex, Canonical;
    SelfRefPml4eIndices(virt);
  }

  lemma PdpeWindow(virt: bv64)
    ensures Canonical(SelfRefPdpe(virt)) && |PathOf(virt)| == 4 && WindowPath(SelfRefPdpe(virt), PathOf(virt)[..1])
    ensures WordIndex(SelfRefPdpe(virt)) == PathOf(virt)[1]
  {
    hide SelfRefPdpe, IndexPml4e, IndexPdpe, IndexPde, IndexPte, WordIndex, Canonical;
    SelfRefPdpeIndices(virt);
  }

  lemma PdeWindow(virt: bv64)
    ensures Canonical(SelfRefPde(virt)) && |PathOf(virt)| == 4 && WindowPath(SelfRefPde(virt), PathOf(virt)[..2])
    ensures WordIndex(SelfRefPde(virt)) == PathOf(virt)[2]
  {
    hide SelfRefPde, IndexPml4e, IndexPdpe, IndexPde, IndexPte, WordIndex, Canonical;
    SelfRefPdeIndices(virt);
  }

  lemma PteWindow(virt: bv64)
    ensures Canonical(SelfRefPte(virt)) && |PathOf(virt)| == 4 && WindowPath(SelfRefPte(virt), PathOf(virt)[..3])
    ensures WordIndex(SelfRefPte(virt)) == PathOf(virt)[3]
  {
    hide SelfRefPte, IndexPml4e, IndexPdpe, IndexPde, IndexPte, WordIndex, Canonical;
    SelfRefPteIndices(virt);
  }

  /** At an address in the window the four macros lead through the window again. */
  lemma WindowReads(virt: bv64)
    requires IndexPml4e(virt) == SELF_REF
    ensures |PathOf(virt)| == 4 && PathOf(virt)[0] == SELF_REF
    ensures var p := PathOf(virt);
      && Canonical(SelfRefPml4e(virt)) && PathOf(SelfRefPml4e(virt)) == [SELF_REF, SELF_REF, SELF_REF, SELF_REF]
      && WordIndex(SelfRefPml4e(virt)) == SELF_REF
      && Canonical(SelfRefPdpe(virt)) && PathOf(SelfRefPdpe(virt)) == [SELF_REF, SELF_REF, SELF_REF, SELF_REF]
      && WordIndex(SelfRefPdpe(virt)) == p[1]
      && Canonical(SelfRefPde(virt)) && PathOf(SelfRefPde(virt)) == [SELF_REF, SELF_REF, SELF_REF, p[1]]
      && WordIndex(SelfRefPde(virt)) == p[2]
      && Canonical(SelfRefPte(virt)) && PathOf(SelfRefPte(virt)) == [SELF_REF, SELF_REF, p[1], p[2]]
      && WordIndex(SelfRefPte(virt)) == p[3]
  {
    hide SelfRefPml4e, SelfRefPdpe, SelfRefPde, SelfRefPte, IndexPml4e, IndexPdpe, IndexPde, IndexPte, WordIndex, Canonical;
    SelfRefPml4eIndices(virt);
    SelfRefPdpeIndices(virt);
    SelfRefPdeIndices(virt);
    SelfRefPteIndices(virt);
  }

  /** One word written through the window at a window address. */
  lemma WindowStored(m: Memory, t: Table, p: seq<Index>, w: bv64)
    requires WellFormed(t, 4) && Separate(t) && Holds(m, t) && |p| == 4 && p[0] == SELF_REF
    requires Lookup(t, Unwind([SELF_REF, SELF_REF, p[1], p[2]])).present
    ensures var f := Lookup(t, Unwind([SELF_REF, SELF_REF, p[1], p[2]])).frame;
            && f in m && |m[f]| == ENTRIES && f in Frames(t)
            && Holds(m[f := m[f][p[3] := w]], Graft(t, Unwind(p), Decode(w), []))
  {
    hide Decode, IsFrame;
    var b: seq<Index> := [SELF_REF, SELF_REF, p[1], p[2]];
    var q := Unwind(b);
    UnwindFacts(b);
    UnwindMore(b[1..], p[3]);
    assert p == b[1..] + [p[3]] && Unwind(b[1..]) == q;
    if q == [SELF_REF] {
      RootPresent(t);
      GraftIsSet(t, [], p[3], Decode(w));
      assert [] + [p[3]] == [p[3]];
      StoreHolds(m, t, [], p[3], w, Entry(Decode(w)));
    } else {
      PresentReaches(t, 4, q);
      GraftIsSet(t, q, p[3], Decode(w));
      AtFrame(t, q);
      StoreHolds(m, t, q, p[3], w, Entry(Decode(w)));
    }
  }
}
