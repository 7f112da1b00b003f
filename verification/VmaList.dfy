/** sys/memory/mm_struct.c: the list of memory regions of an address space. The
    list is kept sorted by address and free of overlaps. Its head is embedded in
    a record of another type, so a search that runs off the end reads unrelated
    fields; those enter as parameters named `garbage`. */
module VmaList {

  const PAGE: nat := 4096
  const WORD: nat := 0x1_0000_0000_0000_0000
  const UNLIMITED: nat := 0xFFFF_FFFF_FFFF_FFFF
  /** The end of the lower half of the address space. */
  const USER_END: nat := 0x8000_0000_0000
  const GROWS_DOWN: bv32 := 2
  const GROWS_UP: bv32 := 4

  /** Unsigned 64-bit arithmetic. */
  function Add(a: nat, b: nat): nat { (a + b) % WORD }
  function Sub(a: nat, b: nat): nat
    requires b < WORD
  {
    (a + WORD - b) % WORD
  }

  datatype Vma = Vma(start: nat, end: nat, prot: bv64, flags: bv32, maxSize: nat)

  predicate Holds(v: Vma, a: nat) { v.start <= a < v.end }

  /** The region meets the interval from `a` up to `b`. */
  predicate Meets(v: Vma, a: nat, b: nat) { a < v.end && v.start < b }

  ghost predicate Sorted(s: seq<Vma>) {
    && (forall k :: 0 <= k < |s| ==> s[k].start < s[k].end < WORD)
    && (forall k, l :: 0 <= k < l < |s| ==> s[k].end <= s[l].start)
  }

  /** No region meets the interval from `a` up to `b`. */
  ghost predicate Vacant(s: seq<Vma>, a: nat, b: nat) {
    forall k :: 0 <= k < |s| ==> !Meets(s[k], a, b)
  }

  /** What find_vma_intersection makes of the interval: whether a region meets it, if some
      region ends above `a`; otherwise it reads the record around the list head. */
  ghost predicate Clashes(s: seq<Vma>, a: nat, b: nat, garbage: nat) {
    if exists k :: 0 <= k < |s| && a < s[k].end then !Vacant(s, a, b) else garbage < b
  }

  /** `len` + 1 bytes are free at `a`. */
  ghost predicate Room(s: seq<Vma>, a: nat, len: nat) { Vacant(s, a, a + len + 1) }

  /** There is room from `hint` on for a region that ends by `limit`. */
  ghost predicate RoomBefore(s: seq<Vma>, hint: nat, len: nat, limit: nat) {
    exists a :: hint <= a && a + len <= limit && Room(s, a, len)
  }

  /** The lowest block ends by `limit` exactly if some block does: so whether mmap answers
      with user addresses can be told from hint, length and list. */
  lemma LowestBefore(s: seq<Vma>, hint: nat, len: nat, r: nat, limit: nat)
    requires hint <= r && Room(s, r, len) && (forall a :: hint <= a < r ==> !Room(s, a, len))
    ensures r + len <= limit <==> RoomBefore(s, hint, len, limit)
  {
    if RoomBefore(s, hint, len, limit) {
      var a :| hint <= a && a + len <= limit && Room(s, a, len);
      assert a >= r;
    }
  }

  /** The index, from `k` on, of the first region that starts above `a`. */
  function Above(s: seq<Vma>, a: nat, k: nat): (j: nat)
    requires k <= |s|
    ensures k <= j <= |s|
    decreases |s| - k
  {
    if k == |s| || a < s[k].start then k else Above(s, a, k + 1)
  }

  /** The list with `v` added before the first region that starts above it. */
  function Inserted(s: seq<Vma>, v: Vma): seq<Vma> {
    var j := Above(s, v.start, 0);
    s[..j] + [v] + s[j..]
  }

  lemma {:induction false} AboveIs(s: seq<Vma>, a: nat, k: nat, j: nat)
    requires k <= j <= |s|
    requires forall i :: k <= i < j ==> s[i].start <= a
    requires j < |s| ==> a < s[j].start
    ensures Above(s, a, k) == j
    decreases j - k
  {
    if k < j {
      AboveIs(s, a, k + 1, j);
    }
  }

  /** A region fits between its neighbours at index `j`. */
  ghost predicate Fits(s: seq<Vma>, v: Vma, j: nat) {
    && j <= |s| && v.start < v.end < WORD
    && (j > 0 ==> s[j-1].end <= v.start)
    && (j < |s| ==> v.end <= s[j].start)
  }

  lemma HeldOnce(s: seq<Vma>, j: nat, k: nat, a: nat)
    requires Sorted(s) && j < |s| && k < |s| && Holds(s[j], a) && Holds(s[k], a)
    ensures j == k
  {
  }

  lemma FitsEverywhere(s: seq<Vma>, v: Vma, j: nat)
    requires Sorted(s) && Fits(s, v, j)
    ensures forall k :: 0 <= k < j ==> s[k].end <= v.start
    ensures forall k :: j <= k < |s| ==> v.end <= s[k].start
  {
  }

  lemma InsertAt(s: seq<Vma>, v: Vma, j: nat, k: nat)
    requires j <= |s| && k <= |s|
    ensures (s[..j] + [v] + s[j..])[k] == if k < j then s[k] else if k == j then v else s[k-1]
  {
  }

  lemma InsertSorted(s: seq<Vma>, v: Vma, j: nat)
    requires Sorted(s) && Fits(s, v, j)
    ensures Sorted(s[..j] + [v] + s[j..])
  {
    FitsEverywhere(s, v, j);
    var out := s[..j] + [v] + s[j..];
    forall k | 0 <= k < |out| ensures out[k].start < out[k].end < WORD {
      InsertAt(s, v, j, k);
    }
    forall k, l | 0 <= k < l < |out| ensures out[k].end <= out[l].start {
      InsertAt(s, v, j, k);
      InsertAt(s, v, j, l);
    }
  }

  lemma InsertIs(s: seq<Vma>, v: Vma, j: nat)
    requires Sorted(s) && Fits(s, v, j)
    ensures Vacant(s, v.start, v.end)
    ensures Inserted(s, v) == s[..j] + [v] + s[j..] && Sorted(Inserted(s, v))
  {
    FitsEverywhere(s, v, j);
    InsertSorted(s, v, j);
    AboveIs(s, v.start, 0, j);
  }

  /** Insertion adds the region as it was given and keeps every other one. */
  lemma InsertedHolds(s: seq<Vma>, v: Vma)
    ensures multiset(Inserted(s, v)) == multiset(s) + multiset{v}
  {
    var j := Above(s, v.start, 0);
    assert s == s[..j] + s[j..];
  }

  /** If there is no gap for `v`, something is in its way. */
  lemma {:induction false} NoGapNotVacant(s: seq<Vma>, v: Vma, j: nat)
    requires Sorted(s) && v.start < v.end < WORD && j < |s|
    requires forall k :: 0 <= k <= j ==> !Fits(s, v, k)
    requires v.start < s[j].end
    ensures !Vacant(s, v.start, v.end)
    decreases j
  {
    if j == 0 || s[j-1].end <= v.start {
      assert !Fits(s, v, j);
      assert Meets(s[j], v.start, v.end);
    } else {
      NoGapNotVacant(s, v, j - 1);
    }
  }

  class MemoryMap {
    var list: seq<Vma>

    /** add_vma_growable: the new region goes into the list exactly when it is not
        empty and meets none of the regions there. */
    method AddVmaGrowable(start: nat, end: nat, prot: bv64, flags: bv32, maxSize: nat, garbage: nat)
        returns (r: int)
      requires Sorted(list) && end < WORD
      modifies this
      ensures Sorted(list)
      ensures r == if start < end && Vacant(old(list), start, end) then 0 else -1
      ensures list == if r == 0 then Inserted(old(list), Vma(start, end, prot, flags, maxSize)) else old(list)
    {
      hide Sorted, Inserted, Vacant;
      if start >= end {
        return -1;
      }
      var v := Vma(start, end, prot, flags, maxSize);
      if list == [] {
        InsertIs(list, v, 0);
        assert list[..0] + [v] + list[0..] == [v];
        list := [v];
        return 0;
      }
      var k := 0;
      while k < |list|
        invariant 0 <= k <= |list| && list == old(list)
        invariant forall m :: 0 <= m < k ==> !Fits(list, v, m)
        invariant k == |list| ==> start < list[k-1].end
      {
        if k == 0 && end <= list[k].start {
          InsertIs(list, v, 0);
          assert list[..0] + [v] + list[0..] == [v] + list;
          list := [v] + list;
          return 0;
        }
        if k == |list| - 1 && list[k].end <= start {
          InsertIs(list, v, k + 1);
          assert list[..k+1] + [v] + list[k+1..] == list + [v];
          list := list + [v];
          return 0;
        }
        var prevEnd := if k == 0 then garbage else list[k-1].end;
        if prevEnd <= start && end <= list[k].start {
          InsertIs(list, v, k);
          list := list[..k] + [v] + list[k..];
          return 0;
        }
        k := k + 1;
      }
      NoGapNotVacant(list, v, |list| - 1);
      r := -1;
    }

    /** find_vma: the first region that ends above `addr`; |list| stands for the
        record around the list head. */
    method FindVma(addr: nat) returns (k: nat)
      ensures k <= |list|
      ensures forall m :: 0 <= m < k ==> list[m].end <= addr
      ensures k < |list| ==> addr < list[k].end
    {
      k := 0;
      while k < |list| && list[k].end <= addr
        invariant 0 <= k <= |list|
        invariant forall m :: 0 <= m < k ==> list[m].end <= addr
      {
        k := k + 1;
      }
    }

    /** find_vma_intersection, true if it returns a region. When some region ends
        above `start` the answer is whether any region meets the interval; when
        none does, the code reads the start field of the record around the list
        head and compares that. */
    method FindVmaIntersection(start: nat, end: nat, garbage: nat) returns (found: bool)
      requires Sorted(list)
      ensures (exists k :: 0 <= k < |list| && start < list[k].end) ==> (found <==> !Vacant(list, start, end))
      ensures (forall k :: 0 <= k < |list| ==> list[k].end <= start) ==> (found <==> garbage < end)
      ensures found <==> Clashes(list, start, end, garbage)
    {
      var k := FindVma(start);
      if k < |list| {
        found := list[k].start < end;
        assert found ==> Meets(list[k], start, end);
      } else {
        found := garbage < end;
      }
    }

    /** get_unmapped_area: the lowest address from `hint` on at which `len` + 1 bytes
        are free. If no such block ends below 2^64, the end of the result does not
        fit 64 bits either. */
    method GetUnmappedArea(hint: nat, len: nat) returns (addr: nat)
      requires Sorted(list) && hint < WORD && len < WORD
      ensures hint <= addr < WORD
      ensures addr + len < WORD ==> Room(list, addr, len)
      ensures forall a :: hint <= a < addr && a + len < WORD ==> !Room(list, a, len)
    {
      addr := hint;
      var k := FindVma(addr);
      while k < |list|
        invariant 0 <= k <= |list| && hint <= addr < WORD
        invariant forall m :: 0 <= m < k ==> list[m].end <= addr
        invariant forall m :: k <= m < |list| ==> addr < list[m].end
        invariant forall a :: hint <= a < addr && a + len < WORD ==> !Room(list, a, len)
      {
        if Add(addr, len) < list[k].start {
          return;
        }
        forall a | addr <= a < list[k].end && a + len < WORD
          ensures !Room(list, a, len)
        {
          assert Meets(list[k], a, a + len + 1);
        }
        addr := list[k].end;
        k := k + 1;
      }
    }

    /** mmap_growable. It succeeds exactly when a block of `length` + 1 bytes from
        `hint` on ends below 2^64 and `length` is not zero, and then takes the
        lowest such block; otherwise it returns minus one. */
    method MmapGrowable(hint: nat, length: nat, prot: bv64, flags: bv32, maxSize: nat, garbage: nat)
        returns (r: nat)
      requires Sorted(list) && hint < WORD && length < WORD
      modifies this
      ensures Sorted(list)
      ensures r != UNLIMITED <==>
        length > 0 && exists a :: hint <= a && a + length < WORD && Room(old(list), a, length)
      ensures r == UNLIMITED ==> list == old(list)
      ensures r != UNLIMITED ==> hint <= r && r + length < WORD && Room(old(list), r, length)
      ensures r != UNLIMITED ==> forall a :: hint <= a < r ==> !Room(old(list), a, length)
      ensures r != UNLIMITED ==> list == Inserted(old(list), Vma(r, r + length, prot, flags, maxSize))
      ensures r != UNLIMITED && r + length <= USER_END <==> length > 0 && RoomBefore(old(list), hint, length, USER_END)
    {
      var start := GetUnmappedArea(hint, length);
      assert length > 0 && start + length < WORD ==> Vacant(list, start, start + length);
      hide Sorted, Inserted;
      if start + length < WORD && Room(list, start, length) {
        LowestBefore(list, hint, length, start, USER_END);
      }
      var ok := AddVmaGrowable(start, Add(start, length), prot, flags, maxSize, garbage);
      if ok == -1 {
        return UNLIMITED;
      }
      r := start;
    }

    /** The list part of munmap: the region around `addr` is removed and no other; if
        there is none the list stays. Some region has to end above `addr`. */
    method Munmap(addr: nat) returns (ghost k: nat)
      requires Sorted(list) && exists k :: 0 <= k < |list| && addr < list[k].end
      modifies this
      ensures Sorted(list) && k < |old(list)|
      ensures (exists m :: 0 <= m < |old(list)| && Holds(old(list)[m], addr)) ==>
        Holds(old(list)[k], addr) && list == old(list)[..k] + old(list)[k+1..]
      ensures (forall m :: 0 <= m < |old(list)| ==> !Holds(old(list)[m], addr)) ==> list == old(list)
    {
      var found := FindVma(addr);
      k := found;
      if list[found].start <= addr {
        list := list[..found] + list[found+1..];
      }
    }

    /** munmap undoes mmap. */
    method MmapThenMunmap(hint: nat, length: nat, prot: bv64, flags: bv32, maxSize: nat, garbage: nat)
        returns (r: nat)
      requires Sorted(list) && hint < WORD && length < WORD
      modifies this
      ensures list == old(list)
    {
      hide Sorted, Vacant, Above;
      r := MmapGrowable(hint, length, prot, flags, maxSize, garbage);
      if r != UNLIMITED {
        ghost var v := Vma(r, r + length, prot, flags, maxSize);
        ghost var j := Above(old(list), v.start, 0);
        assert list[j] == v && Holds(list[j], r);
        ghost var k := Munmap(r);
        HeldOnce(Inserted(old(list), v), j, k, r);
      }
    }

    /** grow_vma_down for region `k`. A region that starts in page 0 has no page
        below it; growing it wraps its start around, and unless the region also
        reaches into the last page that breaks the list. */
    method GrowVmaDown(k: nat, addr: nat, garbage: nat) returns (ok: bool)
      requires Sorted(list) && k < |list| && addr < WORD
      modifies this
      ensures Sorted(list) <==> list == old(list) || RoomBelow(old(list)[k])
      ensures |list| == |old(list)|
      ensures ok <==> GrowsDownTo(old(list), k, addr, garbage)
      ensures !ok || Holds(old(list)[k], addr) ==> list == old(list)
      ensures ok && !Holds(old(list)[k], addr) ==>
        list == old(list)[k := old(list)[k].(start := Sub(old(list)[k].start, PAGE))]
      ensures ok && old(list)[k].start >= PAGE ==> Holds(list[k], addr)
    {
      hide Sorted;
      var next := list[k];
      SortedAt(list, k);
      if next.flags & GROWS_DOWN == 0 {
        return false;
      }
      if next.start <= addr < next.end {
        return true;
      }
      if next.start <= addr {
        return false;
      }
      if next.start - addr > PAGE {
        return false;
      }
      if next.maxSize != UNLIMITED && next.maxSize * PAGE % WORD <= Sub(next.end, addr) {
        return false;
      }
      var taken := FindVmaIntersection(Sub(next.start, PAGE), next.start, garbage);
      if taken {
        return false;
      }
      BelowVacant(list, k, garbage);
      GrowSorted(list, k);
      list := list[k := next.(start := Sub(next.start, PAGE))];
      ok := true;
    }

    /** grow_vma_up for region `k`. Above the last region the answer hangs on the
        record around the list head. */
    method GrowVmaUp(k: nat, addr: nat, garbage: nat) returns (ok: bool)
      requires Sorted(list) && k < |list| && addr < WORD
      modifies this
      ensures Sorted(list) <==> list == old(list) || RoomAbove(old(list)[k])
      ensures |list| == |old(list)|
      ensures ok <==> GrowsUpTo(old(list), k, addr, garbage)
      ensures !ok || Holds(old(list)[k], addr) ==> list == old(list)
      ensures ok && !Holds(old(list)[k], addr) ==>
        list == old(list)[k := old(list)[k].(end := Add(old(list)[k].end, PAGE))]
      ensures ok && old(list)[k].end + PAGE < WORD ==> Holds(list[k], addr)
    {
      hide Sorted;
      var prev := list[k];
      SortedAt(list, k);
      if prev.flags & GROWS_UP == 0 {
        return false;
      }
      if prev.start <= addr < prev.end {
        return true;
      }
      if addr < prev.end {
        return false;
      }
      if addr - prev.end >= PAGE {
        return false;
      }
      if prev.maxSize != UNLIMITED && prev.maxSize * PAGE % WORD <= addr - prev.start {
        return false;
      }
      LastEnds(list, k);
      var taken := FindVmaIntersection(prev.end, Add(prev.end, PAGE), garbage);
      if taken {
        return false;
      }
      AboveVacant(list, k, garbage);
      GrowUpSorted(list, k);
      list := list[k := prev.(end := Add(prev.end, PAGE))];
      ok := true;
    }

    /** The scan in page_fault_handler: the region `addr` lies in, or else its
        neighbours below and above; -1 for none. */
    method FindRegion(addr: nat) returns (node: int, prev: int, next: int)
      requires Sorted(list)
      ensures -1 <= node < |list| && -1 <= prev < |list| && -1 <= next < |list|
      ensures node >= 0 ==> Holds(list[node], addr)
      ensures node == -1 ==> forall m :: 0 <= m < |list| ==> !Holds(list[m], addr)
      ensures node == -1 ==> forall m :: 0 <= m < |list| ==> (m <= prev <==> list[m].end <= addr)
      ensures node == -1 ==> forall m :: 0 <= m < |list| ==> (next == -1 || m < next <==> list[m].start <= addr)
    {
      node, prev, next := -1, -1, -1;
      var k := 0;
      while k < |list|
        invariant 0 <= k <= |list| && node == -1
        invariant -1 <= prev < k && -1 <= next < k
        invariant forall m :: 0 <= m < k ==> !Holds(list[m], addr)
        invariant forall m :: 0 <= m < k ==> (m <= prev <==> list[m].end <= addr)
        invariant forall m :: 0 <= m < k ==> (next == -1 || m < next <==> list[m].start <= addr)
      {
        assert next >= 0 ==> list[next].end <= list[k].start;
        assert forall m :: 0 <= m < k ==> list[m].end <= list[k].start;
        if list[k].start <= addr < list[k].end {
          node := k;
          return;
        }
        if addr < list[k].start && next == -1 {
          next := k;
        } else if list[k].end <= addr {
          prev := k;
        }
        k := k + 1;
      }
    }

    /** The region for a page that is not present: the one `addr` lies in; or else the
        region below, if it may grow up to `addr`, or else the region above, if it may
        grow down to it, grown by a page; and none otherwise. It covers `addr` if it has
        a page's room at either end of the address space, and the list stays sorted
        exactly if there was room where it grew. */
    method RegionForFault(addr: nat, garbage: nat) returns (node: int)
      requires Sorted(list) && addr < WORD
      modifies this
      ensures Answered(old(list), list, addr, garbage, node)
      ensures node == -1 <==> !Served(old(list), addr, garbage)
      ensures node >= 0 && Inland(old(list)[node]) ==> Holds(list[node], addr)
      ensures Sorted(list) <==> node == -1 || GrewInRoom(old(list)[node], list[node])
      ensures (forall m :: 0 <= m < |list| ==> Bounded(old(list)[m])) ==>
        && (forall m :: 0 <= m < |list| ==> Bounded(list[m])) && Sorted(list) && Widened(old(list), list)
        && (node >= 0 ==> Holds(list[node], addr))
    {
      var prev, next;
      node, prev, next := FindRegion(addr);
      NeighboursFound(list, addr, garbage, node, prev, next);
      hide Sorted, Bounded, GrowsUpTo, GrowsDownTo, FromBelow, FromAbove, Served;
      if node == -1 && prev >= 0 && list[prev].flags & GROWS_UP != 0 {
        var ok := GrowVmaUp(prev, addr, garbage);
        if ok {
          node := prev;
        }
      }
      if node == -1 && next >= 0 && list[next].flags & GROWS_DOWN != 0 {
        var ok := GrowVmaDown(next, addr, garbage);
        if ok {
          node := next;
        }
      }
      FlagNeeded(old(list), addr, garbage);
      hide Holds, Answered;
      AnswerServed(old(list), list, addr, garbage, node);
      AnswerSorted(old(list), list, addr, garbage, node);
      AnswerBounded(old(list), list, addr, garbage, node);
    }

    /** Over any sequence of faults the list stays sorted, no region passes its limit,
        and no address that is held is let go. A fault is served exactly if its address is
        held, or a neighbour may grow to it, in the list as it is by then (`was`); and
        from then on its address is held. */
    method Faults(addrs: seq<nat>, garbage: nat) returns (served: seq<bool>, ghost was: seq<seq<Vma>>)
      requires Sorted(list) && (forall m :: 0 <= m < |list| ==> Bounded(list[m]))
      requires forall i :: 0 <= i < |addrs| ==> addrs[i] < WORD
      modifies this
      ensures Sorted(list) && |list| == |old(list)| && forall m :: 0 <= m < |list| ==> Bounded(list[m])
      ensures |was| == |addrs| + 1 && was[0] == old(list) && was[|addrs|] == list
      ensures |served| == |addrs| && forall i :: 0 <= i < |addrs| ==> (served[i] <==> Served(was[i], addrs[i], garbage))
      ensures forall i :: 0 <= i < |addrs| ==> (served[i] <==> Held(was[i+1], addrs[i]))
      ensures forall i, a :: 0 <= i <= |addrs| && Held(was[i], a) ==> Held(list, a)
    {
      hide Sorted, Bounded, Served, FromBelow, FromAbove;
      served, was := [], [list];
      var i := 0;
      while i < |addrs|
        invariant 0 <= i <= |addrs| && Sorted(list) && |list| == |old(list)|
        invariant forall m :: 0 <= m < |list| ==> Bounded(list[m])
        invariant |was| == i + 1 && was[0] == old(list) && was[i] == list && |served| == i
        invariant forall j :: 0 <= j < i ==> (served[j] <==> Served(was[j], addrs[j], garbage))
        invariant forall j :: 0 <= j < i ==> (served[j] <==> Held(was[j+1], addrs[j]))
        invariant forall j, a :: 0 <= j <= i && Held(was[j], a) ==> Held(list, a)
      {
        ghost var before := list;
        var node := RegionForFault(addrs[i], garbage);
        WidenedHolds(before, list);
        assert node == -1 ==> !Held(before, addrs[i]) by {
          HeldServed(before, addrs[i], garbage);
        }
        was := was + [list];
        served := served + [node >= 0];
        i := i + 1;
      }
    }

    /** copy_vmas into an empty map: the child's regions are the parent's. */
    method CopyVmas(src: seq<Vma>)
      requires list == []
      modifies this
      ensures list == src
    {
      var k := 0;
      while k < |src|
        invariant 0 <= k <= |src| && list == src[..k]
      {
        list := list + [src[k]];
        k := k + 1;
      }
    }
  }

  ghost predicate Held(s: seq<Vma>, a: nat) { exists k :: 0 <= k < |s| && Holds(s[k], a) }

  /** No region lost an address. */
  ghost predicate Widened(s: seq<Vma>, t: seq<Vma>) {
    |s| == |t| && forall k :: 0 <= k < |s| ==> t[k].start <= s[k].start && s[k].end <= t[k].end
  }

  lemma WidenedHolds(s: seq<Vma>, t: seq<Vma>)
    requires Widened(s, t)
    ensures forall a :: Held(s, a) ==> Held(t, a)
  {
    forall a | Held(s, a) ensures Held(t, a) {
      var k :| 0 <= k < |s| && Holds(s[k], a);
      assert Holds(t[k], a);
    }
  }

  lemma HeldServed(s: seq<Vma>, a: nat, garbage: nat)
    ensures Held(s, a) ==> Served(s, a, garbage)
  {
  }

  /** Region `k` is the neighbour below an address that no region holds, and may grow up
      to it. */
  ghost predicate FromBelow(s: seq<Vma>, k: int, addr: nat, garbage: nat) {
    && 0 <= k < |s| && s[k].end <= addr && (forall m :: k < m < |s| ==> addr < s[m].start)
    && GrowsUpTo(s, k, addr, garbage)
  }

  /** Region `k` is the neighbour above, and may grow down to it. */
  ghost predicate FromAbove(s: seq<Vma>, k: int, addr: nat, garbage: nat) {
    && 0 <= k < |s| && addr < s[k].start && (forall m :: 0 <= m < k ==> s[m].end <= addr)
    && GrowsDownTo(s, k, addr, garbage)
  }

  /** The address is held, or a neighbour may grow to it. */
  ghost predicate Served(s: seq<Vma>, addr: nat, garbage: nat) {
    || Held(s, addr)
    || (exists k :: FromBelow(s, k, addr, garbage)) || (exists k :: FromAbove(s, k, addr, garbage))
  }

  /** What becomes of list `s` and which region answers a fault at `addr`. No more than one
      of the cases can hold, and of one region only. */
  ghost predicate Answered(s: seq<Vma>, t: seq<Vma>, addr: nat, garbage: nat, node: int) {
    if node == -1 then t == s && !Served(s, addr, garbage)
    else
      && 0 <= node < |s|
      && if Holds(s[node], addr) then t == s
         else if FromBelow(s, node, addr, garbage) then t == s[node := s[node].(end := Add(s[node].end, PAGE))]
         else
           && FromAbove(s, node, addr, garbage) && (forall k :: !FromBelow(s, k, addr, garbage))
           && t == s[node := s[node].(start := Sub(s[node].start, PAGE))]
  }

  lemma FlagNeeded(s: seq<Vma>, addr: nat, garbage: nat)
    ensures forall k :: FromBelow(s, k, addr, garbage) ==> s[k].flags & GROWS_UP != 0
    ensures forall k :: FromAbove(s, k, addr, garbage) ==> s[k].flags & GROWS_DOWN != 0
  {
  }

  /** The answer is determined by the list and the address. */
  lemma AnswerServed(s: seq<Vma>, t: seq<Vma>, addr: nat, garbage: nat, node: int)
    requires Sorted(s) && Answered(s, t, addr, garbage, node)
    ensures -1 <= node < |s| == |t| && (node == -1 <==> !Served(s, addr, garbage))
    ensures forall t', node' :: Answered(s, t', addr, garbage, node') ==> t' == t && node' == node
  {
    hide GrowsUpTo, GrowsDownTo;
    if node >= 0 && Holds(s[node], addr) {
      HeldServed(s, addr, garbage);
    }
  }

  lemma AnswerSorted(s: seq<Vma>, t: seq<Vma>, addr: nat, garbage: nat, node: int)
    requires Sorted(s) && addr < WORD && Answered(s, t, addr, garbage, node) && -1 <= node < |s| == |t|
    ensures Sorted(t) <==> node == -1 || GrewInRoom(s[node], t[node])
    ensures node >= 0 && Inland(s[node]) ==> Holds(t[node], addr)
  {
    if node >= 0 && !Holds(s[node], addr) {
      hide Sorted, Clashes;
      SortedAt(s, node);
      BelowVacant(s, node, garbage);
      AboveVacant(s, node, garbage);
      if FromBelow(s, node, addr, garbage) {
        GrowUpSorted(s, node);
      } else {
        GrowSorted(s, node);
      }
    }
  }

  lemma AnswerBounded(s: seq<Vma>, t: seq<Vma>, addr: nat, garbage: nat, node: int)
    requires Sorted(s) && addr < WORD && Answered(s, t, addr, garbage, node) && -1 <= node < |s| == |t|
    requires node == -1 || GrewInRoom(s[node], t[node]) ==> Sorted(t)
    ensures (forall m :: 0 <= m < |t| ==> Bounded(s[m])) ==>
      && (forall m :: 0 <= m < |t| ==> Bounded(t[m])) && Sorted(t) && Widened(s, t)
      && (node >= 0 ==> Holds(t[node], addr))
  {
    if node >= 0 && !Holds(s[node], addr) && forall m :: 0 <= m < |t| ==> Bounded(s[m]) {
      hide Sorted, Clashes, Bounded, Served;
      SortedAt(s, node);
      if FromBelow(s, node, addr, garbage) {
        GrownUp(s, node, addr, garbage);
      } else {
        GrownDown(s, node, addr, garbage);
      }
    }
  }

  /** The scan finds the only candidates. */
  lemma NeighboursFound(s: seq<Vma>, addr: nat, garbage: nat, node: int, prev: int, next: int)
    requires Sorted(s) && -1 <= node < |s| && -1 <= prev < |s| && -1 <= next < |s|
    requires node >= 0 ==> Holds(s[node], addr)
    requires node == -1 ==> forall m :: 0 <= m < |s| ==> !Holds(s[m], addr)
    requires node == -1 ==> forall m :: 0 <= m < |s| ==> (m <= prev <==> s[m].end <= addr)
    requires node == -1 ==> forall m :: 0 <= m < |s| ==> (next == -1 || m < next <==> s[m].start <= addr)
    ensures forall k :: 0 <= k < |s| && Holds(s[k], addr) ==> k == node
    ensures forall k :: FromBelow(s, k, addr, garbage) <==> node == -1 && k == prev >= 0 && GrowsUpTo(s, k, addr, garbage)
    ensures forall k :: FromAbove(s, k, addr, garbage) <==> node == -1 && k == next >= 0 && GrowsDownTo(s, k, addr, garbage)
    ensures Served(s, addr, garbage) <==>
      || node >= 0 || (prev >= 0 && GrowsUpTo(s, prev, addr, garbage)) || (next >= 0 && GrowsDownTo(s, next, addr, garbage))
  {
    hide GrowsUpTo, GrowsDownTo;
  }

  /** The region may grow down to cover `addr`: it is growable, `addr` lies within
      the page below it, the limit is not reached and the page does not clash. */
  ghost predicate GrowsDownTo(s: seq<Vma>, k: nat, addr: nat, garbage: nat)
    requires k < |s|
  {
    && s[k].flags & GROWS_DOWN != 0
    && (Holds(s[k], addr) ||
        (addr < s[k].start && s[k].start - addr <= PAGE
         && (s[k].maxSize == UNLIMITED || s[k].end < s[k].maxSize * PAGE % WORD + addr)
         && !Clashes(s, Sub(s[k].start, PAGE), s[k].start, garbage)))
  }

  /** If there is a page below the region, that means that it is vacant. */
  lemma BelowVacant(s: seq<Vma>, k: nat, garbage: nat)
    requires Sorted(s) && k < |s|
    ensures s[k].start >= PAGE ==>
      (Clashes(s, Sub(s[k].start, PAGE), s[k].start, garbage) <==> !Vacant(s, s[k].start - PAGE, s[k].start))
  {
    assert s[k].start >= PAGE ==> Sub(s[k].start, PAGE) == s[k].start - PAGE < s[k].end;
  }

  /** Above the last region the record around the list head decides. */
  lemma AboveVacant(s: seq<Vma>, k: nat, garbage: nat)
    requires Sorted(s) && k < |s|
    ensures s[k].end + PAGE < WORD ==>
      (Clashes(s, s[k].end, Add(s[k].end, PAGE), garbage) <==>
        if k == |s| - 1 then garbage < s[k].end + PAGE else !Vacant(s, s[k].end, s[k].end + PAGE))
  {
    LastEnds(s, k);
    assert s[k].end + PAGE < WORD ==> Add(s[k].end, PAGE) == s[k].end + PAGE;
  }

  /** For a region of whole pages within its limit that is: `addr` lies in the page below,
      the page is vacant, and one more page is within the limit; but for the lowest byte
      of that page the code asks for room for yet another one. */
  lemma GrowsDownMeans(s: seq<Vma>, k: nat, addr: nat, garbage: nat)
    requires Sorted(s) && k < |s| && s[k].start >= PAGE && Within(s[k]) && !Holds(s[k], addr)
    requires s[k].maxSize != UNLIMITED ==> s[k].maxSize * PAGE < WORD
    ensures var v := s[k];
            var more := if addr + PAGE == v.start then 2 else 1;
            GrowsDownTo(s, k, addr, garbage) <==>
              && v.flags & GROWS_DOWN != 0 && v.start - PAGE <= addr < v.start && Vacant(s, v.start - PAGE, v.start)
              && (v.maxSize != UNLIMITED ==> (v.end - v.start) / PAGE + more <= v.maxSize)
  {
    var v := s[k];
    BelowVacant(s, k, garbage);
    hide Sorted, Clashes, Vacant;
    assert v.start < v.end by {
      SortedAt(s, k);
    }
    if v.maxSize != UNLIMITED {
      assert v.end - v.start == (v.end - v.start) / PAGE * PAGE;
    }
  }

  /** And for growing up: the page above, below the record around the list head if the
      region is the last one. */
  lemma GrowsUpMeans(s: seq<Vma>, k: nat, addr: nat, garbage: nat)
    requires Sorted(s) && k < |s| && s[k].end + PAGE < WORD && Within(s[k]) && !Holds(s[k], addr)
    requires s[k].maxSize != UNLIMITED ==> s[k].maxSize * PAGE < WORD
    ensures var v := s[k];
            GrowsUpTo(s, k, addr, garbage) <==>
              && v.flags & GROWS_UP != 0 && v.end <= addr < v.end + PAGE
              && (if k == |s| - 1 then v.end + PAGE <= garbage else Vacant(s, v.end, v.end + PAGE))
              && (v.maxSize != UNLIMITED ==> (v.end - v.start) / PAGE + 1 <= v.maxSize)
  {
    var v := s[k];
    AboveVacant(s, k, garbage);
    hide Sorted, Clashes, Vacant;
    assert v.start < v.end by {
      SortedAt(s, k);
    }
    if v.maxSize != UNLIMITED {
      assert v.end - v.start == (v.end - v.start) / PAGE * PAGE;
    }
  }

  /** There is a page below the region, or wrapping around stays inside it. */
  predicate RoomBelow(v: Vma) { v.start >= PAGE || v.start + WORD - PAGE < v.end }

  lemma SortedAt(s: seq<Vma>, k: nat)
    requires Sorted(s) && k < |s|
    ensures s[k].start < s[k].end < WORD
  {
  }

  lemma GrowSorted(s: seq<Vma>, k: nat)
    requires Sorted(s) && k < |s|
    requires s[k].start >= PAGE ==> Vacant(s, s[k].start - PAGE, s[k].start)
    ensures Sorted(s[k := s[k].(start := Sub(s[k].start, PAGE))]) <==> RoomBelow(s[k])
  {
    var out := s[k := s[k].(start := Sub(s[k].start, PAGE))];
    forall m | 0 <= m < k && s[k].start >= PAGE
      ensures s[m].end <= s[k].start - PAGE
    {
      assert !Meets(s[m], s[k].start - PAGE, s[k].start);
    }
    assert out[k].start == if s[k].start >= PAGE then s[k].start - PAGE else s[k].start + WORD - PAGE;
  }

  /** The region is made of whole pages and within its limit. */
  ghost predicate Within(v: Vma) {
    v.maxSize == UNLIMITED ||
    (v.start <= v.end && (v.end - v.start) % PAGE == 0 && v.end - v.start <= v.maxSize * PAGE)
  }

  /** Growing down by a page keeps a whole-page region within its limit. */
  lemma GrowWithin(s: seq<Vma>, k: nat, addr: nat, garbage: nat)
    requires Sorted(s) && k < |s| && s[k].start >= PAGE && GrowsDownTo(s, k, addr, garbage) && !Holds(s[k], addr)
    requires Within(s[k]) && (s[k].maxSize == UNLIMITED || s[k].maxSize * PAGE < WORD)
    ensures Within(s[k].(start := s[k].start - PAGE))
  {
    var v := s[k];
    if v.maxSize != UNLIMITED {
      var pages := (v.end - v.start) / PAGE;
      assert v.end - v.start == pages * PAGE;
      assert pages < v.maxSize;
    }
  }

  /** The region may grow up to cover `addr`, likewise. */
  ghost predicate GrowsUpTo(s: seq<Vma>, k: nat, addr: nat, garbage: nat)
    requires k < |s|
  {
    && s[k].flags & GROWS_UP != 0
    && (Holds(s[k], addr) ||
        (s[k].end <= addr < s[k].end + PAGE && s[k].start <= addr
         && (s[k].maxSize == UNLIMITED || addr - s[k].start < s[k].maxSize * PAGE % WORD)
         && !Clashes(s, s[k].end, Add(s[k].end, PAGE), garbage)))
  }

  predicate RoomAbove(v: Vma) { v.end + PAGE < WORD || v.start + WORD < v.end + PAGE }

  lemma LastEnds(s: seq<Vma>, k: nat)
    requires Sorted(s) && k < |s|
    ensures k == |s| - 1 ==> forall m :: 0 <= m < |s| ==> s[m].end <= s[k].end
    ensures k < |s| - 1 ==> s[k].end < s[k+1].end
  {
  }

  lemma GrowUpSorted(s: seq<Vma>, k: nat)
    requires Sorted(s) && k < |s|
    requires s[k].end + PAGE < WORD && k < |s| - 1 ==> Vacant(s, s[k].end, s[k].end + PAGE)
    ensures Sorted(s[k := s[k].(end := Add(s[k].end, PAGE))]) <==> RoomAbove(s[k])
  {
    var out := s[k := s[k].(end := Add(s[k].end, PAGE))];
    forall m | k < m < |s| && s[k].end + PAGE < WORD
      ensures s[k].end + PAGE <= s[m].start
    {
      assert !Meets(s[m], s[k].end, s[k].end + PAGE);
    }
    assert out[k].end == if s[k].end + PAGE < WORD then s[k].end + PAGE else s[k].end + PAGE - WORD;
  }

  /** A region whose limit keeps it away from both ends of the address space. */
  ghost predicate Bounded(v: Vma) {
    && Within(v)
    && (v.flags & GROWS_DOWN != 0 ==> v.maxSize != UNLIMITED && (v.maxSize + 1) * PAGE <= v.end)
    && (v.flags & GROWS_UP != 0 ==> v.maxSize != UNLIMITED && v.start + (v.maxSize + 1) * PAGE < WORD)
  }

  lemma BoundedFacts(s: seq<Vma>, k: nat)
    requires Sorted(s) && k < |s| && Bounded(s[k])
    ensures s[k].flags & GROWS_DOWN != 0 ==> s[k].start >= PAGE
    ensures s[k].flags & GROWS_UP != 0 ==> s[k].end + PAGE < WORD
  {
  }

  /** The region keeps a page's distance from both ends of the address space. */
  predicate Inland(v: Vma) { v.start >= PAGE && v.end + PAGE < WORD }

  /** Where the region grew there was room for it. */
  predicate GrewInRoom(was: Vma, now: Vma) {
    (was.start != now.start ==> RoomBelow(was)) && (was.end != now.end ==> RoomAbove(was))
  }

  lemma GrownUp(s: seq<Vma>, k: nat, addr: nat, garbage: nat)
    requires Sorted(s) && k < |s| && s[k].flags & GROWS_UP != 0
    ensures s[k].end != Add(s[k].end, PAGE)
    ensures Bounded(s[k]) ==> Add(s[k].end, PAGE) == s[k].end + PAGE < WORD
    ensures Bounded(s[k]) && GrowsUpTo(s, k, addr, garbage) && !Holds(s[k], addr) ==>
              Bounded(s[k].(end := Add(s[k].end, PAGE)))
  {
    if Bounded(s[k]) {
      BoundedFacts(s, k);
      if GrowsUpTo(s, k, addr, garbage) {
        GrowUpBounded(s, k, addr, garbage);
      }
    }
  }

  lemma GrownDown(s: seq<Vma>, k: nat, addr: nat, garbage: nat)
    requires Sorted(s) && k < |s| && s[k].flags & GROWS_DOWN != 0
    ensures s[k].start != Sub(s[k].start, PAGE)
    ensures Bounded(s[k]) ==> s[k].start >= PAGE && Sub(s[k].start, PAGE) == s[k].start - PAGE
    ensures Bounded(s[k]) && s[k].start >= PAGE && GrowsDownTo(s, k, addr, garbage) && !Holds(s[k], addr) ==>
              Bounded(s[k].(start := Sub(s[k].start, PAGE)))
  {
    if Bounded(s[k]) {
      BoundedFacts(s, k);
      if GrowsDownTo(s, k, addr, garbage) {
        GrowDownBounded(s, k, addr, garbage);
      }
    }
  }

  lemma GrowDownBounded(s: seq<Vma>, k: nat, addr: nat, garbage: nat)
    requires Sorted(s) && k < |s| && Bounded(s[k]) && s[k].start >= PAGE && GrowsDownTo(s, k, addr, garbage)
    ensures !Holds(s[k], addr) ==> Bounded(s[k].(start := s[k].start - PAGE))
  {
    if !Holds(s[k], addr) {
      GrowWithin(s, k, addr, garbage);
    }
  }

  lemma GrowUpBounded(s: seq<Vma>, k: nat, addr: nat, garbage: nat)
    requires Sorted(s) && k < |s| && Bounded(s[k]) && GrowsUpTo(s, k, addr, garbage)
    ensures !Holds(s[k], addr) ==> Bounded(s[k].(end := s[k].end + PAGE))
  {
    var v := s[k];
    if !Holds(v, addr) {
      var pages := (v.end - v.start) / PAGE;
      assert v.end - v.start == pages * PAGE;
      assert pages < v.maxSize;
    }
  }
}
