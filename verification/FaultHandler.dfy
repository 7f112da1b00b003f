/** sys/memory/page_fault_handler.c: the page-fault handler, procedure by
    procedure, proved to do what `CowFaults.Handle` says. Address spaces are
    the trees that the page-table code keeps in memory. */
module FaultHandler {
  import opened PageBits
  import opened PageTree
  import opened PageStore
  import opened PageForkRoot
  import opened SpaceTables
  import opened CowMemory
  import opened CowFaults

  const COW_ERROR: int := -1
  const NOT_COW: int := 1

  class Handler {
    var spaces: seq<Table>
    var vma: seq<map<Path, Prot>>
    var desc: Descs
    var owned: set<Frame>
    var data: map<Frame, Data>
    /** The free frames, in the order the allocator would hand them out. */
    var pool: seq<Frame>

    /** The kernel's entry of every root, its regions, and its map of physical memory. */
    var kernel: Slot
    var kvma: map<Path, Prot>
    var direct: map<Path, Frame>

    function State(): Sys
      reads this
    {
      Sys(spaces, vma, desc, owned, data, kernel, kvma, direct)
    }

    /** alloc_phys_pages(1): the next free frame with a reference, or 0. */
    method AllocPhysPage() returns (f: Frame)
      modifies this`pool, this`desc
      ensures old(pool) == [] ==> f == Frame(0) && pool == old(pool) && desc == old(desc)
      ensures old(pool) != [] ==> f == old(pool)[0] && pool == old(pool)[1..] && desc == Claimed(old(desc), old(pool), 1)
    {
      if pool == [] {
        return Frame(0);
      }
      f := pool[0];
      pool := pool[1..];
      if f in desc {
        desc := desc[f := desc[f].(refcount := desc[f].refcount + 1)];
      }
      assert old(pool)[0] in Taken(old(pool), 1);
    }

    /** update_curr_page_table, at any address. */
    method UpdateCurrPageTable(i: nat, path: Path, e: Pte)
      requires Placed(State(), i, path) && Supply(pool, {}) && Lacking(State(), i, path) <= |pool|
      modifies this`spaces, this`kernel, this`desc, this`owned, this`pool
      ensures State() == MapPage(old(State()), i, path, e, old(pool))
    {
      hide Put, Missing, Gap, Graft, Claimed, IsFrame, Lookup, MapWindow;
      var n := Lacking(State(), i, path);
      if Window(path) {
        MapWindowOnly(State(), i, path, e, pool);
        var s := MapWindow(State(), i, path, e, pool);
        spaces, kernel := s.spaces, s.kernel;
      } else if KernelPath(path) {
        kernel := KernelPut(kernel, path, e, pool);
      } else {
        spaces := spaces[i := Put(spaces[i], path, e, pool)];
      }
      desc := Claimed(desc, pool, n);
      owned := owned + Taken(pool, n);
      pool := pool[n..];
    }

    /** check_page_prot: give the page its region's permissions, unless it has
        them already. The comparison is one of permission bits. */
    method CheckPageProt(i: nat, path: Path, prot: Prot) returns (r: int)
      requires Placed(State(), i, path) && Lacking(State(), i, path) == 0 && Supply(pool, {})
      modifies this`spaces, this`kernel, this`desc, this`owned, this`pool
      ensures PermOf(At4(old(State()), i, path)) == prot ==> r == -1 && State() == old(State())
      ensures PermOf(At4(old(State()), i, path)) != prot ==> r == 0 && State() == Protect(old(State()), i, path, prot)
    {
      var e := At4(State(), i, path);
      var perm := PermBits(Bits(PermOf(e)));
      DecodeBits(PermOf(e));
      BitsMeanProt(prot, e.frame, Bits(PermOf(e)));
      if Bits(prot) == perm {
        return -1;
      }
      MapNoPool(State(), i, path, Leaf(e.frame, prot), pool);
      UpdateCurrPageTable(i, path, Leaf(e.frame, prot));
      r := 0;
    }

    /** cow: a write to a page in copy-on-write mode. Without a frame for the copy the
        process is terminated, its reference given up. */
    method Cow(i: nat, path: Path, prot: Prot) returns (status: int, killed: bool)
      requires Placed(State(), i, path) && Lacking(State(), i, path) == 0 && Supply(pool, {})
      requires At4(State(), i, path).frame in desc ==> At4(State(), i, path).frame in data
      modifies this`spaces, this`kernel, this`desc, this`owned, this`pool, this`data
      ensures var s, f := old(State()), At4(old(State()), i, path).frame;
        if f !in s.desc then status == COW_ERROR && State() == s && !killed
        else if !s.desc[f].cow then status == NOT_COW && State() == s && !killed
        else if s.desc[f].refcount == 1 then
          if PermOf(At4(s, i, path)) == prot then status == COW_ERROR && State() == Unflag(s, f) && !killed
          else status == 0 && State() == Protect(Unflag(s, f), i, path, prot) && !killed
        else if s.desc[f].refcount == 0 then status == COW_ERROR && State() == s && !killed
        else if old(pool) == [] then status == COW_ERROR && killed && State() == Less(s, f)
        else status == 0 && State() == Copy(s, i, path, prot, old(pool)) && !killed
      ensures status == NOT_COW ==> pool == old(pool)
    {
      hide Lookup, WellFormed, Missing, Claimed, IsFrame, MapPage, Protect, Copy;
      killed := false;
      var f := At4(State(), i, path).frame;
      if f !in desc {
        return COW_ERROR, false;
      }
      if !desc[f].cow {
        return NOT_COW, false;
      }
      if desc[f].refcount == 1 {
        desc := desc[f := desc[f].(cow := false)];
        status := CheckPageProt(i, path, prot);
        return;
      }
      if desc[f].refcount == 0 {
        return COW_ERROR, false;
      }
      status, killed := CopyShared(i, path, prot);
    }

    /** The end of cow: a page shared by others is copied. */
    method CopyShared(i: nat, path: Path, prot: Prot) returns (status: int, killed: bool)
      requires Placed(State(), i, path) && Lacking(State(), i, path) == 0 && Supply(pool, {})
      requires At4(State(), i, path).frame in desc && At4(State(), i, path).frame in data
      requires desc[At4(State(), i, path).frame].refcount >= 2
      modifies this`spaces, this`kernel, this`desc, this`owned, this`pool, this`data
      ensures if old(pool) == [] then
          status == COW_ERROR && killed && State() == Less(old(State()), At4(old(State()), i, path).frame)
        else status == 0 && !killed && State() == Copy(old(State()), i, path, prot, old(pool))
    {
      hide Lookup, WellFormed, Missing, Claimed, IsFrame, MapPage;
      var f := At4(State(), i, path).frame;
      desc := desc[f := desc[f].(refcount := desc[f].refcount - 1)];
      var copy := AllocPhysPage();
      if copy == Frame(0) {
        return COW_ERROR, true;
      }
      data := data[copy := data[f]];
      owned := PageTaken(State(), path, copy);
      UpdateCurrPageTable(i, path, Leaf(copy, prot));
      status, killed := 0, false;
    }

    /** page_present_write. */
    method PagePresentWrite(a: Access, node: Option<Prot>) returns (r: int, killed: bool)
      requires HandlePre(State(), a, pool) && Translated(State(), a.space, a.path).present && a.write
      requires node == Region(State(), a)
      modifies this`spaces, this`kernel, this`desc, this`owned, this`pool, this`data
      ensures State() == Handle(old(State()), a, old(pool)).0
      ensures killed <==> Handle(old(State()), a, old(pool)).1 == Killed
      ensures !killed ==> (r == 0 <==> Handle(old(State()), a, old(pool)).1 == Resolved)
    {
      hide Lookup, Missing, Put, Claimed, IsFrame, Protect, Copy;
      r, killed := -1, false;
      if node == None {
        return;
      }
      var prot := node.value;
      PresentNothingLacking(State(), a.space, a.path);
      if prot.write {
        var status;
        status, killed := Cow(a.space, a.path, prot);
        if status != NOT_COW {
          return status, killed;
        }
        if a.user && !prot.user {
          return -1, true;
        }
        var ok := CheckPageProt(a.space, a.path, prot);
        if ok == 0 {
          return 0, false;
        }
      }
      killed := true;
    }

    /** page_present_read. */
    method PagePresentRead(a: Access, node: Option<Prot>) returns (r: int, killed: bool)
      requires HandlePre(State(), a, pool) && Translated(State(), a.space, a.path).present && !a.write
      requires node == Region(State(), a)
      modifies this`spaces, this`kernel, this`desc, this`owned, this`pool
      ensures State() == Handle(old(State()), a, old(pool)).0
      ensures killed <==> Handle(old(State()), a, old(pool)).1 == Killed
      ensures !killed ==> (r == 0 <==> Handle(old(State()), a, old(pool)).1 == Resolved)
    {
      hide Lookup, Missing, Put, Claimed, IsFrame, Protect;
      r, killed := -1, false;
      if node == None {
        return;
      }
      var prot := node.value;
      PresentNothingLacking(State(), a.space, a.path);
      if a.user && !prot.user {
        return -1, true;
      }
      var ok := CheckPageProt(a.space, a.path, prot);
      if ok == 0 {
        return 0, false;
      }
      killed := true;
    }

    /** page_not_present. */
    method PageNotPresent(a: Access, node: Option<Prot>) returns (r: int, killed: bool)
      requires HandlePre(State(), a, pool) && !Translated(State(), a.space, a.path).present
      requires node == Region(State(), a)
      modifies this`spaces, this`kernel, this`desc, this`owned, this`pool
      ensures State() == Handle(old(State()), a, old(pool)).0
      ensures killed <==> Handle(old(State()), a, old(pool)).1 == Killed
      ensures !killed ==> (r == 0 <==> Handle(old(State()), a, old(pool)).1 == Resolved)
    {
      hide Lookup, Missing, Put, Claimed, IsFrame, KernelPut;
      if node == None {
        return -1, true;
      }
      var f := AllocPhysPage();
      if f == Frame(0) {
        return -1, true;
      }
      owned := PageTaken(State(), a.path, f);
      UpdateCurrPageTable(a.space, a.path, Leaf(f, node.value));
      r, killed := 0, false;
    }

    /** page_fault_handler for space `i`: the address from CR2, and the present, write
        and user bits of the error code. */
    method PageFaultHandler(faultAddr: bv64, i: nat, present: bool, write: bool, user: bool) returns (r: int, killed: bool)
      requires Canonical(faultAddr) && HandlePre(State(), Access(i, PathOf(faultAddr), write, user), pool)
      requires present == Translated(State(), i, PathOf(faultAddr)).present
      modifies this`spaces, this`kernel, this`desc, this`owned, this`pool, this`data
      ensures var a := Access(i, PathOf(faultAddr), write, user);
              && State() == Handle(old(State()), a, old(pool)).0
              && (killed <==> Handle(old(State()), a, old(pool)).1 == Killed)
              && (!killed ==> (r == 0 <==> Handle(old(State()), a, old(pool)).1 == Resolved))
    {
      KernelAddress(faultAddr);
      hide PathOf, Canonical, Handle, HandlePre, Translated;
      var a := Access(i, PathOf(faultAddr), write, user);
      RegionPossible(State(), a, pool);
      var regions := if faultAddr >= START_KERNEL then kvma else vma[i];
      var node := if a.path in regions then Some(regions[a.path]) else None;
      if present {
        if write {
          r, killed := PagePresentWrite(a, node);
        } else {
          r, killed := PagePresentRead(a, node);
        }
      } else {
        r, killed := PageNotPresent(a, node);
      }
    }
  }

  lemma RegionPossible(s: Sys, a: Access, fs: seq<Frame>)
    requires HandlePre(s, a, fs)
    ensures a.space < |s.vma|
  {
  }

  /** The addresses looked up in the kernel's regions are those of its pages. */
  lemma KernelAddress(va: bv64)
    requires Canonical(va)
    ensures va >= START_KERNEL <==> InKernel(PathOf(va))
  {
  }
}
