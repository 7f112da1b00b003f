/** sys/memory/kmalloc.c within the static arena: a first-fit allocator whose
    free list runs through headers kept in front of the blocks themselves. */
module Kmalloc {

  /** Bytes of a block header, FL_SIZE. */
  const HEADER: nat := 16

  /** KM_STATIC_SIZE. */
  const ARENA: nat := 4096 * 10240

  // ---------- blocks that tile the arena ----------

  /** The payload size of every block by the address of its header. */
  type Blocks = map<nat, nat>

  /** The address after block `a`. */
  function After(all: Blocks, a: nat): nat
    requires a in all
  {
    a + HEADER + all[a]
  }

  /** Blocks follow one another without gap or overlap from `base` to the end. */
  ghost predicate Tiles(all: Blocks, base: nat) {
    && base in all
    && (forall a :: a in all ==> base <= a && all[a] >= 1 && a + HEADER + all[a] <= base + ARENA)
    && (forall a {:trigger After(all, a)} :: a in all ==> After(all, a) in all || After(all, a) == base + ARENA)
    && (forall a, b {:trigger After(all, a), b in all} :: a in all && b in all && a < b ==> After(all, a) <= b)
  }

  lemma NoOverlap(all: Blocks, base: nat, a: nat, b: nat, x: nat)
    requires Tiles(all, base) && a in all && b in all
    requires a <= x < After(all, a) && b <= x < After(all, b)
    ensures a == b
  {
  }

  lemma {:induction false} ByteInBlock(all: Blocks, base: nat, x: nat) returns (a: nat)
    requires Tiles(all, base) && base <= x < base + ARENA
    ensures a in all && a <= x < After(all, a)
    decreases x
  {
    if x in all {
      a := x;
    } else {
      a := ByteInBlock(all, base, x - 1);
      assert After(all, a) in all || After(all, a) == base + ARENA;
    }
  }

  /** Every byte of the arena lies in exactly one block. */
  lemma ByteInOneBlock(all: Blocks, base: nat, x: nat) returns (a: nat)
    requires Tiles(all, base) && base <= x < base + ARENA
    ensures a in all && a <= x < After(all, a)
    ensures forall b :: b in all && b <= x < After(all, b) ==> b == a
  {
    a := ByteInBlock(all, base, x);
    forall b | b in all && b <= x < After(all, b) ensures b == a {
      NoOverlap(all, base, a, b, x);
    }
  }

  /** Block `a` cut after `n` payload bytes. */
  function Cut(all: Blocks, a: nat, n: nat): Blocks
    requires a in all && n + HEADER <= all[a]
  {
    all[a := n][a + HEADER + n := all[a] - n - HEADER]
  }

  lemma CutTiles(all: Blocks, base: nat, a: nat, n: nat)
    requires Tiles(all, base) && a in all && 1 <= n && n + HEADER < all[a]
    ensures Tiles(Cut(all, a, n), base)
    ensures a + HEADER + n !in all
  {
    var b, c := a + HEADER + n, Cut(all, a, n);
    assert b !in all by { assert b < After(all, a); }
    forall x | x in c ensures After(c, x) in c || After(c, x) == base + ARENA {
      assert x != b ==> x in all && (After(all, x) in all || After(all, x) == base + ARENA);
      assert After(all, a) in all || After(all, a) == base + ARENA;
    }
    forall x, y | x in c && y in c && x < y ensures After(c, x) <= y {
      if x != b { assert y in all ==> After(all, x) <= y; }
      if x != b && x != a { assert x < a ==> After(all, x) <= a; }
      assert y in all && a < y ==> After(all, a) <= y;
      assert x in all && a < x ==> After(all, a) <= x;
    }
  }

  /** Block `a` joined with the block after it. */
  function Join(all: Blocks, a: nat): Blocks
    requires a in all && After(all, a) in all
  {
    (all - {After(all, a)})[a := all[a] + HEADER + all[After(all, a)]]
  }

  lemma JoinTiles(all: Blocks, base: nat, a: nat)
    requires Tiles(all, base) && a in all && After(all, a) in all
    ensures Tiles(Join(all, a), base)
  {
    var b, c := After(all, a), Join(all, a);
    forall x | x in c ensures After(c, x) in c || After(c, x) == base + ARENA {
      assert After(all, x) in all || After(all, x) == base + ARENA;
      assert After(all, b) in all || After(all, b) == base + ARENA;
      assert x < a ==> After(all, x) <= a;
    }
    forall x, y | x in c && y in c && x < y ensures After(c, x) <= y {
      assert After(all, x) <= y;
      assert b < y ==> After(all, b) <= y;
    }
  }

  // ---------- the free blocks among them ----------

  datatype Heap = Heap(all: Blocks, free: seq<nat>)

  /** The free list is sorted by address, holds blocks of the arena and no two
      that touch. */
  ghost predicate FreeOk(h: Heap) {
    && (forall i :: 0 <= i < |h.free| ==> h.free[i] in h.all)
    && (forall i, j :: 0 <= i < j < |h.free| ==> After(h.all, h.free[i]) < h.free[j])
  }

  ghost predicate HeapOk(h: Heap, base: nat) {
    base > 0 && Tiles(h.all, base) && FreeOk(h)
  }

  /** Blocks in use, `a` aside, stay where they are and stay in use. */
  ghost predicate KeepsUsed(h: Heap, h': Heap, a: nat) {
    forall b :: b in h.all && b !in h.free && b != a ==> b in h'.all && h'.all[b] == h.all[b] && b !in h'.free
  }

  function Without<T>(s: seq<T>, i: nat): seq<T>
    requires i < |s|
  {
    s[..i] + s[i+1..]
  }

  function With<T>(s: seq<T>, i: nat, x: T): seq<T>
    requires i <= |s|
  {
    s[..i] + [x] + s[i..]
  }

  /** Free block `i` handed out for `n` bytes: what is left of it stays free when it
      is more than a header. */
  function Taken(h: Heap, i: nat, n: nat): Heap
    requires i < |h.free| && h.free[i] in h.all && n <= h.all[h.free[i]]
  {
    var a := h.free[i];
    if h.all[a] - n > HEADER then Heap(Cut(h.all, a, n), h.free[i := a + HEADER + n])
    else Heap(h.all, Without(h.free, i))
  }

  lemma CutFree(h: Heap, i: nat, n: nat)
    requires FreeOk(h) && i < |h.free| && n + HEADER < h.all[h.free[i]]
    ensures FreeOk(Heap(Cut(h.all, h.free[i], n), h.free[i := h.free[i] + HEADER + n]))
  {
    var a := h.free[i];
    forall j | 0 <= j < |h.free| && j != i ensures h.free[j] != a + HEADER + n && h.free[j] != a {
      assert j < i ==> After(h.all, h.free[j]) < h.free[i];
      assert j > i ==> After(h.all, h.free[i]) < h.free[j];
    }
  }

  lemma WithoutFree(h: Heap, i: nat)
    requires FreeOk(h) && i < |h.free|
    ensures FreeOk(Heap(h.all, Without(h.free, i)))
    ensures h.free[i] !in Without(h.free, i)
    ensures forall b :: b in Without(h.free, i) ==> b in h.free
  {
  }

  lemma CutOk(h: Heap, base: nat, i: nat, n: nat)
    requires HeapOk(h, base) && i < |h.free| && h.free[i] in h.all && 1 <= n && n + HEADER < h.all[h.free[i]]
    ensures HeapOk(Taken(h, i, n), base) && h.free[i] !in Taken(h, i, n).free
    ensures KeepsUsed(h, Taken(h, i, n), h.free[i])
  {
    hide Tiles, FreeOk, Without;
    CutTiles(h.all, base, h.free[i], n);
    CutFree(h, i, n);
    OnceFree(h, i);
  }

  lemma OnceFree(h: Heap, i: nat)
    requires FreeOk(h) && i < |h.free|
    ensures forall j :: 0 <= j < |h.free| && j != i ==> h.free[j] != h.free[i]
  {
    forall j | 0 <= j < |h.free| && j != i ensures h.free[j] != h.free[i] {
      assert j < i ==> After(h.all, h.free[j]) < h.free[i];
      assert j > i ==> After(h.all, h.free[i]) < h.free[j];
    }
  }

  lemma WholeOk(h: Heap, base: nat, i: nat, n: nat)
    requires HeapOk(h, base) && i < |h.free| && h.free[i] in h.all && n <= h.all[h.free[i]] <= n + HEADER
    ensures HeapOk(Taken(h, i, n), base) && h.free[i] !in Taken(h, i, n).free
    ensures KeepsUsed(h, Taken(h, i, n), h.free[i])
  {
    hide Tiles, FreeOk, Without;
    WithoutFree(h, i);
  }

  /** A block is given out with at least `n` and at most `n` + 16 bytes, no block in
      use moves or changes, and the arena stays tiled. */
  lemma TakenOk(h: Heap, base: nat, i: nat, n: nat)
    requires HeapOk(h, base) && i < |h.free| && 1 <= n <= h.all[h.free[i]]
    ensures HeapOk(Taken(h, i, n), base)
    ensures var h' := Taken(h, i, n);
            && h.free[i] in h'.all && h.free[i] !in h'.free
            && n <= h'.all[h.free[i]] <= n + HEADER
            && KeepsUsed(h, h', h.free[i])
  {
    hide Tiles, KeepsUsed, Without;
    if h.all[h.free[i]] - n > HEADER {
      CutOk(h, base, i, n);
    } else {
      WholeOk(h, base, i, n);
    }
  }

  /** `a` goes before free block `i`: the number of free blocks below it. */
  ghost predicate Place(free: seq<nat>, i: nat, a: nat) {
    && i <= |free|
    && (forall j :: 0 <= j < i ==> free[j] < a)
    && (forall j :: i <= j < |free| ==> a < free[j])
  }

  function JoinedUp(h: Heap, i: nat, a: nat): Heap
    requires i <= |h.free| && a in h.all
  {
    if i < |h.free| && After(h.all, a) == h.free[i] && h.free[i] in h.all then
      Heap(Join(h.all, a), h.free[i := a])
    else Heap(h.all, With(h.free, i, a))
  }

  function JoinedDown(h: Heap, i: nat): Heap
    requires i < |h.free|
  {
    if i > 0 && h.free[i-1] in h.all && h.free[i] in h.all && After(h.all, h.free[i-1]) == h.free[i] then
      Heap(Join(h.all, h.free[i-1]), Without(h.free, i))
    else h
  }

  /** Block `a` put back at place `i` and joined with the free blocks it touches. */
  function Freed(h: Heap, i: nat, a: nat): Heap
    requires i <= |h.free| && a in h.all
  {
    JoinedDown(JoinedUp(h, i, a), i)
  }

  /** As FreeOk, but the block at place `i` may touch the one below it. */
  ghost predicate NearlyOk(h: Heap, i: nat) {
    && (forall j :: 0 <= j < |h.free| ==> h.free[j] in h.all)
    && (forall j, k :: 0 <= j < k < |h.free| ==> After(h.all, h.free[j]) <= h.free[k])
    && (forall j, k :: 0 <= j < k < |h.free| && k != i ==> After(h.all, h.free[j]) != h.free[k])
  }

  /** Free blocks below `a` end before it and those above begin after it. */
  ghost predicate Between(h: Heap, i: nat, a: nat)
    requires a in h.all
  {
    && i <= |h.free|
    && (forall j :: 0 <= j < i ==> h.free[j] in h.all && After(h.all, h.free[j]) <= a)
    && (forall j :: i <= j < |h.free| ==> After(h.all, a) <= h.free[j])
  }

  lemma PlaceBetween(h: Heap, base: nat, i: nat, a: nat)
    requires HeapOk(h, base) && a in h.all && Place(h.free, i, a)
    ensures Between(h, i, a)
  {
    forall j | i <= j < |h.free| ensures After(h.all, a) <= h.free[j] {
      assert h.free[j] in h.all;
    }
  }

  lemma JoinUpNearly(h: Heap, i: nat, a: nat)
    requires FreeOk(h) && a in h.all && Between(h, i, a)
    requires i < |h.free| && After(h.all, a) == h.free[i]
    ensures NearlyOk(Heap(Join(h.all, a), h.free[i := a]), i)
  {
    var c, f := Join(h.all, a), h.free[i := a];
    forall j | 0 <= j < |f| && j != i ensures f[j] in c && After(c, f[j]) == After(h.all, f[j]) {
      assert j < i ==> After(h.all, h.free[j]) < h.free[i];
      assert j > i ==> After(h.all, h.free[i]) < h.free[j];
    }
    assert After(c, a) == After(h.all, h.free[i]);
  }

  lemma WithAt(free: seq<nat>, i: nat, a: nat, j: nat)
    requires i <= |free| && j <= |free|
    ensures |With(free, i, a)| == |free| + 1
    ensures With(free, i, a)[j] == if j < i then free[j] else if j == i then a else free[j-1]
  {
  }

  lemma WithNearly(h: Heap, i: nat, a: nat)
    requires FreeOk(h) && a in h.all && Between(h, i, a)
    requires i < |h.free| ==> After(h.all, a) != h.free[i]
    ensures NearlyOk(Heap(h.all, With(h.free, i, a)), i)
  {
    hide With;
    var f := With(h.free, i, a);
    WithAt(h.free, i, a, i);
    forall j | 0 <= j < |f| ensures f[j] in h.all {
      WithAt(h.free, i, a, j);
    }
    forall j, k | 0 <= j < k < |f| ensures After(h.all, f[j]) <= f[k] && (k != i ==> After(h.all, f[j]) != f[k]) {
      WithAt(h.free, i, a, j);
      WithAt(h.free, i, a, k);
      if j == i && k > i + 1 {
        assert After(h.all, h.free[i]) < h.free[k-1];
      }
    }
  }

  lemma JoinedUpOk(h: Heap, base: nat, i: nat, a: nat)
    requires HeapOk(h, base) && a in h.all && a !in h.free && Place(h.free, i, a)
    ensures var h1 := JoinedUp(h, i, a);
            && Tiles(h1.all, base) && i < |h1.free| && h1.free[i] == a && NearlyOk(h1, i)
            && KeepsUsed(h, h1, a)
  {
    hide Tiles, NearlyOk, Between, Place;
    PlaceBetween(h, base, i, a);
    if i < |h.free| && After(h.all, a) == h.free[i] {
      JoinTiles(h.all, base, a);
      JoinUpNearly(h, i, a);
    } else {
      WithNearly(h, i, a);
    }
  }

  lemma JoinDownFree(h: Heap, i: nat)
    requires NearlyOk(h, i) && 0 < i < |h.free| && After(h.all, h.free[i-1]) == h.free[i]
    ensures FreeOk(Heap(Join(h.all, h.free[i-1]), Without(h.free, i)))
  {
    var p, c, f := h.free[i-1], Join(h.all, h.free[i-1]), Without(h.free, i);
    forall j | 0 <= j < |h.free| && j != i && j != i - 1
      ensures h.free[j] in c && After(c, h.free[j]) == After(h.all, h.free[j])
    {
      assert j < i ==> After(h.all, h.free[j]) <= h.free[i-1];
      assert j > i ==> After(h.all, h.free[i]) <= h.free[j];
    }
    assert After(c, p) == After(h.all, h.free[i]);
  }

  lemma JoinedDownOk(h: Heap, base: nat, i: nat)
    requires base > 0 && Tiles(h.all, base) && i < |h.free| && NearlyOk(h, i)
    ensures HeapOk(JoinedDown(h, i), base)
    ensures KeepsUsed(h, JoinedDown(h, i), h.free[i])
  {
    hide Tiles;
    if i > 0 && After(h.all, h.free[i-1]) == h.free[i] {
      JoinTiles(h.all, base, h.free[i-1]);
      JoinDownFree(h, i);
    }
  }

  lemma FreedOk(h: Heap, base: nat, i: nat, a: nat)
    requires HeapOk(h, base) && a in h.all && a !in h.free && Place(h.free, i, a)
    ensures HeapOk(Freed(h, i, a), base)
    ensures KeepsUsed(h, Freed(h, i, a), a)
  {
    JoinedUpOk(h, base, i, a);
    JoinedDownOk(JoinedUp(h, i, a), base, i);
  }

  // ---------- bytes that are free ----------

  /** The byte lies in a free block. */
  ghost predicate FreeByte(h: Heap, x: nat) {
    exists a :: a in h.free && a in h.all && InBlock(h.all, a, x)
  }

  /** The byte lies in block `a` or its header. */
  ghost predicate InBlock(all: Blocks, a: nat, x: nat)
    requires a in all
  {
    a <= x < After(all, a)
  }

  /** The blocks in use. */
  ghost function Used(h: Heap): set<nat> { set a | a in h.all && a !in h.free }

  /** Every byte of the arena that is in no block in use is free, and no other. */
  lemma ByteFree(h: Heap, base: nat, x: nat)
    requires HeapOk(h, base)
    ensures FreeByte(h, x) <==> base <= x < base + ARENA && forall a :: a in Used(h) ==> !InBlock(h.all, a, x)
  {
    if base <= x < base + ARENA {
      var a := ByteInOneBlock(h.all, base, x);
      assert InBlock(h.all, a, x);
    }
  }

  lemma CutUsed(h: Heap, i: nat, n: nat)
    requires i < |h.free| && h.free[i] in h.all && n + HEADER < h.all[h.free[i]] && h.free[i] + HEADER + n !in h.all
    requires forall j :: 0 <= j < |h.free| && j != i ==> h.free[j] != h.free[i]
    ensures Used(Taken(h, i, n)) == Used(h) + {h.free[i]}
  {
    var b := h.free[i] + HEADER + n;
    KeptFree(h.free, i, b);
    assert Taken(h, i, n).free[i] == b;
  }

  lemma TakenUsed(h: Heap, base: nat, i: nat, n: nat)
    requires HeapOk(h, base) && i < |h.free| && 1 <= n <= h.all[h.free[i]]
    ensures Used(Taken(h, i, n)) == Used(h) + {h.free[i]}
  {
    hide Tiles, After;
    var a := h.free[i];
    OnceFree(h, i);
    if h.all[a] - n > HEADER {
      CutTiles(h.all, base, a, n);
      CutUsed(h, i, n);
    } else {
      WithoutFree(h, i);
      WithoutKeeps(h.free, i);
    }
  }

  lemma KeptFree(free: seq<nat>, i: nat, a: nat)
    requires i < |free|
    ensures forall b :: b in free && b != free[i] ==> b in free[i := a]
    ensures forall b :: b in free[i := a] ==> b in free || b == a
  {
    forall b | b in free && b != free[i] ensures b in free[i := a] {
      var j :| 0 <= j < |free| && free[j] == b;
      assert free[i := a][j] == b;
    }
  }

  lemma WithoutKeeps(free: seq<nat>, i: nat)
    requires i < |free|
    ensures forall b :: b in free && b != free[i] ==> b in Without(free, i)
    ensures forall b :: b in Without(free, i) ==> b in free
  {
  }

  lemma JoinedUpUsed(h: Heap, i: nat, a: nat)
    requires i <= |h.free| && a in h.all
    ensures Used(JoinedUp(h, i, a)) == Used(h) - {a} && i < |JoinedUp(h, i, a).free|
  {
    var h1 := JoinedUp(h, i, a);
    assert h1.free[i] == a;
    if i < |h.free| && After(h.all, a) == h.free[i] && h.free[i] in h.all {
      KeptFree(h.free, i, a);
    }
  }

  lemma JoinedDownUsed(h: Heap, i: nat)
    requires i < |h.free|
    ensures Used(JoinedDown(h, i)) == Used(h)
  {
    if i > 0 && h.free[i-1] in h.all && h.free[i] in h.all && After(h.all, h.free[i-1]) == h.free[i] {
      WithoutKeeps(h.free, i);
      assert Without(h.free, i)[i-1] == h.free[i-1];
    }
  }

  lemma FreedUsed(h: Heap, i: nat, a: nat)
    requires i <= |h.free| && a in h.all
    ensures Used(Freed(h, i, a)) == Used(h) - {a}
  {
    hide JoinedUp, JoinedDown, Used;
    JoinedUpUsed(h, i, a);
    JoinedDownUsed(JoinedUp(h, i, a), i);
  }

  /** A block handed out takes its bytes from the free ones. */
  lemma TakenBytes(h: Heap, base: nat, i: nat, n: nat, x: nat)
    requires HeapOk(h, base) && i < |h.free| && 1 <= n <= h.all[h.free[i]]
    ensures h.free[i] in Taken(h, i, n).all
    ensures FreeByte(Taken(h, i, n), x) <==> FreeByte(h, x) && !InBlock(Taken(h, i, n).all, h.free[i], x)
  {
    var a, h' := h.free[i], Taken(h, i, n);
    TakenOk(h, base, i, n);
    TakenUsed(h, base, i, n);
    hide HeapOk, Taken, FreeByte;
    ByteFree(h, base, x);
    ByteFree(h', base, x);
    assert forall b :: b in Used(h) ==> b in Used(h') && h'.all[b] == h.all[b];
    assert a in Used(h');
    assert forall b :: b in Used(h') ==> b == a || b in Used(h);
  }

  /** A block freed gives its bytes back, and no others. */
  lemma FreedBytes(h: Heap, base: nat, i: nat, a: nat, x: nat)
    requires HeapOk(h, base) && a in h.all && a !in h.free && Place(h.free, i, a)
    ensures FreeByte(Freed(h, i, a), x) <==> FreeByte(h, x) || InBlock(h.all, a, x)
  {
    var h' := Freed(h, i, a);
    FreedOk(h, base, i, a);
    FreedUsed(h, i, a);
    if InBlock(h.all, a, x) {
      UsedApart(h, base, a, x);
    }
    hide HeapOk, Freed, FreeByte;
    ByteFree(h, base, x);
    ByteFree(h', base, x);
    assert forall b :: b in Used(h') ==> b in Used(h) && b != a && h'.all[b] == h.all[b];
    assert forall b :: b in Used(h) && b != a ==> b in Used(h');
  }

  /** The bytes of block `a`, and no others, are free no more. */
  ghost predicate TakesBytes(h: Heap, h': Heap, a: nat) {
    a in h'.all && forall x: nat :: FreeByte(h', x) <==> FreeByte(h, x) && !InBlock(h'.all, a, x)
  }

  /** The bytes of block `a`, and no others, are free as well. */
  ghost predicate GivesBytes(h: Heap, h': Heap, a: nat) {
    a in h.all && forall x: nat :: FreeByte(h', x) <==> FreeByte(h, x) || InBlock(h.all, a, x)
  }

  lemma TakenBytesAll(h: Heap, base: nat, i: nat, n: nat)
    requires HeapOk(h, base) && Fits(h, i, n) && 1 <= n
    ensures TakesBytes(h, Taken(h, i, n), h.free[i])
  {
    hide HeapOk, Taken, FreeByte;
    TakenOk(h, base, i, n);
    forall x: nat
      ensures FreeByte(Taken(h, i, n), x) <==> FreeByte(h, x) && !InBlock(Taken(h, i, n).all, h.free[i], x)
    {
      TakenBytes(h, base, i, n, x);
    }
  }

  lemma FreedBytesAll(h: Heap, base: nat, i: nat, a: nat)
    requires HeapOk(h, base) && a in h.all && a !in h.free && Place(h.free, i, a)
    ensures GivesBytes(h, Freed(h, i, a), a)
  {
    hide HeapOk, Freed, FreeByte;
    forall x: nat ensures FreeByte(Freed(h, i, a), x) <==> FreeByte(h, x) || InBlock(h.all, a, x) {
      FreedBytes(h, base, i, a, x);
    }
  }

  lemma UsedApart(h: Heap, base: nat, a: nat, x: nat)
    requires HeapOk(h, base) && a in h.all && InBlock(h.all, a, x)
    ensures base <= x < base + ARENA && forall b :: b in Used(h) && b != a ==> !InBlock(h.all, b, x)
  {
    forall b | b in Used(h) && b != a ensures !InBlock(h.all, b, x) {
      if InBlock(h.all, b, x) {
        NoOverlap(h.all, base, a, b, x);
      }
    }
  }

  lemma CutJoin(all: Blocks, a: nat, n: nat)
    requires a in all && n + HEADER <= all[a] && a + HEADER + n !in all
    ensures var c := Cut(all, a, n);
            After(c, a) == a + HEADER + n && After(c, a) in c && Join(c, a) == all
  {
  }

  lemma TakenPlace(h: Heap, i: nat, n: nat)
    requires FreeOk(h) && i < |h.free| && n <= h.all[h.free[i]]
    ensures Place(Taken(h, i, n).free, i, h.free[i])
  {
    forall j | 0 <= j < |h.free| && j != i ensures if j < i then h.free[j] < h.free[i] else h.free[i] < h.free[j] {
      assert j < i ==> After(h.all, h.free[j]) < h.free[i];
      assert j > i ==> After(h.all, h.free[i]) < h.free[j];
    }
  }

  /** Freeing what was just taken restores every block and the free list. */
  lemma TakenFreed(h: Heap, base: nat, i: nat, n: nat)
    requires HeapOk(h, base) && i < |h.free| && 1 <= n <= h.all[h.free[i]]
    ensures var h' := Taken(h, i, n);
            h.free[i] in h'.all && Place(h'.free, i, h.free[i]) && Freed(h', i, h.free[i]) == h
  {
    hide Tiles, Place;
    TakenPlace(h, i, n);
    var a, h' := h.free[i], Taken(h, i, n);
    if h.all[a] - n > HEADER {
      CutTiles(h.all, base, a, n);
      CutJoin(h.all, a, n);
      assert h'.free[i := a] == h.free;
    } else {
      assert With(h'.free, i, a) == h.free;
      assert i < |h'.free| ==> h'.free[i] == h.free[i+1];
    }
  }

  /** Block `i` is the first free one of at least `n` bytes. */
  ghost predicate Fits(h: Heap, i: nat, n: nat) {
    && i < |h.free| && h.free[i] in h.all && n <= h.all[h.free[i]]
    && (forall j :: 0 <= j < i ==> h.free[j] in h.all && h.all[h.free[j]] < n)
  }

  // ---------- the list threaded through the headers ----------

  /** A block header: the next free block, 0 for none, and the payload size. */
  datatype Header = Header(next: nat, size: nat)

  type Headers = map<nat, Header>

  function First(free: seq<nat>, i: nat): nat {
    if i < |free| then free[i] else 0
  }

  /** The blocks of `free` other than number `k` link to the one after them. */
  ghost predicate Links(hdr: Headers, free: seq<nat>, k: nat) {
    && (forall i :: 0 <= i < |free| ==> free[i] in hdr)
    && (forall i {:trigger hdr[free[i]]} :: 0 <= i < |free| && i != k ==> hdr[free[i]].next == First(free, i + 1))
  }

  /** Following the links from `head` visits exactly the blocks of `free` in order. */
  ghost predicate Linked(head: nat, hdr: Headers, free: seq<nat>) {
    && head == First(free, 0)
    && Links(hdr, free, |free|)
  }

  /** Every block has its header, with its size in it. */
  ghost predicate Sized(hdr: Headers, all: Blocks) {
    forall a :: a in all ==> a in hdr && hdr[a].size == all[a]
  }

  /** The headers of blocks in use, `a` aside, are as they were. */
  ghost predicate SameHeaders(was: Headers, now: Headers, h: Heap, a: nat) {
    forall b :: b in h.all && b !in h.free && b != a && b in was ==> b in now && now[b] == was[b]
  }

  /** `node` made the successor of `prev`, or the head if `prev` is none. */
  function Relinked(hdr: Headers, prev: nat, node: nat): Headers
    requires prev != 0 ==> prev in hdr
  {
    if prev != 0 then hdr[prev := hdr[prev].(next := node)] else hdr
  }

  /** What precedes place `i` in the list, 0 for nothing. */
  function Before(free: seq<nat>, i: nat): nat
    requires i <= |free|
  {
    if i == 0 then 0 else free[i-1]
  }

  ghost predicate Distinct(free: seq<nat>) {
    && (forall i :: 0 <= i < |free| ==> free[i] != 0)
    && (forall i, j :: 0 <= i < j < |free| ==> free[i] != free[j])
  }

  lemma HeapDistinct(h: Heap, base: nat)
    requires HeapOk(h, base)
    ensures Distinct(h.free)
  {
    hide Tiles;
    forall i, j | 0 <= i < j < |h.free| ensures h.free[i] != h.free[j] {
      assert After(h.all, h.free[i]) < h.free[j];
    }
    forall i | 0 <= i < |h.free| ensures h.free[i] != 0 {
      AtLeastBase(h.all, base, h.free[i]);
    }
  }

  lemma AtLeastBase(all: Blocks, base: nat, a: nat)
    requires Tiles(all, base) && a in all
    ensures a >= base
  {
  }

  /** Taking block `i` out of the list. */
  lemma RemoveLinked(head: nat, hdr: Headers, free: seq<nat>, i: nat)
    requires Linked(head, hdr, free) && Distinct(free) && i < |free|
    ensures var next := First(free, i + 1);
            Linked(if i == 0 then next else head, Relinked(hdr, Before(free, i), next), Without(free, i))
  {
    var f, next := Without(free, i), First(free, i + 1);
    var h1 := Relinked(hdr, Before(free, i), next);
    forall j | 0 <= j < |f| ensures f[j] in h1 && h1[f[j]].next == First(f, j + 1) {
      if j < i {
        assert f[j] == free[j];
      } else {
        assert f[j] == free[j+1];
      }
    }
  }

  ghost predicate Stored(h: Heap, base: nat, head: nat, hdr: Headers) {
    HeapOk(h, base) && Linked(head, hdr, h.free) && Sized(hdr, h.all)
  }

  /** The headers after block `a` is cut behind `n` bytes and the rest linked in. */
  function SplitHeaders(hdr: Headers, prev: nat, a: nat, n: nat): Headers
    requires a in hdr && n + HEADER <= hdr[a].size && (prev != 0 ==> prev in hdr)
  {
    var next := a + HEADER + n;
    var h1 := hdr[next := Header(hdr[a].next, hdr[a].size - n - HEADER)];
    Relinked(h1[a := h1[a].(size := n)], prev, next)
  }

  lemma NodeHeaders(h: Heap, base: nat, head: nat, hdr: Headers, i: nat, n: nat)
    requires Stored(h, base, head, hdr) && Fits(h, i, n)
    ensures var a, prev := h.free[i], Before(h.free, i);
            && a in h.all && a in hdr && hdr[a] == Header(First(h.free, i + 1), h.all[a])
            && (i == 0 <==> prev == 0) && (prev != 0 ==> prev in hdr && prev != a && prev + HEADER <= a)
  {
    hide Tiles;
    HeapDistinct(h, base);
    assert i > 0 ==> After(h.all, h.free[i-1]) < h.free[i];
  }

  lemma SplitLinks(head: nat, hdr: Headers, free: seq<nat>, i: nat, n: nat)
    requires Linked(head, hdr, free) && Distinct(free) && i < |free|
    requires n + HEADER <= hdr[free[i]].size && free[i] + HEADER + n !in free
    ensures var a := free[i];
            Linked(if i == 0 then a + HEADER + n else head, SplitHeaders(hdr, Before(free, i), a, n), free[i := a + HEADER + n])
  {
  }

  lemma SplitSized(h: Heap, hdr: Headers, prev: nat, a: nat, n: nat)
    requires Sized(hdr, h.all) && a in h.all && a in h.free && n + HEADER <= h.all[a]
    requires prev != 0 ==> prev in h.free && prev in hdr && prev != a
    requires a + HEADER + n !in h.all
    ensures Sized(SplitHeaders(hdr, prev, a, n), Cut(h.all, a, n))
    ensures SameHeaders(hdr, SplitHeaders(hdr, prev, a, n), h, a)
    ensures a in SplitHeaders(hdr, prev, a, n) && SplitHeaders(hdr, prev, a, n)[a].next == hdr[a].next
  {
  }

  lemma NotFree(h: Heap, b: nat)
    requires FreeOk(h) && b !in h.all
    ensures b !in h.free
  {
  }

  lemma SplitStored(h: Heap, base: nat, head: nat, hdr: Headers, i: nat, n: nat)
    requires Stored(h, base, head, hdr) && Fits(h, i, n) && 1 <= n && n + HEADER < h.all[h.free[i]]
    ensures var a, prev := h.free[i], Before(h.free, i);
            && a in hdr && hdr[a].size == h.all[a] && (prev != 0 ==> prev in hdr)
            && var h1 := SplitHeaders(hdr, prev, a, n);
            && Stored(Taken(h, i, n), base, if i == 0 then a + HEADER + n else head, h1)
            && SameHeaders(hdr, h1, h, a) && a in h1 && h1[a].next == First(h.free, i + 1)
  {
    hide Tiles, FreeOk, Linked, Sized, SameHeaders, Distinct;
    var a := h.free[i];
    NodeHeaders(h, base, head, hdr, i, n);
    HeapDistinct(h, base);
    CutTiles(h.all, base, a, n);
    NotFree(h, a + HEADER + n);
    TakenOk(h, base, i, n);
    SplitLinks(head, hdr, h.free, i, n);
    SplitSized(h, hdr, Before(h.free, i), a, n);
  }

  lemma WholeStored(h: Heap, base: nat, head: nat, hdr: Headers, i: nat, n: nat)
    requires Stored(h, base, head, hdr) && Fits(h, i, n) && 1 <= n && n + HEADER >= h.all[h.free[i]]
    ensures var prev, next := Before(h.free, i), First(h.free, i + 1);
            && (prev != 0 ==> prev in hdr)
            && var h1 := Relinked(hdr, prev, next);
            && Stored(Taken(h, i, n), base, if i == 0 then next else head, h1)
            && SameHeaders(hdr, h1, h, h.free[i]) && h.free[i] in h1 && h1[h.free[i]].next == next
  {
    hide Tiles, FreeOk, Linked, Distinct;
    NodeHeaders(h, base, head, hdr, i, n);
    HeapDistinct(h, base);
    TakenOk(h, base, i, n);
    RemoveLinked(head, hdr, h.free, i);
  }

  /** The headers after `n` bytes are taken from the block `a` that follows `prev`. */
  function TakenHeaders(hdr: Headers, prev: nat, a: nat, n: nat): Headers
    requires a in hdr && n <= hdr[a].size && (prev != 0 ==> prev in hdr)
  {
    if hdr[a].size - n > HEADER then SplitHeaders(hdr, prev, a, n) else Relinked(hdr, prev, hdr[a].next)
  }

  function TakenHead(head: nat, hdr: Headers, prev: nat, a: nat, n: nat): nat
    requires a in hdr && n <= hdr[a].size
  {
    if prev != 0 then head else if hdr[a].size - n > HEADER then a + HEADER + n else hdr[a].next
  }

  lemma TakenStored(h: Heap, base: nat, head: nat, hdr: Headers, i: nat, n: nat)
    requires Stored(h, base, head, hdr) && Fits(h, i, n) && 1 <= n
    ensures var a, prev := h.free[i], Before(h.free, i);
            && a in hdr && hdr[a].size == h.all[a] && (prev != 0 ==> prev in hdr)
            && var h1 := TakenHeaders(hdr, prev, a, n);
            && Stored(Taken(h, i, n), base, TakenHead(head, hdr, prev, a, n), h1)
            && SameHeaders(hdr, h1, h, a) && a in h1 && h1[a].next == First(h.free, i + 1)
  {
    hide Stored, SameHeaders, Taken, SplitHeaders, Relinked;
    NodeHeaders(h, base, head, hdr, i, n);
    if h.all[h.free[i]] - n > HEADER {
      SplitStored(h, base, head, hdr, i, n);
    } else {
      WholeStored(h, base, head, hdr, i, n);
    }
  }

  /** Freeing `a` at place `i` gives its header a proper link: a free block follows,
      or the link left there happens to be empty. */
  ghost predicate Rejoins(hdr: Headers, free: seq<nat>, i: nat, a: nat) {
    i < |free| || (a in hdr && hdr[a].next == 0)
  }

  lemma InsertAt(hdr: Headers, free: seq<nat>, i: nat, a: nat, j: nat)
    requires Distinct(free) && i <= |free| && a !in free && j <= |free| && j != i
    requires Links(hdr, free, |free|) && a in hdr
    ensures var f, h2 := With(free, i, a), Relinked(hdr, Before(free, i), a);
            j < |f| && f[j] in h2 && h2[f[j]].next == First(f, j + 1)
  {
    hide With;
    WithAt(free, i, a, j);
    if j < |free| {
      WithAt(free, i, a, j + 1);
    }
    if j < i {
      assert hdr[free[j]].next == First(free, j + 1);
    } else {
      assert hdr[free[j-1]].next == First(free, j);
    }
  }

  /** The links of every block but the one put in at place `i`. */
  lemma InsertOthers(hdr: Headers, free: seq<nat>, i: nat, a: nat)
    requires Distinct(free) && i <= |free| && a !in free
    requires Links(hdr, free, |free|) && a in hdr
    ensures Links(Relinked(hdr, Before(free, i), a), With(free, i, a), i)
  {
    hide With, Distinct;
    var f, h2 := With(free, i, a), Relinked(hdr, Before(free, i), a);
    WithAt(free, i, a, i);
    forall j | 0 <= j < |f| && j != i ensures f[j] in h2 && h2[f[j]].next == First(f, j + 1) {
      InsertAt(hdr, free, i, a, j);
    }
  }

  /** A block put into the list before block `i`. */
  lemma InsertLinked(head: nat, hdr: Headers, free: seq<nat>, i: nat, a: nat, z: nat)
    requires Linked(head, hdr, free) && Distinct(free) && i <= |free|
    requires a !in free && a != 0 && a in hdr
    ensures var h1 := hdr[a := Header(if i < |free| then free[i] else hdr[a].next, z)];
            Linked(if i == 0 then a else head, Relinked(h1, Before(free, i), a), With(free, i, a)) <==> Rejoins(hdr, free, i, a)
  {
    var f, h1 := With(free, i, a), hdr[a := Header(if i < |free| then free[i] else hdr[a].next, z)];
    var h2 := Relinked(h1, Before(free, i), a);
    InsertOthers(h1, free, i, a);
    assert f[i] == a && First(f, i + 1) == First(free, i) && f[0] == if i == 0 then a else free[0];
    assert h2[f[i]] == h1[a];
    hide Distinct, Relinked, With;
  }

  /** The header of `a` linked to, or joined with, the free block `next` above it. */
  function UpHeaders(hdr: Headers, next: nat, a: nat): Headers
    requires a in hdr && (next != 0 ==> next in hdr)
  {
    if next == 0 then hdr
    else if next == a + HEADER + hdr[a].size then
      hdr[a := Header(hdr[next].next, hdr[a].size + hdr[next].size + HEADER)]
    else hdr[a := hdr[a].(next := next)]
  }

  /** Block `a` joined to the free block `prev` below it if they touch. */
  function DownHeaders(hdr: Headers, prev: nat, a: nat): Headers
    requires a in hdr && (prev != 0 ==> prev in hdr)
  {
    if prev != 0 && a == prev + HEADER + hdr[prev].size then
      hdr[prev := Header(hdr[a].next, hdr[prev].size + hdr[a].size + HEADER)]
    else hdr
  }

  lemma ReplaceLinked(head: nat, hdr: Headers, free: seq<nat>, i: nat, a: nat, z: nat)
    requires Linked(head, hdr, free) && Distinct(free) && i < |free| && a !in free && a != 0
    ensures var h1 := hdr[a := Header(First(free, i + 1), z)];
            Linked(if i == 0 then a else head, Relinked(h1, Before(free, i), a), free[i := a])
  {
  }

  /** The headers of a block to be freed and of its free neighbours. */
  lemma NearHeaders(h: Heap, base: nat, head: nat, hdr: Headers, i: nat, a: nat)
    requires Stored(h, base, head, hdr) && a in h.all && a !in h.free && Place(h.free, i, a)
    ensures var prev, next := Before(h.free, i), First(h.free, i);
            && i <= |h.free| && a in hdr && hdr[a].size == h.all[a] && a != 0
            && (i == 0 <==> prev == 0) && (prev != 0 ==> prev in h.free && prev in h.all && prev in hdr && hdr[prev].size == h.all[prev])
            && (i < |h.free| <==> next != 0) && (next != 0 ==> next in h.all && next in hdr && hdr[next] == Header(First(h.free, i + 1), h.all[next]))
  {
    hide Tiles;
    HeapDistinct(h, base);
    AtLeastBase(h.all, base, a);
  }

  lemma UpLinked(h: Heap, base: nat, head: nat, hdr: Headers, i: nat, a: nat)
    requires Stored(h, base, head, hdr) && a in h.all && a !in h.free && Place(h.free, i, a)
    ensures var prev, next := Before(h.free, i), First(h.free, i);
            && a in hdr && (next != 0 ==> next in hdr) && (prev != 0 ==> prev in hdr)
            && var h1 := Relinked(UpHeaders(hdr, next, a), prev, a);
            && (Linked(if i == 0 then a else head, h1, JoinedUp(h, i, a).free) <==> Rejoins(hdr, h.free, i, a))
  {
    hide Tiles, FreeOk, Linked, Distinct, Place;
    NearHeaders(h, base, head, hdr, i, a);
    HeapDistinct(h, base);
    if i < |h.free| && After(h.all, a) == h.free[i] {
      ReplaceLinked(head, hdr, h.free, i, a, hdr[a].size + hdr[h.free[i]].size + HEADER);
    } else {
      InsertLinked(head, hdr, h.free, i, a, hdr[a].size);
      assert hdr[a := Header(hdr[a].next, hdr[a].size)] == hdr;
    }
  }

  lemma UpSized(h: Heap, base: nat, head: nat, hdr: Headers, i: nat, a: nat)
    requires Stored(h, base, head, hdr) && a in h.all && a !in h.free && Place(h.free, i, a)
    ensures var prev, next := Before(h.free, i), First(h.free, i);
            && a in hdr && (next != 0 ==> next in hdr) && (prev != 0 ==> prev in hdr)
            && var h1 := Relinked(UpHeaders(hdr, next, a), prev, a);
            && Sized(h1, JoinedUp(h, i, a).all) && SameHeaders(hdr, h1, h, a)
            && (!Rejoins(hdr, h.free, i, a) ==> h1[a].next != 0)
  {
    hide Tiles, FreeOk, Linked, Distinct, Place;
    NearHeaders(h, base, head, hdr, i, a);
  }

  /** Joining with the block below leaves the list as good or as bad as it was. */
  lemma DownLinks(head: nat, hdr: Headers, free: seq<nat>, i: nat, z: nat)
    requires 0 < i < |free| && Distinct(free) && free[i] in hdr
    requires Linked(head, hdr, free) || (i == |free| - 1 && hdr[free[i]].next != 0)
    ensures Linked(head, hdr[free[i-1] := Header(hdr[free[i]].next, z)], Without(free, i)) <==> Linked(head, hdr, free)
  {
    var h1, f := hdr[free[i-1] := Header(hdr[free[i]].next, z)], Without(free, i);
    if Linked(head, hdr, free) {
      RemoveLinked(head, hdr, free, i);
      forall j | 0 <= j < |f| ensures f[j] in h1 && h1[f[j]].next == Relinked(hdr, free[i-1], First(free, i + 1))[f[j]].next {
      }
    } else {
      assert f[i-1] == free[i-1] && First(f, i) == 0;
    }
  }

  lemma DownSized(h: Heap, hdr: Headers, i: nat)
    requires i < |h.free| && Distinct(h.free) && Sized(hdr, h.all) && NearlyOk(h, i)
    ensures var prev := Before(h.free, i);
            && (i == 0 <==> prev == 0) && (prev != 0 ==> prev in hdr && prev in h.all && hdr[prev].size == h.all[prev])
            && Sized(DownHeaders(hdr, prev, h.free[i]), JoinedDown(h, i).all)
            && SameHeaders(hdr, DownHeaders(hdr, prev, h.free[i]), h, 0)
  {
  }

  lemma DownLinked(h: Heap, head: nat, hdr: Headers, i: nat)
    requires i < |h.free| && Distinct(h.free) && Sized(hdr, h.all) && NearlyOk(h, i)
    requires Linked(head, hdr, h.free) || (i == |h.free| - 1 && hdr[h.free[i]].next != 0)
    ensures var prev := Before(h.free, i);
            && (prev != 0 ==> prev in hdr)
            && var h1 := DownHeaders(hdr, prev, h.free[i]);
            && (Linked(head, h1, JoinedDown(h, i).free) <==> Linked(head, hdr, h.free))
  {
    hide Linked, Distinct, SameHeaders;
    DownSized(h, hdr, i);
    if i > 0 && After(h.all, h.free[i-1]) == h.free[i] {
      var prev, a := h.free[i-1], h.free[i];
      DownLinks(head, hdr, h.free, i, hdr[prev].size + hdr[a].size + HEADER);
    }
  }

  /** The headers after block `a` is freed between `prev` and `next`. */
  function FreedHeaders(hdr: Headers, prev: nat, next: nat, a: nat): Headers
    requires a in hdr && (next != 0 ==> next in hdr) && (prev != 0 ==> prev in hdr)
  {
    DownHeaders(Relinked(UpHeaders(hdr, next, a), prev, a), prev, a)
  }

  lemma NearlyDistinct(h: Heap, base: nat, i: nat)
    requires base > 0 && Tiles(h.all, base) && NearlyOk(h, i)
    ensures Distinct(h.free)
  {
    hide Tiles;
    forall j, k | 0 <= j < k < |h.free| ensures h.free[j] != h.free[k] {
      assert After(h.all, h.free[j]) <= h.free[k];
    }
    forall j | 0 <= j < |h.free| ensures h.free[j] != 0 {
      AtLeastBase(h.all, base, h.free[j]);
    }
  }

  lemma FreedStored(h: Heap, base: nat, head: nat, hdr: Headers, i: nat, a: nat)
    requires Stored(h, base, head, hdr) && a in h.all && a !in h.free && Place(h.free, i, a)
    ensures var prev, next := Before(h.free, i), First(h.free, i);
            && a in hdr && (next != 0 ==> next in hdr) && (prev != 0 ==> prev in hdr)
            && var h1, h' := FreedHeaders(hdr, prev, next, a), Freed(h, i, a);
            && HeapOk(h', base) && Sized(h1, h'.all) && SameHeaders(hdr, h1, h, a)
            && (Stored(h', base, if i == 0 then a else head, h1) <==> Rejoins(hdr, h.free, i, a))
  {
    hide Tiles, FreeOk, Linked, Distinct, Place, NearlyOk, Sized, JoinedUp, JoinedDown;
    NearHeaders(h, base, head, hdr, i, a);
    JoinedUpOk(h, base, i, a);
    UpLinked(h, base, head, hdr, i, a);
    UpSized(h, base, head, hdr, i, a);
    var u, h1 := JoinedUp(h, i, a), Relinked(UpHeaders(hdr, First(h.free, i), a), Before(h.free, i), a);
    NearlyDistinct(u, base, i);
    UpPlace(h, i, a);
    DownLinked(u, if i == 0 then a else head, h1, i);
    DownSized(u, h1, i);
    FreedOk(h, base, i, a);
  }

  lemma PlaceNotAbove(free: seq<nat>, i: nat, j: nat, a: nat)
    requires Place(free, i, a) && i < j <= |free|
    ensures !Place(free, j, a)
  {
    assert a < free[i];
  }

  lemma PlaceUnique(free: seq<nat>, i: nat, j: nat, a: nat)
    requires Place(free, i, a) && Place(free, j, a)
    ensures i == j
  {
    if i < j {
      PlaceNotAbove(free, i, j, a);
    } else if j < i {
      PlaceNotAbove(free, j, i, a);
    }
  }

  /** While the block at the end of the arena is free, any block may be freed. */
  lemma TopFreeRejoins(h: Heap, base: nat, hdr: Headers, i: nat, a: nat, t: nat)
    requires HeapOk(h, base) && a in h.all && a !in h.free && Place(h.free, i, a)
    requires t in h.free && t in h.all && After(h.all, t) == base + ARENA
    ensures Rejoins(hdr, h.free, i, a)
  {
    var k :| 0 <= k < |h.free| && h.free[k] == t;
    assert After(h.all, t) >= After(h.all, a);
  }

  lemma ListSizes(h: Heap, hdr: Headers)
    requires FreeOk(h) && Sized(hdr, h.all)
    ensures forall j :: 0 <= j < |h.free| ==> h.free[j] in h.all && h.free[j] in hdr && hdr[h.free[j]].size == h.all[h.free[j]]
  {
  }

  /** Block `a` has become free at place `i`. */
  ghost predicate PutBack(h: Heap, h': Heap, i: nat, a: nat) {
    Place(h.free, i, a) && a in h.all && h' == Freed(h, i, a)
  }

  lemma AbovePlace(h: Heap, i: nat, a: nat)
    requires FreeOk(h) && i < |h.free| && a < h.free[i]
    requires forall j :: 0 <= j < i ==> h.free[j] < a
    ensures Place(h.free, i, a)
  {
    forall j | i < j < |h.free| ensures a < h.free[j] {
      assert After(h.all, h.free[i]) < h.free[j];
    }
  }

  lemma LastPlace(h: Heap, base: nat, i: nat, a: nat)
    requires HeapOk(h, base) && i <= |h.free| && First(h.free, i) == 0
    requires forall j :: 0 <= j < i ==> h.free[j] < a
    ensures Place(h.free, i, a)
  {
    hide Tiles, FreeOk;
    HeapDistinct(h, base);
  }

  lemma EmptyPlace(h: Heap, base: nat, head: nat, hdr: Headers, a: nat)
    requires Stored(h, base, head, hdr) && head == 0
    ensures h.free == [] && Place(h.free, 0, a)
  {
    HeapDistinct(h, base);
  }

  lemma UpPlace(h: Heap, i: nat, a: nat)
    requires i <= |h.free| && a in h.all && i < |JoinedUp(h, i, a).free|
    ensures Before(JoinedUp(h, i, a).free, i) == Before(h.free, i)
    ensures i == |h.free| ==> i == |JoinedUp(h, i, a).free| - 1
  {
  }

  lemma TakenFacts(h: Heap, base: nat, i: nat, n: nat)
    requires HeapOk(h, base) && Fits(h, i, n) && n >= 1
    ensures var a, h' := h.free[i], Taken(h, i, n);
            && a in h'.all && a !in h'.free && Place(h'.free, i, a) && Freed(h', i, a) == h
            && (i == |h'.free| ==> i == |h.free| - 1)
  {
    hide HeapOk, Place, Freed;
    TakenOk(h, base, i, n);
    TakenFreed(h, base, i, n);
  }

  // ---------- runs ----------

  /** The allocator as the code has it, and the blocks it stands for. */
  datatype State = State(heap: Heap, head: nat, hdr: Headers)

  datatype Call = Malloc(fit: nat, bytes: nat) | Free(place: nat, block: nat)

  /** The call finds a block, or is given one in use. */
  ghost predicate CanCall(s: State, c: Call) {
    && FreeOk(s.heap) && Sized(s.hdr, s.heap.all)
    && match c
       case Malloc(i, n) => n >= 1 && Fits(s.heap, i, n)
       case Free(i, a) => a in s.heap.all && a !in s.heap.free && Place(s.heap.free, i, a)
  }

  ghost function Called(s: State, c: Call): State
    requires CanCall(s, c)
  {
    match c
    case Malloc(i, n) =>
      var a, prev := s.heap.free[i], Before(s.heap.free, i);
      State(Taken(s.heap, i, n), TakenHead(s.head, s.hdr, prev, a, n), TakenHeaders(s.hdr, prev, a, n))
    case Free(i, a) =>
      State(Freed(s.heap, i, a), if i == 0 then a else s.head,
            FreedHeaders(s.hdr, Before(s.heap.free, i), First(s.heap.free, i), a))
  }

  ghost predicate InOrder(s: State, base: nat) { Stored(s.heap, base, s.head, s.hdr) }

  /** The call frees no block, or one whose header gets a proper link. */
  ghost predicate Harmless(s: State, c: Call) {
    c.Free? ==> Rejoins(s.hdr, s.heap.free, c.place, c.block)
  }

  /** A call keeps the linked list that of the free blocks exactly if it is harmless. */
  lemma CalledInOrder(s: State, base: nat, c: Call)
    requires InOrder(s, base) && CanCall(s, c)
    ensures InOrder(Called(s, c), base) <==> Harmless(s, c)
    ensures KeepsUsed(s.heap, Called(s, c).heap, if c.Free? then c.block else s.heap.free[c.fit])
  {
    hide Tiles, FreeOk, Taken, Freed, Place, Linked, Sized, SameHeaders, TakenHeaders, FreedHeaders, KeepsUsed, Rejoins;
    match c {
      case Malloc(i, n) =>
        TakenStored(s.heap, base, s.head, s.hdr, i, n);
        TakenOk(s.heap, base, i, n);
      case Free(i, a) =>
        FreedStored(s.heap, base, s.head, s.hdr, i, a);
        FreedOk(s.heap, base, i, a);
    }
  }

  ghost predicate Runs(s: State, cs: seq<Call>)
    decreases |cs|
  {
    cs == [] || (CanCall(s, cs[0]) && Runs(Called(s, cs[0]), cs[1..]))
  }

  ghost function Run(s: State, cs: seq<Call>): State
    requires Runs(s, cs)
    decreases |cs|
  {
    if cs == [] then s else Run(Called(s, cs[0]), cs[1..])
  }

  /** Every state of the run is in order. */
  ghost predicate AllInOrder(s: State, base: nat, cs: seq<Call>)
    requires Runs(s, cs)
    decreases |cs|
  {
    InOrder(s, base) && (cs != [] ==> AllInOrder(Called(s, cs[0]), base, cs[1..]))
  }

  /** Every call of the run is harmless. */
  ghost predicate AllHarmless(s: State, cs: seq<Call>)
    requires Runs(s, cs)
    decreases |cs|
  {
    cs != [] ==> Harmless(s, cs[0]) && AllHarmless(Called(s, cs[0]), cs[1..])
  }

  /** Over a whole run the blocks tile the arena, free ones do not touch, and the links
      hold exactly the free blocks, if and only if every block freed had a free one
      above it or an empty link. */
  lemma {:induction false} RunOk(s: State, base: nat, cs: seq<Call>)
    requires InOrder(s, base) && Runs(s, cs)
    ensures AllInOrder(s, base, cs) <==> AllHarmless(s, cs)
    decreases |cs|
  {
    hide InOrder, CanCall, Called, Harmless;
    if cs != [] {
      CalledInOrder(s, base, cs[0]);
      if Harmless(s, cs[0]) {
        RunOk(Called(s, cs[0]), base, cs[1..]);
      } else {
        NotInOrder(Called(s, cs[0]), base, cs[1..]);
      }
    }
  }

  lemma NotInOrder(s: State, base: nat, cs: seq<Call>)
    requires Runs(s, cs) && !InOrder(s, base)
    ensures !AllInOrder(s, base, cs)
  {
  }

  /** The blocks handed out and not yet freed, with the bytes asked for, after a call. */
  ghost function Noted(s: State, c: Call, out: map<nat, nat>): map<nat, nat>
    requires CanCall(s, c)
  {
    match c
    case Malloc(i, n) => out[s.heap.free[i] := n]
    case Free(_, a) => out - {a}
  }

  /** And after a run. */
  ghost function HandedOut(s: State, cs: seq<Call>, out: map<nat, nat>): map<nat, nat>
    requires Runs(s, cs)
    decreases |cs|
  {
    if cs == [] then out else HandedOut(Called(s, cs[0]), cs[1..], Noted(s, cs[0], out))
  }

  /** `out` are the blocks in use, each with room for what was asked for. */
  ghost predicate Accounts(h: Heap, out: map<nat, nat>) {
    out.Keys == Used(h) && forall a :: a in out ==> out[a] <= h.all[a] <= out[a] + HEADER
  }

  lemma AccountsTaken(h: Heap, h': Heap, a: nat, n: nat, out: map<nat, nat>)
    requires Accounts(h, out) && KeepsUsed(h, h', a) && Used(h') == Used(h) + {a} && a !in Used(h)
    requires a in h'.all && n <= h'.all[a] <= n + HEADER
    ensures Accounts(h', out[a := n])
  {
  }

  lemma AccountsFreed(h: Heap, h': Heap, a: nat, out: map<nat, nat>)
    requires Accounts(h, out) && KeepsUsed(h, h', a) && Used(h') == Used(h) - {a}
    ensures Accounts(h', out - {a})
  {
  }

  lemma CalledAccounts(s: State, base: nat, c: Call, out: map<nat, nat>)
    requires InOrder(s, base) && CanCall(s, c) && Accounts(s.heap, out)
    ensures Accounts(Called(s, c).heap, Noted(s, c, out))
  {
    hide HeapOk, Taken, Freed, Accounts, KeepsUsed, Linked, Sized;
    match c
    case Malloc(i, n) =>
      TakenOk(s.heap, base, i, n);
      TakenUsed(s.heap, base, i, n);
      AccountsTaken(s.heap, Taken(s.heap, i, n), s.heap.free[i], n, out);
    case Free(i, a) =>
      FreedOk(s.heap, base, i, a);
      FreedUsed(s.heap, i, a);
      AccountsFreed(s.heap, Freed(s.heap, i, a), a, out);
  }

  /** Nothing is lost over any run: the blocks in use are those handed out and not yet
      freed, and every byte of the arena outside them is free to be handed out again. */
  lemma {:induction false} RunLosesNothing(s: State, base: nat, cs: seq<Call>, out: map<nat, nat>, x: nat)
    requires Runs(s, cs) && AllInOrder(s, base, cs) && Accounts(s.heap, out)
    ensures var h, now := Run(s, cs).heap, HandedOut(s, cs, out);
            && Accounts(h, now)
            && (FreeByte(h, x) <==> base <= x < base + ARENA && forall a :: a in now ==> !InBlock(h.all, a, x))
    decreases |cs|
  {
    if cs == [] {
      AccountsBytes(s.heap, base, out, x);
    } else {
      hide CanCall, Called, Accounts, FreeByte, HeapOk, Noted;
      CalledAccounts(s, base, cs[0], out);
      RunLosesNothing(Called(s, cs[0]), base, cs[1..], Noted(s, cs[0], out), x);
    }
  }

  lemma AccountsBytes(h: Heap, base: nat, out: map<nat, nat>, x: nat)
    requires HeapOk(h, base) && Accounts(h, out)
    ensures forall a :: a in out ==> a in h.all
    ensures FreeByte(h, x) <==> base <= x < base + ARENA && forall a :: a in out ==> !InBlock(h.all, a, x)
  {
    hide HeapOk;
    assert forall a :: a in Used(h) <==> a in out;
    ByteFree(h, base, x);
  }

  /** In such a run a block in use that is not freed stays where it is, keeps its size
      and is not handed out again. */
  lemma {:induction false} RunKeepsBlock(s: State, base: nat, cs: seq<Call>, b: nat)
    requires InOrder(s, base) && Runs(s, cs) && AllHarmless(s, cs)
    requires b in s.heap.all && b !in s.heap.free
    requires forall c :: c in cs && c.Free? ==> c.block != b
    ensures var h := Run(s, cs).heap; b in h.all && h.all[b] == s.heap.all[b] && b !in h.free
    decreases |cs|
  {
    hide InOrder, Called, Harmless;
    if cs != [] {
      CalledInOrder(s, base, cs[0]);
      assert cs[0] in cs;
      RunKeepsBlock(Called(s, cs[0]), base, cs[1..], b);
    }
  }

  /** Two one-byte blocks in use at the start of the arena and the rest, with `free`
      of them free. */
  function ThreeBlocks(base: nat, free: seq<nat>): Heap {
    Heap(map[base := 1, base + 17 := 1, base + 34 := ARENA - 50], free)
  }

  lemma StaleRun(base: nat)
    ensures var h0 := Heap(map[base := ARENA - HEADER], [base]);
            && Taken(h0, 0, 1) == Heap(map[base := 1, base + 17 := ARENA - 33], [base + 17])
            && Taken(Taken(h0, 0, 1), 0, 1) == ThreeBlocks(base, [base + 34])
    ensures Freed(ThreeBlocks(base, [base + 34]), 0, base) == ThreeBlocks(base, [base, base + 34])
    ensures Taken(ThreeBlocks(base, [base, base + 34]), 0, 1) == ThreeBlocks(base, [base + 34])
    ensures Taken(ThreeBlocks(base, [base + 34]), 0, ARENA - 50) == ThreeBlocks(base, [])
    ensures Freed(ThreeBlocks(base, []), 0, base) == ThreeBlocks(base, [base])
  {
    var h0 := Heap(map[base := ARENA - HEADER], [base]);
    assert Taken(h0, 0, 1) == Heap(map[base := 1, base + 17 := ARENA - 33], [base + 17]);
  }

  class Allocator {
    /** The address of km_static. */
    const base: nat
    var ready: bool
    var head: nat
    var hdr: Headers
    ghost var heap: Heap

    constructor (start: nat)
      requires start > 0
      ensures base == start && !ready
    {
      base, ready, head, hdr := start, false, 0, map[];
      heap := Heap(map[], []);
    }

    ghost predicate Valid()
      reads this
    {
      ready && Stored(heap, base, head, hdr)
    }

    ghost function Now(): State
      reads this
    {
      State(heap, head, hdr)
    }

    /** The heap as the next call finds it: before the first one, a single free block. */
    ghost function Start(): Heap
      reads this
    {
      if ready then heap else Heap(map[base := ARENA - HEADER], [base])
    }

    method InitStaticPages()
      requires base > 0 && !ready
      modifies this
      ensures Valid() && heap == old(Start())
    {
      head := base;
      hdr := hdr[head := Header(0, ARENA - HEADER)];
      ready := true;
      heap := Heap(map[base := ARENA - HEADER], [base]);
    }

    /** The search of kmalloc: the first block of the linked list of at least `bytes`
        bytes and the one before it. */
    method FirstFit(bytes: nat, ghost list: seq<nat>) returns (prev: nat, node: nat, ghost i: nat)
      requires Linked(head, hdr, list) && Distinct(list)
      ensures i <= |list| && node == First(list, i) && prev == Before(list, i)
      ensures forall j :: 0 <= j < i ==> list[j] in hdr && hdr[list[j]].size < bytes
      ensures node != 0 ==> i < |list| && node in hdr && hdr[node].size >= bytes
      ensures node == 0 ==> i == |list|
    {
      prev, node, i := 0, head, 0;
      while node != 0 && hdr[node].size < bytes
        invariant i <= |list| && node == First(list, i) && prev == Before(list, i)
        invariant forall j :: 0 <= j < i ==> list[j] in hdr && hdr[list[j]].size < bytes
        decreases |list| - i
      {
        prev, node, i := node, hdr[node].next, i + 1;
      }
    }

    /** The header writes of kmalloc. */
    method TakeBlock(bytes: nat, prev: nat, node: nat)
      requires node in hdr && bytes <= hdr[node].size && (prev != 0 ==> prev in hdr && prev != node)
      modifies `head, `hdr
      ensures hdr == TakenHeaders(old(hdr), prev, node, bytes)
      ensures head == TakenHead(old(head), old(hdr), prev, node, bytes)
    {
      if hdr[node].size - bytes > HEADER {
        var next := node + HEADER + bytes;
        hdr := hdr[next := Header(hdr[node].next, hdr[node].size - bytes - HEADER)];
        hdr := hdr[node := hdr[node].(size := bytes)];
        if prev != 0 {
          hdr := hdr[prev := hdr[prev].(next := next)];
        } else {
          head := next;
        }
      } else {
        if prev != 0 {
          hdr := hdr[prev := hdr[prev].(next := hdr[node].next)];
        } else {
          head := hdr[node].next;
        }
      }
    }

    /** kmalloc for the linked list as it is: `list` need not be that of the free
        blocks. */
    method KmallocList(bytes: nat, ghost list: seq<nat>) returns (p: nat, ghost i: nat)
      requires Linked(head, hdr, list) && Distinct(list) && bytes > 0
      modifies `head, `hdr
      ensures i <= |list| && (p == 0 <==> i == |list|)
      ensures forall j :: 0 <= j < i ==> list[j] in old(hdr) && old(hdr)[list[j]].size < bytes
      ensures p == 0 ==> head == old(head) && hdr == old(hdr)
      ensures p != 0 ==> p == list[i] + HEADER && list[i] in old(hdr) && old(hdr)[list[i]].size >= bytes
      ensures p != 0 ==> (Before(list, i) != 0 ==> Before(list, i) in old(hdr))
      ensures p != 0 ==> hdr == TakenHeaders(old(hdr), Before(list, i), list[i], bytes)
      ensures p != 0 ==> head == TakenHead(old(head), old(hdr), Before(list, i), list[i], bytes)
    {
      hide TakenHeaders, TakenHead;
      var prev, node;
      prev, node, i := FirstFit(bytes, list);
      if node == 0 {
        return 0, i;
      }
      p := node + HEADER;
      TakeBlock(bytes, prev, node);
    }

    /** First fit: the block handed out is the first free one of at least `bytes` bytes,
        and 0 is returned exactly if there is none or nothing is asked for. */
    method Kmalloc(bytes: nat) returns (p: nat, ghost i: nat)
      requires base > 0 && (ready ==> Valid())
      modifies this
      ensures Valid()
      ensures p == 0 <==> bytes == 0 || forall j :: 0 <= j < |old(Start()).free| ==> old(Start()).all[old(Start()).free[j]] < bytes
      ensures p == 0 ==> heap == old(Start())
      ensures p != 0 ==> Fits(old(Start()), i, bytes) && p == old(Start()).free[i] + HEADER && heap == Taken(old(Start()), i, bytes)
      ensures p != 0 ==> TakesBytes(old(Start()), heap, p - HEADER)
      ensures p != 0 ==> p - HEADER in hdr && hdr[p - HEADER].next == First(old(Start()).free, i + 1)
      ensures old(ready) ==> SameHeaders(old(hdr), hdr, old(heap), 0)
      ensures old(ready) && p != 0 ==> CanCall(old(Now()), Malloc(i, bytes)) && Now() == Called(old(Now()), Malloc(i, bytes))
    {
      hide Tiles, FreeOk, Linked, Sized, Distinct, TakenHeaders, TakenHead, Taken, TakesBytes;
      i := 0;
      if !ready {
        InitStaticPages();
      }
      ghost var h, was, first := heap, hdr, head;
      if bytes == 0 {
        return 0, 0;
      }
      HeapDistinct(h, base);
      p, i := KmallocList(bytes, h.free);
      ListSizes(h, was);
      if p != 0 {
        TakenStored(h, base, first, was, i, bytes);
        heap := Taken(h, i, bytes);
        TakenBytesAll(h, base, i, bytes);
      }
    }

    /** Where `a` belongs in the list: the free blocks around it. */
    method FindPlace(a: nat) returns (pp: nat, cp: nat, ghost i: nat)
      requires Valid() && a !in heap.free
      ensures Place(heap.free, i, a) && pp == Before(heap.free, i) && cp == First(heap.free, i)
    {
      hide Tiles, FreeOk, Sized, Place, Distinct;
      HeapDistinct(heap, base);
      var node := head;
      pp, cp, i := 0, 0, 0;
      while node != 0
        invariant i <= |heap.free| && node == First(heap.free, i) && pp == Before(heap.free, i) && cp == 0
        invariant forall j :: 0 <= j < i ==> heap.free[j] < a
        decreases |heap.free| - i
      {
        if node > a {
          cp := node;
          AbovePlace(heap, i, a);
          return;
        }
        pp, node, i := node, hdr[node].next, i + 1;
      }
      LastPlace(heap, base, i, a);
    }

    /** Freeing puts the block back and joins it with the free blocks it touches; the
        list in the headers then holds exactly the free blocks if and only if one of
        them lies above the freed block or the stale link in its header is empty. */
    method Kfree(ptr: nat) returns (ghost i: nat)
      requires ptr != 0 ==> Valid() && ptr >= HEADER && ptr - HEADER in heap.all && ptr - HEADER !in heap.free
      modifies this
      ensures ptr == 0 ==> head == old(head) && hdr == old(hdr) && heap == old(heap) && ready == old(ready)
      ensures ptr != 0 ==> ready && PutBack(old(heap), heap, i, ptr - HEADER)
      ensures ptr != 0 ==> HeapOk(heap, base) && Sized(hdr, heap.all) && SameHeaders(old(hdr), hdr, old(heap), ptr - HEADER)
      ensures ptr != 0 ==> (Valid() <==> Rejoins(old(hdr), old(heap).free, i, ptr - HEADER))
      ensures ptr != 0 ==> GivesBytes(old(heap), heap, ptr - HEADER)
      ensures ptr != 0 ==> CanCall(old(Now()), Free(i, ptr - HEADER)) && Now() == Called(old(Now()), Free(i, ptr - HEADER))
    {
      hide Tiles, FreeOk, Linked, Sized, SameHeaders, Freed, Place, Rejoins, GivesBytes;
      i := 0;
      if ptr == 0 {
        return;
      }
      var fp := ptr - HEADER;
      ghost var h, was := heap, hdr;
      if head == 0 {
        EmptyPlace(h, base, head, hdr, fp);
        FreedStored(h, base, head, hdr, 0, fp);
        head := fp;
        heap := Freed(h, 0, fp);
        FreedBytesAll(h, base, 0, fp);
        return;
      }
      var pp, cp;
      pp, cp, i := FindPlace(fp);
      NearHeaders(h, base, head, hdr, i, fp);
      FreedStored(h, base, head, hdr, i, fp);
      if pp == 0 {
        head := fp;
      }
      if cp != 0 {
        hdr := hdr[fp := hdr[fp].(next := cp)];
        if cp == fp + HEADER + hdr[fp].size {
          hdr := hdr[fp := Header(hdr[cp].next, hdr[fp].size + hdr[cp].size + HEADER)];
        }
      }
      assert hdr == UpHeaders(was, cp, fp);
      if pp != 0 {
        hdr := hdr[pp := hdr[pp].(next := fp)];
        if fp == pp + HEADER + hdr[pp].size {
          hdr := hdr[pp := Header(hdr[fp].next, hdr[pp].size + hdr[fp].size + HEADER)];
        }
      }
      assert hdr == FreedHeaders(was, pp, cp, fp);
      heap := Freed(h, i, fp);
      FreedBytesAll(h, base, i, fp);
    }

    /** A block taken and freed at once leaves blocks and free list as they were. */
    method MallocThenFree(bytes: nat) returns (p: nat)
      requires Valid()
      modifies this
      ensures Valid() && heap == old(heap)
    {
      hide Tiles, FreeOk, Linked, Sized, Freed, Place, SameHeaders;
      ghost var h := heap;
      ghost var i;
      p, i := Kmalloc(bytes);
      if p != 0 {
        TakenFacts(h, base, i, bytes);
        ghost var j := Kfree(p);
        PlaceUnique(Taken(h, i, bytes).free, i, j, p - HEADER);
      }
    }

    /** The first free block is taken when it is large enough. */
    method TakeFirst(bytes: nat) returns (p: nat)
      requires base > 0 && (ready ==> Valid()) && bytes > 0
      requires |Start().free| > 0 && Start().free[0] in Start().all && bytes <= Start().all[Start().free[0]]
      modifies this
      ensures Valid() && heap == Taken(old(Start()), 0, bytes) && p == old(Start()).free[0] + HEADER
      ensures p - HEADER in hdr && hdr[p - HEADER].next == First(old(Start()).free, 1)
      ensures old(ready) ==> SameHeaders(old(hdr), hdr, old(heap), 0)
    {
      hide Stored, SameHeaders, Taken;
      ghost var i;
      ghost var h := Start();
      p, i := Kmalloc(bytes);
      assert h.all[h.free[0]] >= bytes;
    }

    /** Freeing with nothing free above: a block freed, taken again and freed once more
        when all else is in use leaves a list that goes on to a block in use. */
    method StaleLink() returns (a: nat)
      requires base > 0 && !ready
      modifies this
      ensures HeapOk(heap, base) && heap == ThreeBlocks(a, [a]) && a > 0
      ensures Linked(head, hdr, [a, a + 34]) && !Linked(head, hdr, heap.free) && Sized(hdr, heap.all)
    {
      hide HeapOk, Sized, Taken, Freed;
      StaleRun(base);
      a := base;
      var p := TakeFirst(1);
      var q := TakeFirst(1);
      assert heap == ThreeBlocks(base, [base + 34]);
      assert Place(heap.free, 0, base);
      ghost var j := Kfree(p);
      PlaceUnique([base + 34], 0, j, base);
      q := TakeFirst(1);
      assert hdr[base].next == base + 34;
      StaleEnd(p);
    }

    /** The last two calls of that run. */
    method StaleEnd(p: nat)
      requires Valid() && p == base + HEADER && heap == ThreeBlocks(base, [base + 34]) && hdr[base].next == base + 34
      modifies this
      ensures HeapOk(heap, base) && heap == ThreeBlocks(base, [base])
      ensures Linked(head, hdr, [base, base + 34]) && !Linked(head, hdr, heap.free) && Sized(hdr, heap.all)
    {
      hide Tiles, FreeOk, Taken, Freed;
      StaleRun(base);
      var q := TakeFirst(ARENA - 50);
      assert heap == ThreeBlocks(base, []) && hdr[base].next == base + 34;
      assert hdr[base + 34].next == 0;
      ghost var j := Kfree(p);
      assert head == base && hdr[base].next == base + 34;
    }

    /** The next call then hands out a block that is in use. */
    method StaleReuse() returns (p: nat)
      requires base > 0 && !ready
      modifies this
      ensures p != 0 && p - HEADER in heap.all && p - HEADER !in heap.free
    {
      hide HeapOk, Linked, TakenHeaders;
      var a := StaleLink();
      assert hdr[a].size == 1 && hdr[a + 34].size == ARENA - 50;
      ghost var list, i := [a, a + 34], 0;
      assert list[0] == a && list[1] == a + 34;
      p, i := KmallocList(2, list);
    }
  }
}
