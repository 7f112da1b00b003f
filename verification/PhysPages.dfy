/** sys/memory/phys_page_manager2.c and sys/memory/free_phys_pages.c: reference
    counts kept in the tables of the memory chunks, and the list of free runs that
    has to agree with them. Addresses are page numbers (addresses divided by the
    page size); what is 0 in the source is page number 0. */
module PhysPages {

  /** `count` free pages starting at page `addr`. */
  datatype Run = Run(addr: nat, count: nat)

  const COUNTS: nat := 0x1_0000_0000

  /** A 32-bit reference count. */
  type RefCount = c: nat | c < COUNTS

  /** The pages from `start` up to `end` and the reference count of each. */
  datatype Chunk = Chunk(start: nat, end: nat, refs: seq<RefCount>)

  ghost predicate ChunksOk(chunks: seq<Chunk>) {
    && (forall k :: 0 <= k < |chunks| ==>
          chunks[k].start < chunks[k].end && |chunks[k].refs| == chunks[k].end - chunks[k].start)
    && (forall k, l :: 0 <= k < l < |chunks| ==> chunks[k].end <= chunks[l].start)
  }

  predicate Contains(c: Chunk, p: nat) { c.start <= p < c.end }

  /** The reference count of a page, -1 for a page in no chunk. */
  ghost function Ref(chunks: seq<Chunk>, p: nat): (r: int)
    requires ChunksOk(chunks)
    ensures -1 <= r < COUNTS
  {
    if k :| 0 <= k < |chunks| && Contains(chunks[k], p) then chunks[k].refs[p - chunks[k].start] else -1
  }

  lemma RefIn(chunks: seq<Chunk>, k: nat, p: nat)
    requires ChunksOk(chunks) && k < |chunks| && Contains(chunks[k], p)
    ensures Ref(chunks, p) == chunks[k].refs[p - chunks[k].start]
  {
    var l :| 0 <= l < |chunks| && Contains(chunks[l], p)
      && Ref(chunks, p) == chunks[l].refs[p - chunks[l].start];
    if l < k {
      assert chunks[l].end <= chunks[k].start;
    } else if k < l {
      assert chunks[k].end <= chunks[l].start;
    }
  }

  function SetRef(chunks: seq<Chunk>, k: nat, p: nat, v: RefCount): seq<Chunk>
    requires k < |chunks| && Contains(chunks[k], p) && |chunks[k].refs| == chunks[k].end - chunks[k].start
  {
    chunks[k := chunks[k].(refs := chunks[k].refs[p - chunks[k].start := v])]
  }

  lemma SameChunk(chunks: seq<Chunk>, k: nat, l: nat, q: nat)
    requires ChunksOk(chunks) && k < |chunks| && l < |chunks| && Contains(chunks[l], q)
    ensures Contains(chunks[k], q) ==> k == l
  {
    if k < l {
      assert chunks[k].end <= chunks[l].start;
    } else if l < k {
      assert chunks[l].end <= chunks[k].start;
    }
  }

  lemma SetRefOk(chunks: seq<Chunk>, k: nat, p: nat, v: RefCount)
    requires ChunksOk(chunks) && k < |chunks| && Contains(chunks[k], p)
    ensures ChunksOk(SetRef(chunks, k, p, v))
  {
  }

  lemma SetRefIs(chunks: seq<Chunk>, k: nat, p: nat, v: RefCount, q: nat)
    requires ChunksOk(chunks) && k < |chunks| && Contains(chunks[k], p)
    requires ChunksOk(SetRef(chunks, k, p, v))
    ensures Ref(SetRef(chunks, k, p, v), q) == if q == p then v else Ref(chunks, q)
  {
    var cs := SetRef(chunks, k, p, v);
    if l :| 0 <= l < |chunks| && Contains(chunks[l], q) {
      RefIn(chunks, l, q);
      RefIn(cs, l, q);
      RefIn(cs, k, p);
      hide Ref;
      SameChunk(chunks, k, l, q);
    } else {
      assert forall l :: 0 <= l < |cs| ==> !Contains(cs[l], q);
    }
  }

  // ---------- run lists ----------

  /** Sorted, with a page that is not free between one run and the next. */
  ghost predicate Canonical(runs: seq<Run>) {
    && (forall k :: 0 <= k < |runs| ==> runs[k].count >= 1)
    && (forall k, l :: 0 <= k < l < |runs| ==> runs[k].addr + runs[k].count < runs[l].addr)
  }

  predicate Covers(r: Run, p: nat) { r.addr <= p < r.addr + r.count }

  ghost predicate Listed(runs: seq<Run>, p: nat) {
    exists k :: 0 <= k < |runs| && Covers(runs[k], p)
  }

  /** A canonical list is determined by the pages on it. */
  lemma {:induction false} CanonicalUnique(a: seq<Run>, b: seq<Run>)
    requires Canonical(a) && Canonical(b)
    requires forall p: nat :: Listed(a, p) <==> Listed(b, p)
    ensures a == b
    decreases |a|
  {
    if a == [] {
      if b != [] {
        assert Covers(b[0], b[0].addr) && Listed(b, b[0].addr);
      }
    } else {
      assert Covers(a[0], a[0].addr) && Listed(a, a[0].addr);
      assert b != [];
      FirstRunEqual(a, b);
      FirstRunEqual(b, a);
      assert a[0] == b[0];
      forall p: nat
        ensures Listed(a[1..], p) <==> Listed(b[1..], p)
      {
        ListedTail(a, p);
        ListedTail(b, p);
      }
      CanonicalUnique(a[1..], b[1..]);
      assert a == [a[0]] + a[1..] && b == [b[0]] + b[1..];
    }
  }

  lemma ListedTail(a: seq<Run>, p: nat)
    requires Canonical(a) && a != []
    ensures Listed(a[1..], p) <==> Listed(a, p) && !Covers(a[0], p)
  {
    if k :| 0 <= k < |a[1..]| && Covers(a[1..][k], p) {
      assert Covers(a[k + 1], p);
    }
    if l :| 0 <= l < |a| && Covers(a[l], p) && !Covers(a[0], p) {
      assert Covers(a[1..][l - 1], p);
    }
  }

  /** The first runs start at the same page and neither is longer. */
  lemma FirstRunEqual(a: seq<Run>, b: seq<Run>)
    requires Canonical(a) && Canonical(b) && a != [] && b != []
    requires forall p: nat :: Listed(a, p) <==> Listed(b, p)
    ensures a[0].addr >= b[0].addr
    ensures a[0].addr == b[0].addr ==> a[0].count <= b[0].count
  {
    assert Covers(a[0], a[0].addr) && Listed(a, a[0].addr);
    assert Listed(b, a[0].addr);
    var p := b[0].addr + b[0].count;
    assert !Listed(b, p);
    assert !Covers(a[0], p);
  }

  // ---------- the two structures together ----------

  /** The list holds exactly the pages without references. */
  ghost predicate Agree(runs: seq<Run>, chunks: seq<Chunk>)
    requires ChunksOk(chunks)
  {
    forall p: nat :: Listed(runs, p) <==> Ref(chunks, p) == 0
  }

  /** `n` contiguous pages at `p` are free. */
  ghost predicate FreeBlock(chunks: seq<Chunk>, p: nat, n: nat)
    requires ChunksOk(chunks)
  {
    forall q: nat :: p <= q < p + n ==> Ref(chunks, q) == 0
  }

  /** Contiguous free pages lie in one run, because runs are maximal. */
  lemma {:induction false} BlockInRun(runs: seq<Run>, p: nat, n: nat) returns (k: nat)
    requires Canonical(runs) && n >= 1
    requires forall q: nat :: p <= q < p + n ==> Listed(runs, q)
    ensures k < |runs| && runs[k].addr <= p && p + n <= runs[k].addr + runs[k].count
    decreases n
  {
    if n == 1 {
      assert Listed(runs, p);
      k :| 0 <= k < |runs| && Covers(runs[k], p);
    } else {
      k := BlockInRun(runs, p, n - 1);
      var q := p + n - 1;
      assert Listed(runs, q);
      var l :| 0 <= l < |runs| && Covers(runs[l], q);
      assert l == k;
    }
  }

  // ---------- changing the list ----------

  /** The list after the first `n` pages of run `k` are taken. */
  function Take(runs: seq<Run>, k: nat, n: nat): seq<Run>
    requires k < |runs| && n <= runs[k].count
  {
    if runs[k].count == n then runs[..k] + runs[k+1..]
    else runs[k := Run(runs[k].addr + n, runs[k].count - n)]
  }

  lemma TakeCanonical(runs: seq<Run>, k: nat, n: nat)
    requires Canonical(runs) && k < |runs| && n <= runs[k].count
    ensures Canonical(Take(runs, k, n))
  {
  }

  lemma TakeWhole(runs: seq<Run>, k: nat, p: nat)
    requires Canonical(runs) && k < |runs|
    ensures Listed(runs[..k] + runs[k+1..], p) <==> Listed(runs, p) && !Covers(runs[k], p)
  {
    var out := runs[..k] + runs[k+1..];
    if l :| 0 <= l < |out| && Covers(out[l], p) {
      assert Covers(runs[if l >= k then l + 1 else l], p);
    }
    if m :| 0 <= m < |runs| && Covers(runs[m], p) && !Covers(runs[k], p) {
      assert Covers(out[if m > k then m - 1 else m], p);
    }
  }

  lemma TakePart(runs: seq<Run>, k: nat, n: nat, p: nat)
    requires Canonical(runs) && k < |runs| && n < runs[k].count
    ensures Listed(runs[k := Run(runs[k].addr + n, runs[k].count - n)], p) <==>
              Listed(runs, p) && !(runs[k].addr <= p < runs[k].addr + n)
  {
    var out := runs[k := Run(runs[k].addr + n, runs[k].count - n)];
    if l :| 0 <= l < |out| && Covers(out[l], p) {
      assert Covers(runs[l], p);
    }
    if m :| 0 <= m < |runs| && Covers(runs[m], p) && !(runs[k].addr <= p < runs[k].addr + n) {
      assert Covers(out[m], p);
    }
  }

  lemma TakeListed(runs: seq<Run>, k: nat, n: nat, p: nat)
    requires Canonical(runs) && k < |runs| && n <= runs[k].count
    ensures Listed(Take(runs, k, n), p) <==> Listed(runs, p) && !(runs[k].addr <= p < runs[k].addr + n)
  {
    hide Listed, Canonical;
    if runs[k].count == n {
      TakeWhole(runs, k, p);
    } else {
      TakePart(runs, k, n, p);
    }
  }

  predicate TouchesBefore(runs: seq<Run>, j: nat, p: nat)
    requires j <= |runs|
  {
    j > 0 && runs[j-1].addr + runs[j-1].count == p
  }

  predicate TouchesAfter(runs: seq<Run>, j: nat, p: nat)
    requires j <= |runs|
  {
    j < |runs| && runs[j].addr == p + 1
  }

  /** The list after page `p` is put back between runs `j - 1` and `j`, joined to
      either or both where it touches them. */
  function Insert(runs: seq<Run>, j: nat, p: nat): seq<Run>
    requires j <= |runs|
  {
    if TouchesBefore(runs, j, p) then
      if TouchesAfter(runs, j, p) then
        runs[..j-1] + [Run(runs[j-1].addr, runs[j-1].count + 1 + runs[j].count)] + runs[j+1..]
      else runs[j-1 := Run(runs[j-1].addr, runs[j-1].count + 1)]
    else if TouchesAfter(runs, j, p) then runs[j := Run(p, runs[j].count + 1)]
    else runs[..j] + [Run(p, 1)] + runs[j..]
  }

  lemma TakeIs(runs: seq<Run>, k: nat, n: nat)
    requires Canonical(runs) && k < |runs| && n <= runs[k].count
    ensures Canonical(Take(runs, k, n))
    ensures forall p: nat :: Listed(Take(runs, k, n), p) <==> Listed(runs, p) && !(runs[k].addr <= p < runs[k].addr + n)
  {
    TakeCanonical(runs, k, n);
    forall p: nat
      ensures Listed(Take(runs, k, n), p) <==> Listed(runs, p) && !(runs[k].addr <= p < runs[k].addr + n)
    {
      TakeListed(runs, k, n, p);
    }
  }

  /** `p` is not on the list and `j` is where it belongs. */
  ghost predicate Place(runs: seq<Run>, j: nat, p: nat) {
    && Canonical(runs) && j <= |runs|
    && (forall k :: 0 <= k < j ==> runs[k].addr + runs[k].count <= p)
    && (forall k :: j <= k < |runs| ==> p < runs[k].addr)
  }

  lemma ListedConcat(a: seq<Run>, b: seq<Run>, q: nat)
    ensures Listed(a + b, q) <==> Listed(a, q) || Listed(b, q)
  {
    if k :| 0 <= k < |a + b| && Covers((a + b)[k], q) {
      if k < |a| {
        assert Covers(a[k], q);
      } else {
        assert Covers(b[k - |a|], q);
      }
    }
    if k :| 0 <= k < |a| && Covers(a[k], q) {
      assert Covers((a + b)[k], q);
    }
    if k :| 0 <= k < |b| && Covers(b[k], q) {
      assert Covers((a + b)[|a| + k], q);
    }
  }

  /** A run that keeps its distance from both neighbours fits between them. */
  lemma CanonicalSplice(left: seq<Run>, r: Run, right: seq<Run>)
    requires Canonical(left) && Canonical(right) && r.count >= 1
    requires forall k :: 0 <= k < |left| ==> left[k].addr + left[k].count < r.addr
    requires forall k :: 0 <= k < |right| ==> r.addr + r.count < right[k].addr
    ensures Canonical(left + [r] + right)
  {
  }

  lemma ListedSplice(left: seq<Run>, r: Run, right: seq<Run>, q: nat)
    ensures Listed(left + [r] + right, q) <==> Listed(left, q) || Covers(r, q) || Listed(right, q)
  {
    ListedConcat(left + [r], right, q);
    ListedConcat(left, [r], q);
    assert Covers([r][0], q) ==> Listed([r], q);
  }

  lemma CanonicalParts(runs: seq<Run>, i: nat, j: nat)
    requires Canonical(runs) && i <= |runs| && j <= |runs|
    ensures Canonical(runs[..i]) && Canonical(runs[j..])
  {
  }

  lemma InsertBoth(runs: seq<Run>, j: nat, p: nat, q: nat)
    requires Place(runs, j, p) && TouchesBefore(runs, j, p) && TouchesAfter(runs, j, p)
    ensures Canonical(Insert(runs, j, p))
    ensures Listed(Insert(runs, j, p), q) <==> Listed(runs, q) || q == p
  {
    hide Listed;
    var left, right := runs[..j-1], runs[j+1..];
    var r := Run(runs[j-1].addr, runs[j-1].count + 1 + runs[j].count);
    CanonicalParts(runs, j - 1, j + 1);
    CanonicalSplice(left, r, right);
    InsertBothListed(runs, j, p, q);
  }

  lemma InsertBothListed(runs: seq<Run>, j: nat, p: nat, q: nat)
    requires 0 < j < |runs| && TouchesBefore(runs, j, p) && TouchesAfter(runs, j, p)
    ensures Listed(Insert(runs, j, p), q) <==> Listed(runs, q) || q == p
  {
    hide Listed;
    var left, right := runs[..j-1], runs[j+1..];
    var r := Run(runs[j-1].addr, runs[j-1].count + 1 + runs[j].count);
    ListedSplice(left, r, right, q);
    assert runs == left + [runs[j-1]] + runs[j..];
    ListedSplice(left, runs[j-1], runs[j..], q);
    assert runs[j..] == [] + [runs[j]] + right;
    ListedSplice([], runs[j], right, q);
    ListedNil(q);
  }

  lemma ListedNil(q: nat)
    ensures !Listed([], q)
  {
  }

  lemma InsertBefore(runs: seq<Run>, j: nat, p: nat, q: nat)
    requires Place(runs, j, p) && TouchesBefore(runs, j, p) && !TouchesAfter(runs, j, p)
    ensures Canonical(Insert(runs, j, p))
    ensures Listed(Insert(runs, j, p), q) <==> Listed(runs, q) || q == p
  {
    var out := Insert(runs, j, p);
    if l :| 0 <= l < |out| && Covers(out[l], q) && q != p {
      assert Covers(runs[l], q);
    }
    if m :| 0 <= m < |runs| && Covers(runs[m], q) {
      assert Covers(out[m], q);
    }
    assert Covers(out[j-1], p);
  }

  lemma InsertAfter(runs: seq<Run>, j: nat, p: nat, q: nat)
    requires Place(runs, j, p) && !TouchesBefore(runs, j, p) && TouchesAfter(runs, j, p)
    ensures Canonical(Insert(runs, j, p))
    ensures Listed(Insert(runs, j, p), q) <==> Listed(runs, q) || q == p
  {
    var out := Insert(runs, j, p);
    if l :| 0 <= l < |out| && Covers(out[l], q) && q != p {
      assert Covers(runs[l], q);
    }
    if m :| 0 <= m < |runs| && Covers(runs[m], q) {
      assert Covers(out[m], q);
    }
    assert Covers(out[j], p);
  }

  lemma InsertAlone(runs: seq<Run>, j: nat, p: nat, q: nat)
    requires Place(runs, j, p) && !TouchesBefore(runs, j, p) && !TouchesAfter(runs, j, p)
    ensures Canonical(Insert(runs, j, p))
    ensures Listed(Insert(runs, j, p), q) <==> Listed(runs, q) || q == p
  {
    hide Listed;
    CanonicalParts(runs, j, j);
    CanonicalSplice(runs[..j], Run(p, 1), runs[j..]);
    InsertAloneListed(runs, j, p, q);
  }

  lemma InsertAloneListed(runs: seq<Run>, j: nat, p: nat, q: nat)
    requires j <= |runs| && !TouchesBefore(runs, j, p) && !TouchesAfter(runs, j, p)
    ensures Listed(Insert(runs, j, p), q) <==> Listed(runs, q) || q == p
  {
    hide Listed;
    ListedSplice(runs[..j], Run(p, 1), runs[j..], q);
    ListedConcat(runs[..j], runs[j..], q);
    assert runs == runs[..j] + runs[j..];
  }

  /** Putting a page back gives the canonical list with that page more. */
  lemma InsertIs(runs: seq<Run>, j: nat, p: nat, q: nat)
    requires Place(runs, j, p)
    ensures Canonical(Insert(runs, j, p))
    ensures Listed(Insert(runs, j, p), q) <==> Listed(runs, q) || q == p
  {
    if TouchesBefore(runs, j, p) {
      if TouchesAfter(runs, j, p) {
        InsertBoth(runs, j, p, q);
      } else {
        InsertBefore(runs, j, p, q);
      }
    } else if TouchesAfter(runs, j, p) {
      InsertAfter(runs, j, p, q);
    } else {
      InsertAlone(runs, j, p, q);
    }
  }

  // ---------- the page manager ----------

  /** A 32-bit count after an increment, if there is a count and it is meant. */
  function Bumped(ref: int, meant: bool): (r: int)
    requires -1 <= ref < COUNTS
    ensures -1 <= r < COUNTS && (r == -1 <==> ref == -1)
    ensures ref >= 0 ==> r == (if meant then ref + 1 else ref) % COUNTS
  {
    if meant && ref >= 0 then (if ref + 1 == COUNTS then 0 else ref + 1) else ref
  }

  /** A 32-bit count less one; -1 stands for no descriptor. */
  function Dropped(ref: int): (r: int)
    requires -1 <= ref < COUNTS
    ensures -1 <= r < COUNTS && (r == -1 <==> ref == -1)
    ensures ref >= 0 ==> r == (ref - 1) % COUNTS
  {
    if ref == -1 then -1 else if ref == 0 then COUNTS - 1 else ref - 1
  }

  /** The count as the int that the functions return; -1 for no descriptor. */
  function AsInt(ref: int): (r: int)
    requires -1 <= ref < COUNTS
    ensures ref == -1 ==> r == -1
    ensures ref >= 0 ==> 0 <= r + COUNTS / 2 < COUNTS && r % COUNTS == ref
  {
    if ref >= COUNTS / 2 then ref - COUNTS else ref
  }

  /** What inc_ref_count_pages adds up. */
  ghost function IncSum(chunks: seq<Chunk>, start: nat, end: nat): int
    requires ChunksOk(chunks)
    decreases end
  {
    if end <= start then 0 else IncSum(chunks, start, end - 1) + AsInt(Bumped(Ref(chunks, end - 1), true))
  }

  /** Of pages without a reference it is how many they are. */
  lemma {:induction false} IncSumFree(chunks: seq<Chunk>, start: nat, n: nat)
    requires ChunksOk(chunks) && FreeBlock(chunks, start, n)
    ensures IncSum(chunks, start, start + n) == n
  {
    hide ChunksOk, Ref;
    if n > 0 {
      IncSumFree(chunks, start, n - 1);
    }
  }

  class PageManager {
    var chunks: seq<Chunk>
    var runs: seq<Run>

    ghost predicate Valid()
      reads this
    {
      ChunksOk(chunks) && Canonical(runs) && Agree(runs, chunks)
    }

    /** get_phys_page_desc: the chunk whose table describes page `p`. */
    method GetPhysPageDesc(p: nat) returns (k: int)
      requires ChunksOk(chunks)
      ensures -1 <= k < |chunks|
      ensures k == -1 <==> Ref(chunks, p) == -1
      ensures k >= 0 ==> Contains(chunks[k], p) && Ref(chunks, p) == chunks[k].refs[p - chunks[k].start]
    {
      k := 0;
      while k < |chunks|
        invariant 0 <= k <= |chunks|
        invariant forall l :: 0 <= l < k ==> !Contains(chunks[l], p)
      {
        if chunks[k].start <= p < chunks[k].end {
          RefIn(chunks, k, p);
          return;
        }
        k := k + 1;
      }
      k := -1;
    }

    method SetCount(k: nat, p: nat, now: RefCount)
      requires ChunksOk(chunks) && k < |chunks| && Contains(chunks[k], p)
      modifies this`chunks
      ensures ChunksOk(chunks)
      ensures forall q: nat :: Ref(chunks, q) == if q == p then now else Ref(old(chunks), q)
    {
      SetRefOk(chunks, k, p, now);
      forall q: nat
        ensures Ref(SetRef(chunks, k, p, now), q) == if q == p then now else Ref(chunks, q)
      {
        SetRefIs(chunks, k, p, now, q);
      }
      chunks := SetRef(chunks, k, p, now);
    }

    /** inc_ref_count_page. */
    method IncRefCountPage(p: nat) returns (r: int)
      requires ChunksOk(chunks)
      modifies this`chunks
      ensures ChunksOk(chunks)
      ensures r == AsInt(Bumped(Ref(old(chunks), p), true))
      ensures forall q: nat :: Ref(chunks, q) == Bumped(Ref(old(chunks), q), q == p)
    {
      var k := GetPhysPageDesc(p);
      if k == -1 {
        return -1;
      }
      var now := Bumped(chunks[k].refs[p - chunks[k].start], true);
      SetCount(k, p, now);
      r := AsInt(now);
    }

    /** dec_ref_count_page. A count of 0 wraps around, and its value as an int is
        then the same -1 that a page without descriptor gives. */
    method DecRefCountPage(p: nat) returns (r: int)
      requires ChunksOk(chunks)
      modifies this`chunks
      ensures ChunksOk(chunks)
      ensures r == AsInt(Dropped(Ref(old(chunks), p)))
      ensures forall q: nat :: Ref(chunks, q) == if q == p then Dropped(Ref(old(chunks), q)) else Ref(old(chunks), q)
    {
      var k := GetPhysPageDesc(p);
      if k == -1 {
        return -1;
      }
      var now := Dropped(chunks[k].refs[p - chunks[k].start]);
      SetCount(k, p, now);
      r := AsInt(now);
    }

    /** inc_ref_count_pages on the pages from `start` up to `end`. */
    method IncRefCountPages(start: nat, end: nat) returns (sum: int)
      requires ChunksOk(chunks) && start <= end
      modifies this`chunks
      ensures ChunksOk(chunks)
      ensures forall q: nat :: Ref(chunks, q) == Bumped(Ref(old(chunks), q), start <= q < end)
      ensures sum == IncSum(old(chunks), start, end)
    {
      hide ChunksOk, Ref, AsInt;
      var p := start;
      sum := 0;
      while p < end
        invariant start <= p <= end && ChunksOk(chunks)
        invariant forall q: nat :: Ref(chunks, q) == Bumped(Ref(old(chunks), q), start <= q < p)
        invariant sum == IncSum(old(chunks), start, p)
      {
        var r := IncRefCountPage(p);
        sum := sum + r;
        p := p + 1;
      }
    }

    /** The search in alloc_phys_pages. */
    method FirstRun(n: nat) returns (k: nat)
      requires Valid() && n > 0
      ensures k <= |runs| && (k < |runs| ==> runs[k].count >= n)
      ensures k == |runs| ==> forall p: nat :: !FreeBlock(chunks, p, n)
      ensures k < |runs| ==> FreeBlock(chunks, runs[k].addr, n)
      ensures k < |runs| ==> forall p: nat :: FreeBlock(chunks, p, n) ==> runs[k].addr <= p
      ensures ZeroFits(runs, n) <==> k < |runs| && runs[k].addr == 0
      ensures ZeroFits(runs, n) ==> Ref(chunks, 0) == 0
    {
      k := 0;
      while k < |runs| && runs[k].count < n
        invariant 0 <= k <= |runs|
        invariant forall l :: 0 <= l < k ==> runs[l].count < n
      {
        k := k + 1;
      }
      FirstFit(runs, chunks, n, k);
      if k < |runs| && runs[k].addr == 0 {
        assert Covers(runs[k], 0) && Listed(runs, 0);
      }
    }

    /** alloc_phys_pages. The result is the lowest page that starts `n` contiguous
        free pages, or 0 if there are none; unless page 0 itself would be handed
        out, which the result cannot tell from failure. */
    method AllocPhysPages(n: nat) returns (r: nat)
      requires Valid()
      modifies this
      ensures ChunksOk(chunks) && Canonical(runs)
      ensures n == 0 ==> r == 0 && runs == old(runs) && chunks == old(chunks)
      ensures n > 0 && !ZeroFits(old(runs), n) ==>
        Valid() && (r == 0 ==> runs == old(runs) && chunks == old(chunks))
      ensures n > 0 && !ZeroFits(old(runs), n) && r == 0 ==> forall p: nat :: !FreeBlock(old(chunks), p, n)
      ensures n > 0 && r != 0 ==> FreeBlock(old(chunks), r, n)
      ensures n > 0 && r != 0 ==> forall p: nat :: FreeBlock(old(chunks), p, n) ==> r <= p
      ensures forall q: nat :: Ref(chunks, q) == Bumped(Ref(old(chunks), q), r != 0 && r <= q < r + n)
      ensures n > 0 && ZeroFits(old(runs), n) ==> r == 0 && !Valid()
    {
      hide Listed, Canonical, ChunksOk, Ref, FreeBlock, ZeroFits;
      r := 0;
      if n == 0 {
        return;
      }
      var k := FirstRun(n);
      if k < |runs| {
        r := runs[k].addr;
        TakeIs(runs, k, n);
        if n == runs[k].count {
          runs := runs[..k] + runs[k+1..];
        } else {
          runs := runs[k := Run(runs[k].addr + n, runs[k].count - n)];
        }
        if r != 0 {
          var sum := IncRefCountPages(r, r + n);
        } else {
          assert !Listed(runs, 0);
        }
      }
    }

    /** The list part of free_phys_page: put page `p` back, joining it to the run
        before and the run after where it touches them. */
    method PutBack(p: nat)
      requires Canonical(runs) && !Listed(runs, p)
      modifies this`runs
      ensures Canonical(runs)
      ensures forall q: nat :: Listed(runs, q) <==> Listed(old(runs), q) || q == p
    {
      var j := 0;
      while j < |runs| && runs[j].addr <= p
        invariant 0 <= j <= |runs|
        invariant forall k :: 0 <= k < j ==> runs[k].addr <= p
      {
        j := j + 1;
      }
      PlaceFound(runs, j, p);
      hide Listed, Canonical, Place;
      forall q: nat
        ensures Canonical(Insert(runs, j, p)) && (Listed(Insert(runs, j, p), q) <==> Listed(runs, q) || q == p)
      {
        InsertIs(runs, j, p, q);
      }
      assert Canonical(Insert(runs, j, p)) by {
        InsertIs(runs, j, p, p);
      }
      if j > 0 && runs[j-1].addr + runs[j-1].count == p {
        if j < |runs| && runs[j].addr == p + 1 {
          runs := runs[..j-1] + [Run(runs[j-1].addr, runs[j-1].count + 1 + runs[j].count)] + runs[j+1..];
        } else {
          runs := runs[j-1 := Run(runs[j-1].addr, runs[j-1].count + 1)];
        }
      } else if j < |runs| && runs[j].addr == p + 1 {
        runs := runs[j := Run(p, runs[j].count + 1)];
      } else {
        runs := runs[..j] + [Run(p, 1)] + runs[j..];
      }
    }

    /** free_phys_page: the page joins the list when its last reference goes. List and
        counts still agree exactly if the page was not free already and its count no
        more than half the range: past that the int is negative and the page is listed
        while it is in use. */
    method FreePhysPage(p: nat) returns (r: int)
      requires Valid()
      modifies this
      ensures Valid() <==> Ref(old(chunks), p) == -1 || 1 <= Ref(old(chunks), p) <= COUNTS / 2
      ensures r == if Ref(old(chunks), p) <= 0 then -1 else 0
      ensures ChunksOk(chunks) && Canonical(runs) && (r == -1 ==> runs == old(runs))
      ensures forall q: nat :: Ref(chunks, q) == if q == p then Dropped(Ref(old(chunks), q)) else Ref(old(chunks), q)
    {
      hide Listed, Canonical, ChunksOk, Ref;
      assert Listed(runs, p) <==> Ref(chunks, p) == 0;
      var ref := DecRefCountPage(p);
      if ref == -1 {
        return -1;
      } else if ref > 0 {
        return 0;
      }
      PutBack(p);
      assert Listed(runs, p);
      r := 0;
    }

    /** A page with `n` references, freed `m` times: it is on the list after the last of
        its references and not before, and list and counts agree all the while. */
    method FreeEach(p: nat, n: nat, m: nat)
      requires Valid() && Ref(chunks, p) == n && 1 <= n <= COUNTS / 2 && m <= n
      modifies this
      ensures Valid() && Ref(chunks, p) == n - m && (Listed(runs, p) <==> m == n)
      ensures forall q: nat :: q != p ==>
        Ref(chunks, q) == Ref(old(chunks), q) && (Listed(runs, q) <==> Listed(old(runs), q))
    {
      hide Listed, Canonical, ChunksOk, Ref;
      var i := 0;
      while i < m
        invariant 0 <= i <= m && Valid() && Ref(chunks, p) == n - i
        invariant forall q: nat :: q != p ==> Ref(chunks, q) == Ref(old(chunks), q)
      {
        var r := FreePhysPage(p);
        i := i + 1;
      }
    }

    /** A reference taken and given back leaves every count as it was, at any count. */
    method IncThenDec(p: nat) returns (r: int)
      requires ChunksOk(chunks)
      modifies this`chunks
      ensures ChunksOk(chunks) && r == AsInt(Ref(chunks, p)) && forall q: nat :: Ref(chunks, q) == Ref(old(chunks), q)
    {
      hide ChunksOk, Ref, AsInt;
      r := IncRefCountPage(p);
      r := DecRefCountPage(p);
    }

    /** init_free_phys_page_manager: list the free pages chunk by chunk. Runs are
        never joined across chunks, so the list comes out canonical exactly when
        no two chunks meet between two free pages. */
    method InitFreePhysPageManager()
      requires ChunksOk(chunks) && runs == []
      modifies this`runs
      ensures Agree(runs, chunks)
      ensures Canonical(runs) <==> forall k :: 0 < k < |chunks| ==> !Seam(chunks, k)
    {
      hide Listed, Canonical, Ref, Scanned, Seam;
      ScannedNone(chunks);
      var k := 0;
      ghost var limit := 0;
      while k < |chunks|
        invariant 0 <= k <= |chunks|
        invariant k > 0 ==> limit == chunks[k-1].end
        invariant k == 0 ==> limit == 0
        invariant Scanned(runs, chunks, limit)
        invariant Canonical(runs) <==> forall l :: 0 < l < k ==> !Seam(chunks, l)
      {
        var more := ScanChunk(chunks[k]);
        assert NextScan(runs, more, chunks, k, limit);
        JoinScans(runs, more, chunks, k, limit);
        runs := runs + more;
        limit := chunks[k].end;
        k := k + 1;
      }
      ScannedAll(runs, chunks, limit);
    }

    /** Allocating pages and freeing them one by one, in whatever order, restores
        the very same list. */
    method AllocThenFree(n: nat, order: seq<nat>) returns (r: nat)
      requires Valid() && n > 0 && !ZeroFits(runs, n)
      requires |order| == n && (forall i :: 0 <= i < n ==> order[i] < n)
      requires forall i, j :: 0 <= i < j < n ==> order[i] != order[j]
      requires forall x: nat :: x < n ==> x in order
      modifies this
      ensures Valid() && runs == old(runs)
      ensures forall q: nat :: Ref(chunks, q) == Ref(old(chunks), q)
    {
      hide Listed, Canonical, ChunksOk, Ref, ZeroFits;
      r := AllocPhysPages(n);
      if r == 0 {
        return;
      }
      var i := 0;
      while i < n
        invariant 0 <= i <= n && Valid()
        invariant forall q: nat ::
          Ref(chunks, q) == Bumped(Ref(old(chunks), q), r <= q < r + n && (q - r) !in order[..i])
      {
        assert order[i] !in order[..i];
        assert order[..i+1] == order[..i] + [order[i]];
        assert FreeBlock(old(chunks), r, n);
        var ok := FreePhysPage(r + order[i]);
        i := i + 1;
      }
      forall q: nat
        ensures Ref(chunks, q) == Ref(old(chunks), q)
      {
        assert order[..n] == order;
        if r <= q < r + n {
          assert q - r in order;
        }
      }
      CanonicalUnique(runs, old(runs));
    }

    /** Two free pages starting with page 0: asking for one gets 0, and list and counts
        disagree afterwards. */
    method PageZeroLost() returns (r: nat)
      modifies this
      ensures r == 0 && ChunksOk(chunks) && Canonical(runs) && !Agree(runs, chunks)
    {
      chunks, runs := [Chunk(0, 2, [0, 0])], [Run(0, 2)];
      OneChunk(chunks[0]);
      OneRun(runs[0]);
      r := AllocPhysPages(1);
    }

    /** One free page, freed: an error is returned, and the page is on the list with a
        count that is not 0. */
    method FreedWhileFree() returns (r: int)
      modifies this
      ensures r == -1 && ChunksOk(chunks) && Listed(runs, 1) && Ref(chunks, 1) == COUNTS - 1
    {
      chunks, runs := [Chunk(1, 2, [0])], [Run(1, 1)];
      OneChunk(chunks[0]);
      OneRun(runs[0]);
      assert Listed(runs, 1) by { assert Covers(runs[0], 1); }
      r := FreePhysPage(1);
    }

    /** Two free pages in chunks that meet: the list has two runs that touch. */
    method SeamLeft()
      modifies this
      ensures ChunksOk(chunks) && Agree(runs, chunks) && !Canonical(runs)
    {
      chunks, runs := [Chunk(1, 2, [0]), Chunk(2, 3, [0])], [];
      RefIn(chunks, 0, 1);
      RefIn(chunks, 1, 2);
      InitFreePhysPageManager();
      assert Seam(chunks, 1);
    }
  }

  lemma OneChunk(c: Chunk)
    requires c.start < c.end && |c.refs| == c.end - c.start
    ensures ChunksOk([c])
    ensures forall p: nat :: Ref([c], p) == if Contains(c, p) then c.refs[p - c.start] else -1
  {
    forall p: nat ensures Ref([c], p) == if Contains(c, p) then c.refs[p - c.start] else -1 {
      if Contains(c, p) {
        RefIn([c], 0, p);
      }
    }
  }

  lemma OneRun(r: Run)
    requires r.count >= 1
    ensures Canonical([r]) && forall p: nat :: Listed([r], p) <==> Covers(r, p)
  {
    forall p: nat ensures Listed([r], p) <==> Covers(r, p) {
      assert [r][0] == r;
    }
  }

  lemma PlaceFound(runs: seq<Run>, j: nat, p: nat)
    requires Canonical(runs) && !Listed(runs, p) && j <= |runs|
    requires forall k :: 0 <= k < j ==> runs[k].addr <= p
    requires j < |runs| ==> p < runs[j].addr
    ensures Place(runs, j, p)
  {
    forall k | 0 <= k < j
      ensures runs[k].addr + runs[k].count <= p
    {
      assert !Covers(runs[k], p);
    }
  }

  /** Page 0 starts the first run and the run is long enough. */
  predicate ZeroFits(runs: seq<Run>, n: nat) { runs != [] && runs[0].addr == 0 && runs[0].count >= n }

  /** The first run of at least `n` pages starts the lowest free block of `n` pages. */
  lemma FirstFit(runs: seq<Run>, chunks: seq<Chunk>, n: nat, k: nat)
    requires ChunksOk(chunks) && Canonical(runs) && Agree(runs, chunks) && n >= 1
    requires k <= |runs| && (forall l :: 0 <= l < k ==> runs[l].count < n)
    requires k < |runs| ==> runs[k].count >= n
    ensures k == |runs| ==> forall p: nat :: !FreeBlock(chunks, p, n)
    ensures k < |runs| ==> FreeBlock(chunks, runs[k].addr, n)
    ensures k < |runs| ==> forall p: nat :: FreeBlock(chunks, p, n) ==> runs[k].addr <= p
    ensures ZeroFits(runs, n) <==> k < |runs| && runs[k].addr == 0
  {
    if k < |runs| {
      forall q: nat | runs[k].addr <= q < runs[k].addr + n
        ensures Ref(chunks, q) == 0
      {
        assert Covers(runs[k], q) && Listed(runs, q);
      }
    }
    forall p: nat | FreeBlock(chunks, p, n)
      ensures k < |runs| && runs[k].addr <= p
    {
      var l := BlockInRun(runs, p, n);
    }
  }

  // ---------- building the list ----------

  /** Chunks `k - 1` and `k` meet, with a free page on either side. */
  ghost predicate Seam(chunks: seq<Chunk>, k: nat)
    requires ChunksOk(chunks) && 0 < k < |chunks|
  {
    && chunks[k-1].end == chunks[k].start
    && Ref(chunks, chunks[k].start - 1) == 0 && Ref(chunks, chunks[k].start) == 0
  }

  /** The list of the free pages below `limit`, in order, runs possibly touching. */
  ghost predicate Scanned(runs: seq<Run>, chunks: seq<Chunk>, limit: nat)
    requires ChunksOk(chunks)
  {
    && (forall k :: 0 <= k < |runs| ==> runs[k].count >= 1 && runs[k].addr + runs[k].count <= limit)
    && (forall k, l :: 0 <= k < l < |runs| ==> runs[k].addr + runs[k].count <= runs[l].addr)
    && (forall p: nat :: Listed(runs, p) <==> Ref(chunks, p) == 0 && p < limit)
  }

  lemma EmptyRuns()
    ensures Canonical([]) && forall p: nat :: !Listed([], p)
  {
  }

  /** The free pages of one chunk. */
  method ScanChunk(c: Chunk) returns (out: seq<Run>)
    requires c.start < c.end && |c.refs| == c.end - c.start
    ensures Canonical(out)
    ensures forall k :: 0 <= k < |out| ==> c.start <= out[k].addr && out[k].addr + out[k].count <= c.end
    ensures forall p: nat :: Listed(out, p) <==> Contains(c, p) && c.refs[p - c.start] == 0
  {
    hide Listed, Canonical;
    EmptyRuns();
    out := [];
    var open, start, addr := false, 0, c.start;
    while addr < c.end
      invariant c.start <= addr <= c.end
      invariant Canonical(out)
      invariant forall k :: 0 <= k < |out| ==>
        c.start <= out[k].addr && out[k].addr + out[k].count < if open then start else addr
      invariant open ==> c.start <= start < addr
      invariant forall p: nat ::
        Listed(out, p) || (open && start <= p < addr) <==> c.start <= p < addr && c.refs[p - c.start] == 0
    {
      if c.refs[addr - c.start] > 0 {
        if open {
          AppendRun(out, Run(start, addr - start));
          out := out + [Run(start, addr - start)];
        }
        open := false;
      } else if !open {
        open, start := true, addr;
      }
      addr := addr + 1;
    }
    if open {
      AppendRun(out, Run(start, addr - start));
      out := out + [Run(start, addr - start)];
    }
    assert forall p: nat :: Listed(out, p) <==> c.start <= p < c.end && c.refs[p - c.start] == 0;
  }

  lemma AppendRun(out: seq<Run>, r: Run)
    requires Canonical(out) && r.count >= 1
    requires forall k :: 0 <= k < |out| ==> out[k].addr + out[k].count < r.addr
    ensures Canonical(out + [r])
    ensures forall p: nat :: Listed(out + [r], p) <==> Listed(out, p) || Covers(r, p)
  {
    forall p: nat
      ensures Listed(out + [r], p) <==> Listed(out, p) || Covers(r, p)
    {
      ListedConcat(out, [r], p);
      assert Covers([r][0], p) ==> Listed([r], p);
    }
  }

  /** `more` lists chunk `k`, and everything below `limit`, the end of the chunk
      before, is listed already. */
  ghost predicate NextScan(runs: seq<Run>, more: seq<Run>, chunks: seq<Chunk>, k: nat, limit: nat) {
    && ChunksOk(chunks) && k < |chunks| && Scanned(runs, chunks, limit)
    && limit == (if k == 0 then 0 else chunks[k-1].end)
    && Canonical(more)
    && (forall l :: 0 <= l < |more| ==> chunks[k].start <= more[l].addr && more[l].addr + more[l].count <= chunks[k].end)
    && (forall p: nat :: Listed(more, p) <==> Contains(chunks[k], p) && chunks[k].refs[p - chunks[k].start] == 0)
  }

  lemma JoinListed(runs: seq<Run>, more: seq<Run>, chunks: seq<Chunk>, k: nat, limit: nat, p: nat)
    requires NextScan(runs, more, chunks, k, limit)
    ensures Listed(runs + more, p) <==> Ref(chunks, p) == 0 && p < chunks[k].end
  {
    ListedConcat(runs, more, p);
    assert k > 0 ==> chunks[k-1].end <= chunks[k].start;
    if Contains(chunks[k], p) {
      RefIn(chunks, k, p);
    } else if l :| 0 <= l < |chunks| && Contains(chunks[l], p) {
      assert k < l ==> chunks[k].end <= chunks[l].start;
      assert l < k ==> chunks[l].end <= limit by {
        assert l < k - 1 ==> chunks[l].end <= chunks[k-1].start;
      }
    }
  }

  lemma JoinScanned(runs: seq<Run>, more: seq<Run>, chunks: seq<Chunk>, k: nat, limit: nat)
    requires NextScan(runs, more, chunks, k, limit)
    ensures Scanned(runs + more, chunks, chunks[k].end)
  {
    assert k > 0 ==> chunks[k-1].end <= chunks[k].start;
    forall p: nat
      ensures Listed(runs + more, p) <==> Ref(chunks, p) == 0 && p < chunks[k].end
    {
      JoinListed(runs, more, chunks, k, limit, p);
    }
    hide Listed, Ref;
  }

  /** A run that touches the border makes the page below it free. */
  lemma BorderRun(runs: seq<Run>, chunks: seq<Chunk>, limit: nat, i: nat)
    requires ChunksOk(chunks) && Scanned(runs, chunks, limit) && i < |runs|
    requires runs[i].addr + runs[i].count == limit
    ensures Ref(chunks, limit - 1) == 0
  {
    assert Covers(runs[i], limit - 1) && Listed(runs, limit - 1);
  }

  lemma JoinCanonical(runs: seq<Run>, more: seq<Run>, chunks: seq<Chunk>, k: nat, limit: nat)
    requires NextScan(runs, more, chunks, k, limit)
    ensures Canonical(runs) && (k > 0 ==> !Seam(chunks, k)) ==> Canonical(runs + more)
  {
    if Canonical(runs) && (k > 0 ==> !Seam(chunks, k)) {
      assert k > 0 ==> chunks[k-1].end <= chunks[k].start;
      forall i, l | 0 <= i < |runs| && 0 <= l < |more|
        ensures runs[i].addr + runs[i].count < more[l].addr
      {
        if runs[i].addr + runs[i].count == more[l].addr {
          BorderRun(runs, chunks, limit, i);
          assert Covers(more[l], chunks[k].start) && Listed(more, chunks[k].start);
          RefIn(chunks, k, chunks[k].start);
        }
      }
    }
  }

  lemma Apart(a: seq<Run>, b: seq<Run>, i: nat, l: nat)
    requires Canonical(a + b) && i < |a| && l < |b|
    ensures a[i].addr + a[i].count < b[l].addr
  {
    assert (a + b)[i] == a[i] && (a + b)[|a| + l] == b[l];
  }

  lemma JoinSeam(runs: seq<Run>, more: seq<Run>, chunks: seq<Chunk>, k: nat, limit: nat)
    requires NextScan(runs, more, chunks, k, limit) && Canonical(runs + more)
    ensures Canonical(runs) && (k > 0 ==> !Seam(chunks, k))
  {
    assert runs == (runs + more)[..|runs|];
    CanonicalParts(runs + more, |runs|, 0);
    if k > 0 && Seam(chunks, k) {
      assert Listed(runs, limit - 1);
      var i :| 0 <= i < |runs| && Covers(runs[i], limit - 1);
      RefIn(chunks, k, chunks[k].start);
      assert Listed(more, chunks[k].start);
      var l :| 0 <= l < |more| && Covers(more[l], chunks[k].start);
      Apart(runs, more, i, l);
    }
  }

  lemma JoinScans(runs: seq<Run>, more: seq<Run>, chunks: seq<Chunk>, k: nat, limit: nat)
    requires NextScan(runs, more, chunks, k, limit)
    ensures Scanned(runs + more, chunks, chunks[k].end)
    ensures Canonical(runs + more) <==> Canonical(runs) && (k > 0 ==> !Seam(chunks, k))
  {
    JoinScanned(runs, more, chunks, k, limit);
    JoinCanonical(runs, more, chunks, k, limit);
    hide Canonical, NextScan, Scanned;
    if Canonical(runs + more) {
      JoinSeam(runs, more, chunks, k, limit);
    }
  }

  lemma ScannedNone(chunks: seq<Chunk>)
    requires ChunksOk(chunks)
    ensures Scanned([], chunks, 0) && Canonical([])
  {
  }

  lemma ScannedAll(runs: seq<Run>, chunks: seq<Chunk>, limit: nat)
    requires ChunksOk(chunks) && Scanned(runs, chunks, limit)
    requires limit == if chunks == [] then 0 else chunks[|chunks|-1].end
    ensures Agree(runs, chunks)
  {
    forall p: nat | Ref(chunks, p) == 0
      ensures p < limit
    {
      var l :| 0 <= l < |chunks| && Contains(chunks[l], p);
      assert l < |chunks| - 1 ==> chunks[l].end <= chunks[|chunks|-1].start;
    }
  }
}
