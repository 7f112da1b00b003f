/** The bit layout of page-translation entries and virtual addresses
    (include/sys/memory/page_table_helper.h), and the algebra of the
    self-reference window. Words are 64-bit vectors here; they leave the module
    decoded, as a `Pte` record or as table indices below 512. */
module PageBits {

  const PRESENT: bv64 := 0x1
  const READ_WRITE: bv64 := 0x2
  const USER: bv64 := 0x4
  const NX: bv64 := 0x8000_0000_0000_0000
  const ADDR_MASK: bv64 := 0x000F_FFFF_FFFF_F000
  const SIGN_BIT: bv64 := 0x0008_0000_0000_0000
  const SIGN_EXTENSION: bv64 := 0xFFF0_0000_0000_0000
  const PAGE_ALIGN: bv64 := 0xFFFF_FFFF_FFFF_F000

  const ENTRIES: nat := 512
  const SELF_REF: nat := 256
  const KERNEL: nat := 511

  type Index = i: int | 0 <= i < 512

  // ---------- entries ----------

  function NextLevelAddr(a: bv64): bv64 { a & ADDR_MASK }

  function SignExt(a: bv64): bv64 { if a & SIGN_BIT != 0 then SIGN_EXTENSION else 0 }

  function NonAddrFields(a: bv64): bv64 { a & !ADDR_MASK }

  /** The address the kernel computes for the object an entry points to. */
  function EntryAddr(e: bv64): bv64 { NextLevelAddr(e) | SignExt(e) }

  /** A page of physical memory, named by its address. */
  datatype Frame = Frame(addr: bv64)

  /** A genuine frame address: 4 KB aligned with bit 51 and above clear, so that
      the sign extension the kernel applies to entry addresses is idle. */
  predicate IsFrame(f: Frame) { f.addr & 0xFFF8_0000_0000_0FFF == 0 }

  /** The entry installed for a lower-level table. */
  function LinkEntry(table: bv64): bv64 {
    NextLevelAddr(table) | PRESENT | READ_WRITE | USER
  }

  /** The entry get_selfref_PML4 installs in slot 256. */
  function SelfEntry(table: bv64): bv64 { NextLevelAddr(table) | PRESENT | READ_WRITE }

  /** The leaf entry written for a page mapped at `phys`. */
  function LeafEntry(phys: bv64, perm: bv64): bv64 {
    NextLevelAddr(phys) | PRESENT | NonAddrFields(perm)
  }

  /** The leaf entry written when only the permissions of `e` change. */
  function ProtectEntry(e: bv64, perm: bv64): bv64 { NextLevelAddr(e) | NonAddrFields(perm) }

  /** The link entry cow_fork_level writes for the copy of a table. */
  function CopyEntry(e: bv64, table: bv64): bv64 { NonAddrFields(e) | NextLevelAddr(table) }

  function ClearWrite(e: bv64): bv64 { e & !READ_WRITE }

  /** The permission bits virt2phys_selfref reports. */
  function PermBits(e: bv64): bv64 { e & (READ_WRITE | USER | NX) }

  /** A decoded entry: section 5.3.3 of the AMD64 Architecture Programmer's
      Manual, Volume 2. `rest` keeps the bits the kernel gives no meaning to. */
  datatype Pte = Pte(frame: Frame, present: bool, write: bool, user: bool, nx: bool, rest: bv64)

  function Decode(e: bv64): Pte {
    Pte(Frame(e & ADDR_MASK), e & PRESENT != 0, e & READ_WRITE != 0, e & USER != 0, e & NX != 0,
        e & 0x7FF0_0000_0000_0FF8)
  }

  const ABSENT: Pte := Pte(Frame(0), false, false, false, false, 0)

  /** Decoding loses nothing. */
  lemma DecodeInjective(a: bv64, b: bv64)
    requires Decode(a) == Decode(b)
    ensures a == b
  {
  }

  lemma DecodePresent(e: bv64)
    ensures Decode(e).present <==> e & PRESENT != 0
  {
  }

  lemma DecodeZero()
    ensures Decode(0) == ABSENT
  {
  }

  /** For frames below bit 51 the kernel and the hardware agree on the address. */
  lemma EntryAddrIsHardwareAddr(e: bv64)
    requires IsFrame(Decode(e).frame)
    ensures EntryAddr(e) == Decode(e).frame.addr
  {
  }

  lemma MaskTwice(e: bv64)
    ensures NextLevelAddr(e & ADDR_MASK) == NextLevelAddr(e)
  {
  }

  lemma SignOfMasked(e: bv64)
    ensures SignExt(e & ADDR_MASK) == SignExt(e)
  {
    assert (e & ADDR_MASK) & SIGN_BIT == e & SIGN_BIT;
  }

  /** The kernel's idea of an entry's target depends on the address field only. */
  lemma EntryAddrOfFrame(e: bv64)
    ensures EntryAddr(Decode(e).frame.addr) == EntryAddr(e)
  {
    hide NextLevelAddr, SignExt;
    MaskTwice(e);
    SignOfMasked(e);
  }

  /** An entry whose address field has bit 51 set yields no frame at all. */
  lemma OddFrameOddAddr(e: bv64)
    requires !IsFrame(Decode(e).frame)
    ensures !IsFrame(Frame(EntryAddr(e)))
  {
  }

  lemma DecodeLink(f: Frame)
    requires IsFrame(f)
    ensures Decode(LinkEntry(f.addr)) == Pte(f, true, true, true, false, 0)
  {
  }

  lemma DecodeSelf(f: Frame)
    requires IsFrame(f)
    ensures Decode(SelfEntry(f.addr)) == Pte(f, true, true, false, false, 0)
  {
  }

  lemma DecodeLeaf(f: Frame, perm: bv64)
    requires IsFrame(f)
    ensures Decode(LeafEntry(f.addr, perm)) == Decode(perm).(frame := f, present := true)
  {
  }

  lemma DecodeProtect(e: bv64, perm: bv64)
    ensures Decode(ProtectEntry(e, perm)) == Decode(perm).(frame := Decode(e).frame)
  {
  }

  lemma DecodeCopy(e: bv64, f: Frame)
    requires IsFrame(f)
    ensures Decode(CopyEntry(e, f.addr)) == Decode(e).(frame := f)
  {
  }

  lemma DecodeClear(e: bv64)
    ensures Decode(ClearWrite(e)) == Decode(e).(write := false)
  {
  }

  lemma DecodePerm(e: bv64)
    ensures Decode(PermBits(e)) == Decode(e).(frame := Frame(0), present := false, rest := 0)
  {
  }

  // ---------- addresses ----------

  function Bits47To39(a: bv64): bv64 { a & 0x0000_FF80_0000_0000 }
  function Bits38To30(a: bv64): bv64 { a & 0x0000_007F_C000_0000 }
  function Bits29To21(a: bv64): bv64 { a & 0x0000_0000_3FE0_0000 }
  function Bits20To12(a: bv64): bv64 { a & 0x0000_0000_001F_F000 }

  function Pml4Bits(a: bv64): bv9 { (Bits47To39(a) >> 39) as bv9 }
  function PdpBits(a: bv64): bv9 { (Bits38To30(a) >> 30) as bv9 }
  function PdBits(a: bv64): bv9 { (Bits29To21(a) >> 21) as bv9 }
  function PtBits(a: bv64): bv9 { (Bits20To12(a) >> 12) as bv9 }

  function IndexPml4e(a: bv64): Index { Pml4Bits(a) as int }
  function IndexPdpe(a: bv64): Index { PdpBits(a) as int }
  function IndexPde(a: bv64): Index { PdBits(a) as int }
  function IndexPte(a: bv64): Index { PtBits(a) as int }

  /** The 8-byte word within its page that an address points at. */
  function WordBits(a: bv64): bv9 { ((a & 0xFF8) >> 3) as bv9 }
  function WordIndex(a: bv64): Index { WordBits(a) as int }

  /** Bits 63 to 47 of an address the processor accepts are all equal. */
  predicate Canonical(a: bv64) {
    a & 0xFFFF_8000_0000_0000 == 0 || a & 0xFFFF_8000_0000_0000 == 0xFFFF_8000_0000_0000
  }

  /** The four table indices of an address, from the PML4 down. */
  function PathOf(a: bv64): seq<Index> { [IndexPml4e(a), IndexPdpe(a), IndexPde(a), IndexPte(a)] }

  lemma AlignedPml4(a: bv64)
    ensures Pml4Bits(a & PAGE_ALIGN) == Pml4Bits(a)
  {
  }

  lemma AlignedPdp(a: bv64)
    ensures PdpBits(a & PAGE_ALIGN) == PdpBits(a)
  {
  }

  lemma AlignedPd(a: bv64)
    ensures PdBits(a & PAGE_ALIGN) == PdBits(a)
  {
  }

  lemma AlignedPt(a: bv64)
    ensures PtBits(a & PAGE_ALIGN) == PtBits(a)
  {
  }

  /** The offset within the page plays no part in the indices. */
  lemma AlignedPath(a: bv64)
    ensures PathOf(a & PAGE_ALIGN) == PathOf(a)
  {
    AlignedPml4(a);
    AlignedPdp(a);
    AlignedPd(a);
    AlignedPt(a);
  }

  lemma BitsEqualSamePage(a: bv64, b: bv64)
    requires Canonical(a) && Canonical(b)
    requires Pml4Bits(a) == Pml4Bits(b) && PdpBits(a) == PdpBits(b)
    requires PdBits(a) == PdBits(b) && PtBits(a) == PtBits(b)
    ensures a & PAGE_ALIGN == b & PAGE_ALIGN
  {
  }

  lemma IndexDeterminesBits(b: bv9, c: bv9)
    requires b as int == c as int
    ensures b == c
  {
  }

  lemma EqualPathSamePage(a: bv64, b: bv64)
    requires Canonical(a) && Canonical(b) && PathOf(a) == PathOf(b)
    ensures a & PAGE_ALIGN == b & PAGE_ALIGN
  {
    assert PathOf(a)[0] == PathOf(b)[0] && PathOf(a)[1] == PathOf(b)[1];
    assert PathOf(a)[2] == PathOf(b)[2] && PathOf(a)[3] == PathOf(b)[3];
    IndexDeterminesBits(Pml4Bits(a), Pml4Bits(b));
    IndexDeterminesBits(PdpBits(a), PdpBits(b));
    IndexDeterminesBits(PdBits(a), PdBits(b));
    IndexDeterminesBits(PtBits(a), PtBits(b));
    BitsEqualSamePage(a, b);
  }

  lemma SamePageEqualPath(p: bv64, a: bv64, b: bv64)
    requires p == a & PAGE_ALIGN && p == b & PAGE_ALIGN
    ensures PathOf(a) == PathOf(b)
  {
    AlignedPath(a);
    AlignedPath(b);
  }

  /** Two addresses have the same indices exactly when they lie in one page. */
  lemma PathIdentifiesPage(a: bv64, b: bv64)
    requires Canonical(a) && Canonical(b)
    ensures PathOf(a) == PathOf(b) <==> a & PAGE_ALIGN == b & PAGE_ALIGN
  {
    if a & PAGE_ALIGN == b & PAGE_ALIGN {
      SamePageEqualPath(a & PAGE_ALIGN, a, b);
    } else if PathOf(a) == PathOf(b) {
      EqualPathSamePage(a, b);
    }
  }

  // ---------- the self-reference window ----------

  const SELF_REF_ENTRY: bv64 := 256
  const SELF_REF_HIGH: bv64 := 0xFFFF_0000_0000_0000

  function SelfRefPml4(a: bv64): bv64 {
    SELF_REF_HIGH | (SELF_REF_ENTRY << 39) | (SELF_REF_ENTRY << 30)
    | (SELF_REF_ENTRY << 21) | (SELF_REF_ENTRY << 12)
  }

  function SelfRefPml4e(a: bv64): bv64 { SelfRefPml4(a) | (Bits47To39(a) >> 36) }

  function SelfRefPdp(a: bv64): bv64 {
    SELF_REF_HIGH | (SELF_REF_ENTRY << 39) | (SELF_REF_ENTRY << 30)
    | (SELF_REF_ENTRY << 21) | (Bits47To39(a) >> 27)
  }

  function SelfRefPdpe(a: bv64): bv64 { SelfRefPdp(a) | (Bits38To30(a) >> 27) }

  function SelfRefPd(a: bv64): bv64 {
    SELF_REF_HIGH | (SELF_REF_ENTRY << 39) | (SELF_REF_ENTRY << 30)
    | (Bits47To39(a) >> 18) | (Bits38To30(a) >> 18)
  }

  function SelfRefPde(a: bv64): bv64 { SelfRefPd(a) | (Bits29To21(a) >> 18) }

  function SelfRefPt(a: bv64): bv64 {
    SELF_REF_HIGH | (SELF_REF_ENTRY << 39)
    | (Bits47To39(a) >> 9) | (Bits38To30(a) >> 9) | (Bits29To21(a) >> 9)
  }

  function SelfRefPte(a: bv64): bv64 { SelfRefPt(a) | (Bits20To12(a) >> 9) }

  /** Each window address is canonical, and its indices are those of `a` moved
      down behind one self reference per level skipped. */
  lemma SelfRefPml4eIndices(a: bv64)
    ensures Canonical(SelfRefPml4e(a))
    ensures PathOf(SelfRefPml4e(a)) == [SELF_REF, SELF_REF, SELF_REF, SELF_REF]
    ensures WordIndex(SelfRefPml4e(a)) == IndexPml4e(a)
  {
    var w := SelfRefPml4e(a);
    assert Pml4Bits(w) == 256 && PdpBits(w) == 256 && PdBits(w) == 256 && PtBits(w) == 256;
  }

  lemma SelfRefPdpeIndices(a: bv64)
    ensures Canonical(SelfRefPdpe(a))
    ensures PathOf(SelfRefPdpe(a)) == [SELF_REF, SELF_REF, SELF_REF, IndexPml4e(a)]
    ensures WordIndex(SelfRefPdpe(a)) == IndexPdpe(a)
  {
    var w := SelfRefPdpe(a);
    assert Pml4Bits(w) == 256 && PdpBits(w) == 256 && PdBits(w) == 256 && PtBits(w) == Pml4Bits(a);
  }

  lemma SelfRefPdeIndices(a: bv64)
    ensures Canonical(SelfRefPde(a))
    ensures PathOf(SelfRefPde(a)) == [SELF_REF, SELF_REF, IndexPml4e(a), IndexPdpe(a)]
    ensures WordIndex(SelfRefPde(a)) == IndexPde(a)
  {
    var w := SelfRefPde(a);
    assert Pml4Bits(w) == 256 && PdpBits(w) == 256;
    assert PdBits(w) == Pml4Bits(a) && PtBits(w) == PdpBits(a);
  }

  lemma SelfRefPteIndices(a: bv64)
    ensures Canonical(SelfRefPte(a))
    ensures PathOf(SelfRefPte(a)) == [SELF_REF, IndexPml4e(a), IndexPdpe(a), IndexPde(a)]
    ensures WordIndex(SelfRefPte(a)) == IndexPte(a)
  {
    var w := SelfRefPte(a);
    assert Pml4Bits(w) == 256 && PdpBits(w) == Pml4Bits(a);
    assert PdBits(w) == PdpBits(a) && PtBits(w) == PdBits(a);
  }
}
