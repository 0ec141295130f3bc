/** Page-table entries as 64-bit words: the packing that the tables' entries stand for. */
module EntryBits {
  import opened PageTables

  const PRESENT: bv64 := 0x0001
  const WRITE: bv64 := 0x0002
  const USER: bv64 := 0x0004
  const PWT: bv64 := 0x0008
  const PCD: bv64 := 0x0010
  const ACCESSED: bv64 := 0x0020
  const DIRTY: bv64 := 0x0040
  const PAGESIZE: bv64 := 0x0080
  const NX: bv64 := 0x8000_0000_0000_0000
  const LOW: bv64 := 0xFFF
  // What `alloc_if_not_present` compares.
  const CHECK: bv64 := (NX | LOW) & !(ACCESSED | DIRTY)

  function Bit(b: bool, mask: bv64): bv64 {
    if b then mask else 0
  }

  // The flag bits of a present entry.
  function Pack(f: Flags, ps: bool): bv64 {
    PRESENT | Bit(f.write, WRITE) | Bit(f.user, USER) | Bit(f.pwt, PWT) | Bit(f.pcd, PCD) | Bit(ps, PAGESIZE)
      | Bit(f.nx, NX)
  }

  function Address(e: bv64): bv64 {
    e & !(NX | LOW)
  }

  function Checked(e: bv64): bv64 {
    e & CHECK
  }

  predicate Has(e: bv64, mask: bv64) {
    e & mask != 0
  }

  // What the processor records in an entry as it uses it.
  predicate UsageBits(used: bv64) {
    used & !(ACCESSED | DIRTY) == 0
  }

  predicate Aligned(phys: bv64) {
    phys & (NX | LOW) == 0
  }

  function Word(phys: bv64, flags: bv64, used: bv64): bv64 {
    phys | flags | used
  }

  /** An address and flags can be told apart again, whatever the processor has recorded
      in the accessed and dirty bits. */
  lemma UnpackAddress(phys: bv64, f: Flags, ps: bool, used: bv64)
    requires Aligned(phys) && UsageBits(used)
    ensures Address(Word(phys, Pack(f, ps), used)) == phys
    ensures Has(Word(phys, Pack(f, ps), used), PRESENT)
    ensures Has(Word(phys, Pack(f, ps), used), PAGESIZE) <==> ps
  {
    hide *;
    FlagBits(f, ps);
    BitParts(phys, Pack(f, ps), used);
  }

  /** Each flag of an entry is exactly the bit of its word that the processor looks at: 1 for
      writing, 2 for users, 3 and 4 for caching, 7 for a large page and 63 against execution. */
  lemma FlagsAtBits(phys: bv64, f: Flags, ps: bool, used: bv64)
    requires phys & 0x8000_0000_0000_0FFF == 0 && used & !0x60 == 0
    ensures var word := Word(phys, Pack(f, ps), used);
      && word & 0x1 == 0x1 && (word & 0x2 == 0x2 <==> f.write) && (word & 0x4 == 0x4 <==> f.user)
      && (word & 0x8 == 0x8 <==> f.pwt) && (word & 0x10 == 0x10 <==> f.pcd)
      && (word & 0x80 == 0x80 <==> ps) && word & 0xF00 == 0
      && (word & 0x8000_0000_0000_0000 != 0 <==> f.nx)
  {
    PackAtBits(f, ps);
    hide *;
    WordAtBits(phys, Pack(f, ps), used);
  }

  lemma PackAtBits(f: Flags, ps: bool)
    ensures var word := Pack(f, ps);
      && word & 0x1 == 0x1 && (word & 0x2 == 0x2 <==> f.write) && (word & 0x4 == 0x4 <==> f.user)
      && (word & 0x8 == 0x8 <==> f.pwt) && (word & 0x10 == 0x10 <==> f.pcd)
      && (word & 0x80 == 0x80 <==> ps) && word & 0xF00 == 0
      && (word & 0x8000_0000_0000_0000 != 0 <==> f.nx)
  {
  }

  lemma WordAtBits(phys: bv64, flags: bv64, used: bv64)
    requires phys & 0x8000_0000_0000_0FFF == 0 && used & !0x60 == 0
    ensures Word(phys, flags, used) & 0x8000_0000_0000_0F9F == flags & 0x8000_0000_0000_0F9F
  {
  }

  lemma FlagBits(f: Flags, ps: bool)
    ensures Address(Pack(f, ps)) == 0 && Has(Pack(f, ps), PRESENT)
    ensures Has(Pack(f, ps), PAGESIZE) <==> ps
  {
  }

  lemma BitParts(phys: bv64, flags: bv64, used: bv64)
    requires Aligned(phys) && Address(flags) == 0 && UsageBits(used)
    ensures Address(Word(phys, flags, used)) == phys
    ensures Has(Word(phys, flags, used), PRESENT) == Has(flags, PRESENT)
    ensures Has(Word(phys, flags, used), PAGESIZE) == Has(flags, PAGESIZE)
    ensures Checked(Word(phys, flags, used)) == Checked(flags)
  {
    MaskParts(phys, flags, used);
  }

  lemma MaskParts(phys: bv64, flags: bv64, used: bv64)
    requires phys & (NX | LOW) == 0 && flags & !(NX | LOW) == 0 && used & !(ACCESSED | DIRTY) == 0
    ensures (phys | flags | used) & !(NX | LOW) == phys
    ensures (phys | flags | used) & PRESENT == flags & PRESENT
    ensures (phys | flags | used) & PAGESIZE == flags & PAGESIZE
    ensures (phys | flags | used) & CHECK == flags & CHECK
  {
  }

  /** The masked comparison lets an entry pass as a table exactly when it has the flags
      asked for and is not a large page. */
  lemma CompatibleExactly(phys: bv64, f: Flags, ps: bool, used: bv64, wanted: Flags)
    requires Aligned(phys) && UsageBits(used)
    ensures Checked(Word(phys, Pack(f, ps), used)) == Checked(Pack(wanted, false)) <==> f == wanted && !ps
  {
    hide *;
    FlagBits(f, ps);
    BitParts(phys, Pack(f, ps), used);
    PackInjective(f, ps, wanted);
  }

  lemma PackInjective(f: Flags, ps: bool, g: Flags)
    ensures Checked(Pack(f, ps)) == Checked(Pack(g, false)) <==> f == g && !ps
  {
    hide *;
    SameBits(Pack(f, ps), Pack(g, false));
    BitsOf(f, ps);
    BitsOf(g, false);
  }

  lemma SameBits(a: bv64, b: bv64)
    ensures Checked(a) == Checked(b) ==>
      && Has(a, WRITE) == Has(b, WRITE) && Has(a, USER) == Has(b, USER) && Has(a, PWT) == Has(b, PWT)
      && Has(a, PCD) == Has(b, PCD) && Has(a, PAGESIZE) == Has(b, PAGESIZE) && Has(a, NX) == Has(b, NX)
  {
    OneFlag(a, b);
  }

  lemma OneFlag(a: bv64, b: bv64)
    ensures a & CHECK == b & CHECK ==>
      a & WRITE == b & WRITE && a & USER == b & USER && a & PWT == b & PWT && a & PCD == b & PCD
      && a & PAGESIZE == b & PAGESIZE && a & NX == b & NX
  {
  }

  lemma BitsOf(f: Flags, ps: bool)
    ensures var a := Pack(f, ps);
      && (Has(a, WRITE) == f.write) && (Has(a, USER) == f.user) && (Has(a, PWT) == f.pwt)
      && (Has(a, PCD) == f.pcd) && (Has(a, PAGESIZE) == ps) && (Has(a, NX) == f.nx)
  {
  }

  /** Joining the page's address and the offset by OR is adding them, for each page size. */
  lemma JoinIsSum(phys: bv64, flags: bv64, virt: bv64, mask: bv64)
    requires mask == 0xFFF || mask == 0x1F_FFFF || mask == 0x3FFF_FFFF
    requires phys & (NX | mask) == 0 && flags & !(NX | LOW) == 0
    ensures ((phys | flags) & !(NX | mask)) | (virt & mask) == phys + (virt & mask)
  {
    assert (phys | flags) & !(NX | mask) == phys;
    OrIsPlus(phys, virt & mask);
  }

  lemma OrIsPlus(a: bv64, b: bv64)
    requires a & b == 0
    ensures a | b == a + b
  {
  }
}
