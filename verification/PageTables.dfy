/**
  The three-level page tables of src/memory.c with 2 MB blocks.  Physical memory is seen through its
  kernel addresses: `Memory` maps the address of each allocated 2 MB page to its 64-bit words, and
  a page table is the first 512 words of such a page.
 */
module PageTables {
  import opened Pages
  import opened Bits

  const TWO_64: nat := 0x1_0000_0000_0000_0000
  const KERNEL_BASE: nat := 0xffff_0000_0000_0000
  const WORDS: nat := PAGE_SIZE / 8
  const ENTRIES: nat := 512

  const ENTRY_V: nat := 1
  const TABLE_ENTRY: nat := 2
  const BLOCK_ENTRY: nat := 0

  type Page = p: seq<nat> | |p| == WORDS witness seq(WORDS, _ => 0)
  type Memory = map<nat, Page>

  // ------------------------------------------------------- the address macros

  function P2V(p: nat): nat { (p + KERNEL_BASE) % TWO_64 }

  function V2P(v: nat): nat { (v + TWO_64 - KERNEL_BASE) % TWO_64 }

  function PdeAddr(e: nat): nat { And(e, 0xffff_ffff_f000) }

  function PteAddr(e: nat): nat { And(e, 0xffff_ffe0_0000) }

  predicate IsValid(e: nat) { And(e, ENTRY_V) != 0 }

  /** The index into the table of a level: bits 39, 30 and 21 upwards, nine bits each. */
  function Index(v: nat, level: nat): (i: nat)
    requires level <= 2
    ensures i < ENTRIES
  {
    NineBits(v / Pow2(39 - 9 * level));
    And(v / Pow2(39 - 9 * level), 0x1ff)
  }

  function TableEntry(addr: nat, attribute: nat): nat {
    Or(Or(V2P(addr), attribute), TABLE_ENTRY)
  }

  function BlockEntry(pa: nat, attribute: nat): nat {
    Or(Or(pa, attribute), BLOCK_ENTRY)
  }

  /** The address a valid entry leads to. */
  function ChildAddr(e: nat): nat { P2V(PdeAddr(e)) }

  // Descriptor types of section D8.3 of Arm DDI 0487, in the two low bits.
  predicate TableDescriptor(e: nat) { e % 4 == 3 }
  predicate BlockDescriptor(e: nat) { e % 4 == 1 }

  /** Attribute bits a caller of map_page passes: a valid block entry, nothing above bit 11. */
  predicate Attribute(a: nat) { a < 0x1000 && a % 4 == 1 }

  predicate KernelPage(addr: nat) {
    KERNEL_BASE <= addr < KERNEL_BASE + 0x1_0000_0000_0000 && addr % PAGE_SIZE == 0
  }

  lemma Powers()
    ensures Pow2(9) == 512 && Pow2(12) == 0x1000 && Pow2(21) == PAGE_SIZE
    ensures Pow2(27) == 0x800_0000 && Pow2(36) == 0x10_0000_0000
  {
    assert Pow2(3) == 8;
    Pow2Add(3, 3);
    Pow2Add(6, 3);
    Pow2Add(9, 3);
    Pow2Add(12, 9);
    Pow2Add(18, 18);
    Pow2Add(9, 9);
    Pow2Add(18, 9);
    Pow2Add(27, 9);
  }

  lemma ValidIsOdd(e: nat)
    ensures IsValid(e) <==> e % 2 == 1
  {
    AndLow(e, 1);
  }

  lemma DescriptorIsValid(e: nat)
    ensures BlockDescriptor(e) || TableDescriptor(e) ==> IsValid(e)
  {
    ValidIsOdd(e);
    DivModUnique(e, 2, e / 4 * 2 + e % 4 / 2, e % 4 % 2);
  }

  lemma IndexValue(v: nat, level: nat)
    requires level <= 2
    ensures Index(v, level) == v / Pow2(39 - 9 * level) % 512
  {
    NineBits(v / Pow2(39 - 9 * level));
  }

  lemma NineBits(x: nat)
    ensures And(x, 0x1ff) == x % 512 < 512
  {
    Powers();
    AndLow(x, 9);
  }

  lemma PdeField(e: nat)
    ensures PdeAddr(e) == e / 0x1000 % 0x10_0000_0000 * 0x1000
  {
    Powers();
    AndField(e, 36, 12);
  }

  lemma PteField(e: nat)
    ensures PteAddr(e) == e / PAGE_SIZE % 0x800_0000 * PAGE_SIZE
  {
    Powers();
    AndField(e, 27, 21);
  }

  /** An address with 12 zero low bits and the or of two attribute words below it. */
  lemma EntryValue(x: nat, attribute: nat, kind: nat)
    requires x % 0x1000 == 0 && attribute < 0x1000 && kind < 0x1000
    ensures Or(Or(x, attribute), kind) == x + Or(attribute, kind) && Or(attribute, kind) < 0x1000
  {
    Powers();
    var a := x / 0x1000;
    OrDisjoint(a, 12, attribute);
    OrLow(a, 12, attribute, kind);
  }

  lemma OneModFour(a: nat)
    requires a % 4 == 1
    ensures a % 2 == 1 && a / 2 == a / 4 * 2 && a / 2 % 2 == 0
  {
    DivModUnique(a, 2, a / 4 * 2, 1);
  }

  lemma AttributeBits(a: nat)
    requires Attribute(a)
    ensures Or(a, TABLE_ENTRY) % 4 == 3 && Or(a, BLOCK_ENTRY) == a && Or(a, TABLE_ENTRY) == a + 2
  {
    OrZero(a);
    OneModFour(a);
    OrStep(a, 2);
    OrStep(a / 2, 1);
    var x := Or(a / 2 / 2, 0);
    assert Or(a / 2, 1) == 1 + 2 * x;
    DivModUnique(Or(a, 2), 4, x, 3);
  }

  lemma KernelAddress(addr: nat)
    requires KERNEL_BASE <= addr < KERNEL_BASE + 0x1_0000_0000_0000
    ensures V2P(addr) == addr - KERNEL_BASE && P2V(addr - KERNEL_BASE) == addr
  {
  }

  /** What the masks extract from an address plus attribute bits. */
  lemma TableFields(x: nat, low: nat)
    requires x % 0x1000 == 0 && x < 0x1_0000_0000_0000 && low < 0x1000
    ensures PdeAddr(x + low) == x && (IsValid(x + low) <==> low % 2 == 1) && (x + low) % 4 == low % 4
  {
    PdeOfSum(x, low);
    LowBits(x, low);
  }

  lemma PdeOfSum(x: nat, low: nat)
    requires x % 0x1000 == 0 && x < 0x1_0000_0000_0000 && low < 0x1000
    ensures PdeAddr(x + low) == x
  {
    PdeField(x + low);
    FieldOfSum(x, low);
  }

  lemma LowBits(x: nat, low: nat)
    requires x % 0x1000 == 0
    ensures (IsValid(x + low) <==> low % 2 == 1) && (x + low) % 4 == low % 4
  {
    ValidIsOdd(x + low);
    LowRemainders(x, low);
  }

  lemma LowRemainders(x: nat, low: nat)
    requires x % 0x1000 == 0
    ensures (x + low) % 2 == low % 2 && (x + low) % 4 == low % 4
  {
    var k := x / 0x1000;
    DivModUnique(x + low, 2, 0x800 * k + low / 2, low % 2);
    DivModUnique(x + low, 4, 0x400 * k + low / 4, low % 4);
  }

  /** The mask round trip of a table entry: it is a valid table descriptor that leads back to the
      table it was made from. */
  lemma TableRoundTrip(addr: nat, attribute: nat)
    requires KernelPage(addr) && Attribute(attribute)
    ensures var e := TableEntry(addr, attribute);
            && IsValid(e) && TableDescriptor(e) && ChildAddr(e) == addr
            && e == addr - 0xffff_0000_0000_0000 + attribute + 2
  {
    KernelAddress(addr);
    var x := addr - KERNEL_BASE;
    KernelOffset(addr);
    EntryValue(x, attribute, TABLE_ENTRY);
    AttributeBits(attribute);
    TableFields(x, Or(attribute, TABLE_ENTRY));
  }

  lemma KernelOffset(addr: nat)
    requires KernelPage(addr)
    ensures (addr - KERNEL_BASE) % 0x1000 == 0 && (addr - KERNEL_BASE) % PAGE_SIZE == 0
  {
    DivModUnique(addr - KERNEL_BASE, PAGE_SIZE, addr / PAGE_SIZE - KERNEL_BASE / PAGE_SIZE, 0);
    AlignedDown(addr - KERNEL_BASE);
  }

  lemma FieldOfSum(x: nat, low: nat)
    requires x % 0x1000 == 0 && x < 0x1_0000_0000_0000 && low < 0x1000
    ensures (x + low) / 0x1000 % 0x10_0000_0000 * 0x1000 == x
  {
    DivModUnique(x + low, 0x1000, x / 0x1000, low);
  }

  /** The mask round trip of a block entry, through both address masks. */
  lemma BlockRoundTrip(pa: nat, attribute: nat)
    requires pa % PAGE_SIZE == 0 && pa < 0x1_0000_0000_0000 && Attribute(attribute)
    ensures var e := BlockEntry(pa, attribute);
            IsValid(e) && BlockDescriptor(e) && PteAddr(e) == pa && PdeAddr(e) == pa && e == pa + attribute
  {
    AlignedDown(pa);
    EntryValue(pa, attribute, BLOCK_ENTRY);
    AttributeBits(attribute);
    TableFields(pa, attribute);
    BlockField(pa, attribute);
  }

  lemma BlockField(pa: nat, low: nat)
    requires pa % PAGE_SIZE == 0 && pa < 0x1_0000_0000_0000 && low < 0x1000
    ensures PteAddr(pa + low) == pa
  {
    PteField(pa + low);
    BlockFieldOfSum(pa, low);
  }

  lemma AlignedDown(pa: nat)
    requires pa % PAGE_SIZE == 0
    ensures pa % 0x1000 == 0 && pa % 4 == 0
  {
    var k := pa / PAGE_SIZE;
    DivModUnique(pa, 0x1000, 512 * k, 0);
    DivModUnique(pa, 4, 0x80000 * k, 0);
  }

  lemma BlockFieldOfSum(pa: nat, low: nat)
    requires pa % PAGE_SIZE == 0 && pa < 0x1_0000_0000_0000 && low < 0x1000
    ensures (pa + low) / PAGE_SIZE % 0x800_0000 * PAGE_SIZE == pa
  {
    DivModUnique(pa + low, PAGE_SIZE, pa / PAGE_SIZE, low);
  }
}
