/** The 2 MB page of the allocator and of the page tables. */
module Pages {
  const PAGE_SHIFT: nat := 21
  const PAGE_SIZE: nat := 0x20_0000
}
