/** kt_page_allocator_init of src/kt_alloc.c: the sizing loop in u32 arithmetic and the layout it
    decides on. Struct sizes are those of a 64-bit target. */
module PageInit {
  import opened Bits

  const HEADER: nat := 40   // sizeof(struct kt_page_allocator)
  const ENTRY: nat := 24    // sizeof(struct kt_page)
  const RINGBUF: nat := 128 // sizeof(struct kt_ringbuf)

  datatype Sizing = TooSmall | Sized(pageCount: U32, listSize: U32, maskSize: U32)

  function PageCount(size: U32, pageSize: U32): (r: U32)
    requires pageSize > 0
  {
    size / pageSize
  }

  /** The do-while loop from `count` pages on; every assignment wraps at 2^32. */
  function SizeFrom(size: U32, count: U32): (r: Sizing)
    decreases if count == 0 then W32 else count
  {
    var list := Wrap(count * ENTRY);
    var total := Wrap(HEADER + list + count);
    var rest := Wrap(count - 1);
    if rest == 0 then TooSmall
    else if size < total then SizeFrom(size, rest)
    else Sized(rest, list, count)
  }

  /** The sizing loop: it ends for every input. */
  method SizePages(size: U32, pageSize: U32) returns (r: Sizing)
    requires pageSize > 0
    ensures r == SizeFrom(size, PageCount(size, pageSize))
  {
    r := SizeLoop(size, PageCount(size, pageSize));
  }

  method SizeLoop(size: U32, first: U32) returns (r: Sizing)
    ensures r == SizeFrom(size, first)
  {
    var count: U32 := first;
    while true
      invariant SizeFrom(size, count) == SizeFrom(size, first)
      decreases if count == 0 then W32 else count
    {
      var list := Wrap(count * ENTRY);
      var maskSize := count;
      var total := Wrap(HEADER + list + maskSize);
      count := Wrap(count - 1);
      if count == 0 {
        return TooSmall;
      }
      if !(size < total) {
        return Sized(count, list, maskSize);
      }
    }
  }

  /** How many pages' metadata fit, given at most `count`. */
  function MetadataFit(size: nat, count: nat): nat {
    if size < HEADER then 0
    else var fit := (size - HEADER) / (ENTRY + 1); if fit < count then fit else count
  }

  /** Without overflow, the loop finds the largest page count whose metadata fits, keeps one page
      less, and fails exactly when that leaves none. */
  lemma {:induction false} SizingExact(size: U32, count: U32)
    requires count >= 1 && HEADER + (ENTRY + 1) * count < W32
    ensures var p := MetadataFit(size, count);
            SizeFrom(size, count) == if p >= 2 then Sized(p - 1, ENTRY * p, p) else TooSmall
    decreases count
  {
    assert Wrap(count * ENTRY) == ENTRY * count && Wrap(HEADER + ENTRY * count + count) == HEADER + (ENTRY + 1) * count;
    assert Wrap(count - 1) == count - 1;
    if count > 1 {
      if size < HEADER + (ENTRY + 1) * count {
        SizingExact(size, count - 1);
        assert MetadataFit(size, count) == MetadataFit(size, count - 1);
      } else {
        assert MetadataFit(size, count) == count;
      }
    }
  }

  /** A page size above the memory size makes the count wrap: the allocator is then told it has
      2^32 - 1 pages. */
  lemma OversizedPageWraps(size: U32, pageSize: U32)
    requires HEADER <= size < pageSize
    ensures SizeFrom(size, size / pageSize) == Sized(W32 - 1, 0, 0)
  {
    ModUnique(size, pageSize, 0, size);
    assert Wrap(0 - 1) == W32 - 1;
    assert Wrap(HEADER) == HEADER;
  }

  // ---------------------------------------------------------------- layout

  function AlignUp(x: nat, a: nat): (r: nat)
    requires a > 0
  {
    ((x + a - 1) / a) * a
  }

  lemma AlignUpSpec(x: nat, a: nat)
    requires a > 0
    ensures x <= AlignUp(x, a) < x + a && AlignUp(x, a) % a == 0
  {
    var q, r := (x + a - 1) / a, (x + a - 1) % a;
    assert x + a - 1 == q * a + r;
    ModUnique(q * a, a, q, 0);
  }

  datatype Layout = Layout(list: nat, mask: nat, data: nat)

  /** Where the parts go for memory at address `base`; the list size is multiplied by the entry
      size a second time, as the code does. */
  function LayoutOf(base: nat, pageSize: nat, z: Sizing): (l: Layout)
    requires pageSize > 0 && z.Sized?
  {
    var mask := base + HEADER + z.listSize * ENTRY;
    Layout(base + HEADER, mask, AlignUp(mask + z.maskSize, pageSize))
  }

  /** Header, page list, mask and aligned data area come in this order and do not overlap. */
  lemma LayoutInOrder(base: nat, size: U32, pageSize: U32)
    requires 0 < pageSize <= size && HEADER + (ENTRY + 1) * (size / pageSize) < W32
    ensures var z := SizeFrom(size, size / pageSize);
            z.Sized? ==>
              var l := LayoutOf(base, pageSize, z);
              && base + HEADER <= l.list
              && l.list + z.pageCount * ENTRY <= l.mask
              && l.mask + z.pageCount <= l.data
              && l.data % pageSize == 0
  {
    QuotientPositive(size, pageSize);
    SizingExact(size, size / pageSize);
    var z := SizeFrom(size, size / pageSize);
    if z.Sized? { AlignUpSpec(base + HEADER + z.listSize * ENTRY + z.maskSize, pageSize); }
  }

  /** Where everything goes, without overflow: the list after a header of 40 bytes; the mask after 576
      bytes (24 times 24) per page counted; the data area at the first page boundary after the mask. */
  lemma LayoutExact(base: nat, size: U32, pageSize: U32)
    requires 0 < pageSize <= size && HEADER + (ENTRY + 1) * (size / pageSize) < W32
    ensures var z := SizeFrom(size, size / pageSize);
            z.Sized? ==>
              var l, p := LayoutOf(base, pageSize, z), z.maskSize;
              && p == z.pageCount + 1 && z.listSize == 24 * p
              && l.list == base + 40
              && l.mask == base + 40 + 576 * p
              && l.mask + p <= l.data < l.mask + p + pageSize && l.data % pageSize == 0
  {
    QuotientPositive(size, pageSize);
    SizingExact(size, size / pageSize);
    var z := SizeFrom(size, size / pageSize);
    if z.Sized? { AlignUpSpec(base + HEADER + z.listSize * ENTRY + z.maskSize, pageSize); }
  }

  lemma QuotientPositive(x: nat, y: nat)
    requires 0 < y <= x
    ensures x / y >= 1
  {
    assert x == (x / y) * y + x % y;
  }

  /** Metadata bytes in front of the data area, for `p` mask entries. */
  function Front(p: nat): nat {
    HEADER + ENTRY * ENTRY * p + p
  }

  /** Every page lies inside the memory exactly when header, list and mask fit in a single page:
      the check made by the sizing loop does not ensure it. */
  lemma PagesContainedIff(base: nat, size: U32, pageSize: U32, count: nat)
    requires pageSize > 0 && count >= 1 && size == count * pageSize && base % pageSize == 0
    requires HEADER + (ENTRY + 1) * count < W32
    ensures var z := SizeFrom(size, count);
            z.Sized? ==>
              (LayoutOf(base, pageSize, z).data + z.pageCount * pageSize <= base + size <==> Front(count) <= pageSize)
  {
    SizingExact(size, count);
    var z := SizeFrom(size, count);
    if z.Sized? {
      DataStart(base, pageSize, z);
      FrontDecides(size, pageSize, count, z.maskSize);
    }
  }

  lemma FrontDecides(size: nat, pageSize: nat, count: nat, p: nat)
    requires pageSize > 0 && size == count * pageSize && p == MetadataFit(size, count) && p >= 2
    ensures AlignUp(Front(p), pageSize) + (p - 1) * pageSize <= size <==> Front(count) <= pageSize
  {
    var u := (Front(p) + pageSize - 1) / pageSize;
    assert (u + (p - 1)) * pageSize == u * pageSize + (p - 1) * pageSize;
    MultiplesCompare(u + (p - 1), count, pageSize);
    if p == count {
      FirstPageOnly(Front(p), pageSize);
    } else {
      SmallPagesOverrun(size, p);
      AlignUpSpec(Front(p), pageSize);
      MultiplesCompare(u, count, pageSize);
      MultiplesCompare(1, count, pageSize);
      assert Front(count) > Front(p);
    }
  }

  lemma MultiplesCompare(x: int, y: int, m: nat)
    requires m > 0
    ensures x * m <= y * m <==> x <= y
  {
    NonZeroMultiple(x - y, m);
    assert (x - y) * m == x * m - y * m;
  }

  /** Rounding up stays within one page exactly for what fits in a page. */
  lemma FirstPageOnly(x: nat, pageSize: nat)
    requires pageSize > 0 && x > 0
    ensures (x + pageSize - 1) / pageSize <= 1 <==> x <= pageSize
  {
    var u := (x + pageSize - 1) / pageSize;
    AlignUpSpec(x, pageSize);
    if x <= pageSize {
      ModUnique(x + pageSize - 1, pageSize, 1, x - 1);
    } else {
      MultiplesCompare(u, 1, pageSize);
    }
  }

  /** When the metadata of fewer pages than there are had to be chosen, the doubled list alone
      is larger than the memory. */
  lemma SmallPagesOverrun(size: nat, p: nat)
    requires size >= HEADER && p == (size - HEADER) / (ENTRY + 1) && p >= 2
    ensures Front(p) > size
  {
    assert (ENTRY + 1) * p > size - HEADER - (ENTRY + 1);
  }

  /** Two powers of two: the smaller divides the larger. */
  lemma Pow2Divides(size: nat, pageSize: nat)
    requires IsPow2(size) && IsPow2(pageSize) && pageSize <= size
    ensures pageSize > 0 && size / pageSize >= 1 && size == (size / pageSize) * pageSize
  {
    var j: nat :| pageSize == Pow2(j);
    var k: nat :| size == Pow2(k);
    if k < j {
      Pow2Monotone(k + 1, j);
    } else {
      Pow2Sum(k - j, j);
      ModUnique(size, pageSize, Pow2(k - j), 0);
    }
  }

  // ---------------------------------------------------------------- whatever the sizes

  /** The metadata size the loop compares with, as a u32. */
  function Total(count: U32): U32 {
    Wrap(HEADER + Wrap(count * ENTRY) + count)
  }

  lemma WrapAtMost(x: nat)
    ensures Wrap(x) <= x
  {
    if x < W32 { WrapSmall(x); }
  }

  lemma TotalIs(count: U32)
    ensures Total(count) == Wrap(HEADER + (ENTRY + 1) * count)
  {
    WrapOfWrap(count * ENTRY, HEADER + count);
  }

  lemma TotalNext(count: U32)
    requires count + 1 < W32
    ensures Total(count + 1) <= Total(count) + ENTRY + 1
  {
    TotalIs(count);
    TotalIs(count + 1);
    WrapOfWrap(HEADER + (ENTRY + 1) * count, ENTRY + 1);
    WrapAtMost(Total(count) + ENTRY + 1);
  }

  /** One turn of the loop. */
  lemma SizeStep(size: U32, count: U32)
    requires count >= 1
    ensures SizeFrom(size, count) ==
            if count == 1 then TooSmall
            else if size < Total(count) then SizeFrom(size, count - 1)
            else Sized(count - 1, Wrap(count * ENTRY), count)
  {
    WrapSmall(count - 1);
  }

  lemma {:induction false} SizedHasPages(size: U32, count: U32)
    ensures SizeFrom(size, count).Sized? ==> SizeFrom(size, count).pageCount >= 1
    decreases if count == 0 then W32 else count
  {
    var rest := Wrap(count - 1);
    if rest != 0 && size < Total(count) { SizedHasPages(size, rest); }
  }

  /** A count accepted after the one above was refused leaves no room, even when the u32 sums
      have wrapped. */
  lemma LaterCountOverruns(size: U32, pageSize: nat, count: U32)
    requires pageSize >= 1 && count >= 2 && count + 1 < W32 && Total(count) <= size < Total(count + 1)
    ensures HEADER + ENTRY * Wrap(count * ENTRY) + count + (count - 1) * pageSize > size
  {
    var list := Wrap(count * ENTRY);
    TotalNext(count);
    assert HEADER + list + count >= Total(count);
    assert list <= 1 ==> count * ENTRY >= W32;
    MultiplesCompare(1, pageSize, count - 1);
    assert (count - 1) * pageSize >= count - 1;
  }

  lemma FirstCountOverruns(size: U32, pageSize: nat, count: U32)
    requires 1 <= pageSize < HEADER && count >= 1 && count * pageSize == size
    ensures HEADER + ENTRY * Wrap(count * ENTRY) + count + (count - 1) * pageSize > size
  {
    assert (count - 1) * pageSize == size - pageSize;
  }

  /** With pages smaller than the header the chosen pages always pass the end of the memory. */
  lemma {:induction false} TinyPagesOverrun(size: U32, pageSize: nat, count: U32)
    requires 1 <= pageSize < HEADER && count >= 1
    requires count * pageSize == size || (count + 1 < W32 && size < Total(count + 1))
    ensures var z := SizeFrom(size, count);
            z.Sized? ==> HEADER + ENTRY * z.listSize + z.maskSize + z.pageCount * pageSize > size
    decreases count
  {
    SizeStep(size, count);
    if count > 1 {
      if size < Total(count) {
        TinyPagesOverrun(size, pageSize, count - 1);
      } else if count * pageSize == size {
        FirstCountOverruns(size, pageSize, count);
      } else {
        LaterCountOverruns(size, pageSize, count);
      }
    }
  }

  lemma OverflowNeedsTinyPages(size: U32, pageSize: nat, count: nat)
    requires pageSize >= 1 && size == count * pageSize && HEADER + (ENTRY + 1) * count >= W32
    ensures pageSize < HEADER
  {
    if pageSize >= HEADER { MultiplesCompare(HEADER, pageSize, count); }
  }

  /** Every page lies inside the memory. */
  ghost predicate Contained(base: nat, size: nat, pageSize: nat, z: Sizing)
    requires pageSize > 0 && z.Sized?
  {
    LayoutOf(base, pageSize, z).data + z.pageCount * pageSize <= base + size
  }

  lemma SmallPagesContained(base: nat, size: U32, pageSize: U32, count: nat)
    requires pageSize > 0 && count >= 1 && size == count * pageSize && base % pageSize == 0
    ensures var z := SizeFrom(size, count);
            z.Sized? ==> (Contained(base, size, pageSize, z) <==> Front(count) <= pageSize)
  {
    MultiplesCompare(1, pageSize, count);
    if HEADER + (ENTRY + 1) * count < W32 {
      PagesContainedIff(base, size, pageSize, count);
    } else {
      OverflowNeedsTinyPages(size, pageSize, count);
      TinyPagesOverrun(size, pageSize, count);
      var z := SizeFrom(size, count);
      if z.Sized? { AlignUpSpec(base + HEADER + z.listSize * ENTRY + z.maskSize, pageSize); }
    }
  }

  lemma LargePagesOverrun(base: nat, size: U32, pageSize: U32)
    requires size < pageSize
    ensures var z := SizeFrom(size, PageCount(size, pageSize)); z.Sized? ==> !Contained(base, size, pageSize, z)
  {
    SizedHasPages(size, PageCount(size, pageSize));
    var z := SizeFrom(size, PageCount(size, pageSize));
    if z.Sized? {
      AlignUpSpec(base + HEADER + z.listSize * ENTRY + z.maskSize, pageSize);
      MultiplesCompare(1, z.pageCount, pageSize);
    }
  }

  lemma PassesTest(x: U32)
    requires x > 0 && And(x, Wrap(x - 1)) == 0
    ensures IsPow2(x)
  {
    WrapSmall(x - 1);
    PowerOfTwoTest(x);
  }

  lemma PowersDivide(size: U32, pageSize: U32)
    requires pageSize <= size && IsPow2(size) && IsPow2(pageSize)
    ensures pageSize > 0 && PageCount(size, pageSize) >= 1 && size == PageCount(size, pageSize) * pageSize
  {
    Pow2Divides(size, pageSize);
  }

  /** For every pair of sizes the initial test lets through, overflows included, in page-aligned
      memory: whether all pages lie inside is decided before the call by two comparisons. */
  lemma InitContainedIff(base: nat, size: U32, pageSize: U32)
    requires pageSize > 0 && And(size, Wrap(size - 1)) == 0 && And(pageSize, Wrap(pageSize - 1)) == 0
    requires base % pageSize == 0
    ensures var z := SizeFrom(size, PageCount(size, pageSize));
            z.Sized? ==>
              (Contained(base, size, pageSize, z) <==> pageSize <= size && Front(PageCount(size, pageSize)) <= pageSize)
  {
    if size < pageSize {
      LargePagesOverrun(base, size, pageSize);
    } else {
      PassesTest(size);
      PassesTest(pageSize);
      PowersDivide(size, pageSize);
      SmallPagesContained(base, size, pageSize, PageCount(size, pageSize));
    }
  }

  lemma DataStart(base: nat, pageSize: nat, z: Sizing)
    requires pageSize > 0 && base % pageSize == 0
    requires z.Sized? && z.listSize == ENTRY * z.maskSize
    ensures LayoutOf(base, pageSize, z).data == base + AlignUp(Front(z.maskSize), pageSize)
  {
    var x, q := Front(z.maskSize), base / pageSize;
    assert base == q * pageSize;
    var u, r := (x + pageSize - 1) / pageSize, (x + pageSize - 1) % pageSize;
    assert (q + u) * pageSize == base + u * pageSize;
    ModUnique(base + x + pageSize - 1, pageSize, q + u, r);
    assert base + HEADER + z.listSize * ENTRY + z.maskSize == base + x;
  }

  /** With the sizes the daemon uses, one mebibyte in pages of 4096, the last pages lie outside
      the memory. */
  lemma DaemonMemoryOverruns(base: nat)
    requires base % 4096 == 0
    ensures var z := SizeFrom(0x10_0000, 256);
            && z == Sized(255, 6144, 256)
            && LayoutOf(base, 4096, z) == Layout(base + 40, base + 147496, base + 151552)
            && LayoutOf(base, 4096, z).data + 255 * 4096 > base + 0x10_0000
  {
    SizingExact(0x10_0000, 256);
    DataStart(base, 4096, Sized(255, 6144, 256));
    assert AlignUp(Front(256), 4096) == 151552;
  }

  // ---------------------------------------------------------------- the ring's own storage

  /** kt_ringbuf_create asks for `count` bytes where the ring stores `count` 8-byte entries; the
      rounding to whole pages of 4096 covers the difference exactly up to 496 entries. */
  lemma RingStorageFitsIff(count: nat)
    requires count >= 1
    ensures AlignUp(RINGBUF + count * 1, 4096) >= RINGBUF + count * 8 <==> count <= 496
  {
    AlignUpSpec(RINGBUF + count, 4096);
  }
}
