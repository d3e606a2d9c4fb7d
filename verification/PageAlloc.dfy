/** struct kt_page_allocator of src/kt_alloc.c: the pages and the mask updated in place. Each
    method is proved against the function of PageSpec it performs. */
module PageAlloc {
  import opened PageSpec
  import opened PageTheorems
  import opened Wrappers

  class Allocator {
    const pageSize: nat
    const pages: array<Page>
    const mask: array<bool>
    var pageFree: nat

    ghost function State(): (a: Alloc)
      reads this, pages, mask
    {
      Alloc(pageSize, pages[..], mask[..], pageFree)
    }

    /** The page-list part of kt_page_allocator_init. */
    constructor (pageSize: nat, pageCount: nat)
      requires pageSize > 0 && pageCount > 0
      ensures fresh(pages) && fresh(mask)
      ensures Valid(State())
      ensures this.pageSize == pageSize && pages.Length == pageCount && pageFree == pageCount
      ensures forall k :: 0 <= k < pageCount ==> mask[k]
    {
      this.pageSize := pageSize;
      pageFree := pageCount;
      pages := new Page[pageCount](i => Page(0, true, 0, 0));
      mask := new bool[pageCount](i => false);
      new;
      for i := 0 to pageCount
        invariant pageFree == pageCount
        invariant forall k :: 0 <= k < i ==> pages[k] == Page(k + 1, true, k * pageSize, 0) && mask[k]
      {
        pages[i] := Page(i + 1, true, i * pageSize, 0);
        mask[i] := true;
      }
      pages[pageCount - 1] := pages[pageCount - 1].(next := 0);
      AllFree(pages[..], mask[..]);
    }

    /** page_alloc_search_first_free_page_from. */
    method FirstFreeFrom(start: nat) returns (r: Option<nat>)
      ensures r == FitFrom(mask[..], 1, start)
    {
      RunOfOne(mask[..]);
      if start >= mask.Length {
        return None;
      }
      for i := start to mask.Length
        invariant forall k :: start <= k < i ==> !mask[k]
      {
        if mask[i] {
          return Some(i);
        }
      }
      r := None;
    }

    /** page_alloc_find_aligned_pages, wherever it ends (SearchEndsIff): the inner loop jumps to the
        page that blocks the run. */
    method FindAlignedPages(needed: nat) returns (r: Option<nat>)
      requires needed >= 1 || forall k :: 0 <= k < mask.Length ==> !mask[k]
      ensures r == if needed >= 1 then FitFrom(mask[..], needed, 0) else None
    {
      var index := 0;
      while true
        invariant index <= mask.Length
        invariant needed >= 1 ==> forall j :: 0 <= j < index ==> !FreeRun(mask[..], j, needed)
        decreases mask.Length - index
      {
        var first := FirstFreeFrom(index);
        if first.None? {
          if needed >= 1 { RunStartsFree(mask[..], index, mask.Length, needed); }
          return None;
        }
        var i := first.value;
        assert FreeRun(mask[..], i, 1) && mask[i];
        RunStartsFree(mask[..], index, i, needed);
        if needed == 1 {
          return Some(i);
        }
        var found := 1;
        while found < needed
          invariant 1 <= found < needed && i + found <= mask.Length
          invariant forall k :: i <= k < i + found ==> mask[k]
        {
          var k := i + found;
          if k < mask.Length && mask[k] {
            if found + 1 == needed {
              assert FreeRun(mask[..], i, needed);
              return Some(i);
            }
            found := found + 1;
          } else {
            break;
          }
        }
        BlockedUpTo(mask[..], i, i + found, needed);
        index := i + found;
      }
    }

    /** page_alloc_alloc, wherever it ends. */
    method AllocBytes(size: nat) returns (ptr: Option<nat>)
      requires Valid(State()) && (size > 0 || pageFree == 0)
      modifies `pageFree, pages, mask
      ensures (State(), ptr) == if size > 0 then Allocate(old(State()), size) else (old(State()), None)
      ensures Valid(State())
      ensures ptr.Some? ==> Spans(State(), ptr.value, size)
    {
      if size > 0 {
        AllocateKeeps(State(), size);
      } else {
        NoneFree(mask[..]);
        NoPagesNeeded(pageSize);
      }
      var needed := PagesNeeded(size, pageSize);
      ptr := AllocPages(needed);
    }

    method AllocPages(needed: nat) returns (ptr: Option<nat>)
      requires Linked(pageSize, pages[..]) && pages.Length == mask.Length
      requires needed >= 1 || forall k :: 0 <= k < mask.Length ==> !mask[k]
      modifies `pageFree, pages, mask
      ensures (State(), ptr) == if needed >= 1 then TakePages(old(State()), needed) else (old(State()), None)
    {
      if pageFree < needed {
        return None;
      }
      var fit := FindAlignedPages(needed);
      if fit.None? {
        return None;
      }
      TakeRun(fit.value, needed);
      ptr := Some(pages[fit.value].offset);
    }

    method TakeRun(page: nat, needed: nat)
      requires Linked(pageSize, pages[..]) && pages.Length == mask.Length
      requires 1 <= needed <= pageFree && page + needed <= pages.Length
      modifies `pageFree, pages, mask
      ensures State() == Reserve(old(State()), page, needed)
    {
      pages[page] := pages[page].(reserved := needed);
      MarkRun(page, needed, false);
      MaskRun(page, needed, false);
      pageFree := pageFree - needed;
      assert pages[..] == Reserve(old(State()), page, needed).pages;
    }

    /** page_alloc_free: `ptr` is relative to the data area, and lies inside it. */
    method FreePtr(ptr: nat)
      requires Valid(State()) && ptr / pageSize < pages.Length
      modifies `pageFree, pages, mask
      ensures RestoredBy(old(State()), ptr / pageSize, State())
      ensures Valid(State()) <==> Freeable(old(State()), ptr / pageSize)
    {
      var index := ptr / pageSize;
      BlockFits(State(), index);
      ReleaseKeepsIff(State(), index);
      GiveBack(index);
    }

    method GiveBack(index: nat)
      requires Linked(pageSize, pages[..]) && pages.Length == mask.Length
      requires index < pages.Length && index + pages[index].reserved <= pages.Length
      modifies `pageFree, pages, mask
      ensures State() == Release(old(State()), index)
    {
      if pages[index].free {
        return;
      }
      var n := pages[index].reserved;
      pages[index] := pages[index].(free := true);
      MarkRun(index, n, true);
      pageFree := pageFree + n;
      MaskRun(index, n, true);
      pages[index] := pages[index].(reserved := 0);
      assert pages[..] == Release(old(State()), index).pages;
    }

    /** Follows `next` for `n` pages from page `i`, setting their flag: the same pages as counting
        indices. */
    method MarkRun(i: nat, n: nat, free: bool)
      requires i + n <= pages.Length && i < pages.Length
      requires forall k :: 0 <= k < pages.Length ==> pages[k].next == if k + 1 == pages.Length then 0 else k + 1
      modifies pages
      ensures pages[..] == Marked(old(pages[..]), i, n, free)
    {
      var tmp := i;
      for j := 0 to n
        invariant tmp == if i + j == pages.Length then 0 else i + j
        invariant forall k :: 0 <= k < pages.Length ==>
                    pages[k] == if i <= k < i + j then old(pages[k]).(free := free) else old(pages[k])
      {
        pages[tmp] := pages[tmp].(free := free);
        tmp := pages[tmp].next;
      }
    }

    method MaskRun(i: nat, n: nat, free: bool)
      requires i + n <= mask.Length
      modifies mask
      ensures mask[..] == Masked(old(mask[..]), i, n, free)
    {
      for j := i to i + n
        invariant forall k :: 0 <= k < mask.Length ==> mask[k] == if i <= k < j then free else old(mask[k])
      {
        mask[j] := free;
      }
    }
  }

  // ---------------------------------------------------------------- why the jumps are safe

  /** Page `k`, missing or used, lies in every run that starts between `i` and `k`. */
  lemma BlockedUpTo(mask: seq<bool>, i: nat, k: nat, needed: nat)
    requires i < k < i + needed && (k >= |mask| || !mask[k])
    ensures forall j :: i <= j <= k ==> !FreeRun(mask, j, needed)
  {
  }

  lemma {:induction false} AllFree(p: seq<Page>, m: seq<bool>)
    requires |p| == |m|
    requires forall k :: 0 <= k < |p| ==> p[k].free && p[k].reserved == 0 && m[k]
    ensures CountTrue(m) == |m| && SumReserved(p) == 0 && Blocks(p)
    decreases |p|
  {
    if p != [] { AllFree(p[..|p| - 1], m[..|m| - 1]); }
  }
}
