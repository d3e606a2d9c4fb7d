/** The page allocator of src/kt_alloc.c on values: the redundant state it keeps (circular page
    list, free mask, free counter, reserved run lengths) and what each operation does to it. */
module PageSpec {
  import opened Wrappers

  /** struct kt_page; `next` is the index of the page the pointer leads to. */
  datatype Page = Page(next: nat, free: bool, offset: nat, reserved: nat)

  datatype Alloc = Alloc(pageSize: nat, pages: seq<Page>, mask: seq<bool>, pageFree: nat) {
    function Count(): nat { |pages| }
  }

  // ---------------------------------------------------------------- first fit

  /** Pages i, ..., i + n - 1 exist and are all free. */
  predicate FreeRun(mask: seq<bool>, i: nat, n: nat) {
    i + n <= |mask| && forall k :: i <= k < i + n ==> mask[k]
  }

  /** The lowest start, from `i` on, of a free run of `n` pages. */
  function FitFrom(mask: seq<bool>, n: nat, i: nat): (r: Option<nat>)
    ensures r.Some? ==> i <= r.value && FreeRun(mask, r.value, n)
    ensures r.Some? ==> forall j :: i <= j < r.value ==> !FreeRun(mask, j, n)
    ensures r.None? ==> forall j :: i <= j ==> !FreeRun(mask, j, n)
    decreases |mask| - i
  {
    if i + n > |mask| then None
    else if FreeRun(mask, i, n) then Some(i)
    else if i == |mask| then None
    else FitFrom(mask, n, i + 1)
  }

  // ---------------------------------------------------------------- the operations

  function PagesNeeded(size: nat, pageSize: nat): nat
    requires pageSize > 0
  {
    size / pageSize + if size % pageSize != 0 then 1 else 0
  }

  function Marked(pages: seq<Page>, i: nat, n: nat, free: bool): (r: seq<Page>)
    requires i + n <= |pages|
    ensures |r| == |pages|
  {
    seq(|pages|, k requires 0 <= k < |pages| => if i <= k < i + n then pages[k].(free := free) else pages[k])
  }

  function Masked(mask: seq<bool>, i: nat, n: nat, free: bool): (r: seq<bool>)
    requires i + n <= |mask|
    ensures |r| == |mask|
  {
    seq(|mask|, k requires 0 <= k < |mask| => if i <= k < i + n then free else mask[k])
  }

  function Reserve(a: Alloc, i: nat, n: nat): (r: Alloc)
    requires 1 <= n && i + n <= |a.pages| == |a.mask| && n <= a.pageFree
  {
    var pages := Marked(a.pages, i, n, false);
    a.(pages := pages[i := pages[i].(reserved := n)], mask := Masked(a.mask, i, n, false), pageFree := a.pageFree - n)
  }

  /** page_alloc_free on the page with index `i`. */
  function Release(a: Alloc, i: nat): (r: Alloc)
    requires i < |a.pages| == |a.mask| && i + a.pages[i].reserved <= |a.pages|
  {
    if a.pages[i].free then a
    else
      var n := a.pages[i].reserved;
      var pages := Marked(a.pages, i, n, true);
      a.(pages := pages[i := pages[i].(free := true, reserved := 0)],
         mask := Masked(a.mask, i, n, true),
         pageFree := a.pageFree + n)
  }

  /** The new state and the offset of the block of `n` pages, if there is one. */
  function TakePages(a: Alloc, n: nat): (r: (Alloc, Option<nat>))
    requires n >= 1 && |a.pages| == |a.mask|
  {
    var fit := FitFrom(a.mask, n, 0);
    if a.pageFree < n || fit.None? then (a, None)
    else (Reserve(a, fit.value, n), Some(a.pages[fit.value].offset))
  }

  /** page_alloc_alloc. */
  function Allocate(a: Alloc, size: nat): (r: (Alloc, Option<nat>))
    requires a.pageSize > 0 && size > 0 && |a.pages| == |a.mask|
  {
    var n := PagesNeeded(size, a.pageSize);
    assert n >= 1 by { assert size / a.pageSize > 0 || size % a.pageSize != 0; }
    TakePages(a, n)
  }

  // ---------------------------------------------------------------- the invariant

  function CountTrue(m: seq<bool>): (c: nat)
    ensures c <= |m|
  {
    if m == [] then 0 else CountTrue(m[..|m| - 1]) + if m[|m| - 1] then 1 else 0
  }

  function SumReserved(p: seq<Page>): nat {
    if p == [] then 0 else SumReserved(p[..|p| - 1]) + p[|p| - 1].reserved
  }

  /** Page `k` lies in the block that starts at page `i`. */
  predicate InBlock(p: seq<Page>, i: int, k: int) {
    0 <= i < |p| && i <= k < i + p[i].reserved
  }

  ghost predicate Used(p: seq<Page>, k: int) {
    exists i :: InBlock(p, i, k)
  }

  /** The list is circular, in index order, and each page knows its place. */
  ghost predicate Linked(pageSize: nat, p: seq<Page>) {
    forall k :: 0 <= k < |p| ==> p[k].next == (if k + 1 == |p| then 0 else k + 1) && p[k].offset == k * pageSize
  }

  ghost predicate Agree(p: seq<Page>, mask: seq<bool>) {
    |p| == |mask| && forall k :: 0 <= k < |p| ==> p[k].free == mask[k]
  }

  /** Live blocks are runs of used pages, disjoint, and cover every used page. */
  ghost predicate Blocks(p: seq<Page>) {
    && (forall i, k :: InBlock(p, i, k) ==> k < |p| && !p[k].free)
    && (forall i, j, k :: InBlock(p, i, k) && InBlock(p, j, k) ==> i == j)
    && (forall k :: 0 <= k < |p| && !p[k].free ==> Used(p, k))
  }

  ghost predicate Valid(a: Alloc) {
    && a.pageSize > 0 && |a.pages| > 0
    && Linked(a.pageSize, a.pages)
    && Agree(a.pages, a.mask)
    && a.pageFree == CountTrue(a.mask)
    && a.pageFree + SumReserved(a.pages) == |a.pages|
    && Blocks(a.pages)
  }

  // ---------------------------------------------------------------- counting

  lemma {:induction false} CountRange(m: seq<bool>, r: seq<bool>, i: nat, n: nat, v: bool)
    requires i + n <= |m| == |r|
    requires forall k :: 0 <= k < |m| ==> if i <= k < i + n then m[k] == !v && r[k] == v else r[k] == m[k]
    ensures CountTrue(r) == if v then CountTrue(m) + n else CountTrue(m) - n
    decreases |m|
  {
    if m != [] {
      var l := |m| - 1;
      if n == 0 || i + n <= l {
        CountRange(m[..l], r[..l], if n == 0 then 0 else i, n, v);
      } else {
        CountRange(m[..l], r[..l], i, n - 1, v);
      }
    }
  }

  lemma CountMasked(m: seq<bool>, i: nat, n: nat, v: bool)
    requires i + n <= |m|
    requires forall k :: i <= k < i + n ==> m[k] == !v
    ensures CountTrue(Masked(m, i, n, v)) == if v then CountTrue(m) + n else CountTrue(m) - n
  {
    CountRange(m, Masked(m, i, n, v), i, n, v);
  }

  lemma {:induction false} SumUpdate(p: seq<Page>, q: seq<Page>, i: nat)
    requires i < |p| == |q|
    requires forall k :: 0 <= k < |p| && k != i ==> q[k].reserved == p[k].reserved
    ensures SumReserved(q) == SumReserved(p) - p[i].reserved + q[i].reserved
    decreases |p|
  {
    var l := |p| - 1;
    if i == l {
      SumSame(p[..l], q[..l]);
    } else {
      SumUpdate(p[..l], q[..l], i);
    }
  }

  lemma {:induction false} SumSame(p: seq<Page>, q: seq<Page>)
    requires |p| == |q|
    requires forall k :: 0 <= k < |p| ==> q[k].reserved == p[k].reserved
    ensures SumReserved(q) == SumReserved(p)
    decreases |p|
  {
    if p != [] { SumSame(p[..|p| - 1], q[..|p| - 1]); }
  }

  /** A free page has no reservation. */
  lemma FreeUnreserved(p: seq<Page>, k: nat)
    requires Blocks(p) && k < |p| && p[k].free
    ensures p[k].reserved == 0
  {
    if p[k].reserved > 0 { assert InBlock(p, k, k); }
  }

  // ---------------------------------------------------------------- preservation

  lemma ReserveBlocks(p: seq<Page>, i: nat, n: nat, r: seq<Page>)
    requires Blocks(p) && 1 <= n && i + n <= |p| == |r|
    requires forall k :: i <= k < i + n ==> p[k].free
    requires forall k :: 0 <= k < |p| ==> r[k].free == (p[k].free && !(i <= k < i + n))
    requires forall k :: 0 <= k < |p| ==> r[k].reserved == if k == i then n else p[k].reserved
    ensures Blocks(r)
  {
    FreeUnreserved(p, i);
    forall k | 0 <= k < |r| && !r[k].free ensures Used(r, k) {
      if i <= k < i + n {
        assert InBlock(r, i, k);
      } else {
        assert Used(p, k);
        var j :| InBlock(p, j, k);
        assert InBlock(r, j, k);
      }
    }
    forall j, k | InBlock(r, j, k) ensures k < |r| && !r[k].free && (InBlock(p, j, k) || (j == i && i <= k < i + n)) {
      if j != i { assert InBlock(p, j, k); }
    }
  }

  lemma ReleaseBlocks(p: seq<Page>, i: nat, r: seq<Page>)
    requires Blocks(p) && i < |p| == |r| && 1 <= p[i].reserved
    requires forall k :: 0 <= k < |p| ==> r[k].free == (p[k].free || InBlock(p, i, k))
    requires forall k :: 0 <= k < |p| ==> r[k].reserved == if k == i then 0 else p[k].reserved
    ensures Blocks(r)
  {
    forall j, k | InBlock(r, j, k) ensures InBlock(p, j, k) && !InBlock(p, i, k) {
      assert InBlock(p, j, k);
    }
    forall k | 0 <= k < |r| && !r[k].free ensures Used(r, k) {
      assert Used(p, k);
      var j :| InBlock(p, j, k);
      assert InBlock(r, j, k);
    }
  }

  lemma LinksKept(pageSize: nat, p: seq<Page>, r: seq<Page>)
    requires Linked(pageSize, p) && |p| == |r|
    requires forall k :: 0 <= k < |p| ==> r[k].next == p[k].next && r[k].offset == p[k].offset
    ensures Linked(pageSize, r)
  {
  }

  /** Taking a free run keeps every part of the redundant state in agreement. */
  lemma ReserveKeeps(a: Alloc, i: nat, n: nat)
    requires Valid(a) && 1 <= n <= a.pageFree && FreeRun(a.mask, i, n)
    ensures Valid(Reserve(a, i, n))
  {
    var r := Reserve(a, i, n);
    FreeUnreserved(a.pages, i);
    assert Linked(r.pageSize, r.pages) by { LinksKept(a.pageSize, a.pages, r.pages); }
    assert Agree(r.pages, r.mask);
    assert r.pageFree == CountTrue(r.mask) by { CountMasked(a.mask, i, n, false); }
    assert SumReserved(r.pages) == SumReserved(a.pages) + n by { SumUpdate(a.pages, r.pages, i); }
    assert Blocks(r.pages) by { ReserveBlocks(a.pages, i, n, r.pages); }
  }

  /** A page may be handed to page_alloc_free: it is free, or it starts a block. */
  predicate Freeable(a: Alloc, i: nat) {
    i < |a.pages| && (a.pages[i].free || a.pages[i].reserved > 0)
  }

  lemma BlockFits(a: Alloc, i: nat)
    requires Valid(a) && i < |a.pages|
    ensures i + a.pages[i].reserved <= |a.pages|
    ensures forall k :: i <= k < i + a.pages[i].reserved ==> !a.pages[k].free && !a.mask[k]
  {
    var n := a.pages[i].reserved;
    if n > 0 { assert InBlock(a.pages, i, i + n - 1); }
    forall k | i <= k < i + n ensures k < |a.pages| && !a.pages[k].free { assert InBlock(a.pages, i, k); }
  }

  lemma ReleaseKeeps(a: Alloc, i: nat)
    requires Valid(a) && i < |a.pages| && i + a.pages[i].reserved <= |a.pages|
    requires !a.pages[i].free && a.pages[i].reserved > 0
    ensures Valid(Release(a, i))
  {
    BlockFits(a, i);
    var r, n := Release(a, i), a.pages[i].reserved;
    assert Linked(r.pageSize, r.pages) by { LinksKept(a.pageSize, a.pages, r.pages); }
    assert Agree(r.pages, r.mask);
    assert r.pageFree == CountTrue(r.mask) by { CountMasked(a.mask, i, n, true); }
    assert SumReserved(r.pages) == SumReserved(a.pages) - n by { SumUpdate(a.pages, r.pages, i); }
    assert Blocks(r.pages) by { ReleaseBlocks(a.pages, i, r.pages); }
  }

  /** Freeing keeps the state in agreement exactly for free pages and block starts; freeing the
      inside of a block breaks it. */
  lemma ReleaseKeepsIff(a: Alloc, i: nat)
    requires Valid(a) && i < |a.pages| && i + a.pages[i].reserved <= |a.pages|
    ensures Valid(Release(a, i)) <==> Freeable(a, i)
  {
    if !a.pages[i].free {
      if a.pages[i].reserved > 0 {
        ReleaseKeeps(a, i);
      } else {
        var r := Release(a, i);
        assert r.pages[i].free && !r.mask[i];
        assert !Agree(r.pages, r.mask);
      }
    }
  }

  /** Freeing the block just allocated restores the exact state before. */
  lemma ReleaseUndoesReserve(a: Alloc, i: nat, n: nat)
    requires Valid(a) && 1 <= n <= a.pageFree && FreeRun(a.mask, i, n)
    ensures Release(Reserve(a, i, n), i) == a
  {
    var r := Release(Reserve(a, i, n), i);
    FreeUnreserved(a.pages, i);
    assert r.pages == a.pages;
    assert r.mask == a.mask;
  }
}
