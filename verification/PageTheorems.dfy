/** What holds of the page allocator over whole histories of calls. */
module PageTheorems {
  import opened Bits
  import opened PageSpec
  import opened Wrappers

  // ---------------------------------------------------------------- one allocation

  lemma PagesNeededPositive(size: nat, pageSize: nat)
    requires size > 0 && pageSize > 0
    ensures PagesNeeded(size, pageSize) >= 1
  {
    if size % pageSize == 0 && size / pageSize == 0 { ModUnique(size, pageSize, 0, 0); }
  }

  /** The pages needed hold the request, with less than a page to spare. */
  lemma PagesNeededExact(size: nat, pageSize: nat)
    requires size > 0 && pageSize > 0
    ensures var n := PagesNeeded(size, pageSize);
            (n - 1) * pageSize < size <= n * pageSize
  {
    var q, r := size / pageSize, size % pageSize;
    assert size == q * pageSize + r;
    assert (q + 1) * pageSize == q * pageSize + pageSize && (q - 1) * pageSize == q * pageSize - pageSize;
  }

  lemma NoPagesNeeded(pageSize: nat)
    requires pageSize > 0
    ensures PagesNeeded(0, pageSize) == 0
  {
    ModUnique(0, pageSize, 0, 0);
  }

  /** A free run is counted by the free counter, so the early check on the counter never turns
      down a request that would fit. */
  lemma RunIsCounted(mask: seq<bool>, i: nat, n: nat)
    requires FreeRun(mask, i, n)
    ensures n <= CountTrue(mask)
  {
    CountMasked(mask, i, n, false);
  }

  lemma NoneFree(mask: seq<bool>)
    ensures CountTrue(mask) == 0 ==> forall k :: 0 <= k < |mask| ==> !mask[k]
  {
    forall k: nat | k < |mask| && mask[k] ensures CountTrue(mask) > 0 { RunIsCounted(mask, k, 1); }
  }

  /** An allocation takes the lowest free run of the length it needs, and fails exactly when
      there is none; then the state is unchanged. */
  lemma AllocateFirstFit(a: Alloc, size: nat)
    requires Valid(a) && size > 0
    ensures var n := PagesNeeded(size, a.pageSize);
            var r := Allocate(a, size);
            && (r.1.None? <==> forall j: nat :: !FreeRun(a.mask, j, n))
            && (r.1.None? ==> r.0 == a)
            && (r.1.Some? ==> exists i: nat :: r.1.value == i * a.pageSize && FreeRun(a.mask, i, n) && n <= a.pageFree
                                && (forall j: nat :: j < i ==> !FreeRun(a.mask, j, n)) && r.0 == Reserve(a, i, n))
  {
    var n := PagesNeeded(size, a.pageSize);
    var fit := FitFrom(a.mask, n, 0);
    PagesNeededPositive(size, a.pageSize);
    if fit.Some? {
      RunIsCounted(a.mask, fit.value, n);
      assert a.pages[fit.value].offset == fit.value * a.pageSize;
    }
  }

  /** A new block overlaps no live one. */
  lemma NewBlockIsFresh(a: Alloc, i: nat, n: nat, k: nat)
    requires Valid(a) && FreeRun(a.mask, i, n) && i <= k < i + n
    ensures !Used(a.pages, k)
  {
    forall j ensures !InBlock(a.pages, j, k) {
      assert a.pages[k].free;
    }
  }

  /** Taking a run makes exactly its pages used, in addition to those that were. */
  lemma ReserveUses(a: Alloc, i: nat, n: nat, k: nat)
    requires Valid(a) && 1 <= n <= a.pageFree && FreeRun(a.mask, i, n) && k < |a.pages|
    ensures Valid(Reserve(a, i, n)) && Reserve(a, i, n).pageSize == a.pageSize
    ensures |Reserve(a, i, n).pages| == |a.pages| && Reserve(a, i, n).pages[i].reserved == n
    ensures Used(Reserve(a, i, n).pages, k) <==> Used(a.pages, k) || i <= k < i + n
  {
    ReserveKeeps(a, i, n);
    UsedIffNotFree(a, k);
    UsedIffNotFree(Reserve(a, i, n), k);
  }

  lemma UsedIffNotFree(a: Alloc, k: nat)
    requires Valid(a) && k < |a.pages|
    ensures Used(a.pages, k) <==> !a.pages[k].free
  {
  }

  /** Freeing a block makes exactly its pages unused. */
  lemma ReleaseFrees(a: Alloc, i: nat, k: nat)
    requires Valid(a) && Freeable(a, i) && i + a.pages[i].reserved <= |a.pages| && k < |a.pages|
    ensures Valid(Release(a, i)) && |Release(a, i).pages| == |a.pages| && Release(a, i).pageSize == a.pageSize
    ensures Used(Release(a, i).pages, k) <==> Used(a.pages, k) && !InBlock(a.pages, i, k)
  {
    ReleaseKeepsIff(a, i);
    UsedIffNotFree(a, k);
    UsedIffNotFree(Release(a, i), k);
    if a.pages[i].free { FreeUnreserved(a.pages, i); }
  }

  /** The block at offset `p` lies inside the pages, spans at least `size` bytes, and would not with a
      page less. */
  ghost predicate Spans(b: Alloc, p: nat, size: nat) {
    exists i: nat :: i < |b.pages| && SpansFrom(b, i, p, size)
  }

  ghost predicate SpansFrom(b: Alloc, i: nat, p: nat, size: nat)
    requires i < |b.pages|
  {
    && p == i * b.pageSize && i + b.pages[i].reserved <= |b.pages|
    && (b.pages[i].reserved - 1) * b.pageSize < size <= b.pages[i].reserved * b.pageSize
  }

  lemma ReservedSpans(a: Alloc, i: nat, n: nat, p: nat, size: nat)
    requires 1 <= n <= a.pageFree && i + n <= |a.pages| == |a.mask| && p == i * a.pageSize
    requires (n - 1) * a.pageSize < size <= n * a.pageSize
    ensures Spans(Reserve(a, i, n), p, size)
  {
    assert SpansFrom(Reserve(a, i, n), i, p, size);
  }

  /** The block an allocation returns is large enough, and no larger than it has to be. */
  lemma AllocateSpans(a: Alloc, size: nat)
    requires Valid(a) && size > 0
    ensures var (b, p) := Allocate(a, size); p.Some? ==> Spans(b, p.value, size)
  {
    AllocateFirstFit(a, size);
    PagesNeededExact(size, a.pageSize);
    PagesNeededPositive(size, a.pageSize);
    var n := PagesNeeded(size, a.pageSize);
    var (b, p) := Allocate(a, size);
    if p.Some? {
      var i: nat :| p.value == i * a.pageSize && FreeRun(a.mask, i, n) && n <= a.pageFree && b == Reserve(a, i, n);
      ReservedSpans(a, i, n, p.value, size);
    }
  }

  /** Freeing page `i` of `b` gives back `a`. */
  predicate RestoredBy(b: Alloc, i: int, a: Alloc) {
    && 0 <= i < |b.pages| == |b.mask|
    && i + b.pages[i].reserved <= |b.pages|
    && Release(b, i) == a
  }

  /** Freeing the pointer an allocation returned restores the exact state before it. */
  lemma FreeUndoesAlloc(a: Alloc, size: nat)
    requires Valid(a) && size > 0
    ensures var (b, p) := Allocate(a, size);
            && Valid(b)
            && (p.Some? ==> RestoredBy(b, p.value / a.pageSize, a))
  {
    AllocateFirstFit(a, size);
    var n := PagesNeeded(size, a.pageSize);
    var (b, p) := Allocate(a, size);
    PagesNeededPositive(size, a.pageSize);
    if p.Some? {
      var i: nat :| p.value == i * a.pageSize && FreeRun(a.mask, i, n) && n <= a.pageFree && b == Reserve(a, i, n);
      ModUnique(p.value, a.pageSize, i, 0);
      ReserveKeeps(a, i, n);
      ReleaseUndoesReserve(a, i, n);
    }
  }

  lemma AllocateKeeps(a: Alloc, size: nat)
    requires Valid(a) && size > 0
    ensures PagesNeeded(size, a.pageSize) >= 1
    ensures var (b, p) := TakePages(a, PagesNeeded(size, a.pageSize));
            Valid(b) && (p.Some? ==> Spans(b, p.value, size))
  {
    PagesNeededPositive(size, a.pageSize);
    FreeUndoesAlloc(a, size);
    AllocateSpans(a, size);
  }

  /** Freeing twice is freeing once. */
  lemma DoubleFree(a: Alloc, i: nat)
    requires Valid(a) && Freeable(a, i) && i + a.pages[i].reserved <= |a.pages|
    ensures RestoredBy(Release(a, i), i, Release(a, i))
  {
  }

  // ---------------------------------------------------------------- histories

  datatype Op = DoAlloc(size: nat) | DoFree(page: nat)

  ghost predicate Legal(a: Alloc, op: Op) {
    match op
    case DoAlloc(size) => size > 0
    case DoFree(i) => Freeable(a, i)
  }

  ghost function Perform(a: Alloc, op: Op): Alloc
    requires Valid(a) && Legal(a, op)
  {
    match op
    case DoAlloc(size) => Allocate(a, size).0
    case DoFree(i) => BlockFits(a, i); Release(a, i)
  }

  lemma PerformKeeps(a: Alloc, op: Op)
    requires Valid(a) && Legal(a, op)
    ensures Valid(Perform(a, op))
  {
    match op
    case DoAlloc(size) => FreeUndoesAlloc(a, size);
    case DoFree(i) => BlockFits(a, i); ReleaseKeepsIff(a, i);
  }

  ghost predicate LegalHistory(a: Alloc, ops: seq<Op>)
    requires Valid(a)
    decreases |ops|
  {
    ops == [] || (Legal(a, ops[0]) && (PerformKeeps(a, ops[0]); LegalHistory(Perform(a, ops[0]), ops[1..])))
  }

  ghost function After(a: Alloc, ops: seq<Op>): Alloc
    requires Valid(a) && LegalHistory(a, ops)
    decreases |ops|
  {
    if ops == [] then a else PerformKeeps(a, ops[0]); After(Perform(a, ops[0]), ops[1..])
  }

  /** Over every history of non-empty allocations and frees of free pages or block starts: the
      flags and the mask agree, the counter counts the free pages, free and reserved pages add
      up to all of them, and live blocks are disjoint runs covering exactly the used pages. */
  lemma {:induction false} HistoryKeeps(a: Alloc, ops: seq<Op>)
    requires Valid(a) && LegalHistory(a, ops)
    ensures Valid(After(a, ops))
    decreases |ops|
  {
    if ops != [] {
      PerformKeeps(a, ops[0]);
      HistoryKeeps(Perform(a, ops[0]), ops[1..]);
    }
  }

  // ---------------------------------------------------------------- when the search ends

  datatype Scan = Found(at: nat) | Missing | Resume(from: nat)

  /** The inner loop of the search from page `i`, with `found` pages seen to be free: a fit, or the
      page to resume at, which is still `i` when the loop body never runs. */
  function ScanRun(mask: seq<bool>, i: nat, found: nat, needed: nat): Scan
    decreases needed - found
  {
    if found < needed then
      if i + found < |mask| && mask[i + found] then
        if found + 1 == needed then Found(i) else ScanRun(mask, i, found + 1, needed)
      else Resume(i + found)
    else Resume(i)
  }

  /** One round of the outer loop, starting from `index`. */
  function ScanOnce(mask: seq<bool>, needed: nat, index: nat): Scan {
    match FitFrom(mask, 1, index)
    case None => Missing
    case Some(i) => if needed == 1 then Found(i) else ScanRun(mask, i, 1, needed)
  }

  function ScanTimes(mask: seq<bool>, needed: nat, rounds: nat): Scan {
    if rounds == 0 then Resume(0)
    else match ScanTimes(mask, needed, rounds - 1)
         case Resume(i) => ScanOnce(mask, needed, i)
         case other => other
  }

  /** The answer the search should give. */
  function Answer(mask: seq<bool>, needed: nat): Scan {
    match FitFrom(mask, needed, 0)
    case None => Missing
    case Some(i) => Found(i)
  }

  lemma {:induction false} ScanRunSays(mask: seq<bool>, i: nat, found: nat, needed: nat)
    requires 1 <= found < needed && FreeRun(mask, i, found)
    ensures match ScanRun(mask, i, found, needed)
            case Found(at) => at == i && FreeRun(mask, i, needed)
            case Missing => false
            case Resume(k) => i < k <= |mask| && forall j :: i <= j < k ==> !FreeRun(mask, j, needed)
    decreases needed - found
  {
    if i + found < |mask| && mask[i + found] {
      assert FreeRun(mask, i, found + 1);
      if found + 1 < needed { ScanRunSays(mask, i, found + 1, needed); }
    }
  }

  lemma RunOfOne(mask: seq<bool>)
    ensures forall j: nat :: FreeRun(mask, j, 1) <==> j < |mask| && mask[j]
  {
    forall j: nat ensures FreeRun(mask, j, 1) <==> j < |mask| && mask[j] {
      if j < |mask| { assert FreeRun(mask, j, 1) <==> mask[j]; }
    }
  }

  /** A run starts with a free page. */
  lemma RunStartsFree(mask: seq<bool>, from: nat, to: nat, needed: nat)
    requires needed >= 1 && forall j :: from <= j < to ==> !FreeRun(mask, j, 1)
    ensures forall j :: from <= j < to ==> !FreeRun(mask, j, needed)
  {
    forall j | from <= j < to ensures !FreeRun(mask, j, needed) { assert !FreeRun(mask, j, 1); }
  }

  lemma NoFitBefore(mask: seq<bool>, needed: nat, i: nat)
    requires forall j :: 0 <= j < i ==> !FreeRun(mask, j, needed)
    ensures FreeRun(mask, i, needed) ==> Answer(mask, needed) == Found(i)
    ensures i >= |mask| && needed >= 1 ==> Answer(mask, needed) == Missing
  {
  }

  /** A round that starts where no fit has been passed over gives the answer, or resumes further on
      with no fit passed over. */
  lemma ScanOnceSays(mask: seq<bool>, needed: nat, index: nat)
    requires needed >= 1 && forall j :: 0 <= j < index ==> !FreeRun(mask, j, needed)
    ensures match ScanOnce(mask, needed, index)
            case Resume(k) => index < k <= |mask| && forall j :: 0 <= j < k ==> !FreeRun(mask, j, needed)
            case other => other == Answer(mask, needed)
  {
    match FitFrom(mask, 1, index)
    case None =>
      RunStartsFree(mask, index, |mask|, needed);
      NoFitBefore(mask, needed, if index < |mask| then |mask| else index);
    case Some(i) =>
      RunStartsFree(mask, index, i, needed);
      NoFitBefore(mask, needed, i);
      if needed > 1 { ScanRunSays(mask, i, 1, needed); }
  }

  lemma {:induction false} ScanTimesSays(mask: seq<bool>, needed: nat, rounds: nat)
    requires needed >= 1
    ensures match ScanTimes(mask, needed, rounds)
            case Resume(k) => rounds <= k <= |mask| && forall j :: 0 <= j < k ==> !FreeRun(mask, j, needed)
            case other => other == Answer(mask, needed)
    decreases rounds
  {
    if rounds > 0 {
      ScanTimesSays(mask, needed, rounds - 1);
      match ScanTimes(mask, needed, rounds - 1)
      case Resume(i) => ScanOnceSays(mask, needed, i);
      case other =>
    }
  }

  /** For at least one page the rounds end, after at most one more than there are pages, with the
      first fit. */
  lemma SearchFindsFirstFit(mask: seq<bool>, needed: nat)
    requires needed >= 1
    ensures ScanTimes(mask, needed, |mask| + 1) == Answer(mask, needed)
  {
    ScanTimesSays(mask, needed, |mask| + 1);
  }

  /** A request for zero pages never ends while some page is free: every round resumes at the
      same page. */
  lemma {:induction false} ZeroPagesNeverEnds(mask: seq<bool>, rounds: nat)
    requires FitFrom(mask, 1, 0).Some? && rounds >= 1
    ensures ScanTimes(mask, 0, rounds) == Resume(FitFrom(mask, 1, 0).value)
    decreases rounds
  {
    var i := FitFrom(mask, 1, 0).value;
    if rounds > 1 {
      ZeroPagesNeverEnds(mask, rounds - 1);
      assert FreeRun(mask, i, 1);
      assert FitFrom(mask, 1, i) == Some(i);
    } else {
      assert ScanTimes(mask, 0, 0) == Resume(0);
    }
  }

  ghost predicate Ends(mask: seq<bool>, needed: nat) {
    exists rounds :: !ScanTimes(mask, needed, rounds).Resume?
  }

  /** The search ends exactly when it looks for at least one page or no page is free. */
  lemma SearchEndsIff(mask: seq<bool>, needed: nat)
    ensures Ends(mask, needed) <==> needed >= 1 || forall k :: 0 <= k < |mask| ==> !mask[k]
  {
    if needed >= 1 {
      SearchFindsFirstFit(mask, needed);
    } else if k :| 0 <= k < |mask| && mask[k] {
      assert FreeRun(mask, k, 1);
      forall rounds: nat ensures ScanTimes(mask, 0, rounds).Resume? {
        if rounds >= 1 { ZeroPagesNeverEnds(mask, rounds); }
      }
    } else {
      RunOfOne(mask);
      assert ScanTimes(mask, 0, 0) == Resume(0);
      assert ScanTimes(mask, 0, 1) == Missing;
    }
  }
}
