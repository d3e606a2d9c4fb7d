/** The order in which packets leave the queue. The results hold for runs whose extractions leave a
    heap: every run with heapify as intended, and, as written, exactly the runs in which the element
    put in place of the root only ever has to sink through right children. */
module SystemOrder {
  import opened Heap
  import opened HeapTheorems
  import opened System
  import opened SystemSteps
  import opened SystemTheorems

  // ---------------------------------------------------------------- when the queue stays a heap

  /** A round that takes the head out of the queue. */
  predicate Extracts(s: Sys, act: Act) {
    act.Decide? && s.heap != [] && s.heap[0].prio - act.now <= 50000
  }

  /** A round that puts an index into the queue. */
  predicate Inserts(s: Sys, act: Act) {
    act.Queue? && s.daemon.DTake? && s.daemon.i < |s.daemon.batch| && |s.heap| != s.cfg.N()
  }

  /** The step extracts nothing, or with heapify as intended, or an element that only has to sink
      through right children. */
  predicate SinksWell(s: Sys, act: Act) {
    Extracts(s, act) && !s.cfg.sound && |s.heap| > 1 ==>
      SinksRight(s.heap[..|s.heap| - 1], s.heap[|s.heap| - 1].prio, 0)
  }

  lemma HeapAfter(s: Sys, act: Act)
    requires Can(s, act)
    ensures var s' := Do(s, act);
            && (Extracts(s, act) ==>
                  s'.heap == Extracted(s.cfg.sound, s.heap) && s'.h.since == s.h.since + [s.heap[0].prio])
            && (Inserts(s, act) ==>
                  var x := s.daemon.batch[s.daemon.i];
                  s'.heap == Insert(s.heap, s.pool.times[x], x) && s'.h.since == [])
            && (!Extracts(s, act) && !Inserts(s, act) ==> s'.heap == s.heap && s'.h.since == s.h.since)
            && s'.cfg == s.cfg
  {
  }

  lemma ExtractedOrderIff(sound: bool, heap: seq<Node>)
    requires heap != [] && HeapOrder(heap)
    ensures HeapOrder(Extracted(sound, heap)) <==>
              (!sound && |heap| > 1 ==> SinksRight(heap[..|heap| - 1], heap[|heap| - 1].prio, 0))
  {
    if sound { ExtractMinCorrect(heap); } else if |heap| > 1 { ExtractMinAsWrittenOrdersIff(heap); }
  }

  /** From a heap, a step leads to a heap exactly when it sinks well. */
  lemma StepOrderIff(s: Sys, act: Act)
    requires Can(s, act) && HeapOrder(s.heap)
    ensures HeapOrder(Do(s, act).heap) <==> SinksWell(s, act)
  {
    HeapAfter(s, act);
    if Extracts(s, act) {
      ExtractedOrderIff(s.cfg.sound, s.heap);
    } else if Inserts(s, act) {
      var x := s.daemon.batch[s.daemon.i];
      InsertCorrect(s.heap, s.pool.times[x], x);
    }
  }

  /** The queue is a heap in every state of the run. */
  ghost predicate AlwaysHeap(s: Sys, acts: seq<Act>)
    requires CanAll(s, acts)
    decreases |acts|
  {
    HeapOrder(s.heap) && (acts != [] ==> AlwaysHeap(Do(s, acts[0]), acts[1..]))
  }

  /** Every step of the run sinks well. */
  ghost predicate AllSinkWell(s: Sys, acts: seq<Act>)
    requires CanAll(s, acts)
    decreases |acts|
  {
    acts != [] ==> SinksWell(s, acts[0]) && AllSinkWell(Do(s, acts[0]), acts[1..])
  }

  /** The queue is a heap throughout a run exactly when every extraction finds, in the queue before
      it, an element at the end that only has to sink through right children. */
  lemma {:induction false} AlwaysHeapIff(s: Sys, acts: seq<Act>)
    requires CanAll(s, acts) && HeapOrder(s.heap)
    ensures AlwaysHeap(s, acts) <==> AllSinkWell(s, acts)
    decreases |acts|
  {
    if acts != [] {
      StepOrderIff(s, acts[0]);
      if SinksWell(s, acts[0]) { AlwaysHeapIff(Do(s, acts[0]), acts[1..]); }
    }
  }

  /** With heapify as intended every run is such a run. */
  lemma {:induction false} SoundSinksWell(s: Sys, acts: seq<Act>)
    requires CanAll(s, acts) && s.cfg.sound
    ensures AllSinkWell(s, acts)
    decreases |acts|
  {
    if acts != [] {
      HeapAfter(s, acts[0]);
      SoundSinksWell(Do(s, acts[0]), acts[1..]);
    }
  }

  // ---------------------------------------------------------------- between insertions

  ghost predicate Rising(v: seq<I64>) {
    forall i, j :: 0 <= i < j < |v| ==> v[i] <= v[j]
  }

  /** A heap, and what was extracted since the last insertion came in order and is not above what
      is left. */
  ghost predicate InOrder(heap: seq<Node>, since: seq<I64>) {
    && HeapOrder(heap)
    && Rising(since)
    && (since != [] ==> forall n | n in multiset(heap) :: since[|since| - 1] <= n.prio)
  }

  lemma ExtractedInOrder(sound: bool, heap: seq<Node>, since: seq<I64>)
    requires heap != [] && InOrder(heap, since) && HeapOrder(Extracted(sound, heap))
    ensures InOrder(Extracted(sound, heap), since + [heap[0].prio])
  {
    ExtractMinCorrect(heap);
    ExtractedContents(sound, heap);
    OrderGoesOn(multiset(heap), since, heap[0]);
  }

  /** A least element may follow what came before. */
  lemma OrderGoesOn(m: multiset<Node>, since: seq<I64>, head: Node)
    requires Rising(since) && head in m && forall n | n in m :: head.prio <= n.prio
    requires since != [] ==> forall n | n in m :: since[|since| - 1] <= n.prio
    ensures Rising(since + [head.prio])
    ensures forall n | n in m - multiset{head} :: head.prio <= n.prio
  {
  }

  lemma {:induction false} RunInOrder(s: Sys, acts: seq<Act>)
    requires CanAll(s, acts) && AllSinkWell(s, acts) && InOrder(s.heap, s.h.since)
    ensures InOrder(After(s, acts).heap, After(s, acts).h.since)
    decreases |acts|
  {
    if acts != [] {
      var s' := Do(s, acts[0]);
      HeapAfter(s, acts[0]);
      StepOrderIff(s, acts[0]);
      if Extracts(s, acts[0]) { ExtractedInOrder(s.cfg.sound, s.heap, s.h.since); }
      RunInOrder(s', acts[1..]);
    }
  }

  /** Between two insertions packets leave the queue in deadline order. */
  lemma EarliestDeadlineFirst(s: Sys, acts: seq<Act>)
    requires SysInit(s) && CanAll(s, acts) && AllSinkWell(s, acts)
    ensures var e := After(s, acts);
            && Rising(e.h.since)
            && (e.h.since != [] ==> forall n | n in e.heap :: e.h.since[|e.h.since| - 1] <= n.prio)
  {
    RunInOrder(s, acts);
    var e := After(s, acts);
    forall n | n in e.heap && e.h.since != [] ensures e.h.since[|e.h.since| - 1] <= n.prio {
      assert n in multiset(e.heap);
    }
  }

  // ---------------------------------------------------------------- waiting

  /** Too far ahead to be sent: neither due nor late. */
  predicate TooEarly(prio: I64, now: Time) { prio - now > 50000 }

  /** Whenever the loop waits for the head, no queued packet is due or late. */
  ghost predicate WaitIsSafe(heap: seq<Node>)
    requires heap != []
  {
    forall now: Time | TooEarly(heap[0].prio, now) :: forall n | n in heap :: TooEarly(n.prio, now)
  }

  /** That is so exactly when the head is least, or so early that it is never waited for. */
  lemma WaitIsSafeIff(heap: seq<Node>)
    requires heap != []
    ensures WaitIsSafe(heap) <==> HeadLeast(heap) || heap[0].prio <= 50000
  {
    if k :| 0 <= k < |heap| && heap[k].prio < heap[0].prio && heap[0].prio > DELTA {
      var now: Time := heap[0].prio - DELTA - 1;
      assert heap[k] in heap && TooEarly(heap[0].prio, now) && !TooEarly(heap[k].prio, now);
    }
    if HeadLeast(heap) {
      forall n | n in heap ensures heap[0].prio <= n.prio { var k :| 0 <= k < |heap| && heap[k] == n; }
    }
  }

  /** After an extraction as written, waiting is safe exactly under a condition on the heap before:
      the last element is not above the left child of the root, or the right child is strictly
      below both, or the last element, the head-to-be, is so early that it is never waited for. */
  lemma WaitAfterExtractionIff(heap: seq<Node>)
    requires HeapOrder(heap) && |heap| > 1
    ensures var last := heap[|heap| - 1].prio;
            WaitIsSafe(ExtractMinAsWritten(heap)) <==> HeadStaysLeast(heap[..|heap| - 1], last) || last <= 50000
  {
    HeadAsWritten(LastToRoot(heap));
    ExtractMinAsWrittenHeadIff(heap);
    WaitIsSafeIff(ExtractMinAsWritten(heap));
  }

  lemma HeadOfHeap(heap: seq<Node>)
    requires HeapOrder(heap)
    ensures HeadLeast(heap)
  {
    forall k | 0 <= k < |heap| ensures heap[0].prio <= heap[k].prio { RootIsLeast(heap, k); }
  }

  /** In every state of a run that sinks well the head is a least deadline, so the loop waits only
      when no queued packet is due or late. */
  lemma WaitsOnlyWhenNothingIsDue(s: Sys, acts: seq<Act>)
    requires SysInit(s) && CanAll(s, acts) && AllSinkWell(s, acts)
    ensures var e := After(s, acts);
            HeadLeast(e.heap) && (e.heap != [] ==> WaitIsSafe(e.heap))
  {
    RunInOrder(s, acts);
    HeadOfHeap(After(s, acts).heap);
    if After(s, acts).heap != [] { WaitIsSafeIff(After(s, acts).heap); }
  }
}
