/** What holds of the sender/daemon system over every run. */
module SystemTheorems {
  import opened RingMachine
  import opened RingTheorems
  import opened Heap
  import opened System
  import opened SystemInv
  import opened SystemSteps
  import opened Wrappers
  import Bits

  // ---------------------------------------------------------------- runs

  /** After set-up: the free ring holds every index once, in order, and nothing is underway. */
  ghost predicate SysInit(s: Sys) {
    && s.cfg.size > 1 && s.cfg.daemon !in s.senders
    && s.free.size == s.cfg.size && |s.free.ring| == s.cfg.size
    && s.free.consTail == s.free.consHead == 0 && s.free.prodTail == s.free.prodHead == s.cfg.N()
    && |s.free.given| == s.cfg.N() && s.free.taken == []
    && (forall p :: 0 <= p < s.cfg.N() ==> s.free.given[p] == p && s.free.ring[p] == p)
    && Init(s.tx) && s.tx.size == s.cfg.size
    && s.free.threads.Keys == s.senders.Keys + {s.cfg.daemon} == s.tx.threads.Keys
    && (forall t | t in s.free.threads :: s.free.threads[t] == Idle)
    && (forall t | t in s.senders :: s.senders[t] == SIdle)
    && s.daemon == DPoll && s.heap == []
    && |s.pool.times| == |s.pool.sizes| == |s.h.mid| == |s.h.loc| == s.cfg.N() && |s.pool.mem| == s.cfg.N() * MBUF
    && (forall x :: 0 <= x < s.cfg.N() ==> s.h.loc[x] == InRing(FreeRing, x))
    && s.h.accepted == [] && s.h.fate == [] && s.h.sent == [] && s.h.dropped == [] && s.h.lost == [] && s.h.since == []
  }

  lemma InitRings(s: Sys)
    requires SysInit(s)
    ensures Rings(s)
  {
    InitInv(s.tx);
    forall p | 0 <= p < s.cfg.N() ensures p % s.cfg.size == p { Bits.ModUnique(p, s.cfg.size, 0, p); }
    assert Published(s.free);
  }

  lemma InitKeeps(s: Sys)
    requires SysInit(s)
    ensures SysInv(s)
  {
    InitRings(s);
    InitPlace(s);
    InitData(s);
  }

  lemma InitPlace(s: Sys)
    requires SysInit(s)
    ensures Place(s)
  {
  }

  lemma InitData(s: Sys)
    requires SysInit(s)
    ensures Data(s)
  {
  }

  ghost predicate CanAll(s: Sys, acts: seq<Act>)
    decreases |acts|
  {
    acts == [] || (Can(s, acts[0]) && CanAll(Do(s, acts[0]), acts[1..]))
  }

  ghost function After(s: Sys, acts: seq<Act>): Sys
    requires CanAll(s, acts)
    decreases |acts|
  {
    if acts == [] then s else After(Do(s, acts[0]), acts[1..])
  }

  lemma {:induction false} RunKeeps(s: Sys, acts: seq<Act>)
    requires SysInv(s) && CanAll(s, acts)
    ensures SysInv(After(s, acts))
    decreases |acts|
  {
    if acts != [] {
      StepKeeps(s, acts[0]);
      RunKeeps(Do(s, acts[0]), acts[1..]);
    }
  }

  lemma {:induction false} RunConfig(s: Sys, acts: seq<Act>)
    requires CanAll(s, acts)
    ensures After(s, acts).cfg == s.cfg
    decreases |acts|
  {
    if acts != [] { RunConfig(Do(s, acts[0]), acts[1..]); }
  }

  lemma Reachable(s: Sys, acts: seq<Act>)
    requires SysInit(s) && CanAll(s, acts)
    ensures SysInv(After(s, acts)) && After(s, acts).cfg == s.cfg
  {
    InitKeeps(s);
    RunKeeps(s, acts);
    RunConfig(s, acts);
  }

  // ---------------------------------------------------------------- conservation of indices

  /** Index `x` is at place `l`, read off the rings, threads and queue themselves. */
  ghost predicate At(s: Sys, x: nat, l: Loc) {
    match l
    case InRing(w, p) =>
      var r := if w.FreeRing? then s.free else s.tx;
      r.consTail <= p < r.prodHead && p < |r.given| && r.given[p] == x
    case AtSender(t) => t in s.senders && t in s.tx.threads && Holding(s.senders[t], s.tx.threads[t]) == Some(x)
    case InBatch(j) => s.daemon.DTake? && s.daemon.i <= j < |s.daemon.batch| && s.daemon.batch[j] == x
    case InHeap => exists k :: 0 <= k < |s.heap| && s.heap[k].data == x
    case InHand => InDaemon(s.daemon) == Some(x)
    case Recycling => s.cfg.daemon in s.free.threads && GivingBack(s.daemon, s.free.threads[s.cfg.daemon]) == Some(x)
    case Lost(j) => j < |s.h.lost| && s.h.lost[j] == x
  }

  lemma InHeapPlace(s: Sys, x: nat)
    requires Located(s) && x < |s.h.loc|
    ensures At(s, x, InHeap) <==> s.h.loc[x] == InHeap
  {
    var times := s.pool.times;
    if s.h.loc[x] == InHeap {
      assert Node(times[x], x) in multiset(s.heap);
      assert Node(times[x], x) in s.heap;
    }
    if At(s, x, InHeap) {
      var k :| 0 <= k < |s.heap| && s.heap[k].data == x;
      assert s.heap[k] in multiset(s.heap);
    }
  }

  lemma PlaceIsLoc(s: Sys, x: nat, l: Loc)
    requires Located(s) && x < |s.h.loc|
    ensures At(s, x, l) <==> s.h.loc[x] == l
  {
    if l.InHeap? { InHeapPlace(s, x); }
  }

  /** In every reachable state every index is at one place and one only: one position of the free
      ring's window, one sender, one position of the tx ring's window, one entry of the daemon's
      batch, the queue, the transmit step, the return step, or the list of lost indices. */
  lemma EachIndexInOnePlace(s: Sys, acts: seq<Act>, x: nat)
    requires SysInit(s) && CanAll(s, acts) && x < s.cfg.N()
    ensures exists l :: At(After(s, acts), x, l) && forall l' :: At(After(s, acts), x, l') ==> l' == l
  {
    Reachable(s, acts);
    var e := After(s, acts);
    PlaceIsLoc(e, x, e.h.loc[x]);
    forall l' ensures At(e, x, l') ==> l' == e.h.loc[x] { PlaceIsLoc(e, x, l'); }
  }

  /** As written, the indices lost are exactly as many as the packets dropped late; with drops
      recycled none is ever lost. */
  lemma LossIsDrops(s: Sys, acts: seq<Act>)
    requires SysInit(s) && CanAll(s, acts)
    ensures var e := After(s, acts);
            |e.h.lost| == if s.cfg.recycle then 0 else |e.h.dropped|
  {
    Reachable(s, acts);
  }

  lemma LostAreDistinct(s: Sys)
    requires Located(s)
    ensures |s.h.lost| <= |s.h.loc|
    ensures |s.h.lost| == |s.h.loc| ==> forall x :: 0 <= x < |s.h.loc| ==> s.h.loc[x].Lost?
  {
    if x :| 0 <= x < |s.h.loc| && !s.h.loc[x].Lost? {
      Pigeonhole(s.h.lost, |s.h.loc|, x);
    } else if |s.h.lost| > |s.h.loc| {
      Pigeonhole(s.h.lost[1..], |s.h.loc|, s.h.lost[0]);
    }
  }

  lemma NoFreeIndex(loc: seq<Loc>, given: seq<nat>, lo: nat, hi: nat)
    requires LocRing(loc, FreeRing, given, lo, hi)
    ensures (forall x :: 0 <= x < |loc| ==> loc[x].Lost?) ==> lo == hi
  {
    if lo < hi { assert loc[given[lo]] == InRing(FreeRing, lo); }
  }

  lemma {:induction false} DropsGrow(s: Sys, acts: seq<Act>)
    requires CanAll(s, acts)
    ensures |s.h.dropped| <= |After(s, acts).h.dropped|
    decreases |acts|
  {
    if acts != [] { DropsGrow(Do(s, acts[0]), acts[1..]); }
  }

  /** Never more drops than indices, and with that many the free ring is empty. */
  lemma DropsBounded(e: Sys)
    requires Shape(e) && Located(e) && LossCount(e) && !e.cfg.recycle
    ensures |e.h.dropped| <= e.cfg.N() && (|e.h.dropped| == e.cfg.N() ==> e.free.consTail == e.free.prodHead)
  {
    LostAreDistinct(e);
    if |e.h.dropped| == e.cfg.N() { NoFreeIndex(e.h.loc, e.free.given, e.free.consTail, e.free.prodHead); }
  }

  /** An index asked for in an empty ring, from the head as it stands, is refused. */
  lemma EmptyRefuses(r: State, t: Tid)
    requires Counters(r) && r.consTail == r.prodHead && Enabled(r, t, ReadTail)
    ensures r.threads[t].DeqLoad? && r.threads[t].oldHead == r.consHead ==> Apply(r, t, ReadTail).threads[t] == Idle
  {
  }

  /** As written there are never more late packets than indices. Once there are as many, the free
      ring is empty and stays so, whatever happens next: every sendmsg that reads it from then on
      finds no index. */
  lemma LateDropsStarveSenders(s: Sys, acts: seq<Act>, more: seq<Act>, t: Tid)
    requires SysInit(s) && CanAll(s, acts) && !s.cfg.recycle && CanAll(After(s, acts), more)
    ensures var e, r := After(s, acts), After(After(s, acts), more).free;
            && |e.h.dropped| <= s.cfg.N()
            && (|e.h.dropped| == s.cfg.N() ==>
                  && r.consTail == r.prodHead
                  && (Enabled(r, t, ReadTail) && r.threads[t].DeqLoad? && r.threads[t].oldHead == r.consHead ==>
                        Apply(r, t, ReadTail).threads[t] == Idle))
  {
    var e := After(s, acts);
    Reachable(s, acts);
    DropsBounded(e);
    RunKeeps(e, more);
    RunConfig(e, more);
    DropsGrow(e, more);
    DropsBounded(After(e, more));
    var r := After(e, more).free;
    if |e.h.dropped| == s.cfg.N() && Enabled(r, t, ReadTail) { EmptyRefuses(r, t); }
  }

  // ---------------------------------------------------------------- calls whose result is ignored

  /** In every reachable state, whatever the other senders are in the middle of: a tx-ring enqueue
      and a free-ring enqueue find room, and the queue takes the index inserted. */
  lemma UncheckedCallsSucceed(s: Sys, acts: seq<Act>)
    requires SysInit(s) && CanAll(s, acts)
    ensures var e := After(s, acts);
            && (forall t | t in e.senders && e.senders[t].SPut? && t in e.tx.threads && e.tx.threads[t].EnqLoad? ::
                  Enabled(e.tx, t, ReadTail) && Apply(e.tx, t, ReadTail).threads[t].EnqCas?)
            && (e.daemon.DFree? && e.cfg.daemon in e.free.threads && e.free.threads[e.cfg.daemon].EnqLoad? ==>
                  Enabled(e.free, e.cfg.daemon, ReadTail) &&
                      Apply(e.free, e.cfg.daemon, ReadTail).threads[e.cfg.daemon].EnqCas?)
            && (e.daemon.DTake? && e.daemon.i < |e.daemon.batch| ==> |e.heap| < s.cfg.N())
  {
    Reachable(s, acts);
    var e := After(s, acts);
    forall t | t in e.senders && e.senders[t].SPut? && t in e.tx.threads && e.tx.threads[t].EnqLoad?
      ensures Enabled(e.tx, t, ReadTail) && Apply(e.tx, t, ReadTail).threads[t].EnqCas?
    {
      TxCallSucceeds(e, t);
    }
    if e.daemon.DFree? && e.free.threads[e.cfg.daemon].EnqLoad? { FreeCallSucceeds(e); }
    if e.daemon.DTake? && e.daemon.i < |e.daemon.batch| { InsertionHasRoom(e); }
  }

  lemma TxCallSucceeds(e: Sys, t: Tid)
    requires Rings(e) && Place(e) && t in e.senders && e.senders[t].SPut? && e.tx.threads[t].EnqLoad?
    ensures Enabled(e.tx, t, ReadTail) && Apply(e.tx, t, ReadTail).threads[t].EnqCas?
  {
    ReadTailNeverBlocks(e.tx, t);
    TxEnqueueHasRoom(e, t);
  }

  lemma FreeCallSucceeds(e: Sys)
    requires Rings(e) && Place(e) && e.daemon.DFree? && e.free.threads[e.cfg.daemon].EnqLoad?
    ensures Enabled(e.free, e.cfg.daemon, ReadTail) &&
            Apply(e.free, e.cfg.daemon, ReadTail).threads[e.cfg.daemon].EnqCas?
  {
    ReadTailNeverBlocks(e.free, e.cfg.daemon);
    FreeEnqueueHasRoom(e);
  }

  // ---------------------------------------------------------------- deadlines

  /** Every packet ever sent was picked no later than its time and at most 50000 ns before it;
      every packet ever dropped had missed its time. */
  lemma DeadlinesRespected(s: Sys, acts: seq<Act>)
    requires SysInit(s) && CanAll(s, acts)
    ensures var h := After(s, acts).h;
            && (forall j :: 0 <= j < |h.sent| ==> 0 <= h.sent[j].txtime - h.sent[j].now <= 50000)
            && (forall j :: 0 <= j < |h.dropped| ==> h.dropped[j].txtime < h.dropped[j].now)
  {
    Reachable(s, acts);
    LogsInTime(After(s, acts).h, After(s, acts).tx.given);
  }

  lemma LogsInTime(h: Hist, given: seq<nat>)
    requires Logs(h, given)
    ensures forall j :: 0 <= j < |h.sent| ==> 0 <= h.sent[j].txtime - h.sent[j].now <= 50000
    ensures forall j :: 0 <= j < |h.dropped| ==> h.dropped[j].txtime < h.dropped[j].now
  {
    forall j | 0 <= j < |h.sent| ensures 0 <= h.sent[j].txtime - h.sent[j].now <= 50000 { assert PacketOk(h, j); }
    forall j | 0 <= j < |h.dropped| ensures h.dropped[j].txtime < h.dropped[j].now { assert DropOk(h, j); }
  }
}
