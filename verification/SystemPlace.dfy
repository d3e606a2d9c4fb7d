/** How each kind of step keeps the bookkeeping of threads and indices. */
module SystemPlace {
  import opened RingMachine
  import opened Heap
  import opened System
  import opened SystemInv
  import opened Wrappers

  // ---------------------------------------------------------------- threads

  lemma PcsOfSender(d: Tid, senders: map<Tid, Sender>, daemon: Daemon, free: map<Tid, Pc>, tx: map<Tid, Pc>,
                    t: Tid, sn: Sender, f: Pc, x: Pc)
    requires Pcs(d, senders, daemon, free, tx) && t in senders && SenderPcs(sn, f, x)
    ensures Pcs(d, senders[t := sn], daemon, free[t := f], tx[t := x])
  {
  }

  lemma PcsOfDaemon(d: Tid, senders: map<Tid, Sender>, daemon: Daemon, free: map<Tid, Pc>, tx: map<Tid, Pc>,
                    dm: Daemon, f: Pc, x: Pc)
    requires Pcs(d, senders, daemon, free, tx) && DaemonPcs(dm, f, x)
    ensures Pcs(d, senders, dm, free[d := f], tx[d := x])
  {
  }

  lemma SendOfSender(loc: seq<Loc>, senders: map<Tid, Sender>, tx: map<Tid, Pc>, t: Tid, sn: Sender, x: Pc)
    requires LocSend(loc, senders, tx) && t in senders
    requires Holding(sn, x) == Holding(senders[t], tx[t])
    ensures LocSend(loc, senders[t := sn], tx[t := x])
  {
  }

  lemma SendOfDaemon(loc: seq<Loc>, senders: map<Tid, Sender>, tx: map<Tid, Pc>, d: Tid, x: Pc)
    requires LocSend(loc, senders, tx) && d !in senders
    ensures LocSend(loc, senders, tx[d := x])
  {
  }

  lemma Same<K, V>(m: map<K, V>, k: K)
    requires k in m
    ensures m[k := m[k]] == m
  {
  }

  // ---------------------------------------------------------------- indices
  // Moving an index between two places leaves the bookkeeping of every other place right.

  lemma RingKept(loc: seq<Loc>, w: Which, given: seq<nat>, lo: nat, hi: nat, x: nat, l: Loc)
    requires LocRing(loc, w, given, lo, hi) && x < |loc| && !OnRing(loc[x], w) && !OnRing(l, w)
    ensures LocRing(loc[x := l], w, given, lo, hi)
  {
  }

  lemma SendKept(loc: seq<Loc>, senders: map<Tid, Sender>, tx: map<Tid, Pc>, x: nat, l: Loc)
    requires LocSend(loc, senders, tx) && x < |loc| && !loc[x].AtSender? && !l.AtSender?
    ensures LocSend(loc[x := l], senders, tx)
  {
  }

  lemma BatchKept(loc: seq<Loc>, d: Daemon, d': Daemon, x: nat, l: Loc)
    requires LocBatch(loc, d) && x < |loc| && !loc[x].InBatch? && !l.InBatch?
    requires d' == d || (!d.DTake? && !d'.DTake?)
    ensures LocBatch(loc[x := l], d')
  {
  }

  lemma HeapKept(loc: seq<Loc>, heap: multiset<Node>, times: seq<I64>, x: nat, l: Loc)
    requires LocHeap(loc, heap, times) && x < |loc| && !loc[x].InHeap? && !l.InHeap?
    ensures LocHeap(loc[x := l], heap, times)
  {
  }

  lemma HandKept(loc: seq<Loc>, d: Daemon, d': Daemon, x: nat, l: Loc)
    requires LocHand(loc, d) && x < |loc| && !loc[x].InHand? && !l.InHand?
    requires InDaemon(d') == InDaemon(d)
    ensures LocHand(loc[x := l], d')
  {
  }

  lemma RecycleKept(loc: seq<Loc>, d: Daemon, d': Daemon, pc: Pc, pc': Pc, x: nat, l: Loc)
    requires LocRecycle(loc, d, pc) && x < |loc| && !loc[x].Recycling? && !l.Recycling?
    requires GivingBack(d', pc') == GivingBack(d, pc)
    ensures LocRecycle(loc[x := l], d', pc')
  {
  }

  lemma LostKept(loc: seq<Loc>, lost: seq<nat>, x: nat, l: Loc)
    requires LocLost(loc, lost) && x < |loc| && !loc[x].Lost? && !l.Lost?
    ensures LocLost(loc[x := l], lost)
  {
  }

  // Arrivals and departures.

  lemma FreeFront(loc: seq<Loc>, given: seq<nat>, lo: nat, hi: nat, x: nat, l: Loc)
    requires LocRing(loc, FreeRing, given, lo, hi) && lo + 1 <= hi <= |given| && [x] == given[lo..lo + 1] &&
             !OnRing(l, FreeRing)
    ensures x < |loc| && loc[x] == InRing(FreeRing, lo)
    ensures LocRing(loc[x := l], FreeRing, given, lo + 1, hi)
  {
    assert given[lo..lo + 1][0] == x;
  }

  lemma RingBack(loc: seq<Loc>, w: Which, given: seq<nat>, lo: nat, hi: nat, x: nat)
    requires LocRing(loc, w, given, lo, hi) && hi == |given| && x < |loc| && !OnRing(loc[x], w)
    ensures LocRing(loc[x := InRing(w, hi)], w, given + [x], lo, hi + 1)
  {
  }

  lemma SenderTakes(loc: seq<Loc>, senders: map<Tid, Sender>, tx: map<Tid, Pc>, t: Tid, sn: Sender, x: nat)
    requires LocSend(loc, senders, tx) && t in senders && x < |loc| && !loc[x].AtSender?
    requires Holding(senders[t], tx[t]).None? && Holding(sn, tx[t]) == Some(x)
    ensures LocSend(loc[x := AtSender(t)], senders[t := sn], tx)
  {
  }

  lemma SenderGives(loc: seq<Loc>, senders: map<Tid, Sender>, tx: map<Tid, Pc>, t: Tid, pc: Pc, x: nat, l: Loc)
    requires LocSend(loc, senders, tx) && t in senders && x < |loc| && !l.AtSender?
    requires Holding(senders[t], tx[t]) == Some(x) && Holding(senders[t], pc).None?
    ensures loc[x] == AtSender(t)
    ensures LocSend(loc[x := l], senders, tx[t := pc])
  {
  }

  // ---------------------------------------------------------------- sender steps

  lemma MovePlace(s: Sys, s': Sys, t: Tid, sn: Sender)
    requires Place(s) && t in s.senders && Quiet(s.free, s'.free, t)
    requires s' == s.(free := s'.free, senders := s.senders[t := sn])
    requires (s.senders[t].SIdle? || s.senders[t].SGet?) && (sn.SIdle? || sn.SGet?)
    requires SenderPcs(sn, s'.free.threads[t], s.tx.threads[t])
    ensures Place(s')
  {
    var x := s.tx.threads[t];
    Same(s.tx.threads, t);
    PcsOfSender(s.cfg.daemon, s.senders, s.daemon, s.free.threads, s.tx.threads, t, sn, s'.free.threads[t], x);
    SendOfSender(s.h.loc, s.senders, s.tx.threads, t, sn, x);
  }

  lemma TakeLocated(s: Sys, s': Sys, t: Tid, x: nat)
    requires Located(s) && t in s.senders && s.senders[t].SGet? && t != s.cfg.daemon
    requires Released(s.free, s'.free, t, [x]) && x < |s.h.loc|
    requires var sn := SFill(s.senders[t].msg, x, 0);
             s' == s.(free := s'.free, senders := s.senders[t := sn], h := s.h.(loc := s.h.loc[x := AtSender(t)]))
    ensures Located(s')
    ensures OnRing(s.h.loc[x], FreeRing)
  {
    var loc, l, d, pc := s.h.loc, AtSender(t), s.daemon, s.free.threads[s.cfg.daemon];
    FreeFront(loc, s.free.given, s.free.consTail, s.free.prodHead, x, l);
    RingKept(loc, TxRing, s.tx.given, s.tx.consTail, s.tx.prodHead, x, l);
    SenderTakes(loc, s.senders, s.tx.threads, t, s'.senders[t], x);
    BatchKept(loc, d, d, x, l);
    HeapKept(loc, multiset(s.heap), s.pool.times, x, l);
    HandKept(loc, d, d, x, l);
    RecycleKept(loc, d, d, pc, pc, x, l);
    LostKept(loc, s.h.lost, x, l);
  }

  lemma TakePlace(s: Sys, s': Sys, t: Tid, x: nat)
    requires Place(s) && t in s.senders && s.senders[t].SGet? && Released(s.free, s'.free, t, [x]) && x < |s.h.loc|
    requires var sn := SFill(s.senders[t].msg, x, 0);
             s' == s.(free := s'.free, senders := s.senders[t := sn], h := s.h.(loc := s.h.loc[x := AtSender(t)]))
    ensures Place(s')
    ensures OnRing(s.h.loc[x], FreeRing)
  {
    TakeLocated(s, s', t, x);
    Same(s.tx.threads, t);
    PcsOfSender(s.cfg.daemon, s.senders, s.daemon, s.free.threads, s.tx.threads, t, s'.senders[t], Idle,
        s.tx.threads[t]);
  }

  /** A store of a sender into the pools, under the index it holds. */
  lemma StorePlace(s: Sys, s': Sys, t: Tid, sn: Sender, x: nat)
    requires Place(s) && t in s.senders && Quiet(s.tx, s'.tx, t)
    requires s' == s.(pool := s'.pool, tx := s'.tx, senders := s.senders[t := sn])
    requires |s'.pool.mem| == |s.pool.mem| && |s'.pool.times| == |s.pool.times| && |s'.pool.sizes| == |s.pool.sizes|
    requires forall y :: 0 <= y < |s.pool.times| && y != x ==> s'.pool.times[y] == s.pool.times[y]
    requires Holding(s.senders[t], s.tx.threads[t]) == Some(x) == Holding(sn, s'.tx.threads[t])
    requires SenderPcs(sn, s.free.threads[t], s'.tx.threads[t])
    ensures Place(s')
    ensures x < |s.h.loc| && s.h.loc[x] == AtSender(t)
  {
    Same(s.free.threads, t);
    PcsOfSender(s.cfg.daemon, s.senders, s.daemon, s.free.threads, s.tx.threads, t, sn, s.free.threads[t],
        s'.tx.threads[t]);
    SendOfSender(s.h.loc, s.senders, s.tx.threads, t, sn, s'.tx.threads[t]);
    HeapTimes(s.h.loc, multiset(s.heap), s.pool.times, s'.pool.times, x);
  }

  lemma HeapTimes(loc: seq<Loc>, heap: multiset<Node>, times: seq<I64>, times': seq<I64>, x: nat)
    requires LocHeap(loc, heap, times) && |times'| == |times| && x < |loc| && !loc[x].InHeap?
    requires forall y :: 0 <= y < |times| && y != x ==> times'[y] == times[y]
    ensures LocHeap(loc, heap, times')
  {
  }

  /** A step of a sender's tx enqueue other than its claim. */
  lemma TxQuietPlace(s: Sys, s': Sys, t: Tid, sn: Sender)
    requires Place(s) && t in s.senders && s.senders[t].SPut? && Quiet(s.tx, s'.tx, t)
    requires s' == s.(tx := s'.tx, senders := s.senders[t := sn])
    requires Holding(sn, s'.tx.threads[t]) == Holding(s.senders[t], s.tx.threads[t])
    requires SenderPcs(sn, s.free.threads[t], s'.tx.threads[t])
    ensures Place(s')
  {
    Same(s.free.threads, t);
    PcsOfSender(s.cfg.daemon, s.senders, s.daemon, s.free.threads, s.tx.threads, t, sn, s.free.threads[t],
        s'.tx.threads[t]);
    SendOfSender(s.h.loc, s.senders, s.tx.threads, t, sn, s'.tx.threads[t]);
  }

  lemma ClaimLocated(s: Sys, s': Sys, t: Tid, x: nat)
    requires Located(s) && t in s.senders && s.tx.prodHead == |s.tx.given| && x < |s.h.loc|
    requires Claimed(s.tx, s'.tx, t, x) && s' == s.(tx := s'.tx, h := s'.h)
    requires s'.h.loc == s.h.loc[x := InRing(TxRing, s.tx.prodHead)] && s'.h.lost == s.h.lost
    requires Holding(s.senders[t], s.tx.threads[t]) == Some(x) && Holding(s.senders[t], s'.tx.threads[t]).None?
    ensures Located(s')
    ensures s.h.loc[x] == AtSender(t)
  {
    var loc, l, d, pc := s.h.loc, InRing(TxRing, s.tx.prodHead), s.daemon, s.free.threads[s.cfg.daemon];
    SenderGives(loc, s.senders, s.tx.threads, t, s'.tx.threads[t], x, l);
    RingBack(loc, TxRing, s.tx.given, s.tx.consTail, s.tx.prodHead, x);
    RingKept(loc, FreeRing, s.free.given, s.free.consTail, s.free.prodHead, x, l);
    BatchKept(loc, d, d, x, l);
    HeapKept(loc, multiset(s.heap), s.pool.times, x, l);
    HandKept(loc, d, d, x, l);
    RecycleKept(loc, d, d, pc, pc, x, l);
    LostKept(loc, s.h.lost, x, l);
  }

  lemma ClaimPlace(s: Sys, s': Sys, t: Tid, x: nat)
    requires Place(s) && t in s.senders && s.senders[t].SPut? && s.senders[t].x == x && x < |s.h.loc|
    requires Claimed(s.tx, s'.tx, t, x) && s' == s.(tx := s'.tx, h := s'.h)
    requires s'.h.loc == s.h.loc[x := InRing(TxRing, s.tx.prodHead)] && s'.h.lost == s.h.lost
    requires |s'.h.accepted| == |s.h.accepted| + 1 && |s'.h.fate| == |s.h.fate| + 1 && |s'.h.mid| == |s.h.mid|
    requires !s.tx.threads[t].EnqCopy? && s'.tx.threads[t].EnqCopy? && Enqueueing(s'.tx.threads[t], x)
    ensures Place(s')
    ensures s.h.loc[x] == AtSender(t)
  {
    ClaimLocated(s, s', t, x);
    Same(s.free.threads, t);
    Same(s.senders, t);
    PcsOfSender(s.cfg.daemon, s.senders, s.daemon, s.free.threads, s.tx.threads, t, s.senders[t], Idle,
        s'.tx.threads[t]);
  }

  // ---------------------------------------------------------------- daemon steps

  lemma DaemonMoves(loc: seq<Loc>, d: Daemon, d': Daemon, pc: Pc, pc': Pc)
    requires LocBatch(loc, d) && LocHand(loc, d) && LocRecycle(loc, d, pc)
    requires (d.DTake? ==> d.i == |d.batch|) && !d'.DTake?
    requires InDaemon(d') == InDaemon(d) && GivingBack(d', pc') == GivingBack(d, pc)
    ensures LocBatch(loc, d') && LocHand(loc, d') && LocRecycle(loc, d', pc')
  {
  }

  /** The daemon moves on without an index changing place. */
  lemma DaemonPlace(s: Sys, s': Sys, dm: Daemon)
    requires Place(s) && Quiet(s.free, s'.free, s.cfg.daemon) && Quiet(s.tx, s'.tx, s.cfg.daemon)
    requires s' == s.(free := s'.free, tx := s'.tx, daemon := dm, clock := s'.clock)
    requires (s.daemon.DTake? ==> s.daemon.i == |s.daemon.batch|) && !dm.DTake?
    requires InDaemon(dm) == InDaemon(s.daemon)
    requires GivingBack(dm, s'.free.threads[s.cfg.daemon]) == GivingBack(s.daemon, s.free.threads[s.cfg.daemon])
    requires DaemonPcs(dm, s'.free.threads[s.cfg.daemon], s'.tx.threads[s.cfg.daemon])
    ensures Place(s')
  {
    var d := s.cfg.daemon;
    PcsOfDaemon(d, s.senders, s.daemon, s.free.threads, s.tx.threads, dm, s'.free.threads[d], s'.tx.threads[d]);
    SendOfDaemon(s.h.loc, s.senders, s.tx.threads, d, s'.tx.threads[d]);
    DaemonMoves(s.h.loc, s.daemon, dm, s.free.threads[d], s'.free.threads[d]);
  }

  lemma LandedTx(loc: seq<Loc>, given: seq<nat>, lo: nat, mid: nat, hi: nat)
    requires LocRing(loc, TxRing, given, lo, hi) && lo <= mid <= hi
    ensures LocRing(Landed(loc, lo, mid), TxRing, given, mid, hi)
  {
  }

  lemma LandedBatch(loc: seq<Loc>, given: seq<nat>, lo: nat, mid: nat, hi: nat, d: Daemon)
    requires LocRing(loc, TxRing, given, lo, hi) && lo <= mid <= hi && LocBatch(loc, d) && !d.DTake?
    ensures LocBatch(Landed(loc, lo, mid), DTake(given[lo..mid], 0))
  {
    var loc', batch := Landed(loc, lo, mid), given[lo..mid];
    forall j | 0 <= j < |batch| ensures batch[j] < |loc'| && loc'[batch[j]] == InBatch(j) {
      assert batch[j] == given[lo + j];
    }
    forall x | 0 <= x < |loc'| && loc'[x].InBatch? ensures 0 <= loc'[x].j < |batch| && batch[loc'[x].j] == x {
      assert OnRing(loc[x], TxRing);
    }
  }

  lemma LandedOthers(s: Sys, lo: nat, mid: nat)
    requires Located(s)
    ensures var loc := Landed(s.h.loc, lo, mid);
            && LocRing(loc, FreeRing, s.free.given, s.free.consTail, s.free.prodHead)
            && LocSend(loc, s.senders, s.tx.threads)
            && LocHeap(loc, multiset(s.heap), s.pool.times)
            && LocLost(loc, s.h.lost)
  {
    var loc := s.h.loc;
    LandedFree(loc, s.free.given, s.free.consTail, s.free.prodHead, lo, mid);
    LandedSend(loc, s.senders, s.tx.threads, lo, mid);
    LandedHeap(loc, multiset(s.heap), s.pool.times, lo, mid);
    LandedLost(loc, s.h.lost, lo, mid);
  }

  lemma LandedFree(loc: seq<Loc>, given: seq<nat>, a: nat, b: nat, lo: nat, mid: nat)
    requires LocRing(loc, FreeRing, given, a, b)
    ensures LocRing(Landed(loc, lo, mid), FreeRing, given, a, b)
  {
  }

  lemma LandedSend(loc: seq<Loc>, senders: map<Tid, Sender>, tx: map<Tid, Pc>, lo: nat, mid: nat)
    requires LocSend(loc, senders, tx)
    ensures LocSend(Landed(loc, lo, mid), senders, tx)
  {
  }

  lemma LandedHeap(loc: seq<Loc>, heap: multiset<Node>, times: seq<I64>, lo: nat, mid: nat)
    requires LocHeap(loc, heap, times)
    ensures LocHeap(Landed(loc, lo, mid), heap, times)
  {
  }

  lemma LandedLost(loc: seq<Loc>, lost: seq<nat>, lo: nat, mid: nat)
    requires LocLost(loc, lost)
    ensures LocLost(Landed(loc, lo, mid), lost)
  {
  }

  lemma LandedHand(loc: seq<Loc>, d: Daemon, d': Daemon, pc: Pc, lo: nat, mid: nat)
    requires LocHand(loc, d) && LocRecycle(loc, d, pc) && InDaemon(d).None? && InDaemon(d').None? && !d.DFree? &&
             !d'.DFree?
    ensures LocHand(Landed(loc, lo, mid), d') && LocRecycle(Landed(loc, lo, mid), d', pc)
  {
  }

  lemma LandPlace(s: Sys, s': Sys, got: seq<nat>)
    requires Place(s) && s.daemon.DPoll? && Released(s.tx, s'.tx, s.cfg.daemon, got)
    requires s' == s.(tx := s'.tx, daemon := DTake(got, 0),
             h := s.h.(loc := Landed(s.h.loc, s.tx.consTail, s'.tx.consTail)))
    ensures Place(s')
  {
    var d, lo, mid, hi := s.cfg.daemon, s.tx.consTail, s'.tx.consTail, s.tx.prodHead;
    Same(s.free.threads, d);
    PcsOfDaemon(d, s.senders, s.daemon, s.free.threads, s.tx.threads, s'.daemon, Idle, Idle);
    LandedOthers(s, lo, mid);
    SendOfDaemon(s'.h.loc, s.senders, s.tx.threads, d, Idle);
    LandedTx(s.h.loc, s.tx.given, lo, mid, hi);
    LandedBatch(s.h.loc, s.tx.given, lo, mid, hi, s.daemon);
    LandedHand(s.h.loc, s.daemon, s'.daemon, s.free.threads[d], lo, mid);
  }

  lemma BatchShrinks(loc: seq<Loc>, batch: seq<nat>, i: nat, l: Loc)
    requires LocBatch(loc, DTake(batch, i)) && i < |batch| && !l.InBatch?
    ensures batch[i] < |loc| && loc[batch[i]] == InBatch(i)
    ensures LocBatch(loc[batch[i] := l], DTake(batch, i + 1))
  {
  }

  lemma HeapGains(loc: seq<Loc>, heap: multiset<Node>, times: seq<I64>, x: nat)
    requires LocHeap(loc, heap, times) && x < |loc| && !loc[x].InHeap?
    ensures LocHeap(loc[x := InHeap], heap + multiset{Node(times[x], x)}, times)
  {
    assert Node(times[x], x) !in heap;
  }

  lemma HeapLoses(loc: seq<Loc>, heap: multiset<Node>, times: seq<I64>, n: Node, l: Loc)
    requires LocHeap(loc, heap, times) && n in heap && !l.InHeap?
    ensures n.data < |loc| && loc[n.data] == InHeap && n.prio == times[n.data]
    ensures LocHeap(loc[n.data := l], heap - multiset{n}, times)
  {
    var loc', heap' := loc[n.data := l], heap - multiset{n};
    forall m | m in heap'
      ensures heap'[m] == 1 && m.data < |loc'| && loc'[m.data] == InHeap && m.prio == times[m.data]
    {
      assert m in heap;
    }
    forall x | 0 <= x < |loc'| && loc'[x] == InHeap ensures Node(times[x], x) in heap' {
      assert Node(times[x], x) in heap;
    }
  }

  lemma QueuePlace(s: Sys, s': Sys)
    requires Place(s) && s.daemon.DTake? && s.daemon.i < |s.daemon.batch|
    requires var x := s.daemon.batch[s.daemon.i];
             && x < |s.h.loc| && x < |s.pool.times|
             && s' == s.(daemon := DTake(s.daemon.batch, s.daemon.i + 1), heap := s'.heap,
                         h := s.h.(loc := s.h.loc[x := InHeap], since := []))
             && multiset(s'.heap) == multiset(s.heap) + multiset{Node(s.pool.times[x], x)}
    ensures Place(s')
    ensures s.h.loc[s.daemon.batch[s.daemon.i]].InBatch?
  {
    var loc, x, d, pc := s.h.loc, s.daemon.batch[s.daemon.i], s.daemon, s.free.threads[s.cfg.daemon];
    Same(s.free.threads, s.cfg.daemon);
    Same(s.tx.threads, s.cfg.daemon);
    PcsOfDaemon(s.cfg.daemon, s.senders, d, s.free.threads, s.tx.threads, s'.daemon, Idle, Idle);
    BatchShrinks(loc, d.batch, d.i, InHeap);
    HeapGains(loc, multiset(s.heap), s.pool.times, x);
    RingKept(loc, FreeRing, s.free.given, s.free.consTail, s.free.prodHead, x, InHeap);
    RingKept(loc, TxRing, s.tx.given, s.tx.consTail, s.tx.prodHead, x, InHeap);
    SendKept(loc, s.senders, s.tx.threads, x, InHeap);
    HandKept(loc, d, s'.daemon, x, InHeap);
    RecycleKept(loc, d, s'.daemon, pc, pc, x, InHeap);
    LostKept(loc, s.h.lost, x, InHeap);
  }

  lemma HandGains(loc: seq<Loc>, d: Daemon, d': Daemon, x: nat)
    requires LocHand(loc, d) && InDaemon(d).None? && InDaemon(d') == Some(x) && x < |loc|
    ensures LocHand(loc[x := InHand], d')
  {
  }

  lemma RecycleGains(loc: seq<Loc>, d: Daemon, d': Daemon, pc: Pc, pc': Pc, x: nat)
    requires LocRecycle(loc, d, pc) && GivingBack(d, pc).None? && GivingBack(d', pc') == Some(x) && x < |loc|
    ensures LocRecycle(loc[x := Recycling], d', pc')
  {
  }

  lemma LostGains(loc: seq<Loc>, lost: seq<nat>, x: nat)
    requires LocLost(loc, lost) && x < |loc| && !loc[x].Lost?
    ensures LocLost(loc[x := Lost(|lost|)], lost + [x])
  {
  }

  /** The head of the queue leaves it: to be sent, given back, or lost. */
  lemma PickLocated(s: Sys, s': Sys, n: Node, l: Loc)
    requires Located(s) && s.daemon.DLook? && n in multiset(s.heap) && n.data < |s.h.loc|
    requires l.InHand? || l.Recycling? || l == Lost(|s.h.lost|)
    requires Quiet(s.free, s'.free, s.cfg.daemon)
    requires s' == s.(free := s'.free, daemon := s'.daemon, clock := s'.clock, heap := s'.heap, h := s'.h)
    requires s'.h.loc == s.h.loc[n.data := l] && s'.h.lost == (if l.Lost? then s.h.lost + [n.data] else s.h.lost)
    requires multiset(s'.heap) == multiset(s.heap) - multiset{n} && !s'.daemon.DTake?
    requires InDaemon(s'.daemon) == if l.InHand? then Some(n.data) else None
    requires GivingBack(s'.daemon, s'.free.threads[s.cfg.daemon]) == if l.Recycling? then Some(n.data) else None
    ensures Located(s')
    ensures s.h.loc[n.data] == InHeap
  {
    var loc, x, d, pc := s.h.loc, n.data, s.daemon, s.free.threads[s.cfg.daemon];
    HeapLoses(loc, multiset(s.heap), s.pool.times, n, l);
    RingKept(loc, FreeRing, s.free.given, s.free.consTail, s.free.prodHead, x, l);
    RingKept(loc, TxRing, s.tx.given, s.tx.consTail, s.tx.prodHead, x, l);
    SendKept(loc, s.senders, s.tx.threads, x, l);
    BatchKept(loc, d, s'.daemon, x, l);
    var pc' := s'.free.threads[s.cfg.daemon];
    if l.InHand? { HandGains(loc, d, s'.daemon, x); } else { HandKept(loc, d, s'.daemon, x, l); }
    if l.Recycling? {
      RecycleGains(loc, d, s'.daemon, pc, pc', x);
    } else {
      RecycleKept(loc, d, s'.daemon, pc, pc', x, l);
    }
    if l.Lost? { LostGains(loc, s.h.lost, x); } else { LostKept(loc, s.h.lost, x, l); }
  }

  lemma PickPlace(s: Sys, s': Sys, n: Node, l: Loc)
    requires Place(s) && s.daemon.DLook? && n in multiset(s.heap) && n.data < |s.h.loc|
    requires l.InHand? || l.Recycling? || l == Lost(|s.h.lost|)
    requires Quiet(s.free, s'.free, s.cfg.daemon)
    requires s' == s.(free := s'.free, daemon := s'.daemon, clock := s'.clock, heap := s'.heap, h := s'.h)
    requires s'.h.loc == s.h.loc[n.data := l] && s'.h.lost == (if l.Lost? then s.h.lost + [n.data] else s.h.lost)
    requires |s'.h.fate| == |s.h.fate| && s'.h.accepted == s.h.accepted && s'.h.mid == s.h.mid
    requires multiset(s'.heap) == multiset(s.heap) - multiset{n} && !s'.daemon.DTake?
    requires InDaemon(s'.daemon) == if l.InHand? then Some(n.data) else None
    requires GivingBack(s'.daemon, s'.free.threads[s.cfg.daemon]) == if l.Recycling? then Some(n.data) else None
    requires DaemonPcs(s'.daemon, s'.free.threads[s.cfg.daemon], s.tx.threads[s.cfg.daemon])
    ensures Place(s')
    ensures s.h.loc[n.data] == InHeap
  {
    PickLocated(s, s', n, l);
    Same(s.tx.threads, s.cfg.daemon);
    PcsOfDaemon(s.cfg.daemon, s.senders, s.daemon, s.free.threads, s.tx.threads, s'.daemon,
                s'.free.threads[s.cfg.daemon], s.tx.threads[s.cfg.daemon]);
  }

  /** The packet is out: its index is on its way back. */
  lemma SentLocated(s: Sys, s': Sys, x: nat)
    requires Located(s) && InDaemon(s.daemon) == Some(x) && x < |s.h.loc|
    requires Quiet(s.free, s'.free, s.cfg.daemon)
    requires s' == s.(free := s'.free, daemon := DFree(x), h := s'.h)
    requires s'.h.loc == s.h.loc[x := Recycling] && s'.h.lost == s.h.lost
    requires !s'.free.threads[s.cfg.daemon].EnqCopy?
    ensures Located(s')
    ensures s.h.loc[x] == InHand
  {
    var loc, d, l := s.h.loc, s.daemon, Recycling;
    RingKept(loc, FreeRing, s.free.given, s.free.consTail, s.free.prodHead, x, l);
    RingKept(loc, TxRing, s.tx.given, s.tx.consTail, s.tx.prodHead, x, l);
    SendKept(loc, s.senders, s.tx.threads, x, l);
    BatchKept(loc, d, s'.daemon, x, l);
    HeapKept(loc, multiset(s.heap), s.pool.times, x, l);
    LostKept(loc, s.h.lost, x, l);
  }

  lemma SentPlace(s: Sys, s': Sys, x: nat)
    requires Place(s) && InDaemon(s.daemon) == Some(x) && x < |s.h.loc|
    requires Quiet(s.free, s'.free, s.cfg.daemon)
    requires s' == s.(free := s'.free, daemon := DFree(x), h := s'.h)
    requires s'.h.loc == s.h.loc[x := Recycling] && s'.h.lost == s.h.lost
    requires |s'.h.fate| == |s.h.fate| && s'.h.accepted == s.h.accepted && s'.h.mid == s.h.mid
    requires Enqueueing(s'.free.threads[s.cfg.daemon], x) && !s'.free.threads[s.cfg.daemon].EnqCopy?
    ensures Place(s')
    ensures s.h.loc[x] == InHand
  {
    SentLocated(s, s', x);
    Same(s.tx.threads, s.cfg.daemon);
    PcsOfDaemon(s.cfg.daemon, s.senders, s.daemon, s.free.threads, s.tx.threads, s'.daemon,
                s'.free.threads[s.cfg.daemon], Idle);
  }

  /** The index is back in the free ring. */
  lemma BackPlace(s: Sys, s': Sys, x: nat)
    requires Place(s) && s.daemon == DFree(x) && x < |s.h.loc| && s.free.prodHead == |s.free.given|
    requires Claimed(s.free, s'.free, s.cfg.daemon, x)
    requires s' == s.(free := s'.free, h := s.h.(loc := s.h.loc[x := InRing(FreeRing, s.free.prodHead)]))
    requires !s.free.threads[s.cfg.daemon].EnqCopy? && s'.free.threads[s.cfg.daemon].EnqCopy?
    requires Enqueueing(s'.free.threads[s.cfg.daemon], x)
    ensures Place(s')
    ensures s.h.loc[x] == Recycling
  {
    var loc, d, l := s.h.loc, s.daemon, InRing(FreeRing, s.free.prodHead);
    Same(s.tx.threads, s.cfg.daemon);
    PcsOfDaemon(s.cfg.daemon, s.senders, d, s.free.threads, s.tx.threads, d, s'.free.threads[s.cfg.daemon], Idle);
    RingBack(loc, FreeRing, s.free.given, s.free.consTail, s.free.prodHead, x);
    RingKept(loc, TxRing, s.tx.given, s.tx.consTail, s.tx.prodHead, x, l);
    SendKept(loc, s.senders, s.tx.threads, x, l);
    BatchKept(loc, d, d, x, l);
    HeapKept(loc, multiset(s.heap), s.pool.times, x, l);
    HandKept(loc, d, d, x, l);
    LostKept(loc, s.h.lost, x, l);
  }
}
