/** Two runs from set-up that fail as written: one in which the loop waits while a queued packet is
    due, and one in which the daemon queues an index that is free. */
module SystemFailing {
  import opened RingMachine
  import opened RingAlone
  import opened Heap
  import opened System
  import opened SystemInv
  import opened SystemTheorems
  import opened SystemAsWritten
  import opened SystemOrder
  import opened SystemAlone
  import Bits

  // ---------------------------------------------------------------- several sendmsgs

  /** The index at position `p` of either ring, going round all `n` of them. */
  function IndexAt(n: nat, p: nat): nat { if p < n then p else p - n }

  /** `k` indices have been returned to the free ring, and `k + j` taken from it, in order. */
  ghost predicate FreeAt(r: State, n: nat, k: nat, j: nat) {
    && Resting(r) && r.size == n + 1 && r.consHead == k + j && r.prodTail == n + k == |r.given|
    && forall p :: 0 <= p < n + k ==> r.given[p] == IndexAt(n, p)
  }

  /** `k` indices have passed the tx ring and `j` are on it. */
  ghost predicate TxAt(r: State, n: nat, k: nat, j: nat) {
    && Resting(r) && r.size == n + 1 && r.consHead == k && r.prodTail == k + j == |r.given|
    && forall p :: 0 <= p < k + j ==> r.given[p] == IndexAt(n, p)
  }

  ghost predicate PoolAt(pool: Pool, n: nat, k: nat, times: seq<Time>) {
    && |pool.times| == |pool.sizes| == n && |times| <= n && k <= n
    && forall i :: 0 <= i < |times| ==>
         var x := IndexAt(n, k + i); x < n && pool.times[x] == times[i] && pool.sizes[x] == 0
  }

  /** What the runs below keep track of: `k` messages sent, transmitted and their indices returned,
      and messages with the given deadlines sent and not yet polled. */
  ghost predicate Sent(s: Sys, e: Sys, k: nat, times: seq<Time>) {
    && e.cfg == s.cfg && e.cfg.N() >= 1 && k <= e.cfg.N()
    && Leads(s, e) && Calm(e) && e.heap == [] && e.clock == s.clock && e.senders.Keys == s.senders.Keys
    && var n: nat := e.cfg.N();
       && FreeAt(e.free, n, k, |times|) && TxAt(e.tx, n, k, |times|) && PoolAt(e.pool, n, k, times)
       && |e.h.loc| == |e.h.mid| == n
  }

  lemma FreeNext(r: State, n: nat, k: nat, j: nat, t: Tid)
    requires FreeAt(r, n, k, j) && j < n && t in r.threads
    ensures FreeAt(Taking(r, 1), n, k, j + 1)
  {
    DequeueEnds(r, t, 1);
  }

  lemma TxNext(r: State, n: nat, k: nat, j: nat)
    requires TxAt(r, n, k, j) && j < n
    ensures TxAt(Putting(r, IndexAt(n, k + j)), n, k, j + 1)
  {
    PutRests(r, IndexAt(n, k + j));
  }

  lemma PoolNext(pool: Pool, n: nat, k: nat, times: seq<Time>, time: Time)
    requires PoolAt(pool, n, k, times) && |times| < n
    ensures var x := IndexAt(n, k + |times|);
            x < n && PoolAt(pool.(times := pool.times[x := time], sizes := pool.sizes[x := 0]), n, k, times + [time])
  {
  }

  lemma PoolSays(pool: Pool, n: nat, k: nat, times: seq<Time>, i: nat)
    requires PoolAt(pool, n, k, times) && i < |times|
    ensures var x := IndexAt(n, k + i); x < n && pool.times[x] == times[i] && pool.sizes[x] == 0
  {
  }

  /** One more sendmsg with an empty payload. */
  lemma SendOne(s: Sys, e: Sys, k: nat, times: seq<Time>, t: Tid, time: Time) returns (e': Sys)
    requires Sent(s, e, k, times) && |times| < s.cfg.N() && t in s.senders
    ensures Sent(s, e', k, times + [time])
  {
    var n: nat, j, msg := s.cfg.N(), |times|, Msg([], time);
    var x := IndexAt(n, k + j);
    PoolNext(e.pool, n, k, times, time);
    FreeNext(e.free, n, k, j, t);
    TxNext(e.tx, n, k, j);
    e' := SendsAlone(s, e, t, msg, x);
  }

  lemma SendsAlone(s: Sys, e: Sys, t: Tid, msg: Msg, x: nat) returns (e': Sys)
    requires Leads(s, e) && Calm(e) && t in e.senders && msg.payload == []
    requires e.free.consHead < e.free.prodTail && e.free.given[e.free.consHead] == x
    requires x < |e.h.loc| && x < |e.h.mid| && x < |e.pool.times| && x < |e.pool.sizes|
    requires e.tx.prodHead - e.tx.consTail < e.tx.Capacity()
    ensures Leads(s, e') && e'.free == Taking(e.free, 1) && e'.tx == Putting(e.tx, x)
    ensures e'.pool == e.pool.(times := e.pool.times[x := msg.txtime], sizes := e.pool.sizes[x := 0])
    ensures e'.senders == e.senders && e' == e.(free := e'.free, tx := e'.tx, pool := e'.pool, h := e'.h)
    ensures |e'.h.loc| == |e.h.loc| && |e'.h.mid| == |e.h.mid|
  {
    TakesIndex(s, e, t, msg, x);
    var e1 := ToFill(e, t, msg, x);
    FillsBuffer(s, e1, t, msg, x);
    var e2 := Loaded(e1, t, msg, x);
    PutsIndex(s, e2, e.tx, t, msg, x);
    e' := OnTx(e2, e.tx, t, msg, x);
    assert e'.senders == e.senders;
  }

  lemma SentNone(s: Sys)
    requires SysInit(s)
    ensures Sent(s, s, 0, [])
  {
    Start(s);
    InitRings(s);
    NoClaims(s.free);
    NoClaims(s.tx);
  }

  // ---------------------------------------------------------------- a deadline missed

  /** The loop is about to wait for the head, although a queued packet is due. */
  ghost predicate WaitsPastDue(e: Sys, now: Time) {
    && e.heap != [] && DecideOk(e, now)
    && TooEarly(e.heap[0].prio, now) && DoDecide(e, now) == e.(daemon := DPoll, clock := now)
    && exists n :: n in e.heap && Due(n.prio, now)
  }

  lemma SentThree(s: Sys, t: Tid, a: Time, b: Time, c: Time) returns (e: Sys)
    requires Sent(s, s, 0, []) && s.cfg.N() >= 3 && t in s.senders
    ensures Sent(s, e, 0, [a, b, c])
  {
    var e1 := SendOne(s, s, 0, [], t, a);
    assert [] + [a] == [a] && [a] + [b] == [a, b] && [a, b] + [c] == [a, b, c];
    var e2 := SendOne(s, e1, 0, [a], t, b);
    e := SendOne(s, e2, 0, [a, b], t, c);
  }

  /** Ready for a round of the loop with an empty tx ring and room in the free ring. */
  ghost predicate Ready(s: Sys, e: Sys) {
    && Leads(s, e) && e.clock == s.clock && e.cfg == s.cfg
    && Resting(e.free) && e.free.prodHead - e.free.consTail < e.free.Capacity() && e.cfg.daemon in e.free.threads
    && Resting(e.tx) && e.tx.consHead == e.tx.prodTail && e.cfg.daemon in e.tx.threads
    && |e.pool.sizes| > 0 && e.pool.sizes[0] == 0
  }

  lemma PollsThree(s: Sys, e: Sys, a: Time, b: Time, c: Time)
    requires Sent(s, e, 0, [a, b, c])
    ensures Ready(s, Batch(e, 3)) && Batch(e, 3).daemon == DTake([0, 1, 2], 0)
  {
    Bits.ModUnique(0, e.tx.size, 0, 0);
    PollsBurst(s, e, 3);
    DequeueEnds(e.tx, e.cfg.daemon, 3);
    assert e.tx.given[0..3] == [0, 1, 2];
    PoolSays(e.pool, s.cfg.N(), 0, [a, b, c], 0);
  }

  lemma QueuedThree(s: Sys, t: Tid, a: Time, b: Time, c: Time) returns (e: Sys)
    requires SysInit(s) && s.cfg.N() >= 3 && t in s.senders && a <= b && a <= c
    ensures Ready(s, e) && e.daemon == DLook && e.heap == [Node(a, 0), Node(b, 1), Node(c, 2)]
  {
    SentNone(s);
    var e0 := SentThree(s, t, a, b, c);
    PollsThree(s, e0, a, b, c);
    DeadlinesAt(e0.pool, s.cfg.N(), a, b, c);
    e := QueuesThree(s, Batch(e0, 3), a, b, c);
  }

  lemma DeadlinesAt(pool: Pool, n: nat, a: Time, b: Time, c: Time)
    requires PoolAt(pool, n, 0, [a, b, c])
    ensures |pool.times| >= 3 && pool.times[..3] == [a, b, c]
  {
    PoolSays(pool, n, 0, [a, b, c], 0);
    PoolSays(pool, n, 0, [a, b, c], 1);
    PoolSays(pool, n, 0, [a, b, c], 2);
  }

  /** As written, whatever the size of the rings (three indices are enough) and the time of the
      first packet, some run from set-up comes to wait while a queued packet is due. */
  lemma AsWrittenWaitsPastDeadline(s: Sys, t: Tid)
    requires SysInit(s) && !s.cfg.sound && s.cfg.N() >= 3 && t in s.senders && s.clock + 1000000 <= INT64_MAX
    ensures exists e :: Leads(s, e) && WaitsPastDue(e, s.clock)
  {
    var now := s.clock;
    var e1 := QueuedThree(s, t, now, now + 1000, now + 1000000);
    var e2 := SendsHead(s, e1, now);
    PollsNothing(s, e2);
    var e := e2.(daemon := DLook);
    MayDecide(s, e, now);
    LeftBehind(e1.heap);
    assert e.heap[1] in e.heap && Due(e.heap[1].prio, now);
  }

  /** From three entries in rising order, the middle one is left behind the last. */
  lemma LeftBehind(heap: seq<Node>)
    requires |heap| == 3 && heap[1].prio < heap[2].prio
    ensures ExtractMinAsWritten(heap) == [heap[2], heap[1]]
  {
    assert LastToRoot(heap) == [heap[2], heap[1]];
  }

  // ---------------------------------------------------------------- a foreign index polled

  /** One message polled and queued. */
  lemma PollsOne(s: Sys, e: Sys, k: nat, time: Time) returns (e': Sys)
    requires SysInit(s) && Sent(s, e, k, [time]) && k < s.cfg.N()
    ensures Leads(s, e') && e'.daemon == DLook && e'.heap == [Node(time, k)]
    ensures e' == e.(tx := Taking(e.tx, 1), daemon := e'.daemon, heap := e'.heap, h := e'.h)
  {
    Bits.ModUnique(k, e.tx.size, 0, k);
    PollsBurst(s, e, 1);
    var e1 := Batch(e, 1);
    assert e.tx.given[k..k + 1] == [k];
    PoolSays(e.pool, s.cfg.N(), k, [time], 0);
    var e2 := QueuesNext(s, e1, [k], 0);
    Go(s, e2, Queue);
    e' := Do(e2, Queue);
  }

  lemma FreeReturned(r: State, n: nat, k: nat)
    requires FreeAt(r, n, k, 1) && k < n
    ensures FreeAt(Putting(r, k), n, k + 1, 0)
  {
    PutRests(r, k);
  }

  lemma TxPolled(r: State, n: nat, k: nat, d: Tid)
    requires TxAt(r, n, k, 1) && d in r.threads
    ensures TxAt(Taking(r, 1), n, k + 1, 0)
  {
    DequeueEnds(r, d, 1);
  }

  lemma Lengths(s: Sys, e: Sys)
    requires SysInit(s) && Leads(s, e)
    ensures |e.h.loc| == |e.h.mid| == s.cfg.N()
  {
    LeadsKeeps(s, e);
  }

  /** One message all the way. */
  lemma Cycle(s: Sys, e: Sys, k: nat, t: Tid) returns (e': Sys)
    requires SysInit(s) && Sent(s, e, k, []) && k < s.cfg.N() && t in s.senders
    ensures Sent(s, e', k + 1, [])
  {
    var e1 := SendOne(s, e, k, [], t, s.clock);
    assert [] + [s.clock] == [s.clock];
    e' := Transmits(s, e1, k);
  }

  lemma Transmits(s: Sys, e: Sys, k: nat) returns (e': Sys)
    requires SysInit(s) && Sent(s, e, k, [s.clock]) && k < s.cfg.N()
    ensures Sent(s, e', k + 1, [])
  {
    var e1 := PollsOne(s, e, k, s.clock);
    PoolSays(e.pool, s.cfg.N(), k, [s.clock], 0);
    e' := SendsHead(s, e1, s.clock);
    Lengths(s, e');
    FreeReturned(e.free, s.cfg.N(), k);
    TxPolled(e.tx, s.cfg.N(), k, s.cfg.daemon);
  }

  lemma {:induction false} Cycles(s: Sys, k: nat, t: Tid) returns (e: Sys)
    requires SysInit(s) && k <= s.cfg.N() && t in s.senders
    ensures Sent(s, e, k, [])
  {
    if k == 0 {
      SentNone(s);
      e := s;
    } else {
      var b := Cycles(s, k - 1, t);
      e := Cycle(s, b, k - 1, t);
    }
  }

  /** The daemon holds in its batch an index that is in the free ring. */
  ghost predicate QueuesFreeIndex(e: Sys) {
    && e.daemon.DTake?
    && exists x, p ::
         && x in e.daemon.batch
         && e.free.consTail <= p < e.free.prodTail && p < |e.free.given| && e.free.given[p] == x
  }

  /** All indices but two are free, and the two are about to be polled across the end of the ring. */
  lemma TwoAcrossTheEnd(s: Sys, t: Tid) returns (e: Sys)
    requires SysInit(s) && s.cfg.N() >= 3 && t in s.senders
    ensures Sent(s, e, s.cfg.N(), [s.clock, s.clock])
  {
    var b := Cycles(s, s.cfg.N(), t);
    var c := SendOne(s, b, s.cfg.N(), [], t, s.clock);
    assert [] + [s.clock] == [s.clock];
    e := SendOne(s, c, s.cfg.N(), [s.clock], t, s.clock);
    assert [s.clock] + [s.clock] == [s.clock, s.clock];
  }

  /** ... the first of them read. */
  lemma OneReadAtTheEnd(s: Sys, t: Tid) returns (e: Sys, r: State)
    requires SysInit(s) && s.cfg.N() >= 3 && t in s.senders
    ensures Leads(s, e) && e.daemon == DPoll && e.cfg == s.cfg
    ensures TxAt(r, s.cfg.N(), s.cfg.N(), 2) && s.cfg.daemon in r.threads && e.tx == Reading(r, s.cfg.daemon, 2, 1)
    ensures FreeAt(e.free, s.cfg.N(), s.cfg.N(), 2)
  {
    var b := TwoAcrossTheEnd(s, t);
    r := b.tx;
    BurstClaimed(s, b, 2);
    Bits.ModUnique(r.consHead, r.size, 0, r.consHead);
    PollReads(s, b, r, 2, 1);
    e := b.(tx := Reading(r, s.cfg.daemon, 2, 1));
  }

  /** The read past the end, and the release, as written. */
  lemma ReadPastTheEnd(w: WideSys, r: State, n: nat)
    requires w.s.daemon == DPoll && n == w.s.cfg.N() >= 3 && TxAt(r, n, n, 2) && w.s.cfg.daemon in r.threads
    requires w.s.tx == Reading(r, w.s.cfg.daemon, 2, 1) && |w.behindTx| == n + 1 && w.behindTx[0] == 2
    requires FreeAt(w.s.free, n, n, 2)
    ensures CanWide(w, Poll(CopySlot)) && CanWide(DoWide(w, Poll(CopySlot)), Poll(Publish))
    ensures QueuesFreeIndex(DoWide(DoWide(w, Poll(CopySlot)), Poll(Publish)).s)
  {
    var d := w.s.cfg.daemon;
    Bits.ModUnique(n, r.size, 0, n);
    var w1 := DoWide(w, Poll(CopySlot));
    assert w1.s.tx.threads[d] == DeqCopy(n, 2, r.given[n..n + 1] + [2]);
    var e := DoWide(w1, Poll(Publish)).s;
    assert e.daemon.batch[1] == 2;
    assert 2 in e.daemon.batch && e.free.given[n + 2] == 2;
  }

  // ---------------------------------------------------------------- the run as written

  ghost predicate LeadsWide(w: WideSys, v: WideSys) {
    exists acts :: CanAllWide(w, acts) && AfterWide(w, acts) == v
  }

  lemma {:induction false} OneMoreWide(w: WideSys, acts: seq<Act>, act: Act)
    requires CanAllWide(w, acts) && CanWide(AfterWide(w, acts), act)
    ensures CanAllWide(w, acts + [act]) && AfterWide(w, acts + [act]) == DoWide(AfterWide(w, acts), act)
    decreases |acts|
  {
    if acts == [] {
      assert CanAllWide(DoWide(w, act), []);
      assert [act][1..] == [];
    } else {
      OneMoreWide(DoWide(w, acts[0]), acts[1..], act);
      assert (acts + [act])[1..] == acts[1..] + [act];
    }
  }

  lemma GoWide(w: WideSys, v: WideSys, act: Act)
    requires LeadsWide(w, v) && CanWide(v, act)
    ensures LeadsWide(w, DoWide(v, act))
  {
    var acts :| CanAllWide(w, acts) && AfterWide(w, acts) == v;
    OneMoreWide(w, acts, act);
  }

  /** A run that copies nothing past the end is a run as written. */
  lemma LeadsAsWritten(s: Sys, e: Sys, behind: seq<nat>)
    requires SysInit(s) && Leads(s, e) && |behind| == s.cfg.size
    ensures LeadsWide(WideSys(s, behind, behind), WideSys(e, behind, behind))
  {
    var acts :| CanAll(s, acts) && After(s, acts) == e && AllInside(s, acts);
    InitKeeps(s);
    InsideIsSame(s, acts);
    SameSysRunEnds(s, acts, behind, behind);
  }

  /** As written, whatever the size of the rings (three indices are enough), some run from set-up,
      with some contents of the memory behind the tx ring, has the daemon queue an index that is
      free at the same time. */
  lemma AsWrittenQueuesFreeIndex(s: Sys, t: Tid)
    requires SysInit(s) && s.cfg.N() >= 3 && t in s.senders
    ensures exists w, v :: LeadsWide(w, v) && w.s == s && QueuesFreeIndex(v.s)
  {
    var e, r := OneReadAtTheEnd(s, t);
    var behind: seq<nat> := seq(s.cfg.size, i => 2);
    var w, v := WideSys(s, behind, behind), WideSys(e, behind, behind);
    LeadsAsWritten(s, e, behind);
    ReadPastTheEnd(v, r, s.cfg.N());
    GoWide(w, v, Poll(CopySlot));
    GoWide(w, DoWide(v, Poll(CopySlot)), Poll(Publish));
  }
}
