/** Runs in which one thread moves at a time, from a system at rest: a sendmsg, the polling of a
    burst, a transmission. */
module SystemAlone {
  import opened RingMachine
  import opened RingAlone
  import opened RingAsWritten
  import opened Heap
  import opened System
  import opened SystemInv
  import opened SystemTheorems
  import opened SystemAsWritten
  import opened SystemBag

  // ---------------------------------------------------------------- reaching a state

  /** Some run leads from `s` to `e`, as written too: it copies nothing past the end of a ring. */
  ghost predicate Leads(s: Sys, e: Sys) {
    exists acts :: CanAll(s, acts) && After(s, acts) == e && AllInside(s, acts)
  }

  lemma {:induction false} OneMore(s: Sys, acts: seq<Act>, act: Act)
    requires CanAll(s, acts) && Can(After(s, acts), act)
    ensures CanAll(s, acts + [act]) && After(s, acts + [act]) == Do(After(s, acts), act)
    ensures AllInside(s, acts + [act]) <==> AllInside(s, acts) && PollInside(After(s, acts), act)
    decreases |acts|
  {
    if acts == [] {
      assert CanAll(Do(s, act), []);
      assert [act][1..] == [];
    } else {
      OneMore(Do(s, acts[0]), acts[1..], act);
      assert (acts + [act])[1..] == acts[1..] + [act];
    }
  }

  lemma Start(s: Sys)
    ensures Leads(s, s)
  {
    assert CanAll(s, []) && After(s, []) == s && AllInside(s, []);
  }

  lemma Go(s: Sys, e: Sys, act: Act)
    requires Leads(s, e) && Can(e, act) && PollInside(e, act)
    ensures Leads(s, Do(e, act))
  {
    var acts :| CanAll(s, acts) && After(s, acts) == e && AllInside(s, acts);
    OneMore(s, acts, act);
  }

  lemma LeadsKeeps(s: Sys, e: Sys)
    requires SysInit(s) && Leads(s, e)
    ensures SysInv(e) && e.cfg == s.cfg
  {
    var acts :| CanAll(s, acts) && After(s, acts) == e && AllInside(s, acts);
    Reachable(s, acts);
  }

  /** Nothing is underway between the rings and the queue. */
  ghost predicate Calm(e: Sys) {
    && Resting(e.free) && Resting(e.tx)
    && e.cfg.daemon in e.tx.threads && e.cfg.daemon in e.free.threads
    && e.senders.Keys <= e.tx.threads.Keys && e.senders.Keys <= e.free.threads.Keys
    && e.daemon == DPoll
    && forall t | t in e.senders :: e.senders[t] == SIdle
  }

  // ---------------------------------------------------------------- a sendmsg

  function ToFill(e: Sys, t: Tid, msg: Msg, x: nat): Sys
    requires x < |e.h.loc| && e.free.consHead < |e.free.given|
  {
    e.(free := Taking(e.free, 1), senders := e.senders[t := SFill(msg, x, 0)],
        h := e.h.(loc := e.h.loc[x := AtSender(t)]))
  }

  /** A thread's place overwritten. */
  lemma SenderTwice(senders: map<Tid, Sender>, t: Tid, a: Sender, b: Sender)
    ensures senders[t := a][t := b] == senders[t := b]
    ensures t in senders && senders[t] == b ==> senders[t := a][t := b] == senders
  {
  }

  lemma TakesIndex(s: Sys, e: Sys, t: Tid, msg: Msg, x: nat)
    requires Leads(s, e) && Calm(e) && t in e.senders && msg.payload == []
    requires e.free.consHead < e.free.prodTail && e.free.given[e.free.consHead] == x < |e.h.loc|
    ensures Leads(s, ToFill(e, t, msg, x))
  {
    DequeueStarts(e.free, t, 1);
    Go(s, e, Send(t, msg));
    var e1 := e.(senders := e.senders[t := SGet(msg)], free := Stand(e.free, t, DeqLoad(1, Variable, e.free.consHead)));
    ReadsIndex(s, e1, e.free, t, msg, x);
    SenderTwice(e.senders, t, SGet(msg), SFill(msg, x, 0));
  }

  lemma ReadsIndex(s: Sys, e: Sys, r: State, t: Tid, msg: Msg, x: nat)
    requires Leads(s, e) && t in e.senders && e.senders[t] == SGet(msg)
    requires Resting(r) && t in r.threads && e.free == Stand(r, t, DeqLoad(1, Variable, r.consHead))
    requires r.consHead < r.prodTail && r.given[r.consHead] == x < |e.h.loc|
    ensures Leads(s, e.(free := Taking(r, 1), senders := e.senders[t := SFill(msg, x, 0)],
            h := e.h.(loc := e.h.loc[x := AtSender(t)])))
  {
    DequeueEnds(r, t, 1);
    IndexRead(s, e, r, t);
    IndexTaken(s, e.(free := Reading(r, t, 1, 1)), t, msg, x, Taking(r, 1));
  }

  lemma IndexRead(s: Sys, e: Sys, r: State, t: Tid)
    requires Leads(s, e) && t in e.senders && e.senders[t].SGet?
    requires Resting(r) && t in r.threads && e.free == Stand(r, t, DeqLoad(1, Variable, r.consHead)) &&
             r.consHead < r.prodTail
    ensures Leads(s, e.(free := Reading(r, t, 1, 1)))
  {
    GetSteps(r, t);
    var cas := Stand(r, t, DeqCas(1, Variable, r.consHead, 1));
    FreeMoves(s, e, t, ReadTail, cas);
    FreeMoves(s, e.(free := cas), t, CasOk, Reading(r, t, 1, 0));
    FreeMoves(s, e.(free := Reading(r, t, 1, 0)), t, CopySlot, Reading(r, t, 1, 1));
  }

  /** A ring step inside a sender's dequeue. */
  lemma FreeMoves(s: Sys, e: Sys, t: Tid, a: Action, r: State)
    requires Leads(s, e) && t in e.senders && e.senders[t].SGet? && !Begins(a) && a != Publish
    requires Enabled(e.free, t, a) && Apply(e.free, t, a) == r && t in r.threads && r.threads[t] != Idle
    ensures Leads(s, e.(free := r))
  {
    Go(s, e, FreeStep(t, a));
  }

  lemma IndexTaken(s: Sys, e: Sys, t: Tid, msg: Msg, x: nat, r: State)
    requires Leads(s, e) && t in e.senders && e.senders[t] == SGet(msg)
    requires Enabled(e.free, t, Publish) && Apply(e.free, t, Publish) == r
    requires e.free.threads[t].DeqCopy? && e.free.threads[t].got == [x] && x < |e.h.loc|
    ensures Leads(s, e.(free := r, senders := e.senders[t := SFill(msg, x, 0)],
            h := e.h.(loc := e.h.loc[x := AtSender(t)])))
  {
    Go(s, e, FreeStep(t, Publish));
  }

  function Loaded(e: Sys, t: Tid, msg: Msg, x: nat): Sys
    requires x < |e.pool.times| && x < |e.pool.sizes|
  {
    e.(pool := e.pool.(times := e.pool.times[x := msg.txtime], sizes := e.pool.sizes[x := 0]),
       senders := e.senders[t := SPut(msg, x)],
       tx := Stand(e.tx, t, EnqLoad([x], Variable, e.tx.prodHead)))
  }

  lemma FillsBuffer(s: Sys, e: Sys, t: Tid, msg: Msg, x: nat)
    requires Leads(s, e) && t in e.senders && e.senders[t] == SFill(msg, x, 0) && msg.payload == []
    requires x < |e.pool.times| && x < |e.pool.sizes|
    requires Resting(e.tx) && t in e.tx.threads && e.tx.prodHead - e.tx.consTail < e.tx.Capacity()
    ensures Leads(s, Loaded(e, t, msg, x))
  {
    EnqueueStarts(e.tx, t, x);
    Go(s, e, Write(t));
    var e1 := e.(pool := e.pool.(times := e.pool.times[x := msg.txtime]), senders := e.senders[t := SSize(msg, x)]);
    Go(s, e1, Write(t));
    SenderTwice(e.senders, t, SSize(msg, x), SPut(msg, x));
  }

  /** The index on the tx ring and the message accepted; `r` is the tx ring before the call. */
  function OnTx(e: Sys, r: State, t: Tid, msg: Msg, x: nat): Sys
    requires r.size == |r.ring| > 0 && x < |e.h.loc| && x < |e.h.mid|
  {
    e.(tx := Putting(r, x), senders := e.senders[t := SIdle],
       h := e.h.(loc := e.h.loc[x := InRing(TxRing, r.prodHead)],
                 accepted := e.h.accepted + [msg], mid := e.h.mid[x := |e.h.accepted|], fate := e.h.fate + [Pending]))
  }

  lemma PutsIndex(s: Sys, e: Sys, r: State, t: Tid, msg: Msg, x: nat)
    requires Leads(s, e) && t in e.senders && e.senders[t] == SPut(msg, x)
    requires Resting(r) && t in r.threads && r.prodHead - r.consTail < r.Capacity()
    requires e.tx == Stand(r, t, EnqLoad([x], Variable, r.prodHead)) && x < |e.h.loc| && x < |e.h.mid|
    ensures Leads(s, OnTx(e, r, t, msg, x))
  {
    EnqueueStarts(r, t, x);
    EnqueueClaims(r, t, x);
    EnqueueEnds(r, t, x);
    TxMoves(s, e, t, ReadTail, Stand(r, t, EnqCas([x], Variable, r.prodHead, 1)));
    var e1 := e.(tx := Stand(r, t, EnqCas([x], Variable, r.prodHead, 1)));
    Claims(s, e1, t, msg, x, Stand(Offering(r, x), t, EnqCopy([x], r.prodHead, 0)));
    var e2 := Accepting(e1, msg, x, Stand(Offering(r, x), t, EnqCopy([x], r.prodHead, 0)));
    TxMoves(s, e2, t, CopySlot, Stand(Storing(r, x), t, EnqCopy([x], r.prodHead, 1)));
    TxEnds(s, e2.(tx := Stand(Storing(r, x), t, EnqCopy([x], r.prodHead, 1))), t, Putting(r, x));
  }

  /** A ring step inside a sender's enqueue. */
  lemma TxMoves(s: Sys, e: Sys, t: Tid, a: Action, r: State)
    requires Leads(s, e) && t in e.senders && e.senders[t].SPut? && !Begins(a) && a != CasOk && a != Publish
    requires e.senders[t].x < |e.h.loc| && e.senders[t].x < |e.h.mid|
    requires Enabled(e.tx, t, a) && Apply(e.tx, t, a) == r && t in r.threads && r.threads[t] != Idle
    ensures Leads(s, e.(tx := r))
  {
    Go(s, e, TxStep(t, a));
  }

  /** The message accepted. */
  function Accepting(e: Sys, msg: Msg, x: nat, r: State): Sys
    requires x < |e.h.loc| && x < |e.h.mid|
  {
    e.(tx := r, h := e.h.(loc := e.h.loc[x := InRing(TxRing, e.tx.prodHead)],
                          accepted := e.h.accepted + [msg], mid := e.h.mid[x := |e.h.accepted|],
                              fate := e.h.fate + [Pending]))
  }

  lemma Claims(s: Sys, e: Sys, t: Tid, msg: Msg, x: nat, r: State)
    requires Leads(s, e) && t in e.senders && e.senders[t] == SPut(msg, x) && x < |e.h.loc| && x < |e.h.mid|
    requires Enabled(e.tx, t, CasOk) && Apply(e.tx, t, CasOk) == r
    ensures Leads(s, Accepting(e, msg, x, r))
  {
    Go(s, e, TxStep(t, CasOk));
  }

  lemma TxEnds(s: Sys, e: Sys, t: Tid, r: State)
    requires Leads(s, e) && t in e.senders && e.senders[t].SPut? && e.senders[t].x < |e.h.loc| &&
             e.senders[t].x < |e.h.mid|
    requires Enabled(e.tx, t, Publish) && Apply(e.tx, t, Publish) == r
    ensures Leads(s, e.(tx := r, senders := e.senders[t := SIdle]))
  {
    Go(s, e, TxStep(t, Publish));
  }

  // ---------------------------------------------------------------- the daemon's side

  /** A ring step inside the daemon's dequeue. */
  lemma PollMoves(s: Sys, e: Sys, a: Action, r: State)
    requires Leads(s, e) && e.daemon == DPoll && e.cfg.daemon in e.tx.threads && a != Publish
    requires if e.tx.threads[e.cfg.daemon].Idle? then a == BeginDeq(BURST, Variable) else !Begins(a)
    requires Enabled(e.tx, e.cfg.daemon, a) && Apply(e.tx, e.cfg.daemon, a) == r && e.cfg.daemon in r.threads
    requires Inside(e.tx, e.cfg.daemon, a)
    ensures Leads(s, e.(tx := r, daemon := if r.threads[e.cfg.daemon] == Idle then DLook else DPoll))
  {
    Go(s, e, Poll(a));
  }

  /** Polling an empty ring. */
  lemma PollsNothing(s: Sys, e: Sys)
    requires Leads(s, e) && e.daemon == DPoll && e.cfg.daemon in e.tx.threads && Resting(e.tx) &&
             e.tx.consHead == e.tx.prodTail
    ensures Leads(s, e.(daemon := DLook))
  {
    var d := e.cfg.daemon;
    var load := Stand(e.tx, d, DeqLoad(BURST, Variable, e.tx.consHead));
    DequeueStarts(e.tx, d, BURST);
    PollMoves(s, e, BeginDeq(BURST, Variable), load);
    PollMoves(s, e.(tx := load), ReadTail, e.tx);
  }

  lemma {:induction false} PollReads(s: Sys, e: Sys, r: State, n: nat, i: nat)
    requires Resting(r) && e.cfg.daemon in r.threads && i <= n <= r.prodTail - r.consHead && e.daemon == DPoll
    requires r.consHead % r.size + i <= r.size
    requires Leads(s, e.(tx := Reading(r, e.cfg.daemon, n, 0)))
    ensures Leads(s, e.(tx := Reading(r, e.cfg.daemon, n, i)))
  {
    if i > 0 {
      PollReads(s, e, r, n, i - 1);
      DequeueReads(r, e.cfg.daemon, n, i - 1);
      PollMoves(s, e.(tx := Reading(r, e.cfg.daemon, n, i - 1)), CopySlot, Reading(r, e.cfg.daemon, n, i));
    }
  }

  function Batch(e: Sys, n: nat): Sys
    requires e.tx.consHead + n <= |e.tx.given|
  {
    e.(tx := Taking(e.tx, n),
       daemon := DTake(e.tx.given[e.tx.consHead..e.tx.consHead + n], 0),
       h := e.h.(loc := Landed(e.h.loc, e.tx.consHead, e.tx.consHead + n)))
  }

  lemma BurstClaimed(s: Sys, e: Sys, n: nat)
    requires Leads(s, e) && e.daemon == DPoll && e.cfg.daemon in e.tx.threads && Resting(e.tx)
    requires 1 <= n == e.tx.prodTail - e.tx.consHead <= BURST
    ensures Leads(s, e.(tx := Reading(e.tx, e.cfg.daemon, n, 0)))
  {
    var d, h := e.cfg.daemon, e.tx.consHead;
    var load, cas := Stand(e.tx, d, DeqLoad(BURST, Variable, h)), Stand(e.tx, d, DeqCas(BURST, Variable, h, n));
    DequeueStarts(e.tx, d, BURST);
    DequeueClaims(e.tx, d, BURST, n);
    PollMoves(s, e, BeginDeq(BURST, Variable), load);
    PollMoves(s, e.(tx := load), ReadTail, cas);
    assert e.tx.given[h..h + 0] == [];
    PollMoves(s, e.(tx := cas), CasOk, Reading(e.tx, d, n, 0));
  }

  /** Polling takes all there is, up to a burst. */
  lemma PollsBurst(s: Sys, e: Sys, n: nat)
    requires Leads(s, e) && e.daemon == DPoll && e.cfg.daemon in e.tx.threads && Resting(e.tx)
    requires 1 <= n == e.tx.prodTail - e.tx.consHead <= BURST && e.tx.consHead % e.tx.size + n <= e.tx.size
    ensures Leads(s, Batch(e, n))
  {
    BurstRead(s, e, n);
    PollEnds(s, e, e.tx, n);
  }

  lemma BurstRead(s: Sys, e: Sys, n: nat)
    requires Leads(s, e) && e.daemon == DPoll && e.cfg.daemon in e.tx.threads && Resting(e.tx)
    requires 1 <= n == e.tx.prodTail - e.tx.consHead <= BURST && e.tx.consHead % e.tx.size + n <= e.tx.size
    ensures Leads(s, e.(tx := Reading(e.tx, e.cfg.daemon, n, n)))
  {
    BurstClaimed(s, e, n);
    PollReads(s, e, e.tx, n, n);
  }

  lemma PollEnds(s: Sys, e: Sys, r: State, n: nat)
    requires Resting(r) && e.cfg.daemon in r.threads && 1 <= n <= r.prodTail - r.consHead && e.daemon == DPoll
    requires Leads(s, e.(tx := Reading(r, e.cfg.daemon, n, n)))
    ensures Leads(s, e.(tx := Taking(r, n),
                        daemon := DTake(r.given[r.consHead..r.consHead + n], 0),
                        h := e.h.(loc := Landed(e.h.loc, r.consHead, r.consHead + n))))
  {
    DequeueEnds(r, e.cfg.daemon, n);
    Go(s, e.(tx := Reading(r, e.cfg.daemon, n, n)), Poll(Publish));
  }

  /** Apart from the daemon, the queue and the histories, nothing differs. */
  ghost predicate SameOutside(e: Sys, e': Sys) {
    e' == e.(daemon := e'.daemon, heap := e'.heap, h := e'.h)
  }

  /** A priority not below its parent's stays where it is put. */
  lemma InsertAtEnd(s: seq<Node>, prio: I64, data: nat)
    requires s == [] || s[Parent(|s|)].prio <= prio
    ensures Insert(s, prio, data) == s + [Node(prio, data)]
  {
    var t := s + [Node(INT64_MAX, data)];
    assert t[|s| := t[|s|].(prio := prio)] == s + [Node(prio, data)];
  }

  lemma QueuesNext(s: Sys, e: Sys, batch: seq<nat>, i: nat) returns (e': Sys)
    requires Leads(s, e) && e.daemon == DTake(batch, i) && i < |batch| && |e.heap| != e.cfg.N()
    requires batch[i] < |e.pool.times| && batch[i] < |e.h.loc|
    requires e.heap == [] || e.heap[Parent(|e.heap|)].prio <= e.pool.times[batch[i]]
    ensures Leads(s, e') && SameOutside(e, e') && e'.daemon == DTake(batch, i + 1) && |e'.h.loc| == |e.h.loc|
    ensures e'.heap == e.heap + [Node(e.pool.times[batch[i]], batch[i])]
  {
    Go(s, e, Queue);
    e' := Do(e, Queue);
    InsertAtEnd(e.heap, e.pool.times[batch[i]], batch[i]);
  }

  /** Three indices with rising deadlines go into the queue in that order. */
  lemma QueuesThree(s: Sys, e: Sys, a: Time, b: Time, c: Time) returns (e': Sys)
    requires Leads(s, e) && e.daemon == DTake([0, 1, 2], 0) && e.heap == [] && e.cfg.N() >= 3
    requires |e.h.loc| >= 3 && |e.pool.times| >= 3 && e.pool.times[..3] == [a, b, c] && a <= b && a <= c
    ensures Leads(s, e') && SameOutside(e, e') && e'.daemon == DLook
    ensures e'.heap == [Node(a, 0), Node(b, 1), Node(c, 2)]
  {
    assert e.pool.times[0] == a && e.pool.times[1] == b && e.pool.times[2] == c;
    var e1 := QueuesNext(s, e, [0, 1, 2], 0);
    var e2 := QueuesNext(s, e1, [0, 1, 2], 1);
    var e3 := QueuesNext(s, e2, [0, 1, 2], 2);
    Go(s, e3, Queue);
    e' := Do(e3, Queue);
  }

  /** A ring step inside the daemon's return of index `x`. */
  lemma BackMoves(s: Sys, e: Sys, a: Action, r: State) returns (e': Sys)
    requires Leads(s, e) && e.daemon.DFree? && e.daemon.x < |e.h.loc| && !Begins(a)
    requires Enabled(e.free, e.cfg.daemon, a) && Apply(e.free, e.cfg.daemon, a) == r && e.cfg.daemon in r.threads
    requires r.threads[e.cfg.daemon] == Idle <==> a == Publish
    ensures Leads(s, e') && SameOutside(e.(free := r), e') && e'.heap == e.heap && |e'.h.loc| == |e.h.loc|
    ensures e'.daemon == if a == Publish then DPoll else e.daemon
  {
    Go(s, e, Recycle(a));
    e' := Do(e, Recycle(a));
  }

  /** The return of an index to a free ring with room. */
  lemma GivesBack(s: Sys, e: Sys, r: State, x: nat) returns (e': Sys)
    requires Leads(s, e) && e.daemon == DFree(x) && x < |e.h.loc|
    requires Resting(r) && e.cfg.daemon in r.threads && r.prodHead - r.consTail < r.Capacity()
    requires e.free == Stand(r, e.cfg.daemon, EnqLoad([x], Variable, r.prodHead))
    ensures Leads(s, e') && SameOutside(e.(free := Putting(r, x)), e') && e'.heap == e.heap && e'.daemon == DPoll
  {
    var d := e.cfg.daemon;
    EnqueueStarts(r, d, x);
    EnqueueClaims(r, d, x);
    EnqueueEnds(r, d, x);
    var e1 := BackMoves(s, e, ReadTail, Stand(r, d, EnqCas([x], Variable, r.prodHead, 1)));
    var e2 := BackMoves(s, e1, CasOk, Stand(Offering(r, x), d, EnqCopy([x], r.prodHead, 0)));
    var e3 := BackMoves(s, e2, CopySlot, Stand(Storing(r, x), d, EnqCopy([x], r.prodHead, 1)));
    e' := BackMoves(s, e3, Publish, Putting(r, x));
  }

  /** An empty packet picked at its very time is sent and its index returned. */
  lemma SendsHead(s: Sys, e: Sys, now: Time) returns (e': Sys)
    requires SysInit(s) && Leads(s, e) && e.daemon == DLook && e.clock <= now && e.heap != [] && e.heap[0].prio == now
    requires Resting(e.free) && e.cfg.daemon in e.free.threads && e.free.prodHead - e.free.consTail < e.free.Capacity()
    requires e.heap[0].data < |e.pool.sizes| && e.pool.sizes[e.heap[0].data] == 0
    ensures Leads(s, e') && e'.heap == Extracted(e.cfg.sound, e.heap) && e'.daemon == DPoll
    ensures SameOutside(e.(free := Putting(e.free, e.heap[0].data), clock := now), e')
  {
    MayDecide(s, e, now);
    Go(s, e, Decide(now));
    var e1 := SendsPicked(s, Do(e, Decide(now)), now, e.heap[0].data);
    e' := GivesBack(s, e1, e.free, e.heap[0].data);
  }

  lemma SendsPicked(s: Sys, e: Sys, now: Time, x: nat) returns (e': Sys)
    requires SysInit(s) && Leads(s, e) && e.daemon == DSize(x, now, now)
    requires Resting(e.free) && e.cfg.daemon in e.free.threads && e.free.prodHead - e.free.consTail < e.free.Capacity()
    requires x < |e.pool.sizes| && e.pool.sizes[x] == 0
    ensures Leads(s, e') && x < |e'.h.loc|
    ensures SameOutside(e.(free := Stand(e.free, e.cfg.daemon, EnqLoad([x], Variable, e.free.prodHead))), e')
    ensures e'.heap == e.heap && e'.daemon == DFree(x)
  {
    Go(s, e, Fetch);
    var e1 := e.(daemon := DCopy(x, now, now, 0, []));
    MayFetch(s, e1);
    Go(s, e1, Fetch);
    e' := Do(e1, Fetch);
    EnqueueStarts(e.free, e.cfg.daemon, x);
  }

  lemma MayDecide(s: Sys, e: Sys, now: Time)
    requires SysInit(s) && Leads(s, e) && e.daemon == DLook && e.clock <= now
    ensures DecideOk(e, now)
  {
    LeadsKeeps(s, e);
    DaemonGuards(e, now);
  }

  lemma MayFetch(s: Sys, e: Sys)
    requires SysInit(s) && Leads(s, e) && InDaemon(e.daemon).Some?
    ensures FetchOk(e)
  {
    LeadsKeeps(s, e);
    DaemonGuards(e, e.clock);
  }
}
