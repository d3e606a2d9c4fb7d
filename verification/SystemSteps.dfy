/** The unchecked calls always have room, and every step of the system keeps its invariant. */
module SystemSteps {
  import opened RingMachine
  import opened RingTheorems
  import opened Heap
  import opened System
  import opened SystemInv
  import opened SystemPlace
  import opened SystemData
  import opened Wrappers

  // ---------------------------------------------------------------- room

  /** Distinct indices below `n`, none of them `x`, are fewer than `n`. */
  lemma {:induction false} Pigeonhole(v: seq<nat>, n: nat, x: nat)
    requires x < n
    requires forall i :: 0 <= i < |v| ==> v[i] < n && v[i] != x
    requires forall i, j :: 0 <= i < j < |v| ==> v[i] != v[j]
    ensures |v| < n
    decreases n
  {
    if v != [] {
      if x == n - 1 {
        Pigeonhole(v[1..], n - 1, v[0]);
      } else if i :| 0 <= i < |v| && v[i] == n - 1 {
        Pigeonhole(v[..i] + v[i + 1..], n - 1, x);
      } else {
        Pigeonhole(v, n - 1, x);
      }
    }
  }

  /** While an index is elsewhere, a ring window of distinct indices is not full. */
  lemma RingRoom(loc: seq<Loc>, w: Which, given: seq<nat>, lo: nat, hi: nat, x: nat)
    requires LocRing(loc, w, given, lo, hi) && x < |loc| && !OnRing(loc[x], w)
    ensures hi - lo < |loc|
  {
    Pigeonhole(given[lo..hi], |loc|, x);
  }

  lemma {:induction false} OccursTwice(s: seq<Node>, i: nat, j: nat)
    requires i < j < |s| && s[i] == s[j]
    ensures multiset(s)[s[i]] >= 2
  {
    assert s == s[..j] + [s[j]] + s[j + 1..];
    assert s[i] in s[..j];
  }

  lemma HeapRoom(loc: seq<Loc>, heap: seq<Node>, times: seq<I64>, x: nat)
    requires LocHeap(loc, multiset(heap), times) && x < |loc| && !loc[x].InHeap?
    ensures |heap| < |loc|
  {
    var v := seq(|heap|, i requires 0 <= i < |heap| => heap[i].data);
    forall i | 0 <= i < |v| ensures v[i] < |loc| && v[i] != x { assert heap[i] in multiset(heap); }
    forall i, j | 0 <= i < j < |v| ensures v[i] != v[j] {
      assert heap[i] in multiset(heap) && heap[j] in multiset(heap);
      if v[i] == v[j] { OccursTwice(heap, i, j); }
    }
    Pigeonhole(v, |loc|, x);
  }

  // ---------------------------------------------------------------- what a ring step does, seen from outside

  lemma RingEffect(r: State, t: Tid, a: Action)
    requires Counters(r) && Enabled(r, t, a) && PcOk(r, r.threads[t])
    ensures var r', pc := Apply(r, t, a), r.threads[t];
            && r'.size == r.size
            && (a == CasOk && pc.EnqCas? && |pc.vals| == 1 ==> Claimed(r, r', t, pc.vals[0]))
            && (a == Publish && pc.DeqCopy? ==> Released(r, r', t, pc.got) && 1 <= |pc.got| == pc.n)
            && (!(a == CasOk && pc.EnqCas?) && !(a == Publish && pc.DeqCopy?) ==> Quiet(r, r', t))
  {
  }

  /** How a call in progress moves on. */
  lemma DeqPc(r: State, t: Tid, a: Action, w: nat)
    requires Counters(r) && Enabled(r, t, a) && PcOk(r, r.threads[t])
    requires (Dequeueing(r.threads[t], w) && !Begins(a)) || a == BeginDeq(w, Variable)
    ensures var pc, pc' := r.threads[t], Apply(r, t, a).threads[t];
            && (pc' == Idle || Dequeueing(pc', w))
            && (a == Publish ==> pc.DeqCopy? && pc' == Idle)
            && (a.BeginDeq? ==> pc' != Idle)
            && !(a == CasOk && pc.EnqCas?)
  {
  }

  lemma EnqPc(r: State, t: Tid, a: Action, x: nat)
    requires Counters(r) && Enabled(r, t, a) && PcOk(r, r.threads[t])
    requires (Enqueueing(r.threads[t], x) && !Begins(a)) || a == BeginEnq([x], Variable)
    ensures var pc, pc' := r.threads[t], Apply(r, t, a).threads[t];
            && (pc' == Idle || Enqueueing(pc', x))
            && (a == CasOk ==> pc.EnqCas? && pc.vals == [x] && pc'.EnqCopy?)
            && (a == Publish ==> pc.EnqCopy? && pc' == Idle)
            && (a != CasOk && pc'.EnqCopy? ==> pc.EnqCopy?)
            && (pc.EnqCopy? && a != Publish ==> pc'.EnqCopy?)
            && (a.BeginEnq? ==> Enqueueing(pc', x) && !pc'.EnqCopy?)
            && (pc' == Idle && a != Publish ==> a == ReadTail && pc.EnqLoad?)
            && !pc.DeqCopy?
  {
  }

  lemma RingsAfter(s: Sys, t: Tid, a: Action)
    requires Rings(s)
    ensures Enabled(s.free, t, a) ==> PcOk(s.free, s.free.threads[t]) && Inv(Apply(s.free, t, a))
    ensures Enabled(s.tx, t, a) ==> PcOk(s.tx, s.tx.threads[t]) && Inv(Apply(s.tx, t, a))
  {
    if Enabled(s.free, t, a) { StepInv(s.free, t, a); }
    if Enabled(s.tx, t, a) { StepInv(s.tx, t, a); }
  }

  // ---------------------------------------------------------------- the unchecked calls

  /** A tx-ring enqueue never finds the ring full: the sender's own index is not in it. */
  lemma TxEnqueueHasRoom(s: Sys, t: Tid)
    requires Rings(s) && Place(s) && t in s.senders && s.senders[t].SPut?
    requires s.tx.threads[t].EnqLoad? && Enabled(s.tx, t, ReadTail)
    ensures Apply(s.tx, t, ReadTail).threads[t] != Idle
  {
    var x := s.senders[t].x;
    RingRoom(s.h.loc, TxRing, s.tx.given, s.tx.consTail, s.tx.prodHead, x);
    EnqueueGivesUpIffFull(s.tx, t);
  }

  /** A free-ring enqueue never finds the ring full: the index being returned is not in it. */
  lemma FreeEnqueueHasRoom(s: Sys)
    requires Rings(s) && Place(s) && s.daemon.DFree?
    requires s.free.threads[s.cfg.daemon].EnqLoad? && Enabled(s.free, s.cfg.daemon, ReadTail)
    ensures Apply(s.free, s.cfg.daemon, ReadTail).threads[s.cfg.daemon] != Idle
  {
    RingRoom(s.h.loc, FreeRing, s.free.given, s.free.consTail, s.free.prodHead, s.daemon.x);
    EnqueueGivesUpIffFull(s.free, s.cfg.daemon);
  }

  /** A queue insertion is never refused: the index being inserted is not in the heap. */
  lemma InsertionHasRoom(s: Sys)
    requires Place(s) && s.daemon.DTake? && s.daemon.i < |s.daemon.batch|
    ensures |s.heap| < s.cfg.N()
  {
    HeapRoom(s.h.loc, s.heap, s.pool.times, s.daemon.batch[s.daemon.i]);
  }

  // ---------------------------------------------------------------- every step

  lemma SendKeeps(s: Sys, t: Tid, msg: Msg)
    requires SysInv(s) && SendOk(s, t, msg)
    ensures SysInv(DoSend(s, t, msg))
  {
    var s', a := DoSend(s, t, msg), BeginDeq(1, Variable);
    RingsAfter(s, t, a);
    RingEffect(s.free, t, a);
    DeqPc(s.free, t, a, 1);
    MovePlace(s, s', t, SGet(msg));
    Same(s.tx.threads, t);
    MoveData(s, s', t, SGet(msg), s.tx.threads[t]);
  }

  lemma FreeStepRings(s: Sys, t: Tid, a: Action)
    requires Rings(s) && Place(s) && FreeStepOk(s, t, a)
    ensures Rings(DoFreeStep(s, t, a))
    ensures var pc, free := s.free.threads[t], Apply(s.free, t, a);
            && SenderPcs(s.senders[t], pc, s.tx.threads[t])
            && (a == Publish ==> pc.DeqCopy? && Released(s.free, free, t, pc.got))
            && (a != Publish ==> Quiet(s.free, free, t) && (free.threads[t] == Idle || Dequeueing(free.threads[t], 1)))
  {
    assert SenderPcs(s.senders[t], s.free.threads[t], s.tx.threads[t]);
    RingsAfter(s, t, a);
    RingEffect(s.free, t, a);
    DeqPc(s.free, t, a, 1);
  }

  lemma FreeStepKeeps(s: Sys, t: Tid, a: Action)
    requires SysInv(s) && FreeStepOk(s, t, a)
    ensures SysInv(DoFreeStep(s, t, a))
  {
    FreeStepRings(s, t, a);
    if a == Publish { TakeKeeps(s, t); } else { SeekKeeps(s, t, a); }
  }

  lemma TakeKeeps(s: Sys, t: Tid)
    requires Place(s) && Data(s) && FreeStepOk(s, t, Publish) && s.free.threads[t].DeqCopy?
    requires Released(s.free, Apply(s.free, t, Publish), t, s.free.threads[t].got)
    ensures Place(DoFreeStep(s, t, Publish)) && Data(DoFreeStep(s, t, Publish))
  {
    var s', x := DoFreeStep(s, t, Publish), s.free.threads[t].got[0];
    assert s.free.threads[t].got == [x];
    TakePlace(s, s', t, x);
    TakeData(s, s', t, x);
  }

  lemma SeekKeeps(s: Sys, t: Tid, a: Action)
    requires Place(s) && Data(s) && FreeStepOk(s, t, a) && a != Publish
    requires var free := Apply(s.free, t, a);
             Quiet(s.free, free, t) && (free.threads[t] == Idle || Dequeueing(free.threads[t], 1))
    requires s.tx.threads[t] == Idle
    ensures Place(DoFreeStep(s, t, a)) && Data(DoFreeStep(s, t, a))
  {
    var s' := DoFreeStep(s, t, a);
    assert SenderFilled(s.pool, s.senders[t], s.tx.threads[t]);
    Same(s.senders, t);
    Same(s.tx.threads, t);
    MovePlace(s, s', t, s'.senders[t]);
    MoveData(s, s', t, s'.senders[t], s.tx.threads[t]);
  }

  lemma StoreKeeps(s: Sys, s': Sys, t: Tid, x: nat, sn: Sender)
    requires Place(s) && Data(s) && t in s.senders && Holding(s.senders[t], s.tx.threads[t]) == Some(x)
    requires Quiet(s.tx, s'.tx, t) && OnlyAt(s.pool, s'.pool, x)
    requires s' == s.(pool := s'.pool, tx := s'.tx, senders := s.senders[t := sn])
    requires Holding(sn, s'.tx.threads[t]) == Some(x)
    requires SenderPcs(sn, s.free.threads[t], s'.tx.threads[t]) && SenderFilled(s'.pool, sn, s'.tx.threads[t])
    ensures Place(s') && Data(s')
  {
    StorePlace(s, s', t, sn, x);
    StoreData(s, s', t, x, sn);
  }

  lemma FillKeeps(s: Sys, t: Tid)
    requires SysInv(s) && WriteOk(s, t) && s.senders[t].SFill?
    ensures SysInv(DoWrite(s, t))
  {
    var s' := DoWrite(s, t);
    var SFill(msg, x, i) := s.senders[t];
    assert SenderPcs(s.senders[t], s.free.threads[t], s.tx.threads[t]);
    assert SenderFilled(s.pool, s.senders[t], s.tx.threads[t]);
    Same(s.tx.threads, t);
    if i < |msg.payload| { ByteStored(s.pool, msg, x, i); }
    StoreKeeps(s, s', t, x, s'.senders[t]);
  }

  lemma BeginTx(s: Sys, t: Tid, x: nat)
    requires Rings(s) && Enabled(s.tx, t, BeginEnq([x], Variable))
    ensures var tx := Apply(s.tx, t, BeginEnq([x], Variable));
            Inv(tx) && tx.size == s.tx.size && Quiet(s.tx, tx, t) && Enqueueing(tx.threads[t], x) &&
                !tx.threads[t].EnqCopy?
  {
    var a := BeginEnq([x], Variable);
    RingsAfter(s, t, a);
    RingEffect(s.tx, t, a);
    EnqPc(s.tx, t, a, x);
  }

  lemma BeginFree(s: Sys, t: Tid, x: nat)
    requires Rings(s) && Enabled(s.free, t, BeginEnq([x], Variable))
    ensures var free := Apply(s.free, t, BeginEnq([x], Variable));
            Inv(free) && free.size == s.free.size && Quiet(s.free, free, t) && Enqueueing(free.threads[t], x) &&
                !free.threads[t].EnqCopy?
  {
    var a := BeginEnq([x], Variable);
    RingsAfter(s, t, a);
    RingEffect(s.free, t, a);
    EnqPc(s.free, t, a, x);
  }

  lemma SizeStored(pool: Pool, msg: Msg, x: nat, pc: Pc)
    requires SenderFilled(pool, SSize(msg, x), Idle) && x < |pool.sizes|
    ensures var pool' := pool.(sizes := pool.sizes[x := |msg.payload|]);
            OnlyAt(pool, pool', x) && SenderFilled(pool', SPut(msg, x), pc)
  {
  }

  lemma SizeKeeps(s: Sys, t: Tid)
    requires SysInv(s) && WriteOk(s, t) && s.senders[t].SSize?
    ensures SysInv(DoWrite(s, t))
  {
    var s' := DoWrite(s, t);
    var SSize(msg, x) := s.senders[t];
    assert SenderPcs(s.senders[t], s.free.threads[t], s.tx.threads[t]);
    assert SenderFilled(s.pool, s.senders[t], s.tx.threads[t]);
    BeginTx(s, t, x);
    SizeStored(s.pool, msg, x, s'.tx.threads[t]);
    StoreKeeps(s, s', t, x, SPut(msg, x));
  }

  /** What a step of an enqueue of `x` that finds room does to the ring. */
  ghost predicate PutMoves(r: State, t: Tid, a: Action, x: nat)
    requires Enabled(r, t, a)
  {
    var pc, r' := r.threads[t], Apply(r, t, a);
    var pc' := r'.threads[t];
    && Inv(r') && r'.size == r.size
    && (a == CasOk ==> Claimed(r, r', t, x) && !pc.EnqCopy? && pc'.EnqCopy? && Enqueueing(pc', x))
    && (a != CasOk ==> Quiet(r, r', t) && (if a == Publish then pc.EnqCopy? && pc' == Idle
                                           else Enqueueing(pc', x) && pc'.EnqCopy? == pc.EnqCopy?))
  }

  lemma PutEffect(r: State, t: Tid, a: Action, x: nat)
    requires Inv(r) && Enabled(r, t, a) && Enqueueing(r.threads[t], x) && !Begins(a)
    requires a == ReadTail ==> Apply(r, t, a).threads[t] != Idle
    ensures PutMoves(r, t, a, x)
  {
    assert PcOk(r, r.threads[t]);
    StepInv(r, t, a);
    RingEffect(r, t, a);
    EnqPc(r, t, a, x);
  }

  lemma RingsReplaced(s: Sys, s': Sys)
    requires Rings(s) && s'.cfg == s.cfg
    requires Inv(s'.free) && s'.free.size == s.free.size && Inv(s'.tx) && s'.tx.size == s.tx.size
    ensures Rings(s')
  {
  }

  lemma SenderPuts(s: Sys, t: Tid)
    requires Place(s) && t in s.senders && s.senders[t].SPut?
    ensures t in s.free.threads && s.free.threads[t] == Idle
    ensures t in s.tx.threads && Enqueueing(s.tx.threads[t], s.senders[t].x)
  {
    assert SenderPcs(s.senders[t], s.free.threads[t], s.tx.threads[t]);
  }

  lemma PutFindsRoom(s: Sys, t: Tid)
    requires Rings(s) && Place(s) && TxStepOk(s, t, ReadTail)
    ensures Apply(s.tx, t, ReadTail).threads[t] != Idle
  {
    SenderPuts(s, t);
    TxEnqueueHasRoom(s, t);
  }

  lemma PutStep(s: Sys, t: Tid, a: Action)
    requires Rings(s) && Place(s) && TxStepOk(s, t, a)
    ensures PutMoves(s.tx, t, a, s.senders[t].x)
    ensures t in s.free.threads && s.free.threads[t] == Idle && Enqueueing(s.tx.threads[t], s.senders[t].x)
  {
    SenderPuts(s, t);
    if a == ReadTail { PutFindsRoom(s, t); }
    PutEffect(s.tx, t, a, s.senders[t].x);
  }

  lemma TxStepMoves(s: Sys, t: Tid, a: Action)
    requires TxStepOk(s, t, a)
    ensures var s' := DoTxStep(s, t, a);
            s'.tx == Apply(s.tx, t, a) && s'.free == s.free && s'.cfg == s.cfg
  {
  }

  lemma AcceptKeeps(s: Sys, t: Tid)
    requires Place(s) && Data(s) && TxStepOk(s, t, CasOk)
    requires var x, tx := s.senders[t].x, Apply(s.tx, t, CasOk);
             Claimed(s.tx, tx, t, x) && !s.tx.threads[t].EnqCopy? && tx.threads[t].EnqCopy? &&
                 Enqueueing(tx.threads[t], x)
    ensures Place(DoTxStep(s, t, CasOk)) && Data(DoTxStep(s, t, CasOk))
  {
    var s' := DoTxStep(s, t, CasOk);
    ClaimPlace(s, s', t, s.senders[t].x);
    AcceptData(s, s', t);
  }

  lemma TxQuietKeeps(s: Sys, t: Tid, a: Action)
    requires Place(s) && Data(s) && TxStepOk(s, t, a) && a != CasOk && PutMoves(s.tx, t, a, s.senders[t].x)
    requires t in s.free.threads && s.free.threads[t] == Idle && Enqueueing(s.tx.threads[t], s.senders[t].x)
    ensures Place(DoTxStep(s, t, a)) && Data(DoTxStep(s, t, a))
  {
    var s' := DoTxStep(s, t, a);
    assert SenderFilled(s.pool, s.senders[t], s.tx.threads[t]);
    Same(s.senders, t);
    TxQuietPlace(s, s', t, s'.senders[t]);
    MoveData(s, s', t, s'.senders[t], s'.tx.threads[t]);
  }

  lemma TxStepKeeps(s: Sys, t: Tid, a: Action)
    requires SysInv(s) && TxStepOk(s, t, a)
    ensures SysInv(DoTxStep(s, t, a))
  {
    PutStep(s, t, a);
    TxStepMoves(s, t, a);
    RingsReplaced(s, DoTxStep(s, t, a));
    if a == CasOk { AcceptKeeps(s, t); } else { TxQuietKeeps(s, t, a); }
  }

  lemma PollKeeps(s: Sys, a: Action)
    requires SysInv(s) && PollOk(s, a)
    ensures SysInv(DoPoll(s, a))
  {
    var s', d := DoPoll(s, a), s.cfg.daemon;
    RingsAfter(s, d, a);
    RingEffect(s.tx, d, a);
    DeqPc(s.tx, d, a, BURST);
    Same(s.free.threads, d);
    if a == Publish {
      LandPlace(s, s', s.tx.threads[d].got);
      LandData(s, s', s.tx.threads[d].got);
    } else {
      DaemonPlace(s, s', s'.daemon);
      DaemonData(s, s', s'.daemon);
    }
  }

  lemma QueueKeeps(s: Sys)
    requires SysInv(s) && QueueOk(s)
    ensures SysInv(DoQueue(s))
  {
    var s' := DoQueue(s);
    Same(s.free.threads, s.cfg.daemon);
    Same(s.tx.threads, s.cfg.daemon);
    if s.daemon.i == |s.daemon.batch| {
      DaemonPlace(s, s', DLook);
      DaemonData(s, s', DLook);
    } else {
      var x := s.daemon.batch[s.daemon.i];
      InsertionHasRoom(s);
      InsertCorrect(s.heap, s.pool.times[x], x);
      QueuePlace(s, s');
      QueueData(s, s', x);
    }
  }

  lemma ExtractedContents(sound: bool, heap: seq<Node>)
    requires heap != []
    ensures multiset(Extracted(sound, heap)) == multiset(heap) - multiset{heap[0]}
    ensures heap[0] in multiset(heap)
  {
    if sound { ExtractMinContents(heap); } else { ExtractMinAsWrittenContents(heap); }
  }

  lemma WaitKeeps(s: Sys, now: Time)
    requires Place(s) && Data(s) && DecideOk(s, now) && (s.heap == [] || s.heap[0].prio - now > DELTA)
    ensures Place(DoDecide(s, now)) && Data(DoDecide(s, now))
  {
    Same(s.free.threads, s.cfg.daemon);
    Same(s.tx.threads, s.cfg.daemon);
    DaemonPlace(s, DoDecide(s, now), DPoll);
    DaemonData(s, DoDecide(s, now), DPoll);
  }

  lemma LateKeeps(s: Sys, now: Time)
    requires Place(s) && Data(s) && DecideOk(s, now) && s.heap != [] && s.heap[0].prio < now
    requires s.cfg.recycle ==>
               var x := s.heap[0].data;
               var free := Apply(s.free, s.cfg.daemon, BeginEnq([x], Variable));
               Quiet(s.free, free, s.cfg.daemon) && Enqueueing(free.threads[s.cfg.daemon], x) &&
                   !free.threads[s.cfg.daemon].EnqCopy?
    ensures Place(DoDecide(s, now)) && Data(DoDecide(s, now))
  {
    if s.cfg.recycle { LateRecycled(s, now); } else { LateLost(s, now); }
  }

  lemma LateRecycled(s: Sys, now: Time)
    requires Place(s) && Data(s) && DecideOk(s, now) && s.heap != [] && s.heap[0].prio < now && s.cfg.recycle
    requires var x := s.heap[0].data;
             var free := Apply(s.free, s.cfg.daemon, BeginEnq([x], Variable));
             Quiet(s.free, free, s.cfg.daemon) && Enqueueing(free.threads[s.cfg.daemon], x) &&
                 !free.threads[s.cfg.daemon].EnqCopy?
    ensures Place(DoDecide(s, now)) && Data(DoDecide(s, now))
  {
    LateRecycledPlace(s, now);
    HeadIsMessage(s);
    DropData(s, DoDecide(s, now), now);
  }

  lemma LateRecycledPlace(s: Sys, now: Time)
    requires Place(s) && DecideOk(s, now) && s.heap != [] && s.heap[0].prio < now && s.cfg.recycle
    requires var x := s.heap[0].data;
             var free := Apply(s.free, s.cfg.daemon, BeginEnq([x], Variable));
             && Quiet(s.free, free, s.cfg.daemon)
             && Enqueueing(free.threads[s.cfg.daemon], x) && !free.threads[s.cfg.daemon].EnqCopy?
    ensures Place(DoDecide(s, now))
  {
    ExtractedContents(s.cfg.sound, s.heap);
    PickPlace(s, DoDecide(s, now), s.heap[0], Recycling);
  }

  lemma LateLost(s: Sys, now: Time)
    requires Place(s) && Data(s) && DecideOk(s, now) && s.heap != [] && s.heap[0].prio < now && !s.cfg.recycle
    ensures Place(DoDecide(s, now)) && Data(DoDecide(s, now))
  {
    var s' := DoDecide(s, now);
    Same(s.free.threads, s.cfg.daemon);
    ExtractedContents(s.cfg.sound, s.heap);
    PickPlace(s, s', s.heap[0], Lost(|s.h.lost|));
    DropData(s, s', now);
  }

  lemma PickKeeps(s: Sys, now: Time)
    requires Place(s) && Data(s) && DecideOk(s, now) && s.heap != [] && Due(s.heap[0].prio, now)
    ensures Place(DoDecide(s, now)) && Data(DoDecide(s, now))
  {
    PickedPlace(s, now);
    PickData(s, DoDecide(s, now), now);
  }

  lemma PickedPlace(s: Sys, now: Time)
    requires Place(s) && DecideOk(s, now) && s.heap != [] && Due(s.heap[0].prio, now)
    ensures Place(DoDecide(s, now))
  {
    Same(s.free.threads, s.cfg.daemon);
    ExtractedContents(s.cfg.sound, s.heap);
    PickPlace(s, DoDecide(s, now), s.heap[0], InHand);
  }

  lemma DecideKeeps(s: Sys, now: Time)
    requires SysInv(s) && DecideOk(s, now)
    ensures SysInv(DoDecide(s, now))
  {
    if s.heap == [] || s.heap[0].prio - now > DELTA {
      WaitKeeps(s, now);
    } else {
      BeginFree(s, s.cfg.daemon, s.heap[0].data);
      if s.heap[0].prio < now { LateKeeps(s, now); } else { PickKeeps(s, now); }
    }
  }

  lemma ReadKeeps(s: Sys)
    requires Place(s) && Data(s) && FetchOk(s) && (s.daemon.DSize? || |s.daemon.buf| < s.daemon.size)
    ensures Place(DoFetch(s)) && Data(DoFetch(s))
  {
    var s' := DoFetch(s);
    Same(s.free.threads, s.cfg.daemon);
    Same(s.tx.threads, s.cfg.daemon);
    DaemonPlace(s, s', s'.daemon);
    if s.daemon.DSize? { ReadSizeData(s, s'); } else { ReadByteData(s, s'); }
  }

  lemma TransmitKeeps(s: Sys)
    requires Place(s) && Data(s) && FetchOk(s) && s.daemon.DCopy? && |s.daemon.buf| >= s.daemon.size
    requires var x := s.daemon.x;
             var free := Apply(s.free, s.cfg.daemon, BeginEnq([x], Variable));
             Quiet(s.free, free, s.cfg.daemon) && Enqueueing(free.threads[s.cfg.daemon], x) &&
                 !free.threads[s.cfg.daemon].EnqCopy?
    ensures Place(DoFetch(s)) && Data(DoFetch(s))
  {
    SentPlace(s, DoFetch(s), s.daemon.x);
    TransmitData(s, DoFetch(s));
  }

  lemma FetchKeeps(s: Sys)
    requires SysInv(s) && FetchOk(s)
    ensures SysInv(DoFetch(s))
  {
    if s.daemon.DSize? || |s.daemon.buf| < s.daemon.size {
      ReadKeeps(s);
    } else {
      BeginFree(s, s.cfg.daemon, s.daemon.x);
      TransmitKeeps(s);
    }
  }

  lemma DaemonReturns(s: Sys)
    requires Place(s) && s.daemon.DFree?
    ensures s.cfg.daemon in s.free.threads && Enqueueing(s.free.threads[s.cfg.daemon], s.daemon.x)
    ensures s.cfg.daemon in s.tx.threads && s.tx.threads[s.cfg.daemon] == Idle
  {
  }

  lemma ReturnFindsRoom(s: Sys)
    requires Rings(s) && Place(s) && RecycleOk(s, ReadTail)
    ensures Apply(s.free, s.cfg.daemon, ReadTail).threads[s.cfg.daemon] != Idle
  {
    DaemonReturns(s);
    FreeEnqueueHasRoom(s);
  }

  lemma BackKeeps(s: Sys)
    requires Place(s) && Data(s) && RecycleOk(s, CasOk) && s.free.prodHead == |s.free.given|
    requires var x, free, d := s.daemon.x, Apply(s.free, s.cfg.daemon, CasOk), s.cfg.daemon;
             Claimed(s.free, free, d, x) && !s.free.threads[d].EnqCopy? && free.threads[d].EnqCopy? &&
                 Enqueueing(free.threads[d], x)
    ensures Place(DoRecycle(s, CasOk)) && Data(DoRecycle(s, CasOk))
  {
    BackPlace(s, DoRecycle(s, CasOk), s.daemon.x);
    BackData(s, DoRecycle(s, CasOk), s.daemon.x, InRing(FreeRing, s.free.prodHead));
  }

  lemma RecycleKeeps(s: Sys, a: Action)
    requires SysInv(s) && RecycleOk(s, a)
    ensures SysInv(DoRecycle(s, a))
  {
    ReturnStep(s, a);
    RecycleMoves(s, a);
    RingsReplaced(s, DoRecycle(s, a));
    if a == CasOk { BackKeeps(s); } else { ReturnKeeps(s, a); }
  }

  lemma RecycleMoves(s: Sys, a: Action)
    requires RecycleOk(s, a)
    ensures var s' := DoRecycle(s, a);
            s'.free == Apply(s.free, s.cfg.daemon, a) && s'.tx == s.tx && s'.cfg == s.cfg
  {
  }

  lemma ReturnStep(s: Sys, a: Action)
    requires Rings(s) && Place(s) && RecycleOk(s, a)
    ensures PutMoves(s.free, s.cfg.daemon, a, s.daemon.x)
    ensures s.cfg.daemon in s.tx.threads && s.tx.threads[s.cfg.daemon] == Idle && s.free.prodHead == |s.free.given|
  {
    DaemonReturns(s);
    if a == ReadTail { ReturnFindsRoom(s); }
    PutEffect(s.free, s.cfg.daemon, a, s.daemon.x);
  }

  lemma ReturnKeeps(s: Sys, a: Action)
    requires Place(s) && Data(s) && RecycleOk(s, a) && a != CasOk && s.tx.threads[s.cfg.daemon] == Idle
    requires var d := s.cfg.daemon;
             var x, pc, free := s.daemon.x, s.free.threads[d], Apply(s.free, d, a);
             Quiet(s.free, free, d) && (if a == Publish then pc.EnqCopy? && free.threads[d] == Idle
                                        else Enqueueing(free.threads[d], x) && free.threads[d].EnqCopy? == pc.EnqCopy?)
    ensures Place(DoRecycle(s, a)) && Data(DoRecycle(s, a))
  {
    var s' := DoRecycle(s, a);
    Same(s.tx.threads, s.cfg.daemon);
    DaemonPlace(s, s', s'.daemon);
    DaemonData(s, s', s'.daemon);
  }

  lemma WriteKeeps(s: Sys, t: Tid)
    requires SysInv(s) && WriteOk(s, t)
    ensures SysInv(DoWrite(s, t))
  {
    if s.senders[t].SFill? { FillKeeps(s, t); } else { SizeKeeps(s, t); }
  }

  /** Every step of every sender and of the daemon keeps the invariant. */
  lemma StepKeeps(s: Sys, act: Act)
    requires SysInv(s) && Can(s, act)
    ensures SysInv(Do(s, act))
  {
    match act
    case Send(t, msg) => SendKeeps(s, t, msg);
    case FreeStep(t, a) => FreeStepKeeps(s, t, a);
    case Write(t) => WriteKeeps(s, t);
    case TxStep(t, a) => TxStepKeeps(s, t, a);
    case Poll(a) => PollKeeps(s, a);
    case Queue => QueueKeeps(s);
    case Decide(now) => DecideKeeps(s, now);
    case Fetch => FetchKeeps(s);
    case Recycle(a) => RecycleKeeps(s, a);
  }
}
