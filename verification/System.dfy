/** The path of a packet: sendmsg in any number of application threads (libktsn.c), the free and
    tx rings, and the scheduler loop of the daemon (ktsnd.c), as one transition system. The steps are
    those of the rings, the senders' stores into the buffer pools, and the daemon's loads from them.
    The load of a ring head that begins an enqueue is part of the step before it. Before the
    daemon's enqueue that step touches no other shared memory. Before a sender's it is the store of
    the size, into an entry nobody else looks at until the index is handed on
    (SystemBag.OwnStoreUnseen), so the store may as well be made at the moment of the load. */
module System {
  import opened RingMachine
  import opened Heap

  const MBUF: nat := 2048       // bytes in a struct kt_mbuf
  const BURST: nat := 8         // entries the daemon takes at most per round
  const DELTA: int := 50000     // tx_delta_ns

  type Byte = x: int | 0 <= x < 256
  type Time = x: int | 0 <= x <= INT64_MAX

  datatype Msg = Msg(payload: seq<Byte>, txtime: Time)

  /** `recycle`: late packets give their index back (as written they do not).
      `sound`: heapify as intended (as written it loses the order). */
  datatype Config = Config(size: nat, daemon: Tid, recycle: bool, sound: bool) {
    function N(): int { size - 1 }
  }

  datatype Sender =
    | SIdle
    | SGet(msg: Msg)                      // dequeueing an index from the free ring
    | SFill(msg: Msg, x: nat, i: nat)     // copying byte i of the payload, then storing txtime
    | SSize(msg: Msg, x: nat)             // storing size
    | SPut(msg: Msg, x: nat)              // enqueueing the index to the tx ring

  datatype Daemon =
    | DPoll                                                       // dequeueing a burst from the tx ring
    | DTake(batch: seq<nat>, i: nat)                              // queueing batch[i..]
    | DLook                                                       // looking at the head of the queue
    | DSize(x: nat, prio: I64, now: Time)                         // picked x: loading its size
    | DCopy(x: nat, prio: I64, now: Time, size: nat, buf: seq<Byte>)  // copying the payload out
    | DFree(x: nat)                                               // enqueueing x to the free ring

  datatype Which = FreeRing | TxRing

  /** Where an index is. */
  datatype Loc =
    | InRing(w: Which, p: nat) | AtSender(t: Tid) | InBatch(j: nat)
    | InHeap | InHand | Recycling | Lost(j: nat)

  predicate OnRing(l: Loc, w: Which) { l.InRing? && l.w == w }

  datatype Fate = Pending | SentAt(j: nat) | DroppedAt(j: nat)

  datatype Packet = Packet(id: nat, payload: seq<Byte>, txtime: I64, now: Time)
  datatype Drop = Drop(id: nat, txtime: I64, now: Time)

  datatype Pool = Pool(mem: seq<Byte>, times: seq<I64>, sizes: seq<nat>)

  /** History: read by no step. A message's id is its position in the tx ring. */
  datatype Hist = Hist(
    loc: seq<Loc>,
    accepted: seq<Msg>, mid: seq<nat>, fate: seq<Fate>,
    sent: seq<Packet>, dropped: seq<Drop>, lost: seq<nat>,
    since: seq<I64>)          // priorities extracted since the last insertion

  datatype Sys = Sys(
    cfg: Config,
    free: State, tx: State,
    senders: map<Tid, Sender>, daemon: Daemon,
    heap: seq<Node>, clock: Time,
    pool: Pool, h: Hist)

  datatype Act =
    | Send(t: Tid, msg: Msg)
    | FreeStep(t: Tid, a: Action)
    | Write(t: Tid)
    | TxStep(t: Tid, a: Action)
    | Poll(a: Action)
    | Queue
    | Decide(now: Time)
    | Fetch
    | Recycle(a: Action)

  function Extracted(sound: bool, heap: seq<Node>): seq<Node>
    requires heap != []
  {
    if sound then ExtractMin(heap) else ExtractMinAsWritten(heap)
  }

  // ---------------------------------------------------------------- sender steps

  predicate SendOk(s: Sys, t: Tid, msg: Msg) {
    t in s.senders && s.senders[t].SIdle? && |msg.payload| <= MBUF && Enabled(s.free, t, BeginDeq(1, Variable))
  }

  function DoSend(s: Sys, t: Tid, msg: Msg): Sys
    requires SendOk(s, t, msg)
  {
    s.(senders := s.senders[t := SGet(msg)], free := Apply(s.free, t, BeginDeq(1, Variable)))
  }

  predicate FreeStepOk(s: Sys, t: Tid, a: Action) {
    && t in s.senders && s.senders[t].SGet? && !Begins(a) && Enabled(s.free, t, a)
    && (a == Publish && s.free.threads[t].DeqCopy? ==>
          |s.free.threads[t].got| == 1 && s.free.threads[t].got[0] < |s.h.loc|)
  }

  /** A ring step of a sender's dequeue; the call returns when the thread is idle again. */
  function DoFreeStep(s: Sys, t: Tid, a: Action): Sys
    requires FreeStepOk(s, t, a)
  {
    var free := Apply(s.free, t, a);
    if a == Publish && s.free.threads[t].DeqCopy? then
      var x := s.free.threads[t].got[0];
      s.(free := free, senders := s.senders[t := SFill(s.senders[t].msg, x, 0)],
          h := s.h.(loc := s.h.loc[x := AtSender(t)]))
    else if free.threads[t].Idle? then
      s.(free := free, senders := s.senders[t := SIdle])    // -ENOBUFS
    else
      s.(free := free)
  }

  predicate WriteOk(s: Sys, t: Tid) {
    && t in s.senders
    && match s.senders[t]
       case SFill(msg, x, i) => i <= |msg.payload| && x < |s.pool.times| &&
           (i < |msg.payload| ==> x * MBUF + i < |s.pool.mem|)
       case SSize(msg, x) => x < |s.pool.sizes| && Enabled(s.tx, t, BeginEnq([x], Variable))
       case _ => false
  }

  /** The next plain store of a sender into the pools. */
  function DoWrite(s: Sys, t: Tid): Sys
    requires WriteOk(s, t)
  {
    match s.senders[t]
    case SFill(msg, x, i) =>
      if i < |msg.payload| then
        s.(pool := s.pool.(mem := s.pool.mem[x * MBUF + i := msg.payload[i]]),
            senders := s.senders[t := SFill(msg, x, i + 1)])
      else
        s.(pool := s.pool.(times := s.pool.times[x := msg.txtime]), senders := s.senders[t := SSize(msg, x)])
    case SSize(msg, x) =>
      s.(pool := s.pool.(sizes := s.pool.sizes[x := |msg.payload|]),
         senders := s.senders[t := SPut(msg, x)],
         tx := Apply(s.tx, t, BeginEnq([x], Variable)))
  }

  predicate TxStepOk(s: Sys, t: Tid, a: Action) {
    && t in s.senders && s.senders[t].SPut? && !Begins(a) && Enabled(s.tx, t, a)
    && s.senders[t].x < |s.h.loc| && s.senders[t].x < |s.h.mid|
  }

  /** A ring step of a sender's enqueue. The message is accepted when its place is claimed. */
  function DoTxStep(s: Sys, t: Tid, a: Action): Sys
    requires TxStepOk(s, t, a)
  {
    var tx := Apply(s.tx, t, a);
    var msg, x := s.senders[t].msg, s.senders[t].x;
    if a == CasOk then
      s.(tx := tx,
         h := s.h.(loc := s.h.loc[x := InRing(TxRing, s.tx.prodHead)],
                   accepted := s.h.accepted + [msg], mid := s.h.mid[x := |s.h.accepted|], fate := s.h.fate + [Pending]))
    else if tx.threads[t].Idle? && a != Publish then
      // the enqueue found no room: -ENOBUFS, and the index is gone
      s.(tx := tx, senders := s.senders[t := SIdle],
          h := s.h.(loc := s.h.loc[x := Lost(|s.h.lost|)], lost := s.h.lost + [x]))
    else if a == Publish then
      s.(tx := tx, senders := s.senders[t := SIdle])
    else
      s.(tx := tx)
  }

  // ---------------------------------------------------------------- daemon steps

  predicate PollOk(s: Sys, a: Action) {
    && s.daemon.DPoll? && s.cfg.daemon in s.tx.threads && Enabled(s.tx, s.cfg.daemon, a)
    && (if s.tx.threads[s.cfg.daemon].Idle? then a == BeginDeq(BURST, Variable) else !Begins(a))
  }

  /** Indices that have left the tx ring for the daemon's table. */
  function Landed(loc: seq<Loc>, from: nat, to: nat): (r: seq<Loc>)
    ensures |r| == |loc|
  {
    seq(|loc|, x requires 0 <= x < |loc| =>
      if OnRing(loc[x], TxRing) && from <= loc[x].p < to then InBatch(loc[x].p - from) else loc[x])
  }

  function DoPoll(s: Sys, a: Action): Sys
    requires PollOk(s, a)
  {
    var d := s.cfg.daemon;
    var tx := Apply(s.tx, d, a);
    if a == Publish then
      s.(tx := tx, daemon := if s.tx.threads[d].DeqCopy? then DTake(s.tx.threads[d].got, 0) else DLook,
         h := s.h.(loc := Landed(s.h.loc, s.tx.consTail, tx.consTail)))
    else if tx.threads[d].Idle? then
      s.(tx := tx, daemon := DLook)
    else
      s.(tx := tx)
  }

  predicate QueueOk(s: Sys) {
    s.daemon.DTake? && s.daemon.i <= |s.daemon.batch| &&
    (s.daemon.i < |s.daemon.batch| ==> var x := s.daemon.batch[s.daemon.i]; x < |s.pool.times| && x < |s.h.loc|)
  }

  function DoQueue(s: Sys): Sys
    requires QueueOk(s)
  {
    var d := s.daemon;
    if d.i == |d.batch| then s.(daemon := DLook)
    else
      var x := d.batch[d.i];
      if |s.heap| == s.cfg.N() then
        // the insertion is refused and its return code ignored: the index is gone
        s.(daemon := DTake(d.batch, d.i + 1), h := s.h.(loc := s.h.loc[x := Lost(|s.h.lost|)], lost := s.h.lost + [x]))
      else
        s.(daemon := DTake(d.batch, d.i + 1),
           heap := Insert(s.heap, s.pool.times[x], x),
           h := s.h.(loc := s.h.loc[x := InHeap], since := []))
  }

  predicate DecideOk(s: Sys, now: Time) {
    && s.daemon.DLook? && s.clock <= now
    && (s.heap != [] ==>
          var x := s.heap[0].data;
          x < |s.h.loc| && x < |s.h.mid| && s.h.mid[x] < |s.h.fate| &&
              Enabled(s.free, s.cfg.daemon, BeginEnq([x], Variable)))
  }

  /** The three cases of the loop: too early, too late, due. */
  function DoDecide(s: Sys, now: Time): Sys
    requires DecideOk(s, now)
  {
    if s.heap == [] then s.(daemon := DPoll)
    else
      var Node(prio, x) := s.heap[0];
      var diff := prio - now;
      if diff > DELTA then s.(daemon := DPoll, clock := now)
      else
        var heap, id := Extracted(s.cfg.sound, s.heap), s.h.mid[x];
        var since := s.h.since + [prio];
        if diff < 0 then
          var dropped, fate := s.h.dropped + [Drop(id, prio, now)], s.h.fate[id := DroppedAt(|s.h.dropped|)];
          if s.cfg.recycle then
            s.(daemon := DFree(x), clock := now, heap := heap,
               free := Apply(s.free, s.cfg.daemon, BeginEnq([x], Variable)),
               h := s.h.(loc := s.h.loc[x := Recycling], fate := fate, dropped := dropped, since := since))
          else
            s.(daemon := DPoll, clock := now, heap := heap,
               h := s.h.(loc := s.h.loc[x := Lost(|s.h.lost|)], lost := s.h.lost + [x],
                         fate := fate, dropped := dropped, since := since))
        else
          s.(daemon := DSize(x, prio, now), clock := now, heap := heap,
             h := s.h.(loc := s.h.loc[x := InHand], since := since))
  }

  predicate FetchOk(s: Sys) {
    match s.daemon
    case DSize(x, _, _) => x < |s.pool.sizes|
    case DCopy(x, _, _, size, buf) =>
      if |buf| < size then x * MBUF + |buf| < |s.pool.mem|
      else
        && x < |s.h.loc| && x < |s.h.mid| && s.h.mid[x] < |s.h.fate|
        && Enabled(s.free, s.cfg.daemon, BeginEnq([x], Variable))
    case _ => false
  }

  /** Reading the packet out of the pools, and sending it. */
  function DoFetch(s: Sys): Sys
    requires FetchOk(s)
  {
    match s.daemon
    case DSize(x, prio, now) => s.(daemon := DCopy(x, prio, now, s.pool.sizes[x], []))
    case DCopy(x, prio, now, size, buf) =>
      if |buf| < size then
        s.(daemon := DCopy(x, prio, now, size, buf + [s.pool.mem[x * MBUF + |buf|]]))
      else
        var id := s.h.mid[x];
        s.(daemon := DFree(x),
           free := Apply(s.free, s.cfg.daemon, BeginEnq([x], Variable)),
           h := s.h.(loc := s.h.loc[x := Recycling],
                     sent := s.h.sent + [Packet(id, buf, prio, now)], fate := s.h.fate[id := SentAt(|s.h.sent|)]))
  }

  predicate RecycleOk(s: Sys, a: Action) {
    s.daemon.DFree? && !Begins(a) && Enabled(s.free, s.cfg.daemon, a) && s.daemon.x < |s.h.loc|
  }

  function DoRecycle(s: Sys, a: Action): Sys
    requires RecycleOk(s, a)
  {
    var free, x := Apply(s.free, s.cfg.daemon, a), s.daemon.x;
    if a == CasOk then
      s.(free := free, h := s.h.(loc := s.h.loc[x := InRing(FreeRing, s.free.prodHead)]))
    else if free.threads[s.cfg.daemon].Idle? && a != Publish then
      // no room in the free ring, return code ignored: the index is gone
      s.(free := free, daemon := DPoll, h := s.h.(loc := s.h.loc[x := Lost(|s.h.lost|)], lost := s.h.lost + [x]))
    else if a == Publish then
      s.(free := free, daemon := DPoll)
    else
      s.(free := free)
  }

  // ---------------------------------------------------------------- steps

  predicate Can(s: Sys, act: Act) {
    match act
    case Send(t, msg) => SendOk(s, t, msg)
    case FreeStep(t, a) => FreeStepOk(s, t, a)
    case Write(t) => WriteOk(s, t)
    case TxStep(t, a) => TxStepOk(s, t, a)
    case Poll(a) => PollOk(s, a)
    case Queue => QueueOk(s)
    case Decide(now) => DecideOk(s, now)
    case Fetch => FetchOk(s)
    case Recycle(a) => RecycleOk(s, a)
  }

  function Do(s: Sys, act: Act): Sys
    requires Can(s, act)
  {
    match act
    case Send(t, msg) => DoSend(s, t, msg)
    case FreeStep(t, a) => DoFreeStep(s, t, a)
    case Write(t) => DoWrite(s, t)
    case TxStep(t, a) => DoTxStep(s, t, a)
    case Poll(a) => DoPoll(s, a)
    case Queue => DoQueue(s)
    case Decide(now) => DoDecide(s, now)
    case Fetch => DoFetch(s)
    case Recycle(a) => DoRecycle(s, a)
  }
}
