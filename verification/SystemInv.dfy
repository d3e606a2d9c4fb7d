/** The invariant of the whole system: who owns which index, what the pools hold for it, and what
    has become of every accepted message. */
module SystemInv {
  import opened RingMachine
  import opened Heap
  import opened System
  import opened Wrappers

  // ---------------------------------------------------------------- ring calls in progress

  predicate Dequeueing(pc: Pc, want: nat) {
    || (pc.DeqLoad? && pc.want == want && pc.b == Variable)
    || (pc.DeqCas? && pc.want == want && pc.b == Variable)
    || (pc.DeqCopy? && pc.n <= want)
  }

  predicate Enqueueing(pc: Pc, x: nat) {
    || (pc.EnqLoad? && pc.vals == [x] && pc.b == Variable)
    || (pc.EnqCas? && pc.vals == [x] && pc.b == Variable)
    || (pc.EnqCopy? && pc.vals == [x])
  }

  predicate SenderPcs(sn: Sender, free: Pc, tx: Pc) {
    match sn
    case SGet(_) => Dequeueing(free, 1) && tx == Idle
    case SPut(_, x) => free == Idle && Enqueueing(tx, x)
    case _ => free == Idle && tx == Idle
  }

  predicate DaemonPcs(d: Daemon, free: Pc, tx: Pc) {
    match d
    case DPoll => free == Idle && (tx == Idle || Dequeueing(tx, BURST))
    case DFree(x) => Enqueueing(free, x) && tx == Idle
    case _ => free == Idle && tx == Idle
  }

  ghost predicate Pcs(d: Tid, senders: map<Tid, Sender>, daemon: Daemon, free: map<Tid, Pc>, tx: map<Tid, Pc>) {
    && d !in senders
    && free.Keys == senders.Keys + {d}
    && tx.Keys == senders.Keys + {d}
    && (forall t | t in senders :: SenderPcs(senders[t], free[t], tx[t]))
    && DaemonPcs(daemon, free[d], tx[d])
  }

  ghost predicate Rings(s: Sys) {
    Inv(s.free) && Inv(s.tx) && s.free.size == s.cfg.size && s.tx.size == s.cfg.size
  }

  ghost predicate Shape(s: Sys) {
    && s.cfg.size > 1
    && |s.h.loc| == |s.h.mid| == |s.pool.times| == |s.pool.sizes| == s.cfg.N()
    && |s.pool.mem| == s.cfg.N() * MBUF
    && |s.h.accepted| == |s.h.fate| == |s.tx.given| == s.tx.prodHead
  }

  // ---------------------------------------------------------------- where the indices are

  ghost predicate LocRing(loc: seq<Loc>, w: Which, given: seq<nat>, lo: nat, hi: nat) {
    && lo <= hi <= |given|
    && (forall p :: lo <= p < hi ==> given[p] < |loc| && loc[given[p]] == InRing(w, p))
    && (forall x :: 0 <= x < |loc| && OnRing(loc[x], w) ==> lo <= loc[x].p < hi && given[loc[x].p] == x)
  }

  /** The index a sender owns: between the two ring calls, up to the claim of a tx position. */
  function Holding(sn: Sender, tx: Pc): Option<nat> {
    match sn
    case SFill(_, x, _) => Some(x)
    case SSize(_, x) => Some(x)
    case SPut(_, x) => if tx.EnqCopy? then None else Some(x)
    case _ => None
  }

  ghost predicate LocSend(loc: seq<Loc>, senders: map<Tid, Sender>, tx: map<Tid, Pc>) {
    && senders.Keys <= tx.Keys
    && (forall t | t in senders && Holding(senders[t], tx[t]).Some? ::
          var x := Holding(senders[t], tx[t]).value; x < |loc| && loc[x] == AtSender(t))
    && (forall x | 0 <= x < |loc| && loc[x].AtSender? ::
          var t := loc[x].t; t in senders && Holding(senders[t], tx[t]) == Some(x))
  }

  ghost predicate LocBatch(loc: seq<Loc>, d: Daemon) {
    && (d.DTake? ==>
          d.i <= |d.batch| && forall j | d.i <= j < |d.batch| :: d.batch[j] < |loc| && loc[d.batch[j]] == InBatch(j))
    && (forall x | 0 <= x < |loc| && loc[x].InBatch? ::
          d.DTake? && d.i <= loc[x].j < |d.batch| && d.batch[loc[x].j] == x)
  }

  ghost predicate LocHeap(loc: seq<Loc>, heap: multiset<Node>, times: seq<I64>) {
    && |times| == |loc|
    && (forall n | n in heap :: heap[n] == 1 && n.data < |loc| && loc[n.data] == InHeap && n.prio == times[n.data])
    && (forall x | 0 <= x < |loc| && loc[x] == InHeap :: Node(times[x], x) in heap)
  }

  /** The index of the packet the daemon is sending, if any. */
  function InDaemon(d: Daemon): Option<nat> {
    match d
    case DSize(x, _, _) => Some(x)
    case DCopy(x, _, _, _, _) => Some(x)
    case _ => None
  }

  ghost predicate LocHand(loc: seq<Loc>, d: Daemon) {
    && (InDaemon(d).Some? ==> InDaemon(d).value < |loc| && loc[InDaemon(d).value] == InHand)
    && (forall x | 0 <= x < |loc| && loc[x] == InHand :: InDaemon(d) == Some(x))
  }

  /** The index the daemon is giving back, up to the claim of a position in the free ring. */
  function GivingBack(d: Daemon, free: Pc): Option<nat> {
    if d.DFree? && !free.EnqCopy? then Some(d.x) else None
  }

  ghost predicate LocRecycle(loc: seq<Loc>, d: Daemon, free: Pc) {
    && (GivingBack(d, free).Some? ==> GivingBack(d, free).value < |loc| && loc[GivingBack(d, free).value] == Recycling)
    && (forall x | 0 <= x < |loc| && loc[x] == Recycling :: GivingBack(d, free) == Some(x))
  }

  ghost predicate LocLost(loc: seq<Loc>, lost: seq<nat>) {
    && (forall j | 0 <= j < |lost| :: lost[j] < |loc| && loc[lost[j]] == Lost(j))
    && (forall x | 0 <= x < |loc| && loc[x].Lost? :: loc[x].j < |lost| && lost[loc[x].j] == x)
  }

  ghost predicate Located(s: Sys) {
    var loc := s.h.loc;
    && s.cfg.daemon in s.free.threads
    && LocRing(loc, FreeRing, s.free.given, s.free.consTail, s.free.prodHead)
    && LocRing(loc, TxRing, s.tx.given, s.tx.consTail, s.tx.prodHead)
    && LocSend(loc, s.senders, s.tx.threads)
    && LocBatch(loc, s.daemon)
    && LocHeap(loc, multiset(s.heap), s.pool.times)
    && LocHand(loc, s.daemon)
    && LocRecycle(loc, s.daemon, s.free.threads[s.cfg.daemon])
    && LocLost(loc, s.h.lost)
  }

  // ---------------------------------------------------------------- what the pools hold

  function Slice(mem: seq<Byte>, x: nat, n: nat): seq<Byte>
    requires x * MBUF + n <= |mem|
  {
    mem[x * MBUF..x * MBUF + n]
  }

  ghost predicate HasPayload(mem: seq<Byte>, x: nat, m: Msg, n: nat) {
    && n <= |m.payload| <= MBUF
    && x * MBUF + n <= |mem|
    && Slice(mem, x, n) == m.payload[..n]
  }

  ghost predicate Holds(pool: Pool, x: nat, m: Msg) {
    && x < |pool.times| && x < |pool.sizes|
    && HasPayload(pool.mem, x, m, |m.payload|)
    && pool.times[x] == m.txtime
    && pool.sizes[x] == |m.payload|
  }

  predicate InFlight(l: Loc) { OnRing(l, TxRing) || l.InBatch? || l.InHeap? || l.InHand? }

  /** Message `id` is underway under index `x`, and the pools carry exactly it. */
  ghost predicate Carried(pool: Pool, h: Hist, given: seq<nat>, x: nat)
    requires x < |h.mid|
  {
    var id := h.mid[x];
    && id < |h.accepted| && id < |h.fate| && id < |given|
    && given[id] == x && h.fate[id] == Pending
    && Holds(pool, x, h.accepted[id])
  }

  ghost predicate Carrying(pool: Pool, h: Hist, given: seq<nat>) {
    && |h.mid| == |h.loc|
    && (forall x | 0 <= x < |h.loc| && InFlight(h.loc[x]) :: Carried(pool, h, given, x))
    && (forall x | 0 <= x < |h.loc| && OnRing(h.loc[x], TxRing) :: h.mid[x] == h.loc[x].p)
  }

  ghost predicate Underway(h: Hist, given: seq<nat>, id: nat) {
    && id < |given| && given[id] < |h.loc| && given[id] < |h.mid|
    && InFlight(h.loc[given[id]]) && h.mid[given[id]] == id
  }

  ghost predicate SenderFilled(pool: Pool, sn: Sender, tx: Pc) {
    match sn
    case SFill(msg, x, i) => i <= |msg.payload| && HasPayload(pool.mem, x, msg, i)
    case SSize(msg, x) => HasPayload(pool.mem, x, msg, |msg.payload|) && x < |pool.times| && pool.times[x] == msg.txtime
    case SPut(msg, x) => tx.EnqCopy? || Holds(pool, x, msg)
    case SGet(msg) => |msg.payload| <= MBUF
    case SIdle => true
  }

  ghost predicate Filled(pool: Pool, senders: map<Tid, Sender>, tx: map<Tid, Pc>) {
    senders.Keys <= tx.Keys && forall t | t in senders :: SenderFilled(pool, senders[t], tx[t])
  }

  predicate Due(prio: I64, now: Time) { 0 <= prio - now <= DELTA }

  ghost predicate DaemonFilled(h: Hist, d: Daemon) {
    match d
    case DSize(x, prio, now) => x < |h.mid| && h.mid[x] < |h.accepted| && prio == h.accepted[h.mid[x]].txtime &&
        Due(prio, now)
    case DCopy(x, prio, now, size, buf) =>
      && x < |h.mid| && h.mid[x] < |h.accepted| && prio == h.accepted[h.mid[x]].txtime && Due(prio, now)
      && var m := h.accepted[h.mid[x]]; size == |m.payload| && |buf| <= size && buf == m.payload[..|buf|]
    case _ => true
  }

  // ---------------------------------------------------------------- what became of the messages

  ghost predicate PacketOk(h: Hist, j: nat)
    requires j < |h.sent|
  {
    var p := h.sent[j];
    && p.id < |h.accepted| && p.id < |h.fate|
    && h.accepted[p.id].payload == p.payload && h.accepted[p.id].txtime == p.txtime
    && h.fate[p.id] == SentAt(j)
    && Due(p.txtime, p.now)
  }

  ghost predicate DropOk(h: Hist, j: nat)
    requires j < |h.dropped|
  {
    var p := h.dropped[j];
    && p.id < |h.accepted| && p.id < |h.fate|
    && h.accepted[p.id].txtime == p.txtime
    && h.fate[p.id] == DroppedAt(j)
    && p.txtime < p.now
  }

  ghost predicate FateOk(h: Hist, given: seq<nat>, id: nat)
    requires id < |h.fate|
  {
    match h.fate[id]
    case Pending => Underway(h, given, id)
    case SentAt(j) => j < |h.sent| && h.sent[j].id == id
    case DroppedAt(j) => j < |h.dropped| && h.dropped[j].id == id
  }

  ghost predicate Logs(h: Hist, given: seq<nat>) {
    && (forall j | 0 <= j < |h.sent| :: PacketOk(h, j))
    && (forall j | 0 <= j < |h.dropped| :: DropOk(h, j))
    && (forall id | 0 <= id < |h.fate| :: FateOk(h, given, id))
  }

  /** As written, each late drop loses its index; with recycling, none is lost. */
  ghost predicate LossCount(s: Sys) {
    |s.h.lost| == if s.cfg.recycle then 0 else |s.h.dropped|
  }

  /** Where every thread and every index stands. */
  ghost predicate Place(s: Sys) {
    && Shape(s)
    && Pcs(s.cfg.daemon, s.senders, s.daemon, s.free.threads, s.tx.threads)
    && Located(s)
  }

  /** What the pools and the histories say. */
  ghost predicate Data(s: Sys) {
    && Carrying(s.pool, s.h, s.tx.given)
    && Filled(s.pool, s.senders, s.tx.threads)
    && DaemonFilled(s.h, s.daemon)
    && Logs(s.h, s.tx.given)
    && LossCount(s)
  }

  ghost predicate SysInv(s: Sys) {
    Rings(s) && Place(s) && Data(s)
  }

  // ---------------------------------------------------------------- ring steps, seen from outside

  /** Thread `t` moved inside a ring call without moving the ring's window. */
  ghost predicate Quiet(r: State, r': State, t: Tid) {
    && t in r.threads && t in r'.threads && r'.threads == r.threads[t := r'.threads[t]]
    && r'.given == r.given && r'.prodHead == r.prodHead && r'.consTail == r.consTail
  }

  /** Thread `t` claimed the next position for `x`. */
  ghost predicate Claimed(r: State, r': State, t: Tid, x: nat) {
    && t in r.threads && t in r'.threads && r'.threads == r.threads[t := r'.threads[t]]
    && r'.given == r.given + [x] && r'.prodHead == r.prodHead + 1 && r'.consTail == r.consTail
  }

  /** Thread `t` released the oldest positions, and got their values. */
  ghost predicate Released(r: State, r': State, t: Tid, got: seq<nat>) {
    && t in r.threads && t in r'.threads && r'.threads == r.threads[t := Idle]
    && r'.given == r.given && r'.prodHead == r.prodHead && r'.consTail == r.consTail + |got|
    && r'.consTail <= r.prodHead <= |r.given| && got == r.given[r.consTail..r'.consTail]
  }
}
