/** How each kind of step keeps what the pools and the histories say. */
module SystemData {
  import opened RingMachine
  import opened Heap
  import opened System
  import opened SystemInv
  import opened Wrappers

  // ---------------------------------------------------------------- an index moves

  lemma CarryingKept(pool: Pool, h: Hist, given: seq<nat>, x: nat, l: Loc)
    requires Carrying(pool, h, given) && x < |h.loc|
    requires InFlight(l) ==> InFlight(h.loc[x]) && !OnRing(l, TxRing)
    ensures Carrying(pool, h.(loc := h.loc[x := l]), given)
  {
    var h' := h.(loc := h.loc[x := l]);
    forall y | 0 <= y < |h'.loc| && InFlight(h'.loc[y]) ensures Carried(pool, h', given, y) {
      assert Carried(pool, h, given, y);
    }
  }

  lemma LogsKept(h: Hist, given: seq<nat>, x: nat, l: Loc)
    requires Logs(h, given) && x < |h.loc| && (InFlight(h.loc[x]) ==> InFlight(l))
    ensures Logs(h.(loc := h.loc[x := l]), given)
  {
    var h' := h.(loc := h.loc[x := l]);
    forall j | 0 <= j < |h'.sent| ensures PacketOk(h', j) { assert PacketOk(h, j); }
    forall j | 0 <= j < |h'.dropped| ensures DropOk(h', j) { assert DropOk(h, j); }
    forall id | 0 <= id < |h'.fate| ensures FateOk(h', given, id) { assert FateOk(h, given, id); }
  }

  // ---------------------------------------------------------------- a sender moves

  lemma FilledOfSender(pool: Pool, senders: map<Tid, Sender>, tx: map<Tid, Pc>, t: Tid, sn: Sender, x: Pc)
    requires Filled(pool, senders, tx) && t in senders && SenderFilled(pool, sn, x)
    ensures Filled(pool, senders[t := sn], tx[t := x])
  {
  }

  lemma MoveData(s: Sys, s': Sys, t: Tid, sn: Sender, pc: Pc)
    requires Data(s) && t in s.senders && t in s.tx.threads && SenderFilled(s.pool, sn, pc)
    requires s' == s.(free := s'.free, tx := s'.tx, senders := s.senders[t := sn])
    requires s'.tx.threads == s.tx.threads[t := pc] && s'.tx.given == s.tx.given
    ensures Data(s')
  {
    FilledOfSender(s.pool, s.senders, s.tx.threads, t, sn, pc);
  }

  lemma FillStarts(pool: Pool, senders: map<Tid, Sender>, tx: map<Tid, Pc>, t: Tid, x: nat)
    requires Filled(pool, senders, tx) && t in senders && senders[t].SGet? && x * MBUF <= |pool.mem|
    ensures Filled(pool, senders[t := SFill(senders[t].msg, x, 0)], tx)
  {
    var sn := SFill(senders[t].msg, x, 0);
    assert SenderFilled(pool, senders[t], tx[t]);
    assert Slice(pool.mem, x, 0) == sn.msg.payload[..0];
    FilledOfSender(pool, senders, tx, t, sn, tx[t]);
    assert tx[t := tx[t]] == tx;
  }

  lemma TakeData(s: Sys, s': Sys, t: Tid, x: nat)
    requires Data(s) && t in s.senders && s.senders[t].SGet? && x < |s.h.loc| && !InFlight(s.h.loc[x]) &&
             x * MBUF <= |s.pool.mem|
    requires var sn := SFill(s.senders[t].msg, x, 0);
             s' == s.(free := s'.free, senders := s.senders[t := sn], h := s.h.(loc := s.h.loc[x := AtSender(t)]))
    ensures Data(s')
  {
    CarryingKept(s.pool, s.h, s.tx.given, x, AtSender(t));
    LogsKept(s.h, s.tx.given, x, AtSender(t));
    FillStarts(s.pool, s.senders, s.tx.threads, t, x);
  }

  // ---------------------------------------------------------------- stores into the pools

  /** `pool'` differs from `pool` at most in what belongs to index `x`. */
  ghost predicate OnlyAt(pool: Pool, pool': Pool, x: nat) {
    && |pool'.mem| == |pool.mem| && |pool'.times| == |pool.times| && |pool'.sizes| == |pool.sizes|
    && (forall y :: 0 <= y < |pool.times| && y != x ==> pool'.times[y] == pool.times[y])
    && (forall y :: 0 <= y < |pool.sizes| && y != x ==> pool'.sizes[y] == pool.sizes[y])
    && (forall k :: 0 <= k < |pool.mem| && !(x * MBUF <= k < x * MBUF + MBUF) ==> pool'.mem[k] == pool.mem[k])
  }

  lemma PayloadKept(pool: Pool, pool': Pool, x: nat, y: nat, m: Msg, n: nat)
    requires OnlyAt(pool, pool', x) && y != x && HasPayload(pool.mem, y, m, n)
    ensures HasPayload(pool'.mem, y, m, n)
  {
    forall k | 0 <= k < n ensures Slice(pool'.mem, y, n)[k] == Slice(pool.mem, y, n)[k] {
      assert !(x * MBUF <= y * MBUF + k < x * MBUF + MBUF);
    }
  }

  lemma HoldsKept(pool: Pool, pool': Pool, x: nat, y: nat, m: Msg)
    requires OnlyAt(pool, pool', x) && y != x && Holds(pool, y, m)
    ensures Holds(pool', y, m)
  {
    PayloadKept(pool, pool', x, y, m, |m.payload|);
  }

  lemma StoreCarrying(pool: Pool, pool': Pool, h: Hist, given: seq<nat>, x: nat)
    requires Carrying(pool, h, given) && OnlyAt(pool, pool', x) && x < |h.loc| && !InFlight(h.loc[x])
    ensures Carrying(pool', h, given)
  {
    forall y | 0 <= y < |h.loc| && InFlight(h.loc[y]) ensures Carried(pool', h, given, y) {
      assert Carried(pool, h, given, y);
      HoldsKept(pool, pool', x, y, h.accepted[h.mid[y]]);
    }
  }

  lemma SenderFilledKept(pool: Pool, pool': Pool, x: nat, sn: Sender, pc: Pc)
    requires SenderFilled(pool, sn, pc) && OnlyAt(pool, pool', x) && Holding(sn, pc) != Some(x)
    ensures SenderFilled(pool', sn, pc)
  {
    match sn
    case SFill(msg, y, i) => PayloadKept(pool, pool', x, y, msg, i);
    case SSize(msg, y) => PayloadKept(pool, pool', x, y, msg, |msg.payload|);
    case SPut(msg, y) => if !pc.EnqCopy? { HoldsKept(pool, pool', x, y, msg); }
    case _ =>
  }

  lemma StoreFilled(pool: Pool, pool': Pool, loc: seq<Loc>, senders: map<Tid, Sender>, tx: map<Tid, Pc>, t: Tid,
      x: nat, sn: Sender, pc: Pc)
    requires Filled(pool, senders, tx) && OnlyAt(pool, pool', x) && LocSend(loc, senders, tx)
    requires t in senders && Holding(senders[t], tx[t]) == Some(x) && SenderFilled(pool', sn, pc)
    ensures Filled(pool', senders[t := sn], tx[t := pc])
  {
    forall u | u in senders && u != t ensures SenderFilled(pool', senders[u], tx[u]) {
      assert Holding(senders[u], tx[u]) != Some(x);
      SenderFilledKept(pool, pool', x, senders[u], tx[u]);
    }
  }

  /** A sender stores into the part of the pools its index gives it: nobody else's data is
      touched. */
  lemma StoreData(s: Sys, s': Sys, t: Tid, x: nat, sn: Sender)
    requires Data(s) && LocSend(s.h.loc, s.senders, s.tx.threads) && t in s.senders && t in s'.tx.threads
    requires Holding(s.senders[t], s.tx.threads[t]) == Some(x) && OnlyAt(s.pool, s'.pool, x)
    requires s' == s.(pool := s'.pool, tx := s'.tx, senders := s.senders[t := sn])
    requires s'.tx.threads == s.tx.threads[t := s'.tx.threads[t]] && s'.tx.given == s.tx.given
    requires SenderFilled(s'.pool, sn, s'.tx.threads[t])
    ensures Data(s')
  {
    StoreCarrying(s.pool, s'.pool, s.h, s.tx.given, x);
    StoreFilled(s.pool, s'.pool, s.h.loc, s.senders, s.tx.threads, t, x, sn, s'.tx.threads[t]);
  }

  lemma ByteStored(pool: Pool, msg: Msg, x: nat, i: nat)
    requires HasPayload(pool.mem, x, msg, i) && i < |msg.payload| && x * MBUF + i < |pool.mem|
    ensures var pool' := pool.(mem := pool.mem[x * MBUF + i := msg.payload[i]]);
            OnlyAt(pool, pool', x) && HasPayload(pool'.mem, x, msg, i + 1)
  {
    var mem' := pool.mem[x * MBUF + i := msg.payload[i]];
    assert Slice(mem', x, i + 1) == Slice(pool.mem, x, i) + [msg.payload[i]];
    assert msg.payload[..i + 1] == msg.payload[..i] + [msg.payload[i]];
  }

  // ---------------------------------------------------------------- acceptance

  lemma AcceptCarrying(pool: Pool, h: Hist, given: seq<nat>, x: nat, msg: Msg)
    requires Carrying(pool, h, given) && x < |h.loc| && !InFlight(h.loc[x]) && Holds(pool, x, msg)
    requires |h.accepted| == |h.fate| == |given|
    ensures var h' := h.(loc := h.loc[x := InRing(TxRing, |given|)], accepted := h.accepted + [msg],
                         mid := h.mid[x := |h.accepted|], fate := h.fate + [Pending]);
            Carrying(pool, h', given + [x])
  {
    var h' := h.(loc := h.loc[x := InRing(TxRing, |given|)], accepted := h.accepted + [msg],
                 mid := h.mid[x := |h.accepted|], fate := h.fate + [Pending]);
    forall y | 0 <= y < |h'.loc| && InFlight(h'.loc[y]) ensures Carried(pool, h', given + [x], y) {
      if y != x { assert Carried(pool, h, given, y); }
    }
  }

  lemma AcceptLogs(h: Hist, given: seq<nat>, x: nat, msg: Msg)
    requires Logs(h, given) && x < |h.loc| == |h.mid| && !InFlight(h.loc[x])
    requires |h.accepted| == |h.fate| == |given|
    ensures var h' := h.(loc := h.loc[x := InRing(TxRing, |given|)], accepted := h.accepted + [msg],
                         mid := h.mid[x := |h.accepted|], fate := h.fate + [Pending]);
            Logs(h', given + [x])
  {
    var h' := h.(loc := h.loc[x := InRing(TxRing, |given|)], accepted := h.accepted + [msg],
                 mid := h.mid[x := |h.accepted|], fate := h.fate + [Pending]);
    forall j | 0 <= j < |h'.sent| ensures PacketOk(h', j) { assert PacketOk(h, j); }
    forall j | 0 <= j < |h'.dropped| ensures DropOk(h', j) { assert DropOk(h, j); }
    forall id | 0 <= id < |h'.fate| ensures FateOk(h', given + [x], id) {
      if id < |h.fate| { assert FateOk(h, given, id); }
    }
  }

  lemma AcceptData(s: Sys, s': Sys, t: Tid)
    requires Data(s) && t in s.senders && s.senders[t].SPut? && t in s.tx.threads && t in s'.tx.threads
    requires |s.h.accepted| == |s.h.fate| == |s.tx.given| == s.tx.prodHead
    requires var x := s.senders[t].x; x < |s.h.loc| && x < |s.h.mid| && s.h.loc[x] == AtSender(t)
    requires !s.tx.threads[t].EnqCopy? && s'.tx.threads[t].EnqCopy?
    requires LocHand(s.h.loc, s.daemon)
    requires var msg, x := s.senders[t].msg, s.senders[t].x;
             && Claimed(s.tx, s'.tx, t, x)
             && s' == s.(tx := s'.tx,
                         h := s.h.(loc := s.h.loc[x := InRing(TxRing, s.tx.prodHead)],
                                   accepted := s.h.accepted + [msg], mid := s.h.mid[x := |s.h.accepted|],
                                       fate := s.h.fate + [Pending]))
    ensures Data(s')
  {
    var msg, x := s.senders[t].msg, s.senders[t].x;
    assert SenderFilled(s.pool, s.senders[t], s.tx.threads[t]);
    AcceptCarrying(s.pool, s.h, s.tx.given, x, msg);
    AcceptLogs(s.h, s.tx.given, x, msg);
    FilledOfSender(s.pool, s.senders, s.tx.threads, t, s.senders[t], s'.tx.threads[t]);
    assert s.senders[t := s.senders[t]] == s.senders;
    AcceptDaemon(s.h, s'.h, s.daemon, x);
  }

  lemma AcceptDaemon(h: Hist, h': Hist, d: Daemon, x: nat)
    requires DaemonFilled(h, d) && LocHand(h.loc, d) && x < |h.loc| && !h.loc[x].InHand? && x < |h.mid|
    requires h.accepted <= h'.accepted && h'.mid == h.mid[x := |h.accepted|]
    ensures DaemonFilled(h', d)
  {
  }

  // ---------------------------------------------------------------- daemon steps

  lemma FilledOfDaemon(pool: Pool, senders: map<Tid, Sender>, tx: map<Tid, Pc>, d: Tid, pc: Pc)
    requires Filled(pool, senders, tx) && d !in senders
    ensures Filled(pool, senders, tx[d := pc])
  {
  }

  lemma DaemonData(s: Sys, s': Sys, dm: Daemon)
    requires Data(s) && s.cfg.daemon !in s.senders && DaemonFilled(s.h, dm)
    requires s' == s.(free := s'.free, tx := s'.tx, daemon := dm, clock := s'.clock)
    requires Quiet(s.tx, s'.tx, s.cfg.daemon)
    ensures Data(s')
  {
    FilledOfDaemon(s.pool, s.senders, s.tx.threads, s.cfg.daemon, s'.tx.threads[s.cfg.daemon]);
  }

  lemma LandData(s: Sys, s': Sys, got: seq<nat>)
    requires Data(s) && s.cfg.daemon !in s.senders && Released(s.tx, s'.tx, s.cfg.daemon, got)
    requires s' == s.(tx := s'.tx, daemon := DTake(got, 0),
             h := s.h.(loc := Landed(s.h.loc, s.tx.consTail, s'.tx.consTail)))
    ensures Data(s')
  {
    var h, h', given := s.h, s'.h, s.tx.given;
    FilledOfDaemon(s.pool, s.senders, s.tx.threads, s.cfg.daemon, Idle);
    LandCarrying(s.pool, h, given, s.tx.consTail, s'.tx.consTail);
    LandLogs(h, given, s.tx.consTail, s'.tx.consTail);
  }

  lemma LandCarrying(pool: Pool, h: Hist, given: seq<nat>, lo: nat, mid: nat)
    requires Carrying(pool, h, given)
    ensures Carrying(pool, h.(loc := Landed(h.loc, lo, mid)), given)
  {
    var h' := h.(loc := Landed(h.loc, lo, mid));
    forall y | 0 <= y < |h'.loc| && InFlight(h'.loc[y]) ensures Carried(pool, h', given, y) {
      assert InFlight(h.loc[y]);
      assert Carried(pool, h, given, y);
    }
    forall y | 0 <= y < |h'.loc| && OnRing(h'.loc[y], TxRing) ensures h'.mid[y] == h'.loc[y].p {
      assert h.loc[y] == h'.loc[y];
    }
  }

  lemma LandLogs(h: Hist, given: seq<nat>, lo: nat, mid: nat)
    requires Logs(h, given)
    ensures Logs(h.(loc := Landed(h.loc, lo, mid)), given)
  {
    var h' := h.(loc := Landed(h.loc, lo, mid));
    forall j | 0 <= j < |h'.sent| ensures PacketOk(h', j) { assert PacketOk(h, j); }
    forall j | 0 <= j < |h'.dropped| ensures DropOk(h', j) { assert DropOk(h, j); }
    forall id | 0 <= id < |h'.fate| ensures FateOk(h', given, id) { assert FateOk(h, given, id); }
  }

  lemma SinceKept(h: Hist, given: seq<nat>, v: seq<I64>)
    requires Logs(h, given)
    ensures Logs(h.(since := v), given)
  {
    var h' := h.(since := v);
    forall j | 0 <= j < |h'.sent| ensures PacketOk(h', j) { assert PacketOk(h, j); }
    forall j | 0 <= j < |h'.dropped| ensures DropOk(h', j) { assert DropOk(h, j); }
    forall id | 0 <= id < |h'.fate| ensures FateOk(h', given, id) { assert FateOk(h, given, id); }
  }

  lemma SinceCarried(pool: Pool, h: Hist, given: seq<nat>, v: seq<I64>)
    requires Carrying(pool, h, given)
    ensures Carrying(pool, h.(since := v), given)
  {
    var h' := h.(since := v);
    forall y | 0 <= y < |h'.loc| && InFlight(h'.loc[y]) ensures Carried(pool, h', given, y) {
      assert Carried(pool, h, given, y);
    }
  }

  lemma QueueData(s: Sys, s': Sys, x: nat)
    requires Data(s) && s.daemon.DTake? && x < |s.h.loc| && x < |s.pool.times| && s.h.loc[x].InBatch?
    requires s' == s.(daemon := DTake(s.daemon.batch, s.daemon.i + 1), heap := Insert(s.heap, s.pool.times[x], x),
                      h := s.h.(loc := s.h.loc[x := InHeap], since := []))
    ensures Data(s')
  {
    CarryingKept(s.pool, s.h, s.tx.given, x, InHeap);
    LogsKept(s.h, s.tx.given, x, InHeap);
    SinceCarried(s.pool, s.h.(loc := s.h.loc[x := InHeap]), s.tx.given, []);
    SinceKept(s.h.(loc := s.h.loc[x := InHeap]), s.tx.given, []);
  }

  /** What the head of the queue stands for. */
  lemma HeadIsMessage(s: Sys)
    requires Carrying(s.pool, s.h, s.tx.given) && LocHeap(s.h.loc, multiset(s.heap), s.pool.times) && s.heap != []
    ensures var Node(prio, x) := s.heap[0];
            && x < |s.h.loc| && s.h.loc[x] == InHeap && x < |s.h.mid| && s.h.mid[x] < |s.h.accepted|
            && Carried(s.pool, s.h, s.tx.given, x) && prio == s.h.accepted[s.h.mid[x]].txtime
  {
    assert s.heap[0] in multiset(s.heap);
  }

  lemma PickData(s: Sys, s': Sys, now: Time)
    requires Data(s) && s.heap != [] && LocHeap(s.h.loc, multiset(s.heap), s.pool.times)
    requires Due(s.heap[0].prio, now) && s.heap[0].data < |s.h.loc|
    requires var Node(prio, x) := s.heap[0];
             s' == s.(daemon := DSize(x, prio, now), clock := now, heap := Extracted(s.cfg.sound, s.heap),
                      h := s.h.(loc := s.h.loc[x := InHand], since := s.h.since + [prio]))
    ensures Data(s')
  {
    var Node(prio, x) := s.heap[0];
    HeadIsMessage(s);
    CarryingKept(s.pool, s.h, s.tx.given, x, InHand);
    LogsKept(s.h, s.tx.given, x, InHand);
    SinceCarried(s.pool, s.h.(loc := s.h.loc[x := InHand]), s.tx.given, s'.h.since);
    SinceKept(s.h.(loc := s.h.loc[x := InHand]), s.tx.given, s'.h.since);
  }

  // ---------------------------------------------------------------- a message is finished

  lemma CloseCarrying(pool: Pool, h: Hist, h': Hist, given: seq<nat>, x: nat, l: Loc, f: Fate)
    requires Carrying(pool, h, given) && x < |h.loc| && InFlight(h.loc[x]) && !InFlight(l) && h.mid[x] < |h.fate|
    requires h'.loc == h.loc[x := l] && h'.mid == h.mid && h'.accepted == h.accepted && h'.fate == h.fate[h.mid[x] := f]
    ensures Carrying(pool, h', given)
  {
    assert Carried(pool, h, given, x);
    forall y | 0 <= y < |h'.loc| && InFlight(h'.loc[y]) ensures Carried(pool, h', given, y) {
      assert Carried(pool, h, given, y);
    }
  }

  lemma CloseFates(h: Hist, h': Hist, given: seq<nat>, x: nat, l: Loc, f: Fate)
    requires Logs(h, given) && x < |h.loc| == |h.mid| && h.mid[x] < |h.fate| && h.fate[h.mid[x]] == Pending
    requires h'.loc == h.loc[x := l] && h'.mid == h.mid && h'.fate == h.fate[h.mid[x] := f]
    requires h.sent <= h'.sent && h.dropped <= h'.dropped
    ensures forall id | 0 <= id < |h'.fate| && id != h.mid[x] :: FateOk(h', given, id)
  {
    assert FateOk(h, given, h.mid[x]);
    forall id | 0 <= id < |h'.fate| && id != h.mid[x] ensures FateOk(h', given, id) { assert FateOk(h, given, id); }
  }

  lemma DropLogs(h: Hist, h': Hist, given: seq<nat>, x: nat, l: Loc, now: Time)
    requires Logs(h, given) && x < |h.loc| == |h.mid| && h.mid[x] < |h.fate| && h.fate[h.mid[x]] == Pending &&
             h.mid[x] < |h.accepted|
    requires h'.loc == h.loc[x := l] && h'.mid == h.mid && h'.accepted == h.accepted && h'.sent == h.sent
    requires var id := h.mid[x];
             && h'.fate == h.fate[id := DroppedAt(|h.dropped|)]
             && h'.dropped == h.dropped + [Drop(id, h.accepted[id].txtime, now)] && h.accepted[id].txtime < now
    ensures Logs(h', given)
  {
    var id := h.mid[x];
    CloseFates(h, h', given, x, l, DroppedAt(|h.dropped|));
    assert FateOk(h', given, id);
    forall j | 0 <= j < |h'.sent| ensures PacketOk(h', j) { assert PacketOk(h, j); }
    forall j | 0 <= j < |h'.dropped| ensures DropOk(h', j) {
      if j < |h.dropped| { assert DropOk(h, j); }
    }
  }

  lemma SendLogs(h: Hist, h': Hist, given: seq<nat>, x: nat, l: Loc, now: Time)
    requires Logs(h, given) && x < |h.loc| == |h.mid| && h.mid[x] < |h.fate| && h.fate[h.mid[x]] == Pending &&
             h.mid[x] < |h.accepted|
    requires h'.loc == h.loc[x := l] && h'.mid == h.mid && h'.accepted == h.accepted && h'.dropped == h.dropped
    requires var id := h.mid[x];
             && h'.fate == h.fate[id := SentAt(|h.sent|)]
             && h'.sent == h.sent + [Packet(id, h.accepted[id].payload, h.accepted[id].txtime, now)]
             && Due(h.accepted[id].txtime, now)
    ensures Logs(h', given)
  {
    var id := h.mid[x];
    CloseFates(h, h', given, x, l, SentAt(|h.sent|));
    assert FateOk(h', given, id);
    forall j | 0 <= j < |h'.sent| ensures PacketOk(h', j) {
      if j < |h.sent| { assert PacketOk(h, j); }
    }
    forall j | 0 <= j < |h'.dropped| ensures DropOk(h', j) { assert DropOk(h, j); }
  }

  lemma DropData(s: Sys, s': Sys, now: Time)
    requires Data(s) && s.heap != [] && LocHeap(s.h.loc, multiset(s.heap), s.pool.times)
    requires s.heap[0].prio < now && s.heap[0].data < |s.h.loc| && s.daemon.DLook?
    requires s' == s.(free := s'.free, daemon := s'.daemon, clock := now, heap := Extracted(s.cfg.sound, s.heap),
             h := s'.h)
    requires s'.daemon.DPoll? || s'.daemon.DFree?
    requires var Node(prio, x) := s.heap[0];
             && x < |s.h.mid| && s.h.mid[x] < |s.h.fate|
             && var id := s.h.mid[x];
                s'.h == s.h.(loc := s'.h.loc, lost := s'.h.lost, since := s.h.since + [prio],
                             dropped := s.h.dropped + [Drop(id, prio, now)],
                                 fate := s.h.fate[id := DroppedAt(|s.h.dropped|)])
    requires if s.cfg.recycle
             then s'.h.loc == s.h.loc[s.heap[0].data := Recycling] && s'.h.lost == s.h.lost
             else s'.h.loc == s.h.loc[s.heap[0].data := Lost(|s.h.lost|)] && s'.h.lost == s.h.lost + [s.heap[0].data]
    ensures Data(s')
  {
    var x := s.heap[0].data;
    HeadIsMessage(s);
    CloseCarrying(s.pool, s.h, s'.h, s.tx.given, x, s'.h.loc[x], DroppedAt(|s.h.dropped|));
    DropLogs(s.h, s'.h, s.tx.given, x, s'.h.loc[x], now);
  }

  lemma TransmitData(s: Sys, s': Sys)
    requires Data(s) && s.daemon.DCopy? && |s.daemon.buf| == s.daemon.size
    requires var x := s.daemon.x;
             && x < |s.h.loc| && s.h.loc[x].InHand? && x < |s.h.mid| && s.h.mid[x] < |s.h.fate|
             && var id := s.h.mid[x];
                s' == s.(free := s'.free, daemon := DFree(x),
                         h := s.h.(loc := s.h.loc[x := Recycling],
                                   sent := s.h.sent + [Packet(id, s.daemon.buf, s.daemon.prio, s.daemon.now)],
                                   fate := s.h.fate[id := SentAt(|s.h.sent|)]))
    ensures Data(s')
  {
    var x := s.daemon.x;
    assert Carried(s.pool, s.h, s.tx.given, x);
    var m := s.h.accepted[s.h.mid[x]];
    assert m.payload[..|m.payload|] == m.payload;
    CloseCarrying(s.pool, s.h, s'.h, s.tx.given, x, Recycling, SentAt(|s.h.sent|));
    SendLogs(s.h, s'.h, s.tx.given, x, Recycling, s.daemon.now);
  }

  // ---------------------------------------------------------------- reading the packet out

  lemma ReadSizeData(s: Sys, s': Sys)
    requires Data(s) && s.daemon.DSize? && s.daemon.x < |s.h.loc| && s.h.loc[s.daemon.x].InHand? &&
             s.daemon.x < |s.pool.sizes|
    requires s' == s.(daemon := DCopy(s.daemon.x, s.daemon.prio, s.daemon.now, s.pool.sizes[s.daemon.x], []))
    ensures Data(s')
  {
    assert Carried(s.pool, s.h, s.tx.given, s.daemon.x);
  }

  lemma ReadByteData(s: Sys, s': Sys)
    requires Data(s) && s.daemon.DCopy? && s.daemon.x < |s.h.loc| && s.h.loc[s.daemon.x].InHand?
    requires |s.daemon.buf| < s.daemon.size && s.daemon.x * MBUF + |s.daemon.buf| < |s.pool.mem|
    requires s' == s.(daemon := s.daemon.(buf := s.daemon.buf + [s.pool.mem[s.daemon.x * MBUF + |s.daemon.buf|]]))
    ensures Data(s')
  {
    var x, i := s.daemon.x, |s.daemon.buf|;
    assert Carried(s.pool, s.h, s.tx.given, x);
    var m := s.h.accepted[s.h.mid[x]];
    assert Slice(s.pool.mem, x, |m.payload|)[i] == m.payload[i];
    assert m.payload[..i + 1] == m.payload[..i] + [m.payload[i]];
  }

  lemma BackData(s: Sys, s': Sys, x: nat, l: Loc)
    requires Data(s) && x < |s.h.loc| && s.h.loc[x].Recycling? && !InFlight(l)
    requires s' == s.(free := s'.free, h := s.h.(loc := s.h.loc[x := l]))
    ensures Data(s')
  {
    CarryingKept(s.pool, s.h, s.tx.given, x, l);
    LogsKept(s.h, s.tx.given, x, l);
  }
}
