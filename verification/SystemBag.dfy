/** The whole system seen from outside: a bag of timed messages. */
module SystemBag {
  import opened RingMachine
  import opened Heap
  import opened System
  import opened SystemInv
  import opened SystemData
  import opened SystemSteps
  import opened SystemTheorems
  import opened Wrappers

  // ---------------------------------------------------------------- the simple view

  datatype Item = Item(payload: seq<Byte>, txtime: I64)

  datatype Bag = Bag(pending: multiset<Item>, sent: seq<Item>, dropped: seq<Item>)

  /** A message is taken in. */
  ghost predicate TakesIn(b: Bag, b': Bag, m: Item) {
    b' == b.(pending := b.pending + multiset{m})
  }

  /** A pending message goes out, picked at time `now`. */
  ghost predicate GoesOut(b: Bag, b': Bag, m: Item, now: Time) {
    m in b.pending && Due(m.txtime, now) && b' == b.(pending := b.pending - multiset{m}, sent := b.sent + [m])
  }

  /** A pending message that has missed its time is dropped. */
  ghost predicate IsDropped(b: Bag, b': Bag, m: Item, now: Time) {
    m in b.pending && m.txtime < now && b' == b.(pending := b.pending - multiset{m}, dropped := b.dropped + [m])
  }

  // ---------------------------------------------------------------- the map

  function ItemOf(m: Msg): Item { Item(m.payload, m.txtime) }

  function LastItem(accepted: seq<Msg>, fate: seq<Fate>): multiset<Item>
    requires |accepted| == |fate| > 0
  {
    if fate[|fate| - 1] == Pending then multiset{ItemOf(accepted[|accepted| - 1])} else multiset{}
  }

  /** The messages accepted and neither sent nor dropped. */
  function PendingItems(accepted: seq<Msg>, fate: seq<Fate>): (b: multiset<Item>)
    requires |accepted| == |fate|
  {
    if accepted == [] then multiset{}
    else
      var l := |accepted| - 1;
      PendingItems(accepted[..l], fate[..l]) + LastItem(accepted, fate)
  }

  /** What went on the wire, as read from the packets. */
  function SentItems(sent: seq<Packet>): seq<Item> {
    if sent == [] then [] else SentItems(sent[..|sent| - 1]) + [Item(sent[|sent| - 1].payload, sent[|sent| - 1].txtime)]
  }

  ghost function DroppedItems(accepted: seq<Msg>, dropped: seq<Drop>): seq<Item>
    requires forall j :: 0 <= j < |dropped| ==> dropped[j].id < |accepted|
  {
    seq(|dropped|, j requires 0 <= j < |dropped| => ItemOf(accepted[dropped[j].id]))
  }

  ghost predicate Mapped(h: Hist) {
    |h.accepted| == |h.fate| && forall j :: 0 <= j < |h.dropped| ==> h.dropped[j].id < |h.accepted|
  }

  ghost function View(h: Hist): Bag
    requires Mapped(h)
  {
    Bag(PendingItems(h.accepted, h.fate), SentItems(h.sent), DroppedItems(h.accepted, h.dropped))
  }

  lemma HasView(s: Sys)
    requires Shape(s) && Logs(s.h, s.tx.given)
    ensures Mapped(s.h)
  {
    forall j | 0 <= j < |s.h.dropped| ensures s.h.dropped[j].id < |s.h.accepted| { assert DropOk(s.h, j); }
  }

  lemma PlusSwap(a: multiset<Item>, b: multiset<Item>, c: multiset<Item>)
    ensures (a + b) + c == (a + c) + b
  {
  }

  lemma PlusMinus(a: multiset<Item>, x: Item)
    ensures (a + multiset{x}) - multiset{x} == a
    ensures x in a + multiset{x}
  {
  }

  lemma PendingUnfold(accepted: seq<Msg>, fate: seq<Fate>)
    requires |accepted| == |fate| > 0
    ensures var l := |accepted| - 1;
            PendingItems(accepted, fate) == PendingItems(accepted[..l], fate[..l]) + LastItem(accepted, fate)
  {
  }

  lemma {:induction false} PendingClosed(accepted: seq<Msg>, fate: seq<Fate>, id: nat, f: Fate)
    requires id < |accepted| == |fate| && fate[id] == Pending && f != Pending
    ensures PendingItems(accepted, fate) == PendingItems(accepted, fate[id := f]) + multiset{ItemOf(accepted[id])}
    decreases |accepted|
  {
    var l, x, fate' := |accepted| - 1, ItemOf(accepted[id]), fate[id := f];
    PendingUnfold(accepted, fate);
    PendingUnfold(accepted, fate');
    if id < l {
      assert fate'[..l] == fate[..l][id := f];
      PendingClosed(accepted[..l], fate[..l], id, f);
      PlusSwap(PendingItems(accepted[..l], fate'[..l]), multiset{x}, LastItem(accepted, fate));
    } else {
      assert fate'[..l] == fate[..l];
    }
  }

  lemma PendingLess(accepted: seq<Msg>, fate: seq<Fate>, id: nat, f: Fate)
    requires id < |accepted| == |fate| && fate[id] == Pending && f != Pending
    ensures var b, m := PendingItems(accepted, fate), ItemOf(accepted[id]);
            m in b && PendingItems(accepted, fate[id := f]) == b - multiset{m}
  {
    PendingClosed(accepted, fate, id, f);
    PlusMinus(PendingItems(accepted, fate[id := f]), ItemOf(accepted[id]));
  }

  lemma PendingAdded(accepted: seq<Msg>, fate: seq<Fate>, m: Msg)
    requires |accepted| == |fate|
    ensures PendingItems(accepted + [m], fate + [Pending]) == PendingItems(accepted, fate) + multiset{ItemOf(m)}
  {
    assert (accepted + [m])[..|accepted|] == accepted && (fate + [Pending])[..|fate|] == fate;
  }

  // ---------------------------------------------------------------- the three events

  lemma AcceptView(h: Hist, h': Hist, m: Msg)
    requires Mapped(h)
    requires h' == h.(loc := h'.loc, mid := h'.mid, accepted := h.accepted + [m], fate := h.fate + [Pending])
    ensures Mapped(h') && TakesIn(View(h), View(h'), ItemOf(m))
  {
    PendingAdded(h.accepted, h.fate, m);
    assert DroppedItems(h'.accepted, h'.dropped) == DroppedItems(h.accepted, h.dropped);
  }

  lemma SendView(h: Hist, h': Hist, p: Packet)
    requires Mapped(h) && p.id < |h.accepted| && h.fate[p.id] == Pending && Due(p.txtime, p.now)
    requires ItemOf(h.accepted[p.id]) == Item(p.payload, p.txtime)
    requires h' == h.(loc := h'.loc, sent := h.sent + [p], fate := h.fate[p.id := SentAt(|h.sent|)])
    ensures Mapped(h') && GoesOut(View(h), View(h'), Item(p.payload, p.txtime), p.now)
  {
    PendingLess(h.accepted, h.fate, p.id, SentAt(|h.sent|));
    assert (h.sent + [p])[..|h.sent|] == h.sent;
  }

  lemma DropView(h: Hist, h': Hist, d: Drop)
    requires Mapped(h) && d.id < |h.accepted| && h.fate[d.id] == Pending && h.accepted[d.id].txtime == d.txtime < d.now
    requires h' == h.(loc := h'.loc, lost := h'.lost, since := h'.since, dropped := h.dropped + [d],
             fate := h.fate[d.id := DroppedAt(|h.dropped|)])
    ensures Mapped(h') && IsDropped(View(h), View(h'), ItemOf(h.accepted[d.id]), d.now)
  {
    PendingLess(h.accepted, h.fate, d.id, DroppedAt(|h.dropped|));
    DroppedAdded(h.accepted, h.dropped, d);
  }

  lemma DroppedAdded(accepted: seq<Msg>, dropped: seq<Drop>, d: Drop)
    requires d.id < |accepted| && forall j :: 0 <= j < |dropped| ==> dropped[j].id < |accepted|
    ensures DroppedItems(accepted, dropped + [d]) == DroppedItems(accepted, dropped) + [ItemOf(accepted[d.id])]
  {
  }

  lemma SameView(h: Hist, h': Hist)
    requires Mapped(h)
    requires h'.accepted == h.accepted && h'.fate == h.fate && h'.sent == h.sent && h'.dropped == h.dropped
    ensures Mapped(h') && View(h') == View(h)
  {
  }

  /** One step of the system is one step of the bag, or none: a claim in the tx ring takes the
      sender's message in, the end of a copy puts a pending message on the wire unchanged, a late
      decision drops a pending one, and nothing else changes the bag. */
  ghost predicate BagStep(s: Sys, act: Act, h': Hist)
    requires Mapped(s.h) && Mapped(h')
  {
    var b, b' := View(s.h), View(h');
    if Accepts(s, act) then TakesIn(b, b', ItemOf(s.senders[act.t].msg))
    else if Transmits(s, act) then GoesOut(b, b', Item(s.daemon.buf, s.daemon.prio), s.daemon.now)
    else if Drops(s, act) then exists m: Item :: m.txtime == s.heap[0].prio && IsDropped(b, b', m, act.now)
    else b' == b
  }

  predicate Accepts(s: Sys, act: Act) {
    act.TxStep? && act.a == CasOk && act.t in s.senders && s.senders[act.t].SPut?
  }

  predicate Transmits(s: Sys, act: Act) {
    act.Fetch? && s.daemon.DCopy? && |s.daemon.buf| >= s.daemon.size
  }

  predicate Drops(s: Sys, act: Act) {
    act.Decide? && s.heap != [] && s.heap[0].prio < act.now
  }

  lemma RefinesAccept(s: Sys, t: Tid)
    requires Mapped(s.h) && TxStepOk(s, t, CasOk)
    ensures var h' := DoTxStep(s, t, CasOk).h; Mapped(h') && BagStep(s, TxStep(t, CasOk), h')
  {
    AcceptView(s.h, DoTxStep(s, t, CasOk).h, s.senders[t].msg);
  }

  /** What the daemon has copied out when it sends is the accepted message itself. */
  lemma CopyIsMessage(s: Sys)
    requires Data(s) && LocHand(s.h.loc, s.daemon) && s.daemon.DCopy? && |s.daemon.buf| >= s.daemon.size
    ensures var x := s.daemon.x;
            && x < |s.h.mid| && s.h.mid[x] < |s.h.accepted| && s.h.mid[x] < |s.h.fate|
            && var m := s.h.accepted[s.h.mid[x]];
               s.h.fate[s.h.mid[x]] == Pending && ItemOf(m) == Item(s.daemon.buf, s.daemon.prio) &&
                   Due(s.daemon.prio, s.daemon.now)
  {
    var x := s.daemon.x;
    assert Carried(s.pool, s.h, s.tx.given, x);
    var m := s.h.accepted[s.h.mid[x]];
    assert m.payload[..|m.payload|] == m.payload;
  }

  lemma RefinesSend(s: Sys)
    requires Mapped(s.h) && FetchOk(s) && s.daemon.DCopy? && |s.daemon.buf| >= s.daemon.size
    requires var id := s.h.mid[s.daemon.x];
             id < |s.h.accepted| && s.h.fate[id] == Pending &&
                 ItemOf(s.h.accepted[id]) == Item(s.daemon.buf, s.daemon.prio) && Due(s.daemon.prio, s.daemon.now)
    ensures Mapped(DoFetch(s).h) && BagStep(s, Fetch, DoFetch(s).h)
  {
    SendView(s.h, DoFetch(s).h, Packet(s.h.mid[s.daemon.x], s.daemon.buf, s.daemon.prio, s.daemon.now));
  }

  /** What a late decision does to the histories. */
  lemma LateHist(s: Sys, now: Time)
    requires DecideOk(s, now) && s.heap != [] && s.heap[0].prio < now
    ensures var h, h', d := s.h, DoDecide(s, now).h, Drop(s.h.mid[s.heap[0].data], s.heap[0].prio, now);
            h' == h.(loc := h'.loc, lost := h'.lost, since := h'.since,
                     dropped := h.dropped + [d], fate := h.fate[d.id := DroppedAt(|h.dropped|)])
  {
  }

  lemma DropIsStep(s: Sys, now: Time, h': Hist, m: Item)
    requires Mapped(s.h) && Mapped(h') && s.heap != [] && s.heap[0].prio < now
    requires m.txtime == s.heap[0].prio && IsDropped(View(s.h), View(h'), m, now)
    ensures BagStep(s, Decide(now), h')
  {
  }

  lemma RefinesDrop(s: Sys, now: Time)
    requires Mapped(s.h) && DecideOk(s, now) && s.heap != [] && s.heap[0].prio < now
    requires var id := s.h.mid[s.heap[0].data];
             id < |s.h.accepted| && s.h.fate[id] == Pending && s.h.accepted[id].txtime == s.heap[0].prio
    ensures Mapped(DoDecide(s, now).h) && BagStep(s, Decide(now), DoDecide(s, now).h)
  {
    var id := s.h.mid[s.heap[0].data];
    LateHist(s, now);
    DropView(s.h, DoDecide(s, now).h, Drop(id, s.heap[0].prio, now));
    DropIsStep(s, now, DoDecide(s, now).h, ItemOf(s.h.accepted[id]));
  }

  lemma NoEvent(s: Sys, act: Act)
    requires Can(s, act) && !Accepts(s, act) && !Transmits(s, act) && !Drops(s, act)
    ensures var h, h' := s.h, Do(s, act).h;
            h'.accepted == h.accepted && h'.fate == h.fate && h'.sent == h.sent && h'.dropped == h.dropped
  {
  }

  /** The system refines the bag: every step, from every state the invariant allows. */
  lemma SystemRefinesBag(s: Sys, act: Act)
    requires SysInv(s) && Can(s, act)
    ensures Mapped(s.h) && Mapped(Do(s, act).h) && BagStep(s, act, Do(s, act).h)
  {
    HasView(s);
    if Accepts(s, act) {
      RefinesAccept(s, act.t);
    } else if Transmits(s, act) {
      CopyIsMessage(s);
      RefinesSend(s);
    } else if Drops(s, act) {
      HeadIsMessage(s);
      RefinesDrop(s, act.now);
    } else {
      NoEvent(s, act);
      SameView(s.h, Do(s, act).h);
    }
  }

  // ---------------------------------------------------------------- runs of the bag

  /** One event of the bag, or none. */
  ghost predicate BagNext(b: Bag, b': Bag) {
    || b' == b
    || (exists m :: TakesIn(b, b', m))
    || (exists m, now :: GoesOut(b, b', m, now))
    || (exists m, now :: IsDropped(b, b', m, now))
  }

  ghost predicate BagRun(bags: seq<Bag>) {
    bags != [] && forall i :: 0 <= i < |bags| - 1 ==> BagNext(bags[i], bags[i + 1])
  }

  const EMPTY: Bag := Bag(multiset{}, [], [])

  lemma InitView(s: Sys)
    requires SysInit(s)
    ensures Mapped(s.h) && View(s.h) == EMPTY
  {
  }

  lemma BagStepIsNext(s: Sys, act: Act, h': Hist)
    requires Mapped(s.h) && Mapped(h') && BagStep(s, act, h')
    ensures BagNext(View(s.h), View(h'))
  {
  }

  lemma StepIsBagNext(s: Sys, act: Act)
    requires SysInv(s) && Can(s, act)
    ensures SysInv(Do(s, act))
    ensures Mapped(s.h) && Mapped(Do(s, act).h) && BagNext(View(s.h), View(Do(s, act).h))
  {
    StepKeeps(s, act);
    SystemRefinesBag(s, act);
    BagStepIsNext(s, act, Do(s, act).h);
  }

  lemma BagRunGrows(b: Bag, bags: seq<Bag>)
    requires BagRun(bags) && BagNext(b, bags[0])
    ensures BagRun([b] + bags)
  {
    var all := [b] + bags;
    forall i | 0 <= i < |all| - 1 ensures BagNext(all[i], all[i + 1]) {
      if i > 0 { assert BagNext(bags[i - 1], bags[i - 1 + 1]); }
    }
  }

  lemma {:induction false} RunIsBagRun(s: Sys, acts: seq<Act>) returns (bags: seq<Bag>)
    requires SysInv(s) && CanAll(s, acts)
    ensures |bags| == |acts| + 1 && BagRun(bags)
    ensures Mapped(s.h) && bags[0] == View(s.h)
    ensures Mapped(After(s, acts).h) && bags[|acts|] == View(After(s, acts).h)
    decreases |acts|
  {
    if acts == [] {
      HasView(s);
      bags := [View(s.h)];
    } else {
      StepIsBagNext(s, acts[0]);
      var rest := RunIsBagRun(Do(s, acts[0]), acts[1..]);
      BagRunGrows(View(s.h), rest);
      bags := [View(s.h)] + rest;
    }
  }

  /** The system refines the bag over whole runs: from set-up, seen as the empty bag, every run is a
      run of the bag, event for event. */
  lemma SystemRunsAreBagRuns(s: Sys, acts: seq<Act>)
    requires SysInit(s) && CanAll(s, acts)
    ensures Mapped(After(s, acts).h)
    ensures exists bags ::
              && BagRun(bags) && |bags| == |acts| + 1
              && bags[0] == EMPTY && bags[|acts|] == View(After(s, acts).h)
  {
    InitKeeps(s);
    InitView(s);
    var bags := RunIsBagRun(s, acts);
  }

  // ---------------------------------------------------------------- once, unchanged, undisturbed

  /** Over every run: each packet on the wire is one accepted message, payload and deadline
      unchanged; no message is sent twice, and none is both sent and dropped. */
  lemma SentOnceUnchanged(s: Sys, acts: seq<Act>)
    requires SysInit(s) && CanAll(s, acts)
    ensures var h := After(s, acts).h;
            && (forall j :: 0 <= j < |h.sent| ==>
                  var p := h.sent[j];
                  && p.id < |h.accepted|
                  && h.accepted[p.id].payload == p.payload && h.accepted[p.id].txtime == p.txtime)
            && (forall i, j :: 0 <= i < j < |h.sent| ==> h.sent[i].id != h.sent[j].id)
            && (forall i, j :: 0 <= i < |h.sent| && 0 <= j < |h.dropped| ==> h.sent[i].id != h.dropped[j].id)
  {
    Reachable(s, acts);
    LogsSay(After(s, acts).h, After(s, acts).tx.given);
  }

  lemma LogsSay(h: Hist, given: seq<nat>)
    requires Logs(h, given)
    ensures forall j :: 0 <= j < |h.sent| ==>
              var p := h.sent[j];
              && p.id < |h.accepted|
              && h.accepted[p.id].payload == p.payload && h.accepted[p.id].txtime == p.txtime
    ensures forall i, j :: 0 <= i < j < |h.sent| ==> h.sent[i].id != h.sent[j].id
    ensures forall i, j :: 0 <= i < |h.sent| && 0 <= j < |h.dropped| ==> h.sent[i].id != h.dropped[j].id
  {
    forall j | 0 <= j < |h.sent|
      ensures var p := h.sent[j];
              p.id < |h.accepted| && p.id < |h.fate| && h.fate[p.id] == SentAt(j)
              && h.accepted[p.id].payload == p.payload && h.accepted[p.id].txtime == p.txtime
    {
      assert PacketOk(h, j);
    }
    forall j | 0 <= j < |h.dropped| ensures h.dropped[j].id < |h.fate| && h.fate[h.dropped[j].id] == DroppedAt(j) {
      assert DropOk(h, j);
    }
  }

  lemma OnlySendersWrite(s: Sys, act: Act)
    requires Can(s, act) && !act.Write?
    ensures Do(s, act).pool == s.pool
  {
  }

  /** While a message is underway, no step of anyone touches its buffer or its metadata. */
  lemma UnderwayUndisturbed(s: Sys, act: Act, x: nat, k: nat)
    requires SysInv(s) && Can(s, act) && x < |s.h.loc| && InFlight(s.h.loc[x]) && k < MBUF
    ensures x * MBUF + k < |s.pool.mem| == |Do(s, act).pool.mem|
    ensures Do(s, act).pool.mem[x * MBUF + k] == s.pool.mem[x * MBUF + k]
    ensures x < |s.pool.times| == |Do(s, act).pool.times| && Do(s, act).pool.times[x] == s.pool.times[x]
    ensures x < |s.pool.sizes| == |Do(s, act).pool.sizes| && Do(s, act).pool.sizes[x] == s.pool.sizes[x]
  {
    if act.Write? {
      WriterOwns(s, act.t);
      OwnStoreOnly(s, act.t, x, k);
    } else {
      OnlySendersWrite(s, act);
    }
  }

  lemma OwnStoreOnly(s: Sys, t: Tid, x: nat, k: nat)
    requires Shape(s) && WriteOk(s, t) && x < |s.h.loc| && k < MBUF
    requires var sn := s.senders[t]; (sn.SFill? || sn.SSize?) && sn.x != x && (sn.SFill? ==> |sn.msg.payload| <= MBUF)
    ensures var pool := DoWrite(s, t).pool;
            && x * MBUF + k < |s.pool.mem| == |pool.mem| && pool.mem[x * MBUF + k] == s.pool.mem[x * MBUF + k]
            && |pool.times| == |s.pool.times| && pool.times[x] == s.pool.times[x]
            && |pool.sizes| == |s.pool.sizes| && pool.sizes[x] == s.pool.sizes[x]
  {
  }

  lemma WriterOwns(s: Sys, t: Tid)
    requires Place(s) && Data(s) && WriteOk(s, t)
    ensures var sn := s.senders[t];
            && (sn.SFill? || sn.SSize?) && sn.x < |s.h.loc| && s.h.loc[sn.x] == AtSender(t)
            && (sn.SFill? ==> |sn.msg.payload| <= MBUF)
  {
    assert SenderFilled(s.pool, s.senders[t], s.tx.threads[t]);
  }

  /** The size a sender stores is that of its own index, which the daemon is not reading. */
  lemma OwnStoreUnseen(s: Sys, t: Tid)
    requires Place(s) && t in s.senders && s.senders[t].SSize?
    ensures InDaemon(s.daemon) != Some(s.senders[t].x)
    ensures forall u | u in s.senders && s.senders[u].SSize? && s.senders[u].x == s.senders[t].x :: u == t
  {
    assert Holding(s.senders[t], s.tx.threads[t]) == Some(s.senders[t].x);
    forall u | u in s.senders && s.senders[u].SSize? && s.senders[u].x == s.senders[t].x ensures u == t {
      assert Holding(s.senders[u], s.tx.threads[u]) == Some(s.senders[u].x);
    }
  }

  /** A copy of `n` bytes into buffer `x` leaves the other buffers alone, whatever the contents,
      exactly when it fits: sendmsg relies on the length it never checks. */
  lemma PayloadStaysInsideIff(buffers: nat, x: nat, n: nat)
    requires x + 1 < buffers && x * MBUF + n <= buffers * MBUF
    ensures (forall mem: seq<Byte>, bytes: seq<Byte> | |mem| == buffers * MBUF && |bytes| == n ::
               Untouched(mem, mem[..x * MBUF] + bytes + mem[x * MBUF + n..], x))
            <==> n <= 2048
  {
    if n > MBUF {
      var mem: seq<Byte>, bytes: seq<Byte> := seq(buffers * MBUF, k => 0), seq(n, k => 1);
      var k := x * MBUF + MBUF;
      assert (mem[..x * MBUF] + bytes + mem[x * MBUF + n..])[k] == 1 && mem[k] == 0;
      assert !Untouched(mem, mem[..x * MBUF] + bytes + mem[x * MBUF + n..], x);
    }
  }

  /** Outside buffer `x` nothing differs. */
  ghost predicate Untouched(mem: seq<Byte>, mem': seq<Byte>, x: nat) {
    |mem'| == |mem| && forall k :: 0 <= k < |mem| && !(x * MBUF <= k < x * MBUF + MBUF) ==> mem'[k] == mem[k]
  }

  // ---------------------------------------------------------------- the range guards never block

  /** Wherever the code does not wait for another thread, the step is possible: no index, id or
      offset used by a step is ever out of range. */
  lemma GuardsNeverBlock(s: Sys, t: Tid, msg: Msg, now: Time, a: Action)
    requires SysInv(s) && s.clock <= now
    ensures t in s.senders && s.senders[t].SIdle? && |msg.payload| <= 2048 ==> SendOk(s, t, msg)
    ensures t in s.senders && (s.senders[t].SFill? || s.senders[t].SSize?) ==> WriteOk(s, t)
    ensures t in s.senders && s.senders[t].SGet? && !Begins(a) && Enabled(s.free, t, a) ==> FreeStepOk(s, t, a)
    ensures t in s.senders && s.senders[t].SPut? && !Begins(a) && Enabled(s.tx, t, a) ==> TxStepOk(s, t, a)
    ensures s.daemon.DPoll? && Enabled(s.tx, s.cfg.daemon, a) && (Begins(a) ==> a == BeginDeq(8, Variable)) ==>
            PollOk(s, a)
    ensures s.daemon.DTake? ==> QueueOk(s)
    ensures s.daemon.DLook? ==> DecideOk(s, now)
    ensures s.daemon.DSize? || s.daemon.DCopy? ==> FetchOk(s)
    ensures s.daemon.DFree? && !Begins(a) && Enabled(s.free, s.cfg.daemon, a) ==> RecycleOk(s, a)
  {
    if t in s.senders { SenderGuards(s, t, a); SendGuard(s, t, msg); }
    PollGuard(s, a);
    DaemonGuards(s, now);
    if s.daemon.DFree? { ReturnGuard(s.free, s.cfg.daemon, s.h.loc, s.daemon); }
  }

  lemma SendGuard(s: Sys, t: Tid, msg: Msg)
    requires Rings(s) && Place(s) && t in s.senders
    ensures s.senders[t].SIdle? && |msg.payload| <= 2048 ==> SendOk(s, t, msg)
  {
    assert SenderPcs(s.senders[t], s.free.threads[t], s.tx.threads[t]);
  }

  lemma PollGuard(s: Sys, a: Action)
    requires s.daemon.DPoll? ==> s.cfg.daemon in s.tx.threads
    ensures s.daemon.DPoll? && Enabled(s.tx, s.cfg.daemon, a) && (Begins(a) ==> a == BeginDeq(8, Variable)) ==>
            PollOk(s, a)
  {
  }

  lemma SenderGuards(s: Sys, t: Tid, a: Action)
    requires SysInv(s) && t in s.senders
    ensures (s.senders[t].SFill? || s.senders[t].SSize?) ==> WriteOk(s, t)
    ensures s.senders[t].SGet? && !Begins(a) && Enabled(s.free, t, a) ==> FreeStepOk(s, t, a)
    ensures s.senders[t].SPut? && !Begins(a) && Enabled(s.tx, t, a) ==> TxStepOk(s, t, a)
  {
    assert SenderPcs(s.senders[t], s.free.threads[t], s.tx.threads[t]);
    assert SenderFilled(s.pool, s.senders[t], s.tx.threads[t]);
    if s.senders[t].SGet? && a == Publish && Enabled(s.free, t, a) { TakenInRange(s, t); }
    if s.senders[t].SPut? { PutInRange(s, t); }
  }

  lemma TakenInRange(s: Sys, t: Tid)
    requires Rings(s) && Place(s) && t in s.senders && s.senders[t].SGet? && Enabled(s.free, t, Publish)
    ensures s.free.threads[t].DeqCopy? ==> |s.free.threads[t].got| == 1 && s.free.threads[t].got[0] < |s.h.loc|
  {
    var pc := s.free.threads[t];
    assert SenderPcs(s.senders[t], pc, s.tx.threads[t]);
    assert PcOk(s.free, pc);
    if pc.DeqCopy? { assert s.free.given[pc.head..pc.head + 1][0] == s.free.given[s.free.consTail]; }
  }

  lemma PutInRange(s: Sys, t: Tid)
    requires Rings(s) && Place(s) && t in s.senders && s.senders[t].SPut?
    ensures s.senders[t].x < |s.h.loc|
  {
    var pc := s.tx.threads[t];
    assert SenderPcs(s.senders[t], s.free.threads[t], pc);
    assert PcOk(s.tx, pc);
    if pc.EnqCopy? { assert s.tx.given[pc.head..pc.head + 1][0] == s.senders[t].x; }
  }

  lemma DaemonGuards(s: Sys, now: Time)
    requires SysInv(s) && s.clock <= now
    ensures s.daemon.DTake? ==> QueueOk(s)
    ensures s.daemon.DLook? ==> DecideOk(s, now)
    ensures s.daemon.DSize? || s.daemon.DCopy? ==> FetchOk(s)
  {
    if s.daemon.DLook? { HeadGuard(s, now); }
    if s.daemon.DSize? || s.daemon.DCopy? { HandGuard(s); }
  }

  lemma HeadGuard(s: Sys, now: Time)
    requires Rings(s) && Place(s) && Carrying(s.pool, s.h, s.tx.given) && s.clock <= now && s.daemon.DLook?
    ensures DecideOk(s, now)
  {
    if s.heap != [] { HeadIsMessage(s); }
  }

  lemma HandGuard(s: Sys)
    requires Rings(s) && Place(s) && Data(s) && (s.daemon.DSize? || s.daemon.DCopy?)
    ensures FetchOk(s)
  {
    assert Carried(s.pool, s.h, s.tx.given, s.daemon.x);
  }

  lemma ReturnGuard(free: State, d: Tid, loc: seq<Loc>, daemon: Daemon)
    requires Inv(free) && daemon.DFree? && d in free.threads && Enqueueing(free.threads[d], daemon.x)
    requires LocRecycle(loc, daemon, free.threads[d]) &&
             LocRing(loc, FreeRing, free.given, free.consTail, free.prodHead)
    ensures daemon.x < |loc|
  {
    var pc := free.threads[d];
    assert PcOk(free, pc);
    if pc.EnqCopy? { assert free.given[pc.head..pc.head + |pc.vals|][0] == pc.vals[0]; }
  }
}
