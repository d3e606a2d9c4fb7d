/** The order in which messages leave the queue: a message that has left never returns, and of two
    messages queued together the earlier leaves first, exactly as long as every extraction finds a
    least head. */
module SystemLeaving {
  import opened RingMachine
  import opened Heap
  import opened HeapTheorems
  import opened System
  import opened SystemInv
  import opened SystemSteps
  import opened SystemTheorems
  import opened SystemOrder
  import opened Wrappers

  /** Message `id` is in the queue. */
  ghost predicate Queued(s: Sys, id: nat) {
    exists n :: n in multiset(s.heap) && n.data < |s.h.mid| && s.h.mid[n.data] == id
  }

  /** Message `id` has left the queue: it is in the daemon's hand, sent, or dropped. */
  ghost predicate HasLeft(s: Sys, id: nat) {
    && id < |s.h.fate|
    && (s.h.fate[id] == Pending ==>
          InDaemon(s.daemon).Some? && InDaemon(s.daemon).value < |s.h.mid| && s.h.mid[InDaemon(s.daemon).value] == id)
  }

  lemma AcceptedKept(s: Sys, act: Act)
    requires Can(s, act)
    ensures s.h.accepted <= Do(s, act).h.accepted
  {
  }

  /** Accepted messages are never forgotten or changed. */
  lemma {:induction false} AcceptedGrows(s: Sys, acts: seq<Act>)
    requires CanAll(s, acts)
    ensures s.h.accepted <= After(s, acts).h.accepted
    decreases |acts|
  {
    if acts != [] { AcceptedKept(s, acts[0]); AcceptedGrows(Do(s, acts[0]), acts[1..]); }
  }

  lemma QueuedIsMessage(s: Sys, n: Node)
    requires Carrying(s.pool, s.h, s.tx.given) && LocHeap(s.h.loc, multiset(s.heap), s.pool.times) &&
             n in multiset(s.heap)
    ensures && n.data < |s.h.mid| && s.h.loc[n.data] == InHeap
            && Carried(s.pool, s.h, s.tx.given, n.data) && n.prio == s.h.accepted[s.h.mid[n.data]].txtime
  {
    assert Carried(s.pool, s.h, s.tx.given, n.data);
  }

  /** What has left is not in the queue. */
  lemma LeftNotQueued(s: Sys, id: nat)
    requires Carrying(s.pool, s.h, s.tx.given) && Located(s) && HasLeft(s, id)
    ensures !Queued(s, id)
  {
    if InDaemon(s.daemon).Some? { assert Carried(s.pool, s.h, s.tx.given, InDaemon(s.daemon).value); }
    forall n | n in multiset(s.heap) ensures !(n.data < |s.h.mid| && s.h.mid[n.data] == id) { QueuedIsMessage(s, n); }
  }

  lemma MidKept(s: Sys, act: Act)
    requires Can(s, act) && !act.TxStep?
    ensures Do(s, act).h.mid == s.h.mid
  {
  }

  lemma MidOfOthersKept(s: Sys, t: Tid, a: Action, x: nat)
    requires TxStepOk(s, t, a) && x < |s.h.mid| && (a == CasOk ==> s.senders[t].x != x)
    ensures |DoTxStep(s, t, a).h.mid| == |s.h.mid| && DoTxStep(s, t, a).h.mid[x] == s.h.mid[x]
  {
  }

  lemma PutterHolds(s: Sys, t: Tid)
    requires Place(s) && TxStepOk(s, t, CasOk)
    ensures s.h.loc[s.senders[t].x] == AtSender(t)
  {
    assert SenderPcs(s.senders[t], s.free.threads[t], s.tx.threads[t]);
    assert Holding(s.senders[t], s.tx.threads[t]) == Some(s.senders[t].x);
  }

  /** Only a claim in the tx ring gives an index a new message, and that index is its sender's. */
  lemma MessagesKept(s: Sys, act: Act, x: nat)
    requires Place(s) && Can(s, act) && x < |s.h.mid| && (s.h.loc[x] == InHand || s.h.loc[x] == InHeap)
    ensures |Do(s, act).h.mid| == |s.h.mid| && Do(s, act).h.mid[x] == s.h.mid[x]
  {
    if act.TxStep? {
      if act.a == CasOk { PutterHolds(s, act.t); }
      MidOfOthersKept(s, act.t, act.a, x);
    } else {
      MidKept(s, act);
    }
  }

  /** A fate once decided stays decided. */
  lemma FatesKept(s: Sys, act: Act, id: nat)
    requires Can(s, act) && id < |s.h.fate|
    ensures id < |Do(s, act).h.fate|
    ensures s.h.fate[id] != Pending ==> Do(s, act).h.fate[id] != Pending
  {
  }

  /** When the daemon lets go of the message in hand, its fate is decided. */
  lemma SentIsDecided(s: Sys, id: nat)
    requires FetchOk(s) && InDaemon(s.daemon).Some? && !InDaemon(DoFetch(s).daemon).Some?
    ensures var x := InDaemon(s.daemon).value;
            x < |s.h.mid| && (s.h.mid[x] == id ==> id < |DoFetch(s).h.fate| && DoFetch(s).h.fate[id] != Pending)
  {
  }

  lemma HandStays(s: Sys, act: Act)
    requires Can(s, act) && InDaemon(s.daemon).Some?
    ensures InDaemon(Do(s, act).daemon) == InDaemon(s.daemon) || (act.Fetch? && !InDaemon(Do(s, act).daemon).Some?)
  {
  }

  /** What has left never returns. */
  lemma LeftForGood(s: Sys, act: Act, id: nat)
    requires Place(s) && Can(s, act) && HasLeft(s, id)
    ensures HasLeft(Do(s, act), id)
  {
    FatesKept(s, act, id);
    if s.h.fate[id] == Pending {
      HandStays(s, act);
      MessagesKept(s, act, InDaemon(s.daemon).value);
      if act.Fetch? && !InDaemon(Do(s, act).daemon).Some? { SentIsDecided(s, id); }
    }
  }

  lemma {:induction false} NeverReturns(s: Sys, acts: seq<Act>, id: nat)
    requires SysInv(s) && CanAll(s, acts) && HasLeft(s, id)
    ensures !Queued(After(s, acts), id)
    decreases |acts|
  {
    if acts == [] {
      LeftNotQueued(s, id);
    } else {
      LeftForGood(s, acts[0], id);
      StepKeeps(s, acts[0]);
      NeverReturns(Do(s, acts[0]), acts[1..], id);
    }
  }

  /** An entry stays in the queue, unless it is the head and the head is extracted. */
  lemma EntryStays(s: Sys, act: Act, n: Node)
    requires Can(s, act) && n in multiset(s.heap)
    ensures n in multiset(Do(s, act).heap) || (Extracts(s, act) && n == s.heap[0])
  {
    HeapAfter(s, act);
    if Extracts(s, act) {
      ExtractedContents(s.cfg.sound, s.heap);
    } else if Inserts(s, act) {
      InsertCorrect(s.heap, s.pool.times[s.daemon.batch[s.daemon.i]], s.daemon.batch[s.daemon.i]);
    }
  }

  /** A queued message stays queued, unless it is the head's and the head is extracted. */
  lemma StaysOrLeaves(s: Sys, act: Act, n: Node)
    requires Place(s) && Can(s, act) && n in multiset(s.heap) && n.data < |s.h.mid| && s.h.loc[n.data] == InHeap
    ensures Queued(Do(s, act), s.h.mid[n.data]) ||
            (Extracts(s, act) && n == s.heap[0] && HasLeft(Do(s, act), s.h.mid[n.data]))
  {
    MessagesKept(s, act, n.data);
    EntryStays(s, act, n);
    if Extracts(s, act) && n == s.heap[0] { HeadLeaves(s, act.now); }
  }

  lemma HeadLeaves(s: Sys, now: Time)
    requires DecideOk(s, now) && s.heap != [] && s.heap[0].prio - now <= DELTA
    ensures HasLeft(DoDecide(s, now), s.h.mid[s.heap[0].data])
  {
  }

  // ---------------------------------------------------------------- least heads

  /** The step extracts nothing, or a least entry. */
  predicate TakesLeast(s: Sys, act: Act) {
    Extracts(s, act) ==> HeadLeast(s.heap)
  }

  ghost predicate AllTakeLeast(s: Sys, acts: seq<Act>)
    requires CanAll(s, acts)
    decreases |acts|
  {
    acts != [] ==> TakesLeast(s, acts[0]) && AllTakeLeast(Do(s, acts[0]), acts[1..])
  }

  /** A run that sinks well takes least entries only. */
  lemma {:induction false} SinkingTakesLeast(s: Sys, acts: seq<Act>)
    requires CanAll(s, acts) && AllSinkWell(s, acts) && HeapOrder(s.heap)
    ensures AllTakeLeast(s, acts)
    decreases |acts|
  {
    if acts != [] {
      HeadOfHeap(s.heap);
      StepOrderIff(s, acts[0]);
      SinkingTakesLeast(Do(s, acts[0]), acts[1..]);
    }
  }

  lemma LeastHead(heap: seq<Node>, n: Node)
    requires HeadLeast(heap) && n in multiset(heap)
    ensures heap[0].prio <= n.prio
  {
    assert n in heap;
    var k :| 0 <= k < |heap| && heap[k] == n;
  }

  // ---------------------------------------------------------------- one step

  /** If both messages are queued at `s`, and at `s'` only `b` is, then `a` is not the later one. */
  ghost predicate Fair(s: Sys, s': Sys, a: nat, b: nat) {
    Queued(s, a) && Queued(s, b) && !Queued(s', a) && Queued(s', b) ==>
      a < |s.h.accepted| && b < |s.h.accepted| && s.h.accepted[a].txtime <= s.h.accepted[b].txtime
  }

  ghost predicate LeavesFairly(s: Sys, s': Sys) {
    forall a: nat, b: nat :: Fair(s, s', a, b)
  }

  /** The queue entry of a message. */
  ghost function EntryOf(s: Sys, id: nat): (n: Node)
    requires Queued(s, id)
    ensures n in multiset(s.heap) && n.data < |s.h.mid| && s.h.mid[n.data] == id
  {
    var n :| n in multiset(s.heap) && n.data < |s.h.mid| && s.h.mid[n.data] == id;
    n
  }

  lemma HeadIsEarlier(s: Sys, m: Node, n: Node)
    requires Carrying(s.pool, s.h, s.tx.given) && LocHeap(s.h.loc, multiset(s.heap), s.pool.times)
    requires m in multiset(s.heap) && n in multiset(s.heap) && m == s.heap[0] && HeadLeast(s.heap)
    ensures m.data < |s.h.mid| && n.data < |s.h.mid|
    ensures var a, b := s.h.mid[m.data], s.h.mid[n.data];
            a < |s.h.accepted| && b < |s.h.accepted| && s.h.accepted[a].txtime <= s.h.accepted[b].txtime
  {
    QueuedIsMessage(s, m);
    QueuedIsMessage(s, n);
    LeastHead(s.heap, n);
  }

  lemma FairPair(s: Sys, act: Act, a: nat, b: nat)
    requires SysInv(s) && Can(s, act) && TakesLeast(s, act)
    ensures Fair(s, Do(s, act), a, b)
  {
    if Queued(s, a) && Queued(s, b) && !Queued(Do(s, act), a) {
      var m, n := EntryOf(s, a), EntryOf(s, b);
      QueuedIsMessage(s, m);
      StaysOrLeaves(s, act, m);
      HeadIsEarlier(s, m, n);
    }
  }

  lemma TakingLeastIsFair(s: Sys, act: Act)
    requires SysInv(s) && Can(s, act) && TakesLeast(s, act)
    ensures LeavesFairly(s, Do(s, act))
  {
    forall a: nat, b: nat ensures Fair(s, Do(s, act), a, b) { FairPair(s, act, a, b); }
  }

  lemma UnfairPair(s: Sys, s': Sys, m: Node, n: Node)
    requires Carrying(s.pool, s.h, s.tx.given) && LocHeap(s.h.loc, multiset(s.heap), s.pool.times)
    requires m in multiset(s.heap) && n in multiset(s.heap) && n.prio < m.prio && m.data < |s.h.mid| &&
             n.data < |s.h.mid|
    requires !Queued(s', s.h.mid[m.data]) && Queued(s', s.h.mid[n.data])
    ensures !LeavesFairly(s, s')
  {
    QueuedIsMessage(s, m);
    QueuedIsMessage(s, n);
    assert Queued(s, s.h.mid[m.data]) && Queued(s, s.h.mid[n.data]);
    assert !Fair(s, s', s.h.mid[m.data], s.h.mid[n.data]);
  }

  lemma HeadGone(s: Sys, act: Act)
    requires SysInv(s) && Can(s, act) && Extracts(s, act)
    ensures s.heap[0].data < |s.h.mid| && !Queued(Do(s, act), s.h.mid[s.heap[0].data])
  {
    HeadLeaves(s, act.now);
    StepKeeps(s, act);
    LeftNotQueued(Do(s, act), s.h.mid[s.heap[0].data]);
  }

  lemma TakingMoreIsUnfair(s: Sys, act: Act, k: nat)
    requires SysInv(s) && Can(s, act) && Extracts(s, act) && k < |s.heap| && s.heap[k].prio < s.heap[0].prio
    ensures !LeavesFairly(s, Do(s, act))
  {
    var m, n := s.heap[0], s.heap[k];
    assert m in multiset(s.heap) && n in multiset(s.heap);
    QueuedIsMessage(s, n);
    StaysOrLeaves(s, act, n);
    HeadGone(s, act);
    UnfairPair(s, Do(s, act), m, n);
  }

  /** A step lets messages leave in deadline order exactly when it extracts nothing or a least
      entry, whichever form heapify has. */
  lemma LeavesFairlyIff(s: Sys, act: Act)
    requires SysInv(s) && Can(s, act)
    ensures LeavesFairly(s, Do(s, act)) <==> TakesLeast(s, act)
  {
    if TakesLeast(s, act) {
      TakingLeastIsFair(s, act);
    } else {
      var k :| 0 <= k < |s.heap| && s.heap[k].prio < s.heap[0].prio;
      TakingMoreIsUnfair(s, act, k);
    }
  }

  // ---------------------------------------------------------------- whole runs

  /** What is queued before and after is queued in between. */
  lemma StillQueued(s: Sys, act: Act, more: seq<Act>, b: nat)
    requires SysInv(s) && Can(s, act) && SysInv(Do(s, act)) && CanAll(Do(s, act), more)
    requires Queued(s, b) && Queued(After(Do(s, act), more), b)
    ensures Queued(Do(s, act), b)
  {
    var n := EntryOf(s, b);
    QueuedIsMessage(s, n);
    StaysOrLeaves(s, act, n);
    if HasLeft(Do(s, act), b) { NeverReturns(Do(s, act), more, b); }
  }

  /** `a` was accepted with no later a deadline than `b`. */
  ghost predicate NoLater(accepted: seq<Msg>, a: nat, b: nat) {
    a < |accepted| && b < |accepted| && accepted[a].txtime <= accepted[b].txtime
  }

  /** The first step of a run in which `b` stays queued: `a` stays too, or leaves in order. */
  lemma LeaveStep(e: Sys, act: Act, rest: seq<Act>, a: nat, b: nat)
    requires SysInv(e) && Can(e, act) && TakesLeast(e, act) && CanAll(Do(e, act), rest)
    requires Queued(e, a) && Queued(e, b) && Queued(After(Do(e, act), rest), b)
    ensures SysInv(Do(e, act)) && Queued(Do(e, act), b)
    ensures Queued(Do(e, act), a) || NoLater(After(Do(e, act), rest).h.accepted, a, b)
  {
    StepKeeps(e, act);
    StillQueued(e, act, rest, b);
    FairPair(e, act, a, b);
    AcceptedKept(e, act);
    AcceptedGrows(Do(e, act), rest);
  }

  lemma {:induction false} LeaveInOrder(e: Sys, more: seq<Act>, a: nat, b: nat)
    requires SysInv(e) && CanAll(e, more) && AllTakeLeast(e, more)
    requires Queued(e, a) && Queued(e, b) && Queued(After(e, more), b) && !Queued(After(e, more), a)
    ensures NoLater(After(e, more).h.accepted, a, b)
    decreases |more|
  {
    if more != [] {
      LeaveStep(e, more[0], more[1..], a, b);
      if Queued(Do(e, more[0]), a) { LeaveInOrder(Do(e, more[0]), more[1..], a, b); }
    }
  }

  /** Earliest deadline first, whatever is inserted meanwhile and whichever form heapify has, as long
      as extractions find least heads: of two messages queued at one moment, if later one has left
      the queue, sent or dropped, and the other has not, the one that left has the earlier or equal
      deadline. */
  lemma QueuedTogetherLeaveInOrder(s: Sys, acts: seq<Act>, more: seq<Act>, a: nat, b: nat)
    requires SysInit(s) && CanAll(s, acts) && CanAll(After(s, acts), more) && AllTakeLeast(After(s, acts), more)
    requires var e, f := After(s, acts), After(After(s, acts), more);
             Queued(e, a) && Queued(e, b) && Queued(f, b) && !Queued(f, a)
    ensures NoLater(After(After(s, acts), more).h.accepted, a, b)
  {
    Reachable(s, acts);
    LeaveInOrder(After(s, acts), more, a, b);
  }
}
