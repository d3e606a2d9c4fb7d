/** The rings inside the system: what the system does to each of them is a run of that ring. So the
    refinement of the u32 ring carries over to the rings of every run of the system, and the state
    after set-up is one the ring reaches by enqueueing every index. */
module SystemRings {
  import opened RingMachine
  import opened RingTheorems
  import opened RingAlone
  import opened RingAsWrittenFifo
  import opened Ring32
  import opened System
  import opened SystemTheorems
  import Bits

  // ---------------------------------------------------------------- the steps of each ring

  /** The step of the free ring in a step of the system, if there is one. */
  function FreeAct(s: Sys, act: Act): seq<(Tid, Action)>
    requires Can(s, act)
  {
    match act
    case Send(t, _) => [(t, BeginDeq(1, Variable))]
    case FreeStep(t, a) => [(t, a)]
    case Decide(now) =>
      if s.heap != [] && s.heap[0].prio < now && s.cfg.recycle
      then [(s.cfg.daemon, BeginEnq([s.heap[0].data], Variable))] else []
    case Fetch =>
      if s.daemon.DCopy? && |s.daemon.buf| >= s.daemon.size
      then [(s.cfg.daemon, BeginEnq([s.daemon.x], Variable))] else []
    case Recycle(a) => [(s.cfg.daemon, a)]
    case _ => []
  }

  function TxAct(s: Sys, act: Act): seq<(Tid, Action)>
    requires Can(s, act)
  {
    match act
    case Write(t) =>
      if s.senders[t].SSize? then [(t, BeginEnq([s.senders[t].x], Variable))] else []
    case TxStep(t, a) => [(t, a)]
    case Poll(a) => [(s.cfg.daemon, a)]
    case _ => []
  }

  ghost function FreeActs(s: Sys, acts: seq<Act>): seq<(Tid, Action)>
    requires CanAll(s, acts)
    decreases |acts|
  {
    if acts == [] then [] else FreeAct(s, acts[0]) + FreeActs(Do(s, acts[0]), acts[1..])
  }

  ghost function TxActs(s: Sys, acts: seq<Act>): seq<(Tid, Action)>
    requires CanAll(s, acts)
    decreases |acts|
  {
    if acts == [] then [] else TxAct(s, acts[0]) + TxActs(Do(s, acts[0]), acts[1..])
  }

  /** A ring after none or one step. */
  ghost predicate Stepped(r: State, acts: seq<(Tid, Action)>, r': State) {
    || (acts == [] && r' == r)
    || (|acts| == 1 && Enabled(r, acts[0].0, acts[0].1) && r' == Apply(r, acts[0].0, acts[0].1))
  }

  lemma FreeStepped(s: Sys, act: Act)
    requires Can(s, act)
    ensures Stepped(s.free, FreeAct(s, act), Do(s, act).free)
  {
  }

  lemma TxStepped(s: Sys, act: Act)
    requires Can(s, act)
    ensures Stepped(s.tx, TxAct(s, act), Do(s, act).tx)
  {
  }

  lemma RunOn(r: State, first: seq<(Tid, Action)>, r': State, rest: seq<(Tid, Action)>)
    requires Stepped(r, first, r') && CanRun(r', rest)
    ensures CanRun(r, first + rest) && RunTo(r, first + rest) == RunTo(r', rest)
  {
    if first == [] {
      assert first + rest == rest;
    } else {
      assert (first + rest)[1..] == rest;
    }
  }

  /** The free ring of a run of the system makes a run of its own. */
  lemma {:induction false} FreeRuns(s: Sys, acts: seq<Act>)
    requires CanAll(s, acts)
    ensures CanRun(s.free, FreeActs(s, acts)) && RunTo(s.free, FreeActs(s, acts)) == After(s, acts).free
    decreases |acts|
  {
    if acts != [] {
      var s' := Do(s, acts[0]);
      FreeStepped(s, acts[0]);
      FreeRuns(s', acts[1..]);
      RunOn(s.free, FreeAct(s, acts[0]), s'.free, FreeActs(s', acts[1..]));
    }
  }

  /** ... and so does the tx ring. */
  lemma {:induction false} TxRuns(s: Sys, acts: seq<Act>)
    requires CanAll(s, acts)
    ensures CanRun(s.tx, TxActs(s, acts)) && RunTo(s.tx, TxActs(s, acts)) == After(s, acts).tx
    decreases |acts|
  {
    if acts != [] {
      var s' := Do(s, acts[0]);
      TxStepped(s, acts[0]);
      TxRuns(s', acts[1..]);
      RunOn(s.tx, TxAct(s, acts[0]), s'.tx, TxActs(s', acts[1..]));
    }
  }

  // ---------------------------------------------------------------- with u32 counters

  /** What a caller learns from a ring call is the same from the u32 ring. */
  lemma SameSeen(r: State, t: Tid)
    requires 0 < r.size < Bits.W32 && t in r.threads
    ensures var pc, pc32 := r.threads[t], Lower(r).threads[t];
            && (pc32.Idle? <==> pc.Idle?)
            && (pc32.DeqCopy? <==> pc.DeqCopy?) && (pc.DeqCopy? ==> pc32.got == pc.got && pc32.n == pc.n)
  {
  }

  /** In every run of the system, as long as no thread is lapped, both rings with u32 counters and
      masks take the same steps, all of them possible, and end in the corresponding states. */
  lemma SystemRunsOnRing32(s: Sys, acts: seq<Act>)
    requires SysInit(s) && CanAll(s, acts) && Bits.GoodSize(s.cfg.size)
    requires NeverLapped(s.free, FreeActs(s, acts)) && NeverLapped(s.tx, TxActs(s, acts))
    ensures After(s, acts).free.size == After(s, acts).tx.size == s.cfg.size
    ensures CanRun32(Lower(s.free), FreeActs(s, acts)) &&
            RunTo32(Lower(s.free), FreeActs(s, acts)) == Lower(After(s, acts).free)
    ensures CanRun32(Lower(s.tx), TxActs(s, acts)) &&
            RunTo32(Lower(s.tx), TxActs(s, acts)) == Lower(After(s, acts).tx)
  {
    InitRings(s);
    FreeRuns(s, acts);
    TxRuns(s, acts);
    RunAgrees(s.free, FreeActs(s, acts));
    RunAgrees(s.tx, TxActs(s, acts));
  }

  // ---------------------------------------------------------------- set-up

  /** Enqueueing 0, 1, ..., k - 1, one at a time. */
  lemma {:induction false} FillsInOrder(r: State, t: Tid, k: nat) returns (e: State)
    requires Init(r) && t in r.threads && k <= r.Capacity()
    ensures Reaches(r, e, true) && Resting(e) && e.size == r.size && e.threads == r.threads && e.taken == []
    ensures e.consTail == 0 && e.prodTail == k && forall p :: 0 <= p < k ==> e.given[p] == p
  {
    if k == 0 {
      Start(r);
      e := r;
    } else {
      var b := FillsInOrder(r, t, k - 1);
      PutAlone(r, b, true, t, k - 1);
      e := Putting(b, k - 1);
    }
  }

  /** The system before the free ring is filled. */
  ghost predicate Blank(s: Sys) {
    && s.cfg.size > 1 && s.cfg.daemon !in s.senders
    && Init(s.free) && s.free.size == s.cfg.size && Init(s.tx) && s.tx.size == s.cfg.size
    && s.free.threads.Keys == s.senders.Keys + {s.cfg.daemon} == s.tx.threads.Keys
    && (forall t | t in s.senders :: s.senders[t] == SIdle)
    && s.daemon == DPoll && s.heap == []
    && |s.pool.times| == |s.pool.sizes| == |s.h.mid| == |s.h.loc| == s.cfg.N() && |s.pool.mem| == s.cfg.N() * MBUF
    && (forall x :: 0 <= x < s.cfg.N() ==> s.h.loc[x] == InRing(FreeRing, x))
    && s.h.accepted == [] && s.h.fate == [] && s.h.sent == [] && s.h.dropped == [] && s.h.lost == [] && s.h.since == []
  }

  lemma StoredInOrder(r: State, n: nat)
    requires Resting(r) && r.size == n + 1 && r.consTail == 0 && r.prodTail == n
    requires forall p :: 0 <= p < n ==> r.given[p] == p
    ensures forall p :: 0 <= p < n ==> r.ring[p] == p
    ensures r.Window() == seq(n, i => i)
  {
    forall p | 0 <= p < n ensures r.ring[p] == p {
      assert Stored(r, p);
      Bits.ModUnique(p, r.size, 0, p);
    }
  }

  /** The daemon's set-up loop, enqueueing every index into the empty free ring, leads to the state
      all the runs start from; the ring then holds what Runtime.FillWithIndices promises. */
  lemma SetUpLeadsToInit(s: Sys)
    requires Blank(s)
    ensures exists free ::
              && Reaches(s.free, free, true) && SysInit(s.(free := free))
              && Resting(free) && free.Window() == seq(s.cfg.N(), i => i)
  {
    var free := FillsInOrder(s.free, s.cfg.daemon, s.cfg.N());
    StoredInOrder(free, s.cfg.N());
    assert SysInit(s.(free := free));
  }
}
