/** The system with the ring copies as written, and when it is the system as intended. */
module SystemAsWritten {
  import opened RingMachine
  import opened RingAsWritten
  import opened System
  import opened SystemInv
  import opened SystemSteps
  import opened SystemTheorems

  /** The system and the memory behind its two rings. */
  datatype WideSys = WideSys(s: Sys, behindFree: seq<nat>, behindTx: seq<nat>)

  /** A step that copies a ring slot: by whom, in which ring. */
  predicate CopiesFree(act: Act) {
    (act.FreeStep? || act.Recycle?) && act.a == CopySlot
  }

  predicate CopiesTx(act: Act) {
    (act.TxStep? || act.Poll?) && act.a == CopySlot
  }

  function Mover(s: Sys, act: Act): Tid {
    if act.FreeStep? || act.TxStep? then act.t else s.cfg.daemon
  }

  predicate CanWide(w: WideSys, act: Act) {
    && Can(w.s, act)
    && (CopiesFree(act) ==> EnabledWide(Wide(w.s.free, w.behindFree), Mover(w.s, act), CopySlot))
    && (CopiesTx(act) ==> EnabledWide(Wide(w.s.tx, w.behindTx), Mover(w.s, act), CopySlot))
  }

  function DoWide(w: WideSys, act: Act): WideSys
    requires CanWide(w, act)
  {
    if CopiesFree(act) then
      var r := ApplyWide(Wide(w.s.free, w.behindFree), Mover(w.s, act), CopySlot);
      w.(s := w.s.(free := r.s), behindFree := r.behind)
    else if CopiesTx(act) then
      var r := ApplyWide(Wide(w.s.tx, w.behindTx), Mover(w.s, act), CopySlot);
      w.(s := w.s.(tx := r.s), behindTx := r.behind)
    else w.(s := Do(w.s, act))
  }

  // ---------------------------------------------------------------- one step

  /** As written, the step does what it should, whatever lies behind the rings. */
  ghost predicate SameSysStep(s: Sys, act: Act)
    requires Can(s, act)
  {
    && (CopiesFree(act) ==> SameStep(s.free, Mover(s, act), CopySlot))
    && (CopiesTx(act) ==> SameStep(s.tx, Mover(s, act), CopySlot))
  }

  /** The step does not copy past the end of the tx ring while polling. */
  predicate PollInside(s: Sys, act: Act)
    requires Can(s, act)
  {
    act == Poll(CopySlot) ==> Inside(s.tx, s.cfg.daemon, CopySlot)
  }

  /** What SameSysStep comes to. */
  lemma SameSysStepIs(s: Sys, act: Act, behindFree: seq<nat>, behindTx: seq<nat>)
    requires Can(s, act) && SameSysStep(s, act) && |behindFree| == s.free.size && |behindTx| == s.tx.size
    ensures var w := WideSys(s, behindFree, behindTx);
            CanWide(w, act) && DoWide(w, act) == WideSys(Do(s, act), behindFree, behindTx)
  {
  }

  /** Whoever copies, other than the daemon polling, copies one entry, and so stays inside. */
  lemma OneEntrySame(r: State, t: Tid)
    requires Inv(r) && Enabled(r, t, CopySlot) && ClaimSize(r.threads[t]) == 1
    ensures SameStep(r, t, CopySlot)
  {
    assert PcOk(r, r.threads[t]);
    SameStepIff(r, t, CopySlot);
  }

  lemma OnePut(r: State, t: Tid, x: nat)
    requires Inv(r) && Enabled(r, t, CopySlot) && Enqueueing(r.threads[t], x)
    ensures SameStep(r, t, CopySlot)
  {
    OneEntrySame(r, t);
  }

  lemma OneGet(r: State, t: Tid)
    requires Inv(r) && Enabled(r, t, CopySlot) && Dequeueing(r.threads[t], 1)
    ensures SameStep(r, t, CopySlot)
  {
    assert PcOk(r, r.threads[t]);
    OneEntrySame(r, t);
  }

  lemma SameGetStep(s: Sys, t: Tid)
    requires Rings(s) && Place(s) && FreeStepOk(s, t, CopySlot)
    ensures SameSysStep(s, FreeStep(t, CopySlot))
  {
    assert SenderPcs(s.senders[t], s.free.threads[t], s.tx.threads[t]);
    OneGet(s.free, t);
  }

  lemma SameBackStep(s: Sys)
    requires Rings(s) && Place(s) && RecycleOk(s, CopySlot)
    ensures SameSysStep(s, Recycle(CopySlot))
  {
    DaemonReturns(s);
    OnePut(s.free, s.cfg.daemon, s.daemon.x);
  }

  lemma SamePutStep(s: Sys, t: Tid)
    requires Rings(s) && Place(s) && TxStepOk(s, t, CopySlot)
    ensures SameSysStep(s, TxStep(t, CopySlot))
  {
    SenderPuts(s, t);
    OnePut(s.tx, t, s.senders[t].x);
  }

  lemma SamePollIff(s: Sys)
    requires Rings(s) && PollOk(s, CopySlot)
    ensures SameStep(s.tx, s.cfg.daemon, CopySlot) <==> PollInside(s, Poll(CopySlot))
    ensures Fits(s.tx, s.cfg.daemon) ==> PollInside(s, Poll(CopySlot))
  {
    assert PcOk(s.tx, s.tx.threads[s.cfg.daemon]);
    SameStepIff(s.tx, s.cfg.daemon, CopySlot);
  }

  /** A step is as intended exactly when it is not a copy past the end while polling. */
  lemma SameSysStepIff(s: Sys, act: Act)
    requires SysInv(s) && Can(s, act)
    ensures SameSysStep(s, act) <==> PollInside(s, act)
  {
    if act == Poll(CopySlot) { SamePollIff(s); } else { OthersSame(s, act); }
  }

  lemma OthersSame(s: Sys, act: Act)
    requires Rings(s) && Place(s) && Can(s, act) && act != Poll(CopySlot)
    ensures SameSysStep(s, act)
  {
    if CopiesFree(act) {
      if act.FreeStep? { SameGetStep(s, act.t); } else { SameBackStep(s); }
    } else if CopiesTx(act) {
      SamePutStep(s, act.t);
    }
  }

  // ---------------------------------------------------------------- whole runs

  ghost predicate CanAllWide(w: WideSys, acts: seq<Act>)
    decreases |acts|
  {
    acts == [] || (CanWide(w, acts[0]) && CanAllWide(DoWide(w, acts[0]), acts[1..]))
  }

  ghost function AfterWide(w: WideSys, acts: seq<Act>): WideSys
    requires CanAllWide(w, acts)
    decreases |acts|
  {
    if acts == [] then w else AfterWide(DoWide(w, acts[0]), acts[1..])
  }

  ghost predicate SameSysRun(s: Sys, acts: seq<Act>)
    requires CanAll(s, acts)
    decreases |acts|
  {
    acts != [] ==> SameSysStep(s, acts[0]) && SameSysRun(Do(s, acts[0]), acts[1..])
  }

  /** No step of the run copies past the end of the tx ring while polling. */
  ghost predicate AllInside(s: Sys, acts: seq<Act>)
    requires CanAll(s, acts)
    decreases |acts|
  {
    acts != [] ==> PollInside(s, acts[0]) && AllInside(Do(s, acts[0]), acts[1..])
  }

  lemma {:induction false} InsideIsSame(s: Sys, acts: seq<Act>)
    requires SysInv(s) && CanAll(s, acts)
    ensures AllInside(s, acts) <==> SameSysRun(s, acts)
    decreases |acts|
  {
    if acts != [] {
      SameSysStepIff(s, acts[0]);
      StepKeeps(s, acts[0]);
      InsideIsSame(Do(s, acts[0]), acts[1..]);
    }
  }

  lemma ConfigKept(s: Sys, act: Act)
    requires Can(s, act)
    ensures Do(s, act).cfg == s.cfg
  {
  }

  /** A run as intended throughout ends as intended, with the memory behind the rings untouched. */
  lemma {:induction false} SameSysRunEnds(s: Sys, acts: seq<Act>, behindFree: seq<nat>, behindTx: seq<nat>)
    requires SysInv(s) && CanAll(s, acts) && SameSysRun(s, acts)
    requires |behindFree| == s.cfg.size && |behindTx| == s.cfg.size
    ensures var w := WideSys(s, behindFree, behindTx);
            CanAllWide(w, acts) && AfterWide(w, acts) == WideSys(After(s, acts), behindFree, behindTx)
    decreases |acts|
  {
    if acts != [] {
      SameSysStepIs(s, acts[0], behindFree, behindTx);
      StepKeeps(s, acts[0]);
      ConfigKept(s, acts[0]);
      SameSysRunEnds(Do(s, acts[0]), acts[1..], behindFree, behindTx);
    }
  }

  /** The step is not a burst claimed past the end of the tx ring. */
  ghost predicate BurstFits(s: Sys, act: Act)
    requires Can(s, act)
  {
    act == Poll(CasOk) ==>
      s.tx.threads[s.cfg.daemon].oldHead % s.tx.size + s.tx.threads[s.cfg.daemon].n <= s.tx.size
  }

  /** Every burst the daemon claims has head % size + n <= size. */
  ghost predicate BurstsFit(s: Sys, acts: seq<Act>)
    requires CanAll(s, acts)
    decreases |acts|
  {
    acts != [] ==> BurstFits(s, acts[0]) && BurstsFit(Do(s, acts[0]), acts[1..])
  }

  /** The daemon polls only with dequeues, and nobody else moves its place in the tx ring. */
  ghost predicate Polling(s: Sys) {
    s.cfg.daemon in s.tx.threads && s.cfg.daemon !in s.senders
    && (var pc := s.tx.threads[s.cfg.daemon]; pc == Idle || pc.DeqLoad? || pc.DeqCas? || pc.DeqCopy?)
  }

  lemma DaemonPolls(s: Sys)
    requires Place(s)
    ensures Polling(s)
  {
  }

  lemma OthersLeaveDaemon(s: Sys, act: Act)
    requires Can(s, act) && Polling(s) && !act.Poll?
    ensures s.cfg.daemon in Do(s, act).tx.threads && Do(s, act).tx.size == s.tx.size
    ensures Do(s, act).tx.threads[s.cfg.daemon] == s.tx.threads[s.cfg.daemon]
  {
    if !act.Write? && !act.TxStep? { assert Do(s, act).tx == s.tx; }
  }

  lemma PollMovesRing(s: Sys, a: Action)
    requires PollOk(s, a)
    ensures Enabled(s.tx, s.cfg.daemon, a) && DoPoll(s, a).tx == Apply(s.tx, s.cfg.daemon, a)
  {
  }

  lemma DaemonPlaceKept(s: Sys, act: Act)
    requires Can(s, act) && Polling(s)
    ensures Do(s, act).cfg == s.cfg
    ensures !act.Poll? ==>
              && s.cfg.daemon in Do(s, act).tx.threads && Do(s, act).tx.size == s.tx.size
              && Do(s, act).tx.threads[s.cfg.daemon] == s.tx.threads[s.cfg.daemon]
    ensures act.Poll? ==> Enabled(s.tx, s.cfg.daemon, act.a) && Do(s, act).tx == Apply(s.tx, s.cfg.daemon, act.a)
  {
    ConfigKept(s, act);
    if act.Poll? { PollMovesRing(s, act.a); } else { OthersLeaveDaemon(s, act); }
  }

  lemma BurstStep(s: Sys, act: Act)
    requires Can(s, act) && Polling(s) && Fits(s.tx, s.cfg.daemon) && BurstFits(s, act)
    ensures Fits(Do(s, act).tx, s.cfg.daemon)
  {
    DaemonPlaceKept(s, act);
    if act.Poll? { PollFits(s.tx, s.cfg.daemon, act.a); }
  }

  lemma PollFits(r: State, d: Tid, a: Action)
    requires Enabled(r, d, a) && Fits(r, d) && !r.threads[d].EnqCas?
    requires a == CasOk ==> r.threads[d].oldHead % r.size + r.threads[d].n <= r.size
    ensures Fits(Apply(r, d, a), d)
  {
  }

  lemma {:induction false} FittingSysRun(s: Sys, acts: seq<Act>)
    requires SysInv(s) && CanAll(s, acts) && BurstsFit(s, acts) && Fits(s.tx, s.cfg.daemon)
    ensures SameSysRun(s, acts)
    decreases |acts|
  {
    if acts != [] {
      DaemonPolls(s);
      BurstStep(s, acts[0]);
      DaemonPlaceKept(s, acts[0]);
      SameSysStepIff(s, acts[0]);
      if acts[0] == Poll(CopySlot) { SamePollIff(s); }
      StepKeeps(s, acts[0]);
      FittingSysRun(Do(s, acts[0]), acts[1..]);
    }
  }

  lemma UnfitSysStep(s: Sys, act: Act)
    requires Can(s, act) && Polling(s) && Unfit(s.tx, s.cfg.daemon) && PollInside(s, act)
    ensures Unfit(Do(s, act).tx, s.cfg.daemon)
  {
    DaemonPlaceKept(s, act);
    if act.Poll? { UnfitStep(s.tx, s.cfg.daemon, act.a, s.cfg.daemon); }
  }

  /** A burst that does not fit, once finished, was read past the end on the way. */
  lemma {:induction false} FinishedBurstShows(s: Sys, acts: seq<Act>)
    requires SysInv(s) && CanAll(s, acts) && Unfit(s.tx, s.cfg.daemon)
    requires var e := After(s, acts); s.cfg.daemon in e.tx.threads && e.tx.threads[s.cfg.daemon] == Idle
    ensures !SameSysRun(s, acts)
    decreases |acts|
  {
    if acts != [] {
      DaemonPolls(s);
      DaemonPlaceKept(s, acts[0]);
      SameSysStepIff(s, acts[0]);
      if PollInside(s, acts[0]) {
        UnfitSysStep(s, acts[0]);
        StepKeeps(s, acts[0]);
        FinishedBurstShows(Do(s, acts[0]), acts[1..]);
      }
    }
  }

  lemma ClaimedBurst(s: Sys)
    requires Rings(s) && Place(s) && PollOk(s, CasOk) && !BurstFits(s, Poll(CasOk))
    ensures Unfit(Do(s, Poll(CasOk)).tx, s.cfg.daemon)
  {
    DaemonPolls(s);
    assert PcOk(s.tx, s.tx.threads[s.cfg.daemon]);
  }

  lemma {:induction false} SameSysRunFits(s: Sys, acts: seq<Act>)
    requires SysInv(s) && CanAll(s, acts) && SameSysRun(s, acts)
    requires var e := After(s, acts); s.cfg.daemon in e.tx.threads && e.tx.threads[s.cfg.daemon] == Idle
    ensures BurstsFit(s, acts)
    decreases |acts|
  {
    if acts != [] {
      DaemonPolls(s);
      DaemonPlaceKept(s, acts[0]);
      StepKeeps(s, acts[0]);
      if !BurstFits(s, acts[0]) {
        ClaimedBurst(s);
        FinishedBurstShows(Do(s, acts[0]), acts[1..]);
      }
      SameSysRunFits(Do(s, acts[0]), acts[1..]);
    }
  }

  /** Over every run between two moments at which the daemon is not polling, with any number of
      senders: the system as written does at each step what it should, whatever lies behind its
      rings, exactly when every burst claimed has head % size + n <= size. */
  lemma AsWrittenSystemIff(s: Sys, acts: seq<Act>)
    requires SysInit(s) && CanAll(s, acts)
    requires var e := After(s, acts); s.cfg.daemon in e.tx.threads && e.tx.threads[s.cfg.daemon] == Idle
    ensures SameSysRun(s, acts) <==> BurstsFit(s, acts)
  {
    InitKeeps(s);
    if BurstsFit(s, acts) { FittingSysRun(s, acts); }
    if SameSysRun(s, acts) { SameSysRunFits(s, acts); }
  }
}
