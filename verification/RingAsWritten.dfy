/** The ring with the copy loops as written: entry i of a claim goes to, or comes from, element
    head % size + i of the ring's memory, even past its end. `behind` is the memory after the ring. */
module RingAsWritten {
  import opened RingMachine
  import opened RingTheorems
  import opened RingCopy

  datatype Wide = Wide(s: State, behind: seq<Elem>)

  predicate Copying(pc: Pc) { pc.EnqCopy? || pc.DeqCopy? }

  /** How many entries a claim has, and how many of them are copied. */
  function ClaimSize(pc: Pc): nat
    requires Copying(pc)
  {
    if pc.EnqCopy? then |pc.vals| else pc.n
  }

  function Copied(pc: Pc): nat
    requires Copying(pc)
  {
    if pc.EnqCopy? then pc.done else |pc.got|
  }

  /** The element the next copy of a claim uses. */
  function Index(pc: Pc, size: nat): nat
    requires Copying(pc) && size > 0
  {
    pc.head % size + Copied(pc)
  }

  predicate EnabledWide(w: Wide, t: Tid, a: Action) {
    Enabled(w.s, t, a) && (a == CopySlot ==> Index(w.s.threads[t], w.s.size) < w.s.size + |w.behind|)
  }

  function ApplyWide(w: Wide, t: Tid, a: Action): Wide
    requires EnabledWide(w, t, a)
  {
    var s, pc := w.s, w.s.threads[t];
    if a != CopySlot then w.(s := Apply(s, t, a))
    else
      var k := Index(pc, s.size);
      if pc.EnqCopy? then
        var s' := s.(threads := s.threads[t := pc.(done := pc.done + 1)]);
        if k < s.size then w.(s := s'.(ring := s.ring[k := pc.vals[pc.done]]))
        else Wide(s', w.behind[k - s.size := pc.vals[pc.done]])
      else
        var x := if k < s.size then s.ring[k] else w.behind[k - s.size];
        w.(s := s.(threads := s.threads[t := pc.(got := pc.got + [x])]))
  }

  // ---------------------------------------------------------------- one step

  /** The ring and what lies behind it are one memory: a copy as written stores into, or reads from,
      element head % size + i of it, and every other step leaves it alone. */
  lemma OneMemory(w: Wide, t: Tid, a: Action)
    requires EnabledWide(w, t, a) && |w.s.ring| == w.s.size
    ensures var w', pc, mem := ApplyWide(w, t, a), w.s.threads[t], w.s.ring + w.behind;
            var mem' := w'.s.ring + w'.behind;
            && |w'.s.ring| == |w.s.ring|
            && (a == CopySlot && pc.EnqCopy? ==>
                  && mem' == mem[Index(pc, w.s.size) := pc.vals[pc.done]]
                  && w'.s.threads == w.s.threads[t := pc.(done := pc.done + 1)])
            && (a == CopySlot && pc.DeqCopy? ==>
                  && mem' == mem
                  && w'.s.threads == w.s.threads[t := pc.(got := pc.got + [mem[Index(pc, w.s.size)]])])
            && (a != CopySlot ==> mem' == mem && w'.s == Apply(w.s, t, a))
  {
  }

  /** The step copies nothing past the end of the ring. */
  predicate Inside(s: State, t: Tid, a: Action)
    requires Enabled(s, t, a)
  {
    a == CopySlot ==> Index(s.threads[t], s.size) < s.size
  }

  /** The step is a step of the intended ring, whatever lies behind it. */
  ghost predicate SameStep(s: State, t: Tid, a: Action)
    requires Enabled(s, t, a)
  {
    forall behind: seq<Elem> | |behind| == s.size ::
      EnabledWide(Wide(s, behind), t, a) && ApplyWide(Wide(s, behind), t, a) == Wide(Apply(s, t, a), behind)
  }

  lemma InsideIsSlot(s: State, t: Tid)
    requires Counters(s) && Enabled(s, t, CopySlot) && PcOk(s, s.threads[t])
    ensures var pc := s.threads[t];
            && Copied(pc) < ClaimSize(pc) < s.size
            && (Index(pc, s.size) < s.size ==> (pc.head + Copied(pc)) % s.size == Index(pc, s.size))
  {
    SlotFrom(s.threads[t].head, Copied(s.threads[t]), s.size);
  }

  /** Past the end, a write goes to memory that is not the ring's. */
  lemma WriteOutside(s: State, t: Tid, k: nat)
    requires Enabled(s, t, CopySlot) && s.threads[t].EnqCopy? && Index(s.threads[t], s.size) == s.size + k && k < s.size
    ensures !SameStep(s, t, CopySlot)
  {
    var x := s.threads[t].vals[s.threads[t].done];
    var behind: seq<Elem> := seq(s.size, i => x + 1);
    assert |behind| == s.size && behind[k] == x + 1;
    var w := ApplyWide(Wide(s, behind), t, CopySlot);
    assert w.behind[k] == x;
  }

  /** ... and a read comes from there. */
  lemma ReadOutside(s: State, t: Tid, k: nat)
    requires Enabled(s, t, CopySlot) && s.threads[t].DeqCopy? && Index(s.threads[t], s.size) == s.size + k && k < s.size
    ensures !SameStep(s, t, CopySlot)
  {
    var got := s.threads[t].got;
    var got' := Apply(s, t, CopySlot).threads[t].got;
    var behind: seq<Elem> := seq(s.size, i => got'[|got|] + 1);
    assert |behind| == s.size && behind[k] == got'[|got|] + 1;
    var w := ApplyWide(Wide(s, behind), t, CopySlot);
    assert w.s.threads[t].got[|got|] == behind[k];
  }

  lemma SameElsewhere(s: State, t: Tid, a: Action)
    requires Enabled(s, t, a) && a != CopySlot
    ensures SameStep(s, t, a)
  {
  }

  lemma SameInside(s: State, t: Tid)
    requires Counters(s) && Enabled(s, t, CopySlot) && PcOk(s, s.threads[t]) && Inside(s, t, CopySlot)
    ensures SameStep(s, t, CopySlot)
  {
    InsideIsSlot(s, t);
  }

  lemma SameStepIff(s: State, t: Tid, a: Action)
    requires Counters(s) && Enabled(s, t, a) && PcOk(s, s.threads[t])
    ensures SameStep(s, t, a) <==> Inside(s, t, a)
    ensures Fits(s, t) ==> Inside(s, t, a)
  {
    if a != CopySlot {
      SameElsewhere(s, t, a);
    } else if Inside(s, t, a) {
      SameInside(s, t);
    } else {
      InsideIsSlot(s, t);
      var k := Index(s.threads[t], s.size) - s.size;
      if s.threads[t].EnqCopy? { WriteOutside(s, t, k); } else { ReadOutside(s, t, k); }
    }
  }

  // ---------------------------------------------------------------- whole runs

  ghost predicate CanRunWide(w: Wide, acts: seq<(Tid, Action)>)
    decreases |acts|
  {
    acts == [] || (EnabledWide(w, acts[0].0, acts[0].1) && CanRunWide(ApplyWide(w, acts[0].0, acts[0].1), acts[1..]))
  }

  ghost function RunWide(w: Wide, acts: seq<(Tid, Action)>): Wide
    requires CanRunWide(w, acts)
    decreases |acts|
  {
    if acts == [] then w else RunWide(ApplyWide(w, acts[0].0, acts[0].1), acts[1..])
  }

  /** At every step of the run the ring as written does what the intended ring does. */
  ghost predicate SameRun(s: State, acts: seq<(Tid, Action)>)
    requires CanRun(s, acts)
    decreases |acts|
  {
    acts != [] ==> SameStep(s, acts[0].0, acts[0].1) && SameRun(Apply(s, acts[0].0, acts[0].1), acts[1..])
  }

  /** Such a run ends where the intended one does, with the memory behind the ring untouched. */
  lemma {:induction false} SameRunEnds(s: State, behind: seq<Elem>, acts: seq<(Tid, Action)>)
    requires CanRun(s, acts) && SameRun(s, acts) && |behind| == s.size
    ensures CanRunWide(Wide(s, behind), acts) && RunWide(Wide(s, behind), acts) == Wide(RunTo(s, acts), behind)
    decreases |acts|
  {
    if acts != [] {
      var s' := Apply(s, acts[0].0, acts[0].1);
      assert s'.size == s.size;
      SameRunEnds(s', behind, acts[1..]);
    }
  }

  /** Every claim made in the run fits between its first slot and the end of the ring. */
  ghost predicate ClaimsFit(s: State, acts: seq<(Tid, Action)>)
    requires CanRun(s, acts)
    decreases |acts|
  {
    acts != [] ==>
      var s' := Apply(s, acts[0].0, acts[0].1);
      (acts[0].1 == CasOk ==> Fits(s', acts[0].0)) && ClaimsFit(s', acts[1..])
  }

  /** The claim of thread `t`, if it has one, fits. */
  ghost predicate Fits(s: State, t: Tid) {
    t in s.threads && s.size > 0 && Copying(s.threads[t]) ==>
        s.threads[t].head % s.size + ClaimSize(s.threads[t]) <= s.size
  }

  lemma StepFits(s: State, t: Tid, a: Action, u: Tid)
    requires Enabled(s, t, a) && Fits(s, u) && (a == CasOk ==> Fits(Apply(s, t, a), t))
    ensures Fits(Apply(s, t, a), u)
  {
  }

  /** A step, as the runs below see it. */
  lemma Step(s: State, t: Tid, a: Action)
    requires Inv(s) && Enabled(s, t, a)
    ensures Inv(Apply(s, t, a))
    ensures SameStep(s, t, a) <==> Inside(s, t, a)
    ensures Fits(s, t) ==> Inside(s, t, a)
  {
    StepInv(s, t, a);
    assert PcOk(s, s.threads[t]);
    SameStepIff(s, t, a);
  }

  lemma {:induction false} FittingRun(s: State, acts: seq<(Tid, Action)>)
    requires Inv(s) && CanRun(s, acts) && ClaimsFit(s, acts) && forall t :: Fits(s, t)
    ensures SameRun(s, acts)
    decreases |acts|
  {
    if acts != [] {
      var t, a := acts[0].0, acts[0].1;
      Step(s, t, a);
      forall u ensures Fits(Apply(s, t, a), u) { StepFits(s, t, a, u); }
      FittingRun(Apply(s, t, a), acts[1..]);
    }
  }

  /** Thread `t` has a claim that does not fit, and has not copied all of it. */
  ghost predicate Unfit(s: State, t: Tid) {
    t in s.threads && Copying(s.threads[t]) && Copied(s.threads[t]) < ClaimSize(s.threads[t]) && !Fits(s, t)
  }

  lemma UnfitStep(s: State, u: Tid, a: Action, t: Tid)
    requires Enabled(s, u, a) && Unfit(s, t) && Inside(s, u, a)
    ensures Unfit(Apply(s, u, a), t)
  {
  }

  /** Such a claim, once finished, was copied past the end on the way. */
  lemma {:induction false} FinishedClaimShows(s: State, acts: seq<(Tid, Action)>, t: Tid)
    requires Inv(s) && CanRun(s, acts) && Unfit(s, t)
    requires var e := RunTo(s, acts); t in e.threads && e.threads[t] == Idle
    ensures !SameRun(s, acts)
    decreases |acts|
  {
    if acts != [] {
      var u, a := acts[0].0, acts[0].1;
      Step(s, u, a);
      if Inside(s, u, a) {
        UnfitStep(s, u, a, t);
        FinishedClaimShows(Apply(s, u, a), acts[1..], t);
      }
    }
  }

  lemma ClaimUnfit(s: State, t: Tid)
    requires Counters(s) && Enabled(s, t, CasOk) && PcOk(s, s.threads[t])
    ensures t in Apply(s, t, CasOk).threads
    ensures Fits(Apply(s, t, CasOk), t) || Unfit(Apply(s, t, CasOk), t)
  {
  }

  lemma {:induction false} SameThreads(s: State, acts: seq<(Tid, Action)>)
    requires CanRun(s, acts)
    ensures RunTo(s, acts).threads.Keys == s.threads.Keys
    decreases |acts|
  {
    if acts != [] { SameThreads(Apply(s, acts[0].0, acts[0].1), acts[1..]); }
  }

  lemma NextClaimFits(s: State, t: Tid, acts: seq<(Tid, Action)>)
    requires Inv(s) && Enabled(s, t, CasOk) && CanRun(Apply(s, t, CasOk), acts) && SameRun(Apply(s, t, CasOk), acts)
    requires AllIdle(RunTo(Apply(s, t, CasOk), acts))
    ensures Fits(Apply(s, t, CasOk), t)
  {
    assert PcOk(s, s.threads[t]);
    ClaimUnfit(s, t);
    StepInv(s, t, CasOk);
    SameThreads(Apply(s, t, CasOk), acts);
    if Unfit(Apply(s, t, CasOk), t) { FinishedClaimShows(Apply(s, t, CasOk), acts, t); }
  }

  ghost predicate AllIdle(s: State) {
    forall t | t in s.threads :: s.threads[t] == Idle
  }

  lemma {:induction false} SameRunFits(s: State, acts: seq<(Tid, Action)>)
    requires Inv(s) && CanRun(s, acts) && SameRun(s, acts) && AllIdle(RunTo(s, acts))
    ensures ClaimsFit(s, acts)
    decreases |acts|
  {
    if acts != [] {
      var t, a := acts[0].0, acts[0].1;
      StepInv(s, t, a);
      if a == CasOk { NextClaimFits(s, t, acts[1..]); }
      SameRunFits(Apply(s, t, a), acts[1..]);
    }
  }

  /** Over every run that starts and ends with no call in progress, the ring as written does at each
      step what the intended ring does, whatever lies behind it, exactly when every claim made has
      head % size + n <= size. */
  lemma AsWrittenRunIff(s: State, acts: seq<(Tid, Action)>)
    requires Inv(s) && CanRun(s, acts)
    requires AllIdle(s) && AllIdle(RunTo(s, acts))
    ensures SameRun(s, acts) <==> ClaimsFit(s, acts)
  {
    if ClaimsFit(s, acts) { FittingRun(s, acts); }
    if SameRun(s, acts) { SameRunFits(s, acts); }
  }
}
