/** First in, first out with the copy loops as written, when every enqueue has one value, as all of
    them have in this program. Bursts are dequeued; one that passes the end of the ring returns
    what lies behind it. */
module RingAsWrittenFifo {
  import opened RingMachine
  import opened RingTheorems
  import opened RingAlone
  import opened RingAsWritten
  import Bits

  // ---------------------------------------------------------------- enqueues of one value

  predicate SinglePut(a: Action) { a.BeginEnq? ==> |a.vals| == 1 }

  ghost predicate SinglePuts(acts: seq<(Tid, Action)>) {
    forall i :: 0 <= i < |acts| ==> SinglePut(acts[i].1)
  }

  predicate Single(pc: Pc) { pc.EnqLoad? || pc.EnqCas? || pc.EnqCopy? ==> |pc.vals| == 1 }

  ghost predicate AllSingle(s: State) {
    forall t | t in s.threads :: Single(s.threads[t])
  }

  lemma SingleStep(s: State, t: Tid, a: Action)
    requires AllSingle(s) && Counters(s) && Enabled(s, t, a) && PcOk(s, s.threads[t]) && SinglePut(a)
    ensures AllSingle(Apply(s, t, a))
  {
  }

  // ---------------------------------------------------------------- the same but for what is read

  /** The same place, with the same number of entries read, whatever they are. */
  predicate PcAlike(p: Pc, q: Pc) {
    p == q || (p.DeqCopy? && q.DeqCopy? && p.head == q.head && p.n == q.n && |p.got| == |q.got|)
  }

  /** The same ring, except for the values dequeues have read. */
  ghost predicate Alike(x: State, s: State) {
    && x == s.(threads := x.threads, taken := x.taken)
    && x.threads.Keys == s.threads.Keys
    && forall t | t in s.threads :: PcAlike(x.threads[t], s.threads[t])
  }

  lemma AlikeEnabled(w: Wide, s: State, t: Tid, a: Action)
    requires Alike(w.s, s) && Enabled(s, t, a)
    requires a == CopySlot ==> Index(s.threads[t], s.size) < s.size + |w.behind|
    ensures EnabledWide(w, t, a)
  {
    assert PcAlike(w.s.threads[t], s.threads[t]);
  }

  lemma AlikeCopy(w: Wide, s: State, t: Tid)
    requires Alike(w.s, s) && Enabled(s, t, CopySlot) && EnabledWide(w, t, CopySlot) && Single(s.threads[t])
    ensures Alike(ApplyWide(w, t, CopySlot).s, Apply(s, t, CopySlot)) && ApplyWide(w, t, CopySlot).behind == w.behind
  {
    assert PcAlike(w.s.threads[t], s.threads[t]);
  }

  /** A step keeps the rings alike, and the memory behind untouched. */
  lemma AlikeStep(w: Wide, s: State, t: Tid, a: Action)
    requires Alike(w.s, s) && Enabled(s, t, a) && EnabledWide(w, t, a) && Single(s.threads[t])
    ensures Alike(ApplyWide(w, t, a).s, Apply(s, t, a)) && ApplyWide(w, t, a).behind == w.behind
  {
    assert PcAlike(w.s.threads[t], s.threads[t]);
    if a == CopySlot { AlikeCopy(w, s, t); }
  }

  /** ... in every state the invariant allows. */
  lemma AlikeNext(w: Wide, s: State, t: Tid, a: Action)
    requires Inv(s) && Enabled(s, t, a) && AllSingle(s) && SinglePut(a) && Alike(w.s, s) && |w.behind| == s.size
    ensures EnabledWide(w, t, a) && Alike(ApplyWide(w, t, a).s, Apply(s, t, a)) && ApplyWide(w, t, a).behind == w.behind
    ensures Inv(Apply(s, t, a)) && AllSingle(Apply(s, t, a)) && Apply(s, t, a).size == s.size
  {
    assert PcOk(s, s.threads[t]);
    if a == CopySlot { InsideIsSlot(s, t); }
    AlikeEnabled(w, s, t, a);
    AlikeStep(w, s, t, a);
    StepInv(s, t, a);
    SingleStep(s, t, a);
  }

  /** Every run of the intended ring can be made by the ring as written, claim for claim. */
  lemma {:induction false} AlikeRun(w: Wide, s: State, acts: seq<(Tid, Action)>)
    requires Inv(s) && CanRun(s, acts) && AllSingle(s) && SinglePuts(acts) && Alike(w.s, s) && |w.behind| == s.size
    ensures CanRunWide(w, acts) && Alike(RunWide(w, acts).s, RunTo(s, acts))
    decreases |acts|
  {
    if acts != [] {
      var t, a := acts[0].0, acts[0].1;
      AlikeNext(w, s, t, a);
      AlikeRun(ApplyWide(w, t, a), Apply(s, t, a), acts[1..]);
    }
  }

  // ---------------------------------------------------------------- claims of dequeues

  /** The step is not a dequeue's claim that passes the end of the ring. */
  ghost predicate ClaimFits(s: State, t: Tid, a: Action)
    requires Enabled(s, t, a)
  {
    a == CasOk && s.threads[t].DeqCas? ==> s.threads[t].oldHead % s.size + s.threads[t].n <= s.size
  }

  /** Every dequeue claim of the run has head % size + n <= size. */
  ghost predicate DeqClaimsFit(s: State, acts: seq<(Tid, Action)>)
    requires CanRun(s, acts)
    decreases |acts|
  {
    acts != [] ==> ClaimFits(s, acts[0].0, acts[0].1) && DeqClaimsFit(Apply(s, acts[0].0, acts[0].1), acts[1..])
  }

  lemma SingleClaimFits(s: State, t: Tid, a: Action)
    requires AllSingle(s) && Counters(s) && Enabled(s, t, a) && PcOk(s, s.threads[t])
    ensures a == CasOk && ClaimFits(s, t, a) ==> Fits(Apply(s, t, a), t)
  {
  }

  lemma {:induction false} AllClaimsFit(s: State, acts: seq<(Tid, Action)>)
    requires Inv(s) && CanRun(s, acts) && AllSingle(s) && SinglePuts(acts) && DeqClaimsFit(s, acts)
    ensures ClaimsFit(s, acts)
    decreases |acts|
  {
    if acts != [] {
      var t, a := acts[0].0, acts[0].1;
      assert PcOk(s, s.threads[t]);
      StepInv(s, t, a);
      SingleStep(s, t, a);
      SingleClaimFits(s, t, a);
      AllClaimsFit(Apply(s, t, a), acts[1..]);
    }
  }

  // ---------------------------------------------------------------- a foreign value gets in

  ghost predicate Filled(behind: seq<Elem>, v: Elem) {
    forall i :: 0 <= i < |behind| ==> behind[i] == v
  }

  /** Thread `t` is reading past the end, or has read `v`, or has returned it. */
  ghost predicate Tainted(s: State, t: Tid, v: Elem) {
    || v in s.taken
    || (t in s.threads && s.threads[t].DeqCopy? &&
       (v in s.threads[t].got || (|s.threads[t].got| < s.threads[t].n && !Fits(s, t))))
  }

  lemma TaintRead(w: Wide, t: Tid, v: Elem)
    requires EnabledWide(w, t, CopySlot) && Filled(w.behind, v) && Tainted(w.s, t, v) && w.s.threads[t].DeqCopy?
    ensures Tainted(ApplyWide(w, t, CopySlot).s, t, v)
  {
    var pc, pc' := w.s.threads[t], ApplyWide(w, t, CopySlot).s.threads[t];
    assert pc'.got[..|pc.got|] == pc.got;
    if v in pc.got { assert v in pc'.got; }
    if !Fits(w.s, t) && |pc'.got| == pc.n {
      assert pc'.got[|pc.got|] == v;
    }
  }

  lemma TaintStep(w: Wide, u: Tid, a: Action, t: Tid, v: Elem)
    requires EnabledWide(w, u, a) && Filled(w.behind, v) && Tainted(w.s, t, v)
    ensures Tainted(ApplyWide(w, u, a).s, t, v)
  {
    if a == CopySlot && u == t && w.s.threads[t].DeqCopy? { TaintRead(w, t, v); }
  }

  /** Once a thread is reading past the end, the value there is returned before it is idle again. */
  lemma {:induction false} TaintRun(w: Wide, s: State, acts: seq<(Tid, Action)>, t: Tid, v: Elem)
    requires Inv(s) && CanRun(s, acts) && AllSingle(s) && SinglePuts(acts) && Alike(w.s, s) && |w.behind| == s.size
    requires Filled(w.behind, v) && Tainted(w.s, t, v)
    ensures CanRunWide(w, acts) && Tainted(RunWide(w, acts).s, t, v)
    decreases |acts|
  {
    if acts != [] {
      var u, a := acts[0].0, acts[0].1;
      AlikeNext(w, s, u, a);
      TaintStep(w, u, a, t, v);
      TaintRun(ApplyWide(w, u, a), Apply(s, u, a), acts[1..], t, v);
    }
  }

  lemma ClaimTaints(w: Wide, s: State, t: Tid, v: Elem)
    requires Counters(s) && Enabled(s, t, CasOk) && PcOk(s, s.threads[t]) && !ClaimFits(s, t, CasOk)
    requires Alike(w.s, s) && EnabledWide(w, t, CasOk)
    ensures Tainted(ApplyWide(w, t, CasOk).s, t, v)
  {
    assert PcAlike(w.s.threads[t], s.threads[t]);
  }

  lemma {:induction false} UnfitBreaks(w: Wide, s: State, acts: seq<(Tid, Action)>, v: Elem)
    requires Inv(s) && CanRun(s, acts) && AllSingle(s) && SinglePuts(acts) && Alike(w.s, s) && |w.behind| == s.size
    requires Filled(w.behind, v) && !DeqClaimsFit(s, acts) && AllIdle(RunTo(s, acts))
    ensures CanRunWide(w, acts) && v in RunWide(w, acts).s.taken
    decreases |acts|
  {
    var t, a := acts[0].0, acts[0].1;
    assert PcOk(s, s.threads[t]);
    AlikeNext(w, s, t, a);
    if ClaimFits(s, t, a) {
      UnfitBreaks(ApplyWide(w, t, a), Apply(s, t, a), acts[1..], v);
    } else {
      ClaimTaints(w, s, t, v);
      AlikeRun(ApplyWide(w, t, a), Apply(s, t, a), acts[1..]);
      TaintRun(ApplyWide(w, t, a), Apply(s, t, a), acts[1..], t, v);
    }
  }

  // ---------------------------------------------------------------- first in, first out

  /** Whatever lies behind the ring, the run returns a prefix of what was given. */
  ghost predicate FifoAsWritten(s: State, acts: seq<(Tid, Action)>) {
    forall behind: seq<Elem> | |behind| == s.size ::
      CanRunWide(Wide(s, behind), acts) && var e := RunWide(Wide(s, behind), acts).s; e.taken <= e.given
  }

  /** One more than every value. */
  function Above(v: seq<Elem>): (m: Elem)
    ensures m !in v && forall i :: 0 <= i < |v| ==> v[i] < m
  {
    if v == [] then 0
    else var m := Above(v[..|v| - 1]); if v[|v| - 1] < m then m else v[|v| - 1] + 1
  }

  lemma ForeignValue(w: Wide, s: State, acts: seq<(Tid, Action)>)
    requires Inv(s) && CanRun(s, acts) && AllSingle(s) && SinglePuts(acts) && w.s == s && |w.behind| == s.size
    requires Filled(w.behind, Above(RunTo(s, acts).given)) && !DeqClaimsFit(s, acts) && AllIdle(RunTo(s, acts))
    ensures CanRunWide(w, acts) && !(RunWide(w, acts).s.taken <= RunWide(w, acts).s.given)
  {
    var v := Above(RunTo(s, acts).given);
    AlikeRun(w, s, acts);
    UnfitBreaks(w, s, acts, v);
    var e := RunWide(w, acts).s;
    assert e.given == RunTo(s, acts).given;
    var i :| 0 <= i < |e.taken| && e.taken[i] == v;
  }

  lemma FittingIsFifo(s: State, acts: seq<(Tid, Action)>)
    requires Inv(s) && AllIdle(s) && CanRun(s, acts) && AllIdle(RunTo(s, acts)) && SinglePuts(acts)
    requires DeqClaimsFit(s, acts)
    ensures FifoAsWritten(s, acts)
  {
    AllClaimsFit(s, acts);
    AsWrittenRunIff(s, acts);
    RunInv(s, acts);
    forall behind: seq<Elem> | |behind| == s.size
      ensures CanRunWide(Wide(s, behind), acts) && var e := RunWide(Wide(s, behind), acts).s; e.taken <= e.given
    {
      SameRunEnds(s, behind, acts);
    }
  }

  /** Over every run from rest to rest with enqueues of one value, by any number of threads: the ring
      as written returns values first in, first out, whatever lies behind it, exactly when every
      dequeue claim has head % size + n <= size. */
  lemma FifoAsWrittenIff(s: State, acts: seq<(Tid, Action)>)
    requires Inv(s) && AllIdle(s) && CanRun(s, acts) && AllIdle(RunTo(s, acts)) && SinglePuts(acts)
    ensures FifoAsWritten(s, acts) <==> DeqClaimsFit(s, acts)
  {
    if DeqClaimsFit(s, acts) {
      FittingIsFifo(s, acts);
    } else {
      var behind: seq<Elem> := seq(s.size, i => Above(RunTo(s, acts).given));
      ForeignValue(Wide(s, behind), s, acts);
    }
  }

  // ---------------------------------------------------------------- a run that fails

  /** Some run of single puts leads from `s` to `e`; `fits` says whether its dequeue claims all fit. */
  ghost predicate Reaches(s: State, e: State, fits: bool) {
    exists acts :: CanRun(s, acts) && SinglePuts(acts) && RunTo(s, acts) == e && DeqClaimsFit(s, acts) == fits
  }

  lemma {:induction false} OneMore(s: State, acts: seq<(Tid, Action)>, t: Tid, a: Action)
    requires CanRun(s, acts) && Enabled(RunTo(s, acts), t, a)
    ensures CanRun(s, acts + [(t, a)]) && RunTo(s, acts + [(t, a)]) == Apply(RunTo(s, acts), t, a)
    ensures DeqClaimsFit(s, acts + [(t, a)]) <==> DeqClaimsFit(s, acts) && ClaimFits(RunTo(s, acts), t, a)
    decreases |acts|
  {
    if acts == [] {
      var one := [(t, a)];
      assert one[1..] == [];
    } else {
      OneMore(Apply(s, acts[0].0, acts[0].1), acts[1..], t, a);
      assert (acts + [(t, a)])[1..] == acts[1..] + [(t, a)];
    }
  }

  lemma Start(s: State)
    ensures Reaches(s, s, true)
  {
    var none: seq<(Tid, Action)> := [];
    assert CanRun(s, none) && RunTo(s, none) == s && DeqClaimsFit(s, none);
  }

  lemma Go(s: State, e: State, fits: bool, t: Tid, a: Action)
    requires Reaches(s, e, fits) && Enabled(e, t, a) && SinglePut(a)
    ensures Reaches(s, Apply(e, t, a), fits && ClaimFits(e, t, a))
  {
    var acts :| CanRun(s, acts) && SinglePuts(acts) && RunTo(s, acts) == e && DeqClaimsFit(s, acts) == fits;
    OneMore(s, acts, t, a);
    assert SinglePuts(acts + [(t, a)]);
  }

  /** An enqueue of `x` that nobody disturbs. */
  lemma PutAlone(s: State, e: State, fits: bool, t: Tid, x: Elem)
    requires Reaches(s, e, fits) && Resting(e) && t in e.threads && e.prodHead - e.consTail < e.Capacity()
    ensures Reaches(s, Putting(e, x), fits) && Resting(Putting(e, x))
  {
    EnqueueStarts(e, t, x);
    EnqueueClaims(e, t, x);
    EnqueueEnds(e, t, x);
    PutRests(e, x);
    Go(s, e, fits, t, BeginEnq([x], Variable));
    Go(s, Stand(e, t, EnqLoad([x], Variable, e.prodHead)), fits, t, ReadTail);
    Go(s, Stand(e, t, EnqCas([x], Variable, e.prodHead, 1)), fits, t, CasOk);
    Go(s, Stand(Offering(e, x), t, EnqCopy([x], e.prodHead, 0)), fits, t, CopySlot);
    Go(s, Stand(Storing(e, x), t, EnqCopy([x], e.prodHead, 1)), fits, t, Publish);
  }

  lemma {:induction false} ReadAlone(s: State, e: State, fits: bool, t: Tid, n: nat, i: nat)
    requires Resting(e) && t in e.threads && i <= n <= e.prodTail - e.consHead && Reaches(s, Reading(e, t, n, 0), fits)
    ensures Reaches(s, Reading(e, t, n, i), fits)
  {
    if i > 0 {
      ReadAlone(s, e, fits, t, n, i - 1);
      DequeueReads(e, t, n, i - 1);
      Go(s, Reading(e, t, n, i - 1), fits, t, CopySlot);
    }
  }

  /** A dequeue of all `n` entries that nobody disturbs. */
  lemma TakeAlone(s: State, e: State, fits: bool, t: Tid, n: nat)
    requires Reaches(s, e, fits) && Resting(e) && t in e.threads && 1 <= n == e.prodTail - e.consHead
    ensures Reaches(s, Taking(e, n), fits && e.consHead % e.size + n <= e.size) && Resting(Taking(e, n))
  {
    DequeueStarts(e, t, n);
    DequeueClaims(e, t, n, n);
    DequeueEnds(e, t, n);
    Go(s, e, fits, t, BeginDeq(n, Variable));
    Go(s, Stand(e, t, DeqLoad(n, Variable, e.consHead)), fits, t, ReadTail);
    Go(s, Stand(e, t, DeqCas(n, Variable, e.consHead, n)), fits, t, CasOk);
    assert e.given[e.consHead..e.consHead + 0] == [];
    var fits' := fits && e.consHead % e.size + n <= e.size;
    ReadAlone(s, e, fits', t, n, n);
    Go(s, Reading(e, t, n, n), fits', t, Publish);
  }

  /** Putting and taking one value `k` times. */
  lemma {:induction false} Turns(s: State, t: Tid, k: nat) returns (e: State)
    requires Init(s) && t in s.threads && s.size >= 2
    ensures Reaches(s, e, true) && Resting(e) && e.prodHead == e.consHead == k
    ensures e.size == s.size && e.threads == s.threads
  {
    if k == 0 {
      Start(s);
      e := s;
    } else {
      var b := Turns(s, t, k - 1);
      PutAlone(s, b, true, t, 0);
      TakeAlone(s, Putting(b, 0), true, t, 1);
      e := Taking(Putting(b, 0), 1);
    }
  }

  /** Up to the last slot, then two values waiting. */
  lemma TwoWaiting(s: State, t: Tid) returns (e: State)
    requires Init(s) && t in s.threads && s.size >= 3
    ensures Reaches(s, e, true) && Resting(e) && t in e.threads && e.size == s.size
    ensures e.consHead == s.size - 1 && e.prodTail == s.size + 1
  {
    var b := Turns(s, t, s.size - 1);
    PutAlone(s, b, true, t, 0);
    PutAlone(s, Putting(b, 0), true, t, 0);
    e := Putting(Putting(b, 0), 0);
  }

  /** The intended run: a burst of two that passes the end. */
  lemma BurstPastTheEnd(s: State, t: Tid) returns (acts: seq<(Tid, Action)>)
    requires Init(s) && t in s.threads && s.size >= 3
    ensures CanRun(s, acts) && SinglePuts(acts) && AllIdle(RunTo(s, acts)) && !DeqClaimsFit(s, acts)
  {
    var e := TwoWaiting(s, t);
    Bits.ModUnique(e.consHead, e.size, 0, e.consHead);
    TakeAlone(s, e, true, t, 2);
    acts :| CanRun(s, acts) && SinglePuts(acts) && RunTo(s, acts) == Taking(e, 2) && DeqClaimsFit(s, acts) == false;
  }

  /** In every ring of at least three slots, one thread alone can make the ring as written return
      something that is not a prefix of what was given. */
  lemma FifoFailsAsWritten(s: State, t: Tid)
    requires Init(s) && t in s.threads && s.size >= 3
    ensures exists acts, behind ::
              && |behind| == s.size && CanRunWide(Wide(s, behind), acts)
              && BreaksFifo(RunWide(Wide(s, behind), acts).s)
  {
    var acts := BurstPastTheEnd(s, t);
    InitInv(s);
    var behind: seq<Elem> := seq(s.size, i => Above(RunTo(s, acts).given));
    ForeignValue(Wide(s, behind), s, acts);
    assert BreaksFifo(RunWide(Wide(s, behind), acts).s);
  }

  ghost predicate BreaksFifo(e: State) { !(e.taken <= e.given) }
}
