/** What holds of the ring over whole runs, in every interleaving. */
module RingTheorems {
  import opened RingMachine

  // ---------------------------------------------------------------- runs

  ghost predicate CanRun(s: State, acts: seq<(Tid, Action)>)
    decreases |acts|
  {
    acts == [] || (Enabled(s, acts[0].0, acts[0].1) && CanRun(Apply(s, acts[0].0, acts[0].1), acts[1..]))
  }

  ghost function RunTo(s: State, acts: seq<(Tid, Action)>): State
    requires CanRun(s, acts)
    decreases |acts|
  {
    if acts == [] then s else RunTo(Apply(s, acts[0].0, acts[0].1), acts[1..])
  }

  /** Nothing moves backwards. */
  ghost predicate Later(s: State, s': State) {
    && s'.size == s.size && s'.threads.Keys == s.threads.Keys
    && s.prodHead <= s'.prodHead && s.prodTail <= s'.prodTail
    && s.consHead <= s'.consHead && s.consTail <= s'.consTail
    && s.given <= s'.given && s.taken <= s'.taken
  }

  lemma StepLater(s: State, t: Tid, a: Action)
    requires Counters(s) && Enabled(s, t, a) && PcOk(s, s.threads[t])
    ensures Later(s, Apply(s, t, a))
  {
  }

  /** Every state of every run satisfies the invariant, and counters and histories only grow. */
  lemma {:induction false} RunInv(s: State, acts: seq<(Tid, Action)>)
    requires Inv(s) && CanRun(s, acts)
    ensures Inv(RunTo(s, acts))
    ensures Later(s, RunTo(s, acts))
    decreases |acts|
  {
    if acts != [] {
      var t, a := acts[0].0, acts[0].1;
      StepInv(s, t, a);
      StepLater(s, t, a);
      RunInv(Apply(s, t, a), acts[1..]);
    }
  }

  /** The counter ordering and the exact tiling of the pending intervals, in every reachable
      state of any number of threads. */
  lemma ReachableTiling(s: State, acts: seq<(Tid, Action)>, p: nat)
    requires Init(s) && CanRun(s, acts)
    ensures var e := RunTo(s, acts);
            && e.consTail <= e.consHead <= e.prodTail <= e.prodHead <= e.consTail + e.Capacity()
            && (EnqOwned(e, p) <==> e.prodTail <= p < e.prodHead)
            && (DeqOwned(e, p) <==> e.consTail <= p < e.consHead)
            && (forall t, u | t in e.threads && u in e.threads ::
                  ClaimsEnq(e.threads[t], p) && ClaimsEnq(e.threads[u], p) ==> t == u)
            && (forall t, u | t in e.threads && u in e.threads ::
                  ClaimsDeq(e.threads[t], p) && ClaimsDeq(e.threads[u], p) ==> t == u)
  {
    InitInv(s);
    RunInv(s, acts);
    ClaimsInside(RunTo(s, acts));
  }

  // ---------------------------------------------------------------- exclusion

  /** A slot claimed by one producer is claimed by no other thread, on either side, and holds no
      entry that is published and not yet released. */
  lemma SlotExclusion(s: State, t: Tid, u: Tid, p: int, q: int)
    requires Inv(s) && t in s.threads && u in s.threads
    requires ClaimsEnq(s.threads[t], p)
    requires (t != u && (ClaimsEnq(s.threads[u], q) || ClaimsDeq(s.threads[u], q))) || s.consTail <= q < s.prodTail
    ensures p % s.size != q % s.size
  {
    assert PcOk(s, s.threads[t]) && PcOk(s, s.threads[u]);
    assert p != q;
    SlotsDiffer(s, p, q);
  }

  // ---------------------------------------------------------------- first in, first out

  /** Over every run, what dequeues have returned, in claim order, is a prefix of what enqueues
      were given, in claim order, never more than a capacity behind; and what a pending dequeue
      has read so far is exactly the next stretch of it. */
  lemma Fifo(s: State, acts: seq<(Tid, Action)>, t: Tid)
    requires Init(s) && CanRun(s, acts)
    ensures var e := RunTo(s, acts);
            && e.taken <= e.given
            && |e.given| - |e.taken| <= e.Capacity()
            && (t in e.threads && e.threads[t].DeqCopy? ==>
                  var pc := e.threads[t];
                  |e.taken| <= pc.head && pc.head + pc.n <= |e.given| && pc.got <= e.given[pc.head..pc.head + pc.n])
  {
    InitInv(s);
    RunInv(s, acts);
    var e := RunTo(s, acts);
    if t in e.threads { assert PcOk(e, e.threads[t]); }
  }

  // ---------------------------------------------------------------- stale reads

  /** Reading the opposite tail is always possible: the difference is never negative. */
  lemma ReadTailNeverBlocks(s: State, t: Tid)
    requires Inv(s) && t in s.threads && (s.threads[t].EnqLoad? || s.threads[t].DeqLoad?)
    ensures Enabled(s, t, ReadTail)
  {
    assert PcOk(s, s.threads[t]);
  }

  /** A stale head inflates the count a thread sees by exactly the distance the head has moved
      since; from behind cons.tail the free count even exceeds the capacity. */
  lemma StaleCount(s: State, t: Tid)
    requires Inv(s) && t in s.threads && (s.threads[t].EnqLoad? || s.threads[t].DeqLoad?)
    ensures var o := s.threads[t].oldHead;
            if s.threads[t].EnqLoad? then
              && FreeSeen(s, o) == (s.Capacity() - (s.prodHead - s.consTail)) + (s.prodHead - o)
              && (o < s.consTail <==> FreeSeen(s, o) > s.Capacity())
              && o <= s.prodHead
            else
              EntriesSeen(s, o) == (s.prodTail - s.consHead) + (s.consHead - o) && o <= s.consHead
  {
    assert PcOk(s, s.threads[t]);
  }

  /** Once a head is stale, no continuation lets a compare-and-swap against it succeed, on either
      side. */
  lemma StaleCasFails(s: State, acts: seq<(Tid, Action)>, t: Tid, o: nat)
    requires Inv(s) && CanRun(s, acts)
    requires var e := RunTo(s, acts);
             && t in e.threads
             && ((e.threads[t].EnqCas? && e.threads[t].oldHead == o < s.prodHead) ||
                 (e.threads[t].DeqCas? && e.threads[t].oldHead == o < s.consHead))
    ensures !Enabled(RunTo(s, acts), t, CasOk)
  {
    RunInv(s, acts);
  }

  /** An enqueue that gives up found the ring really full when it read cons.tail (for a
      fixed-size call: really short of room), and never gives up otherwise. */
  lemma EnqueueGivesUpIffFull(s: State, t: Tid)
    requires Inv(s) && t in s.threads && s.threads[t].EnqLoad? && s.threads[t].vals != []
    requires Enabled(s, t, ReadTail)
    ensures var pc := s.threads[t];
            var room := s.Capacity() - (s.prodHead - s.consTail);
            && (Apply(s, t, ReadTail).threads[t] == Idle ==> (if pc.b == Variable then room == 0 else room < |pc.vals|))
            && (pc.oldHead == s.prodHead && (if pc.b == Variable then room == 0 else room < |pc.vals|)
                ==> Apply(s, t, ReadTail).threads[t] == Idle)
  {
    assert PcOk(s, s.threads[t]);
  }

  /** A dequeue that gives up found no unclaimed published entry (or too few). */
  lemma DequeueGivesUpIffEmpty(s: State, t: Tid)
    requires Inv(s) && t in s.threads && s.threads[t].DeqLoad? && s.threads[t].want > 0
    requires Enabled(s, t, ReadTail)
    ensures var pc := s.threads[t];
            var avail := s.prodTail - s.consHead;
            && (Apply(s, t, ReadTail).threads[t] == Idle ==> (if pc.b == Variable then avail == 0 else avail < pc.want))
            && (pc.oldHead == s.consHead && (if pc.b == Variable then avail == 0 else avail < pc.want)
                ==> Apply(s, t, ReadTail).threads[t] == Idle)
  {
    assert PcOk(s, s.threads[t]);
  }

  // ---------------------------------------------------------------- waiting for the turn

  lemma OthersPublish(s: State, t: Tid, u: Tid, a: Action)
    requires Counters(s) && Tiled(s) && t in s.threads && Enabled(s, u, a) && u != t
    requires PcOk(s, s.threads[t]) && PcOk(s, s.threads[u])
    ensures s.threads[t].EnqCopy? && s.prodTail == s.threads[t].head ==> Apply(s, u, a).prodTail == s.prodTail
    ensures s.threads[t].DeqCopy? && s.consTail == s.threads[t].head ==> Apply(s, u, a).consTail == s.consTail
  {
    if a == Publish {
      assert ClaimsEnq(s.threads[u], s.prodTail) || ClaimsDeq(s.threads[u], s.consTail);
      assert s.threads[t].EnqCopy? ==> ClaimsEnq(s.threads[t], s.threads[t].head);
      assert s.threads[t].DeqCopy? ==> ClaimsDeq(s.threads[t], s.threads[t].head);
    }
  }

  /** A thread that has seen its turn keeps it: no step of another thread moves that tail. So reading
      the tail and storing it may count as one step. */
  lemma TurnIsKept(s: State, t: Tid, u: Tid, a: Action)
    requires Inv(s) && t in s.threads && Enabled(s, u, a) && u != t
    ensures Apply(s, u, a).threads[t] == s.threads[t]
    ensures s.threads[t].EnqCopy? && s.prodTail == s.threads[t].head ==> Apply(s, u, a).prodTail == s.prodTail
    ensures s.threads[t].DeqCopy? && s.consTail == s.threads[t].head ==> Apply(s, u, a).consTail == s.consTail
  {
    assert PcOk(s, s.threads[t]) && PcOk(s, s.threads[u]);
    OthersPublish(s, t, u, a);
  }

  // ---------------------------------------------------------------- progress

  lemma FrontClaimCanMove(s: State, t: Tid)
    requires Counters(s) && t in s.threads && PcOk(s, s.threads[t])
    requires ClaimsEnq(s.threads[t], s.prodTail) || ClaimsDeq(s.threads[t], s.consTail)
    ensures Enabled(s, t, CopySlot) || Enabled(s, t, Publish)
  {
  }

  /** In-order publication cannot deadlock: while any claim is pending, the thread holding the
      oldest one can copy its next slot or publish. */
  lemma OldestClaimCanMove(s: State)
    requires Inv(s)
    ensures s.prodTail < s.prodHead ==>
              exists t :: t in s.threads && ClaimsEnq(s.threads[t], s.prodTail) &&
                  (Enabled(s, t, CopySlot) || Enabled(s, t, Publish))
    ensures s.consTail < s.consHead ==>
              exists t :: t in s.threads && ClaimsDeq(s.threads[t], s.consTail) &&
                  (Enabled(s, t, CopySlot) || Enabled(s, t, Publish))
  {
    if s.prodTail < s.prodHead {
      assert EnqOwned(s, s.prodTail);
      var t :| t in s.threads && ClaimsEnq(s.threads[t], s.prodTail);
      FrontClaimCanMove(s, t);
    }
    if s.consTail < s.consHead {
      assert DeqOwned(s, s.consTail);
      var t :| t in s.threads && ClaimsDeq(s.threads[t], s.consTail);
      FrontClaimCanMove(s, t);
    }
  }
}
