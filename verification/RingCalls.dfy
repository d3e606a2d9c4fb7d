/** Ring calls as their callers see them, stated on the actions of a run: a call works on what it was
    asked for from its first load to its claim, claims once, claims as much as fits, and gives up
    only when there is nothing for it. */
module RingCalls {
  import opened RingMachine
  import opened RingTheorems

  // ---------------------------------------------------------------- runs, from the end

  lemma {:induction false} RunSplit(s: State, acts: seq<(Tid, Action)>)
    requires CanRun(s, acts) && acts != []
    ensures var l := |acts| - 1;
            && CanRun(s, acts[..l]) && Enabled(RunTo(s, acts[..l]), acts[l].0, acts[l].1)
            && RunTo(s, acts) == Apply(RunTo(s, acts[..l]), acts[l].0, acts[l].1)
    decreases |acts|
  {
    var l := |acts| - 1;
    if l > 0 {
      RunSplit(Apply(s, acts[0].0, acts[0].1), acts[1..]);
      assert acts[1..][..l - 1] == acts[..l][1..];
    } else {
      assert acts[..0] == [] && acts[1..] == [];
    }
  }

  /** The last action by which thread `t` started a call, or -1. */
  function LastBegin(acts: seq<(Tid, Action)>, t: Tid): (o: int)
    ensures -1 <= o < |acts|
    ensures o >= 0 ==> acts[o].0 == t && Begins(acts[o].1)
    ensures forall k :: o < k < |acts| && acts[k].0 == t ==> !Begins(acts[k].1)
  {
    if acts == [] then -1
    else
      var l := |acts| - 1;
      if acts[l].0 == t && Begins(acts[l].1) then l else LastBegin(acts[..l], t)
  }

  // ---------------------------------------------------------------- the request

  /** A thread at `pc` is serving the call started by `ask`: until it claims it has the whole request,
      and it claims at least one entry and no more than asked for. */
  predicate Serves(pc: Pc, ask: Action) {
    match pc
    case Idle => true
    case EnqLoad(vals, b, _) => ask == BeginEnq(vals, b)
    case EnqCas(vals, b, _, n) => ask == BeginEnq(vals, b) && 1 <= n <= |vals|
    case EnqCopy(vals, _, _) => ask.BeginEnq? && 1 <= |vals| && vals <= ask.vals
    case DeqLoad(want, b, _) => ask == BeginDeq(want, b)
    case DeqCas(want, b, _, n) => ask == BeginDeq(want, b) && 1 <= n <= want
    case DeqCopy(_, n, _) => ask.BeginDeq? && 1 <= n <= ask.want
  }

  lemma ServesOn(s: State, t: Tid, a: Action, ask: Action)
    requires Enabled(s, t, a) && Serves(s.threads[t], ask)
    ensures Serves(Apply(s, t, a).threads[t], if Begins(a) then a else ask)
  {
  }

  /** If thread `t` is inside a call, it serves the last call it started in `acts`. */
  ghost predicate Serving(e: State, t: Tid, acts: seq<(Tid, Action)>) {
    t in e.threads && e.threads[t] != Idle ==>
      LastBegin(acts, t) >= 0 && Serves(e.threads[t], acts[LastBegin(acts, t)].1)
  }

  lemma LastBeginNext(acts: seq<(Tid, Action)>, u: Tid, a: Action, t: Tid)
    ensures LastBegin(acts + [(u, a)], t) == if u == t && Begins(a) then |acts| else LastBegin(acts, t)
  {
    assert (acts + [(u, a)])[..|acts|] == acts;
  }

  lemma ServingNext(e: State, acts: seq<(Tid, Action)>, u: Tid, a: Action, t: Tid)
    requires Serving(e, t, acts) && Enabled(e, u, a)
    ensures Serving(Apply(e, u, a), t, acts + [(u, a)])
  {
    LastBeginNext(acts, u, a, t);
    if u == t && Begins(a) {
      ServesOn(e, t, a, a);
    } else if u == t && e.threads[t] != Idle {
      ServesOn(e, t, a, acts[LastBegin(acts, t)].1);
    }
  }

  /** In every run, a thread inside a call serves the last call it started. */
  lemma {:induction false} RequestKept(s: State, acts: seq<(Tid, Action)>, t: Tid)
    requires Init(s) && CanRun(s, acts)
    ensures Serving(RunTo(s, acts), t, acts)
    decreases |acts|
  {
    if acts != [] {
      var l := |acts| - 1;
      RunSplit(s, acts);
      RequestKept(s, acts[..l], t);
      ServingNext(RunTo(s, acts[..l]), acts[..l], acts[l].0, acts[l].1, t);
      assert acts[..l] + [(acts[l].0, acts[l].1)] == acts;
    }
  }

  /** A claim gives the ring the first values of the request of the call it belongs to, or takes the
      next entries, and in either case at least one and at most as many as asked for. */
  lemma ClaimIsOfRequest(s: State, acts: seq<(Tid, Action)>, t: Tid)
    requires Init(s) && CanRun(s, acts) && Enabled(RunTo(s, acts), t, CasOk)
    ensures var e, o := RunTo(s, acts), LastBegin(acts, t);
            var e' := Apply(e, t, CasOk);
            && o >= 0
            && (acts[o].1.BeginEnq? ==>
                  var n := e'.prodHead - e.prodHead;
                  && 1 <= n <= |acts[o].1.vals| && e'.given == e.given + acts[o].1.vals[..n]
                  && e'.consHead == e.consHead)
            && (acts[o].1.BeginDeq? ==>
                  && 1 <= e'.consHead - e.consHead <= acts[o].1.want
                  && e'.prodHead == e.prodHead && e'.given == e.given)
  {
    RequestKept(s, acts, t);
  }

  // ---------------------------------------------------------------- one claim

  predicate Claimed(pc: Pc) { pc == Idle || pc.EnqCopy? || pc.DeqCopy? }

  /** After its claim, a thread that starts no call claims nothing. */
  lemma {:induction false} StaysClaimed(s: State, acts: seq<(Tid, Action)>, t: Tid)
    requires CanRun(s, acts) && t in s.threads && Claimed(s.threads[t])
    requires forall k :: 0 <= k < |acts| && acts[k].0 == t ==> !Begins(acts[k].1)
    ensures t in RunTo(s, acts).threads && Claimed(RunTo(s, acts).threads[t])
    decreases |acts|
  {
    if acts != [] { StaysClaimed(Apply(s, acts[0].0, acts[0].1), acts[1..], t); }
  }

  lemma {:induction false} RunJoin(s: State, acts: seq<(Tid, Action)>, i: nat)
    requires CanRun(s, acts) && i <= |acts|
    ensures CanRun(s, acts[..i]) && CanRun(RunTo(s, acts[..i]), acts[i..])
    ensures RunTo(s, acts) == RunTo(RunTo(s, acts[..i]), acts[i..])
    decreases |acts|
  {
    if i == 0 {
      assert acts[..0] == [] && acts[0..] == acts;
    } else {
      RunJoin(Apply(s, acts[0].0, acts[0].1), acts[1..], i - 1);
      assert acts[1..][..i - 1] == acts[..i][1..] && acts[1..][i - 1..] == acts[i..];
    }
  }

  lemma NextClaimIsNewCall(s: State, acts: seq<(Tid, Action)>, t: Tid)
    requires CanRun(s, acts) && t in s.threads && Claimed(s.threads[t]) && Enabled(RunTo(s, acts), t, CasOk)
    ensures exists k :: 0 <= k < |acts| && acts[k].0 == t && Begins(acts[k].1)
  {
    if forall k :: 0 <= k < |acts| && acts[k].0 == t ==> !Begins(acts[k].1) { StaysClaimed(s, acts, t); }
  }

  /** A call claims at most once: between two claims of a thread it starts a call. */
  lemma OneClaimPerCall(s: State, acts: seq<(Tid, Action)>, t: Tid, i: nat, j: nat)
    requires CanRun(s, acts) && i < j < |acts| && acts[i] == (t, CasOk) && acts[j] == (t, CasOk)
    ensures exists k :: i < k < j && acts[k].0 == t && Begins(acts[k].1)
  {
    RunJoin(s, acts, i);
    var e, rest := RunTo(s, acts[..i]), acts[i..];
    RunJoin(e, rest, j - i);
    var e1, mid := Apply(e, t, CasOk), rest[1..j - i];
    assert rest[..j - i][1..] == mid;
    assert rest[j - i..][0] == (t, CasOk);
    NextClaimIsNewCall(e1, mid, t);
    var k :| 0 <= k < |mid| && mid[k].0 == t && Begins(mid[k].1);
    assert acts[i + 1 + k] == mid[k];
  }

  // ---------------------------------------------------------------- loading, counting, giving up

  /** Starting a call, and trying again after a failed compare-and-swap, leave the thread at the load
      with its whole request and the head as it stands. */
  lemma LoadsCurrentHead(s: State, t: Tid, a: Action)
    requires Enabled(s, t, a) && (Begins(a) || a == CasFail)
    ensures var pc, s' := s.threads[t], Apply(s, t, a);
            && s' == s.(threads := s'.threads) && t in s'.threads
            && (a.BeginEnq? || (a == CasFail && pc.EnqCas?) ==>
                  && s'.threads[t].EnqLoad? && s'.threads[t].oldHead == s.prodHead
                  && (a == CasFail ==> s'.threads[t].vals == pc.vals && s'.threads[t].b == pc.b))
            && (a.BeginDeq? || (a == CasFail && pc.DeqCas?) ==>
                  && s'.threads[t].DeqLoad? && s'.threads[t].oldHead == s.consHead
                  && (a == CasFail ==> s'.threads[t].want == pc.want && s'.threads[t].b == pc.b))
  {
  }

  /** As much as fits: all that was asked for if so much is seen, otherwise, unless the request is for
      a fixed number, all that is seen. */
  predicate AsMuchAsFits(n: int, asked: nat, seen: int, b: Behavior) {
    if asked <= seen then n == asked else b == Variable && n == seen
  }

  lemma AsksForWhatFits(s: State, t: Tid)
    requires Enabled(s, t, ReadTail)
    ensures var pc, pc' := s.threads[t], Apply(s, t, ReadTail).threads[t];
            && Apply(s, t, ReadTail) == s.(threads := s.threads[t := pc'])
            && (pc'.EnqCas? ==> pc.EnqLoad? && pc'.oldHead == pc.oldHead
                                && AsMuchAsFits(pc'.n, |pc.vals|, FreeSeen(s, pc.oldHead), pc.b))
            && (pc'.DeqCas? ==> pc.DeqLoad? && pc'.oldHead == pc.oldHead
                                && AsMuchAsFits(pc'.n, pc.want, EntriesSeen(s, pc.oldHead), pc.b))
            && (pc'.EnqCas? || pc'.DeqCas? || pc' == Idle)
  {
  }

  /** A call that has not claimed and is over after a step asked for nothing, or found, in the very
      state it read, no room (no entry), or too little for a request of a fixed number. Nothing else
      ends it: in particular no failed compare-and-swap. */
  lemma GivesUpOnlyWhenShort(s: State, t: Tid, a: Action)
    requires Inv(s) && Enabled(s, t, a) && Apply(s, t, a).threads[t] == Idle
    ensures var pc := s.threads[t];
            var room, avail := s.Capacity() - (s.prodHead - s.consTail), s.prodTail - s.consHead;
            && !pc.EnqCas? && !pc.DeqCas?
            && (pc.EnqLoad? ==> pc.vals == [] || (if pc.b == Variable then room == 0 else room < |pc.vals|))
            && (pc.DeqLoad? ==> pc.want == 0 || (if pc.b == Variable then avail == 0 else avail < pc.want))
  {
    assert PcOk(s, s.threads[t]);
  }

  // ---------------------------------------------------------------- what a thread can do

  /** In every state the invariant allows, a thread is never stuck except while waiting for its turn:
      each place has exactly the steps the code has there. */
  lemma StepsPossible(s: State, t: Tid, vals: seq<Elem>, want: nat, b: Behavior)
    requires Inv(s) && t in s.threads
    ensures var pc := s.threads[t];
            && (pc == Idle <==> Enabled(s, t, BeginEnq(vals, b))) && (pc == Idle <==> Enabled(s, t, BeginDeq(want, b)))
            && (pc.EnqLoad? || pc.DeqLoad? <==> Enabled(s, t, ReadTail))
            && (pc.EnqCas? || pc.DeqCas? <==> Enabled(s, t, CasFail))
            && (pc.EnqCas? ==> (Enabled(s, t, CasOk) <==> s.prodHead == pc.oldHead))
            && (pc.DeqCas? ==> (Enabled(s, t, CasOk) <==> s.consHead == pc.oldHead))
            && (pc.EnqCopy? ==> (pc.done < |pc.vals| <==> Enabled(s, t, CopySlot))
                                && (pc.done == |pc.vals| && s.prodTail == pc.head <==> Enabled(s, t, Publish)))
            && (pc.DeqCopy? ==> (|pc.got| < pc.n <==> Enabled(s, t, CopySlot))
                                && (|pc.got| == pc.n && s.consTail == pc.head <==> Enabled(s, t, Publish)))
  {
    assert PcOk(s, s.threads[t]);
  }
}
