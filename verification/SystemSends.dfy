/** From sendmsg to the wire, stated on the actions of a run: what a run accepts, sends and drops are
    the very messages handed to sendmsg, each of them at most once. */
module SystemSends {
  import opened RingMachine
  import opened System
  import opened SystemInv
  import opened SystemSteps
  import opened SystemTheorems
  import opened SystemBag

  // ---------------------------------------------------------------- read off the actions

  /** The last sendmsg of thread `t`, or -1. */
  function LastSend(acts: seq<Act>, t: Tid): (o: int)
    ensures -1 <= o < |acts|
    ensures o >= 0 ==> acts[o].Send? && acts[o].t == t
    ensures forall k :: o < k < |acts| && acts[k].Send? ==> acts[k].t != t
  {
    if acts == [] then -1
    else
      var l := |acts| - 1;
      if acts[l].Send? && acts[l].t == t then l else LastSend(acts[..l], t)
  }

  /** A place on the tx ring is claimed. */
  predicate Accepting(act: Act) { act.TxStep? && act.a == CasOk }

  /** For every claim on the tx ring, in order, the sendmsg it belongs to: the last one, by then, of
      the thread that claims. */
  function Origins(acts: seq<Act>): (r: seq<int>)
    ensures forall k :: 0 <= k < |r| ==> -1 <= r[k] < |acts|
  {
    if acts == [] then []
    else
      var l := |acts| - 1;
      var r := Origins(acts[..l]);
      if Accepting(acts[l]) then r + [LastSend(acts[..l], acts[l].t)] else r
  }

  lemma LastSendNext(acts: seq<Act>, act: Act, t: Tid)
    ensures LastSend(acts + [act], t) == if act.Send? && act.t == t then |acts| else LastSend(acts, t)
  {
    assert (acts + [act])[..|acts|] == acts;
  }

  lemma OriginsNext(acts: seq<Act>, act: Act)
    ensures Origins(acts + [act]) == if Accepting(act) then Origins(acts) + [LastSend(acts, act.t)] else Origins(acts)
  {
    assert (acts + [act])[..|acts|] == acts;
  }

  // ---------------------------------------------------------------- runs, from the end

  lemma {:induction false} RunSplit(s: Sys, acts: seq<Act>)
    requires CanAll(s, acts) && acts != []
    ensures var l := |acts| - 1;
            && CanAll(s, acts[..l]) && Can(After(s, acts[..l]), acts[l])
            && After(s, acts) == Do(After(s, acts[..l]), acts[l])
    decreases |acts|
  {
    var l := |acts| - 1;
    if l > 0 {
      RunSplit(Do(s, acts[0]), acts[1..]);
      assert acts[1..][..l - 1] == acts[..l][1..];
    } else {
      assert acts[..0] == [] && acts[1..] == [];
    }
  }

  // ---------------------------------------------------------------- what a sender carries

  /** A sender that has not claimed a place on the tx ring yet. */
  predicate Unclaimed(sn: Sender, tx: Pc) { !sn.SIdle? && !(sn.SPut? && tx.EnqCopy?) }

  /** Sender `t` carries the message of its last sendmsg, which belongs to no claim so far unless the
      sender has claimed. */
  ghost predicate Carries(e: Sys, t: Tid, acts: seq<Act>) {
    t in e.senders && t in e.tx.threads && !e.senders[t].SIdle? ==>
      var o := LastSend(acts, t);
      && o >= 0 && acts[o].msg == e.senders[t].msg
      && (Unclaimed(e.senders[t], e.tx.threads[t]) ==> o !in Origins(acts))
  }

  /** How a step `act` may move sender `t`, with its place in the tx ring: it takes up the message
      handed to sendmsg, becomes idle, or goes on with the message it has, and only a claim of its
      own, never undone, makes it one that has claimed. */
  ghost predicate Moves(act: Act, t: Tid, sn: Sender, pc: Pc, sn': Sender, pc': Pc) {
    if act.Send? && act.t == t then !sn'.SIdle? && sn'.msg == act.msg
    else
      || sn'.SIdle?
      || (&& !sn.SIdle? && sn'.msg == sn.msg
          && (Unclaimed(sn', pc') ==> Unclaimed(sn, pc) && !(Accepting(act) && act.t == t)))
  }

  /** The sender whose code a step is. */
  predicate IsBy(act: Act, t: Tid) {
    (act.Send? || act.FreeStep? || act.Write? || act.TxStep?) && act.t == t
  }

  /** A step of the daemon. */
  predicate IsDaemons(act: Act) { act.Poll? || act.Queue? || act.Decide? || act.Fetch? || act.Recycle? }

  lemma DaemonLeavesSenders(s: Sys, act: Act, t: Tid)
    requires Can(s, act) && IsDaemons(act) && t in s.tx.threads && t != s.cfg.daemon
    ensures var s' := Do(s, act);
            s'.senders == s.senders && t in s'.tx.threads && s'.tx.threads[t] == s.tx.threads[t]
  {
    if !act.Poll? { assert Do(s, act).tx == s.tx; }
  }

  lemma SendersLeaveSenders(s: Sys, act: Act, t: Tid)
    requires Can(s, act) && !IsDaemons(act) && act.t != t && t in s.senders && t in s.tx.threads
    ensures var s' := Do(s, act);
            && t in s'.senders && s'.senders[t] == s.senders[t]
            && t in s'.tx.threads && s'.tx.threads[t] == s.tx.threads[t]
  {
  }

  lemma OthersUntouched(s: Sys, act: Act, t: Tid)
    requires Can(s, act) && !IsBy(act, t) && t in s.senders && t in s.tx.threads && t != s.cfg.daemon
    ensures var s' := Do(s, act);
            && t in s'.senders && s'.senders[t] == s.senders[t]
            && t in s'.tx.threads && s'.tx.threads[t] == s.tx.threads[t]
  {
    if IsDaemons(act) { DaemonLeavesSenders(s, act, t); } else { SendersLeaveSenders(s, act, t); }
  }

  lemma SendMoves(s: Sys, t: Tid, msg: Msg)
    requires SendOk(s, t, msg) && t in s.tx.threads
    ensures var s' := DoSend(s, t, msg);
            && t in s'.senders && t in s'.tx.threads
            && Moves(Send(t, msg), t, s.senders[t], s.tx.threads[t], s'.senders[t], s'.tx.threads[t])
  {
  }

  lemma FreeStepMoves(s: Sys, t: Tid, a: Action)
    requires FreeStepOk(s, t, a) && t in s.tx.threads
    ensures var s' := DoFreeStep(s, t, a);
            && t in s'.senders && t in s'.tx.threads
            && Moves(FreeStep(t, a), t, s.senders[t], s.tx.threads[t], s'.senders[t], s'.tx.threads[t])
  {
  }

  lemma WriteMoves(s: Sys, t: Tid)
    requires WriteOk(s, t) && t in s.tx.threads
    ensures var s' := DoWrite(s, t);
            && t in s'.senders && t in s'.tx.threads
            && Moves(Write(t), t, s.senders[t], s.tx.threads[t], s'.senders[t], s'.tx.threads[t])
  {
  }

  lemma TxStepMoves(s: Sys, t: Tid, a: Action)
    requires TxStepOk(s, t, a) && Enqueueing(s.tx.threads[t], s.senders[t].x)
    ensures var s' := DoTxStep(s, t, a);
            && t in s'.senders && t in s'.tx.threads
            && Moves(TxStep(t, a), t, s.senders[t], s.tx.threads[t], s'.senders[t], s'.tx.threads[t])
  {
  }

  lemma SenderMoves(s: Sys, act: Act, t: Tid)
    requires Place(s) && Can(s, act) && t in s.senders
    ensures var s' := Do(s, act);
            && t in s.tx.threads && t in s'.senders && t in s'.tx.threads
            && (Moves(act, t, s.senders[t], s.tx.threads[t], s'.senders[t], s'.tx.threads[t])
                || (s'.senders[t] == s.senders[t] && s'.tx.threads[t] == s.tx.threads[t] && !IsBy(act, t)))
  {
    if !IsBy(act, t) {
      OthersUntouched(s, act, t);
    } else {
      match act
      case Send(_, msg) => SendMoves(s, t, msg);
      case FreeStep(_, a) => FreeStepMoves(s, t, a);
      case Write(_) => WriteMoves(s, t);
      case TxStep(_, a) => SenderPuts(s, t); TxStepMoves(s, t, a);
    }
  }

  lemma SendersKept(s: Sys, act: Act)
    requires Can(s, act)
    ensures Do(s, act).senders.Keys == s.senders.Keys
  {
  }

  /** A claim accepts what the claiming sender carries, and nothing else is ever accepted. */
  lemma AcceptsCarried(s: Sys, act: Act)
    requires Place(s) && Can(s, act)
    ensures var h, h' := s.h, Do(s, act).h;
            if Accepting(act) then
              && act.t in s.senders && act.t in s.tx.threads && Unclaimed(s.senders[act.t], s.tx.threads[act.t])
              && h'.accepted == h.accepted + [s.senders[act.t].msg]
            else h'.accepted == h.accepted
  {
    if Accepting(act) {
      SenderPuts(s, act.t);
      ClaimAccepts(s, act.t);
    } else {
      NothingAccepted(s, act);
    }
  }

  lemma ClaimAccepts(s: Sys, t: Tid)
    requires TxStepOk(s, t, CasOk) && Enqueueing(s.tx.threads[t], s.senders[t].x)
    ensures Unclaimed(s.senders[t], s.tx.threads[t])
    ensures DoTxStep(s, t, CasOk).h.accepted == s.h.accepted + [s.senders[t].msg]
  {
  }

  lemma NothingAccepted(s: Sys, act: Act)
    requires Can(s, act) && !Accepting(act)
    ensures Do(s, act).h.accepted == s.h.accepted
  {
  }

  // ---------------------------------------------------------------- along a run

  /** The accepted messages are those of distinct sendmsgs. */
  ghost predicate FromSends(accepted: seq<Msg>, acts: seq<Act>) {
    && |Origins(acts)| == |accepted|
    && (forall k :: 0 <= k < |accepted| ==>
          var o := Origins(acts)[k]; o >= 0 && acts[o].Send? && acts[o].msg == accepted[k])
    && (forall i, k :: 0 <= i < k < |accepted| ==> Origins(acts)[i] != Origins(acts)[k])
  }

  lemma CarriesNext(e: Sys, act: Act, acts: seq<Act>, t: Tid)
    requires Place(e) && Can(e, act) && t in e.senders && Carries(e, t, acts)
    requires Accepting(act) && act.t != t && LastSend(acts, t) >= 0 ==> LastSend(acts, act.t) != LastSend(acts, t)
    ensures Carries(Do(e, act), t, acts + [act])
  {
    SenderMoves(e, act, t);
    LastSendNext(acts, act, t);
    OriginsNext(acts, act);
  }

  lemma FromSendsNext(e: Sys, act: Act, acts: seq<Act>)
    requires Place(e) && Can(e, act) && FromSends(e.h.accepted, acts)
    requires Accepting(act) && act.t in e.senders ==> Carries(e, act.t, acts)
    ensures FromSends(Do(e, act).h.accepted, acts + [act])
  {
    AcceptsCarried(e, act);
    OriginsNext(acts, act);
  }

  lemma DistinctSends(acts: seq<Act>, t: Tid, u: Tid)
    requires t != u && LastSend(acts, t) >= 0
    ensures LastSend(acts, u) != LastSend(acts, t)
  {
  }

  ghost predicate SendsInv(e: Sys, acts: seq<Act>) {
    FromSends(e.h.accepted, acts) && forall t | t in e.senders :: Carries(e, t, acts)
  }

  lemma SendsStep(e: Sys, act: Act, acts: seq<Act>)
    requires Place(e) && Can(e, act) && SendsInv(e, acts)
    ensures SendsInv(Do(e, act), acts + [act])
  {
    SendersKept(e, act);
    FromSendsNext(e, act, acts);
    forall t | t in e.senders ensures Carries(Do(e, act), t, acts + [act]) {
      if Accepting(act) && act.t != t && LastSend(acts, t) >= 0 { DistinctSends(acts, t, act.t); }
      CarriesNext(e, act, acts, t);
    }
  }

  lemma SendsStart(s: Sys)
    requires SysInit(s)
    ensures SendsInv(s, [])
  {
  }

  lemma ReachablePlace(s: Sys, acts: seq<Act>)
    requires SysInit(s) && CanAll(s, acts)
    ensures Place(After(s, acts))
  {
    Reachable(s, acts);
  }

  /** The step from one state of a run to the next. */
  lemma SendsTo(e: Sys, acts: seq<Act>, e': Sys, acts': seq<Act>)
    requires Place(e) && SendsInv(e, acts) && |acts'| == |acts| + 1 && acts'[..|acts|] == acts
    requires Can(e, acts'[|acts|]) && e' == Do(e, acts'[|acts|])
    ensures SendsInv(e', acts')
  {
    SendsStep(e, acts'[|acts|], acts);
    assert acts' == acts + [acts'[|acts|]];
  }

  lemma {:induction false} RunFromSends(s: Sys, acts: seq<Act>)
    requires SysInit(s) && CanAll(s, acts)
    ensures SendsInv(After(s, acts), acts)
    decreases |acts|
  {
    if acts == [] {
      SendsStart(s);
    } else {
      var pre := acts[..|acts| - 1];
      RunSplit(s, acts);
      RunFromSends(s, pre);
      ReachablePlace(s, pre);
      SendsTo(After(s, pre), pre, After(s, acts), acts);
    }
  }

  /** Over every run from set-up: the messages accepted are, claim by claim, those handed to the last
      sendmsg of the claiming thread, and no two claims belong to one sendmsg. */
  lemma AcceptedAreSends(s: Sys, acts: seq<Act>)
    requires SysInit(s) && CanAll(s, acts)
    ensures FromSends(After(s, acts).h.accepted, acts)
  {
    RunFromSends(s, acts);
  }

  /** Each packet sent carries exactly the payload and the time handed to one sendmsg, no two packets
      those of the same one; each packet dropped had the time handed to one, which is on no packet
      sent. `o` gives the sendmsg of each accepted message. */
  ghost predicate OnTheWire(h: Hist, acts: seq<Act>, o: seq<int>) {
    && (forall j :: 0 <= j < |h.sent| ==>
          var p := h.sent[j];
          && p.id < |o| && 0 <= o[p.id] < |acts| && acts[o[p.id]].Send?
          && acts[o[p.id]].msg.payload == p.payload && acts[o[p.id]].msg.txtime == p.txtime)
    && (forall i, j :: 0 <= i < j < |h.sent| ==> o[h.sent[i].id] != o[h.sent[j].id])
    && (forall j :: 0 <= j < |h.dropped| ==>
          var d := h.dropped[j];
          d.id < |o| && 0 <= o[d.id] < |acts| && acts[o[d.id]].Send? && acts[o[d.id]].msg.txtime == d.txtime)
    && (forall i, j :: 0 <= i < |h.sent| && 0 <= j < |h.dropped| ==> o[h.sent[i].id] != o[h.dropped[j].id])
  }

  lemma DropsSay(h: Hist, given: seq<nat>)
    requires Logs(h, given)
    ensures forall j :: 0 <= j < |h.dropped| ==>
              h.dropped[j].id < |h.accepted| && h.accepted[h.dropped[j].id].txtime == h.dropped[j].txtime
  {
    forall j | 0 <= j < |h.dropped|
      ensures h.dropped[j].id < |h.accepted| && h.accepted[h.dropped[j].id].txtime == h.dropped[j].txtime
    {
      assert DropOk(h, j);
    }
  }

  lemma LogsOnTheWire(h: Hist, given: seq<nat>, acts: seq<Act>)
    requires Logs(h, given) && FromSends(h.accepted, acts)
    ensures OnTheWire(h, acts, Origins(acts))
  {
    LogsSay(h, given);
    DropsSay(h, given);
  }

  /** Over every run from set-up, what is on the wire is what was handed to sendmsg. */
  lemma WireIsSends(s: Sys, acts: seq<Act>)
    requires SysInit(s) && CanAll(s, acts)
    ensures OnTheWire(After(s, acts).h, acts, Origins(acts))
  {
    AcceptedAreSends(s, acts);
    Reachable(s, acts);
    LogsOnTheWire(After(s, acts).h, After(s, acts).tx.given, acts);
  }
}
