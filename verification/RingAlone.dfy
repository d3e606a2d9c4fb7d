/** Ring calls that nobody disturbs, step by step, from a ring at rest. */
module RingAlone {
  import opened RingMachine

  /** No call is in progress. */
  ghost predicate Resting(r: State) {
    && Counters(r) && Published(r)
    && r.prodHead == r.prodTail && r.consHead == r.consTail
    && forall t | t in r.threads :: r.threads[t] == Idle
  }

  /** Claims account for all the difference between heads and tails. */
  lemma NoClaims(r: State)
    requires Inv(r) && forall t | t in r.threads :: r.threads[t] == Idle
    ensures Resting(r)
  {
    assert !EnqOwned(r, r.prodTail) && !DeqOwned(r, r.consTail);
  }

  /** Thread `t` at `pc`. */
  function Stand(r: State, t: Tid, pc: Pc): State {
    r.(threads := r.threads[t := pc])
  }

  lemma StandTwice(r: State, t: Tid, pc: Pc, pc': Pc)
    requires t in r.threads
    ensures Stand(Stand(r, t, pc), t, pc') == Stand(r, t, pc')
    ensures r.threads[t] == pc' ==> Stand(Stand(r, t, pc), t, pc') == r
  {
    assert r.threads[t := pc][t := pc'] == r.threads[t := pc'];
    if r.threads[t] == pc' { assert r.threads[t := pc'] == r.threads; }
  }

  // ---------------------------------------------------------------- a dequeue

  /** The next `n` entries claimed. */
  function Claiming(r: State, n: nat): State { r.(consHead := r.consHead + n) }

  /** ... and released. */
  function Taking(r: State, n: nat): State
    requires r.consHead + n <= |r.given|
  {
    r.(consHead := r.consHead + n, consTail := r.consHead + n, taken := r.taken + r.given[r.consHead..r.consHead + n])
  }

  lemma DequeueStarts(r: State, t: Tid, want: nat)
    requires Resting(r) && t in r.threads
    ensures Enabled(r, t, BeginDeq(want, Variable))
    ensures var r1 := Apply(r, t, BeginDeq(want, Variable));
            var n := Clamp(want, r.prodTail - r.consHead, Variable);
            && r1 == Stand(r, t, DeqLoad(want, Variable, r.consHead))
            && Enabled(r1, t, ReadTail)
            && Apply(r1, t, ReadTail) == if n == 0 then r else Stand(r, t, DeqCas(want, Variable, r.consHead, n))
  {
    var load, n := DeqLoad(want, Variable, r.consHead), Clamp(want, r.prodTail - r.consHead, Variable);
    StandTwice(r, t, load, if n == 0 then Idle else DeqCas(want, Variable, r.consHead, n));
  }

  lemma DequeueClaims(r: State, t: Tid, want: nat, n: nat)
    requires Resting(r) && t in r.threads && 1 <= n <= r.prodTail - r.consHead
    ensures var r2 := Stand(r, t, DeqCas(want, Variable, r.consHead, n));
            Enabled(r2, t, CasOk) && Apply(r2, t, CasOk) == Stand(Claiming(r, n), t, DeqCopy(r.consHead, n, []))
  {
    StandTwice(Claiming(r, n), t, DeqCas(want, Variable, r.consHead, n), DeqCopy(r.consHead, n, []));
  }

  /** A dequeue that has read `i` of its `n` entries. */
  function Reading(r: State, t: Tid, n: nat, i: nat): State
    requires r.consHead + i <= |r.given|
  {
    Stand(Claiming(r, n), t, DeqCopy(r.consHead, n, r.given[r.consHead..r.consHead + i]))
  }

  lemma DequeueReads(r: State, t: Tid, n: nat, i: nat)
    requires Resting(r) && t in r.threads && i < n <= r.prodTail - r.consHead
    ensures Enabled(Reading(r, t, n, i), t, CopySlot)
    ensures Apply(Reading(r, t, n, i), t, CopySlot) == Reading(r, t, n, i + 1)
  {
    var h := r.consHead;
    assert Stored(r, h + i);
    assert r.given[h..h + i + 1] == r.given[h..h + i] + [r.given[h + i]];
    StandTwice(Claiming(r, n), t, DeqCopy(h, n, r.given[h..h + i]), DeqCopy(h, n, r.given[h..h + i + 1]));
  }

  lemma DequeueEnds(r: State, t: Tid, n: nat)
    requires Resting(r) && t in r.threads && 1 <= n <= r.prodTail - r.consHead
    ensures Enabled(Reading(r, t, n, n), t, Publish)
    ensures Apply(Reading(r, t, n, n), t, Publish) == Taking(r, n)
    ensures Resting(Taking(r, n))
  {
    StandTwice(Taking(r, n), t, DeqCopy(r.consHead, n, r.given[r.consHead..r.consHead + n]), Idle);
    assert Taking(r, n).taken == r.given[..r.consHead + n];
    forall p | Taking(r, n).consTail <= p < r.prodTail ensures Stored(Taking(r, n), p) { assert Stored(r, p); }
  }

  /** The whole of a one-entry dequeue, up to its release. */
  lemma GetSteps(r: State, t: Tid)
    requires Resting(r) && t in r.threads && r.consHead < r.prodTail
    ensures var load := Stand(r, t, DeqLoad(1, Variable, r.consHead));
            var cas := Stand(r, t, DeqCas(1, Variable, r.consHead, 1));
            && Enabled(load, t, ReadTail) && Apply(load, t, ReadTail) == cas
            && Enabled(cas, t, CasOk) && Apply(cas, t, CasOk) == Reading(r, t, 1, 0)
            && Enabled(Reading(r, t, 1, 0), t, CopySlot) &&
               Apply(Reading(r, t, 1, 0), t, CopySlot) == Reading(r, t, 1, 1)
  {
    DequeueStarts(r, t, 1);
    DequeueClaims(r, t, 1, 1);
    DequeueReads(r, t, 1, 0);
    assert r.given[r.consHead..r.consHead + 0] == [];
  }

  // ---------------------------------------------------------------- an enqueue of one entry

  /** The next position claimed for `x`. */
  function Offering(r: State, x: Elem): State { r.(prodHead := r.prodHead + 1, given := r.given + [x]) }

  /** ... its slot written. */
  function Storing(r: State, x: Elem): State
    requires r.size == |r.ring| > 0
  {
    Offering(r, x).(ring := r.ring[r.prodHead % r.size := x])
  }

  /** ... and published. */
  function Putting(r: State, x: Elem): State
    requires r.size == |r.ring| > 0
  {
    Storing(r, x).(prodTail := r.prodHead + 1)
  }

  lemma EnqueueStarts(r: State, t: Tid, x: Elem)
    requires Resting(r) && t in r.threads && r.prodHead - r.consTail < r.Capacity()
    ensures Enabled(r, t, BeginEnq([x], Variable))
    ensures var r1 := Apply(r, t, BeginEnq([x], Variable));
            && r1 == Stand(r, t, EnqLoad([x], Variable, r.prodHead))
            && Enabled(r1, t, ReadTail) && Apply(r1, t, ReadTail) == Stand(r, t, EnqCas([x], Variable, r.prodHead, 1))
  {
    StandTwice(r, t, EnqLoad([x], Variable, r.prodHead), EnqCas([x], Variable, r.prodHead, 1));
  }

  lemma EnqueueClaims(r: State, t: Tid, x: Elem)
    requires Resting(r) && t in r.threads
    ensures var r2 := Stand(r, t, EnqCas([x], Variable, r.prodHead, 1));
            && Enabled(r2, t, CasOk) && Apply(r2, t, CasOk) == Stand(Offering(r, x), t, EnqCopy([x], r.prodHead, 0))
            && Enabled(Stand(Offering(r, x), t, EnqCopy([x], r.prodHead, 0)), t, CopySlot)
            && Apply(Stand(Offering(r, x), t, EnqCopy([x], r.prodHead, 0)), t, CopySlot) ==
               Stand(Storing(r, x), t, EnqCopy([x], r.prodHead, 1))
  {
    var v: seq<Elem> := [x];
    assert v[..1] == v;
    StandTwice(Offering(r, x), t, EnqCas([x], Variable, r.prodHead, 1), EnqCopy([x], r.prodHead, 0));
    StandTwice(Storing(r, x), t, EnqCopy([x], r.prodHead, 0), EnqCopy([x], r.prodHead, 1));
  }

  lemma EnqueueEnds(r: State, t: Tid, x: Elem)
    requires Resting(r) && t in r.threads
    ensures var r4 := Stand(Storing(r, x), t, EnqCopy([x], r.prodHead, 1));
            Enabled(r4, t, Publish) && Apply(r4, t, Publish) == Putting(r, x)
  {
    StandTwice(Putting(r, x), t, EnqCopy([x], r.prodHead, 1), Idle);
  }

  lemma PutRests(r: State, x: Elem)
    requires Resting(r) && r.prodHead - r.consTail < r.Capacity()
    ensures Resting(Putting(r, x))
  {
    var o, p' := Offering(r, x), Putting(r, x);
    forall p | r.consTail <= p < p'.prodTail ensures Stored(p', p) {
      if p < r.prodHead {
        assert Stored(r, p);
        SlotsDiffer(o, p, r.prodHead);
      }
    }
  }
}
