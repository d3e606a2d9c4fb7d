/** The multi-producer/multi-consumer ring of src/kt_ringbuf.c as a step machine: any number of
    threads, counters that never wrap. A step is one shared-memory access, except that Publish
    joins the load of the tail that finds the thread's turn with the store that follows: nobody
    else can move the tail in between (RingTheorems.TurnIsKept). Accesses are sequentially
    consistent and a weak compare-and-swap may fail spuriously. The 32-bit counters are refined to
    this machine in Ring32. */
module RingMachine {
  import opened Bits

  type Tid = nat
  type Elem = nat

  datatype Behavior = Fixed | Variable

  /** Where a thread stands inside an enqueue or dequeue call, with its local variables. */
  datatype Pc =
    | Idle
    | EnqLoad(vals: seq<Elem>, b: Behavior, oldHead: nat)         // next: read cons.tail
    | EnqCas(vals: seq<Elem>, b: Behavior, oldHead: nat, n: nat)  // next: compare-and-swap prod.head
    | EnqCopy(vals: seq<Elem>, head: nat, done: nat)              // next: write a slot, or publish
    | DeqLoad(want: nat, b: Behavior, oldHead: nat)               // next: read prod.tail
    | DeqCas(want: nat, b: Behavior, oldHead: nat, n: nat)        // next: compare-and-swap cons.head
    | DeqCopy(head: nat, n: nat, got: seq<Elem>)                  // next: read a slot, or release

  /** `given` lists every value claimed into the ring, in claim order; `taken` every value a
      dequeue has returned, in release order. Neither is read by any step. */
  datatype State = State(
    size: nat,
    prodHead: nat, prodTail: nat, consHead: nat, consTail: nat,
    ring: seq<Elem>,
    threads: map<Tid, Pc>,
    given: seq<Elem>,
    taken: seq<Elem>)
  {
    function Capacity(): int { size - 1 }

    /** What the ring holds or is still accounting for: from the first unreleased position to
        the last claimed one. */
    function Window(): seq<Elem>
      requires consTail <= prodHead <= |given|
    {
      given[consTail..prodHead]
    }
  }

  datatype Action =
    | BeginEnq(vals: seq<Elem>, b: Behavior)
    | BeginDeq(want: nat, b: Behavior)
    | ReadTail
    | CasOk
    | CasFail
    | CopySlot
    | Publish

  /** The action starts a call. */
  predicate Begins(a: Action) { a.BeginEnq? || a.BeginDeq? }

  /** How many entries a call may move when `free` are available. */
  function Clamp(n: nat, free: nat, b: Behavior): (r: nat)
    ensures r <= n && r <= free
    ensures b == Variable ==> r == n || r == free
  {
    if n > free then (if b == Fixed then 0 else free) else n
  }

  /** Free entries as seen by a producer that loaded `oldHead` earlier. */
  function FreeSeen(s: State, oldHead: nat): int {
    s.Capacity() - (oldHead - s.consTail)
  }

  /** Published entries as seen by a consumer that loaded `oldHead` earlier. */
  function EntriesSeen(s: State, oldHead: nat): int {
    s.prodTail - oldHead
  }

  predicate Enabled(s: State, t: Tid, a: Action) {
    && t in s.threads
    && s.size > 0
    && |s.ring| == s.size
    && var pc := s.threads[t];
       match a
       case BeginEnq(_, _) => pc.Idle?
       case BeginDeq(_, _) => pc.Idle?
       case ReadTail => (pc.EnqLoad? && FreeSeen(s, pc.oldHead) >= 0)
                        || (pc.DeqLoad? && EntriesSeen(s, pc.oldHead) >= 0)
       case CasOk => (pc.EnqCas? && s.prodHead == pc.oldHead && pc.n <= |pc.vals|)
                     || (pc.DeqCas? && s.consHead == pc.oldHead)
       case CasFail => pc.EnqCas? || pc.DeqCas?
       case CopySlot => (pc.EnqCopy? && pc.done < |pc.vals|) || (pc.DeqCopy? && |pc.got| < pc.n)
       case Publish => (pc.EnqCopy? && pc.done == |pc.vals| && s.prodTail == pc.head)
                       || (pc.DeqCopy? && |pc.got| == pc.n && s.consTail == pc.head)
  }

  function Apply(s: State, t: Tid, a: Action): (s': State)
    requires Enabled(s, t, a)
  {
    var pc := s.threads[t];
    match a
    case BeginEnq(vals, b) => s.(threads := s.threads[t := EnqLoad(vals, b, s.prodHead)])
    case BeginDeq(want, b) => s.(threads := s.threads[t := DeqLoad(want, b, s.consHead)])
    case ReadTail =>
      if pc.EnqLoad? then
        var n := Clamp(|pc.vals|, FreeSeen(s, pc.oldHead), pc.b);
        s.(threads := s.threads[t := if n == 0 then Idle else EnqCas(pc.vals, pc.b, pc.oldHead, n)])
      else
        var n := Clamp(pc.want, EntriesSeen(s, pc.oldHead), pc.b);
        s.(threads := s.threads[t := if n == 0 then Idle else DeqCas(pc.want, pc.b, pc.oldHead, n)])
    case CasOk =>
      if pc.EnqCas? then
        s.(prodHead := pc.oldHead + pc.n,
           given := s.given + pc.vals[..pc.n],
           threads := s.threads[t := EnqCopy(pc.vals[..pc.n], pc.oldHead, 0)])
      else
        s.(consHead := pc.oldHead + pc.n,
           threads := s.threads[t := DeqCopy(pc.oldHead, pc.n, [])])
    case CasFail =>
      if pc.EnqCas? then
        s.(threads := s.threads[t := EnqLoad(pc.vals, pc.b, s.prodHead)])
      else
        s.(threads := s.threads[t := DeqLoad(pc.want, pc.b, s.consHead)])
    case CopySlot =>
      if pc.EnqCopy? then
        s.(ring := s.ring[(pc.head + pc.done) % s.size := pc.vals[pc.done]],
           threads := s.threads[t := pc.(done := pc.done + 1)])
      else
        s.(threads := s.threads[t := pc.(got := pc.got + [s.ring[(pc.head + |pc.got|) % s.size]])])
    case Publish =>
      if pc.EnqCopy? then
        s.(prodTail := pc.head + |pc.vals|, threads := s.threads[t := Idle])
      else
        s.(consTail := pc.head + pc.n,
           taken := s.taken + pc.got,
           threads := s.threads[t := Idle])
  }

  ghost predicate Init(s: State) {
    && s.size > 0 && |s.ring| == s.size
    && s.prodHead == s.prodTail == s.consHead == s.consTail == 0
    && s.given == [] && s.taken == []
    && forall t | t in s.threads :: s.threads[t] == Idle
  }

  // ---------------------------------------------------------------- the invariant

  ghost predicate Counters(s: State) {
    && s.size > 0 && |s.ring| == s.size
    && s.consTail <= s.consHead <= s.prodTail <= s.prodHead <= s.consTail + s.Capacity()
    && |s.given| == s.prodHead
    && s.taken == s.given[..s.consTail]
  }

  /** Thread `pc` holds the claim on producer position `p`. */
  predicate ClaimsEnq(pc: Pc, p: int) {
    pc.EnqCopy? && pc.head <= p < pc.head + |pc.vals|
  }

  predicate ClaimsDeq(pc: Pc, p: int) {
    pc.DeqCopy? && pc.head <= p < pc.head + pc.n
  }

  /** The slot of position `p` holds the value claimed for it. */
  ghost predicate Stored(s: State, p: int)
    requires Counters(s)
  {
    0 <= p < s.prodHead && s.ring[p % s.size] == s.given[p]
  }

  ghost predicate PcOk(s: State, pc: Pc)
    requires Counters(s)
  {
    match pc
    case Idle => true
    case EnqLoad(vals, b, oldHead) => oldHead <= s.prodHead
    case EnqCas(vals, b, oldHead, n) =>
      && oldHead <= s.prodHead
      && 1 <= n <= |vals|
      && (oldHead == s.prodHead ==> s.prodHead + n <= s.consTail + s.Capacity())
    case EnqCopy(vals, head, done) =>
      && done <= |vals| && 1 <= |vals|
      && s.prodTail <= head && head + |vals| <= s.prodHead
      && s.given[head..head + |vals|] == vals
      && forall p | head <= p < head + done :: Stored(s, p)
    case DeqLoad(want, b, oldHead) => oldHead <= s.consHead
    case DeqCas(want, b, oldHead, n) =>
      && oldHead <= s.consHead
      && 1 <= n <= want
      && (oldHead == s.consHead ==> s.consHead + n <= s.prodTail)
    case DeqCopy(head, n, got) =>
      && |got| <= n && 1 <= n
      && s.consTail <= head && head + n <= s.consHead
      && s.given[head..head + |got|] == got
  }

  ghost predicate EnqOwned(s: State, p: int) {
    exists t :: t in s.threads && ClaimsEnq(s.threads[t], p)
  }

  ghost predicate DeqOwned(s: State, p: int) {
    exists t :: t in s.threads && ClaimsDeq(s.threads[t], p)
  }

  /** Pending claims tile [prodTail, prodHead) and [consTail, consHead): each position has an
      owner, and only one. (PcOk keeps every claim inside its interval.) */
  ghost predicate Tiled(s: State) {
    && (forall t, u, p | t in s.threads && u in s.threads ::
          ClaimsEnq(s.threads[t], p) && ClaimsEnq(s.threads[u], p) ==> t == u)
    && (forall t, u, p | t in s.threads && u in s.threads ::
          ClaimsDeq(s.threads[t], p) && ClaimsDeq(s.threads[u], p) ==> t == u)
    && (forall p | s.prodTail <= p < s.prodHead :: EnqOwned(s, p))
    && (forall p | s.consTail <= p < s.consHead :: DeqOwned(s, p))
  }

  ghost predicate Published(s: State)
    requires Counters(s)
  {
    forall p | s.consTail <= p < s.prodTail :: Stored(s, p)
  }

  ghost predicate Inv(s: State) {
    && Counters(s)
    && (forall t | t in s.threads :: PcOk(s, s.threads[t]))
    && Tiled(s)
    && Published(s)
  }

  lemma InitInv(s: State)
    requires Init(s)
    ensures Inv(s)
  {
  }

  // ---------------------------------------------------------------- preservation, step by step

  /** Moving thread `t` to `pc` keeps the tiling when `pc` claims what `t` claimed, minus what
      left the intervals, plus what was added at their upper ends. */
  lemma TilesKept(s: State, s': State, t: Tid, pc: Pc)
    requires Tiled(s) && t in s.threads && s'.threads == s.threads[t := pc]
    requires s.prodTail <= s'.prodTail && s.prodHead <= s'.prodHead
    requires s.consTail <= s'.consTail && s.consHead <= s'.consHead
    requires forall u, p | u in s.threads && ClaimsEnq(s.threads[u], p) :: s.prodTail <= p < s.prodHead
    requires forall u, p | u in s.threads && ClaimsDeq(s.threads[u], p) :: s.consTail <= p < s.consHead
    requires forall p | s'.prodTail <= p < s'.prodHead ::
               ClaimsEnq(pc, p) <==> ClaimsEnq(s.threads[t], p) || s.prodHead <= p
    requires forall p | s'.consTail <= p < s'.consHead ::
               ClaimsDeq(pc, p) <==> ClaimsDeq(s.threads[t], p) || s.consHead <= p
    requires forall p | ClaimsEnq(pc, p) :: s'.prodTail <= p < s'.prodHead
    requires forall p | ClaimsDeq(pc, p) :: s'.consTail <= p < s'.consHead
    ensures Tiled(s')
  {
    forall p | s'.prodTail <= p < s'.prodHead ensures EnqOwned(s', p) {
      if p < s.prodHead {
        assert EnqOwned(s, p);
        var u :| u in s.threads && ClaimsEnq(s.threads[u], p);
        assert ClaimsEnq(s'.threads[u], p);
      } else {
        assert ClaimsEnq(s'.threads[t], p);
      }
    }
    forall p | s'.consTail <= p < s'.consHead ensures DeqOwned(s', p) {
      if p < s.consHead {
        assert DeqOwned(s, p);
        var u :| u in s.threads && ClaimsDeq(s.threads[u], p);
        assert ClaimsDeq(s'.threads[u], p);
      } else {
        assert ClaimsDeq(s'.threads[t], p);
      }
    }
  }

  lemma ClaimsInside(s: State)
    requires Counters(s) && forall t | t in s.threads :: PcOk(s, s.threads[t])
    ensures forall u, p | u in s.threads && ClaimsEnq(s.threads[u], p) :: s.prodTail <= p < s.prodHead
    ensures forall u, p | u in s.threads && ClaimsDeq(s.threads[u], p) :: s.consTail <= p < s.consHead
  {
  }

  /** What the other threads need of a step to keep their own places right. */
  lemma PcFrame(s: State, s': State, pc: Pc)
    requires Counters(s) && Counters(s') && PcOk(s, pc)
    requires s.size == s'.size && s.given <= s'.given
    requires s.prodTail <= s'.prodTail && s.consHead <= s'.consHead && s.consTail <= s'.consTail
    requires pc.EnqCopy? ==> s'.prodTail <= pc.head && forall p | pc.head <= p < pc.head + pc.done :: Stored(s', p)
    requires pc.DeqCopy? ==> s'.consTail <= pc.head
    ensures PcOk(s', pc)
  {
  }

  /** The ring content is untouched, so whatever was stored stays stored. */
  lemma StoredFrame(s: State, s': State)
    requires Counters(s) && Counters(s')
    requires s.size == s'.size && s.given <= s'.given && s.ring == s'.ring
    ensures forall p | Stored(s, p) :: Stored(s', p)
  {
  }

  /** A step of thread `t` keeps the invariant once it keeps the tiling, what is stored, and
      the place of `t` itself. */
  lemma OthersKept(s: State, s': State, t: Tid)
    requires Inv(s) && Counters(s') && t in s.threads && t in s'.threads
    requires s'.threads == s.threads[t := s'.threads[t]]
    requires s.size == s'.size && s.given <= s'.given
    requires s.prodTail <= s'.prodTail && s.consHead <= s'.consHead && s.consTail <= s'.consTail
    requires forall p | s.consTail <= p && Stored(s, p) :: Stored(s', p)
    requires s.prodTail < s'.prodTail ==> forall p | s.prodTail <= p < s'.prodTail :: ClaimsEnq(s.threads[t], p)
    requires s.consTail < s'.consTail ==> forall p | s.consTail <= p < s'.consTail :: ClaimsDeq(s.threads[t], p)
    requires Tiled(s') && Published(s') && PcOk(s', s'.threads[t])
    ensures Inv(s')
  {
    forall u | u in s.threads && u != t ensures PcOk(s', s'.threads[u]) {
      var qc := s.threads[u];
      assert PcOk(s, qc);
      assert qc.EnqCopy? ==> ClaimsEnq(qc, qc.head);
      assert qc.DeqCopy? ==> ClaimsDeq(qc, qc.head);
      PcFrame(s, s', qc);
    }
  }

  lemma EnqClaim(s: State, t: Tid)
    requires Inv(s) && Enabled(s, t, CasOk) && s.threads[t].EnqCas?
    ensures Inv(Apply(s, t, CasOk))
  {
    var s' := Apply(s, t, CasOk);
    assert PcOk(s, s.threads[t]);
    assert Tiled(s') by { ClaimsInside(s); TilesKept(s, s', t, s'.threads[t]); }
    StoredFrame(s, s');
    OthersKept(s, s', t);
  }

  lemma DeqClaim(s: State, t: Tid)
    requires Inv(s) && Enabled(s, t, CasOk) && s.threads[t].DeqCas?
    ensures Inv(Apply(s, t, CasOk))
  {
    var s' := Apply(s, t, CasOk);
    assert PcOk(s, s.threads[t]);
    assert Tiled(s') by { ClaimsInside(s); TilesKept(s, s', t, s'.threads[t]); }
    StoredFrame(s, s');
    OthersKept(s, s', t);
  }

  /** Positions still owned by a producer, waiting to be read, or being read share no slot. */
  lemma SlotsDiffer(s: State, p: int, q: int)
    requires Counters(s)
    requires s.consTail <= p < s.prodHead && s.consTail <= q < s.prodHead && p != q
    ensures p % s.size != q % s.size
  {
    if p % s.size == q % s.size { ModInjective(p, q, s.size); }
  }

  /** Copying a slot changes no claim. */
  lemma CopyTiles(s: State, s': State, t: Tid, pc: Pc)
    requires Inv(s) && t in s.threads && s'.threads == s.threads[t := pc]
    requires s.prodTail == s'.prodTail && s.prodHead == s'.prodHead
    requires s.consTail == s'.consTail && s.consHead == s'.consHead
    requires forall p :: ClaimsEnq(pc, p) == ClaimsEnq(s.threads[t], p)
    requires forall p :: ClaimsDeq(pc, p) == ClaimsDeq(s.threads[t], p)
    ensures Tiled(s')
  {
    ClaimsInside(s);
    TilesKept(s, s', t, pc);
  }

  lemma WriteStores(s: State, s': State, w: nat)
    requires Counters(s) && s.consTail <= w < s.prodHead
    requires s' == s.(ring := s.ring[w % s.size := s.given[w]], threads := s'.threads)
    ensures Stored(s', w)
    ensures forall p | s.consTail <= p && Stored(s, p) :: Stored(s', p)
  {
    forall p | s.consTail <= p && Stored(s, p) && p != w ensures Stored(s', p) { SlotsDiffer(s, p, w); }
  }

  lemma WriteKeepsPlace(s: State, s': State, pc: Pc)
    requires Counters(s) && Counters(s') && PcOk(s, pc) && pc.EnqCopy? && pc.done < |pc.vals|
    requires s.prodHead == s'.prodHead && s.prodTail == s'.prodTail && s.given == s'.given
    requires Stored(s', pc.head + pc.done)
    requires forall p | s.consTail <= p && Stored(s, p) :: Stored(s', p)
    ensures PcOk(s', pc.(done := pc.done + 1))
  {
    forall p | pc.head <= p < pc.head + pc.done + 1 ensures Stored(s', p) {
      if p < pc.head + pc.done { assert Stored(s, p); }
    }
  }

  lemma EnqWrite(s: State, t: Tid)
    requires Inv(s) && Enabled(s, t, CopySlot) && s.threads[t].EnqCopy?
    ensures Inv(Apply(s, t, CopySlot))
  {
    var s' := Apply(s, t, CopySlot);
    var pc := s.threads[t];
    assert PcOk(s, pc);
    var w := pc.head + pc.done;
    assert s.given[pc.head..pc.head + |pc.vals|][pc.done] == s.given[w];
    WriteStores(s, s', w);
    WriteKeepsPlace(s, s', pc);
    CopyTiles(s, s', t, pc.(done := pc.done + 1));
    OthersKept(s, s', t);
  }

  lemma ReadKeepsPlace(s: State, pc: Pc)
    requires Counters(s) && PcOk(s, pc) && pc.DeqCopy? && |pc.got| < pc.n && Published(s)
    ensures PcOk(s, pc.(got := pc.got + [s.ring[(pc.head + |pc.got|) % s.size]]))
  {
    var r := pc.head + |pc.got|;
    assert Stored(s, r);
    assert s.given[pc.head..r + 1] == s.given[pc.head..r] + [s.given[r]];
  }

  lemma DeqRead(s: State, t: Tid)
    requires Inv(s) && Enabled(s, t, CopySlot) && s.threads[t].DeqCopy?
    ensures Inv(Apply(s, t, CopySlot))
  {
    var s' := Apply(s, t, CopySlot);
    assert PcOk(s, s.threads[t]);
    ReadKeepsPlace(s, s.threads[t]);
    CopyTiles(s, s', t, s'.threads[t]);
    StoredFrame(s, s');
    PcFrame(s, s', s'.threads[t]);
    OthersKept(s, s', t);
  }

  lemma EnqPublish(s: State, t: Tid)
    requires Inv(s) && Enabled(s, t, Publish) && s.threads[t].EnqCopy?
    ensures Inv(Apply(s, t, Publish))
  {
    var s' := Apply(s, t, Publish);
    var pc := s.threads[t];
    assert PcOk(s, pc);
    assert Tiled(s') by { ClaimsInside(s); TilesKept(s, s', t, Idle); }
    StoredFrame(s, s');
    OthersKept(s, s', t);
  }

  lemma DeqRelease(s: State, t: Tid)
    requires Inv(s) && Enabled(s, t, Publish) && s.threads[t].DeqCopy?
    ensures Inv(Apply(s, t, Publish))
  {
    var s' := Apply(s, t, Publish);
    var pc := s.threads[t];
    assert PcOk(s, pc);
    assert Tiled(s') by { ClaimsInside(s); TilesKept(s, s', t, Idle); }
    assert s'.taken == s.given[..pc.head + pc.n];
    StoredFrame(s, s');
    OthersKept(s, s', t);
  }

  /** A step that only moves a thread between claim-free places. */
  lemma LocalStep(s: State, t: Tid, pc: Pc)
    requires Inv(s) && t in s.threads
    requires !s.threads[t].EnqCopy? && !s.threads[t].DeqCopy?
    requires !pc.EnqCopy? && !pc.DeqCopy?
    requires PcOk(s, pc)
    ensures Inv(s.(threads := s.threads[t := pc]))
  {
    var s' := s.(threads := s.threads[t := pc]);
    assert Tiled(s') by { ClaimsInside(s); TilesKept(s, s', t, pc); }
    StoredFrame(s, s');
    PcFrame(s, s', pc);
    OthersKept(s, s', t);
  }

  /** Every step of every thread keeps the invariant. */
  lemma StepInv(s: State, t: Tid, a: Action)
    requires Inv(s) && Enabled(s, t, a)
    ensures Inv(Apply(s, t, a))
  {
    var pc := s.threads[t];
    assert PcOk(s, pc);
    match a
    case BeginEnq(vals, b) => LocalStep(s, t, EnqLoad(vals, b, s.prodHead));
    case BeginDeq(want, b) => LocalStep(s, t, DeqLoad(want, b, s.consHead));
    case ReadTail => LocalStep(s, t, Apply(s, t, a).threads[t]);
    case CasOk => if pc.EnqCas? { EnqClaim(s, t); } else { DeqClaim(s, t); }
    case CasFail => LocalStep(s, t, Apply(s, t, a).threads[t]);
    case CopySlot => if pc.EnqCopy? { EnqWrite(s, t); } else { DeqRead(s, t); }
    case Publish => if pc.EnqCopy? { EnqPublish(s, t); } else { DeqRelease(s, t); }
  }
}
