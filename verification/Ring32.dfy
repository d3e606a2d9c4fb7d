/** The ring with the counters the code really has: four u32 variables that wrap around, and
    slots selected by a mask. Every run of it is a run of RingMachine, through any number of
    wrap-arounds. */
module Ring32 {
  import opened Bits
  import opened RingMachine
  import opened RingTheorems

  /** `threads` reuses Pc; its counters now hold u32 values. */
  datatype State32 = State32(
    size: U32, mask: U32, capacity: U32,
    prodHead: U32, prodTail: U32, consHead: U32, consTail: U32,
    ring: seq<Elem>,
    threads: map<Tid, Pc>)

  function FreeEntries(capacity: U32, oldHead: U32, consTail: U32): (r: U32) {
    Wrap(capacity - Wrap(oldHead - consTail))
  }

  function Entries(prodTail: U32, oldHead: U32): (r: U32) {
    Wrap(prodTail - oldHead)
  }

  function SlotOf(s: State32, head: nat, i: nat): nat {
    And(Wrap(head + i), s.mask)
  }

  predicate Enabled32(s: State32, t: Tid, a: Action) {
    && t in s.threads
    && var pc := s.threads[t];
       match a
       case BeginEnq(_, _) => pc.Idle?
       case BeginDeq(_, _) => pc.Idle?
       case ReadTail => (pc.EnqLoad? && pc.oldHead < W32) || (pc.DeqLoad? && pc.oldHead < W32)
       case CasOk => (pc.EnqCas? && s.prodHead == pc.oldHead && pc.n <= |pc.vals|)
                     || (pc.DeqCas? && s.consHead == pc.oldHead)
       case CasFail => pc.EnqCas? || pc.DeqCas?
       case CopySlot => (pc.EnqCopy? && pc.done < |pc.vals| && SlotOf(s, pc.head, pc.done) < |s.ring|)
                        || (pc.DeqCopy? && |pc.got| < pc.n && SlotOf(s, pc.head, |pc.got|) < |s.ring|)
       case Publish => (pc.EnqCopy? && pc.done == |pc.vals| && s.prodTail == pc.head)
                       || (pc.DeqCopy? && |pc.got| == pc.n && s.consTail == pc.head)
  }

  function Apply32(s: State32, t: Tid, a: Action): (s': State32)
    requires Enabled32(s, t, a)
  {
    var pc := s.threads[t];
    match a
    case BeginEnq(vals, b) => s.(threads := s.threads[t := EnqLoad(vals, b, s.prodHead)])
    case BeginDeq(want, b) => s.(threads := s.threads[t := DeqLoad(want, b, s.consHead)])
    case ReadTail =>
      if pc.EnqLoad? then
        var n := Clamp(|pc.vals|, FreeEntries(s.capacity, pc.oldHead, s.consTail), pc.b);
        s.(threads := s.threads[t := if n == 0 then Idle else EnqCas(pc.vals, pc.b, pc.oldHead, n)])
      else
        var n := Clamp(pc.want, Entries(s.prodTail, pc.oldHead), pc.b);
        s.(threads := s.threads[t := if n == 0 then Idle else DeqCas(pc.want, pc.b, pc.oldHead, n)])
    case CasOk =>
      if pc.EnqCas? then
        s.(prodHead := Wrap(pc.oldHead + pc.n), threads := s.threads[t := EnqCopy(pc.vals[..pc.n], pc.oldHead, 0)])
      else
        s.(consHead := Wrap(pc.oldHead + pc.n), threads := s.threads[t := DeqCopy(pc.oldHead, pc.n, [])])
    case CasFail =>
      if pc.EnqCas? then
        s.(threads := s.threads[t := EnqLoad(pc.vals, pc.b, s.prodHead)])
      else
        s.(threads := s.threads[t := DeqLoad(pc.want, pc.b, s.consHead)])
    case CopySlot =>
      if pc.EnqCopy? then
        s.(ring := s.ring[SlotOf(s, pc.head, pc.done) := pc.vals[pc.done]],
           threads := s.threads[t := pc.(done := pc.done + 1)])
      else
        s.(threads := s.threads[t := pc.(got := pc.got + [s.ring[SlotOf(s, pc.head, |pc.got|)]])])
    case Publish =>
      if pc.EnqCopy? then
        s.(prodTail := Wrap(pc.head + |pc.vals|), threads := s.threads[t := Idle])
      else
        s.(consTail := Wrap(pc.head + pc.n), threads := s.threads[t := Idle])
  }

  /** kt_ringbuf_count. */
  function Count(s: State32): (r: nat) {
    var count := And(Wrap(s.prodTail - s.consTail), s.mask);
    if count > s.capacity then s.capacity else count
  }

  // ---------------------------------------------------------------- the refinement map

  function LowerPc(pc: Pc): Pc {
    match pc
    case Idle => Idle
    case EnqLoad(vals, b, o) => EnqLoad(vals, b, Wrap(o))
    case EnqCas(vals, b, o, n) => EnqCas(vals, b, Wrap(o), n)
    case EnqCopy(vals, h, d) => EnqCopy(vals, Wrap(h), d)
    case DeqLoad(w, b, o) => DeqLoad(w, b, Wrap(o))
    case DeqCas(w, b, o, n) => DeqCas(w, b, Wrap(o), n)
    case DeqCopy(h, n, got) => DeqCopy(Wrap(h), n, got)
  }

  /** The u32 view of a state with unbounded counters, histories dropped. */
  function Lower(a: State): State32
    requires 0 < a.size < W32
  {
    State32(a.size, a.size - 1, a.size - 1,
            Wrap(a.prodHead), Wrap(a.prodTail), Wrap(a.consHead), Wrap(a.consTail),
            a.ring,
            map t | t in a.threads :: LowerPc(a.threads[t]))
  }

  /** Fewer positions than a u32 can tell apart have gone by since thread `t` loaded its head. */
  ghost predicate InWindow(a: State, t: Tid) {
    t in a.threads ==>
      match a.threads[t]
      case EnqLoad(_, _, o) => FreeSeen(a, o) < W32
      case EnqCas(_, _, o, _) => a.prodHead - o < W32
      case DeqLoad(_, _, o) => EntriesSeen(a, o) < W32
      case DeqCas(_, _, o, _) => a.consHead - o < W32
      case _ => true
  }

  // ---------------------------------------------------------------- exact modular arithmetic

  lemma WrapSame(x: int, y: int)
    requires Wrap(x) == Wrap(y) && x - y < W32 && y - x < W32
    ensures x == y
  {
    ModInjective(x, y, W32);
  }

  lemma FreeExact(c: int, o: int, t: int)
    requires 0 <= c - (o - t) < W32
    ensures Wrap(c - Wrap(Wrap(o) - Wrap(t))) == c - (o - t)
  {
    WrapOfDifference(o, t);
    WrapOfWrap(o - t, c);
  }

  lemma DifferenceExact(x: int, y: int)
    requires 0 <= x - y < W32
    ensures Wrap(Wrap(x) - Wrap(y)) == x - y
  {
    WrapOfDifference(x, y);
  }

  /** The u32 differences are the true ones, wherever the counters stand. */
  lemma DifferencesExact(a: State, o: nat)
    requires Counters(a) && 0 < a.size < W32
    ensures 0 <= FreeSeen(a, o) < W32 ==> FreeEntries(a.size - 1, Wrap(o), Wrap(a.consTail)) == FreeSeen(a, o)
    ensures 0 <= EntriesSeen(a, o) < W32 ==> Entries(Wrap(a.prodTail), Wrap(o)) == EntriesSeen(a, o)
    ensures Wrap(Wrap(a.prodTail) - Wrap(a.consTail)) == a.prodTail - a.consTail
  {
    if 0 <= FreeSeen(a, o) < W32 { FreeExact(a.size - 1, o, a.consTail); }
    if 0 <= EntriesSeen(a, o) < W32 { DifferenceExact(a.prodTail, o); }
    DifferenceExact(a.prodTail, a.consTail);
  }

  /** The masked u32 index of a position is the position modulo the size. */
  lemma SlotExact(a: State, h: nat, i: nat)
    requires GoodSize(a.size)
    ensures a.size > 0 && SlotOf(Lower(a), Wrap(h), i) == (h + i) % a.size
  {
    WrapOfWrap(h, i);
    WrapKeepsSlot(h + i, a.size);
    MaskIsRemainderIff(a.size);
  }

  // ---------------------------------------------------------------- one step

  /** A step is possible with u32 counters exactly when it is possible with unbounded ones. */
  lemma EnabledAgrees(a: State, t: Tid, act: Action)
    requires Inv(a) && GoodSize(a.size) && InWindow(a, t)
    ensures Enabled32(Lower(a), t, act) <==> Enabled(a, t, act)
  {
    if t in a.threads {
      assert PcOk(a, a.threads[t]);
      match act
      case ReadTail => ReadTailEnabled(a, t);
      case CasOk => CasEnabled(a, t);
      case CopySlot => CopyEnabled(a, t);
      case Publish => PublishEnabled(a, t);
      case _ =>
    }
  }

  lemma ReadTailEnabled(a: State, t: Tid)
    requires Counters(a) && GoodSize(a.size) && t in a.threads && PcOk(a, a.threads[t])
    ensures Enabled32(Lower(a), t, ReadTail) <==> Enabled(a, t, ReadTail)
  {
  }

  lemma CasEnabled(a: State, t: Tid)
    requires Counters(a) && GoodSize(a.size) && t in a.threads && PcOk(a, a.threads[t]) && InWindow(a, t)
    ensures Enabled32(Lower(a), t, CasOk) <==> Enabled(a, t, CasOk)
  {
    var pc := a.threads[t];
    if pc.EnqCas? && Wrap(a.prodHead) == Wrap(pc.oldHead) { WrapSame(a.prodHead, pc.oldHead); }
    if pc.DeqCas? && Wrap(a.consHead) == Wrap(pc.oldHead) { WrapSame(a.consHead, pc.oldHead); }
  }

  lemma CopyEnabled(a: State, t: Tid)
    requires Counters(a) && GoodSize(a.size) && t in a.threads
    ensures Enabled32(Lower(a), t, CopySlot) <==> Enabled(a, t, CopySlot)
  {
    var pc := a.threads[t];
    if pc.EnqCopy? { SlotExact(a, pc.head, pc.done); }
    if pc.DeqCopy? { SlotExact(a, pc.head, |pc.got|); }
  }

  lemma PublishEnabled(a: State, t: Tid)
    requires Counters(a) && GoodSize(a.size) && t in a.threads && PcOk(a, a.threads[t])
    ensures Enabled32(Lower(a), t, Publish) <==> Enabled(a, t, Publish)
  {
    var pc := a.threads[t];
    if pc.EnqCopy? && Wrap(a.prodTail) == Wrap(pc.head) { WrapSame(a.prodTail, pc.head); }
    if pc.DeqCopy? && Wrap(a.consTail) == Wrap(pc.head) { WrapSame(a.consTail, pc.head); }
  }

  lemma LowerThreads(a: State, t: Tid, pc: Pc)
    requires 0 < a.size < W32 && t in a.threads
    ensures Lower(a.(threads := a.threads[t := pc])) == Lower(a).(threads := Lower(a).threads[t := LowerPc(pc)])
  {
    var l, r := Lower(a.(threads := a.threads[t := pc])).threads, Lower(a).threads[t := LowerPc(pc)];
    assert l.Keys == r.Keys;
    assert forall u | u in l :: l[u] == r[u];
    assert l == r;
  }

  lemma ReadTailAgrees(a: State, t: Tid)
    requires Counters(a) && GoodSize(a.size) && InWindow(a, t)
    requires Enabled(a, t, ReadTail) && Enabled32(Lower(a), t, ReadTail)
    ensures Apply32(Lower(a), t, ReadTail) == Lower(Apply(a, t, ReadTail))
  {
    DifferencesExact(a, a.threads[t].oldHead);
    LowerThreads(a, t, Apply(a, t, ReadTail).threads[t]);
  }

  lemma EnqCasAgrees(a: State, t: Tid)
    requires Counters(a) && GoodSize(a.size) && t in a.threads && a.threads[t].EnqCas?
    requires Enabled(a, t, CasOk) && Enabled32(Lower(a), t, CasOk)
    ensures Apply32(Lower(a), t, CasOk) == Lower(Apply(a, t, CasOk))
  {
    var pc := a.threads[t];
    WrapOfWrap(pc.oldHead, pc.n);
    LowerThreads(a, t, EnqCopy(pc.vals[..pc.n], pc.oldHead, 0));
  }

  lemma DeqCasAgrees(a: State, t: Tid)
    requires Counters(a) && GoodSize(a.size) && t in a.threads && a.threads[t].DeqCas?
    requires Enabled(a, t, CasOk) && Enabled32(Lower(a), t, CasOk)
    ensures Apply32(Lower(a), t, CasOk) == Lower(Apply(a, t, CasOk))
  {
    var pc := a.threads[t];
    WrapOfWrap(pc.oldHead, pc.n);
    LowerThreads(a, t, DeqCopy(pc.oldHead, pc.n, []));
  }

  lemma CopyAgrees(a: State, t: Tid)
    requires Counters(a) && GoodSize(a.size)
    requires Enabled(a, t, CopySlot) && Enabled32(Lower(a), t, CopySlot)
    ensures Apply32(Lower(a), t, CopySlot) == Lower(Apply(a, t, CopySlot))
  {
    var pc := a.threads[t];
    if pc.EnqCopy? { SlotExact(a, pc.head, pc.done); } else { SlotExact(a, pc.head, |pc.got|); }
    LowerThreads(a, t, Apply(a, t, CopySlot).threads[t]);
  }

  lemma PublishAgrees(a: State, t: Tid)
    requires Counters(a) && GoodSize(a.size)
    requires Enabled(a, t, Publish) && Enabled32(Lower(a), t, Publish)
    ensures Apply32(Lower(a), t, Publish) == Lower(Apply(a, t, Publish))
  {
    var pc := a.threads[t];
    if pc.EnqCopy? { WrapOfWrap(pc.head, |pc.vals|); } else { WrapOfWrap(pc.head, pc.n); }
    LowerThreads(a, t, Idle);
  }

  /** ... and has the same effect. */
  lemma StepAgrees(a: State, t: Tid, act: Action)
    requires Inv(a) && GoodSize(a.size) && InWindow(a, t)
    requires Enabled(a, t, act) && Enabled32(Lower(a), t, act)
    ensures Apply32(Lower(a), t, act) == Lower(Apply(a, t, act))
  {
    match act
    case ReadTail => ReadTailAgrees(a, t);
    case CasOk => if a.threads[t].EnqCas? { EnqCasAgrees(a, t); } else { DeqCasAgrees(a, t); }
    case CopySlot => CopyAgrees(a, t);
    case Publish => PublishAgrees(a, t);
    case _ => LowerThreads(a, t, Apply(a, t, act).threads[t]);
  }

  /** How the window can be missed: a stale u32 compare-and-swap succeeds, where the unbounded one
      fails, exactly when the head has moved by a whole positive multiple of 2^32 since the load. */
  lemma StaleCasSucceedsIff(a: State, t: Tid)
    requires Inv(a) && 0 < a.size < W32 && t in a.threads && (a.threads[t].EnqCas? || a.threads[t].DeqCas?)
    ensures var head, o := if a.threads[t].EnqCas? then a.prodHead else a.consHead, a.threads[t].oldHead;
            Enabled32(Lower(a), t, CasOk) && !Enabled(a, t, CasOk) <==> head > o && (head - o) % W32 == 0
  {
    var pc := a.threads[t];
    assert PcOk(a, pc);
    SameWrapIff(if pc.EnqCas? then a.prodHead else a.consHead, pc.oldHead);
  }

  lemma SameWrapIff(x: nat, y: nat)
    ensures Wrap(x) == Wrap(y) <==> (x - y) % W32 == 0
  {
    WrapOfDifference(x, y);
    if (x - y) % W32 == 0 { WrapOfWrap(x - y, y); }
  }

  // ---------------------------------------------------------------- whole runs

  ghost predicate CanRun32(c: State32, acts: seq<(Tid, Action)>)
    decreases |acts|
  {
    acts == [] || (Enabled32(c, acts[0].0, acts[0].1) && CanRun32(Apply32(c, acts[0].0, acts[0].1), acts[1..]))
  }

  ghost function RunTo32(c: State32, acts: seq<(Tid, Action)>): State32
    requires CanRun32(c, acts)
    decreases |acts|
  {
    if acts == [] then c else RunTo32(Apply32(c, acts[0].0, acts[0].1), acts[1..])
  }

  /** No thread is overtaken by 2^32 positions between loading a head and using it. */
  ghost predicate NeverLapped(a: State, acts: seq<(Tid, Action)>)
    decreases |acts|
  {
    acts == [] ||
    (InWindow(a, acts[0].0) &&
     (Enabled(a, acts[0].0, acts[0].1) ==> NeverLapped(Apply(a, acts[0].0, acts[0].1), acts[1..])))
  }

  /** The u32 ring refines the unbounded ring over every run, and the other way round. */
  lemma StepRefines(a: State, t: Tid, act: Action)
    requires Inv(a) && GoodSize(a.size) && InWindow(a, t) && Enabled(a, t, act)
    ensures Inv(Apply(a, t, act)) && Apply(a, t, act).size == a.size
    ensures Enabled32(Lower(a), t, act) && Apply32(Lower(a), t, act) == Lower(Apply(a, t, act))
  {
    EnabledAgrees(a, t, act);
    StepAgrees(a, t, act);
    StepInv(a, t, act);
  }

  lemma {:induction false} RunAgrees(a: State, acts: seq<(Tid, Action)>)
    requires Inv(a) && GoodSize(a.size) && NeverLapped(a, acts)
    ensures CanRun32(Lower(a), acts) <==> CanRun(a, acts)
    ensures CanRun(a, acts) ==> RunTo(a, acts).size == a.size && RunTo32(Lower(a), acts) == Lower(RunTo(a, acts))
    decreases |acts|
  {
    if acts != [] {
      var t, act := acts[0].0, acts[0].1;
      EnabledAgrees(a, t, act);
      if Enabled(a, t, act) {
        StepRefines(a, t, act);
        RunAgrees(Apply(a, t, act), acts[1..]);
      }
    }
  }

  function OfferedBy(c: State32, t: Tid, act: Action): seq<Elem>
    requires Enabled32(c, t, act)
  {
    if act == CasOk && c.threads[t].EnqCas? then c.threads[t].vals[..c.threads[t].n] else []
  }

  function ReturnedBy(c: State32, t: Tid, act: Action): seq<Elem>
    requires Enabled32(c, t, act)
  {
    if act == Publish && c.threads[t].DeqCopy? then c.threads[t].got else []
  }

  /** The values enqueues claimed room for, in the order of their claims. */
  ghost function Offered(c: State32, acts: seq<(Tid, Action)>): seq<Elem>
    requires CanRun32(c, acts)
    decreases |acts|
  {
    if acts == [] then []
    else OfferedBy(c, acts[0].0, acts[0].1) + Offered(Apply32(c, acts[0].0, acts[0].1), acts[1..])
  }

  /** The values dequeues handed back, in the order they released them. */
  ghost function Returned(c: State32, acts: seq<(Tid, Action)>): seq<Elem>
    requires CanRun32(c, acts)
    decreases |acts|
  {
    if acts == [] then []
    else ReturnedBy(c, acts[0].0, acts[0].1) + Returned(Apply32(c, acts[0].0, acts[0].1), acts[1..])
  }

  lemma StepHistory(a: State, t: Tid, act: Action)
    requires 0 < a.size < W32 && Enabled(a, t, act) && Enabled32(Lower(a), t, act)
    ensures Apply(a, t, act).given == a.given + OfferedBy(Lower(a), t, act)
    ensures Apply(a, t, act).taken == a.taken + ReturnedBy(Lower(a), t, act)
  {
  }

  lemma Concat3(x: seq<Elem>, y: seq<Elem>, z: seq<Elem>)
    ensures (x + y) + z == x + (y + z)
  {
  }

  lemma UnfoldRun(a: State, acts: seq<(Tid, Action)>)
    requires acts != [] && CanRun(a, acts)
    ensures Enabled(a, acts[0].0, acts[0].1) && CanRun(Apply(a, acts[0].0, acts[0].1), acts[1..])
    ensures RunTo(a, acts) == RunTo(Apply(a, acts[0].0, acts[0].1), acts[1..])
  {
  }

  lemma UnfoldHistories(c: State32, acts: seq<(Tid, Action)>)
    requires acts != [] && CanRun32(c, acts)
    ensures Enabled32(c, acts[0].0, acts[0].1) && CanRun32(Apply32(c, acts[0].0, acts[0].1), acts[1..])
    ensures var t, act := acts[0].0, acts[0].1;
            && Offered(c, acts) == OfferedBy(c, t, act) + Offered(Apply32(c, t, act), acts[1..])
            && Returned(c, acts) == ReturnedBy(c, t, act) + Returned(Apply32(c, t, act), acts[1..])
  {
  }

  lemma {:induction false} HistoriesAgree(a: State, acts: seq<(Tid, Action)>)
    requires Inv(a) && GoodSize(a.size) && NeverLapped(a, acts)
    requires CanRun32(Lower(a), acts) && CanRun(a, acts)
    ensures RunTo(a, acts).given == a.given + Offered(Lower(a), acts)
    ensures RunTo(a, acts).taken == a.taken + Returned(Lower(a), acts)
    decreases |acts|
  {
    if acts != [] {
      var t, act := acts[0].0, acts[0].1;
      UnfoldRun(a, acts);
      UnfoldHistories(Lower(a), acts);
      StepHistory(a, t, act);
      StepRefines(a, t, act);
      var a' := Apply(a, t, act);
      HistoriesAgree(a', acts[1..]);
      Concat3(a.given, OfferedBy(Lower(a), t, act), Offered(Lower(a'), acts[1..]));
      Concat3(a.taken, ReturnedBy(Lower(a), t, act), Returned(Lower(a'), acts[1..]));
    }
  }

  /** First in, first out, for the u32 ring: over any run from an empty ring, the values handed
      back are a prefix of the values offered, in order, with none lost, repeated or torn. */
  lemma Fifo32(a: State, acts: seq<(Tid, Action)>)
    requires Init(a) && GoodSize(a.size) && NeverLapped(a, acts)
    requires CanRun32(Lower(a), acts)
    ensures Returned(Lower(a), acts) <= Offered(Lower(a), acts)
    ensures |Offered(Lower(a), acts)| - |Returned(Lower(a), acts)| <= a.Capacity()
  {
    InitInv(a);
    RunAgrees(a, acts);
    HistoriesAgree(a, acts);
    Fifo(a, acts, 0);
    assert a.given + Offered(Lower(a), acts) == Offered(Lower(a), acts);
    assert a.taken + Returned(Lower(a), acts) == Returned(Lower(a), acts);
  }

  lemma SmallMask(d: nat, size: nat)
    requires IsPow2(size) && d < size
    ensures And(d, size - 1) == d
  {
    var k: nat :| size == Pow2(k);
    AndMask(d, k);
    ModUnique(d, size, 0, d);
  }

  lemma CountOf(d: nat, prodTail: U32, consTail: U32, size: U32)
    requires IsPow2(size) && d < size && Wrap(prodTail - consTail) == d
    ensures And(Wrap(prodTail - consTail), size - 1) == d
  {
    SmallMask(d, size);
  }

  /** kt_ringbuf_count reports published minus released entries, in every state. */
  lemma CountExact(a: State)
    requires Inv(a) && GoodSize(a.size)
    ensures Count(Lower(a)) == a.prodTail - a.consTail
  {
    DifferenceExact(a.prodTail, a.consTail);
    CountOf(a.prodTail - a.consTail, Wrap(a.prodTail), Wrap(a.consTail), a.size);
  }

  /** Without a power-of-two size the mask is wrong: in a ring of 100 entries two positions
      that may be occupied at once share a slot. */
  lemma HundredSlotsCollide()
    ensures And(0, 99) == And(4, 99)
    ensures !IsPow2(100)
  {
    assert And(1, 24) == 0;
    assert And(2, 49) == 0;
    assert And(4, 99) == 0;
    MaskIsRemainderIff(100);
    assert And(4, 99) != 4 % 100;
  }
}
