/** The code around the rings and the queue in its own form: set-up and scheduler round of ktsnd.c
    and the sending path of libktsn.c, on the objects of RingBuf and PrioQueue, one call at a time.
    Interleavings are the subject of System. */
module Runtime {
  import opened Bits
  import opened Heap
  import opened RingMachine
  import opened RingBuf
  import opened PrioQueue
  import opened System
  import opened SystemInv
  import opened SystemData

  const ENOBUFS: int := 105

  /** Values below `n`. */
  ghost predicate Below(v: seq<nat>, n: int) {
    forall i :: 0 <= i < |v| ==> v[i] < n
  }

  /** Enqueues every index once, in order. */
  method FillWithIndices(r: Ring)
    requires r.Valid() && r.Contents() == []
    modifies r`prodHead, r`prodTail, r.ring
    ensures r.Valid() && r.Contents() == seq(r.capacity, i => i)
  {
    for i := 0 to r.capacity
      invariant r.Valid() && r.Contents() == seq(i, k => k)
    {
      var table := [i];
      var moved := r.EnqueueBurst(table, 1, 0);
      assert table[..1] == [i];
    }
  }

  /** A one-entry dequeue. */
  method TakeOne(r: Ring) returns (got: bool, x: nat)
    requires r.Valid()
    modifies r`consHead, r`consTail
    ensures r.Valid() && (got <==> old(r.Contents()) != [])
    ensures got ==> x == old(r.Contents())[0] && r.Contents() == old(r.Contents())[1..]
    ensures !got ==> r.Contents() == []
  {
    var index := new nat[1](i => 0);
    var moved := r.DequeueBurst(index, 1, 0);
    got := moved != 0;
    x := index[0];
    if got { assert index[..1] == [x]; }
  }

  /** A one-entry enqueue. */
  method PutOne(r: Ring, x: nat) returns (put: bool)
    requires r.Valid()
    modifies r`prodHead, r`prodTail, r.ring
    ensures r.Valid() && (put <==> |old(r.Contents())| < r.capacity)
    ensures r.Contents() == GivenBack(old(r.Contents()), r.capacity, x)
  {
    var moved := r.EnqueueBurst([x], 1, 0);
    put := moved == 1;
    assert [x][..moved] == if put then [x] else [];
  }

  function GivenBack(v: seq<nat>, cap: nat, x: nat): (r: seq<nat>) {
    if |v| < cap then v + [x] else v
  }

  /** The shared memory: both rings and the buffer pools. */
  class Shared {
    const n: nat
    const tx: Ring
    const free: Ring
    const mem: array<Byte>
    const times: array<I64>
    const sizes: array<nat>

    ghost predicate Valid()
      reads this, tx, free, tx.ring, free.ring
    {
      && tx != free && tx.ring != free.ring
      && tx.Valid() && free.Valid()
      && tx.capacity == free.capacity == n
      && times.Length == n && sizes.Length == n && mem.Length == n * MBUF
      && mem as object != tx.ring && mem as object != free.ring && sizes as object != tx.ring &&
         sizes as object != free.ring
      && times as object != tx.ring && times as object != free.ring && mem as object != times &&
         mem as object != sizes && times as object != sizes
      && Below(free.Contents(), n) && Below(tx.Contents(), n)
    }

    /** A burst dequeue of up to 8 indices from the tx ring, into a table of 64. */
    method Poll() returns (batch: seq<nat>)
      requires Valid()
      modifies tx`consHead, tx`consTail
      ensures Valid() && Below(batch, n)
      ensures |batch| == Clamp(8, |old(tx.Contents())|, Variable)
      ensures batch == old(tx.Contents())[..|batch|] && tx.Contents() == old(tx.Contents())[|batch|..]
      ensures free.Contents() == old(free.Contents())
    {
      var table := new nat[64](i => 0);
      var moved := tx.DequeueBurst(table, BURST, 0);
      batch := table[..moved];
      assert free.Valid() && free.Contents() == old(free.Contents());
    }

    /** No recorded size exceeds a buffer. */
    ghost predicate SizesFit()
      reads this, sizes
    {
      forall k :: 0 <= k < sizes.Length ==> sizes[k] <= MBUF
    }

    ghost function PoolView(): Pool
      reads this, mem, times, sizes
    {
      Pool(mem[..], times[..], sizes[..])
    }

    /** Set-up: two rings of `count` entries, the free one filled with every index in order, and
        pools with one buffer per index. */
    constructor (count: U32)
      requires GoodSize(count)
      ensures Valid() && SizesFit() && n == count - 1
      ensures tx.Contents() == [] && free.Contents() == seq(n, i => i)
    {
      MaskedIndex(0, count);
      var t := new Ring(count);
      var f := new Ring(count);
      tx, free := t, f;
      n := count - 1;
      mem := new Byte[(count - 1) * MBUF](i => 0);
      times := new I64[count - 1](i => 0);
      sizes := new nat[count - 1](i => 0);
      new;
      FillWithIndices(free);
    }

    /** The sending path of sendmsg, once the interface is known: an index from the free ring, the
        payload and metadata into its buffers, the index to the tx ring. */
    method SendMsg(payload: seq<Byte>, txtime: Time) returns (code: int)
      requires Valid() && |payload| <= MBUF
      modifies free`consHead, free`consTail, tx`prodHead, tx`prodTail, tx.ring, mem, times, sizes
      ensures Valid() && (old(SizesFit()) ==> SizesFit())
      ensures old(free.Contents()) == [] ==>
                code == -ENOBUFS && free.Contents() == [] && tx.Contents() == old(tx.Contents()) &&
                    PoolView() == old(PoolView())
      ensures old(free.Contents()) != [] ==>
                var x := old(free.Contents())[0];
                && free.Contents() == old(free.Contents())[1..]
                && OnlyAt(old(PoolView()), PoolView(), x) && Holds(PoolView(), x, Msg(payload, txtime))
                && (if |old(tx.Contents())| < n
                    then code == |payload| && tx.Contents() == old(tx.Contents()) + [x]
                    else code == -ENOBUFS && tx.Contents() == old(tx.Contents()))
    {
      var got, x := TakeOne(free);
      if !got {
        return -ENOBUFS;
      }
      FillBuffers(x, payload, txtime);
      var put := PutOne(tx, x);
      if !put {
        return -ENOBUFS;
      }
      code := |payload|;
    }

    /** Payload, txtime and size of a message into the buffers of index `x`. */
    method FillBuffers(x: nat, payload: seq<Byte>, txtime: Time)
      requires times.Length == n && sizes.Length == n && mem.Length == n * MBUF && x < n && |payload| <= MBUF
      requires mem as object != times && mem as object != sizes && times as object != sizes
      modifies mem, times, sizes
      ensures OnlyAt(old(PoolView()), PoolView(), x) && Holds(PoolView(), x, Msg(payload, txtime))
      ensures old(SizesFit()) ==> SizesFit()
    {
      CopyPayload(x, payload);
      times[x] := txtime;
      sizes[x] := |payload|;
      assert payload[..|payload|] == payload;
    }

    /** memcpy into buffer `x`. */
    method CopyPayload(x: nat, payload: seq<Byte>)
      requires mem.Length == n * MBUF && x < n && |payload| <= MBUF
      modifies mem
      ensures mem[x * MBUF..x * MBUF + |payload|] == payload
      ensures forall k :: 0 <= k < mem.Length && !(x * MBUF <= k < x * MBUF + |payload|) ==> mem[k] == old(mem[k])
    {
      for i := 0 to |payload|
        invariant forall k :: 0 <= k < i ==> mem[x * MBUF + k] == payload[k]
        invariant forall k :: 0 <= k < mem.Length && !(x * MBUF <= k < x * MBUF + i) ==> mem[k] == old(mem[k])
      {
        mem[x * MBUF + i] := payload[i];
      }
    }
  }

  // ---------------------------------------------------------------- the scheduler round

  datatype Event =
    | Nothing                                              // no packet queued, or the first is too far ahead
    | Late(x: nat, txtime: I64)                            // dropped
    | Out(x: nat, txtime: I64, payload: seq<Byte>)         // sent

  /** The queue after the insertions of a batch; an insertion into a full queue is refused. */
  function InsertAll(q: seq<Node>, cap: nat, batch: seq<nat>, times: seq<I64>): (r: seq<Node>)
    requires forall i :: 0 <= i < |batch| ==> batch[i] < |times|
  {
    if batch == [] then q
    else
      var l := |batch| - 1;
      var r := InsertAll(q, cap, batch[..l], times);
      if |r| == cap then r else Insert(r, times[batch[l]], batch[l])
  }

  ghost predicate EntriesBelow(q: seq<Node>, n: nat) {
    forall i :: 0 <= i < |q| ==> q[i].data < n
  }

  lemma EntriesOf(q: seq<Node>, r: seq<Node>, n: nat)
    requires EntriesBelow(q, n) && (forall x | x in multiset(r) :: x in multiset(q) || x.data < n)
    ensures EntriesBelow(r, n)
  {
    forall i | 0 <= i < |r| ensures r[i].data < n {
      assert r[i] in multiset(r);
      if r[i] in multiset(q) { assert r[i] in q; }
    }
  }

  /** Queueing a batch keeps the heap and its entries in range. */
  lemma {:induction false} InsertAllKeeps(q: seq<Node>, cap: nat, batch: seq<nat>, times: seq<I64>)
    requires Below(batch, |times|) && EntriesBelow(q, |times|)
    ensures EntriesBelow(InsertAll(q, cap, batch, times), |times|)
    ensures HeapOrder(q) ==> HeapOrder(InsertAll(q, cap, batch, times))
    decreases |batch|
  {
    if batch != [] {
      var l := |batch| - 1;
      var r := InsertAll(q, cap, batch[..l], times);
      InsertAllKeeps(q, cap, batch[..l], times);
      InsertCorrect(r, times[batch[l]], batch[l]);
      EntriesOf(r, InsertAll(q, cap, batch, times), |times|);
    }
  }

  /** The entries for the first `k` indices of a batch, each with its own deadline. */
  ghost function EntriesFor(batch: seq<nat>, times: seq<I64>, k: nat): (r: seq<Node>)
    requires k <= |batch| && Below(batch, |times|)
  {
    seq(k, i requires 0 <= i < k => Node(times[batch[i]], batch[i]))
  }

  /** How many of `n` insertions a queue with `room` places left takes. */
  function Taken(n: nat, room: nat): nat { if n <= room then n else room }

  /** The queue `r` holds what `q` held and, as long as there was room, every index of the batch under
      its own deadline, and nothing else. */
  ghost predicate Gains(q: seq<Node>, cap: nat, batch: seq<nat>, times: seq<I64>, r: seq<Node>)
    requires |q| <= cap && Below(batch, |times|)
  {
    multiset(r) == multiset(q) + multiset(EntriesFor(batch, times, Taken(|batch|, cap - |q|)))
  }

  lemma InsertAllLength(q: seq<Node>, cap: nat, batch: seq<nat>, times: seq<I64>)
    requires |q| <= cap && Below(batch, |times|)
    ensures |InsertAll(q, cap, batch, times)| == |q| + Taken(|batch|, cap - |q|)
    decreases |batch|
  {
    if batch != [] { InsertAllLength(q, cap, batch[..|batch| - 1], times); }
  }

  lemma EntriesNext(batch: seq<nat>, times: seq<I64>, k: nat)
    requires 0 < |batch| && k < |batch| && Below(batch, |times|)
    ensures EntriesFor(batch[..|batch| - 1], times, k) == EntriesFor(batch, times, k)
    ensures EntriesFor(batch, times, k + 1) == EntriesFor(batch, times, k) + [Node(times[batch[k]], batch[k])]
  {
  }

  /** The last index of a batch goes in if there is still room. */
  lemma GainsNext(q: seq<Node>, cap: nat, batch: seq<nat>, times: seq<I64>, r: seq<Node>, r': seq<Node>)
    requires 0 < |batch| && |q| <= cap && Below(batch, |times|)
    requires var l := |batch| - 1;
             && |r| == |q| + Taken(l, cap - |q|) && Gains(q, cap, batch[..l], times, r)
             && multiset(r') == multiset(r) +
                  if |r| == cap then multiset{} else multiset{Node(times[batch[l]], batch[l])}
    ensures Gains(q, cap, batch, times, r')
  {
    var k := Taken(|batch| - 1, cap - |q|);
    EntriesNext(batch, times, k);
    var now := EntriesFor(batch, times, k);
    assert |r| < cap ==> multiset(now + [Node(times[batch[k]], batch[k])]) ==
                         multiset(now) + multiset{Node(times[batch[k]], batch[k])};
  }

  /** Queueing a batch adds exactly its entries. */
  lemma {:induction false} InsertAllGains(q: seq<Node>, cap: nat, batch: seq<nat>, times: seq<I64>)
    requires |q| <= cap && Below(batch, |times|)
    ensures Gains(q, cap, batch, times, InsertAll(q, cap, batch, times))
    decreases |batch|
  {
    if batch == [] {
      assert EntriesFor(batch, times, 0) == [];
    } else {
      var l := |batch| - 1;
      var r := InsertAll(q, cap, batch[..l], times);
      InsertAllGains(q, cap, batch[..l], times);
      InsertAllLength(q, cap, batch[..l], times);
      InsertCorrect(r, times[batch[l]], batch[l]);
      GainsNext(q, cap, batch, times, r, InsertAll(q, cap, batch, times));
    }
  }

  class Scheduler {
    const shared: Shared
    const queue: Queue
    const recycle: bool
    const sound: bool
    var counter: nat

    ghost predicate Valid()
      reads shared, shared.tx, shared.free, shared.tx.ring, shared.free.ring, shared.sizes, queue, queue.elems
    {
      && shared.Valid() && shared.SizesFit() && queue.Valid() && queue.cap == shared.n
      && EntriesBelow(queue.Contents(), shared.n)
      && (sound ==> HeapOrder(queue.Contents()))
      && queue.elems as object !in {shared.tx.ring as object, shared.free.ring, shared.mem, shared.times, shared.sizes}
    }

    constructor (shared: Shared, recycle: bool, sound: bool)
      requires shared.Valid() && shared.SizesFit()
      ensures Valid() && this.shared == shared && this.recycle == recycle && this.sound == sound
      ensures queue.Contents() == [] && counter == 0 && fresh(queue) && fresh(queue.elems)
    {
      this.shared := shared;
      this.recycle := recycle;
      this.sound := sound;
      queue := new Queue(shared.n);
      counter := 0;
    }

    /** Takes a burst from the tx ring and queues it by deadline. */
    method TakeBurst() returns (ghost batch: seq<nat>)
      requires Valid()
      modifies shared.tx`consHead, shared.tx`consTail, queue`size, queue.elems
      ensures Valid()
      ensures batch == old(shared.tx.Contents())[..Clamp(8, |old(shared.tx.Contents())|, Variable)]
      ensures shared.tx.Contents() == old(shared.tx.Contents())[|batch|..]
      ensures shared.free.Contents() == old(shared.free.Contents())
      ensures Below(batch, shared.times.Length)
      ensures queue.Contents() == InsertAll(old(queue.Contents()), queue.cap, batch, shared.times[..])
      ensures Gains(old(queue.Contents()), queue.cap, batch, shared.times[..], queue.Contents())
    {
      var polled := shared.Poll();
      batch := polled;
      assert queue.Contents() == old(queue.Contents()) && Valid();
      Enqueue(polled);
    }

    /** Queues a burst; the rings are not touched. */
    method Enqueue(batch: seq<nat>)
      requires Valid() && Below(batch, shared.n)
      modifies queue`size, queue.elems
      ensures Valid() && shared.tx.Contents() == old(shared.tx.Contents())
      ensures shared.free.Contents() == old(shared.free.Contents())
      ensures queue.Contents() == InsertAll(old(queue.Contents()), queue.cap, batch, shared.times[..])
      ensures Gains(old(queue.Contents()), queue.cap, batch, shared.times[..], queue.Contents())
    {
      QueueBatch(queue, batch, shared.times[..], sound);
      assert shared.tx.Valid() && shared.free.Valid();
      assert shared.tx.Contents() == old(shared.tx.Contents());
      assert shared.free.Contents() == old(shared.free.Contents());
    }

    /** Removes the head of the queue, by the chosen form of extract_min. */
    method RemoveHead() returns (x: nat)
      requires queue.Valid() && queue.Contents() != [] && EntriesBelow(queue.Contents(), shared.n)
      requires sound ==> HeapOrder(queue.Contents())
      modifies queue`size, queue.elems
      ensures queue.Valid() && EntriesBelow(queue.Contents(), shared.n)
      ensures sound ==> HeapOrder(queue.Contents())
      ensures x == old(queue.Contents())[0].data && queue.Contents() == Extracted(sound, old(queue.Contents()))
    {
      ghost var q := queue.Contents();
      var code;
      if sound {
        code, x := queue.Extract();
        ExtractMinCorrect(q);
      } else {
        code, x := queue.ExtractAsWritten();
      }
      EntriesOf(q, queue.Contents(), shared.n);
    }

    /** Copies the payload of index `x` out of its buffer. */
    method ReadPayload(x: nat) returns (payload: seq<Byte>)
      requires shared.mem.Length == shared.n * MBUF && shared.sizes.Length == shared.n && x < shared.n &&
               shared.sizes[x] <= MBUF
      ensures payload == Slice(shared.mem[..], x, shared.sizes[x])
    {
      payload := [];
      for i := 0 to shared.sizes[x]
        invariant payload == shared.mem[x * MBUF..x * MBUF + i]
      {
        payload := payload + [shared.mem[x * MBUF + i]];
      }
    }

    /** Gives index `x` back to the free ring, ignoring whether it was taken. */
    method GiveBack(x: nat)
      requires Valid() && x < shared.n
      modifies shared.free`prodHead, shared.free`prodTail, shared.free.ring
      ensures Valid()
      ensures shared.free.Contents() == GivenBack(old(shared.free.Contents()), shared.n, x)
    {
      var _ := PutOne(shared.free, x);
    }

    /** The second half of a round: wait, drop or send, by the time to the earliest deadline. */
    method Dispatch(now: Time) returns (e: Event)
      requires Valid()
      modifies `counter, queue`size, queue.elems, shared.free`prodHead, shared.free`prodTail, shared.free.ring
      ensures Valid() && shared.tx.Contents() == old(shared.tx.Contents())
      ensures var q := old(queue.Contents());
              if q == [] || q[0].prio - now > 50000 then
                e == Nothing && queue.Contents() == q && shared.free.Contents() == old(shared.free.Contents()) &&
                    counter == old(counter)
              else
                var x := q[0].data;
                && queue.Contents() == Extracted(sound, q)
                && (if q[0].prio < now then
                      && e == Late(x, q[0].prio) && counter == old(counter)
                      && shared.free.Contents() == if recycle then GivenBack(old(shared.free.Contents()), shared.n, x)
                         else old(shared.free.Contents())
                    else
                      && q[0].prio - now <= 50000 && counter == old(counter) + 1
                      && x < shared.n && shared.sizes[x] <= MBUF && x * MBUF + shared.sizes[x] <= shared.mem.Length
                      && e == Out(x, q[0].prio, Slice(shared.mem[..], x, shared.sizes[x]))
                      && shared.free.Contents() == GivenBack(old(shared.free.Contents()), shared.n, x))
    {
      var empty := queue.IsEmpty();
      if empty {
        return Nothing;
      }
      var txtime := queue.GetMin();
      var diff := txtime - now;
      if diff > DELTA {
        return Nothing;
      }
      if diff < 0 {
        var x := DropHead();
        return Late(x, txtime);
      }
      var x, payload := SendHead();
      e := Out(x, txtime, payload);
      counter := counter + 1;
    }

    method DropHead() returns (x: nat)
      requires Valid() && queue.Contents() != []
      modifies queue`size, queue.elems, shared.free`prodHead, shared.free`prodTail, shared.free.ring
      ensures Valid() && shared.tx.Contents() == old(shared.tx.Contents())
      ensures x == old(queue.Contents())[0].data && queue.Contents() == Extracted(sound, old(queue.Contents()))
      ensures shared.free.Contents() == if recycle then GivenBack(old(shared.free.Contents()), shared.n, x)
              else old(shared.free.Contents())
    {
      x := RemoveHead();
      if recycle {
        GiveBack(x);
      }
    }

    method SendHead() returns (x: nat, payload: seq<Byte>)
      requires Valid() && queue.Contents() != []
      modifies queue`size, queue.elems, shared.free`prodHead, shared.free`prodTail, shared.free.ring
      ensures Valid() && shared.tx.Contents() == old(shared.tx.Contents())
      ensures x == old(queue.Contents())[0].data && queue.Contents() == Extracted(sound, old(queue.Contents()))
      ensures shared.free.Contents() == GivenBack(old(shared.free.Contents()), shared.n, x)
      ensures x < shared.n && shared.sizes[x] <= MBUF && x * MBUF + shared.sizes[x] <= shared.mem.Length
      ensures payload == Slice(shared.mem[..], x, shared.sizes[x])
    {
      x := RemoveHead();
      payload := ReadPayload(x);
      GiveBack(x);
    }

    /** One pass of the main loop. */
    method Round(now: Time) returns (e: Event, ghost q: seq<Node>)
      requires Valid()
      modifies `counter, queue`size, queue.elems, shared.free`prodHead, shared.free`prodTail, shared.free.ring
      modifies shared.tx`consHead, shared.tx`consTail
      ensures Valid()
      ensures var k := Clamp(8, |old(shared.tx.Contents())|, Variable);
              var batch := old(shared.tx.Contents())[..k];
              && shared.tx.Contents() == old(shared.tx.Contents())[k..]
              && Below(batch, shared.times.Length)
              && q == InsertAll(old(queue.Contents()), queue.cap, batch, shared.times[..])
              && Gains(old(queue.Contents()), queue.cap, batch, shared.times[..], q)
      ensures e.Nothing? <==> q == [] || q[0].prio - now > 50000
      ensures e.Late? <==> q != [] && q[0].prio < now
      ensures e.Out? ==> 0 <= q[0].prio - now <= 50000
      ensures e.Out? ==> e.x < shared.n && e.x * MBUF + shared.sizes[e.x] <= shared.mem.Length
                         && e.payload == Slice(shared.mem[..], e.x, shared.sizes[e.x])
      ensures counter == old(counter) + if e.Out? then 1 else 0
      ensures !e.Nothing? ==> e.x == q[0].data && e.txtime == q[0].prio && queue.Contents() == Extracted(sound, q)
      ensures e.Nothing? ==> queue.Contents() == q
      ensures e.Nothing? && sound ==> forall i :: 0 <= i < |q| ==> q[i].prio - now > 50000
      ensures shared.free.Contents() ==
              if e.Out? || (e.Late? && recycle) then GivenBack(old(shared.free.Contents()), shared.n, e.x)
              else old(shared.free.Contents())
    {
      ghost var batch := TakeBurst();
      q := queue.Contents();
      if sound {
        forall i | 0 <= i < |q| ensures q[0].prio <= q[i].prio { RootIsLeast(q, i); }
      }
      e := Dispatch(now);
      assert shared.times[..] == old(shared.times[..]);
    }
  }

  /** Queues a batch of indices by their txtime. */
  method QueueBatch(queue: Queue, batch: seq<nat>, times: seq<I64>, ghost sound: bool)
    requires queue.Valid() && Below(batch, |times|) && EntriesBelow(queue.Contents(), |times|)
    requires sound ==> HeapOrder(queue.Contents())
    modifies queue`size, queue.elems
    ensures queue.Valid() && EntriesBelow(queue.Contents(), |times|)
    ensures sound ==> HeapOrder(queue.Contents())
    ensures queue.Contents() == InsertAll(old(queue.Contents()), queue.cap, batch, times)
    ensures Gains(old(queue.Contents()), queue.cap, batch, times, queue.Contents())
  {
    for i := 0 to |batch|
      invariant queue.Valid()
      invariant queue.Contents() == InsertAll(old(queue.Contents()), queue.cap, batch[..i], times)
    {
      var _ := queue.Add(times[batch[i]], batch[i]);
      assert batch[..i + 1][..i] == batch[..i];
    }
    assert batch[..|batch|] == batch;
    InsertAllKeeps(old(queue.Contents()), queue.cap, batch, times);
    InsertAllGains(old(queue.Contents()), queue.cap, batch, times);
  }
}
