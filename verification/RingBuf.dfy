/** struct kt_ringbuf of src/kt_ringbuf.c as an object, for calls that run one at a time: u32
    counters, the clamp and retry loop of the head moves, and the copies in place. */
module RingBuf {
  import opened Bits
  import opened RingMachine
  import opened RingAlone
  import opened RingCopy
  import opened Ring32

  // ---------------------------------------------------------------- contents

  /** Positions that agree modulo the size stay in step. */
  lemma SlotsInStep(head: int, tail: int, k: nat, i: nat, size: nat)
    requires size > 0 && (tail + k) % size == head % size
    ensures SlotAt(head, i, size) == SlotAt(tail, k + i, size)
  {
    var q := (tail + k) / size - head / size;
    assert tail + k == head + q * size by {
      assert tail + k == ((tail + k) / size) * size + (tail + k) % size;
      assert head == (head / size) * size + head % size;
      assert q * size == ((tail + k) / size) * size - (head / size) * size;
    }
    ModShift(head + i, size, q);
  }

  /** Storing behind what is there appends. */
  lemma StoredIsAppended(ring: seq<Elem>, tail: int, k: nat, head: int, vals: seq<Elem>)
    requires |ring| > 0 && (tail + k) % |ring| == head % |ring| && k + |vals| <= |ring|
    ensures FetchAt(StoreAt(ring, head, vals), tail, k + |vals|) == FetchAt(ring, tail, k) + vals
  {
    var size, r := |ring|, StoreAt(ring, head, vals);
    StoreAtSlots(ring, head, vals);
    forall i | 0 <= i < |vals| ensures r[SlotAt(tail, k + i, size)] == vals[i] { SlotsInStep(head, tail, k, i, size); }
    forall j | 0 <= j < k ensures r[SlotAt(tail, j, size)] == ring[SlotAt(tail, j, size)] {
      forall i | 0 <= i < |vals| ensures SlotAt(head, i, size) != SlotAt(tail, j, size) {
        SlotsInStep(head, tail, k, i, size);
        if SlotAt(tail, k + i, size) == SlotAt(tail, j, size) { ModInjective(tail + k + i, tail + j, size); }
      }
    }
    AppendedAt(ring, r, tail, k, vals);
  }

  lemma AppendedAt(ring: seq<Elem>, r: seq<Elem>, tail: int, k: nat, vals: seq<Elem>)
    requires |ring| == |r| > 0
    requires forall j :: 0 <= j < k ==> r[SlotAt(tail, j, |r|)] == ring[SlotAt(tail, j, |r|)]
    requires forall i :: 0 <= i < |vals| ==> r[SlotAt(tail, k + i, |r|)] == vals[i]
    ensures FetchAt(r, tail, k + |vals|) == FetchAt(ring, tail, k) + vals
  {
    var l, m := FetchAt(r, tail, k + |vals|), FetchAt(ring, tail, k) + vals;
    forall j | 0 <= j < k + |vals| ensures l[j] == m[j] {
      if j >= k { assert r[SlotAt(tail, k + (j - k), |r|)] == vals[j - k]; }
    }
  }

  /** Moving the tail past `m` entries drops them from the front. */
  lemma ReleasedIsDropped(ring: seq<Elem>, tail: nat, k: nat, m: nat)
    requires IsPow2(|ring|) && |ring| < W32 && m <= k
    ensures |ring| > 0 && FetchAt(ring, Wrap(tail + m), k - m) == FetchAt(ring, tail, k)[m..]
  {
    WrapKeepsSlot(tail + m, |ring|);
    MaskedIndex(0, |ring|);
    forall j | 0 <= j < k - m ensures FetchAt(ring, Wrap(tail + m), k - m)[j] == FetchAt(ring, tail, k)[m..][j] {
      SlotsInStep(Wrap(tail + m), tail, m, j, |ring|);
    }
  }

  lemma FetchPrefix(ring: seq<Elem>, tail: int, k: nat, m: nat)
    requires |ring| > 0 && m <= k
    ensures FetchAt(ring, tail, m) == FetchAt(ring, tail, k)[..m]
  {
  }

  function AtMost(count: nat, capacity: nat): (r: nat)
    ensures r <= capacity && (count <= capacity ==> r == count)
  {
    if count > capacity then capacity else count
  }

  // ---------------------------------------------------------------- the object

  class Ring {
    const size: U32
    const mask: U32
    const capacity: U32
    const ring: array<Elem>
    var prodHead: U32
    var prodTail: U32
    var consHead: U32
    var consTail: U32

    ghost predicate Valid()
      reads this
    {
      && GoodSize(size) && size > 0 && ring.Length == size && mask == size - 1 && capacity == size - 1
      && prodHead == prodTail && consHead == consTail
      && Wrap(prodTail - consTail) <= capacity
    }

    ghost function Contents(): (s: seq<Elem>)
      reads this, ring
      requires Valid()
    {
      FetchAt(ring[..], consTail, Wrap(prodTail - consTail))
    }

    /** kt_ringbuf_create; that `count` is a power of two is up to the caller. */
    constructor (count: U32)
      requires GoodSize(count)
      ensures Valid() && fresh(ring) && size == count && capacity == count - 1
      ensures Contents() == []
    {
      MaskedIndex(0, count);
      size := count;
      mask := count - 1;
      capacity := count - 1;
      ring := new Elem[count](i => 0);
      prodHead, prodTail, consHead, consTail := 0, 0, 0, 0;
    }

    method Count() returns (n: nat)
      requires Valid()
      ensures n == |Contents()|
    {
      var count := And(Wrap(prodTail - consTail), mask);
      SmallMask(Wrap(prodTail - consTail), size);
      n := AtMost(count, capacity);
    }

    /** __kt_ringbuf_move_prod_head: a compare-and-swap that fails spuriously `failures` times. */
    method MoveProdHead(want: nat, b: Behavior, failures: nat) returns (n: nat, oldHead: U32, newHead: U32)
      requires Valid()
      modifies `prodHead
      ensures oldHead == old(prodHead)
      ensures n == Clamp(want, capacity - |old(Contents())|, b)
      ensures n > 0 ==> newHead == Wrap(oldHead + n)
      ensures prodHead == if n > 0 then newHead else oldHead
    {
      oldHead := prodHead;
      var left := failures;
      while true
        invariant oldHead == prodHead == old(prodHead)
        decreases left
      {
        n := want;
        var free := FreeEntries(capacity, oldHead, consTail);
        assert free == capacity - |Contents()|;
        if n > free {
          n := if b == Fixed then 0 else free;
        }
        if n == 0 {
          newHead := oldHead;
          return;
        }
        newHead := Wrap(oldHead + n);
        if left == 0 {
          prodHead := newHead;
          return;
        }
        left := left - 1;
        oldHead := prodHead;
      }
    }

    method MoveConsHead(want: nat, b: Behavior, failures: nat) returns (n: nat, oldHead: U32, newHead: U32)
      requires Valid()
      modifies `consHead
      ensures oldHead == old(consHead)
      ensures n == Clamp(want, |old(Contents())|, b)
      ensures n > 0 ==> newHead == Wrap(oldHead + n)
      ensures consHead == if n > 0 then newHead else oldHead
    {
      oldHead := consHead;
      var left := failures;
      while true
        invariant oldHead == consHead == old(consHead)
        decreases left
      {
        n := want;
        var entries := Entries(prodTail, oldHead);
        if n > entries {
          n := if b == Fixed then 0 else entries;
        }
        if n == 0 {
          newHead := oldHead;
          return;
        }
        newHead := Wrap(oldHead + n);
        if left == 0 {
          consHead := newHead;
          return;
        }
        left := left - 1;
        oldHead := consHead;
      }
    }

    /** kt_ringbuf_enqueue_burst: as many of the `n` values as there is room for, in order. */
    method EnqueueBurst(table: seq<Elem>, n: nat, failures: nat) returns (moved: nat)
      requires Valid() && n <= |table|
      modifies `prodHead, `prodTail, ring
      ensures Valid()
      ensures moved == Clamp(n, capacity - |old(Contents())|, Variable)
      ensures Contents() == old(Contents()) + table[..moved]
    {
      ghost var was, k, tail := ring[..], |Contents()|, consTail;
      var head, next;
      moved, head, next := MoveProdHead(n, Variable, failures);
      if moved == 0 {
        assert table[..0] == [];
        return;
      }
      EnqueueElems(ring, head, table, moved);
      // prod.tail == prod_head already: nobody else has a claim pending
      prodTail := next;
      HeadInStep(tail, head, k, size);
      StoredIsAppended(was, tail, k, head, table[..moved]);
      AdvanceProd(tail, head, k, moved);
    }

    /** kt_ringbuf_dequeue_burst: up to `n` of the oldest values, in order. */
    method DequeueBurst(table: array<Elem>, n: nat, failures: nat) returns (moved: nat)
      requires Valid() && n <= table.Length && table != ring
      modifies `consHead, `consTail, table
      ensures Valid()
      ensures moved == Clamp(n, |old(Contents())|, Variable)
      ensures table[..moved] == old(Contents())[..moved] && table[moved..] == old(table[moved..])
      ensures Contents() == old(Contents())[moved..]
    {
      ghost var k, tail := |Contents()|, consTail;
      var head, next;
      moved, head, next := MoveConsHead(n, Variable, failures);
      if moved == 0 {
        return;
      }
      DequeueElems(ring, head, table, moved);
      consTail := next;
      FetchPrefix(ring[..], tail, k, moved);
      ReleasedIsDropped(ring[..], tail, k, moved);
      AdvanceCons(tail, prodTail, k, moved);
    }
  }

  // ---------------------------------------------------------------- counter arithmetic

  lemma HeadInStep(tail: U32, head: U32, k: nat, size: nat)
    requires GoodSize(size) && size > 0 && k == Wrap(head - tail)
    ensures (tail + k) % size == head % size
  {
    assert Wrap(tail + k) == head by { WrapRoundTrip(tail, head, 0); WrapSmall(head); }
    WrapKeepsSlot(tail + k, size);
  }

  lemma AdvanceProd(tail: U32, head: U32, k: nat, n: nat)
    requires k == Wrap(head - tail) && k + n < W32
    ensures Wrap(Wrap(head + n) - tail) == k + n
  {
    calc {
      Wrap(Wrap(head + n) - tail);
    == { WrapOfWrap(head + n, 0 - tail); }
      Wrap(head - tail + n);
    == { WrapOfWrap(head - tail, n); }
      Wrap(k + n);
    == { WrapSmall(k + n); }
      k + n;
    }
  }

  lemma AdvanceCons(tail: U32, head: U32, k: nat, n: nat)
    requires k == Wrap(head - tail) && n <= k
    ensures Wrap(head - Wrap(tail + n)) == k - n
  {
    calc {
      Wrap(head - Wrap(tail + n));
    == { WrapOfWrap(tail + n, head); }
      Wrap(head - tail - n);
    == { WrapOfWrap(head - tail, 0 - n); }
      Wrap(k - n);
    == { WrapSmall(k - n); }
      k - n;
    }
  }

  /** At rest, the object's contents are the step machine's window. */
  lemma ContentsAreWindow(a: State)
    requires Inv(a) && GoodSize(a.size) && forall t | t in a.threads :: a.threads[t] == Idle
    ensures FetchAt(a.ring, Wrap(a.consTail), Wrap(Wrap(a.prodTail) - Wrap(a.consTail))) == a.Window()
    ensures a.consHead == a.consTail && a.prodHead == a.prodTail
  {
    DifferenceExact(a.prodTail, a.consTail);
    WrapKeepsSlot(a.consTail, a.size);
    NoClaims(a);
    forall j | 0 <= j < a.prodTail - a.consTail
      ensures a.ring[SlotAt(Wrap(a.consTail), j, a.size)] == a.given[a.consTail + j]
    {
      SlotsInStep(Wrap(a.consTail), a.consTail, 0, j, a.size);
      assert Stored(a, a.consTail + j);
    }
  }
}
