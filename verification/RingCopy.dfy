/** The two copy routines of src/kt_ringbuf.c: the straight path, unrolled four ways with a
    fall-through tail, and the wrapping path. The wrapping path is given in its evident intent
    (stop at the end of the ring, go on from slot 0) and, separately, as the code has it. */
module RingCopy {
  import opened Bits
  import opened RingMachine

  /** The slot of the j-th position from `head`. */
  function SlotAt(head: int, j: int, size: nat): (r: nat)
    requires size > 0
    ensures r < size
  {
    (head + j) % size
  }

  /** `ring` after `vals` went to the slots of positions head, head + 1, ... */
  function StoreAt(ring: seq<Elem>, head: int, vals: seq<Elem>): (r: seq<Elem>)
    requires |ring| > 0
  {
    seq(|ring|, k requires 0 <= k < |ring| =>
      var d := (k - head) % |ring|;
      if d < |vals| then vals[d] else ring[k])
  }

  /** The `n` values in the slots of positions head, head + 1, ... */
  function FetchAt(ring: seq<Elem>, head: int, n: nat): (r: seq<Elem>)
    requires |ring| > 0
  {
    seq(n, j requires 0 <= j < n => ring[SlotAt(head, j, |ring|)])
  }

  /** A block copy that never wraps, into memory that may extend past the ring. */
  function Overwrite(mem: seq<Elem>, at: nat, vals: seq<Elem>): (r: seq<Elem>)
    requires at + |vals| <= |mem|
  {
    mem[..at] + vals + mem[at + |vals|..]
  }

  // ---------------------------------------------------------------- index arithmetic

  lemma RemainderFlips(head: int, d: nat, k: nat, size: nat)
    requires d < size && (head + d) % size == k
    ensures (k - head) % size == d
  {
    var q := (head + d) / size;
    assert head + d == q * size + k;
    assert (0 - q) * size == 0 - q * size;
    ModUnique(k - head, size, 0 - q, d);
  }

  /** Slot k is the one of the d-th position from `head`. */
  lemma OffsetOf(head: int, d: int, k: int, size: nat)
    requires size > 0 && 0 <= d < size && 0 <= k < size
    ensures SlotAt(head, d, size) == k <==> (k - head) % size == d
  {
    if (head + d) % size == k { RemainderFlips(head, d, k, size); }
    if (k - head) % size == d { RemainderFlips(0 - head, k, d, size); }
  }

  /** The slot of the j-th position from `head`, counted from the slot of `head`. */
  lemma SlotFrom(head: int, j: nat, size: nat)
    requires size > 0 && j < size
    ensures var i := head % size;
            (head + j) % size == if i + j < size then i + j else i + j - size
  {
    var i, q := head % size, head / size;
    assert head == q * size + i;
    if i + j < size {
      ModUnique(head + j, size, q, i + j);
    } else {
      assert (q + 1) * size == q * size + size;
      ModUnique(head + j, size, q + 1, i + j - size);
    }
  }

  // ---------------------------------------------------------------- what the copies mean

  /** Storing reaches exactly the slots of the given positions and leaves the others alone. */
  lemma StoreAtSlots(ring: seq<Elem>, head: int, vals: seq<Elem>)
    requires |ring| > 0 && |vals| <= |ring|
    ensures forall j :: 0 <= j < |vals| ==> StoreAt(ring, head, vals)[SlotAt(head, j, |ring|)] == vals[j]
    ensures forall k :: 0 <= k < |ring| && (forall j :: 0 <= j < |vals| ==> SlotAt(head, j, |ring|) != k)
                        ==> StoreAt(ring, head, vals)[k] == ring[k]
  {
    forall j | 0 <= j < |vals| ensures StoreAt(ring, head, vals)[SlotAt(head, j, |ring|)] == vals[j] {
      OffsetOf(head, j, SlotAt(head, j, |ring|), |ring|);
    }
    forall k | 0 <= k < |ring| && (forall j :: 0 <= j < |vals| ==> SlotAt(head, j, |ring|) != k)
      ensures StoreAt(ring, head, vals)[k] == ring[k]
    {
      var d := (k - head) % |ring|;
      OffsetOf(head, d, k, |ring|);
      assert SlotAt(head, d, |ring|) == k;
    }
  }

  /** Fetching undoes storing. */
  lemma FetchAfterStore(ring: seq<Elem>, head: int, vals: seq<Elem>)
    requires |ring| > 0 && |vals| <= |ring|
    ensures FetchAt(StoreAt(ring, head, vals), head, |vals|) == vals
  {
    StoreAtSlots(ring, head, vals);
  }

  /** Storing one more value is one slot write of the step machine. */
  lemma StoreOneMore(ring: seq<Elem>, head: int, vals: seq<Elem>, j: nat)
    requires j < |vals| <= |ring|
    ensures StoreAt(ring, head, vals[..j + 1]) == StoreAt(ring, head, vals[..j])[SlotAt(head, j, |ring|) := vals[j]]
  {
    var l, r := StoreAt(ring, head, vals[..j + 1]), StoreAt(ring, head, vals[..j])[SlotAt(head, j, |ring|) := vals[j]];
    forall k | 0 <= k < |ring| ensures l[k] == r[k] {
      OffsetOf(head, j, k, |ring|);
    }
  }

  // ---------------------------------------------------------------- the intended routines

  /** How far slot `k` lies after the slot of `head`, going round the ring. */
  function Ahead(head: int, k: nat, size: nat): int
    requires size > 0
  {
    var i := head % size;
    if i <= k then k - i else k - i + size
  }

  lemma AheadIsOffset(head: int, k: nat, size: nat)
    requires size > 0 && k < size
    ensures Ahead(head, k, size) == (k - head) % size
  {
    var d := Ahead(head, k, size);
    SlotFrom(head, d, size);
    OffsetOf(head, d, k, size);
  }

  /** A ring whose slots were filled going round from the slot of `head` is StoreAt. */
  lemma FilledIsStored(was: seq<Elem>, now: seq<Elem>, head: int, vals: seq<Elem>)
    requires |now| == |was| > 0
    requires forall k :: 0 <= k < |was| ==>
               now[k] == if Ahead(head, k, |was|) < |vals| then vals[Ahead(head, k, |was|)] else was[k]
    ensures now == StoreAt(was, head, vals)
  {
    forall k | 0 <= k < |was| ensures now[k] == StoreAt(was, head, vals)[k] {
      AheadIsOffset(head, k, |was|);
    }
  }

  /** The straight path: whole groups of four, then switch (n & 3) falling through. */
  method CopyIn(ring: array<Elem>, first: nat, src: seq<Elem>, n: nat)
    requires n <= |src| && first + n <= ring.Length
    modifies ring
    ensures forall k :: 0 <= k < ring.Length ==> ring[k] == if first <= k < first + n then src[k - first]
            else old(ring[k])
  {
    var i, idx := 0, first;
    while i < n - n % 4
      invariant 0 <= i <= n - n % 4 && i % 4 == 0 && idx == first + i
      invariant forall k :: 0 <= k < ring.Length ==> ring[k] == if first <= k < idx then src[k - first]
                else old(ring[k])
    {
      ring[idx] := src[i];
      ring[idx + 1] := src[i + 1];
      ring[idx + 2] := src[i + 2];
      ring[idx + 3] := src[i + 3];
      i, idx := i + 4, idx + 4;
    }
    if n % 4 == 3 {
      ring[idx] := src[i];
      i, idx := i + 1, idx + 1;
    }
    if n % 4 >= 2 {
      ring[idx] := src[i];
      i, idx := i + 1, idx + 1;
    }
    if n % 4 >= 1 {
      ring[idx] := src[i];
      i, idx := i + 1, idx + 1;
    }
  }

  /** The wrapping path: up to the end of the ring, then on from slot 0. */
  method CopyInWrapping(ring: array<Elem>, first: nat, src: seq<Elem>, n: nat)
    requires n <= |src| && first < ring.Length < first + n <= first + ring.Length
    modifies ring
    ensures forall k :: 0 <= k < ring.Length ==>
              ring[k] == if first <= k then src[k - first]
                         else if k < first + n - ring.Length then src[k + (ring.Length - first)]
                         else old(ring[k])
  {
    var i, idx := 0, first;
    while idx < ring.Length
      invariant idx == first + i <= ring.Length
      invariant forall k :: 0 <= k < ring.Length ==> ring[k] == if first <= k < idx then src[k - first]
                else old(ring[k])
    {
      ring[idx] := src[i];
      i, idx := i + 1, idx + 1;
    }
    idx := 0;
    while i < n
      invariant i == idx + (ring.Length - first) <= n
      invariant forall k :: 0 <= k < ring.Length ==>
        ring[k] == if first <= k then src[k - first] else if k < idx then src[k + (ring.Length - first)]
            else old(ring[k])
    {
      ring[idx] := src[i];
      i, idx := i + 1, idx + 1;
    }
  }

  method EnqueueElems(ring: array<Elem>, head: U32, src: seq<Elem>, n: nat)
    requires GoodSize(ring.Length)
    requires n <= |src| && n <= ring.Length
    modifies ring
    ensures ring.Length > 0
    ensures ring[..] == StoreAt(old(ring[..]), head, src[..n])
  {
    var idx := And(head, ring.Length - 1);
    MaskedIndex(head, ring.Length);
    if idx + n <= ring.Length {
      CopyIn(ring, idx, src, n);
    } else {
      CopyInWrapping(ring, idx, src, n);
    }
    FilledIsStored(old(ring[..]), ring[..], head, src[..n]);
  }

  method CopyOut(ring: array<Elem>, first: nat, dst: array<Elem>, n: nat)
    requires n <= dst.Length && first + n <= ring.Length && ring != dst
    modifies dst
    ensures forall j :: 0 <= j < dst.Length ==> dst[j] == if j < n then ring[first + j] else old(dst[j])
  {
    var i, idx := 0, first;
    while i < n - n % 4
      invariant 0 <= i <= n - n % 4 && i % 4 == 0 && idx == first + i
      invariant forall j :: 0 <= j < dst.Length ==> dst[j] == if j < i then ring[first + j] else old(dst[j])
    {
      dst[i] := ring[idx];
      dst[i + 1] := ring[idx + 1];
      dst[i + 2] := ring[idx + 2];
      dst[i + 3] := ring[idx + 3];
      i, idx := i + 4, idx + 4;
    }
    if n % 4 == 3 {
      dst[i] := ring[idx];
      i, idx := i + 1, idx + 1;
    }
    if n % 4 >= 2 {
      dst[i] := ring[idx];
      i, idx := i + 1, idx + 1;
    }
    if n % 4 >= 1 {
      dst[i] := ring[idx];
      i, idx := i + 1, idx + 1;
    }
  }

  method CopyOutWrapping(ring: array<Elem>, first: nat, dst: array<Elem>, n: nat)
    requires n <= dst.Length && first < ring.Length < first + n <= first + ring.Length && ring != dst
    modifies dst
    ensures forall j :: 0 <= j < dst.Length ==>
              dst[j] == if j >= n then old(dst[j])
                        else ring[if first + j < ring.Length then first + j else first + j - ring.Length]
  {
    var i, idx := 0, first;
    while idx < ring.Length
      invariant idx == first + i <= ring.Length
      invariant forall j :: 0 <= j < dst.Length ==> dst[j] == if j < i then ring[first + j] else old(dst[j])
    {
      dst[i] := ring[idx];
      i, idx := i + 1, idx + 1;
    }
    idx := 0;
    while i < n
      invariant i == idx + (ring.Length - first) <= n
      invariant forall j :: 0 <= j < dst.Length ==>
        dst[j] == if j >= i then old(dst[j])
                  else ring[if first + j < ring.Length then first + j else first + j - ring.Length]
    {
      dst[i] := ring[idx];
      i, idx := i + 1, idx + 1;
    }
  }

  method DequeueElems(ring: array<Elem>, head: U32, dst: array<Elem>, n: nat)
    requires GoodSize(ring.Length) && ring != dst
    requires n <= dst.Length && n <= ring.Length
    modifies dst
    ensures ring.Length > 0
    ensures dst[..n] == FetchAt(ring[..], head, n)
    ensures dst[n..] == old(dst[n..])
  {
    var idx := And(head, ring.Length - 1);
    MaskedIndex(head, ring.Length);
    if idx + n <= ring.Length {
      CopyOut(ring, idx, dst, n);
    } else {
      CopyOutWrapping(ring, idx, dst, n);
    }
    forall j | 0 <= j < n ensures dst[j] == ring[SlotAt(head, j, ring.Length)] { SlotFrom(head, j, ring.Length); }
  }

  // ---------------------------------------------------------------- the routines as written

  lemma OverwriteIs(was: seq<Elem>, now: seq<Elem>, at: nat, vals: seq<Elem>)
    requires |now| == |was| && at + |vals| <= |was|
    requires forall k :: 0 <= k < |was| ==> now[k] == if at <= k < at + |vals| then vals[k - at] else was[k]
    ensures now == Overwrite(was, at, vals)
  {
  }

  /** As written, the first loop of the wrapping branch runs to `n` and not to the end of the ring,
      which leaves nothing for the second loop, from slot 0, to do: both branches come to one
      straight block copy. `mem` is the ring and the memory behind it. */
  method EnqueueElemsAsWritten(mem: array<Elem>, size: nat, head: U32, src: seq<Elem>, n: nat)
    requires GoodSize(size) && n <= |src| && n <= size
    requires head % size + n <= mem.Length
    modifies mem
    ensures mem[..] == Overwrite(old(mem[..]), head % size, src[..n])
  {
    var idx := And(head, size - 1);
    MaskedIndex(head, size);
    if idx + n <= size {
      CopyIn(mem, idx, src, n);
    } else {
      ghost var first, was := idx, mem[..];
      var i := 0;
      while i < n
        invariant i <= n && idx == first + i
        invariant forall k :: 0 <= k < mem.Length ==> mem[k] == if first <= k < idx then src[k - first] else was[k]
      {
        mem[idx] := src[i];
        i, idx := i + 1, idx + 1;
      }
    }
    OverwriteIs(old(mem[..]), mem[..], head % size, src[..n]);
  }

  method DequeueElemsAsWritten(mem: array<Elem>, size: nat, head: U32, dst: array<Elem>, n: nat)
    requires GoodSize(size) && n <= dst.Length && n <= size && mem != dst
    requires head % size + n <= mem.Length
    modifies dst
    ensures dst[..n] == mem[head % size..head % size + n]
    ensures dst[n..] == old(dst[n..])
  {
    var idx := And(head, size - 1);
    MaskedIndex(head, size);
    if idx + n <= size {
      CopyOut(mem, idx, dst, n);
    } else {
      ghost var first := idx;
      var i := 0;
      while i < n
        invariant i <= n && idx == first + i
        invariant forall j :: 0 <= j < dst.Length ==> dst[j] == if j < i then mem[first + j] else old(dst[j])
      {
        dst[i] := mem[idx];
        i, idx := i + 1, idx + 1;
      }
    }
  }

  /** The code's copy in agrees with the intended one, on the ring and on the memory behind it,
      for all contents exactly when the block does not pass the end of the ring. */
  lemma AsWrittenStoreIff(length: nat, size: nat, head: nat, n: nat)
    requires 0 < size <= length && n <= size && head % size + n <= length
    ensures (forall mem: seq<Elem>, vals: seq<Elem> | |mem| == length && |vals| == n ::
               Overwrite(mem, head % size, vals) == StoreAt(mem[..size], head, vals) + mem[size..])
            <==> head % size + n <= size
  {
    var i := head % size;
    if i + n <= size {
      forall mem: seq<Elem>, vals: seq<Elem> | |mem| == length && |vals| == n
        ensures Overwrite(mem, i, vals) == StoreAt(mem[..size], head, vals) + mem[size..]
      {
        FilledIsStored(mem[..size], Overwrite(mem, i, vals)[..size], head, vals);
      }
    } else {
      var mem, vals := seq(length, k => 0), seq(n, k => 1);
      assert Overwrite(mem, i, vals)[size] == 1;
      assert (StoreAt(mem[..size], head, vals) + mem[size..])[size] == 0;
    }
  }

  lemma AsWrittenFetchIff(length: nat, size: nat, head: nat, n: nat)
    requires 0 < size <= length && n <= size && head % size + n <= length
    ensures (forall mem: seq<Elem> | |mem| == length ::
               mem[head % size..head % size + n] == FetchAt(mem[..size], head, n))
            <==> head % size + n <= size
  {
    var i := head % size;
    if i + n <= size {
      forall mem: seq<Elem> | |mem| == length ensures mem[i..i + n] == FetchAt(mem[..size], head, n) {
        forall j | 0 <= j < n ensures mem[i..i + n][j] == FetchAt(mem[..size], head, n)[j] { SlotFrom(head, j, size); }
      }
    } else {
      var mem := seq(length, k => if k < size then 0 else 1);
      assert mem[i..i + n][size - i] == 1;
      assert FetchAt(mem[..size], head, n)[size - i] == 0;
    }
  }

  /** One-element calls never leave the ring, so they are right as written. */
  lemma SingleElementAsWritten(mem: seq<Elem>, size: nat, head: nat, x: Elem)
    requires 0 < size <= |mem|
    ensures head % size + 1 <= |mem|
    ensures Overwrite(mem, head % size, [x]) == StoreAt(mem[..size], head, [x]) + mem[size..]
    ensures mem[head % size..head % size + 1] == FetchAt(mem[..size], head, 1)
  {
    assert head % size < size;
    AsWrittenStoreIff(|mem|, size, head, 1);
    AsWrittenFetchIff(|mem|, size, head, 1);
  }
}
