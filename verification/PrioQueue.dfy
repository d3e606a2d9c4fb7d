/** struct kt_prio_queue of src/kt_queue.c: the heap kept in place in an array. Each method is
    proved against the sequence function of Heap it performs. */
module PrioQueue {
  import opened Heap
  import opened HeapTheorems

  class Queue {
    const cap: nat
    const elems: array<Node>
    var size: nat

    ghost predicate Valid()
      reads this
    {
      elems.Length == cap && size <= cap
    }

    ghost function Contents(): (s: seq<Node>)
      reads this, elems
      requires Valid()
    {
      elems[..size]
    }

    constructor (cap: nat)
      ensures Valid() && fresh(elems)
      ensures this.cap == cap && Contents() == []
    {
      this.cap := cap;
      elems := new Node[cap](i => Node(0, 0));
      size := 0;
    }

    method IsEmpty() returns (b: bool)
      requires Valid()
      ensures b <==> Contents() == []
    {
      b := size == 0;
    }

    method GetMin() returns (p: I64)
      requires Valid() && Contents() != []
      ensures p == Contents()[0].prio
      ensures HeapOrder(Contents()) ==> forall x | x in Contents() :: p <= x.prio
    {
      p := elems[0].prio;
      forall x | x in Contents() && HeapOrder(Contents()) ensures p <= x.prio {
        var k: nat :| k < size && Contents()[k] == x;
        RootIsLeast(Contents(), k);
      }
    }

    method SwapElems(i: nat, j: nat)
      requires Valid() && i < size && j < size
      modifies elems
      ensures Contents() == Swap(old(Contents()), i, j)
      ensures elems[size..] == old(elems[size..])
    {
      var tmp := elems[i];
      elems[i] := elems[j];
      elems[j] := tmp;
    }

    /** The sift-up loop, `_kt_prio_queue_reorder`. */
    method Reorder(start: nat)
      requires Valid() && start < size
      modifies elems
      ensures Contents() == SiftUp(old(Contents()), start)
      ensures elems[size..] == old(elems[size..])
    {
      var i := start;
      while i > 0 && elems[i].prio < elems[Parent(i)].prio
        invariant 0 <= i <= start
        invariant SiftUp(Contents(), i) == SiftUp(old(Contents()), start)
        invariant elems[size..] == old(elems[size..])
      {
        SwapElems(i, Parent(i));
        i := Parent(i);
      }
    }

    method Decrease(i: nat, v: I64)
      requires Valid() && i < size
      modifies elems
      ensures Contents() == DecreaseKey(old(Contents()), i, v)
      ensures HeapOrder(old(Contents())) ==> HeapOrder(Contents())
      ensures elems[size..] == old(elems[size..])
    {
      DecreaseKeyCorrect(Contents(), i, v);
      if v > elems[i].prio {
        return;
      }
      elems[i] := elems[i].(prio := v);
      assert Contents() == old(Contents())[i := old(Contents())[i].(prio := v)];
      Reorder(i);
    }

    /** 0 when the element went in, -1 when the queue was full. */
    method Add(prio: I64, data: nat) returns (code: int)
      requires Valid()
      modifies `size, elems
      ensures Valid()
      ensures code == (if old(size) == cap then -1 else 0)
      ensures Contents() == if code == 0 then Insert(old(Contents()), prio, data) else old(Contents())
      ensures code == 0 ==> multiset(Contents()) == multiset(old(Contents())) + multiset{Node(prio, data)}
      ensures HeapOrder(old(Contents())) ==> HeapOrder(Contents())
    {
      if size == cap {
        return -1;
      }
      InsertCorrect(Contents(), prio, data);
      elems[size] := Node(INT64_MAX, data);
      size := size + 1;
      assert Contents() == old(Contents()) + [Node(INT64_MAX, data)];
      Decrease(size - 1, prio);
      code := 0;
    }

    /** The recursive sift-down, as intended. */
    method Heapify(i: nat)
      requires Valid() && i < size
      modifies elems
      ensures Contents() == SiftDown(old(Contents()), i)
      ensures elems[size..] == old(elems[size..])
      decreases size - i
    {
      var m := i;
      if Left(i) < size && elems[Left(i)].prio < elems[m].prio {
        m := Left(i);
      }
      if Right(i) < size && elems[Right(i)].prio < elems[m].prio {
        m := Right(i);
      }
      assert m == Lowest(Contents(), i);
      if m != i {
        SwapElems(i, m);
        Heapify(m);
      }
    }

    /** The recursive sift-down with both `else` branches of the code. */
    method HeapifyAsWritten(i: nat)
      requires Valid() && i < size
      modifies elems
      ensures Contents() == SiftDownAsWritten(old(Contents()), i)
      ensures elems[size..] == old(elems[size..])
      decreases size - i
    {
      var m := i;
      if Left(i) < size && elems[Left(i)].prio < elems[m].prio {
        m := Left(i);
      } else {
        m := i;
      }
      if Right(i) < size && elems[Right(i)].prio < elems[m].prio {
        m := Right(i);
      } else {
        m := i;
      }
      assert m == LowestAsWritten(Contents(), i);
      if m != i {
        SwapElems(i, m);
        HeapifyAsWritten(m);
      }
    }

    /** Replaces the root by the last element and drops the last place. */
    method DropRoot()
      requires Valid() && size > 0
      modifies `size, elems
      ensures Valid() && size == old(size) - 1
      ensures Contents() == if old(size) == 1 then [] else LastToRoot(old(Contents()))
    {
      elems[0] := elems[size - 1];
      size := size - 1;
    }

    /** 0 and the data of the least element, or -1 when the queue is empty. */
    method Extract() returns (code: int, data: nat)
      requires Valid()
      modifies `size, elems
      ensures Valid()
      ensures code == (if old(Contents()) == [] then -1 else 0)
      ensures code == -1 ==> Contents() == old(Contents())
      ensures code == 0 ==> data == old(Contents())[0].data && Contents() == ExtractMin(old(Contents()))
      ensures code == 0 && HeapOrder(old(Contents())) ==>
                && HeapOrder(Contents())
                && multiset(Contents()) == multiset(old(Contents())) - multiset{old(Contents())[0]}
                && (forall x | x in old(Contents()) :: old(Contents())[0].prio <= x.prio)
    {
      if size <= 0 {
        return -1, 0;
      }
      ghost var was := Contents();
      data := elems[0].data;
      DropRoot();
      if size > 0 {
        Heapify(0);
      }
      code := 0;
      if HeapOrder(was) { ExtractMinCorrect(was); }
    }

    method ExtractAsWritten() returns (code: int, data: nat)
      requires Valid()
      modifies `size, elems
      ensures Valid()
      ensures code == (if old(Contents()) == [] then -1 else 0)
      ensures code == -1 ==> Contents() == old(Contents())
      ensures code == 0 ==> data == old(Contents())[0].data && Contents() == ExtractMinAsWritten(old(Contents()))
      ensures code == 0 ==> multiset(Contents()) == multiset(old(Contents())) - multiset{old(Contents())[0]}
    {
      if size <= 0 {
        return -1, 0;
      }
      ghost var was := Contents();
      data := elems[0].data;
      DropRoot();
      if size > 0 {
        HeapifyAsWritten(0);
      }
      code := 0;
      ExtractMinAsWrittenContents(was);
    }

    /** kt_prio_queue_delete_key over the intended extraction. */
    method Delete(i: nat)
      requires Valid() && i < size
      modifies `size, elems
      ensures Valid()
      ensures Contents() == DeleteKey(old(Contents()), i)
      ensures HeapOrder(old(Contents())) ==>
                && HeapOrder(Contents())
                && (multiset(Contents()) == multiset(old(Contents())) - multiset{old(Contents())[i]} <==>
                   Deletable(old(Contents()), i))
    {
      ghost var was := Contents();
      Decrease(i, INT32_MIN);
      var _, _ := Extract();
      if HeapOrder(was) { DeleteKeyCorrectIff(was, i); }
    }

    /** ... and over the extraction as written. */
    method DeleteAsWritten(i: nat)
      requires Valid() && i < size
      modifies `size, elems
      ensures Valid()
      ensures Contents() == DeleteKeyAsWritten(old(Contents()), i)
      ensures HeapOrder(old(Contents())) ==>
                (multiset(Contents()) == multiset(old(Contents())) - multiset{old(Contents())[i]} <==>
                    Deletable(old(Contents()), i))
    {
      ghost var was := Contents();
      Decrease(i, INT32_MIN);
      var _, _ := ExtractAsWritten();
      if HeapOrder(was) { DeleteKeyAsWrittenIff(was, i); }
    }
  }
}
