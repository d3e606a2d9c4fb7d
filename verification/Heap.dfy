/** The binary min-heap of src/kt_queue.c on its element sequence. Sift-down comes in two forms:
    SiftDown is the evident intent, SiftDownAsWritten keeps the second `else` of the code, which
    forgets a smaller left child. */
module Heap {

  const INT64_MAX: int := 0x7fff_ffff_ffff_ffff
  const INT64_MIN: int := -0x8000_0000_0000_0000
  const INT32_MIN: int := -0x8000_0000

  type I64 = x: int | INT64_MIN <= x <= INT64_MAX

  datatype Node = Node(prio: I64, data: nat)

  /** (i - 1) / 2 with C's division, which gives 0 for i = 0. */
  function Parent(i: nat): (p: nat)
    ensures i > 0 ==> p < i
  {
    if i == 0 then 0 else (i - 1) / 2
  }

  function Left(i: nat): nat { 2 * i + 1 }

  function Right(i: nat): nat { 2 * i + 2 }

  function Swap(s: seq<Node>, i: nat, j: nat): (r: seq<Node>)
    requires i < |s| && j < |s|
    ensures |r| == |s|
  {
    s[i := s[j]][j := s[i]]
  }

  function SiftUp(s: seq<Node>, i: nat): (r: seq<Node>)
    requires i < |s|
    ensures |r| == |s|
    decreases i
  {
    if i > 0 && s[i].prio < s[Parent(i)].prio then SiftUp(Swap(s, i, Parent(i)), Parent(i)) else s
  }

  function DecreaseKey(s: seq<Node>, i: nat, v: I64): (r: seq<Node>)
    requires i < |s|
    ensures |r| == |s|
  {
    if v > s[i].prio then s else SiftUp(s[i := s[i].(prio := v)], i)
  }

  function Insert(s: seq<Node>, prio: I64, data: nat): (r: seq<Node>)
    ensures |r| == |s| + 1
  {
    DecreaseKey(s + [Node(INT64_MAX, data)], |s|, prio)
  }

  /** The child sift-down should move to, or `i` itself. */
  function Lowest(s: seq<Node>, i: nat): (m: nat)
    requires i < |s|
    ensures m == i || (m == Left(i) < |s|) || (m == Right(i) < |s|)
  {
    var m := if Left(i) < |s| && s[Left(i)].prio < s[i].prio then Left(i) else i;
    if Right(i) < |s| && s[Right(i)].prio < s[m].prio then Right(i) else m
  }

  /** The child it does move to as written. */
  function LowestAsWritten(s: seq<Node>, i: nat): (m: nat)
    requires i < |s|
    ensures m == i || (m == Right(i) < |s|)
  {
    var m := if Left(i) < |s| && s[Left(i)].prio < s[i].prio then Left(i) else i;
    if Right(i) < |s| && s[Right(i)].prio < s[m].prio then Right(i) else i
  }

  function SiftDown(s: seq<Node>, i: nat): (r: seq<Node>)
    requires i < |s|
    ensures |r| == |s|
    decreases |s| - i
  {
    var m := Lowest(s, i);
    if m == i then s else SiftDown(Swap(s, i, m), m)
  }

  function SiftDownAsWritten(s: seq<Node>, i: nat): (r: seq<Node>)
    requires i < |s|
    ensures |r| == |s|
    decreases |s| - i
  {
    var m := LowestAsWritten(s, i);
    if m == i then s else SiftDownAsWritten(Swap(s, i, m), m)
  }

  /** The last element put in place of the root. */
  function LastToRoot(s: seq<Node>): (r: seq<Node>)
    requires |s| > 1
    ensures |r| == |s| - 1
  {
    s[..|s| - 1][0 := s[|s| - 1]]
  }

  function ExtractMin(s: seq<Node>): (r: seq<Node>)
    requires s != []
    ensures |r| == |s| - 1
  {
    if |s| == 1 then [] else SiftDown(LastToRoot(s), 0)
  }

  function ExtractMinAsWritten(s: seq<Node>): (r: seq<Node>)
    requires s != []
    ensures |r| == |s| - 1
  {
    if |s| == 1 then [] else SiftDownAsWritten(LastToRoot(s), 0)
  }

  function DeleteKey(s: seq<Node>, i: nat): (r: seq<Node>)
    requires i < |s|
    ensures |r| == |s| - 1
  {
    ExtractMin(DecreaseKey(s, i, INT32_MIN))
  }

  function DeleteKeyAsWritten(s: seq<Node>, i: nat): (r: seq<Node>)
    requires i < |s|
    ensures |r| == |s| - 1
  {
    ExtractMinAsWritten(DecreaseKey(s, i, INT32_MIN))
  }

  // ---------------------------------------------------------------- order

  predicate HeapOrder(s: seq<Node>) {
    forall k :: 0 < k < |s| ==> s[Parent(k)].prio <= s[k].prio
  }

  /** Ordered, except that `i` may be too small for its parent. */
  predicate OrderedBelow(s: seq<Node>, i: nat) {
    && (forall k :: 0 < k < |s| && k != i ==> s[Parent(k)].prio <= s[k].prio)
    && (forall k :: 0 < k < |s| && 0 < i < |s| && Parent(k) == i ==> s[Parent(i)].prio <= s[k].prio)
  }

  /** Ordered, except that `i` may be too large for its children. */
  predicate OrderedAbove(s: seq<Node>, i: nat) {
    && (forall k :: 0 < k < |s| && Parent(k) != i ==> s[Parent(k)].prio <= s[k].prio)
    && (forall k :: 0 < k < |s| && 0 < i < |s| && Parent(k) == i ==> s[Parent(i)].prio <= s[k].prio)
  }

  lemma {:induction false} RootIsLeast(s: seq<Node>, k: nat)
    requires HeapOrder(s) && k < |s|
    ensures s[0].prio <= s[k].prio
    decreases k
  {
    if k > 0 { RootIsLeast(s, Parent(k)); }
  }

  lemma {:induction false} SiftUpOrders(s: seq<Node>, i: nat)
    requires i < |s| && OrderedBelow(s, i)
    ensures HeapOrder(SiftUp(s, i))
    decreases i
  {
    if i > 0 && s[i].prio < s[Parent(i)].prio {
      var t := Swap(s, i, Parent(i));
      assert OrderedBelow(t, Parent(i));
      SiftUpOrders(t, Parent(i));
    }
  }

  lemma SinkStep(s: seq<Node>, i: nat, m: nat)
    requires i < |s| && OrderedAbove(s, i)
    requires m < |s| && m > 0 && Parent(m) == i && s[m].prio < s[i].prio
    requires forall k :: 0 < k < |s| && Parent(k) == i ==> s[m].prio <= s[k].prio
    ensures OrderedAbove(Swap(s, i, m), m)
  {
  }

  lemma Children(k: nat, i: nat)
    requires k > 0
    ensures Parent(k) == i <==> k == Left(i) || k == Right(i)
  {
  }

  lemma LowestIsLeast(s: seq<Node>, i: nat, k: nat)
    requires i < |s| && 0 < k < |s| && Parent(k) == i
    ensures s[Lowest(s, i)].prio <= s[k].prio
    ensures Lowest(s, i) != i ==> Lowest(s, i) > i && s[Lowest(s, i)].prio < s[i].prio
  {
    Children(k, i);
  }

  lemma {:induction false} SiftDownOrders(s: seq<Node>, i: nat)
    requires i < |s| && OrderedAbove(s, i)
    ensures HeapOrder(SiftDown(s, i))
    decreases |s| - i
  {
    var m := Lowest(s, i);
    forall k | 0 < k < |s| && Parent(k) == i ensures s[m].prio <= s[k].prio { LowestIsLeast(s, i, k); }
    if m != i {
      Children(m, i);
      SinkStep(s, i, m);
      SiftDownOrders(Swap(s, i, m), m);
    }
  }

  // ---------------------------------------------------------------- contents

  lemma UpdateMultiset(s: seq<Node>, i: nat, x: Node)
    requires i < |s|
    ensures multiset(s[i := x]) == multiset(s) - multiset{s[i]} + multiset{x}
  {
    assert s == s[..i] + [s[i]] + s[i + 1..];
    assert s[i := x] == s[..i] + [x] + s[i + 1..];
  }

  lemma SwapMultiset(s: seq<Node>, i: nat, j: nat)
    requires i < |s| && j < |s|
    ensures multiset(Swap(s, i, j)) == multiset(s)
  {
    UpdateMultiset(s, i, s[j]);
    UpdateMultiset(s[i := s[j]], j, s[i]);
  }

  lemma {:induction false} SiftUpMultiset(s: seq<Node>, i: nat)
    requires i < |s|
    ensures multiset(SiftUp(s, i)) == multiset(s)
    decreases i
  {
    if i > 0 && s[i].prio < s[Parent(i)].prio {
      SwapMultiset(s, i, Parent(i));
      SiftUpMultiset(Swap(s, i, Parent(i)), Parent(i));
    }
  }

  lemma {:induction false} SiftDownMultiset(s: seq<Node>, i: nat)
    requires i < |s|
    ensures multiset(SiftDown(s, i)) == multiset(s)
    decreases |s| - i
  {
    var m := Lowest(s, i);
    if m != i {
      SwapMultiset(s, i, m);
      SiftDownMultiset(Swap(s, i, m), m);
    }
  }

  lemma {:induction false} SiftDownAsWrittenMultiset(s: seq<Node>, i: nat)
    requires i < |s|
    ensures multiset(SiftDownAsWritten(s, i)) == multiset(s)
    decreases |s| - i
  {
    var m := LowestAsWritten(s, i);
    if m != i {
      SwapMultiset(s, i, m);
      SiftDownAsWrittenMultiset(Swap(s, i, m), m);
    }
  }

  lemma LastToRootMultiset(s: seq<Node>)
    requires |s| > 1
    ensures multiset(LastToRoot(s)) == multiset(s) - multiset{s[0]}
  {
    var init := s[..|s| - 1];
    assert s == init + [s[|s| - 1]];
    UpdateMultiset(init, 0, s[|s| - 1]);
  }

  // ---------------------------------------------------------------- the queue operations

  /** decrease_key keeps the heap and replaces one priority, or changes nothing. */
  lemma DecreaseKeyCorrect(s: seq<Node>, i: nat, v: I64)
    requires i < |s|
    ensures HeapOrder(s) ==> HeapOrder(DecreaseKey(s, i, v))
    ensures multiset(DecreaseKey(s, i, v)) ==
            if v > s[i].prio then multiset(s) else multiset(s) - multiset{s[i]} + multiset{Node(v, s[i].data)}
  {
    if v <= s[i].prio {
      var t := s[i := s[i].(prio := v)];
      UpdateMultiset(s, i, s[i].(prio := v));
      SiftUpMultiset(t, i);
      if HeapOrder(s) {
        assert OrderedBelow(t, i);
        SiftUpOrders(t, i);
      }
    }
  }

  /** insert keeps the heap and adds exactly one element. */
  lemma InsertCorrect(s: seq<Node>, prio: I64, data: nat)
    ensures HeapOrder(s) ==> HeapOrder(Insert(s, prio, data))
    ensures multiset(Insert(s, prio, data)) == multiset(s) + multiset{Node(prio, data)}
  {
    var t := s + [Node(INT64_MAX, data)];
    if HeapOrder(s) { assert HeapOrder(t); }
    DecreaseKeyCorrect(t, |s|, prio);
  }

  /** extract_min, as intended, removes exactly the root, ordered or not. */
  lemma ExtractMinContents(s: seq<Node>)
    requires s != []
    ensures multiset(ExtractMin(s)) == multiset(s) - multiset{s[0]}
  {
    if |s| > 1 {
      LastToRootMultiset(s);
      SiftDownMultiset(LastToRoot(s), 0);
    } else {
      assert s == [s[0]];
    }
  }

  /** In a heap the root it removes is least, and it keeps the heap. */
  lemma ExtractMinCorrect(s: seq<Node>)
    requires s != [] && HeapOrder(s)
    ensures HeapOrder(ExtractMin(s))
    ensures multiset(ExtractMin(s)) == multiset(s) - multiset{s[0]}
    ensures forall x | x in multiset(s) :: s[0].prio <= x.prio
  {
    ExtractMinContents(s);
    if |s| > 1 {
      assert OrderedAbove(LastToRoot(s), 0);
      SiftDownOrders(LastToRoot(s), 0);
    }
    forall x | x in multiset(s) ensures s[0].prio <= x.prio {
      assert x in s;
      var k: nat :| k < |s| && s[k] == x;
      RootIsLeast(s, k);
    }
  }

  /** As written, extract_min still removes exactly the root. */
  lemma ExtractMinAsWrittenContents(s: seq<Node>)
    requires s != []
    ensures multiset(ExtractMinAsWritten(s)) == multiset(s) - multiset{s[0]}
  {
    if |s| > 1 {
      LastToRootMultiset(s);
      SiftDownAsWrittenMultiset(LastToRoot(s), 0);
    } else {
      assert s == [s[0]];
    }
  }
}
