/** What the heap does over several operations, where the code as written departs from it, and
    exactly when it does. */
module HeapTheorems {
  import opened Heap

  // ---------------------------------------------------------------- draining sorts

  ghost predicate SortedByPrio(s: seq<Node>) {
    forall i, j :: 0 <= i < j < |s| ==> s[i].prio <= s[j].prio
  }

  /** The elements in the order repeated extraction returns them. */
  function Drain(s: seq<Node>): (r: seq<Node>)
    decreases |s|
  {
    if s == [] then [] else [s[0]] + Drain(ExtractMin(s))
  }

  /** A least element in front of a sorted rest, which holds the other elements of `m`. */
  lemma PrependLeast(x: Node, rest: seq<Node>, m: multiset<Node>)
    requires SortedByPrio(rest) && x in m && multiset(rest) == m - multiset{x}
    requires forall y | y in m :: x.prio <= y.prio
    ensures SortedByPrio([x] + rest)
    ensures multiset([x] + rest) == m
  {
    forall j | 0 <= j < |rest| ensures x.prio <= rest[j].prio { assert rest[j] in multiset(rest); }
  }

  lemma {:induction false} DrainSorts(s: seq<Node>)
    requires HeapOrder(s)
    ensures SortedByPrio(Drain(s))
    ensures multiset(Drain(s)) == multiset(s)
    decreases |s|
  {
    if s != [] {
      ExtractMinCorrect(s);
      DrainSorts(ExtractMin(s));
      PrependLeast(s[0], Drain(ExtractMin(s)), multiset(s));
    }
  }

  // ---------------------------------------------------------------- heapify as written

  /** An element of priority `v` sinking from `i` only ever has to go right: down the right spine
      as long as the right child is strictly the smaller, to a place where the left child is not
      below it. */
  predicate SinksRight(s: seq<Node>, v: I64, i: nat)
    decreases |s| - i
  {
    if Right(i) < |s| && s[Right(i)].prio < v && s[Right(i)].prio < s[Left(i)].prio then SinksRight(s, v, Right(i))
    else Left(i) < |s| ==> v <= s[Left(i)].prio
  }

  lemma {:induction false} SinksRightBelow(s: seq<Node>, t: seq<Node>, v: I64, i: nat)
    requires |s| == |t| && forall k :: i < k < |s| ==> s[k] == t[k]
    ensures SinksRight(s, v, i) <==> SinksRight(t, v, i)
    decreases |s| - i
  {
    if Right(i) < |s| { SinksRightBelow(s, t, v, Right(i)); }
  }

  lemma AsWrittenMovesToLeast(s: seq<Node>, i: nat, k: nat)
    requires i < |s| && 0 < k < |s| && Parent(k) == i && LowestAsWritten(s, i) != i
    ensures s[LowestAsWritten(s, i)].prio <= s[k].prio
    ensures s[LowestAsWritten(s, i)].prio < s[i].prio
  {
    Children(k, i);
  }

  lemma {:induction false} SiftDownAsWrittenOrdersIff(s: seq<Node>, i: nat)
    requires i < |s| && OrderedAbove(s, i)
    ensures HeapOrder(SiftDownAsWritten(s, i)) <==> SinksRight(s, s[i].prio, i)
    decreases |s| - i
  {
    var m := LowestAsWritten(s, i);
    if m != i {
      Children(m, i);
      forall k | 0 < k < |s| && Parent(k) == i ensures s[m].prio <= s[k].prio { AsWrittenMovesToLeast(s, i, k); }
      AsWrittenMovesToLeast(s, i, m);
      SinkStep(s, i, m);
      SiftDownAsWrittenOrdersIff(Swap(s, i, m), m);
      SinksRightBelow(s, Swap(s, i, m), s[i].prio, m);
    } else {
      forall k | 0 < k < |s| && Parent(k) == i ensures k == Left(i) || k == Right(i) { Children(k, i); }
      if Left(i) < |s| { Children(Left(i), i); }
    }
  }

  /** As written, extract_min leaves a heap exactly when the element taken from the end has to
      sink through right children only; otherwise the heap order is lost. */
  lemma ExtractMinAsWrittenOrdersIff(s: seq<Node>)
    requires |s| > 1 && HeapOrder(s)
    ensures HeapOrder(ExtractMinAsWritten(s)) <==> SinksRight(s[..|s| - 1], s[|s| - 1].prio, 0)
  {
    var t := LastToRoot(s);
    assert OrderedAbove(t, 0);
    SiftDownAsWrittenOrdersIff(t, 0);
    SinksRightBelow(s[..|s| - 1], t, t[0].prio, 0);
  }

  /** Extracting from priorities 1, 2, 3, 10 leaves 10 at the root, in front of 2 and 3. */
  lemma AsWrittenLosesOrder()
    ensures var s := [Node(1, 0), Node(2, 1), Node(3, 2), Node(10, 3)];
            && HeapOrder(s)
            && ExtractMinAsWritten(s)[0].prio == 10
            && !HeapOrder(ExtractMinAsWritten(s))
  {
    var s := [Node(1, 0), Node(2, 1), Node(3, 2), Node(10, 3)];
    var t := LastToRoot(s);
    assert t == [Node(10, 3), Node(2, 1), Node(3, 2)];
    assert SiftDownAsWritten(t, 0) == t;
    assert t[Parent(1)].prio > t[1].prio;
  }

  // ---------------------------------------------------------------- the head as written

  /** No element is below the head. */
  predicate HeadLeast(s: seq<Node>) {
    forall k :: 0 <= k < |s| ==> s[0].prio <= s[k].prio
  }

  /** Putting priority `v` at the root of the heap `t` leaves a least element there, as heapify is
      written: `v` is not above the left child, or the right child is strictly below both. */
  predicate HeadStaysLeast(t: seq<Node>, v: I64) {
    |t| > 1 ==> v <= t[1].prio || (|t| > 2 && t[2].prio < v && t[2].prio < t[1].prio)
  }

  lemma {:induction false} BelowAChild(s: seq<Node>, k: nat)
    requires HeapOrder(s) && 1 <= k < |s|
    ensures s[1].prio <= s[k].prio || (|s| > 2 && s[2].prio <= s[k].prio)
    decreases k
  {
    if k > 2 { BelowAChild(s, Parent(k)); }
  }

  lemma {:induction false} SiftDownAsWrittenPrefix(s: seq<Node>, i: nat, k: nat)
    requires k < i < |s|
    ensures SiftDownAsWritten(s, i)[k] == s[k]
    decreases |s| - i
  {
    var m := LowestAsWritten(s, i);
    if m != i { SiftDownAsWrittenPrefix(Swap(s, i, m), m, k); }
  }

  /** Where the head comes from: the new root itself, or the right child. */
  lemma HeadAsWritten(s: seq<Node>)
    requires s != []
    ensures SiftDownAsWritten(s, 0)[0] == s[LowestAsWritten(s, 0)]
  {
    var m := LowestAsWritten(s, 0);
    if m != 0 { SiftDownAsWrittenPrefix(Swap(s, 0, m), m, 0); }
  }

  /** Least among the elements, whatever their order. */
  lemma SameLeast(s: seq<Node>, t: seq<Node>, p: I64)
    requires multiset(s) == multiset(t)
    requires forall k :: 0 <= k < |s| ==> p <= s[k].prio
    ensures forall k :: 0 <= k < |t| ==> p <= t[k].prio
  {
    forall k | 0 <= k < |t| ensures p <= t[k].prio {
      assert t[k] in multiset(t);
      assert t[k] in s;
    }
  }

  /** As written, extract_min leaves a least element at the head exactly when the last element is
      not above the left child of the root, or the right child is strictly below both. */
  lemma ExtractMinAsWrittenHeadIff(s: seq<Node>)
    requires |s| > 1 && HeapOrder(s)
    ensures HeadLeast(ExtractMinAsWritten(s)) <==> HeadStaysLeast(s[..|s| - 1], s[|s| - 1].prio)
  {
    var t, r := LastToRoot(s), ExtractMinAsWritten(s);
    HeadAsWritten(t);
    SiftDownAsWrittenMultiset(t, 0);
    if HeadStaysLeast(s[..|s| - 1], s[|s| - 1].prio) {
      forall k | 0 <= k < |t| ensures r[0].prio <= t[k].prio {
        if k > 0 { BelowAChild(s, k); }
      }
      SameLeast(t, r, r[0].prio);
    }
  }

  // ---------------------------------------------------------------- delete_key

  lemma {:induction false} SiftUpReachesRoot(s: seq<Node>, i: nat)
    requires i < |s|
    requires forall k :: 0 <= k < |s| && k != i ==> s[i].prio < s[k].prio
    ensures SiftUp(s, i)[0] == s[i]
    decreases i
  {
    if i > 0 { SiftUpReachesRoot(Swap(s, i, Parent(i)), Parent(i)); }
  }

  lemma {:induction false} SiftUpKeepsRoot(s: seq<Node>, i: nat)
    requires 0 < i < |s| && s[0].prio <= s[i].prio
    ensures SiftUp(s, i)[0] == s[0]
    decreases i
  {
    if s[i].prio < s[Parent(i)].prio { SiftUpKeepsRoot(Swap(s, i, Parent(i)), Parent(i)); }
  }

  /** Which element delete_key(i) brings to the root, and so removes. */
  lemma DeletedRoot(s: seq<Node>, i: nat)
    requires i < |s| && HeapOrder(s)
    ensures var d := DecreaseKey(s, i, INT32_MIN);
            && (INT32_MIN > s[i].prio ==> d[0] == s[0])
            && (INT32_MIN <= s[i].prio && (i == 0 || s[0].prio > INT32_MIN) ==> d[0] == Node(INT32_MIN, s[i].data))
            && (INT32_MIN <= s[i].prio && i > 0 && s[0].prio <= INT32_MIN ==> d[0] == s[0])
  {
    if INT32_MIN <= s[i].prio {
      var t := s[i := s[i].(prio := INT32_MIN)];
      if i > 0 {
        if s[0].prio > INT32_MIN {
          forall k | 0 <= k < |s| && k != i ensures t[i].prio < t[k].prio { RootIsLeast(s, k); }
          SiftUpReachesRoot(t, i);
        } else {
          SiftUpKeepsRoot(t, i);
        }
      }
    }
  }

  /** delete_key(i) can be relied on: `i` is the root, or every priority is above INT32_MIN (the
      root's is), or the root is indistinguishable from what would be deleted. */
  predicate Deletable(s: seq<Node>, i: nat)
    requires i < |s|
  {
    || i == 0
    || s[0].prio > -0x8000_0000
    || (s[0].data == s[i].data && s[0].prio == if s[i].prio < -0x8000_0000 then s[i].prio else -0x8000_0000)
  }

  /** Removing the root after the decrease removes exactly element i if and only if Deletable. */
  lemma DeletedContents(s: seq<Node>, i: nat)
    requires i < |s| && HeapOrder(s)
    ensures var d := DecreaseKey(s, i, INT32_MIN);
            multiset(d) - multiset{d[0]} == multiset(s) - multiset{s[i]} <==> Deletable(s, i)
  {
    DecreaseKeyCorrect(s, i, INT32_MIN);
    DeletedRoot(s, i);
    RootIsLeast(s, i);
    var m, x := multiset(s), s[i];
    assert x in m;
    var low := Node(INT32_MIN, x.data);
    assert s[0] in m;
    if INT32_MIN > x.prio {
      RemoveSame(m, x, s[0]);
    } else if i == 0 || s[0].prio > INT32_MIN {
      assert m - multiset{x} + multiset{low} - multiset{low} == m - multiset{x};
    } else {
      ReplaceSame(m - multiset{x}, low, s[0]);
    }
  }

  /** With extract_min as intended, delete_key(i) keeps the heap, and removes exactly element i if
      and only if Deletable. */
  lemma DeleteKeyCorrectIff(s: seq<Node>, i: nat)
    requires i < |s| && HeapOrder(s)
    ensures HeapOrder(DeleteKey(s, i))
    ensures multiset(DeleteKey(s, i)) == multiset(s) - multiset{s[i]} <==> Deletable(s, i)
  {
    DecreaseKeyCorrect(s, i, INT32_MIN);
    ExtractMinCorrect(DecreaseKey(s, i, INT32_MIN));
    DeletedContents(s, i);
  }

  /** As written it removes exactly element i under the same condition, and keeps the heap exactly
      when, after the decrease, the last element only has to sink through right children. */
  lemma DeleteKeyAsWrittenIff(s: seq<Node>, i: nat)
    requires i < |s| && HeapOrder(s)
    ensures multiset(DeleteKeyAsWritten(s, i)) == multiset(s) - multiset{s[i]} <==> Deletable(s, i)
    ensures var d, l := DecreaseKey(s, i, INT32_MIN), |s| - 1;
            HeapOrder(DeleteKeyAsWritten(s, i)) <==> l == 0 || SinksRight(d[..l], d[l].prio, 0)
  {
    var d := DecreaseKey(s, i, INT32_MIN);
    DecreaseKeyCorrect(s, i, INT32_MIN);
    ExtractMinAsWrittenContents(d);
    DeletedContents(s, i);
    if |s| > 1 { ExtractMinAsWrittenOrdersIff(d); }
  }

  /** Deleting the root of priorities 1, 2, 3, 10 as written leaves 10 at the root. */
  lemma DeleteKeyAsWrittenLosesOrder()
    ensures var s := [Node(1, 0), Node(2, 1), Node(3, 2), Node(10, 3)];
            HeapOrder(s) && Deletable(s, 0) && !HeapOrder(DeleteKeyAsWritten(s, 0))
  {
    var s := [Node(1, 0), Node(2, 1), Node(3, 2), Node(10, 3)];
    var d := DecreaseKey(s, 0, INT32_MIN);
    assert d == s[0 := Node(INT32_MIN, 0)];
    DeleteKeyAsWrittenIff(s, 0);
    assert !SinksRight(d[..3], d[3].prio, 0);
  }

  lemma RemoveSame(m: multiset<Node>, x: Node, y: Node)
    requires x in m && y in m
    ensures m - multiset{y} == m - multiset{x} <==> x == y
  {
    if x != y { assert (m - multiset{y})[x] != (m - multiset{x})[x]; }
  }

  lemma ReplaceSame(m: multiset<Node>, x: Node, y: Node)
    ensures y in m + multiset{x} ==> (m + multiset{x} - multiset{y} == m <==> x == y)
  {
    if x != y && y in m { assert (m + multiset{x} - multiset{y})[y] != m[y]; }
  }
}
