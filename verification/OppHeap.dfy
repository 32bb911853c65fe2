/** The opportunity queue (internal/engine/heap.go): a max-heap of pointers in a
    slice, each element knowing its own position. The sift operations are those
    of Go's container/heap, which the program relies on. */
module OppHeap {
  import Types

  class ScoredOpportunity {
    const opp: Types.Opportunity
    var index: int

    constructor (opp: Types.Opportunity)
      ensures this.opp == opp
    {
      this.opp := opp;
      index := 0;
    }
  }

  type Slice = seq<ScoredOpportunity>

  function Score(h: Slice, i: nat): real
    requires i < |h|
  {
    h[i].opp.score
  }

  ghost function Elements(h: Slice): set<ScoredOpportunity> {
    set x | x in h
  }

  /** Go's (j - 1) / 2, which truncates towards zero. */
  function Parent(j: nat): nat {
    if j == 0 then 0 else (j - 1) / 2
  }

  /** No element of the first `n` scores higher than its parent. */
  ghost predicate Ordered(h: Slice, n: nat)
    requires n <= |h|
  {
    forall i | 1 <= i < n :: Score(h, i) <= Score(h, Parent(i))
  }

  /** Heap order except that `j` may beat its parent. */
  ghost predicate OrderedBut(h: Slice, j: nat)
    requires j < |h|
  {
    && (forall i | 1 <= i < |h| && i != j :: Score(h, i) <= Score(h, Parent(i)))
    && (forall i | 1 <= i < |h| && Parent(i) == j && j > 0 :: Score(h, i) <= Score(h, Parent(j)))
  }

  /** Heap order of the first `n` except that `i` may be beaten by its children. */
  ghost predicate OrderedBelowBut(h: Slice, i: nat, n: nat)
    requires i <= n <= |h|
  {
    && (forall k | 1 <= k < n && Parent(k) != i :: Score(h, k) <= Score(h, Parent(k)))
    && (forall k | 1 <= k < n && Parent(k) == i && i > 0 :: Score(h, k) <= Score(h, Parent(i)))
  }

  function Swapped(h: Slice, i: nat, j: nat): (s: Slice)
    requires i < |h| && j < |h|
    ensures |s| == |h|
  {
    h[i := h[j]][j := h[i]]
  }

  lemma SwappedIsPermutation(h: Slice, i: nat, j: nat)
    requires i < |h| && j < |h|
    ensures multiset(Swapped(h, i, j)) == multiset(h)
    ensures Elements(Swapped(h, i, j)) == Elements(h)
  {
    var s := Swapped(h, i, j);
    forall x
      ensures x in s <==> x in h
    {
      assert x in s <==> x in multiset(s);
    }
  }

  lemma {:induction false} SwapUp(h: Slice, j: nat)
    requires 0 < j < |h| && OrderedBut(h, j) && Score(h, j) > Score(h, Parent(j))
    ensures OrderedBut(Swapped(h, Parent(j), j), Parent(j))
  {
    var p, s := Parent(j), Swapped(h, Parent(j), j);
    forall i | 1 <= i < |s|
      ensures i != p ==> Score(s, i) <= Score(s, Parent(i))
      ensures Parent(i) == p && p > 0 ==> Score(s, i) <= Score(s, Parent(p))
    {
      if Parent(i) == p && i != j {
        assert Score(h, i) <= Score(h, p);
      }
    }
  }

  lemma ChildIs(k: nat)
    requires k >= 1
    ensures k == 2 * Parent(k) + 1 || k == 2 * Parent(k) + 2
  {
  }

  lemma {:induction false} SwapDown(h: Slice, i: nat, j: nat, n: nat)
    requires 0 < j < n <= |h| && i == Parent(j) && OrderedBelowBut(h, i, n)
    requires Score(h, j) > Score(h, i)
    requires forall k | k in {2 * i + 1, 2 * i + 2} && k < n :: Score(h, k) <= Score(h, j)
    ensures OrderedBelowBut(Swapped(h, i, j), j, n)
    ensures Swapped(h, i, j)[n..] == h[n..]
  {
    var s := Swapped(h, i, j);
    forall k | 1 <= k < n
      ensures Parent(k) != j ==> Score(s, k) <= Score(s, Parent(k))
      ensures Parent(k) == j ==> Score(s, k) <= Score(s, Parent(j))
    {
      ChildIs(k);
      if k == i {
        assert Score(h, j) <= Score(h, Parent(i));
      } else if Parent(k) == j {
        assert Score(h, k) <= Score(h, j);
      } else if Parent(k) == i {
        assert k in {2 * i + 1, 2 * i + 2} && Score(h, k) <= Score(h, j);
      } else {
        assert Score(h, k) <= Score(h, Parent(k));
      }
    }
  }

  lemma {:induction false} DownStops(h: Slice, i: nat, n: nat)
    requires i <= n <= |h| && OrderedBelowBut(h, i, n)
    requires forall k | k in {2 * i + 1, 2 * i + 2} && k < n :: Score(h, k) <= Score(h, i)
    ensures Ordered(h, n)
  {
    forall k | 1 <= k < n
      ensures Score(h, k) <= Score(h, Parent(k))
    {
      ChildIs(k);
      assert Parent(k) == i ==> k in {2 * i + 1, 2 * i + 2};
    }
  }

  /** Swapping the root with the last element spoils the order only at the root. */
  lemma RootSwappedOut(h: Slice)
    requires h != [] && Ordered(h, |h|)
    ensures var n := |h| - 1;
            OrderedBelowBut(Swapped(h, 0, n), 0, n) && Swapped(h, 0, n)[n..] == [h[0]]
  {
    var n := |h| - 1;
    var s := Swapped(h, 0, n);
    forall k | 1 <= k < n && Parent(k) != 0
      ensures Score(s, k) <= Score(s, Parent(k))
    {
      assert Score(h, k) <= Score(h, Parent(k));
    }
  }

  lemma LastSplitsOff(s: Slice, x: ScoredOpportunity)
    requires s != [] && s[|s| - 1..] == [x]
    ensures s[|s| - 1] == x && multiset(s) == multiset(s[..|s| - 1]) + multiset{x}
    ensures Ordered(s, |s| - 1) ==> Ordered(s[..|s| - 1], |s| - 1)
  {
    var front := s[..|s| - 1];
    assert s == front + [x];
    if Ordered(s, |s| - 1) {
      forall i | 1 <= i < |front|
        ensures Score(front, i) <= Score(front, Parent(i))
      {
        assert Score(s, i) <= Score(s, Parent(i));
      }
    }
  }

  /** In heap order nothing scores higher than the root. */
  lemma {:induction false} RootIsMaximum(h: Slice, i: nat)
    requires Ordered(h, |h|) && i < |h|
    ensures Score(h, i) <= Score(h, 0)
  {
    if i == 0 {
    } else {
      RootIsMaximum(h, Parent(i));
    }
  }

  class OppHeap {
    var h: Slice

    constructor ()
      ensures h == []
    {
      h := [];
    }

    /** Every element's back-pointer is its position; so no element occurs twice. */
    ghost predicate Indexed()
      reads this, h
    {
      forall i | 0 <= i < |h| :: h[i].index == i
    }

    ghost predicate Valid()
      reads this, h
    {
      Indexed() && Ordered(h, |h|)
    }

    predicate Less(i: nat, j: nat)
      requires i < |h| && j < |h|
      reads this
    {
      h[i].opp.score > h[j].opp.score
    }

    method Swap(i: nat, j: nat)
      requires i < |h| && j < |h| && Indexed()
      modifies this, Elements(h)
      ensures h == Swapped(old(h), i, j) && Indexed()
    {
      h := h[i := h[j]][j := h[i]];
      h[i].index := i;
      h[j].index := j;
    }

    method Push(item: ScoredOpportunity)
      requires Indexed() && item !in h
      modifies this, item
      ensures h == old(h) + [item] && Indexed()
    {
      item.index := |h|;
      h := h + [item];
    }

    method Pop() returns (item: ScoredOpportunity)
      requires Indexed() && h != []
      modifies this, Elements(h)
      ensures h == old(h)[..|old(h)| - 1] && item == old(h)[|old(h)| - 1]
      ensures Indexed() && item.index == -1
    {
      var n := |h|;
      item := h[n - 1];
      item.index := -1;
      h := h[..n - 1];
    }

    /** container/heap's up. */
    method Up(j0: nat)
      requires j0 < |h| && Indexed() && OrderedBut(h, j0)
      modifies this, Elements(h)
      ensures Valid() && multiset(h) == multiset(old(h)) && Elements(h) == old(Elements(h))
    {
      var j: nat := j0;
      while true
        invariant j < |h| && Indexed() && OrderedBut(h, j)
        invariant multiset(h) == multiset(old(h)) && Elements(h) == old(Elements(h))
        decreases j
      {
        var i := Parent(j);
        if i == j || !Less(j, i) {
          break;
        }
        SwapUp(h, j);
        SwappedIsPermutation(h, i, j);
        Swap(i, j);
        j := i;
      }
    }

    /** container/heap's down, over the first `n` elements. */
    method Down(i0: nat, n: nat)
      requires i0 <= n <= |h| && Indexed() && OrderedBelowBut(h, i0, n)
      modifies this, Elements(h)
      ensures Indexed() && multiset(h) == multiset(old(h)) && |h| == |old(h)| && Ordered(h, n)
      ensures h[n..] == old(h)[n..] && Elements(h) == old(Elements(h))
    {
      hide OrderedBelowBut, Ordered, Indexed, Swapped, Elements;
      var i: nat := i0;
      while true
        invariant i <= n <= |h| == |old(h)| && Indexed() && OrderedBelowBut(h, i, n)
        invariant multiset(h) == multiset(old(h)) && Elements(h) == old(Elements(h))
        invariant h[n..] == old(h)[n..]
        decreases n - i
      {
        var j1 := 2 * i + 1;
        if j1 >= n {
          DownStops(h, i, n);
          break;
        }
        var j := j1;
        var j2 := j1 + 1;
        if j2 < n && Less(j2, j1) {
          j := j2;
        }
        if !Less(j, i) {
          DownStops(h, i, n);
          break;
        }
        SwapDown(h, i, j, n);
        SwappedIsPermutation(h, i, j);
        Swap(i, j);
        i := j;
      }
    }

    /** heap.Push. */
    method HeapPush(item: ScoredOpportunity)
      requires Valid() && item !in h
      modifies this, Elements(h), item
      ensures Valid() && multiset(h) == multiset(old(h)) + multiset{item}
    {
      Push(item);
      Up(|h| - 1);
    }

    /** heap.Pop: remove the root. */
    method HeapPop() returns (item: ScoredOpportunity)
      requires Valid() && h != []
      modifies this, Elements(h)
      ensures Valid() && item == old(h)[0] && item.index == -1
      ensures multiset(old(h)) == multiset(h) + multiset{item}
    {
      hide Ordered, OrderedBelowBut, Swapped, Elements, Indexed;
      var n := |h| - 1;
      SwappedIsPermutation(h, 0, n);
      RootSwappedOut(h);
      Swap(0, n);
      Down(0, n);
      LastSplitsOff(h, old(h)[0]);
      item := Pop();
    }
  }
}
