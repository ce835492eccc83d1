/** The order part of Go's container/heap, on the sequence of access times alone.
    Sifting never changes a time, it only moves positions, so every argument about
    heap order can be made on plain integers and handed to the object-level methods. */
module HeapOrder {

  function Parent(j: nat): (p: nat)
    requires 0 < j
    ensures p < j
    ensures j == 2 * p + 1 || j == 2 * p + 2
  {
    (j - 1) / 2
  }

  predicate Edge(ts: seq<int>, j: nat)
    requires 0 < j < |ts|
  {
    ts[Parent(j)] <= ts[j]
  }

  ghost predicate Heap(ts: seq<int>, n: nat)
    requires n <= |ts|
  {
    forall j :: 0 < j < n ==> Edge(ts, j)
  }

  // Everything is in order except possibly around position i, whose neighbours
  // already agree with each other.
  ghost predicate HeapExcept(ts: seq<int>, n: nat, i: nat)
    requires i < n <= |ts|
  {
    && (forall j :: 0 < j < n && j != i && Parent(j) != i ==> Edge(ts, j))
    && (0 < i ==> forall j :: 0 < j < n && Parent(j) == i ==> ts[Parent(i)] <= ts[j])
  }

  // The state of sifting down: only the edges below i may be broken.
  ghost predicate Sinking(ts: seq<int>, n: nat, i: nat)
    requires i < n <= |ts|
  {
    && (forall j :: 0 < j < n && Parent(j) != i ==> Edge(ts, j))
    && (0 < i ==> forall j :: 0 < j < n && Parent(j) == i ==> ts[Parent(i)] <= ts[j])
  }

  // The state of sifting up: only the edge above i may be broken.
  ghost predicate Rising(ts: seq<int>, n: nat, i: nat)
    requires i < n <= |ts|
  {
    && (forall j :: 0 < j < n && j != i ==> Edge(ts, j))
    && (0 < i ==> forall j :: 0 < j < n && Parent(j) == i ==> ts[Parent(i)] <= ts[j])
  }

  function Swapped<T>(s: seq<T>, i: nat, j: nat): (r: seq<T>)
    requires i < |s| && j < |s|
    ensures |r| == |s| && r[i] == s[j] && r[j] == s[i]
    ensures forall k :: 0 <= k < |s| && k != i && k != j ==> r[k] == s[k]
  {
    s[i := s[j]][j := s[i]]
  }

  lemma HeapIsHeapExcept(ts: seq<int>, n: nat, i: nat)
    requires i < n <= |ts| && Heap(ts, n)
    ensures HeapExcept(ts, n, i)
  {
    forall j | 0 < i && 0 < j < n && Parent(j) == i
      ensures ts[Parent(i)] <= ts[j]
    {
      assert Edge(ts, j) && Edge(ts, i);
    }
  }

  // Changing the value at i leaves everything else in order.
  lemma ChangedAt(ts: seq<int>, us: seq<int>, n: nat, i: nat)
    requires i < n <= |ts| == |us| && Heap(ts, n)
    requires forall k :: 0 <= k < n && k != i ==> us[k] == ts[k]
    ensures HeapExcept(us, n, i)
  {
    HeapIsHeapExcept(ts, n, i);
    forall j | 0 < j < n && j != i && Parent(j) != i
      ensures Edge(us, j)
    {
      assert Edge(ts, j);
    }
  }

  lemma AppendedRises(ts: seq<int>, us: seq<int>)
    requires Heap(ts, |ts|) && |us| == |ts| + 1 && us[..|ts|] == ts
    ensures Rising(us, |us|, |ts|)
  {
    forall j | 0 < j < |ts|
      ensures Edge(us, j)
    {
      assert Edge(ts, j) && us[..|ts|][j] == us[j];
    }
  }

  lemma RiseStep(ts: seq<int>, n: nat, i: nat)
    requires 0 < i < n <= |ts| && Rising(ts, n, i) && ts[i] < ts[Parent(i)]
    ensures Rising(Swapped(ts, i, Parent(i)), n, Parent(i))
  {
    var p := Parent(i);
    var us := Swapped(ts, i, p);
    forall j | 0 < j < n && j != p
      ensures Edge(us, j)
      ensures 0 < p && Parent(j) == p ==> us[Parent(p)] <= us[j]
    {
      if j != i {
        assert Edge(ts, j);
      }
      if 0 < p {
        assert Edge(ts, p);
      }
    }
  }

  // v is at most the value of each child of i.
  predicate AtMostChildren(ts: seq<int>, n: nat, i: nat, v: int)
    requires n <= |ts|
  {
    && (2 * i + 1 < n ==> v <= ts[2 * i + 1])
    && (2 * i + 2 < n ==> v <= ts[2 * i + 2])
  }

  // One step of down: c is the smaller child of i.
  lemma SinkStep(ts: seq<int>, n: nat, i: nat, c: nat)
    requires i < c < n <= |ts| && (c == 2 * i + 1 || c == 2 * i + 2) && ts[c] < ts[i]
    requires AtMostChildren(ts, n, i, ts[c])
    requires HeapExcept(ts, n, i)
    ensures Sinking(Swapped(ts, i, c), n, c) && HeapExcept(Swapped(ts, i, c), n, c)
  {
    SunkEdges(ts, n, i, c);
    SunkChildren(ts, n, i, c);
  }

  // The edges that do not lead down from c hold after the swap.
  lemma SunkEdges(ts: seq<int>, n: nat, i: nat, c: nat)
    requires i < c < n <= |ts| && (c == 2 * i + 1 || c == 2 * i + 2) && ts[c] < ts[i]
    requires AtMostChildren(ts, n, i, ts[c])
    requires HeapExcept(ts, n, i)
    ensures forall j :: 0 < j < n && Parent(j) != c ==> Edge(Swapped(ts, i, c), j)
  {
    hide HeapExcept, AtMostChildren, Edge;
    forall j | 0 < j < n && Parent(j) != c
      ensures Edge(Swapped(ts, i, c), j)
    {
      SunkEdge(ts, n, i, c, j);
    }
  }

  lemma SunkEdge(ts: seq<int>, n: nat, i: nat, c: nat, j: nat)
    requires i < c < n <= |ts| && (c == 2 * i + 1 || c == 2 * i + 2) && ts[c] < ts[i]
    requires AtMostChildren(ts, n, i, ts[c])
    requires HeapExcept(ts, n, i) && 0 < j < n && Parent(j) != c
    ensures Edge(Swapped(ts, i, c), j)
  {
    hide Parent;
    assert Parent(c) == i;
    if j == i {
      assert ts[Parent(i)] <= ts[c];
    } else if Parent(j) != i {
      assert Edge(ts, j);
    }
  }

  // The children of c are not smaller than what has moved up.
  lemma SunkChildren(ts: seq<int>, n: nat, i: nat, c: nat)
    requires i < c < n <= |ts| && (c == 2 * i + 1 || c == 2 * i + 2)
    requires HeapExcept(ts, n, i)
    ensures forall j :: 0 < j < n && Parent(j) == c ==> Swapped(ts, i, c)[Parent(c)] <= Swapped(ts, i, c)[j]
  {
    var us := Swapped(ts, i, c);
    forall j | 0 < j < n && Parent(j) == c
      ensures us[Parent(c)] <= us[j]
    {
      assert Edge(ts, j);
    }
  }

  lemma RisenIsHeap(ts: seq<int>, n: nat, i: nat)
    requires i < n <= |ts| && Rising(ts, n, i) && (i == 0 || Edge(ts, i))
    ensures Heap(ts, n)
  {
  }

  // No child of i is smaller: the damage below i is repaired.
  lemma SettledBelow(ts: seq<int>, n: nat, i: nat)
    requires i < n <= |ts| && HeapExcept(ts, n, i)
    requires AtMostChildren(ts, n, i, ts[i])
    ensures Rising(ts, n, i)
    ensures Sinking(ts, n, i) ==> Heap(ts, n)
  {
  }

  lemma HeapOfPrefix(ts: seq<int>, n: nat)
    requires n <= |ts| && Heap(ts, n)
    ensures Heap(ts[..n], n)
  {
    forall j | 0 < j < n
      ensures Edge(ts[..n], j)
    {
      assert Edge(ts, j);
    }
  }

  // The root of a heap is a minimum.
  lemma {:induction false} RootIsMin(ts: seq<int>, n: nat, k: nat)
    requires k < n <= |ts| && Heap(ts, n)
    ensures ts[0] <= ts[k]
    decreases k
  {
    if 0 < k {
      assert Edge(ts, k);
      RootIsMin(ts, n, Parent(k));
    }
  }
}
