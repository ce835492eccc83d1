/** The LRU heap of the answer cache: pointers ordered by access time, each entry
    remembering its own position (lruHeap together with container/heap). */
module LruHeap {
  import opened HeapOrder
  import opened DnsMessage

  // A cached response. heapIdx is the position in the heap, -1 when in none.
  class CacheEntry {
    const key: string
    var response: Msg
    var expiresAt: int
    var cachedAt: int
    var accessTime: int
    var heapIdx: int

    constructor (key: string, response: Msg, expiresAt: int, now: int)
      ensures this.key == key && this.response == response && this.expiresAt == expiresAt
      ensures cachedAt == now && accessTime == now && heapIdx == -1
    {
      this.key := key;
      this.response, this.expiresAt := response, expiresAt;
      cachedAt, accessTime, heapIdx := now, now, -1;
    }

    // A new response under the same key.
    method Renew(response: Msg, expiresAt: int, now: int)
      modifies this`response, this`expiresAt, this`cachedAt
      ensures this.response == response && this.expiresAt == expiresAt && cachedAt == now
    {
      this.response, this.expiresAt, cachedAt := response, expiresAt, now;
    }
  }

  ghost function Elems(items: seq<CacheEntry>): set<CacheEntry>
  {
    set e | e in items
  }

  lemma SwapKeepsElems(s: seq<CacheEntry>, i: nat, j: nat)
    requires i < |s| && j < |s|
    ensures Elems(Swapped(s, i, j)) == Elems(s)
  {
    var t := Swapped(s, i, j);
    forall e | e in s
      ensures e in t
    {
      var k :| 0 <= k < |s| && s[k] == e;
      assert t[k] == e || t[i] == e || t[j] == e;
    }
  }

  class Heap {
    var items: seq<CacheEntry>
    ghost var times: seq<int> // the access times, position by position

    constructor ()
      ensures Valid() && items == []
    {
      items, times := [], [];
    }

    // Every entry knows its own position; in particular no entry occurs twice.
    ghost predicate Indexed()
      reads this, items`heapIdx, items`accessTime
    {
      && |times| == |items|
      && forall i :: 0 <= i < |items| ==> items[i].heapIdx == i && items[i].accessTime == times[i]
    }

    ghost predicate Ordered(n: nat)
      reads this
    {
      n <= |times| && HeapOrder.Heap(times, n)
    }

    ghost predicate Valid()
      reads this, items`accessTime, items`heapIdx
    {
      Indexed() && Ordered(|items|)
    }

    method Swap(i: nat, j: nat)
      requires i < |items| && j < |items| && Indexed()
      modifies this, Elems(items)`heapIdx
      ensures items == Swapped(old(items), i, j) && Indexed() && Elems(items) == old(Elems(items))
      ensures times == Swapped(old(times), i, j)
    {
      items := items[i := items[j]][j := items[i]];
      times := Swapped(times, i, j);
      items[i].heapIdx := i;
      items[j].heapIdx := j;
      SwapKeepsElems(old(items), i, j);
    }

    method Up(start: nat, ghost n: nat)
      requires start < n <= |items| && Indexed() && Rising(times, n, start)
      modifies this, Elems(items)`heapIdx
      ensures |items| == |old(items)| && Elems(items) == old(Elems(items)) && items[n..] == old(items[n..])
      ensures Indexed() && Ordered(n)
    {
      var j := start;
      while 0 < j && items[j].accessTime < items[Parent(j)].accessTime
        invariant 0 <= j < n <= |items| && Indexed() && Rising(times, n, j)
        invariant |items| == |old(items)| && Elems(items) == old(Elems(items)) && items[n..] == old(items[n..])
      {
        RiseStep(times, n, j);
        Swap(j, Parent(j));
        j := Parent(j);
      }
      RisenIsHeap(times, n, j);
    }

    method SmallerChild(i: nat, n: nat) returns (child: nat)
      requires 2 * i + 1 < n <= |items| && Indexed()
      ensures child < n && (child == 2 * i + 1 || child == 2 * i + 2)
      ensures AtMostChildren(times, n, i, times[child])
    {
      child := 2 * i + 1;
      if child + 1 < n && items[child + 1].accessTime < items[child].accessTime {
        child := child + 1;
      }
    }

    method SwapDown(i: nat, child: nat, ghost n: nat)
      requires i < child < n <= |items| && Indexed() && (child == 2 * i + 1 || child == 2 * i + 2)
      requires items[child].accessTime < items[i].accessTime
      requires AtMostChildren(times, n, i, times[child]) && HeapExcept(times, n, i)
      modifies this, Elems(items)`heapIdx
      ensures |items| == |old(items)| && Elems(items) == old(Elems(items)) && items[n..] == old(items[n..])
      ensures Indexed() && Sinking(times, n, child) && HeapExcept(times, n, child)
    {
      SinkStep(times, n, i, child);
      Swap(i, child);
    }

    method Down(start: nat, n: nat) returns (moved: bool)
      requires (start < n || start == n == 0) && n <= |items| && Indexed()
      requires start < n ==> HeapExcept(times, n, start)
      modifies this, Elems(items)`heapIdx
      ensures Indexed() && |items| == |old(items)| && Elems(items) == old(Elems(items)) && items[n..] == old(items[n..])
      ensures n == 0 || moved ==> Ordered(n)
      ensures !moved ==> items == old(items) && (start < n ==> Rising(times, n, start))
    {
      var i := start;
      while 2 * i + 1 < n
        invariant start <= i && (i < n || i == n == 0) && n <= |items| && Indexed()
        invariant i == start ==> items == old(items)
        invariant i < n ==> HeapExcept(times, n, i)
        invariant start < i ==> Sinking(times, n, i)
        invariant |items| == |old(items)| && Elems(items) == old(Elems(items)) && items[n..] == old(items[n..])
        decreases n - i
      {
        var child := SmallerChild(i, n);
        if items[i].accessTime <= items[child].accessTime {
          break;
        }
        SwapDown(i, child, n);
        i := child;
      }
      moved := start < i;
      if i < n {
        SettledBelow(times, n, i);
      }
    }

    method Fix(i: nat)
      requires i < |items| && Indexed() && HeapExcept(times, |items|, i)
      modifies this, Elems(items)`heapIdx
      ensures Valid() && |items| == |old(items)| && Elems(items) == old(Elems(items))
    {
      var moved := Down(i, |items|);
      if !moved {
        Up(i, |items|);
      }
    }

    // A new access time for one entry, followed by Fix.
    method Touch(entry: CacheEntry, now: int)
      requires Valid() && entry in Elems(items)
      modifies this, entry`accessTime, Elems(items)`heapIdx
      ensures Valid() && |items| == |old(items)| && Elems(items) == old(Elems(items))
      ensures entry.accessTime == now
    {
      var i := entry.heapIdx;
      ghost var before := times;
      entry.accessTime := now;
      times := times[i := now];
      ChangedAt(before, times, |items|, i);
      Fix(entry.heapIdx);
    }

    method Push(entry: CacheEntry)
      requires Valid() && entry !in Elems(items)
      modifies this, Elems(items)`heapIdx, entry`heapIdx
      ensures Valid() && |items| == |old(items)| + 1 && Elems(items) == old(Elems(items)) + {entry}
    {
      entry.heapIdx := |items|;
      ghost var before := times;
      items, times := items + [entry], times + [entry.accessTime];
      AppendedRises(before, times);
      Up(|items| - 1, |items|);
    }

    // Drops the last slot, as lruHeap.Pop does.
    method PopLast() returns (entry: CacheEntry)
      requires 0 < |items| && Indexed() && Ordered(|items| - 1)
      modifies this, Elems(items)`heapIdx
      ensures |items| == |old(items)| - 1 && entry == old(items)[|items|] && entry.heapIdx == -1
      ensures Valid() && Elems(items) == old(Elems(items)) - {entry}
    {
      var n := |items| - 1;
      HeapOfPrefix(times, n);
      entry := items[n];
      entry.heapIdx := -1;
      items, times := items[..n], times[..n];
    }

    method Pop() returns (entry: CacheEntry)
      requires 0 < |items| && Valid()
      modifies this, Elems(items)`heapIdx
      ensures Valid() && entry in old(Elems(items)) && entry.heapIdx == -1
      ensures |items| == |old(items)| - 1 && Elems(items) == old(Elems(items)) - {entry}
      ensures forall e :: e in old(Elems(items)) ==> entry.accessTime <= e.accessTime
    {
      ghost var ts := times;
      forall k | 0 <= k < |ts|
        ensures ts[0] <= ts[k]
      {
        RootIsMin(ts, |ts|, k);
      }
      var n := |items| - 1;
      Swap(0, n);
      if 0 < n {
        AfterSwapOut(ts, times, n, 0);
      }
      var _ := Down(0, n);
      assert items[n..][0] == old(items[0]);
      entry := PopLast();
    }

    method Remove(i: nat) returns (entry: CacheEntry)
      requires i < |items| && Valid()
      modifies this, Elems(items)`heapIdx
      ensures Valid() && entry == old(items[i]) && entry.heapIdx == -1
      ensures |items| == |old(items)| - 1 && Elems(items) == old(Elems(items)) - {entry}
    {
      var n := |items| - 1;
      ghost var ts := times;
      if n == i {
        HeapWithoutLast(ts, n);
      } else {
        Swap(i, n);
        AfterSwapOut(ts, times, n, i);
        var moved := Down(i, n);
        if !moved {
          Up(i, n);
        }
      }
      assert items[n..][0] == old(items[i]);
      entry := PopLast();
    }

    lemma HeapWithoutLast(ts: seq<int>, n: nat)
      requires |ts| == n + 1 && HeapOrder.Heap(ts, n + 1)
      ensures HeapOrder.Heap(ts, n)
    {
    }

    // Swapping position i with the last one breaks order at i only, among the first n.
    lemma AfterSwapOut(ts: seq<int>, us: seq<int>, n: nat, i: nat)
      requires i < n && |ts| == n + 1 && HeapOrder.Heap(ts, n + 1) && us == Swapped(ts, i, n)
      ensures HeapExcept(us, n, i)
    {
      ChangedAt(ts, us, n, i);
    }
  }
}
