/** The answer cache (CacheManager): a map of entries and an LRU heap over the same
    objects, changed together by every operation. */
module LruCache {
  import opened Common
  import opened DnsMessage
  import opened CacheSpec
  import opened LruHeap

  method DetermineTTL(response: Msg, cfg: Config) returns (ttl: int)
    ensures ttl == Lifetime(cfg, response)
  {
    if response.rcode != RCODE_SUCCESS || |response.answer| == 0 {
      return cfg.negativeTTL;
    }
    var minTTL: u32 := 0;
    for i := 0 to |response.answer|
      invariant 0 < i ==> minTTL == MinTtl(response.answer[..i])
    {
      var ttl := response.answer[i].ttl;
      assert response.answer[..i + 1][..i] == response.answer[..i];
      if i == 0 || ttl < minTTL {
        minTTL := ttl;
      }
    }
    assert response.answer[..|response.answer|] == response.answer;
    ttl := if minTTL == 0 then cfg.defaultTTL else minTTL * SECOND;
  }

  // The loop runs over all three sections at once, writing into the copies.
  method DecrementTTLs(m: Msg, elapsed: nat) returns (r: Msg)
    ensures r == Aged(m, elapsed / SECOND)
  {
    var seconds := elapsed / SECOND;
    if seconds == 0 {
      return m;
    }
    var all := m.answer + m.ns + m.extra;
    var rrs := all;
    for i := 0 to |all|
      invariant |rrs| == |all|
      invariant forall k :: 0 <= k < i ==> rrs[k] == AgedRR(all[k], seconds)
      invariant forall k :: i <= k < |all| ==> rrs[k] == all[k]
    {
      if rrs[i].rrtype == OPT {
        continue;
      }
      if rrs[i].ttl > seconds {
        rrs := rrs[i := rrs[i].(ttl := rrs[i].ttl - seconds)];
      } else {
        rrs := rrs[i := rrs[i].(ttl := 1)];
      }
    }
    var a, b := |m.answer|, |m.answer| + |m.ns|;
    r := m.(answer := rrs[..a], ns := rrs[a..b], extra := rrs[b..]);
    assert r.answer == AgedSection(m.answer, seconds);
    assert r.ns == AgedSection(m.ns, seconds);
    assert r.extra == AgedSection(m.extra, seconds);
  }

  ghost function CellOf(e: CacheEntry): Cell
    reads e`response, e`expiresAt, e`cachedAt, e`accessTime
  {
    Cell(e.response, e.expiresAt, e.cachedAt, e.accessTime)
  }

  ghost predicate Shows(e: CacheEntry, c: Cell)
    reads e`response, e`expiresAt, e`cachedAt, e`accessTime
  {
    c == CellOf(e)
  }

  class CacheManager {
    var entries: map<string, CacheEntry>
    var lru: Heap
    const cfg: Config
    var hits: nat
    var misses: nat
    ghost var clock: int          // the latest clock reading used so far
    ghost var view: CacheSpec.View // the cache as a plain map

    constructor (maxEntries: int, defaultTTL: int, negativeTTL: int, ghost now: int)
      ensures Valid() && view == map[] && clock == now && hits == misses == 0 && fresh(lru)
      ensures cfg.maxEntries == if maxEntries <= 0 then 10000 else maxEntries
      ensures cfg.defaultTTL == if defaultTTL == 0 then 3600 * SECOND else defaultTTL
      ensures cfg.negativeTTL == if negativeTTL == 0 then 300 * SECOND else negativeTTL
    {
      entries := map[];
      lru := new Heap();
      cfg := Config(if maxEntries <= 0 then 10000 else maxEntries,
                    if defaultTTL == 0 then 3600 * SECOND else defaultTTL,
                    if negativeTTL == 0 then 300 * SECOND else negativeTTL);
      hits, misses, clock, view := 0, 0, now, map[];
    }

    // The map and the heap hold exactly the same entries, each under its own key.
    ghost predicate Paired()
      reads this`entries, this`lru, lru`items
    {
      && (forall k :: k in entries ==> entries[k] in Elems(lru.items) && entries[k].key == k)
      && (forall e :: e in Elems(lru.items) ==> e.key in entries && entries[e.key] == e)
    }

    // The abstract map shows the fields of each entry.
    ghost predicate Shown()
      requires Paired()
      reads this`entries, this`lru, this`view, lru`items
      reads lru.items`response, lru.items`expiresAt, lru.items`cachedAt, lru.items`accessTime
    {
      && (forall k :: k in view ==> k in entries)
      && (forall k :: k in entries ==> k in view && Shows(entries[k], view[k]))
    }

    ghost predicate Consistent()
      reads this`entries, this`lru, this`view, lru, lru.items
    {
      && lru.Valid()
      && Paired()
      && Shown()
      && |lru.items| <= cfg.maxEntries
      && 0 < cfg.maxEntries
    }

    // No entry carries a time stamp from the future.
    ghost predicate Valid()
      reads this`entries, this`lru, this`view, this`clock, lru, lru.items
    {
      Consistent() && forall k :: k in view ==> view[k].cachedAt <= clock
    }

    lemma SameKeys()
      requires Valid()
      ensures view.Keys == entries.Keys
    {
    }

    lemma SameSize()
      requires Valid()
      ensures |entries| == |lru.items| == |view|
    {
      SizeOfImage(entries, lru.items);
      assert view.Keys == entries.Keys;
    }

    // A map whose values are exactly the elements of a sequence without repetitions,
    // each under its own key, is as large as the sequence.
    static lemma {:induction false} SizeOfImage(m: map<string, CacheEntry>, s: seq<CacheEntry>)
      requires forall k :: k in m ==> m[k] in s && m[k].key == k
      requires forall e :: e in s ==> e.key in m && m[e.key] == e
      requires forall i, j :: 0 <= i < j < |s| ==> s[i] != s[j]
      ensures |m| == |s|
    {
      if s == [] {
        assert m == map[];
      } else {
        var n := |s| - 1;
        var key := s[n].key;
        var m' := m - {key};
        forall k | k in m'
          ensures m'[k] in s[..n]
        {
          var i :| 0 <= i < |s| && s[i] == m[k];
          assert s[..n][i] == m[k];
        }
        SizeOfImage(m', s[..n]);
        assert m.Keys == m'.Keys + {key};
      }
    }

    // Get reads the clock three times: for the expiry check, for the access time and
    // for the age of the copy it returns.
    method Get(key: string, checked: int, touched: int, stamped: int) returns (r: Option<Msg>)
      requires Valid() && clock <= checked <= touched <= stamped
      modifies this, lru, Elems(lru.items)
      ensures Valid() && lru == old(lru) && Elems(lru.items) <= old(Elems(lru.items)) && clock == stamped
      ensures view == GetView(old(view), key, checked, touched)
      ensures r == GetAnswer(old(view), key, checked, stamped)
      ensures r.Some? ==>
                var cell := old(view)[key];
                MessageAges(cell.response, r.value, (stamped - cell.cachedAt) / 1_000_000_000)
      ensures if r.Some? then hits == old(hits) + 1 && misses == old(misses)
              else hits == old(hits) && misses == old(misses) + 1
    {
      hide MessageAges, Aged;
      ghost var before := view;
      var entry := Lookup(key, checked, touched, stamped);
      if entry == null {
        misses := misses + 1;
        return None;
      }
      hits := hits + 1;
      var aged := DecrementTTLs(entry.response, stamped - entry.cachedAt);
      r := Some(aged);
      HitIsAged(before, key, checked, stamped);
    }

    // The map and heap part of Get: an expired entry is dropped, a live one is used.
    method Lookup(key: string, checked: int, touched: int, ghost stamped: int) returns (entry: CacheEntry?)
      requires Valid() && clock <= stamped
      modifies this`entries, this`view, this`clock, lru, Elems(lru.items)`accessTime, Elems(lru.items)`heapIdx
      ensures Valid() && Elems(lru.items) <= old(Elems(lru.items)) && clock == stamped
      ensures view == GetView(old(view), key, checked, touched)
      ensures (entry != null) == Hit(old(view), key, checked)
      ensures entry != null ==> entry.response == old(view)[key].response && entry.cachedAt == old(view)[key].cachedAt
    {
      clock := stamped;
      if key !in entries {
        return null;
      }
      entry := entries[key];
      if checked > entry.expiresAt {
        RemoveEntry(entry);
        return null;
      }
      Use(entry, touched);
    }

    method Use(entry: CacheEntry, now: int)
      requires Valid() && entry in Elems(lru.items)
      modifies this`view, lru, entry`accessTime, Elems(lru.items)`heapIdx
      ensures Valid() && Elems(lru.items) == old(Elems(lru.items))
      ensures view == old(view)[entry.key := old(view)[entry.key].(accessTime := now)]
    {
      lru.Touch(entry, now);
      view := view[entry.key := view[entry.key].(accessTime := now)];
    }

    // A nil response is not cached.
    method Set(key: string, response: Option<Msg>, now: int)
      requires Valid() && clock <= now
      modifies this`entries, this`view, this`clock, lru, Elems(lru.items)
      ensures Valid() && fresh(Elems(lru.items) - old(Elems(lru.items))) && clock == now
      ensures response.None? ==> view == old(view)
      ensures response.Some? ==> SetStep(cfg, old(view), key, response.value, now, view)
    {
      hide SetStep, Lifetime, Shows;
      clock := now;
      if response.None? {
        return;
      }
      var ttl := DetermineTTL(response.value, cfg);
      if ttl == 0 {
        StoreNothing(cfg, view, key, response.value, now);
        return;
      }
      Store(key, response.value, ttl, now);
    }

    method Store(key: string, m: Msg, ttl: int, now: int)
      requires Valid() && now <= clock && ttl == Lifetime(cfg, m) != 0
      modifies this`entries, this`view, lru, Elems(lru.items)
      ensures Valid() && fresh(Elems(lru.items) - old(Elems(lru.items)))
      ensures SetStep(cfg, old(view), key, m, now, view)
    {
      hide SetStep, Lifetime, Shows;
      if key in entries {
        StoreAgain(cfg, view, key, m, now);
        Overwrite(entries[key], m, now + ttl, now);
        return;
      }
      StoreNew(key, m, now + ttl, now);
    }

    method StoreNew(key: string, m: Msg, expiresAt: int, now: int)
      requires Valid() && now <= clock && key !in entries
      requires Lifetime(cfg, m) != 0 && expiresAt == now + Lifetime(cfg, m)
      modifies this`entries, this`view, lru, Elems(lru.items)`heapIdx
      ensures Valid() && fresh(Elems(lru.items) - old(Elems(lru.items)))
      ensures SetStep(cfg, old(view), key, m, now, view)
    {
      ghost var before := view;
      EvictIfFull();
      EvictThenStore(cfg, before, view, key, m, now);
      Insert(key, m, expiresAt, now);
    }

    method EvictIfFull()
      requires Valid()
      modifies this`entries, this`view, lru, Elems(lru.items)`heapIdx
      ensures Valid() && Elems(lru.items) <= old(Elems(lru.items)) && |lru.items| < cfg.maxEntries
      ensures if |old(view)| < cfg.maxEntries then view == old(view)
              else exists victim :: Oldest(old(view), victim) && view == old(view) - {victim}
    {
      SameSize();
      if |entries| >= cfg.maxEntries {
        var _ := EvictLRU();
      }
    }

    method Overwrite(existing: CacheEntry, response: Msg, expiresAt: int, now: int)
      requires Valid() && existing in Elems(lru.items) && now <= clock
      modifies this`view, lru, existing, Elems(lru.items)`heapIdx
      ensures Valid() && Elems(lru.items) == old(Elems(lru.items))
      ensures view == old(view)[existing.key := Cell(response, expiresAt, now, now)]
    {
      hide CacheManager.Valid;
      Refill(existing, response, expiresAt, now);
      Use(existing, now);
    }

    method Refill(existing: CacheEntry, response: Msg, expiresAt: int, now: int)
      requires Valid() && existing in Elems(lru.items) && now <= clock
      modifies this`view, existing`response, existing`expiresAt, existing`cachedAt
      ensures Valid()
      ensures view == old(view)[existing.key := Cell(response, expiresAt, now, old(view)[existing.key].accessTime)]
    {
      existing.Renew(response, expiresAt, now);
      view := view[existing.key := Cell(response, expiresAt, now, view[existing.key].accessTime)];
    }

    method Insert(key: string, response: Msg, expiresAt: int, now: int)
      requires Valid() && key !in entries && |lru.items| < cfg.maxEntries && now <= clock
      modifies this`entries, this`view, lru, Elems(lru.items)`heapIdx
      ensures Valid() && fresh(Elems(lru.items) - old(Elems(lru.items)))
      ensures view == old(view)[key := Cell(response, expiresAt, now, now)]
    {
      var entry := new CacheEntry(key, response, expiresAt, now);
      hide CacheManager.Consistent;
      Enter(entry);
    }

    method Enter(entry: CacheEntry)
      requires Valid() && entry.key !in entries && |lru.items| < cfg.maxEntries && entry.cachedAt <= clock
      requires entry !in Elems(lru.items)
      modifies this`entries, this`view, lru, Elems(lru.items)`heapIdx, entry`heapIdx
      ensures Valid() && Elems(lru.items) == old(Elems(lru.items)) + {entry}
      ensures view == old(view)[entry.key := CellOf(entry)]
    {
      entries, view := entries[entry.key := entry], view[entry.key := CellOf(entry)];
      lru.Push(entry);
    }

    method EvictLRU() returns (ghost victim: string)
      requires Valid() && 0 < |lru.items|
      modifies this`entries, this`view, lru, Elems(lru.items)`heapIdx
      ensures Valid() && Elems(lru.items) <= old(Elems(lru.items)) && |lru.items| == |old(lru.items)| - 1
      ensures Oldest(old(view), victim) && view == old(view) - {victim}
    {
      var oldest := lru.Pop();
      victim := oldest.key;
      entries, view := entries - {oldest.key}, view - {oldest.key};
    }

    method Flush()
      requires Valid()
      modifies this
      ensures Valid() && fresh(lru) && view == map[] && hits == misses == 0 && clock == old(clock)
    {
      entries, view := map[], map[];
      lru := new Heap();
      hits, misses := 0, 0;
    }

    method Delete(key: string) returns (existed: bool)
      requires Valid()
      modifies this`entries, this`view, lru, Elems(lru.items)`heapIdx
      ensures Valid() && Elems(lru.items) <= old(Elems(lru.items))
      ensures existed == (key in old(view)) && view == old(view) - {key}
    {
      if key !in entries {
        return false;
      }
      RemoveEntry(entries[key]);
      return true;
    }

    method RemoveEntry(entry: CacheEntry)
      requires Valid() && entry in Elems(lru.items)
      modifies this`entries, this`view, lru, Elems(lru.items)`heapIdx
      ensures Valid() && Elems(lru.items) == old(Elems(lru.items)) - {entry}
      ensures view == old(view) - {entry.key}
    {
      entries, view := entries - {entry.key}, view - {entry.key};
      if 0 <= entry.heapIdx < |lru.items| {
        var _ := lru.Remove(entry.heapIdx);
      }
    }

    // Go visits the keys of a map in any order and tolerates deletion on the way.
    method Clean(now: int)
      requires Valid() && clock <= now
      modifies this`entries, this`view, this`clock, lru, Elems(lru.items)`heapIdx
      ensures Valid() && Elems(lru.items) <= old(Elems(lru.items)) && clock == now
      ensures view == CleanView(old(view), now)
    {
      hide CacheManager.Consistent, CleanView;
      clock := now;
      ghost var before := view;
      var keys := entries.Keys;
      SameKeys();
      PartlyCleanEnds(before, now);
      while keys != {}
        invariant Valid() && clock == now && keys <= entries.Keys && Elems(lru.items) <= old(Elems(lru.items))
        invariant keys <= before.Keys && view == PartlyClean(before, keys, now)
        decreases keys
      {
        var key :| key in keys;
        PartlyCleanSteps(before, keys, key, now);
        keys := keys - {key};
        CleanOne(key, now);
      }
    }

    method CleanOne(key: string, now: int)
      requires Valid() && key in entries
      modifies this`entries, this`view, lru, Elems(lru.items)`heapIdx
      ensures Valid() && Elems(lru.items) <= old(Elems(lru.items))
      ensures key in old(view) && view == if now > old(view)[key].expiresAt then old(view) - {key} else old(view)
      ensures old(entries).Keys - {key} <= entries.Keys
    {
      var entry := entries[key];
      if now > entry.expiresAt {
        var _ := lru.Remove(entry.heapIdx);
        entries, view := entries - {key}, view - {key};
      }
    }
  }
}
