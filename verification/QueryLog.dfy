/** The query log: a ring buffer over an array, paged from the newest entry back, and pushed
    to the master in increments. */
module QueryLog {
  import opened Filters

  // Times are in nanoseconds; 0 is the zero time.
  const ZERO_TIME: int := 0
  const DEFAULT_CAPACITY: nat := 5000
  const DEFAULT_LIMIT: nat := 100
  const MAX_LIMIT: nat := 1000
  const MAX_PUSH: nat := 1000

  datatype Entry = Entry(timestamp: int, clientIP: string, domain: string, qtype: string, result: string, nodeID: string)

  // Empty strings and zero times filter nothing.
  datatype Criteria = Criteria(client: string, domain: string, result: string, qtype: string, node: string,
                               since: int, until: int, limit: int, offset: int)

  datatype Page = Page(entries: seq<Entry>, total: nat, hasMore: bool)

  function LastN<T>(s: seq<T>, n: nat): seq<T>
  {
    if |s| <= n then s else s[|s| - n..]
  }

  predicate OccursAt(s: string, t: string, i: int)
  {
    0 <= i <= |s| - |t| && s[i..i + |t|] == t
  }

  predicate Contains(s: string, t: string)
  {
    exists i :: 0 <= i <= |s| && OccursAt(s, t, i)
  }

  predicate MatchesFilter(e: Entry, f: Criteria)
  {
    && (f.client != "" ==> f.client <= e.clientIP)
    && (f.domain != "" ==> Contains(e.domain, f.domain))
    && (f.result != "" ==> e.result == f.result)
    && (f.qtype != "" ==> e.qtype == f.qtype)
    && (f.node != "" ==> e.nodeID == f.node)
    && (f.since != ZERO_TIME ==> f.since <= e.timestamp)
    && (f.until != ZERO_TIME ==> e.timestamp <= f.until)
  }

  function Matching(f: Criteria): Entry -> bool
  {
    (e: Entry) => MatchesFilter(e, f)
  }

  function Reversed<T>(s: seq<T>): (r: seq<T>)
    ensures |r| == |s| && forall i :: 0 <= i < |s| ==> r[i] == s[|s| - 1 - i]
  {
    if s == [] then [] else [s[|s| - 1]] + Reversed(s[..|s| - 1])
  }

  // All entries that match, newest first.
  function NewestFirst(log: seq<Entry>, f: Criteria): seq<Entry>
  {
    Reversed(Filter(log, Matching(f)))
  }

  function Limit(f: Criteria): (n: nat)
    ensures 0 < n <= MAX_LIMIT
  {
    if f.limit <= 0 then DEFAULT_LIMIT else if f.limit > MAX_LIMIT then MAX_LIMIT else f.limit
  }

  function Offset(f: Criteria): nat
  {
    if f.offset < 0 then 0 else f.offset
  }

  function PageOf(all: seq<Entry>, offset: nat, limit: nat): Page
  {
    if offset >= |all| then Page([], |all|, false)
    else Page(all[offset..if offset + limit > |all| then |all| else offset + limit], |all|, offset + limit < |all|)
  }

  function NewerThan(since: int): Entry -> bool
  {
    (e: Entry) => since == ZERO_TIME || e.timestamp > since
  }

  // What the slots of a ring hold, oldest first: once full, the oldest entry is at the head.
  function Window(slots: seq<Entry>, head: nat, count: nat): seq<Entry>
    requires head <= |slots| && count <= |slots|
  {
    if count < |slots| then slots[..count] else slots[head..] + slots[..head]
  }

  lemma WindowSize(slots: seq<Entry>, head: nat, count: nat)
    requires head <= |slots| && count <= |slots|
    ensures |Window(slots, head, count)| == count
  {
  }

  lemma AddToWindow(slots: seq<Entry>, head: nat, count: nat, x: Entry)
    requires head < |slots| && count <= |slots| && (count < |slots| ==> head == count)
    ensures (head + 1) % |slots| == if head + 1 < |slots| then head + 1 else 0
    ensures Window(slots[head := x], (head + 1) % |slots|, if count < |slots| then count + 1 else count)
         == (if count < |slots| then Window(slots, head, count) else Window(slots, head, count)[1..]) + [x]
  {
    var a, gone, b := slots[..head], slots[head], slots[head + 1..];
    assert slots == a + [gone] + b && slots[head := x] == a + [x] + b;
    hide Window;
    if count < |slots| {
      AddBelow(a, gone, b, x);
    } else {
      AddFull(a, gone, b, x);
      assert ([gone] + (b + a))[1..] == b + a;
    }
  }

  lemma AddBelow(a: seq<Entry>, gone: Entry, b: seq<Entry>, x: Entry)
    ensures Window(a + [gone] + b, |a|, |a|) == a
    ensures Window(a + [x] + b, if b == [] then 0 else |a| + 1, |a| + 1) == a + [x]
  {
    assert (a + [gone] + b)[..|a|] == a;
    assert (a + [x] + b)[..|a| + 1] == a + [x];
    if b == [] {
      assert a + [x] + b == a + [x];
      assert (a + [x])[0..] + (a + [x])[..0] == a + [x];
    }
  }

  lemma AddFull(a: seq<Entry>, gone: Entry, b: seq<Entry>, x: Entry)
    ensures Window(a + [gone] + b, |a|, |a| + 1 + |b|) == [gone] + (b + a)
    ensures Window(a + [x] + b, if b == [] then 0 else |a| + 1, |a| + 1 + |b|) == (b + a) + [x]
  {
    var slots, after := a + [gone] + b, a + [x] + b;
    assert slots[|a|..] == [gone] + b && slots[..|a|] == a;
    assert ([gone] + b) + a == [gone] + (b + a);
    assert after[|a| + 1..] == b && after[..|a| + 1] == a + [x];
    assert b + (a + [x]) == (b + a) + [x];
    if b == [] {
      assert after[0..] + after[..0] == after == a + [x];
      assert b + a == a;
    }
  }

  class RingBuffer {
    const entries: array<Entry>
    const capacity: nat
    var head: nat
    var count: nat
    ghost var log: seq<Entry> // everything ever added

    constructor (capacity: int)
      ensures Valid() && fresh(entries) && log == []
      ensures this.capacity == if capacity <= 0 then DEFAULT_CAPACITY else capacity
    {
      var n: nat := if capacity <= 0 then DEFAULT_CAPACITY else capacity;
      entries := new Entry[n];
      this.capacity, head, count, log := n, 0, 0, [];
    }

    // The buffered entries, oldest first.
    ghost function Ordered(): seq<Entry>
      requires head <= entries.Length && count <= entries.Length
      reads this, entries
    {
      Window(entries[..], head, count)
    }

    // The buffer holds the last entries of the log.
    ghost predicate Valid()
      reads this, entries
    {
      && 0 < capacity == entries.Length
      && head < capacity && count <= capacity && (count < capacity ==> head == count)
      && Ordered() == LastN(log, capacity)
    }

    method Add(entry: Entry)
      requires Valid()
      modifies this, entries
      ensures Valid() && log == old(log) + [entry]
    {
      hide Window, LastN;
      ghost var slots := entries[..];
      AddToWindow(slots, head, count, entry);
      AppendLastN(log, entry, capacity);
      WindowSize(slots, head, count);
      entries[head] := entry;
      assert entries[..] == slots[head := entry];
      log := log + [entry];
      head := (head + 1) % capacity;
      if count < capacity {
        count := count + 1;
      }
    }

    method InOrder() returns (ordered: seq<Entry>)
      requires Valid()
      ensures ordered == LastN(log, capacity)
    {
      assert count < capacity ==> entries[..][..count] == entries[..count];
      assert entries[..][head..] + entries[..][..head] == entries[head..] + entries[..head];
      if count < capacity {
        ordered := entries[..count];
      } else {
        ordered := entries[head..];
        ordered := ordered + entries[..head];
      }
    }

    method Query(f: Criteria) returns (page: Page)
      requires Valid()
      ensures page == PageOf(NewestFirst(LastN(log, capacity), f), Offset(f), Limit(f))
    {
      hide Filter, MatchesFilter;
      var ordered := InOrder();
      var filtered: seq<Entry> := [];
      var i := |ordered|;
      assert ordered[..i] == ordered;
      while 0 < i
        invariant 0 <= i <= |ordered|
        invariant filtered + Reversed(Filter(ordered[..i], Matching(f))) == NewestFirst(ordered, f)
      {
        i := i - 1;
        var e := ordered[i];
        FilterStep(ordered, i, Matching(f));
        ghost var older := Filter(ordered[..i], Matching(f));
        if !MatchesFilter(e, f) {
          assert older + [] == older;
          continue;
        }
        assert (older + [e])[..|older|] == older;
        assert filtered + ([e] + Reversed(older)) == (filtered + [e]) + Reversed(older);
        filtered := filtered + [e];
      }
      NothingOlder(ordered, f);
      assert filtered + [] == filtered;
      var total := |filtered|;
      var limit := f.limit;
      if limit <= 0 {
        limit := DEFAULT_LIMIT;
      }
      if limit > MAX_LIMIT {
        limit := MAX_LIMIT;
      }
      var offset := f.offset;
      if offset < 0 {
        offset := 0;
      }
      if offset >= total {
        return Page([], total, false);
      }
      var end := offset + limit;
      var hasMore := end < total;
      if end > total {
        end := total;
      }
      return Page(filtered[offset..end], total, hasMore);
    }

    // The newest entries since a time, at most max of them (all, when max is 0), oldest first.
    method Drain(since: int, max: int) returns (drained: seq<Entry>)
      requires Valid()
      ensures var newer := Filter(LastN(log, capacity), NewerThan(since));
              drained == if 0 < max then LastN(newer, max) else newer
    {
      hide Window, Filter, LastN;
      if count == 0 {
        WindowSize(entries[..], head, count);
        FilterNothing(LastN(log, capacity), NewerThan(since));
        LastOfNone(max);
        return [];
      }
      var ordered := InOrder();
      if since != ZERO_TIME {
        ordered := After(ordered, since);
      } else {
        FilterAll(ordered, NewerThan(since));
      }
      drained := Newest(ordered, max);
    }
  }

  lemma LastOfNone(n: int)
    ensures 0 < n ==> LastN<Entry>([], n) == []
  {
  }

  method Newest(ordered: seq<Entry>, max: int) returns (r: seq<Entry>)
    ensures r == if 0 < max then LastN(ordered, max) else ordered
  {
    r := ordered;
    if max > 0 && |ordered| > max {
      r := ordered[|ordered| - max..];
    }
  }

  method After(ordered: seq<Entry>, since: int) returns (filtered: seq<Entry>)
    requires since != ZERO_TIME
    ensures filtered == Filter(ordered, NewerThan(since))
  {
    filtered := [];
    for i := 0 to |ordered|
      invariant filtered == Filter(ordered[..i], NewerThan(since))
    {
      FilterStep(ordered, i, NewerThan(since));
      if ordered[i].timestamp > since {
        filtered := filtered + [ordered[i]];
      }
    }
    assert ordered[..|ordered|] == ordered;
  }

  lemma AppendLastN<T>(s: seq<T>, x: T, n: nat)
    requires 0 < n
    ensures |LastN(s, n)| < n ==> LastN(s + [x], n) == LastN(s, n) + [x]
    ensures |LastN(s, n)| == n ==> LastN(s + [x], n) == LastN(s, n)[1..] + [x]
  {
  }

  lemma NothingOlder(s: seq<Entry>, f: Criteria)
    ensures Reversed(Filter(s[..0], Matching(f))) == []
  {
    assert s[..0] == [];
  }

  // ---------- paging ----------

  // The first n pages of a given size, one after the other.
  function Pages(all: seq<Entry>, limit: nat, n: nat): seq<Entry>
  {
    if n == 0 then [] else Pages(all, limit, n - 1) + PageOf(all, (n - 1) * limit, limit).entries
  }

  // Pages that follow each other give the list from its beginning, with no gap and no
  // repetition; the last page is the first that has no more behind it.
  lemma {:induction false} PagesAreTheList(all: seq<Entry>, limit: nat, n: nat)
    requires 0 < limit
    ensures Pages(all, limit, n) == all[..if n * limit < |all| then n * limit else |all|]
    ensures 0 < n && !PageOf(all, (n - 1) * limit, limit).hasMore ==> Pages(all, limit, n) == all
    ensures 0 < n && PageOf(all, (n - 1) * limit, limit).hasMore ==> |Pages(all, limit, n)| == n * limit < |all|
  {
    if 0 < n {
      PagesAreTheList(all, limit, n - 1);
      var from := (n - 1) * limit;
      assert n * limit == from + limit;
      if from < |all| {
        var to := if from + limit > |all| then |all| else from + limit;
        assert all[..from] + all[from..to] == all[..to];
      }
      assert all[..|all|] == all;
    }
  }

  // ---------- what a query finds ----------

  // An empty criterion holds of every entry; the client is given by the beginning of its
  // address, the domain by any part of it, the times bound from both sides inclusively.
  ghost predicate Meets(e: Entry, f: Criteria)
  {
    && (f.client == "" || exists rest :: e.clientIP == f.client + rest)
    && (f.domain == "" || exists before, behind :: e.domain == before + f.domain + behind)
    && f.result in ["", e.result] && f.qtype in ["", e.qtype] && f.node in ["", e.nodeID]
    && (f.since == 0 || f.since <= e.timestamp) && (f.until == 0 || e.timestamp <= f.until)
  }

  lemma MeetsExactly(e: Entry, f: Criteria)
    ensures MatchesFilter(e, f) <==> Meets(e, f)
  {
    StartsExactly(e.clientIP, f.client);
    ContainsExactly(e.domain, f.domain);
    hide Contains;
  }

  lemma StartsExactly(s: string, t: string)
    ensures t <= s <==> exists rest :: s == t + rest
  {
    if t <= s {
      assert s == t + s[|t|..];
    }
  }

  lemma ContainsExactly(s: string, t: string)
    ensures Contains(s, t) <==> exists before, behind :: s == before + t + behind
  {
    if Contains(s, t) {
      var i :| 0 <= i <= |s| && OccursAt(s, t, i);
      assert s == s[..i] + s[i..i + |t|] + s[i + |t|..];
    }
    if before, behind :| s == before + t + behind {
      assert OccursAt(s, t, |before|);
    }
  }

  // ks are the positions in the log of what was found: all that meet the criteria, and from
  // the newest back.
  ghost predicate FoundAt(log: seq<Entry>, f: Criteria, found: seq<Entry>, ks: seq<nat>)
  {
    && |ks| == |found| && (forall a :: 0 <= a < |ks| ==> ks[a] < |log| && found[a] == log[ks[a]])
    && (forall a, b :: 0 <= a < b < |ks| ==> ks[b] < ks[a])
    && forall k: nat :: k < |log| ==> (k in ks <==> Meets(log[k], f))
  }

  lemma {:induction false} FoundNewestFirst(log: seq<Entry>, f: Criteria) returns (ks: seq<nat>)
    ensures FoundAt(log, f, NewestFirst(log, f), ks)
  {
    if log == [] {
      ks := [];
    } else {
      var n := |log| - 1;
      ks := FoundNewestFirst(log[..n], f);
      NewestStep(log, f);
      hide NewestFirst, FoundAt, Meets;
      FoundInLonger(log, f, NewestFirst(log[..n], f), ks);
      if Meets(log[n], f) {
        FoundOneMore(log, f, NewestFirst(log[..n], f), ks);
        ks := [n] + ks;
      }
    }
  }

  lemma NewestStep(log: seq<Entry>, f: Criteria)
    requires log != []
    ensures var e, older := log[|log| - 1], NewestFirst(log[..|log| - 1], f);
            NewestFirst(log, f) == if Meets(e, f) then [e] + older else older
  {
    var n := |log| - 1;
    FilterStep(log, n, Matching(f));
    MeetsExactly(log[n], f);
    hide Filter, Meets, MatchesFilter;
    assert log[..n + 1] == log;
    var older := Filter(log[..n], Matching(f));
    assert (older + [log[n]])[..|older|] == older;
    assert older + [] == older;
  }

  // Found before the last entry, with that one not looked at yet.
  ghost predicate FoundBefore(log: seq<Entry>, f: Criteria, found: seq<Entry>, ks: seq<nat>)
    requires log != []
  {
    && |ks| == |found| && (forall a :: 0 <= a < |ks| ==> ks[a] < |log| - 1 && found[a] == log[ks[a]])
    && (forall a, b :: 0 <= a < b < |ks| ==> ks[b] < ks[a])
    && forall k: nat :: k < |log| - 1 ==> (k in ks <==> Meets(log[k], f))
  }

  lemma FoundInLonger(log: seq<Entry>, f: Criteria, older: seq<Entry>, ks: seq<nat>)
    requires log != [] && FoundAt(log[..|log| - 1], f, older, ks)
    ensures FoundBefore(log, f, older, ks) && (!Meets(log[|log| - 1], f) ==> FoundAt(log, f, older, ks))
  {
    hide Meets;
    var n := |log| - 1;
    assert forall k: nat :: k < n ==> log[..n][k] == log[k];
    forall a | 0 <= a < |ks|
      ensures ks[a] < n && older[a] == log[ks[a]]
    {
      assert older[a] == log[..n][ks[a]];
    }
  }

  lemma FoundOneMore(log: seq<Entry>, f: Criteria, older: seq<Entry>, ks: seq<nat>)
    requires log != [] && FoundBefore(log, f, older, ks) && Meets(log[|log| - 1], f)
    ensures FoundAt(log, f, [log[|log| - 1]] + older, [|log| - 1] + ks)
  {
    hide Meets;
    var n := |log| - 1;
    var all := [n] + ks;
    forall k: nat
      ensures k in all <==> k == n || k in ks
    {
      assert all[0] == n && all[1..] == ks;
    }
  }

  // A page has at most 1000 entries, 100 when not told how many, and begins at the offset.
  // It is the stretch of the found entries there, with the number of all of them.
  lemma PageExactly(all: seq<Entry>, f: Criteria)
    ensures var page, from := PageOf(all, Offset(f), Limit(f)), Offset(f);
            && from == (if 0 < f.offset then f.offset else 0)
            && Limit(f) == (if f.limit <= 0 then 100 else if f.limit < 1000 then f.limit else 1000)
            && page.total == |all| && (page.hasMore <==> from + Limit(f) < |all|)
            && |page.entries| == (if |all| <= from then 0 else if |all| - from < Limit(f) then |all| - from else Limit(f))
            && forall i :: 0 <= i < |page.entries| ==> page.entries[i] == all[from + i]
  {
  }

  // From the zero time on all entries count as newer, from any other those stamped after it.
  lemma NewerExactly(log: seq<Entry>, since: int)
    ensures Filter(log, NewerThan(0)) == log
    ensures since != 0 ==> Filter(log, NewerThan(since)) == Filter(log, (e: Entry) => since < e.timestamp)
  {
    FilterAll(log, NewerThan(0));
    FilterSame(log, NewerThan(since), if since == 0 then NewerThan(0) else (e: Entry) => since < e.timestamp);
  }

  // The buffer keeps the last entries, 5000 unless told otherwise, and a push takes at most
  // the last 1000.
  lemma LastExactly(s: seq<Entry>, n: nat)
    ensures |LastN(s, n)| == (if |s| < n then |s| else n) && exists gone :: s == gone + LastN(s, n)
    ensures MAX_PUSH == 1000 && DEFAULT_CAPACITY == 5000
  {
    if n < |s| {
      assert s == s[..|s| - n] + s[|s| - n..];
    } else {
      assert s == [] + s;
    }
  }

  // ---------- pushing ----------

  // Time stamps never go back, and come after the zero time. They may tie.
  ghost predicate Stamped(log: seq<Entry>)
  {
    (forall i :: 0 <= i < |log| ==> ZERO_TIME < log[i].timestamp) &&
    forall i, j :: 0 <= i < j < |log| ==> log[i].timestamp <= log[j].timestamp
  }

  // How much of the log a push time covers: everything before the newer entries at its end.
  function Covered(log: seq<Entry>, last: int): (n: nat)
    ensures n <= |log|
  {
    if log != [] && NewerThan(last)(log[|log| - 1]) then Covered(log[..|log| - 1], last) else |log|
  }

  lemma {:induction false} CoveredSplits(log: seq<Entry>, last: int, i: nat)
    requires Stamped(log) && i < |log|
    ensures NewerThan(last)(log[i]) <==> Covered(log, last) <= i
  {
    var n := |log| - 1;
    if NewerThan(last)(log[n]) && i < n {
      assert Stamped(log[..n]);
      CoveredSplits(log[..n], last, i);
    }
  }

  // What a push time covers beyond what was sent are the entries that tie with the last one
  // sent; there are none exactly if the next entry is newer.
  lemma TiesAreCovered(log: seq<Entry>, sent: nat, last: int)
    requires Stamped(log) && Caught(log, sent, last)
    ensures sent <= Covered(log, last)
    ensures forall i :: sent <= i < Covered(log, last) ==> 0 < sent && log[i].timestamp == log[sent - 1].timestamp
    ensures Covered(log, last) == sent <==> sent == |log| || log[sent].timestamp != last
  {
    forall i | 0 <= i < |log|
      ensures NewerThan(last)(log[i]) <==> Covered(log, last) <= i
    {
      CoveredSplits(log, last, i);
    }
    hide Covered;
  }

  function Max(a: int, b: int): int
  {
    if a < b then b else a
  }

  // Where the next push begins: behind what the last one covers, inside the buffer, and no
  // more than fits into one push.
  function PushFrom(length: nat, covered: nat, capacity: nat): nat
  {
    Max(covered, Max(length - capacity, length - MAX_PUSH))
  }

  // The log has been pushed up to sent, and the last push time says so.
  ghost predicate Caught(log: seq<Entry>, sent: nat, last: int)
  {
    sent <= |log| && last == if sent == 0 then ZERO_TIME else log[sent - 1].timestamp
  }

  lemma CaughtStays(log: seq<Entry>, e: Entry, sent: nat, last: int)
    requires Stamped(log) ==> Caught(log, sent, last)
    ensures Stamped(log + [e]) ==> Stamped(log) && Caught(log + [e], sent, last)
  {
    var all := log + [e];
    if Stamped(all) {
      forall i, j | 0 <= i < j < |log|
        ensures log[i].timestamp <= log[j].timestamp
      {
        assert all[i].timestamp <= all[j].timestamp;
      }
      forall i | 0 <= i < |log|
        ensures ZERO_TIME < log[i].timestamp
      {
        assert ZERO_TIME < all[i].timestamp;
      }
    }
  }

  class QueryLogger {
    const ring: RingBuffer
    const nodeID: string
    const channelSize: nat
    var ch: seq<Entry>
    var lastPushTime: int
    ghost var sent: nat            // the log up to here has been pushed, or lost before a push
    ghost var delivered: seq<nat>  // the positions in the log of all entries delivered

    constructor (nodeID: string, capacity: int, channelSize: nat)
      ensures Valid() && fresh(ring) && fresh(ring.entries) && ring.log == [] && ch == [] && sent == 0 && delivered == []
    {
      ring := new RingBuffer(capacity);
      this.nodeID, this.channelSize := nodeID, channelSize;
      ch, lastPushTime, sent, delivered := [], ZERO_TIME, 0, [];
    }

    ghost predicate Valid()
      reads this, ring, ring.entries
    {
      && ring.Valid() && |ch| <= channelSize
      && (Stamped(ring.log) ==> Caught(ring.log, sent, lastPushTime) && Once(delivered, sent))
    }

    // Never blocks: with the channel full the entry is dropped.
    method Log(entry: Entry)
      requires Valid()
      modifies `ch
      ensures Valid() && ch == if |old(ch)| < channelSize then old(ch) + [entry.(nodeID := nodeID)] else old(ch)
    {
      var stamped := entry.(nodeID := nodeID);
      if |ch| < channelSize {
        ch := ch + [stamped];
      }
    }

    method Receive()
      requires Valid() && ch != []
      modifies `ch, ring, ring.entries
      ensures Valid() && ring.log == old(ring.log) + [old(ch)[0]] && ch == old(ch)[1..]
    {
      hide Stamped, Caught, Once;
      CaughtStays(ring.log, ch[0], sent, lastPushTime);
      ring.Add(ch[0]);
      ch := ch[1..];
    }

    method DrainChannel()
      requires Valid()
      modifies `ch, ring, ring.entries
      ensures Valid() && ring.log == old(ring.log) + old(ch) && ch == []
    {
      while |ch| > 0
        invariant Valid() && ring.log + ch == old(ring.log) + old(ch)
      {
        assert ch == [ch[0]] + ch[1..];
        Receive();
      }
    }

    method AddEntries(added: seq<Entry>)
      requires Valid()
      modifies ring, ring.entries
      ensures Valid() && ring.log == old(ring.log) + added
    {
      hide Stamped, Caught, Once, Window, LastN;
      for i := 0 to |added|
        invariant Valid() && ring.log == old(ring.log) + added[..i]
      {
        CaughtStays(ring.log, added[i], sent, lastPushTime);
        assert added[..i + 1] == added[..i] + [added[i]];
        ring.Add(added[i]);
      }
    }

    // pushOk is what the push to the master returns. A failed push changes nothing, so the
    // next one starts from the same time. With time stamps that never go back, a successful
    // push delivers, in order and for the first time, the newest entries (at most 1000) that
    // are buffered and not covered by the last push time; an entry that ties with the last one
    // sent is covered and never delivered.
    method DoPush(pushOk: bool) returns (pushed: seq<Entry>)
      requires Valid()
      modifies `lastPushTime, `sent, `delivered
      ensures Valid()
      ensures pushed == LastN(Filter(LastN(ring.log, ring.capacity), NewerThan(old(lastPushTime))), MAX_PUSH)
      ensures lastPushTime == if pushed != [] && pushOk then pushed[|pushed| - 1].timestamp else old(lastPushTime)
      ensures Stamped(ring.log) ==>
                var from := PushFrom(|ring.log|, Covered(ring.log, old(lastPushTime)), ring.capacity);
                && old(sent) <= from <= |ring.log| && pushed == ring.log[from..]
                && sent == (if pushed != [] && pushOk then |ring.log| else old(sent))
                && delivered == (if pushed != [] && pushOk then old(delivered) + Positions(from, |ring.log|) else old(delivered))
    {
      hide Filter, LastN, Window, Once, Stamped;
      pushed := ring.Drain(lastPushTime, MAX_PUSH);
      ghost var covered := Covered(ring.log, lastPushTime);
      if Stamped(ring.log) {
        TiesAreCovered(ring.log, sent, lastPushTime);
        DrainedFrom(ring.log, ring.capacity, lastPushTime);
      }
      if |pushed| == 0 {
        return;
      }
      if !pushOk {
        return;
      }
      lastPushTime := pushed[|pushed| - 1].timestamp;
      if Stamped(ring.log) {
        ghost var from := PushFrom(|ring.log|, covered, ring.capacity);
        OnceMore(delivered, sent, from, |ring.log|);
        sent, delivered := |ring.log|, delivered + Positions(from, |ring.log|);
      }
    }
  }

  // In order and without repetition, all before the bound.
  ghost predicate Once(positions: seq<nat>, bound: nat)
  {
    && (forall i :: 0 <= i < |positions| ==> positions[i] < bound)
    && forall i, j :: 0 <= i < j < |positions| ==> positions[i] < positions[j]
  }

  ghost function Positions(from: nat, to: nat): (r: seq<nat>)
    requires from <= to
    ensures |r| == to - from && forall i :: 0 <= i < |r| ==> r[i] == from + i
  {
    seq(to - from, i requires 0 <= i < to - from => from + i)
  }

  lemma OnceMore(positions: seq<nat>, sent: nat, from: nat, to: nat)
    requires Once(positions, sent) && sent <= from <= to
    ensures Once(positions + Positions(from, to), to)
  {
  }

  // Of a log stamped in order, the entries newer than a time are those it does not cover.
  lemma DrainedFrom(log: seq<Entry>, capacity: nat, last: int)
    requires Stamped(log) && 0 < capacity
    ensures PushFrom(|log|, Covered(log, last), capacity) <= |log|
    ensures LastN(Filter(LastN(log, capacity), NewerThan(last)), MAX_PUSH)
         == log[PushFrom(|log|, Covered(log, last), capacity)..]
  {
    hide Stamped, Filter, Covered;
    var start := Max(|log| - capacity, 0);
    assert LastN(log, capacity) == log[start..];
    NewerInWindow(log, start, last);
    var from := Max(start, Covered(log, last));
    assert LastN(log[from..], MAX_PUSH) == log[Max(from, |log| - MAX_PUSH)..];
  }

  lemma NewerInWindow(log: seq<Entry>, start: nat, last: int)
    requires Stamped(log) && start <= |log|
    ensures Filter(log[start..], NewerThan(last)) == log[Max(start, Covered(log, last))..]
  {
    hide Filter, Covered;
    var from := Max(start, Covered(log, last));
    var known, unsent := log[start..from], log[from..];
    assert log[start..] == known + unsent;
    forall i | 0 <= i < |known|
      ensures !NewerThan(last)(known[i])
    {
      CoveredSplits(log, last, start + i);
    }
    forall i | 0 <= i < |unsent|
      ensures NewerThan(last)(unsent[i])
    {
      CoveredSplits(log, last, from + i);
    }
    NewerParts(known, unsent, last);
  }

  lemma NewerParts(known: seq<Entry>, unsent: seq<Entry>, last: int)
    requires forall i :: 0 <= i < |known| ==> !NewerThan(last)(known[i])
    requires forall i :: 0 <= i < |unsent| ==> NewerThan(last)(unsent[i])
    ensures Filter(known + unsent, NewerThan(last)) == unsent
  {
    hide Filter;
    FilterConcat(known, unsent, NewerThan(last));
    FilterNothing(known, NewerThan(last));
    FilterAll(unsent, NewerThan(last));
    assert [] + unsent == unsent;
  }
}
