/** What the answer cache promises, on a plain timestamped map: no heap, no pointers. */
module CacheSpec {
  import opened Common
  import opened DnsMessage

  const SECOND: int := 1_000_000_000 // clock readings and TTLs are in nanoseconds

  datatype Cell = Cell(response: Msg, expiresAt: int, cachedAt: int, accessTime: int)
  type View = map<string, Cell>

  datatype Config = Config(maxEntries: nat, defaultTTL: int, negativeTTL: int)

  // ---------- lifetimes ----------

  ghost predicate IsMinTtl(rrs: seq<RR>, m: nat)
  {
    (exists i :: 0 <= i < |rrs| && rrs[i].ttl == m) && forall i :: 0 <= i < |rrs| ==> m <= rrs[i].ttl
  }

  function MinTtl(rrs: seq<RR>): u32
    requires rrs != []
  {
    var last := rrs[|rrs| - 1].ttl;
    if |rrs| == 1 then last
    else
      var rest := MinTtl(rrs[..|rrs| - 1]);
      if last < rest then last else rest
  }

  lemma {:induction false} MinTtlIsLeast(rrs: seq<RR>)
    requires rrs != []
    ensures IsMinTtl(rrs, MinTtl(rrs))
  {
    var n := |rrs| - 1;
    assert rrs[n].ttl == rrs[n].ttl;
    if 0 < n {
      MinTtlIsLeast(rrs[..n]);
      assert forall i :: 0 <= i < n ==> rrs[..n][i] == rrs[i];
    }
  }

  // A positive answer lives for its smallest TTL, except that a zero TTL stands for "not given".
  function Lifetime(cfg: Config, m: Msg): int
  {
    if m.rcode != RCODE_SUCCESS || m.answer == [] then cfg.negativeTTL
    else if MinTtl(m.answer) == 0 then cfg.defaultTTL
    else MinTtl(m.answer) * SECOND
  }

  // In particular: failures and empty answers live as long as configured for them, an answer
  // with a zero TTL as long as configured for those, any other until its first record runs out.
  lemma LifetimeOfEachKind(cfg: Config, m: Msg)
    ensures m.rcode != 0 || |m.answer| == 0 ==> Lifetime(cfg, m) == cfg.negativeTTL
    ensures m.rcode == 0 && (exists i :: 0 <= i < |m.answer| && m.answer[i].ttl == 0) ==> Lifetime(cfg, m) == cfg.defaultTTL
    ensures m.rcode == 0 && 0 < |m.answer| && (forall i :: 0 <= i < |m.answer| ==> 0 < m.answer[i].ttl) ==>
              && (forall i :: 0 <= i < |m.answer| ==> Lifetime(cfg, m) <= m.answer[i].ttl * 1_000_000_000)
              && exists i :: 0 <= i < |m.answer| && Lifetime(cfg, m) == m.answer[i].ttl * 1_000_000_000
  {
    if m.answer != [] {
      MinTtlIsLeast(m.answer);
    }
    hide MinTtl;
  }

  // ---------- aging ----------

  function AgedRR(rr: RR, elapsed: nat): RR
  {
    if rr.rrtype == OPT then rr
    else if rr.ttl > elapsed then rr.(ttl := rr.ttl - elapsed)
    else rr.(ttl := 1)
  }

  function AgedSection(rrs: seq<RR>, elapsed: nat): (r: seq<RR>)
    ensures |r| == |rrs| && forall i :: 0 <= i < |rrs| ==> r[i] == AgedRR(rrs[i], elapsed)
  {
    seq(|rrs|, i requires 0 <= i < |rrs| => AgedRR(rrs[i], elapsed))
  }

  function Aged(m: Msg, elapsed: nat): Msg
  {
    if elapsed == 0 then m
    else m.(answer := AgedSection(m.answer, elapsed), ns := AgedSection(m.ns, elapsed), extra := AgedSection(m.extra, elapsed))
  }

  function WholeSeconds(since: int, until: int): nat
    requires since <= until
  {
    (until - since) / SECOND
  }

  // The client never sees a record outlive its original TTL by more than a second, exactly
  // as long as the copy is stamped less than a second after the end of the lifetime.
  // (The expiry check and the stamping read the clock separately.)
  lemma AgingStaysWithinOneSecond(cfg: Config, m: Msg, cachedAt: int, now: int)
    requires m.rcode == RCODE_SUCCESS && m.answer != [] && cachedAt <= now
    requires forall i :: 0 <= i < |m.answer| ==> 0 < m.answer[i].ttl && m.answer[i].rrtype != OPT
    ensures var elapsed := WholeSeconds(cachedAt, now);
            (forall i :: 0 <= i < |m.answer| ==>
              |Aged(m, elapsed).answer| == |m.answer| && Aged(m, elapsed).answer[i].ttl + elapsed <= m.answer[i].ttl + 1)
            <==> now < cachedAt + Lifetime(cfg, m) + SECOND
  {
    var elapsed := WholeSeconds(cachedAt, now);
    var least := MinTtl(m.answer);
    MinTtlIsLeast(m.answer);
    var k :| 0 <= k < |m.answer| && m.answer[k].ttl == least;
    assert elapsed <= least <==> now - cachedAt < least * SECOND + SECOND;
    assert elapsed > least ==> Aged(m, elapsed).answer[k] == AgedRR(m.answer[k], elapsed);
  }

  // ---------- the operations ----------

  function GetView(v: View, key: string, checked: int, touched: int): View
  {
    if key !in v then v
    else if checked > v[key].expiresAt then v - {key}
    else v[key := v[key].(accessTime := touched)]
  }

  predicate Hit(v: View, key: string, checked: int)
  {
    key in v && checked <= v[key].expiresAt
  }

  function GetAnswer(v: View, key: string, checked: int, stamped: int): Option<Msg>
    requires key in v ==> v[key].cachedAt <= stamped
  {
    if Hit(v, key, checked)
    then Some(Aged(v[key].response, WholeSeconds(v[key].cachedAt, stamped)))
    else None
  }

  // What a cached record reads like so many whole seconds later: a pseudo record as it was,
  // any other with the seconds taken off its TTL, but never less than one left.
  ghost predicate AgesTo(rr: RR, later: RR, seconds: nat)
  {
    if rr.rrtype == OPT || seconds == 0 then later == rr
    else
      && later.name == rr.name && later.rrtype == rr.rrtype && later.data == rr.data
      && if seconds < rr.ttl then later.ttl + seconds == rr.ttl else later.ttl == 1
  }

  ghost predicate SectionAges(rrs: seq<RR>, later: seq<RR>, seconds: nat)
  {
    |later| == |rrs| && forall i :: 0 <= i < |rrs| ==> AgesTo(rrs[i], later[i], seconds)
  }

  ghost predicate MessageAges(m: Msg, later: Msg, seconds: nat)
  {
    && later.rcode == m.rcode && SectionAges(m.answer, later.answer, seconds)
    && SectionAges(m.ns, later.ns, seconds) && SectionAges(m.extra, later.extra, seconds)
  }

  // A hit gives the stored message, every record of every section aged by the whole seconds
  // since it was stored.
  lemma HitIsAged(v: View, key: string, checked: int, stamped: int)
    requires Hit(v, key, checked) && v[key].cachedAt <= stamped
    ensures GetAnswer(v, key, checked, stamped).Some?
    ensures MessageAges(v[key].response, GetAnswer(v, key, checked, stamped).value, (stamped - v[key].cachedAt) / 1_000_000_000)
  {
    var m := v[key].response;
    SectionAged(m.answer, WholeSeconds(v[key].cachedAt, stamped));
    SectionAged(m.ns, WholeSeconds(v[key].cachedAt, stamped));
    SectionAged(m.extra, WholeSeconds(v[key].cachedAt, stamped));
  }

  lemma SectionAged(rrs: seq<RR>, seconds: nat)
    ensures SectionAges(rrs, if seconds == 0 then rrs else AgedSection(rrs, seconds), seconds)
  {
  }

  predicate Oldest(v: View, key: string)
  {
    key in v && forall k :: k in v ==> v[key].accessTime <= v[k].accessTime
  }

  function Stored(cfg: Config, m: Msg, now: int): Cell
  {
    Cell(m, now + Lifetime(cfg, m), now, now)
  }

  // Set on a full cache drops one least recently used entry; which of several equally
  // old ones is left open.
  ghost predicate SetStep(cfg: Config, v: View, key: string, m: Msg, now: int, v': View)
  {
    if Lifetime(cfg, m) == 0 then v' == v
    else if key in v || |v| < cfg.maxEntries then v' == v[key := Stored(cfg, m, now)]
    else exists victim :: Oldest(v, victim) && v' == (v - {victim})[key := Stored(cfg, m, now)]
  }

  function CleanView(v: View, now: int): View
  {
    map k | k in v && now <= v[k].expiresAt :: v[k]
  }

  // Cleaning with the keys still to visit left in place.
  function PartlyClean(v: View, todo: set<string>, now: int): View
  {
    map k | k in v && (k in todo || now <= v[k].expiresAt) :: v[k]
  }

  lemma PartlyCleanSteps(v: View, todo: set<string>, key: string, now: int)
    requires key in todo && todo <= v.Keys
    ensures var w := PartlyClean(v, todo, now);
            PartlyClean(v, todo - {key}, now) == if now > v[key].expiresAt then w - {key} else w
  {
  }

  lemma PartlyCleanEnds(v: View, now: int)
    ensures PartlyClean(v, v.Keys, now) == v && PartlyClean(v, {}, now) == CleanView(v, now)
  {
  }

  // Evicting and then storing is what Set promises on a full cache.
  lemma EvictThenStore(cfg: Config, v: View, between: View, key: string, m: Msg, now: int)
    requires Lifetime(cfg, m) != 0 && key !in v
    requires if |v| < cfg.maxEntries then between == v
             else exists victim :: Oldest(v, victim) && between == v - {victim}
    ensures SetStep(cfg, v, key, m, now, between[key := Stored(cfg, m, now)])
  {
  }

  // Storing under a key that is there already evicts nothing.
  lemma StoreAgain(cfg: Config, v: View, key: string, m: Msg, now: int)
    requires Lifetime(cfg, m) != 0 && key in v
    ensures SetStep(cfg, v, key, m, now, v[key := Cell(m, now + Lifetime(cfg, m), now, now)])
  {
  }

  lemma StoreNothing(cfg: Config, v: View, key: string, m: Msg, now: int)
    requires Lifetime(cfg, m) == 0
    ensures SetStep(cfg, v, key, m, now, v)
  {
  }

  // ---------- whole runs ----------

  datatype Op =
    | Get(key: string, checked: int, touched: int, stamped: int)
    | Set(key: string, m: Msg, now: int)
    | Delete(key: string)
    | Clean(now: int)
    | Flush

  ghost predicate Step(cfg: Config, v: View, op: Op, v': View)
  {
    match op
    case Get(key, checked, touched, _) => v' == GetView(v, key, checked, touched)
    case Set(key, m, now) => SetStep(cfg, v, key, m, now, v')
    case Delete(key) => v' == v - {key}
    case Clean(now) => v' == CleanView(v, now)
    case Flush => v' == map[]
  }

  ghost predicate StepAt(cfg: Config, ops: seq<Op>, views: seq<View>, i: nat)
    requires i < |ops| && |views| == |ops| + 1
  {
    Step(cfg, views[i], ops[i], views[i + 1])
  }

  // views[i] is the cache before ops[i]; the run starts with an empty cache.
  ghost predicate Run(cfg: Config, ops: seq<Op>, views: seq<View>)
  {
    && 0 < cfg.maxEntries
    && |views| == |ops| + 1
    && views[0] == map[]
    && forall i :: 0 <= i < |ops| ==> StepAt(cfg, ops, views, i)
  }

  // Operation i stored something under key.
  predicate Stores(cfg: Config, op: Op, key: string)
  {
    op.Set? && op.key == key && Lifetime(cfg, op.m) != 0
  }

  // Operation i used key: it stored it, or read it while it was alive.
  predicate Uses(cfg: Config, v: View, op: Op, key: string)
  {
    Stores(cfg, op, key) || (op.Get? && op.key == key && Hit(v, key, op.checked))
  }

  function UseTime(op: Op): int
    requires op.Set? || op.Get?
  {
    if op.Set? then op.now else op.touched
  }

  // Its deletion, a flush, and a cleaning or a read after its time take a key out.
  predicate TakesOut(v: View, op: Op, key: string)
    requires key in v
  {
    || (op.Delete? && op.key == key) || op.Flush?
    || (op.Clean? && v[key].expiresAt < op.now)
    || (op.Get? && op.key == key && v[key].expiresAt < op.checked)
  }

  // Nothing else does, but that a least recently used key goes when another one finds the
  // cache full.
  lemma LeavesOnlyBy(cfg: Config, v: View, op: Op, v': View, key: string)
    requires Step(cfg, v, op, v') && key in v
    ensures TakesOut(v, op, key) ==> key !in v'
    ensures key !in v' && !TakesOut(v, op, key) ==>
              && op.Set? && op.key !in v && Lifetime(cfg, op.m) != 0 && cfg.maxEntries <= |v|
              && forall k :: k in v ==> v[key].accessTime <= v[k].accessTime
  {
    if op.Set? && key !in v' {
      assert forall victim :: Oldest(v, victim) && v' == (v - {victim})[op.key := Stored(cfg, op.m, op.now)] ==> victim == key;
    }
  }

  // A key comes in, or is replaced, by a Set with a lifetime and by nothing else.
  lemma ComesOnlyBySet(cfg: Config, v: View, op: Op, v': View, key: string)
    requires Step(cfg, v, op, v')
    ensures op.Set? && op.key == key && Lifetime(cfg, op.m) != 0 ==>
              key in v' && v'[key] == Cell(op.m, op.now + Lifetime(cfg, op.m), op.now, op.now)
    ensures key in v' && (key !in v || v'[key].response != v[key].response || v'[key].expiresAt != v[key].expiresAt) ==>
              op.Set? && op.key == key && Lifetime(cfg, op.m) != 0
  {
    if op.Set? && op.key != key && key !in v {
      assert forall victim :: key !in (v - {victim})[op.key := Stored(cfg, op.m, op.now)];
    }
  }

  // s is the last operation before i that stored key, and key has been resident ever since.
  ghost predicate LiveSince(cfg: Config, ops: seq<Op>, views: seq<View>, key: string, s: nat, i: nat)
    requires i <= |ops| && |views| == |ops| + 1
  {
    && s < i && Stores(cfg, ops[s], key)
    && (forall j :: s < j < i ==> !Stores(cfg, ops[j], key))
    && (forall j :: s < j <= i ==> key in views[j])
  }

  ghost predicate LastUse(cfg: Config, ops: seq<Op>, views: seq<View>, key: string, u: nat, i: nat)
    requires i <= |ops| && |views| == |ops| + 1
  {
    && u < i && Uses(cfg, views[u], ops[u], key)
    && forall j :: u < j < i ==> !Uses(cfg, views[j], ops[j], key)
  }

  lemma SwapOneSize(v: View, gone: string, key: string, c: Cell)
    requires gone in v && key !in v
    ensures |(v - {gone})[key := c]| == |v|
  {
    var rest := v - {gone};
    assert v.Keys == rest.Keys + {gone};
    assert rest[key := c].Keys == rest.Keys + {key};
  }

  lemma AddOneSize(v: View, key: string, c: Cell)
    ensures |v[key := c]| == |v| + if key in v then 0 else 1
  {
    assert v[key := c].Keys == v.Keys + {key};
  }

  lemma StepSize(cfg: Config, v: View, op: Op, v': View)
    requires Step(cfg, v, op, v') && |v| <= cfg.maxEntries && 0 < cfg.maxEntries
    ensures |v'| <= cfg.maxEntries
  {
    if !op.Set? {
      KeysShrink(v, v');
    } else if Lifetime(cfg, op.m) != 0 {
      var cell := Stored(cfg, op.m, op.now);
      if op.key !in v && |v| >= cfg.maxEntries {
        var victim :| Oldest(v, victim) && v' == (v - {victim})[op.key := cell];
        SwapOneSize(v, victim, op.key, cell);
      } else {
        AddOneSize(v, op.key, cell);
      }
    }
  }

  lemma {:induction false} SizeBound(cfg: Config, ops: seq<Op>, views: seq<View>, i: nat)
    requires Run(cfg, ops, views) && i <= |ops|
    ensures |views[i]| <= cfg.maxEntries
  {
    if 0 < i {
      SizeBound(cfg, ops, views, i - 1);
      assert StepAt(cfg, ops, views, i - 1);
      StepSize(cfg, views[i - 1], ops[i - 1], views[i]);
    }
  }

  lemma KeysShrink(v: View, v': View)
    requires v'.Keys <= v.Keys
    ensures |v'| <= |v|
  {
    assert v.Keys == v'.Keys + (v.Keys - v'.Keys);
  }

  predicate StoredBy(cfg: Config, c: Cell, op: Op)
  {
    op.Set? && c.response == op.m && c.cachedAt == op.now && c.expiresAt == op.now + Lifetime(cfg, op.m)
  }

  // One operation as seen by a key that is resident afterwards.
  lemma StepOnKey(cfg: Config, v: View, op: Op, v': View, key: string)
    requires Step(cfg, v, op, v') && key in v'
    ensures Stores(cfg, op, key) ==> StoredBy(cfg, v'[key], op)
    ensures !Stores(cfg, op, key) ==> key in v && forall o :: StoredBy(cfg, v[key], o) ==> StoredBy(cfg, v'[key], o)
    ensures v'[key].accessTime == if Uses(cfg, v, op, key) then UseTime(op) else v[key].accessTime
  {
    if op.Set? && !Stores(cfg, op, key) && key != op.key && Lifetime(cfg, op.m) != 0 && op.key !in v && |v| >= cfg.maxEntries {
      var victim :| Oldest(v, victim) && v' == (v - {victim})[op.key := Stored(cfg, op.m, op.now)];
    }
  }

  // Every resident entry is the one its last Set stored, kept without interruption.
  lemma {:induction false} ResidentIsLastStored(cfg: Config, ops: seq<Op>, views: seq<View>, key: string, i: nat)
      returns (s: nat)
    requires Run(cfg, ops, views) && i <= |ops| && key in views[i]
    ensures LiveSince(cfg, ops, views, key, s, i)
    ensures StoredBy(cfg, views[i][key], ops[s])
  {
    assert StepAt(cfg, ops, views, i - 1);
    StepOnKey(cfg, views[i - 1], ops[i - 1], views[i], key);
    if Stores(cfg, ops[i - 1], key) {
      s := i - 1;
    } else {
      s := ResidentIsLastStored(cfg, ops, views, key, i - 1);
    }
  }

  // Its access time is the time of its last use.
  lemma {:induction false} ResidentUsedLast(cfg: Config, ops: seq<Op>, views: seq<View>, key: string, i: nat)
      returns (u: nat)
    requires Run(cfg, ops, views) && i <= |ops| && key in views[i]
    ensures LastUse(cfg, ops, views, key, u, i) && views[i][key].accessTime == UseTime(ops[u])
  {
    assert StepAt(cfg, ops, views, i - 1);
    StepOnKey(cfg, views[i - 1], ops[i - 1], views[i], key);
    if Uses(cfg, views[i - 1], ops[i - 1], key) {
      u := i - 1;
    } else {
      u := ResidentUsedLast(cfg, ops, views, key, i - 1);
    }
  }

  // Get answers exactly when the key's last Set is still live, and then with that Set's message.
  lemma GetAnswersExactlyTheLiveSet(cfg: Config, ops: seq<Op>, views: seq<View>, key: string, i: nat,
        checked: int, stamped: int)
    requires Run(cfg, ops, views) && i <= |ops|
    requires key in views[i] ==> views[i][key].cachedAt <= stamped
    ensures GetAnswer(views[i], key, checked, stamped).Some? <==>
            exists s: nat :: LiveSince(cfg, ops, views, key, s, i) && checked <= ops[s].now + Lifetime(cfg, ops[s].m)
    ensures forall s: nat :: LiveSince(cfg, ops, views, key, s, i) && checked <= ops[s].now + Lifetime(cfg, ops[s].m) ==>
              ops[s].now <= stamped &&
              GetAnswer(views[i], key, checked, stamped) == Some(Aged(ops[s].m, WholeSeconds(ops[s].now, stamped)))
  {
    if key in views[i] {
      var s := ResidentIsLastStored(cfg, ops, views, key, i);
      forall s': nat | LiveSince(cfg, ops, views, key, s', i)
        ensures s' == s
      {
        assert !(s < s') && !(s' < s);
      }
    }
  }

  // With a clock that never goes back, an entry that a Set pushes out was used no later
  // than every entry that stays; and no earlier in the run than the others only on a tie.
  ghost predicate ClockOrdered(ops: seq<Op>)
  {
    forall a, b :: 0 <= a < b < |ops| && (ops[a].Set? || ops[a].Get?) && (ops[b].Set? || ops[b].Get?) ==>
      UseTime(ops[a]) <= UseTime(ops[b])
  }

  lemma EvictsLeastRecentlyUsed(cfg: Config, ops: seq<Op>, views: seq<View>, i: nat, gone: string, kept: string)
      returns (ug: nat, uk: nat)
    requires Run(cfg, ops, views) && i < |ops| && ops[i].Set? && ClockOrdered(ops)
    requires gone in views[i] && gone !in views[i + 1]
    requires kept in views[i] && kept in views[i + 1]
    ensures LastUse(cfg, ops, views, gone, ug, i) && LastUse(cfg, ops, views, kept, uk, i)
    ensures ug < uk || UseTime(ops[ug]) == UseTime(ops[uk])
  {
    ug := ResidentUsedLast(cfg, ops, views, gone, i);
    uk := ResidentUsedLast(cfg, ops, views, kept, i);
    assert StepAt(cfg, ops, views, i);
    StepOnKey(cfg, views[i], ops[i], views[i + 1], kept);
    if uk < ug {
      assert UseTime(ops[uk]) <= UseTime(ops[ug]);
    }
  }
}
