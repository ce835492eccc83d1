/** What the answer along a CNAME chain looks like, in zones with at most one CNAME per name. */
module ChainFacts {
  import opened Common
  import opened DnsMessage
  import opened Filters
  import opened Names
  import opened ZoneData
  import opened ZoneIndex
  import opened ZoneAnswer
  import opened CnameChain

  // ---------- the chain itself, without any code ----------

  ghost predicate SingleCname(zone: Zone)
  {
    forall i, j :: 0 <= i < j < |zone.records| && zone.records[i].rtype == CNAME && zone.records[j].rtype == CNAME ==>
      RecName(zone.records[i]) != RecName(zone.records[j])
  }

  // The store accepts no zone without a name.
  ghost predicate GoodZone(zone: Zone)
  {
    SingleCname(zone) && Norm(zone.domain) != ""
  }

  // The name made of the label "@" right below the zone. Its records are those of the zone
  // itself, and they are owned by the zone's own name.
  function AtLabel(zone: Zone): string
  {
    "@." + Norm(zone.domain)
  }

  // The owner of the records found at a name.
  function Landing(zone: Zone, name: string): string
  {
    if name == AtLabel(zone) then Norm(zone.domain) else name
  }

  function MatchedAt(zone: Zone, qtype: RType, name: string): seq<Record>
  {
    OnePass(zone, SubOf(zone, name), qtype).matched
  }

  function CnamesAt(zone: Zone, name: string): seq<Record>
  {
    CnameList(zone, SubOf(zone, name))
  }

  // The name has no record of the type asked for, but a CNAME.
  predicate Passes(zone: Zone, qtype: RType, name: string)
  {
    Below(zone, name) && MatchedAt(zone, qtype, name) == [] && CnamesAt(zone, name) != []
  }

  predicate Holds(zone: Zone, qtype: RType, name: string)
  {
    Below(zone, name) && MatchedAt(zone, qtype, name) != []
  }

  function Next(zone: Zone, name: string): string
  {
    var c := CnamesAt(zone, name);
    if c != [] then Norm(c[0].value) else name
  }

  // The k-th name of the chain that starts at name.
  function ChainName(zone: Zone, name: string, k: nat): string
  {
    if k == 0 then name else Next(zone, ChainName(zone, name, k - 1))
  }

  // The chain leads, without leaving the zone, to a record of the type asked for.
  ghost predicate Reaches(zone: Zone, qtype: RType, name: string, k: nat)
  {
    && (forall j: nat :: j < k ==> Passes(zone, qtype, ChainName(zone, name, j)))
    && Holds(zone, qtype, ChainName(zone, name, k))
  }

  // It does so after at least m and at most eight steps.
  ghost predicate ReachesFrom(zone: Zone, qtype: RType, name: string, m: nat)
  {
    exists k: nat :: m <= k <= MAX_CHAIN_DEPTH && Reaches(zone, qtype, name, k)
  }

  // ---------- facts about matching ----------

  lemma OneCnameAtMost(zone: Zone, sub: string)
    requires SingleCname(zone)
    ensures |CnameList(zone, sub)| <= 1
  {
    FilterAtMostOne(zone.records, WhenCname(sub));
    FilterAtMostOne(zone.records, WhenWild(sub, CNAME));
    if sub != "@" && !Named(zone.records, sub) {
      NothingExact(zone, sub, WhenCname(sub));
    }
  }

  lemma CnameIsRecord(zone: Zone, sub: string)
    ensures forall r :: r in CnameList(zone, sub) ==> r in zone.records && r.rtype == CNAME && sub != "@"
  {
  }

  lemma MatchedHasType(zone: Zone, sub: string, qtype: RType)
    requires qtype != ANY && qtype != CNAME
    ensures forall r :: r in OnePass(zone, sub, qtype).matched ==> r.rtype == qtype
  {
    var exact, wild := Filter(zone.records, WhenMatched(sub, qtype)), Filter(zone.records, WhenWildMatched(sub, qtype));
    assert forall r :: r in exact ==> r.rtype == qtype;
    assert forall r :: r in wild ==> r.rtype == qtype;
    assert OnePass(zone, sub, qtype).matched == exact || OnePass(zone, sub, qtype).matched == exact + wild;
  }

  lemma {:induction false} ChainNameLower(zone: Zone, name: string, k: nat)
    requires Lower(name) == name
    ensures Lower(ChainName(zone, name, k)) == ChainName(zone, name, k)
  {
    hide CnamesAt;
    if 0 < k {
      ChainNameLower(zone, name, k - 1);
      var before := ChainName(zone, name, k - 1);
      if CnamesAt(zone, before) != [] {
        LowerIdempotent(TrimDot(CnamesAt(zone, before)[0].value));
      }
    }
  }

  // The subdomain of a name below the zone, and the owner of records made there.
  lemma OwnerBelow(zone: Zone, name: string)
    requires Norm(zone.domain) != "" && Below(zone, name) && Lower(name) == name
    ensures Norm(Fqdn(SubOf(zone, name) + "." + zone.domain)) == name
    ensures SubOf(zone, name) == "@" <==> name == AtLabel(zone)
  {
    var sub := SubOf(zone, name);
    var domain := Norm(zone.domain);
    assert name == sub + ("." + domain) == sub + "." + domain;
    assert AtLabel(zone) == "@" + ("." + domain);
    assert Lower(sub) == sub by {
      assert forall i :: 0 <= i < |sub| ==> Lower(name)[i] == name[i];
    }
    NormOfFqdn(sub + "." + zone.domain);
    NormBelow(sub, zone.domain);
  }

  lemma CanonicalIsNorm(target: string)
    ensures Canonical(target) == Norm(target)
  {
    NormOfFqdn(target);
  }

  // ---------- a chain that reaches its goal repeats no name ----------

  lemma {:induction false} ChainShift(zone: Zone, name: string, i: nat, j: nat, t: nat)
    requires ChainName(zone, name, i) == ChainName(zone, name, j)
    ensures ChainName(zone, name, i + t) == ChainName(zone, name, j + t)
  {
    hide Next;
    if 0 < t {
      ChainShift(zone, name, i, j, t - 1);
    }
  }

  lemma ReachingRepeatsNothing(zone: Zone, qtype: RType, name: string, k: nat, i: nat, j: nat)
    requires Reaches(zone, qtype, name, k) && i < j <= k
    ensures ChainName(zone, name, i) != ChainName(zone, name, j)
  {
    hide Next, MatchedAt, CnamesAt, Below;
    assert Passes(zone, qtype, ChainName(zone, name, i + (k - j)));
    if ChainName(zone, name, i) == ChainName(zone, name, j) {
      ChainShift(zone, name, i, j, k - j);
      assert false;
    }
  }

  // ---------- the loop against the chain ----------

  // The first m names of the chain.
  function FirstNames(zone: Zone, name: string, m: nat): set<string>
  {
    if m == 0 then {} else FirstNames(zone, name, m - 1) + {ChainName(zone, name, m - 1)}
  }

  lemma {:induction false} NameFound(zone: Zone, name: string, m: nat, x: string) returns (j: nat)
    requires x in FirstNames(zone, name, m)
    ensures j < m && ChainName(zone, name, j) == x
  {
    hide ChainName;
    if x == ChainName(zone, name, m - 1) {
      j := m - 1;
    } else {
      j := NameFound(zone, name, m - 1, x);
    }
  }

  lemma {:induction false} NameCounted(zone: Zone, name: string, m: nat, j: nat)
    requires j < m
    ensures ChainName(zone, name, j) in FirstNames(zone, name, m)
  {
    hide ChainName;
    if j < m - 1 {
      NameCounted(zone, name, m - 1, j);
    }
  }

  ghost predicate AllPass(zone: Zone, qtype: RType, name: string, m: nat)
  {
    forall j: nat :: j < m ==> Passes(zone, qtype, ChainName(zone, name, j))
  }

  lemma {:induction false} FollowReaches(parses: Parser, zone: Zone, qtype: RType, name: string,
        seen: set<string>, m: nat)
    requires 0 < m && seen == FirstNames(zone, name, m) && AllPass(zone, qtype, name, m)
    ensures Follow(parses, zone, qtype, ChainName(zone, name, m), seen, m - 1).ok <==>
            ReachesFrom(zone, qtype, name, m)
    decreases MAX_CHAIN_DEPTH + 1 - m
  {
    hide OnePass, RRs, Canonical, Below, SubOf, Next, CnameList;
    var current := ChainName(zone, name, m);
    if m <= MAX_CHAIN_DEPTH {
      OnePassCname(zone, SubOf(zone, current), qtype);
      if current in seen {
        var j := NameFound(zone, name, m, current);
        forall k: nat | m <= k <= MAX_CHAIN_DEPTH
          ensures !Reaches(zone, qtype, name, k)
        {
          if Reaches(zone, qtype, name, k) {
            ReachingRepeatsNothing(zone, qtype, name, k, j, m);
          }
        }
      } else if Holds(zone, qtype, current) {
        assert Reaches(zone, qtype, name, m);
      } else if Passes(zone, qtype, current) {
        NextCanonical(zone, current);
        FollowReaches(parses, zone, qtype, name, seen + {current}, m + 1);
        assert !Reaches(zone, qtype, name, m);
      } else {
        forall k: nat | m <= k <= MAX_CHAIN_DEPTH
          ensures !Reaches(zone, qtype, name, k)
        {
        }
      }
    }
  }

  lemma OnePassCname(zone: Zone, sub: string, qtype: RType)
    ensures OnePass(zone, sub, qtype).cname == CnameList(zone, sub)
  {
    hide Filter;
  }

  lemma NextCanonical(zone: Zone, name: string)
    requires CnamesAt(zone, name) != []
    ensures Canonical(CnamesAt(zone, name)[0].value) == Next(zone, name)
  {
    CanonicalIsNorm(CnamesAt(zone, name)[0].value);
  }

  // ---------- the shape of the answer ----------

  // rrs follows the chain from its m-th name on: first the CNAMEs of the names m..t-1, each
  // pointing at the owner of the next, then records of the type asked for, all at name t.
  ghost predicate Shape(zone: Zone, qtype: RType, name: string, rrs: seq<RR>, m: nat, t: nat)
  {
    && m <= t && t - m <= |rrs|
    && (forall i: nat :: i < t - m ==> LinkAt(zone, name, rrs[i], m + i))
    && (forall i: nat :: t - m <= i < |rrs| ==> EndAt(zone, qtype, name, rrs[i], t))
  }

  ghost predicate LinkAt(zone: Zone, name: string, rr: RR, k: nat)
  {
    rr.rrtype == CNAME && Norm(rr.name) == ChainName(zone, name, k) && Norm(rr.data) == ChainName(zone, name, k + 1)
  }

  ghost predicate EndAt(zone: Zone, qtype: RType, name: string, rr: RR, t: nat)
  {
    rr.rrtype == qtype && Norm(rr.name) == ChainName(zone, name, t)
  }

  ghost predicate NoRepeat(zone: Zone, name: string, t: nat)
  {
    forall i: nat, j: nat :: i < j < t ==> ChainName(zone, name, i) != ChainName(zone, name, j)
  }

  // What the code makes in every case: the same, but the records at the end are owned by the
  // name they land at.
  ghost predicate LaidOut(zone: Zone, qtype: RType, name: string, rrs: seq<RR>, m: nat, t: nat)
  {
    && m <= t && t - m <= |rrs|
    && (forall i: nat :: i < t - m ==> LinkAt(zone, name, rrs[i], m + i))
    && (forall i: nat :: t - m <= i < |rrs| ==> LandsAt(zone, qtype, name, rrs[i], t))
  }

  ghost predicate LandsAt(zone: Zone, qtype: RType, name: string, rr: RR, t: nat)
  {
    rr.rrtype == qtype && Norm(rr.name) == Landing(zone, ChainName(zone, name, t))
  }

  // The records of the type asked for at a name.
  function EndRRs(parses: Parser, zone: Zone, qtype: RType, name: string): seq<RR>
  {
    RRs(parses, zone, MatchedAt(zone, qtype, name), SubOf(zone, name))
  }

  // The records made at a name below the zone are owned by that name.
  lemma {:induction false} RRsAtName(parses: Parser, zone: Zone, recs: seq<Record>, sub: string, name: string,
        qtype: RType)
    requires sub != "@" && Norm(Fqdn(sub + "." + zone.domain)) == name
    requires forall r :: r in recs ==> r.rtype == qtype
    ensures forall rr :: rr in RRs(parses, zone, recs, sub) ==> Norm(rr.name) == name && rr.rrtype == qtype
  {
    if recs != [] {
      RRsAtName(parses, zone, recs[..|recs| - 1], sub, name, qtype);
    }
  }

  lemma {:induction false} ApexRRs(parses: Parser, zone: Zone, recs: seq<Record>, qtype: RType)
    requires forall r :: r in recs ==> r.rtype == qtype
    ensures forall rr :: rr in RRs(parses, zone, recs, "@") ==> rr.name == Fqdn(zone.domain) && rr.rrtype == qtype
  {
    hide Fqdn;
    if recs != [] {
      ApexRRs(parses, zone, recs[..|recs| - 1], qtype);
    }
  }

  // Records found at a name below the zone are owned by the name they land at.
  lemma EndRRsLand(parses: Parser, zone: Zone, qtype: RType, name: string)
    requires Norm(zone.domain) != "" && qtype != CNAME && qtype != ANY && Below(zone, name) && Lower(name) == name
    ensures forall rr :: rr in EndRRs(parses, zone, qtype, name) ==> Norm(rr.name) == Landing(zone, name) && rr.rrtype == qtype
  {
    hide OnePass, RRs, Below, SubOf, Norm, Fqdn, AtLabel;
    var sub := SubOf(zone, name);
    OwnerBelow(zone, name);
    MatchedHasType(zone, sub, qtype);
    if sub == "@" {
      ApexRRs(parses, zone, MatchedAt(zone, qtype, name), qtype);
      NormOfFqdn(zone.domain);
    } else {
      RRsAtName(parses, zone, MatchedAt(zone, qtype, name), sub, name, qtype);
    }
  }

  lemma CnameRRAt(parses: Parser, zone: Zone, name: string)
    requires GoodZone(zone) && Below(zone, name) && Lower(name) == name && CnamesAt(zone, name) != []
    ensures var rrs := RRs(parses, zone, CnamesAt(zone, name), SubOf(zone, name));
            |rrs| == 1 && rrs[0].rrtype == CNAME && Norm(rrs[0].name) == name && Norm(rrs[0].data) == Next(zone, name)
  {
    hide Below, SubOf, CnameList, Norm, Fqdn;
    var sub := SubOf(zone, name);
    var recs := CnamesAt(zone, name);
    OneCnameAtMost(zone, sub);
    CnameIsRecord(zone, sub);
    OwnerBelow(zone, name);
    NormOfFqdn(recs[0].value);
    assert recs[0] in recs;
    assert recs[..|recs| - 1] == [];
    assert RecordToRR(parses, zone, recs[0], sub).Some?;
    assert RRs(parses, zone, recs, sub) == [] + [RecordToRR(parses, zone, recs[0], sub).value];
  }

  // One round of the loop.
  lemma FollowCases(parses: Parser, zone: Zone, qtype: RType, current: string, seen: set<string>, depth: nat)
    ensures var r := Follow(parses, zone, qtype, current, seen, depth);
            if depth >= MAX_CHAIN_DEPTH || current in seen || !Below(zone, current) then r.rrs == [] && !r.ok && r.end == current
            else if MatchedAt(zone, qtype, current) != [] then r.rrs == EndRRs(parses, zone, qtype, current) && r.ok
            else if CnamesAt(zone, current) == [] then r.rrs == [] && !r.ok && r.end == current
            else
              var rest := Follow(parses, zone, qtype, Canonical(CnamesAt(zone, current)[0].value), seen + {current}, depth + 1);
              && r.rrs == RRs(parses, zone, CnamesAt(zone, current), SubOf(zone, current)) + rest.rrs
              && r.ok == rest.ok && r.end == rest.end
  {
    hide OnePass, RRs, Canonical, Below, CnameList;
    OnePassCname(zone, SubOf(zone, current), qtype);
  }

  // The loop does not go on from the t-th name.
  ghost predicate NoFurther(zone: Zone, qtype: RType, name: string, t: nat)
  {
    var current := ChainName(zone, name, t);
    t > MAX_CHAIN_DEPTH || current in FirstNames(zone, name, t) || !Passes(zone, qtype, current)
  }

  // Why and with what the loop stops at the t-th name.
  ghost predicate StopsAt(parses: Parser, zone: Zone, qtype: RType, name: string, r: Tail, m: nat, t: nat)
  {
    if r.ok then
      && t <= MAX_CHAIN_DEPTH && m <= t && t - m <= |r.rrs| && Holds(zone, qtype, ChainName(zone, name, t))
      && r.rrs[t - m..] == EndRRs(parses, zone, qtype, ChainName(zone, name, t))
    else
      && |r.rrs| == t - m && r.end == ChainName(zone, name, t)
      && NoFurther(zone, qtype, name, t)
  }

  lemma {:induction false} FollowLaidOut(parses: Parser, zone: Zone, qtype: RType, name: string,
        seen: set<string>, m: nat)
      returns (t: nat)
    requires GoodZone(zone) && qtype != CNAME && qtype != ANY && Lower(name) == name
    requires 0 < m && seen == FirstNames(zone, name, m) && AllPass(zone, qtype, name, m) && NoRepeat(zone, name, m)
    ensures var r := Follow(parses, zone, qtype, ChainName(zone, name, m), seen, m - 1);
            && m <= t && (t == m || t <= MAX_CHAIN_DEPTH + 1)
            && LaidOut(zone, qtype, name, r.rrs, m, t) && NoRepeat(zone, name, t) && AllPass(zone, qtype, name, t)
            && StopsAt(parses, zone, qtype, name, r, m, t)
    decreases MAX_CHAIN_DEPTH + 1 - m
  {
    hide Follow, MatchedAt, CnamesAt, RRs, EndRRs, Canonical, Below, SubOf, ChainName;
    hide AllPass, NoRepeat, GoodZone, LaidOut, LinkAt, FirstNames, StopsAt, NoFurther;
    var current := ChainName(zone, name, m);
    t := m;
    var r := Follow(parses, zone, qtype, current, seen, m - 1);
    FollowCases(parses, zone, qtype, current, seen, m - 1);
    ChainNameLower(zone, name, m);
    NothingLaidOut(zone, qtype, name, m);
    if m > MAX_CHAIN_DEPTH || current in seen || !Below(zone, current) {
      NowhereFurther(zone, qtype, name, m);
      StopsNow(parses, zone, qtype, name, r, m);
    } else if MatchedAt(zone, qtype, current) != [] {
      EndLaidOut(parses, zone, qtype, name, m);
      StopsNow(parses, zone, qtype, name, r, m);
    } else if CnamesAt(zone, current) == [] {
      NowhereFurther(zone, qtype, name, m);
      StopsNow(parses, zone, qtype, name, r, m);
    } else {
      LinkShape(parses, zone, name, m);
      ChainOneMore(zone, qtype, name, m);
      NoRepeatNext(zone, name, m);
      t := FollowLaidOut(parses, zone, qtype, name, seen + {current}, m + 1);
      var rest := Follow(parses, zone, qtype, ChainName(zone, name, m + 1), seen + {current}, m);
      var first := RRs(parses, zone, CnamesAt(zone, current), SubOf(zone, current));
      LaidOutNext(zone, qtype, name, first, rest.rrs, m, t);
      StopsLater(parses, zone, qtype, name, first, rest, r, m, t);
    }
  }

  lemma NowhereFurther(zone: Zone, qtype: RType, name: string, m: nat)
    requires var current := ChainName(zone, name, m);
             || m > MAX_CHAIN_DEPTH || current in FirstNames(zone, name, m)
             || !Below(zone, current) || CnamesAt(zone, current) == []
    ensures NoFurther(zone, qtype, name, m)
  {
    hide ChainName, FirstNames, Below, CnamesAt, MatchedAt;
  }

  // Where the loop stops when it does not follow a CNAME.
  lemma StopsNow(parses: Parser, zone: Zone, qtype: RType, name: string, r: Tail, m: nat)
    requires if r.ok then
               && m <= MAX_CHAIN_DEPTH && Holds(zone, qtype, ChainName(zone, name, m))
               && r.rrs == EndRRs(parses, zone, qtype, ChainName(zone, name, m))
             else
               && r.rrs == [] && r.end == ChainName(zone, name, m) && NoFurther(zone, qtype, name, m)
    ensures StopsAt(parses, zone, qtype, name, r, m, m)
  {
    hide EndRRs, Holds, ChainName, NoFurther;
    assert r.rrs[m - m..] == r.rrs;
  }

  // One more CNAME in front does not change where the loop stops.
  lemma StopsLater(parses: Parser, zone: Zone, qtype: RType, name: string, first: seq<RR>, rest: Tail, r: Tail, m: nat, t: nat)
    requires StopsAt(parses, zone, qtype, name, rest, m + 1, t) && |first| == 1
    requires r.rrs == first + rest.rrs && r.ok == rest.ok && r.end == rest.end
    ensures StopsAt(parses, zone, qtype, name, r, m, t)
  {
    hide EndRRs, Holds, ChainName, NoFurther;
    assert rest.ok ==> r.rrs[t - m..] == rest.rrs[t - (m + 1)..];
  }

  lemma NothingLaidOut(zone: Zone, qtype: RType, name: string, m: nat)
    ensures LaidOut(zone, qtype, name, [], m, m)
  {
  }

  lemma ChainOneMore(zone: Zone, qtype: RType, name: string, m: nat)
    requires AllPass(zone, qtype, name, m) && Passes(zone, qtype, ChainName(zone, name, m))
    ensures AllPass(zone, qtype, name, m + 1)
    ensures FirstNames(zone, name, m + 1) == FirstNames(zone, name, m) + {ChainName(zone, name, m)}
    ensures Canonical(CnamesAt(zone, ChainName(zone, name, m))[0].value) == ChainName(zone, name, m + 1)
  {
    hide Next, MatchedAt, CnamesAt, Below, Canonical;
    NextCanonical(zone, ChainName(zone, name, m));
  }

  // The CNAME of the m-th name.
  lemma LinkShape(parses: Parser, zone: Zone, name: string, m: nat)
    requires GoodZone(zone) && Below(zone, ChainName(zone, name, m)) && Lower(name) == name
    requires CnamesAt(zone, ChainName(zone, name, m)) != []
    ensures var current := ChainName(zone, name, m);
            var rrs := RRs(parses, zone, CnamesAt(zone, current), SubOf(zone, current));
            |rrs| == 1 && LinkAt(zone, name, rrs[0], m)
  {
    hide Next, CnamesAt, Below, RRs, Norm, SubOf;
    ChainNameLower(zone, name, m);
    CnameRRAt(parses, zone, ChainName(zone, name, m));
  }

  // The records of the type asked for, where the chain ends.
  lemma EndLaidOut(parses: Parser, zone: Zone, qtype: RType, name: string, m: nat)
    requires qtype != CNAME && qtype != ANY && GoodZone(zone) && Lower(name) == name
    requires Below(zone, ChainName(zone, name, m))
    ensures LaidOut(zone, qtype, name, EndRRs(parses, zone, qtype, ChainName(zone, name, m)), m, m)
  {
    hide EndRRs, Below, Norm, ChainName, AtLabel;
    ChainNameLower(zone, name, m);
    EndRRsLand(parses, zone, qtype, ChainName(zone, name, m));
  }

  lemma NoRepeatNext(zone: Zone, name: string, m: nat)
    requires NoRepeat(zone, name, m) && ChainName(zone, name, m) !in FirstNames(zone, name, m)
    ensures NoRepeat(zone, name, m + 1)
  {
    hide ChainName;
    forall j: nat | j < m
      ensures ChainName(zone, name, j) != ChainName(zone, name, m)
    {
      NameCounted(zone, name, m, j);
    }
  }

  lemma LaidOutNext(zone: Zone, qtype: RType, name: string, first: seq<RR>, rest: seq<RR>, m: nat, t: nat)
    requires |first| == 1 && LinkAt(zone, name, first[0], m) && LaidOut(zone, qtype, name, rest, m + 1, t)
    ensures LaidOut(zone, qtype, name, first + rest, m, t)
  {
    hide LinkAt, LandsAt;
    var all := first + rest;
    forall i: nat | i < t - m
      ensures LinkAt(zone, name, all[i], m + i)
    {
      if 0 < i {
        assert all[i] == rest[i - 1] && LinkAt(zone, name, rest[i - 1], m + 1 + (i - 1));
      }
    }
    forall i: nat | t - m <= i < |all|
      ensures LandsAt(zone, qtype, name, all[i], t)
    {
      assert all[i] == rest[i - 1];
    }
  }

  // ---------- the answer of one zone ----------

  // A name in the zone whose lookup turns into a chase.
  ghost predicate Chased(zone: Zone, qtype: RType, sub: string)
  {
    GoodZone(zone) && Lower(sub) == sub && Chases(OnePass(zone, sub, qtype), qtype)
  }

  lemma ChasedPasses(zone: Zone, qtype: RType, sub: string)
    requires Chased(zone, qtype, sub)
    ensures var name := ZoneFQDN(zone, sub);
            name == sub + "." + Norm(zone.domain) && SubOf(zone, name) == sub != "@" && Below(zone, name)
            && Lower(name) == name && Passes(zone, qtype, name)
            && Norm(Fqdn(sub + "." + zone.domain)) == name
  {
    hide OnePass, CnameList;
    var domain := Norm(zone.domain);
    OnePassCname(zone, sub, qtype);
    CnameIsRecord(zone, sub);
    assert CnameList(zone, sub)[0] in CnameList(zone, sub);
    LowerConcat(sub + ".", domain);
    LowerConcat(sub, ".");
    assert Lower(".") == ".";
    LowerIdempotent(TrimDot(zone.domain));
    SuffixRoundTrip(sub, domain);
    NormBelow(sub, zone.domain);
    NormOfFqdn(sub + "." + zone.domain);
  }

  // A single CNAME at the queried name: its record, then what following its target gives.
  lemma ChainsOfOne(parses: Parser, zone: Zone, qtype: RType, sub: string)
    requires Chased(zone, qtype, sub)
    ensures var name := ZoneFQDN(zone, sub);
            var c := ChainsOf(parses, zone, CnameList(zone, sub), sub, qtype);
            var t := Follow(parses, zone, qtype, ChainName(zone, name, 1), FirstNames(zone, name, 1), 0);
            && c.unresolved == (if t.ok then "" else t.end)
            && exists rr :: c.rrs == [rr] + t.rrs && LinkAt(zone, name, rr, 0)
  {
    hide Follow, Below, SubOf, Norm, Fqdn, Canonical, CnameList, OnePass;
    var name := ZoneFQDN(zone, sub);
    ChasedPasses(zone, qtype, sub);
    OnePassCname(zone, sub, qtype);
    var recs := CnameList(zone, sub);
    assert recs == CnamesAt(zone, name);
    OneCnameAtMost(zone, sub);
    CnameIsRecord(zone, sub);
    assert recs[0] in recs && recs[..|recs| - 1] == [];
    NextCanonical(zone, name);
    NormOfFqdn(recs[0].value);
    CanonicalIsNorm(recs[0].value);
    assert ChainName(zone, name, 0) == name && ChainName(zone, name, 1) == Next(zone, name);
    assert FirstNames(zone, name, 1) == {name};
    var rr := RecordToRR(parses, zone, recs[0], sub).value;
    assert LinkAt(zone, name, rr, 0);
    assert ChainsOf(parses, zone, recs[..0], sub, qtype) == Chains([], "", {name});
    assert [] + [rr] == [rr];
  }

  // Where the chase inside the zone stops, and with what, as the queried name's chain has it.
  ghost predicate ChaseStops(parses: Parser, zone: Zone, qtype: RType, name: string, c: Chains, t: nat)
  {
    && 1 <= t <= MAX_CHAIN_DEPTH + 1
    && LaidOut(zone, qtype, name, c.rrs, 0, t) && NoRepeat(zone, name, t) && AllPass(zone, qtype, name, t)
    && if ReachesFrom(zone, qtype, name, 1) then
         && t <= MAX_CHAIN_DEPTH && Holds(zone, qtype, ChainName(zone, name, t))
         && c.rrs[t..] == EndRRs(parses, zone, qtype, ChainName(zone, name, t)) && c.unresolved == ""
       else
         && |c.rrs| == t && c.unresolved == ChainName(zone, name, t)
         && NoFurther(zone, qtype, name, t)
  }

  lemma ChaseStopsSomewhere(parses: Parser, zone: Zone, qtype: RType, sub: string) returns (t: nat)
    requires Chased(zone, qtype, sub)
    ensures ChaseStops(parses, zone, qtype, ZoneFQDN(zone, sub), ChainsOf(parses, zone, CnameList(zone, sub), sub, qtype), t)
  {
    hide ChainsOf, CnameList, OnePass, LinkAt, ZoneFQDN, Norm, SubOf, Below, Fqdn, Follow;
    var name := ZoneFQDN(zone, sub);
    ChasedPasses(zone, qtype, sub);
    ChainsOfOne(parses, zone, qtype, sub);
    var c := ChainsOf(parses, zone, CnameList(zone, sub), sub, qtype);
    var r := Follow(parses, zone, qtype, ChainName(zone, name, 1), FirstNames(zone, name, 1), 0);
    var rr :| c.rrs == [rr] + r.rrs && LinkAt(zone, name, rr, 0);
    t := FirstTail(parses, zone, qtype, name);
    TailStops(parses, zone, qtype, name, rr, r, c, t);
  }

  // The chase is the first CNAME's record and its tail.
  lemma TailStops(parses: Parser, zone: Zone, qtype: RType, name: string, rr: RR, r: Tail, c: Chains, t: nat)
    requires 1 <= t <= MAX_CHAIN_DEPTH + 1 && (r.ok <==> ReachesFrom(zone, qtype, name, 1))
    requires LaidOut(zone, qtype, name, r.rrs, 1, t) && NoRepeat(zone, name, t) && AllPass(zone, qtype, name, t)
    requires StopsAt(parses, zone, qtype, name, r, 1, t)
    requires LinkAt(zone, name, rr, 0) && c.rrs == [rr] + r.rrs && c.unresolved == (if r.ok then "" else r.end)
    ensures ChaseStops(parses, zone, qtype, name, c, t)
  {
    hide LaidOut, NoRepeat, AllPass, ReachesFrom, LinkAt, EndRRs, Passes, Holds, ChainName, FirstNames;
    LaidOutNext(zone, qtype, name, [rr], r.rrs, 0, t);
    assert r.ok ==> c.rrs[t..] == r.rrs[t - 1..];
  }

  lemma FirstPasses(zone: Zone, qtype: RType, name: string)
    requires Passes(zone, qtype, name)
    ensures AllPass(zone, qtype, name, 1)
  {
    hide Passes;
  }

  // Following the first target.
  lemma FirstTail(parses: Parser, zone: Zone, qtype: RType, name: string) returns (t: nat)
    requires GoodZone(zone) && qtype != CNAME && qtype != ANY && Passes(zone, qtype, name) && Lower(name) == name
    ensures var r := Follow(parses, zone, qtype, ChainName(zone, name, 1), FirstNames(zone, name, 1), 0);
            && 1 <= t <= MAX_CHAIN_DEPTH + 1 && (r.ok <==> ReachesFrom(zone, qtype, name, 1))
            && LaidOut(zone, qtype, name, r.rrs, 1, t) && NoRepeat(zone, name, t) && AllPass(zone, qtype, name, t)
            && StopsAt(parses, zone, qtype, name, r, 1, t)
  {
    hide Follow, ChainName, LaidOut, NoRepeat, ReachesFrom, Passes, AllPass, GoodZone, FirstNames, StopsAt;
    ChainStart(zone, name);
    FirstPasses(zone, qtype, name);
    FollowReaches(parses, zone, qtype, name, FirstNames(zone, name, 1), 1);
    t := FollowLaidOut(parses, zone, qtype, name, FirstNames(zone, name, 1), 1);
  }

  // The chain runs, within nine steps, into the root, the target that is empty once normalized.
  ghost predicate MeetsRoot(zone: Zone, qtype: RType, name: string)
  {
    exists k: nat :: 1 <= k <= MAX_CHAIN_DEPTH + 1 && AllPass(zone, qtype, name, k) && ChainName(zone, name, k) == ""
  }

  // The chase inside a zone reports "answered here" exactly when the chain reaches a name
  // that holds the type asked for, within eight names and without leaving the zone, or runs
  // into the root, which reads like no name at all.
  lemma AnsweredHereExactly(parses: Parser, zone: Zone, qtype: RType, sub: string)
    requires Chased(zone, qtype, sub)
    ensures ChainsOf(parses, zone, CnameList(zone, sub), sub, qtype).unresolved == "" <==>
            ReachesFrom(zone, qtype, ZoneFQDN(zone, sub), 1) || MeetsRoot(zone, qtype, ZoneFQDN(zone, sub))
  {
    hide ChainsOf, CnameList, OnePass, ZoneFQDN, ReachesFrom, LaidOut, EndRRs, NoRepeat;
    var name := ZoneFQDN(zone, sub);
    var t := ChaseStopsSomewhere(parses, zone, qtype, sub);
    if !ReachesFrom(zone, qtype, name, 1) && MeetsRoot(zone, qtype, name) {
      var k: nat :| 1 <= k <= MAX_CHAIN_DEPTH + 1 && AllPass(zone, qtype, name, k) && ChainName(zone, name, k) == "";
      RootStops(zone, qtype, name, k, t);
    }
  }

  lemma RootStops(zone: Zone, qtype: RType, name: string, k: nat, t: nat)
    requires 1 <= k <= MAX_CHAIN_DEPTH + 1 && AllPass(zone, qtype, name, k) && ChainName(zone, name, k) == ""
    requires AllPass(zone, qtype, name, t)
    requires NoFurther(zone, qtype, name, t)
    ensures t == k
  {
    hide ChainName, CnamesAt, MatchedAt, FirstNames;
    assert !Passes(zone, qtype, "");
    if t < k && ChainName(zone, name, t) in FirstNames(zone, name, t) {
      RepeatMissesRoot(zone, qtype, name, t, k);
    }
  }

  // A chain that has come back to an earlier name does not come to the root.
  lemma RepeatMissesRoot(zone: Zone, qtype: RType, name: string, t: nat, k: nat)
    requires t < k && ChainName(zone, name, t) in FirstNames(zone, name, t) && AllPass(zone, qtype, name, k)
    ensures ChainName(zone, name, k) != ""
  {
    hide ChainName, CnamesAt, MatchedAt, FirstNames;
    var i := NameFound(zone, name, t, ChainName(zone, name, t));
    ChainShift(zone, name, i, t, k - t);
    assert Passes(zone, qtype, ChainName(zone, name, i + (k - t)));
  }

  // With every target a name of its own, only the first way is left.
  lemma NamedTargetsAnswerExactly(parses: Parser, zone: Zone, qtype: RType, sub: string)
    requires Chased(zone, qtype, sub)
    requires forall i :: 0 <= i < |zone.records| && zone.records[i].rtype == CNAME ==> Norm(zone.records[i].value) != ""
    ensures ChainsOf(parses, zone, CnameList(zone, sub), sub, qtype).unresolved == "" <==>
            ReachesFrom(zone, qtype, ZoneFQDN(zone, sub), 1)
  {
    hide ChainsOf, OnePass, ZoneFQDN, ReachesFrom, ChainName, Norm;
    var name := ZoneFQDN(zone, sub);
    AnsweredHereExactly(parses, zone, qtype, sub);
    forall k: nat | 1 <= k && AllPass(zone, qtype, name, k)
      ensures ChainName(zone, name, k) != ""
    {
      assert Passes(zone, qtype, ChainName(zone, name, k - 1));
      NextIsNamed(zone, ChainName(zone, name, k - 1));
      ChainStep(zone, name, k);
    }
  }

  lemma NextIsNamed(zone: Zone, name: string)
    requires forall i :: 0 <= i < |zone.records| && zone.records[i].rtype == CNAME ==> Norm(zone.records[i].value) != ""
    requires CnamesAt(zone, name) != []
    ensures Next(zone, name) != ""
  {
    hide CnameList, Norm;
    var c := CnamesAt(zone, name)[0];
    CnameIsRecord(zone, SubOf(zone, name));
    assert c in CnamesAt(zone, name);
    var i :| 0 <= i < |zone.records| && zone.records[i] == c;
  }

  lemma ChainStep(zone: Zone, name: string, k: nat)
    requires 0 < k
    ensures ChainName(zone, name, k) == Next(zone, ChainName(zone, name, k - 1))
  {
  }

  // The chain comes to the label "@" right below the zone, and records of the type asked for
  // are made there; at most one step k qualifies.
  ghost predicate DetoursAt(parses: Parser, zone: Zone, qtype: RType, name: string, k: nat)
  {
    AllPass(zone, qtype, name, k) && ChainName(zone, name, k) == AtLabel(zone) && EndRRs(parses, zone, qtype, AtLabel(zone)) != []
  }

  ghost predicate Detours(parses: Parser, zone: Zone, qtype: RType, name: string)
  {
    exists k: nat :: k <= MAX_CHAIN_DEPTH && DetoursAt(parses, zone, qtype, name, k)
  }

  // x is the target of some CNAME of the zone.
  ghost predicate TargetOf(zone: Zone, x: string)
  {
    exists r :: r in zone.records && r.rtype == CNAME && Norm(r.value) == x
  }

  lemma ChainNameIsTarget(zone: Zone, qtype: RType, name: string, k: nat)
    requires 0 < k && AllPass(zone, qtype, name, k)
    ensures TargetOf(zone, ChainName(zone, name, k))
  {
    hide CnameList, MatchedAt, Below, SubOf, Norm;
    var before := ChainName(zone, name, k - 1);
    assert Passes(zone, qtype, before);
    CnameIsRecord(zone, SubOf(zone, before));
    assert CnamesAt(zone, before)[0] in CnamesAt(zone, before);
  }

  // Without a target of that name a chain makes no detour but at its beginning.
  lemma NoDetourWithoutTarget(parses: Parser, zone: Zone, qtype: RType, name: string)
    requires name != AtLabel(zone) && !TargetOf(zone, AtLabel(zone))
    ensures !Detours(parses, zone, qtype, name)
  {
    ChainStart(zone, name);
    hide ChainName, AllPass, EndRRs, AtLabel, TargetOf;
    forall k: nat | AllPass(zone, qtype, name, k)
      ensures ChainName(zone, name, k) != AtLabel(zone)
    {
      if 0 < k {
        ChainNameIsTarget(zone, qtype, name, k);
      }
    }
  }

  lemma AtLabelBelow(zone: Zone)
    ensures Below(zone, AtLabel(zone)) && SubOf(zone, AtLabel(zone)) == "@" && AtLabel(zone) != Norm(zone.domain)
  {
    var domain := Norm(zone.domain);
    assert AtLabel(zone) == "@" + ("." + domain);
    assert |AtLabel(zone)| == |domain| + 2;
    assert AtLabel(zone)[1..] == "." + domain;
    assert AtLabel(zone)[..1] == "@";
  }

  lemma DetourHolds(parses: Parser, zone: Zone, qtype: RType, name: string, k: nat)
    requires DetoursAt(parses, zone, qtype, name, k)
    ensures Reaches(zone, qtype, name, k)
  {
    hide MatchedAt, ChainName, AtLabel, Below, SubOf;
    AtLabelBelow(zone);
  }

  // A chain that reaches its goal does so at one name.
  lemma OneEnd(zone: Zone, qtype: RType, name: string, k: nat, t: nat)
    requires Reaches(zone, qtype, name, k) && Reaches(zone, qtype, name, t)
    ensures k == t
  {
    hide Reaches;
    if k < t {
      NoEndBefore(zone, qtype, name, k, t);
    } else if t < k {
      NoEndBefore(zone, qtype, name, t, k);
    }
  }

  lemma NoEndBefore(zone: Zone, qtype: RType, name: string, k: nat, t: nat)
    requires k < t && Reaches(zone, qtype, name, t)
    ensures !Reaches(zone, qtype, name, k)
  {
    hide ChainName, MatchedAt, CnamesAt, Below;
    assert Passes(zone, qtype, ChainName(zone, name, k));
  }

  // The chase stops at a detour exactly if there is one.
  lemma StopsAtDetour(parses: Parser, zone: Zone, qtype: RType, name: string, c: Chains, t: nat)
    requires ChaseStops(parses, zone, qtype, name, c, t) && name != AtLabel(zone)
    ensures Detours(parses, zone, qtype, name) <==> ChainName(zone, name, t) == AtLabel(zone) && t < |c.rrs|
  {
    hide NoRepeat, EndRRs, AtLabel, Passes, Holds, FirstNames, LinkAt, LandsAt;
    ChainStart(zone, name);
    hide ChainName;
    assert t <= |c.rrs|;
    if Detours(parses, zone, qtype, name) {
      var k: nat :| k <= MAX_CHAIN_DEPTH && DetoursAt(parses, zone, qtype, name, k);
      DetourHolds(parses, zone, qtype, name, k);
      assert 1 <= k;
      assert ReachesFrom(zone, qtype, name, 1);
      OneEnd(zone, qtype, name, k, t);
    }
    if ChainName(zone, name, t) == AtLabel(zone) && t < |c.rrs| {
      EndsAsDetour(parses, zone, qtype, name, c, t);
    }
  }

  lemma EndsAsDetour(parses: Parser, zone: Zone, qtype: RType, name: string, c: Chains, t: nat)
    requires ChaseStops(parses, zone, qtype, name, c, t) && ChainName(zone, name, t) == AtLabel(zone) && t < |c.rrs|
    ensures t <= MAX_CHAIN_DEPTH && DetoursAt(parses, zone, qtype, name, t)
  {
    hide NoRepeat, EndRRs, AtLabel, Passes, Holds, FirstNames, LinkAt, LandsAt, ChainName;
    assert |c.rrs[t..]| == |c.rrs| - t;
  }

  // The answer is the chain followed from the queried name: every CNAME is owned by the
  // target of the one before it, no owner occurs twice, and what follows are records of the
  // type asked for at the last target. When the chain ends unanswered, the name reported is
  // that last target.
  ghost predicate IsTheChain(zone: Zone, qtype: RType, name: string, c: Chains, t: nat)
  {
    && 1 <= t <= MAX_CHAIN_DEPTH + 1
    && Shape(zone, qtype, name, c.rrs, 0, t) && NoRepeat(zone, name, t)
    && (c.unresolved != "" ==> |c.rrs| == t && c.unresolved == ChainName(zone, name, t))
  }

  // That is so exactly without a detour.
  lemma AnswerIsTheChainExactly(parses: Parser, zone: Zone, qtype: RType, sub: string)
    requires Chased(zone, qtype, sub)
    ensures var name := ZoneFQDN(zone, sub);
            var c := ChainsOf(parses, zone, CnameList(zone, sub), sub, qtype);
            (exists t: nat :: IsTheChain(zone, qtype, name, c, t)) <==> !Detours(parses, zone, qtype, name)
  {
    hide ChainsOf, CnameList, OnePass, Detours, AtLabel, SubOf, Below, Norm, Fqdn;
    var name := ZoneFQDN(zone, sub);
    var c := ChainsOf(parses, zone, CnameList(zone, sub), sub, qtype);
    ChasedPasses(zone, qtype, sub);
    AtLabelBelow(zone);
    var t := ChaseStopsSomewhere(parses, zone, qtype, sub);
    hide ZoneFQDN, Chased;
    StopsAtDetour(parses, zone, qtype, name, c, t);
    if Detours(parses, zone, qtype, name) {
      forall u: nat
        ensures !IsTheChain(zone, qtype, name, c, u)
      {
        DetourIsNoChain(zone, qtype, name, c, t, u);
      }
    } else {
      StraightIsShape(zone, qtype, name, c.rrs, t);
      assert IsTheChain(zone, qtype, name, c, t);
    }
  }

  lemma StraightIsShape(zone: Zone, qtype: RType, name: string, rrs: seq<RR>, t: nat)
    requires LaidOut(zone, qtype, name, rrs, 0, t) && !(ChainName(zone, name, t) == AtLabel(zone) && t < |rrs|)
    ensures Shape(zone, qtype, name, rrs, 0, t)
  {
    hide ChainName, AtLabel, LinkAt, Norm;
    forall i: nat | t <= i < |rrs|
      ensures EndAt(zone, qtype, name, rrs[i], t)
    {
      assert LandsAt(zone, qtype, name, rrs[i], t);
    }
  }

  lemma DetourIsNoChain(zone: Zone, qtype: RType, name: string, c: Chains, t: nat, u: nat)
    requires LaidOut(zone, qtype, name, c.rrs, 0, t) && qtype != CNAME
    requires ChainName(zone, name, t) == AtLabel(zone) && t < |c.rrs|
    ensures !IsTheChain(zone, qtype, name, c, u)
  {
    hide ChainName, AtLabel, Norm, NoRepeat;
    AtLabelBelow(zone);
    assert LandsAt(zone, qtype, name, c.rrs[t], t);
    assert !LinkAt(zone, name, c.rrs[t], t) && !EndAt(zone, qtype, name, c.rrs[t], t);
    assert u < t ==> LinkAt(zone, name, c.rrs[u], 0 + u);
    assert u < t ==> !EndAt(zone, qtype, name, c.rrs[u], u);
  }

  lemma ChainStart(zone: Zone, name: string)
    ensures ChainName(zone, name, 0) == name && NoRepeat(zone, name, 1)
  {
  }

  // NXDOMAIN exactly for a name below the apex that no record and no wildcard covers.
  lemma NxdomainExactly(parses: Parser, zone: Zone, sub: string, qtype: RType)
    ensures Respond(parses, zone, sub, qtype).rcode == RCODE_NAME_ERROR <==> sub != "@" && Candidates(zone, sub) == []
  {
    hide ChainsOf, OnePass, Filter;
    OnePassIsTwoPass(zone, sub, qtype);
    if Candidates(zone, sub) == [] {
      NothingFromNothing(zone, sub, qtype);
      assert |multiset(OnePass(zone, sub, qtype).matched)| == 0;
      assert OnePass(zone, sub, qtype).matched == [];
    }
  }

  lemma NothingFromNothing(zone: Zone, sub: string, qtype: RType)
    requires Candidates(zone, sub) == []
    ensures TwoPass(zone, sub, qtype) == Match([], [], [], false)
  {
  }
}
