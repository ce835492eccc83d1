/** What a zone answers, told from its records alone: which of them count for a query, what
    is made of each, and what the whole response is. */
module AnswerFacts {
  import opened Common
  import opened DnsMessage
  import opened Filters
  import opened Names
  import opened ZoneData
  import opened ZoneIndex
  import opened ZoneAnswer
  import opened CnameChain
  import opened ChainFacts

  // ---------- which records count ----------

  predicate Bears(r: Record, name: string)
  {
    if r.name == "" then name == "@" else r.name == name
  }

  // The record bears the name; or it is of the wildcard, the name is a single label below the
  // zone, and no record bears it.
  ghost predicate CountsAt(zone: Zone, sub: string, r: Record)
  {
    || Bears(r, sub)
    || (r.name == "*" && sub != "@" && '.' !in sub && forall k :: 0 <= k < |zone.records| ==> !Bears(zone.records[k], sub))
  }

  ghost predicate AnswersQuery(zone: Zone, sub: string, qtype: RType, r: Record)
  {
    CountsAt(zone, sub, r) && r.rtype != ALIAS && (qtype == ANY || r.rtype == qtype)
  }

  // Only a CNAME of the wildcard waits for the others.
  ghost predicate Waits(sub: string, r: Record)
  {
    r.rtype == CNAME && !Bears(r, sub)
  }

  ghost function Prompt(zone: Zone, sub: string, qtype: RType): Record -> bool
  {
    (r: Record) => AnswersQuery(zone, sub, qtype, r) && !Waits(sub, r)
  }

  ghost function Late(zone: Zone, sub: string, qtype: RType): Record -> bool
  {
    (r: Record) => AnswersQuery(zone, sub, qtype, r) && Waits(sub, r)
  }

  ghost function OfType(zone: Zone, sub: string, rtype: RType): Record -> bool
  {
    (r: Record) => CountsAt(zone, sub, r) && r.rtype == rtype
  }

  ghost function Answering(zone: Zone, sub: string, qtype: RType): seq<Record>
  {
    Filter(zone.records, Prompt(zone, sub, qtype)) + Filter(zone.records, Late(zone, sub, qtype))
  }

  // At the zone's own name a CNAME is no alias for anything.
  ghost function Pointing(zone: Zone, sub: string): seq<Record>
  {
    if sub == "@" then [] else Filter(zone.records, OfType(zone, sub, CNAME))
  }

  ghost function Aliases(zone: Zone, sub: string): seq<Record>
  {
    Filter(zone.records, OfType(zone, sub, ALIAS))
  }

  ghost predicate Known(zone: Zone, sub: string)
  {
    exists k :: 0 <= k < |zone.records| && (Bears(zone.records[k], sub) || (zone.records[k].name == "*" && '.' !in sub))
  }

  // Each list of the match holds exactly the records that count for it, in the zone's order.
  lemma MatchedExactly(zone: Zone, sub: string, qtype: RType)
    ensures OnePass(zone, sub, qtype)
         == Match(Answering(zone, sub, qtype), Pointing(zone, sub), Aliases(zone, sub), sub != "@" && Known(zone, sub))
  {
    hide Filter;
    KnownExactly(zone, sub);
    if sub == "@" || Named(zone.records, sub) {
      BornMatched(zone, sub, qtype);
    } else {
      WildMatched(zone, sub, qtype);
    }
  }

  lemma KnownExactly(zone: Zone, sub: string)
    ensures Named(zone.records, sub) <==> exists k :: 0 <= k < |zone.records| && Bears(zone.records[k], sub)
    ensures NameExists(zone, sub) <==> sub != "@" && Known(zone, sub)
  {
    forall k | 0 <= k < |zone.records|
      ensures Bears(zone.records[k], sub) <==> RecName(zone.records[k]) == sub
      ensures zone.records[k].name == "*" <==> RecName(zone.records[k]) == "*"
    {
    }
  }

  // A record bears the name, or it is the zone's own: then only such records count.
  lemma BornMatched(zone: Zone, sub: string, qtype: RType)
    requires sub == "@" || Named(zone.records, sub)
    ensures var m := OnePass(zone, sub, qtype);
            m.matched == Answering(zone, sub, qtype) && m.cname == Pointing(zone, sub) && m.alias == Aliases(zone, sub)
  {
    var rs := zone.records;
    KnownExactly(zone, sub);
    forall r
      ensures CountsAt(zone, sub, r) <==> RecName(r) == sub
    {
    }
    BornLists(zone, sub, qtype);
    hide Filter, Named, WhenMatched, WhenCname, WhenAlias, Prompt, Late, OfType;
    if sub == "@" {
      NoCnameAtApex(rs);
    }
  }

  lemma NoCnameAtApex(rs: seq<Record>)
    ensures Filter(rs, WhenCname("@")) == []
  {
    FilterNothing(rs, WhenCname("@"));
  }

  lemma BornLists(zone: Zone, sub: string, qtype: RType)
    requires forall r :: CountsAt(zone, sub, r) <==> RecName(r) == sub
    ensures var rs := zone.records;
            && Filter(rs, Prompt(zone, sub, qtype)) == Filter(rs, WhenMatched(sub, qtype))
            && Filter(rs, Late(zone, sub, qtype)) == []
            && (sub != "@" ==> Filter(rs, OfType(zone, sub, CNAME)) == Filter(rs, WhenCname(sub)))
            && Filter(rs, OfType(zone, sub, ALIAS)) == Filter(rs, WhenAlias(sub))
  {
    hide CountsAt, Filter;
    var rs := zone.records;
    FilterSame(rs, Prompt(zone, sub, qtype), WhenMatched(sub, qtype));
    FilterNothing(rs, Late(zone, sub, qtype));
    if sub != "@" {
      FilterSame(rs, OfType(zone, sub, CNAME), WhenCname(sub));
    }
    FilterSame(rs, OfType(zone, sub, ALIAS), WhenAlias(sub));
  }

  // No record bears the name: then those of the wildcard count.
  lemma WildMatched(zone: Zone, sub: string, qtype: RType)
    requires sub != "@" && !Named(zone.records, sub)
    ensures var m := OnePass(zone, sub, qtype);
            m.matched == Answering(zone, sub, qtype) && m.cname == Pointing(zone, sub) && m.alias == Aliases(zone, sub)
  {
    var rs := zone.records;
    KnownExactly(zone, sub);
    forall r | r in rs
      ensures RecName(r) != sub && !Bears(r, sub) && (CountsAt(zone, sub, r) <==> Wild(r, sub))
    {
      var k :| 0 <= k < |rs| && rs[k] == r;
    }
    WildLists(zone, sub, qtype);
    NothingBorn(rs, sub, qtype);
    hide Filter, Named, WhenMatched, WhenCname, WhenAlias, Prompt, Late, OfType, WhenWildMatched, WhenWild;
  }

  lemma NothingBorn(rs: seq<Record>, sub: string, qtype: RType)
    requires forall r :: r in rs ==> RecName(r) != sub
    ensures Filter(rs, WhenMatched(sub, qtype)) == [] && Filter(rs, WhenCname(sub)) == [] && Filter(rs, WhenAlias(sub)) == []
  {
    hide Filter, RecName;
    FilterNothing(rs, WhenMatched(sub, qtype));
    FilterNothing(rs, WhenCname(sub));
    FilterNothing(rs, WhenAlias(sub));
  }

  lemma WildLists(zone: Zone, sub: string, qtype: RType)
    requires sub != "@" && forall r :: r in zone.records ==> !Bears(r, sub) && (CountsAt(zone, sub, r) <==> Wild(r, sub))
    ensures var rs := zone.records;
            && Filter(rs, Prompt(zone, sub, qtype)) == Filter(rs, WhenWildMatched(sub, qtype))
            && Filter(rs, Late(zone, sub, qtype))
               == (if qtype == CNAME || qtype == ANY then Filter(rs, WhenWild(sub, CNAME)) else [])
            && Filter(rs, OfType(zone, sub, CNAME)) == Filter(rs, WhenWild(sub, CNAME))
            && Filter(rs, OfType(zone, sub, ALIAS)) == Filter(rs, WhenWild(sub, ALIAS))
  {
    hide CountsAt, Filter, Bears, Wild;
    var rs := zone.records;
    FilterSame(rs, Prompt(zone, sub, qtype), WhenWildMatched(sub, qtype));
    FilterSame(rs, OfType(zone, sub, CNAME), WhenWild(sub, CNAME));
    FilterSame(rs, OfType(zone, sub, ALIAS), WhenWild(sub, ALIAS));
    if qtype == CNAME || qtype == ANY {
      FilterSame(rs, Late(zone, sub, qtype), WhenWild(sub, CNAME));
    } else {
      FilterNothing(rs, Late(zone, sub, qtype));
    }
  }

  // ---------- what is made of a record ----------

  predicate Makes(parses: Parser, rec: Record, sub: string)
  {
    || rec.rtype in {MX, TXT, NS, SRV, CAA, PTR, DNAME}
    || (rec.rtype in {A, AAAA, SOA} && parses(rec.rtype, rec.value))
    || (rec.rtype == CNAME && sub != "@")
  }

  // t is s with a dot at its end.
  predicate Dotted(s: string, t: string)
  {
    if s != "" && s[|s| - 1] == '.' then t == s else |t| == |s| + 1 && t[..|s|] == s && t[|s|] == '.'
  }

  // ttl is what 32 bits keep of x.
  predicate Keeps32(x: int, ttl: int)
  {
    0 <= ttl < 0x1_0000_0000 && (x - ttl) % 0x1_0000_0000 == 0
  }

  // The zone's override, except for an SOA; else the record's own TTL, or an hour for none.
  predicate TtlOf(zone: Zone, rec: Record, ttl: int)
  {
    if zone.ttlOverride > 0 && rec.rtype != SOA then Keeps32(zone.ttlOverride, ttl)
    else if Keeps32(rec.ttl, 0) then ttl == 3600
    else Keeps32(rec.ttl, ttl)
  }

  predicate IsRROf(zone: Zone, rec: Record, sub: string, rr: RR)
  {
    && Dotted(if sub == "@" then zone.domain else sub + "." + zone.domain, rr.name)
    && rr.rrtype == rec.rtype && TtlOf(zone, rec, rr.ttl)
    && if rec.rtype in {CNAME, DNAME, MX, NS, PTR, SRV} then Dotted(rec.value, rr.data) else rr.data == rec.value
  }

  lemma FqdnIsDotted(s: string)
    ensures Dotted(s, Fqdn(s))
  {
  }

  lemma ToUint32Keeps(x: int)
    ensures Keeps32(x, ToUint32(x)) && (Keeps32(x, 0) <==> ToUint32(x) == 0)
  {
  }

  lemma RecordMakesExactly(parses: Parser, zone: Zone, rec: Record, sub: string)
    ensures var rr := RecordToRR(parses, zone, rec, sub);
            (rr.Some? <==> Makes(parses, rec, sub)) && (rr.Some? ==> IsRROf(zone, rec, sub, rr.value))
  {
    FqdnIsDotted(if sub == "@" then zone.domain else sub + "." + zone.domain);
    FqdnIsDotted(rec.value);
    ToUint32Keeps(zone.ttlOverride);
    ToUint32Keeps(rec.ttl);
    hide Fqdn, Dotted, ToUint32, Keeps32;
  }

  // rrs has, in order, one RR for each record that makes one.
  ghost predicate MadeFrom(parses: Parser, zone: Zone, sub: string, recs: seq<Record>, rrs: seq<RR>)
  {
    if recs == [] then rrs == []
    else
      var n := |recs| - 1;
      if Makes(parses, recs[n], sub)
      then rrs != [] && IsRROf(zone, recs[n], sub, rrs[|rrs| - 1]) && MadeFrom(parses, zone, sub, recs[..n], rrs[..|rrs| - 1])
      else MadeFrom(parses, zone, sub, recs[..n], rrs)
  }

  lemma {:induction false} RRsAreMade(parses: Parser, zone: Zone, sub: string, recs: seq<Record>)
    ensures MadeFrom(parses, zone, sub, recs, RRs(parses, zone, recs, sub))
  {
    hide RecordToRR, Makes, IsRROf;
    if recs != [] {
      var n := |recs| - 1;
      var rest := RRs(parses, zone, recs[..n], sub);
      RRsAreMade(parses, zone, sub, recs[..n]);
      RecordMakesExactly(parses, zone, recs[n], sub);
      var rr := RecordToRR(parses, zone, recs[n], sub);
      if rr.Some? {
        assert (rest + [rr.value])[..|rest|] == rest;
      }
    }
  }

  // ---------- the response ----------

  // No record answers, but a CNAME points elsewhere.
  ghost predicate Defers(zone: Zone, sub: string, qtype: RType)
  {
    qtype != CNAME && qtype != ANY && Answering(zone, sub, qtype) == [] && Pointing(zone, sub) != []
  }

  lemma DefersExactly(zone: Zone, sub: string, qtype: RType)
    ensures Defers(zone, sub, qtype) <==> Chases(OnePass(zone, sub, qtype), qtype)
  {
    hide OnePass, Answering, Pointing, Aliases;
    MatchedExactly(zone, sub, qtype);
  }

  // The response without a chase: what is made of the records that answer, nothing to go on
  // with but perhaps an ALIAS, and NXDOMAIN for a name nothing covers.
  lemma DirectAnswer(parses: Parser, zone: Zone, sub: string, qtype: RType)
    requires !Defers(zone, sub, qtype)
    ensures var zr := Respond(parses, zone, sub, qtype);
            && MadeFrom(parses, zone, sub, Answering(zone, sub, qtype), zr.answer) && zr.cnameTarget == ""
            && if zr.answer == [] && Aliases(zone, sub) != [] && (qtype == A || qtype == AAAA)
               then zr.aliasTarget == Aliases(zone, sub)[0].value && zr.rcode == 0
               else zr.aliasTarget == "" && zr.rcode == if zr.answer == [] && sub != "@" && !Known(zone, sub) then 3 else 0
  {
    DefersExactly(zone, sub, qtype);
    MatchedExactly(zone, sub, qtype);
    RRsAreMade(parses, zone, sub, Answering(zone, sub, qtype));
    hide OnePass, Answering, Pointing, Aliases, Known, ChainsOf, RRs, MadeFrom, HasAnswerOfType;
  }

  // The response of a chase in a zone with at most one CNAME per name: the CNAMEs of the
  // names passed, then what is made of the records at the first name that has some of the
  // type asked for; else the name to go on with is the one where the chain stops.
  lemma ChaseAnswer(parses: Parser, zone: Zone, sub: string, qtype: RType) returns (t: nat)
    requires GoodZone(zone) && Lower(sub) == sub && Defers(zone, sub, qtype)
    ensures var zr, name := Respond(parses, zone, sub, qtype), ZoneFQDN(zone, sub);
            && 1 <= t <= 9 && AllPass(zone, qtype, name, t) && NoRepeat(zone, name, t)
            && LaidOut(zone, qtype, name, zr.answer, 0, t) && zr.aliasTarget == "" && zr.rcode == 0
            && if ReachesFrom(zone, qtype, name, 1) then
                 && t <= 8 && Holds(zone, qtype, ChainName(zone, name, t)) && zr.cnameTarget == ""
                 && MadeFrom(parses, zone, SubOf(zone, ChainName(zone, name, t)),
                             MatchedAt(zone, qtype, ChainName(zone, name, t)), zr.answer[t..])
               else
                 |zr.answer| == t && zr.cnameTarget == ChainName(zone, name, t) && NoFurther(zone, qtype, name, t)
  {
    var name := ZoneFQDN(zone, sub);
    DefersExactly(zone, sub, qtype);
    OnePassCname(zone, sub, qtype);
    t := ChaseStopsSomewhere(parses, zone, qtype, sub);
    var c := ChainsOf(parses, zone, CnameList(zone, sub), sub, qtype);
    RRsAreMade(parses, zone, SubOf(zone, ChainName(zone, name, t)), MatchedAt(zone, qtype, ChainName(zone, name, t)));
    OnlyLinks(zone, qtype, name, c.rrs, t);
    hide OnePass, ChainsOf, CnameList, MatchedAt, MadeFrom, RRs, AllPass, NoRepeat, ChainName, NoFurther, ReachesFrom, Holds;
    hide GoodZone, ZoneFQDN, SubOf, Defers, LinkAt, LandsAt;
  }

  // Up to where the chain stops there are CNAMEs only.
  lemma OnlyLinks(zone: Zone, qtype: RType, name: string, rrs: seq<RR>, t: nat)
    requires LaidOut(zone, qtype, name, rrs, 0, t) && qtype != CNAME
    ensures |rrs| == t ==> !HasAnswerOfType(rrs, qtype)
  {
    hide ChainName, Norm;
    forall i: nat | i < t
      ensures rrs[i].rrtype == CNAME
    {
      assert LinkAt(zone, name, rrs[i], 0 + i);
    }
  }

  // ---------- several CNAMEs at one name ----------

  // Behind each CNAME its chain was followed, past the names the chains before it had met.
  ghost predicate Tails(parses: Parser, zone: Zone, sub: string, recs: seq<Record>, qtype: RType, tails: seq<Tail>)
  {
    && |tails| == |recs|
    && forall i :: 0 <= i < |recs| ==>
         tails[i] == Behind(parses, zone, recs[i], qtype, MetBefore(zone, sub, tails, i))
  }

  function Behind(parses: Parser, zone: Zone, rec: Record, qtype: RType, seen: set<string>): Tail
  {
    Follow(parses, zone, qtype, Canonical(rec.value), seen, 0)
  }

  // The names met before the chain behind the i-th CNAME.
  function MetBefore(zone: Zone, sub: string, tails: seq<Tail>, i: nat): set<string>
    requires i <= |tails|
  {
    if i == 0 then {ZoneFQDN(zone, sub)} else tails[i - 1].seen
  }

  // rrs strings together each CNAME's own RR and what its chain gave.
  ghost predicate Strung(zone: Zone, sub: string, recs: seq<Record>, tails: seq<Tail>, rrs: seq<RR>)
    requires |tails| == |recs|
  {
    if recs == [] then rrs == []
    else
      var n := |recs| - 1;
      exists front, rr :: rrs == front + [rr] + tails[n].rrs && IsRROf(zone, recs[n], sub, rr)
                          && Strung(zone, sub, recs[..n], tails[..n], front)
  }

  // A chain that was not answered, and does not end at the root.
  predicate Open(t: Tail)
  {
    !t.ok && t.end != ""
  }

  // The end of the first open chain, if there is one.
  ghost predicate FirstOpenEnd(tails: seq<Tail>, end: string)
  {
    if forall i :: 0 <= i < |tails| ==> !Open(tails[i]) then end == ""
    else exists i :: 0 <= i < |tails| && Open(tails[i]) && tails[i].end == end && forall j :: 0 <= j < i ==> !Open(tails[j])
  }

  // All the CNAMEs at a name are in the answer, each with its chain behind it, and the name to
  // go on with is the end of the first chain that was not answered.
  lemma {:induction false} AllCnamesFollowed(parses: Parser, zone: Zone, recs: seq<Record>, sub: string, qtype: RType)
      returns (tails: seq<Tail>)
    requires sub != "@" && forall r :: r in recs ==> r.rtype == CNAME
    ensures var c := ChainsOf(parses, zone, recs, sub, qtype);
            && Tails(parses, zone, sub, recs, qtype, tails) && Strung(zone, sub, recs, tails, c.rrs)
            && FirstOpenEnd(tails, c.unresolved)
            && c.seen == MetBefore(zone, sub, tails, |tails|)
  {
    if recs == [] {
      tails := [];
    } else {
      var n := |recs| - 1;
      var before := ChainsOf(parses, zone, recs[..n], sub, qtype);
      assert recs[n] in recs;
      var front := AllCnamesFollowed(parses, zone, recs[..n], sub, qtype);
      var t := Behind(parses, zone, recs[n], qtype, before.seen);
      var rr := OneMoreChain(parses, zone, recs, sub, qtype);
      tails := front + [t];
      hide Behind, ZoneFQDN, IsRROf, FirstOpenEnd, ChainsOf, Strung, Tails;
      OneMoreTail(parses, zone, sub, recs, qtype, front, before.seen);
      OneMoreStrung(zone, sub, recs, front, t, before.rrs, rr);
      OneMoreEnd(front, t, before.unresolved);
    }
  }

  lemma OneMoreChain(parses: Parser, zone: Zone, recs: seq<Record>, sub: string, qtype: RType) returns (rr: RR)
    requires sub != "@" && recs != [] && recs[|recs| - 1].rtype == CNAME
    ensures var n := |recs| - 1;
            var c, before := ChainsOf(parses, zone, recs, sub, qtype), ChainsOf(parses, zone, recs[..n], sub, qtype);
            var t := Behind(parses, zone, recs[n], qtype, before.seen);
            && IsRROf(zone, recs[n], sub, rr) && c.rrs == before.rrs + [rr] + t.rrs && c.seen == t.seen
            && c.unresolved == if !t.ok && before.unresolved == "" then t.end else before.unresolved
  {
    var last := recs[|recs| - 1];
    RecordMakesExactly(parses, zone, last, sub);
    hide Follow, Canonical, RecordToRR, IsRROf;
    rr := RecordToRR(parses, zone, last, sub).value;
  }

  lemma OneMoreTail(parses: Parser, zone: Zone, sub: string, recs: seq<Record>, qtype: RType, front: seq<Tail>, seen: set<string>)
    requires recs != [] && Tails(parses, zone, sub, recs[..|recs| - 1], qtype, front)
    requires seen == MetBefore(zone, sub, front, |front|)
    ensures var t := Behind(parses, zone, recs[|recs| - 1], qtype, seen);
            Tails(parses, zone, sub, recs, qtype, front + [t])
  {
    hide Behind, MetBefore;
    var n := |recs| - 1;
    var t := Behind(parses, zone, recs[n], qtype, seen);
    var tails := front + [t];
    forall i | 0 <= i < |recs|
      ensures tails[i] == Behind(parses, zone, recs[i], qtype, MetBefore(zone, sub, tails, i))
    {
      SameBefore(zone, sub, front, t, i);
      assert i < n ==> recs[..n][i] == recs[i];
    }
  }

  lemma SameBefore(zone: Zone, sub: string, front: seq<Tail>, t: Tail, i: nat)
    requires i <= |front|
    ensures MetBefore(zone, sub, front + [t], i) == MetBefore(zone, sub, front, i)
  {
  }

  lemma OneMoreStrung(zone: Zone, sub: string, recs: seq<Record>, front: seq<Tail>, t: Tail, rrs: seq<RR>, rr: RR)
    requires recs != [] && |front| == |recs| - 1 && Strung(zone, sub, recs[..|recs| - 1], front, rrs)
    requires IsRROf(zone, recs[|recs| - 1], sub, rr)
    ensures Strung(zone, sub, recs, front + [t], rrs + [rr] + t.rrs)
  {
    hide IsRROf;
    assert (front + [t])[..|front|] == front;
  }

  lemma OneMoreEnd(front: seq<Tail>, t: Tail, end: string)
    requires FirstOpenEnd(front, end)
    ensures FirstOpenEnd(front + [t], if !t.ok && end == "" then t.end else end)
  {
    var all := front + [t];
    assert forall i :: 0 <= i < |front| ==> all[i] == front[i];
    if forall i :: 0 <= i < |front| ==> !Open(front[i]) {
      assert Open(t) ==> Open(all[|front|]);
    } else {
      var i :| 0 <= i < |front| && Open(front[i]) && front[i].end == end && forall j :: 0 <= j < i ==> !Open(front[j]);
      assert Open(all[i]);
    }
  }

  // ---------- every record of every answer ----------

  // rr is made of some record of the zone.
  ghost predicate FromZone(parses: Parser, zone: Zone, rr: RR)
  {
    exists rec, sub :: rec in zone.records && Makes(parses, rec, sub) && IsRROf(zone, rec, sub, rr)
  }

  ghost predicate AllFromZone(parses: Parser, zone: Zone, rrs: seq<RR>)
  {
    forall i :: 0 <= i < |rrs| ==> FromZone(parses, zone, rrs[i])
  }

  lemma {:induction false} RRsFromZone(parses: Parser, zone: Zone, sub: string, recs: seq<Record>)
    requires forall r :: r in recs ==> r in zone.records
    ensures AllFromZone(parses, zone, RRs(parses, zone, recs, sub))
  {
    hide RecordToRR, Makes, IsRROf;
    if recs != [] {
      var n := |recs| - 1;
      RRsFromZone(parses, zone, sub, recs[..n]);
      RecordMakesExactly(parses, zone, recs[n], sub);
    }
  }

  lemma MatchInZone(zone: Zone, sub: string, qtype: RType)
    ensures var m := OnePass(zone, sub, qtype); forall r :: r in m.matched || r in m.cname ==> r in zone.records
  {
    MatchedExactly(zone, sub, qtype);
    hide OnePass;
  }

  lemma {:induction false} FollowFromZone(parses: Parser, zone: Zone, qtype: RType, current: string, seen: set<string>, depth: nat)
    ensures AllFromZone(parses, zone, Follow(parses, zone, qtype, current, seen, depth).rrs)
    decreases MAX_CHAIN_DEPTH - depth
  {
    hide OnePass, RRs, Canonical, SubOf, FromZone;
    if depth < MAX_CHAIN_DEPTH && current !in seen && Below(zone, current) {
      var sub := SubOf(zone, current);
      var m := OnePass(zone, sub, qtype);
      MatchInZone(zone, sub, qtype);
      RRsFromZone(parses, zone, sub, m.matched);
      RRsFromZone(parses, zone, sub, m.cname);
      if m.matched == [] && m.cname != [] {
        FollowFromZone(parses, zone, qtype, Canonical(m.cname[0].value), seen + {current}, depth + 1);
      }
    }
  }

  lemma {:induction false} ChainsFromZone(parses: Parser, zone: Zone, recs: seq<Record>, sub: string, qtype: RType)
    requires forall r :: r in recs ==> r in zone.records
    ensures AllFromZone(parses, zone, ChainsOf(parses, zone, recs, sub, qtype).rrs)
  {
    hide Follow, Canonical, RecordToRR, Makes, IsRROf;
    if recs != [] {
      var n := |recs| - 1;
      var before := ChainsOf(parses, zone, recs[..n], sub, qtype);
      ChainsFromZone(parses, zone, recs[..n], sub, qtype);
      RecordMakesExactly(parses, zone, recs[n], sub);
      FollowFromZone(parses, zone, qtype, Canonical(recs[n].value), before.seen, 0);
    }
  }

  // Along CNAMEs or not, the answer has nothing but what is made of the zone's records.
  lemma AnswerFromZone(parses: Parser, zone: Zone, sub: string, qtype: RType)
    ensures AllFromZone(parses, zone, Respond(parses, zone, sub, qtype).answer)
  {
    hide OnePass, RRs, ChainsOf, FromZone;
    var m := OnePass(zone, sub, qtype);
    MatchInZone(zone, sub, qtype);
    RRsFromZone(parses, zone, sub, m.matched);
    ChainsFromZone(parses, zone, m.cname, sub, qtype);
  }

  // ---------- names below the zone ----------

  // Below the zone are the names with at least one more label, and what comes before the
  // zone's name is the subdomain.
  lemma BelowExactly(zone: Zone, name: string)
    ensures Below(zone, name) <==> exists sub :: name == sub + "." + Norm(zone.domain)
    ensures forall sub :: name == sub + "." + Norm(zone.domain) ==> SubOf(zone, name) == sub
  {
    var domain := Norm(zone.domain);
    if Below(zone, name) {
      var sub := SubOf(zone, name);
      assert name == sub + ("." + domain) == sub + "." + domain;
    }
    forall sub | name == sub + "." + domain
      ensures Below(zone, name) && SubOf(zone, name) == sub
    {
      SuffixRoundTrip(sub, domain);
    }
  }
}
