/** Following CNAMEs inside one zone (appendCNAMEChainAnswer, appendInZoneCNAMEChain) and
    the answer a zone gives (GenerateResponse). */
module CnameChain {
  import opened Common
  import opened DnsMessage
  import opened Filters
  import opened Names
  import opened ZoneData
  import opened ZoneIndex
  import opened ZoneAnswer

  const MAX_CHAIN_DEPTH: nat := 8
  const RCODE_NAME_ERROR: nat := 3

  // ---------- the code ----------

  // The canonical form of a CNAME target.
  function Canonical(target: string): string
  {
    Lower(TrimDot(Fqdn(target)))
  }

  // A name inside the zone and not the apex itself.
  predicate Below(zone: Zone, name: string)
  {
    name != Norm(zone.domain) && HasSuffix(name, "." + Norm(zone.domain))
  }

  function SubOf(zone: Zone, name: string): string
  {
    TrimSuffix(name, "." + Norm(zone.domain))
  }

  // What following one target appends, the name where it stopped, whether it was answered
  // there, and the names visited.
  datatype Tail = Tail(rrs: seq<RR>, end: string, ok: bool, seen: set<string>)

  function Follow(parses: Parser, zone: Zone, qtype: RType, current: string, seen: set<string>, depth: nat): Tail
    decreases MAX_CHAIN_DEPTH - depth
  {
    if depth >= MAX_CHAIN_DEPTH || current in seen then Tail([], current, false, seen)
    else
      var visited := seen + {current};
      if !Below(zone, current) then Tail([], current, false, visited)
      else
        var sub := SubOf(zone, current);
        var m := OnePass(zone, sub, qtype);
        if m.matched != [] then Tail(RRs(parses, zone, m.matched, sub), "", true, visited)
        else if m.cname == [] then Tail([], current, false, visited)
        else
          var rest := Follow(parses, zone, qtype, Canonical(m.cname[0].value), visited, depth + 1);
          rest.(rrs := RRs(parses, zone, m.cname, sub) + rest.rrs)
  }

  method AppendInZoneCNAMEChain(parses: Parser, answer: seq<RR>, zone: Zone, target: string, qtype: RType,
        seen: set<string>)
      returns (r: Tail)
    ensures var t := Follow(parses, zone, qtype, Canonical(target), seen, 0);
            r == t.(rrs := answer + t.rrs)
  {
    hide OnePass, RRs, Below, Canonical, SubOf;
    var current := Canonical(target);
    var resp, visited := answer, seen;
    ghost var whole := Follow(parses, zone, qtype, current, seen, 0);
    for depth := 0 to MAX_CHAIN_DEPTH
      invariant var t := Follow(parses, zone, qtype, current, visited, depth);
                whole.end == t.end && whole.ok == t.ok && whole.seen == t.seen && answer + whole.rrs == resp + t.rrs
    {
      if current in visited {
        assert resp + [] == resp;
        return Tail(resp, current, false, visited);
      }
      visited := visited + {current};
      if !Below(zone, current) {
        assert resp + [] == resp;
        return Tail(resp, current, false, visited);
      }
      var sub := SubOf(zone, current);
      var m := MatchZoneRecords(zone, sub, qtype);
      if |m.matched| > 0 {
        resp := AppendRRs(parses, resp, zone, m.matched, sub);
        return Tail(resp, "", true, visited);
      }
      if |m.cname| == 0 {
        assert resp + [] == resp;
        return Tail(resp, current, false, visited);
      }
      ghost var rest := Follow(parses, zone, qtype, Canonical(m.cname[0].value), visited, depth + 1);
      Regroup(resp, RRs(parses, zone, m.cname, sub), rest.rrs);
      resp := AppendRRs(parses, resp, zone, m.cname, sub);
      current := Canonical(m.cname[0].value);
    }
    assert resp + [] == resp;
    return Tail(resp, current, false, visited);
  }

  lemma Regroup(a: seq<RR>, b: seq<RR>, c: seq<RR>)
    ensures a + (b + c) == (a + b) + c
  {
  }

  datatype Chains = Chains(rrs: seq<RR>, unresolved: string, seen: set<string>)

  // All CNAME records at the queried name, each with its chain behind it.
  function ChainsOf(parses: Parser, zone: Zone, recs: seq<Record>, sub: string, qtype: RType): Chains
  {
    if recs == [] then Chains([], "", {ZoneFQDN(zone, sub)})
    else
      var before := ChainsOf(parses, zone, recs[..|recs| - 1], sub, qtype);
      var rec := recs[|recs| - 1];
      match RecordToRR(parses, zone, rec, sub)
      case None => before
      case Some(rr) =>
        var t := Follow(parses, zone, qtype, Canonical(rec.value), before.seen, 0);
        Chains(before.rrs + [rr] + t.rrs,
               if !t.ok && before.unresolved == "" then t.end else before.unresolved,
               t.seen)
  }

  method AppendCNAMEChainAnswer(parses: Parser, answer: seq<RR>, zone: Zone, recs: seq<Record>, sub: string,
        qtype: RType)
      returns (resp: seq<RR>, unresolved: string)
    ensures var c := ChainsOf(parses, zone, recs, sub, qtype);
            resp == answer + c.rrs && unresolved == c.unresolved
  {
    hide Follow, RecordToRR, ZoneFQDN;
    var seen := {ZoneFQDN(zone, sub)};
    resp, unresolved := answer, "";
    for i := 0 to |recs|
      invariant var c := ChainsOf(parses, zone, recs[..i], sub, qtype);
                resp == answer + c.rrs && unresolved == c.unresolved && seen == c.seen
    {
      assert recs[..i + 1][..i] == recs[..i] && recs[..i + 1][i] == recs[i];
      var rr := RecordToRR(parses, zone, recs[i], sub);
      if rr.None? {
        continue;
      }
      ghost var before := ChainsOf(parses, zone, recs[..i], sub, qtype).rrs;
      Regroup(answer, before, [rr.value]);
      Regroup(answer, before + [rr.value], Follow(parses, zone, qtype, Canonical(recs[i].value), seen, 0).rrs);
      resp := resp + [rr.value];
      var t := AppendInZoneCNAMEChain(parses, resp, zone, recs[i].value, qtype, seen);
      resp, seen := t.rrs, t.seen;
      if !t.ok && unresolved == "" {
        unresolved := t.end;
      }
    }
    assert recs[..|recs|] == recs;
  }

  // The response to a query. At most one of the two targets is set; then the pipeline
  // carries on from there.
  datatype Response = Response(answer: seq<RR>, rcode: nat, aliasTarget: string, cnameTarget: string)

  predicate HasAnswerOfType(rrs: seq<RR>, qtype: RType)
  {
    exists i :: 0 <= i < |rrs| && rrs[i].rrtype == qtype
  }

  predicate Chases(m: Match, qtype: RType)
  {
    m.matched == [] && m.cname != [] && qtype != CNAME && qtype != ANY
  }

  function Respond(parses: Parser, zone: Zone, sub: string, qtype: RType): Response
  {
    var m := OnePass(zone, sub, qtype);
    var chains := ChainsOf(parses, zone, m.cname, sub, qtype);
    var answer := if Chases(m, qtype) then chains.rrs else RRs(parses, zone, m.matched, sub);
    var unresolved := if Chases(m, qtype) then chains.unresolved else "";
    if answer == [] && m.alias != [] && (qtype == A || qtype == AAAA) then
      Response(answer, RCODE_SUCCESS, m.alias[0].value, "")
    else
      Response(answer,
               if answer == [] && !m.nameExists && sub != "@" then RCODE_NAME_ERROR else RCODE_SUCCESS,
               "",
               if unresolved != "" && !HasAnswerOfType(answer, qtype) then unresolved else "")
  }

  method GenerateResponse(parses: Parser, zone: Zone, sub: string, qtype: RType) returns (zr: Response)
    ensures zr == Respond(parses, zone, sub, qtype)
  {
    hide OnePass, RRs, ChainsOf, HasAnswerOfType;
    var m := MatchZoneRecords(zone, sub, qtype);
    var answer: seq<RR> := [];
    var unresolved := "";
    if |m.matched| == 0 && |m.cname| > 0 && qtype != CNAME && qtype != ANY {
      answer, unresolved := AppendCNAMEChainAnswer(parses, [], zone, m.cname, sub, qtype);
      assert answer == ChainsOf(parses, zone, m.cname, sub, qtype).rrs;
    } else {
      answer := AppendRRs(parses, [], zone, m.matched, sub);
      assert answer == RRs(parses, zone, m.matched, sub);
    }
    var rcode := RCODE_SUCCESS;
    if |answer| == 0 && |m.alias| > 0 && (qtype == A || qtype == AAAA) {
      return Response(answer, rcode, m.alias[0].value, "");
    }
    if |answer| == 0 && !m.nameExists && sub != "@" {
      rcode := RCODE_NAME_ERROR;
    }
    zr := Response(answer, rcode, "", "");
    if unresolved != "" && !HasAnswerOfType(answer, qtype) {
      zr := zr.(cnameTarget := unresolved);
    }
  }

  // ---------- the zone's TTL override ----------

  ghost predicate Overridden(zone: Zone, rrs: seq<RR>)
  {
    forall rr :: rr in rrs && rr.rrtype != SOA ==> rr.ttl == ToUint32(zone.ttlOverride)
  }

  lemma {:induction false} RRsOverridden(parses: Parser, zone: Zone, recs: seq<Record>, sub: string)
    requires 0 < zone.ttlOverride
    ensures Overridden(zone, RRs(parses, zone, recs, sub))
  {
    hide Fqdn;
    if recs != [] {
      RRsOverridden(parses, zone, recs[..|recs| - 1], sub);
    }
  }

  lemma {:induction false} FollowOverridden(parses: Parser, zone: Zone, qtype: RType, current: string, seen: set<string>, depth: nat)
    requires 0 < zone.ttlOverride
    ensures Overridden(zone, Follow(parses, zone, qtype, current, seen, depth).rrs)
    decreases MAX_CHAIN_DEPTH - depth
  {
    hide OnePass, RRs, Canonical, SubOf;
    if depth < MAX_CHAIN_DEPTH && current !in seen && Below(zone, current) {
      var sub := SubOf(zone, current);
      var m := OnePass(zone, sub, qtype);
      RRsOverridden(parses, zone, m.matched, sub);
      RRsOverridden(parses, zone, m.cname, sub);
      if m.matched == [] && m.cname != [] {
        FollowOverridden(parses, zone, qtype, Canonical(m.cname[0].value), seen + {current}, depth + 1);
      }
    }
  }

  lemma {:induction false} ChainsOverridden(parses: Parser, zone: Zone, recs: seq<Record>, sub: string, qtype: RType)
    requires 0 < zone.ttlOverride
    ensures Overridden(zone, ChainsOf(parses, zone, recs, sub, qtype).rrs)
  {
    hide Follow, Canonical, Fqdn;
    if recs != [] {
      var before := ChainsOf(parses, zone, recs[..|recs| - 1], sub, qtype);
      ChainsOverridden(parses, zone, recs[..|recs| - 1], sub, qtype);
      FollowOverridden(parses, zone, qtype, Canonical(recs[|recs| - 1].value), before.seen, 0);
    }
  }

  // An override sets the TTL of every record of every answer of the zone, along CNAME chains
  // too; only an SOA keeps its own.
  lemma OverrideSetsEveryTtl(parses: Parser, zone: Zone, sub: string, qtype: RType)
    requires 0 < zone.ttlOverride
    ensures Overridden(zone, Respond(parses, zone, sub, qtype).answer)
  {
    hide OnePass, RRs, ChainsOf;
    RRsOverridden(parses, zone, OnePass(zone, sub, qtype).matched, sub);
    ChainsOverridden(parses, zone, OnePass(zone, sub, qtype).cname, sub, qtype);
  }
}
