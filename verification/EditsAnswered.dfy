/** From an edit to the answer: what a patch, a dynamic update or a lease stores under a name
    is what a query for that name gets, once the zone is loaded. */
module EditsAnswered {
  import opened Common
  import opened DnsMessage
  import opened Filters
  import opened Names
  import opened ZoneData
  import opened ZoneIndex
  import opened ZoneAnswer
  import opened CnameChain
  import opened RecordStore
  import AnswerFacts
  import PatchFacts
  import RrsetPatch
  import DynUpdate
  import DhcpSync

  ghost predicate NamesGiven(rs: seq<Record>)
  {
    forall r :: r in rs ==> r.name != ""
  }

  // The subdomain under which a query for this name is looked up in the zone.
  function QuerySub(name: string, zone: Zone): string
  {
    Subdomain(Norm(name), Norm(zone.domain))
  }

  // ---------- the response made from the records of one name and type ----------

  // Records that differ in their ids only make the same RRs, in zones of one name.
  lemma {:induction false} IdsDoNotShow(parses: Parser, z: Zone, z': Zone, recs: seq<Record>, recs': seq<Record>,
        sub: string)
    requires z'.domain == z.domain && z'.ttlOverride == z.ttlOverride
    requires RrsetPatch.PlainAll(recs) == RrsetPatch.PlainAll(recs')
    ensures RRs(parses, z', recs, sub) == RRs(parses, z, recs', sub)
    decreases |recs|
  {
    assert |recs| == |recs'|;
    if recs != [] {
      var n := |recs| - 1;
      var plain := RrsetPatch.PlainAll(recs);
      assert plain[..n] == RrsetPatch.PlainAll(recs[..n]) == RrsetPatch.PlainAll(recs'[..n]);
      assert plain[n] == RrsetPatch.Plain(recs[n]) == RrsetPatch.Plain(recs'[n]);
      IdsDoNotShow(parses, z, z', recs[..n], recs'[..n], sub);
      IdDoesNotShow(parses, z, z', recs[n], recs'[n], sub);
      hide RecordToRR, RrsetPatch.PlainAll, RrsetPatch.Plain;
    }
  }

  lemma IdDoesNotShow(parses: Parser, z: Zone, z': Zone, r: Record, r': Record, sub: string)
    requires z'.domain == z.domain && z'.ttlOverride == z.ttlOverride && RrsetPatch.Plain(r) == RrsetPatch.Plain(r')
    ensures RecordToRR(parses, z', r, sub) == RecordToRR(parses, z, r', sub)
  {
    hide Fqdn;
  }

  // With records of the type, the answer is made of them.
  lemma MatchedAnswer(parses: Parser, z: Zone, sub: string, qtype: RType)
    requires OnePass(z, sub, qtype).matched != []
    ensures Respond(parses, z, sub, qtype).answer == RRs(parses, z, OnePass(z, sub, qtype).matched, sub)
  {
    hide ChainsOf, RRs, OnePass;
  }

  // With records at the name itself, of those alone.
  lemma ExactAnswer(parses: Parser, z: Zone, sub: string, qtype: RType, recs: seq<Record>)
    requires Filter(z.records, WhenMatched(sub, qtype)) == recs != []
    ensures Respond(parses, z, sub, qtype).answer == RRs(parses, z, recs, sub)
  {
    hide Respond, RRs;
    assert recs[0] in z.records && RecName(recs[0]) == sub;
    assert Named(z.records, sub);
    assert OnePass(z, sub, qtype).matched == recs + [] + [];
    MatchedAnswer(parses, z, sub, qtype);
    assert recs + [] == recs;
  }

  // ---------- RRset patches ----------

  lemma RelativeNameIsQuerySub(name: string, z: Zone)
    requires Lower(z.domain) == Norm(z.domain) && RrsetPatch.RelativeRecordName(name, z.domain).Ok?
    ensures RrsetPatch.RelativeRecordName(name, z.domain) == Ok(QuerySub(name, z)) && QuerySub(name, z) != ""
  {
    hide Norm, Lower;
  }

  lemma {:induction false} AppendKeepsNames(rs: seq<Record>, added: seq<Record>)
    requires NamesGiven(rs) && NamesGiven(added)
    ensures NamesGiven(RrsetPatch.AppendAll(rs, added))
  {
    if added != [] {
      assert added[|added| - 1] in added;
      AppendKeepsNames(rs, added[..|added| - 1]);
    }
  }

  lemma {:induction false} PatchKeepsNames(syntax: RrsetPatch.Syntax, z: Zone, rrsets: seq<RrsetPatch.RRSet>)
    requires NamesGiven(z.records) && Lower(z.domain) == Norm(z.domain)
    requires RrsetPatch.FirstFailure(syntax, z.domain, z.ttl, rrsets).None?
    ensures NamesGiven(RrsetPatch.Patched(syntax, z, rrsets).records)
  {
    if rrsets != [] {
      var n := |rrsets| - 1;
      var rs, before := rrsets[n], RrsetPatch.Patched(syntax, z, rrsets[..n]).records;
      PatchKeepsNames(syntax, z, rrsets[..n]);
      RrsetPatch.WantedSlot(syntax, z.domain, z.ttl, rs);
      RelativeNameIsQuerySub(rs.name, z);
      hide Filter, Norm, RrsetPatch.RelativeRecordName, RrsetPatch.RecordsOf, RrsetPatch.Wanted;
      assert NamesGiven(RrsetPatch.Wanted(syntax, z.domain, z.ttl, rs));
      AppendKeepsNames(Filter(before, RrsetPatch.Elsewhere(RrsetPatch.RelName(rs, z.domain), rs.rtype)),
                       RrsetPatch.Wanted(syntax, z.domain, z.ttl, rs));
    }
  }

  // After a successful patch, a query for the name and type of an entry that has the last
  // word is answered with exactly its enabled contents, in order.
  lemma PatchedIsAnswered(parses: Parser, syntax: RrsetPatch.Syntax, z: Zone, rrsets: seq<RrsetPatch.RRSet>, j: nat)
    requires NamesGiven(z.records) && Lower(z.domain) == Norm(z.domain)
    requires RrsetPatch.FirstFailure(syntax, z.domain, z.ttl, rrsets).None?
    requires j < |rrsets| && RrsetPatch.LastWord(rrsets, z.domain, j)
    requires RrsetPatch.Wanted(syntax, z.domain, z.ttl, rrsets[j]) != []
    ensures var sub := QuerySub(rrsets[j].name, z);
            Respond(parses, RrsetPatch.Patched(syntax, z, rrsets), sub, rrsets[j].rtype).answer
            == RRs(parses, z, RrsetPatch.Wanted(syntax, z.domain, z.ttl, rrsets[j]), sub)
  {
    var rs, z' := rrsets[j], RrsetPatch.Patched(syntax, z, rrsets);
    var sub, wanted := QuerySub(rs.name, z), RrsetPatch.Wanted(syntax, z.domain, z.ttl, rs);
    PatchFacts.NothingFailed(syntax, z.domain, z.ttl, rrsets, j);
    RelativeNameIsQuerySub(rs.name, z);
    PatchKeepsNames(syntax, z, rrsets);
    RrsetPatch.PatchKeepsRest(syntax, z, rrsets);
    RrsetPatch.NamedSlotHoldsLastEntry(syntax, z, rrsets, j);
    var at, recs := RrsetPatch.At(sub, rs.rtype), Filter(z'.records, WhenMatched(sub, rs.rtype));
    assert rs.rtype != ALIAS && rs.rtype != ANY;
    SlotIsMatch(z'.records, sub, rs.rtype);
    RrsetPatch.PlainFilter(z'.records, at);
    RrsetPatch.WantedSlot(syntax, z.domain, z.ttl, rs);
    PlainIsPlain(wanted);
    hide Filter, Respond, RRs, RrsetPatch.Wanted, RrsetPatch.Patched, RrsetPatch.FirstFailure, RrsetPatch.Failure;
    ExactAnswer(parses, z', sub, rs.rtype, recs);
    IdsDoNotShow(parses, z, z', recs, wanted, sub);
  }

  // In other words, with one RR for each enabled content, in order: its value, owned by the
  // name, with the TTL asked for within bounds or the zone's override.
  lemma ContentsAreAnswered(parses: Parser, syntax: RrsetPatch.Syntax, z: Zone, rrsets: seq<RrsetPatch.RRSet>, j: nat)
      returns (ks: seq<nat>, recs: seq<Record>)
    requires NamesGiven(z.records) && Lower(z.domain) == Norm(z.domain)
    requires RrsetPatch.FirstFailure(syntax, z.domain, z.ttl, rrsets).None?
    requires j < |rrsets| && RrsetPatch.LastWord(rrsets, z.domain, j) && rrsets[j].changeType == RrsetPatch.Replace
    requires exists k :: 0 <= k < |rrsets[j].records| && !rrsets[j].records[k].disabled
    ensures var rs, sub := rrsets[j], QuerySub(rrsets[j].name, z);
            && PatchFacts.ListsEnabled(rs.records, ks)
            && PatchFacts.StandFor(syntax, z.domain, z.ttl, rs, rs.records, ks, recs)
            && AnswerFacts.MadeFrom(parses, z, sub, recs,
                                    Respond(parses, RrsetPatch.Patched(syntax, z, rrsets), sub, rs.rtype).answer)
  {
    var rs, sub := rrsets[j], QuerySub(rrsets[j].name, z);
    recs := RrsetPatch.Wanted(syntax, z.domain, z.ttl, rs);
    ks := PatchFacts.RecordsAreTheEnabled(syntax, z.domain, z.ttl, rs, rs.records);
    PatchFacts.NothingFailed(syntax, z.domain, z.ttl, rrsets, j);
    hide RrsetPatch.RecordsOf, RrsetPatch.FirstFailure, RrsetPatch.LastWord, RrsetPatch.RelName, PatchFacts.StandsFor;
    hide Norm, QuerySub, RRs, Respond, RrsetPatch.Patched;
    var k: nat :| k < |rs.records| && !rs.records[k].disabled;
    assert k in ks;
    PatchedIsAnswered(parses, syntax, z, rrsets, j);
    AnswerFacts.RRsAreMade(parses, z, sub, recs);
  }

  // Among named records, a name and type pick out what a query for them matches.
  lemma SlotIsMatch(rs: seq<Record>, sub: string, rtype: RType)
    requires NamesGiven(rs) && sub != "" && rtype != ALIAS && rtype != ANY
    ensures Filter(rs, WhenMatched(sub, rtype)) == Filter(rs, RrsetPatch.At(sub, rtype))
  {
    FilterSame(rs, WhenMatched(sub, rtype), RrsetPatch.At(sub, rtype));
  }

  lemma {:induction false} PlainIsPlain(rs: seq<Record>)
    requires forall i :: 0 <= i < |rs| ==> rs[i].id == 0
    ensures RrsetPatch.PlainAll(rs) == rs
  {
    if rs != [] {
      PlainIsPlain(rs[..|rs| - 1]);
    }
  }

  // ---------- dynamic updates ----------

  lemma UpdateNameIsQuerySub(rr: DynUpdate.UpdateRR, z: Zone)
    requires LabelSuffix(Norm(z.domain), Norm(rr.name)) && Norm(rr.name) != "." + Norm(z.domain)
    ensures DynUpdate.RecordName(rr, z.domain) == QuerySub(rr.name, z) != ""
  {
    hide Norm;
    var s, domain := Norm(rr.name), Norm(z.domain);
    if s != domain {
      assert s == TrimSuffix(s, "." + domain) + ("." + domain);
    }
  }

  // After a put, a query for its name and type is answered with its one record.
  lemma PutIsAnswered(parses: Parser, z: Zone, rr: DynUpdate.UpdateRR)
    requires NamesGiven(z.records) && rr.rrclass == DynUpdate.Inet && DynUpdate.Supported(rr.rrtype)
    requires LabelSuffix(Norm(z.domain), Norm(rr.name)) && Norm(rr.name) != "." + Norm(z.domain)
    ensures var sub := QuerySub(rr.name, z);
            Respond(parses, z.(records := DynUpdate.Updated(z.records, rr, z.domain)), sub, rr.rrtype).answer
            == RRs(parses, z, [DynUpdate.RRToRecord(rr, z.domain).value], sub)
  {
    hide Filter, Respond, RRs, Norm, QuerySub, TrimSuffix, HasSuffix, NoneMatches, DynUpdate.Updated, DynUpdate.RecordName;
    var sub := QuerySub(rr.name, z);
    UpdateNameIsQuerySub(rr, z);
    PutStores(z.records, rr, z.domain);
    var stored := Stored(z.records, rr, z.domain);
    var kept := Filter(z.records, DynUpdate.Keeps(rr, z.domain));
    AnsweredByTheNew(parses, z, z.(records := kept + [stored]), kept,
                     DynUpdate.RRToRecord(rr, z.domain).value, stored, sub, rr.rrtype);
  }

  // The record as a put stores it.
  function Stored(rs: seq<Record>, rr: DynUpdate.UpdateRR, domain: string): Record
    requires DynUpdate.Supported(rr.rrtype)
  {
    DynUpdate.RRToRecord(rr, domain).value.(id := MaxId(Filter(rs, DynUpdate.Keeps(rr, domain))) + 1)
  }

  lemma PutStores(rs: seq<Record>, rr: DynUpdate.UpdateRR, domain: string)
    requires NamesGiven(rs) && rr.rrclass == DynUpdate.Inet && DynUpdate.Supported(rr.rrtype)
    requires DynUpdate.RecordName(rr, domain) != ""
    ensures var kept, stored := Filter(rs, DynUpdate.Keeps(rr, domain)), Stored(rs, rr, domain);
            && DynUpdate.Updated(rs, rr, domain) == kept + [stored]
            && NoneMatches(kept, DynUpdate.RecordName(rr, domain), rr.rrtype)
            && WhenMatched(DynUpdate.RecordName(rr, domain), rr.rrtype)(stored)
            && RrsetPatch.Plain(stored) == RrsetPatch.Plain(DynUpdate.RRToRecord(rr, domain).value)
  {
    hide Filter, DynUpdate.RecordName, NoneMatches;
    PutNew(Filter(rs, DynUpdate.Keeps(rr, domain)), DynUpdate.RRToRecord(rr, domain).value);
    KeptDoesNotMatch(rs, rr, domain, DynUpdate.RecordName(rr, domain));
  }

  lemma AnsweredByTheNew(parses: Parser, z: Zone, z': Zone, kept: seq<Record>, rec: Record, stored: Record, sub: string, qtype: RType)
    requires z'.domain == z.domain && z'.ttlOverride == z.ttlOverride && z'.records == kept + [stored]
    requires NoneMatches(kept, sub, qtype)
    requires WhenMatched(sub, qtype)(stored) && RrsetPatch.Plain(stored) == RrsetPatch.Plain(rec)
    ensures Respond(parses, z', sub, qtype).answer == RRs(parses, z, [rec], sub)
  {
    OneIsPlain(stored);
    OneIsPlain(rec);
    OnlyTheNew(kept, stored, WhenMatched(sub, qtype));
    hide Filter, Respond, RRs, RrsetPatch.PlainAll;
    ExactAnswer(parses, z', sub, qtype, [stored]);
    IdsDoNotShow(parses, z, z', [stored], [rec], sub);
  }

  ghost predicate NoneMatches(rs: seq<Record>, sub: string, qtype: RType)
  {
    forall i :: 0 <= i < |rs| ==> !WhenMatched(sub, qtype)(rs[i])
  }

  lemma KeptDoesNotMatch(rs: seq<Record>, rr: DynUpdate.UpdateRR, domain: string, sub: string)
    requires NamesGiven(rs) && rr.rrclass == DynUpdate.Inet && DynUpdate.Supported(rr.rrtype)
    requires DynUpdate.RecordName(rr, domain) == sub
    ensures NoneMatches(Filter(rs, DynUpdate.Keeps(rr, domain)), sub, rr.rrtype)
  {
    hide DynUpdate.RecordName;
    var kept := Filter(rs, DynUpdate.Keeps(rr, domain));
    forall i | 0 <= i < |kept|
      ensures !WhenMatched(sub, rr.rrtype)(kept[i])
    {
      assert kept[i] in kept;
      assert DynUpdate.Keeps(rr, domain)(kept[i]) && kept[i] in rs;
    }
  }

  lemma OneIsPlain(rec: Record)
    ensures RrsetPatch.PlainAll([rec]) == [RrsetPatch.Plain(rec)]
  {
    assert [rec][..0] == [];
  }

  lemma OnlyTheNew(kept: seq<Record>, rec: Record, p: Record -> bool)
    requires (forall i :: 0 <= i < |kept| ==> !p(kept[i])) && p(rec)
    ensures Filter(kept + [rec], p) == [rec]
  {
    assert (kept + [rec])[..|kept|] == kept;
    FilterNothing(kept, p);
  }

  // ---------- leases ----------

  // The RRs made from a list come from its records, one by one.
  lemma {:induction false} MadeFromRecords(parses: Parser, z: Zone, recs: seq<Record>, sub: string, rr: RR)
    ensures rr in RRs(parses, z, recs, sub) <==> exists r :: r in recs && RecordToRR(parses, z, r, sub) == Some(rr)
  {
    hide RecordToRR;
    if recs != [] {
      var n := |recs| - 1;
      MadeFromRecords(parses, z, recs[..n], sub, rr);
      assert recs == recs[..n] + [recs[n]];
    }
  }

  // An address record makes an RR with its address exactly if the address is one of IPv4, and
  // nothing else makes such an RR.
  lemma AddressRR(parses: Parser, z: Zone, r: Record, sub: string, ip: string)
    ensures var rr := RecordToRR(parses, z, r, sub);
            && (r.rtype == A && r.value == ip && parses(A, ip) ==> rr.Some? && rr.value.rrtype == A && rr.value.data == ip)
            && (rr.Some? && rr.value.rrtype == A && rr.value.data == ip ==> parses(A, ip))
  {
    hide Fqdn;
  }

  lemma LeaseIsMatched(z: Zone, state: map<string, DhcpSync.Tracked>, ip: string) returns (r: Record)
    requires DhcpSync.Inv(state, z.records) && ip in state && state[ip].hostname != ""
    ensures r in OnePass(z, state[ip].hostname, A).matched && DhcpSync.IsRecordOf(r, ip, state[ip])
  {
    assert DhcpSync.Held(z.records, ip, state[ip]);
    var i :| 0 <= i < |z.records| && DhcpSync.IsRecordOf(z.records[i], ip, state[ip]);
    r := z.records[i];
    var p := WhenMatched(state[ip].hostname, A);
    FilterKeeps(z.records, p, r);
    hide Filter;
    assert r in Filter(z.records, p);
  }

  // A query for the name of a tracked lease is answered with its address exactly if that is
  // an IPv4 address: the record of an IPv6 lease is stored as an A record, too, and makes no RR.
  lemma LeaseIsAnswered(parses: Parser, z: Zone, state: map<string, DhcpSync.Tracked>, ip: string)
    requires DhcpSync.Inv(state, z.records) && ip in state && state[ip].hostname != ""
    ensures (exists rr :: rr in Respond(parses, z, state[ip].hostname, A).answer && rr.rrtype == A && rr.data == ip) <==>
            parses(A, ip)
  {
    hide OnePass, RRs, Respond, RecordToRR, DhcpSync.Inv;
    var sub := state[ip].hostname;
    var matched := OnePass(z, sub, A).matched;
    var r := LeaseIsMatched(z, state, ip);
    MatchedAnswer(parses, z, sub, A);
    AddressRR(parses, z, r, sub, ip);
    if parses(A, ip) {
      MadeFromRecords(parses, z, matched, sub, RecordToRR(parses, z, r, sub).value);
    }
    forall rr | rr in RRs(parses, z, matched, sub) && rr.rrtype == A && rr.data == ip
      ensures parses(A, ip)
    {
      MadeFromRecords(parses, z, matched, sub, rr);
      var m :| m in matched && RecordToRR(parses, z, m, sub) == Some(rr);
      AddressRR(parses, z, m, sub, ip);
    }
  }
}
